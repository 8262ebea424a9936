/** When cached values stay correct: growing the cache, clearing part of it, and changing user values. */
module Frames {
  import opened KconfigLang
  import opened Evaluation
  import opened Dependents
  import opened Choices

  // Filling more caches

  lemma GrowExpr(cfg: Config, u: User, d: set<Query>, d': set<Query>, e: Expr)
    requires Sane(cfg, u) && d <= d' && ExprRead(cfg, u, d, e)
    ensures ExprRead(cfg, u, d', e)
  {
  }

  lemma GrowFirstVisible(cfg: Config, u: User, d: set<Query>, d': set<Query>, c: nat, k: nat)
    requires Sane(cfg, u) && d <= d' && k <= |ChoiceAt(cfg, c).syms| && FirstVisibleRead(cfg, u, d, c, k)
    ensures FirstVisibleRead(cfg, u, d', c, k)
    decreases |ChoiceAt(cfg, c).syms| - k
  {
  }

  lemma GrowSelDefault(cfg: Config, u: User, d: set<Query>, d': set<Query>, c: nat, k: nat)
    requires Sane(cfg, u) && d <= d' && k <= |ChoiceAt(cfg, c).defaults| && SelDefaultRead(cfg, u, d, c, k)
    ensures SelDefaultRead(cfg, u, d', c, k)
    decreases |ChoiceAt(cfg, c).defaults| - k
  {
    if k == |ChoiceAt(cfg, c).defaults| {
      GrowFirstVisible(cfg, u, d, d', c, 0);
    } else {
      GrowExpr(cfg, u, d, d', ChoiceAt(cfg, c).defaults[k].cond);
    }
  }

  lemma GrowDefaultTri(cfg: Config, u: User, d: set<Query>, d': set<Query>, s: nat, k: nat)
    requires Sane(cfg, u) && d <= d' && k <= |SymAt(cfg, s).defaults| && DefaultTriRead(cfg, u, d, s, k)
    ensures DefaultTriRead(cfg, u, d', s, k)
    decreases |SymAt(cfg, s).defaults| - k
  {
    if k < |SymAt(cfg, s).defaults| {
      var p := SymAt(cfg, s).defaults[k];
      GrowExpr(cfg, u, d, d', p.cond);
      if Ev(cfg, u, p.cond) != 0 { GrowExpr(cfg, u, d, d', p.value); }
    }
  }

  lemma GrowDefaultStr(cfg: Config, u: User, d: set<Query>, d': set<Query>, s: nat, k: nat)
    requires Sane(cfg, u) && d <= d' && k <= |SymAt(cfg, s).defaults| && DefaultStrRead(cfg, u, d, s, k)
    ensures DefaultStrRead(cfg, u, d', s, k)
    decreases |SymAt(cfg, s).defaults| - k
  {
    if k < |SymAt(cfg, s).defaults| {
      GrowExpr(cfg, u, d, d', SymAt(cfg, s).defaults[k].cond);
    }
  }

  lemma GrowRange(cfg: Config, u: User, d: set<Query>, d': set<Query>, s: nat, k: nat)
    requires Sane(cfg, u) && d <= d' && k <= |SymAt(cfg, s).ranges| && RangeRead(cfg, u, d, s, k)
    ensures RangeRead(cfg, u, d', s, k)
    decreases |SymAt(cfg, s).ranges| - k
  {
    if k < |SymAt(cfg, s).ranges| {
      GrowExpr(cfg, u, d, d', SymAt(cfg, s).ranges[k].cond);
    }
  }

  lemma GrowExprs(cfg: Config, u: User, d: set<Query>, d': set<Query>)
    requires Sane(cfg, u) && d <= d'
    ensures forall e :: ExprRead(cfg, u, d, e) ==> ExprRead(cfg, u, d', e)
  {
    forall e | ExprRead(cfg, u, d, e) ensures ExprRead(cfg, u, d', e) {
      GrowExpr(cfg, u, d, d', e);
    }
  }

  lemma GrowTri(cfg: Config, u: User, d: set<Query>, d': set<Query>, s: nat)
    requires Sane(cfg, u) && d <= d' && TriReads(cfg, u, d, s)
    ensures TriReads(cfg, u, d', s)
  {
    GrowExprs(cfg, u, d, d');
    if DefaultTriRead(cfg, u, d, s, 0) { GrowDefaultTri(cfg, u, d, d', s, 0); }
  }

  lemma Grow(cfg: Config, u: User, d: set<Query>, d': set<Query>, q: Query)
    requires Sane(cfg, u) && d <= d' && Reads(cfg, u, d, q)
    ensures Reads(cfg, u, d', q)
  {
    match q
    case VisQ(i) => GrowExprs(cfg, u, d, d');
    case SelQ(c) =>
      if ModeOf(cfg, u, c) == 2 && !PickVisible(cfg, u, c) { GrowSelDefault(cfg, u, d, d', c, 0); }
    case TriQ(s) => GrowTri(cfg, u, d, d', s);
    case StrQ(s) =>
      if RangeRead(cfg, u, d, s, 0) { GrowRange(cfg, u, d, d', s, 0); }
      if DefaultStrRead(cfg, u, d, s, 0) { GrowDefaultStr(cfg, u, d, d', s, 0); }
    case AsgQ(i) => GrowExprs(cfg, u, d, d');
  }

  // Clearing the caches of the items in v

  ghost predicate ClearedTo(d: set<Query>, v: set<Item>, d': set<Query>) {
    forall q :: q in d && ItemOf(q) !in v ==> q in d'
  }

  /** Nothing that item i depends on has been cleared. */
  ghost predicate Untouched(cfg: Config, v: set<Item>, i: Item) {
    i !in v && S(cfg.modules) !in v && forall j :: j in v ==> !DependsOn(cfg, i, j)
  }

  ghost predicate AvoidsExpr(cfg: Config, v: set<Item>, e: Expr) {
    S(cfg.modules) !in v && forall j :: j in v ==> !Mentions(e, j)
  }

  lemma KeepLeaf(cfg: Config, u: User, d: set<Query>, v: set<Item>, d': set<Query>, x: Leaf)
    requires Sane(cfg, u) && ClearedTo(d, v, d') && AvoidsExpr(cfg, v, Atom(x))
    ensures LeafRead(cfg, u, d, x) ==> LeafRead(cfg, u, d', x)
    ensures TextRead(cfg, u, d, x) ==> TextRead(cfg, u, d', x)
    ensures NumRead(cfg, u, d, x) ==> NumRead(cfg, u, d', x)
  {
    assert forall j :: Mentions(Atom(x), j) ==> j !in v;
    match x
    case Ref(s) => assert Mentions(Atom(x), S(s));
    case Mode(c) => assert Mentions(Atom(x), C(c));
    case _ =>
  }

  lemma {:induction false} KeepExpr(cfg: Config, u: User, d: set<Query>, v: set<Item>, d': set<Query>, e: Expr)
    requires Sane(cfg, u) && ClearedTo(d, v, d') && AvoidsExpr(cfg, v, e) && ExprRead(cfg, u, d, e)
    ensures ExprRead(cfg, u, d', e)
  {
    match e
    case Atom(x) => KeepLeaf(cfg, u, d, v, d', x);
    case And(l, r) =>
      KeepExpr(cfg, u, d, v, d', l);
      if Ev(cfg, u, l) != 0 { KeepExpr(cfg, u, d, v, d', r); }
    case Or(l, r) =>
      KeepExpr(cfg, u, d, v, d', l);
      if Ev(cfg, u, l) != 2 { KeepExpr(cfg, u, d, v, d', r); }
    case Not(e1) => KeepExpr(cfg, u, d, v, d', e1);
    case Rel(_, a, b) =>
      assert forall j :: j in v ==> !Mentions(e, j);
      assert forall j :: Mentions(Atom(a), j) || Mentions(Atom(b), j) ==> Mentions(e, j);
      KeepLeaf(cfg, u, d, v, d', a);
      KeepLeaf(cfg, u, d, v, d', b);
  }

  /** The expressions and operands that a symbol or choice evaluates. */
  ghost predicate Uses(cfg: Config, i: Item, e: Expr) {
    match i
    case S(s) =>
      var d := SymAt(cfg, s);
      || (exists k :: 0 <= k < |d.nodes| && d.nodes[k].prompt.Some? && e == d.nodes[k].prompt.value)
      || (exists k :: 0 <= k < |d.defaults| && (e == d.defaults[k].value || e == d.defaults[k].cond))
      || (exists k :: 0 <= k < |d.ranges| &&
                      (e == Atom(d.ranges[k].low) || e == Atom(d.ranges[k].high) || e == d.ranges[k].cond))
      || e == d.revDep || e == d.weakRevDep || e == d.directDep
    case C(c) =>
      var d := ChoiceAt(cfg, c);
      || (exists k :: 0 <= k < |d.nodes| && d.nodes[k].prompt.Some? && e == d.nodes[k].prompt.value)
      || (exists k :: 0 <= k < |d.defaults| && e == d.defaults[k].cond)
  }

  lemma UsesAvoid(cfg: Config, v: set<Item>, i: Item, e: Expr)
    requires Untouched(cfg, v, i) && Uses(cfg, i, e)
    ensures AvoidsExpr(cfg, v, e)
  {
    forall j | j in v ensures !Mentions(e, j) {
      assert !DependsOn(cfg, i, j);
    }
  }

  lemma KeepUses(cfg: Config, u: User, d: set<Query>, v: set<Item>, d': set<Query>, i: Item)
    requires Sane(cfg, u) && ClearedTo(d, v, d') && Untouched(cfg, v, i)
    ensures forall e :: Uses(cfg, i, e) && ExprRead(cfg, u, d, e) ==> ExprRead(cfg, u, d', e)
  {
    forall e | Uses(cfg, i, e) && ExprRead(cfg, u, d, e) ensures ExprRead(cfg, u, d', e) {
      UsesAvoid(cfg, v, i, e);
      KeepExpr(cfg, u, d, v, d', e);
    }
  }

  /** A choice symbol whose prompts are not all n depends on its choice. */
  lemma PromptMentionsChoice(cfg: Config, u: User, s: nat)
    requires Sane(cfg, u) && ChoiceSymOk(cfg, s) && SymAt(cfg, s).choice.Some?
    requires Prompts(cfg, u, S(s), |SymAt(cfg, s).nodes|) != 0
    ensures DependsOn(cfg, S(s), C(SymAt(cfg, s).choice.value))
  {
    var c := SymAt(cfg, s).choice.value;
    var k := PromptWitness(cfg, u, S(s), |SymAt(cfg, s).nodes|);
    GuardMentions(cfg, u, c, SymAt(cfg, s).nodes[k].prompt.value);
  }

  lemma GuardMentions(cfg: Config, u: User, c: nat, e: Expr)
    requires Sane(cfg, u) && Guards(Atom(Mode(c)), e) && Ev(cfg, u, e) != 0
    ensures Mentions(e, C(c))
  {
  }

  lemma KeepFirstVisible(cfg: Config, u: User, d: set<Query>, v: set<Item>, d': set<Query>, c: nat, k: nat)
    requires Sane(cfg, u) && ClearedTo(d, v, d') && Untouched(cfg, v, C(c))
    requires k <= |ChoiceAt(cfg, c).syms| && FirstVisibleRead(cfg, u, d, c, k)
    ensures FirstVisibleRead(cfg, u, d', c, k)
    decreases |ChoiceAt(cfg, c).syms| - k
  {
    var def := ChoiceAt(cfg, c);
    if k < |def.syms| {
      assert DependsOn(cfg, C(c), S(def.syms[k]));
      if Vis(cfg, u, S(def.syms[k])) == 0 { KeepFirstVisible(cfg, u, d, v, d', c, k + 1); }
    }
  }

  lemma KeepSelDefault(cfg: Config, u: User, d: set<Query>, v: set<Item>, d': set<Query>, c: nat, k: nat)
    requires Sane(cfg, u) && ChoicesOk(cfg) && ClearedTo(d, v, d') && Untouched(cfg, v, C(c))
    requires k <= |ChoiceAt(cfg, c).defaults| && SelDefaultRead(cfg, u, d, c, k)
    ensures SelDefaultRead(cfg, u, d', c, k)
    decreases |ChoiceAt(cfg, c).defaults| - k
  {
    var def := ChoiceAt(cfg, c);
    if k == |def.defaults| {
      KeepFirstVisible(cfg, u, d, v, d', c, 0);
    } else {
      var p := def.defaults[k];
      UsesAvoid(cfg, v, C(c), p.cond);
      KeepExpr(cfg, u, d, v, d', p.cond);
      assert ChoiceRanked(cfg, c) && ChoiceSymOk(cfg, p.sym);
      assert DependsOn(cfg, C(c), S(p.sym));
      if Ev(cfg, u, p.cond) == 0 || Vis(cfg, u, S(p.sym)) == 0 { KeepSelDefault(cfg, u, d, v, d', c, k + 1); }
    }
  }

  lemma KeepDefaultTri(cfg: Config, u: User, d: set<Query>, v: set<Item>, d': set<Query>, s: nat, k: nat)
    requires Sane(cfg, u) && ClearedTo(d, v, d') && Untouched(cfg, v, S(s))
    requires k <= |SymAt(cfg, s).defaults| && DefaultTriRead(cfg, u, d, s, k)
    ensures DefaultTriRead(cfg, u, d', s, k)
    decreases |SymAt(cfg, s).defaults| - k
  {
    if k < |SymAt(cfg, s).defaults| {
      KeepUses(cfg, u, d, v, d', S(s));
      var p := SymAt(cfg, s).defaults[k];
      assert Uses(cfg, S(s), p.cond) && Uses(cfg, S(s), p.value);
      if Ev(cfg, u, p.cond) == 0 { KeepDefaultTri(cfg, u, d, v, d', s, k + 1); }
    }
  }

  lemma KeepDefaultStr(cfg: Config, u: User, d: set<Query>, v: set<Item>, d': set<Query>, s: nat, k: nat)
    requires Sane(cfg, u) && ClearedTo(d, v, d') && Untouched(cfg, v, S(s))
    requires k <= |SymAt(cfg, s).defaults| && DefaultStrRead(cfg, u, d, s, k)
    ensures DefaultStrRead(cfg, u, d', s, k)
    decreases |SymAt(cfg, s).defaults| - k
  {
    if k < |SymAt(cfg, s).defaults| {
      var p := SymAt(cfg, s).defaults[k];
      UsesAvoid(cfg, v, S(s), p.cond);
      KeepExpr(cfg, u, d, v, d', p.cond);
      if Ev(cfg, u, p.cond) == 0 {
        KeepDefaultStr(cfg, u, d, v, d', s, k + 1);
      } else {
        UsesAvoid(cfg, v, S(s), p.value);
        KeepLeaf(cfg, u, d, v, d', DefaultLeaf(p.value));
      }
    }
  }

  lemma KeepRange(cfg: Config, u: User, d: set<Query>, v: set<Item>, d': set<Query>, s: nat, k: nat)
    requires Sane(cfg, u) && ClearedTo(d, v, d') && Untouched(cfg, v, S(s))
    requires k <= |SymAt(cfg, s).ranges| && RangeRead(cfg, u, d, s, k)
    ensures RangeRead(cfg, u, d', s, k)
    decreases |SymAt(cfg, s).ranges| - k
  {
    if k < |SymAt(cfg, s).ranges| {
      var p := SymAt(cfg, s).ranges[k];
      UsesAvoid(cfg, v, S(s), p.cond);
      KeepExpr(cfg, u, d, v, d', p.cond);
      if Ev(cfg, u, p.cond) == 0 {
        KeepRange(cfg, u, d, v, d', s, k + 1);
      } else {
        UsesAvoid(cfg, v, S(s), Atom(p.low));
        UsesAvoid(cfg, v, S(s), Atom(p.high));
        KeepLeaf(cfg, u, d, v, d', p.low);
        KeepLeaf(cfg, u, d, v, d', p.high);
      }
    }
  }

  lemma KeepVis(cfg: Config, u: User, d: set<Query>, v: set<Item>, d': set<Query>, i: Item)
    requires Sane(cfg, u) && ChoicesOk(cfg) && ClearedTo(d, v, d') && Untouched(cfg, v, i)
    requires VisReads(cfg, u, d, i)
    ensures VisReads(cfg, u, d', i)
  {
    KeepUses(cfg, u, d, v, d', i);
    forall k | 0 <= k < |NodesOf(cfg, i)| && NodesOf(cfg, i)[k].prompt.Some?
      ensures ExprRead(cfg, u, d', NodesOf(cfg, i)[k].prompt.value)
    {
      assert Uses(cfg, i, NodesOf(cfg, i)[k].prompt.value);
    }
    if i.S? && SymAt(cfg, i.s).choice.Some? && Prompts(cfg, u, i, |NodesOf(cfg, i)|) != 0 {
      assert ChoiceSymOk(cfg, i.s);
      PromptMentionsChoice(cfg, u, i.s);
    }
  }

  lemma KeepTri(cfg: Config, u: User, d: set<Query>, v: set<Item>, d': set<Query>, s: nat)
    requires Sane(cfg, u) && ChoicesOk(cfg) && ClearedTo(d, v, d') && Untouched(cfg, v, S(s))
    requires TriReads(cfg, u, d, s)
    ensures TriReads(cfg, u, d', s)
  {
    var def := SymAt(cfg, s);
    if Boolish(def.typ) && def.choice.Some? {
      assert ChoiceSymOk(cfg, s);
      if Vis(cfg, u, S(s)) == 2 { PromptMentionsChoice(cfg, u, s); }
    } else {
      KeepUses(cfg, u, d, v, d', S(s));
      assert Uses(cfg, S(s), def.weakRevDep) && Uses(cfg, S(s), def.directDep) && Uses(cfg, S(s), def.revDep);
      if DefaultTriRead(cfg, u, d, s, 0) { KeepDefaultTri(cfg, u, d, v, d', s, 0); }
    }
  }

  lemma KeepSel(cfg: Config, u: User, d: set<Query>, v: set<Item>, d': set<Query>, c: nat)
    requires Sane(cfg, u) && ChoicesOk(cfg) && ClearedTo(d, v, d') && Untouched(cfg, v, C(c))
    requires SelReads(cfg, u, d, c)
    ensures SelReads(cfg, u, d', c)
  {
    if ModeOf(cfg, u, c) == 2 {
      if c in u.pick {
        assert ChoiceSymOk(cfg, u.pick[c]);
        assert DependsOn(cfg, C(c), S(u.pick[c]));
      }
      if !PickVisible(cfg, u, c) { KeepSelDefault(cfg, u, d, v, d', c, 0); }
    }
  }

  lemma KeepStr(cfg: Config, u: User, d: set<Query>, v: set<Item>, d': set<Query>, s: nat)
    requires Sane(cfg, u) && ClearedTo(d, v, d') && Untouched(cfg, v, S(s)) && StrReads(cfg, u, d, s)
    ensures StrReads(cfg, u, d', s)
  {
    if RangeRead(cfg, u, d, s, 0) { KeepRange(cfg, u, d, v, d', s, 0); }
    if DefaultStrRead(cfg, u, d, s, 0) { KeepDefaultStr(cfg, u, d, v, d', s, 0); }
  }

  lemma KeepAsg(cfg: Config, u: User, d: set<Query>, v: set<Item>, d': set<Query>, i: Item)
    requires Sane(cfg, u) && ClearedTo(d, v, d') && Untouched(cfg, v, i) && AsgReads(cfg, u, d, i)
    ensures AsgReads(cfg, u, d', i)
  {
    KeepUses(cfg, u, d, v, d', i);
    if i.S? {
      var def := SymAt(cfg, i.s);
      assert Uses(cfg, i, def.revDep) && Uses(cfg, i, def.weakRevDep);
    }
  }

  /** A cached value still has all its inputs cached when nothing its item depends on has been cleared. */
  lemma Keep(cfg: Config, u: User, d: set<Query>, v: set<Item>, d': set<Query>, q: Query)
    requires Sane(cfg, u) && ChoicesOk(cfg) && ClearedTo(d, v, d') && Untouched(cfg, v, ItemOf(q))
    requires Reads(cfg, u, d, q)
    ensures Reads(cfg, u, d', q)
  {
    match q
    case VisQ(i) => KeepVis(cfg, u, d, v, d', i);
    case SelQ(c) => KeepSel(cfg, u, d, v, d', c);
    case TriQ(s) => KeepTri(cfg, u, d, v, d', s);
    case StrQ(s) => KeepStr(cfg, u, d, v, d', s);
    case AsgQ(i) => KeepAsg(cfg, u, d, v, d', i);
  }

  // Changing user values

  predicate SameVal(u: User, u': User, s: nat) {
    (s in u.val <==> s in u'.val) && (s in u.val ==> u.val[s] == u'.val[s])
  }

  predicate SameChoice(u: User, u': User, c: nat) {
    && (c in u.mode <==> c in u'.mode) && (c in u.mode ==> u.mode[c] == u'.mode[c])
    && (c in u.pick <==> c in u'.pick) && (c in u.pick ==> u.pick[c] == u'.pick[c])
  }

  /** Every cached value in d has all its inputs cached, and the two user states differ only where no cached
      value can notice. */
  ghost predicate Stable(cfg: Config, u: User, u': User, d: set<Query>) {
    && Sane(cfg, u) && Sane(cfg, u')
    && (forall q :: q in d ==> Reads(cfg, u, d, q))
    && (forall s: nat :: !SameVal(u, u', s) ==> VisQ(S(s)) !in d || Vis(cfg, u, S(s)) == 0)
    && (forall c: nat :: !SameChoice(u, u', c) ==> VisQ(C(c)) !in d)
  }

  lemma FrameLeaf(cfg: Config, u: User, u': User, d: set<Query>, x: Leaf)
    requires Stable(cfg, u, u', d)
    ensures LeafRead(cfg, u, d, x) ==> LeafTri(cfg, u, x) == LeafTri(cfg, u', x) && LeafRead(cfg, u', d, x)
    ensures TextRead(cfg, u, d, x) ==> LeafStr(cfg, u, x) == LeafStr(cfg, u', x) && TextRead(cfg, u', d, x)
    ensures NumRead(cfg, u, d, x) ==> LeafNum(cfg, u, x) == LeafNum(cfg, u', x) && NumRead(cfg, u', d, x)
    decreases LeafLevel(cfg, x), 0, 0
  {
    match x
    case Ref(s) =>
      if TriQ(s) in d { FrameTri(cfg, u, u', d, s); }
      if StrQ(s) in d { FrameStr(cfg, u, u', d, s); }
    case Mode(c) => if ModeRead(cfg, u, d, c) { FrameMode(cfg, u, u', d, c); }
    case _ =>
  }

  lemma {:induction false} FrameExpr(cfg: Config, u: User, u': User, d: set<Query>, e: Expr)
    requires Stable(cfg, u, u', d) && ExprRead(cfg, u, d, e)
    ensures Ev(cfg, u, e) == Ev(cfg, u', e) && ExprRead(cfg, u', d, e)
    decreases ExprLevel(cfg, e), 1, Size(e)
  {
    match e
    case Atom(x) => FrameLeaf(cfg, u, u', d, x);
    case And(l, r) =>
      FrameExpr(cfg, u, u', d, l);
      if Ev(cfg, u, l) != 0 { FrameExpr(cfg, u, u', d, r); }
    case Or(l, r) =>
      FrameExpr(cfg, u, u', d, l);
      if Ev(cfg, u, l) != 2 { FrameExpr(cfg, u, u', d, r); }
    case Not(e1) => FrameExpr(cfg, u, u', d, e1);
    case Rel(_, a, b) =>
      FrameLeaf(cfg, u, u', d, a);
      FrameLeaf(cfg, u, u', d, b);
  }

  lemma FramePrompts(cfg: Config, u: User, u': User, d: set<Query>, i: Item, n: nat)
    requires Stable(cfg, u, u', d) && n <= |NodesOf(cfg, i)| && PromptsRead(cfg, u, d, i, n)
    ensures Prompts(cfg, u, i, n) == Prompts(cfg, u', i, n) && PromptsRead(cfg, u', d, i, n)
    decreases VisLevel(cfg, i), 2, n
  {
    if n > 0 {
      FramePrompts(cfg, u, u', d, i, n - 1);
      assert i.S? ==> SymRanked(cfg, i.s);
      assert i.C? ==> ChoiceRanked(cfg, i.c);
      var p := NodesOf(cfg, i)[n - 1].prompt;
      if p.Some? { FrameExpr(cfg, u, u', d, p.value); }
    }
  }

  lemma FrameType(cfg: Config, u: User, u': User, d: set<Query>, s: nat)
    requires Stable(cfg, u, u', d) && TypeRead(cfg, u, d, s)
    ensures SymTypeOf(cfg, u, s) == SymTypeOf(cfg, u', s) && TypeRead(cfg, u', d, s)
    decreases 8 * Rank(cfg, S(s)) + 2, 2, 0
  {
    var def := SymAt(cfg, s);
    assert SymRanked(cfg, s);
    if def.typ == TRISTATE {
      if def.choice.Some? { FrameMode(cfg, u, u', d, def.choice.value); }
      if ModRead(cfg, d) { FrameTri(cfg, u, u', d, cfg.modules); }
    }
  }

  lemma FrameChoiceType(cfg: Config, u: User, u': User, d: set<Query>, c: nat)
    requires Stable(cfg, u, u', d) && ChoiceTypeRead(cfg, d, c)
    ensures ChoiceTypeOf(cfg, u, c) == ChoiceTypeOf(cfg, u', c)
    decreases 8 * Rank(cfg, C(c)), 2, 0
  {
    assert ChoiceRanked(cfg, c);
    if ChoiceAt(cfg, c).typ == TRISTATE { FrameTri(cfg, u, u', d, cfg.modules); }
  }

  lemma FrameVis(cfg: Config, u: User, u': User, d: set<Query>, i: Item)
    requires Stable(cfg, u, u', d) && VisQ(i) in d
    ensures Vis(cfg, u, i) == Vis(cfg, u', i) && VisReads(cfg, u', d, i)
    decreases VisLevel(cfg, i), 3, 0
  {
    assert Reads(cfg, u, d, VisQ(i));
    FramePrompts(cfg, u, u', d, i, |NodesOf(cfg, i)|);
    var v := Prompts(cfg, u, i, |NodesOf(cfg, i)|);
    match i
    case C(c) => if v == 1 { FrameChoiceType(cfg, u, u', d, c); }
    case S(s) =>
      var def := SymAt(cfg, s);
      if def.choice.Some? && ModeRead(cfg, u, d, def.choice.value) {
        FrameMode(cfg, u, u', d, def.choice.value);
      }
      if v == 1 && TypeRead(cfg, u, d, s) {
        FrameType(cfg, u, u', d, s);
      }
  }

  lemma FrameMode(cfg: Config, u: User, u': User, d: set<Query>, c: nat)
    requires Stable(cfg, u, u', d) && ModeRead(cfg, u, d, c)
    ensures RawMode(cfg, u, c) == RawMode(cfg, u', c)
    ensures ModeOf(cfg, u, c) == ModeOf(cfg, u', c) && ModeRead(cfg, u', d, c)
    decreases 8 * Rank(cfg, C(c)) + 1, 3, 0
  {
    FrameVis(cfg, u, u', d, C(c));
    assert SameChoice(u, u', c);
    if RawMode(cfg, u, c) == 1 { FrameChoiceType(cfg, u, u', d, c); }
  }

  lemma FrameFirstVisible(cfg: Config, u: User, u': User, d: set<Query>, c: nat, k: nat)
    requires Stable(cfg, u, u', d) && k <= |ChoiceAt(cfg, c).syms| && FirstVisibleRead(cfg, u, d, c, k)
    ensures FirstVisible(cfg, u, c, k) == FirstVisible(cfg, u', c, k) && FirstVisibleRead(cfg, u', d, c, k)
    decreases 8 * Rank(cfg, C(c)) + 3, 2, |ChoiceAt(cfg, c).syms| - k
  {
    var def := ChoiceAt(cfg, c);
    assert ChoiceRanked(cfg, c);
    if k < |def.syms| {
      FrameVis(cfg, u, u', d, S(def.syms[k]));
      if Vis(cfg, u, S(def.syms[k])) == 0 { FrameFirstVisible(cfg, u, u', d, c, k + 1); }
    }
  }

  lemma FrameSelDefault(cfg: Config, u: User, u': User, d: set<Query>, c: nat, k: nat)
    requires Stable(cfg, u, u', d) && k <= |ChoiceAt(cfg, c).defaults| && SelDefaultRead(cfg, u, d, c, k)
    ensures SelDefault(cfg, u, c, k) == SelDefault(cfg, u', c, k) && SelDefaultRead(cfg, u', d, c, k)
    decreases 8 * Rank(cfg, C(c)) + 3, 2, |ChoiceAt(cfg, c).defaults| - k + |ChoiceAt(cfg, c).syms| + 1
  {
    var def := ChoiceAt(cfg, c);
    assert ChoiceRanked(cfg, c);
    if k == |def.defaults| {
      FrameFirstVisible(cfg, u, u', d, c, 0);
    } else {
      var p := def.defaults[k];
      FrameExpr(cfg, u, u', d, p.cond);
      if Ev(cfg, u, p.cond) != 0 { FrameVis(cfg, u, u', d, S(p.sym)); }
      if Ev(cfg, u, p.cond) == 0 || Vis(cfg, u, S(p.sym)) == 0 { FrameSelDefault(cfg, u, u', d, c, k + 1); }
    }
  }

  lemma FrameSel(cfg: Config, u: User, u': User, d: set<Query>, c: nat)
    requires Stable(cfg, u, u', d) && SelQ(c) in d
    ensures SelOf(cfg, u, c) == SelOf(cfg, u', c) && SelReads(cfg, u', d, c)
    decreases 8 * Rank(cfg, C(c)) + 3, 3, 0
  {
    assert Reads(cfg, u, d, SelQ(c));
    FrameMode(cfg, u, u', d, c);
    assert SameChoice(u, u', c);
    if ModeOf(cfg, u, c) == 2 {
      if c in u.pick { FrameVis(cfg, u, u', d, S(u.pick[c])); }
      if !PickVisible(cfg, u, c) { FrameSelDefault(cfg, u, u', d, c, 0); }
    }
  }

  lemma FrameDefaultTri(cfg: Config, u: User, u': User, d: set<Query>, s: nat, k: nat)
    requires Stable(cfg, u, u', d) && k <= |SymAt(cfg, s).defaults| && DefaultTriRead(cfg, u, d, s, k)
    ensures DefaultTri(cfg, u, s, k) == DefaultTri(cfg, u', s, k) && DefaultTriRead(cfg, u', d, s, k)
    decreases 8 * Rank(cfg, S(s)) + 4, 2, |SymAt(cfg, s).defaults| - k
  {
    assert SymRanked(cfg, s);
    if k < |SymAt(cfg, s).defaults| {
      var p := SymAt(cfg, s).defaults[k];
      FrameExpr(cfg, u, u', d, p.cond);
      if Ev(cfg, u, p.cond) != 0 { FrameExpr(cfg, u, u', d, p.value); }
      else { FrameDefaultTri(cfg, u, u', d, s, k + 1); }
    }
  }

  lemma FrameWanted(cfg: Config, u: User, u': User, d: set<Query>, s: nat)
    requires Stable(cfg, u, u', d) && VisQ(S(s)) in d
    requires WantedReads(cfg, u, d, s)
    ensures Wanted(cfg, u, s) == Wanted(cfg, u', s) && WantedReads(cfg, u', d, s)
    decreases 8 * Rank(cfg, S(s)) + 4, 2, |SymAt(cfg, s).defaults| + 1
  {
    var def := SymAt(cfg, s);
    assert SymRanked(cfg, s);
    FrameVis(cfg, u, u', d, S(s));
    assert UserRules(cfg, u, s) ==> SameVal(u, u', s);
    if !UserRules(cfg, u, s) {
      FrameDefaultTri(cfg, u, u', d, s, 0);
      FrameExpr(cfg, u, u', d, def.weakRevDep);
      if Ev(cfg, u, def.weakRevDep) != 0 { FrameExpr(cfg, u, u', d, def.directDep); }
    }
  }

  lemma FramePlainTri(cfg: Config, u: User, u': User, d: set<Query>, s: nat)
    requires Stable(cfg, u, u', d) && TriReads(cfg, u, d, s)
    requires Boolish(SymAt(cfg, s).typ) && SymAt(cfg, s).choice.None?
    ensures TriOf(cfg, u, s) == TriOf(cfg, u', s) && TriReads(cfg, u', d, s)
    decreases 8 * Rank(cfg, S(s)) + 4, 2, |SymAt(cfg, s).defaults| + 2
  {
    var def := SymAt(cfg, s);
    assert SymRanked(cfg, s);
    FrameWanted(cfg, u, u', d, s);
    FrameVis(cfg, u, u', d, S(s));
    FrameExpr(cfg, u, u', d, def.revDep);
    FramePromoted(cfg, u, u', d, s, Max(Ev(cfg, u, def.revDep), Wanted(cfg, u, s).val));
  }

  lemma FramePromoted(cfg: Config, u: User, u': User, d: set<Query>, s: nat, v: Tri)
    requires Stable(cfg, u, u', d) && PromotedReads(cfg, u, d, s, v)
    ensures Promoted(cfg, u, s, v) == Promoted(cfg, u', s, v) && PromotedReads(cfg, u', d, s, v)
    decreases 8 * Rank(cfg, S(s)) + 4, 2, 0
  {
    assert SymRanked(cfg, s);
    if v == 1 {
      FrameType(cfg, u, u', d, s);
      if SymTypeOf(cfg, u, s) != BOOL { FrameExpr(cfg, u, u', d, SymAt(cfg, s).weakRevDep); }
    }
  }

  lemma FrameTri(cfg: Config, u: User, u': User, d: set<Query>, s: nat)
    requires Stable(cfg, u, u', d) && TriQ(s) in d
    ensures TriOf(cfg, u, s) == TriOf(cfg, u', s) && TriReads(cfg, u', d, s)
    decreases 8 * Rank(cfg, S(s)) + 4, 3, 0
  {
    var def := SymAt(cfg, s);
    assert SymRanked(cfg, s) && Reads(cfg, u, d, TriQ(s));
    if Boolish(def.typ) {
      FrameVis(cfg, u, u', d, S(s));
      if def.choice.None? {
        FramePlainTri(cfg, u, u', d, s);
      } else {
        assert UserRules(cfg, u, s) ==> SameVal(u, u', s);
        if Vis(cfg, u, S(s)) == 2 { FrameSel(cfg, u, u', d, def.choice.value); }
      }
    }
  }

  lemma FrameRange(cfg: Config, u: User, u': User, d: set<Query>, s: nat, k: nat)
    requires Stable(cfg, u, u', d) && k <= |SymAt(cfg, s).ranges| && RangeRead(cfg, u, d, s, k)
    ensures ActiveRange(cfg, u, s, k) == ActiveRange(cfg, u', s, k) && RangeRead(cfg, u', d, s, k)
    decreases 8 * Rank(cfg, S(s)) + 5, 2, |SymAt(cfg, s).ranges| - k
  {
    assert SymRanked(cfg, s);
    if k < |SymAt(cfg, s).ranges| {
      var p := SymAt(cfg, s).ranges[k];
      FrameExpr(cfg, u, u', d, p.cond);
      if Ev(cfg, u, p.cond) != 0 {
        FrameLeaf(cfg, u, u', d, p.low);
        FrameLeaf(cfg, u, u', d, p.high);
      } else {
        FrameRange(cfg, u, u', d, s, k + 1);
      }
    }
  }

  lemma FrameDefaultStr(cfg: Config, u: User, u': User, d: set<Query>, s: nat, k: nat)
    requires Stable(cfg, u, u', d) && k <= |SymAt(cfg, s).defaults| && DefaultStrRead(cfg, u, d, s, k)
    ensures DefaultStr(cfg, u, s, k) == DefaultStr(cfg, u', s, k) && DefaultStrRead(cfg, u', d, s, k)
    decreases 8 * Rank(cfg, S(s)) + 5, 2, |SymAt(cfg, s).defaults| - k
  {
    assert SymRanked(cfg, s);
    if k < |SymAt(cfg, s).defaults| {
      var p := SymAt(cfg, s).defaults[k];
      FrameExpr(cfg, u, u', d, p.cond);
      if Ev(cfg, u, p.cond) != 0 { FrameLeaf(cfg, u, u', d, DefaultLeaf(p.value)); }
      else { FrameDefaultStr(cfg, u, u', d, s, k + 1); }
    }
  }

  lemma FrameNumber(cfg: Config, u: User, u': User, d: set<Query>, s: nat)
    requires Stable(cfg, u, u', d) && VisQ(S(s)) in d && IntHex(SymAt(cfg, s).typ)
    requires RangeRead(cfg, u, d, s, 0) && (!NumberRules(cfg, u, s) ==> DefaultStrRead(cfg, u, d, s, 0))
    ensures StrOf(cfg, u, s) == StrOf(cfg, u', s)
    ensures RangeRead(cfg, u', d, s, 0) && (!NumberRules(cfg, u', s) ==> DefaultStrRead(cfg, u', d, s, 0))
    decreases 8 * Rank(cfg, S(s)) + 5, 2, |SymAt(cfg, s).ranges| + |SymAt(cfg, s).defaults| + 1
  {
    FrameVis(cfg, u, u', d, S(s));
    assert UserRules(cfg, u, s) ==> SameVal(u, u', s);
    FrameRange(cfg, u, u', d, s, 0);
    assert NumberRules(cfg, u, s) == NumberRules(cfg, u', s);
    if !NumberRules(cfg, u, s) { FrameDefaultStr(cfg, u, u', d, s, 0); }
  }

  lemma FrameStr(cfg: Config, u: User, u': User, d: set<Query>, s: nat)
    requires Stable(cfg, u, u', d) && StrQ(s) in d
    ensures StrOf(cfg, u, s) == StrOf(cfg, u', s) && StrReads(cfg, u', d, s)
    decreases 8 * Rank(cfg, S(s)) + 5, 3, 0
  {
    var def := SymAt(cfg, s);
    assert SymRanked(cfg, s) && Reads(cfg, u, d, StrQ(s));
    if Boolish(def.typ) {
      FrameTri(cfg, u, u', d, s);
    } else if IntHex(def.typ) {
      FrameNumber(cfg, u, u', d, s);
    } else if def.typ != UNKNOWN {
      FrameVis(cfg, u, u', d, S(s));
      assert UserRules(cfg, u, s) ==> SameVal(u, u', s);
      if !UserRules(cfg, u, s) { FrameDefaultStr(cfg, u, u', d, s, 0); }
    }
  }

  lemma FrameAsg(cfg: Config, u: User, u': User, d: set<Query>, i: Item)
    requires Stable(cfg, u, u', d) && AsgQ(i) in d
    ensures AsgOf(cfg, u, i) == AsgOf(cfg, u', i) && AsgReads(cfg, u', d, i)
  {
    assert Reads(cfg, u, d, AsgQ(i));
    match i
    case C(c) =>
      FrameVis(cfg, u, u', d, i);
      if Vis(cfg, u, i) == 2 { FrameChoiceType(cfg, u, u', d, c); }
    case S(s) => if Boolish(SymAt(cfg, s).typ) { FrameSymAsg(cfg, u, u', d, s); }
  }

  lemma FrameSymAsg(cfg: Config, u: User, u': User, d: set<Query>, s: nat)
    requires Stable(cfg, u, u', d) && AsgReads(cfg, u, d, S(s)) && Boolish(SymAt(cfg, s).typ)
    ensures AsgOf(cfg, u, S(s)) == AsgOf(cfg, u', S(s)) && AsgReads(cfg, u', d, S(s))
  {
    var def := SymAt(cfg, s);
    FrameVis(cfg, u, u', d, S(s));
    if Vis(cfg, u, S(s)) != 0 {
      FrameExpr(cfg, u, u', d, def.revDep);
      if TypeRead(cfg, u, d, s) { FrameType(cfg, u, u', d, s); }
      if ExprRead(cfg, u, d, def.weakRevDep) { FrameExpr(cfg, u, u', d, def.weakRevDep); }
    }
  }

  /** The caches in d remain correct, and remain complete, for the new user values. */
  lemma Frame(cfg: Config, u: User, u': User, d: set<Query>, q: Query)
    requires Stable(cfg, u, u', d) && q in d
    ensures Spec(cfg, u, q) == Spec(cfg, u', q) && Reads(cfg, u', d, q)
    ensures q.StrQ? || (q.TriQ? && Boolish(SymAt(cfg, q.s).typ)) ==> WriteOf(cfg, u, q.s) == WriteOf(cfg, u', q.s)
  {
    match q
    case VisQ(i) => FrameVis(cfg, u, u', d, i);
    case SelQ(c) => FrameSel(cfg, u, u', d, c);
    case TriQ(s) => FrameTri(cfg, u, u', d, s);
    case StrQ(s) =>
      FrameStr(cfg, u, u', d, s);
      if Boolish(SymAt(cfg, s).typ) { FrameTri(cfg, u, u', d, s); }
    case AsgQ(i) => FrameAsg(cfg, u, u', d, i);
  }
}
