/** Changes of the user state that leave every value as it was. */
module Unchanged {
  import opened KconfigLang
  import opened Evaluation
  import opened Choices
  import opened Dependents
  import opened Frames

  /** The user value of s is the same, or does not matter, or has no effect on the value of s. */
  ghost predicate SymAlike(cfg: Config, u: User, u': User, s: nat)
    requires Sane(cfg, u) && Sane(cfg, u')
  {
    || SameVal(u, u', s)
    || (SymAt(cfg, s).choice.Some? && Boolish(SymAt(cfg, s).typ) && Vis(cfg, u, S(s)) != 1)
    || (TriOf(cfg, u, s).val == TriOf(cfg, u', s).val && StrOf(cfg, u, s).val == StrOf(cfg, u', s).val)
  }

  predicate ModeAlike(u: User, u': User, c: nat) {
    (c in u.mode <==> c in u'.mode) && (c in u.mode ==> u.mode[c] == u'.mode[c])
  }

  /** The user selection of c is the same, or does not matter, or is the current selection anyway. */
  ghost predicate PickAlike(cfg: Config, u: User, u': User, c: nat)
    requires Sane(cfg, u) && Sane(cfg, u')
  {
    || ((c in u.pick <==> c in u'.pick) && (c in u.pick ==> u.pick[c] == u'.pick[c]))
    || ModeOf(cfg, u, c) != 2
    || (c in u'.pick && SelOf(cfg, u, c) == Some(u'.pick[c]))
  }

  ghost predicate ChoiceAlike(cfg: Config, u: User, u': User, c: nat)
    requires Sane(cfg, u) && Sane(cfg, u')
  {
    ModeAlike(u, u', c) && PickAlike(cfg, u, u', c)
  }

  ghost predicate Alike(cfg: Config, u: User, u': User) {
    && Sane(cfg, u) && Sane(cfg, u') && ChoicesOk(cfg)
    && (forall s: nat :: SymAlike(cfg, u, u', s)) && (forall c: nat :: ChoiceAlike(cfg, u, u', c))
  }

  /** The same for what can matter to values with levels up to top. */
  ghost predicate AlikeBelow(cfg: Config, u: User, u': User, top: nat) {
    && Sane(cfg, u) && Sane(cfg, u') && ChoicesOk(cfg)
    && (forall s: nat :: 8 * Rank(cfg, S(s)) + 4 <= top ==> SymAlike(cfg, u, u', s))
    && (forall c: nat :: 8 * Rank(cfg, C(c)) + 1 <= top ==> ModeAlike(u, u', c))
    && (forall c: nat :: 8 * Rank(cfg, C(c)) + 3 <= top ==> PickAlike(cfg, u, u', c))
  }

  lemma AlikeLeaf(cfg: Config, u: User, u': User, x: Leaf, top: nat)
    requires AlikeBelow(cfg, u, u', top)
    requires LeafLevel(cfg, x) <= top
    ensures LeafTri(cfg, u, x) == LeafTri(cfg, u', x) && LeafStr(cfg, u, x) == LeafStr(cfg, u', x)
    decreases LeafLevel(cfg, x), 0, 0
  {
    match x
    case Ref(s) =>
      AlikeTri(cfg, u, u', s, top);
      AlikeStr(cfg, u, u', s, top);
    case Mode(c) => AlikeMode(cfg, u, u', c, top);
    case _ =>
  }

  lemma {:induction false} AlikeExpr(cfg: Config, u: User, u': User, e: Expr, top: nat)
    requires AlikeBelow(cfg, u, u', top)
    requires ExprLevel(cfg, e) <= top
    ensures Ev(cfg, u, e) == Ev(cfg, u', e)
    decreases ExprLevel(cfg, e), 1, Size(e)
  {
    match e
    case Atom(x) => AlikeLeaf(cfg, u, u', x, top);
    case And(l, r) => AlikeExpr(cfg, u, u', l, top); AlikeExpr(cfg, u, u', r, top);
    case Or(l, r) => AlikeExpr(cfg, u, u', l, top); AlikeExpr(cfg, u, u', r, top);
    case Not(e1) => AlikeExpr(cfg, u, u', e1, top);
    case Rel(_, a, b) =>
      AlikeLeaf(cfg, u, u', a, top);
      AlikeLeaf(cfg, u, u', b, top);
      assert LeafNum(cfg, u, a) == LeafNum(cfg, u', a) && LeafNum(cfg, u, b) == LeafNum(cfg, u', b);
      assert Compare(cfg, u, a, b) == Compare(cfg, u', a, b);
  }

  lemma AlikePrompts(cfg: Config, u: User, u': User, i: Item, n: nat, top: nat)
    requires AlikeBelow(cfg, u, u', top) && n <= |NodesOf(cfg, i)|
    requires VisLevel(cfg, i) <= top
    ensures Prompts(cfg, u, i, n) == Prompts(cfg, u', i, n)
    decreases VisLevel(cfg, i), 2, n
  {
    if n > 0 {
      AlikePrompts(cfg, u, u', i, n - 1, top);
      assert i.S? ==> SymRanked(cfg, i.s);
      assert i.C? ==> ChoiceRanked(cfg, i.c);
      var p := NodesOf(cfg, i)[n - 1].prompt;
      if p.Some? { AlikeExpr(cfg, u, u', p.value, top); }
    }
  }

  lemma AlikeType(cfg: Config, u: User, u': User, s: nat, top: nat)
    requires AlikeBelow(cfg, u, u', top)
    requires 8 * Rank(cfg, S(s)) + 2 <= top
    ensures SymTypeOf(cfg, u, s) == SymTypeOf(cfg, u', s)
    decreases 8 * Rank(cfg, S(s)) + 2, 2, 0
  {
    var d := SymAt(cfg, s);
    assert SymRanked(cfg, s);
    if d.typ == TRISTATE {
      if d.choice.Some? { AlikeMode(cfg, u, u', d.choice.value, top); }
      AlikeTri(cfg, u, u', cfg.modules, top);
    }
  }

  lemma AlikeChoiceType(cfg: Config, u: User, u': User, c: nat, top: nat)
    requires AlikeBelow(cfg, u, u', top)
    requires 8 * Rank(cfg, C(c)) <= top
    ensures ChoiceTypeOf(cfg, u, c) == ChoiceTypeOf(cfg, u', c)
    decreases 8 * Rank(cfg, C(c)), 2, 0
  {
    assert ChoiceRanked(cfg, c);
    if ChoiceAt(cfg, c).typ == TRISTATE { AlikeTri(cfg, u, u', cfg.modules, top); }
  }

  lemma AlikeVis(cfg: Config, u: User, u': User, i: Item, top: nat)
    requires AlikeBelow(cfg, u, u', top)
    requires VisLevel(cfg, i) <= top
    ensures Vis(cfg, u, i) == Vis(cfg, u', i)
    decreases VisLevel(cfg, i), 3, 0
  {
    AlikePrompts(cfg, u, u', i, |NodesOf(cfg, i)|, top);
    match i
    case C(c) => AlikeChoiceType(cfg, u, u', c, top);
    case S(s) =>
      if SymAt(cfg, s).choice.Some? { AlikeMode(cfg, u, u', SymAt(cfg, s).choice.value, top); }
      AlikeType(cfg, u, u', s, top);
  }

  lemma AlikeMode(cfg: Config, u: User, u': User, c: nat, top: nat)
    requires AlikeBelow(cfg, u, u', top)
    requires 8 * Rank(cfg, C(c)) + 1 <= top
    ensures ModeOf(cfg, u, c) == ModeOf(cfg, u', c)
    decreases 8 * Rank(cfg, C(c)) + 1, 3, 0
  {
    assert ModeAlike(u, u', c);
    AlikeVis(cfg, u, u', C(c), top);
    AlikeChoiceType(cfg, u, u', c, top);
    assert RawMode(cfg, u, c) == RawMode(cfg, u', c);
  }

  lemma AlikeFirstVisible(cfg: Config, u: User, u': User, c: nat, k: nat, top: nat)
    requires AlikeBelow(cfg, u, u', top) && k <= |ChoiceAt(cfg, c).syms|
    requires 8 * Rank(cfg, C(c)) + 3 <= top
    ensures FirstVisible(cfg, u, c, k) == FirstVisible(cfg, u', c, k)
    decreases 8 * Rank(cfg, C(c)) + 3, 2, |ChoiceAt(cfg, c).syms| - k
  {
    assert ChoiceRanked(cfg, c);
    if k < |ChoiceAt(cfg, c).syms| {
      AlikeVis(cfg, u, u', S(ChoiceAt(cfg, c).syms[k]), top);
      AlikeFirstVisible(cfg, u, u', c, k + 1, top);
    }
  }

  lemma AlikeSelDefault(cfg: Config, u: User, u': User, c: nat, k: nat, top: nat)
    requires AlikeBelow(cfg, u, u', top) && k <= |ChoiceAt(cfg, c).defaults|
    requires 8 * Rank(cfg, C(c)) + 3 <= top
    ensures SelDefault(cfg, u, c, k) == SelDefault(cfg, u', c, k)
    decreases 8 * Rank(cfg, C(c)) + 3, 2, |ChoiceAt(cfg, c).defaults| - k + |ChoiceAt(cfg, c).syms| + 1
  {
    assert ChoiceRanked(cfg, c);
    if k == |ChoiceAt(cfg, c).defaults| {
      AlikeFirstVisible(cfg, u, u', c, 0, top);
    } else {
      var p := ChoiceAt(cfg, c).defaults[k];
      AlikeExpr(cfg, u, u', p.cond, top);
      AlikeVis(cfg, u, u', S(p.sym), top);
      AlikeSelDefault(cfg, u, u', c, k + 1, top);
    }
  }

  lemma AlikeSel(cfg: Config, u: User, u': User, c: nat, top: nat)
    requires AlikeBelow(cfg, u, u', top)
    requires 8 * Rank(cfg, C(c)) + 3 <= top
    ensures SelOf(cfg, u, c) == SelOf(cfg, u', c)
    decreases 8 * Rank(cfg, C(c)) + 3, 3, 0
  {
    assert PickAlike(cfg, u, u', c);
    AlikeMode(cfg, u, u', c, top);
    if ModeOf(cfg, u, c) == 2 {
      SelectionIsVisible(cfg, u, c);
      if c in u'.pick { AlikeVis(cfg, u, u', S(u'.pick[c]), top); }
      AlikeSelDefault(cfg, u, u', c, 0, top);
    }
  }

  lemma AlikeDefaultTri(cfg: Config, u: User, u': User, s: nat, k: nat, top: nat)
    requires AlikeBelow(cfg, u, u', top) && k <= |SymAt(cfg, s).defaults|
    requires 8 * Rank(cfg, S(s)) + 4 <= top
    ensures DefaultTri(cfg, u, s, k) == DefaultTri(cfg, u', s, k)
    decreases 8 * Rank(cfg, S(s)) + 4, 2, |SymAt(cfg, s).defaults| - k
  {
    assert SymRanked(cfg, s);
    if k < |SymAt(cfg, s).defaults| {
      AlikeExpr(cfg, u, u', SymAt(cfg, s).defaults[k].cond, top);
      AlikeExpr(cfg, u, u', SymAt(cfg, s).defaults[k].value, top);
      AlikeDefaultTri(cfg, u, u', s, k + 1, top);
    }
  }

  lemma AlikeDeps(cfg: Config, u: User, u': User, s: nat, top: nat)
    requires AlikeBelow(cfg, u, u', top)
    requires 8 * Rank(cfg, S(s)) + 4 <= top
    ensures var d := SymAt(cfg, s);
            && Ev(cfg, u, d.revDep) == Ev(cfg, u', d.revDep) && Ev(cfg, u, d.weakRevDep) == Ev(cfg, u', d.weakRevDep)
            && Ev(cfg, u, d.directDep) == Ev(cfg, u', d.directDep)
    decreases 8 * Rank(cfg, S(s)) + 4, 2, 0
  {
    assert SymRanked(cfg, s);
    AlikeExpr(cfg, u, u', SymAt(cfg, s).revDep, top);
    AlikeExpr(cfg, u, u', SymAt(cfg, s).weakRevDep, top);
    AlikeExpr(cfg, u, u', SymAt(cfg, s).directDep, top);
  }

  lemma AlikePlainTri(cfg: Config, u: User, u': User, s: nat, top: nat)
    requires AlikeBelow(cfg, u, u', top) && Boolish(SymAt(cfg, s).typ) && SymAt(cfg, s).choice.None? && SameVal(u, u', s)
    requires 8 * Rank(cfg, S(s)) + 4 <= top
    ensures TriOf(cfg, u, s).val == TriOf(cfg, u', s).val
    decreases 8 * Rank(cfg, S(s)) + 4, 2, |SymAt(cfg, s).defaults| + 1
  {
    AlikeVis(cfg, u, u', S(s), top);
    AlikeDefaultTri(cfg, u, u', s, 0, top);
    AlikeDeps(cfg, u, u', s, top);
    AlikeType(cfg, u, u', s, top);
    assert Wanted(cfg, u, s).val == Wanted(cfg, u', s).val;
  }

  lemma AlikeTri(cfg: Config, u: User, u': User, s: nat, top: nat)
    requires AlikeBelow(cfg, u, u', top)
    requires 8 * Rank(cfg, S(s)) + 4 <= top
    ensures TriOf(cfg, u, s).val == TriOf(cfg, u', s).val
    decreases 8 * Rank(cfg, S(s)) + 4, 3, 0
  {
    var d := SymAt(cfg, s);
    assert SymAlike(cfg, u, u', s);
    if Boolish(d.typ) {
      if d.choice.Some? {
        AlikeVis(cfg, u, u', S(s), top);
        AlikeSel(cfg, u, u', d.choice.value, top);
      } else if SameVal(u, u', s) {
        AlikePlainTri(cfg, u, u', s, top);
      }
    }
  }

  lemma AlikeRange(cfg: Config, u: User, u': User, s: nat, k: nat, top: nat)
    requires AlikeBelow(cfg, u, u', top) && k <= |SymAt(cfg, s).ranges|
    requires 8 * Rank(cfg, S(s)) + 5 <= top
    ensures ActiveRange(cfg, u, s, k) == ActiveRange(cfg, u', s, k)
    decreases 8 * Rank(cfg, S(s)) + 5, 2, |SymAt(cfg, s).ranges| - k
  {
    assert SymRanked(cfg, s);
    if k < |SymAt(cfg, s).ranges| {
      var r := SymAt(cfg, s).ranges[k];
      AlikeExpr(cfg, u, u', r.cond, top);
      AlikeLeaf(cfg, u, u', r.low, top);
      AlikeLeaf(cfg, u, u', r.high, top);
      AlikeRange(cfg, u, u', s, k + 1, top);
    }
  }

  lemma AlikeDefaultStr(cfg: Config, u: User, u': User, s: nat, k: nat, top: nat)
    requires AlikeBelow(cfg, u, u', top) && k <= |SymAt(cfg, s).defaults|
    requires 8 * Rank(cfg, S(s)) + 5 <= top
    ensures DefaultStr(cfg, u, s, k) == DefaultStr(cfg, u', s, k)
    decreases 8 * Rank(cfg, S(s)) + 5, 2, |SymAt(cfg, s).defaults| - k
  {
    assert SymRanked(cfg, s);
    if k < |SymAt(cfg, s).defaults| {
      AlikeExpr(cfg, u, u', SymAt(cfg, s).defaults[k].cond, top);
      AlikeLeaf(cfg, u, u', DefaultLeaf(SymAt(cfg, s).defaults[k].value), top);
      AlikeDefaultStr(cfg, u, u', s, k + 1, top);
    }
  }

  lemma AlikeStr(cfg: Config, u: User, u': User, s: nat, top: nat)
    requires AlikeBelow(cfg, u, u', top)
    requires 8 * Rank(cfg, S(s)) + 5 <= top
    ensures StrOf(cfg, u, s).val == StrOf(cfg, u', s).val
    decreases 8 * Rank(cfg, S(s)) + 5, 3, 0
  {
    assert SymAlike(cfg, u, u', s);
    if Boolish(SymAt(cfg, s).typ) {
      AlikeTri(cfg, u, u', s, top);
    } else if SymAt(cfg, s).typ != UNKNOWN && SameVal(u, u', s) {
      AlikeVis(cfg, u, u', S(s), top);
      AlikeDefaultStr(cfg, u, u', s, 0, top);
      AlikeRange(cfg, u, u', s, 0, top);
    }
  }

  /** Everything that can be observed of symbols and choices is the same. */
  ghost predicate SameAll(cfg: Config, u: User, u': User) {
    && Sane(cfg, u) && Sane(cfg, u')
    && (forall i :: Vis(cfg, u, i) == Vis(cfg, u', i) && AsgOf(cfg, u, i) == AsgOf(cfg, u', i))
    && (forall c: nat :: ModeOf(cfg, u, c) == ModeOf(cfg, u', c) && SelOf(cfg, u, c) == SelOf(cfg, u', c))
    && (forall s: nat :: TriOf(cfg, u, s).val == TriOf(cfg, u', s).val && StrOf(cfg, u, s).val == StrOf(cfg, u', s).val)
  }

  lemma AlikeAnyTop(cfg: Config, u: User, u': User, top: nat)
    requires Alike(cfg, u, u')
    ensures AlikeBelow(cfg, u, u', top)
  {
    forall c: nat ensures ModeAlike(u, u', c) && PickAlike(cfg, u, u', c) {
      assert ChoiceAlike(cfg, u, u', c);
    }
  }

  lemma AlikeAssignable(cfg: Config, u: User, u': User, i: Item)
    requires Alike(cfg, u, u')
    ensures AsgOf(cfg, u, i) == AsgOf(cfg, u', i)
  {
    var top := 8 * Rank(cfg, i) + 4;
    AlikeAnyTop(cfg, u, u', top);
    AlikeVis(cfg, u, u', i, top);
    match i
    case S(s) =>
      AlikeDeps(cfg, u, u', s, top);
      AlikeType(cfg, u, u', s, top);
    case C(c) => AlikeChoiceType(cfg, u, u', c, top);
  }

  /** If no symbol and no choice notices the change itself, nothing changes anywhere. */
  lemma AlikeIsSame(cfg: Config, u: User, u': User)
    requires Alike(cfg, u, u')
    ensures SameAll(cfg, u, u')
  {
    forall i ensures Vis(cfg, u, i) == Vis(cfg, u', i) && AsgOf(cfg, u, i) == AsgOf(cfg, u', i) {
      AlikeAnyTop(cfg, u, u', VisLevel(cfg, i));
      AlikeVis(cfg, u, u', i, VisLevel(cfg, i));
      AlikeAssignable(cfg, u, u', i);
    }
    forall c: nat ensures ModeOf(cfg, u, c) == ModeOf(cfg, u', c) && SelOf(cfg, u, c) == SelOf(cfg, u', c) {
      AlikeAnyTop(cfg, u, u', 8 * Rank(cfg, C(c)) + 3);
      AlikeMode(cfg, u, u', c, 8 * Rank(cfg, C(c)) + 3);
      AlikeSel(cfg, u, u', c, 8 * Rank(cfg, C(c)) + 3);
    }
    forall s: nat
      ensures TriOf(cfg, u, s).val == TriOf(cfg, u', s).val && StrOf(cfg, u, s).val == StrOf(cfg, u', s).val
    {
      AlikeAnyTop(cfg, u, u', 8 * Rank(cfg, S(s)) + 5);
      AlikeTri(cfg, u, u', s, 8 * Rank(cfg, S(s)) + 5);
      AlikeStr(cfg, u, u', s, 8 * Rank(cfg, S(s)) + 5);
    }
  }

  // Giving a symbol its own value

  /** A visible bool or tristate symbol keeps its value when that value is made its user value, as loading a saved
      configuration does, exactly if the value is within its visibility, or it is selected or implied to y. */
  lemma OwnValueKept(cfg: Config, u: User, s: nat)
    requires Sane(cfg, u) && ChoicesOk(cfg) && Boolish(SymAt(cfg, s).typ) && SymAt(cfg, s).choice.None?
    requires Vis(cfg, u, S(s)) != 0
    ensures var v := TriOf(cfg, u, s).val;
            var u' := u.(val := u.val[s := TriVal(v)]);
            && Sane(cfg, u')
            && (TriOf(cfg, u', s).val == v <==>
                v <= Vis(cfg, u, S(s)) || Ev(cfg, u, SymAt(cfg, s).revDep) == 2 || Ev(cfg, u, SymAt(cfg, s).weakRevDep) == 2)
  {
    var d, v, top := SymAt(cfg, s), TriOf(cfg, u, s).val, 8 * Rank(cfg, S(s)) + 3;
    var u' := u.(val := u.val[s := TriVal(v)]);
    assert SymRanked(cfg, s);
    forall t: nat | 8 * Rank(cfg, S(t)) + 4 <= top ensures SymAlike(cfg, u, u', t) {
      assert t != s && SameVal(u, u', t);
    }
    AlikeVis(cfg, u, u', S(s), top);
    AlikeType(cfg, u, u', s, top);
    AlikeExpr(cfg, u, u', d.revDep, top);
    AlikeExpr(cfg, u, u', d.weakRevDep, top);
    assert Wanted(cfg, u', s).val == Min(v, Vis(cfg, u, S(s)));
    assert v == Promoted(cfg, u, s, Max(Ev(cfg, u, d.revDep), Wanted(cfg, u, s).val));
    if Vis(cfg, u, S(s)) == 1 { assert SymTypeOf(cfg, u, s) == TRISTATE; }
  }
}
