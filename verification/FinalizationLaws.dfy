/** What finalization is for: which items become submenus of a symbol, which nodes give up their children, and what
    symbols and choices collect. */
module FinalizationLaws {
  import opened KconfigLang
  import opened Evaluation
  import opened MenuTree
  import opened Finalization
  import opened Propagation
  import Laws = EvaluationLaws

  // Implicit submenus

  predicate IsOperand(x: Expr, e: Expr) {
    if e.And? then IsOperand(x, e.l) || IsOperand(x, e.r) else x == e
  }

  /** s itself, or a comparison that holds for s at m or at y, or not at n. */
  predicate AsksFor(x: Expr, s: nat) {
    x in {Atom(Ref(s)),
          Rel(EQUAL, Ref(s), Nmy(1)), Rel(EQUAL, Nmy(1), Ref(s)), Rel(EQUAL, Ref(s), Nmy(2)), Rel(EQUAL, Nmy(2), Ref(s)),
          Rel(UNEQUAL, Ref(s), Nmy(0)), Rel(UNEQUAL, Nmy(0), Ref(s))}
  }

  /** The comparison that counts as well, although it holds at n. */
  predicate Differs(x: Expr, s: nat) {
    x in {Rel(UNEQUAL, Ref(s), Nmy(2)), Rel(UNEQUAL, Nmy(2), Ref(s))}
  }

  lemma OneOperand(e: Expr, s: nat)
    requires !e.And?
    ensures MenuDependsOn(e, s) <==> AsksFor(e, s) || Differs(e, s)
  {
  }

  lemma {:induction false} MenuDependsLaw(e: Expr, s: nat)
    ensures MenuDependsOn(e, s) <==> exists x :: IsOperand(x, e) && (AsksFor(x, s) || Differs(x, s))
  {
    if e.And? {
      MenuDependsLaw(e.l, s);
      MenuDependsLaw(e.r, s);
      if MenuDependsOn(e.l, s) {
        var x :| IsOperand(x, e.l) && (AsksFor(x, s) || Differs(x, s));
        assert IsOperand(x, e);
      }
      if MenuDependsOn(e.r, s) {
        var x :| IsOperand(x, e.r) && (AsksFor(x, s) || Differs(x, s));
        assert IsOperand(x, e);
      }
    } else {
      OneOperand(e, s);
      assert forall x :: IsOperand(x, e) <==> x == e;
    }
  }

  lemma {:induction false} OperandBounds(cfg: Config, u: User, x: Expr, e: Expr)
    requires Sane(cfg, u) && IsOperand(x, e)
    ensures Ev(cfg, u, e) <= Ev(cfg, u, x)
  {
    if e.And? {
      if IsOperand(x, e.l) { OperandBounds(cfg, u, x, e.l); } else { OperandBounds(cfg, u, x, e.r); }
    }
  }

  lemma AskedValue(cfg: Config, u: User, x: Expr, s: nat)
    requires Sane(cfg, u) && Boolish(SymAt(cfg, s).typ) && TriOf(cfg, u, s).val == 0
    ensures AsksFor(x, s) ==> Ev(cfg, u, x) == 0
    ensures Differs(x, s) ==> Ev(cfg, u, x) == 2
  {
    Laws.ExprLaw(cfg, u, x);
    assert SymAt(cfg, s).typ == BOOL || SymAt(cfg, s).typ == TRISTATE;
  }

  /** An item of the implicit submenu of a bool or tristate symbol is not visible while the symbol is n, unless its
      condition only says that the symbol is not y: that counts as a dependency too, but can hold at n. */
  lemma SubmenuHidden(cfg: Config, u: User, s: nat, a: Attrs)
    requires Sane(cfg, u) && Boolish(SymAt(cfg, s).typ) && TriOf(cfg, u, s).val == 0 && AutoMenuDep(s, a)
    ensures var cond := if a.prompt.Some? then a.prompt.value else a.dep;
            if exists x :: IsOperand(x, cond) && AsksFor(x, s) then Ev(cfg, u, cond) == 0
            else exists x :: IsOperand(x, cond) && Differs(x, s)
  {
    var cond := if a.prompt.Some? then a.prompt.value else a.dep;
    MenuDependsLaw(cond, s);
    if exists x :: IsOperand(x, cond) && AsksFor(x, s) {
      var x :| IsOperand(x, cond) && AsksFor(x, s);
      AskedValue(cfg, u, x, s);
      OperandBounds(cfg, u, x, cond);
    }
  }

  /** A prompt 'if FOO != y' puts its item below FOO, and shows it while FOO is n. */
  lemma DiffersShows(cfg: Config, u: User, s: nat, a: Attrs)
    requires Sane(cfg, u) && Boolish(SymAt(cfg, s).typ) && TriOf(cfg, u, s).val == 0
    requires a.prompt == Some(Rel(UNEQUAL, Ref(s), Nmy(2)))
    ensures AutoMenuDep(s, a) && Ev(cfg, u, a.prompt.value) == 2
  {
    AskedValue(cfg, u, a.prompt.value, s);
  }

  ghost predicate AllDepend(t: Tree, s: nat) {
    t.Link? ==> AutoMenuDep(s, t.attrs) && AllDepend(t.rest, s)
  }

  lemma {:induction false} GatheredDepend(s: nat, t: Tree, visibleIf: Expr)
    ensures var g := Gathered(s, t, visibleIf);
            AllDepend(g.inner, s) && (g.rest.End? || !AutoMenuDep(s, g.rest.attrs))
    decreases Count(t)
  {
    if t.Link? && AutoMenuDep(s, t.attrs) {
      GatheredDepend(s, Finalized(t, visibleIf).rest, visibleIf);
    }
  }

  /** A symbol gets exactly the run of following nodes that depend on it as its submenu, each finalized with a submenu
      of its own first. */
  lemma SubmenuLaw(t: Tree, visibleIf: Expr) returns (inner: Tree)
    requires t.Link? && t.node.item.SymItem? && IfsPlain(t) && Leafy(t)
    ensures var f, s := Finalized(t, visibleIf), t.node.item.s;
            && AllDepend(inner, s) && TopNodes(f.kids) == Unfolded(inner)
            && (f.rest.End? || !AutoMenuDep(s, f.rest.attrs))
            && (inner.End? <==> t.rest.End? || !AutoMenuDep(s, t.rest.attrs))
  {
    var g := Gathered(t.node.item.s, t.rest, visibleIf);
    GatheredDepend(t.node.item.s, t.rest, visibleIf);
    GatheredKeeps(t.node.item.s, t.rest, visibleIf);
    TidyLaw(g.inner);
    inner := g.inner;
  }

  // Nodes that give up their children

  function TopNodes(t: Tree): seq<Tree> {
    if t.End? then [] else [Alone(t)] + TopNodes(t.rest)
  }

  /** The nodes of a level, those without a prompt replaced by themselves and their children in turn, and 'if's by their
      children alone; choices always keep their children. */
  function Unfolded(t: Tree): seq<Tree> {
    if t.End? then []
    else if t.node.item.ChoiceItem? || t.attrs.prompt.Some? then [Alone(t)] + Unfolded(t.rest)
    else (if t.node.item.If? then [] else [Link(t.node, t.attrs, End, End)]) + (Unfolded(t.kids) + Unfolded(t.rest))
  }

  lemma {:induction false} UnfoldedAppend(a: Tree, b: Tree)
    ensures Unfolded(Append(a, b)) == Unfolded(a) + Unfolded(b)
  {
    if a.Link? {
      UnfoldedAppend(a.rest, b);
      if a.node.item.ChoiceItem? || a.attrs.prompt.Some? {
        Reassociate([Alone(a)], Unfolded(a.rest), Unfolded(b));
      } else {
        var own := if a.node.item.If? then [] else [Link(a.node, a.attrs, End, End)];
        Reassociate(Unfolded(a.kids), Unfolded(a.rest), Unfolded(b));
        Reassociate(own, Unfolded(a.kids) + Unfolded(a.rest), Unfolded(b));
      }
    }
  }

  lemma {:induction false} TidyLaw(t: Tree)
    requires IfsPlain(t)
    ensures TopNodes(Tidy(t)) == Unfolded(t)
    decreases Count(t)
  {
    if t.Link? {
      IfsPlainAppend(t.kids, t.rest);
      UnfoldedAppend(t.kids, t.rest);
      TidyLaw(Dissolved(t).rest);
    }
  }

  // What symbols collect

  /** A default, range, select or imply as written in the files, with the dependencies it stands under. */
  datatype Written<T> = Written(what: T, deps: seq<Expr>)

  function AllUnder<T>(ts: seq<T>, deps: seq<Expr>): seq<Written<T>> {
    seq(|ts|, k requires 0 <= k < |ts| => Written(ts[k], deps))
  }

  predicate Defines(p: Placed, s: nat) {
    p.node.item == SymItem(s)
  }

  /** Everything the files say about symbol s, in definition order. */
  function WrittenDefaults(ps: seq<Placed>, s: nat): seq<Written<Default>> {
    if ps == [] then []
    else (if Defines(ps[0], s) then AllUnder(ps[0].written.defaults, Deps(ps[0])) else []) + WrittenDefaults(ps[1..], s)
  }

  function WrittenRanges(ps: seq<Placed>, s: nat): seq<Written<Range>> {
    if ps == [] then []
    else (if Defines(ps[0], s) then AllUnder(ps[0].written.ranges, Deps(ps[0])) else []) + WrittenRanges(ps[1..], s)
  }

  function WrittenSelects(ps: seq<Placed>, weak: bool, s: nat): seq<Written<Select>> {
    if ps == [] then []
    else (if Defines(ps[0], s) then AllUnder(SelectsOf(ps[0].written, weak), Deps(ps[0])) else []) + WrittenSelects(ps[1..], weak, s)
  }

  ghost predicate DefaultsAre(v: Valuation, ds: seq<Default>, ws: seq<Written<Default>>) {
    |ds| == |ws| &&
    forall k :: 0 <= k < |ds| ==> ds[k].value == ws[k].what.value && MeansUnder(v, ds[k].cond, ws[k].what.cond, ws[k].deps)
  }

  ghost predicate RangesAre(v: Valuation, rs: seq<Range>, ws: seq<Written<Range>>) {
    |rs| == |ws| &&
    forall k :: 0 <= k < |rs| ==>
      rs[k].low == ws[k].what.low && rs[k].high == ws[k].what.high && MeansUnder(v, rs[k].cond, ws[k].what.cond, ws[k].deps)
  }

  ghost predicate SelectsAre(v: Valuation, ss: seq<Select>, ws: seq<Written<Select>>) {
    |ss| == |ws| &&
    forall k :: 0 <= k < |ss| ==> ss[k].target == ws[k].what.target && MeansUnder(v, ss[k].cond, ws[k].what.cond, ws[k].deps)
  }

  function ChosenList(p: SymProps, weak: bool, s: nat): seq<Select> {
    ListOf(if weak then p.implies else p.selects, s)
  }

  /** The properties of a node, if it is one of s. */
  function OfSym<T>(e: Entry, s: nat, ts: seq<T>): seq<T> {
    if e.node.item == SymItem(s) then ts else []
  }

  function OwnDefaults(es: seq<Entry>, s: nat): seq<Default> {
    if es == [] then [] else OfSym(es[0], s, es[0].attrs.defaults) + OwnDefaults(es[1..], s)
  }

  function OwnRanges(es: seq<Entry>, s: nat): seq<Range> {
    if es == [] then [] else OfSym(es[0], s, es[0].attrs.ranges) + OwnRanges(es[1..], s)
  }

  function OwnSelects(es: seq<Entry>, weak: bool, s: nat): seq<Select> {
    if es == [] then [] else OfSym(es[0], s, SelectsOf(es[0].attrs, weak)) + OwnSelects(es[1..], weak, s)
  }

  lemma OneNode(p: SymProps, e: Entry, weak: bool, s: nat)
    ensures var q := WithNode(p, e);
            && ListOf(q.defaults, s) == ListOf(p.defaults, s) + OfSym(e, s, e.attrs.defaults)
            && ListOf(q.ranges, s) == ListOf(p.ranges, s) + OfSym(e, s, e.attrs.ranges)
            && ChosenList(q, weak, s) == ChosenList(p, weak, s) + OfSym(e, s, SelectsOf(e.attrs, weak))
  {
  }

  lemma NothingMore(p: SymProps, weak: bool, s: nat)
    ensures ListOf(p.defaults, s) == ListOf(p.defaults, s) + [] && ListOf(p.ranges, s) == ListOf(p.ranges, s) + []
    ensures ChosenList(p, weak, s) == ChosenList(p, weak, s) + []
  {
  }

  lemma {:induction false} Gather(p: SymProps, es: seq<Entry>, weak: bool, s: nat)
    ensures var q := WithNodes(p, es);
            && ListOf(q.defaults, s) == ListOf(p.defaults, s) + OwnDefaults(es, s)
            && ListOf(q.ranges, s) == ListOf(p.ranges, s) + OwnRanges(es, s)
            && ChosenList(q, weak, s) == ChosenList(p, weak, s) + OwnSelects(es, weak, s)
    decreases |es|
  {
    if es == [] {
      NothingMore(p, weak, s);
    } else {
      OneNode(p, es[0], weak, s);
      Gather(WithNode(p, es[0]), es[1..], weak, s);
      Reassociate(ListOf(p.defaults, s), OfSym(es[0], s, es[0].attrs.defaults), OwnDefaults(es[1..], s));
      Reassociate(ListOf(p.ranges, s), OfSym(es[0], s, es[0].attrs.ranges), OwnRanges(es[1..], s));
      Reassociate(ChosenList(p, weak, s), OfSym(es[0], s, SelectsOf(es[0].attrs, weak)), OwnSelects(es[1..], weak, s));
    }
  }

  lemma NodeDefaultsMean(v: Valuation, e: Entry, p: Placed, s: nat)
    requires Meets(v, e, p)
    ensures DefaultsAre(v, OfSym(e, s, e.attrs.defaults), if Defines(p, s) then AllUnder(p.written.defaults, Deps(p)) else [])
  {
  }

  lemma NodeRangesMean(v: Valuation, e: Entry, p: Placed, s: nat)
    requires Meets(v, e, p)
    ensures RangesAre(v, OfSym(e, s, e.attrs.ranges), if Defines(p, s) then AllUnder(p.written.ranges, Deps(p)) else [])
  {
  }

  lemma NodeSelectsMean(v: Valuation, e: Entry, p: Placed, weak: bool, s: nat)
    requires Meets(v, e, p)
    ensures SelectsAre(v, OfSym(e, s, SelectsOf(e.attrs, weak)),
                       if Defines(p, s) then AllUnder(SelectsOf(p.written, weak), Deps(p)) else [])
  {
  }

  lemma {:induction false} OwnDefaultsMean(v: Valuation, es: seq<Entry>, ps: seq<Placed>, s: nat)
    requires AllMeet(v, es, ps)
    ensures DefaultsAre(v, OwnDefaults(es, s), WrittenDefaults(ps, s))
    decreases |es|
  {
    if es != [] {
      AllMeetRest(v, es, ps);
      NodeDefaultsMean(v, es[0], ps[0], s);
      OwnDefaultsMean(v, es[1..], ps[1..], s);
    }
  }

  lemma {:induction false} OwnRangesMean(v: Valuation, es: seq<Entry>, ps: seq<Placed>, s: nat)
    requires AllMeet(v, es, ps)
    ensures RangesAre(v, OwnRanges(es, s), WrittenRanges(ps, s))
    decreases |es|
  {
    if es != [] {
      AllMeetRest(v, es, ps);
      NodeRangesMean(v, es[0], ps[0], s);
      OwnRangesMean(v, es[1..], ps[1..], s);
    }
  }

  lemma {:induction false} OwnSelectsMean(v: Valuation, es: seq<Entry>, ps: seq<Placed>, weak: bool, s: nat)
    requires AllMeet(v, es, ps)
    ensures SelectsAre(v, OwnSelects(es, weak, s), WrittenSelects(ps, weak, s))
    decreases |es|
  {
    if es != [] {
      AllMeetRest(v, es, ps);
      NodeSelectsMean(v, es[0], ps[0], weak, s);
      OwnSelectsMean(v, es[1..], ps[1..], weak, s);
    }
  }

  lemma CollectedBelow(t: Tree)
    requires t.Link? && t.rest.End? && IfsPlain(t) && Leafy(t) && !t.node.item.SymItem?
    ensures WithNodes(NO_PROPS, Entries(Finalized(t, Y))) == WithNodes(NO_PROPS, Entries(Finalized(t, Y).kids))
  {
    var f := Finalized(t, Y);
    FinalizedKeeps(t, Y);
    EntriesRest(f, End);
    assert f.rest == End && Alone(f) == f;
    WithNodesConcat(NO_PROPS, Own(f), Entries(f.kids));
    assert WithNodes(NO_PROPS, Own(f)) == NO_PROPS;
  }

  /** After finalization each symbol has its defaults, ranges, selects and implies from all its definitions, in the order
      of the files, each with the minimum of its condition and the dependencies it stands under. */
  lemma CollectedLists(v: Valuation, t: Tree, s: nat, weak: bool)
    requires t.Link? && t.rest.End? && IfsPlain(t) && Leafy(t) && !t.node.item.SymItem?
    ensures var p := WithNodes(NO_PROPS, Entries(Finalized(t, Y)));
            var ps := Placing(t.kids, Inner(t.node.item, t.attrs, Scope([], [])));
            && DefaultsAre(v, ListOf(p.defaults, s), WrittenDefaults(ps, s))
            && RangesAre(v, ListOf(p.ranges, s), WrittenRanges(ps, s))
            && SelectsAre(v, ChosenList(p, weak, s), WrittenSelects(ps, weak, s))
  {
    var es, ps := Entries(Finalized(t, Y).kids), Placing(t.kids, Inner(t.node.item, t.attrs, Scope([], [])));
    CollectedBelow(t);
    FinalizedMeans(v, t);
    Gather(NO_PROPS, es, weak, s);
    OwnDefaultsMean(v, es, ps, s);
    OwnRangesMean(v, es, ps, s);
    OwnSelectsMean(v, es, ps, weak, s);
    FromNothing(es, weak, s);
  }

  lemma FromNothing(es: seq<Entry>, weak: bool, s: nat)
    ensures ListOf(NO_PROPS.defaults, s) + OwnDefaults(es, s) == OwnDefaults(es, s)
    ensures ListOf(NO_PROPS.ranges, s) + OwnRanges(es, s) == OwnRanges(es, s)
    ensures ChosenList(NO_PROPS, weak, s) + OwnSelects(es, weak, s) == OwnSelects(es, weak, s)
  {
  }

  // What choices collect

  function SymsListed(rs: seq<Registered>, c: nat): seq<nat> {
    if rs == [] then [] else (if rs[0].c == c then rs[0].syms else []) + SymsListed(rs[1..], c)
  }

  function DefaultsListed(rs: seq<Registered>, c: nat): seq<Default> {
    if rs == [] then [] else (if rs[0].c == c then rs[0].attrs.defaults else []) + DefaultsListed(rs[1..], c)
  }

  function HighestDep(v: Valuation, rs: seq<Registered>, c: nat): Tri {
    if rs == [] then 0
    else
      var rest := HighestDep(v, rs[1..], c);
      if rs[0].c == c then Max(Value(v, rs[0].attrs.dep), rest) else rest
  }

  lemma OneChoiceNode(v: Valuation, p: ChoiceProps, r: Registered, c: nat)
    ensures var q, own := WithChoice(p, r), r.c == c;
            && ListOf(q.syms, c) == ListOf(p.syms, c) + (if own then r.syms else [])
            && ListOf(q.defaults, c) == ListOf(p.defaults, c) + (if own then r.attrs.defaults else [])
            && Value(v, DepOf(q.directDep, c)) == Max(Value(v, DepOf(p.directDep, c)), if own then Value(v, r.attrs.dep) else 0)
  {
    MakeOrIsMax(v, DepOf(p.directDep, c), r.attrs.dep);
  }

  /** A choice has the symbols and defaults of all its nodes, in turn, and depends on the highest of their dependencies. */
  lemma {:induction false} ChoiceLists(v: Valuation, p: ChoiceProps, rs: seq<Registered>, c: nat)
    ensures var q := WithChoices(p, rs);
            && ListOf(q.syms, c) == ListOf(p.syms, c) + SymsListed(rs, c)
            && ListOf(q.defaults, c) == ListOf(p.defaults, c) + DefaultsListed(rs, c)
            && Value(v, DepOf(q.directDep, c)) == Max(Value(v, DepOf(p.directDep, c)), HighestDep(v, rs, c))
    decreases |rs|
  {
    if rs == [] {
      assert ListOf(p.syms, c) + [] == ListOf(p.syms, c) && ListOf(p.defaults, c) + [] == ListOf(p.defaults, c);
    } else {
      OneChoiceNode(v, p, rs[0], c);
      ChoiceLists(v, WithChoice(p, rs[0]), rs[1..], c);
      Reassociate(ListOf(p.syms, c), if rs[0].c == c then rs[0].syms else [], SymsListed(rs[1..], c));
      Reassociate(ListOf(p.defaults, c), if rs[0].c == c then rs[0].attrs.defaults else [], DefaultsListed(rs[1..], c));
    }
  }

  /** t is the type of the first symbol that has one. */
  ghost predicate IsFirstType(m: map<nat, SymType>, syms: seq<nat>, t: SymType) {
    if exists s :: s in syms && TypeIn(m, s) != UNKNOWN
    then exists k :: 0 <= k < |syms| && TypeIn(m, syms[k]) == t != UNKNOWN && forall j :: 0 <= j < k ==> TypeIn(m, syms[j]) == UNKNOWN
    else t == UNKNOWN
  }

  lemma {:induction false} FirstTypeLaw(m: map<nat, SymType>, syms: seq<nat>)
    ensures IsFirstType(m, syms, FirstType(m, syms))
  {
    if syms != [] {
      var t := FirstType(m, syms);
      if TypeIn(m, syms[0]) != UNKNOWN {
        assert TypeIn(m, syms[0]) == t != UNKNOWN;
      } else {
        FirstTypeLaw(m, syms[1..]);
        if s :| s in syms && TypeIn(m, s) != UNKNOWN {
          assert s in syms[1..];
          var k :| 0 <= k < |syms[1..]| && TypeIn(m, syms[1..][k]) == t != UNKNOWN && forall j :: 0 <= j < k ==> TypeIn(m, syms[1..][j]) == UNKNOWN;
          assert TypeIn(m, syms[k + 1]) == t && forall j :: 0 <= j < k + 1 ==> j == 0 || syms[j] == syms[1..][j - 1];
        }
      }
    }
  }

  /** A choice without a type gets that of its first symbol that has one, and passes its type on to its symbols that have
      none; nothing else gets a type. */
  lemma ChoiceTypeLaw(p: ChoiceProps, r: Registered, s: nat, c: nat)
    ensures var q, syms := WithChoice(p, r), ListOf(p.syms, r.c) + r.syms;
            var typ := TypeIn(q.choiceType, r.c);
            && (if TypeIn(p.choiceType, r.c) != UNKNOWN then typ == TypeIn(p.choiceType, r.c) else IsFirstType(p.symType, syms, typ))
            && (c != r.c ==> TypeIn(q.choiceType, c) == TypeIn(p.choiceType, c))
            && TypeIn(q.symType, s) == if s in syms && TypeIn(p.symType, s) == UNKNOWN then typ else TypeIn(p.symType, s)
  {
    var syms := ListOf(p.syms, r.c) + r.syms;
    FirstTypeLaw(p.symType, syms);
    WithTypesIs(p.symType, syms, TypeOfChoice(p, r.c, syms), s);
  }

  /** The symbols of a choice node are those directly below it. */
  lemma {:induction false} ListedSymsLaw(t: Tree, s: nat)
    ensures s in ListedSyms(t) <==> exists n :: n in TopNodes(t) && n.Link? && n.node.item == SymItem(s)
  {
    if t.Link? {
      ListedSymsLaw(t.rest, s);
      assert TopNodes(t)[0] == Alone(t);
      if s in ListedSyms(t.rest) {
        var n :| n in TopNodes(t.rest) && n.Link? && n.node.item == SymItem(s);
        assert n in TopNodes(t);
      }
    }
  }
}
