/** What dependency propagation means, under every valuation of the symbols. */
module Propagation {
  import opened KconfigLang
  import opened MenuTree
  import opened Finalization

  /** Values for symbols and choices, and truth for comparisons. */
  datatype Valuation = Valuation(leaf: Leaf -> Tri, holds: (Relation, Leaf, Leaf) -> bool)

  function Value(v: Valuation, e: Expr): Tri {
    match e
    case Atom(x) => if x.Nmy? then x.t else v.leaf(x)
    case And(l, r) => Min(Value(v, l), Value(v, r))
    case Or(l, r) => Max(Value(v, l), Value(v, r))
    case Not(e1) => 2 - Value(v, e1)
    case Rel(op, a, b) => if v.holds(op, a, b) then 2 else 0
  }

  /** The simplifications of && and || with y and n operands keep the value. */
  lemma {:induction false} MakeAndIsMin(v: Valuation, a: Expr, b: Expr)
    ensures Value(v, MakeAnd(a, b)) == Min(Value(v, a), Value(v, b))
  {
    assert Value(v, Y) == 2 && Value(v, N) == 0;
  }

  lemma {:induction false} MakeOrIsMax(v: Valuation, a: Expr, b: Expr)
    ensures Value(v, MakeOr(a, b)) == Max(Value(v, a), Value(v, b))
  {
    assert Value(v, Y) == 2 && Value(v, N) == 0;
  }

  /** The minimum over a list of conditions. */
  function Least(v: Valuation, es: seq<Expr>): Tri {
    if es == [] then 2 else Min(Value(v, es[0]), Least(v, es[1..]))
  }

  lemma {:induction false} LeastConcat(v: Valuation, a: seq<Expr>, b: seq<Expr>)
    ensures Least(v, a + b) == Min(Least(v, a), Least(v, b))
  {
    if a == [] {
      assert a + b == b;
    } else {
      assert (a + b)[1..] == a[1..] + b;
      LeastConcat(v, a[1..], b);
    }
  }

  // The conditions that a node stands under

  /** The dependencies of the nodes above, down from the nearest choice (whose mode stands for itself and all above
      it), and the 'visible if's of all menus above. */
  datatype Scope = Scope(deps: seq<Expr>, visibles: seq<Expr>)

  datatype Placed = Placed(node: MenuNode, written: Attrs, scope: Scope)

  function Inner(item: MenuItem, a: Attrs, sc: Scope): Scope {
    Scope(if item.ChoiceItem? then [Atom(Mode(item.c))] else [a.dep] + sc.deps,
          if item.Menu? then [a.visibility] + sc.visibles else sc.visibles)
  }

  /** The nodes as written in the files, in definition order, each with its scope. */
  function Placing(t: Tree, sc: Scope): seq<Placed> {
    if t.End? then []
    else (if t.node.item.If? then [] else [Placed(t.node, t.attrs, sc)]) +
         (Placing(t.kids, Inner(t.node.item, t.attrs, sc)) + Placing(t.rest, sc))
  }

  function Deps(p: Placed): seq<Expr> {
    [p.written.dep] + p.scope.deps
  }

  /** A propagated condition is the minimum of the written condition and everything the node stands under. */
  predicate MeansUnder(v: Valuation, cond: Expr, written: Expr, deps: seq<Expr>) {
    Value(v, cond) == Least(v, [written] + deps)
  }

  predicate HasProperties(item: MenuItem) {
    item.SymItem? || item.ChoiceItem?
  }

  ghost predicate SelectsMean(v: Valuation, ss: seq<Select>, written: seq<Select>, deps: seq<Expr>) {
    |ss| == |written| &&
    forall k :: 0 <= k < |ss| ==> ss[k].target == written[k].target && MeansUnder(v, ss[k].cond, written[k].cond, deps)
  }

  ghost predicate DefaultsMean(v: Valuation, ds: seq<Default>, written: seq<Default>, deps: seq<Expr>) {
    |ds| == |written| &&
    forall k :: 0 <= k < |ds| ==> ds[k].value == written[k].value && MeansUnder(v, ds[k].cond, written[k].cond, deps)
  }

  ghost predicate RangesMean(v: Valuation, rs: seq<Range>, written: seq<Range>, deps: seq<Expr>) {
    |rs| == |written| &&
    forall k :: 0 <= k < |rs| ==>
      rs[k].low == written[k].low && rs[k].high == written[k].high && MeansUnder(v, rs[k].cond, written[k].cond, deps)
  }

  /** The finalized attributes of a node mean what its written attributes mean where they stand. */
  ghost predicate Meets(v: Valuation, e: Entry, p: Placed) {
    var item, a, w, deps := e.node.item, e.attrs, p.written, Deps(p);
    && e.node == p.node
    && Value(v, a.dep) == Least(v, deps)
    && a.prompt.Some? == w.prompt.Some?
    && (a.prompt.Some? ==>
          MeansUnder(v, a.prompt.value, w.prompt.value, if HasProperties(item) then deps + p.scope.visibles else deps))
    && (HasProperties(item) ==>
          && SelectsMean(v, a.selects, w.selects, deps) && SelectsMean(v, a.implies, w.implies, deps)
          && DefaultsMean(v, a.defaults, w.defaults, deps) && RangesMean(v, a.ranges, w.ranges, deps))
  }

  ghost predicate AllMeet(v: Valuation, es: seq<Entry>, ps: seq<Placed>) {
    |es| == |ps| && forall i :: 0 <= i < |es| ==> Meets(v, es[i], ps[i])
  }

  lemma MeansUnderAnd(v: Valuation, written: Expr, dep: Expr, deps: seq<Expr>)
    requires Value(v, dep) == Least(v, deps)
    ensures MeansUnder(v, MakeAnd(written, dep), written, deps)
  {
    assert ([written] + deps)[1..] == deps;
  }

  lemma PushedPromptMeans(v: Valuation, n: MenuNode, w: Attrs, base: Expr, visibleIf: Expr, sc: Scope)
    requires Value(v, base) == Least(v, sc.deps) && Value(v, visibleIf) == Least(v, sc.visibles) && w.prompt.Some?
    ensures var a, deps := Pushed(n.item, w, base, visibleIf), [w.dep] + sc.deps;
            && a.prompt.Some?
            && MeansUnder(v, a.prompt.value, w.prompt.value, if HasProperties(n.item) then deps + sc.visibles else deps)
  {
    var dep, deps := MakeAnd(w.dep, base), [w.dep] + sc.deps;
    MeansUnderAnd(v, w.dep, base, sc.deps);
    LeastConcat(v, deps, sc.visibles);
    MakeAndIsMin(v, visibleIf, dep);
    MeansUnderAnd(v, w.prompt.value, dep, deps);
    MeansUnderAnd(v, w.prompt.value, MakeAnd(visibleIf, dep), deps + sc.visibles);
  }

  lemma PushedMeets(v: Valuation, n: MenuNode, w: Attrs, base: Expr, visibleIf: Expr, sc: Scope)
    requires Value(v, base) == Least(v, sc.deps) && Value(v, visibleIf) == Least(v, sc.visibles)
    ensures Meets(v, Entry(n, Pushed(n.item, w, base, visibleIf)), Placed(n, w, sc))
  {
    var dep, deps := MakeAnd(w.dep, base), [w.dep] + sc.deps;
    MeansUnderAnd(v, w.dep, base, sc.deps);
    if w.prompt.Some? { PushedPromptMeans(v, n, w, base, visibleIf, sc); }
    AddedMean(v, w, dep, deps);
  }

  lemma AddedMean(v: Valuation, w: Attrs, dep: Expr, deps: seq<Expr>)
    requires Value(v, dep) == Least(v, deps)
    ensures SelectsMean(v, AddConds(w.selects, dep), w.selects, deps)
    ensures SelectsMean(v, AddConds(w.implies, dep), w.implies, deps)
    ensures DefaultsMean(v, AddDefaultConds(w.defaults, dep), w.defaults, deps)
    ensures RangesMean(v, AddRangeConds(w.ranges, dep), w.ranges, deps)
  {
    forall c: Expr ensures MeansUnder(v, MakeAnd(c, dep), c, deps) { MeansUnderAnd(v, c, dep, deps); }
  }

  lemma InnerMeans(v: Valuation, n: MenuNode, w: Attrs, base: Expr, visibleIf: Expr, sc: Scope)
    requires Value(v, base) == Least(v, sc.deps) && Value(v, visibleIf) == Least(v, sc.visibles)
    ensures var a, inner := Pushed(n.item, w, base, visibleIf), Inner(n.item, w, sc);
            && Value(v, BaseDep(n.item, a)) == Least(v, inner.deps)
            && Value(v, InnerVisibleIf(n.item, a, visibleIf)) == Least(v, inner.visibles)
  {
    MeansUnderAnd(v, w.dep, base, sc.deps);
    MeansUnderAnd(v, w.visibility, visibleIf, sc.visibles);
    MakeAndIsMin(v, visibleIf, w.visibility);
  }

  lemma AllMeetConcat(v: Valuation, a: seq<Entry>, b: seq<Entry>, p: seq<Placed>, q: seq<Placed>)
    requires AllMeet(v, a, p) && AllMeet(v, b, q)
    ensures AllMeet(v, a + b, p + q)
  {
  }

  lemma {:induction false} PushDownMeans(v: Valuation, t: Tree, base: Expr, visibleIf: Expr, sc: Scope)
    requires Value(v, base) == Least(v, sc.deps) && Value(v, visibleIf) == Least(v, sc.visibles)
    ensures AllMeet(v, Entries(PushDown(PushLevel(t, base, visibleIf), visibleIf)), Placing(t, sc))
    decreases Count(t)
  {
    if t.Link? {
      var n, a, inner := t.node, Pushed(t.node.item, t.attrs, base, visibleIf), Inner(t.node.item, t.attrs, sc);
      var below, vif := BaseDep(n.item, a), InnerVisibleIf(n.item, a, visibleIf);
      var p := PushDown(PushLevel(t, base, visibleIf), visibleIf);
      assert p == Link(n, a, PushDown(PushLevel(t.kids, below, vif), vif),
                       PushDown(PushLevel(t.rest, base, visibleIf), visibleIf));
      PushedMeets(v, n, t.attrs, base, visibleIf, sc);
      InnerMeans(v, n, t.attrs, base, visibleIf, sc);
      PushDownMeans(v, t.kids, below, vif, inner);
      PushDownMeans(v, t.rest, base, visibleIf, sc);
      AllMeetConcat(v, Entries(p.kids), Entries(p.rest), Placing(t.kids, inner), Placing(t.rest, sc));
      AllMeetConcat(v, Own(p), Entries(p.kids) + Entries(p.rest),
                    if n.item.If? then [] else [Placed(n, t.attrs, sc)], Placing(t.kids, inner) + Placing(t.rest, sc));
    }
  }

  /** The entries below a finalized top node are those of the propagated tree. */
  lemma BelowTop(t: Tree, visibleIf: Expr)
    requires t.Link? && t.rest.End? && IfsPlain(t) && Leafy(t)
    ensures Entries(Finalized(t, visibleIf).kids) == Entries(PushDown(t, visibleIf).kids)
  {
    var f, p := Finalized(t, visibleIf), PushDown(t, visibleIf);
    FinalizedKeeps(t, visibleIf);
    EntriesRest(f, End);
    EntriesRest(p, End);
    assert PushDown(End, visibleIf) == End;
    if t.node.item.SymItem? { assert Gathered(t.node.item.s, End, visibleIf) == Split(End, End); }
    assert f.rest == End && Alone(f) == f && Alone(p) == p;
    assert Entries(f.kids) == (Own(f) + Entries(f.kids))[|Own(f)|..];
    assert Entries(p.kids) == (Own(p) + Entries(p.kids))[|Own(p)|..];
  }

  /** Finalization preserves meaning: below the top node, every dependency, prompt, default, range, select and imply
      has the value of its written condition, reduced to the minimum of its own and all enclosing dependencies (a
      choice contributing its mode) and, for prompts of symbols and choices, all enclosing 'visible if's. */
  lemma FinalizedMeans(v: Valuation, t: Tree)
    requires t.Link? && t.rest.End? && IfsPlain(t) && Leafy(t)
    ensures AllMeet(v, Entries(Finalized(t, Y).kids), Placing(t.kids, Inner(t.node.item, t.attrs, Scope([], []))))
  {
    var n, a, sc := t.node, t.attrs, Inner(t.node.item, t.attrs, Scope([], []));
    BelowTop(t, Y);
    assert sc.deps == if n.item.ChoiceItem? then [Atom(Mode(n.item.c))] else [a.dep];
    assert Value(v, BaseDep(n.item, a)) == Least(v, sc.deps);
    assert InnerVisibleIf(n.item, a, Y) == if n.item.Menu? then a.visibility else Y;
    PushDownMeans(v, t.kids, BaseDep(n.item, a), InnerVisibleIf(n.item, a, Y), sc);
  }

  // Dependencies collected by symbols

  function SelectsOf(a: Attrs, weak: bool): seq<Select> {
    if weak then a.implies else a.selects
  }

  function RevDepOf(p: SymProps, weak: bool, s: nat): Expr {
    DepOf(if weak then p.weakRevDep else p.revDep, s)
  }

  /** The maximum over a node's selects of s. */
  function SelectedBy(v: Valuation, selector: nat, ss: seq<Select>, deps: seq<Expr>, s: nat): Tri {
    if ss == [] then 0
    else
      var rest := SelectedBy(v, selector, ss[1..], deps, s);
      if ss[0].target == s then Max(Min(v.leaf(Ref(selector)), Least(v, [ss[0].cond] + deps)), rest) else rest
  }

  /** The maximum, over all selects (or implies) of s, of the minimum of the selecting symbol and the condition. */
  function Demand(v: Valuation, ps: seq<Placed>, weak: bool, s: nat): Tri {
    if ps == [] then 0
    else
      var rest := Demand(v, ps[1..], weak, s);
      if ps[0].node.item.SymItem? then
        Max(SelectedBy(v, ps[0].node.item.s, SelectsOf(ps[0].written, weak), Deps(ps[0]), s), rest)
      else rest
  }

  /** The maximum over the definitions of s of the dependencies they stand under. */
  function Offer(v: Valuation, ps: seq<Placed>, s: nat): Tri {
    if ps == [] then 0
    else
      var rest := Offer(v, ps[1..], s);
      if ps[0].node.item == SymItem(s) then Max(Least(v, Deps(ps[0])), rest) else rest
  }

  lemma {:induction false} WithSelectsMeans(
      v: Valuation, m: map<nat, Expr>, selector: nat, ss: seq<Select>, written: seq<Select>, deps: seq<Expr>, s: nat)
    requires SelectsMean(v, ss, written, deps)
    ensures Value(v, DepOf(WithSelects(m, selector, ss), s)) ==
            Max(Value(v, DepOf(m, s)), SelectedBy(v, selector, written, deps, s))
    decreases |ss|
  {
    if ss != [] {
      var t := ss[0].target;
      var e := MakeAnd(Atom(Ref(selector)), ss[0].cond);
      var m1 := m[t := MakeOr(DepOf(m, t), e)];
      assert MeansUnder(v, ss[0].cond, written[0].cond, deps);
      MakeAndIsMin(v, Atom(Ref(selector)), ss[0].cond);
      MakeOrIsMax(v, DepOf(m, t), e);
      assert SelectsMean(v, ss[1..], written[1..], deps);
      WithSelectsMeans(v, m1, selector, ss[1..], written[1..], deps, s);
    }
  }

  lemma AllMeetRest(v: Valuation, es: seq<Entry>, ps: seq<Placed>)
    requires AllMeet(v, es, ps) && es != []
    ensures Meets(v, es[0], ps[0]) && AllMeet(v, es[1..], ps[1..])
  {
    forall i | 0 <= i < |es| - 1 ensures Meets(v, es[1..][i], ps[1..][i]) { assert Meets(v, es[i + 1], ps[i + 1]); }
  }

  lemma {:induction false} RevDepsMean(v: Valuation, p: SymProps, es: seq<Entry>, ps: seq<Placed>, weak: bool, s: nat)
    requires AllMeet(v, es, ps)
    ensures Value(v, RevDepOf(WithNodes(p, es), weak, s)) == Max(Value(v, RevDepOf(p, weak, s)), Demand(v, ps, weak, s))
    decreases |es|
  {
    if es != [] {
      AllMeetRest(v, es, ps);
      RevDepsMean(v, WithNode(p, es[0]), es[1..], ps[1..], weak, s);
      if es[0].node.item.SymItem? {
        var a, w, n := es[0].attrs, ps[0].written, es[0].node.item.s;
        WithSelectsMeans(v, if weak then p.weakRevDep else p.revDep, n, SelectsOf(a, weak), SelectsOf(w, weak), Deps(ps[0]), s);
      }
    }
  }

  lemma {:induction false} DirectDepsMean(v: Valuation, p: SymProps, es: seq<Entry>, ps: seq<Placed>, s: nat)
    requires AllMeet(v, es, ps)
    ensures Value(v, DepOf(WithNodes(p, es).directDep, s)) == Max(Value(v, DepOf(p.directDep, s)), Offer(v, ps, s))
    decreases |es|
  {
    if es != [] {
      AllMeetRest(v, es, ps);
      DirectDepsMean(v, WithNode(p, es[0]), es[1..], ps[1..], s);
      if es[0].node.item == SymItem(s) {
        MakeOrIsMax(v, DepOf(p.directDep, s), es[0].attrs.dep);
      }
    }
  }

  /** After finalization, the reverse dependency of a symbol is the maximum over all selects of it of the minimum of
      the selector and the condition, its weak reverse dependency the same over implies, and its direct dependency
      the maximum over its definitions. */
  lemma CollectedMeans(v: Valuation, t: Tree, weak: bool, s: nat)
    requires t.Link? && t.rest.End? && IfsPlain(t) && Leafy(t) && !t.node.item.SymItem?
    ensures var p := WithNodes(NO_PROPS, Entries(Finalized(t, Y)));
            var ps := Placing(t.kids, Inner(t.node.item, t.attrs, Scope([], [])));
            && Value(v, RevDepOf(p, weak, s)) == Demand(v, ps, weak, s)
            && Value(v, DepOf(p.directDep, s)) == Offer(v, ps, s)
  {
    var f := Finalized(t, Y);
    FinalizedMeans(v, t);
    EntriesRest(f, End);
    WithNodesConcat(NO_PROPS, Own(f), Entries(f.kids));
    assert WithNodes(NO_PROPS, Own(f)) == NO_PROPS;
    var ps := Placing(t.kids, Inner(t.node.item, t.attrs, Scope([], [])));
    RevDepsMean(v, NO_PROPS, Entries(f.kids), ps, weak, s);
    DirectDepsMean(v, NO_PROPS, Entries(f.kids), ps, s);
  }
}
