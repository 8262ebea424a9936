/** Configurations built from a finalized menu tree are well-formed: what the evaluator relies on follows from
    dependency propagation. */
module FinalizedConfig {
  import opened KconfigLang
  import opened Evaluation
  import opened Choices
  import opened MenuTree
  import opened Finalization
  import opened Propagation
  import opened TreeWalk

  // Evaluation is one of the valuations that propagation respects

  ghost function ValuesOf(cfg: Config, u: User): Valuation
    requires Sane(cfg, u)
  {
    Valuation(x => LeafTri(cfg, u, x), (op, a, b) => Holds(op, Compare(cfg, u, a, b)))
  }

  lemma {:induction false} EvIsValue(cfg: Config, u: User, e: Expr)
    requires Sane(cfg, u)
    ensures Ev(cfg, u, e) == Value(ValuesOf(cfg, u), e)
  {
    match e
    case And(l, r) => EvIsValue(cfg, u, l); EvIsValue(cfg, u, r);
    case Or(l, r) => EvIsValue(cfg, u, l); EvIsValue(cfg, u, r);
    case Not(e1) => EvIsValue(cfg, u, e1);
    case _ =>
  }

  // Guards through propagation

  lemma GuardsAnd(d: Expr, a: Expr, b: Expr)
    requires Guards(d, a)
    ensures Guards(d, MakeAnd(a, b)) && Guards(d, MakeAnd(b, a))
  {
  }

  lemma OffersOr(d: Expr, a: Expr, b: Expr)
    requires Offers(d, a) || Offers(d, b)
    ensures Offers(d, MakeOr(a, b))
  {
  }

  predicate NodeUnder(item: MenuItem, a: Attrs, g: Expr) {
    Guards(g, a.dep) && (HasProperties(item) && a.prompt.Some? ==> Guards(g, a.prompt.value) && Guards(a.dep, a.prompt.value))
  }

  /** g guards every node of the chain and below it, down to choices, whose modes guard their contents. */
  predicate Under(t: Tree, g: Expr) {
    t.Link? ==>
      && NodeUnder(t.node.item, t.attrs, g)
      && Under(t.kids, if t.node.item.ChoiceItem? then Atom(Mode(t.node.item.c)) else g)
      && Under(t.rest, g)
  }

  predicate TopUnder(t: Tree, g: Expr) {
    t.Link? ==> NodeUnder(t.node.item, t.attrs, g) && TopUnder(t.rest, g)
  }

  lemma PushedUnder(item: MenuItem, a: Attrs, base: Expr, visibleIf: Expr, g: Expr)
    requires Guards(g, base)
    ensures NodeUnder(item, Pushed(item, a, base, visibleIf), g)
  {
    var dep := MakeAnd(a.dep, base);
    GuardsAnd(g, base, a.dep);
    GuardsAnd(g, dep, visibleIf);
    GuardsAnd(dep, dep, visibleIf);
    if a.prompt.Some? {
      GuardsAnd(g, MakeAnd(visibleIf, dep), a.prompt.value);
      GuardsAnd(dep, MakeAnd(visibleIf, dep), a.prompt.value);
    }
  }

  lemma {:induction false} PushLevelUnder(t: Tree, base: Expr, visibleIf: Expr, g: Expr)
    requires Guards(g, base)
    ensures TopUnder(PushLevel(t, base, visibleIf), g)
  {
    if t.Link? {
      PushedUnder(t.node.item, t.attrs, base, visibleIf, g);
      PushLevelUnder(t.rest, base, visibleIf, g);
    }
  }

  lemma {:induction false} UnderAppend(a: Tree, b: Tree, g: Expr)
    requires Under(a, g) && Under(b, g)
    ensures Under(Append(a, b), g)
  {
    if a.Link? { UnderAppend(a.rest, b, g); }
  }

  lemma {:induction false} FlatUnder(t: Tree, g: Expr)
    requires Under(t, g)
    ensures Under(Flat(t), g)
    decreases Count(t)
  {
    if t.Link? {
      if Dissolves(t) { UnderAppend(t.kids, t.rest, g); }
      FlatUnder(Dissolved(t).rest, g);
    }
  }

  lemma {:induction false} NoIfsUnder(t: Tree, g: Expr)
    requires Under(t, g)
    ensures Under(NoIfs(t), g)
  {
    if t.Link? { NoIfsUnder(t.rest, g); }
  }

  lemma TidyUnder(t: Tree, g: Expr)
    requires Under(t, g)
    ensures Under(Tidy(t), g)
  {
    FlatUnder(t, g);
    NoIfsUnder(Flat(t), g);
  }

  lemma {:induction false} FinalizedUnder(t: Tree, visibleIf: Expr, g: Expr)
    requires t.Link? && TopUnder(t, g) && IfsPlain(t) && Leafy(t)
    ensures var f := Finalized(t, visibleIf); Under(Alone(f), g) && TopUnder(f.rest, g)
    decreases Count(t), 1
  {
    if t.node.item.SymItem? {
      var inner := Gathered(t.node.item.s, t.rest, visibleIf).inner;
      GatheredUnder(t.node.item.s, t.rest, visibleIf, g);
      TidyUnder(inner, g);
    } else {
      var inner := InnerVisibleIf(t.node.item, t.attrs, visibleIf);
      var base := BaseDep(t.node.item, t.attrs);
      var h := if t.node.item.ChoiceItem? then base else g;
      var kids := PushLevel(t.kids, base, inner);
      PushLevelUnder(t.kids, base, inner, h);
      PushLevelKeeps(t.kids, base, inner);
      AllFinalizedUnder(kids, inner, h);
      TidyUnder(AllFinalized(kids, inner), h);
    }
  }

  lemma {:induction false} GatheredUnder(s: nat, t: Tree, visibleIf: Expr, g: Expr)
    requires TopUnder(t, g) && IfsPlain(t) && Leafy(t)
    ensures var r := Gathered(s, t, visibleIf); Under(r.inner, g) && TopUnder(r.rest, g)
    decreases Count(t), 2
  {
    if t.Link? && AutoMenuDep(s, t.attrs) {
      FinalizedUnder(t, visibleIf, g);
      FinalizedKeeps(t, visibleIf);
      GatheredUnder(s, Finalized(t, visibleIf).rest, visibleIf, g);
    }
  }

  lemma {:induction false} AllFinalizedUnder(t: Tree, visibleIf: Expr, g: Expr)
    requires TopUnder(t, g) && IfsPlain(t) && Leafy(t)
    ensures Under(AllFinalized(t, visibleIf), g)
    decreases Count(t), 2
  {
    if t.Link? {
      FinalizedUnder(t, visibleIf, g);
      FinalizedKeeps(t, visibleIf);
      AllFinalizedUnder(Finalized(t, visibleIf).rest, visibleIf, g);
    }
  }

  // From the tree to the configuration

  /** A node together with the choice that is its parent, if its parent is a choice. */
  datatype Child = Child(entry: Entry, inChoice: Option<nat>)

  function Children(t: Tree, inChoice: Option<nat>): seq<Child> {
    if t.End? then []
    else
      [Child(Entry(t.node, t.attrs), inChoice)] +
      (Children(t.kids, if t.node.item.ChoiceItem? then Some(t.node.item.c) else None) + Children(t.rest, inChoice))
  }

  /** The menu nodes of a symbol or choice. */
  function NodesFor(cs: seq<Child>, item: MenuItem): seq<Node> {
    if cs == [] then []
    else (if cs[0].entry.node.item == item then [Node(cs[0].entry.attrs.prompt, cs[0].entry.attrs.dep)] else []) +
         NodesFor(cs[1..], item)
  }

  function EntriesOf(cs: seq<Child>): seq<Entry> {
    if cs == [] then [] else [cs[0].entry] + EntriesOf(cs[1..])
  }

  lemma {:induction false} EntriesOfConcat(a: seq<Child>, b: seq<Child>)
    ensures EntriesOf(a + b) == EntriesOf(a) + EntriesOf(b)
  {
    if a == [] {
      assert a + b == b;
    } else {
      assert (a + b)[1..] == a[1..] + b;
      EntriesOfConcat(a[1..], b);
    }
  }

  lemma {:induction false} ChildrenArePreorder(t: Tree, inChoice: Option<nat>)
    ensures EntriesOf(Children(t, inChoice)) == Preorder(t)
  {
    if t.Link? {
      var kids := Children(t.kids, if t.node.item.ChoiceItem? then Some(t.node.item.c) else None);
      var rest := Children(t.rest, inChoice);
      ChildrenArePreorder(t.kids, if t.node.item.ChoiceItem? then Some(t.node.item.c) else None);
      ChildrenArePreorder(t.rest, inChoice);
      EntriesOfConcat(kids, rest);
      assert Children(t, inChoice)[1..] == kids + rest;
    }
  }

  /** The prompts of nodes are guarded by their dependencies, and by the mode of the choice that holds them. */
  ghost predicate ChildrenGuarded(cs: seq<Child>) {
    forall i :: 0 <= i < |cs| ==> ChildGuarded(cs[i])
  }

  predicate ChildGuarded(c: Child) {
    var item, a := c.entry.node.item, c.entry.attrs;
    HasProperties(item) && a.prompt.Some? ==>
      Guards(a.dep, a.prompt.value) && (c.inChoice.Some? ==> Guards(Atom(Mode(c.inChoice.value)), a.prompt.value))
  }

  lemma {:induction false} UnderGuards(t: Tree, g: Expr, inChoice: Option<nat>)
    requires Under(t, g) && (inChoice.Some? ==> g == Atom(Mode(inChoice.value)))
    ensures ChildrenGuarded(Children(t, inChoice))
  {
    if t.Link? {
      var isChoice := t.node.item.ChoiceItem?;
      UnderGuards(t.kids, if isChoice then Atom(Mode(t.node.item.c)) else g, if isChoice then Some(t.node.item.c) else None);
      UnderGuards(t.rest, g, inChoice);
    }
  }

  /** In every finalized tree, whatever the files said. */
  lemma FinalizedGuarded(t: Tree)
    requires t.Link? && t.rest.End? && IfsPlain(t) && Leafy(t) && t.node.item.Menu?
    ensures ChildrenGuarded(Children(Finalized(t, Y).kids, None))
  {
    var base, inner := t.attrs.dep, InnerVisibleIf(t.node.item, t.attrs, Y);
    var kids := PushLevel(t.kids, base, inner);
    PushLevelUnder(t.kids, base, inner, Y);
    PushLevelKeeps(t.kids, base, inner);
    AllFinalizedUnder(kids, inner, Y);
    TidyUnder(AllFinalized(kids, inner), Y);
    UnderGuards(Finalized(t, Y).kids, Y, None);
  }

  /** What finalizing a whole menu leaves in the symbols and choices, given the types in the files. */
  function CollectedIn(t: Tree, symType: map<nat, SymType>, choiceType: map<nat, SymType>): Collected
    requires t.Link?
  {
    Collects(Nothing(symType, choiceType), Alone(Finalized(t, Y)))
  }

  /** The nodes and the direct dependency of symbol s are those that finalizing menu t leaves. */
  ghost predicate BuiltFrom(cfg: Config, s: nat, t: Tree, p: SymProps)
    requires t.Link?
  {
    && SymAt(cfg, s).nodes == NodesFor(Children(Finalized(t, Y).kids, None), SymItem(s))
    && SymAt(cfg, s).directDep == DepOf(p.directDep, s)
  }

  /** Symbols collect their properties from the children of the finalized menu. */
  lemma CollectedFromChildren(t: Tree, symType: map<nat, SymType>, choiceType: map<nat, SymType>)
    requires t.Link? && t.rest.End? && IfsPlain(t) && Leafy(t) && t.node.item.Menu?
    ensures CollectedIn(t, symType, choiceType).props ==
            WithNodes(NO_PROPS, EntriesOf(Children(Finalized(t, Y).kids, None)))
  {
    var f := Finalized(t, Y);
    FinalizedIfFree(t, Y);
    IfFreePreorder(f.kids);
    ChildrenArePreorder(f.kids, None);
    EntriesRest(f, End);
    WithNodesConcat(NO_PROPS, Own(f), Entries(f.kids));
    assert WithNodes(NO_PROPS, Own(f)) == NO_PROPS;
  }

  lemma {:induction false} NodesForIs(cs: seq<Child>, item: MenuItem, k: nat) returns (i: nat)
    requires k < |NodesFor(cs, item)|
    ensures i < |cs| && cs[i].entry.node.item == item
    ensures NodesFor(cs, item)[k] == Node(cs[i].entry.attrs.prompt, cs[i].entry.attrs.dep)
  {
    if cs[0].entry.node.item != item {
      i := NodesForIs(cs[1..], item, k);
      i := i + 1;
    } else if k > 0 {
      i := NodesForIs(cs[1..], item, k - 1);
      i := i + 1;
    } else {
      i := 0;
    }
  }

  lemma {:induction false} DirectDepOffers(p: SymProps, es: seq<Entry>, s: nat, i: nat)
    requires i < |es| && es[i].node.item == SymItem(s)
    ensures Offers(es[i].attrs.dep, DepOf(WithNodes(p, es).directDep, s))
    decreases |es|
  {
    var q := WithNode(p, es[0]);
    if i == 0 {
      assert Offers(es[0].attrs.dep, es[0].attrs.dep);
      OffersOr(es[0].attrs.dep, DepOf(p.directDep, s), es[0].attrs.dep);
      OffersKept(q, es[1..], s, es[0].attrs.dep);
    } else {
      DirectDepOffers(q, es[1..], s, i - 1);
    }
  }

  lemma {:induction false} OffersKept(p: SymProps, es: seq<Entry>, s: nat, d: Expr)
    requires Offers(d, DepOf(p.directDep, s))
    ensures Offers(d, DepOf(WithNodes(p, es).directDep, s))
    decreases |es|
  {
    if es != [] {
      OffersOr(d, DepOf(p.directDep, s), es[0].attrs.dep);
      OffersKept(WithNode(p, es[0]), es[1..], s, d);
    }
  }

  lemma {:induction false} EntriesOfAt(cs: seq<Child>, i: nat)
    requires i < |cs|
    ensures |EntriesOf(cs)| == |cs| && EntriesOf(cs)[i] == cs[i].entry
  {
    if i > 0 { EntriesOfAt(cs[1..], i - 1); } else if |cs| > 1 { EntriesOfAt(cs[1..], 0); }
  }

  /** A symbol built by finalization has its dependencies met whenever it is visible. */
  lemma FinalizedDepsOk(cfg: Config, s: nat, t: Tree, symType: map<nat, SymType>, choiceType: map<nat, SymType>)
    requires t.Link? && t.rest.End? && IfsPlain(t) && Leafy(t) && t.node.item.Menu?
    requires BuiltFrom(cfg, s, t, CollectedIn(t, symType, choiceType).props)
    ensures DepsOk(cfg, s)
  {
    var cs := Children(Finalized(t, Y).kids, None);
    FinalizedGuarded(t);
    CollectedFromChildren(t, symType, choiceType);
    forall k | 0 <= k < |SymAt(cfg, s).nodes| && SymAt(cfg, s).nodes[k].prompt.Some?
      ensures Guards(SymAt(cfg, s).nodes[k].dep, SymAt(cfg, s).nodes[k].prompt.value)
      ensures Offers(SymAt(cfg, s).nodes[k].dep, SymAt(cfg, s).directDep)
    {
      var i := NodesForIs(cs, SymItem(s), k);
      assert ChildGuarded(cs[i]);
      EntriesOfAt(cs, i);
      DirectDepOffers(NO_PROPS, EntriesOf(cs), s, i);
    }
  }

  /** The check on choice symbols: all their prompts are in menu nodes directly below the choice. */
  ghost predicate PromptsInChoice(cs: seq<Child>, s: nat, c: nat) {
    forall i :: 0 <= i < |cs| && cs[i].entry.node.item == SymItem(s) && cs[i].entry.attrs.prompt.Some? ==> cs[i].inChoice == Some(c)
  }

  /** The choice and type of symbol s, and the symbols and types of choices, are those that finalization gave them. */
  ghost predicate RegisteredIn(cfg: Config, s: nat, p: ChoiceProps) {
    && SymAt(cfg, s).choice == (if s in p.owner then Some(p.owner[s]) else None)
    && SymAt(cfg, s).typ == TypeIn(p.symType, s)
    && forall c :: c in p.syms ==>
         c < |cfg.choices| && cfg.choices[c].syms == p.syms[c] && cfg.choices[c].typ == TypeIn(p.choiceType, c)
  }

  /** A choice symbol built by finalization is listed by its choice and guarded by its mode. */
  lemma FinalizedChoiceSymOk(cfg: Config, s: nat, t: Tree, symType: map<nat, SymType>, choiceType: map<nat, SymType>)
    requires t.Link? && t.rest.End? && IfsPlain(t) && Leafy(t) && t.node.item.Menu?
    requires BuiltFrom(cfg, s, t, CollectedIn(t, symType, choiceType).props)
    requires RegisteredIn(cfg, s, CollectedIn(t, symType, choiceType).choices)
    requires var d := SymAt(cfg, s);
             d.choice.Some? ==>
               && Boolish(d.typ) && Boolish(ChoiceAt(cfg, d.choice.value).typ)
               && PromptsInChoice(Children(Finalized(t, Y).kids, None), s, d.choice.value)
    ensures ChoiceSymOk(cfg, s)
  {
    var d, cs := SymAt(cfg, s), Children(Finalized(t, Y).kids, None);
    FinalizedGuarded(t);
    if d.choice.Some? {
      ChoicesInFair(t, symType, choiceType);
      forall k | 0 <= k < |d.nodes| && d.nodes[k].prompt.Some?
        ensures Guards(Atom(Mode(d.choice.value)), d.nodes[k].prompt.value)
      {
        var i := NodesForIs(cs, SymItem(s), k);
        assert ChildGuarded(cs[i]);
      }
    }
  }

  lemma ChoicesInFair(t: Tree, symType: map<nat, SymType>, choiceType: map<nat, SymType>)
    requires t.Link?
    ensures ChoicesFair(CollectedIn(t, symType, choiceType).choices, symType, choiceType)
  {
    WithChoicesFair(Nothing(symType, choiceType).choices, Registrations(Alone(Finalized(t, Y))), symType, choiceType);
  }

  /** If the files give a type to a choice or to one of its symbols, finalization gives one to all its symbols. */
  lemma TypesReachAll(t: Tree, symType: map<nat, SymType>, choiceType: map<nat, SymType>, c: nat, typed: nat, s: nat)
    requires t.Link?
    requires var syms := ListOf(CollectedIn(t, symType, choiceType).choices.syms, c); typed in syms && s in syms
    requires TypeIn(symType, typed) != UNKNOWN || TypeIn(choiceType, c) != UNKNOWN
    ensures TypeIn(CollectedIn(t, symType, choiceType).choices.symType, s) != UNKNOWN
  {
    ChoicesInFair(t, symType, choiceType);
  }

  /** Finalizing a parsed menu tree and then iterating over it visits exactly the defined nodes, in the order of
      their definitions. */
  method FinalizeThenIterate(top: MenuNode, ghost t: Tree) returns (visited: seq<MenuNode>)
    requires t.Link? && t.rest.End? && Spells(top, t, null, null) && top.item.Menu?
    requires Distinct(t) && IfsPlain(t) && Leafy(t)
    modifies Nodes(t)
    ensures visited == NodesIn(Entries(t.kids))
  {
    assert allocated(Nodes(t));
    var f := new Finalizer(map[], map[]);
    f.FinalizeNode(top, Y, t, null);
    FinalizedKeeps(t, Y);
    DefinitionOrderKept(t, Y);
    YieldedAll(Preorder(Finalized(t, Y).kids), {});
    visited := NodeIter(top, false, Finalized(t, Y));
  }
}
