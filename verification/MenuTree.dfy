/** The menu tree, and what finalization makes of it, as functions on the tree that the node links spell out. */
module MenuTree {
  import opened KconfigLang

  datatype MenuItem = If | Menu | Comment | SymItem(s: nat) | ChoiceItem(c: nat)

  datatype Select = Select(target: nat, cond: Expr)

  /** The fields of a menu node that hold conditions. */
  datatype Attrs = Attrs(
    dep: Expr, prompt: Option<Expr>, visibility: Expr,
    defaults: seq<Default>, ranges: seq<Range>, selects: seq<Select>, implies: seq<Select>)

  /** A MenuNode. Prompts are reduced to their conditions. */
  class MenuNode {
    const item: MenuItem
    var next: MenuNode?
    var list: MenuNode?
    var parent: MenuNode?
    var attrs: Attrs

    constructor (item: MenuItem, attrs: Attrs)
      ensures this.item == item && this.attrs == attrs && next == null && list == null && parent == null
    {
      this.item, this.attrs := item, attrs;
      next, list, parent := null, null, null;
    }
  }

  /** A chain of sibling nodes, each with the chain of its children. */
  datatype Tree = End | Link(node: MenuNode, attrs: Attrs, kids: Tree, rest: Tree)

  datatype Entry = Entry(node: MenuNode, attrs: Attrs)

  function Count(t: Tree): nat {
    if t.End? then 0 else 1 + Count(t.kids) + Count(t.rest)
  }

  ghost function Nodes(t: Tree): set<MenuNode> {
    if t.End? then {} else {t.node} + Nodes(t.kids) + Nodes(t.rest)
  }

  /** No node occurs twice. */
  ghost predicate Distinct(t: Tree) {
    t.Link? ==>
      && t.node !in Nodes(t.kids) && t.node !in Nodes(t.rest) && Nodes(t.kids) !! Nodes(t.rest)
      && Distinct(t.kids) && Distinct(t.rest)
  }

  /** The next, list and parent fields spell out t, from first up to (and without) after. */
  ghost predicate Spells(first: MenuNode?, t: Tree, parent: MenuNode?, after: MenuNode?)
    reads Nodes(t)
  {
    if t.End? then first == after
    else
      && first == t.node && t.node.parent == parent && t.node.attrs == t.attrs
      && Spells(t.node.list, t.kids, t.node, null)
      && Spells(t.node.next, t.rest, parent, after)
  }

  function Head(t: Tree): MenuNode? {
    if t.End? then null else t.node
  }

  /** The nodes in definition order: parents before their children, siblings in turn. */
  function Preorder(t: Tree): seq<Entry> {
    if t.End? then [] else [Entry(t.node, t.attrs)] + Preorder(t.kids) + Preorder(t.rest)
  }

  function Own(t: Tree): seq<Entry>
    requires t.Link?
  {
    if t.node.item.If? then [] else [Entry(t.node, t.attrs)]
  }

  /** The same without 'if' nodes. */
  function Entries(t: Tree): seq<Entry> {
    if t.End? then [] else Own(t) + (Entries(t.kids) + Entries(t.rest))
  }

  function Append(a: Tree, b: Tree): (r: Tree)
    ensures Count(r) == Count(a) + Count(b)
  {
    if a.End? then b else a.(rest := Append(a.rest, b))
  }

  /** The node on its own, with its children. */
  function Alone(t: Tree): Tree
    requires t.Link?
  {
    t.(rest := End)
  }

  // Expressions

  function MakeAnd(a: Expr, b: Expr): Expr {
    if a == Y then b else if b == Y then a else if a == N || b == N then N else And(a, b)
  }

  function MakeOr(a: Expr, b: Expr): Expr {
    if a == N then b else if b == N then a else if a == Y || b == Y then Y else Or(a, b)
  }

  /** Whether an expression makes an item part of the implicit submenu of symbol s. A comparison with y counts
      for both = and !=, as the grouping of 'and' and 'or' in _expr_depends_on() has it. */
  predicate MenuDependsOn(e: Expr, s: nat) {
    match e
    case Atom(x) => x == Ref(s)
    case And(l, r) => MenuDependsOn(l, s) || MenuDependsOn(r, s)
    case Rel(op, a, b) =>
      && (op == EQUAL || op == UNEQUAL)
      && (a == Ref(s) || b == Ref(s))
      && var other := if b == Ref(s) then a else b;
         (op == EQUAL && other == Nmy(1)) || other == Nmy(2) || (op == UNEQUAL && other == Nmy(0))
    case _ => false
  }

  predicate AutoMenuDep(s: nat, a: Attrs) {
    MenuDependsOn(if a.prompt.Some? then a.prompt.value else a.dep, s)
  }

  // Dependency propagation to one level of children

  function AddConds(ss: seq<Select>, dep: Expr): (r: seq<Select>)
    ensures |r| == |ss|
    ensures forall k :: 0 <= k < |ss| ==> r[k] == Select(ss[k].target, MakeAnd(ss[k].cond, dep))
  {
    seq(|ss|, k requires 0 <= k < |ss| => Select(ss[k].target, MakeAnd(ss[k].cond, dep)))
  }

  function AddDefaultConds(ds: seq<Default>, dep: Expr): (r: seq<Default>)
    ensures |r| == |ds|
    ensures forall k :: 0 <= k < |ds| ==> r[k] == Default(ds[k].value, MakeAnd(ds[k].cond, dep))
  {
    seq(|ds|, k requires 0 <= k < |ds| => Default(ds[k].value, MakeAnd(ds[k].cond, dep)))
  }

  function AddRangeConds(rs: seq<Range>, dep: Expr): (r: seq<Range>)
    ensures |r| == |rs|
    ensures forall k :: 0 <= k < |rs| ==> r[k] == Range(rs[k].low, rs[k].high, MakeAnd(rs[k].cond, dep))
  {
    seq(|rs|, k requires 0 <= k < |rs| => Range(rs[k].low, rs[k].high, MakeAnd(rs[k].cond, dep)))
  }

  function Pushed(item: MenuItem, a: Attrs, base: Expr, visibleIf: Expr): Attrs {
    var dep := MakeAnd(a.dep, base);
    if item.SymItem? || item.ChoiceItem? then
      Attrs(dep, if a.prompt.Some? then Some(MakeAnd(a.prompt.value, MakeAnd(visibleIf, dep))) else None, a.visibility,
            AddDefaultConds(a.defaults, dep), AddRangeConds(a.ranges, dep),
            AddConds(a.selects, dep), AddConds(a.implies, dep))
    else
      a.(dep := dep, prompt := if a.prompt.Some? then Some(MakeAnd(a.prompt.value, dep)) else None)
  }

  function PushLevel(t: Tree, base: Expr, visibleIf: Expr): (r: Tree)
    ensures Count(r) == Count(t) && r.End? == t.End?
    ensures Nodes(r) == Nodes(t)
    ensures Distinct(t) ==> Distinct(r)
  {
    if t.End? then End
    else Link(t.node, Pushed(t.node.item, t.attrs, base, visibleIf), t.kids, PushLevel(t.rest, base, visibleIf))
  }

  /** The dependency that a node passes on to its children: its own, or the choice itself. */
  function BaseDep(item: MenuItem, a: Attrs): Expr {
    if item.ChoiceItem? then Atom(Mode(item.c)) else a.dep
  }

  function InnerVisibleIf(item: MenuItem, a: Attrs, visibleIf: Expr): Expr {
    if item.Menu? then MakeAnd(visibleIf, a.visibility) else visibleIf
  }

  /** Dependencies propagated all the way down a tree whose top level already has them, without moving a node. */
  function PushDown(t: Tree, visibleIf: Expr): Tree
    decreases Count(t)
  {
    if t.End? then End
    else
      var inner := InnerVisibleIf(t.node.item, t.attrs, visibleIf);
      Link(t.node, t.attrs, PushDown(PushLevel(t.kids, BaseDep(t.node.item, t.attrs), inner), inner),
           PushDown(t.rest, visibleIf))
  }

  // Finalization

  /** Nodes without a prompt, except choices, have their children moved after them. */
  predicate Dissolves(t: Tree)
    requires t.Link?
  {
    t.kids.Link? && t.attrs.prompt.None? && !t.node.item.ChoiceItem?
  }

  function Dissolved(t: Tree): (r: Tree)
    requires t.Link?
    ensures r.Link? && Count(r) == Count(t)
  {
    if Dissolves(t) then Link(t.node, t.attrs, End, Append(t.kids, t.rest)) else t
  }

  function Flat(t: Tree): (r: Tree)
    ensures Count(r) == Count(t)
    decreases Count(t)
  {
    if t.End? then End
    else
      var d := Dissolved(t);
      d.(rest := Flat(d.rest))
  }

  function NoIfs(t: Tree): (r: Tree)
    ensures Count(r) <= Count(t)
  {
    if t.End? then End
    else if t.node.item.If? then NoIfs(t.rest)
    else t.(rest := NoIfs(t.rest))
  }

  function Tidy(t: Tree): (r: Tree)
    ensures Count(r) <= Count(t)
  {
    NoIfs(Flat(t))
  }

  datatype Split = Split(inner: Tree, rest: Tree)

  /** Finalizing the first node of a chain: it may take following siblings as an implicit submenu. */
  function Finalized(t: Tree, visibleIf: Expr): (r: Tree)
    requires t.Link?
    ensures r.Link? && r.node == t.node && r.attrs == t.attrs && Count(r) <= Count(t)
    decreases Count(t), 1
  {
    if t.node.item.SymItem? then
      var g := Gathered(t.node.item.s, t.rest, visibleIf);
      Link(t.node, t.attrs, Tidy(if g.inner.End? then t.kids else g.inner), g.rest)
    else
      var inner := InnerVisibleIf(t.node.item, t.attrs, visibleIf);
      var kids := PushLevel(t.kids, BaseDep(t.node.item, t.attrs), inner);
      Link(t.node, t.attrs, Tidy(AllFinalized(kids, inner)), t.rest)
  }

  /** The implicit submenu of symbol s, taken from the nodes that follow it. */
  function Gathered(s: nat, t: Tree, visibleIf: Expr): (r: Split)
    ensures Count(r.inner) + Count(r.rest) <= Count(t)
    decreases Count(t), 2
  {
    if t.Link? && AutoMenuDep(s, t.attrs) then
      var f := Finalized(t, visibleIf);
      var g := Gathered(s, f.rest, visibleIf);
      Split(f.(rest := g.inner), g.rest)
    else Split(End, t)
  }

  function AllFinalized(t: Tree, visibleIf: Expr): (r: Tree)
    ensures Count(r) <= Count(t)
    decreases Count(t), 2
  {
    if t.End? then End
    else
      var f := Finalized(t, visibleIf);
      f.(rest := AllFinalized(f.rest, visibleIf))
  }

  // Chains

  lemma {:induction false} AppendParts(a: Tree, b: Tree)
    ensures Nodes(Append(a, b)) == Nodes(a) + Nodes(b)
    ensures Distinct(Append(a, b)) <==> Distinct(a) && Distinct(b) && Nodes(a) !! Nodes(b)
  {
    if a.Link? { AppendParts(a.rest, b); }
  }

  lemma {:induction false} AppendEntries(a: Tree, b: Tree)
    ensures Entries(Append(a, b)) == Entries(a) + Entries(b)
  {
    if a.Link? {
      AppendEntries(a.rest, b);
      Regroup(Entries(a.kids), Entries(a.rest), Entries(b));
      Regroup(Own(a), Entries(a.kids) + Entries(a.rest), Entries(b));
    }
  }

  lemma {:induction false} AppendAssoc(a: Tree, b: Tree, c: Tree)
    ensures Append(Append(a, b), c) == Append(a, Append(b, c))
  {
    if a.Link? { AppendAssoc(a.rest, b, c); }
  }

  lemma {:induction false} AppendEnd(a: Tree)
    ensures Append(a, End) == a
  {
    if a.Link? { AppendEnd(a.rest); }
  }

  /** A chain of two parts is linked exactly if the parts are, the first leading to the second. */
  lemma {:induction false} SpellsAppend(first: MenuNode?, a: Tree, b: Tree, parent: MenuNode?, after: MenuNode?)
    ensures Spells(first, Append(a, b), parent, after) <==>
            var mid := if b.End? then after else b.node;
            Spells(first, a, parent, mid) && Spells(mid, b, parent, after)
    decreases a
  {
    if a.Link? { SpellsAppend(a.node.next, a.rest, b, parent, after); }
  }

  lemma SpellsJoin(first: MenuNode?, a: Tree, b: Tree, parent: MenuNode?, after: MenuNode?)
    requires var mid := if b.End? then after else b.node; Spells(first, a, parent, mid) && Spells(mid, b, parent, after)
    ensures Spells(first, Append(a, b), parent, after)
  {
    SpellsAppend(first, a, b, parent, after);
  }

  /** A chain that is processed up to todo, and then one node further. */
  lemma OneFurther(first: MenuNode?, done: Tree, todo: Tree, parent: MenuNode?)
    requires todo.Link? && Spells(first, done, parent, todo.node) && Spells(todo.node, todo, parent, null)
    requires Distinct(todo) && Nodes(done) !! Nodes(todo)
    ensures var d := Append(done, Alone(todo));
            && Spells(first, d, parent, todo.node.next) && Spells(todo.node.next, todo.rest, parent, null)
            && Distinct(todo.rest) && Nodes(d) !! Nodes(todo.rest)
            && Nodes(d) + Nodes(todo.rest) == Nodes(done) + Nodes(todo)
  {
    SpellsJoin(first, done, Alone(todo), parent, todo.node.next);
    AppendParts(done, Alone(todo));
  }

  // What finalization keeps

  /** 'if' nodes have no prompts. */
  predicate IfsPlain(t: Tree) {
    t.Link? ==> (t.node.item.If? ==> t.attrs.prompt.None?) && IfsPlain(t.kids) && IfsPlain(t.rest)
  }

  /** As parsed, only menus, choices and 'if's have children. */
  predicate Leafy(t: Tree) {
    t.Link? ==> (t.node.item.SymItem? || t.node.item.Comment? ==> t.kids.End?) && Leafy(t.kids) && Leafy(t.rest)
  }

  /** On the top level, 'if' nodes have no children. */
  predicate IfsEmpty(t: Tree) {
    t.Link? ==> (t.node.item.If? ==> t.kids.End?) && IfsEmpty(t.rest)
  }

  lemma {:induction false} IfsPlainAppend(a: Tree, b: Tree)
    ensures IfsPlain(Append(a, b)) <==> IfsPlain(a) && IfsPlain(b)
  {
    if a.Link? { IfsPlainAppend(a.rest, b); }
  }

  lemma {:induction false} PushLevelKeeps(t: Tree, base: Expr, visibleIf: Expr)
    requires IfsPlain(t) && Leafy(t)
    ensures IfsPlain(PushLevel(t, base, visibleIf)) && Leafy(PushLevel(t, base, visibleIf))
  {
    if t.Link? { PushLevelKeeps(t.rest, base, visibleIf); }
  }

  /** Flattening keeps every node, in order, and empties the 'if' nodes of the level. */
  lemma {:induction false} FlatKeeps(t: Tree)
    requires IfsPlain(t)
    ensures IfsPlain(Flat(t)) && IfsEmpty(Flat(t)) && Entries(Flat(t)) == Entries(t)
    decreases Count(t)
  {
    if t.Link? {
      AppendEntries(t.kids, t.rest);
      IfsPlainAppend(t.kids, t.rest);
      FlatKeeps(Dissolved(t).rest);
    }
  }

  lemma {:induction false} NoIfsKeeps(t: Tree)
    requires IfsPlain(t) && IfsEmpty(t)
    ensures IfsPlain(NoIfs(t)) && Entries(NoIfs(t)) == Entries(t)
  {
    if t.Link? { NoIfsKeeps(t.rest); }
  }

  lemma TidyKeeps(t: Tree)
    requires IfsPlain(t)
    ensures IfsPlain(Tidy(t)) && Entries(Tidy(t)) == Entries(t)
  {
    FlatKeeps(t);
    NoIfsKeeps(Flat(t));
  }

  /** Finalizing the first node of a chain loses and reorders nothing: the node and what is now below it come
      first, then the rest of the chain. */
  lemma {:induction false} FinalizedKeeps(t: Tree, visibleIf: Expr)
    requires t.Link? && IfsPlain(t) && Leafy(t)
    ensures var f := Finalized(t, visibleIf);
            && IfsPlain(f) && Leafy(f.rest)
            && Entries(Alone(f)) + Entries(PushDown(f.rest, visibleIf)) == Entries(PushDown(t, visibleIf))
    decreases Count(t), 1
  {
    if t.node.item.SymItem? { SymFinalizedKeeps(t, visibleIf); } else { MenuFinalizedKeeps(t, visibleIf); }
  }

  lemma {:induction false} SymFinalizedKeeps(t: Tree, visibleIf: Expr)
    requires t.Link? && IfsPlain(t) && Leafy(t) && t.node.item.SymItem?
    ensures var f := Finalized(t, visibleIf);
            && IfsPlain(f) && Leafy(f.rest)
            && Entries(Alone(f)) + Entries(PushDown(f.rest, visibleIf)) == Entries(PushDown(t, visibleIf))
    decreases Count(t), 0
  {
    var f := Finalized(t, visibleIf);
    var g := Gathered(t.node.item.s, t.rest, visibleIf);
    GatheredKeeps(t.node.item.s, t.rest, visibleIf);
    TidyKeeps(g.inner);
    assert t.kids == End && f == Link(t.node, t.attrs, Tidy(g.inner), g.rest);
    EntriesRest(f, End);
    var p := PushDown(t, visibleIf);
    assert PushDown(End, InnerVisibleIf(t.node.item, t.attrs, visibleIf)) == End;
    assert p.kids == End && p.rest == PushDown(t.rest, visibleIf);
    EntriesRest(p, p.rest);
    assert Entries(Alone(p)) == Own(t);
    Regroup(Own(t), Entries(g.inner), Entries(PushDown(f.rest, visibleIf)));
  }

  lemma {:induction false} MenuFinalizedKeeps(t: Tree, visibleIf: Expr)
    requires t.Link? && IfsPlain(t) && Leafy(t) && !t.node.item.SymItem?
    ensures var f := Finalized(t, visibleIf);
            && IfsPlain(f) && Leafy(f.rest)
            && Entries(Alone(f)) + Entries(PushDown(f.rest, visibleIf)) == Entries(PushDown(t, visibleIf))
    decreases Count(t), 0
  {
    var f := Finalized(t, visibleIf);
    var inner := InnerVisibleIf(t.node.item, t.attrs, visibleIf);
    var kids := PushLevel(t.kids, BaseDep(t.node.item, t.attrs), inner);
    PushLevelKeeps(t.kids, BaseDep(t.node.item, t.attrs), inner);
    AllFinalizedKeeps(kids, inner);
    TidyKeeps(AllFinalized(kids, inner));
    EntriesRest(f, End);
    Regroup(Own(t), Entries(PushDown(kids, inner)), Entries(PushDown(t.rest, visibleIf)));
  }

  lemma Regroup(a: seq<Entry>, b: seq<Entry>, c: seq<Entry>)
    ensures (a + b) + c == a + (b + c)
  {
  }

  lemma {:induction false} GatheredKeeps(s: nat, t: Tree, visibleIf: Expr)
    requires IfsPlain(t) && Leafy(t)
    ensures var g := Gathered(s, t, visibleIf);
            && IfsPlain(g.inner) && IfsPlain(g.rest) && Leafy(g.rest)
            && Entries(g.inner) + Entries(PushDown(g.rest, visibleIf)) == Entries(PushDown(t, visibleIf))
    decreases Count(t), 2
  {
    if t.Link? && AutoMenuDep(s, t.attrs) {
      var f := Finalized(t, visibleIf);
      FinalizedKeeps(t, visibleIf);
      GatheredKeeps(s, f.rest, visibleIf);
      var g := Gathered(s, f.rest, visibleIf);
      EntriesRest(f, g.inner);
      Regroup(Entries(Alone(f)), Entries(g.inner), Entries(PushDown(g.rest, visibleIf)));
    }
  }

  lemma {:induction false} AllFinalizedKeeps(t: Tree, visibleIf: Expr)
    requires IfsPlain(t) && Leafy(t)
    ensures IfsPlain(AllFinalized(t, visibleIf)) && Entries(AllFinalized(t, visibleIf)) == Entries(PushDown(t, visibleIf))
    decreases Count(t), 2
  {
    if t.Link? {
      var f := Finalized(t, visibleIf);
      FinalizedKeeps(t, visibleIf);
      AllFinalizedKeeps(f.rest, visibleIf);
      EntriesRest(f, AllFinalized(f.rest, visibleIf));
    }
  }

  lemma EntriesRest(f: Tree, rest: Tree)
    requires f.Link?
    ensures Entries(f.(rest := rest)) == Entries(Alone(f)) + Entries(rest)
    ensures Entries(Alone(f)) == Own(f) + Entries(f.kids)
  {
    Regroup(Own(f), Entries(f.kids), Entries(rest));
  }

  // No node is duplicated

  /** r has nodes of t only, and none of them twice if t has none twice. */
  ghost predicate Within(r: Tree, t: Tree) {
    Nodes(r) <= Nodes(t) && (Distinct(t) ==> Distinct(r))
  }

  lemma DissolvedWithin(t: Tree)
    requires t.Link?
    ensures Nodes(Dissolved(t)) == Nodes(t) && Within(Dissolved(t), t)
  {
    AppendParts(t.kids, t.rest);
  }

  lemma {:induction false} FlatWithin(t: Tree)
    ensures Within(Flat(t), t)
    decreases Count(t)
  {
    if t.Link? {
      DissolvedWithin(t);
      FlatWithin(Dissolved(t).rest);
    }
  }

  lemma FlatStep(done: Tree, t: Tree)
    requires t.Link?
    ensures var d := Dissolved(t); Append(done, Flat(t)) == Append(Append(done, Alone(d)), Flat(d.rest))
  {
    AppendAssoc(done, Alone(Dissolved(t)), Flat(Dissolved(t).rest));
  }

  lemma {:induction false} NoIfsWithin(t: Tree)
    ensures Within(NoIfs(t), t)
  {
    if t.Link? { NoIfsWithin(t.rest); }
  }

  lemma TidyWithin(t: Tree)
    ensures Within(Tidy(t), t)
  {
    FlatWithin(t);
    NoIfsWithin(Flat(t));
  }

  lemma {:induction false} FinalizedWithin(t: Tree, visibleIf: Expr)
    requires t.Link?
    ensures Within(Finalized(t, visibleIf), t)
    decreases Count(t), 1
  {
    if t.node.item.SymItem? {
      var g := Gathered(t.node.item.s, t.rest, visibleIf);
      GatheredWithin(t.node.item.s, t.rest, visibleIf);
      TidyWithin(if g.inner.End? then t.kids else g.inner);
    } else {
      var inner := InnerVisibleIf(t.node.item, t.attrs, visibleIf);
      var kids := PushLevel(t.kids, BaseDep(t.node.item, t.attrs), inner);
      AllFinalizedWithin(kids, inner);
      TidyWithin(AllFinalized(kids, inner));
    }
  }

  lemma {:induction false} GatheredWithin(s: nat, t: Tree, visibleIf: Expr)
    ensures var g := Gathered(s, t, visibleIf);
            && Within(g.inner, t) && Within(g.rest, t)
            && (Distinct(t) ==> Nodes(g.inner) !! Nodes(g.rest))
    decreases Count(t), 2
  {
    if t.Link? && AutoMenuDep(s, t.attrs) {
      var f := Finalized(t, visibleIf);
      FinalizedWithin(t, visibleIf);
      GatheredWithin(s, f.rest, visibleIf);
    }
  }

  lemma {:induction false} AllFinalizedWithin(t: Tree, visibleIf: Expr)
    ensures Within(AllFinalized(t, visibleIf), t)
    decreases Count(t), 2
  {
    if t.Link? {
      var f := Finalized(t, visibleIf);
      FinalizedWithin(t, visibleIf);
      AllFinalizedWithin(f.rest, visibleIf);
    }
  }
}
