/** oldconfig over the menu: the places it asks at are those that walking the menu tree yields. */
module OldConfigMenu {
  import opened KconfigLang
  import opened Dependents
  import opened MenuTree
  import opened TreeWalk
  import opened FinalizedConfig
  import opened OldConfig
  import opened KconfigObject

  function PlaceOf(item: MenuItem, prompted: bool): seq<Place> {
    match item
    case SymItem(s) => [Place(S(s), prompted)]
    case ChoiceItem(c) => [Place(C(c), prompted)]
    case _ => []
  }

  function PlacesIn(es: seq<Entry>): seq<Place> {
    if es == [] then [] else PlaceOf(es[0].node.item, es[0].attrs.prompt.Some?) + PlacesIn(es[1..])
  }

  function MenuItemOf(i: Item): MenuItem {
    match i
    case S(s) => SymItem(s)
    case C(c) => ChoiceItem(c)
  }

  /** The symbols and choices in the menu are those of cfg, with their menu nodes. */
  ghost predicate MenuOf(cfg: Config, cs: seq<Child>) {
    && (forall i :: i in AllItems(cfg) ==> NodesOf(cfg, i) == NodesFor(cs, MenuItemOf(i)))
    && (forall j, i :: 0 <= j < |cs| && cs[j].entry.node.item == MenuItemOf(i) ==> i in AllItems(cfg))
  }

  lemma {:induction false} SpelledAttrs(first: MenuNode?, t: Tree, parent: MenuNode?, after: MenuNode?)
    requires Spells(first, t, parent, after)
    ensures forall e :: e in Preorder(t) ==> e.node.attrs == e.attrs
  {
    if t.Link? {
      SpelledAttrs(t.node.list, t.kids, t.node, null);
      SpelledAttrs(t.node.next, t.rest, parent, after);
    }
  }

  /** What oldconfig() looks at in each node that the walk yields. */
  method PlacesAt(nodes: seq<MenuNode>, ghost es: seq<Entry>) returns (places: seq<Place>)
    requires nodes == NodesIn(es) && forall e :: e in es ==> e.node.attrs == e.attrs
    ensures places == PlacesIn(es)
  {
    places := [];
    ghost var todo := es;
    for j := 0 to |nodes|
      invariant nodes[j..] == NodesIn(todo) && forall e :: e in todo ==> e in es
      invariant places + PlacesIn(todo) == PlacesIn(es)
    {
      assert nodes[j..][1..] == nodes[j + 1..] && todo != [] && nodes[j] == todo[0].node;
      assert todo[0] in todo;
      places := places + PlaceOf(nodes[j].item, nodes[j].attrs.prompt.Some?);
      todo := todo[1..];
    }
    assert todo == [];
  }

  lemma {:induction false} PlacesHave(es: seq<Entry>, k: nat, i: Item)
    requires k < |es| && es[k].node.item == MenuItemOf(i)
    ensures Place(i, es[k].attrs.prompt.Some?) in PlacesIn(es)
  {
    if k > 0 { PlacesHave(es[1..], k - 1, i); }
  }

  lemma {:induction false} PlacesFrom(es: seq<Entry>, p: Place) returns (k: nat)
    requires p in PlacesIn(es)
    ensures k < |es| && es[k].node.item == MenuItemOf(p.item)
  {
    if p in PlaceOf(es[0].node.item, es[0].attrs.prompt.Some?) {
      k := 0;
    } else {
      k := PlacesFrom(es[1..], p);
      k := k + 1;
    }
  }

  /** Walking the menu reaches every symbol and choice at every prompt. */
  lemma WalkCovers(cfg: Config, t: Tree)
    requires MenuOf(cfg, Children(t, None))
    ensures Covers(cfg, PlacesIn(Preorder(t)))
  {
    var cs, es := Children(t, None), Preorder(t);
    ChildrenArePreorder(t, None);
    forall j | 0 <= j < |PlacesIn(es)| ensures PlacesIn(es)[j].item in AllItems(cfg) {
      var k := PlacesFrom(es, PlacesIn(es)[j]);
      EntriesOfLength(cs);
      EntriesOfAt(cs, k);
    }
    forall i, n | i in AllItems(cfg) && 0 <= n < |NodesOf(cfg, i)| && NodesOf(cfg, i)[n].prompt.Some?
      ensures Place(i, true) in PlacesIn(es)
    {
      var k := NodesForIs(cs, MenuItemOf(i), n);
      EntriesOfAt(cs, k);
      PlacesHave(es, k, i);
    }
  }

  lemma {:induction false} EntriesOfLength(cs: seq<Child>)
    ensures |EntriesOf(cs)| == |cs|
  {
    if cs != [] { EntriesOfLength(cs[1..]); }
  }

  /** The loop of _main() over node_iter(): when it ends, there is nothing left to ask at any symbol or choice. */
  method RunOverMenu(k: Kconfig, top: MenuNode, answers: seq<string>, ghost t: Tree) returns (done: bool, rest: seq<string>)
    requires t.Link? && t.rest.End? && Spells(top, t, null, null)
    requires k.Valid() && MenuOf(k.cfg, Children(t.kids, None))
    modifies k
    ensures k.Valid()
    ensures done ==> forall i :: i in AllItems(k.cfg) ==> Settled(k.cfg, k.user, i)
    ensures done ==> exists n :: n > 0 && Passed(k.cfg, old(k.user), k.user, PlacesIn(Preorder(t.kids)), answers, rest, n)
  {
    assert allocated(Nodes(t.kids));
    var nodes := NodeIter(top, false, t);
    YieldedAll(Preorder(t.kids), {});
    SpelledAttrs(top.list, t.kids, top, null);
    var places := PlacesAt(nodes, Preorder(t.kids));
    WalkCovers(k.cfg, t.kids);
    done, rest := Run(k, places, answers);
  }
}
