/** Writing a configuration by walking the menu tree, headings and ends of menus included. */
module MenuWalk {
  import opened KconfigLang
  import opened MenuTree
  import opened TreeWalk
  import opened Loading
  import opened Reproduction
  import opened SaveLoad
  import KconfigObject
  import DotConfig

  /** Prompt texts. */
  type Titles = MenuNode -> string

  /** What reaching a node calls for: a symbol's line, or the heading of a menu or comment. */
  function Entering(n: MenuNode, a: Attrs, titles: Titles): seq<Stop> {
    match n.item
    case SymItem(s) => [SymStop(s)]
    case Menu => [Heading(titles(n), a.dep, a.visibility)]
    case Comment => [Heading(titles(n), a.dep, Y)]
    case _ => []
  }

  function Leaving(n: MenuNode, a: Attrs, titles: Titles): seq<Stop> {
    if n.item.Menu? then [EndOf(titles(n), a.dep, a.visibility)] else []
  }

  /** Menus without children have no end. */
  function LeavingIf(t: Tree, titles: Titles): seq<Stop>
    requires t.Link?
  {
    if t.kids.Link? then Leaving(t.node, t.attrs, titles) else []
  }

  /** The walk over a chain of nodes and everything below it. */
  function Stops(t: Tree, titles: Titles): seq<Stop> {
    if t.End? then []
    else Entering(t.node, t.attrs, titles) + (Stops(t.kids, titles) + (LeavingIf(t, titles) + Stops(t.rest, titles)))
  }

  /** What is left of the walk once everything below the nodes in up has been visited. The top node has no end. */
  function Remaining(up: Up, titles: Titles): seq<Stop> {
    if up.Root? || up.up.Root? then []
    else Leaving(up.node, up.attrs, titles) + (Stops(up.rest, titles) + Remaining(up.up, titles))
  }

  /** What is left of the walk once a node has been entered. */
  function Inside(t: Tree, up: Up, titles: Titles): seq<Stop>
    requires t.Link?
  {
    if up.Root? then Stops(t.kids, titles)
    else Stops(t.kids, titles) + (LeavingIf(t, titles) + (Stops(t.rest, titles) + Remaining(up, titles)))
  }

  /** The top node has no siblings. */
  predicate TopAlone(up: Up) {
    up.Above? ==> (up.up.Root? ==> up.rest.End?) && TopAlone(up.up)
  }

  lemma InsideSplit(t: Tree, up: Up, titles: Titles)
    requires t.Link? && !up.Root?
    ensures Stops(t, titles) + Remaining(up, titles) == Entering(t.node, t.attrs, titles) + Inside(t, up, titles)
  {
    Push(Entering(t.node, t.attrs, titles), Stops(t.kids, titles), LeavingIf(t, titles), Stops(t.rest, titles),
         Remaining(up, titles));
  }

  lemma Push(a: seq<Stop>, b: seq<Stop>, c: seq<Stop>, d: seq<Stop>, e: seq<Stop>)
    ensures (a + (b + (c + d))) + e == a + (b + (c + (d + e)))
  {
  }

  /** The end of a menu that is left upwards, unless it is the top node. */
  function Ending(up: Up, titles: Titles): seq<Stop>
    requires !up.Root?
  {
    if up.up.Root? then [] else Leaving(up.node, up.attrs, titles)
  }

  lemma ClimbStep(ends: seq<Stop>, up: Up, titles: Titles)
    requires !up.Root? && TopAlone(up)
    ensures var r := Remaining(up.up, titles);
            ends + Remaining(up, titles) ==
            if up.rest.End? then (ends + Ending(up, titles)) + r
            else (ends + Ending(up, titles)) + (Stops(up.rest, titles) + r)
    ensures up.rest.End? ==> Later(up) == Later(up.up)
  {
    var l, r := Ending(up, titles), Remaining(up.up, titles);
    Append3(ends, l, Stops(up.rest, titles) + r);
    if up.rest.End? { assert [] + r == r; }
  }

  lemma Append3(a: seq<Stop>, b: seq<Stop>, c: seq<Stop>)
    ensures a + (b + c) == (a + b) + c && [] + c == c
  {
  }

  /** The comment at the end of a menu. Only the top node has no parent. */
  function EndHere(node: MenuNode, titles: Titles): seq<Stop>
    reads node
  {
    if node.item.Menu? && node.parent != null then [EndOf(titles(node), node.attrs.dep, node.attrs.visibility)] else []
  }

  lemma EndIs(node: MenuNode, titles: Titles, up: Up)
    requires !up.Root? && Climbs(node, up)
    ensures EndHere(node, titles) == Ending(up, titles)
  {
  }

  /** The end of the walk below a node without children and successors: climbs, ending each menu on the way. */
  method ClimbAndEnd(from: MenuNode, titles: Titles, ghost above: Up)
    returns (ends: seq<Stop>, node: MenuNode?, ghost t: Tree, ghost up: Up)
    requires Climbs(from.parent, above) && TopAlone(above)
    ensures node == null ==> Remaining(above, titles) == ends
    ensures node != null ==>
              && t.Link? && Spells(node, t, node.parent, null) && Climbs(node.parent, up) && !up.Root? && TopAlone(up)
              && Remaining(above, titles) == ends + (Stops(t, titles) + Remaining(up, titles))
              && Later(above) == Preorder(t) + Later(up)
  {
    ends, node, t, up := [], from, End, above;
    while node.parent != null
      invariant node != null && Climbs(node.parent, up) && TopAlone(up)
      invariant Remaining(above, titles) == ends + Remaining(up, titles) && Later(above) == Later(up)
      decreases up
    {
      node := node.parent;
      EndIs(node, titles, up);
      ClimbStep(ends, up, titles);
      ends := ends + EndHere(node, titles);
      t, up := up.rest, up.up;
      if node.next != null {
        node := node.next;
        return;
      }
      assert t.End?;
    }
    node := null;
  }

  lemma StepDown(t: Tree, up: Up, titles: Titles)
    requires t.Link? && t.kids.Link?
    ensures var up' := Above(t.node, t.attrs, t.rest, up);
            Inside(t, up, titles) == [] + (Entering(t.kids.node, t.kids.attrs, titles) + Inside(t.kids, up', titles))
  {
    var up' := Above(t.node, t.attrs, t.rest, up);
    if up.Root? { assert Stops(t.kids, titles) + [] == Stops(t.kids, titles); }
    assert Inside(t, up, titles) == Stops(t.kids, titles) + Remaining(up', titles);
    InsideSplit(t.kids, up', titles);
    Append3([], [], Inside(t, up, titles));
  }

  lemma InsideLeaf(t: Tree, up: Up, titles: Titles)
    requires t.Link? && t.kids.End? && (up.Root? ==> t.rest.End?)
    ensures Inside(t, up, titles) == if t.rest.End? then Remaining(up, titles) else Stops(t.rest, titles) + Remaining(up, titles)
  {
    Append3([], [], Stops(t.rest, titles) + Remaining(up, titles));
    Append3([], [], Remaining(up, titles));
  }

  lemma StepOn(t: Tree, up: Up, titles: Titles)
    requires t.Link? && t.kids.End? && t.rest.Link? && !up.Root?
    ensures Inside(t, up, titles) == [] + (Entering(t.rest.node, t.rest.attrs, titles) + Inside(t.rest, up, titles))
  {
    InsideLeaf(t, up, titles);
    InsideSplit(t.rest, up, titles);
    Append3([], [], Inside(t, up, titles));
  }

  /** Steps to the next node, collecting the ends of the menus that are left on the way. */
  method NextStop(from: MenuNode, titles: Titles, ghost cur: Tree, ghost above: Up)
    returns (ends: seq<Stop>, node: MenuNode?, ghost t: Tree, ghost up: Up)
    requires cur.Link? && Spells(from, cur, from.parent, null) && Climbs(from.parent, above)
    requires TopAlone(above) && (above.Root? ==> cur.rest.End?)
    ensures node == null ==> Inside(cur, above, titles) == ends
    ensures node != null ==>
              && t.Link? && Spells(node, t, node.parent, null) && Climbs(node.parent, up) && !up.Root? && TopAlone(up)
              && Inside(cur, above, titles) == ends + (Entering(t.node, t.attrs, titles) + Inside(t, up, titles))
              && |Pending(t, up)| < |Pending(cur, above)|
  {
    if from.list != null {
      ends, node, t, up := [], from.list, cur.kids, Above(cur.node, cur.attrs, cur.rest, above);
      StepDown(cur, above, titles);
    } else if from.next != null {
      ends, node, t, up := [], from.next, cur.rest, above;
      StepOn(cur, above, titles);
    } else {
      InsideLeaf(cur, above, titles);
      ends, node, t, up := ClimbAndEnd(from, titles, above);
      if node != null {
        InsideSplit(t, up, titles);
      }
    }
  }

  lemma Regroup(a: seq<Stop>, b: seq<Stop>, c: seq<Stop>, d: seq<Stop>)
    ensures a + (b + (c + d)) == (a + b + c) + d
  {
  }

  /** The walk of _config_contents() over the whole menu, by the links of its nodes. The top node itself gets no
      heading and no end. */
  method MenuStops(top: MenuNode, titles: Titles, ghost t: Tree) returns (walk: seq<Stop>)
    requires t.Link? && t.rest.End? && Spells(top, t, null, null)
    ensures walk == Stops(t.kids, titles)
  {
    walk := [];
    var node: MenuNode? := top;
    ghost var cur, up := t, Root;
    while true
      invariant node != null && cur.Link? && Spells(node, cur, node.parent, null) && Climbs(node.parent, up)
      invariant TopAlone(up) && (up.Root? ==> cur.rest.End?)
      invariant walk + Inside(cur, up, titles) == Stops(t.kids, titles)
      decreases |Pending(cur, up)|
    {
      var ends;
      ends, node, cur, up := NextStop(node, titles, cur, up);
      if node == null {
        walk := walk + ends;
        return;
      }
      Regroup(walk, ends, Entering(cur.node, cur.attrs, titles), Inside(cur, up, titles));
      walk := walk + ends + Entering(node, node.attrs, titles);
    }
  }

  /** Writing the configuration along the menu, and reading it back into the same object, leaves every value as it
      was, exactly if every symbol survives on its own. */
  method SaveMenuAndReload(k: KconfigObject.Kconfig, header: seq<string>, top: MenuNode, titles: Titles, ghost t: Tree)
    requires t.Link? && t.rest.End? && Spells(top, t, null, null)
    requires k.Valid() && NamesOk(k.cfg) && TextsOk(k.cfg, k.user)
    requires HeaderOk(k.cfg, header) && WalkOk(k.cfg, Stops(t.kids, titles))
    requires forall s :: 0 <= s < |k.cfg.syms| ==> InMenu(Preorder(t.kids), s)
    modifies k
    ensures k.Valid()
    ensures SameValues(k.cfg, old(k.user), k.user) <==> SurvivesSaving(k.cfg, old(k.user), old(k.user), Written(k.cfg, old(k.user)))
    ensures PlainConfig(k.cfg) && ModesKept(k.cfg, old(k.user)) ==> SameValues(k.cfg, old(k.user), k.user)
  {
    var walk := MenuStops(top, titles, t);
    forall s | 0 <= s < |k.cfg.syms| ensures SymStop(s) in walk {
      assert InMenu(Preorder(t.kids), s);
      var i :| 0 <= i < |Preorder(t.kids)| && IsSym(Preorder(t.kids)[i], s);
      StopsHaveSyms(t.kids, titles, i, s);
    }
    DotConfig.SaveAndReload(k, header, walk);
  }

  predicate IsSym(e: Entry, s: nat) {
    e.node.item == SymItem(s)
  }

  ghost predicate InMenu(es: seq<Entry>, s: nat) {
    exists i :: 0 <= i < |es| && IsSym(es[i], s)
  }

  /** Every symbol in the menu is reached by the walk. */
  lemma {:induction false} StopsHaveSyms(t: Tree, titles: Titles, i: nat, s: nat)
    requires i < |Preorder(t)| && IsSym(Preorder(t)[i], s)
    ensures SymStop(s) in Stops(t, titles)
  {
    if i == 0 {
      assert Entering(t.node, t.attrs, titles) == [SymStop(s)];
    } else if i < 1 + |Preorder(t.kids)| {
      StopsHaveSyms(t.kids, titles, i - 1, s);
    } else {
      StopsHaveSyms(t.rest, titles, i - 1 - |Preorder(t.kids)|, s);
    }
  }
}
