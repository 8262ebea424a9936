/** Walking the finalized menu tree without a stack. */
module TreeWalk {
  import opened MenuTree
  import opened KconfigLang

  // The finalized tree has no 'if' nodes left

  predicate IfFree(t: Tree) {
    t.Link? ==> !t.node.item.If? && IfFree(t.kids) && IfFree(t.rest)
  }

  predicate KidsIfFree(t: Tree) {
    t.Link? ==> IfFree(t.kids) && KidsIfFree(t.rest)
  }

  lemma {:induction false} IfFreeKids(t: Tree)
    requires IfFree(t)
    ensures KidsIfFree(t)
  {
    if t.Link? { IfFreeKids(t.rest); }
  }

  lemma {:induction false} KidsIfFreeAppend(a: Tree, b: Tree)
    requires KidsIfFree(a) && KidsIfFree(b)
    ensures KidsIfFree(Append(a, b))
  {
    if a.Link? { KidsIfFreeAppend(a.rest, b); }
  }

  lemma {:induction false} FlatIfFree(t: Tree)
    requires KidsIfFree(t)
    ensures KidsIfFree(Flat(t))
    decreases Count(t)
  {
    if t.Link? {
      IfFreeKids(t.kids);
      KidsIfFreeAppend(t.kids, t.rest);
      FlatIfFree(Dissolved(t).rest);
    }
  }

  lemma {:induction false} NoIfsIfFree(t: Tree)
    requires KidsIfFree(t)
    ensures IfFree(NoIfs(t))
  {
    if t.Link? { NoIfsIfFree(t.rest); }
  }

  lemma TidyIfFree(t: Tree)
    requires KidsIfFree(t)
    ensures IfFree(Tidy(t))
  {
    FlatIfFree(t);
    NoIfsIfFree(Flat(t));
  }

  /** No 'if' node is left below a finalized node. */
  lemma {:induction false} FinalizedIfFree(t: Tree, visibleIf: Expr)
    requires t.Link? && Leafy(t) && IfsPlain(t)
    ensures IfFree(Finalized(t, visibleIf).kids)
    decreases Count(t), 1
  {
    if t.node.item.SymItem? {
      GatheredIfFree(t.node.item.s, t.rest, visibleIf);
      TidyIfFree(Gathered(t.node.item.s, t.rest, visibleIf).inner);
    } else {
      var inner := InnerVisibleIf(t.node.item, t.attrs, visibleIf);
      var kids := PushLevel(t.kids, BaseDep(t.node.item, t.attrs), inner);
      PushLevelKeeps(t.kids, BaseDep(t.node.item, t.attrs), inner);
      AllFinalizedIfFree(kids, inner);
      TidyIfFree(AllFinalized(kids, inner));
    }
  }

  lemma {:induction false} GatheredIfFree(s: nat, t: Tree, visibleIf: Expr)
    requires Leafy(t) && IfsPlain(t)
    ensures KidsIfFree(Gathered(s, t, visibleIf).inner)
    decreases Count(t), 2
  {
    if t.Link? && AutoMenuDep(s, t.attrs) {
      FinalizedIfFree(t, visibleIf);
      FinalizedKeeps(t, visibleIf);
      GatheredIfFree(s, Finalized(t, visibleIf).rest, visibleIf);
    }
  }

  lemma {:induction false} AllFinalizedIfFree(t: Tree, visibleIf: Expr)
    requires Leafy(t) && IfsPlain(t)
    ensures KidsIfFree(AllFinalized(t, visibleIf))
    decreases Count(t), 2
  {
    if t.Link? {
      FinalizedIfFree(t, visibleIf);
      FinalizedKeeps(t, visibleIf);
      AllFinalizedIfFree(Finalized(t, visibleIf).rest, visibleIf);
    }
  }

  // Definition order

  function NodesIn(es: seq<Entry>): seq<MenuNode> {
    if es == [] then [] else [es[0].node] + NodesIn(es[1..])
  }

  lemma {:induction false} NodesInConcat(a: seq<Entry>, b: seq<Entry>)
    ensures NodesIn(a + b) == NodesIn(a) + NodesIn(b)
  {
    if a == [] {
      assert a + b == b;
    } else {
      assert (a + b)[1..] == a[1..] + b;
      NodesInConcat(a[1..], b);
    }
  }

  lemma {:induction false} IfFreePreorder(t: Tree)
    requires IfFree(t)
    ensures Preorder(t) == Entries(t)
  {
    if t.Link? {
      IfFreePreorder(t.kids);
      IfFreePreorder(t.rest);
      Regroup(Own(t), Entries(t.kids), Entries(t.rest));
    }
  }

  lemma EntriesParts(t: Tree)
    requires t.Link?
    ensures NodesIn(Entries(t)) == NodesIn(Own(t)) + (NodesIn(Entries(t.kids)) + NodesIn(Entries(t.rest)))
  {
    NodesInConcat(Own(t), Entries(t.kids) + Entries(t.rest));
    NodesInConcat(Entries(t.kids), Entries(t.rest));
  }

  lemma {:induction false} PushLevelNodes(t: Tree, base: Expr, visibleIf: Expr)
    ensures NodesIn(Entries(PushLevel(t, base, visibleIf))) == NodesIn(Entries(t))
  {
    if t.Link? {
      EntriesParts(t);
      EntriesParts(PushLevel(t, base, visibleIf));
      PushLevelNodes(t.rest, base, visibleIf);
    }
  }

  lemma {:induction false} PushDownNodes(t: Tree, visibleIf: Expr)
    ensures NodesIn(Entries(PushDown(t, visibleIf))) == NodesIn(Entries(t))
    decreases Count(t)
  {
    if t.Link? {
      var inner := InnerVisibleIf(t.node.item, t.attrs, visibleIf);
      var kids := PushLevel(t.kids, BaseDep(t.node.item, t.attrs), inner);
      EntriesParts(t);
      EntriesParts(PushDown(t, visibleIf));
      PushDownNodes(kids, inner);
      PushLevelNodes(t.kids, BaseDep(t.node.item, t.attrs), inner);
      PushDownNodes(t.rest, visibleIf);
    }
  }

  /** Below a finalized node, the nodes come in the order in which the files defined them, without the 'if' nodes:
      implicit submenus, flattening and removal lose, duplicate and reorder nothing. */
  lemma DefinitionOrderKept(t: Tree, visibleIf: Expr)
    requires t.Link? && t.rest.End? && Leafy(t) && IfsPlain(t) && !t.node.item.SymItem?
    ensures NodesIn(Preorder(Finalized(t, visibleIf).kids)) == NodesIn(Entries(t.kids))
  {
    var f, p := Finalized(t, visibleIf), PushDown(t, visibleIf);
    FinalizedKeeps(t, visibleIf);
    FinalizedIfFree(t, visibleIf);
    IfFreePreorder(f.kids);
    EntriesRest(f, End);
    EntriesRest(p, End);
    assert f.rest == p.rest == PushDown(End, visibleIf) == End;
    assert Alone(f) == f && Alone(p) == p;
    assert Own(f) + Entries(f.kids) == Own(p) + Entries(p.kids);
    assert Entries(f.kids) == (Own(f) + Entries(f.kids))[|Own(f)|..];
    assert Entries(p.kids) == (Own(p) + Entries(p.kids))[|Own(p)|..];
    var inner := InnerVisibleIf(t.node.item, t.attrs, visibleIf);
    PushDownNodes(PushLevel(t.kids, BaseDep(t.node.item, t.attrs), inner), inner);
    PushLevelNodes(t.kids, BaseDep(t.node.item, t.attrs), inner);
  }

  // node_iter()

  /** The nodes above a node, each with the chain of nodes that follow it. */
  datatype Up = Root | Above(node: MenuNode, attrs: Attrs, rest: Tree, up: Up)

  ghost function UpNodes(up: Up): set<MenuNode> {
    if up.Root? then {} else {up.node} + Nodes(up.rest) + UpNodes(up.up)
  }

  ghost predicate Climbs(parent: MenuNode?, up: Up)
    reads UpNodes(up)
  {
    if up.Root? then parent == null
    else parent == up.node && up.node.attrs == up.attrs && Spells(up.node.next, up.rest, up.node.parent, null) && Climbs(up.node.parent, up.up)
  }

  function Later(up: Up): seq<Entry> {
    if up.Root? then [] else Preorder(up.rest) + Later(up.up)
  }

  /** What node_iter() yields for a list of nodes: all of them, or only the first node of each symbol. */
  function Yielded(es: seq<Entry>, unique: bool, seen: set<nat>): seq<MenuNode>
    decreases |es|
  {
    if es == [] then []
    else
      var n := es[0].node;
      if unique && n.item.SymItem? then
        if n.item.s in seen then Yielded(es[1..], unique, seen)
        else [n] + Yielded(es[1..], unique, seen + {n.item.s})
      else [n] + Yielded(es[1..], unique, seen)
  }

  lemma {:induction false} YieldedAll(es: seq<Entry>, seen: set<nat>)
    ensures Yielded(es, false, seen) == NodesIn(es)
  {
    if es != [] { YieldedAll(es[1..], seen); }
  }

  /** Node n is entry i, and the first of its symbol, if it is a symbol's. */
  ghost predicate FirstOf(es: seq<Entry>, seen: set<nat>, n: MenuNode, i: nat) {
    && i < |es| && es[i].node == n
    && (n.item.SymItem? ==> n.item.s !in seen && forall j :: 0 <= j < i ==> es[j].node.item != n.item)
  }

  lemma FirstOfTail(es: seq<Entry>, seen: set<nat>, n: MenuNode, i: nat)
    requires es != [] && 0 < i
    ensures var m := es[0].node.item;
            FirstOf(es, seen, n, i) <==>
            FirstOf(es[1..], if m.SymItem? then seen + {m.s} else seen, n, i - 1) && (m.SymItem? && m == n.item ==> m.s !in seen)
  {
    var m := es[0].node.item;
    var seen' := if m.SymItem? then seen + {m.s} else seen;
    assert forall j :: 0 < j < |es| ==> es[1..][j - 1] == es[j];
    if FirstOf(es[1..], seen', n, i - 1) && n.item.SymItem? {
      assert m != n.item;
      forall j | 0 <= j < i ensures es[j].node.item != n.item { if j > 0 { assert es[1..][j - 1] == es[j]; } }
    }
  }

  /** With unique_syms, a node is yielded exactly if it is not a symbol's, or none before it is the same symbol's. */
  lemma {:induction false} YieldedUnique(es: seq<Entry>, seen: set<nat>, n: MenuNode)
    ensures n in Yielded(es, true, seen) <==> exists i :: FirstOf(es, seen, n, i)
    decreases |es|
  {
    if es != [] {
      var m := es[0].node.item;
      var seen' := if m.SymItem? then seen + {m.s} else seen;
      YieldedUnique(es[1..], seen', n);
      assert seen' == seen || m.s !in seen;
      if i: nat :| FirstOf(es[1..], seen', n, i) { FirstOfTail(es, seen, n, i + 1); }
      if i: nat :| FirstOf(es, seen, n, i) { if i > 0 { FirstOfTail(es, seen, n, i); } }
      assert FirstOf(es, seen, n, 0) <==> es[0].node == n && (m.SymItem? ==> m.s !in seen);
    }
  }

  /** From a node without children and successors, climbs to the next node, if there is one. */
  method ClimbToNext(from: MenuNode, ghost above: Up) returns (node: MenuNode?, ghost t: Tree, ghost up: Up)
    requires Climbs(from.parent, above)
    ensures node == null ==> Later(above) == []
    ensures node != null ==>
              t.Link? && Spells(node, t, node.parent, null) && Climbs(node.parent, up) && Later(above) == Preorder(t) + Later(up)
  {
    node, t, up := from, End, above;
    while node.parent != null
      invariant node != null && Climbs(node.parent, up) && Later(up) == Later(above)
      decreases up
    {
      node := node.parent;
      t, up := up.rest, up.up;
      if node.next != null {
        node := node.next;
        return;
      }
    }
    node := null;
  }

  /** The nodes that come after a node in definition order. */
  function Pending(t: Tree, up: Up): seq<Entry>
    requires t.Link?
  {
    Preorder(t.kids) + (Preorder(t.rest) + Later(up))
  }

  lemma PendingSplit(t: Tree, up: Up)
    requires t.Link?
    ensures Preorder(t) + Later(up) == [Entry(t.node, t.attrs)] + Pending(t, up)
  {
  }

  /** Steps to the next node in definition order. */
  method Next(from: MenuNode, ghost cur: Tree, ghost above: Up) returns (node: MenuNode?, ghost t: Tree, ghost up: Up)
    requires cur.Link? && Spells(from, cur, from.parent, null) && Climbs(from.parent, above)
    ensures node == null ==> Pending(cur, above) == []
    ensures node != null ==>
              && t.Link? && Spells(node, t, node.parent, null) && Climbs(node.parent, up)
              && Pending(cur, above) == [Entry(t.node, t.attrs)] + Pending(t, up)
  {
    if from.list != null {
      node, t, up := from.list, cur.kids, Above(from, cur.attrs, cur.rest, above);
      PendingSplit(t, up);
    } else if from.next != null {
      node, t, up := from.next, cur.rest, above;
      PendingSplit(t, up);
    } else {
      node, t, up := ClimbToNext(from, above);
      if node != null {
        PendingSplit(t, up);
      }
    }
  }

  /** node_iter(): every node below the top node, in definition order, by its list, next and parent links alone. */
  method NodeIter(top: MenuNode, unique: bool, ghost t: Tree) returns (visited: seq<MenuNode>)
    requires t.Link? && t.rest.End? && Spells(top, t, null, null)
    ensures visited == Yielded(Preorder(t.kids), unique, {})
  {
    visited := [];
    var seen: set<nat> := {};
    var node: MenuNode? := top;
    ghost var cur, up, todo := t, Root, Pending(t, Root);
    ghost var all := Yielded(todo, unique, {});
    assert todo == Preorder(t.kids);
    while true
      invariant node != null && cur.Link? && Spells(node, cur, node.parent, null) && Climbs(node.parent, up)
      invariant todo == Pending(cur, up)
      invariant visited + Yielded(todo, unique, seen) == all
      decreases |todo|
    {
      node, cur, up := Next(node, cur, up);
      if node == null {
        return;
      }
      ghost var rest := Pending(cur, up);
      YieldedStep(visited, Entry(cur.node, cur.attrs), rest, unique, seen);
      todo := rest;
      if unique && node.item.SymItem? {
        if node.item.s in seen {
          continue;
        }
        seen := seen + {node.item.s};
      }
      visited := visited + [node];
    }
  }

  lemma YieldedStep(visited: seq<MenuNode>, e: Entry, rest: seq<Entry>, unique: bool, seen: set<nat>)
    ensures visited + Yielded([e] + rest, unique, seen) ==
            if !unique || !e.node.item.SymItem? then (visited + [e.node]) + Yielded(rest, unique, seen)
            else if e.node.item.s in seen then visited + Yielded(rest, unique, seen)
            else (visited + [e.node]) + Yielded(rest, unique, seen + {e.node.item.s})
  {
    assert ([e] + rest)[1..] == rest;
  }
}
