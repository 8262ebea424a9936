/** The passes that finalize the menu tree by relinking its nodes in place. */
module Finalization {
  import opened KconfigLang
  import opened MenuTree

  // Properties that symbols collect from their menu nodes

  /** The dependencies, defaults, ranges, selects and implies that each symbol has collected so far. */
  datatype SymProps = SymProps(
    directDep: map<nat, Expr>, revDep: map<nat, Expr>, weakRevDep: map<nat, Expr>,
    defaults: map<nat, seq<Default>>, ranges: map<nat, seq<Range>>,
    selects: map<nat, seq<Select>>, implies: map<nat, seq<Select>>)

  const NO_PROPS: SymProps := SymProps(map[], map[], map[], map[], map[], map[], map[])

  function DepOf(m: map<nat, Expr>, s: nat): Expr {
    if s in m then m[s] else N
  }

  function ListOf<T>(m: map<nat, seq<T>>, s: nat): seq<T> {
    if s in m then m[s] else []
  }

  /** The reverse dependencies after symbol s has selected (or implied) targets. */
  function WithSelects(m: map<nat, Expr>, s: nat, ss: seq<Select>): map<nat, Expr>
    decreases |ss|
  {
    if ss == [] then m
    else WithSelects(m[ss[0].target := MakeOr(DepOf(m, ss[0].target), MakeAnd(Atom(Ref(s)), ss[0].cond))], s, ss[1..])
  }

  function WithNode(p: SymProps, e: Entry): SymProps {
    match e.node.item
    case SymItem(s) =>
      SymProps(p.directDep[s := MakeOr(DepOf(p.directDep, s), e.attrs.dep)],
               WithSelects(p.revDep, s, e.attrs.selects), WithSelects(p.weakRevDep, s, e.attrs.implies),
               p.defaults[s := ListOf(p.defaults, s) + e.attrs.defaults],
               p.ranges[s := ListOf(p.ranges, s) + e.attrs.ranges],
               p.selects[s := ListOf(p.selects, s) + e.attrs.selects],
               p.implies[s := ListOf(p.implies, s) + e.attrs.implies])
    case _ => p
  }

  function WithNodes(p: SymProps, es: seq<Entry>): SymProps
    decreases |es|
  {
    if es == [] then p else WithNodes(WithNode(p, es[0]), es[1..])
  }

  lemma {:induction false} WithNodesConcat(p: SymProps, a: seq<Entry>, b: seq<Entry>)
    ensures WithNodes(p, a + b) == WithNodes(WithNodes(p, a), b)
    decreases |a|
  {
    if a == [] {
      assert a + b == b;
    } else {
      assert (a + b)[0] == a[0] && (a + b)[1..] == a[1..] + b;
      WithNodesConcat(WithNode(p, a[0]), a[1..], b);
    }
  }

  // What choices collect from their menu nodes

  /** A finalized menu node of choice c: its conditions, and the symbols directly below it. */
  datatype Registered = Registered(c: nat, attrs: Attrs, syms: seq<nat>)

  function ListedSyms(t: Tree): seq<nat> {
    if t.End? then [] else (if t.node.item.SymItem? then [t.node.item.s] else []) + ListedSyms(t.rest)
  }

  function OwnChoice(t: Tree): seq<Registered>
    requires t.Link?
  {
    if t.node.item.ChoiceItem? then [Registered(t.node.item.c, t.attrs, ListedSyms(t.kids))] else []
  }

  /** The choice nodes of a finalized tree, inner ones first. */
  function Registrations(t: Tree): seq<Registered> {
    if t.End? then [] else Registrations(t.kids) + (OwnChoice(t) + Registrations(t.rest))
  }

  /** What each choice has collected so far, the choice of each symbol, and the types of both. */
  datatype ChoiceProps = ChoiceProps(
    directDep: map<nat, Expr>, defaults: map<nat, seq<Default>>, syms: map<nat, seq<nat>>, owner: map<nat, nat>,
    symType: map<nat, SymType>, choiceType: map<nat, SymType>)

  function TypeIn(m: map<nat, SymType>, s: nat): SymType {
    if s in m then m[s] else UNKNOWN
  }

  function WithOwner(m: map<nat, nat>, syms: seq<nat>, c: nat): map<nat, nat>
    decreases |syms|
  {
    if syms == [] then m else WithOwner(m[syms[0] := c], syms[1..], c)
  }

  function FirstType(m: map<nat, SymType>, syms: seq<nat>): SymType {
    if syms == [] then UNKNOWN else if TypeIn(m, syms[0]) != UNKNOWN then TypeIn(m, syms[0]) else FirstType(m, syms[1..])
  }

  function TypeOfChoice(p: ChoiceProps, c: nat, syms: seq<nat>): SymType {
    if TypeIn(p.choiceType, c) != UNKNOWN then TypeIn(p.choiceType, c) else FirstType(p.symType, syms)
  }

  function WithTypes(m: map<nat, SymType>, syms: seq<nat>, typ: SymType): map<nat, SymType>
    decreases |syms|
  {
    if syms == [] then m else WithTypes(if TypeIn(m, syms[0]) == UNKNOWN then m[syms[0] := typ] else m, syms[1..], typ)
  }

  function WithChoice(p: ChoiceProps, r: Registered): ChoiceProps {
    var syms := ListOf(p.syms, r.c) + r.syms;
    var typ := TypeOfChoice(p, r.c, syms);
    ChoiceProps(p.directDep[r.c := MakeOr(DepOf(p.directDep, r.c), r.attrs.dep)],
                p.defaults[r.c := ListOf(p.defaults, r.c) + r.attrs.defaults],
                p.syms[r.c := syms], WithOwner(p.owner, r.syms, r.c),
                WithTypes(p.symType, syms, typ), p.choiceType[r.c := typ])
  }

  function WithChoices(p: ChoiceProps, rs: seq<Registered>): ChoiceProps
    decreases |rs|
  {
    if rs == [] then p else WithChoices(WithChoice(p, rs[0]), rs[1..])
  }

  lemma {:induction false} WithChoicesConcat(p: ChoiceProps, a: seq<Registered>, b: seq<Registered>)
    ensures WithChoices(p, a + b) == WithChoices(WithChoices(p, a), b)
    decreases |a|
  {
    if a == [] {
      assert a + b == b;
    } else {
      assert (a + b)[0] == a[0] && (a + b)[1..] == a[1..] + b;
      WithChoicesConcat(WithChoice(p, a[0]), a[1..], b);
    }
  }

  lemma {:induction false} AppendRegistrations(a: Tree, b: Tree)
    ensures Registrations(Append(a, b)) == Registrations(a) + Registrations(b)
  {
    if a.Link? {
      AppendRegistrations(a.rest, b);
      assert OwnChoice(Append(a, b)) == OwnChoice(a);
      Reassociate(OwnChoice(a), Registrations(a.rest), Registrations(b));
      Reassociate(Registrations(a.kids), OwnChoice(a) + Registrations(a.rest), Registrations(b));
    }
  }

  lemma Reassociate<T>(a: seq<T>, b: seq<T>, c: seq<T>)
    ensures (a + b) + c == a + (b + c)
  {
  }

  lemma {:induction false} FlatRegistrations(t: Tree)
    ensures Registrations(Flat(t)) == Registrations(t)
    decreases Count(t)
  {
    if t.Link? {
      var d := Dissolved(t);
      FlatRegistrations(d.rest);
      if Dissolves(t) { AppendRegistrations(t.kids, t.rest); }
      assert OwnChoice(Flat(t)) == OwnChoice(t);
    }
  }

  lemma {:induction false} NoIfsRegistrations(t: Tree)
    requires IfsEmpty(t)
    ensures Registrations(NoIfs(t)) == Registrations(t)
  {
    if t.Link? {
      NoIfsRegistrations(t.rest);
      if t.node.item.If? { assert [] + ([] + Registrations(t.rest)) == Registrations(t.rest); }
    }
  }

  /** Tidying a level loses and reorders no choice node. */
  lemma TidyRegistrations(t: Tree)
    requires IfsPlain(t)
    ensures Registrations(Tidy(t)) == Registrations(t)
  {
    FlatKeeps(t);
    FlatRegistrations(t);
    NoIfsRegistrations(Flat(t));
  }

  /** What symbols and choices have collected. */
  datatype Collected = Collected(props: SymProps, choices: ChoiceProps)

  function Nothing(symType: map<nat, SymType>, choiceType: map<nat, SymType>): Collected {
    Collected(NO_PROPS, ChoiceProps(map[], map[], map[], map[], symType, choiceType))
  }

  function Collects(c: Collected, t: Tree): Collected {
    Collected(WithNodes(c.props, Entries(t)), WithChoices(c.choices, Registrations(t)))
  }

  // What the collected properties of choices mean

  lemma {:induction false} WithOwnerIs(m: map<nat, nat>, syms: seq<nat>, c: nat, s: nat)
    ensures var r := WithOwner(m, syms, c);
            if s in syms then s in r && r[s] == c else (s in r <==> s in m) && (s in m ==> r[s] == m[s])
    decreases |syms|
  {
    if syms != [] { WithOwnerIs(m[syms[0] := c], syms[1..], c, s); }
  }

  lemma {:induction false} WithTypesIs(m: map<nat, SymType>, syms: seq<nat>, typ: SymType, s: nat)
    ensures TypeIn(WithTypes(m, syms, typ), s) == if s in syms && TypeIn(m, s) == UNKNOWN then typ else TypeIn(m, s)
    decreases |syms|
  {
    if syms != [] {
      WithTypesIs(if TypeIn(m, syms[0]) == UNKNOWN then m[syms[0] := typ] else m, syms[1..], typ, s);
    }
  }

  lemma {:induction false} FirstTypeIs(m: map<nat, SymType>, syms: seq<nat>)
    ensures FirstType(m, syms) == UNKNOWN <==> forall s :: s in syms ==> TypeIn(m, s) == UNKNOWN
  {
    if syms != [] { FirstTypeIs(m, syms[1..]); }
  }

  /** A symbol is listed by the choice that owns it, and every listed symbol has an owner. */
  ghost predicate OwnersListed(p: ChoiceProps) {
    && (forall s :: s in p.owner ==> s in ListOf(p.syms, p.owner[s]))
    && (forall c, s :: s in ListOf(p.syms, c) ==> s in p.owner)
  }

  /** Types from the files stay, and a type that the files give to a choice or one of its symbols reaches all its
      symbols. */
  ghost predicate TypesSpread(p: ChoiceProps, symType: map<nat, SymType>, choiceType: map<nat, SymType>) {
    && (forall s :: TypeIn(symType, s) != UNKNOWN ==> TypeIn(p.symType, s) == TypeIn(symType, s))
    && (forall c :: TypeIn(choiceType, c) != UNKNOWN ==> TypeIn(p.choiceType, c) == TypeIn(choiceType, c))
    && (forall c, s :: s in ListOf(p.syms, c) && TypeIn(symType, s) != UNKNOWN ==> TypeIn(p.choiceType, c) != UNKNOWN)
    && (forall c, s :: s in ListOf(p.syms, c) && TypeIn(p.choiceType, c) != UNKNOWN ==> TypeIn(p.symType, s) != UNKNOWN)
  }

  ghost predicate ChoicesFair(p: ChoiceProps, symType: map<nat, SymType>, choiceType: map<nat, SymType>) {
    OwnersListed(p) && TypesSpread(p, symType, choiceType)
  }

  lemma WithChoiceLists(p: ChoiceProps, r: Registered, c: nat)
    ensures ListOf(WithChoice(p, r).syms, c) == if c == r.c then ListOf(p.syms, c) + r.syms else ListOf(p.syms, c)
  {
  }

  lemma WithChoiceOwners(p: ChoiceProps, r: Registered)
    requires OwnersListed(p)
    ensures OwnersListed(WithChoice(p, r))
  {
    var q := WithChoice(p, r);
    forall c ensures ListOf(q.syms, c) == if c == r.c then ListOf(p.syms, c) + r.syms else ListOf(p.syms, c) {
      WithChoiceLists(p, r, c);
    }
    forall s ensures if s in r.syms then s in q.owner && q.owner[s] == r.c
                     else (s in q.owner <==> s in p.owner) && (s in p.owner ==> q.owner[s] == p.owner[s])
    {
      WithOwnerIs(p.owner, r.syms, r.c, s);
    }
  }

  lemma WithChoiceTypes(p: ChoiceProps, r: Registered, symType: map<nat, SymType>, choiceType: map<nat, SymType>)
    requires TypesSpread(p, symType, choiceType)
    ensures TypesSpread(WithChoice(p, r), symType, choiceType)
  {
    var syms, q := ListOf(p.syms, r.c) + r.syms, WithChoice(p, r);
    var typ := TypeOfChoice(p, r.c, syms);
    FirstTypeIs(p.symType, syms);
    forall c ensures ListOf(q.syms, c) == if c == r.c then syms else ListOf(p.syms, c) {
      WithChoiceLists(p, r, c);
    }
    forall s ensures TypeIn(q.symType, s) == if s in syms && TypeIn(p.symType, s) == UNKNOWN then typ else TypeIn(p.symType, s) {
      WithTypesIs(p.symType, syms, typ, s);
    }
    assert forall c :: TypeIn(q.choiceType, c) == if c == r.c then typ else TypeIn(p.choiceType, c);
  }

  lemma {:induction false} WithChoicesFair(p: ChoiceProps, rs: seq<Registered>, symType: map<nat, SymType>, choiceType: map<nat, SymType>)
    requires ChoicesFair(p, symType, choiceType)
    ensures ChoicesFair(WithChoices(p, rs), symType, choiceType)
    decreases |rs|
  {
    if rs != [] {
      WithChoiceOwners(p, rs[0]);
      WithChoiceTypes(p, rs[0], symType, choiceType);
      WithChoicesFair(WithChoice(p, rs[0]), rs[1..], symType, choiceType);
    }
  }

  // Relinking, one node at a time

  method SetNext(n: MenuNode, next: MenuNode?, ghost t: Tree, ghost parent: MenuNode?, ghost after: MenuNode?)
    requires t.Link? && Spells(n, t, parent, after) && Distinct(t)
    modifies n`next
    ensures n.next == next && Spells(n, Alone(t), parent, next)
  {
    assert allocated(Nodes(t.kids));
    n.next := next;
  }

  method SetAttrs(n: MenuNode, attrs: Attrs, ghost t: Tree, ghost parent: MenuNode?, ghost after: MenuNode?)
    requires t.Link? && Spells(n, t, parent, after) && Distinct(t)
    modifies n`attrs
    ensures n.attrs == attrs && Spells(n, Link(t.node, attrs, t.kids, End), parent, n.next)
  {
    assert allocated(Nodes(t.kids));
    n.attrs := attrs;
  }

  method SetParent(n: MenuNode, parent: MenuNode?, ghost t: Tree, ghost was: MenuNode?, ghost after: MenuNode?)
    requires t.Link? && Spells(n, t, was, after) && Distinct(t)
    modifies n`parent
    ensures n.parent == parent && Spells(n, Alone(t), parent, n.next)
  {
    assert allocated(Nodes(t.kids));
    n.parent := parent;
  }

  /** Lengthens the finished part of a chain by one node. */
  lemma Extend(first: MenuNode?, done: Tree, one: Tree, todo: Tree, parent: MenuNode?)
    requires one.Link? && one.rest.End? && Nodes(done) !! Nodes(one) && Nodes(done) + Nodes(one) !! Nodes(todo)
    requires Spells(first, done, parent, one.node) && Spells(one.node, one, parent, one.node.next)
    ensures var d := Append(done, one);
            Spells(first, d, parent, one.node.next) && Nodes(d) == Nodes(done) + Nodes(one) && Nodes(d) !! Nodes(todo)
  {
    SpellsJoin(first, done, one, parent, one.node.next);
    AppendParts(done, one);
  }

  // Relinking whole chains

  /** Gives a chain of nodes a new parent, up to its last node. */
  method Reparent(first: MenuNode, ghost t: Tree, ghost was: MenuNode?, parent: MenuNode?)
    returns (last: MenuNode, ghost front: Tree, ghost end: Tree)
    requires t.Link? && Spells(first, t, was, null) && Distinct(t)
    modifies Nodes(t)`parent
    ensures end.Link? && end.rest.End? && end.node == last && Append(front, end) == t
    ensures Spells(first, front, parent, last) && Spells(last, end, parent, null)
  {
    last := first;
    front, end := End, t;
    while true
      invariant end.Link? && Append(front, end) == t
      invariant Spells(first, front, parent, last) && Spells(last, end, was, null)
      invariant Distinct(end) && Nodes(front) !! Nodes(end) && Nodes(end) <= Nodes(t)
      decreases Count(end)
    {
      assert allocated(Nodes(front)) && allocated(Nodes(end.rest));
      SetParent(last, parent, end, was, null);
      if last.next == null {
        break;
      }
      Extend(first, front, Alone(end), end.rest, parent);
      AppendAssoc(front, Alone(end), end.rest);
      front, end := Append(front, Alone(end)), end.rest;
      last := last.next;
    }
  }

  /** Gives the children of a node its own parent, and lets the last of them lead to the node's successor. */
  method JoinKids(node: MenuNode, ghost t: Tree)
    requires t.Link? && t.kids.Link? && Spells(node, t, node.parent, null) && Distinct(t)
    modifies Nodes(t.kids)
    ensures Spells(node.list, Append(t.kids, t.rest), node.parent, null)
  {
    assert allocated(Nodes(t.rest));
    var last;
    ghost var front, end;
    last, front, end := Reparent(node.list, t.kids, node, node.parent);
    AppendParts(front, end);
    assert allocated(Nodes(front));
    last.next := node.next;
    SpellsJoin(node.list, front, end, node.parent, Head(t.rest));
    SpellsJoin(node.list, t.kids, t.rest, node.parent, null);
  }

  /** Moves the children of a node to after it. */
  method SpliceKids(node: MenuNode, ghost t: Tree)
    requires t.Link? && Dissolves(t) && Spells(node, t, node.parent, null) && Distinct(t)
    modifies node`next, node`list, Nodes(t.kids)
    ensures Spells(node, Dissolved(t), node.parent, null)
  {
    JoinKids(node, t);
    AppendParts(t.kids, t.rest);
    assert allocated(Nodes(Append(t.kids, t.rest)));
    node.next := node.list;
    node.list := null;
  }

  /** _flatten(). */
  method Flatten(first: MenuNode, ghost t: Tree, ghost parent: MenuNode?)
    requires t.Link? && Spells(first, t, parent, null) && Distinct(t)
    modifies Nodes(t)
    ensures Spells(first, Flat(t), parent, null)
  {
    var node: MenuNode? := first;
    ghost var done, todo := End, t;
    while node != null
      invariant Append(done, Flat(todo)) == Flat(t)
      invariant Spells(first, done, parent, node) && Spells(node, todo, parent, null)
      invariant Distinct(todo) && Nodes(done) !! Nodes(todo) && Nodes(todo) <= Nodes(t)
      decreases Count(todo)
    {
      ghost var now := Dissolved(todo);
      FlatStep(done, todo);
      DissolvedWithin(todo);
      if node.list != null && node.attrs.prompt.None? && !node.item.ChoiceItem? {
        assert allocated(Nodes(done));
        SpliceKids(node, todo);
      }
      OneFurther(first, done, now, parent);
      done, todo := Append(done, Alone(now)), now.rest;
      node := node.next;
    }
    AppendEnd(done);
  }

  /** Skips the 'if' nodes that a chain starts with. */
  method SkipIfs(first: MenuNode?, ghost t: Tree, ghost parent: MenuNode?) returns (cur: MenuNode?, ghost todo: Tree)
    requires Spells(first, t, parent, null) && Distinct(t)
    ensures Spells(cur, todo, parent, null) && Within(todo, t) && Count(todo) <= Count(t)
    ensures NoIfs(todo) == NoIfs(t) && (todo.Link? ==> !todo.node.item.If?)
  {
    cur, todo := first, t;
    while cur != null && cur.item.If?
      invariant Spells(cur, todo, parent, null) && Within(todo, t) && Count(todo) <= Count(t) && NoIfs(todo) == NoIfs(t)
      decreases Count(todo)
    {
      cur, todo := cur.next, todo.rest;
    }
  }

  /** _remove_ifs(). */
  method RemoveIfs(node: MenuNode, ghost t: Tree)
    requires Spells(node.list, t, node, null) && Distinct(t) && node !in Nodes(t)
    modifies node`list, Nodes(t)`next
    ensures Spells(node.list, NoIfs(t), node, null)
  {
    ghost var done, todo := End, t;
    assert allocated(Nodes(t));
    var cur;
    cur, todo := SkipIfs(node.list, t, node);
    node.list := cur;
    while cur != null
      invariant Append(done, NoIfs(todo)) == NoIfs(t)
      invariant Spells(node.list, done, node, cur) && Spells(cur, todo, node, null)
      invariant todo.Link? ==> !todo.node.item.If?
      invariant Distinct(todo) && Nodes(done) !! Nodes(todo) && Nodes(todo) <= Nodes(t) && node !in Nodes(done)
      decreases Count(todo)
    {
      var next;
      ghost var rest;
      assert allocated(Nodes(done));
      next, rest := SkipIfs(cur.next, todo.rest, node);
      assert allocated(Nodes(done)) && allocated(Nodes(rest));
      SetNext(cur, next, todo, node, null);
      Extend(node.list, done, Alone(todo), rest, node);
      AppendAssoc(done, Alone(todo), NoIfs(rest));
      done, todo := Append(done, Alone(todo)), rest;
      cur := next;
    }
    AppendEnd(done);
  }

  /** _propagate_deps(). */
  method PropagateDeps(node: MenuNode, visibleIf: Expr, ghost t: Tree)
    requires Spells(node.list, t, node, null) && Distinct(t) && node !in Nodes(t)
    modifies Nodes(t)
    ensures Spells(node.list, PushLevel(t, BaseDep(node.item, node.attrs), visibleIf), node, null)
  {
    var base := BaseDep(node.item, node.attrs);
    ghost var done, todo := End, t;
    var cur := node.list;
    while cur != null
      invariant Append(done, PushLevel(todo, base, visibleIf)) == PushLevel(t, base, visibleIf)
      invariant Spells(node.list, done, node, cur) && Spells(cur, todo, node, null)
      invariant Distinct(todo) && Nodes(done) !! Nodes(todo) && Nodes(todo) <= Nodes(t)
      decreases Count(todo)
    {
      assert allocated(Nodes(done)) && allocated(Nodes(todo.rest));
      SetAttrs(cur, Pushed(cur.item, cur.attrs, base, visibleIf), todo, node, null);
      ghost var one := Link(cur, cur.attrs, todo.kids, End);
      Extend(node.list, done, one, todo.rest, node);
      AppendAssoc(done, one, PushLevel(todo.rest, base, visibleIf));
      done, todo := Append(done, one), todo.rest;
      cur := cur.next;
    }
    AppendEnd(done);
  }

  // Finalization

  /** The part of a Kconfig object that finalization updates besides the menu nodes. */
  class Finalizer {
    var collected: Collected

    /** Starts from the types that the files give to symbols and choices. */
    constructor (symType: map<nat, SymType>, choiceType: map<nat, SymType>)
      ensures collected == Nothing(symType, choiceType)
    {
      collected := Nothing(symType, choiceType);
    }

    /** _add_props_to_sym(). */
    method AddProps(node: MenuNode)
      requires node.item.SymItem?
      modifies this
      ensures collected == old(collected).(props := WithNode(old(collected).props, Entry(node, node.attrs)))
    {
      var s, a, props := node.item.s, node.attrs, collected.props;
      var rev := AddSelects(props.revDep, s, a.selects);
      var weak := AddSelects(props.weakRevDep, s, a.implies);
      props := SymProps(props.directDep[s := MakeOr(DepOf(props.directDep, s), a.dep)], rev, weak,
                        props.defaults[s := ListOf(props.defaults, s) + a.defaults],
                        props.ranges[s := ListOf(props.ranges, s) + a.ranges],
                        props.selects[s := ListOf(props.selects, s) + a.selects],
                        props.implies[s := ListOf(props.implies, s) + a.implies]);
      collected := collected.(props := props);
    }

    method AddSelects(m: map<nat, Expr>, s: nat, ss: seq<Select>) returns (r: map<nat, Expr>)
      ensures r == WithSelects(m, s, ss)
    {
      r := m;
      for i := 0 to |ss|
        invariant WithSelects(r, s, ss[i..]) == WithSelects(m, s, ss)
      {
        assert ss[i..][1..] == ss[i + 1..];
        r := r[ss[i].target := MakeOr(DepOf(r, ss[i].target), MakeAnd(Atom(Ref(s)), ss[i].cond))];
      }
    }

    /** _finalize_node(). The node stays first in its chain. */
    method FinalizeNode(node: MenuNode, visibleIf: Expr, ghost t: Tree, ghost parent: MenuNode?)
      requires t.Link? && Spells(node, t, parent, null) && Distinct(t) && IfsPlain(t) && Leafy(t)
      modifies this, Nodes(t)
      ensures Spells(node, Finalized(t, visibleIf), parent, null)
      ensures collected == Collects(old(collected), Alone(Finalized(t, visibleIf)))
      decreases Count(t), 3
    {
      if node.item.SymItem? {
        FinalizeSym(node, visibleIf, t, parent);
      } else {
        ghost var f := Finalized(t, visibleIf);
        if node.list != null {
          FinalizeMenu(node, visibleIf, t, parent);
        } else {
          LeafFinalized(t, visibleIf);
        }
        CollectsAlone(old(collected), f);
        assert allocated(Nodes(f));
        if node.item.ChoiceItem? {
          FinalizeChoice(node, f, parent);
        }
      }
    }

    /** The case of a symbol. */
    method FinalizeSym(node: MenuNode, visibleIf: Expr, ghost t: Tree, ghost parent: MenuNode?)
      requires t.Link? && Spells(node, t, parent, null) && Distinct(t) && IfsPlain(t) && Leafy(t) && node.item.SymItem?
      modifies this, Nodes(t)
      ensures Spells(node, Finalized(t, visibleIf), parent, null)
      ensures collected == Collects(old(collected), Alone(Finalized(t, visibleIf)))
      decreases Count(t), 2
    {
      assert allocated(Nodes(t.rest));
      ghost var g := Gathered(node.item.s, t.rest, visibleIf);
      GatheredWithin(node.item.s, t.rest, visibleIf);
      AddProps(node);
      ghost var added := collected;
      GatherSubmenu(node, visibleIf, t, parent);
      PropsOfSym(old(collected).props, added.props, t, visibleIf);
      ChoicesOfSym(t, visibleIf);
      TidyList(node, g.inner, Link(t.node, t.attrs, g.inner, g.rest), parent);
    }

    /** The case of a menu, choice or 'if' with children. */
    method FinalizeMenu(node: MenuNode, visibleIf: Expr, ghost t: Tree, ghost parent: MenuNode?)
      requires t.Link? && Spells(node, t, parent, null) && Distinct(t) && IfsPlain(t) && Leafy(t) && !node.item.SymItem?
      modifies this, Nodes(t)
      ensures Spells(node, Finalized(t, visibleIf), parent, null)
      ensures collected == Collects(old(collected), Finalized(t, visibleIf).kids)
      decreases Count(t), 1
    {
      var inner := InnerVisibleIf(node.item, node.attrs, visibleIf);
      ghost var kids := PushLevel(t.kids, BaseDep(node.item, node.attrs), inner);
      PushLevelKeeps(t.kids, BaseDep(node.item, node.attrs), inner);
      assert allocated(Nodes(t.rest));
      PropagateDeps(node, inner, t.kids);
      FinalizeAll(node, inner, kids);
      AllFinalizedWithin(kids, inner);
      AllFinalizedKeeps(kids, inner);
      kids := AllFinalized(kids, inner);
      TidyKeeps(kids);
      TidyRegistrations(kids);
      TidyList(node, kids, Link(t.node, t.attrs, kids, t.rest), parent);
    }

    /** The end of _finalize_node() for choices, and _finalize_choice(): collects the conditions of the node and the
        symbols directly below it, and lets the choice and its symbols give each other types. */
    method FinalizeChoice(node: MenuNode, ghost t: Tree, ghost parent: MenuNode?)
      requires t.Link? && Spells(node, t, parent, null) && node.item.ChoiceItem?
      modifies this
      ensures collected == old(collected).(choices := WithChoice(old(collected).choices, OwnChoice(t)[0]))
    {
      var c, p, a := node.item.c, collected.choices, node.attrs;
      var syms, owner := ListSyms(node, t.kids, c, ListOf(p.syms, c), p.owner);
      var typ := TypeIn(p.choiceType, c);
      if typ == UNKNOWN {
        typ := FindType(p.symType, syms);
      }
      var symType := AssignTypes(p.symType, syms, typ);
      collected := collected.(choices := ChoiceProps(
          p.directDep[c := MakeOr(DepOf(p.directDep, c), a.dep)], p.defaults[c := ListOf(p.defaults, c) + a.defaults],
          p.syms[c := syms], owner, symType, p.choiceType[c := typ]));
    }

    method ListSyms(node: MenuNode, ghost kids: Tree, c: nat, had: seq<nat>, owned: map<nat, nat>)
      returns (syms: seq<nat>, owner: map<nat, nat>)
      requires Spells(node.list, kids, node, null)
      ensures syms == had + ListedSyms(kids) && owner == WithOwner(owned, ListedSyms(kids), c)
    {
      syms, owner := had, owned;
      var cur := node.list;
      ghost var todo := kids;
      while cur != null
        invariant Spells(cur, todo, node, null)
        invariant syms + ListedSyms(todo) == had + ListedSyms(kids)
        invariant WithOwner(owner, ListedSyms(todo), c) == WithOwner(owned, ListedSyms(kids), c)
        decreases Count(todo)
      {
        if cur.item.SymItem? {
          assert syms + ([cur.item.s] + ListedSyms(todo.rest)) == (syms + [cur.item.s]) + ListedSyms(todo.rest);
          assert ListedSyms(todo)[0] == cur.item.s && ListedSyms(todo)[1..] == ListedSyms(todo.rest);
          owner := owner[cur.item.s := c];
          syms := syms + [cur.item.s];
        } else {
          assert ListedSyms(todo) == ListedSyms(todo.rest);
        }
        cur, todo := cur.next, todo.rest;
      }
    }

    method FindType(m: map<nat, SymType>, syms: seq<nat>) returns (typ: SymType)
      ensures typ == FirstType(m, syms)
    {
      for i := 0 to |syms|
        invariant FirstType(m, syms[i..]) == FirstType(m, syms)
      {
        assert syms[i..][1..] == syms[i + 1..];
        typ := TypeIn(m, syms[i]);
        if typ != UNKNOWN {
          return;
        }
      }
      typ := UNKNOWN;
    }

    method AssignTypes(m: map<nat, SymType>, syms: seq<nat>, typ: SymType) returns (r: map<nat, SymType>)
      ensures r == WithTypes(m, syms, typ)
    {
      r := m;
      for i := 0 to |syms|
        invariant WithTypes(r, syms[i..], typ) == WithTypes(m, syms, typ)
      {
        assert syms[i..][1..] == syms[i + 1..];
        if TypeIn(r, syms[i]) == UNKNOWN {
          r := r[syms[i] := typ];
        }
      }
    }

    /** The end of _finalize_node(): flattens the children of a node and removes 'if' nodes. */
    method TidyList(node: MenuNode, ghost kids: Tree, ghost t: Tree, ghost parent: MenuNode?)
      requires t.Link? && t.kids == kids && Spells(node, t, parent, null) && Distinct(t)
      modifies node`list, Nodes(kids)
      ensures Spells(node, t.(kids := Tidy(kids)), parent, null)
    {
      assert allocated(Nodes(t.rest));
      if node.list != null {
        FlatWithin(kids);
        Flatten(node.list, kids, node);
        RemoveIfs(node, Flat(kids));
      }
    }

    /** Moves the nodes that depend on a symbol into an implicit submenu of its node. */
    method GatherSubmenu(node: MenuNode, visibleIf: Expr, ghost t: Tree, ghost parent: MenuNode?)
      requires t.Link? && Spells(node, t, parent, null) && Distinct(t) && IfsPlain(t) && Leafy(t) && node.item.SymItem?
      modifies this, Nodes(t)
      ensures var g := Gathered(node.item.s, t.rest, visibleIf);
              && Spells(node, Link(t.node, t.attrs, g.inner, g.rest), parent, null)
              && collected == Collects(old(collected), g.inner)
      decreases Count(t), 1
    {
      var cur;
      ghost var front, one, todo;
      cur, front, one, todo := Gather(node, visibleIf, t, parent);
      if cur != node {
        Tilt(node, cur, front, one, todo, t.attrs, parent);
      }
    }

    /** Finalizes the nodes that depend on a symbol, up to cur, and gives them the symbol's node as their parent. */
    method Gather(node: MenuNode, visibleIf: Expr, ghost t: Tree, ghost parent: MenuNode?)
      returns (cur: MenuNode, ghost front: Tree, ghost one: Tree, ghost todo: Tree)
      requires t.Link? && Spells(node, t, parent, null) && Distinct(t) && IfsPlain(t) && Leafy(t) && node.item.SymItem?
      modifies this, Nodes(t.rest)
      ensures Submenu(node, cur, front, one, todo, t.attrs, parent) && cur in Nodes(t)
      ensures Gathered(node.item.s, t.rest, visibleIf) == Split(Append(front, one), todo)
      ensures collected == Collects(old(collected), Append(front, one))
      decreases Count(t), 0
    {
      cur, front, one, todo := node, End, End, t.rest;
      while cur.next != null && AutoMenuDep(node.item.s, cur.next.attrs)
        invariant Gathered(node.item.s, t.rest, visibleIf) == After(Append(front, one), Gathered(node.item.s, todo, visibleIf))
        invariant Submenu(node, cur, front, one, todo, t.attrs, parent) && Nodes(todo) <= Nodes(t.rest)
        invariant cur == node || cur in Nodes(t.rest)
        invariant IfsPlain(todo) && Leafy(todo) && Count(todo) <= Count(t.rest)
        invariant collected == Collects(old(collected), Append(front, one))
        decreases Count(todo)
      {
        ghost var done, f := Append(front, one), Finalized(todo, visibleIf);
        FinalizedKept(todo, visibleIf);
        cur := TakeNext(node, cur, visibleIf, front, one, todo, t.attrs, parent);
        AfterStep(node.item.s, done, todo, visibleIf);
        CollectsStep(old(collected), done, f);
        front, one, todo := done, Alone(f), f.rest;
      }
      AppendEnd(Append(front, one));
    }

    /** Makes the nodes from a node's successor up to cur its children. */
    method Tilt(node: MenuNode, cur: MenuNode, ghost front: Tree, ghost one: Tree, ghost todo: Tree, ghost attrs: Attrs,
                ghost parent: MenuNode?)
      requires cur != node && Submenu(node, cur, front, one, todo, attrs, parent)
      modifies node`list, node`next, cur`next
      ensures Spells(node, Link(node, attrs, Append(front, one), todo), parent, null)
    {
      assert allocated(Nodes(front)) && allocated(Nodes(one)) && allocated(Nodes(todo));
      node.list := node.next;
      node.next := cur.next;
      SetNext(cur, null, one, node, Head(todo));
      SpellsJoin(node.list, front, one, node, null);
      AppendParts(front, one);
    }

    /** Finalizes the node after cur and gives it the symbol's node as its parent. */
    method TakeNext(node: MenuNode, cur: MenuNode, visibleIf: Expr, ghost front: Tree, ghost one: Tree, ghost todo: Tree,
                    ghost attrs: Attrs, ghost parent: MenuNode?)
      returns (next: MenuNode)
      requires Submenu(node, cur, front, one, todo, attrs, parent) && todo.Link? && IfsPlain(todo) && Leafy(todo)
      modifies this, Nodes(todo)
      ensures var f := Finalized(todo, visibleIf);
              && Submenu(node, next, Append(front, one), Alone(f), f.rest, attrs, parent)
              && collected == Collects(old(collected), Alone(f))
      ensures next in Nodes(todo)
      decreases Count(todo), 5
    {
      ghost var f, done := Finalized(todo, visibleIf), Append(front, one);
      FinalizedKept(todo, visibleIf);
      AppendParts(front, one);
      SpellsJoin(node.next, front, one, node, Head(todo));
      assert allocated(Nodes(done));
      next := cur.next;
      FinalizeNode(next, visibleIf, todo, parent);
      MoveUnder(node, next, done, f, attrs, parent);
    }

    /** Gives a finalized node the symbol's node as its parent. */
    method MoveUnder(node: MenuNode, next: MenuNode, ghost done: Tree, ghost f: Tree, ghost attrs: Attrs, ghost parent: MenuNode?)
      requires f.Link? && node.parent == parent && node.attrs == attrs && node.list == null
      requires Spells(node.next, done, node, next) && Spells(next, f, parent, null)
      requires Distinct(f) && Nodes(done) !! Nodes(f) && node !in Nodes(done) && node !in Nodes(f)
      modifies next`parent
      ensures Submenu(node, next, done, Alone(f), f.rest, attrs, parent)
    {
      assert allocated(Nodes(done)) && allocated(Nodes(f.rest));
      SetParent(next, node, f, parent, null);
    }

    /** Finalizes the children of a node in turn. */
    method FinalizeAll(node: MenuNode, visibleIf: Expr, ghost t: Tree)
      requires Spells(node.list, t, node, null) && Distinct(t) && IfsPlain(t) && Leafy(t) && node !in Nodes(t)
      modifies this, Nodes(t)
      ensures Spells(node.list, AllFinalized(t, visibleIf), node, null)
      ensures collected == Collects(old(collected), AllFinalized(t, visibleIf))
      decreases Count(t), 5
    {
      ghost var done, todo := End, t;
      var cur := node.list;
      while cur != null
        invariant Append(done, AllFinalized(todo, visibleIf)) == AllFinalized(t, visibleIf)
        invariant Halfway(node.list, done, cur, todo, node) && Nodes(todo) <= Nodes(t)
        invariant IfsPlain(todo) && Leafy(todo) && Count(todo) <= Count(t)
        invariant collected == Collects(old(collected), done)
        decreases Count(todo)
      {
        ghost var f := Finalized(todo, visibleIf);
        FinalizedKept(todo, visibleIf);
        cur := FinalizeOne(node.list, cur, visibleIf, done, todo, node);
        AppendAssoc(done, Alone(f), AllFinalized(f.rest, visibleIf));
        CollectsStep(old(collected), done, f);
        done, todo := Append(done, Alone(f)), f.rest;
      }
      AppendEnd(done);
    }

    /** Finalizes a node and steps to the node that now follows it. */
    method FinalizeOne(ghost first: MenuNode?, cur: MenuNode, visibleIf: Expr, ghost done: Tree, ghost todo: Tree,
                       ghost parent: MenuNode?)
      returns (next: MenuNode?)
      requires Halfway(first, done, cur, todo, parent) && IfsPlain(todo) && Leafy(todo)
      modifies this, Nodes(todo)
      ensures var f := Finalized(todo, visibleIf);
              && Halfway(first, Append(done, Alone(f)), next, f.rest, parent)
              && collected == Collects(old(collected), Alone(f))
      decreases Count(todo), 4
    {
      FinalizedKept(todo, visibleIf);
      assert allocated(Nodes(done));
      FinalizeNode(cur, visibleIf, todo, parent);
      OneFurther(first, done, Finalized(todo, visibleIf), parent);
      next := cur.next;
    }
  }

  /** A chain that is finished up to cur. */
  ghost predicate Halfway(first: MenuNode?, done: Tree, cur: MenuNode?, todo: Tree, parent: MenuNode?)
    reads Nodes(done), Nodes(todo)
  {
    && Spells(first, done, parent, cur) && Spells(cur, todo, parent, null)
    && Distinct(todo) && Nodes(done) !! Nodes(todo)
  }

  /** A symbol's node, followed by the nodes front and one (the last of which is cur) that already have it as
      their parent, followed by the rest of its chain. */
  ghost predicate Submenu(node: MenuNode, cur: MenuNode, front: Tree, one: Tree, todo: Tree, attrs: Attrs, parent: MenuNode?)
    reads node, cur, Nodes(front), Nodes(one), Nodes(todo)
  {
    && node.parent == parent && node.attrs == attrs && node.list == null && cur.next == Head(todo)
    && (one.End? ==> front.End? && cur == node)
    && (one.Link? ==>
          && one.rest.End? && one.node == cur && Distinct(one)
          && Spells(node.next, front, node, cur) && Spells(cur, one, node, Head(todo)))
    && Spells(Head(todo), todo, parent, null)
    && Distinct(todo) && Nodes(front) !! Nodes(one) && Nodes(front) + Nodes(one) !! Nodes(todo)
    && node !in Nodes(front) && node !in Nodes(one) && node !in Nodes(todo)
  }

  function After(done: Tree, g: Split): Split {
    Split(Append(done, g.inner), g.rest)
  }

  lemma AfterStep(s: nat, done: Tree, todo: Tree, visibleIf: Expr)
    requires todo.Link? && AutoMenuDep(s, todo.attrs)
    ensures var f := Finalized(todo, visibleIf);
            After(done, Gathered(s, todo, visibleIf)) == After(Append(done, Alone(f)), Gathered(s, f.rest, visibleIf))
  {
    var f := Finalized(todo, visibleIf);
    AppendAssoc(done, Alone(f), Gathered(s, f.rest, visibleIf).inner);
  }

  lemma FinalizedKept(t: Tree, visibleIf: Expr)
    requires t.Link? && Distinct(t) && IfsPlain(t) && Leafy(t)
    ensures var f := Finalized(t, visibleIf); Within(f, t) && Distinct(f) && IfsPlain(f.rest) && Leafy(f.rest)
  {
    FinalizedWithin(t, visibleIf);
    FinalizedKeeps(t, visibleIf);
  }

  lemma LeafFinalized(t: Tree, visibleIf: Expr)
    requires t.Link? && t.kids.End? && !t.node.item.SymItem?
    ensures Finalized(t, visibleIf) == t
  {
  }

  lemma CollectsStep(c: Collected, done: Tree, f: Tree)
    requires f.Link?
    ensures Collects(Collects(c, done), Alone(f)) == Collects(c, Append(done, Alone(f)))
  {
    AppendEntries(done, Alone(f));
    WithNodesConcat(c.props, Entries(done), Entries(Alone(f)));
    AppendRegistrations(done, Alone(f));
    WithChoicesConcat(c.choices, Registrations(done), Registrations(Alone(f)));
  }

  /** A node that is no symbol adds nothing to its children, unless it is a choice. */
  lemma CollectsAlone(c: Collected, f: Tree)
    requires f.Link? && !f.node.item.SymItem?
    ensures var kids := Collects(c, f.kids);
            Collects(c, Alone(f)) ==
            if f.node.item.ChoiceItem? then kids.(choices := WithChoice(kids.choices, OwnChoice(f)[0])) else kids
  {
    EntriesRest(f, End);
    WithNodesConcat(c.props, Own(f), Entries(f.kids));
    assert WithNodes(c.props, Own(f)) == c.props;
    assert OwnChoice(Alone(f)) == OwnChoice(f);
    assert Registrations(Alone(f)) == Registrations(f.kids) + OwnChoice(f);
    WithChoicesConcat(c.choices, Registrations(f.kids), OwnChoice(f));
    if f.node.item.ChoiceItem? { assert OwnChoice(f)[1..] == []; }
  }

  lemma ChoicesOfSym(t: Tree, visibleIf: Expr)
    requires t.Link? && t.node.item.SymItem? && IfsPlain(t) && Leafy(t)
    ensures Registrations(Alone(Finalized(t, visibleIf))) == Registrations(Gathered(t.node.item.s, t.rest, visibleIf).inner)
  {
    var g, f := Gathered(t.node.item.s, t.rest, visibleIf), Finalized(t, visibleIf);
    GatheredKeeps(t.node.item.s, t.rest, visibleIf);
    TidyRegistrations(g.inner);
    assert f.kids == Tidy(g.inner) && OwnChoice(Alone(f)) == [];
    assert Registrations(f.kids) + ([] + []) == Registrations(f.kids);
  }

  lemma PropsOfSym(p: SymProps, added: SymProps, t: Tree, visibleIf: Expr)
    requires t.Link? && t.node.item.SymItem? && IfsPlain(t) && Leafy(t)
    requires added == WithNode(p, Entry(t.node, t.attrs))
    ensures WithNodes(added, Entries(Gathered(t.node.item.s, t.rest, visibleIf).inner)) ==
            WithNodes(p, Entries(Alone(Finalized(t, visibleIf))))
  {
    var g, f := Gathered(t.node.item.s, t.rest, visibleIf), Finalized(t, visibleIf);
    GatheredKeeps(t.node.item.s, t.rest, visibleIf);
    TidyKeeps(g.inner);
    assert f.kids == Tidy(g.inner);
    EntriesRest(f, End);
    assert WithNodes(p, Own(t)) == WithNodes(WithNode(p, Own(t)[0]), []);
    WithNodesConcat(p, Own(t), Entries(g.inner));
  }
}
