/** Dependency loop detection by depth-first search over symbols and choices. */
module DepLoop {
  import opened KconfigLang
  import opened Orders

  /** The _dependents sets of symbols, before choices are added as dependents of their symbols; the choice of
      each choice symbol; and the symbols of each choice. */
  datatype Graph = Graph(nsyms: nat, dependents: map<nat, seq<Item>>, choice: map<nat, nat>, syms: map<nat, seq<nat>>)

  function DependentsIn(g: Graph, s: nat): seq<Item> {
    if s in g.dependents then g.dependents[s] else []
  }

  function SymsIn(g: Graph, c: nat): seq<nat> {
    if c in g.syms then g.syms[c] else []
  }

  function Nodes(g: Graph): set<Item> {
    (set s: nat | s < g.nsyms :: S(s)) + (set c | c in g.syms :: C(c))
  }

  ghost predicate GraphOk(g: Graph) {
    && (forall s, k :: 0 <= k < |DependentsIn(g, s)| ==> DependentsIn(g, s)[k] in Nodes(g))
    && (forall c, k :: 0 <= k < |SymsIn(g, c)| ==>
          SymsIn(g, c)[k] < g.nsyms && SymsIn(g, c)[k] in g.choice && g.choice[SymsIn(g, c)[k]] == c)
    && (forall s :: s in g.choice ==> g.choice[s] in g.syms && s in SymsIn(g, g.choice[s]))
  }

  /** b depends on a, or b is a symbol of the choice a. */
  predicate Edge(g: Graph, a: Item, b: Item) {
    match a
    case S(s) => b in DependentsIn(g, s)
    case C(c) => b.S? && b.s in SymsIn(g, c)
  }

  /** The step from a choice symbol to its choice. */
  predicate Enters(g: Graph, a: Item, b: Item) {
    a.S? && a.s in g.choice && b == C(g.choice[a.s])
  }

  /** An edge, or the step from a choice symbol among tried to its choice. */
  predicate Step(g: Graph, tried: set<nat>, a: Item, b: Item) {
    Edge(g, a, b) || (Enters(g, a, b) && a.s in tried)
  }

  /** From a choice symbol to its choice and back, or the other way round, where the choice does not depend on the
      symbol otherwise. */
  predicate TurnsBack(g: Graph, a: Item, b: Item, c: Item) {
    a == c && ((a.S? && b.C? && !Edge(g, a, b)) || (a.C? && b.S? && !Edge(g, b, a)))
  }

  /** A closed walk, collected on the way back, that enters choices through symbols among tried only. */
  ghost predicate Circles(g: Graph, tried: set<nat>, p: seq<Item>) {
    |p| > 0 && forall i :: 0 <= i < |p| ==> Step(g, tried, p[i], p[Prev(p, i)])
  }

  /** A closed walk that does not just turn back at a choice or at a choice symbol. Items may repeat. */
  ghost predicate IsLoop(g: Graph, tried: set<nat>, p: seq<Item>) {
    && Circles(g, tried, p)
    && forall i :: 0 <= i < |p| ==> !TurnsBack(g, p[i], p[Prev(p, i)], p[Prev(p, Prev(p, i))])
  }

  ghost predicate LoopFree(g: Graph, tried: set<nat>) {
    forall p :: !IsLoop(g, tried, p)
  }

  ghost predicate Distinct(p: seq<Item>) {
    forall i, j :: 0 <= i < j < |p| ==> p[i] != p[j]
  }

  /** An edge, or from a choice symbol among tried to the other symbols of its choice. */
  predicate Leads(g: Graph, tried: set<nat>, a: Item, b: Item) {
    Edge(g, a, b) || (a.S? && b.S? && a != b && a.s in tried && a.s in g.choice && b.s in SymsIn(g, g.choice[a.s]))
  }

  /** Every item in order leads to earlier items only. */
  ghost predicate Topological(g: Graph, tried: set<nat>, order: seq<Item>) {
    forall i, b :: 0 <= i < |order| && Leads(g, tried, order[i], b) ==> b in order[..i]
  }

  function Position(order: seq<Item>, a: Item): (k: nat)
    ensures k <= |order| && (a in order <==> k < |order|) && (k < |order| ==> order[k] == a)
    ensures forall j :: 0 <= j < k ==> order[j] != a
  {
    if order == [] || order[0] == a then 0 else 1 + Position(order[1..], a)
  }

  lemma LeadsDown(g: Graph, tried: set<nat>, order: seq<Item>, a: Item, b: Item)
    requires Topological(g, tried, order) && a in order && Leads(g, tried, a, b)
    ensures b in order && Position(order, b) < Position(order, a)
  {
    var i := Position(order, a);
    assert Leads(g, tried, order[i], b);
    var j :| 0 <= j < i && order[..i][j] == b;
  }

  /** A choice that a loop enters from a symbol ranks just below that symbol. */
  function Height(g: Graph, order: seq<Item>, p: seq<Item>, i: nat): int
    requires i < |p|
  {
    if p[i].C? && !Edge(g, p[Next(p, i)], p[i]) then 2 * Position(order, p[Next(p, i)]) - 1 else 2 * Position(order, p[i])
  }

  lemma CircleInNodes(g: Graph, tried: set<nat>, p: seq<Item>, i: nat)
    requires GraphOk(g) && Circles(g, tried, p) && i < |p|
    ensures p[i] in Nodes(g)
  {
    var k := Next(p, i);
    assert Step(g, tried, p[k], p[Prev(p, k)]);
  }

  /** Where a closed walk does not turn back, it gets lower. */
  lemma HeightDescends(g: Graph, tried: set<nat>, order: seq<Item>, p: seq<Item>, i: nat)
    requires GraphOk(g) && Topological(g, tried, order) && forall s: nat :: s < g.nsyms ==> S(s) in order
    requires Circles(g, tried, p) && i < |p| && !TurnsBack(g, p[Next(p, i)], p[i], p[Prev(p, i)])
    ensures Height(g, order, p, Prev(p, i)) < Height(g, order, p, i)
  {
    var k := Next(p, i);
    var j := Prev(p, i);
    assert Step(g, tried, p[k], p[Prev(p, k)]) && Step(g, tried, p[i], p[j]);
    assert Next(p, j) == i;
    CircleInNodes(g, tried, p, k);
    CircleInNodes(g, tried, p, i);
    if Edge(g, p[i], p[j]) {
      if p[i].C? && !Edge(g, p[k], p[i]) {
        LeadsDown(g, tried, order, p[k], p[j]);
      } else {
        if p[i].C? { LeadsDown(g, tried, order, p[k], p[i]); }
        LeadsDown(g, tried, order, p[i], p[j]);
      }
    }
  }

  lemma TopologicalIsLoopFree(g: Graph, tried: set<nat>, order: seq<Item>)
    requires GraphOk(g) && Topological(g, tried, order) && forall s: nat :: s < g.nsyms ==> S(s) in order
    ensures LoopFree(g, tried)
  {
    forall p: seq<Item> ensures !IsLoop(g, tried, p) {
      if IsLoop(g, tried, p) {
        var depths := Depths(g, order, p);
        NotAlwaysRising(depths);
        var k :| 0 <= k < |p| && depths[Prev(depths, k)] <= depths[k];
        assert !TurnsBack(g, p[Next(p, k)], p[Prev(p, Next(p, k))], p[Prev(p, Prev(p, Next(p, k)))]);
        HeightDescends(g, tried, order, p, k);
      }
    }
  }

  function Depths(g: Graph, order: seq<Item>, p: seq<Item>): (h: seq<int>)
    ensures |h| == |p| && forall i :: 0 <= i < |p| ==> h[i] == -Height(g, order, p, i)
  {
    seq(|p|, i requires 0 <= i < |p| => -Height(g, order, p, i))
  }

  /** No loop; a chain that has not yet come back to its first item; or a complete loop, which is reported. */
  datatype Outcome = Fine | Partial(chain: seq<Item>) | Raised(loop: seq<Item>)

  /** What a search may report for the item it was started from. A chain leads back to an item that was being
      visited before, through items that were not. */
  ghost predicate Reports(g: Graph, tried: set<nat>, r: Outcome, cur: Item, grey: set<Item>, seen: set<Item>) {
    match r
    case Fine => true
    case Partial(p) =>
      && |p| > 0 && p[|p| - 1] == cur && p[0] in grey && Distinct(p)
      && (forall i :: 0 < i < |p| ==> Step(g, tried, p[i], p[i - 1]) && p[i] !in seen)
    case Raised(p) => IsLoop(g, tried, p) && Distinct(p)
  }

  /** The first of syms, leaving out skip. */
  function FirstOther(syms: seq<nat>, skip: Option<nat>): (t: Option<nat>)
    ensures t.Some? ==> t.value in syms && t != skip
  {
    if syms == [] then None else if Some(syms[0]) != skip then Some(syms[0]) else FirstOther(syms[1..], skip)
  }

  lemma {:induction false} FirstAt(syms: seq<nat>, skip: Option<nat>, k: nat)
    requires k < |syms| && Some(syms[k]) != skip && forall j :: 0 <= j < k ==> Some(syms[j]) == skip
    ensures FirstOther(syms, skip) == Some(syms[k])
  {
    if k > 0 { FirstAt(syms[1..], skip, k - 1); }
  }

  function FoundLoop(p: seq<Item>, cur: Item): Outcome
    requires p != []
  {
    if cur != p[0] then Partial(p + [cur]) else Raised(p)
  }

  /** A chain reported for next, seen while cur was being visited, is passed on or complete. */
  lemma FoundLoopReports(g: Graph, tried: set<nat>, p: seq<Item>, cur: Item, next: Item,
                         grey: set<Item>, seen: set<Item>)
    requires Reports(g, tried, Partial(p), next, grey, seen) && Step(g, tried, cur, next)
    requires cur in seen
    requires |p| == 2 && p[0] == cur ==> !TurnsBack(g, cur, next, cur) && !TurnsBack(g, next, cur, next)
    ensures Reports(g, tried, FoundLoop(p, cur), cur, grey - {cur}, seen - {cur})
  {
    if cur == p[0] {
      forall i | 0 <= i < |p|
        ensures Step(g, tried, p[i], p[Prev(p, i)]) && !TurnsBack(g, p[i], p[Prev(p, i)], p[Prev(p, Prev(p, i))])
      {
        if |p| > 2 { assert p[i] != p[Prev(p, Prev(p, i))]; }
      }
    } else {
      var q := p + [cur];
      forall i | 0 < i < |q| ensures Step(g, tried, q[i], q[i - 1]) && q[i] !in seen - {cur} {
        if i < |p| { assert q[i] == p[i] && q[i - 1] == p[i - 1]; }
      }
    }
  }

  ghost function Grey(visited: map<Item, nat>): set<Item> {
    set i | i in visited && visited[i] == 1
  }

  ghost function White(g: Graph, visited: map<Item, nat>): set<Item> {
    Nodes(g) - visited.Keys
  }

  lemma MarkGrey(g: Graph, visited: map<Item, nat>, i: Item)
    requires i in White(g, visited)
    ensures Grey(visited[i := 1]) == Grey(visited) + {i}
    ensures White(g, visited[i := 1]) == White(g, visited) - {i}
    ensures Grey(visited[i := 1]) - {i} == Grey(visited) && visited[i := 1].Keys - {i} == visited.Keys
  {
  }

  lemma SameGrey(was: map<Item, nat>, visited: map<Item, nat>, w: set<Item>)
    requires Extends(was, visited, w)
    ensures Grey(visited) == Grey(was) && was.Keys <= visited.Keys
  {
  }

  /** Closed under dependents and under stepping from symbols to their choices. */
  ghost predicate Closed(g: Graph, w: set<Item>) {
    forall a, b :: a in w && Step(g, g.choice.Keys, a, b) ==> b in w
  }

  /** What can be reached from a. */
  ghost function Reach(g: Graph, a: Item): set<Item> {
    set b | b in Nodes(g) && forall w: set<Item> :: a in w && Closed(g, w) ==> b in w
  }

  lemma ReachClosed(g: Graph, a: Item)
    requires GraphOk(g) && a in Nodes(g)
    ensures Closed(g, Reach(g, a)) && a in Reach(g, a)
  {
    forall b, c | b in Reach(g, a) && Step(g, g.choice.Keys, b, c) ensures c in Reach(g, a) {
      forall w: set<Item> | a in w && Closed(g, w) ensures c in w {
        assert b in w;
      }
    }
  }

  /** What can be reached from the first n symbols. */
  ghost function ReachOfFirst(g: Graph, n: nat): set<Item> {
    if n == 0 then {} else ReachOfFirst(g, n - 1) + Reach(g, S(n - 1))
  }

  /** No earlier symbol leads to symbol m. */
  ghost predicate Unreached(g: Graph, m: nat) {
    S(m) !in ReachOfFirst(g, m)
  }

  /** Of the symbols of its choice, m is the one from which the choice has been looked at. */
  ghost predicate SoleEntrance(g: Graph, tried: set<nat>, m: nat)
    requires m in g.choice
  {
    m in tried && forall t :: t in tried && t in g.choice && g.choice[t] == g.choice[m] ==> t == m
  }

  ghost predicate Marked(g: Graph, visited: map<Item, nat>, tried: set<nat>) {
    && GraphOk(g) && visited.Keys <= Nodes(g)
    && (forall i :: i in visited ==> visited[i] == 1 || visited[i] == 2)
    && (forall t :: t in tried ==> S(t) in visited)
  }

  /** The items marked 2 are those in order. */
  ghost predicate Sound(g: Graph, visited: map<Item, nat>, tried: set<nat>, order: seq<Item>) {
    && Marked(g, visited, tried) && Topological(g, tried, order)
    && (forall i :: i in order <==> i in visited && visited[i] == 2)
  }

  /** Sound, except that choice c is missing from order while symbol s is still being visited. */
  ghost predicate Pending(g: Graph, visited: map<Item, nat>, tried: set<nat>, order: seq<Item>, c: nat, s: nat) {
    && Marked(g, visited, tried) && Topological(g, tried, order)
    && C(c) in visited && visited[C(c)] == 2 && C(c) !in order
    && (forall i :: i != C(c) ==> (i in order <==> i in visited && visited[i] == 2))
    && (forall t :: t in SymsIn(g, c) && t != s ==> S(t) in order)
  }

  /** Everything visited before keeps its mark, and everything visited since is in w and marked 2. */
  ghost predicate Extends(was: map<Item, nat>, visited: map<Item, nat>, w: set<Item>) {
    && (forall i :: i in was ==> i in visited && visited[i] == was[i])
    && (forall i :: i in visited && i !in was ==> visited[i] == 2 && i in w)
  }

  lemma ExtendsMarked(was: map<Item, nat>, visited: map<Item, nat>, i: Item, w: set<Item>)
    requires i !in was && i in w && Extends(was[i := 1], visited, w)
    ensures Extends(was, visited[i := 2], w)
  {
  }

  /** The symbols added to tried are s or had not been visited. */
  ghost predicate Tries(was: map<Item, nat>, before: set<nat>, tried: set<nat>, s: Option<nat>) {
    before <= tried && forall t :: t in tried && t !in before ==> S(t) !in was || Some(t) == s
  }

  ghost predicate Spares(before: set<nat>, tried: set<nat>, s: Option<nat>) {
    s.Some? && s.value in tried ==> s.value in before
  }

  class Checker {
    const g: Graph
    /** The _visited fields: absent for unvisited, 1 while being visited, 2 when known not to be in a loop. */
    var visited: map<Item, nat>
    /** The symbols from which their choice has been looked at. */
    ghost var tried: set<nat>
    /** The items marked 2, such that dependents come before what they depend on. */
    ghost var order: seq<Item>

    ghost predicate Valid()
      reads this
    {
      Sound(g, visited, tried, order)
    }

    constructor (g: Graph)
      requires GraphOk(g)
      ensures Valid() && this.g == g && visited == map[] && tried == {} && order == []
    {
      this.g := g;
      visited, tried, order := map[], {}, [];
    }

    method CheckSym(s: nat, ignoreChoice: bool, ghost w: set<Item>) returns (r: Outcome)
      requires Valid() && s < g.nsyms
      requires ignoreChoice ==> s in g.choice && C(g.choice[s]) in Grey(visited)
      requires Closed(g, w) && S(s) in w
      modifies this
      ensures Reports(g, tried, r, S(s), Grey(old(visited)), old(visited.Keys))
      ensures r.Partial? && |r.chain| == 2 && ignoreChoice && r.chain[0] == C(g.choice[s]) ==> Edge(g, S(s), r.chain[0])
      ensures r.Fine? ==> Valid() && Extends(old(visited), visited, w) && S(s) in visited && visited[S(s)] == 2
      ensures r.Fine? && !ignoreChoice && s in g.choice && S(s) !in old(visited) ==> C(g.choice[s]) in order && s in tried
      ensures Tries(old(visited), old(tried), tried, None) && (ignoreChoice && s in tried ==> s in old(tried))
      ensures DependentsIn(g, s) == [] && s in g.choice ==>
        Spares(old(tried), tried, FirstOther(SymsIn(g, g.choice[s]), Some(s)))
      decreases White(g, visited), 2
    {
      if S(s) in visited {
        return if visited[S(s)] == 2 then Fine else Partial([S(s)]);
      }
      MarkGrey(g, visited, S(s));
      visited := visited[S(s) := 1];
      r := VisitDependents(s, w);
      if !r.Fine? {
        return;
      }
      assert Grey(visited) == Grey(old(visited)) + {S(s)};
      if s in g.choice && !ignoreChoice {
        r := EnterChoice(s, w);
      } else {
        MarkDone(S(s));
      }
    }

    /** Everything that depends on i is known not to be in a loop, so neither is i. */
    method MarkDone(i: Item)
      requires Valid() && i in Grey(visited) && forall b :: Leads(g, tried, i, b) ==> b in order
      modifies this
      ensures Valid() && visited == old(visited)[i := 2] && order == old(order) + [i] && tried == old(tried)
    {
      AppendTopological(g, tried, order, i);
      visited := visited[i := 2];
      order := order + [i];
    }

    method VisitDependents(s: nat, ghost w: set<Item>) returns (r: Outcome)
      requires Valid() && s < g.nsyms && S(s) in Grey(visited)
      requires Closed(g, w) && S(s) in w
      modifies this
      ensures Reports(g, tried, r, S(s), Grey(old(visited)) - {S(s)}, old(visited.Keys) - {S(s)})
      ensures r.Partial? && |r.chain| == 2 && r.chain[0].C? ==> Edge(g, S(s), r.chain[0])
      ensures r.Fine? ==> Valid() && Extends(old(visited), visited, w) && forall b :: Edge(g, S(s), b) ==> b in order
      ensures Tries(old(visited), old(tried), tried, None) && (DependentsIn(g, s) == [] ==> r.Fine? && tried == old(tried))
      decreases White(g, visited), 4
    {
      var deps := DependentsIn(g, s);
      for k := 0 to |deps|
        invariant Valid() && Extends(old(visited), visited, w) && Tries(old(visited), old(tried), tried, None)
        invariant forall j :: 0 <= j < k ==> deps[j] in order
        invariant k == 0 ==> tried == old(tried)
      {
        SameGrey(old(visited), visited, w);
        r := VisitDependent(s, deps[k], w);
        if !r.Fine? {
          return;
        }
      }
      r := Fine;
    }

    method VisitDependent(s: nat, dep: Item, ghost w: set<Item>) returns (r: Outcome)
      requires Valid() && s < g.nsyms && S(s) in Grey(visited) && dep in DependentsIn(g, s)
      requires Closed(g, w) && S(s) in w
      modifies this
      ensures Reports(g, tried, r, S(s), Grey(old(visited)) - {S(s)}, old(visited.Keys) - {S(s)})
      ensures r.Partial? && |r.chain| == 2 ==> r.chain[0] == dep
      ensures r.Fine? ==> Valid() && Extends(old(visited), visited, w) && dep in order
      ensures Tries(old(visited), old(tried), tried, None)
      decreases White(g, visited), 3
    {
      assert Edge(g, S(s), dep) && dep in Nodes(g);
      match dep {
        case C(c) => r := CheckChoice(c, None, w);
        case S(t) => r := CheckSym(t, false, w);
      }
      if r.Partial? {
        FoundLoopReports(g, tried, r.chain, S(s), dep, Grey(old(visited)), old(visited.Keys));
        r := FoundLoop(r.chain, S(s));
      }
    }

    /** Visits the choice of symbol s, as the last thing before s itself is done. */
    method EnterChoice(s: nat, ghost w: set<Item>) returns (r: Outcome)
      requires Valid() && s < g.nsyms && S(s) in Grey(visited) && s in g.choice
      requires forall b :: Edge(g, S(s), b) ==> b in order
      requires Closed(g, w) && S(s) in w
      modifies this
      ensures Reports(g, tried, r, S(s), Grey(old(visited)) - {S(s)}, old(visited.Keys) - {S(s)})
      ensures r.Fine? ==> Valid() && S(s) in visited && visited[S(s)] == 2 && C(g.choice[s]) in order
      ensures r.Fine? ==> (forall i :: i in old(visited) && i != S(s) ==> i in visited && visited[i] == old(visited)[i])
      ensures r.Fine? ==> (forall i :: i in visited && i !in old(visited) ==> visited[i] == 2 && i in w)
      ensures r.Fine? ==> s in tried
      ensures Tries(old(visited), old(tried), tried, Some(s))
      ensures Spares(old(tried), tried, FirstOther(SymsIn(g, g.choice[s]), Some(s)))
      decreases White(g, visited), 3
    {
      var c := g.choice[s];
      TryMore(g, tried, order, s);
      tried := tried + {s};
      r := CheckChoice(c, Some(s), w);
      if r.Partial? {
        FoundLoopReports(g, tried, r.chain, S(s), C(c), Grey(old(visited)), old(visited.Keys));
        return FoundLoop(r.chain, S(s));
      }
      if r.Fine? {
        MarkBothDone(s, c);
      }
    }

    /** Choice c takes its place in order after symbol s, through which it was entered. */
    method MarkBothDone(s: nat, c: nat)
      requires Pending(g, visited, tried, order, c, s) && S(s) in Grey(visited) && s in g.choice && g.choice[s] == c
      requires forall b :: Edge(g, S(s), b) ==> b in order
      modifies this
      ensures Valid() && visited == old(visited)[S(s) := 2] && C(c) in order && tried == old(tried)
    {
      AppendTopological(g, tried, order, S(s));
      AppendTopological(g, tried, order + [S(s)], C(c));
      visited := visited[S(s) := 2];
      order := order + [S(s)] + [C(c)];
    }

    /** With a symbol to skip, the choice is marked 2 but has yet to take its place in order, after the symbol it
        was entered through. */
    method CheckChoice(c: nat, skip: Option<nat>, ghost w: set<Item>) returns (r: Outcome)
      requires Valid() && c in g.syms
      requires skip.Some? ==> skip.value in SymsIn(g, c) && S(skip.value) in Grey(visited)
      requires Closed(g, w) && C(c) in w
      modifies this
      ensures Reports(g, tried, r, C(c), Grey(old(visited)), old(visited.Keys))
      ensures r.Partial? && |r.chain| == 2 && r.chain[0].S? ==> Some(r.chain[0].s) != skip
      ensures r.Fine? && skip.None? ==> Valid() && Extends(old(visited), visited, w) && C(c) in visited && visited[C(c)] == 2
      ensures r.Fine? && skip.Some? ==> Pending(g, visited, tried, order, c, skip.value) && Extends(old(visited), visited, w) && forall i :: i in old(order) ==> i in order
      ensures Tries(old(visited), old(tried), tried, None)
      ensures Spares(old(tried), tried, FirstOther(SymsIn(g, c), skip))
      decreases White(g, visited), 2
    {
      if C(c) in visited {
        if visited[C(c)] == 2 {
          assert forall t :: t in SymsIn(g, c) ==> Edge(g, C(c), S(t));
          DoneSuccessors(g, tried, order, C(c));
          return Fine;
        }
        return Partial([C(c)]);
      }
      r := VisitChoice(c, skip, w);
    }

    method VisitChoice(c: nat, skip: Option<nat>, ghost w: set<Item>) returns (r: Outcome)
      requires Valid() && c in g.syms && C(c) !in visited
      requires skip.Some? ==> skip.value in SymsIn(g, c) && S(skip.value) in Grey(visited)
      requires Closed(g, w) && C(c) in w
      modifies this
      ensures Reports(g, tried, r, C(c), Grey(old(visited)), old(visited.Keys))
      ensures r.Partial? && |r.chain| == 2 && r.chain[0].S? ==> Some(r.chain[0].s) != skip
      ensures r.Fine? && skip.None? ==> Valid() && Extends(old(visited), visited, w) && C(c) in visited && visited[C(c)] == 2
      ensures r.Fine? && skip.Some? ==> Pending(g, visited, tried, order, c, skip.value) && Extends(old(visited), visited, w) && forall i :: i in old(order) ==> i in order
      ensures Tries(old(visited), old(tried), tried, None)
      ensures Spares(old(tried), tried, FirstOther(SymsIn(g, c), skip))
      decreases White(g, visited), 1
    {
      MarkGrey(g, visited, C(c));
      visited := visited[C(c) := 1];
      r := VisitSyms(c, skip, w);
      if r.Fine? {
        ExtendsMarked(old(visited), visited, C(c), w);
        LeaveChoice(c, skip);
      }
    }

    method LeaveChoice(c: nat, skip: Option<nat>)
      requires Valid() && C(c) in Grey(visited)
      requires skip.Some? ==> skip.value in SymsIn(g, c) && S(skip.value) in Grey(visited)
      requires forall t :: t in SymsIn(g, c) && Some(t) != skip ==> S(t) in order
      modifies this
      ensures visited == old(visited)[C(c) := 2] && tried == old(tried)
      ensures if skip.None? then Valid() else Pending(g, visited, tried, order, c, skip.value) && order == old(order)
    {
      if skip.None? {
        MarkDone(C(c));
      } else {
        visited := visited[C(c) := 2];
      }
    }

    method VisitSyms(c: nat, skip: Option<nat>, ghost w: set<Item>) returns (r: Outcome)
      requires Valid() && c in g.syms && C(c) in Grey(visited)
      requires Closed(g, w) && C(c) in w
      modifies this
      ensures Reports(g, tried, r, C(c), Grey(old(visited)) - {C(c)}, old(visited.Keys) - {C(c)})
      ensures r.Partial? && |r.chain| == 2 && r.chain[0].S? ==> Some(r.chain[0].s) != skip
      ensures r.Fine? ==> Valid() && Extends(old(visited), visited, w) && forall t :: t in SymsIn(g, c) && Some(t) != skip ==> S(t) in order
      ensures Tries(old(visited), old(tried), tried, None)
      ensures Spares(old(tried), tried, FirstOther(SymsIn(g, c), skip))
      decreases White(g, visited), 4
    {
      var syms := SymsIn(g, c);
      ghost var first, begun := FirstOther(syms, skip), false;
      for k := 0 to |syms|
        invariant Valid() && Extends(old(visited), visited, w) && Tries(old(visited), old(tried), tried, None)
        invariant forall j :: 0 <= j < k && Some(syms[j]) != skip ==> S(syms[j]) in order
        invariant Spares(old(tried), tried, first)
        invariant !begun ==> forall j :: 0 <= j < k ==> Some(syms[j]) == skip
        invariant begun && first.Some? ==> S(first.value) in visited
      {
        if Some(syms[k]) != skip {
          SameGrey(old(visited), visited, w);
          if !begun { FirstAt(syms, skip, k); }
          begun := true;
          r := VisitSym(c, syms[k], w);
          if !r.Fine? {
            return;
          }
        }
      }
      r := Fine;
    }

    /** Visits symbol s of choice c, with the choice protected from being entered from it. */
    method VisitSym(c: nat, s: nat, ghost w: set<Item>) returns (r: Outcome)
      requires Valid() && c in g.syms && C(c) in Grey(visited) && s in SymsIn(g, c)
      requires Closed(g, w) && C(c) in w
      modifies this
      ensures Reports(g, tried, r, C(c), Grey(old(visited)) - {C(c)}, old(visited.Keys) - {C(c)})
      ensures r.Partial? && |r.chain| == 2 ==> r.chain[0] == S(s)
      ensures r.Fine? ==> Valid() && Extends(old(visited), visited, w) && S(s) in order
      ensures Tries(old(visited), old(tried), tried, None) && Spares(old(tried), tried, Some(s))
      decreases White(g, visited), 3
    {
      assert Edge(g, C(c), S(s));
      r := CheckSym(s, true, w);
      if r.Partial? {
        FoundLoopReports(g, tried, r.chain, C(c), S(s), Grey(old(visited)), old(visited.Keys));
        r := FoundLoop(r.chain, C(c));
      }
    }

    /** The search from the first n symbols has ended without a loop. */
    ghost predicate Swept(n: nat)
      reads this
    {
      && Valid() && Grey(visited) == {}
      && (forall t: nat :: t < n ==> S(t) in order)
      && (n == 0 ==> visited == map[] && tried == {}) && FirstSpared(g, tried)
      && (n > 0 ==> FirstSeen(g, visited))
    }

    method SweepFrom(s: nat, ghost w: set<Item>) returns (r: Outcome)
      requires Swept(s) && s < g.nsyms && Closed(g, w) && S(s) in w
      modifies this
      ensures r.Fine? ==> Swept(s + 1) && Extends(old(visited), visited, w) && old(tried) <= tried
      ensures r.Fine? && s in g.choice && S(s) !in old(visited) ==> s in tried
      ensures !r.Fine? ==> r.Raised? && IsLoop(g, tried, r.loop) && Distinct(r.loop)
      ensures FirstSpared(g, tried)
    {
      r := CheckSym(s, false, w);
      if r.Fine? {
        SameGrey(old(visited), visited, w);
        if s == 0 { FirstIsSeen(g, visited, tried, order); }
      }
    }

    /** Runs the search from every symbol. */
    method CheckAll() returns (r: Outcome)
      requires Valid() && visited == map[] && tried == {}
      modifies this
      ensures r.Fine? <==> LoopFree(g, tried)
      ensures !r.Fine? ==> r.Raised? && IsLoop(g, g.choice.Keys, r.loop) && Distinct(r.loop)
      ensures LoopFree(g, g.choice.Keys) ==> r.Fine?
      ensures r.Fine? ==> Topological(g, tried, order) && forall s: nat :: s < g.nsyms ==> S(s) in order
      ensures r.Fine? ==> EntrancesSole(g, tried)
      ensures FirstSpared(g, tried)
    {
      for s := 0 to g.nsyms
        invariant Swept(s) && FromEarlier(g, visited, s) && EntrancesTried(g, tried, s)
      {
        ghost var was, before := visited, tried;
        ReachClosed(g, S(s));
        r := SweepFrom(s, Reach(g, S(s)));
        if r.Raised? {
          MoreTried(g, tried, g.choice.Keys, r.loop);
          return;
        }
        EntrancesStep(g, was, before, visited, tried, s);
      }
      r := Fine;
      TopologicalIsLoopFree(g, tried, order);
      SoleEntrances(g, tried, order);
    }
  }

  /** The first symbol of the choice of symbol 0, other than that. */
  function FirstAfterZero(g: Graph): Option<nat> {
    if 0 in g.choice && DependentsIn(g, 0) == [] then FirstOther(SymsIn(g, g.choice[0]), Some(0)) else None
  }

  /** If nothing depends on symbol 0, the choice is entered from it, and the next symbol is visited from the choice. */
  ghost predicate FirstSpared(g: Graph, tried: set<nat>) {
    FirstAfterZero(g).Some? ==> FirstAfterZero(g).value !in tried
  }

  ghost predicate FirstSeen(g: Graph, visited: map<Item, nat>) {
    FirstAfterZero(g).Some? ==> S(FirstAfterZero(g).value) in visited
  }

  lemma FirstIsSeen(g: Graph, visited: map<Item, nat>, tried: set<nat>, order: seq<Item>)
    requires Sound(g, visited, tried, order) && (0 in g.choice ==> C(g.choice[0]) in order)
    ensures FirstSeen(g, visited)
  {
    if FirstAfterZero(g).Some? {
      DoneSuccessors(g, tried, order, C(g.choice[0]));
      assert Leads(g, tried, C(g.choice[0]), S(FirstAfterZero(g).value));
    }
  }

  ghost predicate FromEarlier(g: Graph, visited: map<Item, nat>, n: nat) {
    visited.Keys <= ReachOfFirst(g, n)
  }

  ghost predicate EntrancesTried(g: Graph, tried: set<nat>, n: nat) {
    forall m: nat :: m < n && m in g.choice && Unreached(g, m) ==> m in tried
  }

  lemma EntrancesStep(g: Graph, was: map<Item, nat>, before: set<nat>, visited: map<Item, nat>, tried: set<nat>, s: nat)
    requires FromEarlier(g, was, s) && EntrancesTried(g, before, s) && before <= tried
    requires Extends(was, visited, Reach(g, S(s))) && (s in g.choice && S(s) !in was ==> s in tried)
    ensures FromEarlier(g, visited, s + 1) && EntrancesTried(g, tried, s + 1)
  {
  }

  /** A choice has been looked at from its lowest symbol alone, if no symbol before that one leads to it. */
  ghost predicate EntrancesSole(g: Graph, tried: set<nat>) {
    forall m: nat :: m in g.choice && Unreached(g, m) ==> SoleEntrance(g, tried, m)
  }

  lemma SoleEntrances(g: Graph, tried: set<nat>, order: seq<Item>)
    requires GraphOk(g) && Topological(g, tried, order) && forall s: nat :: s < g.nsyms ==> S(s) in order
    requires EntrancesTried(g, tried, g.nsyms)
    ensures EntrancesSole(g, tried)
  {
    forall s | s in g.choice ensures s < g.nsyms {
      assert s in SymsIn(g, g.choice[s]);
    }
    forall m: nat | m in g.choice && Unreached(g, m) ensures SoleEntrance(g, tried, m) {
      forall t | t in tried && t in g.choice && g.choice[t] == g.choice[m] ensures t == m {
        OneEntrance(g, tried, order, t, m);
      }
    }
  }

  lemma DoneSuccessors(g: Graph, tried: set<nat>, order: seq<Item>, a: Item)
    requires Topological(g, tried, order) && a in order
    ensures forall b :: Leads(g, tried, a, b) ==> b in order
  {
    var i :| 0 <= i < |order| && order[i] == a;
  }

  lemma AppendTopological(g: Graph, tried: set<nat>, order: seq<Item>, a: Item)
    requires Topological(g, tried, order) && forall b :: Leads(g, tried, a, b) ==> b in order
    ensures Topological(g, tried, order + [a])
  {
    var order' := order + [a];
    forall i, b | 0 <= i < |order'| && Leads(g, tried, order'[i], b) ensures b in order'[..i] {
      assert order'[..i] == order[..i];
    }
  }

  lemma TryMore(g: Graph, tried: set<nat>, order: seq<Item>, s: nat)
    requires Topological(g, tried, order) && S(s) !in order
    ensures Topological(g, tried + {s}, order)
  {
    forall i, b | 0 <= i < |order| && Leads(g, tried + {s}, order[i], b) ensures b in order[..i] {
      assert order[i] in order;
      assert Leads(g, tried, order[i], b);
    }
  }

  lemma MoreTried(g: Graph, tried: set<nat>, more: set<nat>, p: seq<Item>)
    requires IsLoop(g, tried, p) && forall s :: s in tried && s in g.choice ==> s in more
    ensures IsLoop(g, more, p)
  {
    forall i | 0 <= i < |p| ensures Step(g, more, p[i], p[Prev(p, i)]) {
      assert Step(g, tried, p[i], p[Prev(p, i)]);
    }
  }

  /** A search without loops looks at each choice from one of its symbols at most: loops that enter the choice through
      another one are not seen. */
  lemma OneEntrance(g: Graph, tried: set<nat>, order: seq<Item>, s: nat, t: nat)
    requires Topological(g, tried, order) && GraphOk(g) && S(s) in order && S(t) in order
    requires s in tried && t in tried && s in g.choice && t in g.choice && g.choice[s] == g.choice[t]
    ensures s == t
  {
    if s != t {
      LeadsDown(g, tried, order, S(s), S(t));
      LeadsDown(g, tried, order, S(t), S(s));
    }
  }

  /** A choice of symbols 0, 1 and 2 where 1 depends on 2. */
  const SIBLINGS: Graph := Graph(3, map[2 := [S(1)]], map[0 := 0, 1 := 0, 2 := 0], map[0 := [0, 1, 2]])

  lemma SiblingSteps(tried: set<nat>, p: seq<Item>)
    requires 1 !in tried && Circles(SIBLINGS, tried, p)
    ensures forall i :: 0 <= i < |p| ==> if p[i].S? then p[Prev(p, i)] == C(0) else p[Prev(p, i)].S?
  {
    forall i | 0 <= i < |p| ensures p[i] != S(1) {
      assert Step(SIBLINGS, tried, p[i], p[Prev(p, i)]);
    }
  }

  lemma SiblingsNeedOne(tried: set<nat>)
    requires 1 !in tried
    ensures LoopFree(SIBLINGS, tried)
  {
    forall p: seq<Item> ensures !IsLoop(SIBLINGS, tried, p) {
      if Circles(SIBLINGS, tried, p) {
        SiblingSteps(tried, p);
        var i := if p[0].C? then 0 else Prev(p, 0);
        assert p[Prev(p, Prev(p, i))] == C(0) == p[i];
        assert TurnsBack(SIBLINGS, p[i], p[Prev(p, i)], p[Prev(p, Prev(p, i))]);
      }
    }
  }

  lemma SiblingsLoop(p: seq<Item>)
    requires p == [C(0), S(1), S(2)]
    ensures IsLoop(SIBLINGS, SIBLINGS.choice.Keys, p) && Distinct(p)
  {
    assert Edge(SIBLINGS, p[2], p[1]) && Enters(SIBLINGS, p[1], p[0]) && Edge(SIBLINGS, p[0], p[2]);
  }

  /** A loop that loop detection accepts. */
  method LoopMissed() returns (p: seq<Item>, r: Outcome)
    ensures IsLoop(SIBLINGS, SIBLINGS.choice.Keys, p) && Distinct(p)
    ensures GraphOk(SIBLINGS) && r.Fine?
  {
    var checker := new Checker(SIBLINGS);
    r := checker.CheckAll();
    assert SymsIn(SIBLINGS, 0) == [0, 1, 2];
    FirstAt([0, 1, 2], Some(0), 1);
    SiblingsNeedOne(checker.tried);
    p := [C(0), S(1), S(2)];
    SiblingsLoop(p);
  }
}
