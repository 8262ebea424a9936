/** What stands in a full configuration, line by line, and what the walk over the menu tree meets. */
module ConfigLaws {
  import opened KconfigLang
  import opened Evaluation
  import opened MenuTree
  import opened SaveLoad
  import opened MenuWalk

  // Lines

  /** A symbol is written where the walk first reaches it, and headings and ends of menus if they are visible. */
  ghost predicate Says(cfg: Config, u: User, walk: seq<Stop>, k: nat)
    requires Sane(cfg, u) && k < |walk|
  {
    match walk[k]
    case SymStop(s) => SymStop(s) !in walk[..k] && WriteOf(cfg, u, s)
    case Heading(_, dep, visible) => Ev(cfg, u, dep) != 0 && Ev(cfg, u, visible) != 0
    case EndOf(_, dep, visible) => Ev(cfg, u, dep) != 0 && Ev(cfg, u, visible) != 0
  }

  /** The last thing said before stop k is the end of a menu. */
  ghost predicate AfterEnd(cfg: Config, u: User, walk: seq<Stop>, k: nat)
    requires Sane(cfg, u) && k <= |walk|
  {
    exists j :: 0 <= j < k && EndsAt(cfg, u, walk, j, k)
  }

  ghost predicate EndsAt(cfg: Config, u: User, walk: seq<Stop>, j: nat, k: nat)
    requires Sane(cfg, u) && j < k <= |walk|
  {
    walk[j].EndOf? && Says(cfg, u, walk, j) && forall i :: j < i < k ==> !Says(cfg, u, walk, i)
  }

  /** A blank line separates a symbol from the end of a menu before it, and headings stand in a box. */
  ghost function Block(cfg: Config, u: User, walk: seq<Stop>, k: nat): seq<string>
    requires Sane(cfg, u) && k < |walk|
  {
    if !Says(cfg, u, walk, k) then []
    else match walk[k]
      case SymStop(s) => (if AfterEnd(cfg, u, walk, k) then [""] else []) + [ConfigString(cfg, u, s).value]
      case Heading(title, _, _) => ["", "#", "# " + title, "#"]
      case EndOf(title, _, _) => ["# end of " + title]
  }

  ghost function Blocks(cfg: Config, u: User, walk: seq<Stop>, k: nat): seq<string>
    requires Sane(cfg, u) && k <= |walk|
    decreases |walk| - k
  {
    if k == |walk| then [] else Block(cfg, u, walk, k) + Blocks(cfg, u, walk, k + 1)
  }

  lemma AfterEndStep(cfg: Config, u: User, walk: seq<Stop>, k: nat)
    requires Sane(cfg, u) && k < |walk|
    ensures AfterEnd(cfg, u, walk, k + 1) <==> if Says(cfg, u, walk, k) then walk[k].EndOf? else AfterEnd(cfg, u, walk, k)
  {
    if Says(cfg, u, walk, k) {
      if walk[k].EndOf? { assert EndsAt(cfg, u, walk, k, k + 1); }
    } else {
      if AfterEnd(cfg, u, walk, k) {
        var j :| 0 <= j < k && EndsAt(cfg, u, walk, j, k);
        assert EndsAt(cfg, u, walk, j, k + 1);
      }
      if AfterEnd(cfg, u, walk, k + 1) {
        var j :| 0 <= j < k + 1 && EndsAt(cfg, u, walk, j, k + 1);
        assert j < k && EndsAt(cfg, u, walk, j, k);
      }
    }
  }

  /** visited and afterEnd are what the walk up to stop k leaves. */
  ghost predicate UpTo(cfg: Config, u: User, walk: seq<Stop>, k: nat, visited: set<nat>, afterEnd: bool)
    requires Sane(cfg, u) && k <= |walk|
  {
    (forall s: nat :: s in visited <==> SymStop(s) in walk[..k]) && (afterEnd <==> AfterEnd(cfg, u, walk, k))
  }

  lemma UpToNext(cfg: Config, u: User, walk: seq<Stop>, k: nat, visited: set<nat>, afterEnd: bool)
    requires Sane(cfg, u) && k < |walk| && UpTo(cfg, u, walk, k, visited, afterEnd)
    ensures var visited' := if walk[k].SymStop? then visited + {walk[k].s} else visited;
            UpTo(cfg, u, walk, k + 1, visited', if Says(cfg, u, walk, k) then walk[k].EndOf? else afterEnd)
  {
    AfterEndStep(cfg, u, walk, k);
    assert walk[..k + 1] == walk[..k] + [walk[k]];
  }

  lemma {:induction false} LinesAre(cfg: Config, u: User, walk: seq<Stop>, k: nat, visited: set<nat>, afterEnd: bool)
    requires Sane(cfg, u) && k <= |walk| && UpTo(cfg, u, walk, k, visited, afterEnd)
    ensures ConfigLines(cfg, u, walk[k..], visited, afterEnd) == Blocks(cfg, u, walk, k)
    decreases |walk| - k
  {
    if k < |walk| {
      UpToNext(cfg, u, walk, k, visited, afterEnd);
      var visited' := if walk[k].SymStop? then visited + {walk[k].s} else visited;
      assert walk[k..][0] == walk[k] && walk[k..][1..] == walk[k + 1..];
      assert walk[k].SymStop? && walk[k].s in visited ==> visited' == visited;
      LinesAre(cfg, u, walk, k + 1, visited', if Says(cfg, u, walk, k) then walk[k].EndOf? else afterEnd);
    }
  }

  /** A full configuration is what the stops of the walk say, one after the other. */
  lemma ConfigLaw(cfg: Config, u: User, walk: seq<Stop>)
    requires Sane(cfg, u)
    ensures ConfigLines(cfg, u, walk, {}, false) == Blocks(cfg, u, walk, 0)
  {
    assert walk[0..] == walk && walk[..0] == [];
    LinesAre(cfg, u, walk, 0, {}, false);
  }

  // Reading

  predicate IsEnd(end: string) {
    end == "\n" || end == "\r" || end == "\r\n"
  }

  /** Lines with their ends, and an unfinished last line. */
  function Text(lines: seq<string>, ends: seq<string>, last: string): string
    requires |lines| == |ends|
  {
    if lines == [] then last else lines[0] + (ends[0] + Text(lines[1..], ends[1..], last))
  }

  predicate StartsWith(s: string, c: char) {
    s != "" && s[0] == c
  }

  /** No \r that ends a line has a \n behind it: together they would be one end. */
  predicate EndsApart(lines: seq<string>, ends: seq<string>, last: string)
    requires |lines| == |ends|
  {
    lines == [] ||
    (!(ends[0] == "\r" && StartsWith(Text(lines[1..], ends[1..], last), '\n')) && EndsApart(lines[1..], ends[1..], last))
  }

  predicate AllLines(lines: seq<string>, ends: seq<string>)
    requires |lines| == |ends|
  {
    lines == [] || (OneLine(lines[0]) && IsEnd(ends[0]) && AllLines(lines[1..], ends[1..]))
  }

  /** Whatever their ends, lines are read back as they are, and so is an unfinished line at the end unless it is empty. */
  lemma {:induction false} LinesRead(lines: seq<string>, ends: seq<string>, last: string)
    requires |lines| == |ends| && OneLine(last) && AllLines(lines, ends) && EndsApart(lines, ends, last)
    ensures SplitLines(Text(lines, ends, last)) == lines + if last == "" then [] else [last]
    decreases |lines|
  {
    if lines == [] {
      LastRead(last);
    } else {
      LinesRead(lines[1..], ends[1..], last);
      LineRead(lines[0], ends[0], Text(lines[1..], ends[1..], last));
      Consed(lines, if last == "" then [] else [last]);
    }
  }

  lemma Consed(lines: seq<string>, more: seq<string>)
    requires lines != []
    ensures [lines[0]] + (lines[1..] + more) == lines + more
  {
  }

  lemma LastRead(last: string)
    requires OneLine(last)
    ensures SplitLines(last) == if last == "" then [] else [last]
  {
    assert FindBreak(last, 0) == |last|;
  }

  lemma LineRead(line: string, end: string, rest: string)
    requires OneLine(line) && IsEnd(end) && !(end == "\r" && StartsWith(rest, '\n'))
    ensures SplitLines(line + (end + rest)) == [line] + SplitLines(rest)
  {
    var s, n := line + (end + rest), |line|;
    LineParts(line, end, rest);
    FindBreakAt(s, 0, n);
  }

  lemma LineParts(line: string, end: string, rest: string)
    requires IsEnd(end)
    ensures var s, n := line + (end + rest), |line|;
            && s[..n] == line && s[n] == end[0] && s[n + |end|..] == rest
            && (forall k :: 0 <= k < n ==> s[k] == line[k])
            && (if |end| == 2 then s[n + 1] == end[1] else rest != "" ==> s[n + 1] == rest[0])
  {
  }

  // The walk

  /** What f gives for each element, one after the other. */
  function Each<T, U>(f: T -> seq<U>, xs: seq<T>): seq<U> {
    if xs == [] then [] else f(xs[0]) + Each(f, xs[1..])
  }

  lemma Reassociate<T>(a: seq<T>, b: seq<T>, c: seq<T>)
    ensures (a + b) + c == a + (b + c)
  {
  }

  lemma {:induction false} EachConcat<T, U>(f: T -> seq<U>, a: seq<T>, b: seq<T>)
    ensures Each(f, a + b) == Each(f, a) + Each(f, b)
  {
    if a == [] {
      assert a + b == b;
    } else {
      assert (a + b)[0] == a[0] && (a + b)[1..] == a[1..] + b;
      EachConcat(f, a[1..], b);
      Reassociate(f(a[0]), Each(f, a[1..]), Each(f, b));
    }
  }

  lemma EachOne<T, U>(f: T -> seq<U>, x: T)
    ensures Each(f, [x]) == f(x)
  {
    assert [x][1..] == [];
  }

  function SymMet(stop: Stop): seq<nat> {
    if stop.SymStop? then [stop.s] else []
  }

  function HeadingMet(stop: Stop): seq<Stop> {
    if stop.Heading? then [stop] else []
  }

  function SymOf(e: Entry): seq<nat> {
    if e.node.item.SymItem? then [e.node.item.s] else []
  }

  /** The heading of a menu or comment; only menus have a 'visible if'. */
  function HeadingOf(titles: Titles, e: Entry): seq<Stop> {
    if e.node.item.Menu? then [Heading(titles(e.node), e.attrs.dep, e.attrs.visibility)]
    else if e.node.item.Comment? then [Heading(titles(e.node), e.attrs.dep, Y)]
    else []
  }

  /** At this node f picks from the stops what g picks from the entry. */
  predicate MatchesAt<T(==)>(titles: Titles, f: Stop -> seq<T>, g: Entry -> seq<T>, n: MenuNode, a: Attrs) {
    Each(f, Entering(n, a, titles)) == g(Entry(n, a)) && Each(f, Leaving(n, a, titles)) == []
  }

  lemma Each3<T, U>(f: T -> seq<U>, a: seq<T>, b: seq<T>, c: seq<T>)
    ensures Each(f, a + (b + c)) == Each(f, a) + (Each(f, b) + Each(f, c))
  {
    EachConcat(f, a, b + c);
    EachConcat(f, b, c);
  }

  lemma StopsPicked<T>(t: Tree, titles: Titles, f: Stop -> seq<T>)
    requires t.Link? && Each(f, Leaving(t.node, t.attrs, titles)) == []
    ensures Each(f, Stops(t, titles)) ==
            Each(f, Entering(t.node, t.attrs, titles)) + (Each(f, Stops(t.kids, titles)) + Each(f, Stops(t.rest, titles)))
  {
    var leave := LeavingIf(t, titles);
    assert Each(f, leave) == [];
    Each3(f, Entering(t.node, t.attrs, titles), Stops(t.kids, titles), leave + Stops(t.rest, titles));
    EachConcat(f, leave, Stops(t.rest, titles));
    assert [] + Each(f, Stops(t.rest, titles)) == Each(f, Stops(t.rest, titles));
  }

  lemma EntriesPicked<T>(t: Tree, g: Entry -> seq<T>)
    requires t.Link?
    ensures Each(g, Preorder(t)) == g(Entry(t.node, t.attrs)) + (Each(g, Preorder(t.kids)) + Each(g, Preorder(t.rest)))
  {
    Reassociate([Entry(t.node, t.attrs)], Preorder(t.kids), Preorder(t.rest));
    Each3(g, [Entry(t.node, t.attrs)], Preorder(t.kids), Preorder(t.rest));
    EachOne(g, Entry(t.node, t.attrs));
  }

  /** Then among all stops, f picks exactly what g picks among the entries. */
  lemma {:induction false} WalkPicks<T>(t: Tree, titles: Titles, f: Stop -> seq<T>, g: Entry -> seq<T>)
    requires forall n: MenuNode, a: Attrs :: MatchesAt(titles, f, g, n, a)
    ensures Each(f, Stops(t, titles)) == Each(g, Preorder(t))
  {
    if t.Link? {
      WalkPicks(t.kids, titles, f, g);
      WalkPicks(t.rest, titles, f, g);
      assert MatchesAt(titles, f, g, t.node, t.attrs);
      StopsPicked(t, titles, f);
      EntriesPicked(t, g);
    }
  }

  lemma PicksMatch(titles: Titles, n: MenuNode, a: Attrs)
    ensures MatchesAt(titles, SymMet, SymOf, n, a) && MatchesAt(titles, HeadingMet, e => HeadingOf(titles, e), n, a)
  {
    var enter, leave := Entering(n, a, titles), Leaving(n, a, titles);
    if enter != [] { EachOne(SymMet, enter[0]); EachOne(HeadingMet, enter[0]); }
    if leave != [] { EachOne(SymMet, leave[0]); EachOne(HeadingMet, leave[0]); }
  }

  /** The walk meets the symbols of the tree, and the headings of its menus and comments, in definition order. */
  lemma WalkMeets(t: Tree, titles: Titles)
    ensures Each(SymMet, Stops(t, titles)) == Each(SymOf, Preorder(t))
    ensures Each(HeadingMet, Stops(t, titles)) == Each(e => HeadingOf(titles, e), Preorder(t))
  {
    var headings := e => HeadingOf(titles, e);
    forall n: MenuNode, a: Attrs
      ensures MatchesAt(titles, SymMet, SymOf, n, a) && MatchesAt(titles, HeadingMet, headings, n, a)
    {
      PicksMatch(titles, n, a);
    }
    WalkPicks(t, titles, SymMet, SymOf);
    WalkPicks(t, titles, HeadingMet, headings);
  }
}
