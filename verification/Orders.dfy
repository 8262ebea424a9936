/** Finite relations without cycles can be ranked. */
module Orders {

  /** The place that place i of a cyclic sequence steps to. */
  function Prev<T>(p: seq<T>, i: nat): (j: nat)
    requires i < |p|
    ensures j < |p|
  {
    if i == 0 then |p| - 1 else i - 1
  }

  function Next<T>(p: seq<T>, i: nat): (j: nat)
    requires i < |p|
    ensures j < |p| && Prev(p, j) == i
  {
    if i == |p| - 1 then 0 else i + 1
  }

  /** A sequence that nowhere falls on the way round is constant. */
  lemma {:induction false} LevelAround(h: seq<int>, k: nat)
    requires k < |h| && forall i :: 0 <= i < |h| ==> h[i] <= h[Prev(h, i)]
    ensures h[k] == h[0]
  {
    LevelDown(h, k);
    LevelUp(h, k);
    assert h[0] <= h[Prev(h, 0)];
  }

  lemma {:induction false} LevelDown(h: seq<int>, k: nat)
    requires k < |h| && forall i :: 0 <= i < |h| ==> h[i] <= h[Prev(h, i)]
    ensures h[k] <= h[0]
  {
    if k > 0 {
      assert h[k] <= h[Prev(h, k)];
      LevelDown(h, k - 1);
    }
  }

  lemma {:induction false} LevelUp(h: seq<int>, k: nat)
    requires k < |h| && forall i :: 0 <= i < |h| ==> h[i] <= h[Prev(h, i)]
    ensures h[|h| - 1] <= h[k]
    decreases |h| - k
  {
    if k < |h| - 1 {
      assert h[k + 1] <= h[Prev(h, k + 1)];
      LevelUp(h, k + 1);
    }
  }

  lemma NotAlwaysRising(h: seq<int>)
    requires |h| > 0
    ensures exists k :: 0 <= k < |h| && h[Prev(h, k)] <= h[k]
  {
    if forall i :: 0 <= i < |h| ==> h[i] <= h[Prev(h, i)] {
      LevelAround(h, |h| - 1);
      assert h[Prev(h, 0)] <= h[0];
    }
  }

  ghost predicate IsCycle<T>(e: set<(T, T)>, p: seq<T>) {
    |p| > 0 && forall i :: 0 <= i < |p| ==> (p[i], p[Prev(p, i)]) in e
  }

  ghost predicate Acyclic<T(!new)>(e: set<(T, T)>) {
    forall p :: !IsCycle(e, p)
  }

  lemma TailIsCycle<T>(e: set<(T, T)>, p: seq<T>, k: nat)
    requires k < |p| && (p[k], p[|p| - 1]) in e && forall i :: 0 < i < |p| ==> (p[i], p[i - 1]) in e
    ensures IsCycle(e, p[k..])
  {
  }

  /** Following the relation backwards ends at an element that nothing in v leads to. */
  lemma FindSource<T(!new)>(v: set<T>, e: set<(T, T)>, p: seq<T>) returns (x: T)
    requires Acyclic(e) && |p| > 0 && forall i :: 0 <= i < |p| ==> p[i] in v
    requires forall i :: 0 < i < |p| ==> (p[i], p[i - 1]) in e
    ensures x in v && forall a :: a in v ==> (a, x) !in e
    decreases v - (set a | a in p)
  {
    x := p[|p| - 1];
    if a :| a in v && (a, x) in e {
      if a in p {
        var k :| 0 <= k < |p| && p[k] == a;
        TailIsCycle(e, p, k);
      } else {
        assert a in (v - (set b | b in p)) && a !in (v - (set b | b in p + [a]));
        x := FindSource(v, e, p + [a]);
      }
    }
  }

  lemma {:induction false} Ranks<T(!new)>(v: set<T>, e: set<(T, T)>) returns (r: map<T, nat>)
    requires Acyclic(e)
    ensures r.Keys == v && forall a, b :: a in v && b in v && (a, b) in e ==> r[a] < r[b]
    decreases |v|
  {
    if v == {} {
      return map[];
    }
    var a :| a in v;
    var x := FindSource(v, e, [a]);
    var rest := Ranks(v - {x}, e);
    r := map b | b in v :: if b == x then 0 else rest[b] + 1;
  }

  /** One more than the highest rank among the elements of s. */
  ghost function Top<T>(r: map<T, nat>, s: set<T>): (t: nat)
    requires s <= r.Keys
    ensures forall a :: a in s ==> r[a] < t
    ensures t == 0 || exists a :: a in s && t == r[a] + 1
  {
    if s == {} then 0
    else
      var a :| a in s;
      var t := Top(r, s - {a});
      if t <= r[a] then r[a] + 1 else t
  }
}
