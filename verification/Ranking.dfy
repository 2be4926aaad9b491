/**
 Ranked sets of ids. Every ordering decision of the ordering layer is the same one: a rank first,
 then the smallest id. The selected parent and the best tip are the first element of a set ranked by
 descending blue score; the coloring candidates and the fresh sets are such sets, sorted.
 */
module Ranking {

  /** A 32-byte digest, read as its big-endian value: byte order and numeric order coincide. */
  type Hash = nat

  predicate Before(a: Hash, b: Hash, rank: map<Hash, int>)
    requires a in rank && b in rank
  {
    rank[a] < rank[b] || (rank[a] == rank[b] && a < b)
  }

  ghost predicate IsFirst(m: Hash, s: set<Hash>, rank: map<Hash, int>)
    requires s <= rank.Keys
  {
    m in s && forall x | x in s && x != m :: Before(m, x, rank)
  }

  lemma {:induction false} FirstExists(s: set<Hash>, rank: map<Hash, int>)
    requires s != {} && s <= rank.Keys
    ensures exists m :: IsFirst(m, s, rank)
    decreases |s|
  {
    var x :| x in s;
    if s == {x} {
      assert IsFirst(x, s, rank);
    } else {
      var rest := s - {x};
      FirstExists(rest, rank);
      var m :| IsFirst(m, rest, rank);
      var best := if Before(x, m, rank) then x else m;
      assert forall y | y in s && y != best :: y == x || y in rest;
      assert IsFirst(best, s, rank);
    }
  }

  ghost function First(s: set<Hash>, rank: map<Hash, int>): (m: Hash)
    requires s != {} && s <= rank.Keys
    ensures IsFirst(m, s, rank)
  {
    FirstExists(s, rank);
    var m :| IsFirst(m, s, rank);
    m
  }

  /** The first element is determined by the ranks inside the set alone. */
  lemma FirstUnique(m: Hash, s: set<Hash>, rank: map<Hash, int>, rank': map<Hash, int>)
    requires s <= rank.Keys && s <= rank'.Keys
    requires forall x | x in s :: rank[x] == rank'[x]
    requires IsFirst(m, s, rank')
    ensures m == First(s, rank)
  {
    var f := First(s, rank);
    assert m in s && f in s;
  }

  ghost predicate Distinct(s: seq<Hash>) {
    forall i, j | 0 <= i < j < |s| :: s[i] != s[j]
  }

  ghost predicate Ascending(s: seq<Hash>, rank: map<Hash, int>) {
    (forall x | x in s :: x in rank) && forall i, j | 0 <= i < j < |s| :: Before(s[i], s[j], rank)
  }

  ghost function Elements(s: seq<Hash>): set<Hash> {
    set x | x in s
  }

  /** The listing of a set by ascending rank, ties by the smallest id. */
  ghost function Sorted(s: set<Hash>, rank: map<Hash, int>): (r: seq<Hash>)
    requires s <= rank.Keys
    ensures Elements(r) == s
    decreases |s|
  {
    if s == {} then [] else
      var m := First(s, rank);
      ElementsAppend([m], Sorted(s - {m}, rank));
      [m] + Sorted(s - {m}, rank)
  }

  lemma {:induction false} SortedAscends(s: set<Hash>, rank: map<Hash, int>)
    requires s <= rank.Keys
    ensures Ascending(Sorted(s, rank), rank) && Distinct(Sorted(s, rank))
    decreases |s|
  {
    if s != {} {
      var m := First(s, rank);
      SortedAscends(s - {m}, rank);
      AscendingPrepend(m, Sorted(s - {m}, rank), rank);
    }
  }

  lemma AscendingPrepend(m: Hash, r: seq<Hash>, rank: map<Hash, int>)
    requires Ascending(r, rank) && m in rank && IsFirst(m, Elements(r) + {m}, rank) && m !in r
    ensures Ascending([m] + r, rank) && Distinct([m] + r)
  {
    forall i, j | 0 <= i < j < |[m] + r| ensures Before(([m] + r)[i], ([m] + r)[j], rank) {
      if i == 0 {
        assert r[j - 1] in Elements(r);
      }
    }
  }

  lemma HeadIsFirst(r: seq<Hash>, rank: map<Hash, int>)
    requires r != [] && Ascending(r, rank)
    ensures Elements(r) <= rank.Keys && IsFirst(r[0], Elements(r), rank)
    ensures Elements(r[1..]) == Elements(r) - {r[0]}
  {
    forall x | x in Elements(r) && x != r[0] ensures Before(r[0], x, rank) && x in r[1..] {
      var i :| 0 <= i < |r| && r[i] == x;
      assert r[1..][i - 1] == x;
    }
    forall x | x in r[1..] ensures x in r && x != r[0] {
      var i :| 0 <= i < |r[1..]| && r[1..][i] == x;
      assert Before(r[0], r[i + 1], rank);
    }
  }

  /** A ranked set has one sorted form: any ascending listing of it is `Sorted`. */
  lemma {:induction false} SortedUnique(r: seq<Hash>, s: set<Hash>, rank: map<Hash, int>)
    requires s <= rank.Keys
    requires Elements(r) == s && Ascending(r, rank)
    ensures r == Sorted(s, rank)
    decreases |r|
  {
    if r == [] {
    } else {
      HeadIsFirst(r, rank);
      FirstUnique(r[0], s, rank, rank);
      SortedUnique(r[1..], s - {r[0]}, rank);
      assert r == [r[0]] + r[1..];
    }
  }

  /** Sorting reads the ranks of the set and nothing else. */
  lemma {:induction false} SortedCongruent(s: set<Hash>, rank: map<Hash, int>, rank': map<Hash, int>)
    requires s <= rank.Keys && s <= rank'.Keys
    requires forall x | x in s :: rank[x] == rank'[x]
    ensures Sorted(s, rank) == Sorted(s, rank')
  {
    SortedAscends(s, rank');
    SortedUnique(Sorted(s, rank'), s, rank);
  }

  lemma {:induction false} DistinctCount(r: seq<Hash>)
    requires Distinct(r)
    ensures |Elements(r)| == |r|
  {
    if r != [] {
      var last := |r| - 1;
      var front := r[..last];
      DistinctCount(front);
      assert Elements(r) == Elements(front) + {r[last]};
    }
  }

  /** In an ascending listing, whatever ranks lower stands earlier. */
  lemma LowerStandsEarlier(r: seq<Hash>, rank: map<Hash, int>, k: nat, x: Hash)
    requires Ascending(r, rank) && k < |r| && x in r
    requires rank[x] < rank[r[k]]
    ensures x in r[..k]
  {
    var j :| 0 <= j < |r| && r[j] == x;
    assert forall i | k < i < |r| :: Before(r[k], r[i], rank);
    assert r[..k][j] == x;
  }

  /** A listing prefix as long as a set it covers lists exactly that set. */
  lemma CoverPins(s: seq<Hash>, n: nat, a: set<Hash>)
    requires Distinct(s) && n <= |s| && n == |a| && a <= Elements(s[..n])
    ensures Elements(s[..n]) == a
  {
    DistinctCount(s[..n]);
    SubsetOfEqualSize(a, Elements(s[..n]));
  }

  lemma SubsetOfEqualSize<T>(a: set<T>, b: set<T>)
    requires a <= b && |a| == |b|
    ensures a == b
  {
    assert b == a + (b - a);
  }

  lemma ElementsAppend(s: seq<Hash>, t: seq<Hash>)
    ensures Elements(s + t) == Elements(s) + Elements(t)
  {
  }

  lemma ElementsPrefix(s: seq<Hash>, t: seq<Hash>, n: nat)
    requires n <= |t|
    ensures (s + t)[..|s| + n] == s + t[..n]
    ensures Elements((s + t)[..|s| + n]) == Elements(s) + Elements(t[..n])
  {
    assert (s + t)[..|s| + n] == s + t[..n];
    ElementsAppend(s, t[..n]);
  }

  /** The first element, found by one pass. */
  method FindFirst(s: set<Hash>, rank: map<Hash, int>) returns (m: Hash)
    requires s != {} && s <= rank.Keys
    ensures m == First(s, rank)
  {
    m :| m in s;
    var rest := s - {m};
    while rest != {}
      invariant rest <= s && m in s - rest
      invariant IsFirst(m, s - rest, rank)
      decreases |rest|
    {
      var x :| x in rest;
      ghost var seen := s - rest;
      if Before(x, m, rank) {
        m := x;
      }
      rest := rest - {x};
      assert s - rest == seen + {x};
    }
    assert s - rest == s;
    FirstUnique(m, s, rank, rank);
  }

  /** The sorted listing of a set: the sort call of the sources. */
  method SortRanked(s: set<Hash>, rank: map<Hash, int>) returns (r: seq<Hash>)
    requires s <= rank.Keys
    ensures r == Sorted(s, rank)
  {
    r := [];
    var rest := s;
    while rest != {}
      invariant rest <= s
      invariant r + Sorted(rest, rank) == Sorted(s, rank)
      decreases |rest|
    {
      var m := FindFirst(rest, rank);
      SortedStep(r, rest, rank);
      r := r + [m];
      rest := rest - {m};
    }
  }

  lemma SortedStep(r: seq<Hash>, rest: set<Hash>, rank: map<Hash, int>)
    requires rest != {} && rest <= rank.Keys
    ensures r + Sorted(rest, rank) == r + [First(rest, rank)] + Sorted(rest - {First(rest, rank)}, rank)
  {
  }
}
