/** Ordering a result table by score: pandas' `rank(ascending=False,
    method='first')` and `sort_values(ascending=False)`. Scores are integers
    counting tenths; a missing score (NaN) is None and is placed last. */
module Ranking {
  import opened Wrappers
  import opened Lists

  // ----- rank(ascending=False, method='first') -----

  /** Row j is ranked ahead of row i: it scores higher, or scores the same and comes first. */
  predicate Precedes(scores: seq<int>, j: int, i: int)
    requires 0 <= j < |scores| && 0 <= i < |scores|
  {
    scores[j] > scores[i] || (scores[j] == scores[i] && j < i)
  }

  /** The rows ranked ahead of row i. */
  function Ahead(scores: seq<int>, i: nat): set<nat>
    requires i < |scores|
  {
    set j: nat | j < |scores| && Precedes(scores, j, i)
  }

  /** The row positions 0..n-1. */
  function Below(n: nat): (r: set<nat>)
    ensures |r| == n
    ensures forall j: nat :: j in r <==> j < n
  {
    if n == 0 then {} else Below(n - 1) + {n - 1}
  }

  lemma SubsetSize<T>(a: set<T>, b: set<T>)
    requires a <= b
    ensures |a| <= |b|
    ensures a < b ==> |a| < |b|
  {
    assert b == a + (b - a);
    assert a * (b - a) == {};
    if a < b {
      var x :| x in b && x !in a;
      assert x in b - a;
    }
  }

  /** The rank of row i: one more than the number of rows ahead of it. */
  function FirstRank(scores: seq<int>, i: nat): (r: nat)
    requires i < |scores|
    ensures 1 <= r <= |scores|
  {
    var ahead := Ahead(scores, i);
    assert ahead <= Below(|scores|) - {i};
    assert i in Below(|scores|);
    SubsetSize(ahead, Below(|scores|) - {i});
    |ahead| + 1
  }

  /** The `Rank` column. */
  function Ranks(scores: seq<int>): (ranks: seq<nat>)
    ensures |ranks| == |scores|
    ensures forall i :: 0 <= i < |scores| ==> ranks[i] == FirstRank(scores, i)
  {
    seq(|scores|, i requires 0 <= i < |scores| => FirstRank(scores, i))
  }

  /** A row ranked ahead of another gets a strictly smaller rank: a higher
      score always, and an equal score when it comes first. */
  lemma RankOrder(scores: seq<int>, j: nat, i: nat)
    requires j < |scores| && i < |scores|
    requires Precedes(scores, j, i)
    ensures FirstRank(scores, j) < FirstRank(scores, i)
  {
    var aj, ai := Ahead(scores, j), Ahead(scores, i);
    assert aj <= ai;
    assert j in ai && j !in aj;
    SubsetSize(aj, ai);
  }

  /** No two rows share a rank, even when their scores tie. */
  lemma RanksDistinct(scores: seq<int>, i: nat, j: nat)
    requires i < |scores| && j < |scores| && i != j
    ensures FirstRank(scores, i) != FirstRank(scores, j)
  {
    if Precedes(scores, j, i) {
      RankOrder(scores, j, i);
    } else {
      RankOrder(scores, i, j);
    }
  }

  /** The ranks 1..n. */
  function OneTo(n: nat): (r: set<nat>)
    ensures |r| == n
    ensures forall k: nat :: k in r <==> 1 <= k <= n
  {
    if n == 0 then {} else OneTo(n - 1) + {n}
  }

  /** Each rank is used once. */
  lemma RanksNoDuplicates(scores: seq<int>)
    ensures NoDuplicates(Ranks(scores))
  {
    forall i, j | 0 <= i < j < |scores| ensures Ranks(scores)[i] != Ranks(scores)[j] {
      RanksDistinct(scores, i, j);
    }
  }

  /** Over N rows the ranks are exactly 1..N. */
  lemma RanksCoverOneTo(scores: seq<int>)
    ensures Elements(Ranks(scores)) == OneTo(|scores|)
  {
    var ranks := Ranks(scores);
    RanksNoDuplicates(scores);
    NoDuplicatesSize(ranks);
    assert Elements(ranks) <= OneTo(|scores|);
    SubsetSize(Elements(ranks), OneTo(|scores|));
  }

  // ----- sort_values(ascending=False) -----

  /** a may be placed before b: NaN goes last, otherwise higher first. */
  predicate PlacedBefore(a: Option<int>, b: Option<int>) {
    b.None? || (a.Some? && a.value >= b.value)
  }

  predicate SortedDesc<T>(xs: seq<T>, key: T -> Option<int>) {
    forall i, j :: 0 <= i < j < |xs| ==> PlacedBefore(key(xs[i]), key(xs[j]))
  }

  /** x placed after every element that may come before it. */
  function Insert<T>(x: T, xs: seq<T>, key: T -> Option<int>): (r: seq<T>)
    ensures |r| == |xs| + 1
    ensures multiset(r) == multiset(xs) + multiset{x}
  {
    if xs == [] then [x]
    else if PlacedBefore(key(xs[0]), key(x)) then
      assert xs == [xs[0]] + xs[1..];
      [xs[0]] + Insert(x, xs[1..], key)
    else
      [x] + xs
  }

  lemma {:induction false} InsertSorted<T>(x: T, xs: seq<T>, key: T -> Option<int>)
    requires SortedDesc(xs, key)
    ensures SortedDesc(Insert(x, xs, key), key)
  {
    if xs != [] && PlacedBefore(key(xs[0]), key(x)) {
      var rest := Insert(x, xs[1..], key);
      InsertSorted(x, xs[1..], key);
      forall k | 0 <= k < |rest| ensures PlacedBefore(key(xs[0]), key(rest[k])) {
        assert rest[k] in multiset(rest);
        if rest[k] != x {
          assert rest[k] in multiset(xs[1..]);
          var m :| 0 <= m < |xs[1..]| && xs[1..][m] == rest[k];
          assert xs[1..][m] == xs[m + 1];
        }
      }
      var r := [xs[0]] + rest;
      forall a, b | 0 <= a < b < |r| ensures PlacedBefore(key(r[a]), key(r[b])) {
        if a > 0 {
          assert r[a] == rest[a - 1] && r[b] == rest[b - 1];
        }
      }
    }
  }

  /** The rows in score order, NaN last. pandas' default sort is not stable,
      so only the order and the permutation are promised; this model keeps
      tied rows in input order. */
  function SortDesc<T>(xs: seq<T>, key: T -> Option<int>): (r: seq<T>)
    ensures |r| == |xs|
    ensures multiset(r) == multiset(xs)
    ensures SortedDesc(r, key)
  {
    if xs == [] then []
    else
      var init := xs[..|xs| - 1];
      assert xs == init + [xs[|xs| - 1]];
      var sorted := SortDesc(init, key);
      InsertSorted(xs[|xs| - 1], sorted, key);
      Insert(xs[|xs| - 1], sorted, key)
  }
}
