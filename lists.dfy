/** Sequence operations behind Python list comprehensions, `list(set(...))` and slicing. */
module Lists {
  import opened Wrappers

  predicate NoDuplicates<T(==)>(xs: seq<T>) {
    forall i, j :: 0 <= i < j < |xs| ==> xs[i] != xs[j]
  }

  /** `[x for x in xs if p(x)]`: the elements of xs that satisfy p, in order. */
  function Filter<T>(xs: seq<T>, p: T -> bool): (r: seq<T>)
    ensures |r| <= |xs|
    ensures forall i :: 0 <= i < |r| ==> p(r[i])
  {
    if xs == [] then [] else (if p(xs[0]) then [xs[0]] else []) + Filter(xs[1..], p)
  }

  /** Filter drops no element that satisfies p and repeats none. */
  lemma FilterComplete<T>(xs: seq<T>, p: T -> bool)
    ensures multiset(Filter(xs, p)) <= multiset(xs)
    ensures forall x :: x in Filter(xs, p) ==> x in xs
    ensures forall i :: 0 <= i < |xs| && p(xs[i]) ==> xs[i] in Filter(xs, p)
  {
    FilterSubMultiset(xs, p);
    forall x | x in Filter(xs, p) ensures x in xs {
      assert x in multiset(Filter(xs, p));
    }
    forall i | 0 <= i < |xs| && p(xs[i]) ensures xs[i] in Filter(xs, p) {
      FilterKeeps(xs, p, i);
    }
  }

  lemma {:induction false} FilterSubMultiset<T>(xs: seq<T>, p: T -> bool)
    ensures multiset(Filter(xs, p)) <= multiset(xs)
  {
    if xs != [] {
      FilterSubMultiset(xs[1..], p);
      var head := if p(xs[0]) then [xs[0]] else [];
      assert Filter(xs, p) == head + Filter(xs[1..], p);
      assert xs == [xs[0]] + xs[1..];
      assert multiset(xs) == multiset([xs[0]]) + multiset(xs[1..]);
      assert multiset(Filter(xs, p)) == multiset(head) + multiset(Filter(xs[1..], p));
    }
  }

  lemma {:induction false} FilterKeeps<T>(xs: seq<T>, p: T -> bool, i: nat)
    requires i < |xs| && p(xs[i])
    ensures xs[i] in Filter(xs, p)
  {
    var head := if p(xs[0]) then [xs[0]] else [];
    assert Filter(xs, p) == head + Filter(xs[1..], p);
    if i > 0 {
      FilterKeeps(xs[1..], p, i - 1);
      assert xs[1..][i - 1] == xs[i];
    }
  }

  lemma {:induction false} FilterAppend<T>(a: seq<T>, b: seq<T>, p: T -> bool)
    ensures Filter(a + b, p) == Filter(a, p) + Filter(b, p)
  {
    if a == [] {
      assert a + b == b;
    } else {
      assert (a + b)[1..] == a[1..] + b;
      FilterAppend(a[1..], b, p);
    }
  }

  /** Filter keeps every occurrence of an element that satisfies p and none of the others. */
  lemma {:induction false} FilterCount<T>(xs: seq<T>, p: T -> bool, x: T)
    ensures multiset(Filter(xs, p))[x] == if p(x) then multiset(xs)[x] else 0
  {
    if xs != [] {
      FilterCount(xs[1..], p, x);
      var head := if p(xs[0]) then [xs[0]] else [];
      assert Filter(xs, p) == head + Filter(xs[1..], p);
      assert xs == [xs[0]] + xs[1..];
      assert multiset(xs) == multiset([xs[0]]) + multiset(xs[1..]);
    }
  }

  lemma {:induction false} FilterNone<T>(a: seq<T>, p: T -> bool)
    requires forall i :: 0 <= i < |a| ==> !p(a[i])
    ensures Filter(a, p) == []
  {
    if a != [] {
      FilterNone(a[1..], p);
    }
  }

  lemma {:induction false} FilterAll<T>(a: seq<T>, p: T -> bool)
    requires forall i :: 0 <= i < |a| ==> p(a[i])
    ensures Filter(a, p) == a
  {
    if a != [] {
      FilterAll(a[1..], p);
      assert a == [a[0]] + a[1..];
    }
  }

  /** Filtering keeps distinct elements distinct. */
  lemma {:induction false} FilterNoDuplicates<T>(xs: seq<T>, p: T -> bool)
    requires NoDuplicates(xs)
    ensures NoDuplicates(Filter(xs, p))
  {
    if xs != [] {
      FilterNoDuplicates(xs[1..], p);
      var rest := Filter(xs[1..], p);
      assert xs[0] !in xs[1..];
      FilterSubMultiset(xs[1..], p);
      assert forall k :: 0 <= k < |rest| ==> rest[k] in multiset(rest);
    }
  }

  /** The distinct elements of xs, each where it first occurs. */
  function Dedup<T(==)>(xs: seq<T>): (r: seq<T>)
    ensures NoDuplicates(r)
    ensures forall i :: 0 <= i < |r| ==> r[i] in xs
    ensures forall i :: 0 <= i < |xs| ==> xs[i] in r
    ensures |r| <= |xs|
  {
    if xs == [] then []
    else
      var init := Dedup(xs[..|xs| - 1]);
      var last := xs[|xs| - 1];
      assert xs == xs[..|xs| - 1] + [last];
      if last in init then init else init + [last]
  }

  /** `xs[:n]` for n >= 0. */
  function Take<T>(xs: seq<T>, n: nat): (r: seq<T>)
    ensures |r| == if n < |xs| then n else |xs|
    ensures r == xs[..|r|]
  {
    if n < |xs| then xs[..n] else xs
  }

  function Map<T, U>(xs: seq<T>, f: T -> U): (r: seq<U>)
    ensures |r| == |xs| && forall i :: 0 <= i < |xs| ==> r[i] == f(xs[i])
  {
    seq(|xs|, i requires 0 <= i < |xs| => f(xs[i]))
  }

  lemma MapAppend<T, U>(xs: seq<T>, x: T, f: T -> U)
    ensures Map(xs + [x], f) == Map(xs, f) + [f(x)]
  {
  }

  /** The index of the first element satisfying p, or |xs| when there is none. */
  function FirstIndex<T>(xs: seq<T>, p: T -> bool): (k: nat)
    ensures k <= |xs|
    ensures forall j :: 0 <= j < k ==> !p(xs[j])
    ensures k < |xs| ==> p(xs[k])
  {
    if xs == [] then 0 else if p(xs[0]) then 0 else 1 + FirstIndex(xs[1..], p)
  }

  /** Cutting the sequence anywhere after its first p-element keeps that element first. */
  lemma FirstIndexPrefix<T>(xs: seq<T>, p: T -> bool, m: nat)
    requires FirstIndex(xs, p) <= m <= |xs|
    ensures FirstIndex(xs[..m], p) == FirstIndex(xs, p)
  {
    var k := FirstIndex(xs, p);
    assert forall j :: 0 <= j < k ==> xs[..m][j] == xs[j];
    FirstIndexIs(xs[..m], p, k);
  }

  /** The first p-element is the one with no p-element before it. */
  lemma FirstIndexIs<T>(xs: seq<T>, p: T -> bool, i: nat)
    requires i <= |xs| && (i < |xs| ==> p(xs[i]))
    requires forall j :: 0 <= j < i ==> !p(xs[j])
    ensures FirstIndex(xs, p) == i
  {
  }

  /** A p-element at or before the first one is the first one. */
  lemma FirstIndexAt<T>(xs: seq<T>, p: T -> bool, i: nat)
    requires i < |xs| && p(xs[i]) && i <= FirstIndex(xs, p)
    ensures FirstIndex(xs, p) == i
  {
  }

  /** A loop that applies a step that may raise to each element in turn:
      every result, or the exception of the first step that raised. */
  function TryMap<T, U, E>(xs: seq<T>, f: T -> Result<U, E>): (r: Result<seq<U>, E>)
    ensures r.Success? ==> |r.value| == |xs|
  {
    if xs == [] then Success([])
    else
      match TryMap(xs[..|xs| - 1], f)
      case Failure(e) => Failure(e)
      case Success(ys) =>
        match f(xs[|xs| - 1])
        case Failure(e) => Failure(e)
        case Success(y) => Success(ys + [y])
  }

  /** Without an exception, the i-th result is the i-th step's. */
  lemma {:induction false} TryMapSuccess<T, U, E>(xs: seq<T>, f: T -> Result<U, E>)
    requires TryMap(xs, f).Success?
    ensures forall i :: 0 <= i < |xs| ==> f(xs[i]) == Success(TryMap(xs, f).value[i])
  {
    if xs != [] {
      var init := xs[..|xs| - 1];
      TryMapSuccess(init, f);
      assert forall i :: 0 <= i < |init| ==> xs[i] == init[i];
    }
  }

  /** The loop raises exactly when some step does, and then with the
      exception of the first step that raises. */
  lemma {:induction false} TryMapFailure<T, U, E>(xs: seq<T>, f: T -> Result<U, E>)
    ensures TryMap(xs, f).Failure? <==> FirstIndex(xs, x => f(x).Failure?) < |xs|
    ensures TryMap(xs, f).Failure? ==> TryMap(xs, f).error == f(xs[FirstIndex(xs, x => f(x).Failure?)]).error
  {
    var p := x => f(x).Failure?;
    if xs != [] {
      var n := |xs|;
      var init := xs[..n - 1];
      TryMapFailure(init, f);
      var k := FirstIndex(init, p);
      assert forall j :: 0 <= j < n - 1 ==> init[j] == xs[j];
      if k < n - 1 {
        FirstIndexIs(xs, p, k);
      } else if p(xs[n - 1]) {
        FirstIndexIs(xs, p, n - 1);
      } else {
        FirstIndexIs(xs, p, n);
      }
    }
  }

  /** Once a prefix raises, the whole loop raises the same exception. */
  lemma {:induction false} TryMapPrefixFailure<T, U, E>(xs: seq<T>, f: T -> Result<U, E>, k: nat)
    requires k <= |xs| && TryMap(xs[..k], f).Failure?
    ensures TryMap(xs, f) == TryMap(xs[..k], f)
  {
    if k < |xs| {
      var init := xs[..|xs| - 1];
      assert init[..k] == xs[..k];
      TryMapPrefixFailure(init, f, k);
    } else {
      assert xs[..k] == xs;
    }
  }

  /** Two tests that agree everywhere find the same first element. */
  lemma {:induction false} FirstIndexSame<T>(xs: seq<T>, p: T -> bool, q: T -> bool)
    requires forall x :: p(x) == q(x)
    ensures FirstIndex(xs, p) == FirstIndex(xs, q)
  {
    if xs != [] {
      FirstIndexSame(xs[1..], p, q);
    }
  }

  /** One more step of the loop: it appends the step's result, or ends the
      whole loop with the step's exception. */
  lemma TryMapNext<T, U, E>(xs: seq<T>, i: nat, f: T -> Result<U, E>)
    requires i < |xs| && TryMap(xs[..i], f).Success?
    ensures f(xs[i]).Success? ==> TryMap(xs[..i + 1], f) == Success(TryMap(xs[..i], f).value + [f(xs[i]).value])
    ensures f(xs[i]).Failure? ==> TryMap(xs, f) == Failure(f(xs[i]).error)
  {
    assert xs[..i + 1][..i] == xs[..i];
    if f(xs[i]).Failure? {
      TryMapPrefixFailure(xs, f, i + 1);
    }
  }

  /** The elements of xs, as a set. */
  function Elements<T>(xs: seq<T>): set<T> {
    set x | x in xs
  }

  /** A sequence without repeats has as many distinct elements as entries. */
  lemma {:induction false} NoDuplicatesSize<T>(xs: seq<T>)
    requires NoDuplicates(xs)
    ensures |Elements(xs)| == |xs|
  {
    if xs != [] {
      var n := |xs|;
      var init, last := xs[..n - 1], xs[n - 1];
      assert forall i :: 0 <= i < n - 1 ==> init[i] == xs[i];
      NoDuplicatesSize(init);
      assert xs == init + [last];
      assert Elements(xs) == Elements(init) + {last};
      assert forall i :: 0 <= i < n - 1 ==> init[i] != last;
      assert last !in Elements(init);
    }
  }

  lemma AppendAssoc<T>(a: seq<T>, m: seq<T>, b: seq<T>)
    ensures a + m + b == a + (m + b)
  {
  }

  lemma SplitLast<T>(a: seq<T>)
    requires a != []
    ensures a == a[..|a| - 1] + [a[|a| - 1]]
  {
  }
}
