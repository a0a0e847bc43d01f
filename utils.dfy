/** The small helpers of `src/utils.ts`: `isDefined`, `uniq` and `overlaps`,
    together with the sequence predicates used to state their properties. */
module Utils {
  import opened Wrappers

  /** `isDefined(x)`, that is `x != null`: false exactly for `null` and `undefined`. */
  predicate IsDefined<T>(x: Option<T>) {
    x.Some?
  }

  /** `xs.filter(isDefined)`: the defined values, in their order. */
  function FilterDefined<T>(xs: seq<Option<T>>): seq<T> {
    if xs == [] then [] else (if IsDefined(xs[0]) then [xs[0].value] else []) + FilterDefined(xs[1..])
  }

  /** `filter(isDefined)` keeps exactly the defined values; the result is
      empty exactly when none is defined. */
  lemma {:induction false} FilterDefinedSpec<T>(xs: seq<Option<T>>)
    ensures |FilterDefined(xs)| <= |xs|
    ensures forall x | x in FilterDefined(xs) :: Some(x) in xs
    ensures forall i | 0 <= i < |xs| && IsDefined(xs[i]) :: xs[i].value in FilterDefined(xs)
    ensures |FilterDefined(xs)| == 0 <==> forall i | 0 <= i < |xs| :: !IsDefined(xs[i])
  {
    if xs != [] {
      FilterDefinedSpec(xs[1..]);
      assert xs == [xs[0]] + xs[1..];
    }
  }

  /** Every value is kept, and in order, when all of them are defined. */
  lemma {:induction false} FilterDefinedAllSome<T>(xs: seq<T>)
    ensures FilterDefined(seq(|xs|, i requires 0 <= i < |xs| => Some(xs[i]))) == xs
  {
    if xs != [] {
      var wrapped := seq(|xs|, i requires 0 <= i < |xs| => Some(xs[i]));
      var tail := seq(|xs[1..]|, i requires 0 <= i < |xs[1..]| => Some(xs[1..][i]));
      assert wrapped[1..] == tail;
      FilterDefinedAllSome(xs[1..]);
    }
  }

  /** `FilterDefined` distributes over concatenation. */
  lemma {:induction false} FilterDefinedAppend<T>(xs: seq<Option<T>>, ys: seq<Option<T>>)
    ensures FilterDefined(xs + ys) == FilterDefined(xs) + FilterDefined(ys)
  {
    if xs != [] {
      assert (xs + ys)[0] == xs[0] && (xs + ys)[1..] == xs[1..] + ys;
      FilterDefinedAppend(xs[1..], ys);
      assert FilterDefined(xs + ys) == (if IsDefined(xs[0]) then [xs[0].value] else []) + FilterDefined(xs[1..] + ys);
    } else {
      assert xs + ys == ys;
    }
  }

  /** `xs.filter(p)`. */
  function Filter<T(==)>(xs: seq<T>, p: T -> bool): (r: seq<T>)
    ensures |r| <= |xs|
  {
    if xs == [] then [] else (if p(xs[0]) then [xs[0]] else []) + Filter(xs[1..], p)
  }

  /** `xs.filter(p)` keeps exactly the elements that pass `p`. */
  lemma {:induction false} FilterKeeps<T>(xs: seq<T>, p: T -> bool, x: T)
    ensures x in Filter(xs, p) <==> x in xs && p(x)
  {
    if xs != [] {
      FilterKeeps(xs[1..], p, x);
      assert xs == [xs[0]] + xs[1..];
    }
  }

  /** Two tests that agree on every element keep the same elements. */
  lemma {:induction false} FilterCongruent<T>(xs: seq<T>, p: T -> bool, q: T -> bool)
    requires forall x | x in xs :: p(x) == q(x)
    ensures Filter(xs, p) == Filter(xs, q)
  {
    if xs != [] {
      assert forall x | x in xs[1..] :: x in xs;
      FilterCongruent(xs[1..], p, q);
    }
  }

  /** A `map` whose callback may throw: the results in order, or the
      exception of the first element that throws. */
  function Collect<T, E>(rs: seq<Result<T, E>>): Result<seq<T>, E> {
    if rs == [] then Ok([])
    else
      match rs[0]
      case Err(e) => Err(e)
      case Ok(x) =>
        match Collect(rs[1..])
        case Err(e) => Err(e)
        case Ok(xs) => Ok([x] + xs)
  }

  /** `Collect` throws exactly when some element throws, and then with the
      exception of the first one; otherwise it keeps every value in order. */
  lemma {:induction false} CollectSpec<T, E>(rs: seq<Result<T, E>>)
    ensures Collect(rs).Err? <==> exists i | 0 <= i < |rs| :: rs[i].Err?
    ensures Collect(rs).Err? ==> exists i | 0 <= i < |rs| ::
      rs[i] == Err(Collect(rs).error) && forall j | 0 <= j < i :: rs[j].Ok?
    ensures Collect(rs).Ok? ==> |Collect(rs).value| == |rs|
    ensures Collect(rs).Ok? ==> forall i | 0 <= i < |rs| :: rs[i] == Ok(Collect(rs).value[i])
  {
    if rs != [] {
      CollectSpec(rs[1..]);
      assert forall i | 1 <= i < |rs| :: rs[i] == rs[1..][i - 1];
      if rs[0].Ok? && Collect(rs[1..]).Err? {
        var e := Collect(rs[1..]).error;
        var i :| 0 <= i < |rs[1..]| && rs[1..][i] == Err(e) && forall j | 0 <= j < i :: rs[1..][j].Ok?;
        assert rs[i + 1] == Err(e) && forall j | 0 <= j < i + 1 :: rs[j].Ok?;
      }
    }
  }

  function Max(a: int, b: int): int { if a < b then b else a }

  function Min(a: int, b: int): int { if a < b then a else b }

  /** `overlaps(x1, x2, y1, y2)`: `Math.max(x1, y1) < Math.min(x2, y2)`, the
      strict overlap test of the half-open intervals `[x1, x2)` and `[y1, y2)`.
      It is symmetric in the two intervals and false when either is empty. */
  function Overlaps(x1: int, x2: int, y1: int, y2: int): (r: bool)
    ensures r <==> x1 < x2 && y1 < y2 && x1 < y2 && y1 < x2
    ensures x2 <= x1 || y2 <= y1 ==> !r
  {
    Max(x1, y1) < Min(x2, y2)
  }

  /** Swapping the two intervals does not change the answer. */
  lemma OverlapsSymmetric(x1: int, x2: int, y1: int, y2: int)
    ensures Overlaps(x1, x2, y1, y2) == Overlaps(y1, y2, x1, x2)
  {
  }

  /** `xs.indexOf(x)`: the first position holding `x`, or -1. */
  function IndexOf<T(==)>(xs: seq<T>, x: T): (r: int)
    ensures -1 <= r < |xs|
    ensures r == -1 <==> x !in xs
    ensures 0 <= r ==> xs[r] == x && x !in xs[..r]
  {
    if xs == [] then -1
    else if xs[0] == x then 0
    else
      var k := IndexOf(xs[1..], x);
      assert xs[1..][..Max(k, 0)] == xs[1..Max(k, 0) + 1];
      if k < 0 then -1 else k + 1
  }

  predicate NoDuplicates<T(==)>(xs: seq<T>) {
    forall p, q | 0 <= p < q < |xs| :: xs[p] != xs[q]
  }

  predicate Sorted(xs: seq<int>) {
    forall p, q | 0 <= p < q < |xs| :: xs[p] <= xs[q]
  }

  predicate StrictlyIncreasing(xs: seq<int>) {
    forall p, q | 0 <= p < q < |xs| :: xs[p] < xs[q]
  }

  /** `xs.filter((x, i) => xs.indexOf(x) === i)` applied to the first `n`
      elements: an element is kept where it occurs for the first time. */
  function UniqPrefix<T(==)>(xs: seq<T>, n: nat): seq<T>
    requires n <= |xs|
  {
    if n == 0 then []
    else UniqPrefix(xs, n - 1) + (if IndexOf(xs, xs[n - 1]) == n - 1 then [xs[n - 1]] else [])
  }

  /** `uniq(xs)`. */
  function Uniq<T(==)>(xs: seq<T>): seq<T> {
    UniqPrefix(xs, |xs|)
  }

  /** The elements `uniq` keeps from `xs[..n]` are those of `xs[..n]`, once
      each. */
  lemma {:induction false} UniqPrefixSpec<T>(xs: seq<T>, n: nat)
    requires n <= |xs|
    ensures forall x | x in UniqPrefix(xs, n) :: x in xs[..n]
    ensures forall x | x in xs[..n] :: x in UniqPrefix(xs, n)
    ensures NoDuplicates(UniqPrefix(xs, n))
  {
    if n > 0 {
      UniqPrefixSpec(xs, n - 1);
      var k := IndexOf(xs, xs[n - 1]);
      assert xs[..n] == xs[..n - 1] + [xs[n - 1]];
      assert k == n - 1 <==> xs[n - 1] !in xs[..n - 1] by {
        if k != n - 1 {
          assert 0 <= k < n - 1 && xs[k] == xs[n - 1];
          assert xs[..n - 1][k] == xs[n - 1];
        } else {
          assert xs[..k] == xs[..n - 1];
        }
      }
    }
  }

  /** `uniq(xs)` holds the elements of `xs`, and no other, once each. */
  lemma UniqSpec<T>(xs: seq<T>)
    ensures forall x | x in Uniq(xs) :: x in xs
    ensures forall x | x in xs :: x in Uniq(xs)
    ensures NoDuplicates(Uniq(xs))
  {
    UniqPrefixSpec(xs, |xs|);
    assert xs[..|xs|] == xs;
  }

  /** The elements `uniq` keeps from `xs[..n]` come in the order of their
      first occurrences. */
  lemma {:induction false} UniqPrefixOrder<T>(xs: seq<T>, n: nat)
    requires n <= |xs|
    ensures forall p | 0 <= p < |UniqPrefix(xs, n)| :: 0 <= IndexOf(xs, UniqPrefix(xs, n)[p]) < n
    ensures forall p, q | 0 <= p < q < |UniqPrefix(xs, n)| ::
      IndexOf(xs, UniqPrefix(xs, n)[p]) < IndexOf(xs, UniqPrefix(xs, n)[q])
  {
    if n > 0 {
      UniqPrefixOrder(xs, n - 1);
      var prev := UniqPrefix(xs, n - 1);
      assert forall p | 0 <= p < |prev| :: UniqPrefix(xs, n)[p] == prev[p];
    }
  }

  /** `uniq` keeps first occurrences in order: along its result, the
      position of each element's first occurrence in `xs` increases. */
  lemma UniqKeepsFirstOccurrenceOrder<T>(xs: seq<T>)
    ensures forall p, q | 0 <= p < q < |Uniq(xs)| :: IndexOf(xs, Uniq(xs)[p]) < IndexOf(xs, Uniq(xs)[q])
  {
    UniqPrefixOrder(xs, |xs|);
  }

  /** A list without duplicates comes out of `uniq` unchanged. */
  lemma {:induction false} UniqOfDistinct<T>(xs: seq<T>)
    requires NoDuplicates(xs)
    ensures Uniq(xs) == xs
  {
    forall k | 0 <= k < |xs|
      ensures IndexOf(xs, xs[k]) == k
    {
    }
    UniqPrefixOfDistinct(xs, |xs|);
    assert xs[..|xs|] == xs;
  }

  lemma {:induction false} UniqPrefixOfDistinct<T>(xs: seq<T>, n: nat)
    requires n <= |xs|
    requires forall k | 0 <= k < |xs| :: IndexOf(xs, xs[k]) == k
    ensures UniqPrefix(xs, n) == xs[..n]
  {
    if n > 0 {
      UniqPrefixOfDistinct(xs, n - 1);
      assert xs[..n] == xs[..n - 1] + [xs[n - 1]];
    }
  }

  /** `uniq` is idempotent. */
  lemma UniqIdempotent<T>(xs: seq<T>)
    ensures Uniq(Uniq(xs)) == Uniq(xs)
  {
    UniqSpec(xs);
    UniqOfDistinct(Uniq(xs));
  }

  /** Applied to a sorted list, `uniq` gives a strictly increasing list. */
  lemma UniqOfSortedIsStrictlyIncreasing(xs: seq<nat>)
    requires Sorted(xs)
    ensures StrictlyIncreasing(Uniq(xs))
  {
    var r := Uniq(xs);
    UniqSpec(xs);
    UniqKeepsFirstOccurrenceOrder(xs);
    forall p, q | 0 <= p < q < |r|
      ensures r[p] < r[q]
    {
      assert r[p] in xs && r[q] in xs;
      var i, j := IndexOf(xs, r[p]), IndexOf(xs, r[q]);
      assert xs[i] == r[p] && xs[j] == r[q];
    }
  }
}
