/** Value types and integer helpers shared by every part of the model.

    Instants are whole seconds on one time line (Swift's `Date`); a duration
    in minutes is always obtained the way the app obtains it,
    `Int(interval / 60)`, which truncates toward zero. */
module Basics {

  /** Swift's `Optional`. */
  datatype Option<+T> = None | Some(value: T) {
    /** `self ?? default` */
    function GetOr(default: T): T {
      match this
      case Some(v) => v
      case None => default
    }
  }

  /** Swift's `ClosedRange<Int>`, written `lo...hi`. */
  datatype ClosedRange = ClosedRange(lo: int, hi: int) {
    /** Swift refuses to build `lo...hi` with `lo > hi` (a runtime trap). */
    predicate Valid() {
      lo <= hi
    }

    predicate Contains(x: int) {
      lo <= x <= hi
    }
  }

  /** Swift's `Range<Int>`, written `lo..<hi`. */
  datatype HalfOpenRange = HalfOpenRange(lo: int, hi: int) {
    predicate Contains(x: int) {
      lo <= x < hi
    }
  }

  function Max(a: int, b: int): int {
    if a >= b then a else b
  }

  function Min(a: int, b: int): int {
    if a <= b then a else b
  }

  /** Euclidean division of a non-negative dividend brackets it between
      consecutive multiples of the divisor. */
  lemma DivBoundsNonNegative(a: int, b: int)
    requires b > 0 && a >= 0
    ensures 0 <= a / b && (a / b) * b <= a < (a / b) * b + b
  {
    var q, r := a / b, a % b;
    assert a == q * b + r && 0 <= r < b;
  }

  /** The same bracket for the negated quotient of a negative dividend's
      magnitude: truncation toward zero. */
  lemma DivBoundsNegative(a: int, b: int)
    requires b > 0 && a < 0
    ensures -((-a) / b) <= 0 && (-((-a) / b)) * b - b < a <= (-((-a) / b)) * b
  {
    var q, r := (-a) / b, (-a) % b;
    assert -a == q * b + r && 0 <= r < b;
    assert (-q) * b == -(q * b);
  }

  /** Integer quotient rounded toward zero: Swift's `Int` division, and the
      result of `Int(Double(a) / Double(b))` for integral operands. */
  function TruncDiv(a: int, b: int): (q: int)
    requires b > 0
    ensures 0 <= a ==> 0 <= q && q * b <= a < q * b + b
    ensures a < 0 ==> q <= 0 && q * b - b < a <= q * b
  {
    if a >= 0 then
      DivBoundsNonNegative(a, b);
      a / b
    else
      DivBoundsNegative(a, b);
      -((-a) / b)
  }

  /** Remainder matching `TruncDiv`: Swift's `%`, which takes the sign of the
      dividend. */
  function TruncRem(a: int, b: int): (r: int)
    requires b > 0
    ensures a == TruncDiv(a, b) * b + r
    ensures 0 <= a ==> 0 <= r < b
    ensures a < 0 ==> -b < r <= 0
  {
    if a >= 0 then
      assert a == (a / b) * b + a % b;
      a % b
    else
      assert -a == ((-a) / b) * b + (-a) % b;
      -((-a) % b)
  }

  /** Whole minutes in an interval of `seconds`, truncated toward zero:
      the app's `Int(interval / 60)`. */
  function Minutes(seconds: int): int {
    TruncDiv(seconds, 60)
  }

  /** A whole-minute count is at most zero exactly when less than one full
      minute lies ahead: the boundary the app's "past cutoff" and
      "past bedtime" tests turn on. */
  lemma MinutesAtMostZero(seconds: int)
    ensures Minutes(seconds) <= 0 <==> seconds < 60
  {
  }

  /** A whole-minute count is at most `k` (k >= 0) exactly when fewer than
      `k + 1` full minutes lie ahead. */
  lemma MinutesAtMost(seconds: int, k: nat)
    ensures Minutes(seconds) <= k <==> seconds < 60 * (k + 1)
  {
  }

  /** Truncation is symmetric: the minutes in a negated interval are the
      negated minutes. */
  lemma MinutesNegate(seconds: int)
    ensures Minutes(-seconds) == -Minutes(seconds)
  {
  }

  /** More seconds never give fewer whole minutes. */
  lemma MinutesMonotone(a: int, b: int)
    requires a <= b
    ensures Minutes(a) <= Minutes(b)
  {
  }

  /** `max(0, Int(end.timeIntervalSince(start) / 60))`: the whole minutes an
      event lasted, never negative (end before start reads as zero). */
  function ClampedMinutes(start: int, end: int): (m: int)
    ensures 0 <= m
    ensures 60 * m <= Max(0, end - start) < 60 * m + 60
  {
    Max(0, Minutes(end - start))
  }

  /** `Int(x)` for a `Double` read as an exact real: truncation toward zero. */
  function TruncReal(x: real): (n: int)
    ensures 0.0 <= x ==> 0 <= n && n as real <= x < n as real + 1.0
    ensures x < 0.0 ==> n <= 0 && n as real - 1.0 < x <= n as real
  {
    if x >= 0.0 then x.Floor else -((-x).Floor)
  }

  /** `reduce(0, +)` */
  function Sum(xs: seq<int>): int {
    if xs == [] then 0 else Sum(xs[..|xs| - 1]) + xs[|xs| - 1]
  }

  lemma {:induction false} SumAppend(xs: seq<int>, ys: seq<int>)
    ensures Sum(xs + ys) == Sum(xs) + Sum(ys)
    decreases |ys|
  {
    if ys == [] {
      assert xs + ys == xs;
    } else {
      var ys' := ys[..|ys| - 1];
      assert (xs + ys)[..|xs + ys| - 1] == xs + ys';
      SumAppend(xs, ys');
    }
  }

  /** A sum of non-negative terms is at least each term and never negative. */
  lemma {:induction false} SumOfNonNegative(xs: seq<int>)
    requires forall i :: 0 <= i < |xs| ==> xs[i] >= 0
    ensures Sum(xs) >= 0
    ensures forall i :: 0 <= i < |xs| ==> xs[i] <= Sum(xs)
  {
    if xs != [] {
      SumOfNonNegative(xs[..|xs| - 1]);
    }
  }

  /** `max()`: the largest element, `nil` for an empty sequence. */
  function MaxOf(xs: seq<int>): (m: Option<int>)
    ensures m.None? <==> xs == []
    ensures m.Some? ==> m.value in xs
    ensures m.Some? ==> forall i :: 0 <= i < |xs| ==> xs[i] <= m.value
  {
    if xs == [] then None
    else
      match MaxOf(xs[1..])
      case None => Some(xs[0])
      case Some(rest) => Some(Max(xs[0], rest))
  }

  /** `min()`: the smallest element, `nil` for an empty sequence. */
  function MinOf(xs: seq<int>): (m: Option<int>)
    ensures m.None? <==> xs == []
    ensures m.Some? ==> m.value in xs
    ensures m.Some? ==> forall i :: 0 <= i < |xs| ==> m.value <= xs[i]
  {
    if xs == [] then None
    else
      match MinOf(xs[1..])
      case None => Some(xs[0])
      case Some(rest) => Some(Min(xs[0], rest))
  }

  /** `xs` with every occurrence of `x` taken out, the rest in order: what
      deleting an object from a to-many relationship leaves. */
  function Without<T(==)>(xs: seq<T>, x: T): (r: seq<T>)
    ensures multiset(r) == multiset(xs)[x := 0]
    ensures x in xs ==> |r| < |xs|
    ensures x !in xs ==> r == xs
  {
    if xs == [] then []
    else
      var rest := Without(xs[1..], x);
      assert xs == [xs[0]] + xs[1..];
      if xs[0] == x then rest else [xs[0]] + rest
  }

  /** Keys in non-decreasing order. */
  predicate SortedByKey<T>(xs: seq<(int, T)>) {
    forall i, j :: 0 <= i < j < |xs| ==> xs[i].0 <= xs[j].0
  }

  /** Inserts `x` before the first element whose key is greater than its
      own. */
  function InsertByKey<T>(x: (int, T), xs: seq<(int, T)>): seq<(int, T)> {
    if xs == [] then [x]
    else if x.0 < xs[0].0 then [x] + xs
    else [xs[0]] + InsertByKey(x, xs[1..])
  }

  /** Insertion adds exactly `x`. */
  lemma {:induction false} InsertByKeyAdds<T>(x: (int, T), xs: seq<(int, T)>)
    ensures multiset(InsertByKey(x, xs)) == multiset(xs) + multiset{x}
  {
    if xs != [] && x.0 >= xs[0].0 {
      assert xs == [xs[0]] + xs[1..];
      InsertByKeyAdds(x, xs[1..]);
    }
  }

  /** Insertion keeps a key-sorted list sorted. */
  lemma {:induction false} InsertByKeySorted<T>(x: (int, T), xs: seq<(int, T)>)
    requires SortedByKey(xs)
    ensures SortedByKey(InsertByKey(x, xs))
  {
    if xs != [] && x.0 >= xs[0].0 {
      var tail := xs[1..];
      InsertByKeySorted(x, tail);
      InsertByKeyAdds(x, tail);
      var rest := InsertByKey(x, tail);
      forall k | 0 <= k < |rest|
        ensures xs[0].0 <= rest[k].0
      {
        assert rest[k] in multiset(rest);
        if rest[k] != x {
          assert rest[k] in multiset(tail);
          var j :| 0 <= j < |tail| && tail[j] == rest[k];
          assert xs[j + 1] == rest[k];
        }
      }
    }
  }

  /** `sorted { $0.key < $1.key }`: insertion sort on the key. */
  function SortByKey<T>(xs: seq<(int, T)>): seq<(int, T)> {
    if xs == [] then [] else InsertByKey(xs[0], SortByKey(xs[1..]))
  }

  /** Sorting gives the same elements in key order. */
  lemma {:induction false} SortByKeySorts<T>(xs: seq<(int, T)>)
    ensures SortedByKey(SortByKey(xs))
    ensures multiset(SortByKey(xs)) == multiset(xs)
  {
    if xs != [] {
      assert xs == [xs[0]] + xs[1..];
      SortByKeySorts(xs[1..]);
      InsertByKeySorted(xs[0], SortByKey(xs[1..]));
      InsertByKeyAdds(xs[0], SortByKey(xs[1..]));
    }
  }

  /** `filter { $0.key >= bound }` */
  function KeyAtLeast<T>(xs: seq<(int, T)>, bound: int): seq<(int, T)> {
    if xs == [] then []
    else (if xs[0].0 >= bound then [xs[0]] else []) + KeyAtLeast(xs[1..], bound)
  }

  /** The filter keeps exactly the elements whose key reaches `bound`, each
      as often as it occurs. */
  lemma {:induction false} KeyAtLeastKeeps<T>(xs: seq<(int, T)>, bound: int)
    ensures forall p :: multiset(KeyAtLeast(xs, bound))[p] == if p.0 >= bound then multiset(xs)[p] else 0
  {
    if xs != [] {
      KeyAtLeastKeeps(xs[1..], bound);
      assert xs == [xs[0]] + xs[1..];
    }
  }

  /** Filtering distributes over appending one element. */
  lemma {:induction false} KeyAtLeastAppend<T>(xs: seq<(int, T)>, x: (int, T), bound: int)
    ensures KeyAtLeast(xs + [x], bound) == KeyAtLeast(xs, bound) + (if x.0 >= bound then [x] else [])
  {
    if xs == [] {
      assert [x][1..] == [];
    } else {
      assert (xs + [x])[1..] == xs[1..] + [x];
      KeyAtLeastAppend(xs[1..], x, bound);
    }
  }

  /** The filter keeps one element per position whose key reaches `bound`. */
  lemma {:induction false} KeyAtLeastCount<T>(xs: seq<(int, T)>, bound: int)
    ensures |KeyAtLeast(xs, bound)| == |set i | 0 <= i < |xs| && xs[i].0 >= bound|
    decreases |xs|
  {
    if xs != [] {
      var n := |xs| - 1;
      var init := xs[..n];
      assert xs == init + [xs[n]];
      KeyAtLeastAppend(init, xs[n], bound);
      KeyAtLeastCount(init, bound);
      var before := set i | 0 <= i < |init| && init[i].0 >= bound;
      var after := set i | 0 <= i < |xs| && xs[i].0 >= bound;
      if xs[n].0 >= bound {
        assert after == before + {n};
      } else {
        assert after == before;
      }
    }
  }

  /** Filtering then sorting keeps exactly the elements whose key reaches
      `bound`, each as often as it occurs, one per such position, in key
      order. */
  lemma SortedAtLeast<T>(xs: seq<(int, T)>, bound: int)
    ensures var r := SortByKey(KeyAtLeast(xs, bound));
      && SortedByKey(r)
      && (forall p :: multiset(r)[p] == if p.0 >= bound then multiset(xs)[p] else 0)
      && (forall p :: p in r <==> p in xs && p.0 >= bound)
      && |r| == |set i | 0 <= i < |xs| && xs[i].0 >= bound|
  {
    var kept := KeyAtLeast(xs, bound);
    var r := SortByKey(kept);
    KeyAtLeastKeeps(xs, bound);
    KeyAtLeastCount(xs, bound);
    SortByKeySorts(kept);
    assert |r| == |multiset(r)| == |multiset(kept)| == |kept|;
    forall p
      ensures p in r <==> p in xs && p.0 >= bound
    {
      assert p in r <==> p in multiset(r);
      assert p in xs <==> p in multiset(xs);
    }
  }

  /** The elements of a keyed list without their keys. */
  function Values<T>(xs: seq<(int, T)>): seq<T> {
    if xs == [] then [] else [xs[0].1] + Values(xs[1..])
  }

  lemma ValuesPrepend<T>(x: (int, T), xs: seq<(int, T)>)
    ensures Values([x] + xs) == [x.1] + Values(xs)
  {
    assert ([x] + xs)[1..] == xs;
  }

  lemma {:induction false} ValuesAt<T>(xs: seq<(int, T)>)
    ensures |Values(xs)| == |xs| && forall i :: 0 <= i < |xs| ==> Values(xs)[i] == xs[i].1
  {
    if xs != [] {
      ValuesAt(xs[1..]);
    }
  }

  /** Insertion adds exactly the value of `x` to the values. */
  lemma {:induction false} InsertByKeyValues<T>(x: (int, T), xs: seq<(int, T)>)
    ensures multiset(Values(InsertByKey(x, xs))) == multiset(Values(xs)) + multiset{x.1}
  {
    if xs == [] {
    } else if x.0 < xs[0].0 {
      assert ([x] + xs)[1..] == xs;
    } else {
      var rest := InsertByKey(x, xs[1..]);
      assert ([xs[0]] + rest)[1..] == rest;
      InsertByKeyValues(x, xs[1..]);
    }
  }

  /** Sorting by key permutes the values. */
  lemma {:induction false} SortByKeyValues<T>(xs: seq<(int, T)>)
    ensures multiset(Values(SortByKey(xs))) == multiset(Values(xs))
  {
    if xs != [] {
      SortByKeyValues(xs[1..]);
      InsertByKeyValues(xs[0], SortByKey(xs[1..]));
    }
  }
}
