/**
 * The `median` helper of the serialisation benchmark (evatest/MeasureSerialize.kt): sort
 * the samples, then take the middle one, or for an even count the mean of the two middle
 * ones, truncated toward zero. `MedianAsWritten` keeps the source's 64-bit addition, which
 * wraps; `Median` takes the mean exactly, which is what the helper evidently means.
 */
module MeasureSerialize {
  import opened Bytes
  import opened Wrappers

  predicate Sorted(s: seq<int>) {
    forall i, j :: 0 <= i < j < |s| ==> s[i] <= s[j]
  }

  /** Inserts `x` in front of the first larger element. */
  function Insert(x: int, s: seq<int>): (r: seq<int>)
    requires Sorted(s)
    ensures |r| == |s| + 1 && Sorted(r) && multiset(r) == multiset(s) + multiset{x}
  {
    if s == [] then [x]
    else if x <= s[0] then
      SortedCons(x, s);
      [x] + s
    else
      SortedTail(s);
      var rest := Insert(x, s[1..]);
      assert s == [s[0]] + s[1..];
      LeastOfInsert(x, s[0], s[1..], rest);
      SortedCons(s[0], rest);
      [s[0]] + rest
  }

  /** A sorted sequence stays sorted behind a head no larger than any of its elements. */
  lemma SortedCons(h: int, t: seq<int>)
    requires Sorted(t) && (t == [] || h <= t[0])
    ensures Sorted([h] + t)
  {
    var r := [h] + t;
    forall i, j | 0 <= i < j < |r| ensures r[i] <= r[j] {
      if i == 0 {
        assert r[j] == t[j - 1] && t[0] <= t[j - 1];
      } else {
        assert r[i] == t[i - 1] && r[j] == t[j - 1];
      }
    }
  }

  /** What `Insert` returns for a tail bounded below by `h` still starts at or above `h`. */
  lemma LeastOfInsert(x: int, h: int, t: seq<int>, rest: seq<int>)
    requires h < x && (forall y <- t :: h <= y) && rest != []
    requires multiset(rest) == multiset(t) + multiset{x}
    ensures h <= rest[0]
  {
    assert rest[0] in multiset(rest);
    if rest[0] != x {
      assert rest[0] in multiset(t);
      assert rest[0] in t;
    }
  }

  /** `List<Long>.sorted()`: the ascending permutation of the samples. */
  function Sort(s: seq<int>): (r: seq<int>)
    ensures |r| == |s| && Sorted(r) && multiset(r) == multiset(s)
  {
    if s == [] then []
    else
      assert s == [s[0]] + s[1..];
      Insert(s[0], Sort(s[1..]))
  }

  lemma SortedTail(a: seq<int>)
    requires Sorted(a) && a != []
    ensures Sorted(a[1..]) && forall x <- a[1..] :: a[0] <= x
  {
    forall i, j | 0 <= i < j < |a| - 1 ensures a[1..][i] <= a[1..][j] {
      assert a[1..][i] == a[i + 1] && a[1..][j] == a[j + 1];
    }
  }

  /** The first element of a nonempty sorted sequence is its least element. */
  lemma SortedHeadIsLeast(a: seq<int>, x: int)
    requires Sorted(a) && x in multiset(a)
    ensures a[0] <= x
  {
    var j :| 0 <= j < |a| && a[j] == x;
  }

  /** A sorted sequence is determined by its elements: two sorted permutations are equal. */
  lemma {:induction false} SortedUnique(a: seq<int>, b: seq<int>)
    requires Sorted(a) && Sorted(b) && multiset(a) == multiset(b)
    ensures a == b
  {
    if a == [] {
      assert |multiset(b)| == 0;
    } else {
      assert |b| == |a| by { assert |multiset(b)| == |multiset(a)|; }
      assert a[0] in multiset(a) && b[0] in multiset(b);
      SortedHeadIsLeast(a, b[0]);
      SortedHeadIsLeast(b, a[0]);
      assert a[0] == b[0];
      assert a == [a[0]] + a[1..];
      assert b == [b[0]] + b[1..];
      assert multiset(a[1..]) == multiset(b[1..]) by {
        assert multiset(a[1..]) == multiset(a) - multiset{a[0]};
        assert multiset(b[1..]) == multiset(b) - multiset{b[0]};
      }
      SortedTail(a);
      SortedTail(b);
      SortedUnique(a[1..], b[1..]);
    }
  }

  /**
   * The middle of a sorted nonempty list as `median` computes it, with the sum of the two
   * middle elements taken exactly: the element at `size / 2` when the size is odd, the mean
   * of the elements at `size / 2` and `(size - 1) / 2`, truncated toward zero, when even.
   * It lies between those two elements, which coincide when the size is odd.
   */
  function MiddleOf(it: seq<int>): (r: int)
    requires Sorted(it) && |it| > 0
    ensures it[(|it| - 1) / 2] <= r <= it[|it| / 2]
  {
    var lo, hi := it[(|it| - 1) / 2], it[|it| / 2];
    if |it| % 2 == 0 then HalfTowardZero(hi + lo) else hi
  }

  /** The same with the sum of the two middle elements wrapped to 64 bits, as Kotlin's `Long` addition does. */
  function MiddleOfWrapped(it: seq<int>): (r: Long)
    requires Sorted(it) && |it| > 0 && LongMin <= it[(|it| - 1) / 2] && it[|it| / 2] <= LongMax
    ensures LongMin <= it[(|it| - 1) / 2] + it[|it| / 2] <= LongMax ==> r == MiddleOf(it)
  {
    var lo, hi := it[(|it| - 1) / 2], it[|it| / 2];
    if |it| % 2 == 0 then HalfTowardZero(WrapLong(hi + lo)) else hi
  }

  /** The middle elements of the sorted samples are samples, so they are `Long`s. */
  lemma MiddleIn(list: seq<Long>, it: seq<int>)
    requires multiset(it) == multiset(list) && |it| > 0
    ensures LongMin <= it[(|it| - 1) / 2] <= LongMax && LongMin <= it[|it| / 2] <= LongMax
    ensures it[|it| / 2] in list && it[(|it| - 1) / 2] in list
  {
    assert |it| == |list| by { assert |multiset(it)| == |multiset(list)|; }
    assert it[|it| / 2] in multiset(list);
    assert it[(|it| - 1) / 2] in multiset(list);
  }

  /**
   * `median` as written: the even case adds the two middle samples in 64-bit arithmetic,
   * which wraps, before halving. An empty list has no middle; `it[0]` then throws.
   */
  function MedianAsWritten(list: seq<Long>): (r: Option<Long>)
    ensures r.None? <==> list == []
  {
    if list == [] then None
    else
      var it := Sort(list);
      MiddleIn(list, it);
      Some(MiddleOfWrapped(it))
  }

  /**
   * `median` with the mean of the two middle samples taken exactly: the result lies between
   * two samples, so it is always a `Long`. An empty list has no median.
   */
  function Median(list: seq<Long>): (r: Option<Long>)
    ensures r.None? <==> list == []
    ensures r.Some? ==> exists x <- list, y <- list :: x <= r.value <= y
  {
    if list == [] then None
    else
      var it := Sort(list);
      MiddleIn(list, it);
      Some(MiddleOf(it))
  }

  /**
   * Two samples at the top of the `Long` range: the source's median is -1, while their
   * median is the common value itself.
   */
  lemma MedianAsWrittenOverflows()
    ensures MedianAsWritten([LongMax, LongMax]) == Some(-1)
    ensures Median([LongMax, LongMax]) == Some(LongMax)
  {
    var list: seq<Long> := [LongMax, LongMax];
    SortTwoEqual(LongMax);
    assert WrapLong(LongMax + LongMax) == -2;
    assert MiddleOfWrapped(list) == HalfTowardZero(-2) == -1;
    assert MiddleOf(list) == HalfTowardZero(2 * LongMax) == LongMax;
  }

  lemma SortTwoEqual(x: int)
    ensures Sort([x, x]) == [x, x]
  {
    assert [x, x][1..] == [x];
    assert Sort([x]) == [x];
  }

  /** The middle of a sorted list splits it: the lower half lies at or below it, the upper half at or above. */
  lemma MiddleSplits(it: seq<int>)
    requires Sorted(it) && |it| > 0
    ensures forall i :: 0 <= i < (|it| + 1) / 2 ==> it[i] <= MiddleOf(it)
    ensures forall i :: |it| / 2 <= i < |it| ==> MiddleOf(it) <= it[i]
  {
    var lo := (|it| - 1) / 2;
    assert (|it| + 1) / 2 == lo + 1;
  }

  /**
   * The median splits the sorted samples in two halves: every sample in the lower half is at
   * most the median and every sample in the upper half at least it.
   */
  lemma MedianSplits(list: seq<Long>)
    requires list != []
    ensures var it := Sort(list); var m := Median(list).value;
      && (forall i :: 0 <= i < (|it| + 1) / 2 ==> it[i] <= m)
      && (forall i :: |it| / 2 <= i < |it| ==> m <= it[i])
  {
    assert Median(list).value == MiddleOf(Sort(list));
    MiddleSplits(Sort(list));
  }

  /** The median depends only on which samples there are, not on the order they come in. */
  lemma MedianOrderFree(a: seq<Long>, b: seq<Long>)
    requires multiset(a) == multiset(b)
    ensures Median(a) == Median(b)
  {
    if a != [] {
      assert |b| == |a| by { assert |multiset(b)| == |multiset(a)|; }
      SortedUnique(Sort(a), Sort(b));
    } else {
      assert |multiset(b)| == 0;
    }
  }

  /** Whenever the two middle samples sum within the `Long` range, the source's median is the median. */
  lemma MedianAsWrittenAgrees(list: seq<Long>)
    requires list != []
    requires var it := Sort(list); LongMin <= it[(|it| - 1) / 2] + it[|it| / 2] <= LongMax
    ensures MedianAsWritten(list) == Median(list)
  {
    var it := Sort(list);
    MiddleIn(list, it);
    assert MiddleOfWrapped(it) == MiddleOf(it);
    assert MedianAsWritten(list) == Some(MiddleOfWrapped(it));
    assert Median(list) == Some(MiddleOf(it));
  }
}
