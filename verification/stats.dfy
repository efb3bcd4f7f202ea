/** `statistics.median` as the source uses it: the column is sorted, then the
    middle element is taken for an odd count and the mean of the two middle
    elements for an even count. An empty column has no median. */
module Stats {
  import opened Results
  import opened Sorting

  /** The least value of a non-empty column. */
  function Min(s: seq<real>): (m: real)
    requires |s| > 0
    ensures m in s
    ensures forall i :: 0 <= i < |s| ==> m <= s[i]
  {
    if |s| == 1 then s[0]
    else
      assert s == [s[0]] + s[1..];
      var rest := Min(s[1..]);
      if s[0] <= rest then s[0] else rest
  }

  /** The greatest value of a non-empty column. */
  function Max(s: seq<real>): (m: real)
    requires |s| > 0
    ensures m in s
    ensures forall i :: 0 <= i < |s| ==> s[i] <= m
  {
    if |s| == 1 then s[0]
    else
      assert s == [s[0]] + s[1..];
      var rest := Max(s[1..]);
      if s[0] >= rest then s[0] else rest
  }

  /** How many values of `s` lie strictly below `v`. */
  function CountBelow(s: seq<real>, v: real): (n: nat)
    ensures n <= |s|
  {
    if |s| == 0 then 0
    else (if s[0] < v then 1 else 0) + CountBelow(s[1..], v)
  }

  /** How many values of `s` lie strictly above `v`. */
  function CountAbove(s: seq<real>, v: real): (n: nat)
    ensures n <= |s|
  {
    if |s| == 0 then 0
    else (if s[0] > v then 1 else 0) + CountAbove(s[1..], v)
  }

  /** The median of an already sorted, non-empty column. */
  function MedianOfSorted(t: seq<real>): real
    requires |t| > 0
  {
    if |t| % 2 == 1 then t[|t| / 2]
    else (t[|t| / 2 - 1] + t[|t| / 2]) / 2.0
  }

  /** The median of a column; `None` exactly when the column is empty. */
  function Median(s: seq<real>): (r: Option<real>)
    ensures r.Some? <==> |s| > 0
  {
    if |s| == 0 then None else Some(MedianOfSorted(Sort(s)))
  }

  /** Every value `v` shifted down by `c`: the noise subtraction of one channel. */
  function Shift(s: seq<real>, c: real): (r: seq<real>)
    ensures |r| == |s|
    ensures forall i :: 0 <= i < |s| ==> r[i] == s[i] - c
  {
    seq(|s|, i requires 0 <= i < |s| => s[i] - c)
  }

  /** The median depends only on the multiset of values, not on their order. */
  lemma MedianPermutationInvariant(a: seq<real>, b: seq<real>)
    requires multiset(a) == multiset(b)
    ensures Median(a) == Median(b)
  {
    assert |a| == |multiset(a)| == |multiset(b)| == |b|;
    SortDeterminedByMultiset(a, b);
  }

  /** The median lies between the least and the greatest value, for odd and even counts. */
  lemma MedianWithinRange(s: seq<real>)
    requires |s| > 0
    ensures Min(s) <= Median(s).value <= Max(s)
  {
    var t := Sort(s);
    SortedMedianBetweenEnds(t);
    assert t[0] in multiset(s) && t[|t| - 1] in multiset(s);
    assert t[0] in s && t[|t| - 1] in s;
    assert Median(s).value == MedianOfSorted(t);
  }

  /** A sorted column's median lies between its first and last values. */
  lemma SortedMedianBetweenEnds(t: seq<real>)
    requires |t| > 0 && Sorted(t)
    ensures t[0] <= MedianOfSorted(t) <= t[|t| - 1]
  {
    if |t| % 2 == 0 {
      assert t[0] <= t[|t| / 2 - 1] <= t[|t| / 2] <= t[|t| - 1];
    } else {
      assert t[0] <= t[|t| / 2] <= t[|t| - 1];
    }
  }

  lemma {:induction false} CountBelowInsert(x: real, t: seq<real>, v: real)
    requires Sorted(t)
    ensures CountBelow(Insert(x, t), v) == CountBelow([x] + t, v)
    decreases |t|
  {
    if |t| > 0 && x > t[0] {
      CountBelowInsert(x, t[1..], v);
      assert ([x] + t)[1..] == t;
      assert ([x] + t[1..])[1..] == t[1..];
      assert ([t[0]] + Insert(x, t[1..]))[1..] == Insert(x, t[1..]);
      assert t[1..] == ([x] + t)[1..][1..];
    }
  }

  lemma {:induction false} CountAboveInsert(x: real, t: seq<real>, v: real)
    requires Sorted(t)
    ensures CountAbove(Insert(x, t), v) == CountAbove([x] + t, v)
    decreases |t|
  {
    if |t| > 0 && x > t[0] {
      CountAboveInsert(x, t[1..], v);
      assert ([x] + t)[1..] == t;
      assert ([x] + t[1..])[1..] == t[1..];
      assert ([t[0]] + Insert(x, t[1..]))[1..] == Insert(x, t[1..]);
    }
  }

  /** Sorting keeps the number of values below and above any level. */
  lemma {:induction false} CountsOfSort(s: seq<real>, v: real)
    ensures CountBelow(Sort(s), v) == CountBelow(s, v)
    ensures CountAbove(Sort(s), v) == CountAbove(s, v)
    decreases |s|
  {
    if |s| > 0 {
      CountsOfSort(s[1..], v);
      CountBelowInsert(s[0], Sort(s[1..]), v);
      CountAboveInsert(s[0], Sort(s[1..]), v);
      assert ([s[0]] + Sort(s[1..]))[1..] == Sort(s[1..]);
    }
  }

  /** If every value from position `k` on is at least `v`, at most `k` values lie below `v`. */
  lemma {:induction false} CountBelowPrefix(s: seq<real>, v: real, k: nat)
    requires k <= |s|
    requires forall j :: k <= j < |s| ==> v <= s[j]
    ensures CountBelow(s, v) <= k
    decreases |s|
  {
    if |s| > 0 {
      if k == 0 {
        CountBelowPrefix(s[1..], v, 0);
      } else {
        CountBelowPrefix(s[1..], v, k - 1);
      }
    }
  }

  /** If every value before position `k` is at most `v`, at most `|s| - k` values lie above `v`. */
  lemma {:induction false} CountAbovePrefix(s: seq<real>, v: real, k: nat)
    requires k <= |s|
    requires forall j :: 0 <= j < k ==> s[j] <= v
    ensures CountAbove(s, v) <= |s| - k
    decreases |s|
  {
    if |s| > 0 && k > 0 {
      CountAbovePrefix(s[1..], v, k - 1);
    }
  }

  /** In a sorted column the value at position `k` bounds everything before
      it from above and everything after it from below. */
  lemma SortedAround(t: seq<real>, k: nat)
    requires Sorted(t) && k < |t|
    ensures forall j :: k <= j < |t| ==> t[k] <= t[j]
    ensures forall j :: 0 <= j <= k ==> t[j] <= t[k]
  {
  }

  /** On a sorted column, at most half of the values lie on either side of the median. */
  lemma SortedMedianBalanced(t: seq<real>)
    requires Sorted(t) && |t| > 0
    ensures CountBelow(t, MedianOfSorted(t)) <= |t| / 2
    ensures CountAbove(t, MedianOfSorted(t)) <= |t| / 2
  {
    var m := MedianOfSorted(t);
    var h := |t| / 2;
    if |t| % 2 == 1 {
      assert m == t[h];
      SortedAround(t, h);
      CountBelowPrefix(t, m, h);
      CountAbovePrefix(t, m, h + 1);
    } else {
      assert t[h - 1] <= m <= t[h] by { SortedAround(t, h); }
      SortedAround(t, h);
      SortedAround(t, h - 1);
      CountBelowPrefix(t, m, h);
      CountAbovePrefix(t, m, h);
    }
  }

  /** The median balances the column: at most half of the values lie strictly
      below it and at most half strictly above it. */
  lemma MedianBalanced(s: seq<real>)
    requires |s| > 0
    ensures CountBelow(s, Median(s).value) <= |s| / 2
    ensures CountAbove(s, Median(s).value) <= |s| / 2
  {
    var t := Sort(s);
    assert |t| == |s| by { assert |multiset(t)| == |multiset(s)|; }
    SortedMedianBalanced(t);
    CountsOfSort(s, MedianOfSorted(t));
  }

  /** Shifting permuted columns yields permuted columns. */
  lemma ShiftPermutation(a: seq<real>, b: seq<real>, c: real)
    requires multiset(a) == multiset(b)
    ensures multiset(Shift(a, c)) == multiset(Shift(b, c))
  {
    var f := (v: real) => v - c;
    assert Shift(a, c) == Image(f, a);
    assert Shift(b, c) == Image(f, b);
    ImagePermutation(f, a, b);
  }

  lemma SortedShift(t: seq<real>, c: real)
    requires Sorted(t)
    ensures Sorted(Shift(t, c))
  {
  }

  lemma MedianOfSortedShift(t: seq<real>, c: real)
    requires |t| > 0
    ensures MedianOfSorted(Shift(t, c)) == MedianOfSorted(t) - c
  {
  }

  /** Sorting a shifted column gives the shifted sorted column. */
  lemma SortShift(s: seq<real>, c: real)
    ensures Sort(Shift(s, c)) == Shift(Sort(s), c)
  {
    var t := Sort(s);
    ShiftPermutation(t, s, c);
    SortedShift(t, c);
    SortedUnique(Sort(Shift(s, c)), Shift(t, c));
  }

  /** Subtracting a constant from every value subtracts it from the median:
      the subtraction is not clipped, so nothing is lost. */
  lemma MedianShift(s: seq<real>, c: real)
    requires |s| > 0
    ensures Median(Shift(s, c)).Some?
    ensures Median(Shift(s, c)).value == Median(s).value - c
  {
    var t := Sort(s);
    assert |t| == |s| by { assert |multiset(t)| == |multiset(s)|; }
    SortShift(s, c);
    MedianOfSortedShift(t, c);
  }
}
