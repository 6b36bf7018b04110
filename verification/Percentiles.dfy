/** The statistics of one buffer of values. */
module Percentiles {
  ghost predicate Ascending(a: seq<real>) {
    forall i, j :: 0 <= i < j < |a| ==> a[i] <= a[j]
  }

  function Insert(a: seq<real>, x: real): seq<real> {
    if a == [] || a[|a| - 1] <= x then a + [x]
    else Insert(a[..|a| - 1], x) + [a[|a| - 1]]
  }

  /** What sorting leaves behind; the sorting algorithm itself is Go's. */
  function Sort(a: seq<real>): seq<real> {
    if a == [] then [] else Insert(Sort(a[..|a| - 1]), a[|a| - 1])
  }

  /** How many values are at most p. */
  function AtMost(a: seq<real>, p: real): nat {
    if a == [] then 0 else AtMost(a[..|a| - 1], p) + if a[|a| - 1] <= p then 1 else 0
  }

  lemma {:induction false} InsertMembers(a: seq<real>, x: real)
    ensures forall y :: y in Insert(a, x) ==> y in a || y == x
  {
    if a != [] && x < a[|a| - 1] {
      InsertMembers(a[..|a| - 1], x);
    }
  }

  lemma {:induction false} InsertIsAscending(a: seq<real>, x: real)
    requires Ascending(a)
    ensures Ascending(Insert(a, x))
  {
    if a != [] && x < a[|a| - 1] {
      var n, front := |a| - 1, a[..|a| - 1];
      InsertIsAscending(front, x);
      InsertMembers(front, x);
      var r := Insert(front, x);
      forall i | 0 <= i < |r| ensures r[i] <= a[n] {
        assert r[i] in front || r[i] == x;
      }
    }
  }

  lemma {:induction false} InsertPermutes(a: seq<real>, x: real)
    ensures multiset(Insert(a, x)) == multiset(a) + multiset{x}
  {
    if a != [] && x < a[|a| - 1] {
      InsertPermutes(a[..|a| - 1], x);
      assert a == a[..|a| - 1] + [a[|a| - 1]];
    }
  }

  lemma {:induction false} SortIs(a: seq<real>)
    ensures Ascending(Sort(a)) && multiset(Sort(a)) == multiset(a) && |Sort(a)| == |a|
  {
    if a != [] {
      var n, front := |a| - 1, a[..|a| - 1];
      SortIs(front);
      InsertIsAscending(Sort(front), a[n]);
      InsertPermutes(Sort(front), a[n]);
      assert a == front + [a[n]];
      assert |multiset(Sort(a))| == |multiset(a)|;
    }
  }

  lemma {:induction false} InsertCounts(a: seq<real>, x: real, p: real)
    ensures AtMost(Insert(a, x), p) == AtMost(a, p) + if x <= p then 1 else 0
  {
    if a == [] || a[|a| - 1] <= x {
      assert (a + [x])[..|a|] == a;
    } else {
      var front := Insert(a[..|a| - 1], x);
      InsertCounts(a[..|a| - 1], x, p);
      assert (front + [a[|a| - 1]])[..|front|] == front;
    }
  }

  lemma {:induction false} SortCounts(a: seq<real>, p: real)
    ensures AtMost(Sort(a), p) == AtMost(a, p)
  {
    if a != [] {
      SortCounts(a[..|a| - 1], p);
      InsertCounts(Sort(a[..|a| - 1]), a[|a| - 1], p);
    }
  }

  lemma {:induction false} PrefixIsAtMost(a: seq<real>, k: nat)
    requires Ascending(a) && k < |a|
    ensures AtMost(a, a[k]) >= k + 1
  {
    AtMostFront(a, k + 1, a[k]);
    AllAtMost(a[..k + 1], a[k]);
  }

  lemma {:induction false} AtMostFront(a: seq<real>, n: nat, p: real)
    requires n <= |a|
    ensures AtMost(a, p) >= AtMost(a[..n], p)
    decreases |a|
  {
    if n == |a| {
      assert a[..n] == a;
    } else {
      assert a[..|a| - 1][..n] == a[..n];
      AtMostFront(a[..|a| - 1], n, p);
    }
  }

  lemma {:induction false} AllAtMost(a: seq<real>, p: real)
    requires forall i :: 0 <= i < |a| ==> a[i] <= p
    ensures AtMost(a, p) == |a|
  {
    if a != [] {
      AllAtMost(a[..|a| - 1], p);
    }
  }

  // ---- The statistics, of a buffer that was sorted -----------------------------------------------------

  function Min(a: seq<real>): real
    requires a != []
  {
    a[0]
  }

  function P95(a: seq<real>): real
    requires a != []
  {
    a[95 * |a| / 100]
  }

  function P99(a: seq<real>): real
    requires a != []
  {
    a[99 * |a| / 100]
  }

  function Max(a: seq<real>): real
    requires a != []
  {
    a[|a| - 1]
  }

  /** What the program's arithmetic makes of an exact result. */
  type Rounding = real -> real

  /** The sum as the program adds it up, rounding after every step. */
  function Sum(fl: Rounding, a: seq<real>): real {
    if a == [] then 0.0 else fl(Sum(fl, a[..|a| - 1]) + a[|a| - 1])
  }

  function Average(fl: Rounding, a: seq<real>): real
    requires a != []
  {
    fl(Sum(fl, a) / (|a| as real))
  }

  method SumLoop(fl: Rounding, a: seq<real>) returns (sum: real)
    ensures sum == Sum(fl, a)
  {
    sum := 0.0;
    for i := 0 to |a|
      invariant sum == Sum(fl, a[..i])
    {
      assert a[..i + 1][..i] == a[..i];
      sum := fl(sum + a[i]);
    }
    assert a[..|a|] == a;
  }

  /** The index of the q-th percentile. */
  lemma IndexOf(n: nat, q: nat)
    requires n > 0 && q < 100
    ensures 0 <= q * n / 100 < n && 100 * (q * n / 100 + 1) > q * n
  {
  }

  lemma {:induction false} PercentileCounts(values: seq<real>, k: nat)
    requires k < |values|
    ensures |Sort(values)| == |values| && AtMost(values, Sort(values)[k]) >= k + 1
  {
    SortIs(values);
    PrefixIsAtMost(Sort(values), k);
    SortCounts(values, Sort(values)[k]);
  }

  lemma {:induction false} SortMembers(values: seq<real>, x: real)
    ensures x in Sort(values) <==> x in values
  {
    SortIs(values);
    assert x in multiset(Sort(values)) <==> x in multiset(values);
  }

  /** More than 95% of the values are at most p95, and more than 99% at most p99, whatever order they came in. */
  lemma {:induction false} PercentilesMean(values: seq<real>)
    requires values != []
    ensures Sort(values) != []
    ensures 100 * AtMost(values, P95(Sort(values))) > 95 * |values|
    ensures 100 * AtMost(values, P99(Sort(values))) > 99 * |values|
  {
    var n := |values|;
    SortIs(values);
    IndexOf(n, 95);
    IndexOf(n, 99);
    PercentileCounts(values, 95 * n / 100);
    PercentileCounts(values, 99 * n / 100);
  }

  /** How many values are at least p. */
  function AtLeast(a: seq<real>, p: real): nat {
    if a == [] then 0 else AtLeast(a[..|a| - 1], p) + if a[|a| - 1] >= p then 1 else 0
  }

  lemma {:induction false} InsertCountsFrom(a: seq<real>, x: real, p: real)
    ensures AtLeast(Insert(a, x), p) == AtLeast(a, p) + if x >= p then 1 else 0
  {
    if a == [] || a[|a| - 1] <= x {
      assert (a + [x])[..|a|] == a;
    } else {
      var front := Insert(a[..|a| - 1], x);
      InsertCountsFrom(a[..|a| - 1], x, p);
      assert (front + [a[|a| - 1]])[..|front|] == front;
    }
  }

  lemma {:induction false} SortCountsFrom(a: seq<real>, p: real)
    ensures AtLeast(Sort(a), p) == AtLeast(a, p)
  {
    if a != [] {
      SortCountsFrom(a[..|a| - 1], p);
      InsertCountsFrom(Sort(a[..|a| - 1]), a[|a| - 1], p);
    }
  }

  /** From the k-th value of a sorted buffer on, all are at least that. */
  lemma {:induction false} SuffixIsAtLeast(a: seq<real>, k: nat, p: real)
    requires Ascending(a) && k <= |a| && (k < |a| ==> p <= a[k])
    ensures AtLeast(a, p) >= |a| - k
  {
    if k < |a| {
      SuffixIsAtLeast(a[..|a| - 1], k, p);
    }
  }

  lemma SuffixIndex(n: nat, q: nat)
    requires n > 0 && q < 100
    ensures 100 * (n - q * n / 100) >= (100 - q) * n
  {
  }

  /** At least 5% of the values are at least p95, and at least 1% at least p99: no other index does both. */
  lemma PercentilesAreTight(values: seq<real>)
    requires values != []
    ensures Sort(values) != []
    ensures 100 * AtLeast(values, P95(Sort(values))) >= 5 * |values|
    ensures 100 * AtLeast(values, P99(Sort(values))) >= 1 * |values|
  {
    var a, n := Sort(values), |values|;
    SortIs(values);
    IndexOf(n, 95);
    IndexOf(n, 99);
    SuffixIndex(n, 95);
    SuffixIndex(n, 99);
    SuffixIsAtLeast(a, 95 * n / 100, P95(a));
    SuffixIsAtLeast(a, 99 * n / 100, P99(a));
    SortCountsFrom(values, P95(a));
    SortCountsFrom(values, P99(a));
  }

  /** The statistics are values of the buffer, in order, and all values lie between the first and the last. */
  lemma {:induction false} StatisticsAreOrdered(values: seq<real>)
    requires values != []
    ensures var a := Sort(values);
            && a != [] && Min(a) <= P95(a) <= P99(a) <= Max(a)
            && Min(a) in values && P95(a) in values && P99(a) in values && Max(a) in values
            && forall x :: x in values ==> Min(a) <= x <= Max(a)
  {
    var a, n := Sort(values), |values|;
    SortIs(values);
    IndexOf(n, 95);
    IndexOf(n, 99);
    SortMembers(values, Min(a));
    SortMembers(values, P95(a));
    SortMembers(values, P99(a));
    SortMembers(values, Max(a));
    forall x | x in values ensures Min(a) <= x <= Max(a) {
      SortMembers(values, x);
    }
  }

  // ---- The average -------------------------------------------------------------------------------------

  ghost predicate Monotone(fl: Rounding) {
    forall x, y :: x <= y ==> fl(x) <= fl(y)
  }

  lemma Keeps(fl: Rounding, x: real, y: real)
    requires Monotone(fl) && x <= y
    ensures fl(x) <= fl(y)
  {
  }

  function Multiple(x: real, k: nat): real {
    if k == 0 then 0.0 else Multiple(x, k - 1) + x
  }

  lemma {:induction false} MultipleIs(x: real, k: nat)
    ensures Multiple(x, k) == x * (k as real)
  {
    if k > 0 {
      MultipleIs(x, k - 1);
      assert x * (k as real) == x * ((k - 1) as real) + x;
    }
  }

  /** The first multiples of a number are not rounded. */
  ghost predicate KeepsMultiples(fl: Rounding, x: real, n: nat) {
    forall k: nat :: 1 <= k <= n ==> fl(Multiple(x, k)) == Multiple(x, k)
  }

  /** So many values between lo and hi have a sum, as the program adds it up, between so many times lo and hi. */
  lemma {:induction false} SumStaysBetween(fl: Rounding, a: seq<real>, lo: real, hi: real)
    requires Monotone(fl) && KeepsMultiples(fl, lo, |a|) && KeepsMultiples(fl, hi, |a|)
    requires forall i :: 0 <= i < |a| ==> lo <= a[i] <= hi
    ensures Multiple(lo, |a|) <= Sum(fl, a) <= Multiple(hi, |a|)
  {
    if a != [] {
      var n, sum := |a|, Sum(fl, a[..|a| - 1]) + a[|a| - 1];
      SumStaysBetween(fl, a[..n - 1], lo, hi);
      Keeps(fl, Multiple(lo, n), sum);
      Keeps(fl, sum, Multiple(hi, n));
    }
  }

  lemma FirstMultiple(fl: Rounding, x: real, n: nat)
    requires n >= 1 && KeepsMultiples(fl, x, n)
    ensures fl(x) == x
  {
    assert Multiple(x, 1) == Multiple(x, 0) + x == x;
  }

  lemma RoundedBetween(fl: Rounding, sum: real, n: nat, lo: real, hi: real)
    requires Monotone(fl) && n > 0 && Multiple(lo, n) <= sum <= Multiple(hi, n) && fl(lo) == lo && fl(hi) == hi
    ensures lo <= fl(sum / (n as real)) <= hi
  {
    QuotientBetween(sum, n, lo, hi);
    Keeps(fl, lo, sum / (n as real));
    Keeps(fl, sum / (n as real), hi);
  }

  /** So a sum divided by their number is between them again. */
  lemma QuotientBetween(sum: real, n: nat, lo: real, hi: real)
    requires n > 0 && Multiple(lo, n) <= sum <= Multiple(hi, n)
    ensures lo <= sum / (n as real) <= hi
  {
    MultipleIs(lo, n);
    MultipleIs(hi, n);
    DivBetween(sum, n as real, lo, hi);
  }

  /**
   For every rounding that keeps the order of numbers and the first n multiples of the smallest and of the largest of
   n values, their average lies between those two, however much the sums of the others are rounded on the way.
   */
  lemma AverageIsBetween(fl: Rounding, values: seq<real>)
    requires values != [] && Sort(values) != [] && Monotone(fl)
    requires KeepsMultiples(fl, Min(Sort(values)), |values|) && KeepsMultiples(fl, Max(Sort(values)), |values|)
    ensures Min(Sort(values)) <= Average(fl, Sort(values)) <= Max(Sort(values))
  {
    SortIs(values);
    var a := Sort(values);
    SumStaysBetween(fl, a, Min(a), Max(a));
    FirstMultiple(fl, Min(a), |a|);
    FirstMultiple(fl, Max(a), |a|);
    RoundedBetween(fl, Sum(fl, a), |a|, Min(a), Max(a));
  }

  /** The sum from the first value on, without any rounding. */
  function ExactTotal(a: seq<real>): real {
    if a == [] then 0.0 else a[0] + ExactTotal(a[1..])
  }

  lemma {:induction false} TotalSnoc(a: seq<real>, x: real)
    ensures ExactTotal(a + [x]) == ExactTotal(a) + x
  {
    if a == [] {
      assert [] + [x] == [x] && [x][1..] == [];
    } else {
      assert (a + [x])[1..] == a[1..] + [x];
      TotalSnoc(a[1..], x);
    }
  }

  lemma TotalFront(a: seq<real>)
    requires a != []
    ensures ExactTotal(a) == ExactTotal(a[..|a| - 1]) + a[|a| - 1]
  {
    TotalSnoc(a[..|a| - 1], a[|a| - 1]);
    assert a == a[..|a| - 1] + [a[|a| - 1]];
  }

  lemma {:induction false} InsertTotal(a: seq<real>, x: real)
    ensures ExactTotal(Insert(a, x)) == ExactTotal(a) + x
  {
    if a == [] || a[|a| - 1] <= x {
      TotalSnoc(a, x);
    } else {
      InsertTotal(a[..|a| - 1], x);
      TotalSnoc(Insert(a[..|a| - 1], x), a[|a| - 1]);
      TotalFront(a);
    }
  }

  lemma {:induction false} SortTotal(a: seq<real>)
    ensures ExactTotal(Sort(a)) == ExactTotal(a)
  {
    if a != [] {
      SortTotal(a[..|a| - 1]);
      InsertTotal(Sort(a[..|a| - 1]), a[|a| - 1]);
      TotalFront(a);
    }
  }

  lemma {:induction false} ExactSum(fl: Rounding, a: seq<real>)
    requires forall x :: fl(x) == x
    ensures Sum(fl, a) == ExactTotal(a)
  {
    if a != [] {
      ExactSum(fl, a[..|a| - 1]);
      TotalFront(a);
    }
  }

  /** In exact arithmetic the average is the total of the values, in whatever order, divided by their number. */
  lemma ExactAverage(fl: Rounding, values: seq<real>)
    requires values != [] && forall x :: fl(x) == x
    ensures Sort(values) != [] && Average(fl, Sort(values)) == ExactTotal(values) / (|values| as real)
  {
    SortIs(values);
    ExactSum(fl, Sort(values));
    SortTotal(values);
  }

  predicate KeepsInteger(fl: Rounding, k: int) { fl(k as real) == k as real }

  /** What float32 does not round: the integers of up to 24 bits. */
  ghost predicate KeepsIntegers(fl: Rounding) {
    forall k: int :: -16777216 <= k <= 16777216 ==> KeepsInteger(fl, k)
  }

  lemma IntegerMultiples(fl: Rounding, m: int, n: nat)
    requires KeepsIntegers(fl) && -16777216 <= m * n <= 16777216
    ensures KeepsMultiples(fl, m as real, n)
  {
    var x := m as real;
    forall k: nat | 1 <= k <= n ensures fl(Multiple(x, k)) == Multiple(x, k) {
      ProductInRange(m, k, n);
      MultipleIs(x, k);
      assert x * (k as real) == (m * k) as real;
      assert KeepsInteger(fl, m * k);
    }
  }

  lemma ProductInRange(m: int, k: nat, n: nat)
    requires k <= n && -16777216 <= m * n <= 16777216
    ensures -16777216 <= m * k <= 16777216
  {
    if m >= 0 {
      assert 0 <= m * k <= m * n;
    } else {
      assert 0 <= -m * k <= -m * n;
    }
  }

  /**
   In float32 the average is between the smallest and the largest value whenever these are integers, and n times each
   is at most 2^24 in size.
   */
  lemma IntegerAverageIsBetween(fl: Rounding, values: seq<real>, lo: int, hi: int)
    requires values != [] && Sort(values) != [] && Monotone(fl) && KeepsIntegers(fl)
    requires Min(Sort(values)) == lo as real && Max(Sort(values)) == hi as real
    requires -16777216 <= lo * |values| && hi * |values| <= 16777216
    ensures lo as real <= Average(fl, Sort(values)) <= hi as real
  {
    StatisticsAreOrdered(values);
    RangesFit(lo, hi, |values|);
    IntegerMultiples(fl, lo, |values|);
    IntegerMultiples(fl, hi, |values|);
    AverageIsBetween(fl, values);
  }

  lemma RangesFit(lo: int, hi: int, n: nat)
    requires lo <= hi && -16777216 <= lo * n && hi * n <= 16777216
    ensures lo * n <= 16777216 && -16777216 <= hi * n
  {
    assert lo * n <= hi * n;
  }

  lemma DivBetween(sum: real, n: real, lo: real, hi: real)
    requires n > 0.0 && lo * n <= sum <= hi * n
    ensures lo <= sum / n <= hi
  {
    var q := sum / n;
    assert q * n == sum;
    MulLess(q, lo, n);
    MulLess(hi, q, n);
  }

  lemma MulLess(x: real, y: real, n: real)
    requires n > 0.0
    ensures x < y ==> x * n < y * n
  {
    if x < y {
      assert (y - x) * n > 0.0;
    }
  }

  /** The nearest integer, and the even one of two. */
  function RoundEven(x: real): int {
    var below := x.Floor;
    var over := x - below as real;
    if over < 0.5 || (over == 0.5 && below % 2 == 0) then below else below + 1
  }

  /** The nearest multiple of the unit, which doubles until 24 bits are enough for the number. */
  function OnGrid(x: real, unit: real, doublings: nat): real
    requires unit > 0.0
    decreases doublings
  {
    if doublings == 0 || x < 16777216.0 * unit then (RoundEven(x / unit) as real) * unit
    else OnGrid(x, 2.0 * unit, doublings - 1)
  }

  /** Rounds as float32 does where its numbers are at least one apart, from 2^23 up. */
  ghost predicate RoundsLikeFloat32(fl: Rounding) {
    forall x :: x >= 8388608.0 ==> fl(x) == OnGrid(x, 1.0, 104)
  }

  /** The rounded average can leave the range: of 12428030, three times over, it is 12428029. */
  lemma AverageLeavesTheRange(fl: Rounding)
    requires RoundsLikeFloat32(fl)
    ensures var x := 12428030.0; Sort([x, x, x]) == [x, x, x] && Average(fl, [x, x, x]) == 12428029.0 < Min([x, x, x])
  {
    var x := 12428030.0;
    var a := [x, x, x];
    assert a[..2] == [x, x];
    SortEqual(x);
    FirstSums(fl);
    assert OnGrid(37284090.0, 1.0, 104) == OnGrid(37284090.0, 2.0, 103) == OnGrid(37284090.0, 4.0, 102);
    assert (37284090.0 / 4.0).Floor == 9321022;
    assert Sum(fl, a) == 37284088.0;
    var q := 37284088.0 / 3.0;
    assert q.Floor == 12428029 && RoundEven(q / 1.0) == 12428029;
    assert fl(q) == OnGrid(q, 1.0, 104);
  }

  lemma SortEqual(x: real)
    ensures Sort([x, x, x]) == [x, x, x]
  {
    assert [x][..0] == [] && [x, x][..1] == [x] && [x, x, x][..2] == [x, x];
    assert Sort([x]) == Insert([], x) == [x];
    assert Sort([x, x]) == Insert([x], x) == [x] + [x];
    assert Sort([x, x, x]) == Insert([x, x], x) == [x, x] + [x];
  }

  lemma FirstSums(fl: Rounding)
    requires RoundsLikeFloat32(fl)
    ensures var x := 12428030.0; Sum(fl, [x]) == x && Sum(fl, [x, x]) == 24856060.0
  {
    var x := 12428030.0;
    assert [x, x][..1] == [x] && [x][..0] == [];
    assert RoundEven(x / 1.0) == 12428030 && OnGrid(x, 1.0, 104) == x;
    assert RoundEven(24856060.0 / 2.0) == 12428030;
    assert OnGrid(24856060.0, 1.0, 104) == OnGrid(24856060.0, 2.0, 103) == 24856060.0;
  }
}
