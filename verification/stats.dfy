/**
 * Table-wide statistics of the joined table: the arithmetic mean of the
 * income column and pandas' default (linear interpolation) quantile of the
 * house-price column, plus the unused middle-class classifier built on the
 * same quantile.
 */
module Stats {
  import opened Base

  predicate Sorted(xs: seq<real>)
  {
    forall i, j :: 0 <= i < j < |xs| ==> xs[i] <= xs[j]
  }

  lemma {:induction false} ScaleWithin(d: real, g: real)
    requires 0.0 <= d && 0.0 <= g <= 1.0
    ensures 0.0 <= g * d <= d
  {
  }

  lemma {:induction false} ScaleMonotone(d: real, g1: real, g2: real)
    requires 0.0 <= d && g1 <= g2
    ensures g1 * d <= g2 * d
    ensures d * g1 <= d * g2
  {
  }

  lemma {:induction false} QuotientAtMost(s: real, n: real, m: real)
    requires 0.0 < n && s <= n * m
    ensures s / n <= m
  {
  }

  lemma {:induction false} QuotientAtLeast(s: real, n: real, m: real)
    requires 0.0 < n && n * m <= s
    ensures m <= s / n
  {
  }

  /** Inserts `x` into a sorted sequence, keeping it sorted. */
  function Insert(x: real, xs: seq<real>): (r: seq<real>)
    requires Sorted(xs)
    ensures |r| == |xs| + 1
    ensures Sorted(r)
    ensures multiset(r) == multiset(xs) + multiset{x}
    ensures |xs| > 0 ==> r[0] == (if x <= xs[0] then x else xs[0])
    decreases |xs|
  {
    if |xs| == 0 then [x]
    else if x <= xs[0] then [x] + xs
    else
      var rest := Insert(x, xs[1..]);
      assert xs == [xs[0]] + xs[1..];
      [xs[0]] + rest
  }

  /** The ascending order pandas uses before reading off order statistics. */
  function Sort(xs: seq<real>): (r: seq<real>)
    ensures |r| == |xs|
    ensures Sorted(r)
    ensures multiset(r) == multiset(xs)
    decreases |xs|
  {
    if |xs| == 0 then []
    else
      assert xs == [xs[0]] + xs[1..];
      Insert(xs[0], Sort(xs[1..]))
  }

  /** An element of the sorted sequence is an element of the input. */
  lemma {:induction false} SortedElement(xs: seq<real>, i: int)
    requires 0 <= i < |xs|
    ensures Sort(xs)[i] in xs
  {
    var v := Sort(xs);
    assert v[i] in multiset(v);
  }

  function Sum(xs: seq<real>): real
  {
    if |xs| == 0 then 0.0 else Sum(xs[..|xs| - 1]) + xs[|xs| - 1]
  }

  /** The largest element. */
  function MaxOf(xs: seq<real>): (r: real)
    requires |xs| > 0
    ensures r in xs
    ensures forall i :: 0 <= i < |xs| ==> xs[i] <= r
  {
    if |xs| == 1 then xs[0]
    else
      var m := MaxOf(xs[..|xs| - 1]);
      assert forall i :: 0 <= i < |xs| - 1 ==> xs[..|xs| - 1][i] == xs[i];
      if xs[|xs| - 1] <= m then m else xs[|xs| - 1]
  }

  /** The smallest element. */
  function MinOf(xs: seq<real>): (r: real)
    requires |xs| > 0
    ensures r in xs
    ensures forall i :: 0 <= i < |xs| ==> r <= xs[i]
  {
    if |xs| == 1 then xs[0]
    else
      var m := MinOf(xs[..|xs| - 1]);
      assert forall i :: 0 <= i < |xs| - 1 ==> xs[..|xs| - 1][i] == xs[i];
      if m <= xs[|xs| - 1] then m else xs[|xs| - 1]
  }

  /** `Series.mean()`: the sum divided by the number of rows. */
  function Mean(xs: seq<real>): (r: real)
    requires |xs| > 0
    ensures r * (|xs| as real) == Sum(xs)
  {
    Sum(xs) / (|xs| as real)
  }

  lemma {:induction false} SumAtMost(xs: seq<real>, m: real)
    requires forall i :: 0 <= i < |xs| ==> xs[i] <= m
    ensures Sum(xs) <= (|xs| as real) * m
    decreases |xs|
  {
    if |xs| > 0 {
      var init := xs[..|xs| - 1];
      assert forall i :: 0 <= i < |init| ==> init[i] == xs[i];
      SumAtMost(init, m);
    }
  }

  lemma {:induction false} SumAtLeast(xs: seq<real>, m: real)
    requires forall i :: 0 <= i < |xs| ==> m <= xs[i]
    ensures (|xs| as real) * m <= Sum(xs)
    decreases |xs|
  {
    if |xs| > 0 {
      var init := xs[..|xs| - 1];
      assert forall i :: 0 <= i < |init| ==> init[i] == xs[i];
      SumAtLeast(init, m);
    }
  }

  /**
   * The mean lies between the smallest and the largest value, so some row
   * is at or above the mean and some row is at or below it.
   */
  lemma {:induction false} MeanWithinRange(xs: seq<real>)
    requires |xs| > 0
    ensures MinOf(xs) <= Mean(xs) <= MaxOf(xs)
    ensures exists i :: 0 <= i < |xs| && Mean(xs) <= xs[i]
    ensures exists i :: 0 <= i < |xs| && xs[i] <= Mean(xs)
  {
    MeanAtMostMax(xs);
    MeanAtLeastMin(xs);
    var i :| 0 <= i < |xs| && xs[i] == MaxOf(xs);
    var j :| 0 <= j < |xs| && xs[j] == MinOf(xs);
  }

  lemma {:induction false} MeanAtMostMax(xs: seq<real>)
    requires |xs| > 0
    ensures Mean(xs) <= MaxOf(xs)
  {
    var m, s, n := MaxOf(xs), Sum(xs), |xs| as real;
    SumAtMost(xs, m);
    QuotientAtMost(s, n, m);
    assert Mean(xs) == s / n;
  }

  lemma {:induction false} MeanAtLeastMin(xs: seq<real>)
    requires |xs| > 0
    ensures MinOf(xs) <= Mean(xs)
  {
    var m, s, n := MinOf(xs), Sum(xs), |xs| as real;
    SumAtLeast(xs, m);
    QuotientAtLeast(s, n, m);
    assert Mean(xs) == s / n;
  }

  /** The mean of a table whose every value is `c` is `c`. */
  lemma {:induction false} MeanOfConstant(xs: seq<real>, c: real)
    requires |xs| > 0
    requires forall i :: 0 <= i < |xs| ==> xs[i] == c
    ensures Mean(xs) == c
  {
    SumAtMost(xs, c);
    SumAtLeast(xs, c);
  }

  /**
   * `Series.quantile(q)` with the default linear rule: the virtual index
   * is h = (n - 1) q, and the result interpolates between the sorted
   * elements at floor(h) and floor(h) + 1, the upper index clipped to the
   * last element.
   */
  function Quantile(xs: seq<real>, q: real): (r: real)
    requires |xs| > 0
    requires 0.0 <= q <= 1.0
    ensures Sort(xs)[LowIndex(|xs|, q)] <= r <= Sort(xs)[HighIndex(|xs|, q)]
    ensures r == Lerp(Sort(xs)[LowIndex(|xs|, q)], Sort(xs)[HighIndex(|xs|, q)], Fraction(|xs|, q))
  {
    var v := Sort(xs);
    var lo := LowIndex(|xs|, q);
    var hi := HighIndex(|xs|, q);
    var g := Fraction(|xs|, q);
    assert v[lo] <= v[hi];
    Lerp(v[lo], v[hi], g)
  }

  /** At q = k / (n - 1) the virtual index is exactly k, so the quantile is the k-th smallest value. */
  lemma {:induction false} QuantileAtOrderStatistic(xs: seq<real>, k: nat)
    requires |xs| > 1 && k < |xs|
    ensures 0.0 <= (k as real) / ((|xs| - 1) as real) <= 1.0
    ensures Quantile(xs, (k as real) / ((|xs| - 1) as real)) == Sort(xs)[k]
  {
    var d := (|xs| - 1) as real;
    var q := (k as real) / d;
    QuotientAtMost(k as real, d, 1.0);
    QuotientAtLeast(k as real, d, 0.0);
    assert d * q == k as real;
    assert LowIndex(|xs|, q) == k;
    assert Fraction(|xs|, q) == 0.0;
  }

  /** The fractional part h - floor(h) of the virtual index. */
  function Fraction(n: nat, q: real): (g: real)
    requires n > 0
    requires 0.0 <= q <= 1.0
    ensures 0.0 <= g < 1.0
    ensures (LowIndex(n, q) as real) + g == ((n - 1) as real) * q
  {
    ((n - 1) as real) * q - (LowIndex(n, q) as real)
  }

  /** Linear interpolation from `a` (at 0) to `b` (at 1). */
  function Lerp(a: real, b: real, g: real): (r: real)
    requires a <= b && 0.0 <= g <= 1.0
    ensures a <= r <= b
    ensures g == 0.0 ==> r == a
    ensures r == a + g * (b - a)
  {
    var d := b - a;
    ScaleWithin(d, g);
    a + g * d
  }

  /** Interpolation moves towards the upper end as the fraction grows. */
  lemma {:induction false} LerpMonotone(a: real, b: real, g1: real, g2: real)
    requires a <= b && 0.0 <= g1 <= g2 <= 1.0
    ensures Lerp(a, b, g1) <= Lerp(a, b, g2)
  {
    var d := b - a;
    ScaleMonotone(d, g1, g2);
    var p1, p2 := g1 * d, g2 * d;
    assert p1 <= p2;
    assert Lerp(a, b, g1) == a + p1;
    assert Lerp(a, b, g2) == a + p2;
  }

  /** floor((n - 1) q), the sorted position at or below the virtual index. */
  function LowIndex(n: nat, q: real): (k: nat)
    requires n > 0
    requires 0.0 <= q <= 1.0
    ensures k < n
    ensures (k as real) <= ((n - 1) as real) * q < (k as real) + 1.0
  {
    ScaleWithin((n - 1) as real, q);
    (((n - 1) as real) * q).Floor
  }

  /** The virtual index, and so its floor, grows with q. */
  lemma {:induction false} IndexMonotone(n: nat, q1: real, q2: real)
    requires n > 0
    requires 0.0 <= q1 <= q2 <= 1.0
    ensures LowIndex(n, q1) <= LowIndex(n, q2)
    ensures LowIndex(n, q1) == LowIndex(n, q2) ==> Fraction(n, q1) <= Fraction(n, q2)
  {
    IndexMonotoneLow(n, q1, q2);
    var d := (n - 1) as real;
    ScaleMonotone(d, q1, q2);
    var h1, h2 := d * q1, d * q2;
    assert h1 <= h2;
    assert Fraction(n, q1) == h1 - (LowIndex(n, q1) as real);
    assert Fraction(n, q2) == h2 - (LowIndex(n, q2) as real);
  }

  lemma {:induction false} IndexMonotoneLow(n: nat, q1: real, q2: real)
    requires n > 0
    requires 0.0 <= q1 <= q2 <= 1.0
    ensures LowIndex(n, q1) <= LowIndex(n, q2)
  {
    var d := (n - 1) as real;
    ScaleMonotone(d, q1, q2);
    assert d * q1 <= d * q2;
    var lo1, lo2 := LowIndex(n, q1), LowIndex(n, q2);
    assert (lo1 as real) <= d * q1;
    assert d * q2 < (lo2 as real) + 1.0;
    assert (lo1 as real) < (lo2 as real) + 1.0;
  }

  /** The sorted position just above the virtual index, clipped to n - 1. */
  function HighIndex(n: nat, q: real): (k: nat)
    requires n > 0
    requires 0.0 <= q <= 1.0
    ensures LowIndex(n, q) <= k < n
    ensures k == LowIndex(n, q) + 1 || k == n - 1
  {
    var lo := LowIndex(n, q);
    if lo + 1 < n then lo + 1 else n - 1
  }

  /** Every quantile lies between the smallest and the largest value. */
  lemma {:induction false} QuantileWithinRange(xs: seq<real>, q: real)
    requires |xs| > 0
    requires 0.0 <= q <= 1.0
    ensures MinOf(xs) <= Quantile(xs, q) <= MaxOf(xs)
  {
    SortedElement(xs, LowIndex(|xs|, q));
    SortedElement(xs, HighIndex(|xs|, q));
  }

  /** A sorted permutation starts with the minimum and ends with the maximum. */
  lemma {:induction false} SortedPermutationEnds(v: seq<real>, xs: seq<real>)
    requires |xs| > 0 && Sorted(v)
    requires multiset(v) == multiset(xs)
    ensures |v| == |xs|
    ensures v[0] == MinOf(xs)
    ensures v[|v| - 1] == MaxOf(xs)
  {
    assert |v| == |multiset(v)| == |multiset(xs)| == |xs|;
    var lo, hi, last := MinOf(xs), MaxOf(xs), |v| - 1;
    assert lo in multiset(xs) && hi in multiset(xs);
    assert v[0] in multiset(v) && v[last] in multiset(v);
    var k1 :| 0 <= k1 < |v| && v[k1] == lo;
    var k2 :| 0 <= k2 < |v| && v[k2] == hi;
    var i1 :| 0 <= i1 < |xs| && xs[i1] == v[0];
    var i2 :| 0 <= i2 < |xs| && xs[i2] == v[last];
    assert lo <= xs[i1] && v[0] <= v[k1];
    assert xs[i2] <= hi && v[k2] <= v[last];
  }

  /** The sorted sequence starts with the minimum. */
  lemma {:induction false} SortFirst(xs: seq<real>)
    requires |xs| > 0
    ensures Sort(xs)[0] == MinOf(xs)
  {
    SortedPermutationEnds(Sort(xs), xs);
  }

  /** The sorted sequence ends with the maximum. */
  lemma {:induction false} SortLast(xs: seq<real>)
    requires |xs| > 0
    ensures Sort(xs)[|xs| - 1] == MaxOf(xs)
  {
    SortedPermutationEnds(Sort(xs), xs);
  }

  /** The 0 quantile is the minimum and the 1 quantile is the maximum. */
  lemma {:induction false} QuantileExtremes(xs: seq<real>)
    requires |xs| > 0
    ensures Quantile(xs, 0.0) == MinOf(xs)
    ensures Quantile(xs, 1.0) == MaxOf(xs)
  {
    SortFirst(xs);
    SortLast(xs);
    var n := |xs|;
    assert LowIndex(n, 0.0) == 0;
    assert LowIndex(n, 1.0) == n - 1;
    assert Fraction(n, 1.0) == 0.0;
  }

  /** A larger q never gives a smaller quantile. */
  lemma {:induction false} QuantileMonotone(xs: seq<real>, q1: real, q2: real)
    requires |xs| > 0
    requires 0.0 <= q1 <= q2 <= 1.0
    ensures Quantile(xs, q1) <= Quantile(xs, q2)
  {
    var n := |xs|;
    var v := Sort(xs);
    var lo1, lo2 := LowIndex(n, q1), LowIndex(n, q2);
    var hi1 := HighIndex(n, q1);
    IndexMonotone(n, q1, q2);
    if lo1 == lo2 {
      LerpMonotone(v[lo1], v[hi1], Fraction(n, q1), Fraction(n, q2));
    } else {
      assert hi1 == lo1 + 1 <= lo2;
      assert v[hi1] <= v[lo2];
    }
  }

  /** Number of values at or below `t`. */
  function CountAtMost(xs: seq<real>, t: real): (c: nat)
    ensures c <= |xs|
  {
    if |xs| == 0 then 0
    else (if xs[0] <= t then 1 else 0) + CountAtMost(xs[1..], t)
  }

  lemma {:induction false} CountAtMostInsert(x: real, xs: seq<real>, t: real)
    requires Sorted(xs)
    ensures CountAtMost(Insert(x, xs), t) == CountAtMost(xs, t) + (if x <= t then 1 else 0)
    decreases |xs|
  {
    if |xs| > 0 && !(x <= xs[0]) {
      var r := Insert(x, xs);
      assert r[1..] == Insert(x, xs[1..]);
      CountAtMostInsert(x, xs[1..], t);
    }
  }

  /** Sorting does not change how many values lie at or below a threshold. */
  lemma {:induction false} CountAtMostSort(xs: seq<real>, t: real)
    ensures CountAtMost(Sort(xs), t) == CountAtMost(xs, t)
    decreases |xs|
  {
    if |xs| > 0 {
      CountAtMostSort(xs[1..], t);
      CountAtMostInsert(xs[0], Sort(xs[1..]), t);
    }
  }

  /** In a sorted sequence, the first k + 1 values are at or below v[k]. */
  lemma {:induction false} CountAtMostSortedPrefix(v: seq<real>, k: nat, t: real)
    requires Sorted(v)
    requires k < |v| && v[k] <= t
    ensures CountAtMost(v, t) >= k + 1
    decreases k
  {
    if k > 0 {
      assert v[1..][k - 1] == v[k];
      CountAtMostSortedPrefix(v[1..], k - 1, t);
    }
  }

  /**
   * What the quantile guarantees about coverage: at least floor(h) + 1 of
   * the n values lie at or below the q quantile, where h = (n - 1) q.
   */
  lemma {:induction false} QuantileCoverage(xs: seq<real>, q: real)
    requires |xs| > 0
    requires 0.0 <= q <= 1.0
    ensures CountAtMost(xs, Quantile(xs, q)) >= LowIndex(|xs|, q) + 1
  {
    var t := Quantile(xs, q);
    CountAtMostSortedPrefix(Sort(xs), LowIndex(|xs|, q), t);
    CountAtMostSort(xs, t);
  }

  /**
   * The 65th percentile is not a promise that 65% of rows lie at or below
   * it: with prices 1 and 2 it is 1.65, and only one of the two rows is at
   * or below that.
   */
  lemma SixtyFifthPercentileExample()
    ensures Quantile([1.0, 2.0], 0.65) == 1.65
    ensures CountAtMost([1.0, 2.0], 1.65) == 1
    ensures (CountAtMost([1.0, 2.0], 1.65) as real) < 0.65 * 2.0
  {
    var xs := [1.0, 2.0];
    assert Sort(xs[1..]) == [2.0];
    assert Sort(xs) == Insert(1.0, [2.0]) == [1.0, 2.0];
    assert LowIndex(2, 0.65) == 0;
    assert xs[1..][1..] == [];
  }

  /** `calculate_global_stats`: the mean income and the 0.65 price quantile. */
  function CalculateGlobalStats(incomes: seq<real>, prices: seq<real>): (r: (real, real))
    requires |incomes| > 0 && |prices| > 0
    ensures r.0 == Mean(incomes)
    ensures r.1 == Quantile(prices, 0.65)
    ensures MinOf(incomes) <= r.0 <= MaxOf(incomes)
    ensures MinOf(prices) <= r.1 <= MaxOf(prices)
  {
    MeanWithinRange(incomes);
    QuantileWithinRange(prices, 0.65);
    (Mean(incomes), Quantile(prices, 0.65))
  }

  const PercentileRangeError := ValueError("percentiles should all be in the interval [0, 1]")

  predicate Between(x: real, lo: real, hi: real)
  {
    lo <= x <= hi
  }

  /**
   * `classify_middle_class`: marks the incomes lying between the `low` and
   * `high` percentiles, both ends inclusive. A percentile outside [0, 100]
   * is rejected; an empty column gives an empty mask.
   */
  function ClassifyMiddleClass(incomes: seq<real>, low: int, high: int): (r: Result<seq<bool>, Error>)
    ensures r.Failure? <==> !(0 <= low <= 100 && 0 <= high <= 100)
    ensures r.Failure? ==> r.error == PercentileRangeError
    ensures r.Success? ==> |r.value| == |incomes|
    ensures r.Success? && |incomes| > 0 ==> forall i :: 0 <= i < |incomes| ==>
      (r.value[i] <==> Between(incomes[i], Quantile(incomes, low as real / 100.0), Quantile(incomes, high as real / 100.0)))
  {
    if !(0 <= low <= 100 && 0 <= high <= 100) then Failure(PercentileRangeError)
    else if |incomes| == 0 then Success([])
    else
      var (lo, hi) := BandBounds(incomes, low, high);
      Success(BandMask(incomes, lo, hi))
  }

  /** The `low` and `high` percentiles of the incomes. */
  function BandBounds(incomes: seq<real>, low: int, high: int): (r: (real, real))
    requires |incomes| > 0
    requires 0 <= low <= 100 && 0 <= high <= 100
  {
    (Percentile(incomes, low), Percentile(incomes, high))
  }

  /** The `p` percentile, the quantile at p / 100. */
  function Percentile(xs: seq<real>, p: int): real
    requires |xs| > 0
    requires 0 <= p <= 100
  {
    Quantile(xs, p as real / 100.0)
  }

  lemma {:induction false} PercentileMonotone(xs: seq<real>, p1: int, p2: int)
    requires |xs| > 0
    requires 0 <= p1 <= p2 <= 100
    ensures Percentile(xs, p1) <= Percentile(xs, p2)
  {
    QuantileMonotone(xs, p1 as real / 100.0, p2 as real / 100.0);
  }

  /** Widening the percentile band widens its bounds. */
  lemma {:induction false} BandBoundsWiden(incomes: seq<real>, low1: int, high1: int, low2: int, high2: int)
    requires |incomes| > 0
    requires 0 <= low2 <= low1 <= 100 && 0 <= high1 <= high2 <= 100
    ensures BandBounds(incomes, low2, high2).0 <= BandBounds(incomes, low1, high1).0
    ensures BandBounds(incomes, low1, high1).1 <= BandBounds(incomes, low2, high2).1
  {
    PercentileMonotone(incomes, low2, low1);
    PercentileMonotone(incomes, high1, high2);
    assert BandBounds(incomes, low1, high1) == (Percentile(incomes, low1), Percentile(incomes, high1));
    assert BandBounds(incomes, low2, high2) == (Percentile(incomes, low2), Percentile(incomes, high2));
  }

  /** One flag per income: whether it lies in [lo, hi]. */
  function BandMask(incomes: seq<real>, lo: real, hi: real): (r: seq<bool>)
    ensures |r| == |incomes|
    ensures forall i :: 0 <= i < |incomes| ==> (r[i] <==> Between(incomes[i], lo, hi))
  {
    seq(|incomes|, i requires 0 <= i < |incomes| => Between(incomes[i], lo, hi))
  }

  /** With the full range 0 to 100, every income is classified middle class. */
  lemma {:induction false} FullRangeClassifiesAll(incomes: seq<real>)
    requires |incomes| > 0
    ensures ClassifyMiddleClass(incomes, 0, 100).Success?
    ensures forall i :: 0 <= i < |incomes| ==> ClassifyMiddleClass(incomes, 0, 100).value[i]
  {
    QuantileExtremes(incomes);
    assert 0 as real / 100.0 == 0.0 && 100 as real / 100.0 == 1.0;
  }

  /** Widening the percentile band never drops an income from the class. */
  lemma {:induction false} WiderBandKeepsMembers(incomes: seq<real>, low1: int, high1: int, low2: int, high2: int, i: int)
    requires 0 <= low2 <= low1 <= 100 && 0 <= high1 <= high2 <= 100
    requires 0 <= i < |incomes|
    requires ClassifyMiddleClass(incomes, low1, high1).value[i]
    ensures ClassifyMiddleClass(incomes, low2, high2).value[i]
  {
    var (a1, b1) := BandBounds(incomes, low1, high1);
    var (a2, b2) := BandBounds(incomes, low2, high2);
    BandBoundsWiden(incomes, low1, high1, low2, high2);
    assert ClassifyMiddleClass(incomes, low1, high1).value == BandMask(incomes, a1, b1);
    assert ClassifyMiddleClass(incomes, low2, high2).value == BandMask(incomes, a2, b2);
  }

  /**
   * The 40-60 band can be empty: with incomes 1 and 2 the band is
   * [1.4, 1.6] and neither income lies in it.
   */
  lemma DefaultBandCanBeEmpty()
    ensures ClassifyMiddleClass([1.0, 2.0], 40, 60) == Success([false, false])
  {
    var xs := [1.0, 2.0];
    assert Sort(xs[1..]) == [2.0];
    assert Sort(xs) == Insert(1.0, [2.0]) == [1.0, 2.0];
    assert 40 as real / 100.0 == 0.4 && 60 as real / 100.0 == 0.6;
    assert LowIndex(2, 0.4) == 0 && LowIndex(2, 0.6) == 0;
    assert HighIndex(2, 0.4) == 1 && HighIndex(2, 0.6) == 1;
    assert Fraction(2, 0.4) == 0.4 && Fraction(2, 0.6) == 0.6;
    assert Lerp(1.0, 2.0, 0.4) == 1.4 && Lerp(1.0, 2.0, 0.6) == 1.6;
    assert Quantile(xs, 0.4) == 1.4;
    assert Quantile(xs, 0.6) == 1.6;
    var mask := BandMask(xs, 1.4, 1.6);
    assert ClassifyMiddleClass(xs, 40, 60) == Success(mask);
    assert !mask[0] && !mask[1];
    assert mask == [false, false];
  }
}
