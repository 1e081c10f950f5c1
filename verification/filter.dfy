/**
 * The dynamic filter of the map application: the three thresholds chosen
 * in the sidebar, the row-wise membership mask over the joined table, the
 * number of matching areas, and the 0/1 `is_filtered` flag that drives the
 * highlighted layer's style.
 */
module Filter {
  import opened Base
  import opened Records
  import Stats

  function Incomes(rows: seq<AreaRecord>): (r: seq<real>)
    ensures |r| == |rows|
    ensures forall i :: 0 <= i < |rows| ==> r[i] == rows[i].income
  {
    seq(|rows|, i requires 0 <= i < |rows| => rows[i].income)
  }

  function Prices(rows: seq<AreaRecord>): (r: seq<real>)
    ensures |r| == |rows|
    ensures forall i :: 0 <= i < |rows| ==> r[i] == rows[i].medianHousePrice
  {
    seq(|rows|, i requires 0 <= i < |rows| => rows[i].medianHousePrice)
  }

  /**
   * The slider gives a percentage between 0 and 100; the threshold is that
   * percentage as a fraction.
   */
  function BlackShareThreshold(percent: real): (r: real)
    requires 0.0 <= percent <= 100.0
    ensures 0.0 <= r <= 1.0
    ensures r * 100.0 == percent
  {
    percent / 100.0
  }

  /** The income radio button: the table's mean, or an amount typed in. */
  datatype IncomeMode = AboveMean | CustomIncome(amount: int)

  /** The housing radio button: the 65th percentile, or an amount typed in. */
  datatype HousingMode = BelowSixtyFifthPercentile | CustomPrice(amount: int)

  function IncomeThreshold(mode: IncomeMode, meanIncome: real): (r: real)
    ensures mode.AboveMean? ==> r == meanIncome
    ensures mode.CustomIncome? ==> r == mode.amount as real
  {
    match mode
    case AboveMean => meanIncome
    case CustomIncome(amount) => amount as real
  }

  function HousingThreshold(mode: HousingMode, p65: real): (r: real)
    ensures mode.BelowSixtyFifthPercentile? ==> r == p65
    ensures mode.CustomPrice? ==> r == mode.amount as real
  {
    match mode
    case BelowSixtyFifthPercentile => p65
    case CustomPrice(amount) => amount as real
  }

  /** The three thresholds a row must meet at once. */
  datatype Criteria = Criteria(minShare: real, minIncome: real, maxPrice: real)

  predicate Matches(a: AreaRecord, c: Criteria)
  {
    a.blackShare >= c.minShare && a.income >= c.minIncome && a.medianHousePrice <= c.maxPrice
  }

  /** The membership mask: one entry per row, no row removed. */
  function FilterMask(rows: seq<AreaRecord>, c: Criteria): (mask: seq<bool>)
    ensures |mask| == |rows|
    ensures forall i :: 0 <= i < |rows| ==> (mask[i] <==> Matches(rows[i], c))
  {
    seq(|rows|, i requires 0 <= i < |rows| => Matches(rows[i], c))
  }

  /** `mask.sum()`: the number of true entries. */
  function CountTrue(mask: seq<bool>): (n: nat)
    ensures n <= |mask|
  {
    if |mask| == 0 then 0
    else CountTrue(mask[..|mask| - 1]) + (if mask[|mask| - 1] then 1 else 0)
  }

  function TrueIndices(mask: seq<bool>): set<int>
  {
    set i | 0 <= i < |mask| && mask[i]
  }

  /** The count is the number of positions at which the mask is true. */
  lemma {:induction false} CountTrueIsTrueIndices(mask: seq<bool>)
    ensures CountTrue(mask) == |TrueIndices(mask)|
    decreases |mask|
  {
    if |mask| > 0 {
      var n := |mask| - 1;
      var init := mask[..n];
      CountTrueIsTrueIndices(init);
      var extra: set<int> := if mask[n] then {n} else {};
      assert TrueIndices(mask) == TrueIndices(init) + extra by {
        forall i | i in TrueIndices(mask) ensures i in TrueIndices(init) + extra {
          if i < n {
            assert init[i] == mask[i];
          }
        }
        forall i | i in TrueIndices(init) ensures i in TrueIndices(mask) {
          assert init[i] == mask[i];
        }
      }
      assert n !in TrueIndices(init);
    }
  }

  /** A mask true wherever another is true counts at least as many. */
  lemma {:induction false} CountTrueImplied(a: seq<bool>, b: seq<bool>)
    requires |a| == |b|
    requires forall i :: 0 <= i < |a| && a[i] ==> b[i]
    ensures CountTrue(a) <= CountTrue(b)
    decreases |a|
  {
    if |a| > 0 {
      var n := |a| - 1;
      assert forall i :: 0 <= i < n && a[..n][i] ==> b[..n][i] by {
        forall i | 0 <= i < n ensures a[..n][i] ==> b[..n][i] {
          assert a[..n][i] == a[i] && b[..n][i] == b[i];
        }
      }
      CountTrueImplied(a[..n], b[..n]);
    }
  }

  /** `c2` is at least as demanding as `c1` on every threshold. */
  predicate Stricter(c2: Criteria, c1: Criteria)
  {
    c2.minShare >= c1.minShare && c2.minIncome >= c1.minIncome && c2.maxPrice <= c1.maxPrice
  }

  /**
   * Raising the share or income threshold, or lowering the price ceiling,
   * never turns a false entry true, so the count can only fall.
   */
  lemma {:induction false} StricterCriteriaShrinkMask(rows: seq<AreaRecord>, c1: Criteria, c2: Criteria)
    requires Stricter(c2, c1)
    ensures forall i :: 0 <= i < |rows| && FilterMask(rows, c2)[i] ==> FilterMask(rows, c1)[i]
    ensures CountTrue(FilterMask(rows, c2)) <= CountTrue(FilterMask(rows, c1))
  {
    CountTrueImplied(FilterMask(rows, c2), FilterMask(rows, c1));
  }

  /** A mask true everywhere counts every entry. */
  lemma {:induction false} CountAllTrue(mask: seq<bool>)
    requires forall i :: 0 <= i < |mask| ==> mask[i]
    ensures CountTrue(mask) == |mask|
    decreases |mask|
  {
    if |mask| > 0 {
      var n := |mask| - 1;
      assert forall i :: 0 <= i < n ==> mask[..n][i] == mask[i];
      CountAllTrue(mask[..n]);
    }
  }

  /** Criteria every row meets select the whole table. */
  lemma {:induction false} AllMatchCountsAll(rows: seq<AreaRecord>, c: Criteria)
    requires forall i :: 0 <= i < |rows| ==> Matches(rows[i], c)
    ensures CountTrue(FilterMask(rows, c)) == |rows|
  {
    CountAllTrue(FilterMask(rows, c));
  }

  function Area(share: real, income: real, price: real): AreaRecord
  {
    AreaRecord("", "", Geometry(""), income, 0, 0, share, "", price)
  }

  /**
   * Three areas with (share, income, price) of (0.20, 50000, 300000),
   * (0.05, 60000, 200000) and (0.30, 40000, 500000) against thresholds
   * 0.15, 45000 and 400000: only the first matches.
   */
  lemma ThreeAreaExample()
    ensures FilterMask([Area(0.20, 50000.0, 300000.0), Area(0.05, 60000.0, 200000.0), Area(0.30, 40000.0, 500000.0)],
                       Criteria(0.15, 45000.0, 400000.0)) == [true, false, false]
    ensures CountTrue([true, false, false]) == 1
  {
    var mask := FilterMask([Area(0.20, 50000.0, 300000.0), Area(0.05, 60000.0, 200000.0), Area(0.30, 40000.0, 500000.0)],
                           Criteria(0.15, 45000.0, 400000.0));
    assert mask[0] && !mask[1] && !mask[2];
    assert [true, false, false][..2] == [true, false];
    assert [true, false][..1] == [true];
    assert [true][..0] == [];
  }

  /** The table-wide mean income and 65th percentile price. */
  function GlobalStats(rows: seq<AreaRecord>): (r: (real, real))
    requires |rows| > 0
    ensures r.0 == Stats.Mean(Incomes(rows))
    ensures r.1 == Stats.Quantile(Prices(rows), 0.65)
  {
    Stats.CalculateGlobalStats(Incomes(rows), Prices(rows))
  }

  /** The criteria the sidebar settings select, given the table's statistics. */
  function SelectCriteria(rows: seq<AreaRecord>, sharePercent: real, incomeMode: IncomeMode, housingMode: HousingMode): (c: Criteria)
    requires |rows| > 0
    requires 0.0 <= sharePercent <= 100.0
    ensures c.minShare * 100.0 == sharePercent
    ensures c.minIncome == IncomeThreshold(incomeMode, Stats.Mean(Incomes(rows)))
    ensures c.maxPrice == HousingThreshold(housingMode, Stats.Quantile(Prices(rows), 0.65))
  {
    var (meanIncome, p65) := GlobalStats(rows);
    Criteria(BlackShareThreshold(sharePercent), IncomeThreshold(incomeMode, meanIncome), HousingThreshold(housingMode, p65))
  }

  /** Python's `int()` of the NaN maximum of an empty column. */
  const NanToIntError := ValueError("cannot convert float NaN to integer")

  /**
   * The mask and count the page shows for the sidebar settings. On an empty
   * table either custom input fails: its upper bound is `int()` of the
   * column's NaN maximum. With the mean and the 65th percentile the
   * comparisons have no rows, so the mask is empty and the count 0.
   */
  function CurrentFilter(rows: seq<AreaRecord>, sharePercent: real, incomeMode: IncomeMode, housingMode: HousingMode): (r: Result<(seq<bool>, nat), Error>)
    requires 0.0 <= sharePercent <= 100.0
    ensures r.Failure? <==> |rows| == 0 && (incomeMode.CustomIncome? || housingMode.CustomPrice?)
    ensures r.Failure? ==> r.error == NanToIntError
    ensures r.Success? ==> |r.value.0| == |rows|
    ensures r.Success? ==> r.value.1 == CountTrue(r.value.0) == |TrueIndices(r.value.0)|
    ensures r.Success? && |rows| > 0 ==> r.value.0 == FilterMask(rows, SelectCriteria(rows, sharePercent, incomeMode, housingMode))
    ensures r.Success? ==> forall i :: 0 <= i < |rows| ==> (r.value.0[i] <==>
      && rows[i].blackShare * 100.0 >= sharePercent
      && rows[i].income >= IncomeThreshold(incomeMode, Stats.Mean(Incomes(rows)))
      && rows[i].medianHousePrice <= HousingThreshold(housingMode, Stats.Quantile(Prices(rows), 0.65)))
  {
    if |rows| == 0 then
      if incomeMode.CustomIncome? || housingMode.CustomPrice? then Failure(NanToIntError) else Success(([], 0))
    else
      var c := SelectCriteria(rows, sharePercent, incomeMode, housingMode);
      var mask := FilterMask(rows, c);
      CountTrueIsTrueIndices(mask);
      assert forall i :: 0 <= i < |rows| ==> (rows[i].blackShare >= c.minShare <==> rows[i].blackShare * 100.0 >= sharePercent);
      Success((mask, CountTrue(mask)))
  }

  /** Typing a higher minimum income never increases the number of areas found. */
  lemma {:induction false} HigherIncomeFloorFindsFewer(rows: seq<AreaRecord>, sharePercent: real, a1: int, a2: int, housingMode: HousingMode)
    requires |rows| > 0
    requires 0.0 <= sharePercent <= 100.0
    requires a1 <= a2
    ensures CurrentFilter(rows, sharePercent, CustomIncome(a2), housingMode).Success?
    ensures CurrentFilter(rows, sharePercent, CustomIncome(a1), housingMode).Success?
    ensures CurrentFilter(rows, sharePercent, CustomIncome(a2), housingMode).value.1
         <= CurrentFilter(rows, sharePercent, CustomIncome(a1), housingMode).value.1
  {
    var c1 := SelectCriteria(rows, sharePercent, CustomIncome(a1), housingMode);
    var c2 := SelectCriteria(rows, sharePercent, CustomIncome(a2), housingMode);
    StricterCriteriaShrinkMask(rows, c1, c2);
  }

  /** In "Above Mean" mode the area with the highest income passes the income test. */
  lemma {:induction false} AboveMeanSomeIncomePasses(rows: seq<AreaRecord>, sharePercent: real, housingMode: HousingMode)
    requires |rows| > 0
    requires 0.0 <= sharePercent <= 100.0
    ensures exists i :: 0 <= i < |rows| && rows[i].income >= SelectCriteria(rows, sharePercent, AboveMean, housingMode).minIncome
  {
    Stats.MeanWithinRange(Incomes(rows));
    var i :| 0 <= i < |rows| && Stats.Mean(Incomes(rows)) <= Incomes(rows)[i];
    assert rows[i].income >= SelectCriteria(rows, sharePercent, AboveMean, housingMode).minIncome;
  }

  /** In percentile mode the cheapest area passes the price test. */
  lemma {:induction false} BelowPercentileSomePricePasses(rows: seq<AreaRecord>, sharePercent: real, incomeMode: IncomeMode)
    requires |rows| > 0
    requires 0.0 <= sharePercent <= 100.0
    ensures exists i :: 0 <= i < |rows| && rows[i].medianHousePrice <= SelectCriteria(rows, sharePercent, incomeMode, BelowSixtyFifthPercentile).maxPrice
  {
    var prices := Prices(rows);
    Stats.QuantileWithinRange(prices, 0.65);
    var i :| 0 <= i < |prices| && prices[i] == Stats.MinOf(prices);
    assert rows[i].medianHousePrice <= SelectCriteria(rows, sharePercent, incomeMode, BelowSixtyFifthPercentile).maxPrice;
  }

  /** `mask.astype(int)`: the `is_filtered` column. */
  function FlagColumn(mask: seq<bool>): (flags: seq<int>)
    ensures |flags| == |mask|
    ensures forall i :: 0 <= i < |mask| ==> (flags[i] == 1 <==> mask[i])
    ensures forall i :: 0 <= i < |mask| ==> (flags[i] == 0 <==> !mask[i])
  {
    seq(|mask|, i requires 0 <= i < |mask| => if mask[i] then 1 else 0)
  }

  function SumInts(xs: seq<int>): int
  {
    if |xs| == 0 then 0 else SumInts(xs[..|xs| - 1]) + xs[|xs| - 1]
  }

  /** Summing the 0/1 flags gives the same count as counting the mask. */
  lemma {:induction false} FlagSumIsCount(mask: seq<bool>)
    ensures SumInts(FlagColumn(mask)) == CountTrue(mask)
    decreases |mask|
  {
    if |mask| > 0 {
      var n := |mask| - 1;
      assert FlagColumn(mask)[..n] == FlagColumn(mask[..n]);
      FlagSumIsCount(mask[..n]);
    }
  }

  /** The style of one feature of the highlighted layer. */
  datatype Style = Style(fillColor: string, color: string, weight: int, fillOpacity: real)

  const Highlighted := Style("#00CCFF", "black", 1, 0.7)
  const Hidden := Style("transparent", "transparent", 0, 0.0)

  /** `style_function`: any non-zero flag counts as filtered. */
  function StyleFor(isFiltered: int): (s: Style)
    ensures s == Highlighted || s == Hidden
    ensures s == Highlighted <==> isFiltered != 0
  {
    if isFiltered != 0 then Highlighted else Hidden
  }

  /** A feature is highlighted exactly when its mask entry is true. */
  lemma {:induction false} StyleFollowsMask(mask: seq<bool>, i: int)
    requires 0 <= i < |mask|
    ensures StyleFor(FlagColumn(mask)[i]) == Highlighted <==> mask[i]
    ensures StyleFor(FlagColumn(mask)[i]) == Hidden <==> !mask[i]
    ensures StyleFor(FlagColumn(mask)[i]).fillOpacity == (if mask[i] then 0.7 else 0.0)
  {
  }
}
