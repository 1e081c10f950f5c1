/**
 * The in-memory transforms the loaders apply after reading their files:
 * the income projection, the Black share, and the housing price coercion.
 */
module Loaders {
  import opened Base
  import opened Records
  import CensusLocal

  /**
   * A row of the "Total annual income" sheet: its "MSOA code" and
   * "Total annual income (£)" cells and the sheet's other columns.
   */
  datatype IncomeSheetRow = IncomeSheetRow(msoaCode: string, totalAnnualIncome: Option<real>, otherColumns: map<string, string>)

  /** load_income: the code and income columns of every row, renamed, nothing else. */
  function LoadIncome(rows: seq<IncomeSheetRow>): (r: seq<IncomeRow>)
    ensures |r| == |rows|
    ensures forall i :: 0 <= i < |rows| ==> r[i].msoa == rows[i].msoaCode && r[i].income == rows[i].totalAnnualIncome
  {
    seq(|rows|, i requires 0 <= i < |rows| => IncomeRow(rows[i].msoaCode, rows[i].totalAnnualIncome))
  }

  /** load_black_population: every row of black_population.csv with `black_count / population` added. */
  function LoadBlackPopulation(rows: seq<CountRow>): (r: seq<BlackRow>)
    requires forall i :: 0 <= i < |rows| ==> rows[i].population != 0
    ensures |r| == |rows|
    ensures forall i :: 0 <= i < |rows| ==>
      && r[i].msoa == rows[i].msoa
      && r[i].blackCount == rows[i].blackCount
      && r[i].population == rows[i].population
      && r[i].blackShare * rows[i].population as real == rows[i].blackCount as real
  {
    seq(|rows|, i requires 0 <= i < |rows| =>
      var c := rows[i];
      BlackRow(c.msoa, c.blackCount, c.population, c.blackCount as real / c.population as real))
  }

  lemma {:induction false} ShareOfPart(part: real, whole: real, share: real)
    requires 0.0 <= part <= whole && whole > 0.0
    requires share * whole == part
    ensures 0.0 <= share <= 1.0
  {
    assert share == part / whole;
  }

  /** A count between 0 and a positive population gives a share between 0 and 1. */
  lemma {:induction false} SharesInUnitInterval(rows: seq<CountRow>)
    requires forall i :: 0 <= i < |rows| ==> 0 <= rows[i].blackCount <= rows[i].population && rows[i].population > 0
    ensures forall b :: b in LoadBlackPopulation(rows) ==> 0.0 <= b.blackShare <= 1.0
  {
    var r := LoadBlackPopulation(rows);
    forall b | b in r ensures 0.0 <= b.blackShare <= 1.0 {
      var i :| 0 <= i < |r| && r[i] == b;
      ShareOfPart(rows[i].blackCount as real, rows[i].population as real, b.blackShare);
    }
  }

  /**
   * From the census rows to the shares: with non-negative observations and
   * no empty area, every share computed from the aggregated counts lies in [0, 1].
   */
  lemma {:induction false} CensusSharesInUnitInterval(rows: seq<CensusLocal.CensusRow>)
    requires forall i :: 0 <= i < |rows| ==> rows[i].observation >= 0
    requires forall c :: c in CensusLocal.ProcessCensusData(rows) ==> c.population > 0
    ensures forall b :: b in LoadBlackPopulation(CensusLocal.ProcessCensusData(rows)) ==> 0.0 <= b.blackShare <= 1.0
  {
    var counts := CensusLocal.ProcessCensusData(rows);
    CensusLocal.BlackCountAtMostPopulation(rows);
    assert forall i :: 0 <= i < |counts| ==> counts[i] in counts;
    SharesInUnitInterval(counts);
  }

  /** 50 Black residents out of 500 is a share of 0.10. */
  lemma ExampleShare()
    ensures LoadBlackPopulation([CountRow("E02000001", 50, 500)]) == [BlackRow("E02000001", 50, 500, 0.1)]
  {
  }

  /**
   * A row of "Table 1": its "MSOA code", "MSOA name" and "All properties"
   * cells and the sheet's other columns. `allProperties` is the cell after
   * `pd.to_numeric(errors="coerce")`: None when the cell is not numeric.
   */
  datatype HousingSheetRow = HousingSheetRow(
    msoaCode: string,
    msoaName: string,
    allProperties: Option<real>,
    otherColumns: map<string, string>)

  /** The rows whose price is numeric, projected onto msoa, msoa_full_name, median_house_price. */
  function NumericRows(rows: seq<HousingSheetRow>): seq<HousingRow>
    decreases |rows|
  {
    if |rows| == 0 then []
    else
      var x := rows[|rows| - 1];
      NumericRows(rows[..|rows| - 1])
        + (if x.allProperties.Some? then [HousingRow(x.msoaCode, x.msoaName, x.allProperties.value)] else [])
  }

  /** The number of rows whose price is not numeric. */
  function NonNumericCount(rows: seq<HousingSheetRow>): nat
  {
    if |rows| == 0 then 0
    else (if rows[0].allProperties.None? then 1 else 0) + NonNumericCount(rows[1..])
  }

  lemma {:induction false} NumericRowsConcat(a: seq<HousingSheetRow>, b: seq<HousingSheetRow>)
    ensures NumericRows(a + b) == NumericRows(a) + NumericRows(b)
    decreases |b|
  {
    if |b| == 0 {
      assert a + b == a;
    } else {
      var b' := b[..|b| - 1];
      assert (a + b)[..|a + b| - 1] == a + b';
      NumericRowsConcat(a, b');
    }
  }

  lemma {:induction false} NumericRowsCount(rows: seq<HousingSheetRow>)
    ensures |NumericRows(rows)| + NonNumericCount(rows) == |rows|
    decreases |rows|
  {
    if |rows| > 0 {
      NumericRowsCount(rows[1..]);
      assert rows == [rows[0]] + rows[1..];
      NumericRowsConcat([rows[0]], rows[1..]);
      assert [rows[0]][..0] == [];
    }
  }

  lemma {:induction false} NumericRowsMembers(rows: seq<HousingSheetRow>)
    ensures forall h :: h in NumericRows(rows) <==>
      exists i :: 0 <= i < |rows| && rows[i].allProperties.Some?
        && h == HousingRow(rows[i].msoaCode, rows[i].msoaName, rows[i].allProperties.value)
    decreases |rows|
  {
    if |rows| > 0 {
      var prefix := rows[..|rows| - 1];
      NumericRowsMembers(prefix);
      assert forall i :: 0 <= i < |prefix| ==> prefix[i] == rows[i];
    }
  }

  /**
   * load_housing_affordability: the rows whose price is numeric, in order,
   * projected onto three columns, and the number of rows removed (logged
   * when it is not zero).
   */
  function LoadHousingAffordability(rows: seq<HousingSheetRow>): (r: (seq<HousingRow>, nat))
    ensures r.1 == NonNumericCount(rows)
    ensures |r.0| == |rows| - r.1
    ensures forall h :: h in r.0 <==>
      exists i :: 0 <= i < |rows| && rows[i].allProperties.Some?
        && h == HousingRow(rows[i].msoaCode, rows[i].msoaName, rows[i].allProperties.value)
  {
    var kept := NumericRows(rows);
    NumericRowsCount(rows);
    NumericRowsMembers(rows);
    (kept, |rows| - |kept|)
  }

  /** The housing loader keeps row order: it acts on each part of a table separately. */
  lemma {:induction false} HousingKeepsOrder(a: seq<HousingSheetRow>, b: seq<HousingSheetRow>)
    ensures LoadHousingAffordability(a + b).0 == LoadHousingAffordability(a).0 + LoadHousingAffordability(b).0
  {
    NumericRowsConcat(a, b);
  }
}
