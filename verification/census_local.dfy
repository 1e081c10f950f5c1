/**
 * process_census_data: the local TS021 table, one row per (area, ethnic
 * category), turned into one (msoa, black_count, population) row per MSOA.
 */
module CensusLocal {
  import opened Strings
  import opened Records
  import opened Frames

  /** Codes of Middle layer Super Output Areas start with this prefix. */
  const MsoaCodePrefix := "E02"

  /** Every Black subcategory label starts with this text, colon included. */
  const BlackLabelPrefix := "Black, Black British, Black Welsh, Caribbean or African:"

  /**
   * A row of the TS021 table: its "Middle layer Super Output Areas Code",
   * "Ethnic group (20 categories)" and "Observation" columns.
   */
  datatype CensusRow = CensusRow(code: string, ethnicGroup: string, observation: int)

  predicate IsMsoaRow(x: CensusRow)
  {
    StartsWith(x.code, MsoaCodePrefix)
  }

  predicate IsBlackRow(x: CensusRow)
  {
    StartsWith(x.ethnicGroup, BlackLabelPrefix)
  }

  /** A row counted towards an area's Black population. */
  predicate IsBlackMsoaRow(x: CensusRow)
  {
    IsMsoaRow(x) && IsBlackRow(x)
  }

  /** Boolean-mask selection `df[mask]`: the rows satisfying `p`, in order. */
  function Where(rows: seq<CensusRow>, p: CensusRow -> bool): (r: seq<CensusRow>)
    ensures forall x :: x in r ==> x in rows && p(x)
    decreases |rows|
  {
    if |rows| == 0 then []
    else Where(rows[..|rows| - 1], p) + (if p(rows[|rows| - 1]) then [rows[|rows| - 1]] else [])
  }

  /** The (code, observation) columns of some rows. */
  function Entries(rows: seq<CensusRow>): seq<Entry>
  {
    seq(|rows|, i requires 0 <= i < |rows| => Entry(rows[i].code, rows[i].observation))
  }

  /** Reference meaning: the sum of `observation` over the rows with code `code` that satisfy `p`. */
  function SumWhere(rows: seq<CensusRow>, p: CensusRow -> bool, code: string): int
    decreases |rows|
  {
    if |rows| == 0 then 0
    else
      var x := rows[|rows| - 1];
      SumWhere(rows[..|rows| - 1], p, code) + (if p(x) && x.code == code then x.observation else 0)
  }

  /** An area's population: every E02 row of that area, across every ethnic category. */
  function AreaPopulation(rows: seq<CensusRow>, code: string): int
  {
    SumWhere(rows, IsMsoaRow, code)
  }

  /** An area's Black population: its E02 rows whose label starts with the Black prefix. */
  function AreaBlackCount(rows: seq<CensusRow>, code: string): int
  {
    SumWhere(rows, IsBlackMsoaRow, code)
  }

  predicate HasBlackRow(rows: seq<CensusRow>, code: string)
  {
    exists i :: 0 <= i < |rows| && rows[i].code == code && IsBlackMsoaRow(rows[i])
  }


  lemma {:induction false} EntriesSnoc(rows: seq<CensusRow>, x: CensusRow)
    ensures Entries(rows + [x]) == Entries(rows) + [Entry(x.code, x.observation)]
  {
  }

  lemma {:induction false} KeySumWhere(rows: seq<CensusRow>, p: CensusRow -> bool, k: string)
    ensures KeySum(Entries(Where(rows, p)), k) == SumWhere(rows, p, k)
    decreases |rows|
  {
    if |rows| > 0 {
      var prefix := rows[..|rows| - 1];
      var x := rows[|rows| - 1];
      KeySumWhere(prefix, p, k);
      if p(x) {
        EntriesSnoc(Where(prefix, p), x);
        var es := Entries(Where(rows, p));
        assert es[..|es| - 1] == Entries(Where(prefix, p));
      } else {
        assert Where(rows, p) == Where(prefix, p);
      }
    }
  }

  lemma {:induction false} HasKeyWhere(rows: seq<CensusRow>, p: CensusRow -> bool, k: string)
    ensures HasKey(Entries(Where(rows, p)), k) <==> exists i :: 0 <= i < |rows| && rows[i].code == k && p(rows[i])
    decreases |rows|
  {
    if |rows| > 0 {
      var prefix := rows[..|rows| - 1];
      var x := rows[|rows| - 1];
      HasKeyWhere(prefix, p, k);
      if p(x) {
        EntriesSnoc(Where(prefix, p), x);
        HasKeySnoc(Entries(Where(prefix, p)), Entry(x.code, x.observation), k);
      } else {
        assert Where(rows, p) == Where(prefix, p);
      }
      if exists i :: 0 <= i < |rows| && rows[i].code == k && p(rows[i]) {
        var i :| 0 <= i < |rows| && rows[i].code == k && p(rows[i]);
        if i < |prefix| {
          assert prefix[i] == rows[i];
        }
      }
      if exists i :: 0 <= i < |prefix| && prefix[i].code == k && p(prefix[i]) {
        var i :| 0 <= i < |prefix| && prefix[i].code == k && p(prefix[i]);
        assert rows[i] == prefix[i];
      }
    }
  }

  lemma {:induction false} WhereWhere(rows: seq<CensusRow>)
    ensures Where(Where(rows, IsMsoaRow), IsBlackRow) == Where(rows, IsBlackMsoaRow)
    decreases |rows|
  {
    if |rows| > 0 {
      var prefix := rows[..|rows| - 1];
      WhereWhere(prefix);
      var inner := Where(rows, IsMsoaRow);
      if IsMsoaRow(rows[|rows| - 1]) {
        assert inner[..|inner| - 1] == Where(prefix, IsMsoaRow);
      } else {
        assert inner == Where(prefix, IsMsoaRow);
      }
    }
  }

  /**
   * The pipeline: keep the E02 rows, sum every row per area as `population`,
   * sum the Black-prefixed rows per area as `black_count`, and inner-merge the
   * Black sums with the totals.
   */
  function ProcessCensusData(rows: seq<CensusRow>): (r: seq<CountRow>)
    ensures forall c :: c in r ==> StartsWith(c.msoa, MsoaCodePrefix)
    ensures forall c :: c in r ==> c.population == AreaPopulation(rows, c.msoa)
    ensures forall c :: c in r ==> c.blackCount == AreaBlackCount(rows, c.msoa)
    ensures UniqueKeys(r, CountKey)
    ensures forall code :: code in KeySet(r, CountKey) <==> HasBlackRow(rows, code)
  {
    var msoaData := Where(rows, IsMsoaRow);
    var total := GroupSum(Entries(msoaData));
    var black := GroupSum(Entries(Where(msoaData, IsBlackRow)));
    var r := MergeCounts(black, total);
    MergeCountsDistinct(black, total);
    WhereWhere(rows);
    forall c | c in r
      ensures StartsWith(c.msoa, MsoaCodePrefix)
      ensures c.population == AreaPopulation(rows, c.msoa)
      ensures c.blackCount == AreaBlackCount(rows, c.msoa)
      ensures HasBlackRow(rows, c.msoa)
    {
      var i, j :| 0 <= i < |black| && 0 <= j < |total| && black[i].key == total[j].key
        && c == CountRow(black[i].key, black[i].value, total[j].value);
      GroupValueOfEntry(black, i);
      GroupValueOfEntry(total, j);
      KeySumWhere(rows, IsMsoaRow, c.msoa);
      KeySumWhere(rows, IsBlackMsoaRow, c.msoa);
      assert HasKey(black, c.msoa);
      HasKeyWhere(rows, IsBlackMsoaRow, c.msoa);
    }
    forall code | HasBlackRow(rows, code) ensures code in KeySet(r, CountKey) {
      HasKeyWhere(rows, IsBlackMsoaRow, code);
      HasKeyWhere(rows, IsMsoaRow, code);
      var i :| 0 <= i < |black| && black[i].key == code;
      var j :| 0 <= j < |total| && total[j].key == code;
      assert CountRow(code, black[i].value, total[j].value) in r;
    }
    r
  }

  lemma {:induction false} SumWhereMonotone(rows: seq<CensusRow>, p: CensusRow -> bool, q: CensusRow -> bool, k: string)
    requires forall i :: 0 <= i < |rows| ==> rows[i].observation >= 0
    requires forall x :: p(x) ==> q(x)
    ensures 0 <= SumWhere(rows, p, k) <= SumWhere(rows, q, k)
    decreases |rows|
  {
    if |rows| > 0 {
      SumWhereMonotone(rows[..|rows| - 1], p, q, k);
    }
  }

  /**
   * With non-negative observations no area has more Black residents than
   * residents: the Black rows are a subset of the rows summed for the total.
   */
  lemma {:induction false} BlackCountAtMostPopulation(rows: seq<CensusRow>)
    requires forall i :: 0 <= i < |rows| ==> rows[i].observation >= 0
    ensures forall c :: c in ProcessCensusData(rows) ==> 0 <= c.blackCount <= c.population
  {
    forall c | c in ProcessCensusData(rows) ensures 0 <= c.blackCount <= c.population {
      SumWhereMonotone(rows, IsBlackMsoaRow, IsMsoaRow, c.msoa);
    }
  }

  lemma {:induction false} WhereConcat(a: seq<CensusRow>, b: seq<CensusRow>, p: CensusRow -> bool)
    ensures Where(a + b, p) == Where(a, p) + Where(b, p)
    decreases |b|
  {
    if |b| > 0 {
      var b' := b[..|b| - 1];
      assert (a + b)[..|a + b| - 1] == a + b';
      WhereConcat(a, b', p);
    } else {
      assert a + b == a;
    }
  }

  /** A row whose code does not start with "E02" changes neither sum, wherever it sits. */
  lemma {:induction false} ProcessIgnoresNonMsoaRows(before: seq<CensusRow>, x: CensusRow, after: seq<CensusRow>)
    requires !StartsWith(x.code, MsoaCodePrefix)
    ensures ProcessCensusData(before + [x] + after) == ProcessCensusData(before + after)
  {
    WhereConcat(before + [x], after, IsMsoaRow);
    WhereConcat(before, [x], IsMsoaRow);
    WhereConcat(before, after, IsMsoaRow);
    assert Where([x], IsMsoaRow) == [] by {
      assert [x][..0] == [];
    }
    assert Where(before + [x] + after, IsMsoaRow) == Where(before + after, IsMsoaRow);
  }

  lemma {:induction false} GroupSumOfTwo(k: string, a: int, b: int)
    ensures GroupSum([Entry(k, a), Entry(k, b)]) == [Entry(k, a + b)]
  {
    assert [Entry(k, a), Entry(k, b)][..1] == [Entry(k, a)];
    assert [Entry(k, a)][..0] == [];
    assert GroupSum([Entry(k, a)]) == [Entry(k, a)];
  }

  lemma {:induction false} GroupSumOfOne(k: string, a: int)
    ensures GroupSum([Entry(k, a)]) == [Entry(k, a)]
  {
    assert [Entry(k, a)][..0] == [];
  }

  lemma {:induction false} MergeCountsOfOne(k: string, b: int, t: int)
    ensures MergeCounts([Entry(k, b)], [Entry(k, t)]) == [CountRow(k, b, t)]
  {
    assert [Entry(k, b)][1..] == [];
    assert [Entry(k, t)][1..] == [];
  }

  /** One African row of 50 and one White row of 450 give population 500 and black_count 50. */
  lemma ExampleAfricanAndWhite()
    ensures ProcessCensusData([
      CensusRow("E02000001", "Black, Black British, Black Welsh, Caribbean or African: African", 50),
      CensusRow("E02000001", "White: English", 450)]) == [CountRow("E02000001", 50, 500)]
  {
    var african := CensusRow("E02000001", "Black, Black British, Black Welsh, Caribbean or African: African", 50);
    var white := CensusRow("E02000001", "White: English", 450);
    var rows := [african, white];
    assert african.code[..3] == MsoaCodePrefix;
    assert african.ethnicGroup[..|BlackLabelPrefix|] == BlackLabelPrefix;
    assert |white.ethnicGroup| < |BlackLabelPrefix|;
    assert IsMsoaRow(african) && IsMsoaRow(white) && IsBlackRow(african) && !IsBlackRow(white);
    assert rows[..1] == [african];
    assert [african][..0] == [];
    assert Where([african], IsMsoaRow) == [african];
    assert Where(rows, IsMsoaRow) == rows;
    assert Where([african], IsBlackRow) == [african];
    assert Where(rows, IsBlackRow) == [african];
    assert Entries(rows) == [Entry("E02000001", 50), Entry("E02000001", 450)];
    assert Entries([african]) == [Entry("E02000001", 50)];
    GroupSumOfTwo("E02000001", 50, 450);
    GroupSumOfOne("E02000001", 50);
    MergeCountsOfOne("E02000001", 50, 500);
  }

  /** The Black heading without its colon is not a Black subcategory, so its area is absent. */
  lemma ExampleLabelWithoutColon()
    ensures ProcessCensusData([
      CensusRow("E02000002", "Black, Black British, Black Welsh, Caribbean or African", 60),
      CensusRow("E02000002", "White: English", 40)]) == []
  {
    var heading := CensusRow("E02000002", "Black, Black British, Black Welsh, Caribbean or African", 60);
    var white := CensusRow("E02000002", "White: English", 40);
    var rows := [heading, white];
    assert |heading.ethnicGroup| < |BlackLabelPrefix|;
    assert |white.ethnicGroup| < |BlackLabelPrefix|;
    assert !IsBlackRow(heading) && !IsBlackRow(white);
    forall code ensures !HasBlackRow(rows, code) {
      forall i | 0 <= i < |rows| ensures !IsBlackMsoaRow(rows[i]) {
        assert rows[i] == heading || rows[i] == white;
      }
    }
    var r := ProcessCensusData(rows);
    assert |r| > 0 ==> r[0].msoa in KeySet(r, CountKey);
  }
}
