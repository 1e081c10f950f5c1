/**
 * load_all_data: the boundary table left-merged on msoa with the income,
 * Black population and housing tables, then stripped of the rows that lack
 * a share, an income or a price.
 */
module Join {
  import opened Base
  import opened Records
  import opened Frames

  /** A row of the merged frame; None stands for the NaN cells of an unmatched left merge. */
  datatype MergedRow = MergedRow(shape: Shape, income: Option<real>, black: Option<BlackRow>, housing: Option<HousingRow>)

  function ShapeKey(s: Shape): string { s.msoa }
  function IncomeKey(x: IncomeRow): string { x.msoa }
  function BlackKey(b: BlackRow): string { b.msoa }
  function HousingKey(h: HousingRow): string { h.msoa }
  function WithIncomeKey(p: (Shape, Option<IncomeRow>)): string { p.0.msoa }
  function WithBlackKey(q: ((Shape, Option<IncomeRow>), Option<BlackRow>)): string { q.0.0.msoa }

  /** The income cell after the merge: NaN when no income row matched or its cell is NaN. */
  function IncomeCell(m: Option<IncomeRow>): Option<real>
  {
    match m
    case None => None
    case Some(x) => x.income
  }

  function Flatten(t: (((Shape, Option<IncomeRow>), Option<BlackRow>), Option<HousingRow>)): MergedRow
  {
    MergedRow(t.0.0.0, IncomeCell(t.0.0.1), t.0.1, t.1)
  }

  /** The three left merges, in the order the source performs them. */
  function ThreeMerges(shapes: seq<Shape>, incomes: seq<IncomeRow>, blacks: seq<BlackRow>, housings: seq<HousingRow>)
    : seq<(((Shape, Option<IncomeRow>), Option<BlackRow>), Option<HousingRow>)>
  {
    var withIncome := LeftJoin(shapes, incomes, ShapeKey, IncomeKey);
    var withBlack := LeftJoin(withIncome, blacks, WithIncomeKey, BlackKey);
    LeftJoin(withBlack, housings, WithBlackKey, HousingKey)
  }

  /** The merged table with its columns laid out flat. */
  function MergeAll(shapes: seq<Shape>, incomes: seq<IncomeRow>, blacks: seq<BlackRow>, housings: seq<HousingRow>): (r: seq<MergedRow>)
    ensures |r| == |ThreeMerges(shapes, incomes, blacks, housings)|
    ensures forall i :: 0 <= i < |r| ==> r[i] == Flatten(ThreeMerges(shapes, incomes, blacks, housings)[i])
  {
    var t := ThreeMerges(shapes, incomes, blacks, housings);
    seq(|t|, i requires 0 <= i < |t| => Flatten(t[i]))
  }

  /** The row has black_share, income and median_house_price. */
  predicate IsComplete(m: MergedRow)
  {
    m.income.Some? && m.black.Some? && m.housing.Some?
  }

  function ToRecord(m: MergedRow): AreaRecord
    requires IsComplete(m)
  {
    var b := m.black.value;
    var h := m.housing.value;
    AreaRecord(m.shape.msoa, m.shape.msoaName, m.shape.geometry, m.income.value,
      b.blackCount, b.population, b.blackShare, h.msoaFullName, h.medianHousePrice)
  }

  /** `dropna(subset=["black_share", "income", "median_house_price"])`, keeping row order. */
  function DropIncomplete(rows: seq<MergedRow>): (r: seq<AreaRecord>)
    ensures forall a :: a in r ==> exists m :: m in rows && IsComplete(m) && a == ToRecord(m)
    ensures forall m :: m in rows && IsComplete(m) ==> ToRecord(m) in r
    decreases |rows|
  {
    if |rows| == 0 then []
    else
      var prefix := rows[..|rows| - 1];
      var last := rows[|rows| - 1];
      assert rows == prefix + [last];
      DropIncomplete(prefix) + (if IsComplete(last) then [ToRecord(last)] else [])
  }

  /** The number of merged rows lacking a share, an income or a price. */
  function IncompleteCount(rows: seq<MergedRow>): nat
  {
    if |rows| == 0 then 0
    else (if IsComplete(rows[0]) then 0 else 1) + IncompleteCount(rows[1..])
  }

  lemma {:induction false} DropIncompleteConcat(a: seq<MergedRow>, b: seq<MergedRow>)
    ensures DropIncomplete(a + b) == DropIncomplete(a) + DropIncomplete(b)
    decreases |b|
  {
    if |b| == 0 {
      assert a + b == a;
    } else {
      var b' := b[..|b| - 1];
      assert (a + b)[..|a + b| - 1] == a + b';
      DropIncompleteConcat(a, b');
    }
  }

  lemma {:induction false} DropIncompleteCount(rows: seq<MergedRow>)
    ensures |DropIncomplete(rows)| + IncompleteCount(rows) == |rows|
    decreases |rows|
  {
    if |rows| > 0 {
      DropIncompleteCount(rows[1..]);
      assert rows == [rows[0]] + rows[1..];
      DropIncompleteConcat([rows[0]], rows[1..]);
      assert [rows[0]][..0] == [];
    }
  }

  /** The area record is built from one row of each of the four tables, all with its code. */
  ghost predicate Joins(a: AreaRecord, shapes: seq<Shape>, incomes: seq<IncomeRow>, blacks: seq<BlackRow>, housings: seq<HousingRow>)
  {
    && Shape(a.msoa, a.msoaName, a.geometry) in shapes
    && IncomeRow(a.msoa, Some(a.income)) in incomes
    && BlackRow(a.msoa, a.blackCount, a.population, a.blackShare) in blacks
    && HousingRow(a.msoa, a.msoaFullName, a.medianHousePrice) in housings
  }

  lemma {:induction false} MergedSound(shapes: seq<Shape>, incomes: seq<IncomeRow>, blacks: seq<BlackRow>, housings: seq<HousingRow>, m: MergedRow)
    requires m in MergeAll(shapes, incomes, blacks, housings) && IsComplete(m)
    ensures Joins(ToRecord(m), shapes, incomes, blacks, housings)
  {
    var withIncome := LeftJoin(shapes, incomes, ShapeKey, IncomeKey);
    var withBlack := LeftJoin(withIncome, blacks, WithIncomeKey, BlackKey);
    var withHousing := LeftJoin(withBlack, housings, WithBlackKey, HousingKey);
    var merged := MergeAll(shapes, incomes, blacks, housings);
    var i :| 0 <= i < |merged| && merged[i] == m;
    var t := withHousing[i];
    assert m == Flatten(t);
    assert t in withHousing;
    assert t.0 in withBlack;
    assert t.0.0 in withIncome;
  }

  /** Four rows with one code meet in the three merges. */
  lemma {:induction false} TripleInMerges(shapes: seq<Shape>, incomes: seq<IncomeRow>, blacks: seq<BlackRow>, housings: seq<HousingRow>,
                       s: Shape, x: IncomeRow, b: BlackRow, h: HousingRow)
    requires s in shapes && x in incomes && b in blacks && h in housings
    requires x.msoa == s.msoa && b.msoa == s.msoa && h.msoa == s.msoa
    ensures (((s, Some(x)), Some(b)), Some(h)) in ThreeMerges(shapes, incomes, blacks, housings)
  {
    var withIncome := LeftJoin(shapes, incomes, ShapeKey, IncomeKey);
    var withBlack := LeftJoin(withIncome, blacks, WithIncomeKey, BlackKey);
    PairInLeftJoin(shapes, incomes, ShapeKey, IncomeKey, s, x);
    PairInLeftJoin(withIncome, blacks, WithIncomeKey, BlackKey, (s, Some(x)), b);
    PairInLeftJoin(withBlack, housings, WithBlackKey, HousingKey, ((s, Some(x)), Some(b)), h);
  }

  lemma {:induction false} MergedComplete(shapes: seq<Shape>, incomes: seq<IncomeRow>, blacks: seq<BlackRow>, housings: seq<HousingRow>, a: AreaRecord)
    requires Joins(a, shapes, incomes, blacks, housings)
    ensures exists m :: m in MergeAll(shapes, incomes, blacks, housings) && IsComplete(m) && ToRecord(m) == a
  {
    var s := Shape(a.msoa, a.msoaName, a.geometry);
    var x := IncomeRow(a.msoa, Some(a.income));
    var b := BlackRow(a.msoa, a.blackCount, a.population, a.blackShare);
    var h := HousingRow(a.msoa, a.msoaFullName, a.medianHousePrice);
    TripleInMerges(shapes, incomes, blacks, housings, s, x, b, h);
    var t := (((s, Some(x)), Some(b)), Some(h));
    var triples := ThreeMerges(shapes, incomes, blacks, housings);
    var i :| 0 <= i < |triples| && triples[i] == t;
    var merged := MergeAll(shapes, incomes, blacks, housings);
    assert merged[i] == Flatten(t);
    assert merged[i] in merged;
    assert IsComplete(Flatten(t)) && ToRecord(Flatten(t)) == a;
  }

  /**
   * The merged, complete table and the number of rows the dropna removed
   * (logged as a warning when it is not zero).
   */
  function LoadAllData(shapes: seq<Shape>, incomes: seq<IncomeRow>, blacks: seq<BlackRow>, housings: seq<HousingRow>): (r: (seq<AreaRecord>, nat))
    ensures forall a :: a in r.0 ==> Joins(a, shapes, incomes, blacks, housings)
    ensures forall a :: Joins(a, shapes, incomes, blacks, housings) ==> a in r.0
    ensures |r.0| + r.1 == |MergeAll(shapes, incomes, blacks, housings)|
    ensures r.1 == IncompleteCount(MergeAll(shapes, incomes, blacks, housings))
  {
    var merged := MergeAll(shapes, incomes, blacks, housings);
    var records := DropIncomplete(merged);
    DropIncompleteCount(merged);
    forall a | a in records ensures Joins(a, shapes, incomes, blacks, housings) {
      var m :| m in merged && IsComplete(m) && a == ToRecord(m);
      MergedSound(shapes, incomes, blacks, housings, m);
    }
    forall a | Joins(a, shapes, incomes, blacks, housings) ensures a in records {
      MergedComplete(shapes, incomes, blacks, housings, a);
    }
    (records, |merged| - |records|)
  }

  /** With unique codes in the three right-hand tables, the merges keep each boundary row exactly once. */
  lemma {:induction false} UniqueKeysKeepEveryArea(shapes: seq<Shape>, incomes: seq<IncomeRow>, blacks: seq<BlackRow>, housings: seq<HousingRow>)
    requires UniqueKeys(incomes, IncomeKey) && UniqueKeys(blacks, BlackKey) && UniqueKeys(housings, HousingKey)
    ensures |MergeAll(shapes, incomes, blacks, housings)| == |shapes|
    ensures forall i :: 0 <= i < |shapes| ==> MergeAll(shapes, incomes, blacks, housings)[i].shape == shapes[i]
    ensures |LoadAllData(shapes, incomes, blacks, housings).0| + LoadAllData(shapes, incomes, blacks, housings).1 == |shapes|
  {
    var withIncome := LeftJoin(shapes, incomes, ShapeKey, IncomeKey);
    var withBlack := LeftJoin(withIncome, blacks, WithIncomeKey, BlackKey);
    LeftJoinUniqueKeepsRows(shapes, incomes, ShapeKey, IncomeKey);
    LeftJoinUniqueKeepsRows(withIncome, blacks, WithIncomeKey, BlackKey);
    LeftJoinUniqueKeepsRows(withBlack, housings, WithBlackKey, HousingKey);
  }

  function MergedKey(m: MergedRow): string { m.shape.msoa }

  function RecordKey(a: AreaRecord): string { a.msoa }

  lemma {:induction false} DropIncompleteDistinct(rows: seq<MergedRow>)
    requires UniqueKeys(rows, MergedKey)
    ensures UniqueKeys(DropIncomplete(rows), RecordKey)
    decreases |rows|
  {
    if |rows| > 0 {
      var n := |rows| - 1;
      var prefix := rows[..n];
      assert forall i :: 0 <= i < n ==> prefix[i] == rows[i];
      DropIncompleteDistinct(prefix);
      var dp := DropIncomplete(prefix);
      var r := DropIncomplete(rows);
      forall i, j | 0 <= i < j < |r| ensures r[i].msoa != r[j].msoa {
        if j == |dp| {
          assert r[i] == dp[i] && dp[i] in dp;
          var m :| m in prefix && IsComplete(m) && dp[i] == ToRecord(m);
          var k :| 0 <= k < n && prefix[k] == m;
          assert r[j] == ToRecord(rows[n]);
        } else {
          assert r[i] == dp[i] && r[j] == dp[j];
        }
      }
    }
  }


  lemma {:induction false} KeySetSize<R>(xs: seq<R>, key: R -> string)
    ensures |KeySet(xs, key)| <= |xs|
    decreases |xs|
  {
    if |xs| > 0 {
      var rest := xs[1..];
      KeySetSize(rest, key);
      assert KeySet(xs, key) == {key(xs[0])} + KeySet(rest, key) by {
        forall k | k in KeySet(xs, key) ensures k in {key(xs[0])} + KeySet(rest, key) {
          var i :| 0 <= i < |xs| && key(xs[i]) == k;
          if i > 0 {
            assert rest[i - 1] == xs[i];
          }
        }
        forall k | k in KeySet(rest, key) ensures k in KeySet(xs, key) {
          var i :| 0 <= i < |rest| && key(rest[i]) == k;
          assert xs[i + 1] == rest[i];
        }
      }
    }
  }

  lemma {:induction false} UniqueKeySetSize<R>(xs: seq<R>, key: R -> string)
    requires UniqueKeys(xs, key)
    ensures |KeySet(xs, key)| == |xs|
    decreases |xs|
  {
    if |xs| > 0 {
      var rest := xs[1..];
      assert UniqueKeys(rest, key) by {
        forall i, j | 0 <= i < j < |rest| ensures key(rest[i]) != key(rest[j]) {
          assert rest[i] == xs[i + 1] && rest[j] == xs[j + 1];
        }
      }
      UniqueKeySetSize(rest, key);
      assert KeySet(xs, key) == {key(xs[0])} + KeySet(rest, key) by {
        forall k | k in KeySet(xs, key) ensures k in {key(xs[0])} + KeySet(rest, key) {
          var i :| 0 <= i < |xs| && key(xs[i]) == k;
          if i > 0 {
            assert rest[i - 1] == xs[i];
          }
        }
        forall k | k in KeySet(rest, key) ensures k in KeySet(xs, key) {
          var i :| 0 <= i < |rest| && key(rest[i]) == k;
          assert xs[i + 1] == rest[i];
        }
      }
      assert key(xs[0]) !in KeySet(rest, key) by {
        forall i | 0 <= i < |rest| ensures key(rest[i]) != key(xs[0]) {
          assert rest[i] == xs[i + 1];
        }
      }
    }
  }

  lemma {:induction false} SubsetSize(a: set<string>, b: set<string>)
    requires a <= b
    ensures |a| <= |b|
    decreases |a|
  {
    if a != {} {
      var x :| x in a;
      SubsetSize(a - {x}, b - {x});
    }
  }

  /** A table with unique codes, all found in another table, is no longer than that table. */
  lemma {:induction false} RowsBoundedByKeys<R, S>(xs: seq<R>, kx: R -> string, ys: seq<S>, ky: S -> string)
    requires UniqueKeys(xs, kx)
    requires KeySet(xs, kx) <= KeySet(ys, ky)
    ensures |xs| <= |ys|
  {
    UniqueKeySetSize(xs, kx);
    KeySetSize(ys, ky);
    SubsetSize(KeySet(xs, kx), KeySet(ys, ky));
  }

  lemma {:induction false} JoinedDistinct(shapes: seq<Shape>, incomes: seq<IncomeRow>, blacks: seq<BlackRow>, housings: seq<HousingRow>)
    requires UniqueKeys(shapes, ShapeKey)
    requires UniqueKeys(incomes, IncomeKey) && UniqueKeys(blacks, BlackKey) && UniqueKeys(housings, HousingKey)
    ensures UniqueKeys(LoadAllData(shapes, incomes, blacks, housings).0, RecordKey)
  {
    var merged := MergeAll(shapes, incomes, blacks, housings);
    UniqueKeysKeepEveryArea(shapes, incomes, blacks, housings);
    assert UniqueKeys(merged, MergedKey) by {
      forall i, j | 0 <= i < j < |merged| ensures merged[i].shape.msoa != merged[j].shape.msoa {
        assert ShapeKey(shapes[i]) != ShapeKey(shapes[j]);
      }
    }
    DropIncompleteDistinct(merged);
  }

  lemma {:induction false} JoinedCodesInTables(shapes: seq<Shape>, incomes: seq<IncomeRow>, blacks: seq<BlackRow>, housings: seq<HousingRow>)
    ensures KeySet(LoadAllData(shapes, incomes, blacks, housings).0, RecordKey) <= KeySet(incomes, IncomeKey)
    ensures KeySet(LoadAllData(shapes, incomes, blacks, housings).0, RecordKey) <= KeySet(blacks, BlackKey)
    ensures KeySet(LoadAllData(shapes, incomes, blacks, housings).0, RecordKey) <= KeySet(housings, HousingKey)
  {
    var rs := LoadAllData(shapes, incomes, blacks, housings).0;
    forall k | k in KeySet(rs, RecordKey)
      ensures k in KeySet(incomes, IncomeKey) && k in KeySet(blacks, BlackKey) && k in KeySet(housings, HousingKey)
    {
      var n :| 0 <= n < |rs| && RecordKey(rs[n]) == k;
      var a := rs[n];
      assert a in rs;
      var i :| 0 <= i < |incomes| && incomes[i] == IncomeRow(a.msoa, Some(a.income));
      assert IncomeKey(incomes[i]) == k;
      var j :| 0 <= j < |blacks| && blacks[j] == BlackRow(a.msoa, a.blackCount, a.population, a.blackShare);
      assert BlackKey(blacks[j]) == k;
      var h :| 0 <= h < |housings| && housings[h] == HousingRow(a.msoa, a.msoaFullName, a.medianHousePrice);
      assert HousingKey(housings[h]) == k;
    }
  }

  /**
   * With one boundary row per area and unique codes in every table, the
   * joined table has at most as many rows as each input table.
   */
  lemma {:induction false} JoinedAtMostSmallestTable(shapes: seq<Shape>, incomes: seq<IncomeRow>, blacks: seq<BlackRow>, housings: seq<HousingRow>)
    requires UniqueKeys(shapes, ShapeKey)
    requires UniqueKeys(incomes, IncomeKey) && UniqueKeys(blacks, BlackKey) && UniqueKeys(housings, HousingKey)
    ensures |LoadAllData(shapes, incomes, blacks, housings).0| <= |shapes|
    ensures |LoadAllData(shapes, incomes, blacks, housings).0| <= |incomes|
    ensures |LoadAllData(shapes, incomes, blacks, housings).0| <= |blacks|
    ensures |LoadAllData(shapes, incomes, blacks, housings).0| <= |housings|
  {
    var rs := LoadAllData(shapes, incomes, blacks, housings).0;
    UniqueKeysKeepEveryArea(shapes, incomes, blacks, housings);
    JoinedDistinct(shapes, incomes, blacks, housings);
    JoinedCodesInTables(shapes, incomes, blacks, housings);
    RowsBoundedByKeys(rs, RecordKey, incomes, IncomeKey);
    RowsBoundedByKeys(rs, RecordKey, blacks, BlackKey);
    RowsBoundedByKeys(rs, RecordKey, housings, HousingKey);
  }
}
