/**
 * The pandas operations the pipeline is built from, on in-memory rows:
 * `groupby(key)[value].sum()`, the inner `merge` of two keyed sums, and the
 * left `merge` on a key column.
 */
module Frames {
  import opened Base
  import opened Records

  /** One (key, value) row of a two-column frame. */
  datatype Entry = Entry(key: string, value: int)

  predicate HasKey(xs: seq<Entry>, k: string)
  {
    exists i :: 0 <= i < |xs| && xs[i].key == k
  }

  /** No two rows share a key: the key column is a primary key. */
  predicate UniqueKeys<R>(xs: seq<R>, key: R -> string)
  {
    forall i, j :: 0 <= i < j < |xs| ==> key(xs[i]) != key(xs[j])
  }

  /** The keys occurring in a table. */
  function KeySet<R>(xs: seq<R>, key: R -> string): set<string>
  {
    set i | 0 <= i < |xs| :: key(xs[i])
  }

  function EntryKey(e: Entry): string { e.key }
  function CountKey(c: CountRow): string { c.msoa }

  /** Reference meaning of a group-by sum: the total of every value stored under `k`. */
  function KeySum(xs: seq<Entry>, k: string): int
    decreases |xs|
  {
    if |xs| == 0 then 0
    else KeySum(xs[..|xs| - 1], k) + (if xs[|xs| - 1].key == k then xs[|xs| - 1].value else 0)
  }

  /** The value stored under `k` in a table of groups, 0 when there is none. */
  function GroupValue(gs: seq<Entry>, k: string): int
  {
    if |gs| == 0 then 0
    else if gs[0].key == k then gs[0].value
    else GroupValue(gs[1..], k)
  }

  lemma {:induction false} HasKeyCons(x: Entry, s: seq<Entry>, k: string)
    ensures HasKey([x] + s, k) <==> x.key == k || HasKey(s, k)
  {
    var r := [x] + s;
    assert r[0] == x;
    if HasKey(s, k) {
      var i :| 0 <= i < |s| && s[i].key == k;
      assert r[i + 1].key == k;
    }
    if HasKey(r, k) && x.key != k {
      var i :| 0 <= i < |r| && r[i].key == k;
      assert s[i - 1].key == k;
    }
  }

  lemma {:induction false} HasKeySnoc(s: seq<Entry>, x: Entry, k: string)
    ensures HasKey(s + [x], k) <==> HasKey(s, k) || x.key == k
  {
    var r := s + [x];
    assert r[|s|] == x;
    if HasKey(s, k) {
      var i :| 0 <= i < |s| && s[i].key == k;
      assert r[i].key == k;
    }
    if HasKey(r, k) && x.key != k {
      var i :| 0 <= i < |r| && r[i].key == k;
      assert s[i].key == k;
    }
  }

  lemma {:induction false} DistinctCons(x: Entry, s: seq<Entry>)
    requires UniqueKeys(s, EntryKey)
    requires !HasKey(s, x.key)
    ensures UniqueKeys([x] + s, EntryKey)
  {
    var r := [x] + s;
    forall i, j | 0 <= i < j < |r| ensures r[i].key != r[j].key {
      if i == 0 {
        assert s[j - 1].key == r[j].key;
      }
    }
  }

  lemma {:induction false} AbsentKeySumsToZero(xs: seq<Entry>, k: string)
    requires !HasKey(xs, k)
    ensures KeySum(xs, k) == 0
    decreases |xs|
  {
    if |xs| > 0 {
      var prefix := xs[..|xs| - 1];
      assert xs == prefix + [xs[|xs| - 1]];
      HasKeySnoc(prefix, xs[|xs| - 1], k);
      AbsentKeySumsToZero(prefix, k);
    }
  }

  lemma {:induction false} GroupValueOfEntry(gs: seq<Entry>, i: int)
    requires UniqueKeys(gs, EntryKey)
    requires 0 <= i < |gs|
    ensures GroupValue(gs, gs[i].key) == gs[i].value
  {
    if i > 0 {
      assert gs[0].key != gs[i].key;
      GroupValueOfEntry(gs[1..], i - 1);
    }
  }

  /** Adds one row to a table of running group sums. */
  function AddTo(gs: seq<Entry>, e: Entry): (r: seq<Entry>)
    requires UniqueKeys(gs, EntryKey)
    ensures UniqueKeys(r, EntryKey)
    ensures forall k :: HasKey(r, k) <==> HasKey(gs, k) || k == e.key
    ensures forall k :: GroupValue(r, k) == GroupValue(gs, k) + (if k == e.key then e.value else 0)
  {
    if |gs| == 0 then
      assert [e][0] == e;
      [e]
    else
      assert gs == [gs[0]] + gs[1..];
      assert UniqueKeys(gs[1..], EntryKey);
      assert !HasKey(gs[1..], gs[0].key) by {
        forall j | 0 <= j < |gs[1..]| ensures gs[1..][j].key != gs[0].key {
          assert gs[1..][j] == gs[j + 1];
        }
      }
      if gs[0].key == e.key then
        var r := [Entry(e.key, gs[0].value + e.value)] + gs[1..];
        DistinctCons(Entry(e.key, gs[0].value + e.value), gs[1..]);
        forall k ensures HasKey(r, k) <==> HasKey(gs, k) {
          HasKeyCons(Entry(e.key, gs[0].value + e.value), gs[1..], k);
          HasKeyCons(gs[0], gs[1..], k);
        }
        r
      else
        var rest := AddTo(gs[1..], e);
        var r := [gs[0]] + rest;
        DistinctCons(gs[0], rest);
        forall k ensures HasKey(r, k) <==> HasKey(gs, k) || k == e.key {
          HasKeyCons(gs[0], rest, k);
          HasKeyCons(gs[0], gs[1..], k);
        }
        r
  }

  /**
   * `groupby(key)[value].sum()`: one row per distinct key, holding the sum of
   * that key's values. Groups are listed in order of first appearance.
   */
  function GroupSum(xs: seq<Entry>): (gs: seq<Entry>)
    ensures UniqueKeys(gs, EntryKey)
    ensures forall k :: HasKey(gs, k) <==> HasKey(xs, k)
    ensures forall k :: GroupValue(gs, k) == KeySum(xs, k)
    decreases |xs|
  {
    if |xs| == 0 then []
    else
      var prefix := xs[..|xs| - 1];
      var last := xs[|xs| - 1];
      assert xs == prefix + [last];
      var gs := AddTo(GroupSum(prefix), last);
      forall k ensures HasKey(xs, k) <==> HasKey(prefix, k) || k == last.key {
        HasKeySnoc(prefix, last, k);
      }
      gs
  }

  /** Each row of a group-by sum holds the total of its own key. */
  lemma {:induction false} GroupSumEntries(xs: seq<Entry>)
    ensures forall i :: 0 <= i < |GroupSum(xs)| ==> GroupSum(xs)[i].value == KeySum(xs, GroupSum(xs)[i].key)
  {
    var gs := GroupSum(xs);
    forall i | 0 <= i < |gs| ensures gs[i].value == KeySum(xs, gs[i].key) {
      GroupValueOfEntry(gs, i);
    }
  }


  /** The rows one left row produces in an inner merge: one per right row with its key. */
  function MatchCounts(l: Entry, right: seq<Entry>): (r: seq<CountRow>)
    ensures forall c :: c in r <==>
      exists j :: 0 <= j < |right| && right[j].key == l.key && c == CountRow(l.key, l.value, right[j].value)
    ensures forall c :: c in r ==> c.msoa == l.key
    ensures |r| <= |right|
  {
    if |right| == 0 then []
    else
      var head := if right[0].key == l.key then [CountRow(l.key, l.value, right[0].value)] else [];
      var rest := MatchCounts(l, right[1..]);
      assert forall c :: c in head + rest <==>
        exists j :: 0 <= j < |right| && right[j].key == l.key && c == CountRow(l.key, l.value, right[j].value) by {
        forall c ensures c in head + rest <==>
          exists j :: 0 <= j < |right| && right[j].key == l.key && c == CountRow(l.key, l.value, right[j].value) {
          if c in rest {
            var j :| 0 <= j < |right[1..]| && right[1..][j].key == l.key && c == CountRow(l.key, l.value, right[1..][j].value);
            assert right[j + 1] == right[1..][j];
          }
          if exists j :: 0 <= j < |right| && right[j].key == l.key && c == CountRow(l.key, l.value, right[j].value) {
            var j :| 0 <= j < |right| && right[j].key == l.key && c == CountRow(l.key, l.value, right[j].value);
            if j > 0 {
              assert right[1..][j - 1] == right[j];
            }
          }
        }
      }
      head + rest
  }

  /**
   * `left.merge(right, on=key)` (an inner merge) of two keyed sums, the left
   * value becoming `black_count` and the right one `population`.
   */
  function MergeCounts(left: seq<Entry>, right: seq<Entry>): (r: seq<CountRow>)
    ensures forall c :: c in r <==>
      exists i, j :: 0 <= i < |left| && 0 <= j < |right| && left[i].key == right[j].key
        && c == CountRow(left[i].key, left[i].value, right[j].value)
  {
    if |left| == 0 then []
    else
      var head := MatchCounts(left[0], right);
      var rest := MergeCounts(left[1..], right);
      assert forall c :: c in head + rest <==>
        exists i, j :: 0 <= i < |left| && 0 <= j < |right| && left[i].key == right[j].key
          && c == CountRow(left[i].key, left[i].value, right[j].value) by {
        forall c ensures c in head + rest <==>
          exists i, j :: 0 <= i < |left| && 0 <= j < |right| && left[i].key == right[j].key
            && c == CountRow(left[i].key, left[i].value, right[j].value) {
          if c in rest {
            var i, j :| 0 <= i < |left[1..]| && 0 <= j < |right| && left[1..][i].key == right[j].key
              && c == CountRow(left[1..][i].key, left[1..][i].value, right[j].value);
            assert left[i + 1] == left[1..][i];
          }
          if exists i, j :: 0 <= i < |left| && 0 <= j < |right| && left[i].key == right[j].key
              && c == CountRow(left[i].key, left[i].value, right[j].value) {
            var i, j :| 0 <= i < |left| && 0 <= j < |right| && left[i].key == right[j].key
              && c == CountRow(left[i].key, left[i].value, right[j].value);
            if i > 0 {
              assert left[1..][i - 1] == left[i];
              assert c in rest;
            }
          }
        }
      }
      head + rest
  }

  lemma {:induction false} NoMatchNoCounts(l: Entry, right: seq<Entry>)
    requires !HasKey(right, l.key)
    ensures MatchCounts(l, right) == []
  {
    if |right| > 0 {
      assert right == [right[0]] + right[1..];
      HasKeyCons(right[0], right[1..], l.key);
      NoMatchNoCounts(l, right[1..]);
    }
  }

  lemma {:induction false} MatchCountsAtMostOne(l: Entry, right: seq<Entry>)
    requires UniqueKeys(right, EntryKey)
    ensures |MatchCounts(l, right)| <= 1
  {
    if |right| > 0 {
      if right[0].key == l.key {
        assert !HasKey(right[1..], l.key) by {
          forall j | 0 <= j < |right[1..]| ensures right[1..][j].key != l.key {
            assert right[1..][j] == right[j + 1];
          }
        }
        NoMatchNoCounts(l, right[1..]);
      } else {
        MatchCountsAtMostOne(l, right[1..]);
      }
    }
  }

  /** An inner merge of two tables with unique keys has unique keys. */
  lemma {:induction false} MergeCountsDistinct(left: seq<Entry>, right: seq<Entry>)
    requires UniqueKeys(left, EntryKey)
    requires UniqueKeys(right, EntryKey)
    ensures UniqueKeys(MergeCounts(left, right), CountKey)
  {
    if |left| > 0 {
      var head := MatchCounts(left[0], right);
      var rest := MergeCounts(left[1..], right);
      MatchCountsAtMostOne(left[0], right);
      MergeCountsDistinct(left[1..], right);
      var r := head + rest;
      forall a, b | 0 <= a < b < |r| ensures r[a].msoa != r[b].msoa {
        if a < |head| {
          assert b >= |head|;
          assert r[a] in head;
          assert r[b] in rest;
          var i, j :| 0 <= i < |left[1..]| && 0 <= j < |right| && left[1..][i].key == right[j].key
            && r[b] == CountRow(left[1..][i].key, left[1..][i].value, right[j].value);
          assert left[1..][i] == left[i + 1];
        } else {
          assert rest[a - |head|] == r[a] && rest[b - |head|] == r[b];
        }
      }
    }
  }

  /** The right rows whose key is `k`, in their original order. */
  function RowsWithKey<R(==)>(right: seq<R>, rk: R -> string, k: string): (ms: seq<R>)
    ensures forall x :: x in ms ==> x in right && rk(x) == k
    ensures forall x :: x in right && rk(x) == k ==> x in ms
    ensures |ms| <= |right|
  {
    if |right| == 0 then []
    else (if rk(right[0]) == k then [right[0]] else []) + RowsWithKey(right[1..], rk, k)
  }

  /** The rows one left row produces in a left merge. */
  function JoinOne<L(==), R(==)>(l: L, ms: seq<R>): (r: seq<(L, Option<R>)>)
    ensures forall p :: p in r ==> p.0 == l && (p.1.Some? ==> p.1.value in ms) && (p.1.None? ==> |ms| == 0)
    ensures forall x :: x in ms ==> (l, Some(x)) in r
    ensures |ms| == 0 ==> (l, None) in r
    ensures |r| == if |ms| == 0 then 1 else |ms|
    ensures forall i :: 0 <= i < |r| ==> r[i].0 == l
  {
    if |ms| == 0 then [(l, None)]
    else
      var r := seq(|ms|, i requires 0 <= i < |ms| => (l, Some(ms[i])));
      assert forall i :: 0 <= i < |ms| ==> r[i] == (l, Some(ms[i]));
      r
  }

  /**
   * `left.merge(right, on=key, how="left")`: each left row, in order, paired
   * with every right row that has its key, or with nothing (NaN columns) when
   * no right row has it.
   */
  function LeftJoin<L(==), R(==)>(left: seq<L>, right: seq<R>, lk: L -> string, rk: R -> string): (r: seq<(L, Option<R>)>)
    ensures forall p :: p in r ==>
      && p.0 in left
      && (p.1.Some? ==> p.1.value in right && rk(p.1.value) == lk(p.0))
      && (p.1.None? ==> forall x :: x in right ==> rk(x) != lk(p.0))
    ensures forall l, x :: l in left && x in right && rk(x) == lk(l) ==> (l, Some(x)) in r
    ensures forall l :: l in left && (forall x :: x in right ==> rk(x) != lk(l)) ==> (l, None) in r
  {
    if |left| == 0 then []
    else
      var ms := RowsWithKey(right, rk, lk(left[0]));
      var head := JoinOne(left[0], ms);
      var rest := LeftJoin(left[1..], right, lk, rk);
      assert left == [left[0]] + left[1..];
      assert |ms| > 0 ==> ms[0] in right && rk(ms[0]) == lk(left[0]);
      head + rest
  }

  /** A left row and a right row with its key meet in the left merge. */
  lemma {:induction false} PairInLeftJoin<L, R>(left: seq<L>, right: seq<R>, lk: L -> string, rk: R -> string, l: L, x: R)
    requires l in left && x in right && rk(x) == lk(l)
    ensures (l, Some(x)) in LeftJoin(left, right, lk, rk)
  {
  }


  lemma {:induction false} NoRowsWithKey<R>(right: seq<R>, rk: R -> string, k: string)
    requires forall i :: 0 <= i < |right| ==> rk(right[i]) != k
    ensures RowsWithKey(right, rk, k) == []
  {
    if |right| > 0 {
      NoRowsWithKey(right[1..], rk, k);
    }
  }

  lemma {:induction false} RowsWithUniqueKey<R>(right: seq<R>, rk: R -> string, k: string)
    requires UniqueKeys(right, rk)
    ensures |RowsWithKey(right, rk, k)| <= 1
  {
    if |right| > 0 {
      if rk(right[0]) == k {
        forall j | 0 <= j < |right[1..]| ensures rk(right[1..][j]) != k {
          assert right[1..][j] == right[j + 1];
        }
        NoRowsWithKey(right[1..], rk, k);
      } else {
        RowsWithUniqueKey(right[1..], rk, k);
      }
    }
  }

  /** One step of a left merge: the first left row's pairs, then the rest. */
  lemma {:induction false} LeftJoinStep<L, R>(left: seq<L>, right: seq<R>, lk: L -> string, rk: R -> string)
    requires |left| > 0
    ensures LeftJoin(left, right, lk, rk)
      == JoinOne(left[0], RowsWithKey(right, rk, lk(left[0]))) + LeftJoin(left[1..], right, lk, rk)
  {
  }

  /** Prepending one pair for `left[0]` to pairs that follow `left[1..]` follows `left`. */
  lemma {:induction false} FirstsShift<L, R>(left: seq<L>, head: seq<(L, Option<R>)>, rest: seq<(L, Option<R>)>)
    requires |left| > 0 && |head| == 1 && head[0].0 == left[0]
    requires |rest| == |left| - 1
    requires forall i :: 0 <= i < |rest| ==> rest[i].0 == left[1..][i]
    ensures |head + rest| == |left|
    ensures forall i :: 0 <= i < |left| ==> (head + rest)[i].0 == left[i]
  {
    forall i | 0 <= i < |left| ensures (head + rest)[i].0 == left[i] {
      if i > 0 {
        assert (head + rest)[i] == rest[i - 1];
        assert left[1..][i - 1] == left[i];
      }
    }
  }

  /** When the right keys are unique a left merge keeps every left row once, in order. */
  lemma {:induction false} LeftJoinUniqueKeepsRows<L, R>(left: seq<L>, right: seq<R>, lk: L -> string, rk: R -> string)
    requires UniqueKeys(right, rk)
    ensures |LeftJoin(left, right, lk, rk)| == |left|
    ensures forall i :: 0 <= i < |left| ==> LeftJoin(left, right, lk, rk)[i].0 == left[i]
  {
    if |left| > 0 {
      var ms := RowsWithKey(right, rk, lk(left[0]));
      RowsWithUniqueKey(right, rk, lk(left[0]));
      LeftJoinUniqueKeepsRows(left[1..], right, lk, rk);
      LeftJoinStep(left, right, lk, rk);
      FirstsShift(left, JoinOne(left[0], ms), LeftJoin(left[1..], right, lk, rk));
    }
  }
}
