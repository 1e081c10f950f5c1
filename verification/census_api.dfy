/**
 * process_observations: the observations fetched from the census API turned
 * into one (msoa, black_count, population) row per area. Fetching, paging
 * and JSON decoding happen before this step and are not part of the model.
 */
module CensusApi {
  import opened Base
  import opened Records
  import opened Frames

  const AllPersons := "All persons"
  const AllEthnicGroups := "All ethnic groups"
  const BlackGroupLabel := "Black, Black British, Black Welsh, Caribbean or African"

  /**
   * One API observation: the geography id, the ethnic group and sex labels
   * of its dimensions, and its numeric value.
   */
  datatype Observation = Observation(geographyId: string, ethnicGroup: string, sex: string, value: real)

  /** One row of the intermediate frame: msoa, ethnic_group, count. */
  datatype Record = Record(msoa: string, ethnicGroup: string, count: int)

  /** Python's `int(x)` on a number: truncation toward zero. */
  function Truncate(x: real): (n: int)
    ensures 0.0 <= x ==> 0 <= n && n as real <= x < n as real + 1.0
    ensures x < 0.0 ==> n <= 0 && n as real - 1.0 < x <= n as real
  {
    if x >= 0.0 then x.Floor else -((-x).Floor)
  }

  predicate Kept(o: Observation)
  {
    o.sex == AllPersons
  }

  function ToRecord(o: Observation): Record
  {
    Record(o.geographyId, o.ethnicGroup, Truncate(o.value))
  }

  /** Reference meaning of the loop: the kept observations' records, in order. */
  function KeptRecords(obs: seq<Observation>): (r: seq<Record>)
    ensures |r| <= |obs|
    decreases |obs|
  {
    if |obs| == 0 then []
    else KeptRecords(obs[..|obs| - 1]) + (if Kept(obs[|obs| - 1]) then [ToRecord(obs[|obs| - 1])] else [])
  }

  /** `df[df["ethnic_group"] == group][["msoa", ...]]` */
  function Labelled(data: seq<Record>, group: string): (r: seq<Entry>)
    ensures forall e :: e in r <==> exists x :: x in data && x.ethnicGroup == group && e == Entry(x.msoa, x.count)
  {
    if |data| == 0 then []
    else
      var head := if data[0].ethnicGroup == group then [Entry(data[0].msoa, data[0].count)] else [];
      var rest := Labelled(data[1..], group);
      assert data == [data[0]] + data[1..];
      head + rest
  }

  lemma {:induction false} KeptRecordsMeaning(obs: seq<Observation>)
    ensures forall x :: x in KeptRecords(obs) <==> exists o :: o in obs && Kept(o) && x == ToRecord(o)
    decreases |obs|
  {
    if |obs| > 0 {
      var prefix := obs[..|obs| - 1];
      KeptRecordsMeaning(prefix);
      assert obs == prefix + [obs[|obs| - 1]];
    }
  }

  lemma {:induction false} KeptRecordsEmpty(obs: seq<Observation>)
    ensures |KeptRecords(obs)| == 0 <==> forall i :: 0 <= i < |obs| ==> !Kept(obs[i])
    decreases |obs|
  {
    if |obs| > 0 {
      var prefix := obs[..|obs| - 1];
      KeptRecordsEmpty(prefix);
      assert forall i :: 0 <= i < |prefix| ==> prefix[i] == obs[i];
    }
  }

  /**
   * The frame built by the loop has no columns when no observation is for
   * "All persons", and selecting its "ethnic_group" column then raises.
   */
  const EmptyFrameError := KeyError("ethnic_group")

  /** A Black row and a total row of the same area, with the counts they carry. */
  ghost predicate Pairs(obs: seq<Observation>, c: CountRow)
  {
    exists b, t :: b in obs && t in obs && Kept(b) && Kept(t)
      && b.ethnicGroup == BlackGroupLabel && t.ethnicGroup == AllEthnicGroups
      && b.geographyId == t.geographyId
      && c == CountRow(b.geographyId, Truncate(b.value), Truncate(t.value))
  }

  /** No area has two "All persons" observations of group `g`. */
  ghost predicate AtMostOnePerArea(obs: seq<Observation>, g: string)
  {
    forall i, j ::
      (0 <= i < j < |obs| && Kept(obs[i]) && Kept(obs[j]) && obs[i].ethnicGroup == g && obs[j].ethnicGroup == g)
      ==> obs[i].geographyId != obs[j].geographyId
  }

  ghost predicate UniqueGroupRows(data: seq<Record>, g: string)
  {
    forall i, j :: 0 <= i < j < |data| && data[i].ethnicGroup == g && data[j].ethnicGroup == g
      ==> data[i].msoa != data[j].msoa
  }

  lemma {:induction false} KeptUnique(obs: seq<Observation>, g: string)
    requires AtMostOnePerArea(obs, g)
    ensures UniqueGroupRows(KeptRecords(obs), g)
    decreases |obs|
  {
    if |obs| > 0 {
      var n := |obs| - 1;
      var prefix := obs[..n];
      assert AtMostOnePerArea(prefix, g) by {
        assert forall i :: 0 <= i < n ==> prefix[i] == obs[i];
      }
      KeptUnique(prefix, g);
      KeptRecordsMeaning(prefix);
      var dp := KeptRecords(prefix);
      var data := KeptRecords(obs);
      forall i, j | 0 <= i < j < |data| && data[i].ethnicGroup == g && data[j].ethnicGroup == g
        ensures data[i].msoa != data[j].msoa
      {
        if j == |dp| {
          assert data[i] == dp[i] && dp[i] in dp;
          var o :| o in prefix && Kept(o) && dp[i] == ToRecord(o);
          var k :| 0 <= k < n && prefix[k] == o;
          assert obs[k] == o;
          assert data[j] == ToRecord(obs[n]);
        } else {
          assert data[i] == dp[i] && data[j] == dp[j];
        }
      }
    }
  }

  lemma {:induction false} LabelledDistinct(data: seq<Record>, g: string)
    requires UniqueGroupRows(data, g)
    ensures UniqueKeys(Labelled(data, g), EntryKey)
    decreases |data|
  {
    if |data| > 0 {
      var rest := Labelled(data[1..], g);
      assert UniqueGroupRows(data[1..], g) by {
        assert forall i :: 0 <= i < |data| - 1 ==> data[1..][i] == data[i + 1];
      }
      LabelledDistinct(data[1..], g);
      if data[0].ethnicGroup == g {
        forall e | e in rest ensures e.key != data[0].msoa {
          var x :| x in data[1..] && x.ethnicGroup == g && e == Entry(x.msoa, x.count);
          var k :| 0 <= k < |data[1..]| && data[1..][k] == x;
          assert data[k + 1] == x;
        }
        DistinctCons(Entry(data[0].msoa, data[0].count), rest);
      }
    }
  }

  /** The rows the method merges: the Black rows with the totals, both from the kept records. */
  function Merged(obs: seq<Observation>): seq<CountRow>
  {
    var data := KeptRecords(obs);
    MergeCounts(Labelled(data, BlackGroupLabel), Labelled(data, AllEthnicGroups))
  }

  lemma {:induction false} MergedSound(obs: seq<Observation>, c: CountRow)
    requires c in Merged(obs)
    ensures Pairs(obs, c)
  {
    var data := KeptRecords(obs);
    var total := Labelled(data, AllEthnicGroups);
    var black := Labelled(data, BlackGroupLabel);
    KeptRecordsMeaning(obs);
    var i, j :| 0 <= i < |black| && 0 <= j < |total| && black[i].key == total[j].key
      && c == CountRow(black[i].key, black[i].value, total[j].value);
    assert black[i] in black && total[j] in total;
    var xb :| xb in data && xb.ethnicGroup == BlackGroupLabel && black[i] == Entry(xb.msoa, xb.count);
    var xt :| xt in data && xt.ethnicGroup == AllEthnicGroups && total[j] == Entry(xt.msoa, xt.count);
    var b :| b in obs && Kept(b) && xb == ToRecord(b);
    var t :| t in obs && Kept(t) && xt == ToRecord(t);
  }

  lemma {:induction false} MergedComplete(obs: seq<Observation>, c: CountRow)
    requires Pairs(obs, c)
    ensures c in Merged(obs)
  {
    var data := KeptRecords(obs);
    var total := Labelled(data, AllEthnicGroups);
    var black := Labelled(data, BlackGroupLabel);
    KeptRecordsMeaning(obs);
    var b, t :| b in obs && t in obs && Kept(b) && Kept(t)
      && b.ethnicGroup == BlackGroupLabel && t.ethnicGroup == AllEthnicGroups
      && b.geographyId == t.geographyId
      && c == CountRow(b.geographyId, Truncate(b.value), Truncate(t.value));
    assert ToRecord(b) in data && ToRecord(t) in data;
    var eb := Entry(b.geographyId, Truncate(b.value));
    var et := Entry(t.geographyId, Truncate(t.value));
    assert eb in black && et in total;
    var i :| 0 <= i < |black| && black[i] == eb;
    var j :| 0 <= j < |total| && total[j] == et;
  }

  lemma {:induction false} MergedDistinct(obs: seq<Observation>)
    requires AtMostOnePerArea(obs, BlackGroupLabel) && AtMostOnePerArea(obs, AllEthnicGroups)
    ensures UniqueKeys(Merged(obs), CountKey)
  {
    KeptUnique(obs, BlackGroupLabel);
    KeptUnique(obs, AllEthnicGroups);
    LabelledDistinct(KeptRecords(obs), BlackGroupLabel);
    LabelledDistinct(KeptRecords(obs), AllEthnicGroups);
    MergeCountsDistinct(Labelled(KeptRecords(obs), BlackGroupLabel), Labelled(KeptRecords(obs), AllEthnicGroups));
  }

  /**
   * Keep the "All persons" observations as records, take the rows labelled
   * exactly "All ethnic groups" as populations and exactly the Black group
   * label as Black counts, and inner-merge the Black rows with the totals.
   */
  method ProcessObservations(obs: seq<Observation>) returns (r: Result<seq<CountRow>, Error>)
    ensures r.Failure? <==> forall i :: 0 <= i < |obs| ==> obs[i].sex != AllPersons
    ensures r.Failure? ==> r.error == EmptyFrameError
    ensures r.Success? ==> forall c :: c in r.value <==> Pairs(obs, c)
    ensures r.Success? && AtMostOnePerArea(obs, BlackGroupLabel) && AtMostOnePerArea(obs, AllEthnicGroups)
      ==> UniqueKeys(r.value, CountKey)
  {
    var data: seq<Record> := [];
    for i := 0 to |obs|
      invariant data == KeptRecords(obs[..i])
    {
      assert obs[..i + 1][..i] == obs[..i];
      if obs[i].sex == AllPersons {
        data := data + [ToRecord(obs[i])];
      }
    }
    assert obs[..|obs|] == obs;
    KeptRecordsEmpty(obs);
    if |data| == 0 {
      return Failure(EmptyFrameError);
    }
    var total := Labelled(data, AllEthnicGroups);
    var black := Labelled(data, BlackGroupLabel);
    var rows := MergeCounts(black, total);
    if AtMostOnePerArea(obs, BlackGroupLabel) && AtMostOnePerArea(obs, AllEthnicGroups) {
      MergedDistinct(obs);
    }
    forall c ensures c in rows <==> Pairs(obs, c) {
      if c in rows {
        MergedSound(obs, c);
      }
      if Pairs(obs, c) {
        MergedComplete(obs, c);
      }
    }
    return Success(rows);
  }
}
