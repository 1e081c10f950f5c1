/**
 * The boundary archive: choosing the MSOA shapefile among the archive's
 * members, finding the code and name columns of its attribute table, and
 * projecting its features onto (msoa, msoa_name, geometry).
 */
module Boundaries {
  import opened Base
  import opened Strings
  import opened Records

  const ShapefileNotFound := RuntimeError("MSOA shapefile not found in boundary ZIP")
  const ColumnsNotFound := KeyError("Could not find MSOA code/name columns in shapefile")

  /** An archive member that names a London MSOA shapefile, compared case-insensitively. */
  predicate IsShapefileCandidate(name: string)
  {
    var l := Lower(name);
    EndsWith(l, ".shp") && Contains(l, "msoa") && Contains(l, "london")
  }

  /** Member `k` is a shortest candidate and no earlier candidate is as short. */
  predicate IsChosenMember(names: seq<string>, k: int)
    requires 0 <= k < |names|
  {
    && IsShapefileCandidate(names[k])
    && (forall j :: 0 <= j < |names| && IsShapefileCandidate(names[j]) ==> |names[k]| <= |names[j]|)
    && (forall j :: 0 <= j < k && IsShapefileCandidate(names[j]) ==> |names[k]| < |names[j]|)
  }

  /**
   * `min(candidates, key=len)` over the candidate members: the shortest
   * candidate, the earliest in archive order among equally short ones.
   */
  method SearchShpMember(names: seq<string>) returns (r: Result<string, Error>)
    ensures r.Failure? <==> forall i :: 0 <= i < |names| ==> !IsShapefileCandidate(names[i])
    ensures r.Failure? ==> r.error == ShapefileNotFound
    ensures r.Success? ==> exists k :: 0 <= k < |names| && names[k] == r.value && IsChosenMember(names, k)
  {
    var best := -1;
    for i := 0 to |names|
      invariant -1 <= best < i || (best == -1 && i == 0)
      invariant best == -1 <==> forall j :: 0 <= j < i ==> !IsShapefileCandidate(names[j])
      invariant best >= 0 ==> best < |names| && IsShapefileCandidate(names[best])
      invariant best >= 0 ==> forall j :: 0 <= j < i && IsShapefileCandidate(names[j]) ==> |names[best]| <= |names[j]|
      invariant best >= 0 ==> forall j :: 0 <= j < best && IsShapefileCandidate(names[j]) ==> |names[best]| < |names[j]|
    {
      if IsShapefileCandidate(names[i]) && (best == -1 || |names[i]| < |names[best]|) {
        best := i;
      }
    }
    if best == -1 {
      return Failure(ShapefileNotFound);
    }
    assert IsChosenMember(names, best);
    return Success(names[best]);
  }

  /** `msoa…cd`: the code column rule. */
  predicate IsCodeColumn(c: string)
  {
    var l := Lower(c);
    StartsWith(l, "msoa") && EndsWith(l, "cd")
  }

  /** `msoa…nm` or `msoa…name…`: the name column rule. */
  predicate IsNameColumn(c: string)
  {
    var l := Lower(c);
    StartsWith(l, "msoa") && (EndsWith(l, "nm") || Contains(l, "name"))
  }

  /** Column `k` satisfies `p` and no earlier column does. */
  predicate IsFirstMatch(columns: seq<string>, k: nat, p: string -> bool)
    requires k < |columns|
  {
    p(columns[k]) && forall j :: 0 <= j < k ==> !p(columns[j])
  }

  /** `next((c for c in columns if p(c)), None)`, as the index of the column found. */
  function FirstWhere(columns: seq<string>, p: string -> bool): (r: Option<nat>)
    ensures r.Some? ==> r.value < |columns| && IsFirstMatch(columns, r.value, p)
    ensures r.None? ==> forall j :: 0 <= j < |columns| ==> !p(columns[j])
  {
    if |columns| == 0 then None
    else if p(columns[0]) then Some(0)
    else
      match FirstWhere(columns[1..], p)
      case None => None
      case Some(i) => Some(i + 1)
  }

  /** The code column and the name column of the attribute table, or the KeyError. */
  function IdentifyMsoaColumns(columns: seq<string>): (r: Result<(string, string), Error>)
    ensures r.Failure? <==>
      (forall j :: 0 <= j < |columns| ==> !IsCodeColumn(columns[j]))
      || (forall j :: 0 <= j < |columns| ==> !IsNameColumn(columns[j]))
    ensures r.Failure? ==> r.error == ColumnsNotFound
    ensures r.Success? ==> exists k :: 0 <= k < |columns| && columns[k] == r.value.0 && IsFirstMatch(columns, k, IsCodeColumn)
    ensures r.Success? ==> exists k :: 0 <= k < |columns| && columns[k] == r.value.1 && IsFirstMatch(columns, k, IsNameColumn)
  {
    var code := FirstWhere(columns, IsCodeColumn);
    var name := FirstWhere(columns, IsNameColumn);
    if code.None? || name.None? then Failure(ColumnsNotFound)
    else Success((columns[code.value], columns[name.value]))
  }

  /** A feature of the shapefile: its attribute row and its geometry. */
  datatype Feature = Feature(attributes: map<string, string>, geometry: Geometry)

  /**
   * `gdf[[code_col, name_col, "geometry"]]` renamed to msoa and msoa_name.
   * When one column satisfies both rules the rename dictionary keeps only
   * its second entry, the frame ends up with no msoa column, and the first
   * merge on msoa raises KeyError('msoa').
   */
  function ProjectShapes(columns: seq<string>, features: seq<Feature>): (r: Result<seq<Shape>, Error>)
    requires forall f :: f in features ==> forall c :: c in columns ==> c in f.attributes
    ensures IdentifyMsoaColumns(columns).Failure? ==> r == Failure(ColumnsNotFound)
    ensures r.Success? <==> (IdentifyMsoaColumns(columns).Success?
      && IdentifyMsoaColumns(columns).value.0 != IdentifyMsoaColumns(columns).value.1)
    ensures r.Failure? && IdentifyMsoaColumns(columns).Success? ==> r.error == KeyError("msoa")
    ensures r.Success? ==> |r.value| == |features|
    ensures r.Success? ==> var (code, name) := IdentifyMsoaColumns(columns).value;
      code != name
      && forall i :: 0 <= i < |features| ==>
        r.value[i] == Shape(features[i].attributes[code], features[i].attributes[name], features[i].geometry)
  {
    match IdentifyMsoaColumns(columns)
    case Failure(e) => Failure(e)
    case Success((code, name)) =>
      if code == name then Failure(KeyError("msoa"))
      else Success(seq(|features|, i requires 0 <= i < |features| =>
        Shape(features[i].attributes[code], features[i].attributes[name], features[i].geometry)))
  }

  /** The selection rule picks at most one member: the search's answer is determined. */
  lemma {:induction false} ChosenMemberUnique(names: seq<string>, k1: int, k2: int)
    requires 0 <= k1 < |names| && 0 <= k2 < |names|
    requires IsChosenMember(names, k1) && IsChosenMember(names, k2)
    ensures k1 == k2
  {
  }

  lemma CodeColumnExample()
    ensures IsCodeColumn("MSOA11CD") && !IsNameColumn("MSOA11CD")
  {
    var l := Lower("MSOA11CD");
    assert l[0] == 'm' && l[1] == 's' && l[2] == 'o' && l[3] == 'a';
    assert l[4] == '1' && l[5] == '1' && l[6] == 'c' && l[7] == 'd';
    assert l == "msoa11cd";
    assert 'n' !in l;
    NotContainedWithoutFirstChar(l, "name");
  }

  lemma NameColumnExample()
    ensures IsNameColumn("MSOA11NM") && !IsCodeColumn("MSOA11NM")
  {
    assert Lower("MSOA11NM") == "msoa11nm";
  }

  lemma OtherColumnExample()
    ensures !IsNameColumn("OBJECTID") && !IsCodeColumn("OBJECTID")
  {
    assert Lower("OBJECTID")[..4] == "obje";
  }

  /** Upper-case letters do not matter to the column rules. */
  lemma ExampleColumns()
    ensures IdentifyMsoaColumns(["OBJECTID", "MSOA11CD", "MSOA11NM", "geometry"]) == Success(("MSOA11CD", "MSOA11NM"))
  {
    var columns := ["OBJECTID", "MSOA11CD", "MSOA11NM", "geometry"];
    CodeColumnExample();
    NameColumnExample();
    OtherColumnExample();
    assert FirstWhere(columns, IsCodeColumn) == Some(1) by {
      assert columns[1..][0] == "MSOA11CD";
    }
    assert FirstWhere(columns, IsNameColumn) == Some(2) by {
      assert columns[1..][1..][0] == "MSOA11NM";
      assert columns[1..][0] == "MSOA11CD";
    }
  }
}
