/** Province persistence: the `x,z|x,z|…` text of a province's cells and its parser,
    the entry map a province is saved as, the defaults applied when a saved province
    is loaded, and the coordinate index the load fills. */
module DataHandler {
  import opened Objects
  import opened JavaText

  /** The fields of a province that its file stores besides its cells. */
  datatype ProvinceData = ProvinceData(
    homeBlock: Coord,
    isSea: bool,
    landValidationRequested: bool,
    newTownCost: int,
    upkeepTownCost: int)

  /** A coordinate whose components are Java `int`s. */
  predicate IsInt32Coord(c: Coord) {
    IsInt32(c.x) && IsInt32(c.z)
  }

  /** The `x,z` text of a coordinate. */
  function CoordText(c: Coord): (s: string)
    ensures |s| > 0 && s[|s| - 1] != ',' && '|' !in s
  {
    IntToString(c.x) + "," + IntToString(c.z)
  }

  /** Parses `x,z`: the text is split at commas and the first two pieces are parsed as
      `int`s. Fewer than two pieces or a piece that is not an `int` is an error; pieces
      after the second are ignored. */
  function UnpackCoord(s: string): (r: Option<Coord>)
    ensures r.Some? ==> IsInt32Coord(r.value)
  {
    var parts := JavaSplit(s, ',');
    if |parts| < 2 then None
    else
      match (ParseInt(parts[0]), ParseInt(parts[1]))
      case (Some(x), Some(z)) => Some(Coord(x, z))
      case _ => None
  }

  /** A coordinate written as `x,z` parses back to itself; this is how the home block
      round-trips through a province file. */
  lemma UnpackCoordText(c: Coord)
    requires IsInt32Coord(c)
    ensures UnpackCoord(CoordText(c)) == Some(c)
  {
    var a, b := IntToString(c.x), IntToString(c.z);
    assert ',' !in a && ',' !in b by {
      forall k | 0 <= k < |a| ensures a[k] != ',' { }
      forall k | 0 <= k < |b| ensures b[k] != ',' { }
    }
    assert Join([a, b], ',') == CoordText(c) by {
      assert [a, b][..1] == [a];
    }
    JavaSplitJoin([a, b], ',');
    ParseIntToString(c.x);
    ParseIntToString(c.z);
  }

  /** The texts of the coordinates, in order. */
  function CoordTexts(order: seq<Coord>): (r: seq<string>)
    ensures |r| == |order|
  {
    seq(|order|, i requires 0 <= i < |order| => CoordText(order[i]))
  }

  /** The text a province's cells are saved as, in their iteration order: empty for no
      cells, otherwise the `x,z` texts joined by single `|` characters. */
  function WriteCoords(order: seq<Coord>): string {
    if |order| == 0 then "" else Join(CoordTexts(order), '|')
  }

  /** The writer's text for one more coordinate of `order`. */
  lemma WriteCoordsPrefix(order: seq<Coord>, i: nat, written: string)
    requires i < |order| && written == WriteCoords(order[..i])
    ensures WriteCoords(order[..i + 1]) ==
      (if i == 0 then written else written + "|") + IntToString(order[i].x) + "," + IntToString(order[i].z)
  {
    var c := order[i];
    var prefix := if i == 0 then written else written + "|";
    TakeOneMore(order, i);
    WriteCoordsSnoc(order[..i], c);
    assert WriteCoords(order[..i + 1]) == prefix + CoordText(c) by {
      if i == 0 {
        assert prefix == [];
      }
    }
    AppendText(prefix, IntToString(c.x), IntToString(c.z));
  }

  lemma TakeOneMore<T>(s: seq<T>, i: nat)
    requires i < |s|
    ensures s[..i + 1] == s[..i] + [s[i]]
  {
  }

  /** Appending `x`, a comma and `z` appends the text `x,z`. */
  lemma AppendText(w: string, x: string, z: string)
    ensures w + (x + "," + z) == w + x + "," + z
  {
  }

  /** The set of the values when every result is present, otherwise an error. */
  function AllPresent<T>(rs: seq<Option<T>>): Option<set<T>> {
    if |rs| == 0 then Some({})
    else
      match (AllPresent(rs[..|rs| - 1]), rs[|rs| - 1])
      case (Some(vs), Some(v)) => Some(vs + {v})
      case _ => None
  }

  /** The results are all present exactly when `AllPresent` succeeds, and it then gives
      exactly their values. */
  lemma {:induction false} AllPresentMeans<T>(rs: seq<Option<T>>)
    ensures AllPresent(rs).Some? <==> forall i :: 0 <= i < |rs| ==> rs[i].Some?
    ensures AllPresent(rs).Some? ==> forall v :: v in AllPresent(rs).value <==> Some(v) in rs
  {
    if |rs| > 0 {
      var init := rs[..|rs| - 1];
      AllPresentMeans(init);
      assert forall i :: 0 <= i < |init| ==> init[i] == rs[i];
      assert rs == init + [rs[|rs| - 1]];
    }
  }

  /** One missing result makes the whole fail. */
  lemma AllPresentFails<T>(rs: seq<Option<T>>, i: nat)
    requires i < |rs| && rs[i].None?
    ensures AllPresent(rs).None?
  {
    AllPresentMeans(rs);
  }

  /** The parse of each piece. */
  function ParsedPieces(pieces: seq<string>): (rs: seq<Option<Coord>>)
    ensures |rs| == |pieces|
    ensures forall i :: 0 <= i < |rs| ==> rs[i] == UnpackCoord(pieces[i])
  {
    seq(|pieces|, i requires 0 <= i < |pieces| => UnpackCoord(pieces[i]))
  }

  /** Writing one more coordinate appends its text, after a `|` unless it is the first. */
  lemma WriteCoordsSnoc(order: seq<Coord>, c: Coord)
    ensures WriteCoords(order + [c]) == if |order| == 0 then CoordText(c) else WriteCoords(order) + "|" + CoordText(c)
  {
    var t := CoordTexts(order + [c]);
    if |order| > 0 {
      assert t[..|t| - 1] == CoordTexts(order);
    }
  }

  /** The coordinates of a saved cell text: none for the empty text, otherwise the text
      is split at `|` and every piece is parsed. */
  function UnpackCoordsOf(s: string): Option<set<Coord>> {
    if |s| == 0 then Some({}) else AllPresent(ParsedPieces(JavaSplit(s, '|')))
  }

  /** Each element, present. */
  function Somes<T>(s: seq<T>): (rs: seq<Option<T>>)
    ensures |rs| == |s|
  {
    seq(|s|, i requires 0 <= i < |s| => Some(s[i]))
  }

  /** `AllPresent` of present values gives the set of those values. */
  lemma {:induction false} AllPresentSomes<T>(s: seq<T>)
    ensures AllPresent(Somes(s)) == Some(set x | x in s)
  {
    if |s| > 0 {
      var init := s[..|s| - 1];
      AllPresentSomes(init);
      var rs := Somes(s);
      assert rs[..|rs| - 1] == Somes(init);
      assert rs[|rs| - 1] == Some(s[|s| - 1]);
      assert AllPresent(rs) == Some((set x | x in init) + {s[|s| - 1]});
      assert (set x | x in s) == (set x | x in init) + {s[|s| - 1]} by {
        assert s == init + [s[|s| - 1]];
      }
    } else {
      assert (set x | x in s) == {};
    }
  }

  /** The written pieces parse to the coordinates they were written from. */
  lemma ParsedTexts(order: seq<Coord>)
    requires forall i :: 0 <= i < |order| ==> IsInt32Coord(order[i])
    ensures ParsedPieces(CoordTexts(order)) == Somes(order)
  {
    var rs := ParsedPieces(CoordTexts(order));
    forall i | 0 <= i < |order| ensures rs[i] == Somes(order)[i] {
      UnpackCoordText(order[i]);
    }
  }

  /** A non-empty written text is non-empty and splits at `|` into the coordinate texts. */
  lemma SplitWritten(order: seq<Coord>)
    requires |order| > 0
    ensures |WriteCoords(order)| > 0
    ensures JavaSplit(WriteCoords(order), '|') == CoordTexts(order)
  {
    var texts := CoordTexts(order);
    JavaSplitJoin(texts, '|');
    JoinLength(texts, '|');
  }

  /** Writing a province's cells and parsing the text back gives the set of its cells. */
  lemma WriteUnpackCoords(order: seq<Coord>)
    requires forall i :: 0 <= i < |order| ==> IsInt32Coord(order[i])
    ensures UnpackCoordsOf(WriteCoords(order)) == Some(set c | c in order)
  {
    AllPresentSomes(order);
    if |order| > 0 {
      SplitWritten(order);
      ParsedTexts(order);
    }
  }

  /** Joining keeps at least the length of the last piece. */
  lemma JoinLength(r: seq<string>, sep: char)
    requires |r| > 0
    ensures |Join(r, sep)| >= |r[|r| - 1]|
  {
  }

  /** The six entries a province is saved as. */
  function SaveEntries(pd: ProvinceData, order: seq<Coord>): (e: map<string, string>)
    ensures e.Keys == {"home_block", "is_sea", "is_land_validation_requested", "new_town_cost",
                       "upkeep_town_cost", "coords"}
  {
    map["home_block" := CoordText(pd.homeBlock),
        "is_sea" := BoolToString(pd.isSea),
        "is_land_validation_requested" := BoolToString(pd.landValidationRequested),
        "new_town_cost" := IntToString(pd.newTownCost),
        "upkeep_town_cost" := IntToString(pd.upkeepTownCost),
        "coords" := WriteCoords(order)]
  }

  function Lookup(e: map<string, string>, key: string): Option<string> {
    if key in e then Some(e[key]) else None
  }

  /** An optional `int` entry: 0 when missing, an error when present but not an `int`. */
  function OptionalInt(e: map<string, string>, key: string): (r: Option<int>)
    ensures key !in e ==> r == Some(0)
    ensures key in e ==> r == ParseInt(e[key])
  {
    if key in e then ParseInt(e[key]) else Some(0)
  }

  /** The province fields read back from a file's entries. The home block must be
      present and parse; a missing sea flag reads as false; a missing validation flag
      reads as false and missing costs read as 0; a cost that is present but not an
      `int` is an error. */
  function LoadData(e: map<string, string>): (r: Option<ProvinceData>)
    ensures r.Some? <==>
      && "home_block" in e && UnpackCoord(e["home_block"]).Some?
      && ("new_town_cost" in e ==> ParseInt(e["new_town_cost"]).Some?)
      && ("upkeep_town_cost" in e ==> ParseInt(e["upkeep_town_cost"]).Some?)
    ensures r.Some? ==>
      && Some(r.value.homeBlock) == UnpackCoord(e["home_block"])
      && r.value.isSea == ParseBoolean(Lookup(e, "is_sea"))
      && ("is_land_validation_requested" !in e ==> !r.value.landValidationRequested)
      && ("new_town_cost" !in e ==> r.value.newTownCost == 0)
      && ("upkeep_town_cost" !in e ==> r.value.upkeepTownCost == 0)
  {
    var homeBlock := if "home_block" in e then UnpackCoord(e["home_block"]) else None;
    var isSea := ParseBoolean(Lookup(e, "is_sea"));
    var isLandValidationRequested :=
      if "is_land_validation_requested" in e then ParseBoolean(Lookup(e, "is_land_validation_requested")) else false;
    match (homeBlock, OptionalInt(e, "new_town_cost"), OptionalInt(e, "upkeep_town_cost"))
    case (Some(h), Some(newTownCost), Some(upkeepTownCost)) =>
      Some(ProvinceData(h, isSea, isLandValidationRequested, newTownCost, upkeepTownCost))
    case _ => None
  }

  /** Fields that fit the file's `int`s. */
  predicate Storable(pd: ProvinceData) {
    IsInt32Coord(pd.homeBlock) && IsInt32(pd.newTownCost) && IsInt32(pd.upkeepTownCost)
  }

  /** Saving a province and loading the entries back gives the same fields and the
      same set of cells. */
  lemma SaveLoad(pd: ProvinceData, order: seq<Coord>)
    requires Storable(pd)
    requires forall i :: 0 <= i < |order| ==> IsInt32Coord(order[i])
    ensures LoadData(SaveEntries(pd, order)) == Some(pd)
    ensures UnpackCoordsOf(SaveEntries(pd, order)["coords"]) == Some(set c | c in order)
  {
    var e := SaveEntries(pd, order);
    UnpackCoordText(pd.homeBlock);
    ParseBooleanToString(pd.isSea);
    ParseBooleanToString(pd.landValidationRequested);
    ParseIntToString(pd.newTownCost);
    ParseIntToString(pd.upkeepTownCost);
    assert e["home_block"] == CoordText(pd.homeBlock);
    assert ParseBoolean(Lookup(e, "is_sea")) == pd.isSea by {
      assert Lookup(e, "is_sea") == Some(BoolToString(pd.isSea));
    }
    assert ParseBoolean(Lookup(e, "is_land_validation_requested")) == pd.landValidationRequested by {
      assert Lookup(e, "is_land_validation_requested") == Some(BoolToString(pd.landValidationRequested));
    }
    assert OptionalInt(e, "new_town_cost") == Some(pd.newTownCost);
    assert OptionalInt(e, "upkeep_town_cost") == Some(pd.upkeepTownCost);
    assert e["coords"] == WriteCoords(order);
    WriteUnpackCoords(order);
  }

  /** The writer loop: each coordinate's `x,z`, with a `|` before every one but the
      first. */
  method GetCoordsAsWriteableString(order: seq<Coord>) returns (result: string)
    ensures result == WriteCoords(order)
  {
    result := "";
    var firstCoord := true;
    var i := 0;
    while i < |order|
      invariant 0 <= i <= |order|
      invariant firstCoord <==> i == 0
      invariant result == WriteCoords(order[..i])
    {
      WriteCoordsPrefix(order, i, result);
      if firstCoord {
        firstCoord := false;
      } else {
        result := result + "|";
      }
      result := result + IntToString(order[i].x) + "," + IntToString(order[i].z);
      assert result == WriteCoords(order[..i + 1]);
      i := i + 1;
    }
    assert order[..i] == order;
  }

  /** The parser loop over the pieces of a non-empty text; the first piece that fails
      to parse ends it with an error. */
  method UnpackCoords(allCoordsAsString: string) returns (result: Option<set<Coord>>)
    ensures result == UnpackCoordsOf(allCoordsAsString)
  {
    if |allCoordsAsString| == 0 {
      return Some({});
    }
    var pieces := JavaSplit(allCoordsAsString, '|');
    ghost var rs := ParsedPieces(pieces);
    var coords: set<Coord> := {};
    var i := 0;
    while i < |pieces|
      invariant 0 <= i <= |pieces|
      invariant AllPresent(rs[..i]) == Some(coords)
    {
      assert rs[..i + 1][..i] == rs[..i];
      var coord := UnpackCoord(pieces[i]);
      if coord.None? {
        AllPresentFails(rs, i);
        return None;
      }
      coords := coords + {coord.value};
      i := i + 1;
    }
    assert rs[..i] == rs;
    return Some(coords);
  }

  /** The data holder's provinces and its cell-to-province index. */
  class DataHolder {
    /** Loaded provinces; a province's id is its position. */
    var provinces: seq<ProvinceData>
    var coordProvinceMap: map<Coord, ProvinceId>

    constructor ()
      ensures provinces == [] && coordProvinceMap == map[]
    {
      provinces := [];
      coordProvinceMap := map[];
    }

    /** The index loop: every cell of `cells` now points at province `id`. */
    method IndexCells(cells: set<Coord>, id: ProvinceId)
      modifies this
      ensures provinces == old(provinces)
      ensures coordProvinceMap == AssignAll(old(coordProvinceMap), cells, id)
    {
      var todo := cells;
      while todo != {}
        invariant todo <= cells
        invariant provinces == old(provinces)
        invariant coordProvinceMap == AssignAll(old(coordProvinceMap), cells - todo, id)
        decreases |todo|
      {
        var coord :| coord in todo;
        AssignAllStep(old(coordProvinceMap), cells - todo, coord, id);
        assert cells - (todo - {coord}) == (cells - todo) + {coord};
        coordProvinceMap := coordProvinceMap[coord := id];
        todo := todo - {coord};
      }
      assert cells - todo == cells;
    }

    /** Loads one province file's entries. When the fields do not load, nothing
        changes. Otherwise the province is added; then the cell text is parsed, and
        every parsed cell is indexed to the new province, replacing an earlier owner.
        A missing or unparsable cell text leaves the province added without cells.
        The result says whether the whole load succeeded. */
    method LoadProvince(fileEntries: map<string, string>) returns (loaded: bool)
      modifies this
      ensures LoadData(fileEntries).None? ==>
        !loaded && provinces == old(provinces) && coordProvinceMap == old(coordProvinceMap)
      ensures LoadData(fileEntries).Some? ==> provinces == old(provinces) + [LoadData(fileEntries).value]
      ensures var coords := if "coords" in fileEntries then UnpackCoordsOf(fileEntries["coords"]) else None;
        && (loaded <==> LoadData(fileEntries).Some? && coords.Some?)
        && (loaded ==> coordProvinceMap == AssignAll(old(coordProvinceMap), coords.value, |old(provinces)|))
        && (!loaded ==> coordProvinceMap == old(coordProvinceMap))
    {
      var data := LoadData(fileEntries);
      if data.None? {
        return false;
      }
      var id := |provinces|;
      provinces := provinces + [data.value];
      if "coords" !in fileEntries {
        return false;
      }
      var coords := UnpackCoords(fileEntries["coords"]);
      if coords.None? {
        return false;
      }
      IndexCells(coords.value, id);
      return true;
    }
  }
}
