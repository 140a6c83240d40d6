/**
 * The loaders of the batch pipeline (data-processing/process_data.py):
 * reading one network operator's substation areas into the six standard
 * columns, combining every operator in registry order, and reading the
 * postcode centroids. File access, `gpd.read_file`, `pd.read_csv` and the
 * reprojection to EPSG:4326 are parameters; None stands for the exception
 * each of them can raise.
 */
module SourceLoader {
  import opened Wrappers
  import opened Text
  import opened GeoJson

  /** One attribute cell of a read table. */
  datatype Cell = Null | Nan | Value(text: string)

  /** pandas `astype(str)`: None becomes "None", NaN becomes "nan", anything else its string form. */
  function AsStr(c: Cell): (r: string)
    ensures c.Value? ==> r == c.text
    ensures c.Null? <==> (r == "None" && !c.Value?)
  {
    match c
    case Null => "None"
    case Nan => "nan"
    case Value(t) => t
  }

  /** pandas `isna`. */
  predicate IsNa(c: Cell) {
    c.Null? || c.Nan?
  }

  /** One feature: its attribute cells and its geometry. */
  datatype Feature = Feature(props: map<string, Cell>, geometry: Json)

  /** A GeoDataFrame as read from a file: its CRS, its attribute columns and its rows. */
  datatype Table = Table(crs: string, columns: set<string>, features: seq<Feature>)

  /** A column's cell in one row; a row that lacks the column reads as missing. */
  function Get(f: Feature, col: string): Cell {
    if col in f.props then f.props[col] else Null
  }

  /** One registry entry: the operator id, its file under raw/substations, its name and licence area. */
  datatype DnoInfo = DnoInfo(id: string, file: string, dnoName: string, licenseArea: string)

  /** A standardized substation row: exactly the six essential columns. */
  datatype Substation = Substation(
    id: string, name: string, dnoId: string, dnoName: string, licenseArea: string, geometry: Json)

  /** The directory the substation files are read from. */
  const RawSubstations := "raw/substations/"

  /** The operator registry, in the order the files are combined. */
  const Registry: seq<DnoInfo> := [
    DnoInfo("SPEN_SPD", "ndp-spd-primary-substation-polygons.geojson",
            "SP Energy Networks", "SPD - Scotland"),
    DnoInfo("SPEN_SPMW", "ndp-spm-primary-group-polygons.geojson",
            "SP Energy Networks", "SPMW - Manweb (Wales & Northwest)"),
    DnoInfo("SSEN_SEPD", "sepd_primarysubstation_esa_2025.geojson",
            "Scottish & Southern Electricity Networks", "SEPD - Southern & Central"),
    DnoInfo("SSEN_SHEPD", "shepd_primarysubstation_esa_2025.geojson",
            "Scottish & Southern Electricity Networks", "SHEPD - North Scotland & Highlands"),
    DnoInfo("NGRID_EM", "east_midlands_primary.gpkg", "National Grid", "East Midlands"),
    DnoInfo("NGRID_SW_WALES", "south_wales_primary.gpkg", "National Grid", "South Wales"),
    DnoInfo("NGRID_SW", "south_west_primary.gpkg", "National Grid", "South West"),
    DnoInfo("NGRID_WM", "west_midlands_primary.gpkg", "National Grid", "West Midlands"),
    DnoInfo("UKPN", "ukpn_primary_postcode_area (2).geojson",
            "UK Power Networks", "EPN/LPN/SPN - East/London/Southeast"),
    DnoInfo("NPG", "NPG Primary substation_combined_service_areas.geojson",
            "Northern Powergrid", "Northeast & Yorkshire"),
    DnoInfo("ENWL", "dfes-primary-polygons.geojson", "Electricity North West", "Northwest England")
  ]

  /** The columns probed for a substation name, best first. */
  const NameCandidates := ["primary", "name", "substation", "site_name", "Sub_Name", "SUBSTATION_NAME"]

  /** The columns probed for a substation id, best first. */
  const IdCandidates := ["primary_floc", "id", "substation_id", "site_id", "Sub_ID", "SUBSTATION_ID"]

  /** The columns the loader adds before it probes for a name. */
  const AddedBeforeNameProbe := {"dno_id", "dno_name", "license_area", "substation_name"}

  /** The first candidate that is a column: every earlier candidate is absent. */
  function FirstPresent(candidates: seq<string>, columns: set<string>): (r: Option<string>)
    ensures r.None? <==> forall c :: c in candidates ==> c !in columns
    ensures r.Some? ==> r.value in columns
    ensures r.Some? ==>
      exists i :: 0 <= i < |candidates| && candidates[i] == r.value && (forall j :: 0 <= j < i ==> candidates[j] !in columns)
  {
    if candidates == [] then None
    else if candidates[0] in columns then Some(candidates[0])
    else FirstPresent(candidates[1..], columns)
  }

  lemma {:induction false} FirstPresentSkips(candidates: seq<string>, columns: set<string>, i: nat)
    requires i <= |candidates|
    requires forall j :: 0 <= j < i ==> candidates[j] !in columns
    ensures FirstPresent(candidates, columns) == FirstPresent(candidates[i..], columns)
  {
    if i > 0 {
      assert candidates[1..][i - 1..] == candidates[i..];
      FirstPresentSkips(candidates[1..], columns, i - 1);
    }
  }

  /** The `for col in candidates: if col in columns: ...; break` probe. */
  method Probe(candidates: seq<string>, columns: set<string>) returns (chosen: Option<string>)
    ensures chosen == FirstPresent(candidates, columns)
  {
    chosen := None;
    for i := 0 to |candidates|
      invariant chosen.None?
      invariant forall j :: 0 <= j < i ==> candidates[j] !in columns
    {
      if candidates[i] in columns {
        chosen := Some(candidates[i]);
        FirstPresentSkips(candidates, columns, i);
        return;
      }
    }
    FirstPresentSkips(candidates, columns, |candidates|);
  }

  /** Probing two column sets that agree on every candidate chooses the same column. */
  lemma {:induction false} FirstPresentAgree(candidates: seq<string>, a: set<string>, b: set<string>)
    requires forall c :: c in candidates ==> (c in a <==> c in b)
    ensures FirstPresent(candidates, a) == FirstPresent(candidates, b)
  {
    if candidates != [] {
      FirstPresentAgree(candidates[1..], a, b);
    }
  }

  /** The columns added before the name probe are no name candidates, so the file's own columns decide. */
  lemma NameProbeSeesFileColumns(columns: set<string>)
    ensures FirstPresent(NameCandidates, columns + AddedBeforeNameProbe) == FirstPresent(NameCandidates, columns)
  {
    FirstPresentAgree(NameCandidates, columns + AddedBeforeNameProbe, columns);
  }

  /** A probed column after `astype(str)`; with no candidate present the column stays all None. */
  function ProbedColumn(t: Table, chosen: Option<string>): (r: seq<Cell>)
    ensures |r| == |t.features|
    ensures chosen.None? ==> forall i :: 0 <= i < |r| ==> r[i] == Null
    ensures chosen.Some? ==> forall i :: 0 <= i < |r| ==> r[i] == Value(AsStr(Get(t.features[i], chosen.value)))
  {
    match chosen
    case None => seq(|t.features|, _ => Null)
    case Some(c) => seq(|t.features|, i requires 0 <= i < |t.features| => Value(AsStr(Get(t.features[i], c))))
  }

  /** `col.isna().all() or (col == 'None').all()`. */
  predicate AllMissing(col: seq<Cell>) {
    (forall i :: 0 <= i < |col| ==> IsNa(col[i])) || (forall i :: 0 <= i < |col| ==> col[i] == Value("None"))
  }

  /** The synthetic id `f"{dno_id}_{i:04d}"`. */
  function SyntheticId(dnoId: string, i: nat): (r: string)
    ensures |r| >= |dnoId| + 5 && r[..|dnoId|] == dnoId && r[|dnoId|] == '_'
    ensures r[|dnoId| + 1..] == Pad4(i)
  {
    dnoId + "_" + Pad4(i)
  }

  /** Within one operator, different row numbers give different synthetic ids. */
  lemma SyntheticIdsDistinct(dnoId: string, i: nat, j: nat)
    requires i != j
    ensures SyntheticId(dnoId, i) != SyntheticId(dnoId, j)
  {
    if SyntheticId(dnoId, i) == SyntheticId(dnoId, j) {
      var n := |dnoId| + 1;
      assert SyntheticId(dnoId, i)[n..] == Pad4(i);
      assert SyntheticId(dnoId, j)[n..] == Pad4(j);
      Pad4Injective(i, j);
    }
  }

  /** The id column: the probed column, or synthetic ids when every probed value is missing. */
  function Ids(t: Table, dnoId: string, idColumn: Option<string>): (r: seq<string>)
    ensures |r| == |t.features|
    ensures AllMissing(ProbedColumn(t, idColumn)) ==> forall i :: 0 <= i < |r| ==> r[i] == SyntheticId(dnoId, i)
    ensures !AllMissing(ProbedColumn(t, idColumn)) ==>
      idColumn.Some? && forall i :: 0 <= i < |r| ==> r[i] == AsStr(Get(t.features[i], idColumn.value))
  {
    var col := ProbedColumn(t, idColumn);
    if AllMissing(col) then seq(|t.features|, i requires 0 <= i < |t.features| => SyntheticId(dnoId, i))
    else seq(|t.features|, i requires 0 <= i < |t.features| => AsStr(col[i]))
  }

  /** The name column: the probed column, or the ids when every probed value is missing. */
  function Names(t: Table, ids: seq<string>, nameColumn: Option<string>): (r: seq<string>)
    requires |ids| == |t.features|
    ensures |r| == |t.features|
    ensures AllMissing(ProbedColumn(t, nameColumn)) ==> r == ids
    ensures !AllMissing(ProbedColumn(t, nameColumn)) ==>
      nameColumn.Some? && forall i :: 0 <= i < |r| ==> r[i] == AsStr(Get(t.features[i], nameColumn.value))
  {
    var col := ProbedColumn(t, nameColumn);
    if AllMissing(col) then ids
    else seq(|t.features|, i requires 0 <= i < |t.features| => AsStr(col[i]))
  }

  /** The rows with metadata added, the name and id chosen, and only the essential columns kept. */
  function Standardized(t: Table, dno: DnoInfo, idColumn: Option<string>): (r: seq<Substation>)
    ensures |r| == |t.features|
    ensures forall i :: 0 <= i < |r| ==>
      && r[i].dnoId == dno.id && r[i].dnoName == dno.dnoName && r[i].licenseArea == dno.licenseArea
      && r[i].geometry == t.features[i].geometry
      && r[i].id == Ids(t, dno.id, idColumn)[i]
  {
    var ids := Ids(t, dno.id, idColumn);
    var names := Names(t, ids, FirstPresent(NameCandidates, t.columns + AddedBeforeNameProbe));
    seq(|t.features|, i requires 0 <= i < |t.features| =>
      Substation(ids[i], names[i], dno.id, dno.dnoName, dno.licenseArea, t.features[i].geometry))
  }

  /** The id column the loader evidently means to pick: the first id candidate among the file's columns. */
  function IdColumn(t: Table): Option<string> {
    FirstPresent(IdCandidates, t.columns)
  }

  /**
   * The id column the loader picks as written: it creates `substation_id`
   * as an all-None placeholder first, so the probe reaches that placeholder
   * before `site_id`, `Sub_ID` or `SUBSTATION_ID`.
   */
  function IdColumnAsWritten(t: Table): Option<string> {
    FirstPresent(IdCandidates, t.columns + AddedBeforeNameProbe + {"substation_id"})
  }

  /**
   * The table the id probe sees as written: the metadata columns and the
   * all-None `substation_id` placeholder added, the placeholder overwriting
   * any `substation_id` values the file had.
   */
  function PlaceholderAdded(t: Table): (r: Table)
    ensures r.columns == t.columns + AddedBeforeNameProbe + {"substation_id"}
    ensures |r.features| == |t.features|
    ensures forall i :: 0 <= i < |r.features| ==>
      Get(r.features[i], "substation_id") == Null && r.features[i].geometry == t.features[i].geometry
  {
    Table(t.crs, t.columns + AddedBeforeNameProbe + {"substation_id"},
      seq(|t.features|, i requires 0 <= i < |t.features| =>
        Feature(t.features[i].props["substation_id" := Null], t.features[i].geometry)))
  }

  /** The ids as written: the as-written probe run over the table with the placeholder in place. */
  function IdsAsWritten(t: Table, dnoId: string): (r: seq<string>)
    ensures |r| == |t.features|
  {
    Ids(PlaceholderAdded(t), dnoId, IdColumnAsWritten(t))
  }

  /** As written, only `primary_floc`, `id` or the placeholder can be chosen. */
  lemma IdProbeAsWrittenStopsAtPlaceholder(t: Table)
    ensures IdColumnAsWritten(t).Some?
    ensures IdColumnAsWritten(t).value in {"primary_floc", "id", "substation_id"}
  {
    var cols := t.columns + AddedBeforeNameProbe + {"substation_id"};
    if "primary_floc" !in cols && "id" !in cols {
      FirstPresentSkips(IdCandidates, cols, 2);
    } else if "primary_floc" !in cols {
      FirstPresentSkips(IdCandidates, cols, 1);
    }
  }

  /** A file whose ids sit only in `site_id`, as the example below. */
  function SiteIdOnly(): Table {
    Table(Wgs84, {"site_id"}, [Feature(map["site_id" := Value("S1")], JNull)])
  }

  /** As written, that file's id probe lands on the all-None placeholder, so its ids are synthetic. */
  lemma SiteIdIgnoredAsWritten()
    ensures IdColumnAsWritten(SiteIdOnly()) == Some("substation_id")
    ensures IdsAsWritten(SiteIdOnly(), "ENWL") == [SyntheticId("ENWL", 0)]
  {
    var t := SiteIdOnly();
    var cols := t.columns + AddedBeforeNameProbe + {"substation_id"};
    assert IdCandidates[0] !in cols && IdCandidates[1] !in cols;
    FirstPresentSkips(IdCandidates, cols, 2);
    assert IdCandidates[2..][0] == "substation_id";
    assert ProbedColumn(PlaceholderAdded(t), Some("substation_id"))[0] == Value("None");
  }

  /** The intended probe finds `site_id` and keeps the file's own id. */
  lemma SiteIdKeptAsIntended()
    ensures IdColumn(SiteIdOnly()) == Some("site_id")
    ensures Ids(SiteIdOnly(), "ENWL", IdColumn(SiteIdOnly())) == ["S1"]
  {
    var t := SiteIdOnly();
    assert IdCandidates[0] !in t.columns && IdCandidates[1] !in t.columns && IdCandidates[2] !in t.columns;
    FirstPresentSkips(IdCandidates, t.columns, 3);
    assert IdCandidates[3..][0] == "site_id";
    assert ProbedColumn(t, Some("site_id"))[0] == Value("S1");
    assert !AllMissing(ProbedColumn(t, Some("site_id")));
  }

  /** A file whose ids sit in its own `substation_id` column. */
  function OwnIdOnly(): Table {
    Table(Wgs84, {"substation_id"}, [Feature(map["substation_id" := Value("X1")], JNull)])
  }

  /** As written, the placeholder overwrites that column before the probe reads it, so the id is synthetic. */
  lemma OwnIdOverwrittenAsWritten()
    ensures IdColumnAsWritten(OwnIdOnly()) == Some("substation_id")
    ensures IdsAsWritten(OwnIdOnly(), "ENWL") == [SyntheticId("ENWL", 0)]
  {
    var t := OwnIdOnly();
    var cols := t.columns + AddedBeforeNameProbe + {"substation_id"};
    assert IdCandidates[0] !in cols && IdCandidates[1] !in cols;
    FirstPresentSkips(IdCandidates, cols, 2);
    assert IdCandidates[2..][0] == "substation_id";
    assert ProbedColumn(PlaceholderAdded(t), Some("substation_id"))[0] == Value("None");
  }

  /** The intended probe reads the file's own `substation_id` and keeps "X1". */
  lemma OwnIdKeptAsIntended()
    ensures IdColumn(OwnIdOnly()) == Some("substation_id")
    ensures Ids(OwnIdOnly(), "ENWL", IdColumn(OwnIdOnly())) == ["X1"]
  {
    var t := OwnIdOnly();
    assert IdCandidates[0] !in t.columns && IdCandidates[1] !in t.columns;
    FirstPresentSkips(IdCandidates, t.columns, 2);
    assert IdCandidates[2..][0] == "substation_id";
    assert ProbedColumn(t, Some("substation_id"))[0] == Value("X1");
    assert !AllMissing(ProbedColumn(t, Some("substation_id")));
  }

  /**
   * Every standardized row: the operator's metadata and its own geometry; the
   * id from the found id column, or synthetic when that column is all missing
   * (no candidate found included); the name from the found name column, or
   * the id when that column is all missing (no candidate found included).
   */
  lemma StandardizedRows(t: Table, dno: DnoInfo, i: nat)
    requires i < |t.features|
    ensures var s := Standardized(t, dno, IdColumn(t))[i];
      var ic := IdColumn(t);
      var nc := FirstPresent(NameCandidates, t.columns);
      && s.dnoId == dno.id && s.dnoName == dno.dnoName && s.licenseArea == dno.licenseArea
      && s.geometry == t.features[i].geometry
      && (AllMissing(ProbedColumn(t, ic)) ==> s.id == SyntheticId(dno.id, i))
      && (!AllMissing(ProbedColumn(t, ic)) ==> ic.Some? && s.id == AsStr(Get(t.features[i], ic.value)))
      && (AllMissing(ProbedColumn(t, nc)) ==> s.name == s.id)
      && (!AllMissing(ProbedColumn(t, nc)) ==> nc.Some? && s.name == AsStr(Get(t.features[i], nc.value)))
  {
    NameProbeSeesFileColumns(t.columns);
  }

  /** When every probed id is missing, the rows get synthetic ids, pairwise distinct. */
  lemma SyntheticIdsUnique(t: Table, dno: DnoInfo, i: nat, j: nat)
    requires AllMissing(ProbedColumn(t, IdColumn(t))) && i < j < |t.features|
    ensures Standardized(t, dno, IdColumn(t))[i].id == SyntheticId(dno.id, i)
    ensures Standardized(t, dno, IdColumn(t))[i].id != Standardized(t, dno, IdColumn(t))[j].id
  {
    SyntheticIdsDistinct(dno.id, i, j);
  }

  /** The CRS every loaded table ends up in. */
  const Wgs84 := "EPSG:4326"

  /**
   * `load_substation_data` as a value: None when reading or reprojection
   * raises. It specifies the method below and is what `LoadedParts`, a
   * function, uses, since a function cannot call a method.
   */
  function LoadedTable(path: string, dno: DnoInfo, read: string -> Option<Table>,
                       toWgs84: Table -> Option<Table>): Option<seq<Substation>>
  {
    match read(path)
    case None => None
    case Some(raw) =>
      var t := if raw.crs == Wgs84 then Some(raw) else toWgs84(raw);
      if t.None? then None else Some(Standardized(t.value, dno, IdColumn(t.value)))
  }

  /**
   * `load_substation_data` step by step: read, reproject unless already
   * WGS84, run the two probing loops, standardize. The loop of
   * `LoadAllSubstations` calls it.
   */
  method LoadSubstationData(path: string, dno: DnoInfo, read: string -> Option<Table>,
                            toWgs84: Table -> Option<Table>) returns (r: Option<seq<Substation>>)
    ensures r == LoadedTable(path, dno, read, toWgs84)
    ensures read(path).None? ==> r.None?
    ensures read(path).Some? && read(path).value.crs != Wgs84 && toWgs84(read(path).value).None? ==> r.None?
    ensures r.Some? ==> forall s :: s in r.value ==>
      s.dnoId == dno.id && s.dnoName == dno.dnoName && s.licenseArea == dno.licenseArea
  {
    var raw := read(path);
    if raw.None? {
      return None;
    }
    var t := raw.value;
    if t.crs != Wgs84 {
      var projected := toWgs84(t);
      if projected.None? {
        return None;
      }
      t := projected.value;
    }
    var nameColumn := Probe(NameCandidates, t.columns + AddedBeforeNameProbe);
    var idColumn := Probe(IdCandidates, t.columns);
    var ids := Ids(t, dno.id, idColumn);
    var names := Names(t, ids, nameColumn);
    r := Some(seq(|t.features|, i requires 0 <= i < |t.features| =>
      Substation(ids[i], names[i], dno.id, dno.dnoName, dno.licenseArea, t.features[i].geometry)));
  }

  /** The tables that loaded, in registry order: missing files and failed loads are skipped. */
  function LoadedParts(registry: seq<DnoInfo>, present: string -> bool, read: string -> Option<Table>,
                       toWgs84: Table -> Option<Table>): seq<seq<Substation>>
  {
    if registry == [] then []
    else
      var d := registry[|registry| - 1];
      var path := RawSubstations + d.file;
      var loaded := if present(path) then LoadedTable(path, d, read, toWgs84) else None;
      LoadedParts(registry[..|registry| - 1], present, read, toWgs84) + (if loaded.Some? then [loaded.value] else [])
  }

  /** `pd.concat`: the parts one after another. */
  function Concat(parts: seq<seq<Substation>>): seq<Substation>
  {
    if parts == [] then [] else Concat(parts[..|parts| - 1]) + parts[|parts| - 1]
  }

  /** The sum of the part sizes. */
  function TotalRows(parts: seq<seq<Substation>>): nat
  {
    if parts == [] then 0 else TotalRows(parts[..|parts| - 1]) + |parts[|parts| - 1]|
  }

  /** The combined table has exactly as many rows as the parts together. */
  lemma {:induction false} ConcatSize(parts: seq<seq<Substation>>)
    ensures |Concat(parts)| == TotalRows(parts)
  {
    if parts != [] {
      ConcatSize(parts[..|parts| - 1]);
    }
  }

  /** Every combined row comes from a registry entry whose metadata it carries. */
  lemma {:induction false} CombinedRowsCarryRegistryMetadata(registry: seq<DnoInfo>, present: string -> bool,
      read: string -> Option<Table>, toWgs84: Table -> Option<Table>)
    ensures forall s :: s in Concat(LoadedParts(registry, present, read, toWgs84)) ==>
      exists d :: d in registry && s.dnoId == d.id && s.dnoName == d.dnoName && s.licenseArea == d.licenseArea
  {
    if registry != [] {
      var init := registry[..|registry| - 1];
      var d := registry[|registry| - 1];
      CombinedRowsCarryRegistryMetadata(init, present, read, toWgs84);
      var path := RawSubstations + d.file;
      var loaded := if present(path) then LoadedTable(path, d, read, toWgs84) else None;
      var parts := LoadedParts(registry, present, read, toWgs84);
      var before := LoadedParts(init, present, read, toWgs84);
      if loaded.Some? {
        assert parts[..|parts| - 1] == before;
        assert Concat(parts) == Concat(before) + loaded.value;
        forall s | s in loaded.value
          ensures s.dnoId == d.id && s.dnoName == d.dnoName && s.licenseArea == d.licenseArea
        {
          var i :| 0 <= i < |loaded.value| && loaded.value[i] == s;
          var raw := read(path).value;
          var t := if raw.crs == Wgs84 then raw else toWgs84(raw).value;
          StandardizedRows(t, d, i);
        }
      }
      forall s | s in Concat(parts)
        ensures exists e :: e in registry && s.dnoId == e.id && s.dnoName == e.dnoName && s.licenseArea == e.licenseArea
      {
        if loaded.None? {
          assert parts == before;
        }
        if s in Concat(before) {
          var e :| e in init && s.dnoId == e.id && s.dnoName == e.dnoName && s.licenseArea == e.licenseArea;
          assert e in registry;
        } else {
          assert d in registry;
        }
      }
    }
  }

  lemma LoadedPartsStep(registry: seq<DnoInfo>, present: string -> bool, read: string -> Option<Table>,
                        toWgs84: Table -> Option<Table>, i: nat)
    requires i < |registry|
    ensures var d := registry[i];
      var path := RawSubstations + d.file;
      var loaded := if present(path) then LoadedTable(path, d, read, toWgs84) else None;
      LoadedParts(registry[..i + 1], present, read, toWgs84)
        == LoadedParts(registry[..i], present, read, toWgs84) + (if loaded.Some? then [loaded.value] else [])
  {
    assert registry[..i + 1][..i] == registry[..i];
  }

  /** The message `load_all_substations` raises with. */
  const NothingLoaded := "No substation data could be loaded!"

  /**
   * `load_all_substations`: every registry entry in order; a missing file or
   * a failed load is skipped; the loaded tables are concatenated, and the
   * call fails exactly when none loaded.
   */
  method LoadAllSubstations(present: string -> bool, read: string -> Option<Table>,
                            toWgs84: Table -> Option<Table>) returns (r: Result<seq<Substation>, string>)
    ensures var parts := LoadedParts(Registry, present, read, toWgs84);
      && (r.Err? <==> parts == [])
      && (r.Err? ==> r.error == NothingLoaded)
      && (r.Ok? ==> r.value == Concat(parts) && |r.value| == TotalRows(parts))
  {
    var allSubstations: seq<seq<Substation>> := [];
    for i := 0 to |Registry|
      invariant allSubstations == LoadedParts(Registry[..i], present, read, toWgs84)
    {
      var d := Registry[i];
      var path := RawSubstations + d.file;
      LoadedPartsStep(Registry, present, read, toWgs84, i);
      if !present(path) {
        continue;
      }
      var gdf := LoadSubstationData(path, d, read, toWgs84);
      if gdf.Some? {
        allSubstations := allSubstations + [gdf.value];
      }
    }
    assert Registry[..|Registry|] == Registry;
    ConcatSize(allSubstations);
    if allSubstations != [] {
      r := Ok(Concat(allSubstations));
    } else {
      r := Err(NothingLoaded);
    }
  }

  /** One row of the postcode CSV: `PCDS`, `LAT` and `LONG`, the coordinates possibly missing. */
  datatype CsvRow = CsvRow(pcds: string, lat: Option<real>, long: Option<real>)

  /** A located postcode, with its columns renamed to `pcd`, `lat` and `long`. */
  datatype PostcodePoint = PostcodePoint(pcd: string, lat: real, long: real)

  /** `dropna(subset=['LAT', 'LONG'])` and the rename, keeping row order. */
  function DropMissing(rows: seq<CsvRow>): seq<PostcodePoint>
  {
    if rows == [] then []
    else
      var x := rows[|rows| - 1];
      DropMissing(rows[..|rows| - 1])
        + (if x.lat.Some? && x.long.Some? then [PostcodePoint(x.pcds, x.lat.value, x.long.value)] else [])
  }

  /** The filter keeps row order and duplicates: filtering two runs in turn gives the two filtered runs in turn. */
  lemma {:induction false} DropMissingAppend(a: seq<CsvRow>, b: seq<CsvRow>)
    ensures DropMissing(a + b) == DropMissing(a) + DropMissing(b)
    decreases |b|
  {
    if b == [] {
      assert a + b == a;
    } else {
      var c := b[..|b| - 1];
      assert (a + b)[..|a + b| - 1] == a + c;
      DropMissingAppend(a, c);
    }
  }

  /** A point is kept exactly when some row has that postcode with both coordinates present. */
  lemma {:induction false} DropMissingExact(rows: seq<CsvRow>, p: PostcodePoint)
    ensures p in DropMissing(rows) <==> CsvRow(p.pcd, Some(p.lat), Some(p.long)) in rows
  {
    if rows != [] {
      DropMissingExact(rows[..|rows| - 1], p);
      assert rows == rows[..|rows| - 1] + [rows[|rows| - 1]];
    }
  }

  /** Dropping rows never adds any: the result is at most as long as the input. */
  lemma {:induction false} DropMissingShrinks(rows: seq<CsvRow>)
    ensures |DropMissing(rows)| <= |rows|
  {
    if rows != [] {
      DropMissingShrinks(rows[..|rows| - 1]);
    }
  }

  /**
   * `load_postcode_data`: the first CSV the directory listing yields is read;
   * no CSV or a failed read gives None; otherwise the rows with both
   * coordinates, in order.
   */
  function LoadPostcodeData(csvFiles: seq<string>, readCsv: string -> Option<seq<CsvRow>>): (r: Option<seq<PostcodePoint>>)
    ensures csvFiles == [] ==> r.None?
    ensures csvFiles != [] ==> (r.None? <==> readCsv(csvFiles[0]).None?)
    ensures r.Some? ==> forall p :: p in r.value <==> CsvRow(p.pcd, Some(p.lat), Some(p.long)) in readCsv(csvFiles[0]).value
    ensures r.Some? ==> r.value == DropMissing(readCsv(csvFiles[0]).value)
  {
    if csvFiles == [] then None
    else
      match readCsv(csvFiles[0])
      case None => None
      case Some(rows) =>
        assert forall p :: p in DropMissing(rows) <==> CsvRow(p.pcd, Some(p.lat), Some(p.long)) in rows by {
          forall p { DropMissingExact(rows, p); }
        }
        Some(DropMissing(rows))
  }
}
