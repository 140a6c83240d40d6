/**
 * The output builders of the batch pipeline (data-processing/process_data.py):
 * the chunk table that groups matched postcodes by outward code, and the
 * per-substation details with their sorted postcode lists. The spatial join
 * that assigns each postcode its substation is a parameter: its rows are
 * the `Match` values given here.
 */
module LookupBuilder {
  import opened Wrappers
  import opened Sorting
  import opened Postcode
  import opened Records
  import opened GeoJson
  import opened SourceLoader

  /** One row of the spatial join: a postcode, its coordinates, and the substation it fell in, if any. */
  datatype Match = Match(pcd: string, lat: Coord, lng: Coord, substationId: Option<string>)

  /** `matched[matched['substation_id'].notna()]`, in order. */
  function Matched(rows: seq<Match>): (r: seq<Match>)
    ensures forall x :: x in r ==> x.substationId.Some?
    ensures forall x :: x in r ==> x in rows
    ensures forall x :: x in rows && x.substationId.Some? ==> x in r
    ensures |r| <= |rows|
  {
    if rows == [] then []
    else
      var x := rows[|rows| - 1];
      Matched(rows[..|rows| - 1]) + (if x.substationId.Some? then [x] else [])
  }

  /**
   * The filter keeps the join's row order: filtering two runs of rows one
   * after the other gives the two filtered runs one after the other.
   */
  lemma {:induction false} MatchedAppend(a: seq<Match>, b: seq<Match>)
    ensures Matched(a + b) == Matched(a) + Matched(b)
    decreases |b|
  {
    if b == [] {
      assert a + b == a;
    } else {
      var c := b[..|b| - 1];
      assert (a + b)[..|a + b| - 1] == a + c;
      MatchedAppend(a, c);
    }
  }

  /** The value a chunk stores for a matched row. */
  function EntryOf(x: Match): Entry
    requires x.substationId.Some?
  {
    Entry(x.substationId.value, x.lat, x.lng)
  }

  /**
   * The outward codes of the rows, each once, in order of first appearance
   * (pandas `unique()`); None is the NaN a postcode the pattern rejects gets.
   */
  function UniqueOutwards(rows: seq<Match>): (r: seq<Option<string>>)
    ensures forall k :: k in r <==> exists x :: x in rows && Outward(x.pcd) == k
    ensures NoRepeats(r)
  {
    if rows == [] then []
    else
      var init := UniqueOutwards(rows[..|rows| - 1]);
      var k := Outward(rows[|rows| - 1].pcd);
      assert forall x :: x in rows ==> x in rows[..|rows| - 1] || x == rows[|rows| - 1];
      if k in init then init else init + [k]
  }

  /** No element occurs twice. */
  predicate NoRepeats(s: seq<Option<string>>) {
    forall i, j :: 0 <= i < j < |s| ==> s[i] != s[j]
  }

  /**
   * The chunk for one key: every matched row whose outward code equals the
   * key, later rows overwriting earlier ones with the same postcode. A NaN
   * key equals nothing, so its chunk is empty.
   */
  function ChunkFor(rows: seq<Match>, key: Option<string>): map<string, Entry>
    requires forall x :: x in rows ==> x.substationId.Some?
  {
    if rows == [] then map[]
    else
      var x := rows[|rows| - 1];
      var m := ChunkFor(rows[..|rows| - 1], key);
      if key.Some? && Outward(x.pcd) == key then m[x.pcd := EntryOf(x)] else m
  }

  /** Some row carries postcode p. */
  ghost predicate HasRowFor(rows: seq<Match>, p: string) {
    exists i :: 0 <= i < |rows| && rows[i].pcd == p
  }

  /** Row i is the last row carrying its postcode. */
  ghost predicate LastRowFor(rows: seq<Match>, p: string, i: int) {
    0 <= i < |rows| && rows[i].pcd == p && forall j :: i < j < |rows| ==> rows[j].pcd != p
  }

  /** A postcode is in chunk k exactly when some row for it has outward code k. */
  lemma {:induction false} ChunkForExact(rows: seq<Match>, key: Option<string>, p: string)
    requires forall x :: x in rows ==> x.substationId.Some?
    ensures p in ChunkFor(rows, key) <==> key.Some? && Outward(p) == key && HasRowFor(rows, p)
  {
    if rows != [] {
      var init := rows[..|rows| - 1];
      ChunkForExact(init, key, p);
      if HasRowFor(rows, p) && !HasRowFor(init, p) {
        assert rows[|rows| - 1].pcd == p;
      }
      if HasRowFor(init, p) {
        var i :| 0 <= i < |init| && init[i].pcd == p;
        assert rows[i].pcd == p;
      }
    }
  }

  /** The entry a chunk holds for a postcode is that of the last row carrying it. */
  lemma {:induction false} ChunkForLastWins(rows: seq<Match>, key: Option<string>, p: string)
    requires forall x :: x in rows ==> x.substationId.Some?
    requires p in ChunkFor(rows, key)
    ensures exists i :: LastRowFor(rows, p, i) && ChunkFor(rows, key)[p] == EntryOf(rows[i])
  {
    var init := rows[..|rows| - 1];
    var x := rows[|rows| - 1];
    if key.Some? && Outward(x.pcd) == key && x.pcd == p {
      assert LastRowFor(rows, p, |rows| - 1);
    } else {
      ChunkForLastWins(init, key, p);
      var i :| LastRowFor(init, p, i) && ChunkFor(init, key)[p] == EntryOf(init[i]);
      if x.pcd == p {
        ChunkForExact(init, key, p);
      }
      assert LastRowFor(rows, p, i);
    }
  }

  /** Every postcode in the chunk for k has outward code k, and the NaN key's chunk is empty. */
  lemma ChunkPostcodesHaveItsOutward(rows: seq<Match>, key: Option<string>)
    requires forall x :: x in rows ==> x.substationId.Some?
    ensures forall p :: p in ChunkFor(rows, key) ==> key.Some? && Outward(p) == key
    ensures key.None? ==> ChunkFor(rows, key) == map[]
  {
    forall p | p in ChunkFor(rows, key)
      ensures key.Some? && Outward(p) == key
    {
      ChunkForExact(rows, key, p);
    }
  }

  /** A postcode the outward pattern rejects is in no chunk. */
  lemma RejectedPostcodeInNoChunk(rows: seq<Match>, p: string, key: Option<string>)
    requires forall x :: x in rows ==> x.substationId.Some?
    requires Outward(p).None?
    ensures p !in ChunkFor(rows, key)
  {
    ChunkForExact(rows, key, p);
  }

  /** `create_postcode_lookup` as a value: one chunk per distinct outward code of the matched rows. */
  ghost predicate IsPostcodeLookup(rows: seq<Match>, lookup: map<Option<string>, map<string, Entry>>) {
    var kept := Matched(rows);
    && (forall k :: k in lookup <==> exists x :: x in kept && Outward(x.pcd) == k)
    && (forall k :: k in lookup ==> lookup[k] == ChunkFor(kept, k))
  }

  /**
   * `create_postcode_lookup`: drop the unmatched rows, then, for each
   * distinct outward code in order of appearance, store its chunk.
   */
  method CreatePostcodeLookup(rows: seq<Match>) returns (lookup: map<Option<string>, map<string, Entry>>)
    ensures IsPostcodeLookup(rows, lookup)
  {
    var kept := Matched(rows);
    var outwards := UniqueOutwards(kept);
    lookup := map[];
    for i := 0 to |outwards|
      invariant forall k :: k in lookup <==> k in outwards[..i]
      invariant forall k :: k in lookup ==> lookup[k] == ChunkFor(kept, k)
    {
      lookup := lookup[outwards[i] := ChunkFor(kept, outwards[i])];
    }
    assert outwards[..|outwards|] == outwards;
  }

  /**
   * What the client finds: a chunk keyed by a postcode's outward code holds
   * that postcode exactly when a matched row has it, with the last such
   * row's substation and coordinates.
   */
  lemma LookupServesEveryMatchedPostcode(rows: seq<Match>, lookup: map<Option<string>, map<string, Entry>>, p: string)
    requires IsPostcodeLookup(rows, lookup)
    ensures Outward(p).Some? ==> (HasRowFor(Matched(rows), p) <==> Outward(p) in lookup && p in lookup[Outward(p)])
    ensures Outward(p) in lookup && p in lookup[Outward(p)] ==>
      exists i :: LastRowFor(Matched(rows), p, i) && lookup[Outward(p)][p] == EntryOf(Matched(rows)[i])
  {
    var kept := Matched(rows);
    ChunkForExact(kept, Outward(p), p);
    if HasRowFor(kept, p) {
      var i :| 0 <= i < |kept| && kept[i].pcd == p;
      assert kept[i] in kept;
      assert Outward(p) in lookup;
    }
    if Outward(p) in lookup && p in lookup[Outward(p)] {
      ChunkForLastWins(kept, Outward(p), p);
    }
  }

  /** The postcodes of one substation in the join's row order (`groupby(...)['pcd'].apply(list)`). */
  function Group(rows: seq<Match>, id: string): seq<string>
  {
    if rows == [] then []
    else
      var x := rows[|rows| - 1];
      Group(rows[..|rows| - 1], id) + (if x.substationId == Some(id) then [x.pcd] else [])
  }

  lemma {:induction false} GroupExact(rows: seq<Match>, id: string, p: string)
    ensures p in Group(rows, id) <==> exists x :: x in rows && x.substationId == Some(id) && x.pcd == p
  {
    if rows != [] {
      GroupExact(rows[..|rows| - 1], id, p);
      assert forall y :: y in rows ==> y in rows[..|rows| - 1] || y == rows[|rows| - 1];
    }
  }

  /** One substation's entry in substations.json. */
  datatype Detail = Detail(
    name: string, dno: string, licenseArea: string,
    postcodeCount: nat, postcodes: seq<string>, boundary: Json)

  /** The entry for one substation row: its postcodes sorted and counted, its boundary simplified. */
  function DetailOf(s: Substation, rows: seq<Match>, simplify: Json -> Json): Detail
  {
    var postcodes := Group(rows, s.id);
    Detail(s.name, s.dnoName, s.licenseArea, |postcodes|, Sort(postcodes), simplify(s.geometry))
  }

  /**
   * An entry's list is its substation's joined postcodes, sorted; its count
   * is the list's length; with no postcodes it is empty and 0.
   */
  lemma DetailOfCountsSortedList(s: Substation, rows: seq<Match>, simplify: Json -> Json)
    ensures var d := DetailOf(s, rows, simplify);
      && Sorted(d.postcodes) && multiset(d.postcodes) == multiset(Group(rows, s.id))
      && d.postcodeCount == |d.postcodes| == |Group(rows, s.id)|
      && (Group(rows, s.id) == [] ==> d.postcodes == [] && d.postcodeCount == 0)
      && d.name == s.name && d.dno == s.dnoName && d.licenseArea == s.licenseArea
  {
    var postcodes := Group(rows, s.id);
    var sorted := Sort(postcodes);
    assert |sorted| == |multiset(sorted)| == |multiset(postcodes)| == |postcodes|;
  }

  /** The details table after the first n substation rows: later rows with the same id overwrite. */
  function DetailsUpTo(subs: seq<Substation>, rows: seq<Match>, simplify: Json -> Json): map<string, Detail>
  {
    if subs == [] then map[]
    else
      var s := subs[|subs| - 1];
      DetailsUpTo(subs[..|subs| - 1], rows, simplify)[s.id := DetailOf(s, rows, simplify)]
  }

  /** Row i is the last substation row with its id. */
  ghost predicate LastSubstationFor(subs: seq<Substation>, id: string, i: int) {
    0 <= i < |subs| && subs[i].id == id && forall j :: i < j < |subs| ==> subs[j].id != id
  }

  /** There is one entry per substation id. */
  lemma {:induction false} DetailsKeys(subs: seq<Substation>, rows: seq<Match>, simplify: Json -> Json, id: string)
    ensures id in DetailsUpTo(subs, rows, simplify) <==> exists i :: 0 <= i < |subs| && subs[i].id == id
  {
    if subs != [] {
      var init := subs[..|subs| - 1];
      var last := subs[|subs| - 1];
      assert DetailsUpTo(subs, rows, simplify).Keys == DetailsUpTo(init, rows, simplify).Keys + {last.id};
      DetailsKeys(init, rows, simplify, id);
      if exists i :: 0 <= i < |init| && init[i].id == id {
        var i :| 0 <= i < |init| && init[i].id == id;
        assert subs[i].id == id;
      }
      if exists i :: 0 <= i < |subs| && subs[i].id == id {
        var i :| 0 <= i < |subs| && subs[i].id == id;
        if i < |init| {
          assert init[i].id == id;
        }
      }
    }
  }

  /** Each entry is built from the last substation row with its id. */
  lemma {:induction false} DetailsLastWins(subs: seq<Substation>, rows: seq<Match>, simplify: Json -> Json, id: string)
    requires id in DetailsUpTo(subs, rows, simplify)
    ensures exists i :: LastSubstationFor(subs, id, i) && DetailsUpTo(subs, rows, simplify)[id] == DetailOf(subs[i], rows, simplify)
  {
    var init := subs[..|subs| - 1];
    var last := subs[|subs| - 1];
    assert DetailsUpTo(subs, rows, simplify) == DetailsUpTo(init, rows, simplify)[last.id := DetailOf(last, rows, simplify)];
    if last.id == id {
      assert LastSubstationFor(subs, id, |subs| - 1);
    } else {
      DetailsLastWins(init, rows, simplify, id);
      var i :| LastSubstationFor(init, id, i) && DetailsUpTo(init, rows, simplify)[id] == DetailOf(init[i], rows, simplify);
      assert LastSubstationFor(subs, id, i);
    }
  }

  /**
   * Every entry lists exactly the postcodes joined to its substation, sorted,
   * and counts them; a substation with none gets an empty list and 0.
   */
  lemma DetailListsExact(subs: seq<Substation>, rows: seq<Match>, simplify: Json -> Json, id: string, p: string)
    requires id in DetailsUpTo(subs, rows, simplify)
    ensures var d := DetailsUpTo(subs, rows, simplify)[id];
      && Sorted(d.postcodes) && d.postcodeCount == |d.postcodes|
      && (p in d.postcodes <==> exists x :: x in rows && x.substationId == Some(id) && x.pcd == p)
  {
    DetailsLastWins(subs, rows, simplify, id);
    var i :| LastSubstationFor(subs, id, i) && DetailsUpTo(subs, rows, simplify)[id] == DetailOf(subs[i], rows, simplify);
    var d := DetailOf(subs[i], rows, simplify);
    DetailOfCountsSortedList(subs[i], rows, simplify);
    GroupExact(rows, id, p);
    assert p in d.postcodes <==> p in multiset(d.postcodes);
    assert p in Group(rows, id) <==> p in multiset(Group(rows, id));
  }

  /**
   * `create_substation_details`: one entry per substation row in order,
   * keyed by its id. The boundary simplification is the parameter `simplify`.
   */
  method CreateSubstationDetails(subs: seq<Substation>, rows: seq<Match>, simplify: Json -> Json)
    returns (details: map<string, Detail>)
    ensures details == DetailsUpTo(subs, rows, simplify)
    ensures forall id :: id in details <==> exists i :: 0 <= i < |subs| && subs[i].id == id
  {
    details := map[];
    for i := 0 to |subs|
      invariant details == DetailsUpTo(subs[..i], rows, simplify)
    {
      var s := subs[i];
      assert subs[..i + 1][..i] == subs[..i];
      var postcodes := Group(rows, s.id);
      details := details[s.id := Detail(s.name, s.dnoName, s.licenseArea, |postcodes|, Sort(postcodes), simplify(s.geometry))];
    }
    assert subs[..|subs|] == subs;
    forall id ensures id in details <==> exists i :: 0 <= i < |subs| && subs[i].id == id {
      DetailsKeys(subs, rows, simplify, id);
    }
  }
}
