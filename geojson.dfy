/**
 * JSON values as `json.load` produces them, and the coordinate post-pass both
 * simplification scripts share: `round_coords`, `round_coordinates` and the
 * `simplify_geometry` fallback. Python's `round` and shapely's simplifier are
 * parameters: `rnd(x, d)` is `round(x, d)` on a float and `simplify(g)` is
 * the simplified geometry, or None when shapely raises.
 */
module GeoJson {
  import opened Wrappers

  /** A JSON document; objects are maps because no operation here depends on key order. */
  datatype Json =
    | JNull
    | JBool(b: bool)
    | JNum(n: real)
    | JStr(s: string)
    | JArr(items: seq<Json>)
    | JObj(fields: map<string, Json>)

  /** `round(c, decimals)` on one scalar: a number is rounded, a boolean becomes the integer it stands for, anything else raises. */
  function RoundScalar(c: Json, decimals: nat, rnd: (real, nat) -> real): (r: Option<Json>)
    ensures r.Some? <==> c.JNum? || c.JBool?
    ensures r.Some? ==> r.value.JNum?
    ensures c.JNum? ==> r == Some(JNum(rnd(c.n, decimals)))
  {
    match c
    case JNum(x) => Some(JNum(rnd(x, decimals)))
    case JBool(b) => Some(JNum(if b then 1.0 else 0.0))
    case _ => None
  }

  /**
   * `round_coords`: a non-empty list whose first element is a list is mapped
   * recursively; any other non-empty list has every element rounded. An
   * empty list, or anything that is not a list, raises (None).
   */
  function RoundCoords(c: Json, decimals: nat, rnd: (real, nat) -> real): (r: Option<Json>)
    ensures r.Some? ==> c.JArr? && c.items != [] && r.value.JArr? && |r.value.items| == |c.items|
    ensures r.Some? && c.items[0].JArr? ==>
      forall i :: 0 <= i < |c.items| ==> RoundCoords(c.items[i], decimals, rnd) == Some(r.value.items[i])
    ensures r.Some? && !c.items[0].JArr? ==>
      forall i :: 0 <= i < |c.items| ==> RoundScalar(c.items[i], decimals, rnd) == Some(r.value.items[i])
    decreases c
  {
    if !c.JArr? || c.items == [] then None
    else if c.items[0].JArr? then
      var rs := seq(|c.items|, i requires 0 <= i < |c.items| => RoundCoords(c.items[i], decimals, rnd));
      if forall i :: 0 <= i < |rs| ==> rs[i].Some?
      then Some(JArr(seq(|rs|, i requires 0 <= i < |rs| && rs[i].Some? => rs[i].value)))
      else None
    else
      var rs := seq(|c.items|, i requires 0 <= i < |c.items| => RoundScalar(c.items[i], decimals, rnd));
      if forall i :: 0 <= i < |rs| ==> rs[i].Some?
      then Some(JArr(seq(|rs|, i requires 0 <= i < |rs| && rs[i].Some? => rs[i].value)))
      else None
  }

  /** The nesting of a coordinate value with every scalar replaced by 0. */
  function Shape(j: Json): Json
    decreases j
  {
    match j
    case JArr(xs) => JArr(seq(|xs|, i requires 0 <= i < |xs| => Shape(xs[i])))
    case JNum(_) => JNum(0.0)
    case JBool(_) => JNum(0.0)
    case _ => j
  }

  /** The scalars of a coordinate value, depth first, left to right. */
  function Leaves(j: Json): seq<Json>
    decreases j, if j.JArr? then |j.items| + 1 else 0
  {
    if j.JArr? then LeavesUpTo(j, |j.items|) else [j]
  }

  /** The scalars of the first k elements of the list j. */
  function LeavesUpTo(j: Json, k: nat): seq<Json>
    requires j.JArr? && k <= |j.items|
    decreases j, k
  {
    if k == 0 then [] else LeavesUpTo(j, k - 1) + Leaves(j.items[k - 1])
  }

  /** Rounding keeps the nesting: the same number of rings, polygons and positions. */
  lemma {:induction false} RoundCoordsKeepsShape(c: Json, decimals: nat, rnd: (real, nat) -> real)
    requires RoundCoords(c, decimals, rnd).Some?
    ensures Shape(RoundCoords(c, decimals, rnd).value) == Shape(c)
    decreases c
  {
    var r := RoundCoords(c, decimals, rnd).value;
    if c.items[0].JArr? {
      forall i | 0 <= i < |c.items|
        ensures Shape(r.items[i]) == Shape(c.items[i])
      {
        RoundCoordsKeepsShape(c.items[i], decimals, rnd);
      }
    }
  }

  /** Two scalar sequences where each of the second is the rounding of the one at the same place in the first. */
  ghost predicate RoundedPointwise(before: seq<Json>, after: seq<Json>, decimals: nat, rnd: (real, nat) -> real) {
    |before| == |after| && forall i :: 0 <= i < |before| ==> RoundScalar(before[i], decimals, rnd) == Some(after[i])
  }

  lemma RoundedPointwiseAppend(a: seq<Json>, b: seq<Json>, x: seq<Json>, y: seq<Json>, decimals: nat, rnd: (real, nat) -> real)
    requires RoundedPointwise(a, b, decimals, rnd) && RoundedPointwise(x, y, decimals, rnd)
    ensures RoundedPointwise(a + x, b + y, decimals, rnd)
  {
    forall i | 0 <= i < |a + x|
      ensures RoundScalar((a + x)[i], decimals, rnd) == Some((b + y)[i])
    {
      if i >= |a| {
        assert (a + x)[i] == x[i - |a|] && (b + y)[i] == y[i - |a|];
      }
    }
  }

  /** Every scalar of the result is the rounding of the scalar at the same place in the input. */
  lemma {:induction false} RoundCoordsRoundsEveryLeaf(c: Json, decimals: nat, rnd: (real, nat) -> real)
    requires RoundCoords(c, decimals, rnd).Some?
    ensures RoundedPointwise(Leaves(c), Leaves(RoundCoords(c, decimals, rnd).value), decimals, rnd)
    decreases c, 1
  {
    RoundLeavesUpTo(c, |c.items|, decimals, rnd);
  }

  lemma {:induction false} RoundLeavesUpTo(c: Json, k: nat, decimals: nat, rnd: (real, nat) -> real)
    requires RoundCoords(c, decimals, rnd).Some? && k <= |c.items|
    ensures var r := RoundCoords(c, decimals, rnd).value;
      RoundedPointwise(LeavesUpTo(c, k), LeavesUpTo(r, k), decimals, rnd)
    decreases c, 0, k
  {
    var r := RoundCoords(c, decimals, rnd).value;
    if k > 0 {
      RoundLeavesUpTo(c, k - 1, decimals, rnd);
      var x, y := c.items[k - 1], r.items[k - 1];
      if c.items[0].JArr? {
        assert RoundCoords(x, decimals, rnd) == Some(y);
        RoundCoordsRoundsEveryLeaf(x, decimals, rnd);
      } else {
        assert RoundScalar(x, decimals, rnd) == Some(y);
        assert !x.JArr? && !y.JArr?;
        assert Leaves(x) == [x] && Leaves(y) == [y];
      }
      RoundedPointwiseAppend(LeavesUpTo(c, k - 1), LeavesUpTo(r, k - 1), Leaves(x), Leaves(y), decimals, rnd);
    }
  }

  /**
   * What `for x in j` visits, when that can lead anywhere but an error: a
   * list's elements, a string's characters, and the keys of an object whose
   * only possible key is the empty string. An object with a non-empty key
   * yields None: its keys iterate fine, but each is a non-empty string that
   * the rounding then rejects, whatever the order.
   */
  function Elements(j: Json): (r: Option<seq<Json>>)
    ensures j.JArr? ==> r == Some(j.items)
    ensures j.JNull? || j.JBool? || j.JNum? ==> r.None?
  {
    match j
    case JArr(xs) => Some(xs)
    case JStr(s) => Some(seq(|s|, i requires 0 <= i < |s| => JStr([s[i]])))
    case JObj(m) =>
      if m.Keys == {} then Some([])
      else if m.Keys == {""} then Some([JStr("")])
      else None
    case _ => None
  }

  /** `[round_coords(ring) for ring in rings]`. */
  function RoundRings(rings: Json, decimals: nat, rnd: (real, nat) -> real): (r: Option<Json>)
    ensures rings.JArr? && r.Some? ==>
      && r.value.JArr? && |r.value.items| == |rings.items|
      && (forall i :: 0 <= i < |rings.items| ==> RoundCoords(rings.items[i], decimals, rnd) == Some(r.value.items[i]))
  {
    match Elements(rings)
    case None => None
    case Some(xs) =>
      var rs := seq(|xs|, i requires 0 <= i < |xs| => RoundCoords(xs[i], decimals, rnd));
      if forall i :: 0 <= i < |rs| ==> rs[i].Some?
      then Some(JArr(seq(|rs|, i requires 0 <= i < |rs| && rs[i].Some? => rs[i].value)))
      else None
  }

  /** `[[round_coords(ring) for ring in polygon] for polygon in polygons]`. */
  function RoundPolygons(polygons: Json, decimals: nat, rnd: (real, nat) -> real): (r: Option<Json>)
    ensures polygons.JArr? && r.Some? ==>
      && r.value.JArr? && |r.value.items| == |polygons.items|
      && (forall i :: 0 <= i < |polygons.items| ==> RoundRings(polygons.items[i], decimals, rnd) == Some(r.value.items[i]))
  {
    match Elements(polygons)
    case None => None
    case Some(xs) =>
      var rs := seq(|xs|, i requires 0 <= i < |xs| => RoundRings(xs[i], decimals, rnd));
      if forall i :: 0 <= i < |rs| ==> rs[i].Some?
      then Some(JArr(seq(|rs|, i requires 0 <= i < |rs| && rs[i].Some? => rs[i].value)))
      else None
  }

  const Polygon := JStr("Polygon")
  const MultiPolygon := JStr("MultiPolygon")

  /**
   * `round_coordinates`: a Polygon or MultiPolygon gets its coordinates
   * rounded; any other geometry is returned as it is. A value that is not
   * an object, or has no `type`, raises, as does a polygon without
   * coordinates or with coordinates the rounding rejects.
   */
  function RoundCoordinates(geom: Json, decimals: nat, rnd: (real, nat) -> real): (r: Option<Json>)
    ensures r.Some? ==> geom.JObj? && "type" in geom.fields
    ensures (geom.JObj? && "type" in geom.fields && geom.fields["type"] != Polygon
             && geom.fields["type"] != MultiPolygon) ==> r == Some(geom)
    ensures r.Some? ==>
      && r.value.JObj? && r.value.fields.Keys == geom.fields.Keys
      && (forall k :: k in geom.fields && k != "coordinates" ==> r.value.fields[k] == geom.fields[k])
  {
    if !geom.JObj? || "type" !in geom.fields then None
    else if geom.fields["type"] == Polygon || geom.fields["type"] == MultiPolygon then
      if "coordinates" !in geom.fields then None
      else
        var coords := geom.fields["coordinates"];
        var rounded := if geom.fields["type"] == Polygon
          then RoundRings(coords, decimals, rnd)
          else RoundPolygons(coords, decimals, rnd);
        if rounded.None? then None
        else Some(JObj(geom.fields["coordinates" := rounded.value]))
    else Some(geom)
  }

  /**
   * A polygon's rounded coordinates keep its rings and positions, and every
   * coordinate number is the rounding of the one it replaces.
   */
  lemma PolygonRoundingKeepsShape(geom: Json, decimals: nat, rnd: (real, nat) -> real)
    requires geom.JObj? && "type" in geom.fields && geom.fields["type"] == Polygon
    requires "coordinates" in geom.fields && geom.fields["coordinates"].JArr?
    requires RoundCoordinates(geom, decimals, rnd).Some?
    ensures var before := geom.fields["coordinates"];
      var after := RoundCoordinates(geom, decimals, rnd).value.fields["coordinates"];
      && Shape(after) == Shape(before)
      && forall i :: 0 <= i < |before.items| ==>
           RoundedPointwise(Leaves(before.items[i]), Leaves(after.items[i]), decimals, rnd)
  {
    var before := geom.fields["coordinates"];
    var after := RoundCoordinates(geom, decimals, rnd).value.fields["coordinates"];
    forall i | 0 <= i < |before.items|
      ensures Shape(after.items[i]) == Shape(before.items[i])
      ensures RoundedPointwise(Leaves(before.items[i]), Leaves(after.items[i]), decimals, rnd)
    {
      RoundCoordsKeepsShape(before.items[i], decimals, rnd);
      RoundCoordsRoundsEveryLeaf(before.items[i], decimals, rnd);
    }
  }

  /** The same for a MultiPolygon: polygons, rings and positions are kept, and every number is rounded. */
  lemma MultiPolygonRoundingKeepsShape(geom: Json, decimals: nat, rnd: (real, nat) -> real)
    requires geom.JObj? && "type" in geom.fields && geom.fields["type"] == MultiPolygon
    requires "coordinates" in geom.fields && geom.fields["coordinates"].JArr?
    requires forall p :: p in geom.fields["coordinates"].items ==> p.JArr?
    requires RoundCoordinates(geom, decimals, rnd).Some?
    ensures var before := geom.fields["coordinates"];
      var after := RoundCoordinates(geom, decimals, rnd).value.fields["coordinates"];
      && Shape(after) == Shape(before)
      && forall i, k :: 0 <= i < |before.items| && 0 <= k < |before.items[i].items| ==>
           RoundedPointwise(Leaves(before.items[i].items[k]), Leaves(after.items[i].items[k]), decimals, rnd)
  {
    var before := geom.fields["coordinates"];
    var after := RoundCoordinates(geom, decimals, rnd).value.fields["coordinates"];
    forall i | 0 <= i < |before.items|
      ensures Shape(after.items[i]) == Shape(before.items[i])
      ensures forall k :: 0 <= k < |before.items[i].items| ==>
        RoundedPointwise(Leaves(before.items[i].items[k]), Leaves(after.items[i].items[k]), decimals, rnd)
    {
      var p, q := before.items[i], after.items[i];
      assert p in before.items;
      forall k | 0 <= k < |p.items|
        ensures Shape(q.items[k]) == Shape(p.items[k])
        ensures RoundedPointwise(Leaves(p.items[k]), Leaves(q.items[k]), decimals, rnd)
      {
        RoundCoordsKeepsShape(p.items[k], decimals, rnd);
        RoundCoordsRoundsEveryLeaf(p.items[k], decimals, rnd);
      }
    }
  }

  /** A GeoJSON position: a non-empty list of numbers. */
  ghost predicate IsPosition(p: Json) {
    p.JArr? && p.items != [] && forall x :: x in p.items ==> x.JNum?
  }

  /** A linear ring: a non-empty list of positions. */
  ghost predicate IsRing(r: Json) {
    r.JArr? && r.items != [] && forall p :: p in r.items ==> IsPosition(p)
  }

  /** A Polygon's coordinates: a list of rings. */
  ghost predicate IsRingList(rings: Json) {
    rings.JArr? && forall r :: r in rings.items ==> IsRing(r)
  }

  /**
   * A geometry object `round_coordinates` accepts as GeoJSON defines it: it
   * has a `type`, a Polygon has a list of rings and a MultiPolygon a list of
   * such lists; any other type needs nothing more.
   */
  ghost predicate IsWellFormedGeometry(g: Json) {
    && g.JObj? && "type" in g.fields
    && (g.fields["type"] == Polygon ==> "coordinates" in g.fields && IsRingList(g.fields["coordinates"]))
    && (g.fields["type"] == MultiPolygon ==>
          && "coordinates" in g.fields && g.fields["coordinates"].JArr?
          && forall p :: p in g.fields["coordinates"].items ==> IsRingList(p))
  }

  /** Every number of a position rounds, so the position does. */
  lemma PositionRounds(p: Json, decimals: nat, rnd: (real, nat) -> real)
    requires IsPosition(p)
    ensures RoundCoords(p, decimals, rnd).Some?
  {
    assert p.items[0] in p.items;
    forall i | 0 <= i < |p.items|
      ensures RoundScalar(p.items[i], decimals, rnd).Some?
    {
      assert p.items[i] in p.items;
    }
  }

  /** A ring of positions rounds without raising. */
  lemma RingRounds(r: Json, decimals: nat, rnd: (real, nat) -> real)
    requires IsRing(r)
    ensures RoundCoords(r, decimals, rnd).Some?
  {
    assert r.items[0] in r.items;
    forall i | 0 <= i < |r.items|
      ensures RoundCoords(r.items[i], decimals, rnd).Some?
    {
      assert r.items[i] in r.items;
      PositionRounds(r.items[i], decimals, rnd);
    }
  }

  /** A list of rings rounds ring by ring without raising. */
  lemma RingListRounds(rings: Json, decimals: nat, rnd: (real, nat) -> real)
    requires IsRingList(rings)
    ensures RoundRings(rings, decimals, rnd).Some?
  {
    forall i | 0 <= i < |rings.items|
      ensures RoundCoords(rings.items[i], decimals, rnd).Some?
    {
      assert rings.items[i] in rings.items;
      RingRounds(rings.items[i], decimals, rnd);
    }
  }

  /** A Polygon whose coordinates are a list of rings is rounded, not rejected. */
  lemma PolygonRounds(geom: Json, decimals: nat, rnd: (real, nat) -> real)
    requires geom.JObj? && "type" in geom.fields && geom.fields["type"] == Polygon
    requires "coordinates" in geom.fields && IsRingList(geom.fields["coordinates"])
    ensures RoundCoordinates(geom, decimals, rnd).Some?
  {
    RingListRounds(geom.fields["coordinates"], decimals, rnd);
  }

  /** A MultiPolygon whose polygons are lists of rings is rounded, not rejected. */
  lemma MultiPolygonRounds(geom: Json, decimals: nat, rnd: (real, nat) -> real)
    requires geom.JObj? && "type" in geom.fields && geom.fields["type"] == MultiPolygon
    requires "coordinates" in geom.fields && geom.fields["coordinates"].JArr?
    requires forall p :: p in geom.fields["coordinates"].items ==> IsRingList(p)
    ensures RoundCoordinates(geom, decimals, rnd).Some?
  {
    var polygons := geom.fields["coordinates"];
    forall i | 0 <= i < |polygons.items|
      ensures RoundRings(polygons.items[i], decimals, rnd).Some?
    {
      assert polygons.items[i] in polygons.items;
      RingListRounds(polygons.items[i], decimals, rnd);
    }
  }

  /** `round_coordinates` never raises on a well-formed geometry object. */
  lemma WellFormedGeometryRounds(geom: Json, decimals: nat, rnd: (real, nat) -> real)
    requires IsWellFormedGeometry(geom)
    ensures RoundCoordinates(geom, decimals, rnd).Some?
  {
    if geom.fields["type"] == Polygon {
      PolygonRounds(geom, decimals, rnd);
    } else if geom.fields["type"] == MultiPolygon {
      MultiPolygonRounds(geom, decimals, rnd);
    }
  }

  /** `simplify_geometry`: the simplified geometry, or the input itself when simplification raises. */
  function SimplifyGeometry(geom: Json, simplify: Json -> Option<Json>): (r: Json)
    ensures simplify(geom).None? ==> r == geom
    ensures simplify(geom).Some? ==> r == simplify(geom).value
  {
    match simplify(geom)
    case None => geom
    case Some(g) => g
  }
}
