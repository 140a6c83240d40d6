/**
 * The two geometry post-passes over substations.json
 * (simplify_substations.py and simplify_substations_aggressive.py): the
 * per-substation rewrite loops, the aggressive field whitelist, and the
 * decisions of each script's main block about which file is read and which
 * is replaced. Shapely's simplifier, Python's `round` and the byte size of
 * the written file are parameters.
 */
module Simplifier {
  import opened Wrappers
  import opened GeoJson

  /** One substation's JSON object. */
  type Record = map<string, Json>

  /** The loaded substations.json: substation id to its object. */
  type Data = map<string, Record>

  /** Both scripts round to four decimal places. */
  const Decimals: nat := 4

  /** A substation object holds a geometry to rewrite. */
  predicate HasGeometry(rec: Record) {
    "boundary" in rec || "geometry" in rec
  }

  /** The field rewritten: `boundary` when present, else `geometry`. */
  function GeometryField(rec: Record): (f: string)
    requires HasGeometry(rec)
    ensures f in rec
    ensures f == "boundary" <==> "boundary" in rec
  {
    if "boundary" in rec then "boundary" else "geometry"
  }

  /**
   * One iteration of the rewrite loop: the geometry field, if any, is
   * simplified (falling back to itself) and rounded; a rounding that raises
   * aborts the run (None).
   */
  function Rewritten(rec: Record, simplify: Json -> Option<Json>, rnd: (real, nat) -> real): (r: Option<Record>)
    ensures !HasGeometry(rec) ==> r == Some(rec)
    ensures HasGeometry(rec) ==>
      var f := GeometryField(rec);
      var rounded := RoundCoordinates(SimplifyGeometry(rec[f], simplify), Decimals, rnd);
      && (r.None? <==> rounded.None?)
      && (r.Some? ==> r.value.Keys == rec.Keys && r.value[f] == rounded.value)
      && (r.Some? ==> forall k :: k in rec && k != f ==> r.value[k] == rec[k])
  {
    if !HasGeometry(rec) then Some(rec)
    else
      var f := GeometryField(rec);
      var rounded := RoundCoordinates(SimplifyGeometry(rec[f], simplify), Decimals, rnd);
      if rounded.None? then None else Some(rec[f := rounded.value])
  }

  /**
   * The body of the rewrite loop for one substation, step by step as the
   * scripts run it (both loops call it). `Rewritten` is its specification,
   * the value the per-record lemmas and the loops' invariants talk about.
   */
  method RewriteOne(substation: Record, simplify: Json -> Option<Json>, rnd: (real, nat) -> real)
    returns (r: Option<Record>)
    ensures r == Rewritten(substation, simplify, rnd)
  {
    if HasGeometry(substation) {
      var field := GeometryField(substation);
      var geom := SimplifyGeometry(substation[field], simplify);
      var rounded := RoundCoordinates(geom, Decimals, rnd);
      if rounded.None? {
        return None;
      }
      return Some(substation[field := rounded.value]);
    }
    return Some(substation);
  }

  /** The substations that hold a geometry. */
  function WithGeometry(data: Data): set<string> {
    set id | id in data && HasGeometry(data[id])
  }

  /**
   * The loop of `simplify_substations_file`: every substation is rewritten,
   * in whatever order the file lists them; `count` is the number rewritten.
   * The run aborts (None) exactly when some rewrite raises.
   */
  method SimplifyRecords(data: Data, simplify: Json -> Option<Json>, rnd: (real, nat) -> real)
    returns (out: Option<Data>, count: nat)
    ensures out.None? <==> exists id :: id in data && Rewritten(data[id], simplify, rnd).None?
    ensures out.Some? ==> out.value.Keys == data.Keys
    ensures out.Some? ==> forall id :: id in data ==> Rewritten(data[id], simplify, rnd) == Some(out.value[id])
    ensures out.Some? ==> count == |WithGeometry(data)|
  {
    var current := data;
    var remaining := data.Keys;
    ghost var done: set<string> := {};
    ghost var rounded: set<string> := {};
    count := 0;
    while remaining != {}
      invariant forall id :: id in data <==> id in remaining || id in done
      invariant forall id :: id in remaining ==> id !in done
      invariant current.Keys == data.Keys
      invariant forall id :: id in done ==> Rewritten(data[id], simplify, rnd) == Some(current[id])
      invariant count == |rounded|
      invariant forall id :: id in rounded <==> id in done && HasGeometry(data[id])
      decreases remaining
    {
      var id :| id in remaining;
      var substation := data[id];
      var rewritten := RewriteOne(substation, simplify, rnd);
      if rewritten.None? {
        return None, count;
      }
      current := current[id := rewritten.value];
      if HasGeometry(substation) {
        count := count + 1;
        rounded := rounded + {id};
      }
      remaining := remaining - {id};
      done := done + {id};
    }
    assert rounded == WithGeometry(data);
    out := Some(current);
  }

  /** The record's geometry, once simplified, is one `round_coordinates` accepts. */
  ghost predicate GeometryWellFormed(rec: Record, simplify: Json -> Option<Json>) {
    HasGeometry(rec) ==> IsWellFormedGeometry(SimplifyGeometry(rec[GeometryField(rec)], simplify))
  }

  /** A record whose simplified geometry is well formed is rewritten, never rejected. */
  lemma RewriteSucceeds(rec: Record, simplify: Json -> Option<Json>, rnd: (real, nat) -> real)
    requires GeometryWellFormed(rec, simplify)
    ensures Rewritten(rec, simplify, rnd).Some?
  {
    if HasGeometry(rec) {
      WellFormedGeometryRounds(SimplifyGeometry(rec[GeometryField(rec)], simplify), Decimals, rnd);
    }
  }

  /**
   * When every substation's simplified geometry is well formed, no record
   * aborts the first pass, so `SimplifyRecords` returns the rewritten data
   * and counts every substation with a geometry.
   */
  lemma FirstPassCompletes(data: Data, simplify: Json -> Option<Json>, rnd: (real, nat) -> real)
    requires forall id :: id in data ==> GeometryWellFormed(data[id], simplify)
    ensures forall id :: id in data ==> Rewritten(data[id], simplify, rnd).Some?
  {
    forall id | id in data
      ensures Rewritten(data[id], simplify, rnd).Some?
    {
      RewriteSucceeds(data[id], simplify, rnd);
    }
  }

  /** Substations with neither field come through the first pass unchanged; the others keep every other field. */
  lemma SimplifyLeavesOtherFields(data: Data, out: Data, simplify: Json -> Option<Json>, rnd: (real, nat) -> real, id: string)
    requires out.Keys == data.Keys
    requires forall i :: i in data ==> Rewritten(data[i], simplify, rnd) == Some(out[i])
    requires id in data
    ensures !HasGeometry(data[id]) ==> out[id] == data[id]
    ensures HasGeometry(data[id]) ==> out[id].Keys == data[id].Keys
    ensures HasGeometry(data[id]) ==>
      forall k :: k in data[id] && k != GeometryField(data[id]) ==> out[id][k] == data[id][k]
  {
    assert Rewritten(data[id], simplify, rnd) == Some(out[id]);
  }

  /** The fields the aggressive pass keeps. */
  const Whitelist := {"id", "name", "dno_id", "dno_name", "dno", "license_area", "postcode_count",
                      "household_count", "chunks", "centroid", "boundary", "geometry"}

  /** A record with every non-whitelisted field deleted. */
  function Trimmed(rec: Record): (r: Record)
    ensures r.Keys == rec.Keys * Whitelist
    ensures forall k :: k in r ==> r[k] == rec[k]
    ensures "postcodes" !in r
  {
    map k | k in rec && k in Whitelist :: rec[k]
  }

  /** `for field in fields_to_remove: del substation[field]`, one deletion at a time. */
  method Trim(rec: Record) returns (r: Record)
    ensures r == Trimmed(rec)
  {
    var toRemove := set k | k in rec && k !in Whitelist;
    r := rec;
    while toRemove != {}
      invariant toRemove <= r.Keys
      invariant forall k :: k in rec ==> (k in r <==> k in Whitelist || k in toRemove)
      invariant r.Keys <= rec.Keys
      invariant forall k :: k in r ==> r[k] == rec[k]
      decreases toRemove
    {
      var field :| field in toRemove;
      r := map k | k in r && k != field :: r[k];
      toRemove := toRemove - {field};
    }
  }

  /** Trimming keeps both geometry fields, so a trimmed record rewrites the same geometry. */
  lemma TrimKeepsGeometry(rec: Record, simplify: Json -> Option<Json>)
    requires GeometryWellFormed(rec, simplify)
    ensures HasGeometry(Trimmed(rec)) <==> HasGeometry(rec)
    ensures HasGeometry(rec) ==> GeometryField(Trimmed(rec)) == GeometryField(rec)
    ensures GeometryWellFormed(Trimmed(rec), simplify)
  {
    assert "boundary" in Whitelist && "geometry" in Whitelist;
  }

  /** When every substation's simplified geometry is well formed, no record aborts the aggressive pass. */
  lemma AggressivePassCompletes(data: Data, simplify: Json -> Option<Json>, rnd: (real, nat) -> real)
    requires forall id :: id in data ==> GeometryWellFormed(data[id], simplify)
    ensures forall id :: id in data ==> Rewritten(Trimmed(data[id]), simplify, rnd).Some?
  {
    forall id | id in data
      ensures Rewritten(Trimmed(data[id]), simplify, rnd).Some?
    {
      TrimKeepsGeometry(data[id], simplify);
      RewriteSucceeds(Trimmed(data[id]), simplify, rnd);
    }
  }

  /**
   * The loop of the aggressive `simplify_substations_file`: each substation
   * is trimmed to the whitelist, then rewritten as in the first pass. The
   * run aborts (None) exactly when some rewrite raises.
   */
  method AggressiveRecords(data: Data, simplify: Json -> Option<Json>, rnd: (real, nat) -> real)
    returns (out: Option<Data>)
    ensures out.None? <==> exists id :: id in data && Rewritten(Trimmed(data[id]), simplify, rnd).None?
    ensures out.Some? ==> out.value.Keys == data.Keys
    ensures out.Some? ==> forall id :: id in data ==> Rewritten(Trimmed(data[id]), simplify, rnd) == Some(out.value[id])
  {
    var current := data;
    var remaining := data.Keys;
    ghost var done: set<string> := {};
    while remaining != {}
      invariant remaining + done == data.Keys && remaining !! done
      invariant current.Keys == data.Keys
      invariant forall id :: id in done ==> Rewritten(Trimmed(data[id]), simplify, rnd) == Some(current[id])
      decreases remaining
    {
      var id :| id in remaining;
      var substation := Trim(data[id]);
      var rewritten := RewriteOne(substation, simplify, rnd);
      if rewritten.None? {
        return None;
      }
      current := current[id := rewritten.value];
      remaining := remaining - {id};
      done := done + {id};
    }
    out := Some(current);
  }

  /**
   * After the aggressive pass every substation keeps exactly its whitelisted
   * fields (so its postcode list is gone), and every kept field other than
   * the rewritten geometry keeps its value.
   */
  lemma AggressiveKeepsWhitelistedFields(data: Data, out: Data, simplify: Json -> Option<Json>,
                                         rnd: (real, nat) -> real, id: string)
    requires out.Keys == data.Keys
    requires forall i :: i in data ==> Rewritten(Trimmed(data[i]), simplify, rnd) == Some(out[i])
    requires id in data
    ensures out[id].Keys == data[id].Keys * Whitelist
    ensures "postcodes" !in out[id]
    ensures forall k :: k in out[id] && k != "boundary" && k != "geometry" ==> out[id][k] == data[id][k]
  {
    var t := Trimmed(data[id]);
    assert Rewritten(t, simplify, rnd) == Some(out[id]);
  }

  /** The largest file size, in bytes, the host accepts: 25 MiB. */
  const SizeLimit: nat := 25 * 1024 * 1024

  /** `size / (1024 * 1024) <= 25`, the test both scripts apply to the written file. */
  predicate FitsLimit(bytes: nat) {
    (bytes as real) / (1024.0 * 1024.0) <= 25.0
  }

  /** The real-valued test is the same as comparing the byte count with 26214400. */
  lemma FitsLimitExact(bytes: nat)
    ensures FitsLimit(bytes) <==> bytes <= SizeLimit
  {
    var mib := 1024.0 * 1024.0;
    assert (bytes as real) / mib <= 25.0 <==> bytes as real <= 25.0 * mib;
  }

  /** How a run of a script ended. */
  datatype RunOutcome = MissingInput | Crashed | Replaced | KeptOriginal | Written

  /** The three files of public/data the scripts read and write; None is a file that does not exist. */
  class DataDir {
    var substations: Option<Data>
    var simplified: Option<Data>
    var original: Option<Data>

    constructor (substations: Option<Data>, simplified: Option<Data>, original: Option<Data>)
      ensures this.substations == substations && this.simplified == simplified && this.original == original
    {
      this.substations, this.simplified, this.original := substations, simplified, original;
    }

    /**
     * The main block of simplify_substations.py: without substations.json it
     * stops; otherwise it copies it to the backup, writes the simplified
     * file, and moves that over substations.json only when it fits the limit.
     */
    method RunFirstPass(simplify: Json -> Option<Json>, rnd: (real, nat) -> real, size: Data -> nat)
      returns (outcome: RunOutcome)
      modifies this
      ensures old(substations).None? ==>
        && outcome == MissingInput
        && substations == old(substations) && simplified == old(simplified) && original == old(original)
      ensures old(substations).Some? ==> original == old(substations) && outcome != MissingInput
      ensures old(substations).Some? ==>
        (outcome == Crashed <==>
           exists id :: id in old(substations).value && Rewritten(old(substations).value[id], simplify, rnd).None?)
      ensures outcome == Crashed ==> substations == old(substations) && simplified == old(simplified)
      ensures outcome == Replaced ==>
        && simplified.None? && substations.Some?
        && FitsLimit(size(substations.value))
        && substations.value.Keys == old(substations).value.Keys
        && (forall id :: id in substations.value ==>
              Rewritten(old(substations).value[id], simplify, rnd) == Some(substations.value[id]))
      ensures outcome == KeptOriginal ==>
        && substations == old(substations) && simplified.Some?
        && !FitsLimit(size(simplified.value))
        && simplified.value.Keys == old(substations).value.Keys
        && (forall id :: id in simplified.value ==>
              Rewritten(old(substations).value[id], simplify, rnd) == Some(simplified.value[id]))
      ensures outcome in {MissingInput, Crashed, Replaced, KeptOriginal}
    {
      if substations.None? {
        return MissingInput;
      }
      original := substations;
      var out, count := SimplifyRecords(substations.value, simplify, rnd);
      if out.None? {
        return Crashed;
      }
      simplified := out;
      if FitsLimit(size(out.value)) {
        substations := out;
        simplified := None;
        outcome := Replaced;
      } else {
        outcome := KeptOriginal;
      }
    }

    /**
     * The main block of the aggressive script: it reads the backup when there
     * is one, else substations.json, and writes the result over
     * substations.json; the backup is never touched.
     */
    method RunAggressive(simplify: Json -> Option<Json>, rnd: (real, nat) -> real)
      returns (outcome: RunOutcome)
      modifies this
      ensures original == old(original) && simplified == old(simplified)
      ensures var input := if old(original).Some? then old(original) else old(substations);
        && (input.None? ==> outcome == MissingInput && substations == old(substations))
        && (input.Some? ==> outcome != MissingInput)
        && (input.Some? ==>
              (outcome == Crashed <==>
                 exists id :: id in input.value && Rewritten(Trimmed(input.value[id]), simplify, rnd).None?))
        && (outcome == Crashed ==> substations == old(substations))
        && (outcome == Written ==>
              && input.Some? && substations.Some?
              && substations.value.Keys == input.value.Keys
              && (forall id :: id in input.value ==>
                    Rewritten(Trimmed(input.value[id]), simplify, rnd) == Some(substations.value[id])))
      ensures outcome in {MissingInput, Crashed, Written}
    {
      var input := original;
      if input.None? {
        input := substations;
      }
      if input.None? {
        return MissingInput;
      }
      var out := AggressiveRecords(input.value, simplify, rnd);
      if out.None? {
        return Crashed;
      }
      substations := out;
      outcome := Written;
    }
  }
}
