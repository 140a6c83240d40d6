/**
 * The browser client (public/app.js): the on-demand cache of chunk files,
 * the postcode search, the list of postcodes in a substation, its pages and
 * the autocomplete collector. Network fetches are parameters: `fetched` is
 * what the chunk request would yield (None when it fails).
 */
module Client {
  import opened Wrappers
  import opened Text
  import opened Sorting
  import opened Postcode
  import opened Records

  /**
   * A JavaScript object parsed from a chunk file: its own keys in iteration
   * order and the entry stored under each. A well-formed chunk lists exactly
   * the keys of entries; readers below look a key up only after checking it.
   */
  datatype Chunk = Chunk(keys: seq<string>, entries: map<string, Entry>)

  /** The keys of the loaded chunk for one area, in iteration order. */
  function ChunkKeys(chunks: map<string, Chunk>, area: string): seq<string>
  {
    if area in chunks then chunks[area].keys else []
  }

  /** Every postcode key of the loaded chunks, in `for ... in` order: areas in load order, keys in file order. */
  function AllKeys(areas: seq<string>, chunks: map<string, Chunk>): seq<string>
  {
    if areas == [] then []
    else AllKeys(areas[..|areas| - 1], chunks) + ChunkKeys(chunks, areas[|areas| - 1])
  }

  /** The keys among `keys` whose entry in c belongs to substation id, in order. */
  function ChunkMembers(keys: seq<string>, c: Chunk, id: string): seq<string>
  {
    if keys == [] then []
    else
      var k := keys[|keys| - 1];
      ChunkMembers(keys[..|keys| - 1], c, id)
        + (if k in c.entries && c.entries[k].substationId == id then [k] else [])
  }

  /** The keys of all loaded chunks whose entry belongs to substation id, in iteration order. */
  function InSubstation(areas: seq<string>, chunks: map<string, Chunk>, id: string): seq<string>
  {
    if areas == [] then []
    else
      var a := areas[|areas| - 1];
      InSubstation(areas[..|areas| - 1], chunks, id)
        + (if a in chunks then ChunkMembers(chunks[a].keys, chunks[a], id) else [])
  }

  /** A loaded chunk maps postcode p to substation id. */
  ghost predicate Assigned(areas: seq<string>, chunks: map<string, Chunk>, id: string, p: string) {
    exists a :: a in areas && a in chunks && p in chunks[a].keys && p in chunks[a].entries
      && chunks[a].entries[p].substationId == id
  }

  lemma {:induction false} ChunkMembersExact(keys: seq<string>, c: Chunk, id: string, p: string)
    ensures p in ChunkMembers(keys, c, id) <==> p in keys && p in c.entries && c.entries[p].substationId == id
  {
    if keys != [] {
      ChunkMembersExact(keys[..|keys| - 1], c, id, p);
      assert keys == keys[..|keys| - 1] + [keys[|keys| - 1]];
    }
  }

  /** The list holds exactly the postcodes that a loaded chunk assigns to the substation. */
  lemma {:induction false} InSubstationExact(areas: seq<string>, chunks: map<string, Chunk>, id: string, p: string)
    ensures p in InSubstation(areas, chunks, id) <==> Assigned(areas, chunks, id, p)
  {
    if areas != [] {
      var a := areas[|areas| - 1];
      var init := areas[..|areas| - 1];
      InSubstationExact(init, chunks, id, p);
      if a in chunks { ChunkMembersExact(chunks[a].keys, chunks[a], id, p); }
      assert areas == init + [a];
      if Assigned(areas, chunks, id, p) && !Assigned(init, chunks, id, p) {
        var b :| b in areas && b in chunks && p in chunks[b].keys && p in chunks[b].entries
          && chunks[b].entries[p].substationId == id;
        assert b == a;
      }
    }
  }

  lemma InSubstationWhole(areas: seq<string>, chunks: map<string, Chunk>, id: string)
    ensures InSubstation(areas[..|areas|], chunks, id) == InSubstation(areas, chunks, id)
  {
    assert areas[..|areas|] == areas;
  }

  lemma AllKeysWhole(areas: seq<string>, chunks: map<string, Chunk>)
    ensures AllKeys(areas[..|areas|], chunks) == AllKeys(areas, chunks)
  {
    assert areas[..|areas|] == areas;
  }

  /** Any rearrangement of the collected list holds exactly the assigned postcodes. */
  lemma RearrangedListExact(areas: seq<string>, chunks: map<string, Chunk>, id: string, r: seq<string>)
    requires multiset(r) == multiset(InSubstation(areas, chunks, id))
    ensures forall p :: p in r <==> Assigned(areas, chunks, id, p)
  {
    forall p ensures p in r <==> Assigned(areas, chunks, id, p) {
      assert p in r <==> p in multiset(r);
      assert p in InSubstation(areas, chunks, id) <==> p in multiset(InSubstation(areas, chunks, id));
      InSubstationExact(areas, chunks, id, p);
    }
  }

  /** Keys whose whitespace-free spelling starts with value, in order. */
  function Matching(keys: seq<string>, value: string): seq<string>
  {
    if keys == [] then []
    else
      var k := keys[|keys| - 1];
      Matching(keys[..|keys| - 1], value) + (if value <= StripSpaces(k) then [k] else [])
  }

  lemma {:induction false} MatchingAppend(a: seq<string>, b: seq<string>, value: string)
    ensures Matching(a + b, value) == Matching(a, value) + Matching(b, value)
    decreases |b|
  {
    if b == [] {
      assert a + b == a;
    } else {
      assert (a + b)[..|a + b| - 1] == a + b[..|b| - 1];
      MatchingAppend(a, b[..|b| - 1], value);
    }
  }

  lemma {:induction false} MatchingSound(keys: seq<string>, value: string)
    ensures forall p :: p in Matching(keys, value) ==> p in keys && value <= StripSpaces(p)
  {
    if keys != [] {
      MatchingSound(keys[..|keys| - 1], value);
    }
  }

  /** The first n elements of s, or all of s when it is shorter. */
  function Take(s: seq<string>, n: nat): (r: seq<string>)
    ensures |r| <= n && r <= s
    ensures |r| == if |s| <= n then |s| else n
  {
    if |s| <= n then s else s[..n]
  }

  /** The most suggestions the collector gathers. */
  const MaxSuggestions := 10

  /** The fewest non-whitespace characters that trigger suggestions. */
  const MinQueryLength := 3

  /** Every suggestion is a loaded postcode that starts with the query, and there are at most ten. */
  lemma SuggestionsSound(areas: seq<string>, chunks: map<string, Chunk>, value: string)
    ensures var r := Take(Matching(AllKeys(areas, chunks), value), MaxSuggestions);
      |r| <= MaxSuggestions
      && forall p :: p in r ==> p in AllKeys(areas, chunks) && value <= StripSpaces(p)
  {
    MatchingSound(AllKeys(areas, chunks), value);
  }

  lemma MatchingSnoc(x: seq<string>, p: string, value: string)
    ensures Matching(x + [p], value) == Matching(x, value) + (if value <= StripSpaces(p) then [p] else [])
  {
    assert (x + [p])[..|x|] == x;
  }

  lemma ChunkMembersSnoc(x: seq<string>, p: string, c: Chunk, id: string)
    ensures ChunkMembers(x + [p], c, id)
      == ChunkMembers(x, c, id) + (if p in c.entries && c.entries[p].substationId == id then [p] else [])
  {
    assert (x + [p])[..|x|] == x;
  }

  /** Once ten matches are found in a prefix of the keys, the rest of the keys cannot change the suggestions. */
  lemma FullPrefixDecides(x: seq<string>, y: seq<string>, value: string)
    requires x <= y && |Matching(x, value)| == MaxSuggestions
    ensures Take(Matching(y, value), MaxSuggestions) == Matching(x, value)
  {
    assert y == x + y[|x|..];
    MatchingAppend(x, y[|x|..], value);
    assert (Matching(x, value) + Matching(y[|x|..], value))[..MaxSuggestions] == Matching(x, value);
  }

  lemma {:induction false} AllKeysPrefix(areas: seq<string>, chunks: map<string, Chunk>, k: nat)
    requires k <= |areas|
    ensures AllKeys(areas[..k], chunks) <= AllKeys(areas, chunks)
    decreases |areas| - k
  {
    if k == |areas| {
      assert areas[..k] == areas;
    } else {
      AllKeysStep(areas, chunks, k);
      AllKeysPrefix(areas, chunks, k + 1);
    }
  }

  /** What the collector has scanned when it stops inside area i is a prefix of all the keys. */
  lemma ScannedPrefix(areas: seq<string>, chunks: map<string, Chunk>, i: nat, j: nat)
    requires i < |areas| && j <= |ChunkKeys(chunks, areas[i])|
    ensures AllKeys(areas[..i], chunks) + ChunkKeys(chunks, areas[i])[..j] <= AllKeys(areas, chunks)
  {
    AllKeysStep(areas, chunks, i);
    AllKeysPrefix(areas, chunks, i + 1);
    var keys := ChunkKeys(chunks, areas[i]);
    assert keys == keys[..j] + keys[j..];
  }

  /** Scanning one more key extends the matches by that key when it starts with value. */
  lemma MatchingStep(done: seq<string>, keys: seq<string>, j: nat, value: string)
    requires j < |keys|
    ensures Matching(done + keys[..j + 1], value)
      == Matching(done + keys[..j], value) + (if value <= StripSpaces(keys[j]) then [keys[j]] else [])
  {
    assert done + keys[..j + 1] == (done + keys[..j]) + [keys[j]];
    MatchingSnoc(done + keys[..j], keys[j], value);
  }

  /** Stopping inside area i with ten matches yields exactly the first ten matches of all the keys. */
  lemma StopDecides(areas: seq<string>, chunks: map<string, Chunk>, i: nat, j: nat, value: string)
    requires i < |areas| && j <= |ChunkKeys(chunks, areas[i])|
    requires |Matching(AllKeys(areas[..i], chunks) + ChunkKeys(chunks, areas[i])[..j], value)| == MaxSuggestions
    ensures Take(Matching(AllKeys(areas, chunks), value), MaxSuggestions)
      == Matching(AllKeys(areas[..i], chunks) + ChunkKeys(chunks, areas[i])[..j], value)
  {
    ScannedPrefix(areas, chunks, i, j);
    FullPrefixDecides(AllKeys(areas[..i], chunks) + ChunkKeys(chunks, areas[i])[..j], AllKeys(areas, chunks), value);
  }

  lemma {:induction false} AllKeysStep(areas: seq<string>, chunks: map<string, Chunk>, i: nat)
    requires i < |areas|
    ensures AllKeys(areas[..i + 1], chunks) == AllKeys(areas[..i], chunks) + ChunkKeys(chunks, areas[i])
  {
    assert areas[..i + 1][..i] == areas[..i];
  }

  lemma {:induction false} InSubstationStep(areas: seq<string>, chunks: map<string, Chunk>, id: string, i: nat)
    requires i < |areas|
    ensures InSubstation(areas[..i + 1], chunks, id) == InSubstation(areas[..i], chunks, id)
      + (if areas[i] in chunks then ChunkMembers(chunks[areas[i]].keys, chunks[areas[i]], id) else [])
  {
    assert areas[..i + 1][..i] == areas[..i];
  }

  /** No area is listed twice. */
  predicate NoDuplicates(s: seq<string>) {
    s == [] || (s[|s| - 1] !in s[..|s| - 1] && NoDuplicates(s[..|s| - 1]))
  }

  /** The global chunk cache, `postcodeLookup`: areas in the order their chunks were stored. */
  class ChunkCache {
    var areas: seq<string>
    var chunks: map<string, Chunk>

    ghost predicate Valid()
      reads this
    {
      && (forall a :: a in chunks <==> a in areas)
      && NoDuplicates(areas)
    }

    constructor ()
      ensures Valid() && areas == [] && chunks == map[]
    {
      areas, chunks := [], map[];
    }

    /**
     * loadChunk: a cached area is answered from the cache; otherwise the
     * fetched chunk is stored under the area and returned, and a failed
     * fetch returns None and stores nothing.
     */
    method LoadChunk(area: string, fetched: Option<Chunk>) returns (r: Option<Chunk>)
      requires Valid()
      modifies this
      ensures Valid()
      ensures old(area in chunks) ==>
        r == Some(old(chunks)[area]) && areas == old(areas) && chunks == old(chunks)
      ensures old(area !in chunks) && fetched.None? ==>
        r.None? && areas == old(areas) && chunks == old(chunks)
      ensures old(area !in chunks) && fetched.Some? ==>
        r == fetched && chunks == old(chunks)[area := fetched.value] && areas == old(areas) + [area]
    {
      if area in chunks {
        return Some(chunks[area]);
      }
      if fetched.None? {
        return None;
      }
      chunks := chunks[area := fetched.value];
      assert (areas + [area])[..|areas|] == areas;
      areas := areas + [area];
      r := fetched;
    }

    /**
     * findSubstationForPostcode: no outward code means no lookup and no
     * fetch; otherwise the entry is found only when the area's chunk is
     * loaded (now or before) and has the exact postcode as a key.
     */
    method FindSubstationForPostcode(postcode: string, fetched: Option<Chunk>) returns (r: Option<Entry>)
      requires Valid()
      modifies this
      ensures Valid()
      ensures Outward(postcode).None? ==> r.None? && areas == old(areas) && chunks == old(chunks)
      ensures Outward(postcode).Some? ==>
        var area := Outward(postcode).value;
        && (old(area in chunks) || fetched.None? ==> areas == old(areas) && chunks == old(chunks))
        && (old(area !in chunks) && fetched.Some? ==>
              chunks == old(chunks)[area := fetched.value] && areas == old(areas) + [area])
        && r == (if area in chunks && postcode in chunks[area].entries
                 then Some(chunks[area].entries[postcode]) else None)
    {
      var outward := Outward(postcode);
      if outward.None? {
        return None;
      }
      var chunk := LoadChunk(outward.value, fetched);
      if chunk.None? {
        return None;
      }
      if postcode in chunk.value.entries {
        return Some(chunk.value.entries[postcode]);
      }
      return None;
    }

    /**
     * handleSearch: the input is normalized; an empty result is rejected
     * before any lookup, anything else is looked up.
     */
    method HandleSearch(input: string, fetched: Option<Chunk>) returns (outcome: SearchOutcome)
      requires Valid()
      modifies this
      ensures Valid()
      ensures Normalize(input) == "" ==> outcome == InvalidPostcode && areas == old(areas) && chunks == old(chunks)
      ensures outcome.Found? ==>
        var p := Normalize(input);
        && Outward(p).Some? && outcome.postcode == p
        && Outward(p).value in chunks && p in chunks[Outward(p).value].entries
        && outcome.entry == chunks[Outward(p).value].entries[p]
      ensures outcome.NotFound? ==> outcome.postcode == Normalize(input) != ""
      ensures Normalize(input) != "" ==> outcome != InvalidPostcode
      ensures outcome.NotFound? ==>
        var p := Normalize(input);
        !(Outward(p).Some? && Outward(p).value in chunks && p in chunks[Outward(p).value].entries)
      ensures Normalize(input) != "" ==>
        var p := Normalize(input);
        && (Outward(p).None? ==> areas == old(areas) && chunks == old(chunks))
        && (Outward(p).Some? ==>
              var area := Outward(p).value;
              && (old(area in chunks) || fetched.None? ==> areas == old(areas) && chunks == old(chunks))
              && (old(area !in chunks) && fetched.Some? ==>
                    chunks == old(chunks)[area := fetched.value] && areas == old(areas) + [area]))
    {
      var postcode := Normalize(input);
      if postcode == "" {
        return InvalidPostcode;
      }
      var data := FindSubstationForPostcode(postcode, fetched);
      if data.None? {
        return NotFound(postcode);
      }
      return Found(postcode, data.value);
    }

    /**
     * getAllPostcodesInSubstation: every key of every loaded chunk whose
     * entry names the substation, sorted.
     */
    method PostcodesInSubstation(id: string) returns (r: seq<string>)
      requires Valid()
      ensures Sorted(r)
      ensures multiset(r) == multiset(InSubstation(areas, chunks, id))
      ensures forall p :: p in r <==> Assigned(areas, chunks, id, p)
    {
      var postcodes: seq<string> := [];
      var i := 0;
      while i < |areas|
        invariant 0 <= i <= |areas|
        invariant postcodes == InSubstation(areas[..i], chunks, id)
      {
        var chunk := chunks[areas[i]];
        var j := 0;
        while j < |chunk.keys|
          invariant 0 <= j <= |chunk.keys|
          invariant postcodes == InSubstation(areas[..i], chunks, id) + ChunkMembers(chunk.keys[..j], chunk, id)
        {
          var p := chunk.keys[j];
          assert chunk.keys[..j + 1] == chunk.keys[..j] + [p];
          ChunkMembersSnoc(chunk.keys[..j], p, chunk, id);
          if p in chunk.entries && chunk.entries[p].substationId == id {
            postcodes := postcodes + [p];
          }
          j := j + 1;
        }
        assert chunk.keys[..j] == chunk.keys;
        InSubstationStep(areas, chunks, id, i);
        i := i + 1;
      }
      InSubstationWhole(areas, chunks, id);
      r := Sort(postcodes);
      RearrangedListExact(areas, chunks, id, r);
    }

    /**
     * handleAutocomplete: under three non-whitespace characters nothing is
     * suggested; otherwise the first ten loaded postcodes, in iteration
     * order, whose whitespace-free spelling starts with the query.
     */
    method Autocomplete(input: string) returns (r: seq<string>)
      requires Valid()
      ensures |Compact(input)| < MinQueryLength ==> r == []
      ensures |Compact(input)| >= MinQueryLength ==>
        r == Take(Matching(AllKeys(areas, chunks), Compact(input)), MaxSuggestions)
      ensures |r| <= MaxSuggestions
      ensures forall p :: p in r ==> p in AllKeys(areas, chunks) && Compact(input) <= StripSpaces(p)
    {
      var value := Compact(input);
      if |value| < MinQueryLength {
        return [];
      }
      var outwards, lookup := areas, chunks;
      var matches: seq<string> := [];
      var i := 0;
      assert outwards[..0] == [];
      while i < |outwards|
        invariant 0 <= i <= |outwards|
        invariant matches == Matching(AllKeys(outwards[..i], lookup), value)
        invariant |matches| < MaxSuggestions
      {
        var keys := lookup[outwards[i]].keys;
        ghost var done := AllKeys(outwards[..i], lookup);
        var j := 0;
        assert done + keys[..0] == done;
        while j < |keys|
          invariant 0 <= j <= |keys|
          invariant matches == Matching(done + keys[..j], value)
          invariant |matches| < MaxSuggestions
        {
          var p := keys[j];
          MatchingStep(done, keys, j, value);
          if value <= StripSpaces(p) {
            matches := matches + [p];
            if |matches| >= MaxSuggestions {
              StopDecides(outwards, lookup, i, j + 1, value);
              break;
            }
          }
          j := j + 1;
        }
        if |matches| >= MaxSuggestions {
          break;
        }
        assert keys[..j] == keys;
        AllKeysStep(outwards, lookup, i);
        i := i + 1;
      }
      AllKeysWhole(outwards, lookup);
      r := matches;
      SuggestionsSound(outwards, lookup, value);
    }
  }

  /** What a search shows: a rejected input, a postcode not in the data, or its entry. */
  datatype SearchOutcome = InvalidPostcode | NotFound(postcode: string) | Found(postcode: string, entry: Entry)
  /** Postcodes shown per page of the substation list. */
  const PageSize := 100

  /** A JavaScript slice index: negative counts from the end, then clamped to [0, len]. */
  function SliceIndex(i: int, len: nat): (r: nat)
    ensures r <= len
    ensures 0 <= i <= len ==> r == i
    ensures i > len ==> r == len
  {
    if i < 0 then (if len + i < 0 then 0 else len + i)
    else if i > len then len
    else i
  }

  /** `s.slice(start, end)` in JavaScript. */
  function JsSlice(s: seq<string>, start: int, end: int): seq<string>
  {
    var from, to := SliceIndex(start, |s|), SliceIndex(end, |s|);
    if from < to then s[from..to] else []
  }

  /**
   * The postcodes shown on page `page` (1-based): from index (page - 1) * 100
   * on, at most 100 of them, and none past the end of the list.
   */
  function PageItems(list: seq<string>, page: int): (r: seq<string>)
    ensures page >= 1 ==>
      var start := (page - 1) * PageSize;
      && |r| == (if |list| <= start then 0 else if |list| - start < PageSize then |list| - start else PageSize)
      && forall k :: 0 <= k < |r| ==> r[k] == list[start + k]
  {
    var start := (page - 1) * PageSize;
    JsSlice(list, start, start + PageSize)
  }

  /** `Math.ceil(n / 100)`: the number of pages a list of n postcodes fills. */
  function TotalPages(n: nat): (r: nat)
    ensures r * PageSize >= n
    ensures n > 0 ==> (r - 1) * PageSize < n
    ensures n == 0 <==> r == 0
  {
    (n + PageSize - 1) / PageSize
  }

  /** The previous button is disabled exactly on the first page. */
  predicate PrevDisabled(page: int) {
    page == 1
  }

  /** The next button is disabled exactly on the last page. */
  predicate NextDisabled(page: int, n: nat) {
    page == TotalPages(n)
  }

  /** The pagination controls show only when there is more than one page. */
  predicate PaginationVisible(n: nat) {
    TotalPages(n) > 1
  }

  /** Pages 1 to k, one after another. */
  function PagesUpTo(list: seq<string>, k: nat): seq<string>
  {
    if k == 0 then [] else PagesUpTo(list, k - 1) + PageItems(list, k)
  }

  /** The first k pages are the first k * 100 postcodes (or all of them). */
  lemma {:induction false} PagesUpToPrefix(list: seq<string>, k: nat)
    ensures PagesUpTo(list, k) == list[..if k * PageSize <= |list| then k * PageSize else |list|]
  {
    if k > 0 {
      PagesUpToPrefix(list, k - 1);
      var a := if (k - 1) * PageSize <= |list| then (k - 1) * PageSize else |list|;
      var b := if k * PageSize <= |list| then k * PageSize else |list|;
      assert PageItems(list, k) == list[a..b];
      assert list[..b] == list[..a] + list[a..b];
    }
  }

  /** Reading every page in turn shows the whole list exactly once, in order. */
  lemma PagesPartitionList(list: seq<string>)
    ensures PagesUpTo(list, TotalPages(|list|)) == list
  {
    PagesUpToPrefix(list, TotalPages(|list|));
    assert list[..|list|] == list;
  }

  /** With the controls visible, a click on an enabled button lands on a page between 1 and the last. */
  lemma EnabledClickStaysInRange(list: seq<string>, page: int, direction: int)
    requires PaginationVisible(|list|) && 1 <= page <= TotalPages(|list|)
    requires direction == -1 || direction == 1
    requires direction == -1 ==> !PrevDisabled(page)
    requires direction == 1 ==> !NextDisabled(page, |list|)
    ensures 1 <= page + direction <= TotalPages(|list|)
    ensures PageItems(list, page + direction) != []
  {
  }

  /** The list panel: `allPostcodesInArea` and `currentPage`. */
  class ResultsList {
    var postcodes: seq<string>
    var currentPage: int

    constructor ()
      ensures postcodes == [] && currentPage == 1
    {
      postcodes, currentPage := [], 1;
    }

    /** The list shown for a substation: its loaded postcodes, sorted, from the first page. */
    method Show(cache: ChunkCache, id: string)
      requires cache.Valid()
      modifies this
      ensures Sorted(postcodes)
      ensures multiset(postcodes) == multiset(InSubstation(cache.areas, cache.chunks, id))
      ensures currentPage == 1
    {
      postcodes := cache.PostcodesInSubstation(id);
      currentPage := 1;
    }

    /** changePage: move by direction; the list itself is unchanged. */
    method ChangePage(direction: int)
      modifies this
      ensures currentPage == old(currentPage) + direction && postcodes == old(postcodes)
    {
      currentPage := currentPage + direction;
    }
  }
}
