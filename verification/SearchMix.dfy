/** Ranked search: scan two indexes in batches, keep live hits, interleave the kinds, page the result. */
module SearchMix {
  import opened Prelude

  type Id = string

  /** A hit as the index returns it; `id` is absent when it does not parse. `title` is the normalised label. */
  datatype Hit = Hit(id: Option<Id>, title: string, score: real)

  datatype Found = Found(hit: Hit, id: Id)

  const SCAN_BATCH: nat := 250
  const SCAN_MAX: nat := 1000

  function Min(a: nat, b: nat): nat { if a < b then a else b }

  // ── Scanning ────────────────────────────────────────────────────────────────

  function Live(hits: seq<Hit>, live: set<Id>): seq<Found>
  {
    if hits == [] then []
    else
      var front, last := Live(hits[..|hits| - 1], live), hits[|hits| - 1];
      if last.id.Some? && last.id.value in live then front + [Found(last, last.id.value)] else front
  }

  lemma {:induction false} LiveConcat(a: seq<Hit>, b: seq<Hit>, live: set<Id>)
    ensures Live(a + b, live) == Live(a, live) + Live(b, live)
  {
    if b == [] {
      assert a + b == a;
    } else {
      var front := b[..|b| - 1];
      assert (a + b)[..|a + b| - 1] == a + front;
      LiveConcat(a, front, live);
    }
  }

  function Batch(index: seq<Hit>, offset: nat): seq<Hit>
  {
    index[Min(offset, |index|)..Min(offset + SCAN_BATCH, |index|)]
  }

  /** The live hits among the first `n` of an index. */
  function LivePrefix(index: seq<Hit>, n: nat, live: set<Id>): seq<Found>
  {
    Live(index[..Min(n, |index|)], live)
  }

  lemma BatchExtends(index: seq<Hit>, offset: nat, live: set<Id>)
    ensures LivePrefix(index, offset + SCAN_BATCH, live)
         == LivePrefix(index, offset, live) + Live(Batch(index, offset), live)
    ensures |Batch(index, offset)| < SCAN_BATCH && offset + SCAN_BATCH <= SCAN_MAX ==>
              LivePrefix(index, offset + SCAN_BATCH, live) == LivePrefix(index, SCAN_MAX, live)
  {
    var seen, upTo := index[..Min(offset, |index|)], index[..Min(offset + SCAN_BATCH, |index|)];
    assert upTo == seen + Batch(index, offset);
    LiveConcat(seen, Batch(index, offset), live);
  }

  function If(wanted: bool, index: seq<Hit>): seq<Hit> { if wanted then index else [] }

  /** The live hits of the first `SCAN_MAX` of each wanted index, in ranking order: stopping early
      when both batches come back short loses nothing. */
  method Scan(materials: seq<Hit>, directories: seq<Hit>, wantMaterials: bool, wantDirectories: bool,
              liveMaterials: set<Id>, liveDirectories: set<Id>)
    returns (ms: seq<Found>, ds: seq<Found>)
    ensures ms == LivePrefix(If(wantMaterials, materials), SCAN_MAX, liveMaterials)
    ensures ds == LivePrefix(If(wantDirectories, directories), SCAN_MAX, liveDirectories)
  {
    var fromMaterials, fromDirectories := If(wantMaterials, materials), If(wantDirectories, directories);
    ms, ds := [], [];
    var offset := 0;
    while offset < SCAN_MAX
      invariant offset % SCAN_BATCH == 0 && offset <= SCAN_MAX
      invariant ms == LivePrefix(fromMaterials, offset, liveMaterials)
      invariant ds == LivePrefix(fromDirectories, offset, liveDirectories)
    {
      var materialHits, directoryHits := Batch(fromMaterials, offset), Batch(fromDirectories, offset);
      BatchExtends(fromMaterials, offset, liveMaterials);
      BatchExtends(fromDirectories, offset, liveDirectories);
      ms := ms + Live(materialHits, liveMaterials);
      ds := ds + Live(directoryHits, liveDirectories);
      if |materialHits| < SCAN_BATCH && |directoryHits| < SCAN_BATCH {
        break;
      }
      offset := offset + SCAN_BATCH;
    }
  }

  // ── Mixing ──────────────────────────────────────────────────────────────────

  datatype Mixed = Material(found: Found) | Directory(found: Found)

  /** Index of the first hit with that label. */
  function FirstExact(query: string, pairs: seq<Found>): (i: Option<nat>)
    ensures i.Some? ==> i.value < |pairs| && pairs[i.value].hit.title == query
    ensures forall j :: 0 <= j < (if i.Some? then i.value else |pairs|) ==> pairs[j].hit.title != query
  {
    if pairs == [] then None
    else
      var front := FirstExact(query, pairs[..|pairs| - 1]);
      if front.Some? then front
      else if pairs[|pairs| - 1].hit.title == query then Some(|pairs| - 1)
      else None
  }

  function PromoteExact(query: string, pairs: seq<Found>): seq<Found>
  {
    var i := FirstExact(query, pairs);
    if i.None? then pairs else [pairs[i.value]] + pairs[..i.value] + pairs[i.value + 1..]
  }

  function TopScore(pairs: seq<Found>): real { if pairs == [] then -1.0 else pairs[0].hit.score }

  /** Whether a material goes first. */
  predicate MaterialFirst(query: string, ms: seq<Found>, ds: seq<Found>)
  {
    var m, d := FirstExact(query, ms).Some?, FirstExact(query, ds).Some?;
    if m != d then m
    else TopScore(PromoteExact(query, ms)) > TopScore(PromoteExact(query, ds))
  }

  /** Take turns, until one list runs out. */
  function Interleave(ms: seq<Found>, ds: seq<Found>, materialNext: bool): seq<Mixed>
    decreases |ms| + |ds|
  {
    if ms != [] && (materialNext || ds == []) then [Material(ms[0])] + Interleave(ms[1..], ds, false)
    else if ds != [] then [Directory(ds[0])] + Interleave(ms, ds[1..], true)
    else []
  }

  function MixRankedHits(query: string, ms: seq<Found>, ds: seq<Found>): seq<Mixed>
  {
    Interleave(PromoteExact(query, ms), PromoteExact(query, ds), MaterialFirst(query, ms, ds))
  }

  /** The rest of the mix from a position in each list. */
  function Rest(ms: seq<Found>, m: nat, ds: seq<Found>, d: nat, turn: bool): seq<Mixed>
    requires m <= |ms| && d <= |ds|
  {
    Interleave(ms[m..], ds[d..], turn)
  }

  /** One turn; once a list has run out it no longer matters whose turn it is. */
  lemma RestTurns(ms: seq<Found>, m: nat, ds: seq<Found>, d: nat, turn: bool)
    requires m <= |ms| && d <= |ds|
    ensures m < |ms| && (turn || d == |ds|) ==>
              Rest(ms, m, ds, d, turn) == [Material(ms[m])] + Rest(ms, m + 1, ds, d, false)
    ensures d < |ds| && (!turn || m == |ms|) ==>
              Rest(ms, m, ds, d, turn) == [Directory(ds[d])] + Rest(ms, m, ds, d + 1, true)
    ensures m == |ms| || d == |ds| ==> Rest(ms, m, ds, d, true) == Rest(ms, m, ds, d, false)
  {}

  lemma Appended(before: seq<Mixed>, x: Mixed, rest: seq<Mixed>, all: seq<Mixed>)
    requires before + ([x] + rest) == all
    ensures (before + [x]) + rest == all
  {}

  method TakeTurns(ms: seq<Found>, ds: seq<Found>, materialFirst: bool) returns (mixed: seq<Mixed>)
    ensures mixed == Interleave(ms, ds, materialFirst)
  {
    var materialNext, m, d := materialFirst, 0, 0;
    ghost var all := Rest(ms, 0, ds, 0, materialNext);
    assert ms[0..] == ms && ds[0..] == ds;
    mixed := [];
    while m < |ms| || d < |ds|
      invariant m <= |ms| && d <= |ds|
      invariant mixed + Rest(ms, m, ds, d, materialNext) == all
      decreases |ms| - m + |ds| - d
    {
      RestTurns(ms, m, ds, d, materialNext);
      if materialNext && m < |ms| {
        Appended(mixed, Material(ms[m]), Rest(ms, m + 1, ds, d, false), all);
        mixed, m, materialNext := mixed + [Material(ms[m])], m + 1, false;
      } else if !materialNext && d < |ds| {
        Appended(mixed, Directory(ds[d]), Rest(ms, m, ds, d + 1, true), all);
        mixed, d, materialNext := mixed + [Directory(ds[d])], d + 1, true;
      } else if m < |ms| {
        Appended(mixed, Material(ms[m]), Rest(ms, m + 1, ds, d, false), all);
        RestTurns(ms, m + 1, ds, d, materialNext);
        mixed, m := mixed + [Material(ms[m])], m + 1;
      } else {
        Appended(mixed, Directory(ds[d]), Rest(ms, m, ds, d + 1, true), all);
        RestTurns(ms, m, ds, d + 1, materialNext);
        mixed, d := mixed + [Directory(ds[d])], d + 1;
      }
    }
    assert ms[m..] == [] && ds[d..] == [];
  }

  method Mix(query: string, materials: seq<Found>, directories: seq<Found>) returns (mixed: seq<Mixed>)
    ensures mixed == MixRankedHits(query, materials, directories)
  {
    var ms, ds := PromoteExact(query, materials), PromoteExact(query, directories);
    mixed := TakeTurns(ms, ds, MaterialFirst(query, materials, directories));
  }

  function Materials(mixed: seq<Mixed>): seq<Found>
  {
    if mixed == [] then []
    else (if mixed[0].Material? then [mixed[0].found] else []) + Materials(mixed[1..])
  }

  function Directories(mixed: seq<Mixed>): seq<Found>
  {
    if mixed == [] then []
    else (if mixed[0].Directory? then [mixed[0].found] else []) + Directories(mixed[1..])
  }

  /** A merge: each kind appears in full and in its own order. */
  lemma {:induction false} InterleaveIsMerge(ms: seq<Found>, ds: seq<Found>, turn: bool)
    ensures Materials(Interleave(ms, ds, turn)) == ms && Directories(Interleave(ms, ds, turn)) == ds
    decreases |ms| + |ds|
  {
    if ms != [] && (turn || ds == []) {
      InterleaveIsMerge(ms[1..], ds, false);
      assert Interleave(ms, ds, turn)[1..] == Interleave(ms[1..], ds, false);
    } else if ds != [] {
      InterleaveIsMerge(ms, ds[1..], true);
      assert Interleave(ms, ds, turn)[1..] == Interleave(ms, ds[1..], true);
    }
  }

  /** Neither kind starves: in every prefix the counts differ by at most one, unless one of the
      lists is already used up. */
  lemma {:induction false} InterleaveIsFair(ms: seq<Found>, ds: seq<Found>, turn: bool, n: nat)
    requires n <= |Interleave(ms, ds, turn)|
    ensures var p := Interleave(ms, ds, turn)[..n];
            var m, d := |Materials(p)|, |Directories(p)|;
            || m == |ms| || d == |ds|
            || (if turn then d <= m <= d + 1 else m <= d <= m + 1)
    decreases |ms| + |ds|
  {
    if n > 0 && ms != [] && ds != [] {
      var p := Interleave(ms, ds, turn)[..n];
      var rest := if turn then Interleave(ms[1..], ds, false) else Interleave(ms, ds[1..], true);
      assert p[1..] == rest[..n - 1];
      if turn { InterleaveIsFair(ms[1..], ds, false, n - 1); } else { InterleaveIsFair(ms, ds[1..], true, n - 1); }
    } else if n > 0 {
      NoneOfOther(ms, ds, turn, n);
    }
  }

  lemma {:induction false} NoneOfOther(ms: seq<Found>, ds: seq<Found>, turn: bool, n: nat)
    requires n <= |Interleave(ms, ds, turn)|
    ensures ds == [] ==> Directories(Interleave(ms, ds, turn)[..n]) == []
    ensures ms == [] ==> Materials(Interleave(ms, ds, turn)[..n]) == []
    decreases |ms| + |ds|
  {
    var p := Interleave(ms, ds, turn)[..n];
    if n > 0 && ms != [] && ds == [] {
      assert p[1..] == Interleave(ms[1..], ds, false)[..n - 1];
      NoneOfOther(ms[1..], ds, false, n - 1);
    } else if n > 0 && ms == [] && ds != [] {
      var rest := Interleave(ms, ds[1..], true);
      assert Interleave(ms, ds, turn) == [Directory(ds[0])] + rest;
      assert p == [Directory(ds[0])] + rest[..n - 1];
      NoneOfOther(ms, ds[1..], true, n - 1);
    }
  }

  /** The mixed result is a fair merge of the two live lists, each in ranking order but for one
      promoted exact match, and starts with an exact match whenever there is one. */
  lemma MixIsFairMerge(query: string, ms: seq<Found>, ds: seq<Found>, n: nat)
    requires n <= |MixRankedHits(query, ms, ds)|
    ensures var mixed := MixRankedHits(query, ms, ds);
            && Materials(mixed) == PromoteExact(query, ms) && Directories(mixed) == PromoteExact(query, ds)
            && multiset(Materials(mixed)) == multiset(ms) && multiset(Directories(mixed)) == multiset(ds)
    ensures var p := MixRankedHits(query, ms, ds)[..n];
            var m, d := |Materials(p)|, |Directories(p)|;
            m == |ms| || d == |ds| || -1 <= m - d <= 1
    ensures FirstExact(query, ms).Some? || FirstExact(query, ds).Some? ==>
              MixRankedHits(query, ms, ds) != [] && MixRankedHits(query, ms, ds)[0].found.hit.title == query
  {
    var pm, pd, turn := PromoteExact(query, ms), PromoteExact(query, ds), MaterialFirst(query, ms, ds);
    InterleaveIsMerge(pm, pd, turn);
    InterleaveIsFair(pm, pd, turn, n);
    PromoteIsPermutation(query, ms);
    PromoteIsPermutation(query, ds);
  }

  /** Putting the promoted hit back where the first exact match was gives the ranking again. */
  lemma PromoteIsPermutation(query: string, pairs: seq<Found>)
    ensures multiset(PromoteExact(query, pairs)) == multiset(pairs)
    ensures |PromoteExact(query, pairs)| == |pairs|
    ensures var i, promoted := FirstExact(query, pairs), PromoteExact(query, pairs);
            if i.None? then promoted == pairs
            else promoted[0].hit.title == query
                 && pairs == promoted[1..i.value + 1] + [promoted[0]] + promoted[i.value + 1..]
  {
    var i := FirstExact(query, pairs);
    if i.Some? { assert pairs == pairs[..i.value] + [pairs[i.value]] + pairs[i.value + 1..]; }
  }

  /** Which kind opens the mix: the one that alone has an exact match; otherwise the better score,
      with directories winning ties. */
  lemma MixOpening(query: string, ms: seq<Found>, ds: seq<Found>)
    requires ms != [] && ds != []
    ensures var mixed := MixRankedHits(query, ms, ds);
            var m, d := PromoteExact(query, ms)[0], PromoteExact(query, ds)[0];
            && mixed != []
            && (mixed[0] == Material(m) || mixed[0] == Directory(d))
            && (m.hit.title == query && d.hit.title != query ==> mixed[0] == Material(m))
            && (d.hit.title == query && m.hit.title != query ==> mixed[0] == Directory(d))
            && ((m.hit.title == query <==> d.hit.title == query) ==>
                  (mixed[0] == Material(m) <==> m.hit.score > d.hit.score))
  {
    PromoteIsPermutation(query, ms);
    PromoteIsPermutation(query, ds);
  }

  // ── Pages ───────────────────────────────────────────────────────────────────

  function Page(all: seq<Mixed>, page: nat, limit: nat): seq<Mixed>
    requires page >= 1
  {
    all[Min((page - 1) * limit, |all|)..Min(page * limit, |all|)]
  }

  function Pages(all: seq<Mixed>, n: nat, limit: nat): seq<Mixed>
  {
    if n == 0 then [] else Pages(all, n - 1, limit) + Page(all, n, limit)
  }

  /** Consecutive pages concatenate back to the whole mix. */
  lemma {:induction false} PagesConcatenate(all: seq<Mixed>, n: nat, limit: nat)
    ensures Pages(all, n, limit) == all[..Min(n * limit, |all|)]
  {
    if n > 0 {
      PagesConcatenate(all, n - 1, limit);
      assert (n - 1) * limit <= n * limit;
    }
  }
}
