/** Building the browse path of a directory, and resolving a browse path back. */
module DirectoryPaths {
  import opened Prelude
  import opened Text

  type Id = string

  /** Live rows only. Root entries have no parent. */
  datatype Directory = Directory(id: Id, parent: Option<Id>, slug: string)

  datatype Material = Material(id: Id, directory: Option<Id>, slug: string, attachment: bool)

  // ── The tree ────────────────────────────────────────────────────────────────

  predicate SlugOk(slug: string) { slug != "" && '/' !in slug }

  /** The unique indexes on id, (parent, slug) and (directory, slug). */
  ghost predicate Unique(dirs: seq<Directory>)
  {
    forall i, j :: 0 <= i < j < |dirs| ==>
      dirs[i].id != dirs[j].id && !(dirs[i].parent == dirs[j].parent && dirs[i].slug == dirs[j].slug)
  }

  ghost predicate UniqueMaterials(ms: seq<Material>)
  {
    forall i, j :: 0 <= i < j < |ms| ==> !(ms[i].directory == ms[j].directory && ms[i].slug == ms[j].slug)
  }

  /** Parents are live and links are acyclic: `rank` grows towards the leaves. */
  ghost predicate Tree(dirs: seq<Directory>, rank: map<Id, nat>)
  {
    forall d :: d in dirs ==>
      && SlugOk(d.slug) && d.id in rank
      && (d.parent.Some? ==> exists p :: p in dirs && p.id == d.parent.value && p.id in rank && rank[p.id] < rank[d.id])
  }

  /** The row of an id. */
  function Lookup(dirs: seq<Directory>, id: Id): (d: Option<Directory>)
    ensures d.Some? ==> d.value in dirs && d.value.id == id
    ensures d.None? ==> forall e :: e in dirs ==> e.id != id
  {
    if dirs == [] then None
    else if dirs[|dirs| - 1].id == id then Some(dirs[|dirs| - 1])
    else Lookup(dirs[..|dirs| - 1], id)
  }

  /** One segment: the directory with that slug under `parent`. */
  function Child(dirs: seq<Directory>, parent: Option<Id>, slug: string): (c: Option<Id>)
    ensures c.Some? ==> exists d :: d in dirs && d.parent == parent && d.slug == slug && d.id == c.value
    ensures c.None? ==> forall d :: d in dirs ==> !(d.parent == parent && d.slug == slug)
  {
    if dirs == [] then None
    else if dirs[|dirs| - 1].parent == parent && dirs[|dirs| - 1].slug == slug then Some(dirs[|dirs| - 1].id)
    else Child(dirs[..|dirs| - 1], parent, slug)
  }

  function MaterialAt(ms: seq<Material>, directory: Option<Id>, slug: string): (m: Option<Id>)
    ensures m.Some? ==>
              exists x :: x in ms && x.directory == directory && x.slug == slug && !x.attachment && x.id == m.value
    ensures m.None? ==> forall x :: x in ms ==> !(x.directory == directory && x.slug == slug && !x.attachment)
  {
    if ms == [] then None
    else
      var last := ms[|ms| - 1];
      if last.directory == directory && last.slug == slug && !last.attachment then Some(last.id)
      else MaterialAt(ms[..|ms| - 1], directory, slug)
  }

  // ── Building a path ─────────────────────────────────────────────────────────

  /** Slugs from the root down to a directory. */
  ghost function PathOf(dirs: seq<Directory>, rank: map<Id, nat>, id: Id): (path: seq<string>)
    requires Tree(dirs, rank) && Lookup(dirs, id).Some?
    ensures path != [] && forall s :: s in path ==> SlugOk(s)
    decreases if id in rank then rank[id] else 0
  {
    var d := Lookup(dirs, id).value;
    if d.parent.None? then [d.slug] else PathOf(dirs, rank, d.parent.value) + [d.slug]
  }

  /** The recursive query: climb from the directory, listing slugs root first. */
  method GetDirectoryPath(dirs: seq<Directory>, id: Id, ghost rank: map<Id, nat>) returns (path: seq<string>)
    requires Tree(dirs, rank) && Lookup(dirs, id).Some?
    ensures path == PathOf(dirs, rank, id)
  {
    var d := Lookup(dirs, id).value;
    path := [d.slug];
    while d.parent.Some?
      invariant d in dirs && Lookup(dirs, d.id) == Some(d) && path != [] && path[0] == d.slug
      invariant PathOf(dirs, rank, id) == PathOf(dirs, rank, d.id) + path[1..]
      decreases rank[d.id]
    {
      var p := Lookup(dirs, d.parent.value).value;
      assert PathOf(dirs, rank, d.id) == PathOf(dirs, rank, p.id) + [d.slug];
      assert (PathOf(dirs, rank, p.id) + [d.slug]) + path[1..] == PathOf(dirs, rank, p.id) + path;
      path := [p.slug] + path;
      assert path[1..] == [d.slug] + path[2..];
      d := p;
    }
    assert [d.slug] + path[1..] == path;
  }

  function Join(slugs: seq<string>): string
    requires slugs != []
  {
    if |slugs| == 1 then slugs[0] else Join(slugs[..|slugs| - 1]) + "/" + slugs[|slugs| - 1]
  }

  function NonEmpty(parts: seq<string>): seq<string>
  {
    if parts == [] then []
    else
      var front := NonEmpty(parts[..|parts| - 1]);
      if parts[|parts| - 1] != "" then front + [parts[|parts| - 1]] else front
  }

  /** `[s for s in path.split("/") if s]`. */
  function Segments(path: string): seq<string> { NonEmpty(Parts(path)) }

  lemma SplitLast(front: string, last: string)
    requires '/' !in last
    ensures Parts(front + "/" + last) == Parts(front) + [last]
  {
    var s := front + "/" + last;
    forall j | |front| < j < |s| ensures s[j] != '/' { assert s[j] == last[j - |front| - 1]; }
    LastSlash(s, |front|);
    assert s[..|front|] == front && s[|front| + 1..] == last;
  }

  lemma {:induction false} PartsOfJoin(slugs: seq<string>)
    requires slugs != [] && forall s :: s in slugs ==> SlugOk(s)
    ensures Parts(Join(slugs)) == slugs && NonEmpty(slugs) == slugs
  {
    var front, last := slugs[..|slugs| - 1], slugs[|slugs| - 1];
    assert slugs == front + [last];
    assert last in slugs && SlugOk(last);
    if front == [] {
      LastSlash(last, -1);
      assert NonEmpty(front) == [];
    } else {
      PartsOfJoin(front);
      assert Join(slugs) == Join(front) + "/" + last;
      SplitLast(Join(front), last);
    }
  }

  // ── Resolving a path ────────────────────────────────────────────────────────

  datatype Outcome = Listing | Folder(id: Id) | Document(id: Id) | NotFound

  /** Looking segments up one at a time; a directory wins, and only the last may be a material. */
  function Walk(dirs: seq<Directory>, ms: seq<Material>, cur: Option<Id>, segments: seq<string>): Outcome
    decreases |segments|
  {
    if segments == [] then if cur.Some? then Folder(cur.value) else Listing
    else
      match Child(dirs, cur, segments[0])
      case Some(d) => Walk(dirs, ms, Some(d), segments[1..])
      case None =>
        if |segments| > 1 then NotFound
        else
          match MaterialAt(ms, cur, segments[0])
          case Some(m) => Document(m)
          case None => NotFound
  }

  /** `dir_map`: every directory whose slug occurs in the path, by parent and slug. */
  function Prefetch(dirs: seq<Directory>, slugs: set<string>): map<(Option<Id>, string), Id>
  {
    if dirs == [] then map[]
    else
      var front, d := Prefetch(dirs[..|dirs| - 1], slugs), dirs[|dirs| - 1];
      if d.slug in slugs then front[(d.parent, d.slug) := d.id] else front
  }

  /** `mat_map`: the materials with the last segment's slug, by directory. */
  function PrefetchMaterials(ms: seq<Material>, slug: string): map<Option<Id>, Id>
  {
    if ms == [] then map[]
    else
      var front, m := PrefetchMaterials(ms[..|ms| - 1], slug), ms[|ms| - 1];
      if m.slug == slug && !m.attachment then front[m.directory := m.id] else front
  }

  /** The prefetched maps answer every lookup of the walk. */
  lemma {:induction false} PrefetchIsChild(dirs: seq<Directory>, slugs: set<string>, parent: Option<Id>, slug: string)
    requires slug in slugs
    ensures var m := Prefetch(dirs, slugs);
            Child(dirs, parent, slug) == if (parent, slug) in m then Some(m[(parent, slug)]) else None
  {
    if dirs != [] { PrefetchIsChild(dirs[..|dirs| - 1], slugs, parent, slug); }
  }

  lemma {:induction false} PrefetchIsMaterialAt(ms: seq<Material>, directory: Option<Id>, slug: string)
    ensures var m := PrefetchMaterials(ms, slug);
            MaterialAt(ms, directory, slug) == if directory in m then Some(m[directory]) else None
  {
    if ms != [] { PrefetchIsMaterialAt(ms[..|ms| - 1], directory, slug); }
  }

  method ResolveBrowsePath(dirs: seq<Directory>, ms: seq<Material>, path: string) returns (r: Outcome)
    ensures r == Walk(dirs, ms, None, Segments(path))
  {
    var segments := Segments(path);
    if segments == [] { return Listing; }
    var slugs := set s | s in segments;
    var dirMap := Prefetch(dirs, slugs);
    var matMap := PrefetchMaterials(ms, segments[|segments| - 1]);
    var cur: Option<Id> := None;
    for i := 0 to |segments|
      invariant Walk(dirs, ms, cur, segments[i..]) == Walk(dirs, ms, None, segments)
      invariant i > 0 ==> cur.Some?
    {
      var segment := segments[i];
      assert segments[i..][0] == segment && segments[i..][1..] == segments[i + 1..];
      PrefetchIsChild(dirs, slugs, cur, segment);
      if (cur, segment) in dirMap {
        cur := Some(dirMap[(cur, segment)]);
        continue;
      }
      if i == |segments| - 1 {
        PrefetchIsMaterialAt(ms, cur, segment);
        if cur in matMap { return Document(matMap[cur]); }
      }
      return NotFound;
    }
    r := Folder(cur.value);
  }

  // ── Round trips ─────────────────────────────────────────────────────────────

  lemma ChildIs(dirs: seq<Directory>, d: Directory)
    requires Unique(dirs) && d in dirs
    ensures Child(dirs, d.parent, d.slug) == Some(d.id)
  {}

  /** Walking a directory's own path reaches it, whatever follows. */
  lemma {:induction false} WalkReaches(dirs: seq<Directory>, ms: seq<Material>, rank: map<Id, nat>, id: Id,
                                       rest: seq<string>)
    requires Tree(dirs, rank) && Unique(dirs) && Lookup(dirs, id).Some?
    ensures Walk(dirs, ms, None, PathOf(dirs, rank, id) + rest) == Walk(dirs, ms, Some(id), rest)
    decreases if id in rank then rank[id] else 0
  {
    var d := Lookup(dirs, id).value;
    ChildIs(dirs, d);
    var here := [d.slug] + rest;
    assert here[0] == d.slug && here[1..] == rest;
    assert Walk(dirs, ms, d.parent, here) == Walk(dirs, ms, Some(id), rest);
    if d.parent.Some? {
      var p := d.parent.value;
      WalkReaches(dirs, ms, rank, p, here);
      assert PathOf(dirs, rank, id) + rest == PathOf(dirs, rank, p) + here;
    }
  }

  /** Resolving the path built for a directory returns that directory. */
  lemma DirectoryRoundTrip(dirs: seq<Directory>, ms: seq<Material>, rank: map<Id, nat>, id: Id)
    requires Tree(dirs, rank) && Unique(dirs) && Lookup(dirs, id).Some?
    ensures Walk(dirs, ms, None, Segments(Join(PathOf(dirs, rank, id)))) == Folder(id)
  {
    var path := PathOf(dirs, rank, id);
    PartsOfJoin(path);
    WalkReaches(dirs, ms, rank, id, []);
    assert path + [] == path;
  }

  lemma MaterialIs(ms: seq<Material>, m: Material)
    requires UniqueMaterials(ms) && m in ms && !m.attachment
    ensures MaterialAt(ms, m.directory, m.slug) == Some(m.id)
  {}

  /** The browse path of a material: its directory's path, if any, and its slug. */
  ghost function MaterialPath(dirs: seq<Directory>, rank: map<Id, nat>, m: Material): seq<string>
    requires Tree(dirs, rank) && (m.directory.Some? ==> Lookup(dirs, m.directory.value).Some?)
  {
    (if m.directory.None? then [] else PathOf(dirs, rank, m.directory.value)) + [m.slug]
  }

  /** Resolving a material's path returns that material exactly when no sibling directory has its
      slug; otherwise it returns that directory. */
  lemma MaterialRoundTripIff(dirs: seq<Directory>, ms: seq<Material>, rank: map<Id, nat>, m: Material)
    requires Tree(dirs, rank) && Unique(dirs) && UniqueMaterials(ms)
    requires m in ms && !m.attachment && SlugOk(m.slug)
    requires m.directory.Some? ==> Lookup(dirs, m.directory.value).Some?
    ensures var r := Walk(dirs, ms, None, Segments(Join(MaterialPath(dirs, rank, m))));
            && (r == Document(m.id) <==> !exists d :: d in dirs && d.parent == m.directory && d.slug == m.slug)
            && (forall d :: d in dirs && d.parent == m.directory && d.slug == m.slug ==> r == Folder(d.id))
  {
    var path := MaterialPath(dirs, rank, m);
    PartsOfJoin(path);
    if m.directory.Some? { WalkReaches(dirs, ms, rank, m.directory.value, [m.slug]); }
    assert Walk(dirs, ms, None, path) == Walk(dirs, ms, m.directory, [m.slug]);
    MaterialIs(ms, m);
    forall d | d in dirs && d.parent == m.directory && d.slug == m.slug
      ensures Walk(dirs, ms, m.directory, [m.slug]) == Folder(d.id)
    {
      ChildIs(dirs, d);
    }
  }
}
