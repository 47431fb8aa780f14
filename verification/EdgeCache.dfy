/** The single-file route of the download worker, with and without an edge cache. */
module EdgeCache {
  import opened Prelude
  import opened Text

  type Key = string
  type Path = string
  type Headers = map<string, string>

  /** A stored object as one read returns it; `contentRange` is empty unless a range was honoured. */
  datatype Stored = Stored(metadata: Headers, etag: string, gzip: bool, contentRange: string, size: string,
                           body: string)

  datatype Fetch = Missing | Unsatisfiable(total: string) | Got(stored: Stored)

  /** What the handler runs on. Objects are immutable, so a read is a function of key and range
      (an empty range is no range). `decode` is percent-decoding; `""` marks absent header values. */
  datatype Source = Source(get: (Key, string) -> Fetch, gunzip: string -> string, decode: Path -> Option<Key>,
                           encode: string -> string)

  datatype Payload = Payload(key: Key, contentType: string, filename: string, forceDownload: bool)

  /** A request; no payload means that the token is absent, forged or expired. */
  datatype Request = Request(path: Path, payload: Option<Payload>, range: string)

  datatype Response = Response(status: nat, headers: Headers, body: string)

  // ── Ranges ──────────────────────────────────────────────────────────────────

  predicate AllDigits(s: string) { forall i :: 0 <= i < |s| ==> '0' <= s[i] <= '9' }

  function Value(s: string): nat
    requires AllDigits(s)
  {
    if s == "" then 0 else Value(s[..|s| - 1]) * 10 + (s[|s| - 1] as int - '0' as int)
  }

  /** The two captured groups, and their comparison when both are given. */
  predicate Bounds(first: string, last: string)
  {
    && AllDigits(first) && AllDigits(last) && (first != "" || last != "")
    && (first != "" && last != "" ==> Value(first) <= Value(last))
  }

  /** The regular expression and the comparison of `validSingleByteRange`. */
  predicate ValidRange(s: string)
  {
    |s| >= 6 && s[..6] == "bytes=" &&
    var rest := s[6..];
    var dash := LastIndex(rest, '-');
    dash >= 0 && Bounds(rest[..dash], rest[dash + 1..])
  }

  function RangeText(first: string, last: string): string { "bytes=" + (first + "-" + last) }

  lemma {:induction false} LastDash(s: string, i: nat)
    requires i < |s| && s[i] == '-' && forall j :: i < j < |s| ==> '0' <= s[j] <= '9'
    ensures LastIndex(s, '-') == i
  {}

  lemma DashIs(first: string, last: string)
    requires AllDigits(last)
    ensures LastIndex(first + "-" + last, '-') == |first|
  {
    var s := first + "-" + last;
    forall j | |first| < j < |s| ensures '0' <= s[j] <= '9' {
      assert s[j] == last[j - |first| - 1];
    }
    LastDash(s, |first|);
  }

  lemma RangeTextIsValid(first: string, last: string)
    requires Bounds(first, last)
    ensures ValidRange(RangeText(first, last))
  {
    var s, rest := RangeText(first, last), first + "-" + last;
    assert s[..6] == "bytes=" && s[6..] == rest;
    DashIs(first, last);
    assert rest[..|first|] == first && rest[|first| + 1..] == last;
  }

  /** Exactly the single ranges of RFC 9110, section 14.1.2: a first position with an optional last
      one not before it, or a suffix length. */
  lemma ValidRangeIff(s: string)
    ensures ValidRange(s) <==> exists first, last :: Bounds(first, last) && s == RangeText(first, last)
  {
    if ValidRange(s) {
      var rest := s[6..];
      var dash := LastIndex(rest, '-');
      var first, last := rest[..dash], rest[dash + 1..];
      assert rest == first + "-" + last;
      assert s == "bytes=" + rest;
      assert s == RangeText(first, last);
    }
    forall first, last | Bounds(first, last) && s == RangeText(first, last) ensures ValidRange(s) {
      RangeTextIsValid(first, last);
    }
  }

  // ── Token-specific headers ──────────────────────────────────────────────────

  function AsciiFallback(s: string): (r: string)
    ensures |r| == |s| && forall c :: c in r ==> ' ' <= c <= '~' && c != '"' && c != '\\'
  {
    if s == "" then ""
    else
      var c := s[|s| - 1];
      AsciiFallback(s[..|s| - 1]) + [if ' ' <= c <= '~' && c != '"' && c != '\\' then c else '_']
  }

  function Disposition(src: Source, p: Payload): string
  {
    var kind := if p.forceDownload then "attachment" else "inline";
    if p.filename == "" then kind
    else kind + "; filename=\"" + AsciiFallback(p.filename) + "\"; filename*=UTF-8''" + src.encode(p.filename)
  }

  function Override(src: Source, h: Headers, p: Payload): Headers
  {
    var typed := if p.contentType != "" then h["Content-Type" := p.contentType] else h;
    typed["Content-Disposition" := Disposition(src, p)]["Cache-Control" := "private, no-store"]
         ["Referrer-Policy" := "no-referrer"]["X-Content-Type-Options" := "nosniff"]
  }

  function Personal(src: Source, r: Response, p: Payload): Response
  {
    Response(r.status, Override(src, r.headers["Access-Control-Allow-Origin" := "*"], p), r.body)
  }

  // ── The handler ─────────────────────────────────────────────────────────────

  function Plain(status: nat): Response { Response(status, map[], "") }

  function RangeError(total: string): Response { Response(416, map["Content-Range" := "bytes */" + total], "") }

  /** The response before token-specific headers. */
  function Render(src: Source, o: Stored, ranged: bool): Response
  {
    var tagged := if o.etag != "" then o.metadata["etag" := o.etag] else o.metadata;
    var base := tagged["Accept-Ranges" := if o.gzip then "none" else "bytes"]
                      ["Cache-Control" := "public, max-age=2592000"];
    var plain := if o.gzip then base - {"content-encoding", "content-length"} else base;
    var open := plain["Access-Control-Allow-Origin" := "*"];
    var sized := if ranged && o.contentRange != "" then
                   var withRange := open["Content-Range" := o.contentRange];
                   if o.size != "" then withRange["Content-Length" := o.size] else withRange
                 else open;
    Response(if ranged then 206 else 200, sized, if o.gzip then src.gunzip(o.body) else o.body)
  }

  /** The outcome of going to storage: the shared response, whether it is a full one, or an error. */
  datatype Origin = Failed(error: Response) | Fetched(response: Response, full: bool)

  /** `caught` says whether the read stands where an unsatisfiable range is turned into an answer. */
  function FetchFull(src: Source, key: Key, caught: bool): Origin
  {
    match src.get(key, "")
    case Missing => Failed(Plain(404))
    case Unsatisfiable(total) => Failed(if caught then RangeError(total) else Plain(500))
    case Got(o) => Fetched(Render(src, o, false), true)
  }

  /** A range of an object stored compressed is answered with the whole of it, decompressed. */
  function FetchOrigin(src: Source, key: Key, range: string): Origin
  {
    match src.get(key, range)
    case Missing => Failed(Plain(404))
    case Unsatisfiable(total) => Failed(RangeError(total))
    case Got(o) =>
      if range == "" then Fetched(Render(src, o, false), true)
      else if o.gzip then FetchFull(src, key, false)
      else if o.contentRange == "" then Failed(Plain(502))
      else Fetched(Render(src, o, true), false)
  }

  /** The checks that come before the cache. */
  function Refused(src: Source, q: Request): Option<Response>
  {
    if q.payload.None? then Some(Plain(401))
    else if q.payload.value.key == "" then Some(Plain(400))
    else
      match src.decode(q.path)
      case None => Some(Plain(400))
      case Some(key) =>
        if key != q.payload.value.key then Some(Plain(403))
        else if q.range != "" && !ValidRange(q.range) then Some(RangeError("*"))
        else None
  }

  type Cache = map<Path, Response>

  /** The handler with a cache: its answer, and the entry it puts. */
  function Cached(src: Source, cache: Cache, q: Request): (Response, Option<Response>)
  {
    var refused := Refused(src, q);
    if refused.Some? then (refused.value, None)
    else
      var p := q.payload.value;
      if q.range == "" && q.path in cache then (Personal(src, cache[q.path], p), None)
      else
        match FetchOrigin(src, p.key, q.range)
        case Failed(error) => (error, None)
        case Fetched(response, full) =>
          (Personal(src, response, p), if full then Some(response) else None)
  }

  /** The handler without one. */
  function Uncached(src: Source, q: Request): Response
  {
    var refused := Refused(src, q);
    if refused.Some? then refused.value
    else
      match FetchOrigin(src, q.payload.value.key, q.range)
      case Failed(error) => error
      case Fetched(response, _) => Personal(src, response, q.payload.value)
  }

  // ── Runs ────────────────────────────────────────────────────────────────────

  /** Puts are deferred and may never land; entries may be evicted at any time. */
  datatype World = World(cache: Cache, puts: set<(Path, Response)>)

  datatype Step = Serve(request: Request) | Land(path: Path, response: Response) | Evict(path: Path)

  function Next(src: Source, w: World, s: Step): World
  {
    match s
    case Serve(q) =>
      var put := Cached(src, w.cache, q).1;
      if put.Some? then w.(puts := w.puts + {(q.path, put.value)}) else w
    case Land(p, r) => if (p, r) in w.puts then World(w.cache[p := r], w.puts - {(p, r)}) else w
    case Evict(p) => w.(cache := w.cache - {p})
  }

  function Run(src: Source, steps: seq<Step>): World
  {
    if steps == [] then World(map[], {}) else Next(src, Run(src, steps[..|steps| - 1]), steps[|steps| - 1])
  }

  /** The one response an entry of a path may hold: whole, decompressed, and no token's. */
  ghost predicate Canonical(src: Source, path: Path, r: Response)
  {
    src.decode(path).Some? && FetchFull(src, src.decode(path).value, true) == Fetched(r, true)
  }

  ghost predicate Inv(src: Source, w: World)
  {
    && (forall p :: p in w.cache ==> Canonical(src, p, w.cache[p]))
    && (forall put :: put in w.puts ==> Canonical(src, put.0, put.1))
  }

  lemma ServePutsCanonical(src: Source, cache: Cache, q: Request)
    ensures var put := Cached(src, cache, q).1; put.Some? ==> Canonical(src, q.path, put.value)
  {}

  lemma {:induction false} RunKeepsInv(src: Source, steps: seq<Step>)
    ensures Inv(src, Run(src, steps))
  {
    if steps != [] {
      RunKeepsInv(src, steps[..|steps| - 1]);
      var w, s := Run(src, steps[..|steps| - 1]), steps[|steps| - 1];
      if s.Serve? { ServePutsCanonical(src, w.cache, s.request); }
    }
  }

  /** After any requests, late puts and evictions, the handler with a cache answers every request
      exactly as the handler without one. */
  lemma CacheIsInvisible(src: Source, steps: seq<Step>, q: Request)
    ensures Cached(src, Run(src, steps).cache, q).0 == Uncached(src, q)
  {
    RunKeepsInv(src, steps);
    var cache := Run(src, steps).cache;
    if q.path in cache { assert Canonical(src, q.path, cache[q.path]); }
  }

  /** Every entry is a complete, decompressed response that no token has touched. */
  lemma EntriesAreShared(src: Source, steps: seq<Step>, path: Path)
    requires path in Run(src, steps).cache
    ensures src.decode(path).Some? && src.get(src.decode(path).value, "").Got?
    ensures var r := Run(src, steps).cache[path];
            var o := src.get(src.decode(path).value, "").stored;
            && r.status == 200
            && r.body == (if o.gzip then src.gunzip(o.body) else o.body)
            && "Cache-Control" in r.headers && r.headers["Cache-Control"] == "public, max-age=2592000"
            && (o.gzip ==> "content-encoding" !in r.headers)
  {
    RunKeepsInv(src, steps);
    assert Canonical(src, path, Run(src, steps).cache[path]);
  }

  const TOKEN_HEADERS: set<string> :=
    {"Content-Type", "Content-Disposition", "Cache-Control", "Referrer-Policy", "X-Content-Type-Options"}

  /** Same status, same body, and headers that differ at most in the ones a token decides, which are
      those of `p`. */
  ghost predicate SharedObject(src: Source, p: Payload, r: Response, r': Response)
  {
    && r.status == r'.status && r.body == r'.body
    && (forall h :: h !in TOKEN_HEADERS ==>
          (h in r.headers <==> h in r'.headers) && (h in r.headers ==> r.headers[h] == r'.headers[h]))
    && (r'.status in {200, 206} ==>
          && "Content-Disposition" in r'.headers && r'.headers["Content-Disposition"] == Disposition(src, p)
          && "Cache-Control" in r'.headers && r'.headers["Cache-Control"] == "private, no-store")
  }

  lemma PersonalShares(src: Source, r: Response, p: Payload, p': Payload)
    requires p.key == p'.key
    ensures SharedObject(src, p', Personal(src, r, p), Personal(src, r, p'))
  {}

  lemma UncachedShares(src: Source, q: Request, p: Payload)
    requires q.payload.Some? && q.payload.value.key == p.key
    ensures SharedObject(src, p, Uncached(src, q), Uncached(src, q.(payload := Some(p))))
  {
    var q' := q.(payload := Some(p));
    assert Refused(src, q) == Refused(src, q');
    if Refused(src, q).None? {
      match FetchOrigin(src, p.key, q.range)
      case Failed(error) =>
      case Fetched(response, _) => PersonalShares(src, response, q.payload.value, p);
    }
  }

  /** Two tokens for one object get the same status and body, and headers that differ at most in the
      ones a token decides; whatever the cache holds, those come from the token presented. */
  lemma TokensShareTheObject(src: Source, steps: seq<Step>, q: Request, p: Payload)
    requires q.payload.Some? && q.payload.value.key == p.key
    ensures var cache := Run(src, steps).cache;
            var r, r' := Cached(src, cache, q).0, Cached(src, cache, q.(payload := Some(p))).0;
            SharedObject(src, p, r, r')
  {
    CacheIsInvisible(src, steps, q);
    CacheIsInvisible(src, steps, q.(payload := Some(p)));
    UncachedShares(src, q, p);
  }

  /** What a valid range gets: the slice and its Content-Range when storage honours it; the whole
      object, decompressed, with no range when it is stored compressed; an error when storage ignores
      the range or finds it unsatisfiable. */
  lemma RangeAnswer(src: Source, steps: seq<Step>, q: Request)
    requires Refused(src, q).None? && q.range != "" && src.get(q.payload.value.key, q.range).Got?
    ensures var r := Cached(src, Run(src, steps).cache, q).0;
            var o := src.get(q.payload.value.key, q.range).stored;
            && (!o.gzip && o.contentRange != "" ==>
                  r.status == 206 && r.body == o.body
                  && "Content-Range" in r.headers && r.headers["Content-Range"] == o.contentRange)
            && (!o.gzip && o.contentRange == "" ==> r.status == 502)
            && (o.gzip && src.get(q.payload.value.key, "").Got? ==>
                  var whole := src.get(q.payload.value.key, "").stored;
                  r.status == 200 && r.body == if whole.gzip then src.gunzip(whole.body) else whole.body)
  {
    CacheIsInvisible(src, steps, q);
  }
}

/** The handler as it runs. */
module EdgeWorker {
  import opened Prelude
  import opened EdgeCache

  class Worker {
    const src: Source
    const cacheEnabled: bool
    var cache: Cache

    constructor (src: Source, cacheEnabled: bool)
      ensures this.src == src && this.cacheEnabled == cacheEnabled && cache == map[]
    {
      this.src, this.cacheEnabled, cache := src, cacheEnabled, map[];
    }

    /** The response built from a stored object, before any token touches it. */
    method Shared(stored: Stored, ranged: bool) returns (r: Response)
      ensures r == Render(src, stored, ranged)
    {
      var headers := stored.metadata;
      if stored.etag != "" { headers := headers["etag" := stored.etag]; }
      headers := headers["Accept-Ranges" := if stored.gzip then "none" else "bytes"];
      headers := headers["Cache-Control" := "public, max-age=2592000"];
      var body := stored.body;
      if stored.gzip {
        body := src.gunzip(body);
        headers := headers - {"content-encoding", "content-length"};
      }
      headers := headers["Access-Control-Allow-Origin" := "*"];
      if ranged && stored.contentRange != "" {
        headers := headers["Content-Range" := stored.contentRange];
        if stored.size != "" { headers := headers["Content-Length" := stored.size]; }
      }
      r := Response(if ranged then 206 else 200, headers, body);
    }

    method HandleFile(q: Request) returns (r: Response)
      modifies this`cache
      ensures cacheEnabled ==>
                var spec := Cached(src, old(cache), q);
                r == spec.0 && cache == if spec.1.Some? then old(cache)[q.path := spec.1.value] else old(cache)
      ensures !cacheEnabled ==> r == Uncached(src, q) && cache == old(cache)
    {
      if q.payload.None? { return Plain(401); }
      var payload := q.payload.value;
      if payload.key == "" { return Plain(400); }
      var requested := src.decode(q.path);
      if requested.None? { return Plain(400); }
      if requested.value != payload.key { return Plain(403); }
      var range := q.range;
      if range != "" && !ValidRange(range) { return RangeError("*"); }
      var response: Option<Response> := None;
      if cacheEnabled && range == "" && q.path in cache { response := Some(cache[q.path]); }
      if response.None? {
        var fetch := src.get(payload.key, range);
        if fetch.Unsatisfiable? { return RangeError(fetch.total); }
        if fetch.Missing? { return Plain(404); }
        var stored := fetch.stored;
        if range != "" && stored.gzip {
          var whole := src.get(payload.key, "");
          if whole.Unsatisfiable? { return Plain(500); }
          if whole.Missing? { return Plain(404); }
          stored, range := whole.stored, "";
        }
        if range != "" && stored.contentRange == "" { return Plain(502); }
        var rendered := Shared(stored, range != "");
        response := Some(rendered);
        if cacheEnabled && range == "" { cache := cache[q.path := response.value]; }
      }
      r := Personal(src, response.value, payload);
    }
  }
}
