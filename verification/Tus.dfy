/** The tus 1.0.0 upload resource over one S3 multipart upload.

    A world is everything one upload owns: its Redis hash, its `uploads` row, the
    cancellation marker and its multipart upload.  Requests are serialised by the tus
    lock and the lifecycle lock, so a request is one step; every external call inside
    it carries an `Io` outcome, which is how crashes, lost responses and retries enter.
    The journal is history only: no decision reads it. */
module Tus {
  import opened Prelude

  const MAGIC_HEADER_SIZE := 2048
  const S3_MIN_PART_BYTES := 5 * 1024 * 1024

  type Byte = b: int | 0 <= b < 256
  type Bytes = seq<Byte>
  type Id = string

  datatype Settings = Settings(chunkMin: int, chunkMax: int)

  /** S3 returns an entity tag that identifies the bytes of the part; the model uses
      the bytes themselves as the tag. */
  datatype PartRef = PartRef(number: nat, etag: Bytes)

  datatype Hash = Hash(user: Id, offset: nat, length: nat, parts: seq<PartRef>,
                       finalizing: bool, multipartCompleted: bool, enqueued: bool,
                       cancelled: bool, sniffed: bool)

  datatype Status = Pending | Processing | Clean | Failed | Malicious | Applied | Cancelled

  datatype S3 = S3(open: bool, parts: map<nat, Bytes>, blob: Option<Bytes>)

  datatype Job = TusProcess(uploadId: Id)

  datatype Event =
    | Recorded(data: Bytes)             // a chunk entered the offset and the manifest
    | Verified(bytes: Bytes)           // the completed object was probed at the declared size
    | Enqueued(job: Job, size: nat)     // the processing job reached the queue
    | CancelSet                         // the cancelled flag was written
    | Aborted                           // a refused completion aborted the multipart upload
    | Swept                             // cleanup deleted the object before any job was queued

  /** Everything that happened to one upload, newest event outermost. */
  datatype Journal = Nothing | Then(prior: Journal, last: Event)

  datatype World = World(uploadId: Id, length: nat, hash: Option<Hash>, marker: bool,
                         status: Status, s3: S3, journal: Journal)

  datatype Response =
    | NoContent(offset: nat)
    | HeadOk(offset: nat, length: nat)
    | FileKey(offset: nat)              // carries X-Lectern-File-Key
    | Terminated
    | BadRequest | NotFound | Forbidden | Conflict | OffsetMismatch | ChecksumMismatch
    | Unavailable
    | Crashed                           // an external call raised or the process died

  function Log(w: World, e: Event): World { w.(journal := Then(w.journal, e)) }

  // ── S3 multipart upload ─────────────────────────────────────────────────────

  function Flatten(chunks: seq<Bytes>): Bytes
  {
    if chunks == [] then [] else Flatten(chunks[..|chunks| - 1]) + chunks[|chunks| - 1]
  }

  function Tags(parts: seq<PartRef>): seq<Bytes>
  {
    seq(|parts|, i requires 0 <= i < |parts| => parts[i].etag)
  }

  /** What S3 demands of a completion: a live upload, consecutive known parts with
      matching tags, and no part but the last below the minimum part size. */
  predicate Completable(s3: S3, parts: seq<PartRef>)
  {
    && s3.open && |parts| > 0
    && (forall i :: 0 <= i < |parts| ==>
          parts[i].number == i + 1 && parts[i].number in s3.parts && s3.parts[parts[i].number] == parts[i].etag)
    && (forall i :: 0 <= i < |parts| - 1 ==> |parts[i].etag| >= S3_MIN_PART_BYTES)
  }

  datatype CompleteIo = CompleteIo(call: Io, ambiguous: bool, probeUp: bool, delete: Io)
  datatype Completion = Complete | Retryable | Definitive

  /** One completion call, then the authoritative size probe. */
  function CompleteVerified(s3: S3, parts: seq<PartRef>, expected: nat, io: CompleteIo): (S3, Completion)
  {
    var accepted := io.call.Applied() && Completable(s3, parts);
    var s1 := if accepted then S3(false, map[], Some(Flatten(Tags(parts)))) else s3;
    var failed := !(accepted && io.call.Done?);
    // A refusal that reached the caller is definitive; a transport error may not be.
    var ambiguous := !io.call.Done? && io.ambiguous;
    if !io.probeUp then (s1, Retryable)
    else if s1.blob.Some? then
      if |s1.blob.value| != expected then
        (if io.delete.Applied() then s1.(blob := None) else s1,
         if io.delete.Done? then Definitive else Retryable)
      else (s1, Complete)
    else if !failed then (s1, Retryable)
    else (s1, if ambiguous then Retryable else Definitive)
  }

  // ── Request steps ───────────────────────────────────────────────────────────

  function LoadState(w: World, user: Id, allowCancelled: bool): Result<Hash, Response>
  {
    match w.hash
    case None => Err(NotFound)
    case Some(h) =>
      if h.user != user then Err(Forbidden)
      else if h.cancelled && !allowCancelled then Err(Conflict)
      else Ok(h)
  }

  predicate IsCancelled(w: World, h: Hash)
  {
    h.cancelled || w.marker || w.status in {Cancelled, Failed, Malicious, Applied}
  }

  /** What others do to the row without holding a lock: cleanup fails a row that is still pending
      after two hours, cancellation can come from another endpoint, and from the first enqueued job
      on the worker and the contribution services move it.  Nothing overwrites a cancellation. */
  predicate RowMayBecome(w: World, st: Status)
  {
    st != Pending && w.status != Cancelled
    && (SawEnqueued(w.journal) || st == Cancelled || (st == Failed && w.status == Pending))
  }

  function Drift(w: World, d: Option<Status>): World
  {
    if d.Some? && RowMayBecome(w, d.value) then w.(status := d.value) else w
  }

  datatype FinalizeIo = FinalizeIo(complete: CompleteIo, abort: Io, drop: Io, rowWrite: Io,
                                   drift1: Option<Status>, completedWrite: Io,
                                   drift2: Option<Status>, enqueue: Io, tombstone: Io)

  function CleanupFailedCompletion(w: World, io: FinalizeIo): (World, Response)
  {
    var w1 := if io.abort.Applied() then Log(w.(s3 := w.s3.(open := false, parts := map[])), Aborted) else w;
    var w2 := if io.drop.Applied() then w1.(hash := None) else w1;
    if !io.drop.Done? then (w2, Crashed)
    else
      var w3 := if io.rowWrite.Applied() && w2.status != Cancelled then w2.(status := Failed) else w2;
      (w3, if io.rowWrite.Done? then BadRequest else Crashed)
  }

  function EnqueueStage(w: World, h: Hash, io: FinalizeIo): (World, Response)
  {
    var w0 := Drift(w, io.drift2);
    if IsCancelled(w0, h) then (w0, Conflict)
    else
      var w1 := if io.enqueue.Applied() then Log(w0, Enqueued(TusProcess(w.uploadId), h.length)) else w0;
      if !io.enqueue.Done? then (w1, Crashed)
      else
        var h2 := h.(enqueued := true, multipartCompleted := true, finalizing := false);
        var w2 := if io.tombstone.Applied() then w1.(hash := Some(h2)) else w1;
        (w2, if io.tombstone.Done? then FileKey(h.offset) else Crashed)
  }

  function Finalize(w: World, h: Hash, io: FinalizeIo): (World, Response)
  {
    if IsCancelled(w, h) then (w, Conflict)
    else if h.enqueued then (w, FileKey(h.offset))
    else if h.multipartCompleted then EnqueueStage(w, h, io)
    else if h.parts == [] then (w, Unavailable)
    else
      var (s1, outcome) := CompleteVerified(w.s3, h.parts, h.length, io.complete);
      var w1 := w.(s3 := s1);
      match outcome
      case Retryable => (w1, Unavailable)
      case Definitive => CleanupFailedCompletion(w1, io)
      case Complete => CompletedStage(w1, h, io)
  }

  /** The object was probed at the declared size: persist that, then enqueue. */
  function CompletedStage(w: World, h: Hash, io: FinalizeIo): (World, Response)
    requires w.s3.blob.Some?
  {
    var w1 := Drift(Log(w, Verified(w.s3.blob.value)), io.drift1);
    if IsCancelled(w1, h) then (w1, Conflict)
    else
      var h2 := h.(multipartCompleted := true, finalizing := false);
      var w2 := if io.completedWrite.Applied() then w1.(hash := Some(h2)) else w1;
      if io.completedWrite.Done? then EnqueueStage(w2, h2, io) else (w2, Crashed)
  }

  function HeadStep(w: World, user: Id, io: FinalizeIo): (World, Response)
  {
    match LoadState(w, user, false)
    case Err(r) => (w, r)
    case Ok(h) =>
      if h.offset == h.length && (h.finalizing || h.multipartCompleted) then Finalize(w, h, io)
      else (w, HeadOk(h.offset, h.length))
  }

  datatype PatchIo = PatchIo(sniffWrite: Io, partWrite: Io, stateWrite: Io, fin: FinalizeIo)

  /** The part of PATCH that runs under both locks, on a body already read in full. */
  function PatchStep(cfg: Settings, w: World, user: Id, clientOffset: int, data: Bytes,
                     mimeMismatch: bool, io: PatchIo): (World, Response)
  {
    match LoadState(w, user, false)
    case Err(r) => (w, r)
    case Ok(h0) =>
      var isFinal := h0.offset + |data| == h0.length;
      var sniffs := !h0.sniffed && h0.offset == 0 && |data| > 0 && (|data| >= MAGIC_HEADER_SIZE || isFinal);
      if clientOffset != h0.offset then (w, OffsetMismatch)
      else if sniffs && mimeMismatch then (w, BadRequest)
      else
        var h := if sniffs && io.sniffWrite.Applied() then h0.(sniffed := true) else h0;
        var w1 := w.(hash := Some(h));
        if sniffs && !io.sniffWrite.Done? then (w1, Crashed)
        else if IsCancelled(w1, h) then (w1, Conflict)
        else if |data| == 0 then
          if h.offset == h.length then Finalize(w1, h, io.fin) else (w1, NoContent(h.offset))
        else if h.offset + |data| > h.length then (w1, BadRequest)
        else if !isFinal && |data| < cfg.chunkMin then (w1, BadRequest)
        else RecordChunk(w1, h, data, io)
  }

  /** Store the next part, then advance offset and manifest in one Redis write. */
  function RecordChunk(w: World, h: Hash, data: Bytes, io: PatchIo): (World, Response)
  {
    var number := |h.parts| + 1;
    var stored := w.s3.open && io.partWrite.Applied();
    var w1 := if stored then w.(s3 := w.s3.(parts := w.s3.parts[number := data])) else w;
    if !(stored && io.partWrite.Done?) then (w1, Crashed)
    else
      var h2 := Advanced(h, data);
      var w2 := if io.stateWrite.Applied() then Log(w1.(hash := Some(h2)), Recorded(data)) else w1;
      if !io.stateWrite.Done? then (w2, Crashed)
      else if h2.offset == h2.length then Finalize(w2, h2, io.fin)
      else (w2, NoContent(h2.offset))
  }

  function Advanced(h: Hash, data: Bytes): Hash
  {
    var offset := h.offset + |data|;
    h.(offset := offset, parts := h.parts + [PartRef(|h.parts| + 1, data)],
       finalizing := h.finalizing || offset == h.length)
  }

  /** What the shared cancellation may have achieved by the time it returns or raises: the row is
      committed first, then the marker, then the storage cleanup. */
  datatype CancelOutcome =
    | Refused                                              // claimed by an open contribution
    | Partial(row: bool, marker: bool, aborted: bool, deleted: bool)
    | CancelDone

  datatype DeleteIo = DeleteIo(flagWrite: Io, cancel: CancelOutcome, drop: Io)

  /** An applied upload is always refused. */
  function Reached(w: World, c: CancelOutcome): CancelOutcome
  {
    if w.status == Applied then Refused else c
  }

  function ApplyCancel(w: World, c: CancelOutcome): World
  {
    match Reached(w, c)
    case Refused => w
    case Partial(row, marker, aborted, deleted) =>
      if !row then w
      else
        w.(status := Cancelled, marker := w.marker || marker,
           s3 := S3(w.s3.open && !aborted,
                    if aborted then map[] else w.s3.parts,
                    if deleted then None else w.s3.blob))
    case CancelDone => w.(status := Cancelled, marker := true, s3 := S3(false, map[], None))
  }

  function DeleteStep(w: World, user: Id, io: DeleteIo): (World, Response)
  {
    match LoadState(w, user, true)
    case Err(r) => (w, r)
    case Ok(h) =>
      var w1 := if io.flagWrite.Applied() then Log(w.(hash := Some(h.(cancelled := true))), CancelSet) else w;
      if !io.flagWrite.Done? then (w1, Crashed)
      else
        var w2 := ApplyCancel(w1, io.cancel);
        match Reached(w1, io.cancel)
        case Refused => (w2, Conflict)
        case Partial(_, _, _, _) => (w2, Unavailable)
        case CancelDone =>
          (if io.drop.Applied() then w2.(hash := None) else w2, if io.drop.Done? then Terminated else Crashed)
  }

  // ── Runs ────────────────────────────────────────────────────────────────────

  datatype Step =
    | Head(user: Id, fin: FinalizeIo)
    | Patch(user: Id, clientOffset: int, data: Bytes, mimeMismatch: bool, patch: PatchIo)
    | Delete(user: Id, delete: DeleteIo)
    | Expire                       // the Redis hash reached its TTL
    | Sweep(aborts: bool, deletes: bool)   // the cleanup job aborted the multipart, or deleted the object
    | Consume                      // the worker moved the quarantine object away
    | RowBecomes(status: Status)   // cleanup, a worker or a contribution changed the row
    | CancelElsewhere(outcome: CancelOutcome)   // another endpoint cancelled the upload

  /** The cleanup job fails every row still pending after two hours before it aborts multipart uploads
      older than a day, so it aborts none that belongs to a pending row.  Its scan for old objects reads
      no row and takes a second two-hour cutoff, later than the first, so it can also delete the object
      of a row that is still pending. */
  function SweepStep(w: World, aborts: bool, deletes: bool): World
  {
    var aborted := aborts && w.status != Pending;
    var w1 := w.(s3 := S3(w.s3.open && !aborted, if aborted then map[] else w.s3.parts,
                          if deletes then None else w.s3.blob));
    if deletes && w.s3.blob.Some? && !SawEnqueued(w.journal) then Log(w1, Swept) else w1
  }

  function Next(cfg: Settings, w: World, s: Step): World
  {
    match s
    case Head(u, io) => HeadStep(w, u, io).0
    case Patch(u, off, data, mm, io) => PatchStep(cfg, w, u, off, data, mm, io).0
    case Delete(u, io) => DeleteStep(w, u, io).0
    case Expire => w.(hash := None)
    case Sweep(aborts, deletes) => SweepStep(w, aborts, deletes)
    case Consume => if SawEnqueued(w.journal) then w.(s3 := w.s3.(blob := None)) else w
    case RowBecomes(st) => Drift(w, Some(st))
    case CancelElsewhere(c) => ApplyCancel(w, c)
  }

  function Run(cfg: Settings, w: World, steps: seq<Step>): World
    decreases |steps|
  {
    if steps == [] then w else Run(cfg, Next(cfg, w, steps[0]), steps[1..])
  }

  /** The world just after a successful creation: the hash, the row and the multipart exist. */
  function Created(uploadId: Id, user: Id, length: nat): World
  {
    World(uploadId, length, Some(Hash(user, 0, length, [], false, false, false, false, false)),
          false, Pending, S3(true, map[], None), Nothing)
  }

  // ── The invariant ───────────────────────────────────────────────────────────

  /** The chunks that were ever recorded, oldest first. */
  function Chunks(j: Journal): seq<Bytes>
  {
    match j
    case Nothing => []
    case Then(prior, e) => if e.Recorded? then Chunks(prior) + [e.data] else Chunks(prior)
  }

  predicate SawVerified(j: Journal) { j.Then? && (j.last.Verified? || SawVerified(j.prior)) }
  predicate SawEnqueued(j: Journal) { j.Then? && (j.last.Enqueued? || SawEnqueued(j.prior)) }
  predicate SawCancel(j: Journal) { j.Then? && (j.last.CancelSet? || SawCancel(j.prior)) }

  /** What each event says about the events before it. */
  ghost predicate Ordered(uploadId: Id, length: nat, j: Journal)
  {
    match j
    case Nothing => true
    case Then(prior, e) =>
      && Ordered(uploadId, length, prior)
      && match e
         case Recorded(data) => !SawVerified(prior) && |Flatten(Chunks(prior))| + |data| <= length
         case Verified(bytes) => bytes == Flatten(Chunks(prior)) && |bytes| == length
         case Enqueued(job, size) =>
           job == TusProcess(uploadId) && size == length && SawVerified(prior) && !SawCancel(prior)
         case CancelSet => true
         case Aborted => true
         case Swept => !SawEnqueued(prior)
  }

  /** The manifest names parts 1..n in order, tagged with the recorded chunks; every chunk
      but one that completes the upload has at least the minimum size. */
  ghost predicate ManifestOk(cfg: Settings, w: World, h: Hash)
  {
    var chunks := Chunks(w.journal);
    && h.length == w.length
    && |h.parts| == |chunks|
    && (forall i :: 0 <= i < |chunks| ==> h.parts[i] == PartRef(i + 1, chunks[i]))
    && h.offset == |Flatten(chunks)|
    && (forall i :: 0 <= i < |chunks| ==>
          |chunks[i]| > 0 && (|chunks[i]| >= cfg.chunkMin || (i == |chunks| - 1 && h.offset == h.length)))
  }

  ghost predicate FlagsOk(cfg: Settings, w: World, h: Hash)
  {
    && (h.offset == h.length <==> h.finalizing || h.multipartCompleted)
    && (h.enqueued ==> h.multipartCompleted)
    && (h.multipartCompleted ==> SawVerified(w.journal))
    && (h.enqueued ==> SawEnqueued(w.journal))
    && (SawCancel(w.journal) ==> h.cancelled)
    && (SawVerified(w.journal) ==> h.offset == h.length)
    && (cfg.chunkMin >= MAGIC_HEADER_SIZE && h.offset > 0 ==> h.sniffed)
  }

  ghost predicate StoreOk(w: World)
  {
    var chunks := Chunks(w.journal);
    && (w.s3.blob.Some? ==> w.s3.blob.value == Flatten(chunks) && |Flatten(chunks)| == w.length)
    && (w.s3.open ==> w.s3.blob.None? &&
                      forall n :: 1 <= n <= |chunks| ==> n in w.s3.parts && w.s3.parts[n] == chunks[n - 1])
  }

  ghost predicate Inv(cfg: Settings, w: World)
  {
    && w.length > 0
    && Ordered(w.uploadId, w.length, w.journal)
    && StoreOk(w)
    && (w.hash.Some? ==> ManifestOk(cfg, w, w.hash.value) && FlagsOk(cfg, w, w.hash.value))
  }

  lemma FlattenAppend(cs: seq<Bytes>, c: Bytes)
    ensures Flatten(cs + [c]) == Flatten(cs) + c
  {}

  /** Completing the recorded manifest can only publish the recorded chunks. */
  lemma CompletionPublishesChunks(cfg: Settings, w: World, h: Hash, io: CompleteIo)
    requires Inv(cfg, w) && w.hash == Some(h) && h.offset == h.length
    ensures var (s1, outcome) := CompleteVerified(w.s3, h.parts, h.length, io);
            && StoreOk(w.(s3 := s1))
            && (outcome == Complete ==> s1.blob == Some(Flatten(Chunks(w.journal))))
  {
    assert Tags(h.parts) == Chunks(w.journal);
  }

  lemma LogEnqueued(cfg: Settings, w: World, h: Hash)
    requires Inv(cfg, w) && w.hash == Some(h) && h.multipartCompleted && !h.cancelled
    ensures var w' := Log(w, Enqueued(TusProcess(w.uploadId), h.length));
            Inv(cfg, w') && SawEnqueued(w'.journal)
  {}

  lemma LogVerified(cfg: Settings, w: World, h: Hash)
    requires Inv(cfg, w) && w.hash == Some(h) && h.offset == h.length
    requires w.s3.blob == Some(Flatten(Chunks(w.journal)))
    ensures var w' := Log(w, Verified(w.s3.blob.value)); Inv(cfg, w') && SawVerified(w'.journal)
  {}

  lemma LogCancel(cfg: Settings, w: World, h: Hash)
    requires Inv(cfg, w) && w.hash == Some(h)
    ensures Inv(cfg, Log(w.(hash := Some(h.(cancelled := true))), CancelSet))
  {}

  lemma LogRecorded(cfg: Settings, w: World, h: Hash, data: Bytes)
    requires Inv(cfg, w) && w.hash == Some(h)
    requires 0 < |data| && h.offset + |data| <= h.length
    requires |data| >= cfg.chunkMin || h.offset + |data| == h.length
    requires cfg.chunkMin >= MAGIC_HEADER_SIZE ==> h.sniffed
    requires w.s3.open && |h.parts| + 1 in w.s3.parts && w.s3.parts[|h.parts| + 1] == data
    ensures Inv(cfg, Log(w.(hash := Some(Advanced(h, data))), Recorded(data)))
  {}

  lemma MarkEnqueued(cfg: Settings, w: World, h: Hash)
    requires Inv(cfg, w) && w.hash == Some(h) && h.multipartCompleted && SawEnqueued(w.journal)
    ensures Inv(cfg, w.(hash := Some(h.(enqueued := true, multipartCompleted := true, finalizing := false))))
  {}

  lemma MarkCompleted(cfg: Settings, w: World, h: Hash)
    requires Inv(cfg, w) && w.hash == Some(h) && h.offset == h.length && SawVerified(w.journal)
    ensures Inv(cfg, w.(hash := Some(h.(multipartCompleted := true, finalizing := false))))
  {}

  lemma EnqueueStageKeepsInv(cfg: Settings, w: World, h: Hash, io: FinalizeIo)
    requires Inv(cfg, w) && w.hash == Some(h) && h.offset == h.length && h.multipartCompleted && !h.cancelled
    ensures Inv(cfg, EnqueueStage(w, h, io).0)
  {
    var w0 := Drift(w, io.drift2);
    assert Inv(cfg, w0);
    if !IsCancelled(w0, h) && io.enqueue.Applied() {
      LogEnqueued(cfg, w0, h);
      MarkEnqueued(cfg, Log(w0, Enqueued(TusProcess(w.uploadId), h.length)), h);
    }
  }

  lemma CleanupKeepsInv(cfg: Settings, w: World, io: FinalizeIo)
    requires Inv(cfg, w)
    ensures Inv(cfg, CleanupFailedCompletion(w, io).0)
  {
    var w1 := if io.abort.Applied() then Log(w.(s3 := w.s3.(open := false, parts := map[])), Aborted) else w;
    assert Inv(cfg, w1);
    var w2 := if io.drop.Applied() then w1.(hash := None) else w1;
    assert Inv(cfg, w2);
  }

  lemma FinalizeKeepsInv(cfg: Settings, w: World, h: Hash, io: FinalizeIo)
    requires Inv(cfg, w) && w.hash == Some(h) && h.offset == h.length && !h.cancelled
    ensures Inv(cfg, Finalize(w, h, io).0)
  {
    if IsCancelled(w, h) || h.enqueued {
    } else if h.multipartCompleted {
      EnqueueStageKeepsInv(cfg, w, h, io);
    } else if h.parts != [] {
      CompletionPublishesChunks(cfg, w, h, io.complete);
      var (s1, outcome) := CompleteVerified(w.s3, h.parts, h.length, io.complete);
      var w1 := w.(s3 := s1);
      assert Inv(cfg, w1);
      if outcome == Complete { CompletedKeepsInv(cfg, w1, h, io); }
      if outcome == Definitive { CleanupKeepsInv(cfg, w1, io); }
    }
  }

  lemma CompletedKeepsInv(cfg: Settings, w: World, h: Hash, io: FinalizeIo)
    requires Inv(cfg, w) && w.hash == Some(h) && h.offset == h.length && !h.cancelled
    requires w.s3.blob == Some(Flatten(Chunks(w.journal)))
    ensures Inv(cfg, CompletedStage(w, h, io).0)
  {
    LogVerified(cfg, w, h);
    var w2 := Drift(Log(w, Verified(w.s3.blob.value)), io.drift1);
    assert Inv(cfg, w2);
    if !IsCancelled(w2, h) {
      MarkCompleted(cfg, w2, h);
      var h3 := h.(multipartCompleted := true, finalizing := false);
      EnqueueStageKeepsInv(cfg, w2.(hash := Some(h3)), h3, io);
    }
  }

  lemma RecordChunkKeepsInv(cfg: Settings, w: World, h: Hash, data: Bytes, io: PatchIo)
    requires Inv(cfg, w) && w.hash == Some(h) && !h.cancelled
    requires 0 < |data| && h.offset + |data| <= h.length
    requires |data| >= cfg.chunkMin || h.offset + |data| == h.length
    requires cfg.chunkMin >= MAGIC_HEADER_SIZE ==> h.sniffed
    ensures Inv(cfg, RecordChunk(w, h, data, io).0)
  {
    var w1 := w.(s3 := w.s3.(parts := w.s3.parts[|h.parts| + 1 := data]));
    assert Inv(cfg, w1);
    if w.s3.open && io.partWrite.Done? && io.stateWrite.Applied() {
      LogRecorded(cfg, w1, h, data);
      var h2 := Advanced(h, data);
      if h2.offset == h2.length { FinalizeKeepsInv(cfg, Log(w1.(hash := Some(h2)), Recorded(data)), h2, io.fin); }
    }
  }

  lemma PatchKeepsInv(cfg: Settings, w: World, user: Id, clientOffset: int, data: Bytes, mimeMismatch: bool,
                      io: PatchIo)
    requires Inv(cfg, w)
    ensures Inv(cfg, PatchStep(cfg, w, user, clientOffset, data, mimeMismatch, io).0)
  {
    match LoadState(w, user, false)
    case Err(_) =>
    case Ok(h0) =>
      var sniffs := !h0.sniffed && h0.offset == 0 && |data| > 0
                    && (|data| >= MAGIC_HEADER_SIZE || h0.offset + |data| == h0.length);
      var h := if sniffs && io.sniffWrite.Applied() then h0.(sniffed := true) else h0;
      var w1 := w.(hash := Some(h));
      assert Inv(cfg, w1);
      if |data| == 0 {
        if h.offset == h.length { FinalizeKeepsInv(cfg, w1, h, io.fin); }
      } else if h.offset + |data| <= h.length && (h.offset + |data| == h.length || |data| >= cfg.chunkMin)
                && (sniffs ==> io.sniffWrite.Done?) {
        RecordChunkKeepsInv(cfg, w1, h, data, io);
      }
  }

  lemma DeleteKeepsInv(cfg: Settings, w: World, user: Id, io: DeleteIo)
    requires Inv(cfg, w)
    ensures Inv(cfg, DeleteStep(w, user, io).0)
  {
    match LoadState(w, user, true)
    case Err(_) =>
    case Ok(h) =>
      LogCancel(cfg, w, h);
  }

  lemma HeadKeepsInv(cfg: Settings, w: World, user: Id, io: FinalizeIo)
    requires Inv(cfg, w)
    ensures Inv(cfg, HeadStep(w, user, io).0)
  {
    match LoadState(w, user, false)
    case Err(_) =>
    case Ok(h) =>
      if h.offset == h.length { FinalizeKeepsInv(cfg, w, h, io); }
  }

  lemma SweepKeepsInv(cfg: Settings, w: World, aborts: bool, deletes: bool)
    requires Inv(cfg, w)
    ensures Inv(cfg, SweepStep(w, aborts, deletes))
  {}

  lemma CancelKeepsInv(cfg: Settings, w: World, c: CancelOutcome)
    requires Inv(cfg, w)
    ensures Inv(cfg, ApplyCancel(w, c))
  {}

  lemma NextKeepsInv(cfg: Settings, w: World, s: Step)
    requires Inv(cfg, w)
    ensures Inv(cfg, Next(cfg, w, s))
  {
    match s
    case Head(u, io) => HeadKeepsInv(cfg, w, u, io);
    case Patch(u, off, data, mm, io) => PatchKeepsInv(cfg, w, u, off, data, mm, io);
    case Delete(u, io) => DeleteKeepsInv(cfg, w, u, io);
    case Expire =>
    case Sweep(aborts, deletes) => SweepKeepsInv(cfg, w, aborts, deletes);
    case Consume =>
    case RowBecomes(_) =>
    case CancelElsewhere(c) => CancelKeepsInv(cfg, w, c);
  }

  lemma {:induction false} RunKeepsInv(cfg: Settings, w: World, steps: seq<Step>)
    requires Inv(cfg, w)
    ensures Inv(cfg, Run(cfg, w, steps)) && SameUpload(w, Run(cfg, w, steps))
    decreases |steps|
  {
    if steps != [] {
      NextKeepsInv(cfg, w, steps[0]);
      NextFrame(cfg, w, steps[0]);
      RunKeepsInv(cfg, Next(cfg, w, steps[0]), steps[1..]);
    }
  }

  // ── Theorems over every run ─────────────────────────────────────────────────

  /** What a client may rely on about a session that Redis still holds. */
  ghost predicate ManifestSound(cfg: Settings, w: World, h: Hash)
  {
    && h.length == w.length && h.offset <= w.length
    && h.offset == |Flatten(Tags(h.parts))|
    && Flatten(Tags(h.parts)) == Flatten(Chunks(w.journal))
    && (forall i :: 0 <= i < |h.parts| ==> h.parts[i].number == i + 1)
    && (w.s3.open ==> forall p :: p in h.parts ==> p.number in w.s3.parts && w.s3.parts[p.number] == p.etag)
    && (forall i :: 0 <= i < |h.parts| && |h.parts[i].etag| < cfg.chunkMin ==>
          i == |h.parts| - 1 && h.offset == w.length)
    && (h.offset == w.length <==> h.finalizing || h.multipartCompleted)
    && (cfg.chunkMin >= MAGIC_HEADER_SIZE && h.offset > 0 ==> h.sniffed)
  }

  lemma ManifestIsSound(cfg: Settings, w: World, h: Hash)
    requires Inv(cfg, w) && w.hash == Some(h)
    ensures ManifestSound(cfg, w, h)
  {
    ManifestBounded(cfg, w, h);
    forall p | p in h.parts && w.s3.open ensures p.number in w.s3.parts && w.s3.parts[p.number] == p.etag {
      var i :| 0 <= i < |h.parts| && h.parts[i] == p;
    }
  }

  /** Whatever crashes and retries happen, a live upload's manifest is parts 1..n, the parts
      S3 holds under those numbers spell the recorded bytes, their total is the offset, and
      only a chunk that completes the upload may be small. */
  lemma ManifestTheorem(cfg: Settings, uploadId: Id, user: Id, length: nat, steps: seq<Step>)
    requires length > 0
    ensures var w := Run(cfg, Created(uploadId, user, length), steps);
            w.length == length && (w.hash.Some? ==> ManifestSound(cfg, w, w.hash.value))
  {
    RunKeepsInv(cfg, Created(uploadId, user, length), steps);
    var w := Run(cfg, Created(uploadId, user, length), steps);
    if w.hash.Some? { ManifestIsSound(cfg, w, w.hash.value); }
  }

  lemma RecordedBounded(uploadId: Id, length: nat, j: Journal)
    requires Ordered(uploadId, length, j)
    ensures |Flatten(Chunks(j))| <= length
  {}

  lemma ManifestBounded(cfg: Settings, w: World, h: Hash)
    requires Inv(cfg, w) && w.hash == Some(h)
    ensures Tags(h.parts) == Chunks(w.journal) && h.offset == |Flatten(Tags(h.parts))| <= w.length
  {
    assert Tags(h.parts) == Chunks(w.journal);
    RecordedBounded(w.uploadId, w.length, w.journal);
  }

  ghost predicate SameUpload(w: World, w': World)
  {
    w'.uploadId == w.uploadId && w'.length == w.length
  }

  lemma FinalizeFrame(w: World, h: Hash, io: FinalizeIo)
    ensures var w' := Finalize(w, h, io).0; SameUpload(w, w') && Chunks(w'.journal) == Chunks(w.journal)
  {}

  lemma RecordFrame(w: World, h: Hash, data: Bytes, io: PatchIo)
    ensures var w' := RecordChunk(w, h, data, io).0;
            && SameUpload(w, w')
            && (Chunks(w'.journal) == Chunks(w.journal) || Chunks(w'.journal) == Chunks(w.journal) + [data])
  {
    var w1 := w.(s3 := w.s3.(parts := w.s3.parts[|h.parts| + 1 := data]));
    var h2 := Advanced(h, data);
    FinalizeFrame(Log(w1.(hash := Some(h2)), Recorded(data)), h2, io.fin);
  }

  lemma PatchFrame(cfg: Settings, w: World, s: Step)
    requires Inv(cfg, w) && s.Patch?
    ensures var w' := Next(cfg, w, s);
            var after, before := Chunks(w'.journal), Chunks(w.journal);
            && SameUpload(w, w')
            && (after == before || (s.clientOffset == |Flatten(before)| && after == before + [s.data]))
  {
    if LoadState(w, s.user, false).Ok? {
      var h := w.hash.value;
      var h1 := h.(sniffed := true);
      FinalizeFrame(w, h, s.patch.fin);
      FinalizeFrame(w.(hash := Some(h1)), h1, s.patch.fin);
      RecordFrame(w, h, s.data, s.patch);
      RecordFrame(w.(hash := Some(h1)), h1, s.data, s.patch);
    }
  }

  /** One step keeps the upload's identity, and its recorded chunks unless it is a PATCH at
      exactly the recorded offset, which may append its data. */
  lemma NextFrame(cfg: Settings, w: World, s: Step)
    requires Inv(cfg, w)
    ensures var w' := Next(cfg, w, s);
            var after, before := Chunks(w'.journal), Chunks(w.journal);
            && SameUpload(w, w')
            && (after == before || (s.Patch? && s.clientOffset == |Flatten(before)| && after == before + [s.data]))
  {
    match s
    case Head(u, io) => if w.hash.Some? { FinalizeFrame(w, w.hash.value, io); }
    case Patch(u, off, data, mm, io) => PatchFrame(cfg, w, s);
    case Delete(u, io) =>
    case Expire =>
    case Sweep(_, _) =>
    case Consume =>
    case RowBecomes(_) =>
    case CancelElsewhere(_) =>
  }

  /** `p` is the journal as it stood at some moment of the history `j`. */
  predicate Prefix(p: Journal, j: Journal) { p == j || (j.Then? && Prefix(p, j.prior)) }

  lemma {:induction false} OrderedPrefix(uploadId: Id, length: nat, p: Journal, j: Journal)
    requires Ordered(uploadId, length, j) && Prefix(p, j)
    ensures Ordered(uploadId, length, p)
  {
    if p != j { OrderedPrefix(uploadId, length, p, j.prior); }
  }

  /** Every job ever queued carries this upload's one job id and the declared size, and at the
      moment it was queued an object of exactly the recorded bytes had been verified and the
      cancelled flag had never been written. */
  lemma EnqueueTheorem(cfg: Settings, uploadId: Id, user: Id, length: nat, steps: seq<Step>, p: Journal)
    requires length > 0
    requires Prefix(p, Run(cfg, Created(uploadId, user, length), steps).journal) && p.Then?
    ensures p.last.Enqueued? ==>
              p.last == Enqueued(TusProcess(uploadId), length) && SawVerified(p.prior) && !SawCancel(p.prior)
    ensures p.last.Verified? ==> p.last.bytes == Flatten(Chunks(p.prior)) && |p.last.bytes| == length
    ensures p.last.Recorded? ==> !SawVerified(p.prior)
  {
    RunKeepsInv(cfg, Created(uploadId, user, length), steps);
    OrderedPrefix(uploadId, length, p, Run(cfg, Created(uploadId, user, length), steps).journal);
  }

  /** After the cancelled flag, HEAD and PATCH change nothing at all. */
  lemma CancelledIsTerminal(cfg: Settings, w: World, user: Id, clientOffset: int, data: Bytes,
                            mimeMismatch: bool, io: PatchIo)
    requires Inv(cfg, w) && SawCancel(w.journal)
    ensures HeadStep(w, user, io.fin).0 == w
    ensures PatchStep(cfg, w, user, clientOffset, data, mimeMismatch, io).0 == w
  {}

  // ── The uploaded file ───────────────────────────────────────────────────────

  /** A client that only ever sends the bytes its file has at the offset it names. */
  predicate Honest(file: Bytes, s: Step)
  {
    s.Patch? ==> 0 <= s.clientOffset && s.clientOffset + |s.data| <= |file|
                 && s.data == file[s.clientOffset..s.clientOffset + |s.data|]
  }

  lemma HonestExtends(file: Bytes, chunks: seq<Bytes>, s: Step)
    requires s.Patch? && Honest(file, s) && Flatten(chunks) <= file && s.clientOffset == |Flatten(chunks)|
    ensures Flatten(chunks + [s.data]) <= file
  {}

  /** End to end: whatever is lost or retried, the recorded bytes are always a prefix of the
      client's file, and the completed object, when there is one, is that file. */
  lemma {:induction false} UploadsTheFile(cfg: Settings, w: World, file: Bytes, steps: seq<Step>)
    requires Inv(cfg, w) && w.length == |file| && Flatten(Chunks(w.journal)) <= file
    requires forall s :: s in steps ==> Honest(file, s)
    ensures var w' := Run(cfg, w, steps);
            && var sent := Flatten(Chunks(w'.journal));
            && sent <= file
            && (w'.s3.blob.Some? ==> w'.s3.blob.value == file)
            && (w'.hash.Some? ==> sent == Flatten(Tags(w'.hash.value.parts)) && w'.hash.value.offset == |sent|)
    decreases |steps|
  {
    if steps == [] {
      if w.hash.Some? { ManifestBounded(cfg, w, w.hash.value); }
    } else {
      var s := steps[0];
      var w1 := Next(cfg, w, s);
      NextKeepsInv(cfg, w, s);
      NextFrame(cfg, w, s);
      if Chunks(w1.journal) != Chunks(w.journal) { HonestExtends(file, Chunks(w.journal), s); }
      UploadsTheFile(cfg, w1, file, steps[1..]);
    }
  }
}
