/** The tus handlers as the routers run them: one resource object whose fields the
    requests overwrite, each method proved against its step in module Tus. */
module TusServer {
  import opened Prelude
  import opened Text
  import opened Tus

  // ── The checksum header ─────────────────────────────────────────────────────

  /** An absent header is empty. `digest` is the base64 text of a body's SHA-256. */
  predicate ChecksumOk(digest: Bytes -> string, header: string, data: Bytes)
  {
    var parts := Words(header);
    header != "" && |parts| == 2 && parts[0] == "sha256" ==> parts[1] == digest(data)
  }

  lemma TwoWordsIff(header: string)
    ensures |Words(header)| == 2 && Words(header)[0] == "sha256" <==>
              |header| > 6 && header[..7] == "sha256 " && ' ' !in header[7..]
    ensures |Words(header)| == 2 && Words(header)[0] == "sha256" ==> Words(header)[1] == header[7..]
  {
    var i := LastIndex(header, ' ');
    if |header| > 6 && header[..7] == "sha256 " && ' ' !in header[7..] {
      assert header[6] == ' ' by { assert header[..7][6] == ' '; }
      assert forall j :: 7 <= j < |header| ==> header[j] == header[7..][j - 7];
      assert i == 6 && header[..6] == "sha256" by { assert header[..6] == header[..7][..6]; }
    }
    if i >= 0 && header[..i] == "sha256" {
      assert header[..7] == header[..i] + [header[i]];
    }
  }

  /** A checksum is compared exactly when the header is `sha256`, one space, and a text without spaces;
      any other header is ignored. */
  lemma ChecksumRefusedIff(digest: Bytes -> string, header: string, data: Bytes)
    ensures !ChecksumOk(digest, header, data) <==>
              |header| > 6 && header[..7] == "sha256 " && ' ' !in header[7..] && header[7..] != digest(data)
  {
    TwoWordsIff(header);
  }

  // ── The resource ────────────────────────────────────────────────────────────

  /** One upload resource: the Redis hash, the row and the multipart upload, updated in place. */
  class TusResource {
    const cfg: Settings
    const uploadId: Id
    const length: nat
    const digest: Bytes -> string
    var hash: Option<Hash>
    var marker: bool
    var status: Status
    var s3: S3
    /** History; only the environment, which knows whether a job was queued, looks at it. */
    var journal: Journal

    ghost function State(): World reads this { World(uploadId, length, hash, marker, status, s3, journal) }

    constructor (cfg: Settings, uploadId: Id, user: Id, length: nat, digest: Bytes -> string)
      ensures State() == Created(uploadId, user, length) && this.cfg == cfg && this.digest == digest
    {
      this.cfg, this.uploadId, this.length, this.digest := cfg, uploadId, length, digest;
      hash := Some(Hash(user, 0, length, [], false, false, false, false, false));
      marker, status, s3, journal := false, Pending, S3(true, map[], None), Nothing;
    }

    /** Consume the request body.  A body is accepted exactly when it has the declared length. */
    method ReadBody(stream: seq<Bytes>, chunkSize: nat) returns (body: Option<Bytes>)
      requires chunkSize <= cfg.chunkMax
      ensures body.Some? <==> chunkSize == 0 || |Flatten(stream)| == chunkSize
      ensures body.Some? ==> body.value == if chunkSize == 0 then [] else Flatten(stream)
    {
      if chunkSize == 0 { return Some([]); }
      var data: Bytes := [];
      var i := 0;
      while i < |stream|
        invariant 0 <= i <= |stream| && data == Flatten(stream[..i]) && |data| <= chunkSize
      {
        assert stream[..i + 1][..i] == stream[..i];
        if |data| + |stream[i]| > chunkSize || |data| + |stream[i]| > cfg.chunkMax {
          FlattenMonotone(stream, i + 1);
          return None;
        }
        data := data + stream[i];
        i := i + 1;
      }
      assert stream[..i] == stream;
      return if |data| == chunkSize then Some(data) else None;
    }

    method LoadState(user: Id, allowCancelled: bool) returns (r: Result<Hash, Response>)
      ensures r == Tus.LoadState(State(), user, allowCancelled)
    {
      if hash.None? { return Err(NotFound); }
      if hash.value.user != user { return Err(Forbidden); }
      if hash.value.cancelled && !allowCancelled { return Err(Conflict); }
      return Ok(hash.value);
    }

    method IsCancelled(state: Hash) returns (r: bool)
      ensures r == Tus.IsCancelled(State(), state)
    {
      if state.cancelled { return true; }
      if marker { return true; }
      return status in {Cancelled, Failed, Malicious, Applied};
    }

    /** What the environment does to the row between two calls of a handler. */
    method Drift(d: Option<Status>)
      modifies this
      ensures State() == Tus.Drift(old(State()), d)
    {
      if d.Some? && RowMayBecome(World(uploadId, length, hash, marker, status, s3, journal), d.value) {
        status := d.value;
      }
    }

    method CompleteVerified(state: Hash, io: CompleteIo) returns (outcome: Completion)
      modifies this
      ensures var (s1, o) := Tus.CompleteVerified(old(s3), state.parts, state.length, io);
              State() == old(State()).(s3 := s1) && outcome == o
    {
      var raised := !io.call.Done?;
      if io.call.Applied() {
        if Completable(s3, state.parts) {
          s3 := S3(false, map[], Some(Flatten(Tags(state.parts))));
        } else {
          raised := true;
        }
      }
      if !io.probeUp { return Retryable; }
      if s3.blob.Some? {
        if |s3.blob.value| != state.length {
          if io.delete.Applied() { s3 := s3.(blob := None); }
          return if io.delete.Done? then Definitive else Retryable;
        }
        return Complete;
      }
      if !raised { return Retryable; }
      return if !io.call.Done? && io.ambiguous then Retryable else Definitive;
    }

    method CleanupFailedCompletion(io: FinalizeIo) returns (r: Response)
      modifies this
      ensures (State(), r) == Tus.CleanupFailedCompletion(old(State()), io)
    {
      if io.abort.Applied() {
        s3 := s3.(open := false, parts := map[]);
        journal := Then(journal, Aborted);
      }
      if io.drop.Applied() { hash := None; }
      if !io.drop.Done? { return Crashed; }
      if io.rowWrite.Applied() && status != Cancelled { status := Failed; }
      return if io.rowWrite.Done? then BadRequest else Crashed;
    }

    method Enqueue(state: Hash, io: FinalizeIo) returns (r: Response)
      modifies this
      ensures (State(), r) == EnqueueStage(old(State()), state, io)
    {
      Drift(io.drift2);
      var cancelled := IsCancelled(state);
      if cancelled { return Conflict; }
      if io.enqueue.Applied() { journal := Then(journal, Enqueued(TusProcess(uploadId), state.length)); }
      if !io.enqueue.Done? { return Crashed; }
      if io.tombstone.Applied() {
        hash := Some(state.(enqueued := true, multipartCompleted := true, finalizing := false));
      }
      return if io.tombstone.Done? then FileKey(state.offset) else Crashed;
    }

    method Finalize(loaded: Hash, io: FinalizeIo) returns (r: Response)
      modifies this
      ensures (State(), r) == Tus.Finalize(old(State()), loaded, io)
    {
      var state := loaded;
      var cancelled := IsCancelled(state);
      if cancelled { return Conflict; }
      if state.enqueued { return FileKey(state.offset); }
      if !state.multipartCompleted {
        if state.parts == [] { return Unavailable; }
        var outcome := CompleteVerified(state, io.complete);
        if outcome == Retryable { return Unavailable; }
        if outcome == Definitive {
          r := CleanupFailedCompletion(io);
          return;
        }
        journal := Then(journal, Verified(s3.blob.value));
        Drift(io.drift1);
        cancelled := IsCancelled(state);
        if cancelled { return Conflict; }
        state := state.(multipartCompleted := true, finalizing := false);
        if io.completedWrite.Applied() { hash := Some(state); }
        if !io.completedWrite.Done? { return Crashed; }
      }
      r := Enqueue(state, io);
    }

    method Head(user: Id, io: FinalizeIo) returns (r: Response)
      modifies this
      ensures (State(), r) == HeadStep(old(State()), user, io)
    {
      var loaded := LoadState(user, false);
      if loaded.Err? { return loaded.error; }
      var state := loaded.value;
      if state.offset == state.length && (state.finalizing || state.multipartCompleted) {
        r := Finalize(state, io);
        return;
      }
      return HeadOk(state.offset, state.length);
    }

    /** PATCH: admission on a first read of the state, the body, then the locked part. */
    method Patch(user: Id, clientOffset: int, chunkSize: int, stream: seq<Bytes>, checksum: string,
                 mimeMismatch: bool, io: PatchIo) returns (r: Response)
      modifies this
      ensures var w, data := old(State()), Flatten(stream);
              var admitted := 0 <= chunkSize <= cfg.chunkMax && Tus.LoadState(w, user, false).Ok?
                              && !Tus.IsCancelled(w, w.hash.value) && clientOffset == w.hash.value.offset;
              var complete := chunkSize == 0 ||
                              (|data| == chunkSize && ChecksumOk(digest, checksum, data));
              if admitted && complete
              then (State(), r)
                == PatchStep(cfg, w, user, clientOffset, if chunkSize == 0 then [] else data, mimeMismatch, io)
              else State() == w && !r.NoContent? && !r.FileKey?
                   && (r == ChecksumMismatch <==> admitted && |data| == chunkSize && !complete)
    {
      if chunkSize < 0 || chunkSize > cfg.chunkMax { return BadRequest; }
      var preflight := LoadState(user, false);
      if preflight.Err? { return preflight.error; }
      var cancelled := IsCancelled(preflight.value);
      if cancelled { return Conflict; }
      if clientOffset != preflight.value.offset { return OffsetMismatch; }
      var body := ReadBody(stream, chunkSize);
      if body.None? { return BadRequest; }
      if chunkSize > 0 && checksum != "" {
        var parts := Words(checksum);
        if |parts| == 2 && parts[0] == "sha256" && parts[1] != digest(body.value) { return ChecksumMismatch; }
      }
      r := PatchLocked(user, clientOffset, body.value, mimeMismatch, io);
    }

    method PatchLocked(user: Id, clientOffset: int, data: Bytes, mimeMismatch: bool, io: PatchIo) returns (r: Response)
      modifies this
      ensures (State(), r) == PatchStep(cfg, old(State()), user, clientOffset, data, mimeMismatch, io)
    {
      var loaded := LoadState(user, false);
      if loaded.Err? { return loaded.error; }
      var state := loaded.value;
      if clientOffset != state.offset { return OffsetMismatch; }
      var isFinal := state.offset + |data| == state.length;
      if !state.sniffed && state.offset < MAGIC_HEADER_SIZE && |data| > 0 {
        if state.offset == 0 && (|data| >= MAGIC_HEADER_SIZE || isFinal) {
          if mimeMismatch { return BadRequest; }
          if io.sniffWrite.Applied() {
            state := state.(sniffed := true);
            hash := Some(state);
          }
          if !io.sniffWrite.Done? { return Crashed; }
        }
      }
      var cancelled := IsCancelled(state);
      if cancelled { return Conflict; }
      if |data| == 0 {
        if state.offset == state.length {
          r := Finalize(state, io.fin);
          return;
        }
        return NoContent(state.offset);
      }
      if state.offset + |data| > state.length { return BadRequest; }
      if !isFinal && |data| < cfg.chunkMin { return BadRequest; }
      r := Record(state, data, io);
    }

    method Record(state: Hash, data: Bytes, io: PatchIo) returns (r: Response)
      modifies this
      ensures (State(), r) == RecordChunk(old(State()), state, data, io)
    {
      var number := |state.parts| + 1;
      var stored := s3.open && io.partWrite.Applied();
      if stored { s3 := s3.(parts := s3.parts[number := data]); }
      if !stored || !io.partWrite.Done? { return Crashed; }
      var parts := state.parts + [PartRef(number, data)];
      var offset := state.offset + |data|;
      var next := state.(offset := offset, parts := parts, finalizing := state.finalizing || offset == state.length);
      if io.stateWrite.Applied() {
        hash := Some(next);
        journal := Then(journal, Recorded(data));
      }
      if !io.stateWrite.Done? { return Crashed; }
      if offset == state.length {
        r := Finalize(next, io.fin);
        return;
      }
      return NoContent(offset);
    }

    method Delete(user: Id, io: DeleteIo) returns (r: Response)
      modifies this
      ensures (State(), r) == DeleteStep(old(State()), user, io)
    {
      var loaded := LoadState(user, true);
      if loaded.Err? { return loaded.error; }
      if io.flagWrite.Applied() {
        hash := Some(loaded.value.(cancelled := true));
        journal := Then(journal, CancelSet);
      }
      if !io.flagWrite.Done? { return Crashed; }
      if status == Applied { return Conflict; }
      match io.cancel
      case Refused => return Conflict;
      case Partial(row, marked, aborted, deleted) =>
        if row {
          status := Cancelled;
          if marked { marker := true; }
          if aborted { s3 := s3.(open := false, parts := map[]); }
          if deleted { s3 := s3.(blob := None); }
        }
        return Unavailable;
      case CancelDone =>
        status, marker, s3 := Cancelled, true, S3(false, map[], None);
        if io.drop.Applied() { hash := None; }
        return if io.drop.Done? then Terminated else Crashed;
    }
  }

  lemma {:induction false} FlattenMonotone(stream: seq<Bytes>, k: nat)
    requires k <= |stream|
    ensures |Flatten(stream[..k])| <= |Flatten(stream)|
    decreases |stream| - k
  {
    if k == |stream| {
      assert stream[..k] == stream;
    } else {
      assert stream[..k + 1][..k] == stream[..k];
      FlattenMonotone(stream, k + 1);
    }
  }

  const PROMPT := PatchIo(Done, Done, Done,
    FinalizeIo(CompleteIo(Done, false, true, Done), Done, Done, Done, None, Done, None, Done, Done))

  lemma OneByteFinalize(w: World, h: Hash)
    requires w.status == Pending && !w.marker && !h.cancelled && !h.enqueued && !h.multipartCompleted
    requires h.offset == h.length == 1 && h.parts == [PartRef(1, [7])] && w.s3 == S3(true, map[1 := [7]], None)
    ensures Finalize(w, h, PROMPT.fin).1 == FileKey(1)
  {
    assert Tags(h.parts) == [[7]] && Flatten([[7]]) == [7];
  }

  lemma OneBytePatch(cfg: Settings, w: World)
    requires w == Created("id", "u", 1)
    ensures PatchStep(cfg, w, "u", 0, [7], false, PROMPT).1 == FileKey(1)
  {
    var h := w.hash.value.(sniffed := true);
    var w1, h2 := w.(s3 := S3(true, map[1 := [7]], None)), Advanced(h, [7]);
    var w2 := Log(w1.(hash := Some(h2)), Recorded([7]));
    assert PatchStep(cfg, w, "u", 0, [7], false, PROMPT) == RecordChunk(w.(hash := Some(h)), h, [7], PROMPT);
    assert RecordChunk(w.(hash := Some(h)), h, [7], PROMPT) == Finalize(w2, h2, PROMPT.fin);
    OneByteFinalize(w2, h2);
  }

  /** The header asks for MD5, which is not offered: whatever the bytes hash to, the chunk is accepted
      and the upload completed. */
  method UnknownAlgorithmIsAccepted(digest: Bytes -> string) returns (r: Response)
    ensures r == FileKey(1)
  {
    var resource := new TusResource(Settings(1, 1), "id", "u", 1, digest);
    var header := "md5 AAAA";
    ChecksumRefusedIff(digest, header, [7]);
    assert [[7]][..0] == [] && Flatten([[7]]) == [7];
    OneBytePatch(resource.cfg, resource.State());
    r := resource.Patch("u", 0, 1, [[7]], header, false, PROMPT);
  }
}
