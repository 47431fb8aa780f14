/** When a complete upload can still be finished: over every run, not only from one state. */
module TusResume {
  import opened Prelude
  import opened Tus

  predicate SawAborted(j: Journal) { j.Then? && (j.last.Aborted? || SawAborted(j.prior)) }
  predicate SawSwept(j: Journal) { j.Then? && (j.last.Swept? || SawSwept(j.prior)) }

  /** S3 takes no completion with a part below 5 MiB before the last. */
  predicate LargeParts(chunks: seq<Bytes>)
  {
    forall i :: 0 <= i < |chunks| - 1 ==> |chunks[i]| >= S3_MIN_PART_BYTES
  }

  // ── Why a multipart upload is gone ──────────────────────────────────────────

  ghost predicate ClosedOk(w: World)
  {
    && (w.s3.open ==> !SawVerified(w.journal) && !SawAborted(w.journal))
    && (SawAborted(w.journal) ==> w.s3.blob.None?)
    && (SawSwept(w.journal) ==> !w.s3.open && w.s3.blob.None?)
    && (w.s3.blob.Some? || SawVerified(w.journal) ==> LargeParts(Chunks(w.journal)))
    && (SawEnqueued(w.journal) ==> SawVerified(w.journal))
  }

  /** Before the first job is queued the row can only be pending, failed or cancelled; and a live
      session that nobody cancelled has its multipart upload or its object, unless a refused
      completion aborted the one or the cleanup job deleted the other. */
  ghost predicate LiveOk(w: World)
  {
    && (!SawEnqueued(w.journal) ==> w.status in {Pending, Failed, Cancelled})
    && (w.hash.Some? && SawEnqueued(w.journal) ==> w.hash.value.multipartCompleted)
    && (w.hash.Some? && w.hash.value.multipartCompleted ==> !SawAborted(w.journal))
    && (w.hash.Some? && !IsCancelled(w, w.hash.value) && !SawEnqueued(w.journal)
        && !SawAborted(w.journal) && !SawSwept(w.journal)
        ==> w.s3.open || w.s3.blob.Some?)
  }

  ghost predicate ResumeInv(cfg: Settings, w: World) { Inv(cfg, w) && ClosedOk(w) && LiveOk(w) }

  lemma DriftKeeps(cfg: Settings, w: World, d: Option<Status>)
    requires ResumeInv(cfg, w)
    ensures ResumeInv(cfg, Drift(w, d))
  {}

  lemma EnqueueStageKeeps(cfg: Settings, w: World, h: Hash, io: FinalizeIo)
    requires ResumeInv(cfg, w) && w.hash == Some(h) && h.offset == h.length && h.multipartCompleted && !h.cancelled
    ensures ResumeInv(cfg, EnqueueStage(w, h, io).0)
  {
    DriftKeeps(cfg, w, io.drift2);
    EnqueueStageKeepsInv(cfg, w, h, io);
  }

  lemma CleanupKeeps(cfg: Settings, w: World, io: FinalizeIo)
    requires ResumeInv(cfg, w) && w.s3.blob.None? && !SawEnqueued(w.journal)
    requires w.hash.Some? && !w.hash.value.multipartCompleted
    ensures ResumeInv(cfg, CleanupFailedCompletion(w, io).0)
  {
    CleanupKeepsInv(cfg, w, io);
  }

  lemma MarkedCompletedKeeps(cfg: Settings, w: World, h: Hash)
    requires ResumeInv(cfg, w) && w.hash == Some(h) && h.offset == h.length && SawVerified(w.journal)
    requires !SawAborted(w.journal)
    ensures ResumeInv(cfg, w.(hash := Some(h.(multipartCompleted := true, finalizing := false))))
  {
    MarkCompleted(cfg, w, h);
  }

  lemma CompletedKeeps(cfg: Settings, w: World, h: Hash, io: FinalizeIo)
    requires ResumeInv(cfg, w) && w.hash == Some(h) && h.offset == h.length && !h.cancelled
    requires w.s3.blob == Some(Flatten(Chunks(w.journal)))
    ensures ResumeInv(cfg, CompletedStage(w, h, io).0)
  {
    LogVerified(cfg, w, h);
    var w1 := Log(w, Verified(w.s3.blob.value));
    assert ResumeInv(cfg, w1);
    DriftKeeps(cfg, w1, io.drift1);
    var w2 := Drift(w1, io.drift1);
    if !IsCancelled(w2, h) {
      MarkedCompletedKeeps(cfg, w2, h);
      var h3 := h.(multipartCompleted := true, finalizing := false);
      if io.completedWrite.Done? { EnqueueStageKeeps(cfg, w2.(hash := Some(h3)), h3, io); }
    }
  }

  lemma CompletableIff(cfg: Settings, w: World, h: Hash)
    requires ResumeInv(cfg, w) && w.hash == Some(h) && h.offset == h.length
    ensures h.parts != []
    ensures Completable(w.s3, h.parts) <==> w.s3.open && LargeParts(Chunks(w.journal))
  {
    var chunks := Chunks(w.journal);
    assert h.parts != [];
    forall i | 0 <= i < |chunks| ensures h.parts[i] == PartRef(i + 1, chunks[i]) {}
  }

  lemma PublishedKeeps(cfg: Settings, w: World, h: Hash)
    requires ResumeInv(cfg, w) && w.hash == Some(h) && h.offset == h.length && !h.multipartCompleted
    requires Completable(w.s3, h.parts)
    ensures ResumeInv(cfg, w.(s3 := S3(false, map[], Some(Flatten(Chunks(w.journal))))))
  {
    CompletableIff(cfg, w, h);
  }

  lemma CompletionCases(cfg: Settings, w: World, h: Hash, io: CompleteIo)
    requires ResumeInv(cfg, w) && w.hash == Some(h) && h.offset == h.length
    ensures var (s1, outcome) := CompleteVerified(w.s3, h.parts, h.length, io);
            && (s1 == w.s3 || (Completable(w.s3, h.parts) && s1 == S3(false, map[], Some(Flatten(Chunks(w.journal))))))
            && (outcome == Definitive ==> s1.blob.None? && s1 == w.s3)
            && (outcome == Complete ==> s1.blob == Some(Flatten(Chunks(w.journal))))
  {
    CompletionPublishesChunks(cfg, w, h, io);
    assert Tags(h.parts) == Chunks(w.journal) && |Flatten(Chunks(w.journal))| == h.length;
  }

  /** The completion call keeps the explanation, and is refused for good only while there is no
      object. */
  lemma CompletionKeeps(cfg: Settings, w: World, h: Hash, io: CompleteIo)
    requires ResumeInv(cfg, w) && w.hash == Some(h) && h.offset == h.length && !IsCancelled(w, h)
    requires !h.multipartCompleted
    ensures var (s1, outcome) := CompleteVerified(w.s3, h.parts, h.length, io);
            var w1 := w.(s3 := s1);
            && ResumeInv(cfg, w1)
            && (outcome == Definitive ==> s1.blob.None? && !SawEnqueued(w.journal))
            && (outcome == Complete ==> s1.blob == Some(Flatten(Chunks(w.journal))))
  {
    CompletionCases(cfg, w, h, io);
    if Completable(w.s3, h.parts) { PublishedKeeps(cfg, w, h); }
  }

  lemma FinalizeKeeps(cfg: Settings, w: World, h: Hash, io: FinalizeIo)
    requires ResumeInv(cfg, w) && w.hash == Some(h) && h.offset == h.length && !h.cancelled
    ensures ResumeInv(cfg, Finalize(w, h, io).0)
  {
    if IsCancelled(w, h) || h.enqueued {
    } else if h.multipartCompleted {
      EnqueueStageKeeps(cfg, w, h, io);
    } else if h.parts != [] {
      CompletionKeeps(cfg, w, h, io.complete);
      var (s1, outcome) := CompleteVerified(w.s3, h.parts, h.length, io.complete);
      var w1 := w.(s3 := s1);
      if outcome == Complete { CompletedKeeps(cfg, w1, h, io); }
      if outcome == Definitive { CleanupKeeps(cfg, w1, io); }
    }
  }

  lemma StoredKeeps(cfg: Settings, w: World, h: Hash, data: Bytes)
    requires ResumeInv(cfg, w) && w.hash == Some(h)
    ensures ResumeInv(cfg, w.(s3 := w.s3.(parts := w.s3.parts[|h.parts| + 1 := data])))
  {}

  lemma RecordedKeeps(cfg: Settings, w: World, h: Hash, data: Bytes)
    requires ResumeInv(cfg, w) && w.hash == Some(h)
    requires 0 < |data| && h.offset + |data| <= h.length
    requires |data| >= cfg.chunkMin || h.offset + |data| == h.length
    requires cfg.chunkMin >= MAGIC_HEADER_SIZE ==> h.sniffed
    requires w.s3.open && |h.parts| + 1 in w.s3.parts && w.s3.parts[|h.parts| + 1] == data
    ensures ResumeInv(cfg, Log(w.(hash := Some(Advanced(h, data))), Recorded(data)))
  {
    LogRecorded(cfg, w, h, data);
  }

  lemma RecordChunkKeeps(cfg: Settings, w: World, h: Hash, data: Bytes, io: PatchIo)
    requires ResumeInv(cfg, w) && w.hash == Some(h) && !h.cancelled
    requires 0 < |data| && h.offset + |data| <= h.length
    requires |data| >= cfg.chunkMin || h.offset + |data| == h.length
    requires cfg.chunkMin >= MAGIC_HEADER_SIZE ==> h.sniffed
    ensures ResumeInv(cfg, RecordChunk(w, h, data, io).0)
  {
    StoredKeeps(cfg, w, h, data);
    var w1 := w.(s3 := w.s3.(parts := w.s3.parts[|h.parts| + 1 := data]));
    if w.s3.open && io.partWrite.Done? && io.stateWrite.Applied() {
      RecordedKeeps(cfg, w1, h, data);
      var h2 := Advanced(h, data);
      if h2.offset == h2.length { FinalizeKeeps(cfg, Log(w1.(hash := Some(h2)), Recorded(data)), h2, io.fin); }
    }
  }

  lemma PatchKeeps(cfg: Settings, w: World, s: Step)
    requires ResumeInv(cfg, w) && s.Patch?
    ensures ResumeInv(cfg, Next(cfg, w, s))
  {
    if LoadState(w, s.user, false).Ok? {
      var h0 := w.hash.value;
      var sniffs := !h0.sniffed && h0.offset == 0 && |s.data| > 0
                    && (|s.data| >= MAGIC_HEADER_SIZE || h0.offset + |s.data| == h0.length);
      var h := if sniffs && s.patch.sniffWrite.Applied() then h0.(sniffed := true) else h0;
      var w1 := w.(hash := Some(h));
      assert ResumeInv(cfg, w1);
      if |s.data| == 0 {
        if h.offset == h.length { FinalizeKeeps(cfg, w1, h, s.patch.fin); }
      } else if h.offset + |s.data| <= h.length && (h.offset + |s.data| == h.length || |s.data| >= cfg.chunkMin)
                && (sniffs ==> s.patch.sniffWrite.Done?) {
        RecordChunkKeeps(cfg, w1, h, s.data, s.patch);
      }
    }
  }

  lemma ApplyCancelKeeps(cfg: Settings, w: World, c: CancelOutcome)
    requires ResumeInv(cfg, w)
    ensures ResumeInv(cfg, ApplyCancel(w, c))
  {}

  lemma DeleteKeeps(cfg: Settings, w: World, user: Id, io: DeleteIo)
    requires ResumeInv(cfg, w)
    ensures ResumeInv(cfg, DeleteStep(w, user, io).0)
  {
    if LoadState(w, user, true).Ok? {
      var h := w.hash.value;
      var w1 := if io.flagWrite.Applied() then Log(w.(hash := Some(h.(cancelled := true))), CancelSet) else w;
      LogCancel(cfg, w, h);
      assert ResumeInv(cfg, w1);
      ApplyCancelKeeps(cfg, w1, io.cancel);
    }
  }

  lemma SweepKeeps(cfg: Settings, w: World, aborts: bool, deletes: bool)
    requires ResumeInv(cfg, w)
    ensures ResumeInv(cfg, SweepStep(w, aborts, deletes))
  {}

  lemma NextKeeps(cfg: Settings, w: World, s: Step)
    requires ResumeInv(cfg, w)
    ensures ResumeInv(cfg, Next(cfg, w, s))
  {
    match s
    case Head(u, io) =>
      if LoadState(w, u, false).Ok? && w.hash.value.offset == w.hash.value.length {
        FinalizeKeeps(cfg, w, w.hash.value, io);
      }
    case Patch(_, _, _, _, _) => PatchKeeps(cfg, w, s);
    case Delete(u, io) => DeleteKeeps(cfg, w, u, io);
    case RowBecomes(st) => DriftKeeps(cfg, w, Some(st));
    case CancelElsewhere(c) => ApplyCancelKeeps(cfg, w, c);
    case Sweep(aborts, deletes) => SweepKeeps(cfg, w, aborts, deletes);
    case _ =>
  }

  lemma {:induction false} RunKeeps(cfg: Settings, w: World, steps: seq<Step>)
    requires ResumeInv(cfg, w)
    ensures ResumeInv(cfg, Run(cfg, w, steps))
    decreases |steps|
  {
    if steps != [] {
      NextKeeps(cfg, w, steps[0]);
      RunKeeps(cfg, Next(cfg, w, steps[0]), steps[1..]);
    }
  }

  // ── Resuming completion ─────────────────────────────────────────────────────

  const HEALTHY := FinalizeIo(CompleteIo(Done, false, true, Done), Done, Done, Done, None, Done, None, Done, Done)

  /** No refused completion has aborted the multipart upload, only the last part is below 5 MiB, and the
      cleanup job has not deleted the object, or only after its completion was recorded. */
  predicate Resumable(w: World, h: Hash)
  {
    && !SawAborted(w.journal) && LargeParts(Tags(h.parts))
    && (SawSwept(w.journal) ==> h.multipartCompleted)
  }

  lemma ResumeFromInv(cfg: Settings, w: World, h: Hash)
    requires ResumeInv(cfg, w) && w.hash == Some(h) && h.offset == h.length && !IsCancelled(w, h)
    ensures var (w', r) := HeadStep(w, h.user, HEALTHY);
            && (r == FileKey(h.length) <==> Resumable(w, h))
            && (r == FileKey(h.length) ==> w'.hash.Some? && w'.hash.value.enqueued && SawEnqueued(w'.journal))
            && (r == FileKey(h.length) && !SawEnqueued(w.journal) ==>
                  (w'.s3.blob == Some(Flatten(Chunks(w.journal))) <==> !SawSwept(w.journal)))
            && (r != FileKey(h.length) ==> r == BadRequest && w'.hash == None && w'.status == Failed)
  {
    CompletableIff(cfg, w, h);
    assert HeadStep(w, h.user, HEALTHY) == Finalize(w, h, HEALTHY);
    assert Tags(h.parts) == Chunks(w.journal) && |Flatten(Tags(h.parts))| == h.length;
  }

  lemma EmptyPatchIsHead(cfg: Settings, w: World, h: Hash, mimeMismatch: bool, patch: PatchIo)
    requires ResumeInv(cfg, w) && w.hash == Some(h) && h.offset == h.length && !IsCancelled(w, h)
    ensures PatchStep(cfg, w, h.user, h.offset, [], mimeMismatch, patch) == HeadStep(w, h.user, patch.fin)
  {
    assert w.(hash := Some(h)) == w;
  }

  /** In every run with crashes, lost and unacknowledged calls, row expiry, sweeps, workers and
      cancellations: a complete session that nobody cancelled is finished and enqueued by a HEAD or an
      empty PATCH over healthy stores, if and only if it is `Resumable`; the first job queued then finds
      the uploaded file exactly when the object was not swept. */
  lemma ResumableIff(cfg: Settings, uploadId: Id, user: Id, length: nat, steps: seq<Step>, h: Hash,
                     mimeMismatch: bool, patch: PatchIo)
    requires length > 0 && Run(cfg, Created(uploadId, user, length), steps).hash == Some(h)
    requires h.offset == h.length && !IsCancelled(Run(cfg, Created(uploadId, user, length), steps), h)
    requires patch.fin == HEALTHY
    ensures var w := Run(cfg, Created(uploadId, user, length), steps);
            var (w', r) := HeadStep(w, h.user, HEALTHY);
            && PatchStep(cfg, w, h.user, h.offset, [], mimeMismatch, patch) == (w', r)
            && (r == FileKey(h.length) <==> Resumable(w, h))
            && (r == FileKey(h.length) ==> w'.hash.Some? && w'.hash.value.enqueued && SawEnqueued(w'.journal))
            && (r == FileKey(h.length) && !SawEnqueued(w.journal) ==>
                  (w'.s3.blob == Some(Flatten(Tags(h.parts))) <==> !SawSwept(w.journal)))
            && (r != FileKey(h.length) ==> r == BadRequest && w'.hash == None && w'.status == Failed)
  {
    RunKeeps(cfg, Created(uploadId, user, length), steps);
    var w := Run(cfg, Created(uploadId, user, length), steps);
    ManifestBounded(cfg, w, h);
    ResumeFromInv(cfg, w, h);
    EmptyPatchIsHead(cfg, w, h, mimeMismatch, patch);
  }

  /** With a chunk minimum of at least 5 MiB, as configured by default, only such an abort and such a
      sweep stand in the way. */
  lemma ResumableUnlessLost(cfg: Settings, uploadId: Id, user: Id, length: nat, steps: seq<Step>, h: Hash)
    requires length > 0 && Run(cfg, Created(uploadId, user, length), steps).hash == Some(h)
    requires h.offset == h.length && !IsCancelled(Run(cfg, Created(uploadId, user, length), steps), h)
    requires cfg.chunkMin >= S3_MIN_PART_BYTES
    ensures var w := Run(cfg, Created(uploadId, user, length), steps);
            HeadStep(w, h.user, HEALTHY).1 == FileKey(h.length) <==>
              !SawAborted(w.journal) && (SawSwept(w.journal) ==> h.multipartCompleted)
  {
    RunKeeps(cfg, Created(uploadId, user, length), steps);
    var w := Run(cfg, Created(uploadId, user, length), steps);
    ManifestBounded(cfg, w, h);
    ResumeFromInv(cfg, w, h);
    var chunks := Chunks(w.journal);
    assert forall i :: 0 <= i < |chunks| ==> |chunks[i]| >= cfg.chunkMin || i == |chunks| - 1;
  }

  const REFUSED := HEALTHY.(complete := CompleteIo(Lost, false, true, Done), drop := Lost)
  const LAST_CHUNK := Patch("u", 0, [7], false, PatchIo(Done, Done, Done, REFUSED))

  const UNRECORDED := Patch("u", 0, [7], false, PatchIo(Done, Done, Done, HEALTHY.(completedWrite := Lost)))

  /** A session of one byte whose only chunk has just been recorded. */
  const LAST: Hash := Hash("u", 1, 1, [PartRef(1, [7])], true, false, false, false, true)
  const FULL: World :=
    World("id", 1, Some(LAST), false, Pending, S3(true, map[1 := [7]], None), Then(Nothing, Recorded([7])))

  lemma OneChunk(cfg: Settings, s: Step)
    requires s.Patch?
    requires s.(patch := s.patch.(fin := HEALTHY)) == Patch("u", 0, [7], false, PatchIo(Done, Done, Done, HEALTHY))
    ensures Next(cfg, Created("id", "u", 1), s) == Finalize(FULL, LAST, s.patch.fin).0
  {
    var w := Created("id", "u", 1);
    var h := w.hash.value.(sniffed := true);
    assert Advanced(h, [7]) == LAST;
    assert PatchStep(cfg, w, "u", 0, [7], false, s.patch) == RecordChunk(w.(hash := Some(h)), h, [7], s.patch);
  }

  /** The run that loses the promise: S3 refuses the completion for good, its abort goes through and
      the delete of the session does not. The session still looks complete, and resuming it ends it. */
  lemma AbortedSessionCannotResume(cfg: Settings)
    ensures var w := Run(cfg, Created("id", "u", 1), [LAST_CHUNK]);
            && w.hash.Some? && w.hash.value.finalizing && w.hash.value.offset == w.hash.value.length
            && w.status == Pending && !IsCancelled(w, w.hash.value) && SawAborted(w.journal)
            && HeadStep(w, "u", HEALTHY).1 == BadRequest
  {
    var w0, w := Created("id", "u", 1), Log(FULL.(s3 := S3(false, map[], None)), Aborted);
    OneChunk(cfg, LAST_CHUNK);
    assert Finalize(FULL, LAST, REFUSED).0 == w;
    assert Run(cfg, w0, [LAST_CHUNK]) == Run(cfg, w, []) by { assert [LAST_CHUNK][1..] == []; }
  }

  lemma UnrecordedCompletion()
    ensures Finalize(FULL, LAST, UNRECORDED.patch.fin).0 == Log(FULL.(s3 := S3(false, map[], Some([7]))), Verified([7]))
  {
    assert Tags(LAST.parts) == [[7]] && Flatten([[7]]) == [7];
  }

  lemma SweptResume(w: World)
    requires w == Log(Log(FULL.(s3 := S3(false, map[], None)), Verified([7])), Swept)
    ensures HeadStep(w, "u", HEALTHY).1 == BadRequest
    ensures !SawAborted(w.journal) && SawSwept(w.journal)
  {}

  /** The other run: the completion succeeds and its record does not, and the cleanup job deletes the
      object before the client comes back. No completion was refused and the row is still pending: the
      session was created between the job's two cutoffs. */
  lemma SweptSessionCannotResume(cfg: Settings)
    ensures var w := Run(cfg, Created("id", "u", 1), [UNRECORDED, Sweep(false, true)]);
            && w.hash.Some? && w.hash.value.finalizing && w.hash.value.offset == w.hash.value.length
            && w.status == Pending && !IsCancelled(w, w.hash.value)
            && !SawAborted(w.journal) && LargeParts(Tags(w.hash.value.parts)) && SawSwept(w.journal)
            && HeadStep(w, "u", HEALTHY).1 == BadRequest
  {
    var w0, sweep := Created("id", "u", 1), Sweep(false, true);
    var w1 := Log(FULL.(s3 := S3(false, map[], Some([7]))), Verified([7]));
    var w2 := Log(w1.(s3 := S3(false, map[], None)), Swept);
    OneChunk(cfg, UNRECORDED);
    UnrecordedCompletion();
    assert Next(cfg, w1, sweep) == w2;
    assert [UNRECORDED, sweep][1..] == [sweep] && [sweep][1..] == [];
    assert Run(cfg, w0, [UNRECORDED, sweep]) == Run(cfg, w1, [sweep]) == Run(cfg, w2, []) == w2;
    SweptResume(w2);
  }

  // ── What ends a live session ────────────────────────────────────────────────

  /** Failed or cancelled before any job was queued. */
  ghost predicate Ended(w: World)
  {
    w.status in {Failed, Cancelled} && !SawEnqueued(w.journal)
  }

  /** No handler gets past the row: what it may still do is mark the session sniffed or cancelled. */
  lemma EndedHandlers(cfg: Settings, w: World, s: Step)
    requires ResumeInv(cfg, w) && Ended(w) && (s.Head? || s.Patch?)
    ensures var w' := Next(cfg, w, s); w'.journal == w.journal && w'.status == w.status
  {
    if s.Patch? && LoadState(w, s.user, false).Ok? {
      var h := w.hash.value;
      assert IsCancelled(w.(hash := Some(h.(sniffed := true))), h.(sniffed := true));
      assert IsCancelled(w.(hash := Some(h)), h);
    }
  }

  lemma EndedDelete(w: World, user: Id, io: DeleteIo)
    requires Ended(w)
    ensures var w' := DeleteStep(w, user, io).0; Ended(w') && Chunks(w'.journal) == Chunks(w.journal)
  {}

  lemma EndedStays(cfg: Settings, w: World, s: Step)
    requires ResumeInv(cfg, w) && Ended(w)
    ensures Ended(Next(cfg, w, s)) && Chunks(Next(cfg, w, s).journal) == Chunks(w.journal)
  {
    match s
    case Head(_, _) => EndedHandlers(cfg, w, s);
    case Patch(_, _, _, _, _) => EndedHandlers(cfg, w, s);
    case Delete(u, io) => EndedDelete(w, u, io);
    case CancelElsewhere(c) => assert ApplyCancel(w, c).journal == w.journal;
    case Sweep(_, _) =>
    case _ => assert Next(cfg, w, s).journal == w.journal;
  }

  /** The two-hour expiry of a pending row, or a cancellation, is final however active the session is:
      from then on no chunk is recorded and no job is queued, whatever happens. */
  lemma {:induction false} EndedIsFinal(cfg: Settings, w: World, steps: seq<Step>)
    requires ResumeInv(cfg, w) && Ended(w)
    ensures var w' := Run(cfg, w, steps); Ended(w') && Chunks(w'.journal) == Chunks(w.journal)
    decreases |steps|
  {
    if steps != [] {
      EndedStays(cfg, w, steps[0]);
      NextKeeps(cfg, w, steps[0]);
      EndedIsFinal(cfg, Next(cfg, w, steps[0]), steps[1..]);
    }
  }

  /** Expiry reaches every session whose row is still pending; afterwards a complete one answers
      Conflict to HEAD, and so does any session to an admissible PATCH. */
  lemma ExpiryEndsSession(cfg: Settings, uploadId: Id, user: Id, length: nat, before: seq<Step>, after: seq<Step>,
                          h: Hash, data: Bytes, io: PatchIo)
    requires length > 0 && Run(cfg, Created(uploadId, user, length), before).status == Pending
    requires !SawEnqueued(Run(cfg, Created(uploadId, user, length), before).journal)
    requires Run(cfg, Next(cfg, Run(cfg, Created(uploadId, user, length), before), RowBecomes(Failed)), after).hash
          == Some(h)
    ensures var w := Next(cfg, Run(cfg, Created(uploadId, user, length), before), RowBecomes(Failed));
            var w' := Run(cfg, w, after);
            && Ended(w') && Chunks(w'.journal) == Chunks(w.journal)
            && (h.offset == h.length ==> HeadStep(w', h.user, HEALTHY).1 == Conflict)
            && (io.sniffWrite.Done? ==> PatchStep(cfg, w', h.user, h.offset, data, false, io).1 == Conflict)
  {
    var w0 := Run(cfg, Created(uploadId, user, length), before);
    RunKeeps(cfg, Created(uploadId, user, length), before);
    var w := Next(cfg, w0, RowBecomes(Failed));
    NextKeeps(cfg, w0, RowBecomes(Failed));
    EndedIsFinal(cfg, w, after);
    RunKeeps(cfg, w, after);
  }
}
