/** The storage half of `restore_from_zip_path` as it runs: snapshot, replacement, and the
    rollback and cleanup closures over the shared flags. */
module RestoreSession {
  import opened Prelude
  import opened RestoreStorage

  datatype Entry = Entry(key: Key, bytes: Bytes)

  function AsStore(es: seq<Entry>): Store
  {
    if es == [] then map[] else AsStore(es[..|es| - 1])[es[|es| - 1].key := es[|es| - 1].bytes]
  }

  lemma AsStoreExtends(es: seq<Entry>, n: nat)
    requires n < |es|
    ensures AsStore(es[..n + 1]) == AsStore(es[..n])[es[n].key := es[n].bytes]
  {
    assert es[..n + 1][..n] == es[..n];
  }

  lemma Overlay(base: Store, top: Store, e: Entry)
    ensures (base + top)[e.key := e.bytes] == base + top[e.key := e.bytes]
  {}

  function Unmanaged(s: Store): Store { map k | k in s && !k.Managed? :: s[k] }

  /** Archive validation admits each key once and only under a managed prefix. */
  predicate ValidArchive(es: seq<Entry>)
  {
    && (forall e :: e in es ==> e.key.Managed?)
    && (forall i, j :: 0 <= i < j < |es| ==> es[i].key != es[j].key)
  }

  class Restore {
    const run: string
    const existing: seq<Key>
    const io: nat -> Io
    ghost const before: Store
    var store: Store
    var clock: nat
    var attempted: set<Key>
    var restored: set<Key>
    var rollbackCompleted: bool
    var snapshotCleaned: bool

    ghost function P(): Plan { Plan(run, before, existing) }

    ghost predicate Healthy(from: nat) { forall n: nat :: n >= from ==> io(n).Done? }

    ghost predicate Valid()
      reads this
    {
      && P().Valid()
      && P().Contained(store, attempted)
      && P().Recoverable(store)
      && (rollbackCompleted ==> store == before)
    }

    constructor (store: Store, existing: seq<Key>, run: string, io: nat -> Io)
      requires Plan(run, store, existing).Valid()
      ensures Valid() && before == this.store == store && this.existing == existing && this.run == run && this.io == io
      ensures clock == 0 && attempted == {} && restored == {} && !rollbackCompleted && !snapshotCleaned
    {
      this.store, this.before, this.existing, this.run, this.io := store, store, existing, run, io;
      clock, attempted, restored, rollbackCompleted, snapshotCleaned := 0, {}, {}, false, false;
    }

    /** One storage call; its outcome is the next entry of `io`. */
    method Invoke(c: Call) returns (ok: bool)
      modifies this`store, this`clock
      ensures store == Perform(old(store), c, io(old(clock))) && clock == old(clock) + 1
      ensures ok == (io(old(clock)).Done? && Accepted(old(store), c))
    {
      ok := io(clock).Done? && Accepted(store, c);
      store := Perform(store, c, io(clock));
      clock := clock + 1;
    }

    /** Delete the first `count` journal objects, going on after a failure. */
    method CleanupRollbackObjects(count: nat) returns (ok: bool)
      requires count <= |existing|
      modifies this`store, this`clock
      ensures forall k :: k in store ==> k in old(store) && store[k] == old(store)[k]
      ensures forall k :: k in old(store) && k !in store ==> k.Rollback? && k.run == run && k.index < count
      ensures ok ==> forall i: nat :: i < count ==> Rollback(run, i) !in store
      ensures clock == old(clock) + count && (Healthy(old(clock)) ==> ok)
    {
      ok := true;
      for i := 0 to count
        invariant clock == old(clock) + i && (Healthy(old(clock)) ==> ok)
        invariant forall k :: k in store ==> k in old(store) && store[k] == old(store)[k]
        invariant forall k :: k in old(store) && k !in store ==> k.Rollback? && k.run == run && k.index < i
        invariant ok ==> forall j: nat :: j < i ==> Rollback(run, j) !in store
      {
        var done := Invoke(Delete(Rollback(run, i)));
        if !done { ok := false; }
      }
    }

    method CleanupRollbackSnapshot() returns (ok: bool)
      modifies this`store, this`clock, this`snapshotCleaned
      ensures forall k :: k in store ==> k in old(store) && store[k] == old(store)[k]
      ensures forall k :: k in old(store) && k !in store ==> k.Rollback? && k.run == run
      ensures old(snapshotCleaned) ==> ok && store == old(store) && clock == old(clock)
      ensures ok && !old(snapshotCleaned) ==> forall i: nat :: i < |existing| ==> Rollback(run, i) !in store
      ensures snapshotCleaned == ok && clock >= old(clock) && (Healthy(old(clock)) ==> ok)
    {
      if snapshotCleaned { return true; }
      ok := CleanupRollbackObjects(|existing|);
      if ok { snapshotCleaned := true; }
    }

    ghost predicate AtMostJournal(s: Store, count: nat)
      requires P().Valid()
    {
      && (forall k :: k in before ==> k in s && s[k] == before[k])
      && (forall k :: k in s && k !in before ==> k.Rollback? && k.run == run && k.index < count)
      && (forall i: nat :: i < |existing| && Rollback(run, i) in s ==> P().Journaled(s, i))
    }

    lemma AfterCapturedCleanup(captured: nat, s: Store)
      requires P().Valid() && captured < |existing| && AtMostJournal(s, captured + 1)
      ensures P().Contained(s, {}) && P().Recoverable(s)
      ensures (forall i: nat :: i < captured ==> Rollback(run, i) !in s) ==>
                (s == before <==> Rollback(run, captured) !in s)
    {
      forall i: nat | i < |existing| ensures P().Intact(s, i) { assert existing[i] in before; }
      assert P().JournalKey(captured) !in before;
      if Rollback(run, captured) !in s && (forall i: nat :: i < captured ==> Rollback(run, i) !in s) {
        assert s == before;
      }
    }

    /** One journal copy, whatever comes of it. */
    lemma CaptureStep(prior: Store, captured: nat, o: Io)
      requires P().Valid() && captured < |existing| && AtMostJournal(prior, captured)
      requires forall i: nat :: i < captured ==> P().Journaled(prior, i)
      ensures var c := Copy(existing[captured], Rollback(run, captured));
              var s := Perform(prior, c, o);
              && Accepted(prior, c) && AtMostJournal(s, captured + 1)
              && (forall i: nat :: i < captured ==> P().Journaled(s, i))
              && (o.Applied() <==> Rollback(run, captured) in s) && (o.Applied() ==> P().Journaled(s, captured))
    {
      assert existing[captured] in before;
      assert Rollback(run, captured) !in prior;
      forall i: nat | i < captured ensures Rollback(run, i) != Rollback(run, captured) && P().Journaled(prior, i) {}
    }

    /** Copy every managed object into the journal, stopping at the first failure. */
    method CaptureAll() returns (ok: bool, captured: nat)
      requires P().Valid() && store == before
      modifies this`store, this`clock
      ensures captured <= |existing| && ok == (captured == |existing|)
      ensures AtMostJournal(store, if ok then captured else captured + 1)
      ensures forall i: nat :: i < captured ==> P().Journaled(store, i)
      ensures clock == old(clock) + captured + (if ok then 0 else 1)
      ensures forall n: nat :: old(clock) <= n < old(clock) + captured ==> io(n).Done?
      ensures !ok ==> !io(old(clock) + captured).Done?
      ensures !ok ==> (Rollback(run, captured) in store <==> io(old(clock) + captured).Unacked?)
    {
      ok, captured := true, 0;
      while captured < |existing|
        invariant captured <= |existing| && clock == old(clock) + captured
        invariant AtMostJournal(store, captured)
        invariant forall i: nat :: i < captured ==> P().Journaled(store, i)
        invariant forall n: nat :: old(clock) <= n < clock ==> io(n).Done?
      {
        CaptureStep(store, captured, io(clock));
        ok := Invoke(Copy(existing[captured], Rollback(run, captured)));
        if !ok { return; }
        captured := captured + 1;
      }
    }

    lemma AfterCapture(s: Store)
      requires P().Valid() && AtMostJournal(s, |existing|)
      ensures P().Contained(s, {}) && P().Recoverable(s) && ManagedPart(s) == ManagedPart(before)
    {
      forall i: nat | i < |existing| ensures P().Intact(s, i) { assert existing[i] in before; }
    }

    lemma FewerJournaled(s: Store, s': Store, count: nat)
      requires P().Valid() && AtMostJournal(s, count)
      requires forall k :: k in s' ==> k in s && s'[k] == s[k]
      requires forall k :: k in s && k !in s' ==> k.Rollback? && k.run == run
      ensures AtMostJournal(s', count) && ManagedPart(s') == ManagedPart(before)
    {
      forall i: nat | i < |existing| && Rollback(run, i) in s' ensures P().Journaled(s', i) {
        assert P().Journaled(s, i);
      }
    }

    /** A failed copy ends the restore after the captured copies are deleted; the one that
        failed is not among them, so its journal object survives exactly when that copy had
        taken effect. */
    method Snapshot() returns (ok: bool, captured: nat)
      requires Valid() && store == before && !rollbackCompleted && attempted == {}
      modifies this`store, this`clock
      ensures Valid() && ManagedPart(store) == ManagedPart(before)
      ensures ok ==> P().JournalComplete(store) && clock == old(clock) + |existing|
      ensures ok <==> forall n: nat :: old(clock) <= n < old(clock) + |existing| ==> io(n).Done?
      ensures clock >= old(clock)
      ensures !ok ==> !io(old(clock) + captured).Done?
      ensures !ok ==> captured < |existing| && AtMostJournal(store, captured + 1)
      ensures !ok && Healthy(old(clock) + captured + 1) ==> (store == before <==> !io(old(clock) + captured).Unacked?)
    {
      ok, captured := CaptureAll();
      if ok {
        AfterCapture(store);
      } else {
        ghost var failed := store;
        var _ := CleanupRollbackObjects(captured);
        FewerJournaled(failed, store, captured + 1);
        AfterCapturedCleanup(captured, store);
      }
    }

    method CopyBackOne(i: nat) returns (ok: bool)
      requires P().Valid() && P().Contained(store, attempted) && P().Recoverable(store) && i < |existing|
      modifies this`store, this`clock
      ensures P().Contained(store, attempted) && P().Recoverable(store) && clock == old(clock) + 1
      ensures P().JournalComplete(old(store)) ==> P().JournalComplete(store) && (io(old(clock)).Done? ==> ok)
      ensures ok ==> P().Intact(store, i)
      ensures forall j: nat :: j < |existing| && P().Intact(old(store), j) ==> P().Intact(store, j)
    {
      assert P().JournalComplete(store) ==> P().Journaled(store, i);
      ok := Invoke(Copy(Rollback(run, i), existing[i]));
      CopyBackStep(P(), old(store), attempted, i, io(old(clock)));
    }

    /** Copy each journal entry back over its key, going on after a failure. */
    method CopyBackAll() returns (ok: bool)
      requires Valid()
      modifies this`store, this`clock
      ensures P().Contained(store, attempted) && P().Recoverable(store) && clock >= old(clock)
      ensures ok ==> forall j: nat :: j < |existing| ==> P().Intact(store, j)
      ensures P().JournalComplete(old(store)) && Healthy(old(clock)) ==> ok
    {
      ok := true;
      ghost var p := P();
      for i := 0 to |existing|
        invariant p.Contained(store, attempted) && p.Recoverable(store) && clock >= old(clock)
        invariant p.JournalComplete(old(store)) ==> p.JournalComplete(store)
        invariant ok ==> forall j: nat :: j < i ==> p.Intact(store, j)
        invariant p.JournalComplete(old(store)) && Healthy(old(clock)) ==> ok
      {
        var done := CopyBackOne(i);
        if !done { ok := false; }
      }
    }

    /** Delete every key an upload was attempted for that did not exist before. */
    method DeleteAdded() returns (ok: bool)
      requires Valid()
      modifies this`store, this`clock
      ensures P().Contained(store, attempted) && P().Recoverable(store) && clock >= old(clock)
      ensures forall j: nat :: j < |existing| && P().Intact(old(store), j) ==> P().Intact(store, j)
      ensures ok ==> forall k :: k in store && k.Managed? ==> k in before
      ensures Healthy(old(clock)) ==> ok
    {
      ok := true;
      ghost var p := P();
      var added := attempted - (set k | k in existing);
      while added != {}
        invariant added <= attempted && (forall k :: k in added ==> k !in existing) && clock >= old(clock)
        invariant p.Contained(store, attempted) && p.Recoverable(store)
        invariant forall j: nat :: j < |existing| && p.Intact(old(store), j) ==> p.Intact(store, j)
        invariant ok ==> forall k :: k in store && k.Managed? && k !in before ==> k in added
        invariant Healthy(old(clock)) ==> ok
        decreases added
      {
        var k :| k in added;
        ghost var prior := store;
        var done := Invoke(Delete(k));
        DeleteAddedStep(p, prior, attempted, k, io(clock - 1));
        if !done { ok := false; }
        added := added - {k};
      }
    }

    /** Put every old object back, remove every attempted new key, then drop the journal. */
    method RollbackStorage() returns (ok: bool)
      requires Valid() && (snapshotCleaned ==> rollbackCompleted)
      modifies this`store, this`clock, this`rollbackCompleted, this`snapshotCleaned
      ensures Valid() && (snapshotCleaned ==> rollbackCompleted)
      ensures old(rollbackCompleted) ==> ok && store == old(store) && clock == old(clock)
      ensures ok == rollbackCompleted && (ok ==> store == before) && clock >= old(clock)
      ensures P().JournalComplete(old(store)) && Healthy(old(clock)) ==> ok
    {
      if rollbackCompleted { return true; }
      var copied := CopyBackAll();
      var removed := DeleteAdded();
      if !copied || !removed { return false; }
      ghost var settled := store;
      ok := CleanupRollbackSnapshot();
      AfterCleanup(P(), settled, store, attempted);
      if ok { rollbackCompleted := true; }
    }

    /** Storage as the replacement runs: contained, with a complete journal. */
    ghost predicate Replacing()
      reads this
    {
      P().Valid() && P().Contained(store, attempted) && P().JournalComplete(store) && P().Recoverable(store)
    }

    /** Recorded before the call, so that an upload whose reply is lost is still undone. */
    method UploadOne(entry: Entry) returns (ok: bool)
      requires Replacing() && entry.key.Managed?
      modifies this`store, this`clock, this`attempted, this`restored
      ensures Replacing() && clock == old(clock) + 1 && ok == io(old(clock)).Done?
      ensures attempted == old(attempted) + {entry.key}
      ensures ok ==> restored == old(restored) + {entry.key}
                     && ManagedPart(store) == ManagedPart(old(store))[entry.key := entry.bytes]
    {
      attempted := attempted + {entry.key};
      ok := Invoke(Upload(entry.key, entry.bytes));
      UploadStep(P(), old(store), old(attempted), entry.key, entry.bytes, io(old(clock)));
      if ok { restored := restored + {entry.key}; }
    }

    method UploadAll(archive: seq<Entry>) returns (ok: bool)
      requires Replacing() && ManagedPart(store) == ManagedPart(before) && ValidArchive(archive)
      requires attempted == {} && restored == {}
      modifies this`store, this`clock, this`attempted, this`restored
      ensures Replacing() && clock >= old(clock) && (Healthy(old(clock)) ==> ok)
      ensures !ok ==> clock > old(clock) && !io(clock - 1).Done?
      ensures ok ==> restored == AsStore(archive).Keys
                     && ManagedPart(store) == ManagedPart(before) + AsStore(archive)
    {
      for index := 0 to |archive|
        invariant Replacing() && clock >= old(clock)
        invariant restored == AsStore(archive[..index]).Keys
        invariant ManagedPart(store) == ManagedPart(before) + AsStore(archive[..index])
      {
        ok := UploadOne(archive[index]);
        if !ok { return; }
        AsStoreExtends(archive, index);
        Overlay(ManagedPart(before), AsStore(archive[..index]), archive[index]);
      }
      assert archive[..|archive|] == archive;
      ok := true;
    }

    method DeleteStaleOne(k: Key) returns (ok: bool)
      requires Replacing() && k in existing
      modifies this`store, this`clock
      ensures Replacing() && clock == old(clock) + 1 && ok == io(old(clock)).Done?
      ensures ok ==> ManagedPart(store) == ManagedPart(old(store)) - {k}
    {
      ok := Invoke(Delete(k));
      DeleteStaleStep(P(), old(store), attempted, k, io(old(clock)));
    }

    method DeleteStale(archive: seq<Entry>) returns (ok: bool)
      requires Replacing() && restored == AsStore(archive).Keys
      requires ManagedPart(store) == ManagedPart(before) + AsStore(archive)
      modifies this`store, this`clock
      ensures Replacing() && clock >= old(clock) && (Healthy(old(clock)) ==> ok)
      ensures !ok ==> clock > old(clock) && !io(clock - 1).Done?
      ensures ok ==> ManagedPart(store) == AsStore(archive)
    {
      var stale := (set k | k in existing) - restored;
      ghost var full, all := ManagedPart(store), stale;
      while stale != {}
        invariant Replacing() && clock >= old(clock) && stale <= all
        invariant ManagedPart(store) == full - (all - stale)
        decreases stale
      {
        var k :| k in stale;
        ok := DeleteStaleOne(k);
        if !ok { return; }
        assert full - (all - stale) - {k} == full - (all - (stale - {k}));
        stale := stale - {k};
      }
      StaleDropped(archive, all);
      assert all - stale == all;
      ok := true;
    }

    lemma StaleDropped(archive: seq<Entry>, all: set<Key>)
      requires P().Valid() && all == (set k | k in existing) - AsStore(archive).Keys
      ensures ManagedPart(before) + AsStore(archive) - all == AsStore(archive)
    {}

    /** Upload the archive, then delete what it does not contain; compensate on any failure. */
    method Replace(archive: seq<Entry>) returns (ok: bool, ghost compensatedFrom: nat)
      requires Valid() && P().JournalComplete(store) && ManagedPart(store) == ManagedPart(before)
      requires ValidArchive(archive)
      requires attempted == {} && restored == {} && !rollbackCompleted && !snapshotCleaned
      modifies this
      ensures Valid() && (snapshotCleaned ==> rollbackCompleted)
      ensures clock >= old(clock) && (Healthy(old(clock)) ==> ok)
      ensures ok ==> ManagedPart(store) == AsStore(archive) && P().JournalComplete(store)
                     && !rollbackCompleted && !snapshotCleaned
      ensures !ok && Healthy(compensatedFrom) ==> rollbackCompleted && store == before
      ensures !ok ==> old(clock) < compensatedFrom && !io(compensatedFrom - 1).Done?
    {
      compensatedFrom := 0;
      ok := UploadAll(archive);
      if ok { ok := DeleteStale(archive); }
      if !ok {
        compensatedFrom := clock;
        var _ := RollbackStorage();
      }
    }

    /** The whole storage half.  The callbacks are registered once the snapshot stands: a managed
        request transaction finalises the journal later, from its own commit or rollback; otherwise the
        journal is dropped here, and a failure to drop it is reported after the replacement has
        happened.  When nothing is replaced, `from` is the first call after the one that failed. */
    method Run(archive: seq<Entry>, managedTransaction: bool)
      returns (registered: bool, replaced: bool, ok: bool, ghost from: nat)
      requires Valid() && store == before && ValidArchive(archive)
      requires attempted == {} && restored == {} && !rollbackCompleted && !snapshotCleaned
      modifies this
      ensures P().Contained(store, attempted) && clock >= old(clock)
      ensures registered <==> forall n: nat :: old(clock) <= n < old(clock) + |existing| ==> io(n).Done?
      ensures replaced ==> registered && ManagedPart(store) == AsStore(archive)
      ensures replaced && managedTransaction ==>
                ok && Valid() && P().JournalComplete(store) && !rollbackCompleted && !snapshotCleaned
      ensures ok && !managedTransaction ==> forall k :: k in store && k.Rollback? ==> k.run != run
      ensures !replaced ==> !ok && Valid() && (snapshotCleaned ==> rollbackCompleted)
      ensures !replaced ==> old(clock) < from && !io(from - 1).Done?
      ensures !registered ==> ManagedPart(store) == ManagedPart(before)
      ensures !registered && Healthy(from) ==> (store == before <==> !io(from - 1).Unacked?)
      ensures registered && !replaced && Healthy(from) ==> rollbackCompleted && store == before
      ensures Healthy(old(clock)) ==> ok && replaced
    {
      var captured;
      from := clock;
      registered, captured := Snapshot();
      if !registered {
        from := from + captured + 1;
        return false, false, false, from;
      }
      replaced, from := Replace(archive);
      ok := replaced;
      if replaced && !managedTransaction {
        ghost var settled := store;
        ok := CleanupRollbackSnapshot();
        assert ManagedPart(store) == ManagedPart(settled);
      }
    }

    lemma JournalGone(s: Store)
      requires P().Contained(s, attempted) && P().Valid()
      requires forall i: nat :: i < |existing| ==> Rollback(run, i) !in s
      ensures Unmanaged(s) == Unmanaged(before)
    {
      forall k: Key | !k.Managed? ensures (k in s <==> k in before) && (k in s ==> s[k] == before[k]) {
        if k.Rollback? { assert k == Rollback(k.run, k.index); }
      }
    }

    /** A restore inside a request transaction, whose commit drops the journal and whose rollback undoes
        the replacement once more, doing nothing if that has already been done.  A committed restore has
        replaced the managed namespace and nothing else; a rolled back one has changed nothing. */
    method InTransaction(archive: seq<Entry>, commits: bool) returns (registered: bool, replaced: bool, ok: bool)
      requires Valid() && store == before && ValidArchive(archive)
      requires attempted == {} && restored == {} && !rollbackCompleted && !snapshotCleaned
      modifies this
      ensures replaced && commits ==> ManagedPart(store) == AsStore(archive)
      ensures replaced && commits && ok ==> Unmanaged(store) == Unmanaged(before)
      ensures registered && !(replaced && commits) && ok ==> store == before
      ensures !(replaced && commits) ==> Valid()
      ensures !registered ==> ManagedPart(store) == ManagedPart(before)
      ensures Healthy(old(clock)) ==> registered && replaced && ok
    {
      ghost var from;
      registered, replaced, ok, from := Run(archive, true);
      if replaced && commits {
        ghost var settled := store;
        ok := CleanupRollbackSnapshot();
        assert ManagedPart(store) == ManagedPart(settled);
        if ok { JournalGone(store); }
      } else if registered {
        ok := RollbackStorage();
      }
    }
  }

  /** A copy that takes effect and is reported as failed leaves its journal object behind: it is not
      among the captured keys that the failed snapshot deletes. */
  method UnackedCopyIsLeft(bytes: Bytes) returns (ok: bool, left: Store)
    ensures !ok && left == map[Managed("material", "a") := bytes, Rollback("run", 0) := bytes]
  {
    var before := map[Managed("material", "a") := bytes];
    var restore := new Restore(before, [Managed("material", "a")], "run", n => if n == 0 then Unacked else Done);
    var captured;
    ok, captured := restore.Snapshot();
    left := restore.store;
    assert !restore.io(0).Done? && captured == 0;
    assert left != before by { assert restore.Healthy(1); }
    var copy := Rollback("run", 0);
    assert forall k :: k in left && k !in before ==> k == copy;
    assert copy in left;
    assert restore.P().Journaled(left, 0);
  }
}
