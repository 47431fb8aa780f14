/** Full-replacement restore of object storage, with its rollback journal.

    Storage has no multi-object transaction, so every managed object is first copied under
    a fresh `restore-rollback/` prefix.  Any call may fail with or without having taken
    effect; `io` fixes the outcome of the n-th storage call, so a result proved for every
    `io` holds for every pattern of failures. */
module RestoreStorage {
  import opened Prelude

  /** Keys by prefix: the four managed prefixes, the journal of one restore, the rest. */
  datatype Key =
    | Managed(prefix: string, name: string)
    | Rollback(run: string, index: nat)
    | Other(name: string)

  type Bytes = seq<int>
  type Store = map<Key, Bytes>

  function ManagedPart(s: Store): Store { map k | k in s && k.Managed? :: s[k] }

  datatype Call = Copy(src: Key, dst: Key) | Upload(key: Key, bytes: Bytes) | Delete(key: Key)

  /** A copy whose source is missing is refused by storage. */
  predicate Accepted(s: Store, c: Call) { c.Copy? ==> c.src in s }

  function Perform(s: Store, c: Call, io: Io): Store
  {
    if !io.Applied() || !Accepted(s, c) then s
    else match c
         case Copy(src, dst) => s[dst := s[src]]
         case Upload(k, b) => s[k := b]
         case Delete(k) => s - {k}
  }

  /** What is known of storage while one restore is under way: `before` is the storage at the
      start, `existing` its managed keys in listing order, `attempted` the keys an upload was
      ever tried for. */
  datatype Plan = Plan(run: string, before: Store, existing: seq<Key>) {
    function JournalKey(i: nat): Key { Rollback(run, i) }

    ghost predicate Valid()
    {
      && (forall k :: k in existing <==> k in before && k.Managed?)
      && (forall i, j :: 0 <= i < j < |existing| ==> existing[i] != existing[j])
      && (forall k :: k in before && k.Rollback? ==> k.run != run)
    }

    /** Nothing outside the managed keys and this journal differs, and a managed key that was
        not there before has been attempted. */
    ghost predicate Contained(s: Store, attempted: set<Key>)
    {
      && (forall k :: k in attempted ==> k.Managed?)
      && (forall k: Key :: !k.Managed? && !(k.Rollback? && k.run == run) ==>
            (k in s <==> k in before) && (k in s ==> s[k] == before[k]))
      && (forall k :: k in s && k.Rollback? && k.run == run ==> k.index < |existing|)
      && (forall k :: k in s && k.Managed? && k !in before ==> k in attempted)
    }

    ghost predicate Intact(s: Store, i: nat) requires Valid() && i < |existing|
    {
      existing[i] in s && s[existing[i]] == before[existing[i]]
    }

    ghost predicate Journaled(s: Store, i: nat) requires Valid() && i < |existing|
    {
      JournalKey(i) in s && s[JournalKey(i)] == before[existing[i]]
    }

    ghost predicate JournalComplete(s: Store) requires Valid()
    {
      forall i: nat :: i < |existing| ==> Journaled(s, i)
    }

    /** No pre-restore object is lost: its bytes are at its key or in the journal, and a
        journal entry is never wrong. */
    ghost predicate Recoverable(s: Store) requires Valid()
    {
      && (forall i: nat :: i < |existing| ==> Journaled(s, i) || Intact(s, i))
      && (forall i: nat :: i < |existing| && JournalKey(i) in s ==> Journaled(s, i))
    }
  }

  // ── Replacement calls, in any order and with any outcome ────────────────────

  /** The calls a replacement may make: uploads it has recorded, deletions of old keys. */
  ghost predicate ReplacementCall(p: Plan, attempted: set<Key>, c: Call)
  {
    match c
    case Upload(k, _) => k in attempted
    case Delete(k) => k in p.existing
    case Copy(_, _) => false
  }

  function PerformAll(s: Store, calls: seq<(Call, Io)>): Store
    decreases |calls|
  {
    if calls == [] then s else PerformAll(Perform(s, calls[0].0, calls[0].1), calls[1..])
  }

  /** The compensation of a replacement: copy every journal entry back, delete every attempted
      new key, then delete the journal. */
  function CopyBack(p: Plan, i: nat): seq<(Call, Io)>
    requires i <= |p.existing|
    decreases |p.existing| - i
  {
    if i == |p.existing| then [] else [(Copy(p.JournalKey(i), p.existing[i]), Done)] + CopyBack(p, i + 1)
  }

  function DeleteAll(ks: seq<Key>): seq<(Call, Io)>
  {
    if ks == [] then [] else [(Delete(ks[0]), Done)] + DeleteAll(ks[1..])
  }

  function JournalKeys(p: Plan): seq<Key> { seq(|p.existing|, i requires 0 <= i < |p.existing| => p.JournalKey(i)) }

  lemma {:induction false} ReplacementIsContained(p: Plan, s: Store, attempted: set<Key>, calls: seq<(Call, Io)>)
    requires p.Valid() && p.JournalComplete(s) && p.Contained(s, attempted)
    requires forall c :: c in calls ==> ReplacementCall(p, attempted, c.0)
    ensures p.JournalComplete(PerformAll(s, calls)) && p.Contained(PerformAll(s, calls), attempted)
    decreases |calls|
  {
    if calls != [] {
      var s1 := Perform(s, calls[0].0, calls[0].1);
      assert ReplacementCall(p, attempted, calls[0].0);
      assert forall i: nat :: i < |p.existing| ==> p.Journaled(s, i) ==> p.Journaled(s1, i);
      ReplacementIsContained(p, s1, attempted, calls[1..]);
    }
  }

  lemma {:induction false} CopyBackRestores(p: Plan, s: Store, attempted: set<Key>, i: nat)
    requires p.Valid() && p.JournalComplete(s) && p.Contained(s, attempted) && i <= |p.existing|
    requires forall j: nat :: j < i ==> p.Intact(s, j)
    ensures var s' := PerformAll(s, CopyBack(p, i));
            && p.JournalComplete(s') && p.Contained(s', attempted)
            && (forall j: nat :: j < |p.existing| ==> p.Intact(s', j))
    decreases |p.existing| - i
  {
    if i < |p.existing| {
      var s1 := Perform(s, Copy(p.JournalKey(i), p.existing[i]), Done);
      assert p.Journaled(s, i);
      assert forall j: nat :: j < |p.existing| && p.Journaled(s, j) ==> p.Journaled(s1, j);
      forall j: nat | j < i ensures p.Intact(s1, j) { assert p.Intact(s, j) && p.existing[j] != p.existing[i]; }
      CopyBackRestores(p, s1, attempted, i + 1);
      assert CopyBack(p, i)[1..] == CopyBack(p, i + 1);
    }
  }

  lemma {:induction false} DeleteAllRemoves(s: Store, ks: seq<Key>)
    ensures PerformAll(s, DeleteAll(ks)) == s - (set k | k in ks)
  {
    if ks != [] {
      assert DeleteAll(ks)[1..] == DeleteAll(ks[1..]);
      DeleteAllRemoves(s - {ks[0]}, ks[1..]);
      assert s - {ks[0]} - (set k | k in ks[1..]) == s - (set k | k in ks);
    }
  }

  lemma {:induction false} PerformAllConcat(s: Store, a: seq<(Call, Io)>, b: seq<(Call, Io)>)
    ensures PerformAll(s, a + b) == PerformAll(PerformAll(s, a), b)
    decreases |a|
  {
    if a == [] {
      assert a + b == b;
    } else {
      assert (a + b)[1..] == a[1..] + b;
      PerformAllConcat(Perform(s, a[0].0, a[0].1), a[1..], b);
    }
  }

  /** Any replacement calls with any outcomes, lost acknowledgements included, followed by a
      compensation whose own calls succeed, leave storage exactly as it was: every key, managed
      or not, and no journal object. */
  lemma CompensationIsExact(p: Plan, s: Store, attempted: set<Key>, added: seq<Key>, calls: seq<(Call, Io)>)
    requires p.Valid() && p.JournalComplete(s) && p.Contained(s, attempted)
    requires forall c :: c in calls ==> ReplacementCall(p, attempted, c.0)
    requires forall k :: k in added <==> k in attempted && k !in p.existing
    ensures PerformAll(s, calls + CopyBack(p, 0) + DeleteAll(added) + DeleteAll(JournalKeys(p))) == p.before
  {
    var s1 := PerformAll(s, calls);
    ReplacementIsContained(p, s, attempted, calls);
    var s2 := PerformAll(s1, CopyBack(p, 0));
    CopyBackRestores(p, s1, attempted, 0);
    PerformAllConcat(s, calls, CopyBack(p, 0));
    PerformAllConcat(s, calls + CopyBack(p, 0), DeleteAll(added));
    PerformAllConcat(s, calls + CopyBack(p, 0) + DeleteAll(added), DeleteAll(JournalKeys(p)));
    DeleteAllRemoves(s2, added);
    var s3 := s2 - (set k | k in added);
    DeleteAllRemoves(s3, JournalKeys(p));
    CleanedEqualsBefore(p, s2, attempted, added);
  }

  lemma CleanedEqualsBefore(p: Plan, s: Store, attempted: set<Key>, added: seq<Key>)
    requires p.Valid() && p.Contained(s, attempted)
    requires forall j: nat :: j < |p.existing| ==> p.Intact(s, j)
    requires forall k :: k in added <==> k in attempted && k !in p.existing
    ensures s - (set k | k in added) - (set k | k in JournalKeys(p)) == p.before
  {
    var s' := s - (set k | k in added) - (set k | k in JournalKeys(p));
    forall k: Key ensures (k in s' <==> k in p.before) && (k in s' ==> s'[k] == p.before[k]) {
      match k
      case Managed(_, _) =>
        assert k !in JournalKeys(p);
        if k in p.existing {
          var j :| 0 <= j < |p.existing| && p.existing[j] == k;
          assert p.Intact(s, j);
        }
      case Rollback(run, index) =>
        if run == p.run {
          assert k == p.JournalKey(index);
          if index < |p.existing| { assert k == JournalKeys(p)[index]; }
        } else {
          assert k !in JournalKeys(p) && k !in added;
        }
      case Other(_) => assert k !in JournalKeys(p) && k !in added;
    }
  }

  // ── One call at a time ──────────────────────────────────────────────────────

  lemma CopyBackStep(p: Plan, s: Store, attempted: set<Key>, i: nat, io: Io)
    requires p.Valid() && p.Contained(s, attempted) && p.Recoverable(s) && i < |p.existing|
    ensures var c := Copy(Rollback(p.run, i), p.existing[i]);
            var s' := Perform(s, c, io);
            && p.Contained(s', attempted) && p.Recoverable(s')
            && (p.JournalComplete(s) ==> p.JournalComplete(s'))
            && (io.Done? && Accepted(s, c) ==> p.Intact(s', i))
            && (forall j: nat :: j < |p.existing| && p.Intact(s, j) ==> p.Intact(s', j))
  {
    var s' := Perform(s, Copy(p.JournalKey(i), p.existing[i]), io);
    assert p.JournalKey(i) in s ==> p.Journaled(s, i);
    assert p.existing[i] in p.before;
    forall j: nat | j < |p.existing|
      ensures (p.Intact(s, j) ==> p.Intact(s', j)) && (p.Journaled(s, j) ==> p.Journaled(s', j))
      ensures p.JournalKey(j) in s' ==> p.JournalKey(j) in s
    {}
  }

  lemma DeleteAddedStep(p: Plan, s: Store, attempted: set<Key>, k: Key, io: Io)
    requires p.Valid() && p.Contained(s, attempted) && p.Recoverable(s) && k in attempted && k !in p.existing
    ensures var s' := Perform(s, Delete(k), io);
            && p.Contained(s', attempted) && p.Recoverable(s')
            && (p.JournalComplete(s) ==> p.JournalComplete(s'))
            && (forall j: nat :: j < |p.existing| && p.Intact(s, j) ==> p.Intact(s', j))
  {
    var s' := Perform(s, Delete(k), io);
    forall j: nat | j < |p.existing|
      ensures (p.Intact(s, j) ==> p.Intact(s', j)) && (p.Journaled(s, j) ==> p.Journaled(s', j))
      ensures p.JournalKey(j) in s' ==> p.JournalKey(j) in s
    {}
  }

  lemma UploadStep(p: Plan, s: Store, attempted: set<Key>, k: Key, bytes: Bytes, io: Io)
    requires p.Valid() && p.Contained(s, attempted) && p.JournalComplete(s) && k.Managed?
    ensures var s' := Perform(s, Upload(k, bytes), io);
            && p.Contained(s', attempted + {k}) && p.JournalComplete(s') && p.Recoverable(s')
            && (io.Applied() ==> ManagedPart(s') == ManagedPart(s)[k := bytes])
  {
    var s' := Perform(s, Upload(k, bytes), io);
    forall j: nat | j < |p.existing| ensures p.Journaled(s', j) { assert p.Journaled(s, j); }
  }

  lemma DeleteStaleStep(p: Plan, s: Store, attempted: set<Key>, k: Key, io: Io)
    requires p.Valid() && p.Contained(s, attempted) && p.JournalComplete(s) && k in p.existing
    ensures var s' := Perform(s, Delete(k), io);
            && p.Contained(s', attempted) && p.JournalComplete(s') && p.Recoverable(s')
            && (io.Applied() ==> ManagedPart(s') == ManagedPart(s) - {k})
  {
    var s' := Perform(s, Delete(k), io);
    assert k in p.before;
    forall j: nat | j < |p.existing| ensures p.Journaled(s', j) { assert p.Journaled(s, j); }
  }

  /** Deleting journal objects once everything is back in place. */
  lemma AfterCleanup(p: Plan, s: Store, s': Store, attempted: set<Key>)
    requires p.Valid() && p.Contained(s, attempted)
    requires forall j: nat :: j < |p.existing| ==> p.Intact(s, j)
    requires p.Recoverable(s)
    requires forall k :: k in s && k.Managed? ==> k in p.before
    requires forall k :: k in s' ==> k in s && s'[k] == s[k]
    requires forall k :: k in s && k !in s' ==> k.Rollback? && k.run == p.run
    ensures p.Contained(s', attempted) && p.Recoverable(s')
    ensures (forall i: nat :: i < |p.existing| ==> p.JournalKey(i) !in s') ==> s' == p.before
  {
    forall j: nat | j < |p.existing| ensures p.Intact(s', j) { assert p.Intact(s, j); }
    assert forall i: nat :: p.JournalKey(i) !in p.before;
    if forall i: nat :: i < |p.existing| ==> p.JournalKey(i) !in s' {
      forall k: Key ensures (k in s' <==> k in p.before) && (k in s' ==> s'[k] == p.before[k]) {
        if k.Managed? && k in p.before {
          assert k in p.existing;
          var j :| 0 <= j < |p.existing| && p.existing[j] == k;
          assert p.Intact(s', j);
        }
        if k.Rollback? && k.run == p.run { assert k == p.JournalKey(k.index); }
      }
    }
  }
}
