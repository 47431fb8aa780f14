/** Content-addressed objects: staging, submission and two deleters that share one lock per key. */
module StorageGc {
  import opened Prelude

  type Key = string
  type Id = string

  const CLAIM_TTL: nat := 48 * 3600

  /** A staging claim: what it protects, until when, and whether a submission consumed it. */
  datatype Claim = Claim(key: Key, expires: nat, consumed: bool)

  /** A row that keeps its key: a pull request's file claim or a material version. `until` is history:
      when the claim it came from expires. */
  datatype Owner = Owner(submission: Id, key: Key, until: nat)

  /** The advisory lock of a key: a staging request with its claim's identifier and how far it has
      got, or one of the deleters with what its re-check found. */
  datatype Holder =
    | Staging(claim: Id, uploaded: bool, referenced: bool)
    | Collecting(who: Id, dead: bool)

  /** `refs` holds the references counted in Redis, each named by the claim it was taken for. `open`
      maps a submission in flight to the claims it has read and row-locked. */
  datatype World = World(now: nat, objects: set<Key>, claims: map<Id, Claim>, owners: set<Owner>,
                         refs: map<Id, Key>, locks: map<Key, Holder>, open: map<Id, set<Id>>)

  predicate ClaimLive(c: Claim, now: nat) { c.consumed || now < c.expires }

  /** `storage_key_is_live`, as far as database rows go. */
  predicate KeyLive(w: World, k: Key)
  {
    || (exists o :: o in w.owners && o.key == k)
    || (exists c :: c in w.claims && w.claims[c].key == k && ClaimLive(w.claims[c], w.now))
  }

  /** The key's record exists in Redis. */
  predicate Referenced(w: World, k: Key) { exists c :: c in w.refs && w.refs[c] == k }

  /** `Release` is a decrement by the expiry job, a closed contribution or a compensated staging
      request; `EvictRefs` is Redis losing the record; a check may find Redis unanswering. */
  datatype Step =
    | Tick(to: nat)
    | StageLock(key: Key, claim: Id)
    | StageUpload(key: Key)
    | StageRef(key: Key)
    | StageCommit(key: Key, added: nat)
    | CollectLock(key: Key, who: Id)
    | CollectCheck(key: Key, who: Id, answered: bool)
    | CollectDelete(key: Key, who: Id)
    | Unlock(key: Key)
    | Submit(submission: Id, claims: set<Id>)
    | SubmitCommit(submission: Id)
    | SubmitAbort(submission: Id)
    | DropOwner(owner: Owner)
    | PurgeClaim(claim: Id)
    | Release(claim: Id)
    | EvictRefs(key: Key)

  predicate RowLocked(w: World, c: Id) { exists s :: s in w.open && c in w.open[s] }

  predicate BeingStaged(w: World, c: Id)
  {
    exists k :: k in w.locks && w.locks[k].Staging? && w.locks[k].claim == c
  }

  predicate Collects(w: World, k: Key, who: Id) { k in w.locks && w.locks[k].Collecting? && w.locks[k].who == who }

  /** A submission reads its claims unconsumed and unexpired, and sees the objects in place. */
  predicate CanSubmit(w: World, s: Id, claims: set<Id>)
  {
    && s !in w.open
    && forall c :: c in claims ==>
         c in w.claims && !w.claims[c].consumed && w.now < w.claims[c].expires
         && w.claims[c].key in w.objects && !RowLocked(w, c)
  }

  function Consume(claims: map<Id, Claim>, ids: set<Id>): map<Id, Claim>
  {
    map c | c in claims :: if c in ids then claims[c].(consumed := true) else claims[c]
  }

  function Published(w: World, s: Id): set<Owner>
    requires s in w.open
  {
    set c | c in w.open[s] && c in w.claims :: Owner(s, w.claims[c].key, w.claims[c].expires)
  }

  function Next(w: World, s: Step): World
  {
    match s
    case Tick(to) => if to < w.now then w else w.(now := to)
    case StageLock(k, c) =>
      if k in w.locks || c in w.claims || c in w.refs || BeingStaged(w, c) then w
      else w.(locks := w.locks[k := Staging(c, false, false)])
    case StageUpload(k) =>
      if k in w.locks && w.locks[k].Staging? then
        w.(objects := w.objects + {k}, locks := w.locks[k := w.locks[k].(uploaded := true)])
      else w
    case StageRef(k) =>
      if k in w.locks && w.locks[k].Staging? && w.locks[k].uploaded then
        w.(refs := w.refs[w.locks[k].claim := k], locks := w.locks[k := w.locks[k].(referenced := true)])
      else w
    case StageCommit(k, added) =>
      if k in w.locks && w.locks[k].Staging? && w.locks[k].referenced && added <= w.now then
        w.(claims := w.claims[w.locks[k].claim := Claim(k, added + CLAIM_TTL, false)], locks := w.locks - {k})
      else w
    case CollectLock(k, who) => if k in w.locks then w else w.(locks := w.locks[k := Collecting(who, false)])
    case CollectCheck(k, who, answered) =>
      if Collects(w, k, who) then
        w.(locks := w.locks[k := Collecting(who, !KeyLive(w, k) && !(answered && Referenced(w, k)))])
      else w
    case CollectDelete(k, who) =>
      if Collects(w, k, who) && w.locks[k].dead then w.(objects := w.objects - {k}) else w
    case Unlock(k) => w.(locks := w.locks - {k})
    case Submit(sub, claims) => if CanSubmit(w, sub, claims) then w.(open := w.open[sub := claims]) else w
    case SubmitCommit(sub) =>
      if sub in w.open then
        w.(claims := Consume(w.claims, w.open[sub]), owners := w.owners + Published(w, sub), open := w.open - {sub})
      else w
    case SubmitAbort(sub) => w.(open := w.open - {sub})
    case DropOwner(o) => w.(owners := w.owners - {o})
    case PurgeClaim(c) =>
      if c in w.claims && w.claims[c].expires < w.now && !RowLocked(w, c) then w.(claims := w.claims - {c}) else w
    case Release(c) =>
      if (c in w.claims && !w.claims[c].consumed) || BeingStaged(w, c) then w else w.(refs := w.refs - {c})
    case EvictRefs(k) => w.(refs := map c | c in w.refs && w.refs[c] != k :: w.refs[c])
  }

  datatype Trace = Start | Then(before: Trace, step: Step)

  function Run(t: Trace): World
  {
    match t
    case Start => World(0, {}, map[], {}, map[], map[], map[])
    case Then(before, s) => Next(Run(before), s)
  }

  /** Every row that keeps a key finds its object. */
  ghost predicate Safe(w: World)
  {
    forall k :: KeyLive(w, k) ==> k in w.objects
  }

  /** Whether submission `s` would commit less than `late` after each of its claims has expired. */
  predicate InTime(w: World, s: Id, late: nat)
  {
    s in w.open ==> forall c :: c in w.open[s] && c in w.claims ==> w.now < w.claims[c].expires + late
  }

  /** Every submission of the run commits less than `late` after its claims' expiry. */
  predicate Within(t: Trace, late: nat)
  {
    t.Then? ==> Within(t.before, late) && (t.step.SubmitCommit? ==> InTime(Run(t.before), t.step.submission, late))
  }

  /** Redis loses no reference and answers every check. */
  predicate Lossless(t: Trace)
  {
    t.Then? ==> Lossless(t.before) && !t.step.EvictRefs? && (t.step.CollectCheck? ==> t.step.answered)
  }

  // ── What every run keeps ────────────────────────────────────────────────────

  ghost predicate OpenOk(w: World)
  {
    && (forall s, c :: s in w.open && c in w.open[s] ==> c in w.claims && !w.claims[c].consumed)
    && (forall s, s', c :: s in w.open && s' in w.open && c in w.open[s] && c in w.open[s'] ==> s == s')
  }

  /** A staged claim's identifier is used for nothing else, and its object is there once uploaded. */
  ghost predicate StagingOk(w: World)
  {
    && (forall k :: k in w.locks && w.locks[k].Staging? ==>
          w.locks[k].claim !in w.claims && (w.locks[k].referenced ==> w.locks[k].uploaded))
    && (forall k, k' :: k in w.locks && k' in w.locks && w.locks[k].Staging? && w.locks[k'].Staging? ==>
          w.locks[k].claim == w.locks[k'].claim ==> k == k')
    && (forall k :: k in w.locks && w.locks[k].Staging? && w.locks[k].uploaded ==> k in w.objects)
  }

  /** The claim behind an owner row is still there until it expires. */
  ghost predicate WindowOk(w: World)
  {
    forall o :: o in w.owners && w.now <= o.until ==> Window(w, o)
  }

  ghost predicate Window(w: World, o: Owner)
  {
    exists c :: c in w.claims && w.claims[c] == Claim(o.key, o.until, true)
  }

  lemma SubmitKeepsOpen(w: World, sub: Id, claims: set<Id>)
    requires OpenOk(w)
    ensures OpenOk(Next(w, Submit(sub, claims)))
  {
    if CanSubmit(w, sub, claims) {
      assert forall c :: c in claims ==> !RowLocked(w, c);
      assert forall s, c :: s in w.open && c in w.open[s] ==> RowLocked(w, c);
    }
  }

  lemma CommitKeepsOpen(w: World, sub: Id)
    requires OpenOk(w)
    ensures OpenOk(Next(w, SubmitCommit(sub)))
  {}

  lemma PurgeKeepsOpen(w: World, c: Id)
    requires OpenOk(w)
    ensures OpenOk(Next(w, PurgeClaim(c)))
  {
    assert forall s, d :: s in w.open && d in w.open[s] ==> RowLocked(w, d);
  }

  lemma NextKeepsOpen(w: World, s: Step)
    requires OpenOk(w) && StagingOk(w)
    ensures OpenOk(Next(w, s))
  {
    match s
    case Submit(sub, claims) => SubmitKeepsOpen(w, sub, claims);
    case SubmitCommit(sub) => CommitKeepsOpen(w, sub);
    case PurgeClaim(c) => PurgeKeepsOpen(w, c);
    case _ =>
  }

  lemma StageLockKeepsStaging(w: World, k: Key, c: Id)
    requires StagingOk(w)
    ensures StagingOk(Next(w, StageLock(k, c)))
  {
    assert forall k' :: k' in w.locks && w.locks[k'].Staging? ==> BeingStaged(w, w.locks[k'].claim);
  }

  lemma StageKeepsStaging(w: World, s: Step)
    requires StagingOk(w) && (s.StageUpload? || s.StageRef? || s.StageCommit?)
    ensures StagingOk(Next(w, s))
  {}

  lemma NextKeepsStaging(w: World, s: Step)
    requires StagingOk(w)
    ensures StagingOk(Next(w, s))
  {
    if s.StageLock? {
      StageLockKeepsStaging(w, s.key, s.claim);
    } else if s.StageUpload? || s.StageRef? || s.StageCommit? {
      StageKeepsStaging(w, s);
    }
  }

  lemma OldWindowStays(w: World, s: Step, o: Owner)
    requires OpenOk(w) && StagingOk(w) && Window(w, o) && Next(w, s).now <= o.until
    ensures Window(Next(w, s), o)
  {
    var c :| c in w.claims && w.claims[c] == Claim(o.key, o.until, true);
    var w' := Next(w, s);
    assert c in w'.claims && w'.claims[c] == w.claims[c];
  }

  lemma NewWindowOpens(w: World, s: Step, o: Owner)
    requires o in Next(w, s).owners && o !in w.owners
    ensures Window(Next(w, s), o)
  {
    var sub, w' := s.submission, Next(w, s);
    var c :| c in w.open[sub] && c in w.claims && o == Owner(sub, w.claims[c].key, w.claims[c].expires);
    assert c in w'.claims && w'.claims[c] == Claim(o.key, o.until, true);
  }

  lemma NextKeepsWindow(w: World, s: Step)
    requires OpenOk(w) && StagingOk(w) && WindowOk(w)
    ensures WindowOk(Next(w, s))
  {
    var w' := Next(w, s);
    assert w.now <= w'.now;
    forall o | o in w'.owners && w'.now <= o.until ensures Window(w', o) {
      if o in w.owners { OldWindowStays(w, s, o); } else { NewWindowOpens(w, s, o); }
    }
  }

  lemma {:induction false} RunKeepsRows(t: Trace)
    ensures OpenOk(Run(t)) && StagingOk(Run(t)) && WindowOk(Run(t))
  {
    if t.Then? {
      RunKeepsRows(t.before);
      NextKeepsOpen(Run(t.before), t.step);
      NextKeepsStaging(Run(t.before), t.step);
      NextKeepsWindow(Run(t.before), t.step);
    }
  }

  // ── Punctual runs ───────────────────────────────────────────────────────────

  /** A key found dead under the lock stays dead. */
  ghost predicate DeadOk(w: World)
  {
    forall k :: k in w.locks && w.locks[k].Collecting? && w.locks[k].dead ==> !KeyLive(w, k)
  }

  ghost predicate Inv(w: World) { Safe(w) && DeadOk(w) }

  /** Nothing becomes live that was not. */
  lemma NotLiver(w: World, w': World)
    requires Inv(w) && w'.objects == w.objects && w'.locks.Keys <= w.locks.Keys
    requires forall k :: k in w'.locks ==> w'.locks[k] == w.locks[k]
    requires forall k :: KeyLive(w', k) ==> KeyLive(w, k)
    ensures Inv(w')
  {}

  lemma FewerRowsNotLiver(w: World, w': World)
    requires w'.now >= w.now && w'.owners <= w.owners
    requires forall c :: c in w'.claims ==> c in w.claims && w'.claims[c] == w.claims[c]
    ensures forall k :: KeyLive(w', k) ==> KeyLive(w, k)
  {}

  lemma SameRowsSameLive(w: World, w': World)
    requires w'.now == w.now && w'.owners == w.owners && w'.claims == w.claims
    ensures forall k :: KeyLive(w', k) <==> KeyLive(w, k)
  {}

  lemma StageKeepsInv(w: World, s: Step)
    requires Inv(w) && StagingOk(w) && (s.StageLock? || s.StageUpload? || s.StageRef? || s.StageCommit?)
    ensures Inv(Next(w, s))
  {
    var w' := Next(w, s);
    if s.StageCommit? {
      forall k | KeyLive(w', k) && k != s.key ensures KeyLive(w, k) {
        if c :| c in w'.claims && w'.claims[c].key == k && ClaimLive(w'.claims[c], w'.now) {
          assert c in w.claims && w.claims[c] == w'.claims[c];
        }
      }
    } else {
      SameRowsSameLive(w, w');
    }
  }

  lemma CollectKeepsInv(w: World, s: Step)
    requires Inv(w) && (s.CollectLock? || s.CollectCheck? || s.CollectDelete? || s.Unlock?)
    ensures Inv(Next(w, s))
  {
    SameRowsSameLive(w, Next(w, s));
  }

  /** Keys that a submission makes live are those of claims it had read and nobody has touched since. */
  lemma SubmittedWasClaimed(w: World, sub: Id, k: Key)
    requires OpenOk(w) && KeyLive(Next(w, SubmitCommit(sub)), k)
    ensures KeyLive(w, k) || (sub in w.open && exists c :: c in w.open[sub] && c in w.claims && w.claims[c].key == k)
  {
    var w' := Next(w, SubmitCommit(sub));
    if sub in w.open {
      if o :| o in w'.owners && o.key == k {
        if o !in w.owners {
          var c :| c in w.open[sub] && c in w.claims && o == Owner(sub, w.claims[c].key, w.claims[c].expires);
        }
      } else {
        var c :| c in w'.claims && w'.claims[c].key == k && ClaimLive(w'.claims[c], w'.now);
        assert c in w.claims && w.claims[c].key == k;
        if c !in w.open[sub] { assert ClaimLive(w.claims[c], w.now); }
      }
    }
  }

  /** A submission that commits in time only makes keys owned that its claims still kept. */
  lemma SubmitInTimeKeepsInv(w: World, sub: Id)
    requires Inv(w) && OpenOk(w) && InTime(w, sub, 0)
    ensures Inv(Next(w, SubmitCommit(sub)))
  {
    var w' := Next(w, SubmitCommit(sub));
    forall k | KeyLive(w', k) ensures KeyLive(w, k) {
      SubmittedWasClaimed(w, sub, k);
      if !KeyLive(w, k) {
        var c :| c in w.open[sub] && c in w.claims && w.claims[c].key == k;
        assert ClaimLive(w.claims[c], w.now);
      }
    }
    NotLiver(w, w');
  }

  lemma OtherKeepsInv(w: World, s: Step)
    requires Inv(w) && OpenOk(w) && StagingOk(w) && !s.SubmitCommit?
    ensures Inv(Next(w, s))
  {
    match s
    case StageLock(_, _) => StageKeepsInv(w, s);
    case StageUpload(_) => StageKeepsInv(w, s);
    case StageRef(_) => StageKeepsInv(w, s);
    case StageCommit(_, _) => StageKeepsInv(w, s);
    case CollectLock(_, _) => CollectKeepsInv(w, s);
    case CollectCheck(_, _, _) => CollectKeepsInv(w, s);
    case CollectDelete(_, _) => CollectKeepsInv(w, s);
    case Unlock(_) => CollectKeepsInv(w, s);
    case _ => FewerRowsNotLiver(w, Next(w, s)); NotLiver(w, Next(w, s));
  }

  /** However often Redis loses references, punctual runs are safe. */
  lemma {:induction false} PunctualRunsAreSafe(t: Trace)
    requires Within(t, 0)
    ensures Inv(Run(t))
  {
    if t.Then? {
      PunctualRunsAreSafe(t.before);
      RunKeepsRows(t.before);
      if t.step.SubmitCommit? {
        SubmitInTimeKeepsInv(Run(t.before), t.step.submission);
      } else {
        OtherKeepsInv(Run(t.before), t.step);
      }
    }
  }

  // ── Lossless runs ───────────────────────────────────────────────────────────

  /** An unconsumed claim and a referenced staging request have their reference. */
  ghost predicate RefsOk(w: World)
  {
    && (forall c :: c in w.claims && !w.claims[c].consumed ==> c in w.refs && w.refs[c] == w.claims[c].key)
    && (forall k :: k in w.locks && w.locks[k].Staging? && w.locks[k].referenced ==>
          w.locks[k].claim in w.refs && w.refs[w.locks[k].claim] == k)
  }

  /** A reference has its object, and a key found dead under the lock has none. */
  ghost predicate ReferencedOk(w: World)
  {
    && (forall c :: c in w.refs ==> w.refs[c] in w.objects)
    && (forall k :: k in w.locks && w.locks[k].Collecting? && w.locks[k].dead ==> !Referenced(w, k))
  }

  lemma NextKeepsRefs(w: World, s: Step)
    requires RefsOk(w) && StagingOk(w) && !s.EvictRefs?
    ensures RefsOk(Next(w, s))
  {
    if s.Release? {
      assert forall k :: k in w.locks && w.locks[k].Staging? ==> BeingStaged(w, w.locks[k].claim);
    }
  }

  lemma StageRefKeepsReferenced(w: World, k: Key)
    requires ReferencedOk(w) && StagingOk(w)
    ensures ReferencedOk(Next(w, StageRef(k)))
  {
    var w' := Next(w, StageRef(k));
    forall k' | k' in w'.locks && w'.locks[k'].Collecting? && w'.locks[k'].dead ensures !Referenced(w', k') {
      assert !Referenced(w, k');
    }
  }

  lemma OthersKeepReferenced(w: World, s: Step)
    requires ReferencedOk(w) && !s.StageRef? && !s.EvictRefs? && (s.CollectCheck? ==> s.answered)
    ensures ReferencedOk(Next(w, s))
  {
    var w' := Next(w, s);
    assert forall k :: Referenced(w', k) ==> Referenced(w, k);
    if s.CollectDelete? && w' != w { assert !Referenced(w, s.key); }
  }

  lemma NextKeepsReferenced(w: World, s: Step)
    requires ReferencedOk(w) && StagingOk(w) && !s.EvictRefs? && (s.CollectCheck? ==> s.answered)
    ensures ReferencedOk(Next(w, s))
  {
    if s.StageRef? { StageRefKeepsReferenced(w, s.key); } else { OthersKeepReferenced(w, s); }
  }

  lemma SubmitReferencedKeepsInv(w: World, sub: Id)
    requires Inv(w) && OpenOk(w) && RefsOk(w) && ReferencedOk(w)
    ensures Inv(Next(w, SubmitCommit(sub)))
  {
    var w' := Next(w, SubmitCommit(sub));
    forall k | KeyLive(w', k)
      ensures k in w.objects
      ensures !(k in w.locks && w.locks[k].Collecting? && w.locks[k].dead)
    {
      SubmittedWasClaimed(w, sub, k);
      if !KeyLive(w, k) {
        var c :| c in w.open[sub] && c in w.claims && w.claims[c].key == k;
        assert w.refs[c] == k && Referenced(w, k);
      }
    }
  }

  /** However late submissions commit, runs in which Redis keeps its references are safe: the reference
      that staging counted outlives the claim's expiry for as long as a submission holds its row. */
  lemma {:induction false} LosslessRunsAreSafe(t: Trace)
    requires Lossless(t)
    ensures Inv(Run(t)) && RefsOk(Run(t)) && ReferencedOk(Run(t))
  {
    if t.Then? {
      LosslessRunsAreSafe(t.before);
      RunKeepsRows(t.before);
      NextKeepsRefs(Run(t.before), t.step);
      NextKeepsReferenced(Run(t.before), t.step);
      if t.step.SubmitCommit? {
        SubmitReferencedKeepsInv(Run(t.before), t.step.submission);
      } else {
        OtherKeepsInv(Run(t.before), t.step);
      }
    }
  }

  // ── Late submissions over a lossy store ─────────────────────────────────────

  const K: Key := "cas/k"
  const C: Claim := Claim(K, CLAIM_TTL, false)

  /** Stage an object. */
  function Staged(): Trace
  {
    Then(Then(Then(Then(Start, StageLock(K, "c")), StageUpload(K)), StageRef(K)), StageCommit(K, 0))
  }

  /** Start a submission, wait for expiry, lose the reference. */
  function Expired(): Trace { Then(Then(Then(Staged(), Submit("s", {"c"})), Tick(CLAIM_TTL)), EvictRefs(K)) }

  /** Collect, and only then commit. */
  function Collected(): Trace
  {
    Then(Then(Then(Expired(), CollectLock(K, "gc")), CollectCheck(K, "gc", true)), CollectDelete(K, "gc"))
  }

  lemma StagedWorld()
    ensures Run(Staged()) == World(0, {K}, map["c" := C], {}, map["c" := K], map[], map[])
  {
    var locked := Then(Start, StageLock(K, "c"));
    assert !BeingStaged(Run(Start), "c");
    assert Run(locked) == World(0, {}, map[], {}, map[], map[K := Staging("c", false, false)], map[]);
    var uploaded := Then(locked, StageUpload(K));
    assert Run(uploaded) == World(0, {K}, map[], {}, map[], map[K := Staging("c", true, false)], map[]);
    var counted := Then(uploaded, StageRef(K));
    assert Run(counted) == World(0, {K}, map[], {}, map["c" := K], map[K := Staging("c", true, true)], map[]);
  }

  lemma ExpiredWorld()
    ensures Run(Expired()) == World(CLAIM_TTL, {K}, map["c" := C], {}, map[], map[], map["s" := {"c"}])
  {
    StagedWorld();
    var w := Run(Staged());
    assert CanSubmit(w, "s", {"c"});
    var begun := Then(Staged(), Submit("s", {"c"}));
    assert Run(begun) == w.(open := map["s" := {"c"}]);
    assert Run(Then(begun, Tick(CLAIM_TTL))) == w.(open := map["s" := {"c"}], now := CLAIM_TTL);
  }

  lemma CheckedWorld(w: World)
    requires w == World(CLAIM_TTL, {K}, map["c" := C], {}, map[], map[K := Collecting("gc", false)], map["s" := {"c"}])
    ensures Next(w, CollectCheck(K, "gc", true)) == w.(locks := map[K := Collecting("gc", true)])
  {
    assert !KeyLive(w, K) && !Referenced(w, K);
  }

  lemma DeletedWorld(w: World)
    requires w == World(CLAIM_TTL, {K}, map["c" := C], {}, map[], map[K := Collecting("gc", true)], map["s" := {"c"}])
    ensures Next(w, CollectDelete(K, "gc")) == w.(objects := {})
  {}

  lemma CollectedWorld()
    ensures Run(Collected())
         == World(CLAIM_TTL, {}, map["c" := C], {}, map[], map[K := Collecting("gc", true)], map["s" := {"c"}])
  {
    ExpiredWorld();
    var w := Run(Expired());
    var held := Next(w, CollectLock(K, "gc"));
    assert held == w.(locks := map[K := Collecting("gc", false)]);
    CheckedWorld(held);
    DeletedWorld(held.(locks := map[K := Collecting("gc", true)]));
  }

  lemma StagedIsWithin(late: nat)
    ensures Within(Staged(), late)
  {
    var locked := Then(Start, StageLock(K, "c"));
    assert Within(locked, late);
    assert Within(Then(locked, StageUpload(K)), late);
  }

  lemma CollectedIsWithin(late: nat)
    ensures Within(Collected(), late)
  {
    StagedIsWithin(late);
    assert Within(Then(Staged(), Submit("s", {"c"})), late);
    assert Within(Expired(), late);
    assert Within(Then(Expired(), CollectLock(K, "gc")), late);
  }

  /** The losing run: a submission that outlives its claim, and a reference that Redis has lost. */
  lemma LateSubmissionLosesItsObject(late: nat)
    requires late > 0
    ensures var t := Then(Collected(), SubmitCommit("s")); Within(t, late) && !Safe(Run(t))
  {
    CollectedWorld();
    CollectedIsWithin(late);
    var w := Run(Collected());
    assert InTime(w, "s", late);
    CommitsDead(w);
  }

  lemma CommitsDead(w: World)
    requires w == World(CLAIM_TTL, {}, map["c" := C], {}, map[], map[K := Collecting("gc", true)], map["s" := {"c"}])
    ensures !Safe(Next(w, SubmitCommit("s")))
  {
    assert "c" in w.open["s"] && Owner("s", K, CLAIM_TTL) in Published(w, "s");
    var w' := Next(w, SubmitCommit("s"));
    assert Owner("s", K, CLAIM_TTL) in w'.owners && KeyLive(w', K) && K !in w'.objects;
  }

  /** In every interleaving of staging, collection, pruning, submission and expiry, however stale the
      candidates are: no committed row refers to a deleted object, among runs whose submissions commit
      less than `late` after their claims' expiry and in which Redis may or may not lose references,
      if and only if submissions are punctual or references are kept. */
  lemma SafeIffPunctual(late: nat, lossy: bool)
    ensures (forall t :: Within(t, late) && (lossy || Lossless(t)) ==> Safe(Run(t))) <==> late == 0 || !lossy
  {
    if late == 0 {
      forall t | Within(t, late) ensures Safe(Run(t)) { PunctualRunsAreSafe(t); }
    } else if !lossy {
      forall t | Lossless(t) ensures Safe(Run(t)) { LosslessRunsAreSafe(t); }
    } else {
      LateSubmissionLosesItsObject(late);
      assert Within(Then(Collected(), SubmitCommit("s")), late);
    }
  }

  // ── Contributions that outlive their claim ──────────────────────────────────

  /** What approval demands of a generated file: a consumed claim for its key. */
  predicate Approvable(w: World, k: Key)
  {
    exists c :: c in w.claims && w.claims[c].key == k && w.claims[c].consumed
  }

  /** One step takes a key's approval away exactly when it is the cleanup of its last consumed claim. */
  lemma ApprovalLostIff(w: World, s: Step, k: Key)
    requires OpenOk(w) && StagingOk(w) && Approvable(w, k)
    ensures !Approvable(Next(w, s), k) <==>
              && s.PurgeClaim? && s.claim in w.claims && w.claims[s.claim].expires < w.now && !RowLocked(w, s.claim)
              && forall c :: c in w.claims && w.claims[c].key == k && w.claims[c].consumed ==> c == s.claim
  {
    var w' := Next(w, s);
    var c :| c in w.claims && w.claims[c].key == k && w.claims[c].consumed;
    if s.PurgeClaim? {
      if w' != w {
        assert forall d :: d in w'.claims <==> d in w.claims && d != s.claim;
      }
    } else {
      assert c in w'.claims && w'.claims[c].key == k && w'.claims[c].consumed;
    }
  }

  /** The run cleaned up a consumed claim of `k`. */
  predicate PurgedConsumed(t: Trace, k: Key)
  {
    t.Then? &&
    var w := Run(t.before);
    || PurgedConsumed(t.before, k)
    || (t.step.PurgeClaim? && t.step.claim in w.claims && w.claims[t.step.claim].key == k
        && w.claims[t.step.claim].consumed)
  }

  lemma PublishedIsApprovable(w: World, s: Step, o: Owner)
    requires o in Next(w, s).owners && o !in w.owners
    ensures Approvable(Next(w, s), o.key)
  {
    var sub := s.submission;
    var c :| c in w.open[sub] && c in w.claims && o == Owner(sub, w.claims[c].key, w.claims[c].expires);
    var w' := Next(w, s);
    assert c in w'.claims && w'.claims[c].key == o.key && w'.claims[c].consumed;
  }

  /** A submitted key can be approved in every run in which none of its own consumed claims was
      cleaned up, whatever else was. */
  lemma {:induction false} SubmittedIsApprovable(t: Trace, o: Owner)
    requires o in Run(t).owners && !PurgedConsumed(t, o.key)
    ensures Approvable(Run(t), o.key)
  {
    var w := Run(t.before);
    if o in w.owners {
      SubmittedIsApprovable(t.before, o);
      RunKeepsRows(t.before);
      ApprovalLostIff(w, t.step, o.key);
    } else {
      PublishedIsApprovable(w, t.step, o);
    }
  }

  lemma WindowIsApprovable(t: Trace, o: Owner)
    requires o in Run(t).owners && Run(t).now <= o.until
    ensures Approvable(Run(t), o.key)
  {
    RunKeepsRows(t);
    assert Window(Run(t), o);
  }

  /** Stage, submit at once, wait until `to`, clean up. */
  function Outlived(to: nat): Trace
  {
    Then(Then(Then(Then(Staged(), Submit("s", {"c"})), SubmitCommit("s")), Tick(to)), PurgeClaim("c"))
  }

  lemma SubmittedWorld()
    ensures var t := Then(Then(Staged(), Submit("s", {"c"})), SubmitCommit("s"));
            && Run(t) == World(0, {K}, map["c" := C.(consumed := true)], {Owner("s", K, CLAIM_TTL)}, map["c" := K],
                               map[], map[])
            && Within(t, 0)
  {
    StagedWorld();
    StagedIsWithin(0);
    var staged := Run(Staged());
    assert CanSubmit(staged, "s", {"c"});
    var begun := Then(Staged(), Submit("s", {"c"}));
    assert Run(begun) == staged.(open := map["s" := {"c"}]);
    assert Within(begun, 0) && InTime(Run(begun), "s", 0);
    assert Published(Run(begun), "s") == {Owner("s", K, CLAIM_TTL)} by {
      assert "c" in Run(begun).open["s"];
    }
    assert Consume(Run(begun).claims, {"c"}) == map["c" := C.(consumed := true)];
    assert Run(begun).open - {"s"} == map[];
  }

  lemma PurgedWorld(w: World)
    requires w.claims == map["c" := C.(consumed := true)] && w.open == map[] && w.now > CLAIM_TTL
    ensures Next(w, PurgeClaim("c")) == w.(claims := map[])
  {
    assert !RowLocked(w, "c");
  }

  lemma OutlivedWorld(to: nat)
    requires to > CLAIM_TTL
    ensures Run(Outlived(to)) == World(to, {K}, map[], {Owner("s", K, CLAIM_TTL)}, map["c" := K], map[], map[])
    ensures Within(Outlived(to), 0)
  {
    SubmittedWorld();
    var submitted := Then(Then(Staged(), Submit("s", {"c"})), SubmitCommit("s"));
    var w := Run(submitted);
    assert Next(w, Tick(to)) == w.(now := to) && Within(Then(submitted, Tick(to)), 0);
    PurgedWorld(w.(now := to));
  }

  /** A contribution submitted in time can still be open at any later time when cleanup has deleted its
      consumed claim: its object is safe, and it can no longer be approved. */
  lemma ContributionOutlivesItsClaim(to: nat)
    requires to > CLAIM_TTL
    ensures var w := Run(Outlived(to));
            Owner("s", K, CLAIM_TTL) in w.owners && w.now == to && Safe(w) && !Approvable(w, K)
  {
    OutlivedWorld(to);
    PunctualRunsAreSafe(Outlived(to));
  }

  /** The approval window is exactly the claim's lifetime: in every run a submitted key can be approved
      until its claim expires, and for no longer. */
  lemma ApprovalWindowIff(beyond: nat)
    ensures (forall t, o :: o in Run(t).owners && Run(t).now <= o.until + beyond ==> Approvable(Run(t), o.key))
            <==> beyond == 0
  {
    if beyond == 0 {
      forall t, o | o in Run(t).owners && Run(t).now <= o.until + beyond ensures Approvable(Run(t), o.key) {
        WindowIsApprovable(t, o);
      }
    } else {
      ContributionOutlivesItsClaim(CLAIM_TTL + 1);
      var t, o := Outlived(CLAIM_TTL + 1), Owner("s", K, CLAIM_TTL);
      assert o in Run(t).owners && Run(t).now <= o.until + beyond && !Approvable(Run(t), o.key);
    }
  }
}

/** The administrator's prune request: the second deleter, in the same runs as everything else. */
module StoragePrune {
  import opened Prelude
  import opened StorageGc

  predicate Prefixed(key: Key, prefix: string) { |prefix| <= |key| && key[..|prefix|] == prefix }

  /** `".." in key.split("/")`. */
  predicate HasDotDot(key: Key)
  {
    exists i, j :: 0 <= i <= j <= |key| && key[i..j] == ".."
      && (i == 0 || key[i - 1] == '/') && (j == |key| || key[j] == '/')
  }

  predicate Prunable(key: Key) { !HasDotDot(key) && (Prefixed(key, "cas/") || Prefixed(key, "thumbnails/")) }

  /** What happens around one key: what others do before the request gets to it, whether Redis answers
      its re-check, and how its delete call ends. */
  datatype Turn = Turn(others: seq<Step>, answered: bool, io: Io)

  datatype Pruning = Pruning(w: World, deleted: nat, skipped: nat)

  function Extend(t: Trace, steps: seq<Step>): Trace
  {
    if steps == [] then t else Then(Extend(t, steps[..|steps| - 1]), steps[|steps| - 1])
  }

  function RunFrom(w: World, steps: seq<Step>): World
  {
    if steps == [] then w else Next(RunFrom(w, steps[..|steps| - 1]), steps[|steps| - 1])
  }

  /** One key: take its lock, re-check, delete. A lock that cannot be had and a failed delete are
      logged, and the next key is tried; locks are kept until the request commits. */
  function PruneOne(p: Pruning, who: Id, key: Key, turn: Turn): Pruning
  {
    var locked := Next(RunFrom(p.w, turn.others), CollectLock(key, who));
    if !Collects(locked, key, who) then p.(w := locked)
    else
      var checked := Next(locked, CollectCheck(key, who, turn.answered));
      if !checked.locks[key].dead then Pruning(checked, p.deleted, p.skipped + 1)
      else
        Pruning(if turn.io.Applied() then Next(checked, CollectDelete(key, who)) else checked,
                if turn.io.Done? then p.deleted + 1 else p.deleted, p.skipped)
  }

  function PruneAll(w: World, who: Id, keys: seq<Key>, turns: nat -> Turn): Pruning
  {
    if keys == [] then Pruning(w, 0, 0)
    else PruneOne(PruneAll(w, who, keys[..|keys| - 1], turns), who, keys[|keys| - 1], turns(|keys| - 1))
  }

  /** The steps of the request for one key. */
  function OwnSteps(w: World, who: Id, key: Key, turn: Turn): seq<Step>
  {
    var locked := Next(w, CollectLock(key, who));
    [CollectLock(key, who)] +
    if !Collects(locked, key, who) then []
    else
      var checked := Next(locked, CollectCheck(key, who, turn.answered));
      [CollectCheck(key, who, turn.answered)]
      + if checked.locks[key].dead && turn.io.Applied() then [CollectDelete(key, who)] else []
  }

  function PruneTrace(t: Trace, who: Id, keys: seq<Key>, turns: nat -> Turn): Trace
  {
    if keys == [] then t
    else
      var n := |keys| - 1;
      var interrupted := Extend(PruneTrace(t, who, keys[..n], turns), turns(n).others);
      Extend(interrupted, OwnSteps(Run(interrupted), who, keys[n], turns(n)))
  }

  lemma {:induction false} ExtendRuns(t: Trace, steps: seq<Step>)
    ensures Run(Extend(t, steps)) == RunFrom(Run(t), steps)
  {
    if steps != [] { ExtendRuns(t, steps[..|steps| - 1]); }
  }

  lemma RunFromTwo(w: World, a: Step, b: Step)
    ensures RunFrom(w, [a]) == Next(w, a) && RunFrom(w, [a, b]) == Next(Next(w, a), b)
  {
    assert [a][..0] == [] && [a, b][..1] == [a];
  }

  lemma RunFromThree(w: World, a: Step, b: Step, c: Step)
    ensures RunFrom(w, [a, b, c]) == Next(Next(Next(w, a), b), c)
  {
    RunFromTwo(w, a, b);
    assert [a, b, c][..2] == [a, b];
  }

  lemma OwnStepsRun(p: Pruning, who: Id, key: Key, turn: Turn)
    ensures var w := RunFrom(p.w, turn.others);
            PruneOne(p, who, key, turn).w == RunFrom(w, OwnSteps(w, who, key, turn))
  {
    var w := RunFrom(p.w, turn.others);
    var lock, check, gone := CollectLock(key, who), CollectCheck(key, who, turn.answered), CollectDelete(key, who);
    RunFromTwo(w, lock, check);
    RunFromThree(w, lock, check, gone);
    assert [lock] + ([check] + [gone]) == [lock, check, gone];
    assert [lock] + ([check] + []) == [lock, check];
    assert [lock] + [] == [lock];
  }

  /** A prune request is a run like any other: whatever others do between its keys, the world it leaves
      is that of the interleaved trace. */
  lemma {:induction false} PruneIsARun(t: Trace, who: Id, keys: seq<Key>, turns: nat -> Turn)
    ensures PruneAll(Run(t), who, keys, turns).w == Run(PruneTrace(t, who, keys, turns))
  {
    if keys != [] {
      var n := |keys| - 1;
      PruneIsARun(t, who, keys[..n], turns);
      var before := PruneTrace(t, who, keys[..n], turns);
      var interrupted := Extend(before, turns(n).others);
      ExtendRuns(before, turns(n).others);
      ExtendRuns(interrupted, OwnSteps(Run(interrupted), who, keys[n], turns(n)));
      OwnStepsRun(PruneAll(Run(t), who, keys[..n], turns), who, keys[n], turns(n));
    }
  }

  /** So a stale candidate list costs no live row its object, in any interleaving in which submissions
      are punctual or Redis keeps its references. */
  lemma PruneKeepsSafe(t: Trace, who: Id, keys: seq<Key>, turns: nat -> Turn)
    requires Within(PruneTrace(t, who, keys, turns), 0) || Lossless(PruneTrace(t, who, keys, turns))
    ensures Safe(PruneAll(Run(t), who, keys, turns).w)
  {
    PruneIsARun(t, who, keys, turns);
    var whole := PruneTrace(t, who, keys, turns);
    if Within(whole, 0) { PunctualRunsAreSafe(whole); } else { LosslessRunsAreSafe(whole); }
  }

  ghost predicate Quiet(w: World, keys: seq<Key>, turns: nat -> Turn)
  {
    && (forall i: nat :: i < |keys| ==> turns(i) == Turn([], true, Done))
    && (forall k :: k in keys ==> k !in w.locks)
  }

  /** The rows, references and clock a re-check reads. */
  ghost predicate SameRows(w: World, w': World)
  {
    w'.claims == w.claims && w'.owners == w.owners && w'.refs == w.refs && w'.now == w.now
  }

  lemma QuietOne(p: Pruning, who: Id, key: Key)
    requires key in p.w.locks ==> Collects(p.w, key, who)
    ensures var q := PruneOne(p, who, key, Turn([], true, Done));
            var keeps := KeyLive(p.w, key) || Referenced(p.w, key);
            && SameRows(p.w, q.w)
            && q.w.objects == (if keeps then p.w.objects else p.w.objects - {key})
            && q.w.locks.Keys == p.w.locks.Keys + {key} && Collects(q.w, key, who)
            && (forall k :: k in p.w.locks && k != key ==> q.w.locks[k] == p.w.locks[k])
            && q.deleted + q.skipped == p.deleted + p.skipped + 1
  {
    var locked := Next(p.w, CollectLock(key, who));
    assert RunFrom(p.w, []) == p.w;
    assert KeyLive(locked, key) <==> KeyLive(p.w, key);
    assert Referenced(locked, key) <==> Referenced(p.w, key);
  }

  /** On a quiet system exactly the listed keys that are neither live nor referenced go, and every key
      is counted once. */
  lemma {:induction false} PruneKeepsLive(w: World, who: Id, keys: seq<Key>, turns: nat -> Turn)
    requires Quiet(w, keys, turns)
    ensures var p := PruneAll(w, who, keys, turns);
            && (forall k :: k in p.w.objects <==>
                  k in w.objects && (k !in keys || KeyLive(w, k) || Referenced(w, k)))
            && SameRows(w, p.w)
            && (forall k :: k in p.w.locks ==> k in w.locks || (k in keys && Collects(p.w, k, who)))
            && p.deleted + p.skipped == |keys|
  {
    if keys != [] {
      var front, key := keys[..|keys| - 1], keys[|keys| - 1];
      assert keys == front + [key];
      PruneKeepsLive(w, who, front, turns);
      var p := PruneAll(w, who, front, turns);
      assert turns(|keys| - 1) == Turn([], true, Done);
      QuietOne(p, who, key);
      assert KeyLive(p.w, key) <==> KeyLive(w, key);
      assert Referenced(p.w, key) <==> Referenced(w, key);
    }
  }

  /** The request's view of rows, locks and objects. */
  class Bucket {
    var state: World

    method Prune(who: Id, keys: seq<Key>, turns: nat -> Turn) returns (r: Result<(nat, nat), Key>)
      modifies this
      ensures r.Err? <==> exists k :: k in keys && !Prunable(k)
      ensures r.Err? ==> state == old(state) && r.error in keys && !Prunable(r.error)
      ensures r.Ok? ==> Pruning(state, r.value.0, r.value.1) == PruneAll(old(state), who, keys, turns)
    {
      for i := 0 to |keys|
        invariant forall j :: 0 <= j < i ==> Prunable(keys[j])
        invariant state == old(state)
      {
        if !Prunable(keys[i]) { return Err(keys[i]); }
      }
      var deleted, skipped := 0, 0;
      for i := 0 to |keys|
        invariant Pruning(state, deleted, skipped) == PruneAll(old(state), who, keys[..i], turns)
      {
        assert keys[..i + 1][..i] == keys[..i];
        var key, turn := keys[i], turns(i);
        state := Next(RunFrom(state, turn.others), CollectLock(key, who));
        if !Collects(state, key, who) { continue; }
        state := Next(state, CollectCheck(key, who, turn.answered));
        if !state.locks[key].dead {
          skipped := skipped + 1;
          continue;
        }
        if turn.io.Applied() { state := Next(state, CollectDelete(key, who)); }
        if turn.io.Done? { deleted := deleted + 1; }
      }
      assert keys[..|keys|] == keys;
      r := Ok((deleted, skipped));
    }
  }
}
