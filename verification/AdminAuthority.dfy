/** Administrative authority under concurrent transactions. */
module AdminAuthority {
  import opened Prelude

  type Id = string

  datatype Role = Pending | Student | Moderator | Bureau | Vieux | Guest {
    predicate Admin() { Bureau? || Vieux? }
  }

  datatype User = User(role: Role, deleted: bool, generation: nat) {
    predicate LiveAdmin() { role.Admin() && !deleted }
  }

  type Users = map<Id, User>

  predicate LiveAdminAt(us: Users, id: Id) { id in us && us[id].LiveAdmin() }

  predicate HasAdmin(us: Users) { exists id :: id in us && LiveAdminAt(us, id) }

  // ── Mutations, as the transaction holding the authority lock sees the table ─

  datatype Action = SetRole(role: Role) | Approve | Reject | Delete

  datatype Refusal = BadRole | Revoked | NotFound | NotPending | LastAdmin

  /** `ensure_admin_removal_safe`. */
  predicate RemovalSafe(us: Users, id: Id)
  {
    LiveAdminAt(us, id) ==> exists other :: other in us && other != id && LiveAdminAt(us, other)
  }

  /** The actor as re-read under the lock: still a live administrator at the admitted generation. */
  predicate Authorized(us: Users, actor: Id, generation: nat)
  {
    LiveAdminAt(us, actor) && us[actor].generation == generation
  }

  function WithRole(us: Users, id: Id, role: Role): Users
    requires id in us
  {
    us[id := us[id].(role := role, generation := us[id].generation + 1)]
  }

  function HardDelete(us: Users, id: Id): Result<Users, Refusal>
  {
    if RemovalSafe(us, id) then Ok(us - {id}) else Err(LastAdmin)
  }

  function Mutate(us: Users, target: Id, a: Action): Result<Users, Refusal>
  {
    if target !in us || us[target].deleted then Err(NotFound)
    else
      match a
      case SetRole(role) =>
        if us[target].role.Admin() && !role.Admin() && !RemovalSafe(us, target) then Err(LastAdmin)
        else Ok(if us[target].role != role then WithRole(us, target, role) else us)
      case Approve => if !us[target].role.Pending? then Err(NotPending) else Ok(WithRole(us, target, Student))
      case Reject => if !us[target].role.Pending? then Err(NotPending) else HardDelete(us, target)
      case Delete => HardDelete(us, target)
  }

  function AdminAct(us: Users, actor: Id, generation: nat, target: Id, a: Action): Result<Users, Refusal>
  {
    if a == SetRole(Pending) then Err(BadRole)
    else if !Authorized(us, actor, generation) then Err(Revoked)
    else Mutate(us, target, a)
  }

  /** Offline recovery: an existing account, soft-deleted or not, gets a new generation. */
  function Recover(us: Users, id: Id): Users
  {
    us[id := User(Bureau, false, if id in us then us[id].generation + 1 else 0)]
  }

  /** The offline seed command; a soft-deleted account of that e-mail makes the insert fail. */
  function Seed(us: Users, id: Id, role: Role): Option<Users>
  {
    if id !in us then Some(us[id := User(role, false, 0)])
    else if us[id].deleted || (us[id].role.Admin() && !role.Admin() && !RemovalSafe(us, id)) then None
    else Some(us[id := us[id].(role := role)])
  }

  // ── The interleaving ────────────────────────────────────────────────────────

  /** Who holds the lock: a request admitted for an administrator, or anything else that takes it. */
  datatype Kind = Request(actor: Id, generation: nat) | System

  /** The holder's view of the table and the rows it has locked. */
  datatype Tx = Tx(kind: Kind, view: Users, bootstrapped: bool, locked: set<Id>)

  datatype World = World(users: Users, bootstrapped: bool, tx: Option<Tx>)

  /** `Act` is one mutation of a request; a bulk request takes several before it commits. `Purge` is
      self-deletion or retention cleanup. `ResetPassword` and `Register` do not take the lock. */
  datatype Step =
    | Begin(kind: Kind)
    | Act(target: Id, action: Action)
    | Purge(id: Id)
    | RecoverAdmin(id: Id)
    | SeedUser(id: Id, role: Role)
    | Setup(id: Id)
    | Commit
    | Abort
    | ResetPassword(id: Id)
    | Register(id: Id, role: Role)

  function Write(w: World, view: Users, bootstrapped: bool, rows: set<Id>): World
    requires w.tx.Some?
  {
    w.(tx := Some(w.tx.value.(view := view, bootstrapped := bootstrapped, locked := w.tx.value.locked + rows)))
  }

  /** A refusal raises and rolls the transaction back. */
  function Holding(w: World, s: Step): World
    requires w.tx.Some?
  {
    var tx := w.tx.value;
    match s
    case Act(target, action) =>
      if tx.kind.System? then w
      else
        var r := AdminAct(tx.view, tx.kind.actor, tx.kind.generation, target, action);
        if r.Ok? then Write(w, r.value, tx.bootstrapped, {tx.kind.actor, target}) else w.(tx := None)
    case Purge(id) =>
      if tx.kind.Request? then w
      else
        var r := HardDelete(tx.view, id);
        if r.Ok? then Write(w, r.value, tx.bootstrapped, {id}) else w.(tx := None)
    case RecoverAdmin(id) =>
      if tx.kind.Request? then w else Write(w, Recover(tx.view, id), true, {id})
    case SeedUser(id, role) =>
      if tx.kind.Request? then w
      else
        var r := Seed(tx.view, id, role);
        if r.Some? then Write(w, r.value, tx.bootstrapped || role.Admin(), {id}) else w.(tx := None)
    case Setup(id) =>
      if tx.kind.Request? then w
      else if tx.bootstrapped || id in tx.view then w.(tx := None)
      else Write(w, tx.view[id := User(Bureau, false, 0)], true, {id})
    case Commit => World(tx.view, tx.bootstrapped, None)
    case _ => w.(tx := None)
  }

  predicate Unlocked(w: World, id: Id) { w.tx.Some? ==> id !in w.tx.value.locked }

  /** A row the holder has not locked changes in its view as soon as it is committed. */
  function Put(w: World, id: Id, u: User): World
  {
    w.(users := w.users[id := u],
       tx := if w.tx.Some? then Some(w.tx.value.(view := w.tx.value.view[id := u])) else None)
  }

  function Next(w: World, s: Step): World
  {
    match s
    case Begin(kind) => if w.tx.Some? then w else w.(tx := Some(Tx(kind, w.users, w.bootstrapped, {})))
    case ResetPassword(id) =>
      if id !in w.users || w.users[id].deleted || !Unlocked(w, id) then w
      else Put(w, id, w.users[id].(generation := w.users[id].generation + 1))
    case Register(id, role) =>
      if id in w.users || !Unlocked(w, id) || role.Admin() then w else Put(w, id, User(role, false, 0))
    case _ => if w.tx.None? then w else Holding(w, s)
  }

  function Run(w: World, steps: seq<Step>): World
  {
    if steps == [] then w else Next(Run(w, steps[..|steps| - 1]), steps[|steps| - 1])
  }

  // ── Invariant ───────────────────────────────────────────────────────────────

  ghost predicate Same(us: Users, vs: Users, id: Id)
  {
    (id in us <==> id in vs) && (id in us ==> us[id] == vs[id])
  }

  ghost predicate RequestOk(users: Users, tx: Tx)
  {
    tx.kind.Request? ==>
      && (tx.locked != {} ==> tx.kind.actor in tx.locked && Authorized(users, tx.kind.actor, tx.kind.generation))
      && (forall id :: id in tx.view ==>
            id in users && (tx.view[id] == users[id] || tx.view[id].generation > users[id].generation))
  }

  ghost predicate TxOk(users: Users, tx: Tx)
  {
    && (tx.bootstrapped ==> HasAdmin(tx.view))
    && (forall id :: id !in tx.locked ==> Same(tx.view, users, id))
    && RequestOk(users, tx)
  }

  ghost predicate Inv(w: World)
  {
    && (w.bootstrapped ==> HasAdmin(w.users))
    && (w.tx.Some? ==> TxOk(w.users, w.tx.value) && (w.bootstrapped ==> w.tx.value.bootstrapped))
  }

  lemma KeepsAdmin(us: Users, vs: Users, id: Id)
    requires HasAdmin(us) && (forall other :: other != id ==> Same(us, vs, other))
    requires RemovalSafe(us, id) || LiveAdminAt(vs, id)
    ensures HasAdmin(vs)
  {
    if LiveAdminAt(vs, id) {
      assert id in vs;
    } else {
      var o :| o in us && LiveAdminAt(us, o);
      var other :| other in us && other != id && LiveAdminAt(us, other);
      assert Same(us, vs, other);
    }
  }

  /** A mutation touches its target only, and leaves a live administrator. */
  lemma MutateIsLocal(us: Users, target: Id, a: Action)
    requires Mutate(us, target, a).Ok?
    ensures var vs := Mutate(us, target, a).value;
            && (forall other :: other != target ==> Same(us, vs, other))
            && (target in vs ==> vs[target] == us[target] || vs[target].generation > us[target].generation)
            && (HasAdmin(us) ==> HasAdmin(vs))
  {
    var vs := Mutate(us, target, a).value;
    if HasAdmin(us) { KeepsAdmin(us, vs, target); }
  }

  lemma ActKeepsInv(w: World, target: Id, action: Action)
    requires Inv(w) && w.tx.Some? && w.tx.value.kind.Request?
    ensures Inv(Next(w, Act(target, action)))
  {
    var tx := w.tx.value;
    var r := AdminAct(tx.view, tx.kind.actor, tx.kind.generation, target, action);
    if r.Ok? {
      MutateIsLocal(tx.view, target, action);
      var tx' := tx.(view := r.value, locked := tx.locked + {tx.kind.actor, target});
      assert tx.view[tx.kind.actor] == w.users[tx.kind.actor];
      forall id | id !in tx'.locked ensures Same(tx'.view, w.users, id) {
        assert Same(tx.view, w.users, id) && Same(tx.view, tx'.view, id);
      }
      forall id | id in tx'.view
        ensures id in w.users && (tx'.view[id] == w.users[id] || tx'.view[id].generation > w.users[id].generation)
      {
        if id != target { assert Same(tx.view, tx'.view, id); }
      }
      assert Next(w, Act(target, action)) == w.(tx := Some(tx'));
    }
  }

  lemma WriteKeepsInv(w: World, id: Id, view: Users, bootstrapped: bool)
    requires Inv(w) && w.tx.Some? && w.tx.value.kind.System?
    requires forall other :: other != id ==> Same(w.tx.value.view, view, other)
    requires w.tx.value.bootstrapped ==> bootstrapped
    requires bootstrapped ==> HasAdmin(view)
    ensures Inv(Write(w, view, bootstrapped, {id}))
  {
    forall other | other !in w.tx.value.locked + {id} ensures Same(view, w.users, other) {
      assert Same(w.tx.value.view, view, other) && Same(w.tx.value.view, w.users, other);
    }
  }

  lemma SystemKeepsInv(w: World, s: Step)
    requires Inv(w) && w.tx.Some? && w.tx.value.kind.System?
    requires s.Purge? || s.RecoverAdmin? || s.SeedUser? || s.Setup?
    ensures Inv(Next(w, s))
  {
    var tx := w.tx.value;
    match s
    case Purge(id) =>
      var r := HardDelete(tx.view, id);
      if r.Ok? {
        if HasAdmin(tx.view) { KeepsAdmin(tx.view, r.value, id); }
        WriteKeepsInv(w, id, r.value, tx.bootstrapped);
      }
    case RecoverAdmin(id) =>
      assert LiveAdminAt(Recover(tx.view, id), id);
      WriteKeepsInv(w, id, Recover(tx.view, id), true);
    case SeedUser(id, role) =>
      var r := Seed(tx.view, id, role);
      if r.Some? {
        if HasAdmin(tx.view) { KeepsAdmin(tx.view, r.value, id); }
        assert role.Admin() ==> LiveAdminAt(r.value, id);
        WriteKeepsInv(w, id, r.value, tx.bootstrapped || role.Admin());
      }
    case Setup(id) =>
      if !tx.bootstrapped && id !in tx.view {
        var view := tx.view[id := User(Bureau, false, 0)];
        assert LiveAdminAt(view, id);
        WriteKeepsInv(w, id, view, true);
      }
  }

  lemma PutKeepsAdmin(us: Users, id: Id, u: User)
    requires HasAdmin(us) && (id in us && us[id].LiveAdmin() ==> u.LiveAdmin())
    ensures HasAdmin(us[id := u])
  {
    var o :| o in us && LiveAdminAt(us, o);
    assert LiveAdminAt(us[id := u], o);
  }

  lemma PutKeepsInv(w: World, id: Id, u: User)
    requires Inv(w) && Unlocked(w, id)
    requires id in w.users && w.users[id].LiveAdmin() ==> u.LiveAdmin()
    ensures Inv(Put(w, id, u))
  {
    if w.bootstrapped { PutKeepsAdmin(w.users, id, u); }
    if w.tx.Some? {
      var tx := w.tx.value;
      assert Same(tx.view, w.users, id);
      if tx.bootstrapped { PutKeepsAdmin(tx.view, id, u); }
      var view := tx.view[id := u];
      forall other | other !in tx.locked ensures Same(view, w.users[id := u], other) {
        assert Same(tx.view, w.users, other);
      }
    }
  }

  lemma NextKeepsInv(w: World, s: Step)
    requires Inv(w)
    ensures Inv(Next(w, s))
  {
    match s
    case ResetPassword(id) =>
      if id in w.users && !w.users[id].deleted && Unlocked(w, id) {
        PutKeepsInv(w, id, w.users[id].(generation := w.users[id].generation + 1));
      }
    case Register(id, role) =>
      if id !in w.users && Unlocked(w, id) && !role.Admin() { PutKeepsInv(w, id, User(role, false, 0)); }
    case Act(target, action) =>
      if w.tx.Some? && w.tx.value.kind.Request? { ActKeepsInv(w, target, action); }
    case Begin(_) =>
    case Commit =>
    case Abort =>
    case _ => if w.tx.Some? && w.tx.value.kind.System? { SystemKeepsInv(w, s); }
  }

  lemma {:induction false} RunKeepsInv(w: World, steps: seq<Step>)
    requires Inv(w)
    ensures Inv(Run(w, steps))
  {
    if steps != [] {
      RunKeepsInv(w, steps[..|steps| - 1]);
      NextKeepsInv(Run(w, steps[..|steps| - 1]), steps[|steps| - 1]);
    }
  }

  // ── Theorems ────────────────────────────────────────────────────────────────

  lemma {:induction false} BootstrapIsFinal(w: World, steps: seq<Step>)
    requires Inv(w) && w.bootstrapped
    ensures Run(w, steps).bootstrapped
  {
    if steps != [] {
      BootstrapIsFinal(w, steps[..|steps| - 1]);
      RunKeepsInv(w, steps[..|steps| - 1]);
    }
  }

  /** Whatever interleaves, from bootstrap on a live administrator is always committed. */
  lemma AdminRemains(users: Users, before: seq<Step>, after: seq<Step>)
    ensures var w := Run(World(users, false, None), before);
            w.bootstrapped ==> HasAdmin(Run(w, after).users)
  {
    var w := Run(World(users, false, None), before);
    RunKeepsInv(World(users, false, None), before);
    if w.bootstrapped {
      RunKeepsInv(w, after);
      BootstrapIsFinal(w, after);
    }
  }

  /** When a request that changed anything commits, the committed table up to that instant still
      shows its actor as a live administrator at the generation of its admission. */
  lemma CommittedByLiveAdmin(users: Users, steps: seq<Step>)
    ensures var w := Run(World(users, false, None), steps);
            w.tx.Some? && w.tx.value.kind.Request? && w.tx.value.view != w.users ==>
              Authorized(w.users, w.tx.value.kind.actor, w.tx.value.kind.generation)
  {
    RunKeepsInv(World(users, false, None), steps);
    var w := Run(World(users, false, None), steps);
    if w.tx.Some? && w.tx.value.kind.Request? && w.tx.value.locked == {} {
      var view := w.tx.value.view;
      forall id ensures Same(view, w.users, id) {}
      assert forall id :: id in view ==> Same(view, w.users, id);
      assert forall id :: id in w.users ==> Same(view, w.users, id);
      assert view == w.users;
    }
  }

  /** An authorized administrator is refused a removal exactly when it is their own and they are
      the only live administrator. */
  lemma LastAdminIffSelf(us: Users, actor: Id, generation: nat, target: Id, a: Action)
    requires Authorized(us, actor, generation)
    ensures AdminAct(us, actor, generation, target, a) == Err(LastAdmin) <==>
              && target == actor
              && (a == Delete || (a.SetRole? && !a.role.Admin() && a.role != Pending))
              && forall id :: LiveAdminAt(us, id) ==> id == actor
  {}
}

/** The bulk route: one transaction, one mutation per distinct id. */
module AdminBulk {
  import opened Prelude
  import opened AdminAuthority

  datatype Skip = Own | Refused(why: Refusal)

  datatype Report = Report(users: Users, updated: seq<Id>, skipped: seq<(Id, Skip)>)

  function Dedupe(ids: seq<Id>): seq<Id>
  {
    if ids == [] then []
    else
      var front, last := Dedupe(ids[..|ids| - 1]), ids[|ids| - 1];
      if last in front then front else front + [last]
  }

  /** Refusals of a target are skipped; a revoked actor or a last administrator abort everything. */
  function One(r: Report, actor: Id, generation: nat, id: Id, a: Action): Result<Report, Refusal>
  {
    if id == actor then Ok(r.(skipped := r.skipped + [(id, Own)]))
    else
      match AdminAct(r.users, actor, generation, id, a)
      case Ok(users) => Ok(r.(users := users, updated := r.updated + [id]))
      case Err(why) =>
        if why in {NotFound, NotPending} then Ok(r.(skipped := r.skipped + [(id, Refused(why))])) else Err(why)
  }

  function All(us: Users, actor: Id, generation: nat, ids: seq<Id>, a: Action): Result<Report, Refusal>
  {
    if ids == [] then Ok(Report(us, [], []))
    else
      var front := All(us, actor, generation, ids[..|ids| - 1], a);
      if front.Err? then front else One(front.value, actor, generation, ids[|ids| - 1], a)
  }

  ghost predicate Unique(ids: seq<Id>) { forall i, j :: 0 <= i < j < |ids| ==> ids[i] != ids[j] }

  lemma {:induction false} DedupeIsUnique(ids: seq<Id>)
    ensures Unique(Dedupe(ids)) && forall id :: id in Dedupe(ids) <==> id in ids
  {
    if ids != [] {
      DedupeIsUnique(ids[..|ids| - 1]);
      assert ids == ids[..|ids| - 1] + [ids[|ids| - 1]];
    }
  }

  /** What one mutation does to one row, given an authorized actor other than the target. */
  lemma TargetAlone(us: Users, vs: Users, actor: Id, generation: nat, id: Id, a: Action)
    requires a != SetRole(Pending) && id != actor
    requires Authorized(us, actor, generation) && Authorized(vs, actor, generation) && Same(us, vs, id)
    ensures AdminAct(us, actor, generation, id, a).Ok? <==> AdminAct(vs, actor, generation, id, a).Ok?
    ensures var r, q := AdminAct(us, actor, generation, id, a), AdminAct(vs, actor, generation, id, a);
            && (r.Ok? ==> Same(r.value, q.value, id) && Authorized(r.value, actor, generation))
            && (r.Err? ==> r.error == q.error && r.error in {NotFound, NotPending})
  {}

  /** The outcome for `id`, computed on the table as it was before the request. */
  ghost predicate Pointwise(us: Users, r: Report, actor: Id, generation: nat, id: Id, a: Action)
  {
    if id == actor then (id, Own) in r.skipped && Same(us, r.users, id)
    else
      match AdminAct(us, actor, generation, id, a)
      case Ok(users) => id in r.updated && Same(users, r.users, id)
      case Err(why) => (id, Refused(why)) in r.skipped && Same(us, r.users, id)
  }

  lemma OneKeepsPointwise(us: Users, r: Report, actor: Id, generation: nat, id: Id, a: Action, other: Id)
    requires a != SetRole(Pending) && Authorized(us, actor, generation) && Authorized(r.users, actor, generation)
    requires One(r, actor, generation, id, a).Ok? && other != id
    ensures Pointwise(us, r, actor, generation, other, a) ==>
              Pointwise(us, One(r, actor, generation, id, a).value, actor, generation, other, a)
    ensures Same(r.users, One(r, actor, generation, id, a).value.users, other)
  {}

  /** With a live actor the bulk request never fails, and treats every account exactly as a single
      request on the original table would; nobody else's row changes, the actor's own included. */
  lemma {:induction false} BulkIsPointwise(us: Users, actor: Id, generation: nat, ids: seq<Id>, a: Action)
    requires a != SetRole(Pending) && Authorized(us, actor, generation) && Unique(ids)
    ensures var r := All(us, actor, generation, ids, a);
            && r.Ok? && Authorized(r.value.users, actor, generation)
            && (forall id :: id in ids ==> Pointwise(us, r.value, actor, generation, id, a))
            && (forall id :: id !in ids ==> Same(us, r.value.users, id))
            && |r.value.updated| + |r.value.skipped| == |ids|
  {
    if ids != [] {
      var front, id := ids[..|ids| - 1], ids[|ids| - 1];
      assert ids == front + [id];
      assert id !in front;
      BulkIsPointwise(us, actor, generation, front, a);
      var before := All(us, actor, generation, front, a).value;
      if id != actor { TargetAlone(us, before.users, actor, generation, id, a); }
      var r := One(before, actor, generation, id, a);
      forall other | other != id
        ensures Same(before.users, r.value.users, other)
        ensures other in front ==> Pointwise(us, r.value, actor, generation, other, a)
      {
        OneKeepsPointwise(us, before, actor, generation, id, a, other);
      }
      assert Pointwise(us, r.value, actor, generation, id, a);
    }
  }

  /** Without one it changes nothing unless it names nobody but the actor. */
  lemma {:induction false} BulkNeedsAuthority(us: Users, actor: Id, generation: nat, ids: seq<Id>, a: Action)
    requires a != SetRole(Pending) && !Authorized(us, actor, generation)
    ensures All(us, actor, generation, ids, a).Ok? <==> forall id :: id in ids ==> id == actor
    ensures All(us, actor, generation, ids, a).Ok? ==> All(us, actor, generation, ids, a).value.users == us
    ensures All(us, actor, generation, ids, a).Err? ==> All(us, actor, generation, ids, a).error == Revoked
  {
    if ids != [] {
      var front, last := ids[..|ids| - 1], ids[|ids| - 1];
      assert ids == front + [last];
      assert forall id :: id in ids <==> id in front || id == last;
      BulkNeedsAuthority(us, actor, generation, front, a);
      assert last in ids;
    }
  }

  lemma {:induction false} AllStops(us: Users, actor: Id, generation: nat, ids: seq<Id>, a: Action, n: nat)
    requires n <= |ids| && All(us, actor, generation, ids[..n], a).Err?
    ensures All(us, actor, generation, ids, a) == All(us, actor, generation, ids[..n], a)
    decreases |ids| - n
  {
    if n == |ids| {
      assert ids[..n] == ids;
    } else {
      assert ids[..n + 1][..n] == ids[..n];
      AllStops(us, actor, generation, ids, a, n + 1);
    }
  }

  /** The request's transaction. */
  class Session {
    var users: Users

    method DedupeIds(ids: seq<Id>) returns (unique: seq<Id>)
      ensures unique == Dedupe(ids)
    {
      unique := [];
      for i := 0 to |ids|
        invariant unique == Dedupe(ids[..i])
      {
        assert ids[..i + 1][..i] == ids[..i];
        if ids[i] !in unique { unique := unique + [ids[i]]; }
      }
      assert ids[..|ids|] == ids;
    }

    /** On a refusal the transaction is rolled back. */
    method BulkUsers(actor: Id, generation: nat, ids: seq<Id>, a: Action)
      returns (r: Result<(seq<Id>, seq<(Id, Skip)>), Refusal>)
      modifies this
      ensures a == SetRole(Pending) ==> r == Err(BadRole) && users == old(users)
      ensures a != SetRole(Pending) ==>
                match All(old(users), actor, generation, Dedupe(ids), a)
                case Ok(report) => r == Ok((report.updated, report.skipped)) && users == report.users
                case Err(why) => r == Err(why) && users == old(users)
    {
      if a == SetRole(Pending) { return Err(BadRole); }
      var unique := DedupeIds(ids);
      var updated, skipped, before := [], [], users;
      for i := 0 to |unique|
        invariant All(before, actor, generation, unique[..i], a) == Ok(Report(users, updated, skipped))
      {
        assert unique[..i + 1][..i] == unique[..i];
        var id := unique[i];
        if id == actor {
          skipped := skipped + [(id, Own)];
          continue;
        }
        var act := AdminAct(users, actor, generation, id, a);
        if act.Ok? {
          users, updated := act.value, updated + [id];
        } else if act.error in {NotFound, NotPending} {
          skipped := skipped + [(id, Refused(act.error))];
        } else {
          AllStops(before, actor, generation, unique, a, i + 1);
          users := before;
          return Err(act.error);
        }
      }
      assert unique[..|unique|] == unique;
      r := Ok((updated, skipped));
    }
  }
}
