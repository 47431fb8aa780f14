/** Password-reset capabilities: stored under the token's digest, consumed once, bound to a generation. */
module PasswordReset {
  import opened Prelude

  type Email = string
  type Digest = string

  /** The key families `auth:password_reset:`, `auth:password_reset_gen:`, `auth:password_reset_ref:`. */
  datatype Redis = Redis(account: map<Digest, Email>, gen: map<Digest, nat>, ref: map<Email, Digest>)

  datatype Consumed = Consumed(digest: Digest, email: Email, generation: nat)

  function Store(r: Redis, email: Email, digest: Digest, generation: nat): Redis
  {
    var previous := if email in r.ref then {r.ref[email]} else {};
    Redis((r.account - previous)[digest := email], (r.gen - previous)[digest := generation], r.ref[email := digest])
  }

  /** `email` is what the caller read before running the script. */
  function Consume(r: Redis, email: Email, digest: Digest): (Redis, Option<Consumed>)
  {
    if digest !in r.account || digest !in r.gen || email !in r.ref || r.ref[email] != digest then
      (Redis(r.account - {digest}, r.gen - {digest}, r.ref), None)
    else
      (Redis(r.account - {digest}, r.gen - {digest}, r.ref - {email}),
       Some(Consumed(digest, r.account[digest], r.gen[digest])))
  }

  // ── The run ─────────────────────────────────────────────────────────────────

  datatype Capability = Capability(email: Email, generation: nat)

  datatype World = World(
    redis: Redis, generations: map<Email, nat>, issued: map<Digest, Capability>, latest: map<Email, Digest>,
    consumed: multiset<Digest>, pending: set<Consumed>, done: multiset<Digest>)

  datatype Lost = LostAccount(digest: Digest) | LostGen(digest: Digest) | LostRef(email: Email)

  datatype Step =
    | Issue(email: Email, digest: Digest, generation: nat)
    | Redeem(email: Email, digest: Digest)
    | Reset(c: Consumed)
    | Bump(email: Email)
    | Lose(key: Lost)

  function Drop(r: Redis, key: Lost): Redis
  {
    match key
    case LostAccount(d) => r.(account := r.account - {d})
    case LostGen(d) => r.(gen := r.gen - {d})
    case LostRef(e) => r.(ref := r.ref - {e})
  }

  /** `reset_password` under the row lock. */
  predicate Resets(w: World, c: Consumed)
  {
    c in w.pending && c.email in w.generations && w.generations[c.email] == c.generation
  }

  function Next(w: World, s: Step): World
  {
    match s
    case Issue(email, digest, g) =>
      if digest in w.issued || email !in w.generations || g > w.generations[email] then w
      else w.(redis := Store(w.redis, email, digest, g), issued := w.issued[digest := Capability(email, g)],
              latest := w.latest[email := digest])
    case Redeem(email, digest) =>
      var reply := Consume(w.redis, email, digest);
      if reply.1.None? then w.(redis := reply.0)
      else w.(redis := reply.0, consumed := w.consumed + multiset{digest}, pending := w.pending + {reply.1.value})
    case Reset(c) =>
      if !Resets(w, c) then w.(pending := w.pending - {c})
      else w.(pending := w.pending - {c}, done := w.done + multiset{c.digest},
              generations := w.generations[c.email := c.generation + 1])
    case Bump(email) =>
      if email !in w.generations then w else w.(generations := w.generations[email := w.generations[email] + 1])
    case Lose(key) => w.(redis := Drop(w.redis, key))
  }

  function Start(generations: map<Email, nat>): World
  {
    World(Redis(map[], map[], map[]), generations, map[], map[], multiset{}, {}, multiset{})
  }

  function Run(w: World, steps: seq<Step>): World
  {
    if steps == [] then w else Next(Run(w, steps[..|steps| - 1]), steps[|steps| - 1])
  }

  // ── Invariant ───────────────────────────────────────────────────────────────

  ghost predicate IsLatest(w: World, email: Email)
  {
    email in w.latest && w.latest[email] in w.issued && w.issued[w.latest[email]].email == email
  }

  ghost predicate KeysOk(w: World)
  {
    && (forall e :: e in w.redis.ref ==> IsLatest(w, e) && w.redis.ref[e] == w.latest[e])
    && (forall d :: d in w.redis.account ==> d in w.issued && w.redis.account[d] == w.issued[d].email)
    && (forall d :: d in w.redis.gen ==> d in w.issued && w.redis.gen[d] == w.issued[d].generation)
  }

  ghost predicate ConsumedOk(w: World)
  {
    && (forall d :: d in w.consumed ==> d in w.issued && w.consumed[d] == 1 && d !in w.redis.account)
    && (forall c :: c in w.pending ==>
          c.digest in w.consumed && c.digest in w.issued && c.digest !in w.done
          && Capability(c.email, c.generation) == w.issued[c.digest])
    && (forall d :: d in w.done ==> d in w.consumed && w.done[d] == 1)
  }

  ghost predicate GenerationsOk(w: World)
  {
    && (forall d :: d in w.issued ==>
          w.issued[d].email in w.generations && w.issued[d].generation <= w.generations[w.issued[d].email])
    && (forall d :: Won(w, d) ==> w.issued[d].generation < w.generations[w.issued[d].email])
  }

  predicate Won(w: World, d: Digest) { d in w.done && d in w.issued && w.issued[d].email in w.generations }

  ghost predicate OneWinner(w: World)
  {
    forall d, d' :: Won(w, d) && Won(w, d') && w.issued[d] == w.issued[d'] ==> d == d'
  }

  ghost predicate Inv(w: World) { KeysOk(w) && ConsumedOk(w) && GenerationsOk(w) && OneWinner(w) }

  lemma IssueKeepsKeys(w: World, email: Email, digest: Digest, g: nat)
    requires KeysOk(w) && digest !in w.issued && email in w.generations && g <= w.generations[email]
    ensures KeysOk(Next(w, Issue(email, digest, g)))
  {}

  lemma IssueKeepsConsumed(w: World, email: Email, digest: Digest, g: nat)
    requires ConsumedOk(w) && digest !in w.issued && email in w.generations && g <= w.generations[email]
    ensures ConsumedOk(Next(w, Issue(email, digest, g)))
  {}

  lemma IssueKeepsGenerations(w: World, email: Email, digest: Digest, g: nat)
    requires ConsumedOk(w) && GenerationsOk(w) && OneWinner(w)
    requires digest !in w.issued && email in w.generations && g <= w.generations[email]
    ensures GenerationsOk(Next(w, Issue(email, digest, g))) && OneWinner(Next(w, Issue(email, digest, g)))
  {
    assert digest !in w.done;
    IssuedFrame(w, Next(w, Issue(email, digest, g)), digest, Capability(email, g));
  }

  lemma IssuedFrame(w: World, w': World, digest: Digest, c: Capability)
    requires GenerationsOk(w) && OneWinner(w) && digest !in w.done && digest !in w.issued
    requires c.email in w.generations && c.generation <= w.generations[c.email]
    requires w'.issued == w.issued[digest := c] && w'.done == w.done && w'.generations == w.generations
    ensures GenerationsOk(w') && OneWinner(w')
  {}

  lemma RedeemKeepsKeys(w: World, email: Email, digest: Digest)
    requires KeysOk(w)
    ensures KeysOk(Next(w, Redeem(email, digest)))
  {}

  lemma RedeemKeepsConsumed(w: World, email: Email, digest: Digest)
    requires KeysOk(w) && ConsumedOk(w)
    ensures ConsumedOk(Next(w, Redeem(email, digest)))
  {
    var w', reply := Next(w, Redeem(email, digest)), Consume(w.redis, email, digest);
    if reply.1.Some? {
      assert digest !in w.consumed && digest !in w.done;
      assert forall c :: c in w.pending ==> c.digest != digest;
    }
  }

  lemma KeysFrame(w: World, w': World)
    requires KeysOk(w) && w'.redis == w.redis && w'.issued == w.issued && w'.latest == w.latest
    ensures KeysOk(w')
  {}

  lemma ResetKeepsConsumed(w: World, c: Consumed)
    requires ConsumedOk(w)
    ensures ConsumedOk(Next(w, Reset(c)))
  {}

  lemma GenerationsFrame(w: World, w': World)
    requires GenerationsOk(w) && OneWinner(w)
    requires w'.issued == w.issued && w'.done == w.done && w'.generations.Keys == w.generations.Keys
    requires forall e :: e in w.generations ==> w.generations[e] <= w'.generations[e]
    ensures GenerationsOk(w') && OneWinner(w')
  {
    assert forall d :: Won(w', d) <==> Won(w, d);
  }

  lemma ResetKeepsGenerations(w: World, c: Consumed)
    requires ConsumedOk(w) && GenerationsOk(w) && OneWinner(w) && Resets(w, c)
    ensures GenerationsOk(Next(w, Reset(c))) && OneWinner(Next(w, Reset(c)))
  {
    var w' := Next(w, Reset(c));
    assert w.issued[c.digest] == Capability(c.email, w.generations[c.email]);
    assert forall d :: Won(w', d) <==> Won(w, d) || d == c.digest;
    assert forall d :: Won(w, d) ==> w.issued[d] != w.issued[c.digest];
    assert forall e :: e in w.generations ==> w.generations[e] <= w'.generations[e];
  }

  lemma ResetKeepsInv(w: World, c: Consumed)
    requires Inv(w)
    ensures Inv(Next(w, Reset(c)))
  {
    KeysFrame(w, Next(w, Reset(c)));
    ResetKeepsConsumed(w, c);
    if Resets(w, c) { ResetKeepsGenerations(w, c); } else { GenerationsFrame(w, Next(w, Reset(c))); }
  }

  lemma ConsumedFrame(w: World, w': World)
    requires ConsumedOk(w) && w'.redis.account.Keys <= w.redis.account.Keys && w'.issued == w.issued
    requires w'.consumed == w.consumed && w'.pending == w.pending && w'.done == w.done
    ensures ConsumedOk(w')
  {}

  lemma BumpKeepsInv(w: World, email: Email)
    requires Inv(w)
    ensures Inv(Next(w, Bump(email)))
  {
    if email in w.generations {
      var w' := w.(generations := w.generations[email := w.generations[email] + 1]);
      KeysFrame(w, w');
      ConsumedFrame(w, w');
      GenerationsFrame(w, w');
      assert Next(w, Bump(email)) == w';
    }
  }

  lemma RedeemKeepsInv(w: World, email: Email, digest: Digest)
    requires Inv(w)
    ensures Inv(Next(w, Redeem(email, digest)))
  {
    RedeemKeepsKeys(w, email, digest);
    RedeemKeepsConsumed(w, email, digest);
    RedeemKeepsGenerations(w, email, digest);
  }

  lemma RedeemFrame(w: World, email: Email, digest: Digest)
    ensures var w' := Next(w, Redeem(email, digest));
            w'.issued == w.issued && w'.done == w.done && w'.generations == w.generations
  {}

  lemma RedeemKeepsGenerations(w: World, email: Email, digest: Digest)
    requires GenerationsOk(w) && OneWinner(w)
    ensures GenerationsOk(Next(w, Redeem(email, digest))) && OneWinner(Next(w, Redeem(email, digest)))
  {
    RedeemFrame(w, email, digest);
    GenerationsFrame(w, Next(w, Redeem(email, digest)));
  }

  lemma LoseKeepsKeys(w: World, key: Lost)
    requires KeysOk(w)
    ensures KeysOk(Next(w, Lose(key)))
  {}

  lemma LoseKeepsInv(w: World, key: Lost)
    requires Inv(w)
    ensures Inv(Next(w, Lose(key)))
  {
    LoseKeepsKeys(w, key);
    ConsumedFrame(w, Next(w, Lose(key)));
    GenerationsFrame(w, Next(w, Lose(key)));
  }

  lemma NextKeepsInv(w: World, s: Step)
    requires Inv(w)
    ensures Inv(Next(w, s))
  {
    match s
    case Issue(email, digest, g) =>
      if digest in w.issued || email !in w.generations || g > w.generations[email] {
        assert Next(w, s) == w;
      } else {
        IssueKeepsKeys(w, email, digest, g);
        IssueKeepsConsumed(w, email, digest, g);
        IssueKeepsGenerations(w, email, digest, g);
      }
    case Redeem(email, digest) => RedeemKeepsInv(w, email, digest);
    case Reset(c) => ResetKeepsInv(w, c);
    case Bump(email) => BumpKeepsInv(w, email);
    case Lose(key) => LoseKeepsInv(w, key);
  }

  lemma {:induction false} RunKeepsInv(generations: map<Email, nat>, steps: seq<Step>)
    ensures Inv(Run(Start(generations), steps))
  {
    if steps != [] {
      RunKeepsInv(generations, steps[..|steps| - 1]);
      NextKeepsInv(Run(Start(generations), steps[..|steps| - 1]), steps[|steps| - 1]);
    }
  }

  // ── Theorems ────────────────────────────────────────────────────────────────

  /** A capability resets a password at most once; of all capabilities an account was issued at one
      generation at most one ever does, and it does so at that very generation. */
  lemma OneWinnerPerGeneration(generations: map<Email, nat>, steps: seq<Step>, d: Digest, d': Digest)
    requires d in Run(Start(generations), steps).issued && d' in Run(Start(generations), steps).issued
    requires d != d' && Run(Start(generations), steps).issued[d] == Run(Start(generations), steps).issued[d']
    ensures var w := Run(Start(generations), steps); w.done[d] + w.done[d'] <= 1
  {
    RunKeepsInv(generations, steps);
    var w := Run(Start(generations), steps);
    assert Won(w, d) <==> d in w.done;
    assert Won(w, d') <==> d' in w.done;
  }

  lemma ResetIsCurrent(generations: map<Email, nat>, steps: seq<Step>, c: Consumed)
    requires Resets(Run(Start(generations), steps), c)
    ensures var w := Run(Start(generations), steps);
            c.digest in w.issued && w.issued[c.digest] == Capability(c.email, w.generations[c.email])
  {
    RunKeepsInv(generations, steps);
  }

  /** A superseded capability is refused by the script whoever presents it. */
  lemma SupersededNeverConsumed(generations: map<Email, nat>, steps: seq<Step>, email: Email, digest: Digest)
    ensures var w := Run(Start(generations), steps);
            var reply := Consume(w.redis, email, digest).1;
            reply.Some? ==>
              && email in w.latest && w.latest[email] == digest && digest in w.issued
              && reply.value == Consumed(digest, email, w.issued[digest].generation)
              && digest !in w.consumed
  {
    RunKeepsInv(generations, steps);
    var w := Run(Start(generations), steps);
    if email in w.redis.ref { assert IsLatest(w, email); }
  }

  ghost predicate Dead(w: World, digest: Digest, c: Capability)
  {
    && digest in w.issued && w.issued[digest] == c
    && c.email in w.generations && c.generation < w.generations[c.email]
  }

  lemma DeadStays(w: World, s: Step, digest: Digest, c: Capability)
    requires ConsumedOk(w) && Dead(w, digest, c)
    ensures Dead(Next(w, s), digest, c) && Next(w, s).done[digest] == w.done[digest]
  {}

  lemma {:induction false} Outlived(w: World, steps: seq<Step>, digest: Digest, c: Capability)
    requires Inv(w) && Dead(w, digest, c)
    ensures var w' := Run(w, steps);
            Inv(w') && Dead(w', digest, c) && w'.done[digest] == w.done[digest]
  {
    if steps != [] {
      var w' := Run(w, steps[..|steps| - 1]);
      Outlived(w, steps[..|steps| - 1], digest, c);
      DeadStays(w', steps[|steps| - 1], digest, c);
      NextKeepsInv(w', steps[|steps| - 1]);
    }
  }

  lemma ResetOutdates(w: World, c: Consumed, other: Digest)
    requires Inv(w) && Resets(w, c) && other != c.digest && other in w.issued && w.issued[other].email == c.email
    ensures var w' := Next(w, Reset(c));
            Inv(w') && Dead(w', other, w.issued[other]) && w'.done[other] == w.done[other]
  {
    NextKeepsInv(w, Reset(c));
  }

  /** A successful reset kills every other capability the account was ever issued, including those
      already consumed and on their way to the database. */
  lemma ResetKillsTheOthers(generations: map<Email, nat>, before: seq<Step>, c: Consumed, after: seq<Step>,
                            other: Digest)
    requires Resets(Run(Start(generations), before), c) && other != c.digest
    requires other in Run(Start(generations), before).issued
    requires Run(Start(generations), before).issued[other].email == c.email
    ensures var w := Run(Start(generations), before);
            Run(Next(w, Reset(c)), after).done[other] == w.done[other]
  {
    var w := Run(Start(generations), before);
    RunKeepsInv(generations, before);
    ResetOutdates(w, c, other);
    Outlived(Next(w, Reset(c)), after, other, w.issued[other]);
  }
}

module PasswordResetStore {
  import opened Prelude
  import Spec = PasswordReset

  class Store {
    var account: map<Spec.Digest, Spec.Email>
    var gen: map<Spec.Digest, nat>
    var ref: map<Spec.Email, Spec.Digest>

    ghost function Keys(): Spec.Redis reads this { Spec.Redis(account, gen, ref) }

    method StoreToken(email: Spec.Email, digest: Spec.Digest, generation: nat)
      modifies this
      ensures Keys() == Spec.Store(old(Keys()), email, digest, generation)
    {
      if email in ref {
        account, gen := account - {ref[email]}, gen - {ref[email]};
      } else {
        assert account - {} == account && gen - {} == gen;
      }
      account := account[digest := email];
      gen := gen[digest := generation];
      ref := ref[email := digest];
    }

    /** The read of the capability's e-mail, then the script. */
    method ConsumeToken(digest: Spec.Digest) returns (consumed: Option<Spec.Consumed>)
      modifies this
      ensures digest !in old(account) ==> consumed == None && Keys() == old(Keys())
      ensures digest in old(account) ==>
                (Keys(), consumed) == Spec.Consume(old(Keys()), old(account)[digest], digest)
    {
      if digest !in account { return None; }
      var email := account[digest];
      if digest in gen && email in ref && ref[email] == digest {
        consumed := Some(Spec.Consumed(digest, email, gen[digest]));
        ref := ref - {email};
      } else {
        consumed := None;
      }
      account, gen := account - {digest}, gen - {digest};
    }
  }
}
