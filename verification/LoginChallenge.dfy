/** Login challenges: one e-mailed code and one e-mailed link, redeemable once between them. */
module LoginChallenge {
  import opened Prelude

  type Email = string
  type Code = string
  type Token = string

  /** The four key families `auth:code:`, `auth:magic_ref:`, `auth:magic:`, `auth:challenge_gen:`. */
  datatype Redis = Redis(code: map<Email, Code>, ref: map<Email, Token>, magic: map<Token, Email>,
                         gen: map<Email, nat>)

  // ── The atomic scripts ──────────────────────────────────────────────────────

  function Store(r: Redis, email: Email, code: Code, token: Token, generation: nat): Redis
  {
    var magic := if email in r.ref then r.magic - {r.ref[email]} else r.magic;
    Redis(r.code[email := code], r.ref[email := token], magic[token := email], r.gen[email := generation])
  }

  /** A lost generation reads as 0. */
  function Bound(r: Redis, email: Email): nat { if email in r.gen then r.gen[email] else 0 }

  function VerifyCode(r: Redis, email: Email, code: Code): (Redis, Option<nat>)
  {
    if email !in r.code || r.code[email] != code then (r, None)
    else
      var magic, ref := if email in r.ref then r.magic - {r.ref[email]} else r.magic, r.ref - {email};
      (Redis(r.code - {email}, ref, magic, r.gen - {email}), Some(Bound(r, email)))
  }

  function VerifyMagic(r: Redis, email: Email, token: Token): (Redis, Option<nat>)
  {
    if token !in r.magic || r.magic[token] != email then (r, None)
    else if email !in r.ref || r.ref[email] != token then (r.(magic := r.magic - {token}), None)
    else
      (Redis(r.code - {email}, r.ref - {email}, r.magic - {token}, r.gen - {email}), Some(Bound(r, email)))
  }

  // ── The run ─────────────────────────────────────────────────────────────────

  /** An issued challenge: the generation its request read, and the one when it was stored. */
  datatype Challenge = Challenge(email: Email, code: Code, generation: nat, at: nat)

  /** A successful script whose handler has not yet compared generations. */
  datatype Redeemed = Redeemed(token: Token, generation: nat)

  /** Challenges are named by their link token, which is never drawn twice. */
  datatype World = World(
    redis: Redis, generations: map<Email, nat>, issued: map<Token, Challenge>, latest: map<Email, Token>,
    redeemed: multiset<Token>, pending: set<Redeemed>, accepted: multiset<Token>)

  /** A missing account counts as generation 0, and is created with it. */
  function Current(w: World, email: Email): nat
  {
    if email in w.generations then w.generations[email] else 0
  }

  datatype Lost = LostCode(email: Email) | LostRef(email: Email) | LostGen(email: Email) | LostMagic(token: Token)

  /** `Issue` carries the generation read earlier, `RedeemLink` the e-mail read earlier; `Lose` is
      expiry or eviction of one key; `Bump` is any recovery, role change or password change. */
  datatype Step =
    | Issue(email: Email, code: Code, token: Token, generation: nat)
    | RedeemCode(email: Email, code: Code)
    | RedeemLink(email: Email, token: Token)
    | Complete(r: Redeemed)
    | Bump(email: Email)
    | Lose(key: Lost)

  function Drop(r: Redis, key: Lost): Redis
  {
    match key
    case LostCode(e) => r.(code := r.code - {e})
    case LostRef(e) => r.(ref := r.ref - {e})
    case LostGen(e) => r.(gen := r.gen - {e})
    case LostMagic(t) => r.(magic := r.magic - {t})
  }

  /** Record a script's reply: a success redeems the account's latest challenge. */
  function Reply(w: World, email: Email, reply: (Redis, Option<nat>)): World
  {
    if reply.1.None? || email !in w.latest then w.(redis := reply.0)
    else
      w.(redis := reply.0, redeemed := w.redeemed + multiset{w.latest[email]},
         pending := w.pending + {Redeemed(w.latest[email], reply.1.value)})
  }

  /** The handler's last check. */
  predicate Accepts(w: World, r: Redeemed)
  {
    r in w.pending && r.token in w.issued && Current(w, w.issued[r.token].email) == r.generation
  }

  function Next(w: World, s: Step): World
  {
    match s
    case Issue(email, code, token, g) =>
      if token in w.issued || g > Current(w, email) then w
      else
        w.(redis := Store(w.redis, email, code, token, g),
           issued := w.issued[token := Challenge(email, code, g, Current(w, email))],
           latest := w.latest[email := token])
    case RedeemCode(email, code) => Reply(w, email, VerifyCode(w.redis, email, code))
    case RedeemLink(email, token) => Reply(w, email, VerifyMagic(w.redis, email, token))
    case Complete(r) =>
      if r !in w.pending then w
      else w.(pending := w.pending - {r},
              accepted := if Accepts(w, r) then w.accepted + multiset{r.token} else w.accepted)
    case Bump(email) => w.(generations := w.generations[email := Current(w, email) + 1])
    case Lose(key) => w.(redis := Drop(w.redis, key))
  }

  function Start(generations: map<Email, nat>): World
  {
    World(Redis(map[], map[], map[], map[]), generations, map[], map[], multiset{}, {}, multiset{})
  }

  function Run(w: World, steps: seq<Step>): World
  {
    if steps == [] then w else Next(Run(w, steps[..|steps| - 1]), steps[|steps| - 1])
  }

  // ── Invariant ───────────────────────────────────────────────────────────────

  ghost predicate IsLatest(w: World, email: Email)
  {
    email in w.latest && w.latest[email] in w.issued && w.issued[w.latest[email]].email == email
  }

  /** Whatever keys survive, they are those of the account's latest challenge. */
  ghost predicate KeysOk(w: World)
  {
    && (forall e :: e in w.latest ==> IsLatest(w, e))
    && (forall e :: e in w.redis.code ==> IsLatest(w, e) && w.redis.code[e] == w.issued[w.latest[e]].code)
    && (forall e :: e in w.redis.ref ==> IsLatest(w, e) && w.redis.ref[e] == w.latest[e])
    && (forall e :: e in w.redis.gen ==> IsLatest(w, e) && w.redis.gen[e] == w.issued[w.latest[e]].generation)
    && (forall t :: t in w.redis.magic ==> t in w.issued && w.issued[t].email == w.redis.magic[t])
  }

  /** A redeemed challenge has neither its code nor its link reference left. */
  ghost predicate RedeemedOk(w: World)
  {
    && (forall t :: t in w.redeemed ==> t in w.issued && w.redeemed[t] == 1)
    && (forall e :: e in w.latest && w.latest[e] in w.redeemed ==> e !in w.redis.code && e !in w.redis.ref)
  }

  ghost predicate PendingOk(w: World)
  {
    && (forall r :: r in w.pending ==> r.token in w.redeemed && r.token in w.issued && r.token !in w.accepted
                                       && (r.generation == 0 || r.generation == w.issued[r.token].generation))
    && (forall r, q :: r in w.pending && q in w.pending && r.token == q.token ==> r == q)
    && (forall t :: t in w.accepted ==> t in w.redeemed && w.accepted[t] == 1)
  }

  ghost predicate GenerationsOk(w: World)
  {
    forall t :: t in w.issued ==> w.issued[t].generation <= w.issued[t].at <= Current(w, w.issued[t].email)
  }

  ghost predicate Inv(w: World)
  {
    KeysOk(w) && RedeemedOk(w) && PendingOk(w) && GenerationsOk(w)
  }

  lemma IssueKeepsKeys(w: World, s: Step)
    requires KeysOk(w) && s.Issue? && s.token !in w.issued && s.generation <= Current(w, s.email)
    ensures KeysOk(Next(w, s))
  {
    var w' := Next(w, s);
    assert IsLatest(w', s.email);
    forall e | e in w.latest && e != s.email ensures IsLatest(w', e) && w'.latest[e] == w.latest[e] {
      assert IsLatest(w, e);
    }
  }

  lemma IssueKeepsRedeemed(w: World, s: Step)
    requires Inv(w) && s.Issue? && s.token !in w.issued && s.generation <= Current(w, s.email)
    ensures RedeemedOk(Next(w, s))
  {}

  lemma IssueKeepsPending(w: World, s: Step)
    requires PendingOk(w) && s.Issue? && s.token !in w.issued && s.generation <= Current(w, s.email)
    ensures PendingOk(Next(w, s))
  {}

  lemma IssueKeepsGenerations(w: World, s: Step)
    requires GenerationsOk(w) && s.Issue? && s.token !in w.issued && s.generation <= Current(w, s.email)
    ensures GenerationsOk(Next(w, s))
  {}

  /** A script's success removes the code and the reference of the challenge it redeems. */
  ghost predicate Spends(r: Redis, email: Email, reply: (Redis, Option<nat>))
  {
    var r' := reply.0;
    && r'.code.Keys <= r.code.Keys && (forall e :: e in r'.code ==> r'.code[e] == r.code[e])
    && r'.ref.Keys <= r.ref.Keys && (forall e :: e in r'.ref ==> r'.ref[e] == r.ref[e])
    && r'.gen.Keys <= r.gen.Keys && (forall e :: e in r'.gen ==> r'.gen[e] == r.gen[e])
    && r'.magic.Keys <= r.magic.Keys && (forall t :: t in r'.magic ==> r'.magic[t] == r.magic[t])
    && (reply.1.Some? ==>
          && email !in r'.code && email !in r'.ref && (email in r.code || email in r.ref)
          && reply.1.value == Bound(r, email))
  }

  lemma FewerKeysOk(w: World, w': World, email: Email, reply: (Redis, Option<nat>))
    requires KeysOk(w) && Spends(w.redis, email, reply)
    requires w'.redis == reply.0 && w'.latest == w.latest && w'.issued == w.issued
    ensures KeysOk(w')
  {}

  lemma ReplyKeepsRedeemed(w: World, email: Email, reply: (Redis, Option<nat>))
    requires KeysOk(w) && RedeemedOk(w) && Spends(w.redis, email, reply)
    ensures RedeemedOk(Reply(w, email, reply))
    ensures reply.1.Some? ==> email in w.latest && w.latest[email] !in w.redeemed
  {
    var w' := Reply(w, email, reply);
    if reply.1.Some? {
      assert IsLatest(w, email);
      forall e | e in w'.latest && w'.latest[e] in w'.redeemed
        ensures e !in w'.redis.code && e !in w'.redis.ref
      {
        if w.latest[e] == w.latest[email] { assert IsLatest(w, e); }
      }
    }
  }

  lemma ReplyKeepsPending(w: World, email: Email, reply: (Redis, Option<nat>))
    requires Inv(w) && Spends(w.redis, email, reply)
    ensures PendingOk(Reply(w, email, reply))
  {
    ReplyKeepsRedeemed(w, email, reply);
    if reply.1.Some? {
      assert IsLatest(w, email);
      var r := Redeemed(w.latest[email], reply.1.value);
      assert r.generation == 0 || r.generation == w.issued[r.token].generation;
      AddPending(w, Reply(w, email, reply), r);
    }
  }

  lemma AddPending(w: World, w': World, r: Redeemed)
    requires PendingOk(w) && r.token !in w.redeemed && r.token in w.issued && w'.issued == w.issued
    requires r.generation == 0 || r.generation == w.issued[r.token].generation
    requires w'.pending == w.pending + {r} && w'.redeemed == w.redeemed + multiset{r.token} && w'.accepted == w.accepted
    ensures PendingOk(w')
  {}

  lemma ReplyKeepsKeys(w: World, email: Email, reply: (Redis, Option<nat>))
    requires KeysOk(w) && Spends(w.redis, email, reply)
    ensures KeysOk(Reply(w, email, reply))
  {}

  lemma GenerationsFrame(w: World, w': World)
    requires GenerationsOk(w) && w'.issued == w.issued && w'.generations == w.generations
    ensures GenerationsOk(w')
  {}

  lemma ReplyKeepsInv(w: World, email: Email, reply: (Redis, Option<nat>))
    requires Inv(w) && Spends(w.redis, email, reply)
    ensures Inv(Reply(w, email, reply))
  {
    ReplyKeepsKeys(w, email, reply);
    ReplyKeepsRedeemed(w, email, reply);
    ReplyKeepsPending(w, email, reply);
    GenerationsFrame(w, Reply(w, email, reply));
  }

  lemma KeysFrame(w: World, w': World)
    requires KeysOk(w) && w'.redis == w.redis && w'.issued == w.issued && w'.latest == w.latest
    ensures KeysOk(w')
  {}

  lemma CompleteKeepsPending(w: World, r: Redeemed)
    requires PendingOk(w)
    ensures PendingOk(Next(w, Complete(r)))
  {}

  lemma RedeemedFrame(w: World, w': World)
    requires RedeemedOk(w) && w'.redis == w.redis && w'.issued == w.issued && w'.latest == w.latest
    requires w'.redeemed == w.redeemed
    ensures RedeemedOk(w')
  {}

  lemma CompleteKeepsInv(w: World, r: Redeemed)
    requires Inv(w)
    ensures Inv(Next(w, Complete(r)))
  {}

  lemma BumpKeepsInv(w: World, email: Email)
    requires Inv(w)
    ensures Inv(Next(w, Bump(email)))
  {
    var w' := Next(w, Bump(email));
    assert forall e :: IsLatest(w, e) <==> IsLatest(w', e);
    assert forall e :: Current(w, e) <= Current(w', e);
    assert KeysOk(w') && RedeemedOk(w') && PendingOk(w');
  }

  lemma DropSpends(w: World, key: Lost)
    ensures Spends(w.redis, "", (Drop(w.redis, key), None))
  {}

  lemma LoseKeepsInv(w: World, key: Lost)
    requires Inv(w)
    ensures Inv(Next(w, Lose(key)))
  {
    DropSpends(w, key);
    assert Next(w, Lose(key)) == Reply(w, "", (Drop(w.redis, key), None));
    ReplyKeepsInv(w, "", (Drop(w.redis, key), None));
  }

  lemma ScriptsSpend(w: World, email: Email, code: Code, token: Token)
    requires KeysOk(w)
    ensures Spends(w.redis, email, VerifyCode(w.redis, email, code))
    ensures Spends(w.redis, email, VerifyMagic(w.redis, email, token))
  {}

  lemma NextKeepsInv(w: World, s: Step)
    requires Inv(w)
    ensures Inv(Next(w, s))
  {
    match s
    case Issue(email, _, token, g) =>
      if token !in w.issued && g <= Current(w, email) {
        IssueKeepsKeys(w, s);
        IssueKeepsRedeemed(w, s);
        IssueKeepsPending(w, s);
        IssueKeepsGenerations(w, s);
      }
    case RedeemCode(email, code) =>
      ScriptsSpend(w, email, code, "");
      ReplyKeepsInv(w, email, VerifyCode(w.redis, email, code));
    case RedeemLink(email, token) =>
      ScriptsSpend(w, email, "", token);
      ReplyKeepsInv(w, email, VerifyMagic(w.redis, email, token));
    case Complete(r) => CompleteKeepsInv(w, r);
    case Bump(email) => BumpKeepsInv(w, email);
    case Lose(key) => LoseKeepsInv(w, key);
  }

  lemma {:induction false} RunKeepsInv(generations: map<Email, nat>, steps: seq<Step>)
    ensures Inv(Run(Start(generations), steps))
  {
    if steps != [] {
      RunKeepsInv(generations, steps[..|steps| - 1]);
      NextKeepsInv(Run(Start(generations), steps[..|steps| - 1]), steps[|steps| - 1]);
    }
  }

  // ── Theorems ────────────────────────────────────────────────────────────────

  /** In every interleaving, and whichever keys Redis loses, a challenge's code and link are
      redeemed at most once between them, and at most one login comes of it. */
  lemma RedeemedOnce(generations: map<Email, nat>, steps: seq<Step>, token: Token)
    ensures var w := Run(Start(generations), steps);
            w.accepted[token] <= w.redeemed[token] <= 1
  {
    RunKeepsInv(generations, steps);
  }

  /** The account's latest challenge, while neither its code nor its link has been redeemed. */
  ghost predicate Redeemable(w: World, email: Email)
  {
    email in w.latest && w.latest[email] in w.issued && w.latest[email] !in w.redeemed
  }

  /** Whatever has been lost, only the latest challenge's own code is ever redeemed: a superseded one
      never is. */
  lemma SupersededCodeRefused(generations: map<Email, nat>, steps: seq<Step>, email: Email, code: Code)
    ensures var w := Run(Start(generations), steps);
            VerifyCode(w.redis, email, code).1.Some? ==>
              Redeemable(w, email) && code == w.issued[w.latest[email]].code
  {
    RunKeepsInv(generations, steps);
    var w := Run(Start(generations), steps);
    if email in w.redis.code { assert IsLatest(w, email); }
  }

  /** And only the latest challenge's own link. */
  lemma SupersededLinkRefused(generations: map<Email, nat>, steps: seq<Step>, email: Email, token: Token)
    ensures var w := Run(Start(generations), steps);
            VerifyMagic(w.redis, email, token).1.Some? ==> Redeemable(w, email) && token == w.latest[email]
  {
    RunKeepsInv(generations, steps);
    var w := Run(Start(generations), steps);
    if email in w.redis.ref { assert IsLatest(w, email); }
  }

  /** A login that the handler accepts was issued, and stored, at the generation the account has now. */
  lemma AcceptedIsCurrent(generations: map<Email, nat>, steps: seq<Step>, r: Redeemed)
    requires Accepts(Run(Start(generations), steps), r)
    ensures var w := Run(Start(generations), steps);
            var c := w.issued[r.token];
            c.generation == c.at == Current(w, c.email)
  {
    RunKeepsInv(generations, steps);
  }

  /** Keys are all present for a challenge that is latest and unredeemed. */
  ghost predicate Intact(w: World)
  {
    forall e :: e in w.latest && w.latest[e] !in w.redeemed ==>
      e in w.redis.code && e in w.redis.ref && e in w.redis.gen && w.latest[e] in w.redis.magic
  }

  lemma IssueKeepsIntact(w: World, s: Step)
    requires KeysOk(w) && Intact(w) && s.Issue?
    ensures Intact(Next(w, s))
  {}

  /** A script leaves every other account's keys alone, and its own unless it succeeds. */
  lemma ScriptsAreLocal(w: World, email: Email, code: Code, token: Token, e: Email)
    requires KeysOk(w) && Intact(w) && e in w.latest && w.latest[e] !in w.redeemed
    ensures var r := VerifyCode(w.redis, email, code);
            e != email || r.1.None? ==>
              e in r.0.code && e in r.0.ref && e in r.0.gen && w.latest[e] in r.0.magic
    ensures var r := VerifyMagic(w.redis, email, token);
            e != email || r.1.None? ==>
              e in r.0.code && e in r.0.ref && e in r.0.gen && w.latest[e] in r.0.magic
  {
    assert IsLatest(w, e);
    if email in w.redis.ref { assert IsLatest(w, email); }
  }

  lemma RedeemKeepsIntact(w: World, email: Email, code: Code, token: Token)
    requires Inv(w) && Intact(w)
    ensures Intact(Reply(w, email, VerifyCode(w.redis, email, code)))
    ensures Intact(Reply(w, email, VerifyMagic(w.redis, email, token)))
  {
    ScriptsSpend(w, email, code, token);
    ReplyKeepsRedeemed(w, email, VerifyCode(w.redis, email, code));
    ReplyKeepsRedeemed(w, email, VerifyMagic(w.redis, email, token));
    forall e | e in w.latest && w.latest[e] !in w.redeemed
      ensures var r := VerifyCode(w.redis, email, code);
              e != email || r.1.None? ==> e in r.0.code && e in r.0.ref && e in r.0.gen && w.latest[e] in r.0.magic
      ensures var r := VerifyMagic(w.redis, email, token);
              e != email || r.1.None? ==> e in r.0.code && e in r.0.ref && e in r.0.gen && w.latest[e] in r.0.magic
    {
      ScriptsAreLocal(w, email, code, token, e);
    }
    IntactFrame(w, email, VerifyCode(w.redis, email, code));
    IntactFrame(w, email, VerifyMagic(w.redis, email, token));
  }

  lemma IntactFrame(w: World, email: Email, reply: (Redis, Option<nat>))
    requires reply.1.Some? ==> email in w.latest
    requires forall e :: e in w.latest && w.latest[e] !in w.redeemed && (e != email || reply.1.None?) ==>
               e in reply.0.code && e in reply.0.ref && e in reply.0.gen && w.latest[e] in reply.0.magic
    ensures Intact(Reply(w, email, reply))
  {}

  lemma IntactKept(w: World, s: Step)
    requires Inv(w) && Intact(w) && !s.Lose?
    ensures Intact(Next(w, s))
  {
    match s
    case Issue(_, _, _, _) => IssueKeepsIntact(w, s);
    case RedeemCode(email, code) => RedeemKeepsIntact(w, email, code, "");
    case RedeemLink(email, token) => RedeemKeepsIntact(w, email, "", token);
    case _ =>
  }

  lemma {:induction false} RunIntact(generations: map<Email, nat>, steps: seq<Step>)
    requires forall s :: s in steps ==> !s.Lose?
    ensures Intact(Run(Start(generations), steps))
  {
    if steps != [] {
      RunIntact(generations, steps[..|steps| - 1]);
      RunKeepsInv(generations, steps[..|steps| - 1]);
      IntactKept(Run(Start(generations), steps[..|steps| - 1]), steps[|steps| - 1]);
    }
  }

  /** As long as no key is lost, acceptance is exact: a code is redeemed if and only if it is that of
      the account's latest challenge and that challenge is unredeemed, and the reply carries the
      generation the challenge was bound to. */
  lemma CodeExactWhileKeysLive(generations: map<Email, nat>, steps: seq<Step>, email: Email, code: Code)
    requires forall s :: s in steps ==> !s.Lose?
    ensures var w := Run(Start(generations), steps);
            VerifyCode(w.redis, email, code).1 ==
              if Redeemable(w, email) && code == w.issued[w.latest[email]].code
              then Some(w.issued[w.latest[email]].generation) else None
  {
    RunKeepsInv(generations, steps);
    RunIntact(generations, steps);
    var w := Run(Start(generations), steps);
    if email in w.latest || email in w.redis.code { assert IsLatest(w, email); }
  }

  /** And likewise for a link. */
  lemma LinkExactWhileKeysLive(generations: map<Email, nat>, steps: seq<Step>, email: Email, token: Token)
    requires forall s :: s in steps ==> !s.Lose?
    ensures var w := Run(Start(generations), steps);
            VerifyMagic(w.redis, email, token).1 ==
              if Redeemable(w, email) && token == w.latest[email]
              then Some(w.issued[w.latest[email]].generation) else None
  {
    RunKeepsInv(generations, steps);
    RunIntact(generations, steps);
    var w := Run(Start(generations), steps);
    if email in w.latest || email in w.redis.ref { assert IsLatest(w, email); }
  }

  ghost predicate Dead(w: World, token: Token, c: Challenge)
  {
    token in w.issued && w.issued[token] == c && c.generation < Current(w, c.email)
  }

  lemma DeadStays(w: World, s: Step, token: Token, c: Challenge)
    requires Inv(w) && Dead(w, token, c)
    ensures Dead(Next(w, s), token, c) && Next(w, s).accepted[token] == w.accepted[token]
  {}

  lemma {:induction false} Outlived(w: World, steps: seq<Step>, token: Token, c: Challenge)
    requires Inv(w) && Dead(w, token, c)
    ensures var w' := Run(w, steps);
            Inv(w') && Dead(w', token, c) && w'.accepted[token] == w.accepted[token]
  {
    if steps != [] {
      var w' := Run(w, steps[..|steps| - 1]);
      Outlived(w, steps[..|steps| - 1], token, c);
      DeadStays(w', steps[|steps| - 1], token, c);
      NextKeepsInv(w', steps[|steps| - 1]);
    }
  }

  /** Once an account's generation moves on, no challenge issued before is ever accepted again,
      not even one already redeemed and waiting for its handler. */
  lemma BumpKillsEarlierChallenges(generations: map<Email, nat>, before: seq<Step>, email: Email, after: seq<Step>,
                                   token: Token)
    requires token in Run(Start(generations), before).issued
    requires Run(Start(generations), before).issued[token].email == email
    ensures var w := Run(Start(generations), before);
            Run(Next(w, Bump(email)), after).accepted[token] == w.accepted[token]
  {
    var w := Run(Start(generations), before);
    RunKeepsInv(generations, before);
    NextKeepsInv(w, Bump(email));
    Outlived(Next(w, Bump(email)), after, token, w.issued[token]);
  }
}

/** The scripts on a live store. */
module LoginChallengeStore {
  import opened Prelude
  import Spec = LoginChallenge

  class Store {
    var code: map<Spec.Email, Spec.Code>
    var ref: map<Spec.Email, Spec.Token>
    var magic: map<Spec.Token, Spec.Email>
    var gen: map<Spec.Email, nat>

    ghost function Keys(): Spec.Redis reads this { Spec.Redis(code, ref, magic, gen) }

    method StoreLoginChallenge(email: Spec.Email, newCode: Spec.Code, token: Spec.Token, generation: nat)
      modifies this
      ensures Keys() == Spec.Store(old(Keys()), email, newCode, token, generation)
    {
      if email in ref { magic := magic - {ref[email]}; }
      code := code[email := newCode];
      magic := magic[token := email];
      ref := ref[email := token];
      gen := gen[email := generation];
    }

    method ConsumeVerificationCode(email: Spec.Email, guess: Spec.Code) returns (generation: Option<nat>)
      modifies this
      ensures (Keys(), generation) == Spec.VerifyCode(old(Keys()), email, guess)
    {
      if email !in code || code[email] != guess { return None; }
      generation := Some(if email in gen then gen[email] else 0);
      code := code - {email};
      gen := gen - {email};
      if email in ref {
        magic := magic - {ref[email]};
        ref := ref - {email};
      } else {
        assert ref - {email} == ref;
      }
    }

    /** The read of the link's e-mail, then the script. */
    method ConsumeMagicToken(token: Spec.Token) returns (consumed: Option<(Spec.Email, nat)>)
      modifies this
      ensures token !in old(magic) ==> consumed == None && Keys() == old(Keys())
      ensures token in old(magic) ==>
                var spec := Spec.VerifyMagic(old(Keys()), old(magic)[token], token);
                && Keys() == spec.0
                && consumed == if spec.1.Some? then Some((old(magic)[token], spec.1.value)) else None
    {
      if token !in magic { return None; }
      var email := magic[token];
      magic := magic - {token};
      if email !in ref || ref[email] != token { return None; }
      consumed := Some((email, if email in gen then gen[email] else 0));
      ref := ref - {email};
      code := code - {email};
      gen := gen - {email};
    }
  }
}
