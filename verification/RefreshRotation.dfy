/** Refresh-token rotation: `SET NX EX remaining` makes a token id a one-winner capability, where
    `remaining` is the whole seconds the token had left when the handler looked at its clock. */
module RefreshRotation {
  import opened Prelude

  /** One request: when the handler read the clock, and when its SET reached Redis. */
  datatype Attempt = Attempt(read: real, at: real) {
    function Latency(): real { at - read }
  }

  datatype Outcome = Rotated | Expired | Replayed

  /** `int()` truncates toward zero. */
  function Truncate(x: real): int
  {
    if x >= 0.0 then x.Floor else -((-x).Floor)
  }

  function Remaining(exp: int, read: real): int { Truncate(exp as real - read) }

  /** The consumed marker, as the time at which it lapses. */
  type Marker = Option<real>

  predicate Live(m: Marker, now: real) { m.Some? && now < m.value }

  function Refresh(exp: int, m: Marker, a: Attempt): (Outcome, Marker)
  {
    var remaining := Remaining(exp, a.read);
    if remaining <= 0 then (Expired, m)
    else if Live(m, a.at) then (Replayed, m)
    else (Rotated, Some(a.at + remaining as real))
  }

  /** Attempts in the order their SETs reach Redis. */
  predicate Timely(attempts: seq<Attempt>)
  {
    && (forall i :: 0 <= i < |attempts| ==> attempts[i].read <= attempts[i].at)
    && (forall i, j :: 0 <= i < j < |attempts| ==> attempts[i].at <= attempts[j].at)
  }

  function MarkerAfter(exp: int, attempts: seq<Attempt>): Marker
  {
    if attempts == [] then None
    else Refresh(exp, MarkerAfter(exp, attempts[..|attempts| - 1]), attempts[|attempts| - 1]).1
  }

  /** Whether attempt `i` rotates the token. */
  predicate Wins(exp: int, attempts: seq<Attempt>, i: nat)
    requires i < |attempts|
  {
    Refresh(exp, MarkerAfter(exp, attempts[..i]), attempts[i]).0 == Rotated
  }

  // ── One winner ──────────────────────────────────────────────────────────────

  lemma TruncateBounds(x: real)
    ensures Truncate(x) > 0 ==> x - 1.0 < Truncate(x) as real <= x
    ensures Truncate(x) > 0 <==> x >= 1.0
  {}

  /** A marker left by a winner lives past the last moment at which a request no slower than the
      winner could still be admitted. */
  lemma MarkerOutlives(exp: int, m: Marker, a: Attempt)
    requires a.read <= a.at && Refresh(exp, m, a).0 == Rotated
    ensures Refresh(exp, m, a).1.Some?
    ensures Refresh(exp, m, a).1.value > exp as real - 1.0 + a.Latency()
  {}

  /** The latest winner among the first `n` attempts. */
  function LastWinner(exp: int, attempts: seq<Attempt>, n: nat): Option<nat>
    requires n <= |attempts|
  {
    if n == 0 then None
    else if Wins(exp, attempts, n - 1) then Some(n - 1)
    else LastWinner(exp, attempts, n - 1)
  }

  lemma {:induction false} LastWinnerIsLast(exp: int, attempts: seq<Attempt>, n: nat, i: nat)
    requires i < n <= |attempts| && Wins(exp, attempts, i)
    ensures LastWinner(exp, attempts, n).Some?
  {
    if n - 1 != i { LastWinnerIsLast(exp, attempts, n - 1, i); }
  }

  lemma {:induction false} MarkerIsLastWinners(exp: int, attempts: seq<Attempt>, n: nat)
    requires n <= |attempts| && Timely(attempts)
    ensures var m, last := MarkerAfter(exp, attempts[..n]), LastWinner(exp, attempts, n);
            && (m.None? <==> last.None?)
            && (last.Some? ==> last.value < n && Wins(exp, attempts, last.value)
                               && m.value > exp as real - 1.0 + attempts[last.value].Latency())
  {
    if n > 0 {
      MarkerIsLastWinners(exp, attempts, n - 1);
      assert attempts[..n][..n - 1] == attempts[..n - 1];
      if Wins(exp, attempts, n - 1) { MarkerOutlives(exp, MarkerAfter(exp, attempts[..n - 1]), attempts[n - 1]); }
    }
  }

  /** A later winner is always strictly slower than the winner before it, and its SET lands inside
      the token's last second or after it. */
  lemma LaterWinnerIsSlower(exp: int, attempts: seq<Attempt>, i: nat, k: nat)
    requires Timely(attempts) && i < k < |attempts| && Wins(exp, attempts, i) && Wins(exp, attempts, k)
    ensures exists j :: 0 <= j < k && Wins(exp, attempts, j) && attempts[j].Latency() < attempts[k].Latency()
    ensures attempts[k].at > exp as real - 1.0
  {
    LastWinnerIsLast(exp, attempts, k, i);
    MarkerIsLastWinners(exp, attempts, k);
    TruncateBounds(exp as real - attempts[k].read);
    var j := LastWinner(exp, attempts, k).value;
    assert attempts[j].read <= attempts[j].at;
  }

  /** However many requests race, at whatever times, over the token's whole life: when no request
      takes longer to reach Redis than the ones that reached it before, at most one rotates it. */
  lemma OneWinner(exp: int, attempts: seq<Attempt>, j: nat, k: nat)
    requires Timely(attempts) && j < k < |attempts|
    requires forall a, b :: 0 <= a < b < |attempts| ==> attempts[b].Latency() <= attempts[a].Latency()
    ensures !(Wins(exp, attempts, j) && Wins(exp, attempts, k))
  {
    if Wins(exp, attempts, j) && Wins(exp, attempts, k) {
      LaterWinnerIsSlower(exp, attempts, j, k);
      assert false;
    }
  }

  predicate BothWin(exp: int, a: Attempt, b: Attempt, la: real, lb: real)
  {
    && a.Latency() == la && b.Latency() == lb && Timely([a, b])
    && Wins(exp, [a, b], 0) && Wins(exp, [a, b], 1)
  }

  /** Exactly how far the one-winner promise reaches: two requests with these latencies can both
      rotate one token if and only if the second is slower than the first. */
  lemma TwoWinnersIff(la: real, lb: real)
    requires la >= 0.0 && lb >= 0.0
    ensures (exists exp, a, b :: BothWin(exp, a, b, la, lb)) <==> la < lb
  {
    if exists exp, a, b :: BothWin(exp, a, b, la, lb) {
      var exp, a, b :| BothWin(exp, a, b, la, lb);
      assert [a, b][0] == a && [a, b][1] == b;
      LaterWinnerIsSlower(exp, [a, b], 0, 1);
    }
    if la < lb {
      var d := if lb - la < 1.0 then lb - la else 1.0;
      var a, b := Attempt(8.0 + d, 8.0 + d + la), Attempt(9.0, 9.0 + lb);
      SecondWinner(a, b, d, la, lb);
      assert BothWin(10, a, b, la, lb);
    }
  }

  lemma SecondWinner(a: Attempt, b: Attempt, d: real, la: real, lb: real)
    requires 0.0 < d <= 1.0 && 0.0 <= la && la + d <= lb
    requires a == Attempt(8.0 + d, 8.0 + d + la) && b == Attempt(9.0, 9.0 + lb)
    ensures BothWin(10, a, b, la, lb)
  {}

  // ── The session family ──────────────────────────────────────────────────────

  /** A refresh of any token of the session: refused while the session is revoked, else as above. */
  function RefreshInSession(exp: int, m: Marker, revoked: Marker, checked: real, a: Attempt): (Outcome, Marker)
  {
    if Live(revoked, checked) then (Replayed, m) else Refresh(exp, m, a)
  }

  const DAY: nat := 24 * 3600

  /** The expiry of a token is written in whole seconds. */
  function Expiry(issued: real, lifetime: nat): int { issued.Floor + lifetime }

  /** A request that arrives after the replay at `v` revoked the session for a full lifetime rotates a
      token of that session. */
  predicate RotatesAfter(v: real, issued: real, lifetime: nat, m: Marker, checked: real, a: Attempt)
  {
    && v <= checked && issued <= checked <= a.read <= a.at
    && RefreshInSession(Expiry(issued, lifetime), m, Some(v + lifetime as real), checked, a).0 == Rotated
  }

  /** No token issued before the replay is ever rotated afterwards, and a successor that a racing winner
      issues later is refused while the revocation lasts; once that has lapsed it can be rotated exactly
      when the second it was issued in began a second or more after the replay. */
  lemma ReplayRevokesFamilyIff(v: real, issued: real, lifetime: nat)
    requires lifetime >= DAY
    ensures (exists m, checked, a :: RotatesAfter(v, issued, lifetime, m, checked, a)) <==>
              v + 1.0 <= issued.Floor as real
    ensures forall m, checked, a :: RotatesAfter(v, issued, lifetime, m, checked, a) ==>
              checked >= v + lifetime as real && v < issued
  {
    forall m, checked, a | RotatesAfter(v, issued, lifetime, m, checked, a)
      ensures v + 1.0 <= issued.Floor as real && checked >= v + lifetime as real
    {
      TruncateBounds(Expiry(issued, lifetime) as real - a.read);
    }
    if v + 1.0 <= issued.Floor as real {
      var lapse := v + lifetime as real;
      var at := if issued <= lapse then lapse else issued;
      TruncateBounds(Expiry(issued, lifetime) as real - at);
      assert RotatesAfter(v, issued, lifetime, None, at, Attempt(at, at));
    }
  }

  /** Two requests race for one token: the second is a replay and revokes the session, the first issues
      its successor two seconds later, and that token is rotated when the revocation lapses. */
  lemma SlowWinnerEscapes(lifetime: nat)
    requires lifetime >= DAY
    ensures var first, second := Attempt(0.0, 0.0), Attempt(0.0, 1.0);
            var exp, lapse := 100, 1.0 + lifetime as real;
            && RefreshInSession(exp, None, None, 0.0, first).0 == Rotated
            && RefreshInSession(exp, Refresh(exp, None, first).1, None, 0.0, second).0 == Replayed
            && RotatesAfter(second.at, 3.0, lifetime, None, lapse, Attempt(lapse, lapse))
  {}
}

/** The marker keys on a live store. */
module RefreshStore {
  import opened Prelude
  import Spec = RefreshRotation

  class Store {
    var consumed: map<string, real>
    var revoked: map<string, real>

    ghost function Marker(jti: string): Spec.Marker reads this
    {
      if jti in consumed then Some(consumed[jti]) else None
    }

    ghost function Revoked(session: string): Spec.Marker reads this
    {
      if session in revoked then Some(revoked[session]) else None
    }

    /** SET NX EX at time `now`. */
    method ConsumeTokenOnce(jti: string, ttl: int, now: real) returns (won: bool)
      modifies this
      ensures won <==> ttl > 0 && !Spec.Live(old(Marker(jti)), now)
      ensures revoked == old(revoked)
      ensures consumed == if won then old(consumed)[jti := now + ttl as real] else old(consumed)
    {
      if ttl <= 0 || (jti in consumed && now < consumed[jti]) { return false; }
      consumed := consumed[jti := now + ttl as real];
      won := true;
    }

    method RevokeSession(session: string, ttl: int, now: real)
      modifies this
      ensures consumed == old(consumed)
      ensures revoked == if ttl > 0 then old(revoked)[session := now + ttl as real] else old(revoked)
    {
      if ttl > 0 { revoked := revoked[session := now + ttl as real]; }
    }

    /** The handler: check the session, read the clock, consume, and revoke the family on replay. */
    method Refresh(jti: string, session: string, exp: int, lifetime: int, checked: real, a: Spec.Attempt)
      returns (outcome: Spec.Outcome)
      requires checked <= a.read <= a.at && lifetime > 0
      modifies this
      ensures var spec := Spec.RefreshInSession(exp, old(Marker(jti)), old(Revoked(session)), checked, a);
              && outcome == spec.0 && Marker(jti) == spec.1
      ensures forall other :: other != jti ==> Marker(other) == old(Marker(other))
      ensures revoked ==
                if outcome == Spec.Replayed && !Spec.Live(old(Revoked(session)), checked)
                then old(revoked)[session := a.at + lifetime as real] else old(revoked)
    {
      if session in revoked && checked < revoked[session] { return Spec.Replayed; }
      var remaining := Spec.Remaining(exp, a.read);
      if remaining <= 0 { return Spec.Expired; }
      var won := ConsumeTokenOnce(jti, remaining, a.at);
      if !won {
        RevokeSession(session, lifetime, a.at);
        return Spec.Replayed;
      }
      outcome := Spec.Rotated;
    }
  }
}
