/** network_session_token.cpp: sliding expiry over unsigned 64-bit millisecond stamps. */
module SessionTokens {
  const TWO64: int := 0x1_0000_0000_0000_0000
  type Stamp = x: int | 0 <= x < 0x1_0000_0000_0000_0000
  const MAX_LIFE_MS: int := 300000

  // The value of a session_token.
  datatype Session = Session(token: string, owner: string, life: Stamp)

  /** The check of is_active: an unsigned subtraction, which wraps when `life` is ahead of `now`. */
  predicate Active(life: Stamp, now: Stamp) {
    (now - life) % TWO64 < MAX_LIFE_MS
  }

  /** What the check means over the integers: the stamp lies at most MAX_LIFE_MS back, or so close
      below 2^64 that the difference wraps to a small number. */
  lemma ActiveExactly(life: Stamp, now: Stamp)
    ensures Active(life, now) <==>
              (life <= now && now - life < MAX_LIFE_MS) || (now < life && now + TWO64 - life < MAX_LIFE_MS)
  {
    if life <= now {
      assert (now - life) % TWO64 == now - life;
    } else {
      assert (now - life) % TWO64 == now - life + TWO64;
    }
  }

  /** A clock that steps back reads as expired for every reading if and only if the stamp is at
      most 2^64 - 300000. */
  lemma WrapSafeIff(life: Stamp)
    ensures (forall now: Stamp :: Active(life, now) <==> (life <= now && now - life < MAX_LIFE_MS))
       <==> life <= TWO64 - MAX_LIFE_MS
  {
    forall now: Stamp
      ensures Active(life, now) <==>
                (life <= now && now - life < MAX_LIFE_MS) || (now < life && now + TWO64 - life < MAX_LIFE_MS)
    {
      ActiveExactly(life, now);
    }
    if life > TWO64 - MAX_LIFE_MS {
      var zero: Stamp := 0;
      assert Active(life, zero);
    }
  }

  lemma ExpiredLater(life: Stamp, earlier: Stamp, later: Stamp)
    requires life <= earlier <= later && !Active(life, earlier)
    ensures !Active(life, later)
  {
    ActiveExactly(life, earlier);
    ActiveExactly(life, later);
  }

  // The two clock readings of one call of validate_token.
  datatype Attempt = Attempt(check: Stamp, refresh: Stamp)

  /** The stamp after a number of calls of validate_token. */
  function LifeAfter(life: Stamp, attempts: seq<Attempt>): Stamp
    decreases attempts
  {
    if attempts == [] then life
    else LifeAfter(if Active(life, attempts[0].check) then attempts[0].refresh else life, attempts[1..])
  }

  /** While the clock does not fall behind a reading at which a session was expired, no number of
      attempts to validate it refreshes it, and it stays expired. */
  lemma {:induction false} ExpiryIsPermanent(life: Stamp, earlier: Stamp, attempts: seq<Attempt>, later: Stamp)
    requires life <= earlier <= later && !Active(life, earlier)
    requires forall i :: 0 <= i < |attempts| ==> earlier <= attempts[i].check
    ensures LifeAfter(life, attempts) == life && !Active(LifeAfter(life, attempts), later)
    decreases attempts
  {
    ExpiredLater(life, earlier, later);
    if attempts != [] {
      ExpiredLater(life, earlier, attempts[0].check);
      ExpiryIsPermanent(life, earlier, attempts[1..], later);
    }
  }

  class SessionToken {
    const token: string
    const owner: string
    var life: Stamp

    constructor (owner: string, token: string, now: Stamp)
      ensures View() == Session(token, owner, now)
    {
      this.token := token;
      this.owner := owner;
      this.life := now;
    }

    function View(): Session
      reads this
    {
      Session(token, owner, life)
    }

    predicate IsActive(now: Stamp)
      reads this
    {
      Active(life, now)
    }

    /** Reads the clock once to check and, if the session is active, once more to refresh. */
    method ValidateToken(check: Stamp, refresh: Stamp) returns (ok: bool)
      modifies this`life
      ensures ok == old(IsActive(check))
      ensures View() == old(View()).(life := if ok then refresh else old(life))
      ensures life == LifeAfter(old(life), [Attempt(check, refresh)])
    {
      ok := IsActive(check);
      if ok { life := refresh; }
      assert [Attempt(check, refresh)][1..] == [];
    }
  }
}
