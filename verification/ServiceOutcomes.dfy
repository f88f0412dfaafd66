/**
 What every request to the user service gives back, over whole runs and in terms of the requests
 themselves: which login a token came from and which uses have kept it alive.
 */
module ServiceOutcomes {
  import opened Wrappers
  import opened SessionTokens
  import opened SessionStore
  import opened SessionRuns
  import opened Users
  import opened UserServices

  // ------------------------------------------------------------ login

  /** The body has a name and a password, and that password's hash is the one in the fetched row. */
  predicate PasswordMatches(hash: string -> string, r: Request)
    requires r.LogIn? && GoodRow(r.found)
  {
    && r.body.Parsed? && r.body.username.Some? && r.body.password.Some?
    && r.found.rows[0].password == Some(hash(r.body.password.value))
  }

  /** Every outcome of a login: an exception exactly for a row with a NULL; the generated token exactly if
      the row is good, the password matches and the store has room; otherwise a rejection. */
  lemma LoginOutcome(hash: string -> string, max: nat, ss: seq<Session>, r: Request)
    requires r.LogIn?
    ensures Serve(hash, max, ss, r)
         == if NullRow(r.found) then Exception
            else if GoodRow(r.found) && PasswordMatches(hash, r) && |ss| < max then Done(r.token)
            else Rejected
  {
    LoginSucceedsIff(hash, max, ss, r);
    assert Serve(hash, max, ss, r) == Exception <==> NullRow(r.found);
  }

  /** Whatever its outcome, a login stores a session exactly if it gives a token, and that session is the
      token's, with the name in the row. */
  lemma LoginStoresItsToken(hash: string -> string, max: nat, ss: seq<Session>, r: Request)
    requires r.LogIn?
    ensures Run(max, ss, Ops(hash, max, ss, r))
         == if Serve(hash, max, ss, r) == Done(r.token)
            then ss + [Session(r.token, r.found.rows[0].username.value, r.now)] else ss
  {
    LoginSucceedsIff(hash, max, ss, r);
    var ops := Ops(hash, max, ss, r);
    if ops != [] { assert ops[1..] == []; }
  }

  // ------------------------------------------------------------ uses of a token

  function UseOf(token: string, r: Request): seq<Attempt> {
    if r.Gated? && r.token == token then [Attempt(r.check, r.refresh)] else []
  }

  /** The gated requests with one token, in order, with the two clock readings of their gate. */
  function Uses(token: string, rs: seq<Request>): seq<Attempt> {
    if rs == [] then [] else UseOf(token, rs[0]) + Uses(token, rs[1..])
  }

  lemma {:induction false} SweepsAttemptNothing(token: string, passes: seq<seq<Stamp>>)
    ensures Attempts(token, AsSweeps(passes)) == []
  {
    if passes != [] {
      assert AsSweeps(passes)[1..] == AsSweeps(passes[1..]);
      SweepsAttemptNothing(token, passes[1..]);
    }
  }

  /** Every gated request uses its token once, whether or not it passes; nothing else does. */
  lemma RequestUses(hash: string -> string, max: nat, ss: seq<Session>, r: Request, token: string)
    ensures Attempts(token, Ops(hash, max, ss, r)) == UseOf(token, r)
  {
    var ops := Ops(hash, max, ss, r);
    match r
    case Gated(_, _, _, _, _, _, _) =>
      var gate, sweeps, lookup := [GateOf(r)], AsSweeps(r.passes), [Lookup(r.token, r.now)];
      assert gate[1..] == [] && lookup[1..] == [];
      VerdictsAppend(max, ss, gate, sweeps, token);
      VerdictsAppend(max, ss, gate + sweeps, lookup, token);
      SweepsAttemptNothing(token, r.passes);
    case _ =>
      if ops != [] { assert ops[1..] == []; }
  }

  lemma {:induction false} UsesAreAttempts(hash: string -> string, max: nat, ss: seq<Session>, rs: seq<Request>,
                                           token: string)
    ensures Attempts(token, AllOps(hash, max, ss, rs)) == Uses(token, rs)
    decreases rs
  {
    if rs != [] {
      var ops := Ops(hash, max, ss, rs[0]);
      var ss' := Run(max, ss, ops);
      RequestUses(hash, max, ss, rs[0], token);
      UsesAreAttempts(hash, max, ss', rs[1..], token);
      VerdictsAppend(max, ss, ops, AllOps(hash, max, ss', rs[1..]), token);
    }
  }

  lemma {:induction false} UsesAppend(token: string, a: seq<Request>, r: Request)
    ensures Uses(token, a + [r]) == Uses(token, a) + UseOf(token, r)
  {
    if a == [] {
      assert a + [r] == [r] && [r][1..] == [];
    } else {
      assert (a + [r])[0] == a[0] && (a + [r])[1..] == a[1..] + [r];
      UsesAppend(token, a[1..], r);
      assert (UseOf(token, a[0]) + Uses(token, a[1..])) + UseOf(token, r)
          == UseOf(token, a[0]) + (Uses(token, a[1..]) + UseOf(token, r));
    }
  }

  /** Since the k-th request, a login, every use of the token of `r`, up to and including `r` itself, came
      less than 300000 ms after the one before. */
  ghost predicate KeptAlive(rs: seq<Request>, k: nat, r: Request)
    requires r.Gated?
  {
    && k < |rs| && rs[k].LogIn?
    && var uses := Uses(r.token, rs[k + 1..] + [r]);
       uses != [] && InTime(rs[k].now, uses, |uses| - 1)
  }

  // ------------------------------------------------------------ from store operations to requests

  /** Where the login that served request k is among the store operations. */
  lemma PlaceOfLogin(hash: string -> string, max: nat, rs: seq<Request>, k: nat, owner: string, token: string)
    returns (i: nat)
    requires LoggedIn(hash, max, rs, k, owner, token)
    ensures var ops := AllOps(hash, max, [], rs);
            && Issued(max, ops, i, token, owner) && ops[i].now == rs[k].now
            && ops[i + 1..] == AllOps(hash, max, StoreAfter(hash, max, rs[..k + 1]), rs[k + 1..])
  {
    var before, rest := rs[..k], rs[k + 1..];
    var first, login := AllOps(hash, max, [], before), Login(owner, token, rs[k].now);
    i := |first|;
    assert rs[..k + 1] == before + [rs[k]] && rs == rs[..k + 1] + rest;
    ServeOneMore(hash, max, before, rs[k]);
    assert Ops(hash, max, StoreAfter(hash, max, before), rs[k]) == [login];
    AllOpsAppend(hash, max, [], rs[..k + 1], rest);
    var last := AllOps(hash, max, StoreAfter(hash, max, rs[..k + 1]), rest);
    assert AllOps(hash, max, [], rs) == (first + [login]) + last;
    RunAppend(max, [], first + [login], last);
    RepliesPrefix(max, first, login);
  }

  lemma KeptAliveIsEarned(hash: string -> string, max: nat, rs: seq<Request>, k: nat, owner: string, r: Request)
    returns (i: nat)
    requires r.Gated? && LoggedIn(hash, max, rs, k, owner, r.token)
    ensures var ops := AllOps(hash, max, [], rs);
            Issued(max, ops, i, r.token, owner) && (EarnedBy(ops, i, GateOf(r)) <==> KeptAlive(rs, k, r))
  {
    i := PlaceOfLogin(hash, max, rs, k, owner, r.token);
    var ops, rest := AllOps(hash, max, [], rs), rs[k + 1..];
    var ss := StoreAfter(hash, max, rs[..k + 1]);
    UsesAreAttempts(hash, max, ss, rest, r.token);
    UsesAppend(r.token, rest, r);
    VerdictsAppend(max, ss, ops[i + 1..], [GateOf(r)], r.token);
    assert [GateOf(r)][1..] == [];
    assert Attempts(r.token, [GateOf(r)]) == UseOf(r.token, r);
  }

  /** A token was issued to `owner` and earned its use if and only if a served login request gave it to
      `owner` and the requests since have kept it alive. */
  lemma EarnedIffKeptAlive(hash: string -> string, max: nat, rs: seq<Request>, r: Request, owner: string)
    requires r.Gated? && DistinctLogins(AllOps(hash, max, [], rs))
    ensures Earned(max, AllOps(hash, max, [], rs), r, owner)
       <==> exists k :: LoggedIn(hash, max, rs, k, owner, r.token) && KeptAlive(rs, k, r)
  {
    var ops := AllOps(hash, max, [], rs);
    if Earned(max, ops, r, owner) {
      var i: nat :| Issued(max, ops, i, r.token, owner) && EarnedBy(ops, i, GateOf(r));
      IssuedByRequest(hash, max, rs, i, owner, r.token);
      var k: nat :| LoggedIn(hash, max, rs, k, owner, r.token);
      var j := KeptAliveIsEarned(hash, max, rs, k, owner, r);
      assert i == j;
    }
    if k: nat :| LoggedIn(hash, max, rs, k, owner, r.token) && KeptAlive(rs, k, r) {
      var i := KeptAliveIsEarned(hash, max, rs, k, owner, r);
    }
  }

  // ------------------------------------------------------------ gated requests

  /** The token came from a served login, no two of its uses since were 300000 ms apart, and the owner is
      looked up within that time after the refresh. */
  ghost predicate MayPass(hash: string -> string, max: nat, rs: seq<Request>, r: Request)
    requires r.Gated?
  {
    && (exists k, owner :: LoggedIn(hash, max, rs, k, owner, r.token) && KeptAlive(rs, k, r))
    && r.now - r.refresh < MAX_LIFE_MS
  }

  lemma GateOpenIffMayPass(hash: string -> string, max: nat, start: Stamp, rs: seq<Request>, r: Request)
    requires r.Gated? && DistinctLogins(AllOps(hash, max, [], rs))
    requires Clocked(start, (AllOps(hash, max, [], rs) + [GateOf(r)]) + (AsSweeps(r.passes) + [Lookup(r.token, r.now)]))
    ensures AskedFor(max, StoreAfter(hash, max, rs), r).Some? <==> MayPass(hash, max, rs, r)
  {
    var ops := AllOps(hash, max, [], rs);
    GateOpensForSomeoneIff(max, start, ops, r);
    if owner :| Earned(max, ops, r, owner) { EarnedIffKeptAlive(hash, max, rs, r, owner); }
    if k, owner :| LoggedIn(hash, max, rs, k, owner, r.token) && KeptAlive(rs, k, r) {
      EarnedIffKeptAlive(hash, max, rs, r, owner);
    }
  }

  /** Every outcome of create_meeting and list_participants, over whole runs: Janus's answer exactly if the
      token may pass and its owner's row is good; an exception exactly if the token may pass and the row
      has a NULL or Janus's message is unreadable; otherwise a rejection. */
  lemma GatedOutcome(hash: string -> string, max: nat, start: Stamp, rs: seq<Request>, r: Request)
    requires r.Gated? && DistinctLogins(AllOps(hash, max, [], rs))
    requires Clocked(start, (AllOps(hash, max, [], rs) + [GateOf(r)]) + (AsSweeps(r.passes) + [Lookup(r.token, r.now)]))
    ensures Serve(hash, max, StoreAfter(hash, max, rs), r)
         == if !MayPass(hash, max, rs, r) then Rejected
            else if NullRow(r.found) || (GoodRow(r.found) && r.janus == Unreadable) then Exception
            else if GoodRow(r.found) && r.janus.Answer? then Done(r.janus.text)
            else Rejected
  {
    GateOpenIffMayPass(hash, max, start, rs, r);
    GatedOutcomeIff(hash, max, StoreAfter(hash, max, rs), r);
  }

  /** The user that a gated request asks the database for is the one its token was given to. */
  lemma GateAsksForOwner(hash: string -> string, max: nat, start: Stamp, rs: seq<Request>, r: Request,
                         k: nat, owner: string)
    requires r.Gated? && DistinctLogins(AllOps(hash, max, [], rs))
    requires Clocked(start, (AllOps(hash, max, [], rs) + [GateOf(r)]) + (AsSweeps(r.passes) + [Lookup(r.token, r.now)]))
    requires LoggedIn(hash, max, rs, k, owner, r.token)
    ensures AskedFor(max, StoreAfter(hash, max, rs), r)
         == if KeptAlive(rs, k, r) && r.now - r.refresh < MAX_LIFE_MS then Some(owner) else None
  {
    var ops := AllOps(hash, max, [], rs);
    var i := KeptAliveIsEarned(hash, max, rs, k, owner, r);
    var asked := AskedFor(max, Run(max, [], ops), r);
    AskedForIff(max, start, ops, r, owner);
    if asked.Some? {
      AskedForIff(max, start, ops, r, asked.value);
      var j: nat :| Issued(max, ops, j, r.token, asked.value) && EarnedBy(ops, j, GateOf(r));
      assert i == j;
    }
  }
}
