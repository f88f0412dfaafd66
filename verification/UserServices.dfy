/**
 user_service.cpp: login and the token gate in front of create_meeting and list_participants.
 Database answers, Janus answers, tokens and clock readings are inputs of each request.
 */
module UserServices {
  import opened Wrappers
  import opened SessionTokens
  import opened SessionStore
  import opened SessionRuns
  import opened Users
  import SessionHandlers

  // What Janus made of the request, including an exception while building or reading messages.
  datatype JanusAnswer = NoAnswer | Unreadable | Answer(text: string)

  /** One request served, or one pass of the cleaner. `passes` are cleaner passes that fall between
      the two critical sections of a gated request. */
  datatype Request =
    | LogIn(body: Body, unset: int, found: Query, token: string, now: Stamp)
    | Gated(token: string, check: Stamp, refresh: Stamp, passes: seq<seq<Stamp>>, now: Stamp,
            found: Query, janus: JanusAnswer)
    | CleanerPass(readings: seq<Stamp>)

  datatype Outcome = Exception | Rejected | Done(text: string)

  function AsSweeps(passes: seq<seq<Stamp>>): (ops: seq<Op>)
    ensures OnlySweeps(ops) && |ops| == |passes|
  {
    if passes == [] then [] else [Sweep(passes[0])] + AsSweeps(passes[1..])
  }

  /** The store operations a request performs. */
  function Ops(hash: string -> string, max: nat, ss: seq<Session>, r: Request): seq<Op> {
    match r
    case LogIn(body, unset, found, token, now) =>
      var v := CheckCredentials(hash, body, unset, found);
      if v.Granted? then [Login(v.owner, token, now)] else []
    case Gated(_, _, _, _, _, _, _) => GatedOps(max, ss, r)
    case CleanerPass(readings) => [Sweep(readings)]
  }

  function GateOf(r: Request): Op
    requires r.Gated?
  {
    Validate(r.token, r.check, r.refresh)
  }

  /** Validate; if that succeeds, whatever passes the cleaner makes, and then look the owner up. */
  function GatedOps(max: nat, ss: seq<Session>, r: Request): seq<Op>
    requires r.Gated?
  {
    if ReplyTo(max, ss, GateOf(r)) == Valid(true) then
      ([GateOf(r)] + AsSweeps(r.passes)) + [Lookup(r.token, r.now)]
    else [GateOf(r)]
  }

  /** The username a gated request looks up in the database, if the gate lets it through. */
  function AskedFor(max: nat, ss: seq<Session>, r: Request): Option<string>
    requires r.Gated?
  {
    if ReplyTo(max, ss, GateOf(r)) != Valid(true) then None
    else ReplyTo(max, Run(max, ss, [GateOf(r)] + AsSweeps(r.passes)), Lookup(r.token, r.now)).name
  }

  function ServeGate(max: nat, ss: seq<Session>, r: Request): Outcome
    requires r.Gated?
  {
    if AskedFor(max, ss, r) == None then Rejected
    else
      match FindUser(r.found)
      case Threw => Exception
      case Nobody => Rejected
      case Somebody(_) =>
        match r.janus
        case NoAnswer => Rejected
        case Unreadable => Exception
        case Answer(text) => Done(text)
  }

  function Serve(hash: string -> string, max: nat, ss: seq<Session>, r: Request): Outcome {
    match r
    case LogIn(body, unset, found, token, now) =>
      (match CheckCredentials(hash, body, unset, found)
       case Error => Exception
       case Denied => Rejected
       case Granted(owner) =>
         if ReplyTo(max, ss, Login(owner, token, now)) == Admitted then Done(token) else Rejected)
    case Gated(_, _, _, _, _, _, _) => ServeGate(max, ss, r)
    case CleanerPass(_) => Rejected
  }

  function AllOps(hash: string -> string, max: nat, ss: seq<Session>, rs: seq<Request>): seq<Op>
    decreases rs
  {
    if rs == [] then []
    else
      var ops := Ops(hash, max, ss, rs[0]);
      ops + AllOps(hash, max, Run(max, ss, ops), rs[1..])
  }

  /** The sessions after serving `rs`, starting from an empty store. */
  function StoreAfter(hash: string -> string, max: nat, rs: seq<Request>): seq<Session> {
    Run(max, [], AllOps(hash, max, [], rs))
  }

  /** A login request is given its token if and only if the body has a username and a password, the
      fetched row is valid and stores the hash of that password, and there is room. */
  lemma LoginSucceedsIff(hash: string -> string, max: nat, ss: seq<Session>, r: Request)
    requires r.LogIn?
    ensures Serve(hash, max, ss, r) == Done(r.token) <==>
              && |ss| < max
              && r.body.Parsed? && r.body.username.Some? && r.body.password.Some?
              && r.found.Rows? && r.found.rows != []
              && var row := r.found.rows[0];
                 && row.username.Some? && row.password == Some(hash(r.body.password.value))
                 && ValidUser(UserData(row.id, row.username.value, row.password.value))
    ensures Serve(hash, max, ss, r).Done? ==> Serve(hash, max, ss, r) == Done(r.token)
  {
    var v := CheckCredentials(hash, r.body, r.unset, r.found);
    if v.Granted? {
      GrantedExactly(hash, r.body, r.unset, r.found, v.owner);
    } else if r.found.Rows? && r.found.rows != [] && r.found.rows[0].username.Some? {
      GrantedExactly(hash, r.body, r.unset, r.found, r.found.rows[0].username.value);
    }
  }

  // ------------------------------------------------------------ gating over runs

  lemma {:induction false} AllOpsAppend(hash: string -> string, max: nat, ss: seq<Session>,
                                        a: seq<Request>, b: seq<Request>)
    ensures AllOps(hash, max, ss, a + b)
         == AllOps(hash, max, ss, a) + AllOps(hash, max, Run(max, ss, AllOps(hash, max, ss, a)), b)
    decreases a
  {
    if a == [] {
      assert a + b == b;
    } else {
      assert (a + b)[0] == a[0] && (a + b)[1..] == a[1..] + b;
      var ops := Ops(hash, max, ss, a[0]);
      var ss' := Run(max, ss, ops);
      AllOpsAppend(hash, max, ss', a[1..], b);
      RunAppend(max, ss, ops, AllOps(hash, max, ss', a[1..]));
    }
  }

  lemma AllOpsOfOne(hash: string -> string, max: nat, ss: seq<Session>, r: Request)
    ensures AllOps(hash, max, ss, [r]) == Ops(hash, max, ss, r)
  {
    assert [r][1..] == [];
  }

  /** The k-th request is a login with accepted credentials of `owner` that was given `token`. */
  ghost predicate LoggedIn(hash: string -> string, max: nat, rs: seq<Request>, k: nat, owner: string, token: string) {
    && k < |rs| && rs[k].LogIn?
    && CheckCredentials(hash, rs[k].body, rs[k].unset, rs[k].found) == Granted(owner)
    && Serve(hash, max, StoreAfter(hash, max, rs[..k]), rs[k]) == Done(token)
    && rs[k].token == token
  }

  lemma GateHasNoLogin(max: nat, ss: seq<Session>, r: Request)
    requires r.Gated?
    ensures forall j :: 0 <= j < |GatedOps(max, ss, r)| ==> !GatedOps(max, ss, r)[j].Login?
  {
    var sweeps := AsSweeps(r.passes);
    forall j | 0 <= j < |GatedOps(max, ss, r)| ensures !GatedOps(max, ss, r)[j].Login? {
      if 1 <= j <= |sweeps| { assert GatedOps(max, ss, r)[j] == sweeps[j - 1]; }
    }
  }

  lemma LoginComesFirst(hash: string -> string, max: nat, ss: seq<Session>, r: Request, j: nat)
    requires j < |Ops(hash, max, ss, r)| && Ops(hash, max, ss, r)[j].Login?
    ensures r.LogIn? && j == 0 && CheckCredentials(hash, r.body, r.unset, r.found).Granted?
    ensures Ops(hash, max, ss, r)[0]
         == Login(CheckCredentials(hash, r.body, r.unset, r.found).owner, r.token, r.now)
  {
    if r.Gated? { GateHasNoLogin(max, ss, r); }
  }

  lemma ServeOneMore(hash: string -> string, max: nat, before: seq<Request>, r: Request)
    ensures var ops, last := AllOps(hash, max, [], before), Ops(hash, max, StoreAfter(hash, max, before), r);
            && AllOps(hash, max, [], before + [r]) == ops + last
            && Replies(max, [], ops + last) == Replies(max, [], ops) + Replies(max, StoreAfter(hash, max, before), last)
  {
    AllOpsAppend(hash, max, [], before, [r]);
    AllOpsOfOne(hash, max, StoreAfter(hash, max, before), r);
    RunAppend(max, [], AllOps(hash, max, [], before), Ops(hash, max, StoreAfter(hash, max, before), r));
  }

  lemma IssuedByLast(hash: string -> string, max: nat, before: seq<Request>, r: Request,
                     i: nat, owner: string, token: string)
    requires Issued(max, AllOps(hash, max, [], before + [r]), i, token, owner)
    ensures i < |AllOps(hash, max, [], before)| ==> Issued(max, AllOps(hash, max, [], before), i, token, owner)
    ensures i >= |AllOps(hash, max, [], before)| ==> LoggedIn(hash, max, before + [r], |before|, owner, token)
  {
    ServeOneMore(hash, max, before, r);
    var n := |AllOps(hash, max, [], before)|;
    if i >= n {
      LoginComesFirst(hash, max, StoreAfter(hash, max, before), r, i - n);
      assert (before + [r])[..|before|] == before;
    }
  }

  /** An admitted store login comes from a served login request. */
  lemma {:induction false} IssuedByRequest(hash: string -> string, max: nat, rs: seq<Request>,
                                           i: nat, owner: string, token: string)
    requires Issued(max, AllOps(hash, max, [], rs), i, token, owner)
    ensures exists k :: LoggedIn(hash, max, rs, k, owner, token)
    decreases |rs|
  {
    var before, r := rs[..|rs| - 1], rs[|rs| - 1];
    assert rs == before + [r];
    IssuedByLast(hash, max, before, r, i, owner, token);
    if i < |AllOps(hash, max, [], before)| {
      IssuedByRequest(hash, max, before, i, owner, token);
      var k: nat :| LoggedIn(hash, max, before, k, owner, token);
      assert rs[..k] == before[..k];
      assert LoggedIn(hash, max, rs, k, owner, token);
    } else {
      assert LoggedIn(hash, max, rs, |before|, owner, token);
    }
  }

  /** In every run with tokens that are never issued twice and a clock that does not run backwards, a
      create_meeting or list_participants request that succeeds carries a token that an earlier
      login request was given, the user looked up is the owner of that login, and since that
      login no two uses of the token were 300000 ms or more apart. */
  lemma GatedRequestNeedsLogin(hash: string -> string, max: nat, start: Stamp, rs: seq<Request>, r: Request)
    requires r.Gated? && Serve(hash, max, StoreAfter(hash, max, rs), r).Done?
    requires var ops := AllOps(hash, max, [], rs);
             Clocked(start, ops + [GateOf(r)]) && DistinctLogins(ops)
    ensures exists k, i, owner ::
              && LoggedIn(hash, max, rs, k, owner, r.token)
              && AskedFor(max, StoreAfter(hash, max, rs), r) == Some(owner)
              && Issued(max, AllOps(hash, max, [], rs), i, r.token, owner)
              && EarnedBy(AllOps(hash, max, [], rs), i, GateOf(r))
  {
    var ops, ss := AllOps(hash, max, [], rs), StoreAfter(hash, max, rs);
    var owner, i := OpenGateNeedsLogin(max, start, ops, r);
    IssuedByRequest(hash, max, rs, i, owner, r.token);
  }

  lemma OpenGateNeedsLogin(max: nat, start: Stamp, ops: seq<Op>, r: Request) returns (owner: string, i: nat)
    requires r.Gated? && AskedFor(max, Run(max, [], ops), r) != None
    requires Clocked(start, ops + [GateOf(r)]) && DistinctLogins(ops)
    ensures AskedFor(max, Run(max, [], ops), r) == Some(owner)
    ensures Issued(max, ops, i, r.token, owner) && EarnedBy(ops, i, GateOf(r))
  {
    var gate, sweeps := GateOf(r), AsSweeps(r.passes);
    owner := AskedFor(max, Run(max, [], ops), r).value;
    RunAppend(max, [], ops, [gate] + sweeps);
    i := GateImpliesLogin(max, start, ops, gate, sweeps, r.now, owner);
  }

  /** An earlier login issued the request's token to `owner`, and every attempt on it since came in time. */
  ghost predicate Earned(max: nat, ops: seq<Op>, r: Request, owner: string)
    requires r.Gated?
  {
    exists i :: Issued(max, ops, i, r.token, owner) && EarnedBy(ops, i, GateOf(r))
  }

  lemma AskedForIff(max: nat, start: Stamp, ops: seq<Op>, r: Request, owner: string)
    requires r.Gated? && DistinctLogins(ops)
    requires Clocked(start, (ops + [GateOf(r)]) + (AsSweeps(r.passes) + [Lookup(r.token, r.now)]))
    ensures AskedFor(max, Run(max, [], ops), r) == Some(owner)
       <==> Earned(max, ops, r, owner) && r.now - r.refresh < MAX_LIFE_MS
  {
    RunAppend(max, [], ops, [GateOf(r)] + AsSweeps(r.passes));
    GateOpensIff(max, start, ops, GateOf(r), AsSweeps(r.passes), r.now, owner);
  }

  /** Past the gate, the database and Janus alone decide, and Janus's answer is what is returned. */
  lemma GatedOutcomeIff(hash: string -> string, max: nat, ss: seq<Session>, r: Request)
    requires r.Gated?
    ensures var open, outcome := AskedFor(max, ss, r).Some?, Serve(hash, max, ss, r);
            && (forall text :: outcome == Done(text) <==> open && GoodRow(r.found) && r.janus == Answer(text))
            && (outcome == Exception <==> open && (NullRow(r.found) || (GoodRow(r.found) && r.janus == Unreadable)))
  {
  }

  /** A gated request returns a text if and only if its token was issued by an earlier login, every attempt
      on it since came in time, its lookup follows its refresh in time, the owner is found in the
      database, and that text is Janus's answer. */
  lemma GatedRequestSucceedsIff(hash: string -> string, max: nat, start: Stamp, rs: seq<Request>, r: Request,
                                text: string)
    requires r.Gated? && DistinctLogins(AllOps(hash, max, [], rs))
    requires Clocked(start, (AllOps(hash, max, [], rs) + [GateOf(r)]) + (AsSweeps(r.passes) + [Lookup(r.token, r.now)]))
    ensures Serve(hash, max, StoreAfter(hash, max, rs), r) == Done(text) <==>
              && (exists owner :: Earned(max, AllOps(hash, max, [], rs), r, owner))
              && r.now - r.refresh < MAX_LIFE_MS
              && GoodRow(r.found) && r.janus == Answer(text)
  {
    GatedOutcomeIff(hash, max, StoreAfter(hash, max, rs), r);
    GateOpensForSomeoneIff(max, start, AllOps(hash, max, [], rs), r);
  }

  lemma GateOpensForSomeoneIff(max: nat, start: Stamp, ops: seq<Op>, r: Request)
    requires r.Gated? && DistinctLogins(ops)
    requires Clocked(start, (ops + [GateOf(r)]) + (AsSweeps(r.passes) + [Lookup(r.token, r.now)]))
    ensures AskedFor(max, Run(max, [], ops), r).Some?
       <==> (exists owner :: Earned(max, ops, r, owner)) && r.now - r.refresh < MAX_LIFE_MS
  {
    var asked := AskedFor(max, Run(max, [], ops), r);
    if asked.Some? {
      AskedForIff(max, start, ops, r, asked.value);
    } else if owner :| Earned(max, ops, r, owner) {
      AskedForIff(max, start, ops, r, owner);
    }
  }

  /** A token nobody was given opens nothing. */
  lemma UnknownTokenIsRejected(hash: string -> string, max: nat, start: Stamp, rs: seq<Request>, r: Request)
    requires r.Gated?
    requires var ops := AllOps(hash, max, [], rs);
             Clocked(start, ops + [GateOf(r)]) && DistinctLogins(ops)
    requires forall k, owner :: !LoggedIn(hash, max, rs, k, owner, r.token)
    ensures Serve(hash, max, StoreAfter(hash, max, rs), r) == Rejected
  {
    if AskedFor(max, StoreAfter(hash, max, rs), r) != None {
      var owner, i := OpenGateNeedsLogin(max, start, AllOps(hash, max, [], rs), r);
      IssuedByRequest(hash, max, rs, i, owner, r.token);
    }
  }

  // ------------------------------------------------------------ the service object

  class UserService {
    const sessions: SessionHandlers.SessionHandler

    constructor (maxSessions: SessionHandlers.SessionLimit)
      ensures fresh(sessions) && sessions.Valid() && sessions.View() == [] && sessions.maxSessions == maxSessions
    {
      sessions := new SessionHandlers.SessionHandler(maxSessions);
    }

    method LogInUser(hash: string -> string, body: Body, unset: int, found: Query, token: string, now: Stamp)
      returns (outcome: Outcome)
      requires sessions.Valid()
      modifies sessions
      ensures sessions.Valid()
      ensures outcome == old(Serve(hash, sessions.maxSessions, sessions.View(), LogIn(body, unset, found, token, now)))
      ensures sessions.View() == old(Run(sessions.maxSessions, sessions.View(),
                Ops(hash, sessions.maxSessions, sessions.View(), LogIn(body, unset, found, token, now))))
      ensures sessions.clean == old(sessions.clean)
      ensures sessions.panicClean == (old(sessions.panicClean)
                || (CheckCredentials(hash, body, unset, found).Granted?
                    && old(|sessions.View()|) >= sessions.maxSessions))
    {
      ghost var max, ss := sessions.maxSessions, sessions.View();
      var temp := new User.FromJson(hash, body, unset);
      match FindUser(found) {
        case Threw => outcome := Exception;
        case Nobody => outcome := Rejected;
        case Somebody(fetched) =>
          if temp.password != fetched.password {
            outcome := Rejected;
          } else {
            var issued := sessions.NewSession(fetched.username, token, now);
            outcome := if issued.Some? then Done(issued.value) else Rejected;
            ghost var ops := Ops(hash, max, ss, LogIn(body, unset, found, token, now));
            assert ops == [Login(fetched.username, token, now)] && ops[1..] == [];
          }
      }
    }

    /** The gate and the lookups that create_meeting and list_participants share. */
    method ServeGated(token: string, check: Stamp, refresh: Stamp, passes: seq<seq<Stamp>>, now: Stamp,
                      found: Query, janus: JanusAnswer) returns (outcome: Outcome)
      requires sessions.Valid()
      modifies sessions`sessions, sessions.sessions
      ensures sessions.Valid()
      ensures outcome == old(ServeGate(sessions.maxSessions, sessions.View(),
                                       Gated(token, check, refresh, passes, now, found, janus)))
      ensures sessions.View() == old(Run(sessions.maxSessions, sessions.View(),
                GatedOps(sessions.maxSessions, sessions.View(),
                         Gated(token, check, refresh, passes, now, found, janus))))
    {
      ghost var max, ss := sessions.maxSessions, sessions.View();
      ghost var r := Gated(token, check, refresh, passes, now, found, janus);
      ghost var gate := GateOf(r);
      RunOne(max, ss, gate);
      var ok := sessions.ValidateSession(token, check, refresh);
      if !ok {
        return Rejected;
      }
      CleanerRuns(passes);
      RunAppend(max, ss, [gate], AsSweeps(passes));
      RunAppend(max, ss, [gate] + AsSweeps(passes), [Lookup(token, now)]);
      RunOne(max, sessions.View(), Lookup(token, now));
      var name := sessions.GetUsernameByToken(token, now);
      if name == None {
        return Rejected;
      }
      match FindUser(found) {
        case Threw => outcome := Exception;
        case Nobody => outcome := Rejected;
        case Somebody(_) =>
          match janus {
            case NoAnswer => outcome := Rejected;
            case Unreadable => outcome := Exception;
            case Answer(text) => outcome := Done(text);
          }
      }
    }

    /** The passes the cleaner thread makes while this thread holds no mutex. */
    method CleanerRuns(passes: seq<seq<Stamp>>)
      requires sessions.Valid()
      modifies sessions`sessions
      ensures sessions.Valid() && forall t :: t in sessions.sessions ==> t in old(sessions.sessions)
      ensures sessions.View() == old(Run(sessions.maxSessions, sessions.View(), AsSweeps(passes)))
    {
      ghost var max, ss := sessions.maxSessions, sessions.View();
      for i := 0 to |passes|
        invariant sessions.Valid() && forall t :: t in sessions.sessions ==> t in old(sessions.sessions)
        invariant sessions.View() == Run(max, ss, AsSweeps(passes[..i]))
      {
        SweepsAppend(passes[..i], passes[i]);
        assert passes[..i + 1] == passes[..i] + [passes[i]];
        RunAppend(max, ss, AsSweeps(passes[..i]), [Sweep(passes[i])]);
        RunOne(max, sessions.View(), Sweep(passes[i]));
        if |passes[i]| == |sessions.sessions| {
          sessions.RemoveInactive(passes[i]);
        }
      }
      assert passes[..|passes|] == passes;
    }
  }

  lemma RunOne(max: nat, ss: seq<Session>, op: Op)
    ensures Run(max, ss, [op]) == After(max, ss, op)
  {
    assert [op][1..] == [];
  }

  lemma {:induction false} SweepsAppend(passes: seq<seq<Stamp>>, pass: seq<Stamp>)
    ensures AsSweeps(passes + [pass]) == AsSweeps(passes) + [Sweep(pass)]
  {
    if passes == [] {
      assert passes + [pass] == [pass] && [pass][1..] == [];
    } else {
      assert (passes + [pass])[0] == passes[0] && (passes + [pass])[1..] == passes[1..] + [pass];
      SweepsAppend(passes[1..], pass);
    }
  }
}
