/** Lifetimes, provenance and capacity over whole runs of the session store. */
module SessionRuns {
  import opened Wrappers
  import opened Sequences
  import opened SessionTokens
  import opened SessionStore

  // ------------------------------------------------------------ sliding lifetime

  function AttemptOf(token: string, op: Op): seq<Attempt> {
    if op.Validate? && op.token == token then [Attempt(op.check, op.refresh)] else []
  }

  /** The attempts to validate one token, in order, with their two clock readings. */
  function Attempts(token: string, ops: seq<Op>): seq<Attempt> {
    if ops == [] then [] else AttemptOf(token, ops[0]) + Attempts(token, ops[1..])
  }

  function VerdictOf(max: nat, ss: seq<Session>, op: Op, token: string): seq<bool> {
    if op.Validate? && op.token == token then [ReplyTo(max, ss, op).ok] else []
  }

  /** The answers to those attempts. */
  function Verdicts(max: nat, ss: seq<Session>, ops: seq<Op>, token: string): seq<bool>
    decreases ops
  {
    if ops == [] then []
    else VerdictOf(max, ss, ops[0], token) + Verdicts(max, After(max, ss, ops[0]), ops[1..], token)
  }

  /** Every attempt up to the k-th checked less than MAX_LIFE_MS after the refresh of the attempt
      before it, the first one after `stamp`. */
  predicate InTime(stamp: Stamp, attempts: seq<Attempt>, k: nat)
    requires k < |attempts|
  {
    forall j :: 0 <= j <= k ==> Gap(stamp, attempts, j) < MAX_LIFE_MS
  }

  function Gap(stamp: Stamp, attempts: seq<Attempt>, j: nat): int
    requires j < |attempts|
  {
    attempts[j].check - if j == 0 then stamp else attempts[j - 1].refresh
  }

  predicate NoLoginOf(token: string, ops: seq<Op>) {
    forall i :: 0 <= i < |ops| && ops[i].Login? ==> ops[i].token != token
  }

  /** At most one stored session has the token, with this stamp; if none has, it has expired. */
  ghost predicate Carries(ss: seq<Session>, token: string, stamp: Stamp, clock: Stamp) {
    && stamp <= clock
    && (forall i :: 0 <= i < |ss| && ss[i].token == token ==> ss[i].life == stamp)
    && (forall i, j :: 0 <= i < j < |ss| && ss[i].token == token ==> ss[j].token != token)
    && (Find(ss, token) == |ss| ==> clock - stamp >= MAX_LIFE_MS)
  }

  lemma {:induction false} AttemptsAfterClock(clock: Stamp, ops: seq<Op>, token: string)
    requires Clocked(clock, ops)
    ensures forall k :: 0 <= k < |Attempts(token, ops)| ==> clock <= Attempts(token, ops)[k].check
    decreases ops
  {
    if ops != [] {
      ReadingsInOrder(clock, ops[0]);
      AttemptsAfterClock(Latest(clock, Readings(ops[0])), ops[1..], token);
    }
  }

  lemma ValidateCarries(max: nat, ss: seq<Session>, token: string, stamp: Stamp, clock: Stamp, op: Op)
    requires Carries(ss, token, stamp, clock) && op.Validate? && clock <= op.check <= op.refresh
    ensures op.token == token ==> (ReplyTo(max, ss, op).ok <==> op.check - stamp < MAX_LIFE_MS)
    ensures Carries(After(max, ss, op), token,
                    if op.token == token && ReplyTo(max, ss, op).ok then op.refresh else stamp, op.refresh)
  {
    var i, ss' := Find(ss, op.token), After(max, ss, op);
    if i < |ss| { ActiveExactly(ss[i].life, op.check); }
    assert forall j :: 0 <= j < |ss| ==> ss'[j].token == ss[j].token;
    assert forall j :: 0 <= j < |ss| && j != i ==> ss'[j] == ss[j];
  }

  lemma LoginCarries(ss: seq<Session>, token: string, stamp: Stamp, clock: Stamp, s: Session, later: Stamp)
    requires Carries(ss, token, stamp, clock) && s.token != token && clock <= later
    ensures Carries(ss, token, stamp, later) && Carries(ss + [s], token, stamp, later)
  {
    if Find(ss, token) < |ss| { assert (ss + [s])[Find(ss, token)].token == token; }
  }

  /** One operation: the token's stamp moves exactly when an attempt for it succeeds. */
  lemma StepCarries(max: nat, ss: seq<Session>, token: string, stamp: Stamp, clock: Stamp, op: Op)
    requires Carries(ss, token, stamp, clock)
    requires Nondecreasing([clock] + Readings(op)) && (op.Login? ==> op.token != token)
    ensures var mine := op.Validate? && op.token == token;
            && (mine ==> (ReplyTo(max, ss, op).ok <==> op.check - stamp < MAX_LIFE_MS))
            && Carries(After(max, ss, op), token,
                       if mine && ReplyTo(max, ss, op).ok then op.refresh else stamp,
                       Latest(clock, Readings(op)))
  {
    ReadingsInOrder(clock, op);
    match op
    case Login(owner, t, now) => LoginCarries(ss, token, stamp, clock, Session(t, owner, now), now);
    case Validate(t, check, refresh) =>
      ValidateCarries(max, ss, token, stamp, clock, op);
    case Lookup(t, now) =>
    case Sweep(readings) =>
      if |readings| == |ss| { SweepCarries(ss, token, stamp, clock, readings); }
  }

  lemma SweepCarries(ss: seq<Session>, token: string, stamp: Stamp, clock: Stamp, readings: seq<Stamp>)
    requires Carries(ss, token, stamp, clock) && |readings| == |ss|
    requires Nondecreasing([clock] + readings)
    ensures Carries(Kept(ss, readings), token, stamp, Latest(clock, readings))
  {
    ReadingsInOrder(clock, Sweep(readings));
    SweepKeepsActive(ss, readings);
    var p := Find(ss, token);
    if p < |ss| {
      ActiveExactly(ss[p].life, readings[p]);
      if Active(ss[p].life, readings[p]) { ActiveIsFound(ss, readings, p); }
    }
  }

  lemma {:induction false} RunSlides(max: nat, ss: seq<Session>, token: string, stamp: Stamp, clock: Stamp,
                                     ops: seq<Op>)
    requires Carries(ss, token, stamp, clock) && Clocked(clock, ops) && NoLoginOf(token, ops)
    ensures Judged(stamp, Attempts(token, ops), Verdicts(max, ss, ops, token))
    decreases ops
  {
    if ops != [] {
      var op, rest := ops[0], ops[1..];
      var ss', clock' := After(max, ss, op), Latest(clock, Readings(op));
      StepCarries(max, ss, token, stamp, clock, op);
      assert forall i :: 0 <= i < |rest| ==> rest[i] == ops[i + 1];
      var attempts, verdicts := Attempts(token, rest), Verdicts(max, ss', rest, token);
      if op.Validate? && op.token == token {
        ReadingsInOrder(clock, op);
        var ok := ReplyTo(max, ss, op).ok;
        RunSlides(max, ss', token, if ok then op.refresh else stamp, clock', rest);
        AttemptsAfterClock(clock', rest, token);
        JudgeOneMore(stamp, Attempt(op.check, op.refresh), ok, attempts, verdicts);
      } else {
        RunSlides(max, ss', token, stamp, clock', rest);
        assert Attempts(token, ops) == attempts && Verdicts(max, ss, ops, token) == verdicts;
      }
    }
  }

  /** The k-th verdict says whether all attempts up to the k-th were in time. */
  ghost predicate Judged(stamp: Stamp, attempts: seq<Attempt>, verdicts: seq<bool>) {
    && |verdicts| == |attempts|
    && forall k :: 0 <= k < |attempts| ==> (verdicts[k] <==> InTime(stamp, attempts, k))
  }

  lemma JudgeOneMore(stamp: Stamp, a: Attempt, ok: bool, rest: seq<Attempt>, verdicts: seq<bool>)
    requires a.check <= a.refresh && (forall k :: 0 <= k < |rest| ==> a.refresh <= rest[k].check)
    requires ok <==> a.check - stamp < MAX_LIFE_MS
    requires Judged(if ok then a.refresh else stamp, rest, verdicts)
    ensures Judged(stamp, [a] + rest, [ok] + verdicts)
  {
    forall k | 0 <= k < |rest| + 1
      ensures ([ok] + verdicts)[k] <==> InTime(stamp, [a] + rest, k)
    {
      assert Gap(stamp, [a] + rest, 0) == a.check - stamp;
      if k > 0 { InTimeAfterFirst(stamp, a, rest, k - 1); }
    }
  }

  /** How the judgement of a later attempt depends on the first one. */
  lemma InTimeAfterFirst(stamp: Stamp, a: Attempt, rest: seq<Attempt>, k: nat)
    requires k < |rest| && a.check <= a.refresh <= rest[0].check
    ensures a.check - stamp < MAX_LIFE_MS ==> (InTime(stamp, [a] + rest, k + 1) <==> InTime(a.refresh, rest, k))
    ensures a.check - stamp >= MAX_LIFE_MS ==> !InTime(stamp, [a] + rest, k + 1) && !InTime(stamp, rest, k)
  {
    var all := [a] + rest;
    assert forall j :: 0 <= j <= k ==> Gap(stamp, all, j + 1) == Gap(a.refresh, rest, j);
    assert Gap(stamp, all, 0) == a.check - stamp && Gap(stamp, rest, 0) >= a.check - stamp;
    if InTime(stamp, all, k + 1) {
      forall j | 0 <= j <= k ensures Gap(a.refresh, rest, j) < MAX_LIFE_MS {
        assert Gap(stamp, all, j + 1) < MAX_LIFE_MS;
      }
    }
    if a.check - stamp < MAX_LIFE_MS && InTime(a.refresh, rest, k) {
      forall j | 0 <= j <= k + 1 ensures Gap(stamp, all, j) < MAX_LIFE_MS {
        if j > 0 { assert Gap(a.refresh, rest, j - 1) < MAX_LIFE_MS; }
      }
    }
  }

  /** For a token issued by an admitted login, the k-th attempt to validate it succeeds exactly when
      every attempt so far came less than 300000 ms after the one before (the first after the
      login), whatever other sessions, lookups and sweeps do in between. */
  lemma SlidingLifetime(max: nat, ss: seq<Session>, owner: string, token: string, now: Stamp, ops: seq<Op>)
    requires |ss| < max && Find(ss, token) == |ss|
    requires Clocked(now, ops) && NoLoginOf(token, ops)
    ensures var ss' := After(max, ss, Login(owner, token, now));
            Judged(now, Attempts(token, ops), Verdicts(max, ss', ops, token))
  {
    LoginStarts(max, ss, owner, token, now);
    RunSlides(max, After(max, ss, Login(owner, token, now)), token, now, now, ops);
  }

  lemma LoginStarts(max: nat, ss: seq<Session>, owner: string, token: string, now: Stamp)
    requires |ss| < max && Find(ss, token) == |ss|
    ensures Carries(After(max, ss, Login(owner, token, now)), token, now, now)
  {
    var ss' := After(max, ss, Login(owner, token, now));
    assert ss'[|ss|].token == token;
    assert forall i :: 0 <= i < |ss| ==> ss'[i] == ss[i];
  }

  /** One failed attempt makes every later attempt for the token fail. */
  lemma FailureIsFinal(max: nat, ss: seq<Session>, owner: string, token: string, now: Stamp, ops: seq<Op>,
                       j: nat, k: nat)
    requires |ss| < max && Find(ss, token) == |ss|
    requires Clocked(now, ops) && NoLoginOf(token, ops)
    requires j <= k < |Verdicts(max, After(max, ss, Login(owner, token, now)), ops, token)|
    requires !Verdicts(max, After(max, ss, Login(owner, token, now)), ops, token)[j]
    ensures !Verdicts(max, After(max, ss, Login(owner, token, now)), ops, token)[k]
  {
    SlidingLifetime(max, ss, owner, token, now, ops);
    assert InTime(now, Attempts(token, ops), k) ==> InTime(now, Attempts(token, ops), j);
  }

  // ------------------------------------------------------------ provenance

  ghost predicate Issued(max: nat, ops: seq<Op>, i: nat, token: string, owner: string) {
    && i < |ops|
    && ops[i].Login? && ops[i].token == token && ops[i].owner == owner
    && Replies(max, [], ops)[i] == Admitted
  }

  lemma RepliesPrefix(max: nat, ops: seq<Op>, op: Op)
    ensures Replies(max, [], ops + [op]) == Replies(max, [], ops) + [ReplyTo(max, Run(max, [], ops), op)]
    ensures Run(max, [], ops + [op]) == After(max, Run(max, [], ops), op)
  {
    RunAppend(max, [], ops, [op]);
    assert [op][1..] == [];
  }

  /** Where a session of the store came from: an earlier place, or the login just admitted. */
  lemma SourceOf(max: nat, ss: seq<Session>, op: Op, p: nat) returns (q: nat)
    requires p < |After(max, ss, op)|
    ensures q < |ss| ==> ss[q].token == After(max, ss, op)[p].token && ss[q].owner == After(max, ss, op)[p].owner
    ensures q >= |ss| ==>
              && op.Login? && ReplyTo(max, ss, op) == Admitted
              && op.token == After(max, ss, op)[p].token && op.owner == After(max, ss, op)[p].owner
  {
    q := p;
    if op.Sweep? && |op.readings| == |ss| {
      SweepKeepsActive(ss, op.readings);
      q := KeptAt(ss, op.readings, 0)[p];
    }
  }

  /** Every stored session was issued by an admitted login with its token and owner. */
  lemma {:induction false} StoredWasIssued(max: nat, ops: seq<Op>, p: nat)
    requires p < |Run(max, [], ops)|
    ensures exists i :: Issued(max, ops, i, Run(max, [], ops)[p].token, Run(max, [], ops)[p].owner)
    decreases |ops|
  {
    if ops != [] {
      var before, op := ops[..|ops| - 1], ops[|ops| - 1];
      assert ops == before + [op];
      RepliesPrefix(max, before, op);
      var ss, s := Run(max, [], before), Run(max, [], ops)[p];
      var q := SourceOf(max, ss, op, p);
      if q < |ss| {
        StoredWasIssued(max, before, q);
        var i: nat :| Issued(max, before, i, s.token, s.owner);
        assert Issued(max, ops, i, s.token, s.owner);
      } else {
        assert Issued(max, ops, |before|, s.token, s.owner);
      }
    }
  }

  /** The sessions `ss` come from the admitted logins of `ops` at the increasing places `at`. */
  ghost predicate InLoginOrder(max: nat, ops: seq<Op>, ss: seq<Session>, at: seq<nat>) {
    && |at| == |ss|
    && (forall p :: 0 <= p < |at| ==> Issued(max, ops, at[p], ss[p].token, ss[p].owner))
    && (forall p, q :: 0 <= p < q < |at| ==> at[p] < at[q])
  }

  lemma IssuedLater(max: nat, ops: seq<Op>, op: Op, ss: seq<Session>, at: seq<nat>)
    requires InLoginOrder(max, ops, ss, at)
    ensures InLoginOrder(max, ops + [op], ss, at)
  {
    RepliesPrefix(max, ops, op);
  }

  lemma SweepInOrder(max: nat, ops: seq<Op>, ss: seq<Session>, at: seq<nat>, readings: seq<Stamp>)
    returns (kept: seq<nat>)
    requires InLoginOrder(max, ops, ss, at) && |readings| == |ss|
    ensures InLoginOrder(max, ops, Kept(ss, readings), kept)
  {
    SweepKeepsActive(ss, readings);
    var from := KeptAt(ss, readings, 0);
    kept := seq(|from|, p requires 0 <= p < |from| => at[from[p]]);
  }

  lemma LoginInOrder(max: nat, ops: seq<Op>, op: Op, at: seq<nat>)
    requires op.Login? && |Run(max, [], ops)| < max && InLoginOrder(max, ops, Run(max, [], ops), at)
    ensures InLoginOrder(max, ops + [op], Run(max, [], ops + [op]), at + [|ops|])
  {
    RepliesPrefix(max, ops, op);
    IssuedLater(max, ops, op, Run(max, [], ops), at);
    assert forall p :: 0 <= p < |at| ==> at[p] < |ops + [op]|;
    forall p | 0 <= p < |at| ensures at[p] < |ops| {
      assert Issued(max, ops, at[p], Run(max, [], ops)[p].token, Run(max, [], ops)[p].owner);
    }
  }

  /** The stored sessions are those of admitted logins in the order of those logins, so that among sessions
      with one token, if a token were ever issued twice, the search finds the oldest. */
  lemma {:induction false} StoredInLoginOrder(max: nat, ops: seq<Op>) returns (at: seq<nat>)
    ensures InLoginOrder(max, ops, Run(max, [], ops), at)
    decreases |ops|
  {
    if ops == [] {
      at := [];
    } else {
      var before, op := ops[..|ops| - 1], ops[|ops| - 1];
      assert ops == before + [op];
      RepliesPrefix(max, before, op);
      at := StoredInLoginOrder(max, before);
      IssuedLater(max, before, op, Run(max, [], before), at);
      match op
      case Login(_, _, _) =>
        if |Run(max, [], before)| < max {
          LoginInOrder(max, before, op, at);
          at := at + [|before|];
        }
      case Sweep(readings) =>
        if |readings| == |Run(max, [], before)| {
          at := SweepInOrder(max, ops, Run(max, [], before), at, readings);
        }
      case Validate(token, check, refresh) =>
        RefreshInOrder(max, ops, Run(max, [], before), at, op);
      case Lookup(_, _) =>
    }
  }

  lemma RefreshInOrder(max: nat, ops: seq<Op>, ss: seq<Session>, at: seq<nat>, op: Op)
    requires InLoginOrder(max, ops, ss, at) && op.Validate?
    ensures InLoginOrder(max, ops, After(max, ss, op), at)
  {
    var ss' := After(max, ss, op);
    assert forall p :: 0 <= p < |ss| ==> ss'[p].token == ss[p].token && ss'[p].owner == ss[p].owner;
  }

  lemma StoredHasLogin(max: nat, ops: seq<Op>, token: string)
    ensures Find(Run(max, [], ops), token) < |Run(max, [], ops)| ==>
              exists j :: 0 <= j < |ops| && ops[j].Login? && ops[j].token == token
  {
    var p := Find(Run(max, [], ops), token);
    if p < |Run(max, [], ops)| {
      StoredWasIssued(max, ops, p);
      var j: nat :| Issued(max, ops, j, token, Run(max, [], ops)[p].owner);
      assert ops[j].Login? && ops[j].token == token;
    }
  }

  predicate DistinctLogins(ops: seq<Op>) {
    forall i, j :: 0 <= i < j < |ops| && ops[i].Login? && ops[j].Login? ==> ops[i].token != ops[j].token
  }

  predicate OnlySweeps(ops: seq<Op>) {
    forall i :: 0 <= i < |ops| ==> ops[i].Sweep?
  }

  lemma {:induction false} ClockedSplit(clock: Stamp, a: seq<Op>, b: seq<Op>) returns (mid: Stamp)
    requires Clocked(clock, a + b)
    ensures Clocked(mid, b)
    ensures a == [] ==> mid == clock
    ensures a != [] && !a[|a| - 1].Sweep? ==> mid == Latest(clock, Readings(a[|a| - 1]))
    decreases a
  {
    if a == [] {
      assert a + b == b;
      mid := clock;
    } else {
      assert (a + b)[0] == a[0] && (a + b)[1..] == a[1..] + b;
      mid := ClockedSplit(Latest(clock, Readings(a[0])), a[1..], b);
    }
  }

  lemma {:induction false} ClockedPrefix(clock: Stamp, a: seq<Op>, b: seq<Op>)
    requires Clocked(clock, a + b)
    ensures Clocked(clock, a)
    decreases a
  {
    if a != [] {
      assert (a + b)[0] == a[0] && (a + b)[1..] == a[1..] + b;
      ClockedPrefix(Latest(clock, Readings(a[0])), a[1..], b);
    }
  }

  lemma {:induction false} VerdictsAppend(max: nat, ss: seq<Session>, a: seq<Op>, b: seq<Op>, token: string)
    ensures Verdicts(max, ss, a + b, token) == Verdicts(max, ss, a, token) + Verdicts(max, Run(max, ss, a), b, token)
    ensures Attempts(token, a + b) == Attempts(token, a) + Attempts(token, b)
    decreases a
  {
    if a == [] {
      assert a + b == b;
    } else {
      assert (a + b)[0] == a[0] && (a + b)[1..] == a[1..] + b;
      var ss' := After(max, ss, a[0]);
      VerdictsAppend(max, ss', a[1..], b, token);
      Assoc(VerdictOf(max, ss, a[0], token), Verdicts(max, ss', a[1..], token),
            Verdicts(max, Run(max, ss, a), b, token));
      Assoc(AttemptOf(token, a[0]), Attempts(token, a[1..]), Attempts(token, b));
    }
  }

  // ------------------------------------------------------------ gating

  /** Since the login at position `i`, every attempt to validate the token, up to and including
      `gate`, came less than 300000 ms after the one before. */
  ghost predicate EarnedBy(ops: seq<Op>, i: nat, gate: Op) {
    && i < |ops| && ops[i].Login? && gate.Validate?
    && var attempts := Attempts(gate.token, ops[i + 1..] + [gate]);
       attempts != [] && InTime(ops[i].now, attempts, |attempts| - 1)
  }

  lemma LastVerdict(max: nat, ss: seq<Session>, ops: seq<Op>, gate: Op)
    requires gate.Validate?
    ensures Attempts(gate.token, ops + [gate]) != []
    ensures Verdicts(max, ss, ops + [gate], gate.token)
         == Verdicts(max, ss, ops, gate.token) + [ReplyTo(max, Run(max, ss, ops), gate).ok]
  {
    VerdictsAppend(max, ss, ops, [gate], gate.token);
    assert [gate][1..] == [];
    assert Attempts(gate.token, [gate]) == [Attempt(gate.check, gate.refresh)];
  }

  /** With tokens that are never issued twice, a validation after an admitted login succeeds exactly
      when every attempt in between, and this one, came in time. */
  lemma ValidatedIffEarned(max: nat, start: Stamp, ops: seq<Op>, i: nat, owner: string, gate: Op)
    requires gate.Validate? && Clocked(start, ops + [gate]) && DistinctLogins(ops)
    requires Issued(max, ops, i, gate.token, owner)
    ensures ReplyTo(max, Run(max, [], ops), gate) == Valid(true) <==> EarnedBy(ops, i, gate)
  {
    var login, later := ops[i], ops[i + 1..];
    var ss := Run(max, [], ops[..i]);
    RoomAtIssue(max, ops, i, gate.token, owner);
    RunAround(max, ops, i);
    ClockAround(start, ops, i, gate);
    assert forall k :: 0 <= k < |later| ==> later[k] == ops[i + 1 + k];
    SlidingLifetime(max, ss, owner, gate.token, login.now, later + [gate]);
    LastVerdict(max, After(max, ss, login), later, gate);
  }

  lemma RunAround(max: nat, ops: seq<Op>, i: nat)
    requires i < |ops|
    ensures Run(max, [], ops) == Run(max, After(max, Run(max, [], ops[..i]), ops[i]), ops[i + 1..])
  {
    assert ops == (ops[..i] + [ops[i]]) + ops[i + 1..];
    RunAppend(max, [], ops[..i] + [ops[i]], ops[i + 1..]);
    RepliesPrefix(max, ops[..i], ops[i]);
  }

  lemma ClockAround(start: Stamp, ops: seq<Op>, i: nat, gate: Op)
    requires i < |ops| && ops[i].Login? && Clocked(start, ops + [gate])
    ensures Clocked(ops[i].now, ops[i + 1..] + [gate])
  {
    assert ops + [gate] == (ops[..i] + [ops[i]]) + (ops[i + 1..] + [gate]);
    var mid := ClockedSplit(start, ops[..i] + [ops[i]], ops[i + 1..] + [gate]);
  }

  /** When a token was issued there was room, and no session had it. */
  lemma RoomAtIssue(max: nat, ops: seq<Op>, i: nat, token: string, owner: string)
    requires DistinctLogins(ops) && Issued(max, ops, i, token, owner)
    ensures |Run(max, [], ops[..i])| < max
    ensures Find(Run(max, [], ops[..i]), token) == |Run(max, [], ops[..i])|
    ensures ops[i] == Login(owner, token, ops[i].now)
  {
    var before := ops[..i];
    assert ops == before + ops[i..];
    RunAppend(max, [], before, ops[i..]);
    assert Replies(max, Run(max, [], before), ops[i..])[0] == Admitted;
    StoredHasLogin(max, before, token);
    assert forall j :: 0 <= j < |before| ==> before[j] == ops[j];
  }

  /** A gate passes when a token validates and, after any sweeps, its owner is found. Then the
      token was issued to that very owner by an earlier login and never left unused for 300000 ms. */
  lemma GateImpliesLogin(max: nat, start: Stamp, ops: seq<Op>, gate: Op, sweeps: seq<Op>, now: Stamp, owner: string)
    returns (i: nat)
    requires gate.Validate? && Clocked(start, ops + [gate]) && DistinctLogins(ops) && OnlySweeps(sweeps)
    requires ReplyTo(max, Run(max, [], ops), gate) == Valid(true)
    requires ReplyTo(max, Run(max, [], ops + ([gate] + sweeps)), Lookup(gate.token, now)) == Owner(Some(owner))
    ensures Issued(max, ops, i, gate.token, owner) && EarnedBy(ops, i, gate)
  {
    var whole := ops + ([gate] + sweeps);
    StoredWasIssued(max, whole, Find(Run(max, [], whole), gate.token));
    i :| Issued(max, whole, i, gate.token, owner);
    IssuedInFront(max, ops, [gate] + sweeps, i, gate.token, owner);
    ValidatedIffEarned(max, start, ops, i, owner, gate);
  }

  /** Operations that are no logins issue nothing. */
  lemma IssuedInFront(max: nat, ops: seq<Op>, tail: seq<Op>, i: nat, token: string, owner: string)
    requires Issued(max, ops + tail, i, token, owner)
    requires forall k :: 0 <= k < |tail| ==> !tail[k].Login?
    ensures Issued(max, ops, i, token, owner)
  {
    RunAppend(max, [], ops, tail);
    forall k | |ops| <= k < |ops + tail| ensures !(ops + tail)[k].Login? {
      assert (ops + tail)[k] == tail[k - |ops|];
    }
  }

  /** The owner of a carried token is found exactly while its stamp is fresh, sweeps or not. */
  lemma {:induction false} OwnerWhileFresh(max: nat, ss: seq<Session>, token: string, stamp: Stamp, clock: Stamp,
                                           sweeps: seq<Op>, now: Stamp)
    requires Carries(ss, token, stamp, clock) && OnlySweeps(sweeps)
    requires Clocked(clock, sweeps + [Lookup(token, now)])
    ensures ReplyTo(max, Run(max, ss, sweeps), Lookup(token, now)).name.Some? <==> now - stamp < MAX_LIFE_MS
    decreases sweeps
  {
    var all := sweeps + [Lookup(token, now)];
    ReadingsInOrder(clock, all[0]);
    if sweeps == [] {
      var i := Find(ss, token);
      if i < |ss| { ActiveExactly(ss[i].life, now); }
    } else {
      assert all[1..] == sweeps[1..] + [Lookup(token, now)];
      StepCarries(max, ss, token, stamp, clock, sweeps[0]);
      OwnerWhileFresh(max, After(max, ss, sweeps[0]), token, stamp, Latest(clock, Readings(sweeps[0])),
                      sweeps[1..], now);
    }
  }

  /** A successful validation leaves its token stamped with its refresh reading. */
  lemma {:induction false} GateCarries(max: nat, ss: seq<Session>, stamp: Stamp, clock: Stamp, ops: seq<Op>, gate: Op)
    requires gate.Validate? && Carries(ss, gate.token, stamp, clock)
    requires Clocked(clock, ops + [gate]) && NoLoginOf(gate.token, ops)
    requires ReplyTo(max, Run(max, ss, ops), gate) == Valid(true)
    ensures Carries(After(max, Run(max, ss, ops), gate), gate.token, gate.refresh, gate.refresh)
    decreases ops
  {
    var all := ops + [gate];
    ReadingsInOrder(clock, all[0]);
    StepCarries(max, ss, gate.token, stamp, clock, all[0]);
    if ops != [] {
      var op := ops[0];
      assert all[1..] == ops[1..] + [gate];
      assert forall k :: 0 <= k < |ops[1..]| ==> ops[1..][k] == ops[k + 1];
      var mine := op.Validate? && op.token == gate.token;
      GateCarries(max, After(max, ss, op), if mine && ReplyTo(max, ss, op).ok then op.refresh else stamp,
                  Latest(clock, Readings(op)), ops[1..], gate);
    }
  }

  /** What the store looks like after a successful validation of an issued token. */
  lemma IssuedGateCarries(max: nat, start: Stamp, ops: seq<Op>, i: nat, owner: string, gate: Op)
    requires gate.Validate? && Clocked(start, ops + [gate]) && DistinctLogins(ops)
    requires Issued(max, ops, i, gate.token, owner)
    requires ReplyTo(max, Run(max, [], ops), gate) == Valid(true)
    ensures Carries(After(max, Run(max, [], ops), gate), gate.token, gate.refresh, gate.refresh)
  {
    var login, later, ss := ops[i], ops[i + 1..], Run(max, [], ops[..i]);
    RoomAtIssue(max, ops, i, gate.token, owner);
    RunAround(max, ops, i);
    ClockAround(start, ops, i, gate);
    assert forall k :: 0 <= k < |later| ==> later[k] == ops[i + 1 + k];
    LoginStarts(max, ss, owner, gate.token, login.now);
    GateCarries(max, After(max, ss, login), login.now, login.now, later, gate);
  }

  /** The gate is open for `owner` if and only if an earlier login issued the token to `owner`, every
      attempt on it since came in time, and the lookup follows the refresh in time. */
  lemma GateOpensIff(max: nat, start: Stamp, ops: seq<Op>, gate: Op, sweeps: seq<Op>, now: Stamp, owner: string)
    requires gate.Validate? && DistinctLogins(ops) && OnlySweeps(sweeps)
    requires Clocked(start, (ops + [gate]) + (sweeps + [Lookup(gate.token, now)]))
    ensures GateOpen(max, ops, gate, sweeps, now, owner) <==>
              && (exists i :: Issued(max, ops, i, gate.token, owner) && EarnedBy(ops, i, gate))
              && now - gate.refresh < MAX_LIFE_MS
  {
    var lookup := Lookup(gate.token, now);
    ClockedPrefix(start, ops + [gate], sweeps + [lookup]);
    var mid := ClockedSplit(start, ops + [gate], sweeps + [lookup]);
    if GateOpen(max, ops, gate, sweeps, now, owner) {
      var i := GateImpliesLogin(max, start, ops, gate, sweeps, now, owner);
      LookupAfterGate(max, start, ops, i, owner, gate, sweeps, now);
    } else if exists i :: Issued(max, ops, i, gate.token, owner) && EarnedBy(ops, i, gate) {
      var i: nat :| Issued(max, ops, i, gate.token, owner) && EarnedBy(ops, i, gate);
      ValidatedIffEarned(max, start, ops, i, owner, gate);
      LookupAfterGate(max, start, ops, i, owner, gate, sweeps, now);
    }
  }

  /** The token validates, and the lookup that follows it and some sweeps answers `owner`. */
  ghost predicate GateOpen(max: nat, ops: seq<Op>, gate: Op, sweeps: seq<Op>, now: Stamp, owner: string)
    requires gate.Validate?
  {
    && ReplyTo(max, Run(max, [], ops), gate) == Valid(true)
    && ReplyTo(max, Run(max, [], ops + ([gate] + sweeps)), Lookup(gate.token, now)) == Owner(Some(owner))
  }

  lemma LookupAfterGate(max: nat, start: Stamp, ops: seq<Op>, i: nat, owner: string, gate: Op,
                        sweeps: seq<Op>, now: Stamp)
    requires gate.Validate? && DistinctLogins(ops) && OnlySweeps(sweeps)
    requires Clocked(start, ops + [gate]) && Clocked(gate.refresh, sweeps + [Lookup(gate.token, now)])
    requires Issued(max, ops, i, gate.token, owner)
    requires ReplyTo(max, Run(max, [], ops), gate) == Valid(true)
    ensures ReplyTo(max, Run(max, [], ops + ([gate] + sweeps)), Lookup(gate.token, now))
         == Owner(if now - gate.refresh < MAX_LIFE_MS then Some(owner) else None)
  {
    var whole := ops + ([gate] + sweeps);
    IssuedGateCarries(max, start, ops, i, owner, gate);
    RunAppend(max, [], ops, [gate] + sweeps);
    RunAppend(max, Run(max, [], ops), [gate], sweeps);
    assert [gate][1..] == [];
    OwnerWhileFresh(max, After(max, Run(max, [], ops), gate), gate.token, gate.refresh, gate.refresh, sweeps, now);
    OnlyOwner(max, ops, [gate] + sweeps, i, gate.token, owner);
  }

  /** With distinct logins, whoever is stored under an issued token is the one it was issued to. */
  lemma OnlyOwner(max: nat, ops: seq<Op>, tail: seq<Op>, i: nat, token: string, owner: string)
    requires DistinctLogins(ops) && Issued(max, ops, i, token, owner)
    requires forall k :: 0 <= k < |tail| ==> !tail[k].Login?
    ensures var ss := Run(max, [], ops + tail); Find(ss, token) < |ss| ==> ss[Find(ss, token)].owner == owner
  {
    var ss := Run(max, [], ops + tail);
    var p := Find(ss, token);
    if p < |ss| {
      StoredWasIssued(max, ops + tail, p);
      var j: nat :| Issued(max, ops + tail, j, token, ss[p].owner);
      IssuedInFront(max, ops, tail, j, token, ss[p].owner);
      assert i == j;
    }
  }

  // ------------------------------------------------------------ capacity

  lemma {:induction false} NeverOverfull(max: nat, ss: seq<Session>, ops: seq<Op>)
    requires |ss| <= max
    ensures |Run(max, ss, ops)| <= max
    decreases ops
  {
    if ops != [] { NeverOverfull(max, After(max, ss, ops[0]), ops[1..]); }
  }

  /** Which of the logins of a run were admitted, in order. */
  function Admissions(max: nat, ss: seq<Session>, ops: seq<Op>): seq<bool>
    decreases ops
  {
    if ops == [] then []
    else (if ops[0].Login? then [ReplyTo(max, ss, ops[0]) == Admitted] else [])
         + Admissions(max, After(max, ss, ops[0]), ops[1..])
  }

  predicate NoSweeps(ops: seq<Op>) {
    forall i :: 0 <= i < |ops| ==> !ops[i].Sweep?
  }

  /** Without sweeps, exactly the first max - |ss| logins are admitted. */
  lemma {:induction false} AdmitsFreePlaces(max: nat, ss: seq<Session>, ops: seq<Op>)
    requires |ss| <= max && NoSweeps(ops)
    ensures forall k :: 0 <= k < |Admissions(max, ss, ops)| ==> (Admissions(max, ss, ops)[k] <==> k < max - |ss|)
    decreases ops
  {
    if ops != [] {
      assert forall i :: 0 <= i < |ops[1..]| ==> ops[1..][i] == ops[i + 1];
      AdmitsFreePlaces(max, After(max, ss, ops[0]), ops[1..]);
    }
  }

  /** After a sweep that removes k sessions from a full store, exactly k logins are admitted before
      the next refusal, if no other sweep comes first. */
  lemma SweepFreesItsPlaces(max: nat, ss: seq<Session>, readings: seq<Stamp>, ops: seq<Op>, k: nat)
    requires |ss| == max == |readings| && NoSweeps(ops)
    requires k < |Admissions(max, After(max, ss, Sweep(readings)), ops)|
    ensures Admissions(max, After(max, ss, Sweep(readings)), ops)[k] <==> k < |ss| - |Kept(ss, readings)|
  {
    AdmitsFreePlaces(max, After(max, ss, Sweep(readings)), ops);
  }
}
