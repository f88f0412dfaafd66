/** The bounded, swept vector of sessions refines an unbounded keyed store that is never swept. */
module SessionRefinement {
  import opened Wrappers
  import opened SessionTokens
  import opened SessionStore

  datatype Entry = Entry(owner: string, life: Stamp)
  type Ledger = map<string, Entry>

  // Expiry in the ledger is a plain integer comparison.
  predicate Live(l: Ledger, token: string, now: Stamp) {
    token in l && now - l[token].life < MAX_LIFE_MS
  }

  function LedgerAfter(l: Ledger, op: Op): Ledger {
    match op
    case Login(owner, token, now) => l[token := Entry(owner, now)]
    case Validate(token, check, refresh) =>
      if Live(l, token, check) then l[token := l[token].(life := refresh)] else l
    case _ => l
  }

  function LedgerReply(l: Ledger, op: Op): Reply {
    match op
    case Login(owner, token, now) => Admitted
    case Validate(token, check, refresh) => Valid(Live(l, token, check))
    case Lookup(token, now) => Owner(if Live(l, token, now) then Some(l[token].owner) else None)
    case Sweep(readings) => Swept
  }

  function LedgerReplies(l: Ledger, ops: seq<Op>): seq<Reply>
    decreases ops
  {
    if ops == [] then [] else [LedgerReply(l, ops[0])] + LedgerReplies(LedgerAfter(l, ops[0]), ops[1..])
  }

  /** Sweeps and refused logins are the operations the ledger does not see. */
  predicate Shown(r: Reply) {
    r != Refused && r != Swept
  }

  function ShownOps(max: nat, ss: seq<Session>, ops: seq<Op>): seq<Op>
    decreases ops
  {
    if ops == [] then []
    else (if Shown(ReplyTo(max, ss, ops[0])) then [ops[0]] else [])
         + ShownOps(max, After(max, ss, ops[0]), ops[1..])
  }

  function ShownReplies(rs: seq<Reply>): seq<Reply> {
    if rs == [] then [] else (if Shown(rs[0]) then [rs[0]] else []) + ShownReplies(rs[1..])
  }

  /** No login is given a token that a stored session already has. */
  predicate FreshTokens(max: nat, ss: seq<Session>, ops: seq<Op>)
    decreases ops
  {
    ops == [] ||
    (&& (ops[0].Login? && |ss| < max ==> Find(ss, ops[0].token) == |ss|)
     && FreshTokens(max, After(max, ss, ops[0]), ops[1..]))
  }

  ghost predicate Distinct(ss: seq<Session>) {
    forall i, j :: 0 <= i < j < |ss| ==> ss[i].token != ss[j].token
  }

  ghost predicate Stored(ss: seq<Session>, token: string) {
    exists i :: 0 <= i < |ss| && ss[i].token == token
  }

  /** The vector agrees with the ledger, and whatever it has lost has expired by now. */
  ghost predicate Related(ss: seq<Session>, l: Ledger, clock: Stamp) {
    && Distinct(ss)
    && (forall i :: 0 <= i < |ss| ==> ss[i].token in l && l[ss[i].token] == Entry(ss[i].owner, ss[i].life))
    && (forall t :: t in l ==> l[t].life <= clock)
    && (forall t :: t in l ==> Stored(ss, t) || clock - l[t].life >= MAX_LIFE_MS)
  }

  lemma SameAnswer(ss: seq<Session>, l: Ledger, clock: Stamp, token: string, now: Stamp)
    requires Related(ss, l, clock) && clock <= now
    ensures var i := Find(ss, token);
            && (i < |ss| && Active(ss[i].life, now) <==> Live(l, token, now))
            && (i < |ss| ==> token in l && l[token] == Entry(ss[i].owner, ss[i].life))
  {
    var i := Find(ss, token);
    if i < |ss| {
      ActiveExactly(ss[i].life, now);
    } else if token in l {
      assert !Stored(ss, token);
    }
  }

  lemma AppendStored(ss: seq<Session>, s: Session, t: string)
    ensures Stored(ss + [s], t) <==> Stored(ss, t) || t == s.token
  {
    if t == s.token {
      assert (ss + [s])[|ss|].token == t;
    } else if Stored(ss, t) {
      var i :| 0 <= i < |ss| && ss[i].token == t;
      assert (ss + [s])[i].token == t;
    }
  }

  lemma LoginRelated(max: nat, ss: seq<Session>, l: Ledger, clock: Stamp, op: Op)
    requires Related(ss, l, clock) && op.Login? && clock <= op.now
    requires |ss| < max && Find(ss, op.token) == |ss|
    ensures Related(After(max, ss, op), LedgerAfter(l, op), op.now)
  {
    var s, l' := Session(op.token, op.owner, op.now), LedgerAfter(l, op);
    assert After(max, ss, op) == ss + [s];
    assert forall i :: 0 <= i < |ss| ==> ss[i].token != op.token;
    forall t | t in l' ensures Stored(ss + [s], t) || op.now - l'[t].life >= MAX_LIFE_MS {
      AppendStored(ss, s, t);
    }
  }

  lemma ValidateRelated(max: nat, ss: seq<Session>, l: Ledger, clock: Stamp, op: Op)
    requires Related(ss, l, clock) && op.Validate? && clock <= op.check <= op.refresh
    ensures Related(After(max, ss, op), LedgerAfter(l, op), op.refresh)
    ensures ReplyTo(max, ss, op) == LedgerReply(l, op)
  {
    SameAnswer(ss, l, clock, op.token, op.check);
    var ss', l' := After(max, ss, op), LedgerAfter(l, op);
    forall t | t in l' ensures Stored(ss', t) || op.refresh - l'[t].life >= MAX_LIFE_MS {
      if Stored(ss, t) {
        var i :| 0 <= i < |ss| && ss[i].token == t;
        assert ss'[i].token == t;
      }
    }
  }

  lemma SweepKeepsDistinct(ss: seq<Session>, readings: seq<Stamp>)
    requires |readings| == |ss| && Distinct(ss)
    ensures Distinct(Kept(ss, readings))
    ensures forall i :: 0 <= i < |Kept(ss, readings)| ==> Kept(ss, readings)[i] in ss
  {
    SweepKeepsActive(ss, readings);
  }

  /** A session that the sweep finds active is still stored afterwards. */
  lemma SweepKeepsOrExpired(ss: seq<Session>, clock: Stamp, readings: seq<Stamp>, p: nat)
    requires p < |ss| == |readings| && Nondecreasing([clock] + readings) && ss[p].life <= clock
    ensures Stored(Kept(ss, readings), ss[p].token) || Latest(clock, readings) - ss[p].life >= MAX_LIFE_MS
  {
    ReadingsInOrder(clock, Sweep(readings));
    if Active(ss[p].life, readings[p]) {
      ActiveIsFound(ss, readings, p);
      var r := Kept(ss, readings);
      assert r[Find(r, ss[p].token)].token == ss[p].token;
    } else {
      ActiveExactly(ss[p].life, readings[p]);
    }
  }

  lemma SweepRelated(ss: seq<Session>, l: Ledger, clock: Stamp, readings: seq<Stamp>)
    requires Related(ss, l, clock) && |readings| == |ss|
    requires Nondecreasing([clock] + readings)
    ensures Related(Kept(ss, readings), l, Latest(clock, readings))
  {
    var r := Kept(ss, readings);
    ReadingsInOrder(clock, Sweep(readings));
    SweepKeepsDistinct(ss, readings);
    forall t | t in l ensures Stored(r, t) || Latest(clock, readings) - l[t].life >= MAX_LIFE_MS {
      if Stored(ss, t) {
        var p :| 0 <= p < |ss| && ss[p].token == t;
        SweepKeepsOrExpired(ss, clock, readings, p);
      }
    }
  }

  lemma LaterRelated(ss: seq<Session>, l: Ledger, clock: Stamp, later: Stamp)
    requires Related(ss, l, clock) && clock <= later
    ensures Related(ss, l, later)
  {
  }

  lemma LoginOrRefusal(max: nat, ss: seq<Session>, l: Ledger, clock: Stamp, op: Op)
    requires Related(ss, l, clock) && op.Login? && clock <= op.now
    requires |ss| < max ==> Find(ss, op.token) == |ss|
    ensures Related(After(max, ss, op), if |ss| < max then LedgerAfter(l, op) else l, op.now)
  {
    if |ss| < max { LoginRelated(max, ss, l, clock, op); } else { LaterRelated(ss, l, clock, op.now); }
  }

  lemma LookupRelated(max: nat, ss: seq<Session>, l: Ledger, clock: Stamp, op: Op)
    requires Related(ss, l, clock) && op.Lookup? && clock <= op.now
    ensures Related(ss, l, op.now) && ReplyTo(max, ss, op) == LedgerReply(l, op)
  {
    SameAnswer(ss, l, clock, op.token, op.now);
    LaterRelated(ss, l, clock, op.now);
  }

  lemma StepRelated(max: nat, ss: seq<Session>, l: Ledger, clock: Stamp, op: Op)
    requires Related(ss, l, clock)
    requires Nondecreasing([clock] + Readings(op))
    requires op.Login? && |ss| < max ==> Find(ss, op.token) == |ss|
    ensures var shown := Shown(ReplyTo(max, ss, op));
            && Related(After(max, ss, op), if shown then LedgerAfter(l, op) else l, Latest(clock, Readings(op)))
            && (shown ==> ReplyTo(max, ss, op) == LedgerReply(l, op))
  {
    ReadingsInOrder(clock, op);
    match op
    case Login(owner, token, now) => LoginOrRefusal(max, ss, l, clock, op);
    case Validate(token, check, refresh) =>
      ValidateRelated(max, ss, l, clock, op);
    case Lookup(token, now) => LookupRelated(max, ss, l, clock, op);
    case Sweep(readings) =>
      if |readings| == |ss| {
        SweepRelated(ss, l, clock, readings);
      } else {
        LaterRelated(ss, l, clock, Latest(clock, readings));
      }
  }

  lemma {:induction false} RunRefines(max: nat, ss: seq<Session>, l: Ledger, clock: Stamp, ops: seq<Op>)
    requires Related(ss, l, clock) && Clocked(clock, ops) && FreshTokens(max, ss, ops)
    ensures ShownReplies(Replies(max, ss, ops)) == LedgerReplies(l, ShownOps(max, ss, ops))
    decreases ops
  {
    if ops != [] {
      StepRelated(max, ss, l, clock, ops[0]);
      var shown := Shown(ReplyTo(max, ss, ops[0]));
      var l' := if shown then LedgerAfter(l, ops[0]) else l;
      RunRefines(max, After(max, ss, ops[0]), l', Latest(clock, Readings(ops[0])), ops[1..]);
      var rs := Replies(max, ss, ops);
      assert rs[0] == ReplyTo(max, ss, ops[0]) && rs[1..] == Replies(max, After(max, ss, ops[0]), ops[1..]);
      var rest := ShownOps(max, After(max, ss, ops[0]), ops[1..]);
      if shown {
        assert ShownOps(max, ss, ops)[1..] == rest;
      } else {
        assert ShownOps(max, ss, ops) == rest;
      }
    }
  }

  /** Whatever the order of logins, validations, lookups and sweeps, every answer is the one the
      never-swept ledger gives: sweeps cannot be observed. */
  lemma StoreRefinesLedger(max: nat, start: Stamp, ops: seq<Op>)
    requires Clocked(start, ops) && FreshTokens(max, [], ops)
    ensures ShownReplies(Replies(max, [], ops)) == LedgerReplies(map[], ShownOps(max, [], ops))
  {
    RunRefines(max, [], map[], start, ops);
  }
}
