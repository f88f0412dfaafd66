/**
 The session container of network_session_handler.cpp as a function over its vector, one
 operation per critical section of its mutex. Clock readings and generated tokens are inputs.
 */
module SessionStore {
  import opened Wrappers
  import opened SessionTokens

  datatype Op =
    | Login(owner: string, token: string, now: Stamp)
    | Validate(token: string, check: Stamp, refresh: Stamp)
    | Lookup(token: string, now: Stamp)
    | Sweep(readings: seq<Stamp>)      // one clock reading per session, in order

  datatype Reply =
    | Admitted
    | Refused
    | Valid(ok: bool)
    | Owner(name: Option<string>)
    | Swept

  /** Position of the first session with `token`, or |ss| when there is none. */
  function Find(ss: seq<Session>, token: string): (i: nat)
    ensures i <= |ss|
    ensures forall j :: 0 <= j < i ==> ss[j].token != token
    ensures i < |ss| ==> ss[i].token == token
  {
    if ss == [] then 0
    else if ss[0].token == token then 0
    else 1 + Find(ss[1..], token)
  }

  /** The sessions that are active at their own clock reading. */
  function Kept(ss: seq<Session>, readings: seq<Stamp>): (r: seq<Session>)
    requires |ss| == |readings|
    ensures |r| <= |ss|
  {
    if ss == [] then []
    else (if Active(ss[0].life, readings[0]) then [ss[0]] else []) + Kept(ss[1..], readings[1..])
  }

  function After(max: nat, ss: seq<Session>, op: Op): seq<Session> {
    match op
    case Login(owner, token, now) => if |ss| < max then ss + [Session(token, owner, now)] else ss
    case Validate(token, check, refresh) =>
      var i := Find(ss, token);
      if i < |ss| && Active(ss[i].life, check) then ss[i := ss[i].(life := refresh)] else ss
    case Lookup(token, now) => ss
    case Sweep(readings) => if |readings| == |ss| then Kept(ss, readings) else ss
  }

  function ReplyTo(max: nat, ss: seq<Session>, op: Op): Reply {
    match op
    case Login(owner, token, now) => if |ss| < max then Admitted else Refused
    case Validate(token, check, refresh) =>
      var i := Find(ss, token);
      Valid(i < |ss| && Active(ss[i].life, check))
    case Lookup(token, now) =>
      var i := Find(ss, token);
      Owner(if i < |ss| && Active(ss[i].life, now) then Some(ss[i].owner) else None)
    case Sweep(readings) => Swept
  }

  function Run(max: nat, ss: seq<Session>, ops: seq<Op>): seq<Session>
    decreases ops
  {
    if ops == [] then ss else Run(max, After(max, ss, ops[0]), ops[1..])
  }

  function Replies(max: nat, ss: seq<Session>, ops: seq<Op>): (rs: seq<Reply>)
    ensures |rs| == |ops|
    decreases ops
  {
    if ops == [] then [] else [ReplyTo(max, ss, ops[0])] + Replies(max, After(max, ss, ops[0]), ops[1..])
  }

  // ------------------------------------------------------------ the clock

  function Readings(op: Op): seq<Stamp> {
    match op
    case Login(_, _, now) => [now]
    case Validate(_, check, refresh) => [check, refresh]
    case Lookup(_, now) => [now]
    case Sweep(readings) => readings
  }

  predicate Nondecreasing(xs: seq<Stamp>) {
    forall i, j :: 0 <= i < j < |xs| ==> xs[i] <= xs[j]
  }

  /** The clock after its readings `xs`, starting from `clock`. */
  function Latest(clock: Stamp, xs: seq<Stamp>): Stamp {
    if xs == [] then clock else xs[|xs| - 1]
  }

  /** Every reading of `ops`, in the order the operations make them, is at least the one before. */
  predicate Clocked(clock: Stamp, ops: seq<Op>)
    decreases ops
  {
    ops == [] ||
    (&& Nondecreasing([clock] + Readings(ops[0]))
     && Clocked(Latest(clock, Readings(ops[0])), ops[1..]))
  }

  // ------------------------------------------------------------ small facts

  /** What the order of the readings means for each operation. */
  lemma ReadingsInOrder(clock: Stamp, op: Op)
    requires Nondecreasing([clock] + Readings(op))
    ensures clock <= Latest(clock, Readings(op))
    ensures op.Login? ==> clock <= op.now == Latest(clock, Readings(op))
    ensures op.Lookup? ==> clock <= op.now == Latest(clock, Readings(op))
    ensures op.Validate? ==> clock <= op.check <= op.refresh == Latest(clock, Readings(op))
    ensures op.Sweep? ==> forall p :: 0 <= p < |op.readings| ==> clock <= op.readings[p] <= Latest(clock, op.readings)
  {
    var all := [clock] + Readings(op);
    assert all[0] <= all[|all| - 1] == Latest(clock, Readings(op));
    match op
    case Validate(_, check, refresh) => assert all[1] == check && all[2] == refresh;
    case Sweep(readings) => assert forall p :: 0 <= p < |readings| ==> all[p + 1] == readings[p];
    case _ =>
  }

  lemma {:induction false} RunAppend(max: nat, ss: seq<Session>, a: seq<Op>, b: seq<Op>)
    ensures Run(max, ss, a + b) == Run(max, Run(max, ss, a), b)
    ensures Replies(max, ss, a + b) == Replies(max, ss, a) + Replies(max, Run(max, ss, a), b)
    decreases a
  {
    if a == [] {
      assert a + b == b;
    } else {
      assert (a + b)[0] == a[0] && (a + b)[1..] == a[1..] + b;
      RunAppend(max, After(max, ss, a[0]), a[1..], b);
    }
  }

  /** Positions of the kept sessions, in the sequence before the sweep. */
  function KeptAt(ss: seq<Session>, readings: seq<Stamp>, from: nat): (at: seq<nat>)
    requires |ss| == |readings| && from <= |ss|
    decreases |ss| - from
  {
    if from == |ss| then []
    else (if Active(ss[from].life, readings[from]) then [from] else []) + KeptAt(ss, readings, from + 1)
  }

  lemma KeptFrom(ss: seq<Session>, readings: seq<Stamp>, from: nat)
    requires from < |ss| == |readings|
    ensures Kept(ss[from..], readings[from..])
         == (if Active(ss[from].life, readings[from]) then [ss[from]] else [])
            + Kept(ss[from + 1..], readings[from + 1..])
  {
    assert ss[from..][1..] == ss[from + 1..] && readings[from..][1..] == readings[from + 1..];
  }

  lemma {:induction false} KeptAtOrdered(ss: seq<Session>, readings: seq<Stamp>, from: nat)
    requires |ss| == |readings| && from <= |ss|
    ensures var at := KeptAt(ss, readings, from);
            && (forall i :: 0 <= i < |at| ==> from <= at[i] < |ss|)
            && (forall i, j :: 0 <= i < j < |at| ==> at[i] < at[j])
            && (forall p :: from <= p < |ss| ==> (p in at <==> Active(ss[p].life, readings[p])))
    decreases |ss| - from
  {
    if from < |ss| { KeptAtOrdered(ss, readings, from + 1); }
  }

  lemma {:induction false} KeptAtLocates(ss: seq<Session>, readings: seq<Stamp>, from: nat)
    requires |ss| == |readings| && from <= |ss|
    ensures |Kept(ss[from..], readings[from..])| == |KeptAt(ss, readings, from)|
    ensures forall i :: 0 <= i < |KeptAt(ss, readings, from)| ==>
              && KeptAt(ss, readings, from)[i] < |ss|
              && Kept(ss[from..], readings[from..])[i] == ss[KeptAt(ss, readings, from)[i]]
    decreases |ss| - from
  {
    if from < |ss| {
      KeptAtLocates(ss, readings, from + 1);
      KeptFrom(ss, readings, from);
    }
  }

  /** The sweep keeps a subsequence in the original order: exactly the sessions active at their own
      reading, so with a clock that does not run backwards every session active at the last
      reading stays and every session expired at the first reading goes. */
  lemma SweepKeepsActive(ss: seq<Session>, readings: seq<Stamp>)
    requires |ss| == |readings|
    ensures var at, r := KeptAt(ss, readings, 0), Kept(ss, readings);
            && |r| == |at|
            && (forall i :: 0 <= i < |at| ==> at[i] < |ss| && r[i] == ss[at[i]])
            && (forall i, j :: 0 <= i < j < |at| ==> at[i] < at[j])
            && (forall p :: 0 <= p < |ss| ==> (p in at <==> Active(ss[p].life, readings[p])))
    ensures ss != [] && Nondecreasing(readings) && (forall p :: 0 <= p < |ss| ==> ss[p].life <= readings[0]) ==>
              forall p :: 0 <= p < |ss| ==>
                && (Active(ss[p].life, readings[|ss| - 1]) ==> p in KeptAt(ss, readings, 0))
                && (!Active(ss[p].life, readings[0]) ==> p !in KeptAt(ss, readings, 0))
  {
    KeptAtOrdered(ss, readings, 0);
    KeptAtLocates(ss, readings, 0);
    assert ss[0..] == ss && readings[0..] == readings;
    if ss != [] && Nondecreasing(readings) && forall p :: 0 <= p < |ss| ==> ss[p].life <= readings[0] {
      forall p | 0 <= p < |ss|
        ensures Active(ss[p].life, readings[|ss| - 1]) ==> p in KeptAt(ss, readings, 0)
        ensures !Active(ss[p].life, readings[0]) ==> p !in KeptAt(ss, readings, 0)
      {
        if !Active(ss[p].life, readings[p]) { ExpiredLater(ss[p].life, readings[p], readings[|ss| - 1]); }
        if !Active(ss[p].life, readings[0]) { ExpiredLater(ss[p].life, readings[0], readings[p]); }
      }
    }
  }

  lemma ActiveIsFound(ss: seq<Session>, readings: seq<Stamp>, p: nat)
    requires p < |ss| == |readings| && Active(ss[p].life, readings[p])
    ensures Find(Kept(ss, readings), ss[p].token) < |Kept(ss, readings)|
  {
    SweepKeepsActive(ss, readings);
    var at, r := KeptAt(ss, readings, 0), Kept(ss, readings);
    var i :| 0 <= i < |at| && at[i] == p;
    assert r[i].token == ss[p].token;
  }
}
