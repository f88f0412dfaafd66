/**
 The Janus response buffer as a transition system over values.

 Every event is one strand-atomic step of janus_response_buffer.cpp. A call of
 wait_for_transaction that suspends is identified by its position in `calls`; the entry
 stays there after the call has resumed, so a position is never used twice. The gap
 between "one of the two timers completed" (`outcome`) and "the coroutine resumed"
 (`resumed`) is kept: pushes and further calls may land in it.
 */
module ResponseBufferModel {
  import opened Wrappers
  import opened Sequences

  datatype Message = Message(eventType: string, transaction: string, body: string)

  // Which of the two timers of a suspended call completed first.
  datatype Outcome = Undecided | Signalled | TimedOut

  datatype Call = Call(key: string, deadline: int, outcome: Outcome, result: Option<Message>, resumed: bool)

  datatype State = State(now: int, messages: seq<Message>, waiters: map<string, nat>, calls: seq<Call>)

  datatype Event =
    | Push(msg: Message)
    | Wait(key: string, timeout: int)
    | Timeout(call: nat)
    | Resume(call: nat)
    | Tick(duration: nat)

  datatype Observation =
    | Handed(msg: Message)                           // a message left the buffer for a call
    | Answered(answer: Option<Message>)              // a call returned without suspending
    | Resumed(call: nat, answer: Option<Message>)    // a suspended call returned
    | Dropped(call: nat, msg: Message)               // a result was discarded by its call

  datatype Reaction = Reaction(state: State, seen: seq<Observation>)

  const INITIAL := State(0, [], map[], [])

  /** Position of the first message for `key`, or |ms| when there is none. */
  function IndexFor(ms: seq<Message>, key: string): (i: nat)
    ensures i <= |ms|
    ensures forall j :: 0 <= j < i ==> ms[j].transaction != key
    ensures i < |ms| ==> ms[i].transaction == key
  {
    if ms == [] then 0
    else if ms[0].transaction == key then 0
    else 1 + IndexFor(ms[1..], key)
  }

  // A registered waiter always refers to a call (see Inv), so the bound only makes the step total.
  function PushStep(s: State, msg: Message): Reaction {
    if msg.transaction in s.waiters && s.waiters[msg.transaction] < |s.calls| then
      var c := s.waiters[msg.transaction];
      var call := s.calls[c];
      // Cancelling the signal decides the call only if its timeout has not won already.
      var outcome := if call.outcome == Undecided then Signalled else call.outcome;
      Reaction(s.(calls := s.calls[c := call.(result := Some(msg), outcome := outcome)],
                  waiters := s.waiters - {msg.transaction}),
               [Handed(msg)])
    else
      Reaction(s.(messages := s.messages + [msg]), [])
  }

  function WaitStep(s: State, key: string, timeout: int): Reaction {
    var i := IndexFor(s.messages, key);
    if i < |s.messages| then
      Reaction(s.(messages := s.messages[..i] + s.messages[i + 1..]),
               [Handed(s.messages[i]), Answered(Some(s.messages[i]))])
    else if key in s.waiters then
      Reaction(s, [Answered(None)])
    else
      // A timer armed with a negative duration expires at once.
      var call := Call(key, s.now + if timeout < 0 then 0 else timeout, Undecided, None, false);
      Reaction(s.(waiters := s.waiters[key := |s.calls|], calls := s.calls + [call]), [])
  }

  predicate CanTimeOut(s: State, c: nat) {
    c < |s.calls| && !s.calls[c].resumed && s.calls[c].outcome == Undecided && s.calls[c].deadline <= s.now
  }

  predicate CanResume(s: State, c: nat) {
    c < |s.calls| && !s.calls[c].resumed && s.calls[c].outcome != Undecided
  }

  function ResumeStep(s: State, c: nat): Reaction
    requires CanResume(s, c)
  {
    var call := s.calls[c];
    // Erases whatever is registered under the key, not necessarily this call's waiter.
    var after := s.(waiters := s.waiters - {call.key}, calls := s.calls[c := call.(resumed := true)]);
    if call.outcome == Signalled then
      Reaction(after, [Resumed(c, call.result)])
    else
      Reaction(after, [Resumed(c, None)] + if call.result.Some? then [Dropped(c, call.result.value)] else [])
  }

  /** An event that cannot happen in `s` leaves `s` unchanged. */
  function Step(s: State, e: Event): Reaction {
    match e
    case Push(msg) => PushStep(s, msg)
    case Wait(key, timeout) => WaitStep(s, key, timeout)
    case Timeout(c) =>
      if CanTimeOut(s, c) then Reaction(s.(calls := s.calls[c := s.calls[c].(outcome := TimedOut)]), [])
      else Reaction(s, [])
    case Resume(c) => if CanResume(s, c) then ResumeStep(s, c) else Reaction(s, [])
    case Tick(d) => Reaction(s.(now := s.now + d), [])
  }

  function After(s: State, es: seq<Event>): State
    decreases es
  {
    if es == [] then s else After(Step(s, es[0]).state, es[1..])
  }

  function Trace(s: State, es: seq<Event>): seq<Observation>
    decreases es
  {
    if es == [] then [] else Step(s, es[0]).seen + Trace(Step(s, es[0]).state, es[1..])
  }

  // ---------------------------------------------------------------- invariants

  ghost predicate WaiterOk(s: State, key: string)
    requires key in s.waiters
  {
    var c := s.waiters[key];
    && c < |s.calls|
    && s.calls[c].key == key
    && !s.calls[c].resumed
    && s.calls[c].result == None
  }

  ghost predicate CallOk(call: Call, now: int) {
    && (call.outcome == Signalled ==> call.result.Some?)
    && (call.result.Some? ==> call.outcome != Undecided && call.result.value.transaction == call.key)
    && (call.resumed ==> call.outcome != Undecided)
    && (call.outcome == TimedOut ==> call.deadline <= now)
  }

  /** No buffered message has a registered waiter, and every registered waiter is keyed by the
      transaction its own, still suspended and still empty-handed call waits for. */
  ghost predicate Inv(s: State) {
    && (forall key :: key in s.waiters ==> WaiterOk(s, key))
    && (forall i :: 0 <= i < |s.messages| ==> s.messages[i].transaction !in s.waiters)
    && (forall c :: 0 <= c < |s.calls| ==> CallOk(s.calls[c], s.now))
  }

  lemma PushKeepsInv(s: State, msg: Message)
    requires Inv(s)
    ensures Inv(PushStep(s, msg).state)
  {
    var s' := PushStep(s, msg).state;
    if msg.transaction in s.waiters { assert WaiterOk(s, msg.transaction); }
    forall key | key in s'.waiters ensures WaiterOk(s', key) { assert WaiterOk(s, key); }
  }

  lemma WaitKeepsInv(s: State, key: string, timeout: int)
    requires Inv(s)
    ensures Inv(WaitStep(s, key, timeout).state)
  {
    var s' := WaitStep(s, key, timeout).state;
    forall k | k in s'.waiters ensures WaiterOk(s', k) {
      if k in s.waiters { assert WaiterOk(s, k); }
    }
  }

  lemma ResumeKeepsInv(s: State, c: nat)
    requires Inv(s) && CanResume(s, c)
    ensures Inv(ResumeStep(s, c).state)
  {
    var s' := ResumeStep(s, c).state;
    forall key | key in s'.waiters ensures WaiterOk(s', key) { assert WaiterOk(s, key); }
  }

  lemma StepKeepsInv(s: State, e: Event)
    requires Inv(s)
    ensures Inv(Step(s, e).state)
  {
    match e
    case Push(msg) => PushKeepsInv(s, msg);
    case Wait(key, timeout) => WaitKeepsInv(s, key, timeout);
    case Resume(c) => if CanResume(s, c) { ResumeKeepsInv(s, c); }
    case _ =>
      var s' := Step(s, e).state;
      forall key | key in s'.waiters ensures WaiterOk(s', key) { assert WaiterOk(s, key); }
  }

  /** Exclusion: the invariant holds after every run, however transactions are reused. */
  lemma {:induction false} RunKeepsInv(s: State, es: seq<Event>)
    requires Inv(s)
    ensures Inv(After(s, es))
    decreases es
  {
    if es != [] {
      StepKeepsInv(s, es[0]);
      RunKeepsInv(Step(s, es[0]).state, es[1..]);
    }
  }

  lemma {:induction false} AfterAppend(s: State, es: seq<Event>, fs: seq<Event>)
    ensures After(s, es + fs) == After(After(s, es), fs)
    decreases es
  {
    if es == [] {
      assert es + fs == fs;
    } else {
      assert (es + fs)[0] == es[0] && (es + fs)[1..] == es[1..] + fs;
      AfterAppend(Step(s, es[0]).state, es[1..], fs);
    }
  }

  // ---------------------------------------------------------------- per-transaction order

  /** The messages of `ms` for one transaction, in order. */
  function For(ms: seq<Message>, key: string): seq<Message> {
    if ms == [] then []
    else (if ms[0].transaction == key then [ms[0]] else []) + For(ms[1..], key)
  }

  function Pushed(es: seq<Event>): seq<Message> {
    if es == [] then []
    else (if es[0].Push? then [es[0].msg] else []) + Pushed(es[1..])
  }

  function HandedOut(os: seq<Observation>): seq<Message> {
    if os == [] then []
    else (if os[0].Handed? then [os[0].msg] else []) + HandedOut(os[1..])
  }

  lemma {:induction false} ForAppend(a: seq<Message>, b: seq<Message>, key: string)
    ensures For(a + b, key) == For(a, key) + For(b, key)
  {
    if a == [] {
      assert a + b == b;
    } else {
      assert (a + b)[0] == a[0] && (a + b)[1..] == a[1..] + b;
      ForAppend(a[1..], b, key);
    }
  }

  lemma {:induction false} HandedOutAppend(a: seq<Observation>, b: seq<Observation>)
    ensures HandedOut(a + b) == HandedOut(a) + HandedOut(b)
  {
    if a == [] {
      assert a + b == b;
    } else {
      assert (a + b)[0] == a[0] && (a + b)[1..] == a[1..] + b;
      HandedOutAppend(a[1..], b);
    }
  }

  lemma {:induction false} ForNone(ms: seq<Message>, key: string)
    requires forall i :: 0 <= i < |ms| ==> ms[i].transaction != key
    ensures For(ms, key) == []
  {
    if ms != [] { ForNone(ms[1..], key); }
  }

  /** Removing the first message for `key` takes the head of that transaction's order and
      leaves every other transaction's order alone. */
  lemma ForRemoveFirst(ms: seq<Message>, key: string, other: string)
    requires IndexFor(ms, key) < |ms|
    ensures var i := IndexFor(ms, key);
            For(ms, other) == For([ms[i]], other) + For(ms[..i] + ms[i + 1..], other)
  {
    var i := IndexFor(ms, key);
    assert ms == ms[..i] + ([ms[i]] + ms[i + 1..]);
    ForAppend(ms[..i], [ms[i]] + ms[i + 1..], other);
    ForAppend([ms[i]], ms[i + 1..], other);
    ForAppend(ms[..i], ms[i + 1..], other);
    if other == key { ForNone(ms[..i], key); }
  }

  lemma HandedOutOfPair(a: Observation, b: Observation)
    ensures HandedOut([a]) == if a.Handed? then [a.msg] else []
    ensures HandedOut([a, b]) == HandedOut([a]) + HandedOut([b])
  {
    assert [a][1..] == [] && [a, b][1..] == [b];
  }

  lemma PushOrder(s: State, msg: Message, key: string)
    requires Inv(s)
    ensures For(s.messages, key) + For([msg], key)
         == For(HandedOut(PushStep(s, msg).seen), key) + For(PushStep(s, msg).state.messages, key)
  {
    if msg.transaction in s.waiters {
      assert WaiterOk(s, msg.transaction);
      HandedOutOfPair(Handed(msg), Handed(msg));
      if msg.transaction == key { ForNone(s.messages, key); }
    } else {
      ForAppend(s.messages, [msg], key);
    }
  }

  lemma WaitOrder(s: State, k: string, timeout: int, key: string)
    ensures var r := WaitStep(s, k, timeout);
            For(s.messages, key) == For(HandedOut(r.seen), key) + For(r.state.messages, key)
  {
    var i := IndexFor(s.messages, k);
    if i < |s.messages| {
      HandedOutOfPair(Handed(s.messages[i]), Answered(Some(s.messages[i])));
      HandedOutOfPair(Answered(Some(s.messages[i])), Answered(None));
      ForRemoveFirst(s.messages, k, key);
    } else {
      HandedOutOfPair(Answered(None), Answered(None));
    }
  }

  lemma ResumeHandsNothing(s: State, c: nat)
    requires CanResume(s, c)
    ensures HandedOut(ResumeStep(s, c).seen) == []
  {
    var seen := ResumeStep(s, c).seen;
    HandedOutOfPair(seen[0], seen[0]);
    if |seen| == 2 {
      assert seen == [seen[0], seen[1]];
      HandedOutOfPair(seen[0], seen[1]);
      HandedOutOfPair(seen[1], seen[1]);
    }
  }

  lemma StepOrder(s: State, e: Event, key: string)
    requires Inv(s)
    ensures For(s.messages, key) + For(Pushed([e]), key)
         == For(HandedOut(Step(s, e).seen), key) + For(Step(s, e).state.messages, key)
  {
    match e
    case Push(msg) =>
      assert Pushed([e]) == [msg];
      PushOrder(s, msg, key);
    case Wait(k, timeout) => WaitOrder(s, k, timeout, key);
    case Timeout(c) =>
    case Resume(c) => if CanResume(s, c) { ResumeHandsNothing(s, c); }
    case Tick(d) =>
  }

  /** Per-transaction first-in first-out, from any state a run can be in. */
  lemma {:induction false} RunOrder(s: State, es: seq<Event>, key: string)
    requires Inv(s)
    ensures For(s.messages, key) + For(Pushed(es), key)
         == For(HandedOut(Trace(s, es)), key) + For(After(s, es).messages, key)
    decreases es
  {
    if es != [] {
      var r := Step(s, es[0]);
      StepKeepsInv(s, es[0]);
      StepOrder(s, es[0], key);
      RunOrder(r.state, es[1..], key);
      FirstAndRest(s, es, key);
      Regroup(For(s.messages, key), For(Pushed([es[0]]), key), For(Pushed(es[1..]), key),
              For(HandedOut(r.seen), key), For(r.state.messages, key),
              For(HandedOut(Trace(r.state, es[1..])), key), For(After(s, es).messages, key));
    }
  }

  lemma FirstAndRest(s: State, es: seq<Event>, key: string)
    requires es != []
    ensures For(Pushed(es), key) == For(Pushed([es[0]]), key) + For(Pushed(es[1..]), key)
    ensures var r := Step(s, es[0]);
            For(HandedOut(Trace(s, es)), key)
            == For(HandedOut(r.seen), key) + For(HandedOut(Trace(r.state, es[1..])), key)
  {
    var r := Step(s, es[0]);
    assert Pushed(es) == Pushed([es[0]]) + Pushed(es[1..]);
    ForAppend(Pushed([es[0]]), Pushed(es[1..]), key);
    HandedOutAppend(r.seen, Trace(r.state, es[1..]));
    ForAppend(HandedOut(r.seen), HandedOut(Trace(r.state, es[1..])), key);
  }

  /** In every run, and for every transaction, the messages pushed for it are, in order, those
      handed out for it followed by those still buffered for it. */
  lemma PerTransactionFifo(es: seq<Event>, key: string)
    ensures For(Pushed(es), key)
         == For(HandedOut(Trace(INITIAL, es)), key) + For(After(INITIAL, es).messages, key)
  {
    RunOrder(INITIAL, es, key);
  }
}
