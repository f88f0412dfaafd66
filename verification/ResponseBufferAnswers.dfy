/** What each call of the response buffer gives back, and what becomes of a message that comes too late. */
module ResponseBufferAnswers {
  import opened Wrappers
  import opened Sequences
  import opened ResponseBufferModel
  import opened ResponseBufferAccounting
  import opened ResponseBufferDelivery

  // ------------------------------------------------------------ calls that return at once

  /** What a call does at once: it takes the oldest buffered message of its own transaction, if there is
      one; otherwise it is refused exactly if a waiter is registered. Other transactions keep theirs. */
  lemma WaitAnswersOwnTransaction(s: State, key: string, timeout: int)
    ensures var r, mine := Step(s, Wait(key, timeout)), For(s.messages, key);
            && (mine != [] ==>
                  && mine[0].transaction == key
                  && r.seen == [Handed(mine[0]), Answered(Some(mine[0]))]
                  && For(r.state.messages, key) == mine[1..])
            && (mine == [] ==>
                  && r.seen == (if key in s.waiters then [Answered(None)] else [])
                  && r.state.messages == s.messages)
            && forall other :: other != key ==> For(r.state.messages, other) == For(s.messages, other)
  {
    var i := IndexFor(s.messages, key);
    if i < |s.messages| {
      forall other ensures For(s.messages, other)
                        == For([s.messages[i]], other) + For(s.messages[..i] + s.messages[i + 1..], other)
      {
        ForRemoveFirst(s.messages, key, other);
      }
      assert forall other :: For([s.messages[i]], other) == if other == key then [s.messages[i]] else [];
    } else {
      ForNone(s.messages, key);
    }
  }

  // ------------------------------------------------------------ what the waits on a transaction return

  /** The message that an observation gives to a wait on `key`; `waits` says that the event that made it
      was itself a wait on `key`. */
  function GivenIn(o: Observation, calls: seq<Call>, waits: bool, key: string): seq<Message> {
    match o
    case Answered(Some(m)) => if waits then [m] else []
    case Resumed(c, Some(m)) => if c < |calls| && calls[c].key == key then [m] else []
    case _ => []
  }

  function GivenBy(s: State, e: Event, os: seq<Observation>, key: string): seq<Message> {
    if os == [] then []
    else GivenIn(os[0], s.calls, e.Wait? && e.key == key, key) + GivenBy(s, e, os[1..], key)
  }

  /** The messages that the calls waiting for `key` return during a run, at once or on their resume. */
  function Given(s: State, es: seq<Event>, key: string): seq<Message>
    decreases es
  {
    if es == [] then []
    else GivenBy(s, es[0], Step(s, es[0]).seen, key) + Given(Step(s, es[0]).state, es[1..], key)
  }

  /** The message in an observation is one of the transaction that its call waits for. */
  ghost predicate Fits(s: State, e: Event, o: Observation) {
    && (o.Answered? && o.answer.Some? ==> e.Wait? && o.answer.value.transaction == e.key)
    && (o.Resumed? && o.answer.Some? ==> o.call < |s.calls| && s.calls[o.call].key == o.answer.value.transaction)
  }

  lemma SeenFits(s: State, e: Event)
    requires Inv(s)
    ensures forall i :: 0 <= i < |Step(s, e).seen| ==> Fits(s, e, Step(s, e).seen[i])
  {
    if e.Resume? && CanResume(s, e.call) { assert CallOk(s.calls[e.call], s.now); }
  }

  lemma OneGives(s: State, e: Event, o: Observation, key: string, m: Message)
    requires Fits(s, e, o)
    ensures multiset(GivenIn(o, s.calls, e.Wait? && e.key == key, key))[m]
         == if m.transaction == key then ReturnedBy(o, m) else 0
  {
  }

  lemma {:induction false} SeenGives(s: State, e: Event, os: seq<Observation>, key: string, m: Message)
    requires forall i :: 0 <= i < |os| ==> Fits(s, e, os[i])
    ensures multiset(GivenBy(s, e, os, key))[m] == if m.transaction == key then Returned(os, m) else 0
  {
    if os != [] {
      OneGives(s, e, os[0], key, m);
      SeenGives(s, e, os[1..], key, m);
    }
  }

  lemma {:induction false} RunGives(s: State, es: seq<Event>, key: string, m: Message)
    requires Inv(s)
    ensures multiset(Given(s, es, key))[m] == if m.transaction == key then Returned(Trace(s, es), m) else 0
    decreases es
  {
    if es != [] {
      var r := Step(s, es[0]);
      StepKeepsInv(s, es[0]);
      SeenFits(s, es[0]);
      SeenGives(s, es[0], r.seen, key, m);
      RunGives(r.state, es[1..], key, m);
      CountsAppend(r.seen, Trace(r.state, es[1..]), m);
    }
  }

  lemma {:induction false} CountWithinTransaction(ms: seq<Message>, m: Message)
    ensures multiset(For(ms, m.transaction))[m] == multiset(ms)[m]
  {
    if ms != [] {
      CountWithinTransaction(ms[1..], m);
      assert ms == [ms[0]] + ms[1..];
    }
  }

  /** In every run, what the waits on a transaction return are the messages handed out for it, except those
      still held for a call that has yet to resume and those dropped; no other message reaches them. */
  lemma AnswersBelongToTransaction(es: seq<Event>, key: string, m: Message)
    ensures var os, given := Trace(INITIAL, es), multiset(Given(INITIAL, es, key))[m];
            if m.transaction == key then
              given + Held(After(INITIAL, es).calls, m) + ResponseBufferAccounting.Dropped(os, m)
                == multiset(HandedOut(os))[m]
            else given == 0
  {
    RunGives(INITIAL, es, key, m);
    if m.transaction == key {
      ExactAccounting(es, m);
      PerTransactionFifo(es, key);
      CountWithinTransaction(Pushed(es), m);
      CountWithinTransaction(HandedOut(Trace(INITIAL, es)), m);
      CountWithinTransaction(After(INITIAL, es).messages, m);
    }
  }

  // ------------------------------------------------------------ messages that come too late

  /** The message that an event pushes to the registration of call `c`, if any. */
  function PushedBy(s: State, e: Event, c: nat): seq<Message> {
    if e.Push? && e.msg.transaction in s.waiters && s.waiters[e.msg.transaction] == c then [e.msg] else []
  }

  function PushedTo(s: State, es: seq<Event>, c: nat): seq<Message>
    decreases es
  {
    if es == [] then [] else PushedBy(s, es[0], c) + PushedTo(Step(s, es[0]).state, es[1..], c)
  }

  function ResultOf(s: State, c: nat): (r: seq<Message>)
    requires c < |s.calls|
    ensures |r| <= 1
  {
    if s.calls[c].result.Some? then [s.calls[c].result.value] else []
  }

  lemma StepStoresPushed(s: State, e: Event, c: nat)
    requires Inv(s) && c < |s.calls|
    ensures c < |Step(s, e).state.calls|
    ensures ResultOf(Step(s, e).state, c) == ResultOf(s, c) + PushedBy(s, e, c)
  {
    if e.Push? && e.msg.transaction in s.waiters { assert WaiterOk(s, e.msg.transaction); }
  }

  /** A call's result is what was pushed to its registration, so that is one message at most. */
  lemma {:induction false} ResultIsPushed(s: State, es: seq<Event>, c: nat)
    requires Inv(s) && c < |s.calls|
    ensures c < |After(s, es).calls|
    ensures ResultOf(After(s, es), c) == ResultOf(s, c) + PushedTo(s, es, c)
    decreases es
  {
    if es != [] {
      StepKeepsInv(s, es[0]);
      StepStoresPushed(s, es[0], c);
      ResultIsPushed(Step(s, es[0]).state, es[1..], c);
      Assoc(ResultOf(s, c), PushedBy(s, es[0], c), PushedTo(Step(s, es[0]).state, es[1..], c));
    }
  }

  lemma {:induction false} TimedOutStays(s: State, es: seq<Event>, c: nat)
    requires c < |s.calls| && s.calls[c].outcome == TimedOut
    ensures c < |After(s, es).calls| && After(s, es).calls[c].outcome == TimedOut
    decreases es
  {
    if es != [] { TimedOutStays(Step(s, es[0]).state, es[1..], c); }
  }

  /** A timeout that has won stays won: whatever follows, the call answers nothing, exactly once, when it
      resumes, and it then drops what was pushed to its registration after the timeout, one message at
      most. */
  lemma TimeoutIsFinal(s: State, c: nat, fs: seq<Event>)
    requires Inv(s) && CanTimeOut(s, c)
    ensures var run, late := [Timeout(c)] + fs, PushedTo(Step(s, Timeout(c)).state, fs, c);
            && c < |After(s, run).calls| && |late| <= 1
            && Answers(Trace(s, run), c) == (if After(s, run).calls[c].resumed then [None] else [])
            && Drops(Trace(s, run), c) == if After(s, run).calls[c].resumed then late else []
  {
    var s1, run := Step(s, Timeout(c)).state, [Timeout(c)] + fs;
    assert CallOk(s.calls[c], s.now);
    StepKeepsInv(s, Timeout(c));
    assert run[1..] == fs;
    AfterCons(s, run);
    TimedOutStays(s1, fs, c);
    ResultIsPushed(s1, fs, c);
    assert ResultOf(After(s, run), c) == [] + PushedTo(s1, fs, c);
    RunAnswers(s, run, c);
    assert Drops(Trace(s, run), c) == FinalDrops(After(s, run), c);
  }

  lemma StepKeepsTimedOutEntry(s: State, e: Event, c: nat)
    requires Inv(s) && Attached(s, c) && s.calls[c].outcome == TimedOut && e != Resume(c)
    requires e.Push? ==> e.msg.transaction != s.calls[c].key
    ensures Attached(Step(s, e).state, c) && Step(s, e).state.calls[c] == s.calls[c]
  {
    match e
    case Push(msg) =>
      if msg.transaction in s.waiters { assert WaiterOk(s, msg.transaction); }
    case Wait(k, timeout) =>
      var i := IndexFor(s.messages, k);
      assert i < |s.messages| ==> s.messages[i].transaction !in s.waiters;
    case Timeout(other) =>
    case Resume(other) =>
      assert CanResume(s, other) ==> s.calls[other].key != s.calls[c].key;
    case Tick(d) =>
  }

  /** Neither a message for the transaction nor the resume of call `c`. */
  predicate Idle(es: seq<Event>, key: string, c: nat) {
    forall i :: 0 <= i < |es| ==> es[i] != Resume(c) && (es[i].Push? ==> es[i].msg.transaction != key)
  }

  lemma {:induction false} TimedOutStaysRegistered(s: State, es: seq<Event>, c: nat)
    requires Inv(s) && Attached(s, c) && s.calls[c].outcome == TimedOut && Idle(es, s.calls[c].key, c)
    ensures Attached(After(s, es), c) && After(s, es).calls[c] == s.calls[c]
    decreases es
  {
    if es != [] {
      StepKeepsInv(s, es[0]);
      StepKeepsTimedOutEntry(s, es[0], c);
      forall i | 0 <= i < |es[1..]|
        ensures es[1..][i] != Resume(c) && (es[1..][i].Push? ==> es[1..][i].msg.transaction != s.calls[c].key)
      {
        assert es[1..][i] == es[i + 1];
      }
      TimedOutStaysRegistered(Step(s, es[0]).state, es[1..], c);
    }
  }

  /** A timeout does not unregister its call: the next message for the transaction, if it comes before the
      call has resumed, goes to the call and is lost; a later call does not find it in the buffer. */
  lemma LateMessageIsDropped(s: State, c: nat, es: seq<Event>, m: Message, fs: seq<Event>)
    requires Inv(s) && Attached(s, c) && CanTimeOut(s, c)
    requires Idle(es, s.calls[c].key, c) && m.transaction == s.calls[c].key
    ensures var run := [Timeout(c)] + Story(es, m, fs, c);
            Answers(Trace(s, run), c) == [None] && Drops(Trace(s, run), c) == [m]
  {
    var s1 := Step(s, Timeout(c)).state;
    assert CallOk(s.calls[c], s.now);
    StepKeepsInv(s, Timeout(c));
    LatePushIsKept(s1, c, es, m, fs);
    TimeoutIsFinal(s, c, Story(es, m, fs, c));
    AfterCons(s, [Timeout(c)] + Story(es, m, fs, c));
    assert ([Timeout(c)] + Story(es, m, fs, c))[1..] == Story(es, m, fs, c);
  }

  lemma LatePushIsKept(s1: State, c: nat, es: seq<Event>, m: Message, fs: seq<Event>)
    requires Inv(s1) && Attached(s1, c) && s1.calls[c].outcome == TimedOut && s1.calls[c].result == None
    requires Idle(es, s1.calls[c].key, c) && m.transaction == s1.calls[c].key
    ensures var s5 := After(s1, Story(es, m, fs, c));
            c < |s5.calls| && s5.calls[c].resumed && PushedTo(s1, Story(es, m, fs, c), c) == [m]
  {
    var s2 := After(s1, es);
    var s3 := Step(s2, Push(m)).state;
    TimedOutStaysRegistered(s1, es, c);
    RunKeepsInv(s1, es);
    StepKeepsInv(s2, Push(m));
    TimedOutStays(s3, fs, c);
    ResultIsPushed(s3, fs, c);
    assert ResultOf(After(s3, fs), c) == [m];
    StoryEnds(s1, es, m, fs, c);
    ResultIsPushed(s1, Story(es, m, fs, c), c);
  }

  lemma StoryEnds(s1: State, es: seq<Event>, m: Message, fs: seq<Event>, c: nat)
    ensures After(s1, Story(es, m, fs, c))
         == Step(After(Step(After(s1, es), Push(m)).state, fs), Resume(c)).state
  {
    var s2 := After(s1, es);
    var s4 := After(Step(s2, Push(m)).state, fs);
    AfterOne(s2, Push(m));
    AfterAppend(s1, es, [Push(m)]);
    AfterAppend(s1, es + [Push(m)], fs);
    AfterOne(s4, Resume(c));
    AfterAppend(s1, es + [Push(m)] + fs, [Resume(c)]);
  }
}
