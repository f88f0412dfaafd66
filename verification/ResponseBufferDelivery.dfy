/** Who receives the next message for a transaction, with timers that may fire late. */
module ResponseBufferDelivery {
  import opened Wrappers
  import opened ResponseBufferModel
  import opened ResponseBufferAccounting

  /** A call made now suspends: nothing is buffered for `key` and no waiter is registered. */
  predicate Suspends(s: State, key: string) {
    IndexFor(s.messages, key) == |s.messages| && key !in s.waiters
  }

  /** No earlier call on `key` is still suspended. */
  predicate NoneSuspended(s: State, key: string) {
    forall i :: 0 <= i < |s.calls| && s.calls[i].key == key ==> s.calls[i].resumed
  }

  /** Call `c` is the registered waiter of its transaction and nobody else is suspended on it. */
  ghost predicate Attached(s: State, c: nat) {
    && c < |s.calls|
    && s.calls[c].key in s.waiters
    && s.waiters[s.calls[c].key] == c
    && forall i :: 0 <= i < |s.calls| && i != c && s.calls[i].key == s.calls[c].key ==> s.calls[i].resumed
  }

  /** No message for `key` is pushed and the timeout of call `c` does not win. */
  predicate Quiet(es: seq<Event>, key: string, c: nat) {
    forall i :: 0 <= i < |es| ==> es[i] != Timeout(c) && (es[i].Push? ==> es[i].msg.transaction != key)
  }

  lemma StepKeepsAttached(s: State, e: Event, c: nat)
    requires Inv(s) && Attached(s, c) && s.calls[c].outcome == Undecided
    requires Quiet([e], s.calls[c].key, c)
    ensures Attached(Step(s, e).state, c)
    ensures Step(s, e).state.calls[c] == s.calls[c]
  {
    assert e == [e][0];
    var key := s.calls[c].key;
    match e
    case Push(msg) =>
      if msg.transaction in s.waiters { assert WaiterOk(s, msg.transaction); }
    case Wait(k, timeout) =>
      var i := IndexFor(s.messages, k);
      assert i < |s.messages| ==> s.messages[i].transaction !in s.waiters;
    case Timeout(other) =>
    case Resume(other) =>
      assert CanResume(s, other) ==> s.calls[other].key != key;
    case Tick(d) =>
  }

  /** An un-timed-out call that registered with nobody else suspended on its transaction stays
      in the waiter map until the next message for that transaction. */
  lemma {:induction false} StaysRegistered(s: State, es: seq<Event>, c: nat)
    requires Inv(s) && Attached(s, c) && s.calls[c].outcome == Undecided
    requires Quiet(es, s.calls[c].key, c)
    ensures Attached(After(s, es), c)
    ensures After(s, es).calls[c] == s.calls[c]
    decreases es
  {
    if es != [] {
      assert es[0] == [es[0]][0];
      StepKeepsInv(s, es[0]);
      StepKeepsAttached(s, es[0], c);
      forall i | 0 <= i < |es[1..]|
        ensures es[1..][i] != Timeout(c) && (es[1..][i].Push? ==> es[1..][i].msg.transaction != s.calls[c].key)
      {
        assert es[1..][i] == es[i + 1];
      }
      StaysRegistered(Step(s, es[0]).state, es[1..], c);
    }
  }

  /** Once signalled, a call keeps its result, whatever happens before it resumes. */
  lemma {:induction false} SignalledKeepsResult(s: State, es: seq<Event>, c: nat)
    requires Inv(s) && c < |s.calls| && s.calls[c].outcome == Signalled
    ensures c < |After(s, es).calls|
    ensures After(s, es).calls[c].(resumed := false) == s.calls[c].(resumed := false)
    decreases es
  {
    if es != [] {
      var e := es[0];
      if e.Push? && e.msg.transaction in s.waiters {
        assert WaiterOk(s, e.msg.transaction);
        assert CallOk(s.calls[c], s.now);
      }
      StepKeepsInv(s, e);
      SignalledKeepsResult(Step(s, e).state, es[1..], c);
    }
  }

  /** The continuation `es`, then the next message for the transaction, then anything, by the end
      of which the call has had its turn to resume. */
  function Story(es: seq<Event>, m: Message, fs: seq<Event>, c: nat): seq<Event> {
    es + [Push(m)] + fs + [Resume(c)]
  }

  /** However the run goes on, if the next message for `key` is pushed before the timeout of the
      call made now wins, that call returns exactly that message. */
  ghost predicate DeliveryGuaranteed(s: State, key: string, timeout: int) {
    var s1, c := Step(s, Wait(key, timeout)).state, |s.calls|;
    forall es, m: Message, fs :: Quiet(es, key, c) && m.transaction == key ==>
      Answers(Trace(s1, Story(es, m, fs, c)), c) == [Some(m)]
  }

  /** A call that is registered and undecided after `es` returns exactly the message pushed then. */
  lemma RegisteredCallReturns(s1: State, c: nat, es: seq<Event>, m: Message, fs: seq<Event>)
    requires Inv(s1) && c < |s1.calls| && !s1.calls[c].resumed && c < |After(s1, es).calls|
    requires var s2 := After(s1, es);
             && s2.calls[c].outcome == Undecided
             && m.transaction in s2.waiters && s2.waiters[m.transaction] == c
    ensures Answers(Trace(s1, Story(es, m, fs, c)), c) == [Some(m)]
  {
    var whole := Story(es, m, fs, c);
    var s2 := After(s1, es);
    RunKeepsInv(s1, es);
    var s3 := Step(s2, Push(m)).state;
    StepKeepsInv(s2, Push(m));
    assert s3.calls[c].outcome == Signalled && s3.calls[c].result == Some(m);
    SignalledKeepsResult(s3, fs, c);
    RunKeepsInv(s3, fs);
    var s4 := After(s3, fs);
    var s5 := Step(s4, Resume(c)).state;
    assert s5.calls[c].resumed && s5.calls[c].outcome == Signalled && s5.calls[c].result == Some(m);
    AfterOne(s2, Push(m));
    AfterAppend(s1, es, [Push(m)]);
    AfterAppend(s1, es + [Push(m)], fs);
    AfterOne(s4, Resume(c));
    AfterAppend(s1, es + [Push(m)] + fs, [Resume(c)]);
    assert After(s1, whole) == s5;
    RunAnswers(s1, whole, c);
  }

  lemma NextMessageReturned(s1: State, c: nat, es: seq<Event>, m: Message, fs: seq<Event>)
    requires Inv(s1) && Attached(s1, c) && s1.calls[c].outcome == Undecided && !s1.calls[c].resumed
    requires Quiet(es, s1.calls[c].key, c) && m.transaction == s1.calls[c].key
    ensures Answers(Trace(s1, Story(es, m, fs, c)), c) == [Some(m)]
  {
    StaysRegistered(s1, es, c);
    RegisteredCallReturns(s1, c, es, m, fs);
  }

  lemma AfterOne(s: State, e: Event)
    ensures After(s, [e]) == Step(s, e).state
  {
    assert [e][1..] == [];
  }

  /** The earlier call `rival` resumes, having timed out if it was still undecided. */
  function RivalResumes(rival: nat): seq<Event> {
    [Timeout(rival), Resume(rival)]
  }

  lemma RivalErasesEntry(s: State, rival: nat, c: nat)
    requires rival < |s.calls| && !s.calls[rival].resumed && c < |s.calls| && c != rival
    requires s.calls[rival].outcome == Undecided ==> s.calls[rival].deadline <= s.now
    ensures var s' := After(s, RivalResumes(rival));
            s.calls[rival].key !in s'.waiters && c < |s'.calls| && s'.calls[c] == s.calls[c]
  {
    var s2 := Step(s, Timeout(rival)).state;
    AfterOne(s2, Resume(rival));
    AfterCons(s, RivalResumes(rival));
    assert RivalResumes(rival)[1..] == [Resume(rival)];
  }

  /** After a run that leaves call `c` as it is and its transaction without a waiter, the next message
      misses the call. */
  lemma UnregisteredCallMisses(s1: State, c: nat, es: seq<Event>, m: Message)
    requires Inv(s1) && c < |s1.calls| && s1.calls[c].outcome == Undecided && !s1.calls[c].resumed
    requires c < |After(s1, es).calls| && After(s1, es).calls[c] == s1.calls[c]
    requires m.transaction !in After(s1, es).waiters
    ensures Answers(Trace(s1, Story(es, m, [], c)), c) == []
  {
    var s4 := After(s1, es);
    var s5 := Step(s4, Push(m)).state;
    AfterOne(s4, Push(m));
    AfterAppend(s1, es, [Push(m)]);
    AfterOne(s5, Resume(c));
    var whole := Story(es, m, [], c);
    assert whole == (es + [Push(m)]) + [Resume(c)];
    AfterAppend(s1, es + [Push(m)], [Resume(c)]);
    assert After(s1, whole).calls[c] == s1.calls[c];
    RunAnswers(s1, whole, c);
  }

  /** Another suspended call on the same transaction can resume first, if timers may fire late; it erases
      the newcomer's registration, and the next message goes to the buffer instead. */
  lemma RivalStealsRegistration(s: State, key: string, timeout: int, rival: nat)
    requires Inv(s) && Suspends(s, key)
    requires rival < |s.calls| && s.calls[rival].key == key && !s.calls[rival].resumed
    ensures !DeliveryGuaranteed(s, key, timeout)
  {
    var s1, c := Step(s, Wait(key, timeout)).state, |s.calls|;
    StepKeepsInv(s, Wait(key, timeout));
    var late := Tick(if s1.calls[rival].deadline > s1.now then s1.calls[rival].deadline - s1.now else 0);
    var es, m := [late] + RivalResumes(rival), Message("event", key, "");
    assert es[1..] == RivalResumes(rival);
    AfterCons(s1, es);
    RivalErasesEntry(Step(s1, late).state, rival, c);
    UnregisteredCallMisses(s1, c, es, m);
    assert Answers(Trace(s1, Story(es, m, [], c)), c) == [];
    assert Quiet(es, key, c);
  }

  /** Whatever the timers do, delivery holds for a call that suspends if and only if, when it is made,
      no earlier call on the same transaction is still suspended. */
  lemma DeliveryIffNoneSuspended(s: State, key: string, timeout: int)
    requires Inv(s) && Suspends(s, key)
    ensures DeliveryGuaranteed(s, key, timeout) <==> NoneSuspended(s, key)
  {
    var s1, c := Step(s, Wait(key, timeout)).state, |s.calls|;
    StepKeepsInv(s, Wait(key, timeout));
    if NoneSuspended(s, key) {
      assert Attached(s1, c);
      forall es, m: Message, fs | Quiet(es, key, c) && m.transaction == key
        ensures Answers(Trace(s1, Story(es, m, fs, c)), c) == [Some(m)]
      {
        NextMessageReturned(s1, c, es, m, fs);
      }
    } else {
      var rival :| 0 <= rival < |s.calls| && s.calls[rival].key == key && !s.calls[rival].resumed;
      RivalStealsRegistration(s, key, timeout, rival);
    }
  }

  /** Every call that suspends does so while no earlier call on its transaction is suspended. */
  predicate OneAtATime(s: State, es: seq<Event>)
    decreases es
  {
    es == [] ||
    (&& (es[0].Wait? && Suspends(s, es[0].key) ==> NoneSuspended(s, es[0].key))
     && OneAtATime(Step(s, es[0]).state, es[1..]))
  }

  ghost predicate AllRegistered(s: State) {
    forall c :: 0 <= c < |s.calls| && s.calls[c].outcome == Undecided ==> Attached(s, c)
  }

  lemma StepKeepsAllRegistered(s: State, e: Event)
    requires Inv(s) && AllRegistered(s)
    requires e.Wait? && Suspends(s, e.key) ==> NoneSuspended(s, e.key)
    ensures AllRegistered(Step(s, e).state)
  {
    var s' := Step(s, e).state;
    if e.Push? && e.msg.transaction in s.waiters { assert WaiterOk(s, e.msg.transaction); }
    forall c | 0 <= c < |s'.calls| && s'.calls[c].outcome == Undecided
      ensures Attached(s', c)
    {
      if c < |s.calls| {
        assert s.calls[c].outcome == Undecided && Attached(s, c);
        assert e.Push? ==> e.msg.transaction != s.calls[c].key;
        if e == Timeout(c) {
          assert s' == s;
        } else {
          StepKeepsAttached(s, e, c);
        }
      }
    }
  }

  /** In a run with at most one suspended call per transaction, every call that is waiting is
      registered, so the next message for its transaction reaches it. */
  lemma {:induction false} WaitingCallsAreRegistered(s: State, es: seq<Event>)
    requires Inv(s) && AllRegistered(s) && OneAtATime(s, es)
    ensures AllRegistered(After(s, es))
    decreases es
  {
    if es != [] {
      StepKeepsInv(s, es[0]);
      StepKeepsAllRegistered(s, es[0]);
      WaitingCallsAreRegistered(Step(s, es[0]).state, es[1..]);
    }
  }

  /** Two requests that share the id "test123": the first call's resume erases the second call's
      registration, so the second message stays buffered and the second call times out. */
  lemma ReusedTransactionMissesItsMessage(m1: Message, m2: Message)
    requires m1.transaction == "test123" && m2.transaction == "test123"
    ensures var es := [Wait("test123", 30000), Push(m1), Wait("test123", 30000), Resume(0), Push(m2),
                       Tick(30000), Timeout(1), Resume(1)];
            && Answers(Trace(INITIAL, es), 0) == [Some(m1)]
            && Answers(Trace(INITIAL, es), 1) == [None]
            && After(INITIAL, es).messages == [m2]
  {
    var es := [Wait("test123", 30000), Push(m1), Wait("test123", 30000), Resume(0), Push(m2),
               Tick(30000), Timeout(1), Resume(1)];
    var s4 := ReuseErasesSecond(m1);
    var s5 := s4.(messages := [m2]);
    var s6 := s5.(now := 30000);
    var s7 := s6.(calls := [s4.calls[0], s4.calls[1].(outcome := TimedOut)]);
    var s8 := s6.(calls := [s4.calls[0], s4.calls[1].(outcome := TimedOut, resumed := true)]);
    assert Step(s4, Push(m2)).state == s5 && Step(s5, Tick(30000)).state == s6;
    assert Step(s6, Timeout(1)).state == s7 && Step(s7, Resume(1)).state == s8;
    var tail := [Push(m2), Tick(30000), Timeout(1), Resume(1)];
    AfterCons(s7, tail[3..]);
    AfterCons(s6, tail[2..]);
    AfterCons(s5, tail[1..]);
    AfterCons(s4, tail);
    AfterAppend(INITIAL, es[..4], tail);
    assert es == es[..4] + tail && es[..4] == [Wait("test123", 30000), Push(m1), Wait("test123", 30000), Resume(0)];
    RunAnswers(INITIAL, es, 0);
    RunAnswers(INITIAL, es, 1);
  }

  /** The first half of that run: the second call is suspended, but not registered. */
  lemma ReuseErasesSecond(m1: Message) returns (s4: State)
    requires m1.transaction == "test123"
    ensures s4 == After(INITIAL, [Wait("test123", 30000), Push(m1), Wait("test123", 30000), Resume(0)])
    ensures s4 == State(0, [], map[], [Call("test123", 30000, Signalled, Some(m1), true),
                                       Call("test123", 30000, Undecided, None, false)])
  {
    var key, w := "test123", Wait("test123", 30000);
    var first := Call(key, 30000, Signalled, Some(m1), false);
    var second := Call(key, 30000, Undecided, None, false);
    var s1 := State(0, [], map[key := 0], [second]);
    var s2 := State(0, [], map[], [first]);
    var s3 := State(0, [], map[key := 1], [first, second]);
    s4 := State(0, [], map[], [first.(resumed := true), second]);
    assert Step(INITIAL, w).state == s1 && Step(s1, Push(m1)).state == s2;
    assert Step(s2, w).state == s3 && Step(s3, Resume(0)).state == s4;
    var es := [w, Push(m1), w, Resume(0)];
    AfterCons(s3, es[3..]);
    AfterCons(s2, es[2..]);
    AfterCons(s1, es[1..]);
  }

  lemma AfterCons(s: State, es: seq<Event>)
    requires es != []
    ensures After(s, es) == After(Step(s, es[0]).state, es[1..])
  {
  }

  // ------------------------------------------------------------ no waiter leak

  function Suspended(calls: seq<Call>): nat {
    if calls == [] then 0
    else Suspended(calls[..|calls| - 1]) + if calls[|calls| - 1].resumed then 0 else 1
  }

  lemma {:induction false} WaitersAtMostSuspended(waiters: map<string, nat>, calls: seq<Call>)
    requires forall key :: key in waiters ==>
               waiters[key] < |calls| && calls[waiters[key]].key == key && !calls[waiters[key]].resumed
    ensures |waiters| <= Suspended(calls)
    decreases |calls|
  {
    if calls == [] {
      assert waiters.Keys == {};
    } else {
      var last := |calls| - 1;
      var key := calls[last].key;
      if key in waiters && waiters[key] == last {
        WaitersAtMostSuspended(waiters - {key}, calls[..last]);
        OneKeyLess(waiters, key);
      } else {
        WaitersAtMostSuspended(waiters, calls[..last]);
      }
    }
  }

  lemma OneKeyLess(waiters: map<string, nat>, key: string)
    requires key in waiters
    ensures |waiters| == |waiters - {key}| + 1
  {
    assert waiters.Keys == (waiters - {key}).Keys + {key};
    assert |waiters.Keys| == |(waiters - {key}).Keys| + 1;
  }

  /** In every run there are at most as many waiters as suspended calls, so none is left when no
      call is suspended. */
  lemma NoWaiterLeak(es: seq<Event>)
    ensures |After(INITIAL, es).waiters| <= Suspended(After(INITIAL, es).calls)
    ensures Suspended(After(INITIAL, es).calls) == 0 ==> After(INITIAL, es).waiters == map[]
  {
    RunKeepsInv(INITIAL, es);
    var s := After(INITIAL, es);
    forall key | key in s.waiters
      ensures s.waiters[key] < |s.calls| && s.calls[s.waiters[key]].key == key && !s.calls[s.waiters[key]].resumed
    {
      assert WaiterOk(s, key);
    }
    WaitersAtMostSuspended(s.waiters, s.calls);
  }

  lemma {:induction false} SuspendedUpdate(calls: seq<Call>, c: nat, call: Call)
    requires c < |calls| && !calls[c].resumed && call.resumed
    ensures Suspended(calls[c := call]) == Suspended(calls) - 1
    decreases |calls|
  {
    var last := |calls| - 1;
    if c < last {
      assert calls[c := call][..last] == calls[..last][c := call];
      SuspendedUpdate(calls[..last], c, call);
    } else {
      assert calls[c := call][..last] == calls[..last];
    }
  }

  /** Each resume leaves one suspended call fewer. */
  lemma ResumeReducesSuspended(s: State, c: nat)
    requires CanResume(s, c)
    ensures Suspended(Step(s, Resume(c)).state.calls) == Suspended(s.calls) - 1
  {
    SuspendedUpdate(s.calls, c, s.calls[c].(resumed := true));
  }
}
