/**
 The response buffer with steady timers. The clock does not pass the deadline of an undecided call, so
 timers fire in the order of their deadlines; in a prompt run, moreover, the clock stands still while a
 due timeout or a decided call has yet to be handled.
 */
module ResponseBufferTiming {
  import opened Wrappers
  import opened ResponseBufferModel
  import opened ResponseBufferAccounting
  import opened ResponseBufferDelivery

  predicate PassesNoDeadline(s: State, e: Event) {
    e.Tick? ==> forall i :: 0 <= i < |s.calls| && s.calls[i].outcome == Undecided ==>
                  s.now + e.duration <= s.calls[i].deadline
  }

  /** The clock does not pass the deadline of an undecided call without the timeout firing. */
  predicate Punctual(s: State, es: seq<Event>)
    decreases es
  {
    es == [] || (PassesNoDeadline(s, es[0]) && Punctual(Step(s, es[0]).state, es[1..]))
  }

  predicate Settled(s: State) {
    forall i :: 0 <= i < |s.calls| ==> !CanTimeOut(s, i) && !CanResume(s, i)
  }

  /** A punctual run in which no time goes by while a timeout or a resume is possible. */
  predicate Prompt(s: State, es: seq<Event>)
    decreases es
  {
    es == [] ||
    (PassesNoDeadline(s, es[0]) && (es[0].Tick? ==> Settled(s)) && Prompt(Step(s, es[0]).state, es[1..]))
  }

  ghost predicate OnTime(s: State) {
    forall i :: 0 <= i < |s.calls| && s.calls[i].outcome == Undecided ==> s.now <= s.calls[i].deadline
  }

  lemma {:induction false} PromptIsPunctual(s: State, es: seq<Event>)
    requires Prompt(s, es)
    ensures Punctual(s, es)
    decreases es
  {
    if es != [] { PromptIsPunctual(Step(s, es[0]).state, es[1..]); }
  }

  lemma {:induction false} PunctualSplits(s: State, es: seq<Event>, fs: seq<Event>)
    requires Punctual(s, es + fs)
    ensures Punctual(s, es) && Punctual(After(s, es), fs)
    decreases es
  {
    if es == [] {
      assert es + fs == fs;
    } else {
      assert (es + fs)[0] == es[0] && (es + fs)[1..] == es[1..] + fs;
      PunctualSplits(Step(s, es[0]).state, es[1..], fs);
    }
  }

  lemma {:induction false} PromptJoins(s: State, es: seq<Event>, fs: seq<Event>)
    requires Prompt(s, es) && Prompt(After(s, es), fs)
    ensures Prompt(s, es + fs)
    decreases es
  {
    if es == [] {
      assert es + fs == fs;
    } else {
      assert (es + fs)[0] == es[0] && (es + fs)[1..] == es[1..] + fs;
      PromptJoins(Step(s, es[0]).state, es[1..], fs);
    }
  }

  lemma {:induction false} TicklessIsPrompt(s: State, es: seq<Event>)
    requires forall i :: 0 <= i < |es| ==> !es[i].Tick?
    ensures Prompt(s, es)
    decreases es
  {
    if es != [] { TicklessIsPrompt(Step(s, es[0]).state, es[1..]); }
  }

  lemma StepKeepsOnTime(s: State, e: Event)
    requires Inv(s) && OnTime(s) && PassesNoDeadline(s, e)
    ensures OnTime(Step(s, e).state)
  {
  }

  lemma {:induction false} PunctualKeepsOnTime(s: State, es: seq<Event>)
    requires Inv(s) && OnTime(s) && Punctual(s, es)
    ensures OnTime(After(s, es))
    decreases es
  {
    if es != [] {
      StepKeepsInv(s, es[0]);
      StepKeepsOnTime(s, es[0]);
      PunctualKeepsOnTime(Step(s, es[0]).state, es[1..]);
    }
  }

  // ------------------------------------------------------------ time never stops

  /** The earlier of `t` and the first deadline of an undecided call. */
  function NextDue(calls: seq<Call>, t: int): (due: int)
    ensures due <= t
    ensures forall i :: 0 <= i < |calls| && calls[i].outcome == Undecided ==> due <= calls[i].deadline
    ensures due == t || exists i :: 0 <= i < |calls| && calls[i].outcome == Undecided && calls[i].deadline == due
  {
    if calls == [] then t
    else
      var last := calls[|calls| - 1];
      var due := NextDue(calls[..|calls| - 1], t);
      if last.outcome == Undecided && last.deadline < due then last.deadline else due
  }

  /** How many timeouts and resumes the suspended calls have before them, at most. */
  function Work(calls: seq<Call>): nat {
    if calls == [] then 0 else Work(calls[..|calls| - 1]) + WorkOf(calls[|calls| - 1])
  }

  function WorkOf(call: Call): nat {
    if call.resumed then 0 else if call.outcome == Undecided then 2 else 1
  }

  lemma {:induction false} WorkUpdate(calls: seq<Call>, c: nat, call: Call)
    requires c < |calls|
    ensures Work(calls[c := call]) == Work(calls) - WorkOf(calls[c]) + WorkOf(call)
    decreases |calls|
  {
    var last := |calls| - 1;
    if c < last {
      assert calls[c := call][..last] == calls[..last][c := call];
      WorkUpdate(calls[..last], c, call);
    } else {
      assert calls[c := call][..last] == calls[..last];
    }
  }

  /** Nothing but the clock, resumes, and timeouts of calls due before `t`. */
  predicate TimersBefore(s: State, es: seq<Event>, t: int) {
    forall i :: 0 <= i < |es| ==>
      && (es[i].Tick? || es[i].Timeout? || es[i].Resume?)
      && (es[i].Timeout? ==> es[i].call < |s.calls| && s.calls[es[i].call].deadline < t)
  }

  /** One event on the way to time `t`: a resume or a due timeout if there is one, else the clock moves
      on to the next deadline, or to `t`. */
  lemma NextOnTheWay(s: State, t: int) returns (e: Event)
    requires Inv(s) && OnTime(s) && s.now < t
    ensures Prompt(s, [e]) && TimersBefore(s, [e], t)
    ensures var s' := Step(s, e).state;
            && s'.now <= t && |s'.calls| == |s.calls|
            && (Work(s'.calls) < Work(s.calls) || (s'.calls == s.calls && s'.now > s.now))
            && forall i :: 0 <= i < |s.calls| ==>
                 s'.calls[i].deadline == s.calls[i].deadline
                 && (s.calls[i].outcome == Undecided && s.calls[i].deadline >= t ==> s'.calls[i] == s.calls[i])
  {
    if i :| 0 <= i < |s.calls| && CanResume(s, i) {
      e := Resume(i);
      WorkUpdate(s.calls, i, s.calls[i].(resumed := true));
    } else if i :| 0 <= i < |s.calls| && CanTimeOut(s, i) {
      e := Timeout(i);
      WorkUpdate(s.calls, i, s.calls[i].(outcome := TimedOut));
    } else {
      forall i | 0 <= i < |s.calls| && s.calls[i].outcome == Undecided ensures s.now < s.calls[i].deadline {
        assert CallOk(s.calls[i], s.now) && !CanTimeOut(s, i);
      }
      e := Tick(NextDue(s.calls, t) - s.now);
    }
  }

  /** From any state in which no deadline was missed, the clock can reach any later reading promptly, and
      calls that are not due before it are left as they are. */
  lemma {:induction false} ClockReaches(s: State, t: int) returns (es: seq<Event>)
    requires Inv(s) && OnTime(s) && s.now <= t
    ensures Prompt(s, es) && After(s, es).now == t && TimersBefore(s, es, t)
    ensures |After(s, es).calls| == |s.calls|
    ensures forall i :: 0 <= i < |s.calls| && s.calls[i].outcome == Undecided && s.calls[i].deadline >= t ==>
              After(s, es).calls[i] == s.calls[i]
    decreases Work(s.calls), t - s.now
  {
    if s.now == t {
      es := [];
    } else {
      var e := NextOnTheWay(s, t);
      assert [e][0] == e;
      var s' := Step(s, e).state;
      StepKeepsInv(s, e);
      StepKeepsOnTime(s, e);
      var rest := ClockReaches(s', t);
      es := [e] + rest;
      assert es[0] == e && es[1..] == rest;
    }
  }

  /** Being prompt never stops the clock: after every punctual run, a prompt continuation reaches any
      later reading. */
  lemma TimeNeverStops(es: seq<Event>, t: int)
    requires Punctual(INITIAL, es) && After(INITIAL, es).now <= t
    ensures exists fs :: Prompt(After(INITIAL, es), fs) && After(After(INITIAL, es), fs).now == t
  {
    RunKeepsInv(INITIAL, es);
    PunctualKeepsOnTime(INITIAL, es);
    var fs := ClockReaches(After(INITIAL, es), t);
  }

  // ------------------------------------------------------------ bounded waiting

  /** No call is suspended past its deadline. */
  ghost predicate Timely(s: State) {
    forall i :: 0 <= i < |s.calls| && !s.calls[i].resumed ==> s.now <= s.calls[i].deadline
  }

  lemma StepKeepsTimely(s: State, e: Event)
    requires Timely(s) && PassesNoDeadline(s, e) && (e.Tick? ==> Settled(s))
    ensures Timely(Step(s, e).state)
  {
    if e.Tick? {
      forall i | 0 <= i < |s.calls| && !s.calls[i].resumed ensures s.now + e.duration <= s.calls[i].deadline {
        assert !CanResume(s, i);
      }
    }
  }

  lemma {:induction false} PromptKeepsTimely(s: State, es: seq<Event>)
    requires Timely(s) && Prompt(s, es)
    ensures Timely(After(s, es))
    decreases es
  {
    if es != [] {
      StepKeepsTimely(s, es[0]);
      PromptKeepsTimely(Step(s, es[0]).state, es[1..]);
    }
  }

  /** A call's transaction and deadline never change. */
  lemma {:induction false} KeepsTerms(s: State, es: seq<Event>, c: nat)
    requires c < |s.calls|
    ensures c < |After(s, es).calls|
    ensures After(s, es).calls[c].key == s.calls[c].key && After(s, es).calls[c].deadline == s.calls[c].deadline
    decreases es
  {
    if es != [] { KeepsTerms(Step(s, es[0]).state, es[1..], c); }
  }

  /** When a call made now with `timeout` gives up at the earliest. */
  function Bound(s: State, timeout: int): int {
    s.now + if timeout < 0 then 0 else timeout
  }

  /** In a prompt run, a call that suspends has given exactly one answer once the clock is past its start
      plus its timeout; and it gives up, with an empty answer, never before that time. */
  lemma BoundedWaiting(es: seq<Event>, key: string, timeout: int, fs: seq<Event>)
    requires Suspends(After(INITIAL, es), key)
    requires Prompt(INITIAL, es + [Wait(key, timeout)] + fs)
    ensures var s, c, run := After(INITIAL, es), |After(INITIAL, es).calls|, es + [Wait(key, timeout)] + fs;
            && (After(INITIAL, run).now > Bound(s, timeout) ==> |Answers(Trace(INITIAL, run), c)| == 1)
            && (None in Answers(Trace(INITIAL, run), c) ==> After(INITIAL, run).now >= Bound(s, timeout))
  {
    var s, c, run := After(INITIAL, es), |After(INITIAL, es).calls|, es + [Wait(key, timeout)] + fs;
    var s1 := Step(s, Wait(key, timeout)).state;
    AfterOne(s, Wait(key, timeout));
    AfterAppend(INITIAL, es, [Wait(key, timeout)]);
    AfterAppend(INITIAL, es + [Wait(key, timeout)], fs);
    KeepsTerms(s1, fs, c);
    RunKeepsInv(INITIAL, run);
    PromptKeepsTimely(INITIAL, run);
    assert CallOk(After(INITIAL, run).calls[c], After(INITIAL, run).now);
    RunAnswers(INITIAL, run, c);
    assert Answers(Trace(INITIAL, run), c) == FinalAnswers(After(INITIAL, run), c);
  }

  // ------------------------------------------------------------ delivery with steady timers

  /** Every earlier call that is still suspended on `key` is undecided and due only after the newcomer. */
  predicate RivalsOutlast(s: State, key: string, timeout: int) {
    forall i :: 0 <= i < |s.calls| && s.calls[i].key == key && !s.calls[i].resumed ==>
      s.calls[i].outcome == Undecided && s.calls[i].deadline > Bound(s, timeout)
  }

  /** In every punctual run, if the next message for `key` is pushed before the timeout of the call made
      now wins, that call returns exactly that message. */
  ghost predicate PunctualDelivery(s: State, key: string, timeout: int) {
    var s1, c := Step(s, Wait(key, timeout)).state, |s.calls|;
    forall es, m: Message, fs ::
      Quiet(es, key, c) && m.transaction == key && Punctual(s1, Story(es, m, fs, c)) ==>
        Answers(Trace(s1, Story(es, m, fs, c)), c) == [Some(m)]
  }

  /** The same in every prompt run. */
  ghost predicate PromptDelivery(s: State, key: string, timeout: int) {
    var s1, c := Step(s, Wait(key, timeout)).state, |s.calls|;
    forall es, m: Message, fs ::
      Quiet(es, key, c) && m.transaction == key && Prompt(s1, Story(es, m, fs, c)) ==>
        Answers(Trace(s1, Story(es, m, fs, c)), c) == [Some(m)]
  }

  /** Call `c` is registered and undecided, and every other call suspended on its transaction is
      undecided and due later. */
  ghost predicate First(s: State, c: nat) {
    && c < |s.calls| && s.calls[c].outcome == Undecided && !s.calls[c].resumed
    && s.calls[c].key in s.waiters && s.waiters[s.calls[c].key] == c
    && forall i :: 0 <= i < |s.calls| && i != c && s.calls[i].key == s.calls[c].key && !s.calls[i].resumed ==>
         s.calls[i].outcome == Undecided && s.calls[i].deadline > s.calls[c].deadline
  }

  lemma StepKeepsFirst(s: State, e: Event, c: nat)
    requires Inv(s) && OnTime(s) && First(s, c) && Quiet([e], s.calls[c].key, c)
    ensures First(Step(s, e).state, c) && Step(s, e).state.calls[c] == s.calls[c]
  {
    assert e == [e][0];
    match e
    case Push(msg) =>
      if msg.transaction in s.waiters { assert WaiterOk(s, msg.transaction); }
    case Wait(k, timeout) =>
      var i := IndexFor(s.messages, k);
      assert i < |s.messages| ==> s.messages[i].transaction !in s.waiters;
    case Timeout(other) =>
    case Resume(other) =>
      assert CanResume(s, other) ==> s.calls[other].key != s.calls[c].key;
    case Tick(d) =>
  }

  lemma QuietRest(es: seq<Event>, key: string, c: nat)
    requires Quiet(es, key, c) && es != []
    ensures Quiet([es[0]], key, c) && Quiet(es[1..], key, c)
  {
    assert [es[0]][0] == es[0];
    forall i | 0 <= i < |es[1..]|
      ensures es[1..][i] != Timeout(c) && (es[1..][i].Push? ==> es[1..][i].msg.transaction != key)
    {
      assert es[1..][i] == es[i + 1];
    }
  }

  lemma {:induction false} StaysFirst(s: State, es: seq<Event>, c: nat)
    requires Inv(s) && OnTime(s) && First(s, c) && Quiet(es, s.calls[c].key, c) && Punctual(s, es)
    ensures First(After(s, es), c) && After(s, es).calls[c] == s.calls[c]
    decreases es
  {
    if es != [] {
      QuietRest(es, s.calls[c].key, c);
      StepKeepsInv(s, es[0]);
      StepKeepsOnTime(s, es[0]);
      StepKeepsFirst(s, es[0], c);
      StaysFirst(Step(s, es[0]).state, es[1..], c);
    }
  }

  /** A rival that is decided, or due no later than the newcomer, can be let come to its resume in a
      prompt run that leaves the newcomer undecided. */
  lemma RivalComesFirst(s: State, rival: nat, c: nat) returns (wait: seq<Event>)
    requires Inv(s) && OnTime(s) && rival < |s.calls| && c < |s.calls| && !s.calls[rival].resumed
    requires s.calls[c].outcome == Undecided
    requires s.calls[rival].outcome == Undecided ==> s.calls[rival].deadline <= s.calls[c].deadline
    ensures Prompt(s, wait) && TimersBefore(s, wait, s.calls[c].deadline)
    ensures var s' := After(s, wait);
            && |s'.calls| == |s.calls| && s'.calls[c] == s.calls[c] && s'.calls[rival] == s.calls[rival]
            && (s'.calls[rival].outcome == Undecided ==> s'.calls[rival].deadline <= s'.now)
  {
    if s.calls[rival].outcome == Undecided {
      wait := ClockReaches(s, s.calls[rival].deadline);
    } else {
      wait := [];
    }
  }

  lemma RivalStory(s: State, wait: seq<Event>, rival: nat, m: Message, c: nat)
    requires c < |s.calls| && c != rival && Prompt(s, wait) && TimersBefore(s, wait, s.calls[c].deadline)
    ensures var es := wait + RivalResumes(rival); Prompt(s, Story(es, m, [], c)) && Quiet(es, m.transaction, c)
  {
    var es, tail := wait + RivalResumes(rival), RivalResumes(rival) + [Push(m)] + [] + [Resume(c)];
    TicklessIsPrompt(After(s, wait), tail);
    PromptJoins(s, wait, tail);
    assert Story(es, m, [], c) == wait + tail;
    forall i | 0 <= i < |es|
      ensures es[i] != Timeout(c) && (es[i].Push? ==> es[i].msg.transaction != m.transaction)
    {
      if i < |wait| { assert es[i] == wait[i]; } else { assert es[i] == RivalResumes(rival)[i - |wait|]; }
    }
  }

  lemma OneMissRefutes(s: State, key: string, timeout: int, es: seq<Event>, m: Message)
    requires Quiet(es, key, |s.calls|) && m.transaction == key
    requires var s1, story := Step(s, Wait(key, timeout)).state, Story(es, m, [], |s.calls|);
             Prompt(s1, story) && Answers(Trace(s1, story), |s.calls|) == []
    ensures !PromptDelivery(s, key, timeout)
  {
  }

  lemma EarlyRivalSteals(s: State, key: string, timeout: int, rival: nat)
    requires Inv(s) && OnTime(s) && Suspends(s, key)
    requires rival < |s.calls| && s.calls[rival].key == key && !s.calls[rival].resumed
    requires s.calls[rival].outcome == Undecided ==> s.calls[rival].deadline <= Bound(s, timeout)
    ensures !PromptDelivery(s, key, timeout)
  {
    var s1, c, m := Step(s, Wait(key, timeout)).state, |s.calls|, Message("event", key, "");
    StepKeepsInv(s, Wait(key, timeout));
    var wait := RivalComesFirst(s1, rival, c);
    var es := wait + RivalResumes(rival);
    AfterAppend(s1, wait, RivalResumes(rival));
    RivalErasesEntry(After(s1, wait), rival, c);
    UnregisteredCallMisses(s1, c, es, m);
    RivalStory(s1, wait, rival, m, c);
    OneMissRefutes(s, key, timeout, es, m);
  }

  /** With steady timers delivery holds for a call that suspends if and only if every earlier call still
      suspended on its transaction is undecided and due only after the newcomer; it makes no difference
      whether due timeouts and resumes are handled at once. */
  lemma DeliveryIffRivalsOutlast(s: State, key: string, timeout: int)
    requires Inv(s) && OnTime(s) && Suspends(s, key)
    ensures PunctualDelivery(s, key, timeout) <==> RivalsOutlast(s, key, timeout)
    ensures PromptDelivery(s, key, timeout) <==> RivalsOutlast(s, key, timeout)
  {
    if RivalsOutlast(s, key, timeout) {
      PunctuallyDelivered(s, key, timeout);
      PunctualImpliesPrompt(s, key, timeout);
    } else {
      var rival :| 0 <= rival < |s.calls| && s.calls[rival].key == key && !s.calls[rival].resumed
                   && !(s.calls[rival].outcome == Undecided && s.calls[rival].deadline > Bound(s, timeout));
      EarlyRivalSteals(s, key, timeout, rival);
      if PunctualDelivery(s, key, timeout) { PunctualImpliesPrompt(s, key, timeout); }
    }
  }

  lemma PunctualImpliesPrompt(s: State, key: string, timeout: int)
    requires PunctualDelivery(s, key, timeout)
    ensures PromptDelivery(s, key, timeout)
  {
    var s1, c := Step(s, Wait(key, timeout)).state, |s.calls|;
    forall es, m: Message, fs |
      Quiet(es, key, c) && m.transaction == key && Prompt(s1, Story(es, m, fs, c))
      ensures Answers(Trace(s1, Story(es, m, fs, c)), c) == [Some(m)]
    {
      PromptIsPunctual(s1, Story(es, m, fs, c));
    }
  }

  lemma PunctuallyDelivered(s: State, key: string, timeout: int)
    requires Inv(s) && OnTime(s) && Suspends(s, key) && RivalsOutlast(s, key, timeout)
    ensures PunctualDelivery(s, key, timeout)
  {
    var s1, c := Step(s, Wait(key, timeout)).state, |s.calls|;
    StepKeepsInv(s, Wait(key, timeout));
    assert First(s1, c);
    forall es, m: Message, fs |
      Quiet(es, key, c) && m.transaction == key && Punctual(s1, Story(es, m, fs, c))
      ensures Answers(Trace(s1, Story(es, m, fs, c)), c) == [Some(m)]
    {
      assert Story(es, m, fs, c) == es + ([Push(m)] + fs + [Resume(c)]);
      PunctualSplits(s1, es, [Push(m)] + fs + [Resume(c)]);
      StaysFirst(s1, es, c);
      RegisteredCallReturns(s1, c, es, m, fs);
    }
  }

  /** The two notions of delivery differ: after two requests with the id "test123", the second of which
      has lost its registration, a third call with a shorter timeout gets its message if timers are
      punctual, and can miss it if they may fire late. */
  lemma ShorterTimeoutIsSafe(m1: Message, timeout: int)
    requires m1.transaction == "test123" && timeout < 30000
    ensures var s := After(INITIAL, [Wait("test123", 30000), Push(m1), Wait("test123", 30000), Resume(0)]);
            PunctualDelivery(s, "test123", timeout) && !DeliveryGuaranteed(s, "test123", timeout)
  {
    var s := ReuseErasesSecond(m1);
    SecondOutlasts(s, timeout);
    DeliveryIffRivalsOutlast(s, "test123", timeout);
    DeliveryIffNoneSuspended(s, "test123", timeout);
  }

  lemma SecondOutlasts(s: State, timeout: int)
    requires |s.calls| == 2 && s.now == 0 && s.messages == [] && s.waiters == map[] && timeout < 30000
    requires s.calls[0].resumed && s.calls[0].outcome == Signalled && CallOk(s.calls[0], 0)
    requires s.calls[1] == Call("test123", 30000, Undecided, None, false)
    ensures Inv(s) && OnTime(s) && Suspends(s, "test123")
    ensures RivalsOutlast(s, "test123", timeout) && !NoneSuspended(s, "test123")
  {
    assert s.calls[1].key == "test123" && !s.calls[1].resumed;
  }

  /** Every call of the run is made with the same timeout, as the only caller in the repository does. */
  predicate OneTimeout(es: seq<Event>, timeout: int) {
    forall i :: 0 <= i < |es| && es[i].Wait? ==> es[i].timeout == timeout
  }

  ghost predicate NoneBeyond(s: State, timeout: int) {
    forall i :: 0 <= i < |s.calls| ==> s.calls[i].deadline <= Bound(s, timeout)
  }

  lemma StepKeepsNoneBeyond(s: State, e: Event, timeout: int)
    requires NoneBeyond(s, timeout) && (e.Wait? ==> e.timeout == timeout)
    ensures NoneBeyond(Step(s, e).state, timeout)
  {
    var s' := Step(s, e).state;
    assert forall i :: 0 <= i < |s.calls| ==> s'.calls[i].deadline == s.calls[i].deadline;
  }

  lemma {:induction false} RunKeepsNoneBeyond(s: State, es: seq<Event>, timeout: int)
    requires NoneBeyond(s, timeout) && OneTimeout(es, timeout)
    ensures NoneBeyond(After(s, es), timeout)
    decreases es
  {
    if es != [] {
      StepKeepsNoneBeyond(s, es[0], timeout);
      forall i | 0 <= i < |es[1..]| && es[1..][i].Wait? ensures es[1..][i].timeout == timeout {
        assert es[1..][i] == es[i + 1];
      }
      RunKeepsNoneBeyond(Step(s, es[0]).state, es[1..], timeout);
    }
  }

  /** With one timeout for all calls no rival outlasts the newcomer: even with prompt timers, delivery
      holds if and only if no earlier call on the transaction is still suspended. */
  lemma OneTimeoutDeliveryIff(es: seq<Event>, key: string, timeout: int)
    requires Punctual(INITIAL, es) && OneTimeout(es, timeout) && Suspends(After(INITIAL, es), key)
    ensures PromptDelivery(After(INITIAL, es), key, timeout) <==> NoneSuspended(After(INITIAL, es), key)
  {
    RunKeepsInv(INITIAL, es);
    PunctualKeepsOnTime(INITIAL, es);
    RunKeepsNoneBeyond(INITIAL, es, timeout);
    DeliveryIffRivalsOutlast(After(INITIAL, es), key, timeout);
  }
}
