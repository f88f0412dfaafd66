/** Where every pushed message is, over all runs of the response buffer. */
module ResponseBufferAccounting {
  import opened Wrappers
  import opened Sequences
  import opened ResponseBufferModel

  function One(answer: Option<Message>, m: Message): nat {
    if answer == Some(m) then 1 else 0
  }

  function HeldBy(call: Call, m: Message): nat {
    if call.resumed then 0 else One(call.result, m)
  }

  /** How many calls that have not resumed yet hold `m` as their result. */
  function Held(calls: seq<Call>, m: Message): nat {
    if calls == [] then 0 else HeldBy(calls[0], m) + Held(calls[1..], m)
  }

  function ReturnedBy(o: Observation, m: Message): nat {
    match o
    case Answered(answer) => One(answer, m)
    case Resumed(_, answer) => One(answer, m)
    case _ => 0
  }

  function Returned(os: seq<Observation>, m: Message): nat {
    if os == [] then 0 else ReturnedBy(os[0], m) + Returned(os[1..], m)
  }

  function DroppedBy(o: Observation, m: Message): nat {
    if o.Dropped? then One(Some(o.msg), m) else 0
  }

  function Dropped(os: seq<Observation>, m: Message): nat {
    if os == [] then 0 else DroppedBy(os[0], m) + Dropped(os[1..], m)
  }

  lemma {:induction false} HeldUpdate(calls: seq<Call>, i: nat, call: Call, m: Message)
    requires i < |calls|
    ensures Held(calls[i := call], m) == Held(calls, m) - HeldBy(calls[i], m) + HeldBy(call, m)
  {
    var updated := calls[i := call];
    if i == 0 {
      assert updated[1..] == calls[1..];
    } else {
      assert updated[1..] == calls[1..][i - 1 := call];
      HeldUpdate(calls[1..], i - 1, call, m);
    }
  }

  lemma {:induction false} HeldAppend(calls: seq<Call>, call: Call, m: Message)
    ensures Held(calls + [call], m) == Held(calls, m) + HeldBy(call, m)
  {
    if calls == [] {
      assert (calls + [call])[1..] == [];
    } else {
      assert (calls + [call])[1..] == calls[1..] + [call];
      HeldAppend(calls[1..], call, m);
    }
  }

  lemma {:induction false} CountsAppend(a: seq<Observation>, b: seq<Observation>, m: Message)
    ensures Returned(a + b, m) == Returned(a, m) + Returned(b, m)
    ensures Dropped(a + b, m) == Dropped(a, m) + Dropped(b, m)
  {
    if a == [] {
      assert a + b == b;
    } else {
      assert (a + b)[0] == a[0] && (a + b)[1..] == a[1..] + b;
      CountsAppend(a[1..], b, m);
    }
  }

  lemma CountsOfPair(a: Observation, b: Observation, m: Message)
    ensures Returned([a], m) == ReturnedBy(a, m) && Dropped([a], m) == DroppedBy(a, m)
    ensures Returned([a, b], m) == ReturnedBy(a, m) + ReturnedBy(b, m)
    ensures Dropped([a, b], m) == DroppedBy(a, m) + DroppedBy(b, m)
  {
    assert [a, b][1..] == [b];
    assert [a][1..] == [] && [b][1..] == [];
  }

  /** Copies of `m` that are in the buffer or held for a suspended call. */
  function Inside(s: State, m: Message): nat {
    multiset(s.messages)[m] + Held(s.calls, m)
  }

  function Left(os: seq<Observation>, m: Message): nat {
    Returned(os, m) + Dropped(os, m)
  }

  lemma PushBalanced(s: State, msg: Message, m: Message)
    requires Inv(s)
    ensures Inside(PushStep(s, msg).state, m) + Left(PushStep(s, msg).seen, m) == Inside(s, m) + One(Some(msg), m)
  {
    var r := PushStep(s, msg);
    if msg.transaction in s.waiters {
      assert WaiterOk(s, msg.transaction);
      var c := s.waiters[msg.transaction];
      HeldUpdate(s.calls, c, r.state.calls[c], m);
      CountsOfPair(Handed(msg), Handed(msg), m);
    } else {
    }
  }

  lemma RemoveOne(ms: seq<Message>, i: nat, m: Message)
    requires i < |ms|
    ensures multiset(ms)[m] == One(Some(ms[i]), m) + multiset(ms[..i] + ms[i + 1..])[m]
  {
    assert ms == ms[..i] + ([ms[i]] + ms[i + 1..]);
  }

  lemma WaitBalanced(s: State, key: string, timeout: int, m: Message)
    ensures var r := WaitStep(s, key, timeout); Inside(r.state, m) + Left(r.seen, m) == Inside(s, m)
  {
    var r := WaitStep(s, key, timeout);
    var i := IndexFor(s.messages, key);
    if i < |s.messages| {
      var found := s.messages[i];
      RemoveOne(s.messages, i, m);
      CountsOfPair(Handed(found), Answered(Some(found)), m);
    } else if key in s.waiters {
      CountsOfPair(Answered(None), Answered(None), m);
    } else {
      HeldAppend(s.calls, r.state.calls[|s.calls|], m);
    }
  }

  lemma ResumeBalanced(s: State, c: nat, m: Message)
    requires Inv(s) && CanResume(s, c)
    ensures Inside(ResumeStep(s, c).state, m) + Left(ResumeStep(s, c).seen, m) == Inside(s, m)
  {
    var r := ResumeStep(s, c);
    assert CallOk(s.calls[c], s.now);
    HeldUpdate(s.calls, c, r.state.calls[c], m);
    var answer := if s.calls[c].outcome == Signalled then s.calls[c].result else None;
    CountsOfPair(Resumed(c, answer), Resumed(c, answer), m);
    if |r.seen| == 2 {
      CountsOfPair(Resumed(c, answer), Observation.Dropped(c, s.calls[c].result.value), m);
    }
  }

  lemma StepBalanced(s: State, e: Event, m: Message)
    requires Inv(s)
    ensures Inside(Step(s, e).state, m) + Left(Step(s, e).seen, m) == Inside(s, m) + multiset(Pushed([e]))[m]
  {
    match e
    case Push(msg) =>
      PushBalanced(s, msg, m);
      assert Pushed([e]) == [msg];
    case Wait(key, timeout) => WaitBalanced(s, key, timeout, m);
    case Timeout(c) =>
      if CanTimeOut(s, c) { HeldUpdate(s.calls, c, s.calls[c].(outcome := TimedOut), m); }
    case Resume(c) => if CanResume(s, c) { ResumeBalanced(s, c, m); }
    case Tick(d) =>
  }

  lemma PushedSplits(es: seq<Event>, m: Message)
    requires es != []
    ensures multiset(Pushed(es))[m] == multiset(Pushed([es[0]]))[m] + multiset(Pushed(es[1..]))[m]
  {
    assert Pushed(es) == Pushed([es[0]]) + Pushed(es[1..]);
  }

  lemma {:induction false} RunBalanced(s: State, es: seq<Event>, m: Message)
    requires Inv(s)
    ensures Inside(After(s, es), m) + Left(Trace(s, es), m) == Inside(s, m) + multiset(Pushed(es))[m]
    decreases es
  {
    if es != [] {
      var r := Step(s, es[0]);
      StepKeepsInv(s, es[0]);
      StepBalanced(s, es[0], m);
      RunBalanced(r.state, es[1..], m);
      PushedSplits(es, m);
      CountsAppend(r.seen, Trace(r.state, es[1..]), m);
    }
  }

  /** In every run, the copies of any message that were pushed are exactly the buffered ones,
      those held for calls that have yet to resume, the returned ones and the dropped ones. */
  lemma ExactAccounting(es: seq<Event>, m: Message)
    ensures var s, os := After(INITIAL, es), Trace(INITIAL, es);
            multiset(Pushed(es))[m] == multiset(s.messages)[m] + Held(s.calls, m) + Returned(os, m) + Dropped(os, m)
  {
    RunBalanced(INITIAL, es, m);
  }

  // ------------------------------------------------------- one answer, at most one drop

  function AnswerOf(o: Observation, c: nat): seq<Option<Message>> {
    if o.Resumed? && o.call == c then [o.answer] else []
  }

  function Answers(os: seq<Observation>, c: nat): seq<Option<Message>> {
    if os == [] then [] else AnswerOf(os[0], c) + Answers(os[1..], c)
  }

  function DropOf(o: Observation, c: nat): seq<Message> {
    if o.Dropped? && o.call == c then [o.msg] else []
  }

  function Drops(os: seq<Observation>, c: nat): seq<Message> {
    if os == [] then [] else DropOf(os[0], c) + Drops(os[1..], c)
  }

  /** What a call that has resumed has given back, and what it has discarded. */
  function FinalAnswers(s: State, c: nat): seq<Option<Message>> {
    if c < |s.calls| && s.calls[c].resumed then
      [if s.calls[c].outcome == Signalled then s.calls[c].result else None]
    else []
  }

  function FinalDrops(s: State, c: nat): seq<Message> {
    if c < |s.calls| && s.calls[c].resumed && s.calls[c].outcome == TimedOut && s.calls[c].result.Some? then
      [s.calls[c].result.value]
    else []
  }

  lemma {:induction false} AnswersAppend(a: seq<Observation>, b: seq<Observation>, c: nat)
    ensures Answers(a + b, c) == Answers(a, c) + Answers(b, c)
  {
    if a == [] {
      assert a + b == b;
    } else {
      assert (a + b)[0] == a[0] && (a + b)[1..] == a[1..] + b;
      AnswersAppend(a[1..], b, c);
      Assoc(AnswerOf(a[0], c), Answers(a[1..], c), Answers(b, c));
    }
  }

  lemma {:induction false} DropsAppend(a: seq<Observation>, b: seq<Observation>, c: nat)
    ensures Drops(a + b, c) == Drops(a, c) + Drops(b, c)
  {
    if a == [] {
      assert a + b == b;
    } else {
      assert (a + b)[0] == a[0] && (a + b)[1..] == a[1..] + b;
      DropsAppend(a[1..], b, c);
      Assoc(DropOf(a[0], c), Drops(a[1..], c), Drops(b, c));
    }
  }

  lemma AnswersOfFew(os: seq<Observation>, c: nat)
    requires |os| <= 2
    ensures Answers(os, c)
         == (if |os| > 0 then AnswerOf(os[0], c) else []) + if |os| > 1 then AnswerOf(os[1], c) else []
    ensures Drops(os, c) == (if |os| > 0 then DropOf(os[0], c) else []) + if |os| > 1 then DropOf(os[1], c) else []
  {
    if |os| > 0 {
      var rest := os[1..];
      if |os| > 1 { assert rest[1..] == [] && rest[0] == os[1]; }
    }
  }

  lemma ResumeAnswers(s: State, i: nat, c: nat)
    requires Inv(s) && CanResume(s, i)
    ensures FinalAnswers(ResumeStep(s, i).state, c) == FinalAnswers(s, c) + Answers(ResumeStep(s, i).seen, c)
    ensures FinalDrops(ResumeStep(s, i).state, c) == FinalDrops(s, c) + Drops(ResumeStep(s, i).seen, c)
  {
    var r := ResumeStep(s, i);
    assert CallOk(s.calls[i], s.now);
    AnswersOfFew(r.seen, c);
    assert r.seen[0].Resumed? && (|r.seen| == 2 ==> r.seen[1].Dropped?);
    assert c != i && c < |s.calls| ==> r.state.calls[c] == s.calls[c];
  }

  /** The events other than a resume end no suspended call. */
  lemma OthersEndNoCall(s: State, e: Event, c: nat)
    requires Inv(s) && !e.Resume?
    ensures Answers(Step(s, e).seen, c) == [] && Drops(Step(s, e).seen, c) == []
    ensures c < |s.calls| ==> c < |Step(s, e).state.calls|
    ensures c < |s.calls| && s.calls[c].resumed ==> Step(s, e).state.calls[c] == s.calls[c]
    ensures c < |Step(s, e).state.calls| && Step(s, e).state.calls[c].resumed ==> c < |s.calls| && s.calls[c].resumed
  {
    if e.Push? && e.msg.transaction in s.waiters { assert WaiterOk(s, e.msg.transaction); }
    var seen := Step(s, e).seen;
    assert forall i :: 0 <= i < |seen| ==> !seen[i].Resumed? && !seen[i].Dropped?;
    AnswersOfFew(seen, c);
  }

  lemma StepAnswers(s: State, e: Event, c: nat)
    requires Inv(s)
    ensures FinalAnswers(Step(s, e).state, c) == FinalAnswers(s, c) + Answers(Step(s, e).seen, c)
    ensures FinalDrops(Step(s, e).state, c) == FinalDrops(s, c) + Drops(Step(s, e).seen, c)
  {
    if !e.Resume? {
      OthersEndNoCall(s, e, c);
    } else if CanResume(s, e.call) {
      ResumeAnswers(s, e.call, c);
    }
  }

  lemma {:induction false} RunAnswers(s: State, es: seq<Event>, c: nat)
    requires Inv(s)
    ensures FinalAnswers(After(s, es), c) == FinalAnswers(s, c) + Answers(Trace(s, es), c)
    ensures FinalDrops(After(s, es), c) == FinalDrops(s, c) + Drops(Trace(s, es), c)
    decreases es
  {
    if es != [] {
      var r := Step(s, es[0]);
      StepKeepsInv(s, es[0]);
      StepAnswers(s, es[0], c);
      RunAnswers(r.state, es[1..], c);
      AnswersAppend(r.seen, Trace(r.state, es[1..]), c);
      DropsAppend(r.seen, Trace(r.state, es[1..]), c);
      Assoc(FinalAnswers(s, c), Answers(r.seen, c), Answers(Trace(r.state, es[1..]), c));
      Assoc(FinalDrops(s, c), Drops(r.seen, c), Drops(Trace(r.state, es[1..]), c));
    }
  }

  /** A suspended call gives back exactly one answer, when it resumes; a message is dropped at
      most once per call, and only by a call whose timeout had won. */
  lemma OneAnswerAtMostOneDrop(es: seq<Event>, c: nat)
    ensures Answers(Trace(INITIAL, es), c) == FinalAnswers(After(INITIAL, es), c)
    ensures Drops(Trace(INITIAL, es), c) == FinalDrops(After(INITIAL, es), c)
    ensures |Answers(Trace(INITIAL, es), c)| <= 1 && |Drops(Trace(INITIAL, es), c)| <= 1
    ensures Drops(Trace(INITIAL, es), c) != [] ==>
              && c < |After(INITIAL, es).calls|
              && After(INITIAL, es).calls[c].outcome == TimedOut
              && Answers(Trace(INITIAL, es), c) == [None]
  {
    RunAnswers(INITIAL, es, c);
  }
}
