/**
 The two-mutex queue of network_queue.hpp with any number of producers in push_back and the one
 consumer of server_interface::update, which waits, tests for emptiness and pops. Every lock,
 unlock, container access and notification is its own event.
 */
module QueueProtocol {
  import opened Wrappers

  datatype Thread = Consumer | Producer(id: nat)

  datatype ProducerPc<T> =
    | Idle
    | WantMtx(item: T)
    | Appending(item: T)   // holds mtx
    | WantCv               // holds mtx, item appended
    | Notifying            // holds mtx and cv_mutex
    | UnlockCv             // holds both, notified
    | UnlockMtx            // holds mtx

  datatype ConsumerPc =
    | WaitTest             // wait(): wants mtx for is_empty
    | WaitTesting          // holds mtx
    | Gap                  // saw an empty queue, wants cv_mutex
    | Blocking             // holds cv_mutex, about to block
    | Blocked              // inside cv.wait, cv_mutex released
    | Woken                // wants cv_mutex back
    | UnlockWait           // holds cv_mutex, about to loop
    | Returned             // wait() has returned
    | DrainTest            // update(): wants mtx for is_empty
    | DrainTesting         // holds mtx
    | WantPop              // saw a non-empty queue, wants mtx
    | Popping              // holds mtx

  datatype State<T> = State(q: seq<T>, mtx: Option<Thread>, cv: Option<Thread>,
                            producers: seq<ProducerPc<T>>, consumer: ConsumerPc,
                            pushed: seq<T>, popped: seq<T>)

  datatype Event<T> = Begin(id: nat, item: T) | Produce(id: nat) | Consume | Spurious

  function Initial<T>(producers: nat): State<T> {
    State([], None, None, seq(producers, _ => Idle), WaitTest, [], [])
  }

  // ------------------------------------------------------------ one event

  predicate CanProduce<T>(s: State<T>, id: nat) {
    id < |s.producers| &&
    match s.producers[id]
    case Idle => false
    case WantMtx(_) => s.mtx == None
    case WantCv => s.cv == None
    case _ => true
  }

  function ProduceStep<T>(s: State<T>, id: nat): State<T>
    requires CanProduce(s, id)
  {
    var me := Producer(id);
    match s.producers[id]
    case WantMtx(item) => s.(mtx := Some(me), producers := s.producers[id := Appending(item)])
    case Appending(item) =>
      s.(q := s.q + [item], pushed := s.pushed + [item], producers := s.producers[id := WantCv])
    case WantCv => s.(cv := Some(me), producers := s.producers[id := Notifying])
    case Notifying =>
      // notify_one wakes the consumer only if it is blocked at this moment.
      s.(consumer := if s.consumer == Blocked then Woken else s.consumer,
         producers := s.producers[id := UnlockCv])
    case UnlockCv => s.(cv := None, producers := s.producers[id := UnlockMtx])
    case UnlockMtx => s.(mtx := None, producers := s.producers[id := Idle])
  }

  predicate CanConsume<T>(s: State<T>) {
    match s.consumer
    case WaitTest => s.mtx == None
    case Gap => s.cv == None
    case Blocked => false
    case Woken => s.cv == None
    case DrainTest => s.mtx == None
    case WantPop => s.mtx == None
    case _ => true
  }

  function ConsumeStep<T>(s: State<T>): State<T>
    requires CanConsume(s)
    requires s.consumer == Popping ==> s.q != []
  {
    match s.consumer
    case WaitTest => s.(mtx := Some(Consumer), consumer := WaitTesting)
    case WaitTesting => s.(mtx := None, consumer := if s.q == [] then Gap else Returned)
    case Gap => s.(cv := Some(Consumer), consumer := Blocking)
    case Blocking => s.(cv := None, consumer := Blocked)
    case Woken => s.(cv := Some(Consumer), consumer := UnlockWait)
    case UnlockWait => s.(cv := None, consumer := WaitTest)
    case Returned => s.(consumer := DrainTest)
    case DrainTest => s.(mtx := Some(Consumer), consumer := DrainTesting)
    case DrainTesting => s.(mtx := None, consumer := if s.q == [] then WaitTest else WantPop)
    case WantPop => s.(mtx := Some(Consumer), consumer := Popping)
    case Popping => s.(q := s.q[1..], popped := s.popped + [s.q[0]], mtx := None, consumer := DrainTest)
  }

  /** An event that is not enabled leaves the state unchanged. Popping an empty deque is undefined
      in C++; Inv shows that it never happens. */
  function Step<T>(s: State<T>, e: Event<T>): State<T> {
    match e
    case Begin(id, item) =>
      if id < |s.producers| && s.producers[id].Idle? then s.(producers := s.producers[id := WantMtx(item)]) else s
    case Produce(id) => if CanProduce(s, id) then ProduceStep(s, id) else s
    case Consume => if CanConsume(s) && (s.consumer == Popping ==> s.q != []) then ConsumeStep(s) else s
    case Spurious => if s.consumer == Blocked then s.(consumer := Woken) else s
  }

  function Run<T>(s: State<T>, es: seq<Event<T>>): State<T>
    decreases es
  {
    if es == [] then s else Run(Step(s, es[0]), es[1..])
  }

  // ------------------------------------------------------------ safety

  predicate ProducerHoldsMtx<T>(pc: ProducerPc<T>) {
    !pc.Idle? && !pc.WantMtx?
  }

  predicate ProducerHoldsCv<T>(pc: ProducerPc<T>) {
    pc.Notifying? || pc.UnlockCv?
  }

  predicate ConsumerHoldsMtx(pc: ConsumerPc) {
    pc in {WaitTesting, DrainTesting, Popping}
  }

  predicate ConsumerHoldsCv(pc: ConsumerPc) {
    pc in {Blocking, UnlockWait}
  }

  ghost predicate Inv<T>(s: State<T>) {
    && (forall i :: 0 <= i < |s.producers| ==>
          (ProducerHoldsMtx(s.producers[i]) <==> s.mtx == Some(Producer(i)))
          && (ProducerHoldsCv(s.producers[i]) <==> s.cv == Some(Producer(i))))
    && (ConsumerHoldsMtx(s.consumer) <==> s.mtx == Some(Consumer))
    && (ConsumerHoldsCv(s.consumer) <==> s.cv == Some(Consumer))
    && (s.mtx.Some? && s.mtx.value.Producer? ==> s.mtx.value.id < |s.producers|)
    && (s.cv.Some? && s.cv.value.Producer? ==> s.cv.value.id < |s.producers|)
    && (s.consumer in {Returned, WantPop, Popping} ==> s.q != [])
    && s.pushed == s.popped + s.q
  }

  lemma ProduceKeepsInv<T>(s: State<T>, id: nat)
    requires Inv(s) && CanProduce(s, id)
    ensures Inv(ProduceStep(s, id))
  {
    if s.producers[id].Appending? {
      assert (s.popped + s.q) + [s.producers[id].item] == s.popped + (s.q + [s.producers[id].item]);
    }
  }

  lemma ConsumeKeepsInv<T>(s: State<T>)
    requires Inv(s) && CanConsume(s)
    ensures Inv(ConsumeStep(s))
  {
    if s.consumer == Popping {
      assert s.popped + s.q == (s.popped + [s.q[0]]) + s.q[1..];
    }
  }

  lemma StepKeepsInv<T>(s: State<T>, e: Event<T>)
    requires Inv(s)
    ensures Inv(Step(s, e))
  {
    match e
    case Begin(id, item) =>
    case Produce(id) => if CanProduce(s, id) { ProduceKeepsInv(s, id); }
    case Consume => if CanConsume(s) { ConsumeKeepsInv(s); }
    case Spurious =>
  }

  /** In every run: wait returns, and pop_front runs, only on a non-empty queue; the popped items are
      a prefix of the pushed ones and the queue is the rest; the mutexes exclude. */
  lemma {:induction false} RunKeepsInv<T>(s: State<T>, es: seq<Event<T>>)
    requires Inv(s)
    ensures Inv(Run(s, es))
    decreases es
  {
    if es != [] {
      StepKeepsInv(s, es[0]);
      RunKeepsInv(Step(s, es[0]), es[1..]);
    }
  }

  // ------------------------------------------------------------ no deadlock

  predicate CanMove<T>(s: State<T>, t: Thread) {
    match t
    case Consumer => CanConsume(s)
    case Producer(id) => CanProduce(s, id)
  }

  /** Neither idle nor waiting for a notification. */
  predicate Busy<T>(s: State<T>, t: Thread) {
    match t
    case Consumer => s.consumer != Blocked
    case Producer(id) => id < |s.producers| && !s.producers[id].Idle?
  }

  /** The thread that a blocked thread has to wait for in the end: the holder of cv_mutex if the
      holder of mtx is itself waiting for it. */
  function Culprit<T>(s: State<T>): Thread {
    if s.mtx.Some? && !CanMove(s, s.mtx.value) && s.cv.Some? then s.cv.value
    else if s.mtx.Some? then s.mtx.value
    else if s.cv.Some? then s.cv.value
    else Consumer
  }

  /** No cyclic waiting: in every run, a busy thread that cannot move waits, directly or through one
      other thread, for a thread that can. */
  lemma NoDeadlock<T>(producers: nat, es: seq<Event<T>>, t: Thread)
    requires Busy(Run(Initial<T>(producers), es), t)
    ensures var s := Run(Initial<T>(producers), es);
            CanMove(s, t) || (Culprit(s) != t && CanMove(s, Culprit(s)))
  {
    RunKeepsInv(Initial<T>(producers), es);
  }

  /** What Inv says to the callers of the queue. */
  lemma QueueSafety<T>(producers: nat, es: seq<Event<T>>)
    ensures var s := Run(Initial<T>(producers), es);
            && (s.consumer == Returned ==> s.q != [])
            && (s.consumer == Popping ==> s.q != [])
            && s.popped <= s.pushed && s.pushed == s.popped + s.q
  {
    RunKeepsInv(Initial<T>(producers), es);
  }

  // ------------------------------------------------------------ wake-up

  /** A producer has appended its item and not notified yet. */
  predicate WillNotify<T>(pc: ProducerPc<T>) {
    pc.WantCv? || pc.Notifying?
  }

  /** The consumer sleeps on a non-empty queue and no notification is on its way. */
  ghost predicate Stranded<T>(s: State<T>) {
    s.consumer == Blocked && s.q != [] && forall i :: 0 <= i < |s.producers| ==> !WillNotify(s.producers[i])
  }

  /** The notification of producer `id` falls between the consumer's emptiness check and its block. */
  predicate NotifiesInGap<T>(s: State<T>, e: Event<T>) {
    e.Produce? && e.id < |s.producers| && s.producers[e.id].Notifying? && s.consumer in {Gap, Blocking}
  }

  /** The consumer's sleep is ended by a notification and by a spurious wake-up, and by nothing else. */
  lemma SleepEndsIff<T>(s: State<T>, e: Event<T>)
    requires s.consumer == Blocked
    ensures Step(s, e).consumer != Blocked <==>
              e.Spurious? || (e.Produce? && e.id < |s.producers| && s.producers[e.id].Notifying?)
  {
  }

  predicate NoNotifyInGap<T>(s: State<T>, es: seq<Event<T>>)
    decreases es
  {
    es == [] || (!NotifiesInGap(s, es[0]) && NoNotifyInGap(Step(s, es[0]), es[1..]))
  }

  /** Unless the consumer is on its way to sleep, or asleep, over a non-empty queue, nothing is due;
      if it is, some producer has yet to notify. */
  ghost predicate WakeDue<T>(s: State<T>) {
    s.consumer in {Gap, Blocking, Blocked} && s.q != [] ==>
      exists i :: 0 <= i < |s.producers| && WillNotify(s.producers[i])
  }

  /** The notification falls into the gap, over a non-empty queue, and it is the last one due. */
  predicate LosesWakeUp<T>(s: State<T>, e: Event<T>) {
    NotifiesInGap(s, e) && s.q != []
    && forall i :: 0 <= i < |s.producers| && i != e.id ==> !WillNotify(s.producers[i])
  }

  lemma OtherEventKeepsWakeDue<T>(s: State<T>, e: Event<T>)
    requires Inv(s) && WakeDue(s) && !NotifiesInGap(s, e)
    ensures WakeDue(Step(s, e))
  {
    var s' := Step(s, e);
    if s'.consumer in {Gap, Blocking, Blocked} && s'.q != [] {
      if e.Produce? && CanProduce(s, e.id) && s.producers[e.id].Appending? {
        assert WillNotify(s'.producers[e.id]);
      } else {
        assert s.consumer in {Gap, Blocking, Blocked};
        var i :| 0 <= i < |s.producers| && WillNotify(s.producers[i]);
        assert WillNotify(s'.producers[i]);
      }
    }
  }

  lemma GapNotifyKeepsWakeDueIff<T>(s: State<T>, e: Event<T>)
    requires Inv(s) && NotifiesInGap(s, e)
    ensures WakeDue(Step(s, e)) <==> !LosesWakeUp(s, e)
  {
    var s' := Step(s, e);
    assert s' == s.(producers := s.producers[e.id := UnlockCv]);
    assert forall i :: 0 <= i < |s.producers| && i != e.id ==> s'.producers[i] == s.producers[i];
    if !LosesWakeUp(s, e) && s.q != [] {
      var i :| 0 <= i < |s.producers| && i != e.id && WillNotify(s.producers[i]);
      assert WillNotify(s'.producers[i]);
    }
  }

  /** One event: a wake-up stays due exactly unless the last notification due falls into the gap. */
  lemma StepKeepsWakeDueIff<T>(s: State<T>, e: Event<T>)
    requires Inv(s) && WakeDue(s)
    ensures WakeDue(Step(s, e)) <==> !LosesWakeUp(s, e)
  {
    if NotifiesInGap(s, e) { GapNotifyKeepsWakeDueIff(s, e); } else { OtherEventKeepsWakeDue(s, e); }
  }

  predicate NeverLosesWakeUp<T>(s: State<T>, es: seq<Event<T>>)
    decreases es
  {
    es == [] || (!LosesWakeUp(s, es[0]) && NeverLosesWakeUp(Step(s, es[0]), es[1..]))
  }

  ghost predicate AlwaysWakeDue<T>(s: State<T>, es: seq<Event<T>>)
    decreases es
  {
    WakeDue(s) && (es == [] || AlwaysWakeDue(Step(s, es[0]), es[1..]))
  }

  /** In every run from the start, a wake-up stays due throughout if and only if no last notification
      falls into the gap. */
  lemma {:induction false} WakeDueThroughoutIff<T>(s: State<T>, es: seq<Event<T>>)
    requires Inv(s) && WakeDue(s)
    ensures AlwaysWakeDue(s, es) <==> NeverLosesWakeUp(s, es)
    decreases es
  {
    if es != [] {
      StepKeepsInv(s, es[0]);
      StepKeepsWakeDueIff(s, es[0]);
      if WakeDue(Step(s, es[0])) { WakeDueThroughoutIff(Step(s, es[0]), es[1..]); }
    }
  }

  lemma {:induction false} NoGapNotifyKeepsWakeDue<T>(s: State<T>, es: seq<Event<T>>)
    requires Inv(s) && WakeDue(s) && NoNotifyInGap(s, es)
    ensures WakeDue(Run(s, es))
    decreases es
  {
    if es != [] {
      StepKeepsInv(s, es[0]);
      OtherEventKeepsWakeDue(s, es[0]);
      NoGapNotifyKeepsWakeDue(Step(s, es[0]), es[1..]);
    }
  }

  lemma RunCons<T>(s: State<T>, es: seq<Event<T>>)
    requires es != []
    ensures Run(s, es) == Run(Step(s, es[0]), es[1..])
    ensures NoNotifyInGap(s, es) <==> !NotifiesInGap(s, es[0]) && NoNotifyInGap(Step(s, es[0]), es[1..])
  {
  }

  /** Without a wake-up due, the consumer can fall asleep, and stay asleep, with no further notification. */
  lemma UndueStrands<T>(s: State<T>) returns (es: seq<Event<T>>)
    requires Inv(s) && !WakeDue(s)
    ensures StrandsQuietly(s, es)
  {
    if s.consumer == Blocked {
      es := [];
    } else if s.consumer == Blocking {
      es := [Consume];
      RunCons(s, es);
    } else if s.cv == None {
      es := [Consume, Consume];
      RunCons(s, es);
      RunCons(Step(s, Consume), es[1..]);
    } else {
      var id := s.cv.value.id;
      es := [Produce(id), Consume, Consume];
      var s1 := Step(s, Produce(id));
      assert s1 == s.(cv := None, producers := s.producers[id := UnlockMtx]);
      RunCons(s, es);
      RunCons(s1, es[1..]);
      RunCons(Step(s1, Consume), es[2..]);
    }
  }

  /** The run `es` gives no notification in the gap and yet ends with the consumer stranded. */
  ghost predicate StrandsQuietly<T>(s: State<T>, es: seq<Event<T>>) {
    NoNotifyInGap(s, es) && Stranded(Run(s, es))
  }

  /** The consumer is safe from being stranded by the notifications already given if and only if a
      wake-up is due. */
  lemma NeverStrandedIffWakeDue<T>(s: State<T>)
    requires Inv(s)
    ensures (forall es: seq<Event<T>> :: !StrandsQuietly(s, es)) <==> WakeDue(s)
  {
    if WakeDue(s) {
      forall es: seq<Event<T>> ensures !StrandsQuietly(s, es) {
        if NoNotifyInGap(s, es) { NoGapNotifyKeepsWakeDue(s, es); }
      }
    } else {
      var es := UndueStrands(s);
      assert StrandsQuietly(s, es);
    }
  }

  /** A run from the start in which no notification falls into the gap never strands the consumer. */
  lemma NeverStrandedWithoutGapNotify<T>(producers: nat, es: seq<Event<T>>)
    requires NoNotifyInGap(Initial<T>(producers), es)
    ensures !Stranded(Run(Initial<T>(producers), es))
  {
    NoGapNotifyKeepsWakeDue(Initial<T>(producers), es);
  }

  lemma {:induction false} RunAppend<T>(s: State<T>, a: seq<Event<T>>, b: seq<Event<T>>)
    ensures Run(s, a + b) == Run(Run(s, a), b)
    decreases a
  {
    if a == [] {
      assert a + b == b;
    } else {
      assert (a + b)[0] == a[0] && (a + b)[1..] == a[1..] + b;
      RunAppend(Step(s, a[0]), a[1..], b);
    }
  }

  lemma ConsumerEntersGap<T>()
    ensures Run(Initial<T>(1), [Consume, Consume]) == State([], None, None, [Idle], Gap, [], [])
  {
    var s0, es := Initial<T>(1), [Consume, Consume];
    assert s0 == State([], None, None, [Idle], WaitTest, [], []);
    var s1 := s0.(mtx := Some(Consumer), consumer := WaitTesting);
    RunCons(s1, es[1..]);
    RunCons(s0, es);
  }

  lemma ProducerComesToNotify<T>(x: T)
    ensures Run(State([], None, None, [Idle], Gap, [], []), [Begin(0, x), Produce(0), Produce(0), Produce(0)])
         == State([x], Some(Producer(0)), Some(Producer(0)), [Notifying], Gap, [x], [])
  {
    var s2: State<T> := State([], None, None, [Idle], Gap, [], []);
    var s3 := s2.(producers := [WantMtx(x)]);
    var s4 := s2.(producers := [Appending(x)], mtx := Some(Producer(0)));
    var s5 := s4.(producers := [WantCv], q := [x], pushed := [x]);
    var es := [Begin(0, x), Produce(0), Produce(0), Produce(0)];
    assert Step(s2, es[0]) == s3 && Step(s3, es[1]) == s4 && Step(s4, es[2]) == s5;
    RunCons(s5, es[3..]);
    RunCons(s4, es[2..]);
    RunCons(s3, es[1..]);
    RunCons(s2, es);
  }

  /** One producer and one item are enough: the run from the start in which the notification falls into
      the gap, and its continuation in which the consumer sleeps beside the item. */
  lemma LostWakeUpIsReachable<T>(x: T)
    ensures var s := Run(Initial<T>(1), [Consume, Consume] + [Begin(0, x), Produce(0), Produce(0), Produce(0)]);
            && LosesWakeUp(s, Produce(0))
            && exists es :: StrandsQuietly(Step(s, Produce(0)), es)
  {
    var front, back := [Consume, Consume], [Begin(0, x), Produce(0), Produce(0), Produce(0)];
    RunAppend(Initial<T>(1), front, back);
    ConsumerEntersGap<T>();
    ProducerComesToNotify(x);
    var s := Run(Initial<T>(1), front + back);
    RunKeepsInv(Initial<T>(1), front + back);
    GapNotifyKeepsWakeDueIff(s, Produce(0));
    StepKeepsInv(s, Produce(0));
    var tail := UndueStrands(Step(s, Produce(0)));
  }
}
