/** What the queue does with every item, over all interleavings: it is pushed once, in its producer's order,
    and popped after a bounded number of the consumer's own steps. */
module QueueProgress {
  import opened Sequences
  import opened QueueProtocol

  // ------------------------------------------------------------ items

  datatype Entry<T> = Entry(id: nat, item: T)

  /** The item that an event makes a producer start with, if any. */
  function BegunBy<T>(s: State<T>, e: Event<T>, id: nat): seq<T> {
    if e.Begin? && e.id == id < |s.producers| && s.producers[id].Idle? then [e.item] else []
  }

  function Begun<T>(s: State<T>, es: seq<Event<T>>, id: nat): seq<T>
    decreases es
  {
    if es == [] then [] else BegunBy(s, es[0], id) + Begun(Step(s, es[0]), es[1..], id)
  }

  /** The producer that reaches the deque with an event, and its item. */
  function AppendedBy<T>(s: State<T>, e: Event<T>): seq<Entry<T>> {
    if e.Produce? && e.id < |s.producers| && s.producers[e.id].Appending?
    then [Entry(e.id, s.producers[e.id].item)] else []
  }

  function Appended<T>(s: State<T>, es: seq<Event<T>>): seq<Entry<T>>
    decreases es
  {
    if es == [] then [] else AppendedBy(s, es[0]) + Appended(Step(s, es[0]), es[1..])
  }

  function Items<T>(entries: seq<Entry<T>>): (items: seq<T>)
    ensures |items| == |entries|
    ensures forall i :: 0 <= i < |items| ==> items[i] == entries[i].item
  {
    seq(|entries|, i requires 0 <= i < |entries| => entries[i].item)
  }

  function ItemsOf<T>(entries: seq<Entry<T>>, id: nat): seq<T> {
    if entries == [] then []
    else (if entries[0].id == id then [entries[0].item] else []) + ItemsOf(entries[1..], id)
  }

  /** The item a producer has in hand and has not appended yet. */
  function Pending<T>(s: State<T>, id: nat): seq<T> {
    if id < |s.producers| && s.producers[id].WantMtx? then [s.producers[id].item]
    else if id < |s.producers| && s.producers[id].Appending? then [s.producers[id].item]
    else []
  }

  lemma {:induction false} ItemsOfAppend<T>(a: seq<Entry<T>>, b: seq<Entry<T>>, id: nat)
    ensures ItemsOf(a + b, id) == ItemsOf(a, id) + ItemsOf(b, id)
  {
    if a == [] {
      assert a + b == b;
    } else {
      assert (a + b)[0] == a[0] && (a + b)[1..] == a[1..] + b;
      ItemsOfAppend(a[1..], b, id);
      Assoc(if a[0].id == id then [a[0].item] else [], ItemsOf(a[1..], id), ItemsOf(b, id));
    }
  }

  /** The deque receives exactly the appended items, in the order the producers come to append them. */
  lemma {:induction false} PushedAsAppended<T>(s: State<T>, es: seq<Event<T>>)
    ensures Run(s, es).pushed == s.pushed + Items(Appended(s, es))
    decreases es
  {
    if es != [] {
      var s' := Step(s, es[0]);
      PushedAsAppended(s', es[1..]);
      assert s'.pushed == s.pushed + Items(AppendedBy(s, es[0]));
      assert Items(Appended(s, es)) == Items(AppendedBy(s, es[0])) + Items(Appended(s', es[1..]));
    }
  }

  lemma StepAppends<T>(s: State<T>, e: Event<T>, id: nat)
    ensures Pending(s, id) + BegunBy(s, e, id) == ItemsOf(AppendedBy(s, e), id) + Pending(Step(s, e), id)
  {
    var entries := AppendedBy(s, e);
    if entries != [] { assert entries[1..] == []; }
  }

  /** Every item a producer starts with is appended once, in its order, or still in its hand. */
  lemma {:induction false} EachItemIsAppended<T>(s: State<T>, es: seq<Event<T>>, id: nat)
    ensures Pending(s, id) + Begun(s, es, id) == ItemsOf(Appended(s, es), id) + Pending(Run(s, es), id)
    decreases es
  {
    if es != [] {
      var s' := Step(s, es[0]);
      StepAppends(s, es[0], id);
      EachItemIsAppended(s', es[1..], id);
      ItemsOfAppend(AppendedBy(s, es[0]), Appended(s', es[1..]), id);
      Regroup(Pending(s, id), BegunBy(s, es[0], id), Begun(s', es[1..], id),
              ItemsOf(AppendedBy(s, es[0]), id), Pending(s', id),
              ItemsOf(Appended(s', es[1..]), id), Pending(Run(s, es), id));
    }
  }

  // ------------------------------------------------------------ producers come to an end

  function StepsLeft<T>(s: State<T>, id: nat): nat {
    if id >= |s.producers| then 0
    else
      match s.producers[id]
      case Idle => 0
      case WantMtx(_) => 6
      case Appending(_) => 5
      case WantCv => 4
      case Notifying => 3
      case UnlockCv => 2
      case UnlockMtx => 1
  }

  function StepsTaken<T>(s: State<T>, es: seq<Event<T>>, id: nat): nat
    decreases es
  {
    if es == [] then 0
    else (if es[0] == Produce(id) && CanProduce(s, id) then 1 else 0) + StepsTaken(Step(s, es[0]), es[1..], id)
  }

  lemma StepTaken<T>(s: State<T>, e: Event<T>, id: nat)
    ensures (if e == Produce(id) && CanProduce(s, id) then 1 else 0) + StepsLeft(Step(s, e), id)
         == StepsLeft(s, id) + 6 * |BegunBy(s, e, id)|
  {
  }

  /** Each push_back takes six steps of its producer, whatever the other threads do in between. */
  lemma {:induction false} SixStepsPerItem<T>(s: State<T>, es: seq<Event<T>>, id: nat)
    ensures StepsTaken(s, es, id) + StepsLeft(Run(s, es), id) == StepsLeft(s, id) + 6 * |Begun(s, es, id)|
    decreases es
  {
    if es != [] {
      StepTaken(s, es[0], id);
      SixStepsPerItem(Step(s, es[0]), es[1..], id);
    }
  }

  // ------------------------------------------------------------ the consumer pops everything

  /** How many of its own steps the consumer needs at most to pop from a non-empty queue. */
  function ToPop(pc: ConsumerPc): nat {
    match pc
    case Gap => 12
    case Blocking => 11
    case Blocked => 10
    case Woken => 9
    case UnlockWait => 8
    case WaitTest => 7
    case WaitTesting => 6
    case Returned => 5
    case DrainTest => 4
    case DrainTesting => 3
    case WantPop => 2
    case Popping => 1
  }

  /** The steps of the consumer in a run, its wake-ups included. */
  function ConsumerSteps<T>(s: State<T>, es: seq<Event<T>>): nat
    decreases es
  {
    if es == [] then 0
    else (if Step(s, es[0]).consumer != s.consumer then 1 else 0) + ConsumerSteps(Step(s, es[0]), es[1..])
  }

  lemma {:induction false} PoppedGrows<T>(s: State<T>, es: seq<Event<T>>)
    ensures s.popped <= Run(s, es).popped
    decreases es
  {
    if es != [] { PoppedGrows(Step(s, es[0]), es[1..]); }
  }

  /** One event, with something to pop: the consumer pops the front, or comes one step nearer, or stays. */
  lemma StepNearer<T>(s: State<T>, e: Event<T>)
    requires Inv(s) && s.q != []
    ensures var s' := Step(s, e);
            || (ToPop(s.consumer) == 1 && s'.consumer == DrainTest
                && s'.popped == s.popped + [s.q[0]] && s'.q == s.q[1..])
            || (s'.popped == s.popped && s.q <= s'.q
                && (s'.consumer == s.consumer || ToPop(s'.consumer) == ToPop(s.consumer) - 1))
  {
  }

  /** In every interleaving, the item at place j of the queue is popped, after j others, by the consumer's
      first ToPop + 4 * j steps. */
  lemma {:induction false} EveryItemIsPopped<T>(s: State<T>, es: seq<Event<T>>, j: nat)
    requires Inv(s) && j < |s.q| && ConsumerSteps(s, es) >= ToPop(s.consumer) + 4 * j
    ensures |Run(s, es).popped| > |s.popped| + j && Run(s, es).popped[|s.popped| + j] == s.q[j]
    decreases es
  {
    var s' := Step(s, es[0]);
    StepKeepsInv(s, es[0]);
    StepNearer(s, es[0]);
    if s'.popped != s.popped {
      if j == 0 { PoppedGrows(s', es[1..]); } else { EveryItemIsPopped(s', es[1..], j - 1); }
    } else {
      EveryItemIsPopped(s', es[1..], j);
    }
  }
}
