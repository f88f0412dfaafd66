/**
 janus_response_buffer.cpp in its own form: a deque and a waiter map updated in place by
 strand-serialized methods. Each method is proved to take exactly the corresponding step of
 ResponseBufferModel, so the run theorems proved there hold of this object.
 */
module ResponseBuffer {
  import opened Wrappers
  import M = ResponseBufferModel

  /** A suspended call's shared state, with the order in which its timers completed. */
  class Waiter {
    ghost const id: nat
    const transaction: string
    ghost const deadline: int
    var result: Option<M.Message>
    var outcome: M.Outcome
    ghost var resumed: bool

    constructor (ghost id: nat, transaction: string, ghost deadline: int)
      ensures this.id == id && this.transaction == transaction && this.deadline == deadline
      ensures result == None && outcome == M.Undecided && !resumed
    {
      this.id := id;
      this.transaction := transaction;
      this.deadline := deadline;
      this.result := None;
      this.outcome := M.Undecided;
      this.resumed := false;
    }

    ghost function View(): M.Call
      reads this
    {
      M.Call(transaction, deadline, outcome, result, resumed)
    }
  }

  /** The first message for a transaction is the head of that transaction's order. */
  lemma HeadOf(ms: seq<M.Message>, key: string)
    ensures var i := M.IndexFor(ms, key);
            if i < |ms| then M.For(ms, key) != [] && M.For(ms, key)[0] == ms[i] else M.For(ms, key) == []
  {
    if M.IndexFor(ms, key) < |ms| { M.ForRemoveFirst(ms, key, key); } else { M.ForNone(ms, key); }
  }

  class Buffer {
    var messages: seq<M.Message>
    var waiters: map<string, Waiter>
    ghost var now: int
    ghost var frames: seq<Waiter>   // every call that ever suspended, in order

    ghost predicate Valid()
      reads this
    {
      && (forall i :: 0 <= i < |frames| ==> frames[i].id == i)
      && (forall key :: key in waiters ==> waiters[key] in frames)
    }

    ghost function View(): M.State
      reads this, frames
      requires Valid()
    {
      M.State(now, messages, map key | key in waiters :: waiters[key].id,
              seq(|frames|, i requires 0 <= i < |frames| reads this, frames => frames[i].View()))
    }

    constructor ()
      ensures Valid() && View() == M.INITIAL
    {
      messages := [];
      waiters := map[];
      now := 0;
      frames := [];
    }

    /** Removes and returns the first buffered message for `transaction`, if there is one. */
    method TryPopLocked(transaction: string) returns (found: Option<M.Message>)
      modifies this`messages
      ensures var i := M.IndexFor(old(messages), transaction);
              if i < |old(messages)| then
                && found == Some(old(messages)[i])
                && messages == old(messages)[..i] + old(messages)[i + 1..]
              else found == None && messages == old(messages)
    {
      var i := 0;
      while i < |messages|
        invariant i <= |messages|
        invariant messages == old(messages)
        invariant forall j :: 0 <= j < i ==> messages[j].transaction != transaction
      {
        if messages[i].transaction == transaction {
          found := Some(messages[i]);
          messages := messages[..i] + messages[i + 1..];
          return;
        }
        i := i + 1;
      }
      found := None;
    }

    method Push(msg: M.Message)
      requires Valid() && M.Inv(View())
      modifies this`messages, this`waiters, frames
      ensures Valid() && View() == old(M.Step(View(), M.Push(msg)).state)
    {
      if msg.transaction in waiters {
        var w := waiters[msg.transaction];
        assert M.WaiterOk(View(), msg.transaction);
        w.result := Some(msg);
        if w.outcome == M.Undecided { w.outcome := M.Signalled; }
        waiters := waiters - {msg.transaction};
      } else {
        messages := messages + [msg];
      }
    }

    /** Registers a new waiter for a transaction that has none and arms its timers. */
    method Register(transaction: string, timeout: int) returns (w: Waiter)
      requires Valid() && M.IndexFor(messages, transaction) == |messages| && transaction !in waiters
      modifies this`waiters, this`frames
      ensures fresh(w) && frames == old(frames) + [w]
      ensures Valid() && View() == old(M.Step(View(), M.Wait(transaction, timeout)).state)
    {
      w := new Waiter(|frames|, transaction, now + if timeout < 0 then 0 else timeout);
      waiters := waiters[transaction := w];
      frames := frames + [w];
    }

    /** wait_for_transaction up to the point where it returns at once or suspends. */
    method WaitBegin(transaction: string, timeout: int) returns (answer: Option<M.Message>, suspended: Waiter?)
      requires Valid()
      modifies this`messages, this`waiters, this`frames
      ensures Valid() && View() == old(M.Step(View(), M.Wait(transaction, timeout)).state)
      ensures suspended == null ==>
                var mine := M.For(old(messages), transaction);
                answer == if mine != [] then Some(mine[0]) else None
      ensures answer.Some? ==> answer.value.transaction == transaction
      ensures suspended == null ==>
                && frames == old(frames)
                && M.Answered(answer) in old(M.Step(View(), M.Wait(transaction, timeout)).seen)
      ensures suspended != null ==>
                && fresh(suspended) && frames == old(frames) + [suspended]
                && old(M.Step(View(), M.Wait(transaction, timeout)).seen) == []
    {
      suspended := null;
      HeadOf(messages, transaction);
      answer := TryPopLocked(transaction);
      if answer.Some? {
        assert old(M.Step(View(), M.Wait(transaction, timeout)).seen)[1] == M.Answered(answer);
      } else if transaction in waiters {
        assert old(M.Step(View(), M.Wait(transaction, timeout)).seen)[0] == M.Answered(answer);
      } else {
        suspended := Register(transaction, timeout);
      }
    }

    /** Time goes by. */
    ghost method Elapse(duration: nat)
      requires Valid()
      modifies this`now
      ensures Valid() && View() == old(M.Step(View(), M.Tick(duration)).state)
    {
      now := now + duration;
    }

    /** The timeout timer of a suspended call completes before its signal. */
    method FireTimeout(w: Waiter)
      requires Valid() && w in frames && w.outcome == M.Undecided && !w.resumed && w.deadline <= now
      modifies w`outcome
      ensures Valid() && View() == old(M.Step(View(), M.Timeout(w.id)).state)
    {
      w.outcome := M.TimedOut;
    }

    /** wait_for_transaction after one of its timers has completed. */
    method Resume(w: Waiter) returns (answer: Option<M.Message>)
      requires Valid() && w in frames && !w.resumed && w.outcome != M.Undecided
      modifies this`waiters, w`resumed
      ensures Valid() && View() == old(M.Step(View(), M.Resume(w.id)).state)
      ensures M.Resumed(w.id, answer) in old(M.Step(View(), M.Resume(w.id)).seen)
    {
      waiters := waiters - {w.transaction};
      w.resumed := true;
      if w.outcome == M.Signalled {
        answer := w.result;
      } else {
        answer := None;
      }
    }
  }
}
