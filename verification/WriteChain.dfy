/**
 The self-sustaining write chain of network_connection.hpp: responses wait in a queue, and the
 completion of one asynchronous write starts the next. `outstanding` lists the writes that were
 started and have not completed, so that "at most one" is a fact to prove.
 */
module WriteChain {
  import opened Sequences

  datatype Chain<R> = Chain(responses: seq<R>, outstanding: seq<R>, failed: bool, written: seq<R>)

  datatype Event<R> = Send(response: R) | Done(ok: bool)

  function Empty<R>(): Chain<R> {
    Chain([], [], false, [])
  }

  /** write_response: an asynchronous write of the front of the queue. */
  function Start<R>(c: Chain<R>): Chain<R>
    requires c.responses != []
  {
    c.(outstanding := c.outstanding + [c.responses[0]])
  }

  /** The handler that send_response posts. */
  function SendStep<R>(c: Chain<R>, r: R): Chain<R> {
    var pushed := c.(responses := c.responses + [r]);
    if c.responses == [] then Start(pushed) else pushed
  }

  /** The completion handler of the oldest outstanding write. A failure leaves the queue as it is. */
  function DoneStep<R>(c: Chain<R>, ok: bool): Chain<R>
    requires c.outstanding != [] && c.responses != []
  {
    var rest := c.(outstanding := c.outstanding[1..]);
    if !ok then rest.(failed := true)
    else
      var popped := rest.(responses := c.responses[1..], written := c.written + [c.outstanding[0]]);
      if popped.responses == [] then popped else Start(popped)
  }

  /** A completion without an outstanding write does not happen and changes nothing. */
  function Step<R>(c: Chain<R>, e: Event<R>): Chain<R> {
    match e
    case Send(r) => SendStep(c, r)
    case Done(ok) => if c.outstanding != [] && c.responses != [] then DoneStep(c, ok) else c
  }

  function Run<R>(c: Chain<R>, es: seq<Event<R>>): Chain<R>
    decreases es
  {
    if es == [] then c else Run(Step(c, es[0]), es[1..])
  }

  function Sent<R>(es: seq<Event<R>>): seq<R> {
    if es == [] then [] else (if es[0].Send? then [es[0].response] else []) + Sent(es[1..])
  }

  /** One write is outstanding, of the front of the queue, exactly when the queue is non-empty and
      no write has failed; after a failure the queue never empties again. */
  ghost predicate Inv<R>(c: Chain<R>) {
    && c.outstanding == (if c.responses != [] && !c.failed then [c.responses[0]] else [])
    && (c.failed ==> c.responses != [])
  }

  lemma StepKeepsInv<R>(c: Chain<R>, e: Event<R>)
    requires Inv(c)
    ensures Inv(Step(c, e))
    ensures Step(c, e).written + Step(c, e).responses
         == c.written + c.responses + if e.Send? then [e.response] else []
    ensures c.failed ==> Step(c, e).failed && Step(c, e).written == c.written
    ensures c.outstanding != [] && e.Send? ==> Step(c, e).outstanding == c.outstanding
  {
    match e
    case Send(r) =>
      assert c.written + (c.responses + [r]) == c.written + c.responses + [r];
    case Done(ok) =>
      if c.outstanding != [] && ok {
        assert (c.written + [c.responses[0]]) + c.responses[1..] == c.written + c.responses;
      }
  }

  /** In every run the responses sent are those written followed by those queued, in order, and
      the invariant on outstanding writes holds. */
  lemma {:induction false} SentIsWrittenThenQueued<R>(c: Chain<R>, es: seq<Event<R>>)
    requires Inv(c)
    ensures Inv(Run(c, es))
    ensures Run(c, es).written + Run(c, es).responses == c.written + c.responses + Sent(es)
    decreases es
  {
    if es != [] {
      StepKeepsInv(c, es[0]);
      SentIsWrittenThenQueued(Step(c, es[0]), es[1..]);
      Assoc(c.written + c.responses, if es[0].Send? then [es[0].response] else [], Sent(es[1..]));
    }
  }

  /** After a failure nothing is written and no write is outstanding, in any continuation. */
  lemma {:induction false} FailureStopsWriting<R>(c: Chain<R>, es: seq<Event<R>>)
    requires Inv(c) && c.failed
    ensures Run(c, es).failed && Run(c, es).outstanding == [] && Run(c, es).written == c.written
    decreases es
  {
    if es != [] {
      StepKeepsInv(c, es[0]);
      FailureStopsWriting(Step(c, es[0]), es[1..]);
    }
  }

  /** If every write completes successfully, as many completions as there are queued responses
      write all of them, in order. */
  lemma {:induction false} ChainDrains<R>(c: Chain<R>, n: nat)
    requires Inv(c) && !c.failed && n == |c.responses|
    ensures Run(c, seq(n, _ => Done(true))).written == c.written + c.responses
    ensures Run(c, seq(n, _ => Done(true))).responses == []
    decreases n
  {
    if n > 0 {
      var es: seq<Event<R>> := seq(n, _ => Done(true));
      assert es[1..] == seq(n - 1, _ => Done(true));
      StepKeepsInv(c, Done(true));
      ChainDrains(Step(c, Done(true)), n - 1);
    }
  }
}
