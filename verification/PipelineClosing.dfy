/** Which connections are open and reading, over all runs, and what that means for their requests. */
module PipelineClosing {
  import opened Wrappers
  import opened Pipeline

  /** The events that close connection `c`: its read fails, it is disconnected, or a write on it fails. */
  predicate Closes(s: State, e: Event, c: nat) {
    Enabled(s, e) && (e == ReadFail(c) || e == Disconnect(c) || e == WriteDone(c, false))
  }

  predicate ClosedIn(s: State, es: seq<Event>, c: nat)
    decreases es
  {
    es != [] && (Closes(s, es[0], c) || ClosedIn(Step(s, es[0]), es[1..], c))
  }

  predicate ReadEndsIn(s: State, es: seq<Event>, c: nat)
    decreases es
  {
    es != [] && ((Enabled(s, es[0]) && es[0] == ReadFail(c)) || ReadEndsIn(Step(s, es[0]), es[1..], c))
  }

  function Accepts(es: seq<Event>): nat {
    if es == [] then 0 else (if es[0].Accept? then 1 else 0) + Accepts(es[1..])
  }

  lemma StepOpens(s: State, e: Event, c: nat)
    ensures |Step(s, e).conns| == |s.conns| + if e.Accept? then 1 else 0
    ensures c < |s.conns| ==>
              && (Step(s, e).conns[c].open <==> s.conns[c].open && !Closes(s, e, c))
              && (Step(s, e).conns[c].reading <==> s.conns[c].reading && !(Enabled(s, e) && e == ReadFail(c)))
    ensures |s.conns| <= c < |Step(s, e).conns| ==> Step(s, e).conns[c].open && Step(s, e).conns[c].reading
    ensures |s.conns| <= c ==> !Closes(s, e, c)
  {
  }

  lemma {:induction false} RunOpens(s: State, es: seq<Event>, c: nat)
    ensures |After(s, es).conns| == |s.conns| + Accepts(es)
    ensures c < |After(s, es).conns| ==>
              && (After(s, es).conns[c].open <==>
                    (c < |s.conns| ==> s.conns[c].open) && !ClosedIn(s, es, c))
              && (After(s, es).conns[c].reading <==>
                    (c < |s.conns| ==> s.conns[c].reading) && !ReadEndsIn(s, es, c))
    decreases es
  {
    if es != [] {
      StepOpens(s, es[0], c);
      RunOpens(Step(s, es[0]), es[1..], c);
    }
  }

  /** In every run the connections are the accepted ones; one is open if and only if none of its reads and
      writes has failed and it was not disconnected, and it reads if and only if none of its reads failed. */
  lemma OpenIffNotClosed(es: seq<Event>, c: nat)
    requires c < Accepts(es)
    ensures |After(INITIAL, es).conns| == Accepts(es)
    ensures After(INITIAL, es).conns[c].open <==> !ClosedIn(INITIAL, es, c)
    ensures After(INITIAL, es).conns[c].reading <==> !ReadEndsIn(INITIAL, es, c)
  {
    RunOpens(INITIAL, es, c);
  }

  /** Whenever a request is dispatched, it is spawned if and only if nothing has closed its connection
      since it was accepted; otherwise it is dropped, and no coroutine ever answers it. */
  lemma DispatchSpawnsIffNotClosed(es: seq<Event>)
    requires After(INITIAL, es).hand.Some?
    ensures var s, o := After(INITIAL, es), After(INITIAL, es).hand.value;
            Step(s, Dispatch) == if ClosedIn(INITIAL, es, o.msg.origin)
                                 then s.(hand := None, dropped := s.dropped + [o])
                                 else s.(hand := None, running := s.running + [o])
  {
    RunKeepsInv(INITIAL, es);
    RunOpens(INITIAL, es, After(INITIAL, es).hand.value.client);
  }

  lemma {:induction false} ClosedStaysClosed(s: State, es: seq<Event>, fs: seq<Event>, c: nat)
    requires ClosedIn(s, es, c)
    ensures ClosedIn(s, es + fs, c)
    decreases es
  {
    assert (es + fs)[0] == es[0] && (es + fs)[1..] == es[1..] + fs;
    if !Closes(s, es[0], c) { ClosedStaysClosed(Step(s, es[0]), es[1..], fs, c); }
  }

  /** A connection that has closed once never opens again. */
  lemma NeverReopens(es: seq<Event>, fs: seq<Event>, c: nat)
    requires c < |After(INITIAL, es).conns| && !After(INITIAL, es).conns[c].open
    ensures c < |After(INITIAL, es + fs).conns| && !After(INITIAL, es + fs).conns[c].open
  {
    RunOpens(INITIAL, es, c);
    ClosedStaysClosed(INITIAL, es, fs, c);
    AfterAppend(INITIAL, es, fs);
    RunOpens(After(INITIAL, es), fs, c);
  }
}
