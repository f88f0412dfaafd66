/**
 The connection and server objects in their own form: fields updated in place by completion
 handlers and by the main thread's update loop. Every event of Pipeline has its method here, proved to
 take that step; RunContext and Update put them together into runs.
 */
module Servers {
  import opened Wrappers
  import opened Pipeline
  import opened PipelineConservation
  import WC = WriteChain

  class Connection {
    const id: nat
    var open: bool
    var reading: bool
    var responses: seq<Response>
    var outstanding: seq<Response>   // asynchronous writes started and not completed
    ghost var written: seq<Response>
    ghost var failed: bool

    constructor (id: nat)
      ensures this.id == id && View() == Conn(true, true, WC.Empty())
    {
      this.id := id;
      open, reading := true, true;
      responses := [];
      outstanding, written, failed := [], [], false;
    }

    ghost function View(): Conn
      reads this
    {
      Conn(open, reading, WC.Chain(responses, outstanding, failed, written))
    }

    /** Starts an asynchronous write of the front of the queue. */
    method WriteResponse()
      requires responses != []
      modifies this`outstanding
      ensures View() == old(View()).(chain := WC.Start(old(View()).chain))
    {
      outstanding := outstanding + [responses[0]];
    }

    /** The handler that send_response posts. */
    method HandleSend(response: Response)
      modifies this`responses, this`outstanding
      ensures View() == old(View()).(chain := WC.SendStep(old(View()).chain, response))
    {
      var isWriting := responses != [];
      responses := responses + [response];
      if !isWriting {
        WriteResponse();
      }
    }

    /** The completion handler of an asynchronous write. */
    method HandleWrite(ok: bool)
      requires outstanding != [] && responses != []
      modifies this`responses, this`outstanding, this`written, this`failed, this`open
      ensures View() == old(View()).(chain := WC.DoneStep(old(View()).chain, ok), open := old(open) && ok)
    {
      ghost var completed := outstanding[0];
      outstanding := outstanding[1..];
      if ok {
        responses := responses[1..];
        written := written + [completed];
        if responses != [] {
          WriteResponse();
        }
      } else {
        open := false;
        failed := true;
      }
    }
  }

  /** Events of the context thread; the other two are the main thread's update loop. */
  predicate OnContext(e: Event) {
    !e.Pop? && !e.Dispatch?
  }

  /** What the context thread does during one turn of the update loop: between the pop and the
      dispatch, and between the dispatch and the next test for emptiness. */
  datatype Turn = Turn(popped: seq<Event>, dispatched: seq<Event>) {
    predicate Valid() {
      && (forall i :: 0 <= i < |popped| ==> OnContext(popped[i]))
      && (forall i :: 0 <= i < |dispatched| ==> OnContext(dispatched[i]))
    }

    function Events(): seq<Event> {
      ([Pop] + popped) + ([Dispatch] + dispatched)
    }
  }

  function During(meanwhile: seq<Turn>, k: nat): Turn {
    if k < |meanwhile| then meanwhile[k] else Turn([], [])
  }

  /** The events of n turns of the update loop and of the context thread meanwhile. */
  function Interleaved(meanwhile: seq<Turn>, n: nat): seq<Event> {
    if n == 0 then [] else Interleaved(meanwhile, n - 1) + During(meanwhile, n - 1).Events()
  }

  /** No connections but new objects have been added. */
  twostate predicate GrownFreshly(before: seq<Connection>, new now: seq<Connection>) {
    forall i :: 0 <= i < |now| ==> now[i] in before || fresh(now[i])
  }

  class Server {
    var clients: seq<Connection>
    var requests: seq<Owned>
    var running: seq<Owned>
    var posted: seq<Post>
    var tickets: nat         // numbers the reads; it only tells requests apart
    ghost var state: State   // the state of Pipeline that the objects represent

    ghost predicate Valid()
      reads this, clients
    {
      && |clients| == |state.conns|
      && (forall i :: 0 <= i < |clients| ==> clients[i].id == i && clients[i].View() == state.conns[i])
      && requests == state.queue && running == state.running && posted == state.posted
      && tickets == state.tickets
    }

    constructor ()
      ensures Valid() && state == INITIAL
    {
      clients, requests, running, posted, tickets := [], [], [], [], 0;
      state := INITIAL;
    }

    /** The acceptor has a new socket; the connection starts to read. */
    method Accept()
      requires Valid()
      modifies this`clients, this`state
      ensures Valid() && GrownFreshly(old(clients), clients)
      ensures state == Step(old(state), Event.Accept)
    {
      var connection := new Connection(|clients|);
      clients := clients + [connection];
      state := Step(state, Event.Accept);
    }

    /** add_to_incoming_requests on connection `c`, after a successful read. */
    method HandleRead(c: nat, body: string)
      requires Valid() && c < |clients| && clients[c].reading
      modifies this`requests, this`tickets, this`state
      ensures Valid() && state == Step(old(state), Read(c, body))
    {
      requests := requests + [Owned(c, Request(c, tickets, body))];
      tickets := tickets + 1;
      state := Step(state, Read(c, body));
    }

    /** The completion handler of a failed read closes the socket and starts no further read. */
    method HandleReadFailure(c: nat)
      requires Valid() && c < |clients| && clients[c].reading
      modifies clients[c], this`state
      ensures Valid() && state == Step(old(state), ReadFail(c))
    {
      clients[c].open := false;
      clients[c].reading := false;
      state := Step(state, ReadFail(c));
    }

    /** The handler that disconnect posts. */
    method CloseSocket(c: nat)
      requires Valid() && c < |clients|
      modifies clients[c], this`state
      ensures Valid() && state == Step(old(state), Disconnect(c))
    {
      clients[c].open := false;
      state := Step(state, Disconnect(c));
    }

    /** A coroutine has its answer and posts it to the connection it keeps alive. */
    method Answer(task: nat, body: string)
      requires Valid() && task < |running|
      modifies this`running, this`posted, this`state
      ensures Valid() && state == Step(old(state), Finish(task, body))
    {
      var request := running[task];
      running := running[..task] + running[task + 1..];
      posted := posted + [Post(request.client, Response(request.msg, body))];
      state := Step(state, Finish(task, body));
    }

    /** A coroutine ends with an exception, which its completion handler swallows. */
    method Abandon(task: nat)
      requires Valid() && task < |running|
      modifies this`running, this`state
      ensures Valid() && state == Step(old(state), Throw(task))
    {
      running := running[..task] + running[task + 1..];
      state := Step(state, Throw(task));
    }

    /** The context thread runs the oldest posted handler. */
    method RunPosted()
      requires Valid() && posted != [] && posted[0].client < |clients|
      modifies this`posted, this`state, clients[posted[0].client]
      ensures Valid() && state == Step(old(state), RunPost)
    {
      var post := posted[0];
      posted := posted[1..];
      clients[post.client].HandleSend(post.response);
      state := Step(state, RunPost);
    }

    /** The context thread runs the completion handler of a write on connection `c`. */
    method CompleteWrite(c: nat, ok: bool)
      requires Valid() && c < |clients| && clients[c].outstanding != [] && clients[c].responses != []
      modifies clients[c], this`state
      ensures Valid() && state == Step(old(state), WriteDone(c, ok))
    {
      clients[c].HandleWrite(ok);
      state := Step(state, WriteDone(c, ok));
    }

    /** The context thread runs the handler of one event, if it is ready. */
    method Handle(e: Event)
      requires Valid() && OnContext(e)
      modifies this`clients, this`requests, this`tickets, this`running, this`posted, this`state, clients
      ensures Valid() && GrownFreshly(old(clients), clients)
      ensures state == Step(old(state), e)
    {
      match e
      case Accept => Accept();
      case Read(c, body) => if c < |clients| && clients[c].reading { HandleRead(c, body); }
      case ReadFail(c) => if c < |clients| && clients[c].reading { HandleReadFailure(c); }
      case Disconnect(c) => if c < |clients| { CloseSocket(c); }
      case Finish(task, body) => if task < |running| { Answer(task, body); }
      case Throw(task) => if task < |running| { Abandon(task); }
      case RunPost => if posted != [] && posted[0].client < |clients| { RunPosted(); }
      case WriteDone(c, ok) =>
        if c < |clients| && clients[c].outstanding != [] && clients[c].responses != [] { CompleteWrite(c, ok); }
    }

    /** The context thread runs any number of handlers: every run of the objects is a run of Pipeline. */
    method RunContext(es: seq<Event>)
      requires Valid() && forall i :: 0 <= i < |es| ==> OnContext(es[i])
      modifies this`clients, this`requests, this`tickets, this`running, this`posted, this`state, clients
      ensures Valid() && GrownFreshly(old(clients), clients)
      ensures state == After(old(state), es)
    {
      ghost var before := state;
      for i := 0 to |es|
        invariant Valid() && GrownFreshly(old(clients), clients)
        invariant state == After(before, es[..i])
      {
        OneMore(before, es[..i], es[i]);
        assert es[..i + 1] == es[..i] + [es[i]];
        Handle(es[i]);
      }
      assert es[..|es|] == es;
    }

    /** pop_front: the main thread takes the oldest request. */
    method PopFront() returns (request: Owned)
      requires Valid() && state.hand == None && requests != []
      modifies this`requests, this`state
      ensures Valid() && state == Step(old(state), Pop) && state.hand == Some(request)
    {
      request := requests[0];
      requests := requests[1..];
      state := Step(state, Pop);
    }

    /** on_request: spawns a coroutine for a connected client, drops the request otherwise. */
    method OnRequest(request: Owned)
      requires Valid() && state.hand == Some(request) && request.client < |clients|
      modifies this`running, this`state
      ensures Valid() && state == Step(old(state), Dispatch)
    {
      if clients[request.client].open {
        running := running + [request];
      }   // otherwise nobody keeps the request
      state := Step(state, Dispatch);
    }

    /** One turn of the update loop. */
    method PopAndDispatch(turn: Turn)
      requires Valid() && Inv(state) && state.hand == None && requests != [] && turn.Valid()
      modifies this, clients
      ensures Valid() && GrownFreshly(old(clients), clients)
      ensures state == AfterTurn(old(state), turn)
    {
      TurnEmptiesHand(state, turn);
      var request := PopFront();
      RunContext(turn.popped);
      OnRequest(request);
      RunContext(turn.dispatched);
    }

    /** update: pops and dispatches until it finds the queue empty. The counter that is compared with
        the limit never grows, so any limit but 0 is no limit. The context thread handles
        `meanwhile[k]` during turn k, and nothing in later turns. */
    method Update(maxRequests: nat, meanwhile: seq<Turn>) returns (turns: nat)
      requires Valid() && Inv(state) && state.hand == None
      requires forall k :: 0 <= k < |meanwhile| ==> meanwhile[k].Valid()
      modifies this, clients
      ensures Valid() && state.hand == None && if maxRequests == 0 then turns == 0 else requests == []
      ensures state == After(old(state), Interleaved(meanwhile, turns))
      ensures Dispatched(old(state), Interleaved(meanwhile, turns)) + requests
           == old(requests) + AsOwned(Reads(old(state), Interleaved(meanwhile, turns)))
      ensures turns == |Dispatched(old(state), Interleaved(meanwhile, turns))|
      ensures meanwhile == [] && maxRequests > 0 ==> turns == |old(requests)| && Drained(old(state), turns, state)
    {
      ghost var before := state;
      var requestCount := 0;
      turns := 0;
      while requestCount < maxRequests && requests != []
        invariant Valid() && GrownFreshly(old(clients), clients)
        invariant Reached(before, meanwhile, turns, state)
        invariant maxRequests == 0 ==> turns == 0
        decreases if turns < |meanwhile| then |meanwhile| - turns else 0, |requests|
      {
        OneMoreTurn(before, meanwhile, turns, state);
        PopAndDispatch(During(meanwhile, turns));
        turns := turns + 1;
      }
      TurnsKeepReadOrder(before, meanwhile, turns, state);
    }
  }

  /** The state `now` after n turns of the update loop. */
  ghost predicate Drained(s: State, n: nat, now: State)
    requires n <= |s.queue|
  {
    now == s.(queue := s.queue[n..],
              running := s.running + Connected(s.queue[..n], s.conns, true),
              dropped := s.dropped + Connected(s.queue[..n], s.conns, false))
  }

  lemma TurnSorts(s: State, n: nat, now: State)
    requires Inv(s) && s.hand == None && n < |s.queue| && Drained(s, n, now)
    ensures Drained(s, n + 1, Step(Step(now, Pop), Dispatch))
  {
    assert s.queue[..n + 1] == s.queue[..n] + [s.queue[n]];
    ConnectedAppend(s.queue[..n], s.queue[n], s.conns);
    assert Owns(s.queue[n], |s.conns|);
    var popped := Step(now, Pop);
    assert popped.hand == Some(s.queue[n]) && popped.queue == s.queue[n + 1..];
  }

  /** n turns of an undisturbed update loop move the first n requests out of the queue, in order: to
      coroutines if their connection is open, to the dropped ones otherwise. */
  lemma {:induction false} DrainingSorts(s: State, n: nat)
    requires Inv(s) && s.hand == None && n <= |s.queue|
    ensures Drained(s, n, After(s, Interleaved([], n)))
    decreases n
  {
    if n > 0 {
      DrainingSorts(s, n - 1);
      TurnIsRun(s, Interleaved([], n - 1), Turn([], []));
      TurnSorts(s, n - 1, After(s, Interleaved([], n - 1)));
    }
  }

  /** The state after one turn of the update loop. */
  function AfterTurn(s: State, t: Turn): State {
    After(Step(After(Step(s, Pop), t.popped), Dispatch), t.dispatched)
  }

  lemma OneMore(s: State, es: seq<Event>, e: Event)
    ensures After(s, es + [e]) == Step(After(s, es), e)
  {
    AfterAppend(s, es, [e]);
    assert [e][1..] == [];
  }

  lemma TurnIsRun(s: State, es: seq<Event>, t: Turn)
    ensures After(s, es + t.Events()) == AfterTurn(After(s, es), t)
  {
    var s' := After(s, es);
    AfterAppend(s, es, t.Events());
    AfterAppend(s', [Pop] + t.popped, [Dispatch] + t.dispatched);
    assert ([Pop] + t.popped)[1..] == t.popped && ([Dispatch] + t.dispatched)[1..] == t.dispatched;
  }

  lemma {:induction false} ContextDispatchesNothing(s: State, es: seq<Event>)
    requires forall i :: 0 <= i < |es| ==> OnContext(es[i])
    ensures After(s, es).hand == s.hand && Dispatched(s, es) == []
    decreases es
  {
    if es != [] { ContextDispatchesNothing(Step(s, es[0]), es[1..]); }
  }

  lemma {:induction false} DispatchedAppend(s: State, es: seq<Event>, fs: seq<Event>)
    ensures Dispatched(s, es + fs) == Dispatched(s, es) + Dispatched(After(s, es), fs)
    decreases es
  {
    if es == [] {
      assert es + fs == fs;
    } else {
      assert (es + fs)[0] == es[0] && (es + fs)[1..] == es[1..] + fs;
      DispatchedAppend(Step(s, es[0]), es[1..], fs);
    }
  }

  /** During a turn the popped request stays in hand until it is dispatched. */
  lemma TurnEmptiesHand(s: State, t: Turn)
    requires Inv(s) && s.hand == None && s.queue != [] && t.Valid()
    ensures var popped := After(Step(s, Pop), t.popped);
            popped.hand == Some(s.queue[0]) && s.queue[0].client < |popped.conns|
    ensures Inv(AfterTurn(s, t)) && AfterTurn(s, t).hand == None
  {
    var s1 := Step(s, Pop);
    var s2 := After(s1, t.popped);
    var s3 := Step(s2, Dispatch);
    StepKeepsInv(s, Pop);
    RunKeepsInv(s1, t.popped);
    ContextDispatchesNothing(s1, t.popped);
    StepKeepsInv(s2, Dispatch);
    RunKeepsInv(s3, t.dispatched);
    ContextDispatchesNothing(s3, t.dispatched);
  }

  /** One turn dispatches one request, the popped one, whatever the context thread does meanwhile. */
  lemma TurnDispatchesOne(s: State, t: Turn)
    requires Inv(s) && s.hand == None && s.queue != [] && t.Valid()
    ensures Dispatched(s, t.Events()) == [s.queue[0]]
  {
    var s2 := After(Step(s, Pop), t.popped);
    TurnEmptiesHand(s, t);
    ContextDispatchesNothing(Step(s, Pop), t.popped);
    ContextDispatchesNothing(Step(s2, Dispatch), t.dispatched);
    var front, back := [Pop] + t.popped, [Dispatch] + t.dispatched;
    assert front[1..] == t.popped && back[1..] == t.dispatched;
    DispatchedAppend(s, front, back);
    assert Dispatched(s, front) == [];
  }

  /** The update loop started in `s` and is at `now` after n turns, each of which dispatched one request. */
  ghost predicate Reached(s: State, meanwhile: seq<Turn>, n: nat, now: State) {
    && now == After(s, Interleaved(meanwhile, n)) && now.hand == None
    && |Dispatched(s, Interleaved(meanwhile, n))| == n
  }

  lemma OneMoreTurn(s: State, meanwhile: seq<Turn>, n: nat, now: State)
    requires Inv(s) && s.hand == None && Reached(s, meanwhile, n, now) && now.queue != []
    requires forall k :: 0 <= k < |meanwhile| ==> meanwhile[k].Valid()
    ensures Inv(now) && Reached(s, meanwhile, n + 1, AfterTurn(now, During(meanwhile, n)))
    ensures n >= |meanwhile| ==> |AfterTurn(now, During(meanwhile, n)).queue| < |now.queue|
  {
    var t := During(meanwhile, n);
    RunKeepsInv(s, Interleaved(meanwhile, n));
    TurnIsRun(s, Interleaved(meanwhile, n), t);
    TurnEmptiesHand(now, t);
    TurnDispatchesOne(now, t);
    DispatchedAppend(s, Interleaved(meanwhile, n), t.Events());
  }

  lemma {:induction false} UndisturbedReadsNothing(s: State, n: nat)
    ensures Reads(s, Interleaved([], n)) == []
    decreases n
  {
    if n > 0 {
      var es, s' := Interleaved([], n - 1), After(s, Interleaved([], n - 1));
      UndisturbedReadsNothing(s, n - 1);
      assert Turn([], []).Events() == [Pop, Dispatch] && [Pop, Dispatch][1..] == [Dispatch];
      RunCons(s', [Pop, Dispatch]);
      RunCons(Step(s', Pop), [Dispatch]);
      ReadsAppend(s, es, [Pop, Dispatch]);
    }
  }

  lemma {:induction false} ReadsAppend(s: State, es: seq<Event>, fs: seq<Event>)
    ensures Reads(s, es + fs) == Reads(s, es) + Reads(After(s, es), fs)
    decreases es
  {
    if es == [] {
      assert es + fs == fs;
    } else {
      assert (es + fs)[0] == es[0] && (es + fs)[1..] == es[1..] + fs;
      ReadsAppend(Step(s, es[0]), es[1..], fs);
    }
  }

  lemma TurnsKeepReadOrder(s: State, meanwhile: seq<Turn>, n: nat, now: State)
    requires Inv(s) && s.hand == None && Reached(s, meanwhile, n, now)
    ensures var es := Interleaved(meanwhile, n);
            Dispatched(s, es) + now.queue == s.queue + AsOwned(Reads(s, es)) && n == |Dispatched(s, es)|
    ensures meanwhile == [] && now.queue == [] ==> n == |s.queue| && Drained(s, n, now)
  {
    DispatchKeepsReadOrder(s, Interleaved(meanwhile, n));
    assert InHand(s) + s.queue == s.queue && InHand(now) + now.queue == now.queue;
    if meanwhile == [] && now.queue == [] {
      UndisturbedReadsNothing(s, n);
      DrainingSorts(s, n);
    }
  }

  /** The requests whose connection is open (or is not), in order. */
  function Connected(requests: seq<Owned>, conns: seq<Conn>, open: bool): seq<Owned> {
    if requests == [] then []
    else (if (requests[0].client < |conns| && conns[requests[0].client].open) == open then [requests[0]] else [])
         + Connected(requests[1..], conns, open)
  }

  lemma {:induction false} ConnectedAppend(a: seq<Owned>, o: Owned, conns: seq<Conn>)
    ensures forall open: bool :: Connected(a + [o], conns, open) == Connected(a, conns, open)
              + if (o.client < |conns| && conns[o.client].open) == open then [o] else []
  {
    if a == [] {
      assert a + [o] == [o] && [o][1..] == [];
    } else {
      assert (a + [o])[0] == a[0] && (a + [o])[1..] == a[1..] + [o];
      ConnectedAppend(a[1..], o, conns);
    }
  }
}
