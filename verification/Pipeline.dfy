/**
 The request pipeline of network_server.hpp, network_connection.hpp and network_queue.hpp: the
 context thread reads requests and writes responses, the main thread drains the shared queue,
 and one coroutine per request posts its response in whatever order the coroutines finish.
 */
module Pipeline {
  import opened Wrappers
  import WC = WriteChain

  // A request with the connection it was read from and the serial number of that read.
  datatype Request = Request(origin: nat, ticket: nat, body: string)

  // owned_message_handle: the connection the server will answer on, and the message.
  datatype Owned = Owned(client: nat, msg: Request)

  datatype Response = Response(to: Request, body: string)

  // A handler posted by send_response of connection `client`.
  datatype Post = Post(client: nat, response: Response)

  datatype Conn = Conn(open: bool, reading: bool, chain: WC.Chain<Response>)

  datatype State = State(
    conns: seq<Conn>,
    queue: seq<Owned>,       // the shared request queue
    hand: Option<Owned>,     // popped, on_request not yet called
    running: seq<Owned>,     // coroutines that have not finished
    posted: seq<Post>,       // handlers waiting in the context
    dropped: seq<Owned>,     // the client was disconnected at dispatch
    failed: seq<Owned>,      // the coroutine threw
    tickets: nat)

  datatype Event =
    | Accept
    | Read(conn: nat, body: string)
    | ReadFail(conn: nat)
    | Disconnect(conn: nat)
    | Pop
    | Dispatch
    | Finish(task: nat, body: string)
    | Throw(task: nat)
    | RunPost
    | WriteDone(conn: nat, ok: bool)

  const INITIAL := State([], [], None, [], [], [], [], 0)

  predicate Enabled(s: State, e: Event) {
    match e
    case Accept => true
    case Read(c, _) => c < |s.conns| && s.conns[c].reading
    case ReadFail(c) => c < |s.conns| && s.conns[c].reading
    case Disconnect(c) => c < |s.conns|
    case Pop => s.hand == None && s.queue != []
    case Dispatch => s.hand.Some? && s.hand.value.client < |s.conns|
    case Finish(i, _) => i < |s.running|
    case Throw(i) => i < |s.running|
    case RunPost => s.posted != [] && s.posted[0].client < |s.conns|
    case WriteDone(c, _) => c < |s.conns| && s.conns[c].chain.outstanding != [] && s.conns[c].chain.responses != []
  }

  function Without<T>(xs: seq<T>, i: nat): seq<T>
    requires i < |xs|
  {
    xs[..i] + xs[i + 1..]
  }

  /** An event that is not enabled leaves the state unchanged. */
  function Step(s: State, e: Event): State {
    if !Enabled(s, e) then s else
      match e
      case Accept => s.(conns := s.conns + [Conn(true, true, WC.Empty())])
      case Read(c, body) =>
        s.(queue := s.queue + [Owned(c, Request(c, s.tickets, body))], tickets := s.tickets + 1)
      case ReadFail(c) => s.(conns := s.conns[c := s.conns[c].(reading := false, open := false)])
      case Disconnect(c) => s.(conns := s.conns[c := s.conns[c].(open := false)])
      case Pop => s.(hand := Some(s.queue[0]), queue := s.queue[1..])
      case Dispatch =>
        var o := s.hand.value;
        if s.conns[o.client].open then s.(hand := None, running := s.running + [o])
        else s.(hand := None, dropped := s.dropped + [o])
      case Finish(i, body) =>
        var o := s.running[i];
        s.(running := Without(s.running, i), posted := s.posted + [Post(o.client, Response(o.msg, body))])
      case Throw(i) => s.(running := Without(s.running, i), failed := s.failed + [s.running[i]])
      case RunPost =>
        var p := s.posted[0];
        var conn := s.conns[p.client];
        s.(posted := s.posted[1..],
           conns := s.conns[p.client := conn.(chain := WC.SendStep(conn.chain, p.response))])
      case WriteDone(c, ok) =>
        var conn := s.conns[c];
        s.(conns := s.conns[c := conn.(chain := WC.DoneStep(conn.chain, ok), open := conn.open && ok)])
  }

  function After(s: State, es: seq<Event>): State
    decreases es
  {
    if es == [] then s else After(Step(s, es[0]), es[1..])
  }

  lemma {:induction false} AfterAppend(s: State, es: seq<Event>, fs: seq<Event>)
    ensures After(s, es + fs) == After(After(s, es), fs)
    decreases es
  {
    if es == [] {
      assert es + fs == fs;
    } else {
      assert (es + fs)[0] == es[0] && (es + fs)[1..] == es[1..] + fs;
      AfterAppend(Step(s, es[0]), es[1..], fs);
    }
  }

  /** The request that an event reads, if it reads one. */
  function ReadBy(s: State, e: Event): seq<Request> {
    if e.Read? && Enabled(s, e) then [Request(e.conn, s.tickets, e.body)] else []
  }

  function Reads(s: State, es: seq<Event>): seq<Request>
    decreases es
  {
    if es == [] then [] else ReadBy(s, es[0]) + Reads(Step(s, es[0]), es[1..])
  }

  // ------------------------------------------------------------ ownership

  ghost predicate Owns(o: Owned, conns: nat) {
    o.client == o.msg.origin && o.client < conns
  }

  /** Everything is answered, or will be, on the connection it was read from; only requests of
      closed connections are dropped; every write chain keeps its own invariant. */
  ghost predicate Inv(s: State) {
    && (forall i :: 0 <= i < |s.queue| ==> Owns(s.queue[i], |s.conns|))
    && (s.hand.Some? ==> Owns(s.hand.value, |s.conns|))
    && (forall i :: 0 <= i < |s.running| ==> Owns(s.running[i], |s.conns|))
    && (forall i :: 0 <= i < |s.failed| ==> Owns(s.failed[i], |s.conns|))
    && (forall i :: 0 <= i < |s.dropped| ==>
          Owns(s.dropped[i], |s.conns|) && !s.conns[s.dropped[i].client].open)
    && (forall i :: 0 <= i < |s.posted| ==>
          s.posted[i].client == s.posted[i].response.to.origin && s.posted[i].client < |s.conns|)
    && (forall c :: 0 <= c < |s.conns| ==> ConnOk(s.conns[c], c))
  }

  ghost predicate ConnOk(conn: Conn, c: nat) {
    && WC.Inv(conn.chain)
    && (conn.chain.failed ==> !conn.open)
    && (forall i :: 0 <= i < |conn.chain.responses| ==> conn.chain.responses[i].to.origin == c)
    && (forall i :: 0 <= i < |conn.chain.written| ==> conn.chain.written[i].to.origin == c)
  }

  lemma PostKeepsConnOk(conn: Conn, c: nat, r: Response)
    requires ConnOk(conn, c) && r.to.origin == c
    ensures ConnOk(conn.(chain := WC.SendStep(conn.chain, r)), c)
  {
    WC.StepKeepsInv(conn.chain, WC.Send(r));
  }

  lemma DoneKeepsConnOk(conn: Conn, c: nat, ok: bool)
    requires ConnOk(conn, c) && conn.chain.outstanding != [] && conn.chain.responses != []
    ensures ConnOk(conn.(chain := WC.DoneStep(conn.chain, ok), open := conn.open && ok), c)
  {
    WC.StepKeepsInv(conn.chain, WC.Done(ok));
  }

  lemma RunPostKeepsInv(s: State)
    requires Inv(s) && Enabled(s, RunPost)
    ensures Inv(Step(s, RunPost))
  {
    var p := s.posted[0];
    PostKeepsConnOk(s.conns[p.client], p.client, p.response);
  }

  lemma WriteDoneKeepsInv(s: State, c: nat, ok: bool)
    requires Inv(s) && Enabled(s, WriteDone(c, ok))
    ensures Inv(Step(s, WriteDone(c, ok)))
  {
    DoneKeepsConnOk(s.conns[c], c, ok);
  }

  lemma ConnEventKeepsInv(s: State, e: Event)
    requires Inv(s) && Enabled(s, e)
    requires e.Accept? || e.ReadFail? || e.Disconnect?
    ensures Inv(Step(s, e))
  {
  }

  lemma TaskEventKeepsInv(s: State, e: Event)
    requires Inv(s) && Enabled(s, e)
    requires e.Read? || e.Pop? || e.Dispatch? || e.Finish? || e.Throw?
    ensures Inv(Step(s, e))
  {
  }

  lemma StepKeepsInv(s: State, e: Event)
    requires Inv(s)
    ensures Inv(Step(s, e))
  {
    if Enabled(s, e) {
      match e
      case RunPost => RunPostKeepsInv(s);
      case WriteDone(c, ok) => WriteDoneKeepsInv(s, c, ok);
      case Accept => ConnEventKeepsInv(s, e);
      case ReadFail(_) => ConnEventKeepsInv(s, e);
      case Disconnect(_) => ConnEventKeepsInv(s, e);
      case _ => TaskEventKeepsInv(s, e);
    }
  }

  /** Ownership in every run. */
  lemma {:induction false} RunKeepsInv(s: State, es: seq<Event>)
    requires Inv(s)
    ensures Inv(After(s, es))
    decreases es
  {
    if es != [] {
      StepKeepsInv(s, es[0]);
      RunKeepsInv(Step(s, es[0]), es[1..]);
    }
  }
}
