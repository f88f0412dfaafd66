/** Every request that was read is in exactly one place, over all runs of the pipeline. */
module PipelineConservation {
  import opened Wrappers
  import opened Sequences
  import opened Pipeline
  import WC = WriteChain

  /** The sum of f(x, m) over the elements x of xs. */
  function Sum<T>(xs: seq<T>, f: (T, Request) -> nat, m: Request): nat {
    if xs == [] then 0 else f(xs[0], m) + Sum(xs[1..], f, m)
  }

  lemma {:induction false} SumAppend<T>(a: seq<T>, b: seq<T>, f: (T, Request) -> nat, m: Request)
    ensures Sum(a + b, f, m) == Sum(a, f, m) + Sum(b, f, m)
  {
    if a == [] {
      assert a + b == b;
    } else {
      assert (a + b)[0] == a[0] && (a + b)[1..] == a[1..] + b;
      SumAppend(a[1..], b, f, m);
    }
  }

  lemma SumPush<T>(a: seq<T>, x: T, f: (T, Request) -> nat, m: Request)
    ensures Sum(a + [x], f, m) == Sum(a, f, m) + f(x, m)
  {
    SumAppend(a, [x], f, m);
    assert [x][1..] == [];
  }

  lemma SumSplit<T>(a: seq<T>, i: nat, f: (T, Request) -> nat, m: Request)
    requires i < |a|
    ensures Sum(a, f, m) == Sum(a[..i], f, m) + f(a[i], m) + Sum(a[i + 1..], f, m)
  {
    assert a == (a[..i] + [a[i]]) + a[i + 1..];
    SumAppend(a[..i] + [a[i]], a[i + 1..], f, m);
    SumPush(a[..i], a[i], f, m);
  }

  lemma SumWithout<T>(a: seq<T>, i: nat, f: (T, Request) -> nat, m: Request)
    requires i < |a|
    ensures Sum(a, f, m) == Sum(Without(a, i), f, m) + f(a[i], m)
  {
    SumSplit(a, i, f, m);
    SumAppend(a[..i], a[i + 1..], f, m);
  }

  lemma SumUpdate<T>(a: seq<T>, i: nat, x: T, f: (T, Request) -> nat, m: Request)
    requires i < |a|
    ensures Sum(a[i := x], f, m) + f(a[i], m) == Sum(a, f, m) + f(x, m)
  {
    SumSplit(a, i, f, m);
    SumSplit(a[i := x], i, f, m);
    assert a[i := x][..i] == a[..i] && a[i := x][i + 1..] == a[i + 1..];
  }

  function Is(r: Request, m: Request): nat {
    if r == m then 1 else 0
  }

  function OwnedIs(o: Owned, m: Request): nat {
    Is(o.msg, m)
  }

  function AnswersIt(r: Response, m: Request): nat {
    Is(r.to, m)
  }

  function PostsAnswer(p: Post, m: Request): nat {
    Is(p.response.to, m)
  }

  /** Responses to `m` queued for writing, being written or written on a connection. */
  function AnswersOn(conn: Conn, m: Request): nat {
    Sum(conn.chain.responses, AnswersIt, m) + Sum(conn.chain.written, AnswersIt, m)
  }

  /** How many places of the pipeline hold request `m`, or a response to it. */
  function Places(s: State, m: Request): nat {
    Sum(s.queue, OwnedIs, m)
    + (if s.hand.Some? then OwnedIs(s.hand.value, m) else 0)
    + Sum(s.running, OwnedIs, m)
    + Sum(s.dropped, OwnedIs, m)
    + Sum(s.failed, OwnedIs, m)
    + Sum(s.posted, PostsAnswer, m)
    + Sum(s.conns, AnswersOn, m)
  }

  lemma SendCounts(conn: Conn, r: Response, m: Request)
    ensures AnswersOn(conn.(chain := WC.SendStep(conn.chain, r)), m) == AnswersOn(conn, m) + AnswersIt(r, m)
  {
    SumPush(conn.chain.responses, r, AnswersIt, m);
  }

  lemma DoneCounts(conn: Conn, ok: bool, m: Request)
    requires WC.Inv(conn.chain) && conn.chain.outstanding != [] && conn.chain.responses != []
    ensures AnswersOn(conn.(chain := WC.DoneStep(conn.chain, ok), open := conn.open && ok), m) == AnswersOn(conn, m)
  {
    SumPush(conn.chain.written, conn.chain.outstanding[0], AnswersIt, m);
  }

  lemma ConnEventCounts(s: State, e: Event, m: Request)
    requires Inv(s) && Enabled(s, e)
    requires e.Accept? || e.ReadFail? || e.Disconnect? || e.RunPost? || e.WriteDone?
    ensures Places(Step(s, e), m) == Places(s, m)
  {
    var s' := Step(s, e);
    match e
    case Accept => SumPush(s.conns, Conn(true, true, WC.Empty()), AnswersOn, m);
    case ReadFail(c) => SumUpdate(s.conns, c, s'.conns[c], AnswersOn, m);
    case Disconnect(c) => SumUpdate(s.conns, c, s'.conns[c], AnswersOn, m);
    case RunPost =>
      var p := s.posted[0];
      SendCounts(s.conns[p.client], p.response, m);
      SumUpdate(s.conns, p.client, s'.conns[p.client], AnswersOn, m);
    case WriteDone(c, ok) =>
      assert ConnOk(s.conns[c], c);
      DoneCounts(s.conns[c], ok, m);
      SumUpdate(s.conns, c, s'.conns[c], AnswersOn, m);
  }

  lemma TaskEventCounts(s: State, e: Event, m: Request)
    requires Enabled(s, e)
    requires e.Pop? || e.Dispatch? || e.Finish? || e.Throw?
    ensures Places(Step(s, e), m) == Places(s, m)
  {
    match e
    case Pop =>
    case Dispatch =>
      SumPush(s.running, s.hand.value, OwnedIs, m);
      SumPush(s.dropped, s.hand.value, OwnedIs, m);
    case Finish(i, body) =>
      var o := s.running[i];
      SumWithout(s.running, i, OwnedIs, m);
      SumPush(s.posted, Post(o.client, Response(o.msg, body)), PostsAnswer, m);
    case Throw(i) =>
      SumWithout(s.running, i, OwnedIs, m);
      SumPush(s.failed, s.running[i], OwnedIs, m);
  }

  lemma StepCounts(s: State, e: Event, m: Request)
    requires Inv(s)
    ensures Places(Step(s, e), m) == Places(s, m) + Sum(ReadBy(s, e), Is, m)
  {
    if Enabled(s, e) {
      match e
      case Read(c, body) =>
        var r := Request(c, s.tickets, body);
        SumPush(s.queue, Owned(c, r), OwnedIs, m);
        assert ReadBy(s, e) == [r] && [r][1..] == [];
      case Pop => TaskEventCounts(s, e, m);
      case Dispatch => TaskEventCounts(s, e, m);
      case Finish(_, _) => TaskEventCounts(s, e, m);
      case Throw(_) => TaskEventCounts(s, e, m);
      case _ => ConnEventCounts(s, e, m);
    }
  }

  lemma {:induction false} RunCounts(s: State, es: seq<Event>, m: Request)
    requires Inv(s)
    ensures Places(After(s, es), m) == Places(s, m) + Sum(Reads(s, es), Is, m)
    decreases es
  {
    if es != [] {
      StepKeepsInv(s, es[0]);
      StepCounts(s, es[0], m);
      RunCounts(Step(s, es[0]), es[1..], m);
      SumAppend(ReadBy(s, es[0]), Reads(Step(s, es[0]), es[1..]), Is, m);
    }
  }

  /** Serial numbers make every read distinct. */
  lemma {:induction false} ReadsDistinct(s: State, es: seq<Event>, m: Request)
    ensures Sum(Reads(s, es), Is, m) == if m in Reads(s, es) then 1 else 0
    ensures m in Reads(s, es) ==> m.ticket >= s.tickets
    decreases es
  {
    if es != [] {
      ReadsDistinct(Step(s, es[0]), es[1..], m);
      var first, rest := ReadBy(s, es[0]), Reads(Step(s, es[0]), es[1..]);
      SumAppend(first, rest, Is, m);
      assert m in first + rest <==> m in first || m in rest;
      if first != [] { assert first[1..] == []; }
    }
  }

  /** In every run, each request that was read is in exactly one place: the shared queue, the main
      thread's hand, a running coroutine, dropped, failed, a posted handler, or one response of one
      connection. A request that was not read is nowhere. */
  lemma ExactlyOnePlace(es: seq<Event>, m: Request)
    ensures Places(After(INITIAL, es), m) == if m in Reads(INITIAL, es) then 1 else 0
  {
    RunCounts(INITIAL, es, m);
    ReadsDistinct(INITIAL, es, m);
  }

  // ------------------------------------------------------------ what becomes of a request

  /** Nothing is pending: no request is queued, in hand or running, no handler is posted and no write is
      outstanding. Responses may be stuck behind a write that failed. */
  predicate AtRest(s: State) {
    && s.queue == [] && s.hand == None && s.running == [] && s.posted == []
    && forall c :: 0 <= c < |s.conns| ==> s.conns[c].chain.outstanding == []
  }

  ghost predicate WrittenOnItsConnection(s: State, m: Request) {
    && m.origin < |s.conns|
    && exists i :: 0 <= i < |s.conns[m.origin].chain.written| && s.conns[m.origin].chain.written[i].to == m
  }

  /** The response is still queued on the request's own connection, where a write failed. */
  ghost predicate StuckBehindFailure(s: State, m: Request) {
    && m.origin < |s.conns|
    && s.conns[m.origin].chain.failed && !s.conns[m.origin].open
    && exists i :: 0 <= i < |s.conns[m.origin].chain.responses| && s.conns[m.origin].chain.responses[i].to == m
  }

  ghost predicate DroppedAfterClose(s: State, m: Request) {
    && m.origin < |s.conns| && !s.conns[m.origin].open
    && exists i :: 0 <= i < |s.dropped| && s.dropped[i].msg == m
  }

  ghost predicate Threw(s: State, m: Request) {
    exists i :: 0 <= i < |s.failed| && s.failed[i].msg == m
  }

  lemma {:induction false} SumWitness<T>(xs: seq<T>, f: (T, Request) -> nat, m: Request) returns (i: nat)
    requires Sum(xs, f, m) > 0
    ensures i < |xs| && f(xs[i], m) > 0
  {
    if f(xs[0], m) > 0 {
      i := 0;
    } else {
      i := SumWitness(xs[1..], f, m);
      i := i + 1;
    }
  }

  lemma AnswerAtRest(s: State, m: Request, c: nat)
    requires Inv(s) && AtRest(s) && c < |s.conns| && AnswersOn(s.conns[c], m) > 0
    ensures WrittenOnItsConnection(s, m) || StuckBehindFailure(s, m)
  {
    var chain := s.conns[c].chain;
    assert ConnOk(s.conns[c], c);
    if Sum(chain.written, AnswersIt, m) > 0 {
      var i := SumWitness(chain.written, AnswersIt, m);
      assert chain.written[i].to.origin == c;
    } else {
      var i := SumWitness(chain.responses, AnswersIt, m);
      assert chain.responses[i].to.origin == c;
    }
  }

  /** When the pipeline has come to rest, every request that was read was written as a response on the
      connection it was read from, or failed with an exception, or was dropped because that
      connection had closed, or its response is queued on that connection behind a failed write. */
  lemma RestLeavesNothingOpen(es: seq<Event>, m: Request)
    requires AtRest(After(INITIAL, es)) && m in Reads(INITIAL, es)
    ensures var s := After(INITIAL, es);
            WrittenOnItsConnection(s, m) || Threw(s, m) || DroppedAfterClose(s, m) || StuckBehindFailure(s, m)
  {
    var s := After(INITIAL, es);
    ExactlyOnePlace(es, m);
    RunKeepsInv(INITIAL, es);
    if Sum(s.dropped, OwnedIs, m) > 0 {
      var i := SumWitness(s.dropped, OwnedIs, m);
    } else if Sum(s.failed, OwnedIs, m) > 0 {
      var i := SumWitness(s.failed, OwnedIs, m);
    } else {
      var c := SumWitness(s.conns, AnswersOn, m);
      AnswerAtRest(s, m, c);
    }
  }

  /** The fourth outcome is real: one failed write leaves the only response queued for ever. */
  lemma FailedWriteLeavesResponse(body: string, answer: string)
    ensures var es := [Accept, Read(0, body), Pop, Dispatch, Finish(0, answer)] + [RunPost, WriteDone(0, false)];
            var s, m := After(INITIAL, es), Request(0, 0, body);
            && AtRest(s) && m in Reads(INITIAL, es)
            && StuckBehindFailure(s, m)
            && !WrittenOnItsConnection(s, m) && !Threw(s, m) && !DroppedAfterClose(s, m)
  {
    var front, tail := [Accept, Read(0, body), Pop, Dispatch, Finish(0, answer)], [RunPost, WriteDone(0, false)];
    var r := Response(Request(0, 0, body), answer);
    var s5 := OneAnswerPosted(body, answer);
    var sent := Conn(true, true, WC.Chain([r], [r], false, []));
    var broken := Conn(false, true, WC.Chain([r], [], true, []));
    assert WC.SendStep(s5.conns[0].chain, r) == sent.chain && WC.DoneStep(sent.chain, false) == broken.chain;
    var s6 := Step(s5, RunPost);
    assert s6.conns == [sent] && s6.posted == [];
    var s7 := Step(s6, WriteDone(0, false));
    assert s7.conns == [broken];
    AfterAppend(INITIAL, front, tail);
    RunCons(s5, tail);
    RunCons(s6, tail[1..]);
    assert s7.conns[0].chain.responses[0] == r;
    ReadsSecond(front + tail);
  }

  lemma OneAnswerPosted(body: string, answer: string) returns (s5: State)
    ensures s5 == After(INITIAL, [Accept, Read(0, body), Pop, Dispatch, Finish(0, answer)])
    ensures s5 == State([Conn(true, true, WC.Empty())], [], None, [],
                        [Post(0, Response(Request(0, 0, body), answer))], [], [], 1)
  {
    var es := [Accept, Read(0, body), Pop, Dispatch, Finish(0, answer)];
    var o := Owned(0, Request(0, 0, body));
    var s1 := INITIAL.(conns := [Conn(true, true, WC.Empty())]);
    var s2 := s1.(queue := [o], tickets := 1);
    var s3 := s2.(queue := [], hand := Some(o));
    var s4 := s3.(hand := None, running := [o]);
    s5 := s4.(running := [], posted := [Post(0, Response(o.msg, answer))]);
    assert Step(INITIAL, es[0]) == s1 && Step(s1, es[1]) == s2 && Step(s2, es[2]) == s3;
    assert Step(s3, es[3]) == s4 && Step(s4, es[4]) == s5;
    RunCons(s4, es[4..]);
    RunCons(s3, es[3..]);
    RunCons(s2, es[2..]);
    RunCons(s1, es[1..]);
    RunCons(INITIAL, es);
  }

  lemma ReadsSecond(es: seq<Event>)
    requires |es| > 1 && es[0] == Accept && es[1].Read? && es[1].conn == 0
    ensures Request(0, 0, es[1].body) in Reads(INITIAL, es)
  {
    var s1 := Step(INITIAL, Accept);
    RunCons(INITIAL, es);
    RunCons(s1, es[1..]);
    assert ReadBy(s1, es[1]) == [Request(0, 0, es[1].body)];
  }

  lemma RunCons(s: State, es: seq<Event>)
    requires es != []
    ensures After(s, es) == After(Step(s, es[0]), es[1..])
    ensures Reads(s, es) == ReadBy(s, es[0]) + Reads(Step(s, es[0]), es[1..])
  {
  }

  // ------------------------------------------------------------ order

  function PoppedBy(s: State, e: Event): seq<Owned> {
    if e.Pop? && Enabled(s, e) then [s.queue[0]] else []
  }

  function Popped(s: State, es: seq<Event>): seq<Owned>
    decreases es
  {
    if es == [] then [] else PoppedBy(s, es[0]) + Popped(Step(s, es[0]), es[1..])
  }

  function AsOwned(rs: seq<Request>): (os: seq<Owned>)
    ensures |os| == |rs|
    ensures forall i :: 0 <= i < |rs| ==> os[i] == Owned(rs[i].origin, rs[i])
  {
    seq(|rs|, i requires 0 <= i < |rs| => Owned(rs[i].origin, rs[i]))
  }

  lemma StepOrder(s: State, e: Event)
    ensures s.queue + AsOwned(ReadBy(s, e)) == PoppedBy(s, e) + Step(s, e).queue
  {
  }

  /** Across all connections, requests leave the shared queue in the order they were read. */
  lemma {:induction false} QueueKeepsReadOrder(s: State, es: seq<Event>)
    ensures s.queue + AsOwned(Reads(s, es)) == Popped(s, es) + After(s, es).queue
    decreases es
  {
    if es != [] {
      var s' := Step(s, es[0]);
      StepOrder(s, es[0]);
      QueueKeepsReadOrder(s', es[1..]);
      assert AsOwned(Reads(s, es)) == AsOwned(ReadBy(s, es[0])) + AsOwned(Reads(s', es[1..]));
      Regroup(s.queue, AsOwned(ReadBy(s, es[0])), AsOwned(Reads(s', es[1..])), PoppedBy(s, es[0]), s'.queue,
              Popped(s', es[1..]), After(s, es).queue);
    }
  }

  function DispatchedBy(s: State, e: Event): seq<Owned> {
    if e.Dispatch? && Enabled(s, e) then [s.hand.value] else []
  }

  function Dispatched(s: State, es: seq<Event>): seq<Owned>
    decreases es
  {
    if es == [] then [] else DispatchedBy(s, es[0]) + Dispatched(Step(s, es[0]), es[1..])
  }

  function InHand(s: State): seq<Owned> {
    if s.hand.Some? then [s.hand.value] else []
  }

  lemma StepDispatches(s: State, e: Event)
    ensures (InHand(s) + s.queue) + AsOwned(ReadBy(s, e))
         == DispatchedBy(s, e) + (InHand(Step(s, e)) + Step(s, e).queue)
  {
  }

  /** Whatever the context thread reads while the update loop runs, requests are dispatched in the order
      they were read, and a loop that finds the queue empty has dispatched every one of them. */
  lemma {:induction false} DispatchKeepsReadOrder(s: State, es: seq<Event>)
    ensures (InHand(s) + s.queue) + AsOwned(Reads(s, es))
         == Dispatched(s, es) + (InHand(After(s, es)) + After(s, es).queue)
    decreases es
  {
    if es != [] {
      var s' := Step(s, es[0]);
      StepDispatches(s, es[0]);
      DispatchKeepsReadOrder(s', es[1..]);
      assert AsOwned(Reads(s, es)) == AsOwned(ReadBy(s, es[0])) + AsOwned(Reads(s', es[1..]));
      Regroup(InHand(s) + s.queue, AsOwned(ReadBy(s, es[0])), AsOwned(Reads(s', es[1..])), DispatchedBy(s, es[0]),
              InHand(s') + s'.queue, Dispatched(s', es[1..]), InHand(After(s, es)) + After(s, es).queue);
    }
  }

  /** What one event sends on or completes for one connection's write chain. */
  function ChainEvent(s: State, e: Event, c: nat): seq<WC.Event<Response>> {
    if !Enabled(s, e) then []
    else if e.RunPost? && s.posted[0].client == c then [WC.Send(s.posted[0].response)]
    else if e.WriteDone? && e.conn == c then [WC.Done(e.ok)]
    else []
  }

  /** What the events of a run send on and complete for one connection's write chain. */
  function ChainEvents(s: State, es: seq<Event>, c: nat): seq<WC.Event<Response>>
    decreases es
  {
    if es == [] then []
    else ChainEvent(s, es[0], c) + ChainEvents(Step(s, es[0]), es[1..], c)
  }

  lemma EventTouchesChain(s: State, e: Event, c: nat)
    requires c < |s.conns|
    ensures c < |Step(s, e).conns|
    ensures Step(s, e).conns[c].chain == WC.Run(s.conns[c].chain, ChainEvent(s, e, c))
  {
    var mine := ChainEvent(s, e, c);
    if mine != [] { assert mine[1..] == []; }
  }

  lemma ChainRunAppend(chain: WC.Chain<Response>, first: seq<WC.Event<Response>>, rest: seq<WC.Event<Response>>)
    requires |first| <= 1
    ensures WC.Run(chain, first + rest) == WC.Run(WC.Run(chain, first), rest)
  {
    if first == [] {
      assert first + rest == rest;
    } else {
      assert (first + rest)[1..] == rest && first[1..] == [];
    }
  }

  /** Each connection's chain runs as WriteChain describes, so its theorems hold of every connection. */
  lemma {:induction false} ConnRunsItsChain(s: State, es: seq<Event>, c: nat)
    requires c < |s.conns|
    ensures c < |After(s, es).conns|
    ensures After(s, es).conns[c].chain == WC.Run(s.conns[c].chain, ChainEvents(s, es, c))
    decreases es
  {
    if es != [] {
      var s' := Step(s, es[0]);
      ConnRunsItsChain(s', es[1..], c);
      EventTouchesChain(s, es[0], c);
      ChainRunAppend(s.conns[c].chain, ChainEvent(s, es[0], c), ChainEvents(s', es[1..], c));
    }
  }

  // The responses of posted handlers of one connection, in order.
  function PostedOn(ps: seq<Post>, c: nat): seq<Response> {
    if ps == [] then []
    else (if ps[0].client == c then [ps[0].response] else []) + PostedOn(ps[1..], c)
  }

  /** The response that an event lets a coroutine of connection `c` finish with, if any. */
  function FinishedBy(s: State, e: Event, c: nat): seq<Response> {
    if e.Finish? && Enabled(s, e) && s.running[e.task].client == c
    then [Response(s.running[e.task].msg, e.body)] else []
  }

  /** The responses of the coroutines of connection `c`, in the order they finish. */
  function Finished(s: State, es: seq<Event>, c: nat): seq<Response>
    decreases es
  {
    if es == [] then [] else FinishedBy(s, es[0], c) + Finished(Step(s, es[0]), es[1..], c)
  }

  /** The responses of connection `c` that have left their coroutines, oldest first. */
  function Line(s: State, c: nat): seq<Response>
    requires c < |s.conns|
  {
    (s.conns[c].chain.written + s.conns[c].chain.responses) + PostedOn(s.posted, c)
  }

  lemma {:induction false} PostedOnPush(ps: seq<Post>, p: Post, c: nat)
    ensures PostedOn(ps + [p], c) == PostedOn(ps, c) + if p.client == c then [p.response] else []
  {
    if ps == [] {
      assert ps + [p] == [p] && [p][1..] == [];
    } else {
      assert (ps + [p])[0] == ps[0] && (ps + [p])[1..] == ps[1..] + [p];
      PostedOnPush(ps[1..], p, c);
      Assoc(if ps[0].client == c then [ps[0].response] else [], PostedOn(ps[1..], c),
            if p.client == c then [p.response] else []);
    }
  }

  lemma FinishJoinsLine(s: State, task: nat, body: string, c: nat)
    requires c < |s.conns| && task < |s.running|
    ensures Line(Step(s, Finish(task, body)), c) == Line(s, c) + FinishedBy(s, Finish(task, body), c)
  {
    var o := s.running[task];
    PostedOnPush(s.posted, Post(o.client, Response(o.msg, body)), c);
    Assoc(s.conns[c].chain.written + s.conns[c].chain.responses, PostedOn(s.posted, c),
          FinishedBy(s, Finish(task, body), c));
  }

  lemma RunPostKeepsLine(s: State, c: nat)
    requires Inv(s) && c < |s.conns| && Enabled(s, RunPost)
    ensures Line(Step(s, RunPost), c) == Line(s, c)
  {
    var p := s.posted[0];
    if p.client == c {
      assert ConnOk(s.conns[c], c);
      WC.StepKeepsInv(s.conns[c].chain, WC.Send(p.response));
      Assoc(s.conns[c].chain.written + s.conns[c].chain.responses, [p.response], PostedOn(s.posted[1..], c));
    }
  }

  lemma WriteDoneKeepsLine(s: State, d: nat, ok: bool, c: nat)
    requires Inv(s) && c < |s.conns| && Enabled(s, WriteDone(d, ok))
    ensures Line(Step(s, WriteDone(d, ok)), c) == Line(s, c)
  {
    assert ConnOk(s.conns[d], d);
    WC.StepKeepsInv(s.conns[d].chain, WC.Done(ok));
  }

  lemma StepExtendsLine(s: State, e: Event, c: nat)
    requires Inv(s) && c < |s.conns|
    ensures c < |Step(s, e).conns|
    ensures Line(Step(s, e), c) == Line(s, c) + FinishedBy(s, e, c)
  {
    if Enabled(s, e) {
      match e
      case Finish(task, body) => FinishJoinsLine(s, task, body, c);
      case RunPost => RunPostKeepsLine(s, c);
      case WriteDone(d, ok) => WriteDoneKeepsLine(s, d, ok, c);
      case _ =>
    }
  }

  /** On every connection, the responses written, then those queued, then those still posted are the
      responses of its coroutines in the order they finished. */
  lemma {:induction false} ResponsesKeepFinishOrder(s: State, es: seq<Event>, c: nat)
    requires Inv(s) && c < |s.conns|
    ensures c < |After(s, es).conns|
    ensures Line(After(s, es), c) == Line(s, c) + Finished(s, es, c)
    decreases es
  {
    if es != [] {
      StepKeepsInv(s, es[0]);
      StepExtendsLine(s, es[0], c);
      ResponsesKeepFinishOrder(Step(s, es[0]), es[1..], c);
      Assoc(Line(s, c), FinishedBy(s, es[0], c), Finished(Step(s, es[0]), es[1..], c));
    }
  }
}
