/**
 The session handler with its threads: callers, the destructor, the cleaner thread, the mutex and the
 two atomic flags of network_session_handler.cpp. Critical sections of callers are single events. The
 flags are set, and the cleaner is notified, without the mutex, so every access of the cleaner to a
 flag, its block and its wake-up are events of their own: a notification that finds the cleaner between
 its last test and its block wakes nobody.
 */
module CleanerProtocol {
  import opened Wrappers
  import opened SessionTokens
  import opened SessionStore
  import opened SessionRefinement

  datatype CleanerPc =
    | Start                      // wants the mutex for the first time
    | Top                        // about to load `clean` in the loop condition
    | TestClean                  // wait predicate: about to load `clean`
    | TestPanic                  // `clean` was true: about to load `panic_clean`
    | Blocking                   // predicate was false: about to block and release the mutex
    | Waiting                    // blocked in wait_for, mutex released
    | Relocking(timedOut: bool)  // unblocked, wants the mutex back
    | Woken                      // wait_for has returned: about to load `clean`
    | Sweeping                   // about to remove inactive sessions
    | PassDone                   // about to load `panic_clean`
    | Clearing                   // about to store false into `panic_clean`
    | Exited

  datatype CallerPc = MustSet | MustNotify | Finished

  /** A caller of new_session that found the store full. `served` records whether the cleaner has
      made a pass since that check. */
  datatype Caller = Caller(pc: CallerPc, served: bool)

  datatype DestructorPc = NotCalled | MustNotifyAll | Joining

  datatype State = State(store: seq<Session>, clean: bool, panic: bool, cleaner: CleanerPc, callers: seq<Caller>,
                         destructor: DestructorPc)

  datatype Event =
    | Request(op: Op)
    | SetFlag(caller: nat)
    | Notify(caller: nat)
    | StoreClean
    | NotifyAll
    | Clean(readings: seq<Stamp>)   // the cleaner's own next step; a pass reads the clock once a session
    | Expire                        // the 30 seconds of wait_for are over
    | Spurious

  const INITIAL := State([], true, false, Start, [], NotCalled)

  predicate MutexFree(s: State) {
    s.cleaner in {Start, Waiting, Exited} || s.cleaner.Relocking?
  }

  predicate Enabled(s: State, e: Event) {
    match e
    case Request(op) => MutexFree(s) && !op.Sweep?
    case SetFlag(i) => i < |s.callers| && s.callers[i].pc == MustSet
    case Notify(i) => i < |s.callers| && s.callers[i].pc == MustNotify
    case StoreClean => s.destructor == NotCalled
    case NotifyAll => s.destructor == MustNotifyAll
    case Clean(readings) =>
      s.cleaner != Waiting && s.cleaner != Exited && (s.cleaner == Sweeping ==> |readings| == |s.store|)
    case Expire => s.cleaner == Waiting
    case Spurious => s.cleaner == Waiting
  }

  function AllServed(callers: seq<Caller>): (r: seq<Caller>)
    ensures |r| == |callers|
    ensures forall i :: 0 <= i < |r| ==> r[i] == callers[i].(served := true)
  {
    seq(|callers|, i requires 0 <= i < |callers| => callers[i].(served := true))
  }

  /** A notification reaches the cleaner only while it is blocked. */
  function Notified(pc: CleanerPc): CleanerPc {
    if pc == Waiting then Relocking(false) else pc
  }

  /** The wait ends when its predicate holds, or after the timeout, whatever the predicate says then. */
  function CleanStep(max: nat, s: State, readings: seq<Stamp>): State
    requires Enabled(s, Clean(readings))
  {
    match s.cleaner
    case Start => s.(cleaner := Top)
    case Top => s.(cleaner := if s.clean then TestClean else Exited)
    case TestClean => s.(cleaner := if s.clean then TestPanic else Woken)
    case TestPanic => s.(cleaner := if s.panic then Woken else Blocking)
    case Blocking => s.(cleaner := Waiting)
    case Relocking(timedOut) => s.(cleaner := if timedOut then Woken else TestClean)
    case Woken => s.(cleaner := if s.clean then Sweeping else Exited)
    case Sweeping =>
      s.(store := After(max, s.store, Sweep(readings)), callers := AllServed(s.callers), cleaner := PassDone)
    case PassDone => s.(cleaner := if s.panic then Clearing else Top)
    case Clearing => s.(panic := false, cleaner := Top)
  }

  /** An event that is not enabled leaves the state unchanged. */
  function Step(max: nat, s: State, e: Event): State {
    if !Enabled(s, e) then s else
      match e
      case Request(op) =>
        var failed := ReplyTo(max, s.store, op) == Refused;
        s.(store := After(max, s.store, op),
           callers := s.callers + if failed then [Caller(MustSet, false)] else [])
      case SetFlag(i) => s.(panic := true, callers := s.callers[i := s.callers[i].(pc := MustNotify)])
      case Notify(i) =>
        s.(callers := s.callers[i := s.callers[i].(pc := Finished)], cleaner := Notified(s.cleaner))
      case StoreClean => s.(clean := false, destructor := MustNotifyAll)
      case NotifyAll => s.(destructor := Joining, cleaner := Notified(s.cleaner))
      case Clean(readings) => CleanStep(max, s, readings)
      case Expire => s.(cleaner := Relocking(true))
      case Spurious => s.(cleaner := Relocking(false))
  }

  function Exec(max: nat, s: State, es: seq<Event>): State
    decreases es
  {
    if es == [] then s else Exec(max, Step(max, s, es[0]), es[1..])
  }

  lemma ExecCons(max: nat, s: State, es: seq<Event>)
    requires es != []
    ensures Exec(max, s, es) == Exec(max, Step(max, s, es[0]), es[1..])
  {
  }

  lemma {:induction false} ExecAppend(max: nat, s: State, es: seq<Event>, fs: seq<Event>)
    ensures Exec(max, s, es + fs) == Exec(max, Exec(max, s, es), fs)
    decreases es
  {
    if es == [] {
      assert es + fs == fs;
    } else {
      assert (es + fs)[0] == es[0] && (es + fs)[1..] == es[1..] + fs;
      ExecAppend(max, Step(max, s, es[0]), es[1..], fs);
    }
  }

  // ------------------------------------------------------------ no lost clean request

  /** A refused caller that no pass has followed either has its request recorded in the flag or has
      yet to record it; between a pass and the clearing of the flag every caller is served; the run
      flag is lowered by the destructor alone, and only then does the cleaner leave its loop. */
  ghost predicate Inv(s: State) {
    && (forall i :: 0 <= i < |s.callers| && !s.callers[i].served ==> s.panic || s.callers[i].pc == MustSet)
    && (s.cleaner in {PassDone, Clearing} ==> forall i :: 0 <= i < |s.callers| ==> s.callers[i].served)
    && (s.clean <==> s.destructor == NotCalled)
    && (s.cleaner == Exited ==> !s.clean)
  }

  lemma StepKeepsInv(max: nat, s: State, e: Event)
    requires Inv(s)
    ensures Inv(Step(max, s, e))
  {
    match e
    case Request(op) =>
    case SetFlag(i) =>
    case Notify(i) =>
    case Clean(readings) =>
    case _ => assert Step(max, s, e).callers == s.callers;
  }

  lemma {:induction false} NoRequestLost(max: nat, s: State, es: seq<Event>)
    requires Inv(s)
    ensures Inv(Exec(max, s, es))
    decreases es
  {
    if es != [] {
      StepKeepsInv(max, s, es[0]);
      NoRequestLost(max, Step(max, s, es[0]), es[1..]);
    }
  }

  /** The flag goes from set to clear only after a pass that followed every refused check so far. */
  lemma FlagClearedAfterPass(max: nat, es: seq<Event>, e: Event)
    requires Exec(max, INITIAL, es).panic && !Step(max, Exec(max, INITIAL, es), e).panic
    ensures forall i :: 0 <= i < |Exec(max, INITIAL, es).callers| ==> Exec(max, INITIAL, es).callers[i].served
  {
    NoRequestLost(max, INITIAL, es);
  }

  // ------------------------------------------------------------ missed notifications

  /** The cleaner has reason not to wait. */
  predicate Raised(s: State) {
    !s.clean || s.panic
  }

  /** Some thread has set a flag and not notified yet. */
  ghost predicate NotifyDue(s: State) {
    s.destructor == MustNotifyAll || exists i :: 0 <= i < |s.callers| && s.callers[i].pc == MustNotify
  }

  /** The cleaner blocks, or will block, on what it has loaded so far although a flag is raised. */
  predicate FallsAsleep(s: State) {
    || (s.cleaner in {Blocking, Waiting} && Raised(s))
    || (s.cleaner == TestPanic && !s.clean && !s.panic)
  }

  ghost predicate WakeDue(s: State) {
    FallsAsleep(s) ==> NotifyDue(s)
  }

  /** Nobody but the timer, a spurious wake-up or a further request will wake the cleaner. */
  ghost predicate Oversleeps(s: State) {
    s.cleaner == Waiting && Raised(s) && !NotifyDue(s)
  }

  predicate NotifiesEarly(s: State, e: Event) {
    (e.Notify? || e.NotifyAll?) && Enabled(s, e) && FallsAsleep(s) && s.cleaner != Waiting
  }

  /** The notification comes before the block it should end, and no other one is due. */
  ghost predicate LosesWakeUp(max: nat, s: State, e: Event) {
    NotifiesEarly(s, e) && !NotifyDue(Step(max, s, e))
  }

  lemma NotifyStaysDue(max: nat, s: State, e: Event)
    requires NotifyDue(s) && !(e.Notify? || e.NotifyAll?)
    ensures NotifyDue(Step(max, s, e))
  {
    var s' := Step(max, s, e);
    if s.destructor != MustNotifyAll {
      var i :| 0 <= i < |s.callers| && s.callers[i].pc == MustNotify;
      assert s'.callers[i].pc == MustNotify;
    }
  }

  lemma SetterIsDue(max: nat, s: State, i: nat)
    requires Enabled(s, SetFlag(i))
    ensures NotifyDue(Step(max, s, SetFlag(i)))
  {
    assert Step(max, s, SetFlag(i)).callers[i].pc == MustNotify;
  }

  /** One event: the cleaner's wake-up stays due exactly unless the last notification due comes early. */
  lemma StepKeepsWakeDueIff(max: nat, s: State, e: Event)
    requires WakeDue(s)
    ensures WakeDue(Step(max, s, e)) <==> !LosesWakeUp(max, s, e)
  {
    if Enabled(s, e) {
      match e
      case SetFlag(i) => SetterIsDue(max, s, i);
      case StoreClean =>
      case Notify(i) =>
      case NotifyAll =>
      case _ => if NotifyDue(s) { NotifyStaysDue(max, s, e); }
    }
  }

  ghost predicate NeverLosesWakeUp(max: nat, s: State, es: seq<Event>)
    decreases es
  {
    es == [] || (!LosesWakeUp(max, s, es[0]) && NeverLosesWakeUp(max, Step(max, s, es[0]), es[1..]))
  }

  ghost predicate AlwaysWakeDue(max: nat, s: State, es: seq<Event>)
    decreases es
  {
    WakeDue(s) && (es == [] || AlwaysWakeDue(max, Step(max, s, es[0]), es[1..]))
  }

  /** Over whole runs: a wake-up stays due throughout if and only if no last notification comes early. */
  lemma {:induction false} WakeDueThroughoutIff(max: nat, s: State, es: seq<Event>)
    requires WakeDue(s)
    ensures AlwaysWakeDue(max, s, es) <==> NeverLosesWakeUp(max, s, es)
    decreases es
  {
    if es != [] {
      StepKeepsWakeDueIff(max, s, es[0]);
      if WakeDue(Step(max, s, es[0])) { WakeDueThroughoutIff(max, Step(max, s, es[0]), es[1..]); }
    }
  }

  predicate NoneEarly(max: nat, s: State, es: seq<Event>)
    decreases es
  {
    es == [] || (!NotifiesEarly(s, es[0]) && NoneEarly(max, Step(max, s, es[0]), es[1..]))
  }

  lemma {:induction false} NoneEarlyKeepsWakeDue(max: nat, s: State, es: seq<Event>)
    requires WakeDue(s) && NoneEarly(max, s, es)
    ensures WakeDue(Exec(max, s, es))
    decreases es
  {
    if es != [] {
      StepKeepsWakeDueIff(max, s, es[0]);
      NoneEarlyKeepsWakeDue(max, Step(max, s, es[0]), es[1..]);
    }
  }

  /** No notification of the run `es` is early, and yet the cleaner ends up asleep over a raised flag. */
  ghost predicate OversleepsQuietly(max: nat, s: State, es: seq<Event>) {
    NoneEarly(max, s, es) && Oversleeps(Exec(max, s, es))
  }

  lemma UndueOversleeps(max: nat, s: State) returns (es: seq<Event>)
    requires !WakeDue(s)
    ensures OversleepsQuietly(max, s, es)
  {
    if s.cleaner == Waiting {
      es := [];
    } else if s.cleaner == Blocking {
      es := [Clean([])];
    } else {
      es := [Clean([]), Clean([])];
      assert es[1..] == [Clean([])];
    }
  }

  /** The notifications already given cannot make the cleaner oversleep if and only if one is due. */
  lemma NeverOversleepsIffWakeDue(max: nat, s: State)
    ensures (forall es :: !OversleepsQuietly(max, s, es)) <==> WakeDue(s)
  {
    if WakeDue(s) {
      forall es ensures !OversleepsQuietly(max, s, es) {
        if NoneEarly(max, s, es) { NoneEarlyKeepsWakeDue(max, s, es); }
      }
    } else {
      var es := UndueOversleeps(max, s);
      assert OversleepsQuietly(max, s, es);
    }
  }

  predicate Untimed(e: Event) {
    !e.Expire? && !e.Spurious?
  }

  /** Event `e` takes the cleaner to another point of its loop. */
  predicate Moves(max: nat, s: State, e: Event) {
    Step(max, s, e).cleaner != s.cleaner
  }

  /** The wait is left by the timer, by a spurious wake-up and by a delivered notification, and by nothing
      else. */
  lemma WaitEndsIff(max: nat, s: State, e: Event)
    requires s.cleaner == Waiting
    ensures Moves(max, s, e) <==> e.Expire? || e.Spurious? || ((e.Notify? || e.NotifyAll?) && Enabled(s, e))
  {
  }

  /** While a flag is raised, the cleaner can move without its timer exactly unless it oversleeps. */
  lemma MovesWithoutTimerIff(max: nat, s: State)
    requires Raised(s) && s.cleaner != Exited
    ensures (exists e :: Untimed(e) && Moves(max, s, e)) <==> !Oversleeps(s)
  {
    if s.cleaner != Waiting {
      var e := Clean(seq(|s.store|, _ => 0));
      assert Untimed(e) && Moves(max, s, e);
    } else if s.destructor == MustNotifyAll {
      assert Untimed(NotifyAll) && Moves(max, s, NotifyAll);
    } else if NotifyDue(s) {
      var i :| 0 <= i < |s.callers| && s.callers[i].pc == MustNotify;
      assert Untimed(Notify(i)) && Moves(max, s, Notify(i));
    }
  }

  /** A cleaner that oversleeps sleeps until its timer, however the other threads run, as long as
      nobody sets a flag again; and nobody is served meanwhile. */
  lemma {:induction false} OversleepsUntilTimeout(max: nat, s: State, es: seq<Event>)
    requires Oversleeps(s)
    requires forall i :: 0 <= i < |es| ==> Untimed(es[i]) && !es[i].SetFlag? && !es[i].StoreClean?
    ensures Oversleeps(Exec(max, s, es)) && Passes(max, s, es) == 0
    decreases es
  {
    if es != [] {
      assert Untimed(es[0]) && !es[0].SetFlag? && !es[0].StoreClean?;
      var s' := Step(max, s, es[0]);
      forall i | 0 <= i < |s'.callers| ensures s'.callers[i].pc != MustNotify {
        if i < |s.callers| { assert s.callers[i].pc != MustNotify; }
      }
      OversleepsUntilTimeout(max, s', es[1..]);
    }
  }

  /** The cleaner's first steps, with no flag raised: it comes to its block, past both of its tests. */
  const TO_BLOCK := [Clean([]), Clean([]), Clean([]), Clean([])]

  lemma CleanerComesToBlock(max: nat, s: State)
    requires s.cleaner == Start && s.clean && !s.panic
    ensures Exec(max, s, TO_BLOCK) == s.(cleaner := Blocking)
  {
    ExecCons(max, s.(cleaner := TestPanic), TO_BLOCK[3..]);
    ExecCons(max, s.(cleaner := TestClean), TO_BLOCK[2..]);
    ExecCons(max, s.(cleaner := Top), TO_BLOCK[1..]);
  }

  /** Both kinds of notification can be missed. The destructor's: it lowers the flag and notifies
      while the cleaner, which has tested both flags, is about to block, and then joins a thread that
      sleeps until its timer. */
  lemma ShutdownCanBeMissed(max: nat)
    ensures var s := Exec(max, INITIAL, TO_BLOCK + [StoreClean]);
            LosesWakeUp(max, s, NotifyAll) && Oversleeps(Step(max, Step(max, s, NotifyAll), Clean([])))
  {
    ExecAppend(max, INITIAL, TO_BLOCK, [StoreClean]);
    CleanerComesToBlock(max, INITIAL);
    ExecCons(max, INITIAL.(cleaner := Blocking), [StoreClean]);
  }

  lemma SecondLoginIsRefused(first: Op, second: Op) returns (s: State)
    requires first.Login? && second.Login?
    ensures s == Exec(1, INITIAL, [Request(first), Request(second)])
    ensures s.clean && !s.panic && s.cleaner == Start && s.callers == [Caller(MustSet, false)]
    ensures s.destructor == NotCalled
  {
    var s1 := Step(1, INITIAL, Request(first));
    assert |s1.store| == 1 && s1.callers == [];
    s := Step(1, s1, Request(second));
    ExecCons(1, s1, [Request(second)]);
    ExecCons(1, INITIAL, [Request(first), Request(second)]);
  }

  /** A refused caller's: with one place, the second login is refused, and its notification comes
      between the cleaner's tests and its block. */
  lemma RequestCanBeMissed(first: Op, second: Op)
    requires first.Login? && second.Login?
    ensures var s := Exec(1, INITIAL, [Request(first), Request(second)] + TO_BLOCK + [SetFlag(0)]);
            LosesWakeUp(1, s, Notify(0)) && Oversleeps(Step(1, Step(1, s, Notify(0)), Clean([])))
  {
    var logins := [Request(first), Request(second)];
    var s2 := SecondLoginIsRefused(first, second);
    CleanerComesToBlock(1, s2);
    ExecAppend(1, INITIAL, logins, TO_BLOCK);
    ExecAppend(1, INITIAL, logins + TO_BLOCK, [SetFlag(0)]);
    ExecCons(1, s2.(cleaner := Blocking), [SetFlag(0)]);
    var s := Exec(1, INITIAL, logins + TO_BLOCK + [SetFlag(0)]);
    assert s.callers == [Caller(MustNotify, false)];
    assert Step(1, s, Notify(0)).callers == [Caller(Finished, false)];
  }

  // ------------------------------------------------------------ progress, in every interleaving

  function MoveCount(max: nat, s: State, es: seq<Event>): nat
    decreases es
  {
    if es == [] then 0
    else (if Moves(max, s, es[0]) then 1 else 0) + MoveCount(max, Step(max, s, es[0]), es[1..])
  }

  function Passes(max: nat, s: State, es: seq<Event>): nat
    decreases es
  {
    if es == [] then 0 else (if IsPass(s, es[0]) then 1 else 0) + Passes(max, Step(max, s, es[0]), es[1..])
  }

  predicate IsPass(s: State, e: Event) {
    e.Clean? && s.cleaner == Sweeping && Enabled(s, e)
  }

  /** How many moves the cleaner makes at most before its pass is done, with a request recorded. */
  function ToPass(pc: CleanerPc): nat {
    match pc
    case Blocking => 7
    case Waiting => 6
    case Start => 6
    case Relocking(timedOut) => if timedOut then 3 else 5
    case Top => 5
    case TestClean => 4
    case TestPanic => 3
    case Woken => 2
    case Sweeping => 1
    case _ => 0
  }

  lemma {:induction false} ServedStays(max: nat, s: State, es: seq<Event>, i: nat)
    requires i < |s.callers| && s.callers[i].served
    ensures i < |Exec(max, s, es).callers| && Exec(max, s, es).callers[i].served
    decreases es
  {
    if es != [] { ServedStays(max, Step(max, s, es[0]), es[1..], i); }
  }

  lemma {:induction false} ShutdownStays(max: nat, s: State, es: seq<Event>)
    requires !s.clean
    ensures !Exec(max, s, es).clean
    decreases es
  {
    if es != [] { ShutdownStays(max, Step(max, s, es[0]), es[1..]); }
  }

  lemma {:induction false} ServedWithin(max: nat, s: State, es: seq<Event>, i: nat)
    requires Inv(s) && s.panic && i < |s.callers|
    requires Exec(max, s, es).clean && MoveCount(max, s, es) >= ToPass(s.cleaner)
    ensures i < |Exec(max, s, es).callers| && Exec(max, s, es).callers[i].served
    decreases es
  {
    if !s.clean { ShutdownStays(max, s, es); }
    if s.callers[i].served {
      ServedStays(max, s, es, i);
    } else if es != [] {
      var s' := Step(max, s, es[0]);
      StepKeepsInv(max, s, es[0]);
      if IsPass(s, es[0]) {
        ServedStays(max, s', es[1..], i);
      } else {
        ServedWithin(max, s', es[1..], i);
      }
    }
  }

  /** A recorded request is followed by a pass: whatever the other threads do in between, seven moves
      of the cleaner serve every caller refused so far, unless the handler is shutting down. */
  lemma RecordedRequestIsServed(max: nat, es: seq<Event>, fs: seq<Event>, i: nat)
    requires var s := Exec(max, INITIAL, es);
             s.panic && i < |s.callers| && Exec(max, s, fs).clean && MoveCount(max, s, fs) >= 7
    ensures var s := Exec(max, INITIAL, es);
            i < |Exec(max, s, fs).callers| && Exec(max, s, fs).callers[i].served
  {
    NoRequestLost(max, INITIAL, es);
    ServedWithin(max, Exec(max, INITIAL, es), fs, i);
  }

  // ------------------------------------------------------------ the periodic pass

  /** The store holds exactly the sessions of `ss` that were active at their own reading. */
  ghost predicate Swept(ss: seq<Session>, readings: seq<Stamp>, store: seq<Session>) {
    && |readings| == |ss|
    && (forall p :: 0 <= p < |ss| && Active(ss[p].life, readings[p]) ==> ss[p] in store)
    && forall t :: t in store ==> exists p :: 0 <= p < |ss| && ss[p] == t && Active(t.life, readings[p])
  }

  lemma {:induction false} KeptIsSwept(ss: seq<Session>, readings: seq<Stamp>)
    requires |readings| == |ss|
    ensures Swept(ss, readings, Kept(ss, readings))
  {
    if ss != [] {
      var first := if Active(ss[0].life, readings[0]) then [ss[0]] else [];
      var rest := Kept(ss[1..], readings[1..]);
      KeptIsSwept(ss[1..], readings[1..]);
      forall p | 0 <= p < |ss| && Active(ss[p].life, readings[p]) ensures ss[p] in first + rest {
        if p > 0 { assert ss[1..][p - 1] == ss[p] && readings[1..][p - 1] == readings[p]; }
      }
      forall t | t in first + rest ensures exists p :: 0 <= p < |ss| && ss[p] == t && Active(t.life, readings[p]) {
        if t in rest {
          var p :| 0 <= p < |ss[1..]| && ss[1..][p] == t && Active(t.life, readings[1..][p]);
          assert ss[p + 1] == t && Active(t.life, readings[p + 1]);
        } else {
          assert ss[0] == t;
        }
      }
    }
  }

  lemma {:induction false} NoMoveAfterPass(max: nat, s: State, es: seq<Event>)
    requires s.cleaner == PassDone && MoveCount(max, s, es) == 0
    ensures Exec(max, s, es).cleaner == PassDone && Exec(max, s, es).store == s.store && Passes(max, s, es) == 0
    decreases es
  {
    if es != [] { NoMoveAfterPass(max, Step(max, s, es[0]), es[1..]); }
  }

  /** Once its wait has timed out the cleaner makes its pass, with a request or without: the moves it
      needs contain one pass, and the sessions then stored are those that pass kept. */
  lemma {:induction false} PassComes(max: nat, s: State, fs: seq<Event>) returns (k: nat)
    requires s.cleaner in {Relocking(true), Woken, Sweeping}
    requires Exec(max, s, fs).clean && MoveCount(max, s, fs) == ToPass(s.cleaner)
    ensures k < |fs| && IsPass(Exec(max, s, fs[..k]), fs[k]) && Passes(max, s, fs) == 1
    ensures Exec(max, s, fs).cleaner == PassDone
    ensures Exec(max, s, fs).store == Step(max, Exec(max, s, fs[..k]), fs[k]).store
    decreases fs
  {
    if !s.clean { ShutdownStays(max, s, fs); }
    var s' := Step(max, s, fs[0]);
    if IsPass(s, fs[0]) {
      k := 0;
      NoMoveAfterPass(max, s', fs[1..]);
    } else {
      k := PassComes(max, s', fs[1..]);
      k := k + 1;
      assert fs[..k][0] == fs[0] && fs[..k][1..] == fs[1..][..k - 1];
    }
  }

  /** The timer leads to a pass: whenever the cleaner waits and its timer expires, three of its moves
      later exactly one pass has been made, whatever the other threads do in between, and the sessions
      expired at the readings of that pass are gone, unless the handler is shutting down. */
  lemma TimerLeadsToPass(max: nat, s: State, fs: seq<Event>) returns (k: nat)
    requires Enabled(s, Expire) && var t := Step(max, s, Expire); Exec(max, t, fs).clean && MoveCount(max, t, fs) == 3
    ensures var t := Step(max, s, Expire);
            && Passes(max, t, fs) == 1
            && k < |fs| && IsPass(Exec(max, t, fs[..k]), fs[k])
            && Swept(Exec(max, t, fs[..k]).store, fs[k].readings, Exec(max, t, fs).store)
  {
    k := PassComes(max, Step(max, s, Expire), fs);
    KeptIsSwept(Exec(max, Step(max, s, Expire), fs[..k]).store, fs[k].readings);
  }

  /** After a pass the request flag is lowered by the cleaner's next two moves at most, unless another
      caller raises it. */
  lemma {:induction false} PassLowersFlag(max: nat, s: State, fs: seq<Event>)
    requires s.cleaner == PassDone || (s.cleaner == Clearing && s.panic) || !s.panic
    requires forall i :: 0 <= i < |fs| ==> !fs[i].SetFlag?
    requires s.panic ==> MoveCount(max, s, fs) >= if s.cleaner == PassDone then 2 else 1
    ensures !Exec(max, s, fs).panic
    decreases fs
  {
    if fs != [] { PassLowersFlag(max, Step(max, s, fs[0]), fs[1..]); }
  }

  /** The cleaner is asleep, or on its way to sleep or back to its test. */
  predicate Resting(pc: CleanerPc) {
    pc !in {Relocking(true), Woken, Sweeping, Exited}
  }

  /** No pass without a reason: the cleaner starts with a wait, and after a pass comes to a wait again, that
      neither a notification alone nor a spurious wake-up ends. */
  lemma {:induction false} NoPassWithoutReason(max: nat, s: State, es: seq<Event>)
    requires Resting(s.cleaner) && !Raised(s)
    requires forall i :: 0 <= i < |es| ==> !es[i].Expire? && !es[i].SetFlag? && !es[i].StoreClean?
    ensures Resting(Exec(max, s, es).cleaner) && Passes(max, s, es) == 0
    decreases es
  {
    if es != [] {
      assert !es[0].Expire? && !es[0].SetFlag? && !es[0].StoreClean?;
      NoPassWithoutReason(max, Step(max, s, es[0]), es[1..]);
    }
  }

  /** One turn of the loop as the cleaner alone makes it: it stops, or it sweeps and lowers the flag. */
  lemma UndisturbedTurn(max: nat, s: State, readings: seq<Stamp>)
    requires s.cleaner == Woken && |readings| == |s.store|
    ensures var turn := [Clean([]), Clean(readings), Clean([])] + if s.panic then [Clean([])] else [];
            Exec(max, s, if s.clean then turn else [Clean([])])
            == if s.clean then
                 s.(store := After(max, s.store, Sweep(readings)), callers := AllServed(s.callers), panic := false,
                    cleaner := Top)
               else s.(cleaner := Exited)
  {
    var turn := [Clean([]), Clean(readings), Clean([])] + if s.panic then [Clean([])] else [];
    if s.clean {
      var s1 := s.(cleaner := Sweeping);
      var s2 := Step(max, s1, Clean(readings));
      var s3 := Step(max, s2, Clean([]));
      ExecCons(max, s, turn);
      ExecCons(max, s1, turn[1..]);
      ExecCons(max, s2, turn[2..]);
      if s.panic { ExecCons(max, s3, turn[3..]); }
    } else {
      ExecCons(max, s, [Clean([])]);
    }
  }

  // ------------------------------------------------------------ shutdown

  /** Once the destructor has stored false into `clean`, the cleaner makes at most one more pass,
      and only if it had already decided to. */
  lemma {:induction false} AtMostOnePassAfterShutdown(max: nat, s: State, es: seq<Event>)
    requires !s.clean
    ensures Passes(max, s, es) <= if s.cleaner == Sweeping then 1 else 0
    decreases es
  {
    if es != [] { AtMostOnePassAfterShutdown(max, Step(max, s, es[0]), es[1..]); }
  }

  /** How many moves the cleaner makes at most before it leaves its loop, after shutdown. */
  function ToExit(pc: CleanerPc): nat {
    match pc
    case TestPanic => 6
    case Blocking => 5
    case Waiting => 4
    case Sweeping => 4
    case Relocking(timedOut) => if timedOut then 2 else 3
    case PassDone => 3
    case Start => 2
    case TestClean => 2
    case Clearing => 2
    case Top => 1
    case Woken => 1
    case Exited => 0
  }

  /** In every interleaving, the moves of the cleaner after shutdown bring it to its exit. */
  lemma {:induction false} MovesApproachExit(max: nat, s: State, es: seq<Event>)
    requires !s.clean
    ensures MoveCount(max, s, es) + ToExit(Exec(max, s, es).cleaner) <= ToExit(s.cleaner)
    decreases es
  {
    if es != [] { MovesApproachExit(max, Step(max, s, es[0]), es[1..]); }
  }

  /** After shutdown the cleaner makes at most six more moves, whatever the other threads do; after
      six it has left its loop. */
  lemma ShutdownStopsCleaner(max: nat, s: State, es: seq<Event>)
    requires !s.clean
    ensures MoveCount(max, s, es) <= 6
    ensures MoveCount(max, s, es) == 6 ==> Exec(max, s, es).cleaner == Exited
  {
    MovesApproachExit(max, s, es);
  }

  // ------------------------------------------------------------ the store under threads

  /** The store operation an event performs, if any. */
  function StoreOp(s: State, e: Event): seq<Op> {
    if !Enabled(s, e) then []
    else if e.Request? then [e.op]
    else if IsPass(s, e) then [Sweep(e.readings)]
    else []
  }

  /** The store operations a run performs, in the order the mutex serializes them. */
  function StoreOps(max: nat, s: State, es: seq<Event>): seq<Op>
    decreases es
  {
    if es == [] then [] else StoreOp(s, es[0]) + StoreOps(max, Step(max, s, es[0]), es[1..])
  }

  lemma StepRunsStore(max: nat, s: State, e: Event)
    ensures Step(max, s, e).store == Run(max, s.store, StoreOp(s, e))
  {
    var ops := StoreOp(s, e);
    if ops != [] { assert ops[1..] == []; }
  }

  lemma {:induction false} ExecRunsStore(max: nat, s: State, es: seq<Event>)
    ensures Exec(max, s, es).store == Run(max, s.store, StoreOps(max, s, es))
    decreases es
  {
    if es != [] {
      var s' := Step(max, s, es[0]);
      ExecRunsStore(max, s', es[1..]);
      StepRunsStore(max, s, es[0]);
      RunAppend(max, s.store, StoreOp(s, es[0]), StoreOps(max, s', es[1..]));
    }
  }

  function Refusals(rs: seq<Reply>): nat {
    if rs == [] then 0 else (if rs[0] == Refused then 1 else 0) + Refusals(rs[1..])
  }

  lemma {:induction false} RefusalsAppend(a: seq<Reply>, b: seq<Reply>)
    ensures Refusals(a + b) == Refusals(a) + Refusals(b)
  {
    if a == [] {
      assert a + b == b;
    } else {
      assert (a + b)[0] == a[0] && (a + b)[1..] == a[1..] + b;
      RefusalsAppend(a[1..], b);
    }
  }

  lemma StepRefuses(max: nat, s: State, e: Event)
    ensures |Step(max, s, e).callers| == |s.callers| + Refusals(Replies(max, s.store, StoreOp(s, e)))
  {
    var ops := StoreOp(s, e);
    if ops != [] { assert ops[1..] == [] && Replies(max, s.store, ops)[1..] == []; }
  }

  /** In every interleaving there is one caller with a clean request for each refused login, no more. */
  lemma {:induction false} EachRefusalRequests(max: nat, s: State, es: seq<Event>)
    ensures |Exec(max, s, es).callers| == |s.callers| + Refusals(Replies(max, s.store, StoreOps(max, s, es)))
    decreases es
  {
    if es != [] {
      var s' := Step(max, s, es[0]);
      StepRefuses(max, s, es[0]);
      StepRunsStore(max, s, es[0]);
      EachRefusalRequests(max, s', es[1..]);
      RunAppend(max, s.store, StoreOp(s, es[0]), StoreOps(max, s', es[1..]));
      RefusalsAppend(Replies(max, s.store, StoreOp(s, es[0])), Replies(max, s'.store, StoreOps(max, s', es[1..])));
    }
  }

  /** For every interleaving of callers and cleaner, what the critical sections answer is what the
      never-swept ledger answers. */
  lemma ThreadsRefineLedger(max: nat, start: Stamp, es: seq<Event>)
    requires Clocked(start, StoreOps(max, INITIAL, es)) && FreshTokens(max, [], StoreOps(max, INITIAL, es))
    ensures var ops := StoreOps(max, INITIAL, es);
            && Exec(max, INITIAL, es).store == Run(max, [], ops)
            && ShownReplies(Replies(max, [], ops)) == LedgerReplies(map[], ShownOps(max, [], ops))
  {
    ExecRunsStore(max, INITIAL, es);
    StoreRefinesLedger(max, start, StoreOps(max, INITIAL, es));
  }
}
