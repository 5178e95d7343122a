/**
 The benchmark agent's run queue: run commands become tasks that take turns under a fair lock, one
 executing a benchmark process at a time.  A step is what the event loop executes between two
 suspension points; any enabled step may come next.
 */
module RunQueue {
  import opened Text

  /** Tasks are numbered in the order their run commands arrive; a process is named by the task that spawned it. */
  type Task = nat

  /** Where a body of `_handle_run` is suspended. */
  datatype Phase = Announcing | Spawning | Reading | Waiting | SendingResult | SendingFailure

  datatype Message = Completed(task: Task) | Failed(task: Task)

  datatype State = State(
    arrived: nat,                 // run commands received so far
    ready: seq<Task>,             // created tasks that have not run yet
    locked: bool, waiters: seq<Task>, woken: bool,
    bodies: map<Task, Phase>,     // every task inside _handle_run
    starts: seq<Task>,            // order in which bodies were entered
    finished: set<Task>,
    attempted: set<Task>,         // a terminal message was attempted
    sent: seq<Message>,           // terminal messages delivered, in order
    process: Option<Task>,        // the field current_process
    live: set<Task>,              // processes that are running
    cancelling: Option<Task>)     // the process a cancel handler waits for

  const START := State(0, [], false, [], false, map[], [], {}, {}, [], None, {}, None)

  datatype Event =
    | Receive                               // a run command arrives
    | RunTask                               // the oldest new task runs up to the lock
    | Resume                                // the woken waiter runs on with the lock
    | Announced(t: Task, prepared: bool)    // progress message done, command built or not
    | Spawned(t: Task, ok: bool)
    | Line(t: Task)                         // one output line handled
    | EndOfOutput(t: Task)
    | ReadError(t: Task)
    | Exited(t: Task, good: bool)           // exit awaited; good: code zero and a readable result
    | ResultSent(t: Task, ok: bool)
    | FailureSent(t: Task, ok: bool)
    | ProcessEnds(p: Task)
    | CancelBegins
    | CancelEnds
    | CancelDropped                         // the connection ends while a cancel is waiting

  // ---------------------------------------------------------------------------------------
  // Steps
  // ---------------------------------------------------------------------------------------

  predicate At(s: State, t: Task, phase: Phase) {
    t in s.bodies && s.bodies[t] == phase
  }

  predicate Enabled(s: State, e: Event) {
    match e
    case Receive => s.cancelling.None?
    case RunTask => s.ready != []
    case Resume => s.woken && s.waiters != []
    case Announced(t, _) => At(s, t, Announcing)
    case Spawned(t, _) => At(s, t, Spawning)
    case Line(t) => At(s, t, Reading)
    case EndOfOutput(t) => At(s, t, Reading)
    case ReadError(t) => At(s, t, Reading)
    case Exited(t, _) => At(s, t, Waiting) && t !in s.live
    case ResultSent(t, _) => At(s, t, SendingResult)
    case FailureSent(t, _) => At(s, t, SendingFailure)
    case ProcessEnds(p) => p in s.live
    case CancelBegins => s.cancelling.None?
    case CancelEnds => s.cancelling.Some?
    case CancelDropped => s.cancelling.Some?
  }

  function Enter(s: State, t: Task): State {
    s.(locked := true, bodies := s.bodies[t := Announcing], starts := s.starts + [t])
  }

  /** The exception handler: drop the process reference, then report the failure. */
  function Fails(s: State, t: Task): State {
    s.(process := None, bodies := s.bodies[t := SendingFailure])
  }

  /** The body returns: leaving the lock's context wakes the first waiter. */
  function Leave(s: State, t: Task): State {
    s.(bodies := s.bodies - {t}, finished := s.finished + {t}, locked := false, woken := s.waiters != [])
  }

  function Next(s: State, e: Event): State
    requires Enabled(s, e)
  {
    match e
    case Receive => s.(arrived := s.arrived + 1, ready := s.ready + [s.arrived])
    case RunTask =>
      var t, rest := s.ready[0], s.(ready := s.ready[1..]);
      if !s.locked && s.waiters == [] then Enter(rest, t) else rest.(waiters := s.waiters + [t])
    case Resume => Enter(s.(waiters := s.waiters[1..], woken := false), s.waiters[0])
    case Announced(t, prepared) => if prepared then s.(bodies := s.bodies[t := Spawning]) else Fails(s, t)
    case Spawned(t, ok) =>
      if ok then s.(process := Some(t), live := s.live + {t}, bodies := s.bodies[t := Reading]) else Fails(s, t)
    case Line(t) => if s.process.None? then Fails(s, t) else s
    case EndOfOutput(t) => if s.process.None? then Fails(s, t) else s.(bodies := s.bodies[t := Waiting])
    case ReadError(t) => Fails(s, t)
    case Exited(t, good) =>
      if good then s.(process := None, bodies := s.bodies[t := SendingResult]) else Fails(s, t)
    case ResultSent(t, ok) =>
      var tried := s.(attempted := s.attempted + {t});
      if ok then Leave(tried.(sent := s.sent + [Completed(t)]), t) else Fails(tried, t)
    case FailureSent(t, ok) =>
      var tried := s.(attempted := s.attempted + {t});
      Leave(if ok then tried.(sent := s.sent + [Failed(t)]) else tried, t)
    case ProcessEnds(p) => s.(live := s.live - {p})
    case CancelBegins =>
      if s.process.None? then s
      else if s.process.value !in s.live then s.(process := None)
      else s.(cancelling := s.process)
    case CancelEnds => s.(process := None, cancelling := None)
    case CancelDropped => s.(cancelling := None)
  }

  ghost predicate IsRun(s: State, events: seq<Event>)
    decreases |events|
  {
    events == [] || (Enabled(s, events[0]) && IsRun(Next(s, events[0]), events[1..]))
  }

  ghost function Run(s: State, events: seq<Event>): State
    requires IsRun(s, events)
    decreases |events|
  {
    if events == [] then s else Run(Next(s, events[0]), events[1..])
  }

  // ---------------------------------------------------------------------------------------
  // The lock: one body at a time, in order of arrival, no lost wake-up
  // ---------------------------------------------------------------------------------------

  ghost predicate CountsUp(ts: seq<Task>, n: nat) {
    |ts| == n && forall i :: 0 <= i < n ==> ts[i] == i
  }

  ghost predicate LockInvariant(s: State) {
    && (s.locked <==> s.bodies != map[])
    && (forall t, u :: t in s.bodies && u in s.bodies ==> t == u)
    && CountsUp(s.starts + s.waiters + s.ready, s.arrived)
    && (s.locked ==> !s.woken)
    && (!s.locked ==> (s.woken <==> s.waiters != []))
    && (forall t :: t in s.starts <==> t in s.bodies || t in s.finished)
    && (forall t :: t in s.bodies ==> t !in s.finished)
  }

  lemma QueueMoves<T>(a: seq<T>, b: seq<T>, c: seq<T>)
    ensures forall x :: a + b + (c + [x]) == a + b + c + [x]
    ensures c != [] ==> a + (b + [c[0]]) + c[1..] == a + b + c
    ensures c != [] && b == [] ==> a + [c[0]] + b + c[1..] == a + b + c
    ensures b != [] ==> a + [b[0]] + b[1..] + c == a + b + c
  {
    if c != [] {
      assert c == [c[0]] + c[1..];
    }
    if b != [] {
      assert b == [b[0]] + b[1..];
    }
  }

  lemma QueuesUntouched(s: State, e: Event)
    requires Enabled(s, e) && !e.Receive? && !e.RunTask? && !e.Resume?
    ensures var n := Next(s, e); n.starts == s.starts && n.waiters == s.waiters && n.ready == s.ready && n.arrived == s.arrived
  {
  }

  lemma LockStepQueues(s: State, e: Event)
    requires CountsUp(s.starts + s.waiters + s.ready, s.arrived) && Enabled(s, e)
    ensures var n := Next(s, e); CountsUp(n.starts + n.waiters + n.ready, n.arrived)
  {
    if e.Receive? || e.RunTask? || e.Resume? {
      QueueMoves(s.starts, s.waiters, s.ready);
    } else {
      QueuesUntouched(s, e);
    }
  }

  /** A task that is about to enter has not started before. */
  lemma EntersOnce(s: State, e: Event)
    requires LockInvariant(s) && Enabled(s, e)
    ensures e.RunTask? ==> s.ready[0] !in s.starts
    ensures e.Resume? ==> s.waiters[0] !in s.starts
  {
    var all := s.starts + s.waiters + s.ready;
    assert forall i :: 0 <= i < |s.starts| ==> all[i] == s.starts[i];
    if e.RunTask? {
      assert all[|s.starts| + |s.waiters|] == s.ready[0];
    }
    if e.Resume? {
      assert all[|s.starts|] == s.waiters[0];
    }
  }

  lemma LockStep(s: State, e: Event)
    requires LockInvariant(s) && Enabled(s, e)
    ensures LockInvariant(Next(s, e))
  {
    LockStepQueues(s, e);
    EntersOnce(s, e);
    BodiesStep(s, e);
  }

  lemma BodiesStep(s: State, e: Event)
    requires LockInvariant(s) && Enabled(s, e)
    ensures var n := Next(s, e);
            && (n.locked <==> n.bodies != map[])
            && (forall t, u :: t in n.bodies && u in n.bodies ==> t == u)
  {
    var n := Next(s, e);
    if s.bodies != map[] {
      var t :| t in s.bodies;
      assert s.bodies.Keys == {t};
      assert s.bodies - {t} == map[];
      assert n.bodies == map[] || t in n.bodies;
    } else {
      assert e.RunTask? && n.locked ==> s.ready[0] in n.bodies;
      assert e.Resume? ==> s.waiters[0] in n.bodies;
    }
  }

  lemma {:induction false} LockHolds(s: State, events: seq<Event>)
    requires LockInvariant(s) && IsRun(s, events)
    ensures LockInvariant(Run(s, events))
    decreases |events|
  {
    if events != [] {
      LockStep(s, events[0]);
      LockHolds(Next(s, events[0]), events[1..]);
    }
  }

  /** In every interleaving at most one body is active, and bodies start in the order their commands arrived. */
  lemma OneAtATimeInOrder(events: seq<Event>)
    requires IsRun(START, events)
    ensures var s := Run(START, events);
            && (forall t, u :: t in s.bodies && u in s.bodies ==> t == u)
            && (forall i :: 0 <= i < |s.starts| ==> s.starts[i] == i)
            && |s.starts| <= s.arrived
  {
    LockHolds(START, events);
    var s := Run(START, events);
    var all := s.starts + s.waiters + s.ready;
    assert forall i :: 0 <= i < |s.starts| ==> s.starts[i] == all[i];
  }

  /** Run commands in a run. */
  function Received(events: seq<Event>): nat {
    if events == [] then 0 else (if events[0].Receive? then 1 else 0) + Received(events[1..])
  }

  /** Every received command becomes one task, and no other does. */
  lemma {:induction false} EveryCommandArrives(s: State, events: seq<Event>)
    requires IsRun(s, events)
    ensures Run(s, events).arrived == s.arrived + Received(events)
    decreases |events|
  {
    if events != [] {
      EveryCommandArrives(Next(s, events[0]), events[1..]);
    }
  }

  /** Some task can go on, or the active one waits only for its process to end. */
  ghost predicate CanProgress(s: State) {
    Enabled(s, RunTask) || Enabled(s, Resume) || exists t :: t in s.bodies && BodyCanProgress(s, t)
  }

  predicate BodyCanProgress(s: State, t: Task) {
    || Enabled(s, Announced(t, true)) || Enabled(s, Spawned(t, true)) || Enabled(s, Line(t))
    || Enabled(s, Exited(t, true)) || Enabled(s, ResultSent(t, true)) || Enabled(s, FailureSent(t, true))
    || (At(s, t, Waiting) && Enabled(s, ProcessEnds(t)))
  }

  /** No wake-up is lost: until every received run has finished, the queue can make progress. */
  lemma NeverStuck(events: seq<Event>, t: Task)
    requires IsRun(START, events) && t < Run(START, events).arrived && t !in Run(START, events).finished
    ensures CanProgress(Run(START, events))
  {
    LockHolds(START, events);
    Unfinished(Run(START, events), t);
  }

  lemma Unfinished(s: State, t: Task)
    requires LockInvariant(s) && t < s.arrived && t !in s.finished
    ensures CanProgress(s)
  {
    if s.bodies != map[] {
      var u :| u in s.bodies;
      ActiveCanProgress(s, u);
    } else if s.ready == [] && s.waiters == [] {
      AllStarted(s, t);
    }
  }

  lemma ActiveCanProgress(s: State, t: Task)
    requires t in s.bodies
    ensures BodyCanProgress(s, t)
  {
    assert At(s, t, s.bodies[t]);
  }

  lemma AllStarted(s: State, t: Task)
    requires LockInvariant(s) && s.ready == [] && s.waiters == [] && t < s.arrived
    ensures t in s.starts
  {
    assert s.starts + s.waiters + s.ready == s.starts;
    assert s.starts[t] == t;
  }

  // ---------------------------------------------------------------------------------------
  // Terminal messages
  // ---------------------------------------------------------------------------------------

  ghost predicate MessageInvariant(s: State) {
    && s.finished <= s.attempted
    && (forall i :: 0 <= i < |s.sent| ==> s.sent[i].task in s.finished)
    && (forall i, j :: 0 <= i < j < |s.sent| ==> s.sent[i].task != s.sent[j].task)
  }

  lemma MessageStep(s: State, e: Event)
    requires LockInvariant(s) && MessageInvariant(s) && Enabled(s, e)
    ensures MessageInvariant(Next(s, e))
  {
  }

  lemma {:induction false} MessagesHold(s: State, events: seq<Event>)
    requires LockInvariant(s) && MessageInvariant(s) && IsRun(s, events)
    ensures MessageInvariant(Run(s, events))
    decreases |events|
  {
    if events != [] {
      LockStep(s, events[0]);
      MessageStep(s, events[0]);
      MessagesHold(Next(s, events[0]), events[1..]);
    }
  }

  /**
   In every interleaving, each finished body has attempted a terminal message, and at most one is
   delivered per run: a delivered run_completed is neither preceded nor followed by run_failed.
   */
  lemma OneTerminalMessage(events: seq<Event>)
    requires IsRun(START, events)
    ensures var s := Run(START, events);
            && s.finished <= s.attempted
            && (forall i, j :: 0 <= i < |s.sent| && 0 <= j < |s.sent| && s.sent[i].task == s.sent[j].task ==> i == j)
            && forall t :: Completed(t) in s.sent ==> Failed(t) !in s.sent && t in s.finished
  {
    MessagesHold(START, events);
  }

  // ---------------------------------------------------------------------------------------
  // What the messages report: the events of the run
  // ---------------------------------------------------------------------------------------

  /** Only these two events deliver a message. */
  lemma SentByStep(s: State, e: Event)
    requires Enabled(s, e)
    ensures Next(s, e).sent == s.sent + if e.ResultSent? && e.ok then [Completed(e.t)] else if e.FailureSent? && e.ok then [Failed(e.t)] else []
  {
  }

  lemma MessagesOfStep(s: State, e: Event, t: Task)
    requires Enabled(s, e)
    ensures Completed(t) in Next(s, e).sent <==> Completed(t) in s.sent || e == ResultSent(t, true)
    ensures Failed(t) in Next(s, e).sent <==> Failed(t) in s.sent || e == FailureSent(t, true)
  {
    SentByStep(s, e);
    var sent := Next(s, e).sent;
    assert sent != s.sent ==> sent == s.sent + [sent[|s.sent|]];
  }

  lemma FinishedOfStep(s: State, e: Event, t: Task)
    requires Enabled(s, e)
    ensures t in Next(s, e).finished <==>
            t in s.finished || e == ResultSent(t, true) || e == FailureSent(t, true) || e == FailureSent(t, false)
  {
  }

  lemma {:induction false} MessagesOfRun(s: State, events: seq<Event>, t: Task)
    requires IsRun(s, events)
    ensures Completed(t) in Run(s, events).sent <==> Completed(t) in s.sent || ResultSent(t, true) in events
    ensures Failed(t) in Run(s, events).sent <==> Failed(t) in s.sent || FailureSent(t, true) in events
    ensures t in Run(s, events).finished <==>
            t in s.finished || ResultSent(t, true) in events || FailureSent(t, true) in events || FailureSent(t, false) in events
    decreases |events|
  {
    if events != [] {
      MessagesOfStep(s, events[0], t);
      FinishedOfStep(s, events[0], t);
      MessagesOfRun(Next(s, events[0]), events[1..], t);
      assert events == [events[0]] + events[1..];
    }
  }

  /** A body got to its phase by the event that enters it. */
  ghost predicate EnteredBy(events: seq<Event>, t: Task, phase: Phase) {
    match phase
    case Announcing => true
    case Spawning => Announced(t, true) in events
    case Reading => Spawned(t, true) in events && Announced(t, true) in events
    case Waiting => EndOfOutput(t) in events && Spawned(t, true) in events && Announced(t, true) in events
    case SendingResult => Exited(t, true) in events && EndOfOutput(t) in events && Spawned(t, true) in events && Announced(t, true) in events
    case SendingFailure =>
      || Announced(t, false) in events || Spawned(t, false) in events || Exited(t, false) in events || ResultSent(t, false) in events
      || ReadError(t) in events || Line(t) in events || EndOfOutput(t) in events
  }

  /** Every phase and every sent result was led up to by the right events. */
  ghost predicate HistoryHolds(s: State, events: seq<Event>) {
    && (forall t :: t in s.bodies ==> EnteredBy(events, t, s.bodies[t]))
    && (forall t: Task :: ResultSent(t, true) in events ==> EnteredBy(events, t, SendingResult))
    && (forall t: Task, ok: bool :: FailureSent(t, ok) in events ==> EnteredBy(events, t, SendingFailure))
  }

  lemma EnteredStays(events: seq<Event>, e: Event, t: Task, phase: Phase)
    requires EnteredBy(events, t, phase)
    ensures EnteredBy(events + [e], t, phase)
  {
  }

  /** The event that moves a body into its phase, and the phase it comes from. */
  lemma PhaseChange(s: State, e: Event, t: Task)
    requires Enabled(s, e) && t in Next(s, e).bodies && !At(s, t, Next(s, e).bodies[t])
    ensures match Next(s, e).bodies[t]
            case Announcing => true
            case Spawning => e == Announced(t, true)
            case Reading => e == Spawned(t, true) && At(s, t, Spawning)
            case Waiting => e == EndOfOutput(t) && At(s, t, Reading)
            case SendingResult => e == Exited(t, true) && At(s, t, Waiting)
            case SendingFailure => e in {Announced(t, false), Spawned(t, false), Exited(t, false), ResultSent(t, false), ReadError(t), Line(t), EndOfOutput(t)}
  {
  }

  lemma EnteredByStep(s: State, e: Event, past: seq<Event>, t: Task)
    requires Enabled(s, e) && HistoryHolds(s, past) && t in Next(s, e).bodies
    ensures EnteredBy(past + [e], t, Next(s, e).bodies[t])
  {
    var phase := Next(s, e).bodies[t];
    if At(s, t, phase) {
      EnteredStays(past, e, t, phase);
    } else {
      PhaseChange(s, e, t);
      assert e in past + [e];
      if t in s.bodies {
        EnteredStays(past, e, t, s.bodies[t]);
      }
    }
  }

  lemma HistoryStep(s: State, e: Event, past: seq<Event>)
    requires Enabled(s, e) && HistoryHolds(s, past)
    ensures HistoryHolds(Next(s, e), past + [e])
  {
    forall t | t in Next(s, e).bodies
      ensures EnteredBy(past + [e], t, Next(s, e).bodies[t])
    {
      EnteredByStep(s, e, past, t);
    }
    forall t: Task | ResultSent(t, true) in past + [e]
      ensures EnteredBy(past + [e], t, SendingResult)
    {
      if ResultSent(t, true) !in past {
        assert At(s, t, SendingResult);
      }
      EnteredStays(past, e, t, SendingResult);
    }
    forall t: Task, ok: bool | FailureSent(t, ok) in past + [e]
      ensures EnteredBy(past + [e], t, SendingFailure)
    {
      if FailureSent(t, ok) !in past {
        assert At(s, t, SendingFailure);
      }
      EnteredStays(past, e, t, SendingFailure);
    }
  }

  lemma {:induction false} HistoryOfRun(s: State, past: seq<Event>, events: seq<Event>)
    requires IsRun(s, events) && HistoryHolds(s, past)
    ensures HistoryHolds(Run(s, events), past + events)
    decreases |events|
  {
    if events == [] {
      assert past + events == past;
    } else {
      HistoryStep(s, events[0], past);
      HistoryOfRun(Next(s, events[0]), past + [events[0]], events[1..]);
      assert past + [events[0]] + events[1..] == past + events;
    }
  }

  /**
   run_completed is delivered for a run exactly when its result was sent, and then its command was
   prepared, its process spawned, its output drained and its exit good; run_failed exactly when a
   failure was sent, and then something of the run went wrong before.
   */
  lemma MessagesTellTheTruth(events: seq<Event>, t: Task)
    requires IsRun(START, events)
    ensures Completed(t) in Run(START, events).sent <==> ResultSent(t, true) in events
    ensures Failed(t) in Run(START, events).sent <==> FailureSent(t, true) in events
    ensures Completed(t) in Run(START, events).sent ==>
              Announced(t, true) in events && Spawned(t, true) in events && EndOfOutput(t) in events && Exited(t, true) in events
    ensures Failed(t) in Run(START, events).sent ==> EnteredBy(events, t, SendingFailure)
  {
    MessagesOfRun(START, events, t);
    HistoryOfRun(START, [], events);
    assert [] + events == events;
  }

  lemma {:induction false} RunPrefix(s: State, events: seq<Event>, k: nat)
    requires IsRun(s, events) && k <= |events|
    ensures IsRun(s, events[..k]) && IsRun(Run(s, events[..k]), events[k..])
    ensures k < |events| ==> Enabled(Run(s, events[..k]), events[k])
    ensures Run(s, events) == Run(Run(s, events[..k]), events[k..])
    decreases k
  {
    if k > 0 {
      RunPrefix(Next(s, events[0]), events[1..], k - 1);
      assert events[..k][1..] == events[1..][..k - 1] && events[1..][k - 1..] == events[k..];
    } else {
      assert events[..0] == [] && events[0..] == events;
    }
  }

  /** The good exit comes before the result is sent. */
  lemma GoodExitComesFirst(events: seq<Event>, k: nat, t: Task, ok: bool)
    requires IsRun(START, events) && k < |events| && events[k] == ResultSent(t, ok)
    ensures Exited(t, true) in events[..k]
  {
    RunPrefix(START, events, k);
    HistoryOfRun(START, [], events[..k]);
    assert [] + events[..k] == events[..k];
    assert EnteredBy(events[..k], t, SendingResult);
  }

  lemma {:induction false} SendingEndsInMessage(s: State, events: seq<Event>, t: Task)
    requires LockInvariant(s) && IsRun(s, events) && At(s, t, SendingResult) && t in Run(s, events).finished
    ensures ResultSent(t, true) in events || ResultSent(t, false) in events
    decreases |events|
  {
    if events != [] {
      var e := events[0];
      LockStep(s, e);
      if e != ResultSent(t, true) && e != ResultSent(t, false) {
        EntersOnce(s, e);
        assert At(Next(s, e), t, SendingResult);
        SendingEndsInMessage(Next(s, e), events[1..], t);
      }
    }
  }

  /** A run with a good exit that finishes, and whose result could be sent, is reported completed, not failed. */
  lemma GoodRunIsCompleted(events: seq<Event>, t: Task)
    requires IsRun(START, events) && t in Run(START, events).finished
    requires Exited(t, true) in events && ResultSent(t, false) !in events
    ensures Completed(t) in Run(START, events).sent && Failed(t) !in Run(START, events).sent
  {
    var k :| 0 <= k < |events| && events[k] == Exited(t, true);
    RunPrefix(START, events, k);
    RunPrefix(START, events, k + 1);
    var s := Run(START, events[..k + 1]);
    RunSnoc(START, events[..k], events[k]);
    assert events[..k] + [events[k]] == events[..k + 1];
    LockHolds(START, events[..k + 1]);
    SendingEndsInMessage(s, events[k + 1..], t);
    MessagesOfRun(START, events, t);
    OneTerminalMessage(events);
  }

  lemma {:induction false} RunSnoc(s: State, events: seq<Event>, e: Event)
    requires IsRun(s, events) && Enabled(Run(s, events), e)
    ensures IsRun(s, events + [e]) && Run(s, events + [e]) == Next(Run(s, events), e)
    decreases |events|
  {
    if events == [] {
      assert events + [e] == [e] && [e][1..] == [];
      assert Run(Next(s, e), []) == Next(s, e);
    } else {
      RunSnoc(Next(s, events[0]), events[1..], e);
      assert (events + [e])[1..] == events[1..] + [e];
    }
  }

  // ---------------------------------------------------------------------------------------
  // Processes
  // ---------------------------------------------------------------------------------------

  /** Only the process of a body that is still following it may be running. */
  ghost predicate IsTidy(s: State) {
    forall p :: p in s.live ==> At(s, p, Reading) || At(s, p, Waiting)
  }

  /** The exception handler runs while the body's own process is running: on a read error, or because the field was cleared. */
  predicate Orphans(s: State, e: Event) {
    match e
    case ReadError(t) => t in s.live
    case Line(t) => t in s.live && s.process.None?
    case EndOfOutput(t) => t in s.live && s.process.None?
    case _ => false
  }

  /** A step keeps the processes tidy exactly when it does not orphan one. */
  lemma TidyStepIff(s: State, e: Event)
    requires LockInvariant(s) && IsTidy(s) && Enabled(s, e)
    ensures IsTidy(Next(s, e)) <==> !Orphans(s, e)
  {
    EntersOnce(s, e);
    var n := Next(s, e);
    if !Orphans(s, e) {
      forall p | p in n.live
        ensures At(n, p, Reading) || At(n, p, Waiting)
      {
        if p in s.live {
          assert At(s, p, Reading) || At(s, p, Waiting);
        }
      }
    }
  }

  ghost predicate OrphansNothing(s: State, events: seq<Event>)
    requires IsRun(s, events)
    decreases |events|
  {
    events == [] || (!Orphans(s, events[0]) && OrphansNothing(Next(s, events[0]), events[1..]))
  }

  ghost predicate TidyThroughout(s: State, events: seq<Event>)
    requires IsRun(s, events)
    decreases |events|
  {
    IsTidy(s) && (events == [] || TidyThroughout(Next(s, events[0]), events[1..]))
  }

  /** Over every run, with cancels and errors, processes stay with their bodies exactly when no step orphans one. */
  lemma {:induction false} TidyThroughoutIff(s: State, events: seq<Event>)
    requires LockInvariant(s) && IsTidy(s) && IsRun(s, events)
    ensures TidyThroughout(s, events) <==> OrphansNothing(s, events)
    ensures OrphansNothing(s, events) ==> LockInvariant(Run(s, events)) && IsTidy(Run(s, events))
    decreases |events|
  {
    if events != [] {
      LockStep(s, events[0]);
      TidyStepIff(s, events[0]);
      if !Orphans(s, events[0]) {
        TidyThroughoutIff(Next(s, events[0]), events[1..]);
      }
    }
  }

  /** At most one benchmark process is running, and it is the active run's. */
  ghost predicate HasOneProcess(s: State) {
    && (forall p, q :: p in s.live && q in s.live ==> p == q)
    && (forall p :: p in s.live ==> p in s.bodies)
  }

  /** In every run that orphans no process, cancels included, at most one is running, the active run's. */
  lemma OneProcessUnlessOrphaned(events: seq<Event>)
    requires IsRun(START, events) && OrphansNothing(START, events)
    ensures HasOneProcess(Run(START, events))
  {
    TidyThroughoutIff(START, events);
  }

  /** While a body follows its process, the field holds that process. */
  ghost predicate IsTracked(s: State) {
    && (forall t: Task :: At(s, t, Reading) || At(s, t, Waiting) ==> s.process == Some(t))
    && s.cancelling.None?
  }

  predicate IsPlainEvent(e: Event) {
    !e.ReadError? && !e.CancelBegins?
  }

  lemma TrackedStep(s: State, e: Event)
    requires LockInvariant(s) && IsTracked(s) && Enabled(s, e) && IsPlainEvent(e)
    ensures IsTracked(Next(s, e)) && !Orphans(s, e)
  {
  }

  lemma {:induction false} PlainOrphansNothing(s: State, events: seq<Event>)
    requires LockInvariant(s) && IsTracked(s) && IsRun(s, events)
    requires forall e :: e in events ==> IsPlainEvent(e)
    ensures OrphansNothing(s, events)
    decreases |events|
  {
    if events != [] {
      LockStep(s, events[0]);
      TrackedStep(s, events[0]);
      PlainOrphansNothing(Next(s, events[0]), events[1..]);
    }
  }

  /** Without cancels and read errors no process is orphaned, so at most one is ever running. */
  lemma OneProcess(events: seq<Event>)
    requires IsRun(START, events) && forall e :: e in events ==> IsPlainEvent(e)
    ensures OrphansNothing(START, events) && HasOneProcess(Run(START, events))
  {
    PlainOrphansNothing(START, events);
    OneProcessUnlessOrphaned(events);
  }

  /** Something of the run itself went wrong. */
  predicate HasCause(events: seq<Event>, t: Task) {
    Announced(t, false) in events || Spawned(t, false) in events || Exited(t, false) in events || ResultSent(t, false) in events
  }

  ghost predicate FailuresHaveCause(s: State, past: seq<Event>) {
    && (forall t: Task :: At(s, t, SendingFailure) ==> HasCause(past, t))
    && (forall t: Task, ok: bool :: FailureSent(t, ok) in past ==> HasCause(past, t))
  }

  lemma CauseStep(s: State, e: Event, past: seq<Event>)
    requires LockInvariant(s) && IsTracked(s) && Enabled(s, e) && IsPlainEvent(e) && FailuresHaveCause(s, past)
    ensures FailuresHaveCause(Next(s, e), past + [e])
  {
    assert e in past + [e];
    forall t: Task | At(Next(s, e), t, SendingFailure)
      ensures HasCause(past + [e], t)
    {
      if !At(s, t, SendingFailure) {
        EntersFailing(s, e, t);
      }
    }
    forall t: Task, ok: bool | FailureSent(t, ok) in past + [e]
      ensures HasCause(past + [e], t)
    {
      if FailureSent(t, ok) !in past {
        assert At(s, t, SendingFailure);
      }
    }
  }

  lemma EntersFailing(s: State, e: Event, t: Task)
    requires IsTracked(s) && Enabled(s, e) && IsPlainEvent(e)
    requires At(Next(s, e), t, SendingFailure) && !At(s, t, SendingFailure)
    ensures HasCause([e], t)
  {
    assert e.Line? || e.EndOfOutput? ==> At(s, e.t, Reading);
  }

  lemma {:induction false} CausesHold(s: State, past: seq<Event>, events: seq<Event>)
    requires LockInvariant(s) && IsTracked(s) && IsRun(s, events) && FailuresHaveCause(s, past)
    requires forall e :: e in events ==> IsPlainEvent(e)
    ensures FailuresHaveCause(Run(s, events), past + events)
    decreases |events|
  {
    if events == [] {
      assert past + events == past;
    } else {
      LockStep(s, events[0]);
      TrackedStep(s, events[0]);
      CauseStep(s, events[0], past);
      CausesHold(Next(s, events[0]), past + [events[0]], events[1..]);
      assert past + [events[0]] + events[1..] == past + events;
    }
  }

  /**
   Without cancels and read errors a run is reported failed only after its own preparation, spawn,
   exit or result message failed, and a run that never failed in one of these ways and finished is
   reported completed.
   */
  lemma PlainRunIsReported(events: seq<Event>, t: Task)
    requires IsRun(START, events) && forall e :: e in events ==> IsPlainEvent(e)
    ensures Failed(t) in Run(START, events).sent ==> HasCause(events, t)
    ensures t in Run(START, events).finished && !HasCause(events, t) ==> Completed(t) in Run(START, events).sent
  {
    MessagesOfRun(START, events, t);
    CausesHold(START, [], events);
    assert [] + events == events;
  }

  // ---------------------------------------------------------------------------------------
  // Why cancels and read errors are excluded
  // ---------------------------------------------------------------------------------------

  ghost predicate LeadsTo(s: State, events: seq<Event>, t: State) {
    IsRun(s, events) && Run(s, events) == t
  }

  lemma StepFirst(s: State, e: Event, rest: seq<Event>, t: State)
    requires Enabled(s, e) && LeadsTo(Next(s, e), rest, t)
    ensures LeadsTo(s, [e] + rest, t)
  {
    assert ([e] + rest)[1..] == rest;
  }

  lemma {:induction false} JoinRuns(s: State, a: seq<Event>, t: State, b: seq<Event>, u: State)
    requires LeadsTo(s, a, t) && LeadsTo(t, b, u)
    ensures LeadsTo(s, a + b, u)
    decreases |a|
  {
    if a == [] {
      assert a + b == b;
    } else {
      JoinRuns(Next(s, a[0]), a[1..], t, b, u);
      StepFirst(s, a[0], a[1..] + b, u);
      assert [a[0]] + (a[1..] + b) == a + b;
    }
  }

  /** Two commands have arrived and both tasks have come to the lock. */
  const QUEUED := State(2, [], true, [1], false, map[0 := Announcing], [0], {}, {}, [], None, {}, None)

  /** The first run's process is being followed, the second task waits. */
  const FOLLOWING := State(2, [], true, [1], false, map[0 := Reading], [0], {}, {}, [], Some(0), {0}, None)

  lemma ReachQueued() returns (events: seq<Event>)
    ensures LeadsTo(START, events, QUEUED)
    ensures forall e :: e in events ==> IsPlainEvent(e)
  {
    var s1 := Next(START, Receive);
    var s2 := Next(s1, Receive);
    var s3 := Next(s2, RunTask);
    assert s2.ready == [0, 1] && s3.ready == [1];
    assert Next(s3, RunTask) == QUEUED;
    StepFirst(s3, RunTask, [], QUEUED);
    StepFirst(s2, RunTask, [RunTask] + [], QUEUED);
    StepFirst(s1, Receive, [RunTask] + ([RunTask] + []), QUEUED);
    StepFirst(START, Receive, [Receive] + ([RunTask] + ([RunTask] + [])), QUEUED);
    events := [Receive] + ([Receive] + ([RunTask] + ([RunTask] + [])));
  }

  lemma ReachFollowing() returns (events: seq<Event>)
    ensures LeadsTo(START, events, FOLLOWING)
    ensures forall e :: e in events ==> IsPlainEvent(e)
  {
    var prefix := ReachQueued();
    var s1 := Next(QUEUED, Announced(0, true));
    assert Next(s1, Spawned(0, true)) == FOLLOWING;
    StepFirst(s1, Spawned(0, true), [], FOLLOWING);
    StepFirst(QUEUED, Announced(0, true), [Spawned(0, true)] + [], FOLLOWING);
    var suffix := [Announced(0, true)] + ([Spawned(0, true)] + []);
    JoinRuns(START, prefix, QUEUED, suffix, FOLLOWING);
    events := prefix + suffix;
  }

  /** Woken after the first run failed; `live` and `cancelling` are what the first run left behind. */
  function Woken(live: set<Task>, cancelling: Option<Task>): State {
    State(2, [], false, [1], true, map[], [0], {0}, {0}, [Failed(0)], None, live, cancelling)
  }

  /** The second run has spawned its process. */
  function SecondFollowing(live: set<Task>, cancelling: Option<Task>): State {
    State(2, [], true, [], false, map[1 := Reading], [0, 1], {0}, {0}, [Failed(0)], Some(1), live + {1}, cancelling)
  }

  lemma SecondRunStarts(live: set<Task>, cancelling: Option<Task>) returns (events: seq<Event>)
    ensures LeadsTo(Woken(live, cancelling), events, SecondFollowing(live, cancelling))
    ensures forall e :: e in events ==> IsPlainEvent(e)
  {
    var s0, last := Woken(live, cancelling), SecondFollowing(live, cancelling);
    var s1 := Next(s0, Resume);
    var s2 := Next(s1, Announced(1, true));
    assert s1.waiters == [] && s1.starts == [0, 1];
    assert Next(s2, Spawned(1, true)) == last;
    StepFirst(s2, Spawned(1, true), [], last);
    StepFirst(s1, Announced(1, true), [Spawned(1, true)] + [], last);
    StepFirst(s0, Resume, [Announced(1, true)] + ([Spawned(1, true)] + []), last);
    events := [Resume] + ([Announced(1, true)] + ([Spawned(1, true)] + []));
  }

  /** A read error drops the reference to a running process; the next run then runs beside it. */
  lemma ReadErrorLeavesTwoProcesses() returns (events: seq<Event>)
    ensures IsRun(START, events) && Run(START, events).live == {0, 1}
    ensures forall e :: e in events ==> !e.CancelBegins?
  {
    var prefix := ReachFollowing();
    var s1 := Next(FOLLOWING, ReadError(0));
    assert Next(s1, FailureSent(0, true)) == Woken({0}, None);
    StepFirst(s1, FailureSent(0, true), [], Woken({0}, None));
    StepFirst(FOLLOWING, ReadError(0), [FailureSent(0, true)] + [], Woken({0}, None));
    var middle := [ReadError(0)] + ([FailureSent(0, true)] + []);
    var suffix := SecondRunStarts({0}, None);
    JoinRuns(FOLLOWING, middle, Woken({0}, None), suffix, SecondFollowing({0}, None));
    JoinRuns(START, prefix, FOLLOWING, middle + suffix, SecondFollowing({0}, None));
    events := prefix + (middle + suffix);
  }

  /** The cancelled process has ended and its output is drained; the cancel handler still waits. */
  const DRAINED := State(2, [], true, [1], false, map[0 := Waiting], [0], {}, {}, [], Some(0), {}, Some(0))

  lemma FirstRunDrained() returns (events: seq<Event>)
    ensures LeadsTo(FOLLOWING, events, DRAINED) && forall e :: e in events ==> !e.ReadError?
  {
    var s1 := Next(FOLLOWING, CancelBegins);
    var s2 := Next(s1, ProcessEnds(0));
    assert Next(s2, EndOfOutput(0)) == DRAINED;
    StepFirst(s2, EndOfOutput(0), [], DRAINED);
    StepFirst(s1, ProcessEnds(0), [EndOfOutput(0)] + [], DRAINED);
    StepFirst(FOLLOWING, CancelBegins, [ProcessEnds(0)] + ([EndOfOutput(0)] + []), DRAINED);
    events := [CancelBegins] + ([ProcessEnds(0)] + ([EndOfOutput(0)] + []));
  }

  lemma FirstRunCancelled() returns (events: seq<Event>)
    ensures LeadsTo(FOLLOWING, events, Woken({}, Some(0))) && forall e :: e in events ==> !e.ReadError?
  {
    var prefix := FirstRunDrained();
    var s1, last := Next(DRAINED, Exited(0, false)), Woken({}, Some(0));
    assert Next(s1, FailureSent(0, true)) == last;
    StepFirst(s1, FailureSent(0, true), [], last);
    StepFirst(DRAINED, Exited(0, false), [FailureSent(0, true)] + [], last);
    var suffix := [Exited(0, false)] + ([FailureSent(0, true)] + []);
    JoinRuns(FOLLOWING, prefix, DRAINED, suffix, last);
    events := prefix + suffix;
  }

  lemma CancelClearsField() returns (events: seq<Event>, last: State)
    ensures LeadsTo(SecondFollowing({}, Some(0)), events, last) && forall e :: e in events ==> !e.ReadError?
    ensures last.sent == [Failed(0), Failed(1)] && last.live == {1} && last.bodies == map[]
  {
    var s0 := SecondFollowing({}, Some(0));
    var s1 := Next(s0, CancelEnds);
    var s2 := Next(s1, Line(1));
    last := Next(s2, FailureSent(1, true));
    StepFirst(s2, FailureSent(1, true), [], last);
    StepFirst(s1, Line(1), [FailureSent(1, true)] + [], last);
    StepFirst(s0, CancelEnds, [Line(1)] + ([FailureSent(1, true)] + []), last);
    events := [CancelEnds] + ([Line(1)] + ([FailureSent(1, true)] + []));
  }

  /**
   A cancel that is still waiting when its run ends clears the next run's process reference, so the
   next run is reported failed while its process keeps running.
   */
  lemma CancelFailsTheNextRun() returns (events: seq<Event>)
    ensures IsRun(START, events) && forall e :: e in events ==> !e.ReadError?
    ensures var s := Run(START, events);
            s.sent == [Failed(0), Failed(1)] && s.live == {1} && s.bodies == map[]
  {
    var a := ReachFollowing();
    var b := FirstRunCancelled();
    var c := SecondRunStarts({}, Some(0));
    var d, last := CancelClearsField();
    JoinRuns(Woken({}, Some(0)), c, SecondFollowing({}, Some(0)), d, last);
    JoinRuns(FOLLOWING, b, Woken({}, Some(0)), c + d, last);
    JoinRuns(START, a, FOLLOWING, b + (c + d), last);
    events := a + (b + (c + d));
  }
}
