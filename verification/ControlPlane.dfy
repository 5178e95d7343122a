/**
 The control-plane client's connection life: missed-heartbeat detection, reconnects, and the window
 of recent command durations.

 A lifecycle runs a message loop and a heartbeat loop side by side.  When the message loop raises, the
 lifecycle ends but its heartbeat loop sleeps on; when it wakes it touches the shared counter once,
 finds its connection closed and ends.  Such loops are counted as left over.
 */
module ControlPlane {
  import opened Backoff

  const THRESHOLD: nat := 3
  const WINDOW: nat := 100

  // ---------------------------------------------------------------------------------------
  // Specification
  // ---------------------------------------------------------------------------------------

  datatype Phase = Down | Registering | Running(receiving: bool, beating: bool)

  /** `attempts` is the backoff exponent, `leftover` the heartbeat loops of earlier lifecycles that still sleep. */
  datatype Link = Link(phase: Phase, missed: nat, attempts: nat, leftover: nat)

  datatype Event =
    | Connect
    | Registered
    | Pong
    | Tick(goesOn: bool)   // the lifecycle's own heartbeat timer; the loop ends when it finds the connection closed
    | StaleTick            // the timer of a left-over loop
    | PeerCloses           // an orderly close ends the message loop without an exception
    | Fail                 // the lifecycle ends with an exception
    | Return               // the lifecycle ends because both loops did

  datatype Action = Quiet | CloseUnresponsive | SendHeartbeat

  predicate Enabled(l: Link, e: Event) {
    match e
    case Connect => l.phase.Down?
    case Registered => l.phase.Registering?
    case Pong => l.phase.Running? && l.phase.receiving
    case Tick(goesOn) => l.phase.Running? && l.phase.beating && (goesOn ==> l.phase.receiving)
    case StaleTick => l.leftover > 0
    case PeerCloses => l.phase.Running? && l.phase.receiving
    case Fail => l.phase.Running? ==> l.phase.receiving
    case Return => l.phase == Running(false, false)
  }

  function Next(l: Link, e: Event): (Link, Action)
    requires Enabled(l, e)
  {
    match e
    case Connect => (l.(phase := Registering, missed := 0, attempts := 0), Quiet)
    case Registered => (l.(phase := Running(true, true)), Quiet)
    case Pong => (l.(missed := 0), Quiet)
    case Tick(goesOn) =>
      if l.missed >= THRESHOLD then (l.(phase := Running(l.phase.receiving, false)), CloseUnresponsive)
      else (l.(phase := Running(l.phase.receiving, goesOn), missed := l.missed + 1), SendHeartbeat)
    case StaleTick =>
      (l.(leftover := l.leftover - 1, missed := if l.missed >= THRESHOLD then l.missed else l.missed + 1), Quiet)
    case PeerCloses => (l.(phase := Running(false, l.phase.beating)), Quiet)
    case Fail =>
      (l.(phase := Down, attempts := l.attempts + 1,
          leftover := l.leftover + if l.phase.Running? && l.phase.beating then 1 else 0), Quiet)
    case Return => (l.(phase := Down), Quiet)
  }

  const START := Link(Down, 0, 0, 0)

  function Front(events: seq<Event>): seq<Event>
    requires events != []
  {
    events[..|events| - 1]
  }

  function Last(events: seq<Event>): Event
    requires events != []
  {
    events[|events| - 1]
  }

  ghost predicate IsRun(l: Link, events: seq<Event>)
    decreases |events|, 0
  {
    events == [] || (IsRun(l, Front(events)) && Enabled(Run(l, Front(events)), Last(events)))
  }

  ghost function Run(l: Link, events: seq<Event>): Link
    requires IsRun(l, events)
    decreases |events|, 1
  {
    if events == [] then l else Next(Run(l, Front(events)), Last(events)).0
  }

  /** The last hundred of all durations. */
  function Recent(all: seq<real>): seq<real> {
    if |all| <= WINDOW then all else all[|all| - WINDOW..]
  }

  // ---------------------------------------------------------------------------------------
  // The client object
  // ---------------------------------------------------------------------------------------

  class ControlPlaneClient {
    var missedHeartbeats: nat
    var reconnectAttempts: nat
    var reconnectCount: nat
    var commandDurations: seq<real>
    ghost var phase: Phase
    ghost var leftover: nat
    ghost var allDurations: seq<real>

    ghost function Current(): Link
      reads this
    {
      Link(phase, missedHeartbeats, reconnectAttempts, leftover)
    }

    constructor ()
      ensures Current() == START && commandDurations == Recent(allDurations) && allDurations == []
    {
      missedHeartbeats, reconnectAttempts, reconnectCount, commandDurations := 0, 0, 0, [];
      phase, leftover, allDurations := Down, 0, [];
    }

    method OnConnected()
      requires Enabled(Current(), Connect)
      modifies this`phase, this`missedHeartbeats, this`reconnectAttempts
      ensures Current() == Next(old(Current()), Connect).0
    {
      phase := Registering;
      reconnectAttempts := 0;
      missedHeartbeats := 0;
    }

    method OnRegistered()
      requires Enabled(Current(), Registered)
      modifies this`phase
      ensures Current() == Next(old(Current()), Registered).0
    {
      phase := Running(true, true);
    }

    method OnPong()
      requires Enabled(Current(), Pong)
      modifies this`missedHeartbeats
      ensures Current() == Next(old(Current()), Pong).0
    {
      missedHeartbeats := 0;
    }

    /**
     One turn of a heartbeat loop, the current lifecycle's own or a left-over one; `goesOn` is false
     when its connection turns out to be closed.  `again` says whether the loop takes another turn.
     */
    method HeartbeatTurn(own: bool, goesOn: bool) returns (again: bool, action: Action)
      requires own ==> Enabled(Current(), Tick(goesOn))
      requires !own ==> Enabled(Current(), StaleTick) && !goesOn
      modifies this`phase, this`missedHeartbeats, this`leftover
      ensures (Current(), action) == Next(old(Current()), if own then Tick(goesOn) else StaleTick)
      ensures again <==> action == SendHeartbeat && goesOn
    {
      if missedHeartbeats >= THRESHOLD {
        again, action := false, if own then CloseUnresponsive else Quiet;
      } else {
        missedHeartbeats := missedHeartbeats + 1;
        again, action := goesOn, if own then SendHeartbeat else Quiet;
      }
      if own {
        phase := phase.(beating := again);
      } else {
        leftover := leftover - 1;
      }
    }

    /** The exception branch of the main loop: count the reconnect and compute the delay; `random` lies in [0, 1). */
    method OnFailure(random: real) returns (delay: real)
      requires 0.0 <= random < 1.0 && Enabled(Current(), Fail)
      modifies this`phase, this`leftover, this`reconnectCount, this`reconnectAttempts
      ensures Current() == Next(old(Current()), Fail).0 && reconnectCount == old(reconnectCount) + 1
      ensures var base := BaseDelay(old(reconnectAttempts));
              Max(1.0, 0.7 * base) <= delay <= Max(1.0, 1.3 * base)
      ensures delay == JitteredDelay(old(reconnectAttempts), random)
    {
      leftover := leftover + if phase.Running? && phase.beating then 1 else 0;
      phase := Down;
      reconnectCount := reconnectCount + 1;
      delay := BackoffWithJitter(random);
    }

    method BackoffWithJitter(random: real) returns (delay: real)
      requires 0.0 <= random < 1.0
      modifies this`reconnectAttempts
      ensures reconnectAttempts == old(reconnectAttempts) + 1
      ensures var base := BaseDelay(old(reconnectAttempts));
              Max(1.0, 0.7 * base) <= delay <= Max(1.0, 1.3 * base)
      ensures delay == JitteredDelay(old(reconnectAttempts), random)
    {
      var baseDelay := Min(MAX_BACKOFF, TwoTo(reconnectAttempts));
      var jitter := baseDelay * JITTER_FACTOR * (2.0 * random - 1.0);
      JitterIsBounded(baseDelay, random);
      delay := Max(1.0, baseDelay + jitter);
      reconnectAttempts := reconnectAttempts + 1;
    }

    method RecordDuration(duration: real)
      requires commandDurations == Recent(allDurations)
      modifies this`commandDurations, this`allDurations
      ensures allDurations == old(allDurations) + [duration] && commandDurations == Recent(allDurations)
    {
      allDurations := allDurations + [duration];
      commandDurations := commandDurations + [duration];
      if |commandDurations| > WINDOW {
        commandDurations := commandDurations[1..];
      }
    }
  }

  /** The window is a suffix of all durations, a hundred of them once there are that many. */
  lemma RecentIsSuffix(all: seq<real>)
    ensures |Recent(all)| == if |all| <= 100 then |all| else 100
    ensures all == all[..|all| - |Recent(all)|] + Recent(all)
  {
  }

  // ---------------------------------------------------------------------------------------
  // Runs
  // ---------------------------------------------------------------------------------------

  /** Timer ticks, own and of left-over loops, since the last answer or connect. */
  function TicksSinceAnswer(events: seq<Event>): nat {
    if events == [] then 0
    else
      match Last(events)
      case Connect => 0
      case Pong => 0
      case Tick(_) => TicksSinceAnswer(Front(events)) + 1
      case StaleTick => TicksSinceAnswer(Front(events)) + 1
      case _ => TicksSinceAnswer(Front(events))
  }

  /** Lifecycles that ended with an exception since the last successful connect. */
  function FailuresSinceConnect(events: seq<Event>): nat {
    if events == [] then 0
    else
      match Last(events)
      case Connect => 0
      case Fail => FailuresSinceConnect(Front(events)) + 1
      case _ => FailuresSinceConnect(Front(events))
  }

  /**
   Over every run the counter is the number of ticks since the last answer, stopping at the
   threshold, and the exponent the number of failures since the last connect.
   */
  lemma {:induction false} MissedCountsTicks(events: seq<Event>)
    requires IsRun(START, events)
    ensures Run(START, events).missed == if TicksSinceAnswer(events) <= THRESHOLD then TicksSinceAnswer(events) else THRESHOLD
    ensures Run(START, events).attempts == FailuresSinceConnect(events)
  {
    if events != [] {
      MissedCountsTicks(Front(events));
    }
  }

  /** The last event is the close with 4100. */
  ghost predicate ClosesLast(l: Link, events: seq<Event>)
    requires IsRun(l, events)
  {
    events != [] && Next(Run(l, Front(events)), Last(events)).1 == CloseUnresponsive
  }

  /** The client closes as unresponsive at some event of the run. */
  ghost predicate EverCloses(l: Link, events: seq<Event>)
    requires IsRun(l, events)
    decreases |events|
  {
    events != [] && (ClosesLast(l, events) || EverCloses(l, Front(events)))
  }

  /** The client closes exactly at an own tick that finds three ticks, own or left-over, since the last answer or connect. */
  lemma ClosesIff(events: seq<Event>)
    requires IsRun(START, events) && events != []
    ensures ClosesLast(START, events) <==> Last(events).Tick? && TicksSinceAnswer(Front(events)) >= THRESHOLD
  {
    MissedCountsTicks(Front(events));
  }

  /** No left-over loop wakes. */
  predicate IsUndisturbed(events: seq<Event>) {
    StaleTick !in events
  }

  lemma {:induction false} TicksAreOwn(events: seq<Event>)
    requires IsRun(START, events) && IsUndisturbed(events)
    ensures var s := Run(START, events);
            s.phase.Registering? || (s.phase.Running? && s.phase.beating) ==> s.missed == TicksSinceAnswer(events) <= THRESHOLD
  {
    if events != [] {
      TicksAreOwn(Front(events));
      MissedCountsTicks(events);
    }
  }

  /** Undisturbed, the client closes exactly at the fourth tick after the last answer or connect. */
  lemma ClosesAtFourthTick(events: seq<Event>)
    requires IsRun(START, events) && events != [] && IsUndisturbed(events)
    ensures ClosesLast(START, events) <==> Last(events).Tick? && TicksSinceAnswer(events) == 4
  {
    TicksAreOwn(Front(events));
    ClosesIff(events);
  }

  // ---------------------------------------------------------------------------------------
  // One connection: which servers are never closed
  // ---------------------------------------------------------------------------------------

  /** Heartbeats this connection sent since the last answer. */
  function OwnSinceAnswer(events: seq<Event>): nat {
    if events == [] then 0
    else
      match Last(events)
      case Pong => 0
      case Tick(_) => OwnSinceAnswer(Front(events)) + 1
      case _ => OwnSinceAnswer(Front(events))
  }

  /** No new connection begins, and the server answers at least once in any `m` ticks of its own connection. */
  predicate IsAnswered(events: seq<Event>, m: nat) {
    events == [] || (IsAnswered(Front(events), m) && !Last(events).Connect? && OwnSinceAnswer(events) <= m)
  }

  /** The connection `l` is never closed as unresponsive by a client whose server answers every `m` ticks. */
  ghost predicate NeverCloses(l: Link, m: nat) {
    forall events :: IsRun(l, events) && IsAnswered(events, m) ==> !EverCloses(l, events)
  }

  /** While the connection lasts, the counter is explained by its own ticks and the left-over loops that have woken. */
  lemma {:induction false} CounterIsExplained(l: Link, events: seq<Event>, m: nat)
    requires l.phase.Registering? && l.missed == 0 && IsRun(l, events) && IsAnswered(events, m)
    ensures var s := Run(l, events);
            !s.phase.Down? ==> s.leftover <= l.leftover && s.missed <= OwnSinceAnswer(events) + l.leftover - s.leftover
  {
    if events != [] {
      CounterIsExplained(l, Front(events), m);
    }
  }

  lemma {:induction false} FewLoopsAreTolerated(l: Link, events: seq<Event>, m: nat)
    requires l.phase.Registering? && l.missed == 0 && IsRun(l, events) && IsAnswered(events, m)
    requires l.leftover + m <= THRESHOLD
    ensures !EverCloses(l, events)
  {
    if events != [] {
      FewLoopsAreTolerated(l, Front(events), m);
      CounterIsExplained(l, Front(events), m);
    }
  }

  function Repeat(e: Event, n: nat): seq<Event> {
    seq(n, _ => e)
  }

  /** Some left-over loops wake, then own timers fire and nobody answers. */
  function Silence(stale: nat, own: nat): seq<Event> {
    [Registered] + Repeat(StaleTick, stale) + Repeat(Tick(true), own)
  }

  lemma SilenceGrows(stale: nat, own: nat)
    ensures own > 0 ==> Front(Silence(stale, own)) == Silence(stale, own - 1) && Last(Silence(stale, own)) == Tick(true)
    ensures own == 0 && stale > 0 ==> Front(Silence(stale, 0)) == Silence(stale - 1, 0) && Last(Silence(stale, 0)) == StaleTick
    ensures Silence(0, 0) == [Registered] && Front([Registered]) == []
  {
  }

  lemma {:induction false} SilenceRuns(l: Link, stale: nat, own: nat, m: nat)
    requires l.phase.Registering? && l.missed == 0 && stale <= l.leftover && stale + own <= THRESHOLD && own <= m
    ensures var events := Silence(stale, own);
            && IsRun(l, events) && IsAnswered(events, m) && OwnSinceAnswer(events) == own
            && Run(l, events) == Link(Running(true, true), stale + own, l.attempts, l.leftover - stale)
    decreases stale + own
  {
    SilenceGrows(stale, own);
    if own > 0 {
      SilenceRuns(l, stale, own - 1, m);
    } else if stale > 0 {
      SilenceRuns(l, stale - 1, 0, m);
    } else {
      assert IsRun(l, []) && IsAnswered([], m) && OwnSinceAnswer([]) == 0;
    }
  }

  lemma ManyLoopsClose(l: Link, m: nat) returns (events: seq<Event>)
    requires l.phase.Registering? && l.missed == 0 && m > 0 && l.leftover + m > THRESHOLD
    ensures IsRun(l, events) && IsAnswered(events, m) && EverCloses(l, events)
  {
    var stale := if l.leftover <= THRESHOLD then l.leftover else THRESHOLD;
    var own := THRESHOLD - stale;
    SilenceRuns(l, stale, own, m);
    SilenceGrows(stale, own + 1);
    events := Silence(stale, own + 1);
    assert ClosesLast(l, events);
  }

  /**
   A server that answers at least once in any `m` heartbeats of its connection is safe from being
   closed, whatever the order of timers, exactly when the loops left over at the connect and `m`
   together stay within the threshold.  Only without left-over loops may it miss two in a row.
   */
  lemma NeverClosesIff(l: Link, m: nat)
    requires l.phase.Registering? && l.missed == 0 && m > 0
    ensures NeverCloses(l, m) <==> l.leftover + m <= THRESHOLD
  {
    if l.leftover + m <= THRESHOLD {
      forall events | IsRun(l, events) && IsAnswered(events, m)
        ensures !EverCloses(l, events)
      {
        FewLoopsAreTolerated(l, events, m);
      }
    } else {
      var events := ManyLoopsClose(l, m);
    }
  }

  /** Connections that drop one after the other, each leaving its heartbeat loop asleep, then one more. */
  function QuickReconnects(n: nat): seq<Event> {
    if n == 0 then [Connect] else QuickReconnects(n - 1) + [Registered, Fail, Connect]
  }

  /** Any number of loops can be left over when a connection begins. */
  lemma {:induction false} LoopsPileUp(n: nat)
    ensures IsRun(START, QuickReconnects(n)) && Run(START, QuickReconnects(n)) == Link(Registering, 0, 0, n)
  {
    if n == 0 {
      Extend(START, [], Connect);
      assert [] + [Connect] == [Connect];
    } else {
      LoopsPileUp(n - 1);
      var before := QuickReconnects(n - 1);
      Extend(START, before, Registered);
      Extend(START, before + [Registered], Fail);
      Extend(START, before + [Registered] + [Fail], Connect);
      assert before + [Registered] + [Fail] + [Connect] == QuickReconnects(n);
    }
  }

  lemma Extend(l: Link, events: seq<Event>, e: Event)
    requires IsRun(l, events) && Enabled(Run(l, events), e)
    ensures IsRun(l, events + [e]) && Run(l, events + [e]) == Next(Run(l, events), e).0
    ensures ClosesLast(l, events + [e]) <==> Next(Run(l, events), e).1 == CloseUnresponsive
  {
    assert Front(events + [e]) == events;
  }

  /** After three quick reconnects the first own tick closes a healthy link that was never sent a heartbeat. */
  lemma HealthyLinkIsClosed()
    ensures var events := QuickReconnects(3) + [Registered, StaleTick, StaleTick, StaleTick, Tick(true)];
            IsRun(START, events) && ClosesLast(START, events)
  {
    LoopsPileUp(3);
    var before := QuickReconnects(3);
    Extend(START, before, Registered);
    Extend(START, before + [Registered], StaleTick);
    Extend(START, before + [Registered] + [StaleTick], StaleTick);
    Extend(START, before + [Registered] + [StaleTick] + [StaleTick], StaleTick);
    Extend(START, before + [Registered] + [StaleTick] + [StaleTick] + [StaleTick], Tick(true));
    assert before + [Registered] + [StaleTick] + [StaleTick] + [StaleTick] + [Tick(true)]
        == before + [Registered, StaleTick, StaleTick, StaleTick, Tick(true)];
  }

  /** A silent server on an open link is closed within four own ticks, whatever happened before. */
  lemma SilenceIsDetected(events: seq<Event>) returns (n: nat)
    requires IsRun(START, events) && Run(START, events).phase == Running(true, true)
    ensures n < 4
    ensures IsRun(START, events + Repeat(Tick(true), n + 1)) && ClosesLast(START, events + Repeat(Tick(true), n + 1))
  {
    MissedCountsTicks(events);
    n := THRESHOLD - Run(START, events).missed;
    TicksAddUp(events, n);
    Extend(START, events + Repeat(Tick(true), n), Tick(true));
    assert events + Repeat(Tick(true), n) + [Tick(true)] == events + Repeat(Tick(true), n + 1);
  }

  lemma {:induction false} TicksAddUp(events: seq<Event>, n: nat)
    requires IsRun(START, events) && Run(START, events).phase == Running(true, true) && Run(START, events).missed + n <= THRESHOLD
    ensures var all := events + Repeat(Tick(true), n);
            IsRun(START, all) && Run(START, all) == Run(START, events).(missed := Run(START, events).missed + n)
  {
    if n == 0 {
      assert events + Repeat(Tick(true), 0) == events;
    } else {
      TicksAddUp(events, n - 1);
      Extend(START, events + Repeat(Tick(true), n - 1), Tick(true));
      assert events + Repeat(Tick(true), n - 1) + [Tick(true)] == events + Repeat(Tick(true), n);
    }
  }
}
