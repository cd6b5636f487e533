/** How soon and how late the podium schedulers can install the ready stage, measured in true time. */
module FinalStageTiming {
  import opened FinalStage

  /** One thing that happens to a scheduler; ticks carry the true time in milliseconds. */
  datatype Event = Tick(time: nat, signals: Signals) | Press(action: u32)

  function Clock(time: nat): u32 {
    time % WRAP
  }

  lemma ElapsedIsTrue(time: nat, since: nat)
    requires since <= time
    ensures WrappingSub(Clock(time), Clock(since)) <= time - since
    ensures time - since < WRAP ==> WrappingSub(Clock(time), Clock(since)) == time - since
  {
  }

  /** The true time behind a start stamp; an unarmed stamp has none. */
  ghost predicate Stamped(started: u32, since: nat, now: nat) {
    started != 0 ==> started == Clock(since) && since <= now
  }

  /** Ticks never run backwards. */
  predicate Ordered(now: nat, events: seq<Event>)
    decreases events
  {
    events == [] ||
    (if events[0].Press? then Ordered(now, events[1..])
     else now <= events[0].time && Ordered(events[0].time, events[1..]))
  }

  /** Milliseconds a dwell still has to run at the very least. */
  ghost function Owed(dwell: nat, started: u32, since: nat, now: nat): nat {
    if started == 0 then dwell + 1
    else if now - since > dwell then 0 else dwell + 1 - (now - since)
  }

  // --------------------------------------------------------------------- team

  function TeamStep(s: TeamState, e: Event): (TeamState, Outcome) {
    match e
    case Tick(time, signals) => TeamUpdate(s, Clock(time), signals.forwardComplete)
    case Press(action) => (TeamInput(s, action).0, Waiting)
  }

  function TeamAfter(s: TeamState, events: seq<Event>): TeamState
    decreases events
  {
    if events == [] then s else TeamAfter(TeamStep(s, events[0]).0, events[1..])
  }

  /** The event installs the ready stage. */
  predicate TeamInstallsAt(s: TeamState, events: seq<Event>, i: nat)
    requires i < |events|
  {
    TeamStep(TeamAfter(s, events[..i]), events[i]).1.InstallReadyStage?
  }

  ghost function TeamOwed(s: TeamState, since: nat, now: nat): nat {
    match s.phase
    case TIntroDelay => Owed(INTRO_DELAY_MS, s.started, since, now) + 101 + 7001
    case TFirstAnimation => 101 + 7001
    case PostAnimation => Owed(POST_ANIMATION_DELAY_MS, s.started, since, now) + 7001
    case ResultDwell => Owed(TEAM_RESULT_DWELL_MS, s.started, since, now)
    case AwaitingManualConfirm => 0
    case DispatchReadyStage => 0
  }

  /** One event pays off at most the time that passes with it. */
  lemma TeamStepOwed(s: TeamState, since: nat, now: nat, e: Event) returns (since': nat)
    requires Stamped(s.started, since, now) && (e.Tick? ==> now <= e.time)
    ensures var later := if e.Tick? then e.time else now;
            var s' := TeamStep(s, e).0;
            && Stamped(s'.started, since', later)
            && TeamOwed(s', since', later) + (later - now) >= TeamOwed(s, since, now)
    ensures TeamStep(s, e).1.InstallReadyStage? ==> TeamOwed(s, since, now) == 0
  {
    since' := since;
    if e.Tick? {
      if s.started == 0 { since' := e.time; }
      ElapsedIsTrue(e.time, since');
    }
  }

  lemma AfterTail(s: TeamState, events: seq<Event>, i: nat)
    requires 0 < i < |events|
    ensures TeamInstallsAt(s, events, i) == TeamInstallsAt(TeamStep(s, events[0]).0, events[1..], i - 1)
  {
    assert events[..i][1..] == events[1..][..i - 1];
  }

  lemma {:induction false} TeamPaid(s: TeamState, since: nat, start: nat, now: nat, events: seq<Event>, i: nat)
    requires Stamped(s.started, since, now) && start <= now && Ordered(now, events)
    requires now - start + TeamOwed(s, since, now) >= 8103
    requires i < |events| && events[i].Tick? && TeamInstallsAt(s, events, i)
    ensures events[i].time - start >= 8103
    decreases events
  {
    var since' := TeamStepOwed(s, since, now, events[0]);
    if i == 0 {
      assert events[..0] == [];
    } else {
      AfterTail(s, events, i);
      var later := if events[0].Tick? then events[0].time else now;
      TeamPaid(TeamStep(s, events[0]).0, since', start, later, events[1..], i - 1);
    }
  }

  /** No team podium is replaced earlier than 8103 ms after the run begins, whatever is pressed on the way. */
  lemma TeamNotBefore(mode: Mode, start: nat, events: seq<Event>, i: nat)
    requires Ordered(start, events) && i < |events| && events[i].Tick?
    requires TeamInstallsAt(TeamStart(mode), events, i)
    ensures events[i].time - start >= 8103
  {
    TeamPaid(TeamStart(mode), start, start, start, events, i);
  }

  /** The bound is met: there is a run that installs exactly 8103 ms after its first tick. */
  lemma TeamBoundIsMet(mode: Mode) returns (events: seq<Event>)
    requires !mode.manualResultUi
    ensures |events| == 8 && Ordered(1, events) && events[0] == Tick(1, Signals(true, true))
    ensures TeamInstallsAt(TeamStart(mode), events, 7) && events[7].Tick? && events[7].time - 1 == 8103
  {
    hide TeamAfter, Ordered, TeamStep;
    var times: seq<nat> := [1, 1002, 1002, 1002, 1103, 1103, 8104, 8104];
    events := seq(8, i requires 0 <= i < 8 => Tick(times[i], Signals(true, true)));
    TeamAfterNone(TeamStart(mode), events);
    TightStep(TeamStart(mode), events, 0, TeamState(mode, TIntroDelay, 0), TeamState(mode, TIntroDelay, 1));
    TightStep(TeamStart(mode), events, 1, TeamState(mode, TIntroDelay, 1), TeamState(mode, TFirstAnimation, 0));
    TightStep(TeamStart(mode), events, 2, TeamState(mode, TFirstAnimation, 0), TeamState(mode, PostAnimation, 0));
    TightStep(TeamStart(mode), events, 3, TeamState(mode, PostAnimation, 0), TeamState(mode, PostAnimation, 1002));
    TightStep(TeamStart(mode), events, 4, TeamState(mode, PostAnimation, 1002), TeamState(mode, ResultDwell, 0));
    TightStep(TeamStart(mode), events, 5, TeamState(mode, ResultDwell, 0), TeamState(mode, ResultDwell, 1103));
    TightStep(TeamStart(mode), events, 6, TeamState(mode, ResultDwell, 1103), TeamState(mode, DispatchReadyStage, 0));
    DispatchInstalls(TeamState(mode, DispatchReadyStage, 0), events[7]);
    OrderedPairs(1, events);
  }

  lemma TightStep(s: TeamState, events: seq<Event>, i: nat, before: TeamState, after: TeamState)
    requires i < |events| && events[i].Tick? && events[i].time < WRAP
    requires TeamAfter(s, events[..i]) == before
    requires TeamUpdate(before, events[i].time, events[i].signals.forwardComplete).0 == after
    ensures TeamAfter(s, events[..i + 1]) == after
  {
    hide TeamAfter;
    TeamAfterNext(s, events, i);
  }

  lemma DispatchInstalls(s: TeamState, e: Event)
    requires s.phase == DispatchReadyStage && e.Tick?
    ensures TeamStep(s, e).1.InstallReadyStage?
  {
  }

  lemma TeamAfterNone(s: TeamState, events: seq<Event>)
    ensures TeamAfter(s, events[..0]) == s
  {
  }

  lemma {:induction false} OrderedPairs(now: nat, events: seq<Event>)
    requires forall i :: 0 <= i < |events| && events[i].Tick? ==> now <= events[i].time
    requires forall i, j :: 0 <= i < j < |events| && events[i].Tick? && events[j].Tick? ==>
                              events[i].time <= events[j].time
    ensures Ordered(now, events)
    decreases events
  {
    if events != [] { OrderedPairs(if events[0].Tick? then events[0].time else now, events[1..]); }
  }

  lemma {:induction false} TeamAfterNext(s: TeamState, events: seq<Event>, i: nat)
    requires i < |events|
    ensures TeamAfter(s, events[..i + 1]) == TeamStep(TeamAfter(s, events[..i]), events[i]).0
    decreases i
  {
    if i == 0 {
      assert events[..1][1..] == [];
    } else {
      var next, rest := TeamStep(s, events[0]).0, events[1..];
      assert events[..i + 1][1..] == rest[..i] && events[..i][1..] == rest[..i - 1];
      TeamAfterNext(next, rest, i - 1);
    }
  }

  // ------------------------------------------------------------ latest times

  /** Ticks move forward, never by more than `gap`. */
  predicate Paced(now: nat, events: seq<Event>, gap: nat)
    decreases events
  {
    events == [] ||
    (if events[0].Press? then Paced(now, events[1..], gap)
     else now < events[0].time <= now + gap && Paced(events[0].time, events[1..], gap))
  }

  predicate SignalsComplete(events: seq<Event>) {
    forall i :: 0 <= i < |events| && events[i].Tick? ==> events[i].signals == Signals(true, true)
  }

  function LastTime(now: nat, events: seq<Event>): nat
    decreases events
  {
    if events == [] then now
    else LastTime(if events[0].Tick? then events[0].time else now, events[1..])
  }

  /** Milliseconds a dwell can still run at most, when no tick comes later than `gap` after the one before. */
  ghost function Left(dwell: nat, started: u32, since: nat, now: nat, gap: nat): int {
    if started != 0 then dwell + gap - (now - since)
    else if Clock(now) == 0 then dwell + 2 * gap
    else dwell + 3 * gap
  }

  function TeamDwell(phase: TeamPhase): nat {
    match phase
    case TIntroDelay => INTRO_DELAY_MS
    case PostAnimation => POST_ANIMATION_DELAY_MS
    case ResultDwell => TEAM_RESULT_DWELL_MS
    case _ => 0
  }

  predicate TeamDwells(phase: TeamPhase) {
    phase == TIntroDelay || phase == PostAnimation || phase == ResultDwell
  }

  ghost function TeamLeft(s: TeamState, since: nat, now: nat, gap: nat): int {
    match s.phase
    case TIntroDelay => Left(INTRO_DELAY_MS, s.started, since, now, gap) + gap + 7100 + 6 * gap
    case TFirstAnimation => gap + 7100 + 6 * gap
    case PostAnimation => Left(POST_ANIMATION_DELAY_MS, s.started, since, now, gap) + 7000 + 3 * gap
    case ResultDwell => Left(TEAM_RESULT_DWELL_MS, s.started, since, now, gap)
    case AwaitingManualConfirm => 0
    case DispatchReadyStage => 0
  }

  /** The state between ticks: a running dwell has not been missed. */
  ghost predicate TeamOnTime(s: TeamState, since: nat, now: nat) {
    && !s.mode.manualResultUi && s.phase != AwaitingManualConfirm
    && Stamped(s.started, since, now)
    && (TeamDwells(s.phase) && s.started != 0 ==> now - since <= TeamDwell(s.phase))
    && (s.phase == TIntroDelay && s.started == 0 ==> Clock(now) == 0)
  }

  lemma NextClock(now: nat, time: nat, gap: nat)
    requires now < time <= now + gap && gap < WRAP
    ensures Clock(now) == 0 ==> Clock(time) != 0
  {
  }

  lemma TeamStepLeft(s: TeamState, since: nat, now: nat, e: Event, gap: nat) returns (since': nat)
    requires TeamOnTime(s, since, now) && gap + TEAM_RESULT_DWELL_MS < WRAP
    requires e.Tick? ==> now < e.time <= now + gap && e.signals == Signals(true, true)
    requires TeamStep(s, e).1 == Waiting
    ensures var later := if e.Tick? then e.time else now;
            var s' := TeamStep(s, e).0;
            && TeamOnTime(s', since', later)
            && TeamLeft(s', since', later, gap) + (later - now) <= TeamLeft(s, since, now, gap)
  {
    since' := since;
    if e.Tick? {
      if s.started == 0 { since' := e.time; }
      ElapsedIsTrue(e.time, since');
      NextClock(now, e.time, gap);
    }
  }

  lemma {:induction false} TeamRunsOut(s: TeamState, since: nat, now: nat, events: seq<Event>, gap: nat)
    requires TeamOnTime(s, since, now) && gap + TEAM_RESULT_DWELL_MS < WRAP
    requires Paced(now, events, gap) && SignalsComplete(events)
    requires forall i :: 0 <= i < |events| ==> !TeamInstallsAt(s, events, i)
    ensures LastTime(now, events) - now <= TeamLeft(s, since, now, gap)
    decreases events
  {
    if events != [] {
      assert !TeamInstallsAt(s, events, 0);
      assert events[..0] == [];
      var since' := TeamStepLeft(s, since, now, events[0], gap);
      forall i | 0 <= i < |events[1..]|
        ensures !TeamInstallsAt(TeamStep(s, events[0]).0, events[1..], i)
      {
        AfterTail(s, events, i + 1);
      }
      TeamRunsOut(TeamStep(s, events[0]).0, since', if events[0].Tick? then events[0].time else now, events[1..], gap);
    } else {
      TeamLeftNonNegative(s, since, now, gap);
    }
  }

  lemma TeamLeftNonNegative(s: TeamState, since: nat, now: nat, gap: nat)
    requires TeamOnTime(s, since, now)
    ensures TeamLeft(s, since, now, gap) >= 0
  {
  }

  /**
   Without manual confirmation, with complete animation signals and ticks at most `gap` apart, a team podium that has
   not been replaced is at most 8100 + 9 * gap ms old: any longer run has installed the ready stage.
   */
  lemma TeamNotAfter(mode: Mode, events: seq<Event>, gap: nat)
    requires !mode.manualResultUi && gap + TEAM_RESULT_DWELL_MS < WRAP
    requires events != [] && events[0].Tick? && Paced(events[0].time, events[1..], gap) && SignalsComplete(events)
    requires LastTime(0, events) - events[0].time > 8100 + 9 * gap
    ensures exists i :: 0 <= i < |events| && TeamInstallsAt(TeamStart(mode), events, i)
  {
    var t0, rest := events[0].time, events[1..];
    var s := TeamStep(TeamStart(mode), events[0]).0;
    if forall i :: 0 <= i < |events| ==> !TeamInstallsAt(TeamStart(mode), events, i) {
      forall i | 0 <= i < |rest|
        ensures !TeamInstallsAt(s, rest, i)
      {
        AfterTail(TeamStart(mode), events, i + 1);
      }
      ElapsedIsTrue(t0, t0);
      TeamRunsOut(s, t0, t0, rest, gap);
    }
  }

  // --------------------------------------------------------------- individual

  function IndividualStep(s: IndividualState, e: Event): (IndividualState, Outcome) {
    match e
    case Tick(time, signals) => IndividualUpdate(s, Clock(time), signals)
    case Press(action) => (IndividualInput(s, action).0, Waiting)
  }

  function IndividualAfter(s: IndividualState, events: seq<Event>): IndividualState
    decreases events
  {
    if events == [] then s else IndividualAfter(IndividualStep(s, events[0]).0, events[1..])
  }

  predicate IndividualInstallsAt(s: IndividualState, events: seq<Event>, i: nat)
    requires i < |events|
  {
    IndividualStep(IndividualAfter(s, events[..i]), events[i]).1.InstallReadyStage?
  }

  /** A player's podium never enters the observer phases. */
  predicate OwnPhases(s: IndividualState) {
    !s.mode.observer ==>
      s.phase == IntroDelay || s.phase == FirstAnimation || s.phase == PostFirstAnimation || s.phase == ReadyDwell
  }

  /** `pressed` tells whether the run may hold presses that shorten an observer's holds. */
  ghost function IndividualOwed(s: IndividualState, since: nat, now: nat, pressed: bool): nat {
    var hold := if pressed then 0 else 2001;
    var rest := if s.mode.observer then 2 * hold else 5001;
    match s.phase
    case IntroDelay => (if s.mode.observer then 0 else Owed(INTRO_DELAY_MS, s.started, since, now)) + 101 + rest
    case FirstAnimation => 101 + rest
    case PostFirstAnimation => Owed(POST_ANIMATION_DELAY_MS, s.started, since, now) + rest
    case ObserverFirstHold => if pressed then 0 else Owed(INDIVIDUAL_OBSERVER_HOLD_MS, s.started, since, now) + 2001
    case ObserverPanelSetup => hold
    case ObserverSecondAnimation => hold
    case ObserverSecondHold => if pressed then 0 else Owed(INDIVIDUAL_OBSERVER_HOLD_MS, s.started, since, now)
    case ReadyDwell => if s.mode.observer then 0 else Owed(INDIVIDUAL_READY_DWELL_MS, s.started, since, now)
  }

  /** The event does not cut an observer's hold short, or such cuts are allowed for. */
  predicate Fair(mode: Mode, e: Event, pressed: bool) {
    pressed || e.Tick? || !mode.observer || !mode.manualResultUi
  }

  lemma IndividualStepOwed(s: IndividualState, since: nat, now: nat, e: Event, pressed: bool) returns (since': nat)
    requires OwnPhases(s) && Stamped(s.started, since, now) && (e.Tick? ==> now <= e.time) && Fair(s.mode, e, pressed)
    ensures var later := if e.Tick? then e.time else now;
            var s' := IndividualStep(s, e).0;
            && OwnPhases(s') && s'.mode == s.mode && Stamped(s'.started, since', later)
            && IndividualOwed(s', since', later, pressed) + (later - now) >= IndividualOwed(s, since, now, pressed)
    ensures IndividualStep(s, e).1.InstallReadyStage? ==>
              IndividualOwed(s, since, now, pressed) <= (if e.Tick? then e.time else now) - now
  {
    since' := since;
    if e.Tick? {
      var s' := IndividualStep(s, e).0;
      if s.started == 0 || s'.phase != s.phase { since' := e.time; }
      ElapsedIsTrue(e.time, if s.started == 0 then e.time else since);
    }
  }

  lemma IndividualAfterTail(s: IndividualState, events: seq<Event>, i: nat)
    requires 0 < i < |events|
    ensures var next := IndividualStep(s, events[0]).0;
            IndividualInstallsAt(s, events, i) == IndividualInstallsAt(next, events[1..], i - 1)
  {
    assert events[..i][1..] == events[1..][..i - 1];
  }

  lemma {:induction false} IndividualPaid(
    s: IndividualState, since: nat, start: nat, now: nat, events: seq<Event>, i: nat, pressed: bool, floor: nat)
    requires OwnPhases(s) && Stamped(s.started, since, now) && start <= now && Ordered(now, events)
    requires forall j :: 0 <= j < |events| ==> Fair(s.mode, events[j], pressed)
    requires now - start + IndividualOwed(s, since, now, pressed) >= floor
    requires i < |events| && events[i].Tick? && IndividualInstallsAt(s, events, i)
    ensures events[i].time - start >= floor
    decreases events
  {
    hide IndividualOwed, IndividualStep;
    var since' := IndividualStepOwed(s, since, now, events[0], pressed);
    if i == 0 {
      assert events[..0] == [];
    } else {
      IndividualAfterTail(s, events, i);
      var later := if events[0].Tick? then events[0].time else now;
      IndividualPaid(IndividualStep(s, events[0]).0, since', start, later, events[1..], i - 1, pressed, floor);
    }
  }

  /** A player's podium lasts at least 6103 ms, an observer's 4103 ms or, when a press shortens it, 101 ms. */
  lemma IndividualNotBefore(mode: Mode, start: nat, events: seq<Event>, i: nat)
    requires Ordered(start, events) && i < |events| && events[i].Tick?
    requires IndividualInstallsAt(IndividualStart(mode), events, i)
    ensures !mode.observer ==> events[i].time - start >= 6103
    ensures mode.observer && (!mode.manualResultUi || forall j :: 0 <= j < |events| ==> events[j].Tick?)
            ==> events[i].time - start >= 4103
    ensures events[i].time - start >= 101
  {
    var s := IndividualStart(mode);
    if !mode.observer || !mode.manualResultUi || forall j :: 0 <= j < |events| ==> events[j].Tick? {
      IndividualPaid(s, start, start, start, events, i, false, if mode.observer then 4103 else 6103);
    } else {
      IndividualPaid(s, start, start, start, events, i, true, 101);
    }
  }

  lemma {:induction false} IndividualAfterNext(s: IndividualState, events: seq<Event>, i: nat)
    requires i < |events|
    ensures IndividualAfter(s, events[..i + 1]) == IndividualStep(IndividualAfter(s, events[..i]), events[i]).0
    decreases i
  {
    if i == 0 {
      assert events[..1][1..] == [];
    } else {
      var next, rest := IndividualStep(s, events[0]).0, events[1..];
      assert events[..i + 1][1..] == rest[..i] && events[..i][1..] == rest[..i - 1];
      IndividualAfterNext(next, rest, i - 1);
    }
  }

  lemma TightMove(s: IndividualState, events: seq<Event>, i: nat, before: IndividualState, after: IndividualState)
    requires i < |events| && IndividualAfter(s, events[..i]) == before && IndividualStep(before, events[i]).0 == after
    ensures IndividualAfter(s, events[..i + 1]) == after
  {
    IndividualAfterNext(s, events, i);
  }

  function At(time: nat): Event {
    Tick(time, Signals(true, true))
  }

  /** The player's bound is met. */
  lemma PlayerBoundIsMet(mode: Mode) returns (events: seq<Event>)
    requires !mode.observer
    ensures |events| == 5 && Ordered(1, events) && events[0] == At(1) && events[4] == At(6104)
    ensures IndividualInstallsAt(IndividualStart(mode), events, 4)
  {
    hide IndividualAfter, Ordered;
    events := [At(1), At(1002), At(1002), At(1103), At(6104)];
    var s := IndividualStart(mode);
    IndividualAfterNone(s, events);
    TightMove(s, events, 0, s, Phased(mode, IntroDelay, 1, 0));
    TightMove(s, events, 1, Phased(mode, IntroDelay, 1, 0), Phased(mode, FirstAnimation, 1002, 0));
    TightMove(s, events, 2, Phased(mode, FirstAnimation, 1002, 0), Phased(mode, PostFirstAnimation, 1002, 0));
    TightMove(s, events, 3, Phased(mode, PostFirstAnimation, 1002, 0), Phased(mode, ReadyDwell, 1103, 0));
    OrderedPairs(1, events);
  }

  lemma IndividualAfterNone(s: IndividualState, events: seq<Event>)
    ensures IndividualAfter(s, events[..0]) == s
  {
  }

  function Phased(mode: Mode, phase: IndividualPhase, started: u32, confirms: u32): IndividualState {
    IndividualState(mode, phase, started, confirms)
  }

  /** An observer is in the first hold 101 ms after the first tick. */
  lemma ObserverHolds(mode: Mode, events: seq<Event>)
    requires mode.observer && |events| >= 3 && events[0] == At(1) && events[1] == At(1) && events[2] == At(102)
    ensures IndividualAfter(IndividualStart(mode), events[..3]) == Phased(mode, ObserverFirstHold, 102, 0)
  {
    hide IndividualAfter;
    var s := IndividualStart(mode);
    IndividualAfterNone(s, events);
    TightMove(s, events, 0, s, Phased(mode, FirstAnimation, 1, 0));
    TightMove(s, events, 1, Phased(mode, FirstAnimation, 1, 0), Phased(mode, PostFirstAnimation, 1, 0));
    TightMove(s, events, 2, Phased(mode, PostFirstAnimation, 1, 0), Phased(mode, ObserverFirstHold, 102, 0));
  }

  /** An observer's ready dwell ends at its first tick. */
  lemma ObserverInstalls(s: IndividualState, events: seq<Event>, i: nat)
    requires i < |events| && events[i].Tick?
    requires IndividualAfter(s, events[..i]).phase == ReadyDwell && IndividualAfter(s, events[..i]).mode.observer
    ensures IndividualInstallsAt(s, events, i)
  {
    hide IndividualAfter;
  }

  /** The observer's bound is met. */
  lemma ObserverBoundIsMet(mode: Mode) returns (events: seq<Event>)
    requires mode.observer
    ensures |events| == 8 && Ordered(1, events) && events[0] == At(1) && events[7] == At(4104)
    ensures IndividualInstallsAt(IndividualStart(mode), events, 7)
  {
    hide IndividualAfter, Ordered, IndividualInstallsAt;
    events := [At(1), At(1), At(102), At(2103), At(2103), At(2103), At(4104), At(4104)];
    ObserverHolds(mode, events);
    ObserverWaits(mode, events);
    ObserverInstalls(IndividualStart(mode), events, 7);
    OrderedPairs(1, events);
  }

  lemma ObserverWaits(mode: Mode, events: seq<Event>)
    requires mode.observer && |events| >= 7
    requires IndividualAfter(IndividualStart(mode), events[..3]) == Phased(mode, ObserverFirstHold, 102, 0)
    requires events[3] == At(2103) && events[4] == At(2103) && events[5] == At(2103) && events[6] == At(4104)
    ensures IndividualAfter(IndividualStart(mode), events[..7]) == Phased(mode, ReadyDwell, 4104, 0)
  {
    hide IndividualAfter;
    var s := IndividualStart(mode);
    TightMove(s, events, 3, Phased(mode, ObserverFirstHold, 102, 0), Phased(mode, ObserverPanelSetup, 2103, 0));
    TightMove(s, events, 4, Phased(mode, ObserverPanelSetup, 2103, 0), Phased(mode, ObserverSecondAnimation, 2103, 0));
    TightMove(s, events, 5, Phased(mode, ObserverSecondAnimation, 2103, 0), Phased(mode, ObserverSecondHold, 2103, 0));
    TightMove(s, events, 6, Phased(mode, ObserverSecondHold, 2103, 0), Phased(mode, ReadyDwell, 4104, 0));
  }

  /** The bound of an observer who presses is met: one press skips the first hold, two confirm the second. */
  lemma PressedBoundIsMet(mode: Mode) returns (events: seq<Event>)
    requires mode.observer && mode.manualResultUi
    ensures |events| == 9 && Ordered(1, events) && events[0] == At(1) && events[8] == At(102)
    ensures IndividualInstallsAt(IndividualStart(mode), events, 8)
  {
    hide IndividualAfter, Ordered, IndividualInstallsAt;
    events := [At(1), At(1), At(102), Press(13), At(102), At(102), Press(13), Press(13), At(102)];
    ObserverHolds(mode, events);
    ObserverPresses(mode, events);
    ObserverInstalls(IndividualStart(mode), events, 8);
    OrderedPairs(1, events);
  }

  lemma ObserverPresses(mode: Mode, events: seq<Event>)
    requires mode.observer && mode.manualResultUi && |events| >= 8
    requires IndividualAfter(IndividualStart(mode), events[..3]) == Phased(mode, ObserverFirstHold, 102, 0)
    requires events[3] == Press(13) && events[4] == At(102) && events[5] == At(102)
    requires events[6] == Press(13) && events[7] == Press(13)
    ensures IndividualAfter(IndividualStart(mode), events[..8]) == Phased(mode, ReadyDwell, 0, 2)
  {
    hide IndividualAfter;
    var s := IndividualStart(mode);
    TightMove(s, events, 3, Phased(mode, ObserverFirstHold, 102, 0), Phased(mode, ObserverPanelSetup, 0, 0));
    TightMove(s, events, 4, Phased(mode, ObserverPanelSetup, 0, 0), Phased(mode, ObserverSecondAnimation, 102, 0));
    TightMove(s, events, 5, Phased(mode, ObserverSecondAnimation, 102, 0), Phased(mode, ObserverSecondHold, 102, 0));
    TightMove(s, events, 6, Phased(mode, ObserverSecondHold, 102, 0), Phased(mode, ObserverSecondHold, 102, 1));
    TightMove(s, events, 7, Phased(mode, ObserverSecondHold, 102, 1), Phased(mode, ReadyDwell, 0, 2));
  }

  // ------------------------------------------------- individual, latest times

  function IndividualDwell(s: IndividualState): nat {
    match s.phase
    case IntroDelay => INTRO_DELAY_MS
    case PostFirstAnimation => POST_ANIMATION_DELAY_MS
    case ObserverFirstHold => INDIVIDUAL_OBSERVER_HOLD_MS
    case ObserverSecondHold => INDIVIDUAL_OBSERVER_HOLD_MS
    case ReadyDwell => INDIVIDUAL_READY_DWELL_MS
    case _ => 0
  }

  predicate IndividualDwells(s: IndividualState) {
    match s.phase
    case IntroDelay => !s.mode.observer
    case PostFirstAnimation => true
    case ObserverFirstHold => true
    case ObserverSecondHold => true
    case ReadyDwell => !s.mode.observer
    case _ => false
  }

  /** A dwell entered at a tick is armed there and then, unless the clock reads zero. */
  ghost function LeftAt(dwell: nat, started: u32, since: nat, now: nat, gap: nat): int {
    if started != 0 then dwell + gap - (now - since) else dwell + 2 * gap
  }

  ghost function IndividualLeft(s: IndividualState, since: nat, now: nat, gap: nat): int {
    var rest: int := if s.mode.observer then 4000 + 6 * gap else 5000 + 2 * gap;
    match s.phase
    case IntroDelay =>
      if s.mode.observer then 0
      else LeftAt(INTRO_DELAY_MS, s.started, since, now, gap) + gap + (100 + 2 * gap) + rest
    case FirstAnimation => gap + (100 + 2 * gap) + rest
    case PostFirstAnimation => LeftAt(POST_ANIMATION_DELAY_MS, s.started, since, now, gap) + rest
    case ObserverFirstHold => LeftAt(INDIVIDUAL_OBSERVER_HOLD_MS, s.started, since, now, gap) + 2000 + 4 * gap
    case ObserverPanelSetup => 2000 + 4 * gap
    case ObserverSecondAnimation => 2000 + 3 * gap
    case ObserverSecondHold => LeftAt(INDIVIDUAL_OBSERVER_HOLD_MS, s.started, since, now, gap)
    case ReadyDwell => if s.mode.observer then 0 else LeftAt(INDIVIDUAL_READY_DWELL_MS, s.started, since, now, gap)
  }

  ghost predicate IndividualOnTime(s: IndividualState, since: nat, now: nat) {
    && OwnPhases(s) && !(s.mode.observer && s.phase == IntroDelay)
    && Stamped(s.started, since, now)
    && (IndividualDwells(s) && s.started != 0 ==> now - since <= IndividualDwell(s))
    && (s.started == 0 ==> Clock(now) == 0)
  }

  /** Presses move nothing: without the manual screen, or for a player, who never sees the observer phases. */
  predicate Untouched(mode: Mode) {
    !mode.manualResultUi || !mode.observer
  }

  lemma PlayerStepLeft(s: IndividualState, since: nat, now: nat, e: Event, gap: nat) returns (since': nat)
    requires IndividualOnTime(s, since, now) && gap + INDIVIDUAL_READY_DWELL_MS < WRAP
    requires e.Press? ==> Untouched(s.mode)
    requires e.Tick? ==> now < e.time <= now + gap && e.signals == Signals(true, true)
    requires IndividualStep(s, e).1 == Waiting && !s.mode.observer
    ensures var later := if e.Tick? then e.time else now;
            var s' := IndividualStep(s, e).0;
            && IndividualOnTime(s', since', later) && s'.mode == s.mode
            && IndividualLeft(s', since', later, gap) + (later - now) <= IndividualLeft(s, since, now, gap)
  {
    since' := since;
    if e.Tick? {
      var s' := IndividualStep(s, e).0;
      if s.started == 0 || s'.phase != s.phase { since' := e.time; }
      ElapsedIsTrue(e.time, if s.started == 0 then e.time else since);
      NextClock(now, e.time, gap);
    }
  }

  lemma ObserverStepLeft(s: IndividualState, since: nat, now: nat, e: Event, gap: nat) returns (since': nat)
    requires IndividualOnTime(s, since, now) && gap + INDIVIDUAL_READY_DWELL_MS < WRAP
    requires e.Press? ==> Untouched(s.mode)
    requires e.Tick? ==> now < e.time <= now + gap && e.signals == Signals(true, true)
    requires IndividualStep(s, e).1 == Waiting && s.mode.observer
    ensures var later := if e.Tick? then e.time else now;
            var s' := IndividualStep(s, e).0;
            && IndividualOnTime(s', since', later) && s'.mode == s.mode
            && IndividualLeft(s', since', later, gap) + (later - now) <= IndividualLeft(s, since, now, gap)
  {
    since' := since;
    if e.Tick? {
      var s' := IndividualStep(s, e).0;
      if s.started == 0 || s'.phase != s.phase { since' := e.time; }
      ElapsedIsTrue(e.time, if s.started == 0 then e.time else since);
      NextClock(now, e.time, gap);
    }
  }

  lemma IndividualStepLeft(s: IndividualState, since: nat, now: nat, e: Event, gap: nat) returns (since': nat)
    requires IndividualOnTime(s, since, now) && gap + INDIVIDUAL_READY_DWELL_MS < WRAP
    requires e.Press? ==> Untouched(s.mode)
    requires e.Tick? ==> now < e.time <= now + gap && e.signals == Signals(true, true)
    requires IndividualStep(s, e).1 == Waiting
    ensures var later := if e.Tick? then e.time else now;
            var s' := IndividualStep(s, e).0;
            && IndividualOnTime(s', since', later) && s'.mode == s.mode
            && IndividualLeft(s', since', later, gap) + (later - now) <= IndividualLeft(s, since, now, gap)
  {
    hide IndividualOnTime, IndividualLeft, IndividualStep;
    if s.mode.observer {
      since' := ObserverStepLeft(s, since, now, e, gap);
    } else {
      since' := PlayerStepLeft(s, since, now, e, gap);
    }
  }

  lemma IndividualLeftNonNegative(s: IndividualState, since: nat, now: nat, gap: nat)
    requires IndividualOnTime(s, since, now)
    ensures IndividualLeft(s, since, now, gap) >= 0
  {
  }

  lemma {:induction false} IndividualRunsOut(s: IndividualState, since: nat, now: nat, events: seq<Event>, gap: nat)
    requires IndividualOnTime(s, since, now) && gap + INDIVIDUAL_READY_DWELL_MS < WRAP
    requires Paced(now, events, gap) && SignalsComplete(events)
    requires Untouched(s.mode) || forall i :: 0 <= i < |events| ==> events[i].Tick?
    requires forall i :: 0 <= i < |events| ==> !IndividualInstallsAt(s, events, i)
    ensures LastTime(now, events) - now <= IndividualLeft(s, since, now, gap)
    decreases events
  {
    hide IndividualOnTime, IndividualLeft, IndividualStep;
    if events != [] {
      assert !IndividualInstallsAt(s, events, 0);
      assert events[..0] == [];
      var since' := IndividualStepLeft(s, since, now, events[0], gap);
      forall i | 0 <= i < |events[1..]|
        ensures !IndividualInstallsAt(IndividualStep(s, events[0]).0, events[1..], i)
      {
        IndividualAfterTail(s, events, i + 1);
      }
      var later := if events[0].Tick? then events[0].time else now;
      IndividualRunsOut(IndividualStep(s, events[0]).0, since', later, events[1..], gap);
    } else {
      IndividualLeftNonNegative(s, since, now, gap);
    }
  }

  lemma FirstTickOnTime(mode: Mode, t0: nat, signals: Signals, gap: nat) returns (since: nat)
    requires signals == Signals(true, true)
    ensures var s := IndividualStep(IndividualStart(mode), Tick(t0, signals)).0;
            && s.mode == mode && IndividualOnTime(s, since, t0)
            && IndividualLeft(s, since, t0, gap) <= if mode.observer then 4100 + 9 * gap else 6100 + 7 * gap
  {
    since := t0;
    ElapsedIsTrue(t0, t0);
  }

  /**
   A player's podium is gone 6100 + 7 * gap ms after its first tick, whatever is pressed; an observer's is gone
   4100 + 9 * gap ms after, unless somebody intervenes on the manual screen.
   */
  lemma IndividualNotAfter(mode: Mode, events: seq<Event>, gap: nat)
    requires gap + INDIVIDUAL_READY_DWELL_MS < WRAP
    requires Untouched(mode) || forall i :: 0 <= i < |events| ==> events[i].Tick?
    requires events != [] && events[0].Tick? && Paced(events[0].time, events[1..], gap) && SignalsComplete(events)
    requires LastTime(0, events) - events[0].time > if mode.observer then 4100 + 9 * gap else 6100 + 7 * gap
    ensures exists i :: 0 <= i < |events| && IndividualInstallsAt(IndividualStart(mode), events, i)
  {
    hide IndividualLeft, IndividualOnTime, IndividualStep;
    var t0, rest := events[0].time, events[1..];
    var s := IndividualStep(IndividualStart(mode), events[0]).0;
    if forall i :: 0 <= i < |events| ==> !IndividualInstallsAt(IndividualStart(mode), events, i) {
      forall i | 0 <= i < |rest|
        ensures !IndividualInstallsAt(s, rest, i)
      {
        IndividualAfterTail(IndividualStart(mode), events, i + 1);
      }
      var since := FirstTickOnTime(mode, t0, events[0].signals, gap);
      IndividualRunsOut(s, since, t0, rest, gap);
    }
  }

  // ------------------------------------------------------ each phase on its own

  /** The true time for which a phase has run at a tick, which arms it if nothing did before. */
  function Waited(started: u32, since: nat, now: nat): nat
    requires started != 0 ==> since <= now
  {
    if started == 0 then 0 else now - since
  }

  /** A tick ends a team phase exactly when its own time is over, its animation complete, or never. */
  lemma TeamTickExactly(s: TeamState, since: nat, now: nat, signals: Signals)
    requires Stamped(s.started, since, now) && Waited(s.started, since, now) < WRAP
    ensures var (t, outcome) := TeamStep(s, Tick(now, signals));
            var waited := Waited(s.started, since, now);
            && t.mode == s.mode
            && t.phase == (match s.phase
                           case TIntroDelay => if waited > 1000 then TFirstAnimation else TIntroDelay
                           case TFirstAnimation => if signals.forwardComplete then PostAnimation else TFirstAnimation
                           case PostAnimation => if waited > 100 then ResultDwell else PostAnimation
                           case ResultDwell =>
                             if waited <= 7000 then ResultDwell
                             else if s.mode.manualResultUi then AwaitingManualConfirm
                             else DispatchReadyStage
                           case AwaitingManualConfirm => AwaitingManualConfirm
                           case DispatchReadyStage => DispatchReadyStage)
            && t.started == (if t.phase != s.phase then 0 else if s.started == 0 then Clock(now) else s.started)
            && outcome == if s.phase != DispatchReadyStage then Waiting
                          else InstallReadyStage(if s.mode.observer then ObserverReady else GameReady)
  {
    if s.started != 0 { ElapsedIsTrue(now, since); }
  }

  /** A tick ends an individual phase exactly so; an observer's intro and last dwell end at once. */
  lemma IndividualTickExactly(s: IndividualState, since: nat, now: nat, signals: Signals)
    requires Stamped(s.started, since, now) && Waited(s.started, since, now) < WRAP
    ensures var (t, outcome) := IndividualStep(s, Tick(now, signals));
            var waited := Waited(s.started, since, now);
            && t.mode == s.mode
            && t.phase == (match s.phase
                           case IntroDelay => if s.mode.observer || waited > 1000 then FirstAnimation else IntroDelay
                           case FirstAnimation => if signals.forwardComplete then PostFirstAnimation else FirstAnimation
                           case PostFirstAnimation =>
                             if waited <= 100 then PostFirstAnimation
                             else if s.mode.observer then ObserverFirstHold
                             else ReadyDwell
                           case ObserverFirstHold =>
                             if signals.reverseComplete && waited > 2000 then ObserverPanelSetup else ObserverFirstHold
                           case ObserverPanelSetup => ObserverSecondAnimation
                           case ObserverSecondAnimation =>
                             if signals.forwardComplete then ObserverSecondHold else ObserverSecondAnimation
                           case ObserverSecondHold =>
                             if signals.reverseComplete && waited > 2000 then ReadyDwell else ObserverSecondHold
                           case ReadyDwell => ReadyDwell)
            && t.started == (if t.phase != s.phase || s.started == 0 then Clock(now) else s.started)
            && t.confirms == (if s.phase == ObserverPanelSetup then 0 else s.confirms)
            && outcome == if s.phase == ReadyDwell && (s.mode.observer || waited > 5000)
                          then InstallReadyStage(if s.mode.observer then ObserverReady else GameReady)
                          else Waiting
  {
    if s.started != 0 { ElapsedIsTrue(now, since); }
  }

  lemma {:induction false} TeamKeepsMode(s: TeamState, events: seq<Event>)
    ensures TeamAfter(s, events).mode == s.mode
    decreases events
  {
    if events != [] { TeamKeepsMode(TeamStep(s, events[0]).0, events[1..]); }
  }

  lemma {:induction false} IndividualKeepsMode(s: IndividualState, events: seq<Event>)
    ensures IndividualAfter(s, events).mode == s.mode
    decreases events
  {
    if events != [] { IndividualKeepsMode(IndividualStep(s, events[0]).0, events[1..]); }
  }

  /** Whatever ends a podium, an observer goes on to the observers' stage and a player to the players'. */
  lemma StageInstalled(mode: Mode, events: seq<Event>, i: nat)
    requires i < |events|
    ensures TeamInstallsAt(TeamStart(mode), events, i) ==>
              TeamStep(TeamAfter(TeamStart(mode), events[..i]), events[i]).1
              == InstallReadyStage(if mode.observer then ObserverReady else GameReady)
    ensures IndividualInstallsAt(IndividualStart(mode), events, i) ==>
              IndividualStep(IndividualAfter(IndividualStart(mode), events[..i]), events[i]).1
              == InstallReadyStage(if mode.observer then ObserverReady else GameReady)
  {
    TeamKeepsMode(TeamStart(mode), events[..i]);
    IndividualKeepsMode(IndividualStart(mode), events[..i]);
  }

  /** A press is heard only on the manual screen, and only these presses. */
  lemma PressesExactly(team: TeamState, s: IndividualState, action: u32)
    ensures TeamInput(team, action).1 <==>
              team.mode.manualResultUi && team.phase == AwaitingManualConfirm && action == 13
    ensures TeamInput(team, action).0
         == if TeamInput(team, action).1 then team.(phase := DispatchReadyStage, started := 0) else team
    ensures IndividualInput(s, action).1 <==>
              s.mode.manualResultUi && ((s.phase == ObserverFirstHold && action == 13)
                                        || (s.phase == ObserverSecondHold && (action == 8 || action == 13)))
    ensures !IndividualInput(s, action).1 ==> IndividualInput(s, action).0 == s
    ensures IndividualInput(s, action).1 ==>
              var t := IndividualInput(s, action).0;
              if s.phase == ObserverFirstHold then t == s.(phase := ObserverPanelSetup, started := 0)
              else if action == 8 then t == s.(phase := IntroDelay, started := 0)
              else if s.confirms == 0 then t == s.(confirms := 1)
              else t.phase == ReadyDwell && t.started == 0 && t.confirms >= s.confirms
  {
  }
}
