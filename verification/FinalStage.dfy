/** The podium schedulers of the client: local phases driven by a wrapping millisecond clock. */
module FinalStage {

  const WRAP: nat := 0x1_0000_0000

  const INTRO_DELAY_MS := 1000
  const POST_ANIMATION_DELAY_MS := 100
  const INDIVIDUAL_OBSERVER_HOLD_MS := 2000
  const INDIVIDUAL_READY_DWELL_MS := 5000
  const TEAM_RESULT_DWELL_MS := 7000

  type u32 = x: nat | x < 0x1_0000_0000

  datatype Mode = Mode(observer: bool, manualResultUi: bool)

  datatype ReadyStage = GameReady | ObserverReady

  datatype Outcome = Waiting | InstallReadyStage(stage: ReadyStage)

  function StageOf(mode: Mode): ReadyStage {
    if mode.observer then ObserverReady else GameReady
  }

  /** `wrapping_sub`. */
  function WrappingSub(a: u32, b: u32): u32 {
    if a >= b then a - b else a + WRAP - b
  }

  // --------------------------------------------------------------------- team

  datatype TeamPhase =
    TIntroDelay | TFirstAnimation | PostAnimation | ResultDwell | AwaitingManualConfirm | DispatchReadyStage

  datatype TeamState = TeamState(mode: Mode, phase: TeamPhase, started: u32)

  function TeamStart(mode: Mode): TeamState {
    TeamState(mode, TIntroDelay, 0)
  }

  function TeamArmed(s: TeamState, now: u32): TeamState {
    if s.started == 0 then s.(started := now) else s
  }

  function TeamUpdate(s0: TeamState, now: u32, animation: bool): (TeamState, Outcome) {
    var s := TeamArmed(s0, now);
    var elapsed := WrappingSub(now, s.started);
    match s.phase
    case TIntroDelay =>
      (if elapsed > INTRO_DELAY_MS then TeamState(s.mode, TFirstAnimation, 0) else s, Waiting)
    case TFirstAnimation =>
      (if animation then TeamState(s.mode, PostAnimation, 0) else s, Waiting)
    case PostAnimation =>
      (if elapsed > POST_ANIMATION_DELAY_MS then TeamState(s.mode, ResultDwell, 0) else s, Waiting)
    case ResultDwell =>
      (if elapsed > TEAM_RESULT_DWELL_MS
       then TeamState(s.mode, if s.mode.manualResultUi then AwaitingManualConfirm else DispatchReadyStage, 0)
       else s, Waiting)
    case AwaitingManualConfirm => (s, Waiting)
    case DispatchReadyStage => (s, InstallReadyStage(StageOf(s.mode)))
  }

  function TeamInput(s: TeamState, action: u32): (TeamState, bool) {
    if s.mode.manualResultUi && s.phase == AwaitingManualConfirm && action == 13
    then (TeamState(s.mode, DispatchReadyStage, 0), true)
    else (s, false)
  }

  class TeamFinalScheduler {
    const mode: Mode
    var phase: TeamPhase
    var phaseStartedAt: u32

    function State(): TeamState
      reads this
    {
      TeamState(mode, phase, phaseStartedAt)
    }

    constructor (m: Mode)
      ensures State() == TeamStart(m)
    {
      mode := m;
      phase := TIntroDelay;
      phaseStartedAt := 0;
    }

    method Update(now: u32, animationComplete: bool) returns (outcome: Outcome)
      modifies this
      ensures (State(), outcome) == TeamUpdate(old(State()), now, animationComplete)
    {
      if phaseStartedAt == 0 {
        phaseStartedAt := now;
      }
      var elapsed := WrappingSub(now, phaseStartedAt);
      outcome := Waiting;
      match phase {
        case TIntroDelay =>
          if elapsed > INTRO_DELAY_MS { EnterUnarmed(TFirstAnimation); }
        case TFirstAnimation =>
          if animationComplete { EnterUnarmed(PostAnimation); }
        case PostAnimation =>
          if elapsed > POST_ANIMATION_DELAY_MS { EnterUnarmed(ResultDwell); }
        case ResultDwell =>
          if elapsed > TEAM_RESULT_DWELL_MS {
            EnterUnarmed(if mode.manualResultUi then AwaitingManualConfirm else DispatchReadyStage);
          }
        case AwaitingManualConfirm =>
        case DispatchReadyStage =>
          outcome := InstallReadyStage(StageOf(mode));
      }
    }

    method Input(action: u32) returns (handled: bool)
      modifies this
      ensures (State(), handled) == TeamInput(old(State()), action)
    {
      handled := mode.manualResultUi && phase == AwaitingManualConfirm && action == 13;
      if handled { EnterUnarmed(DispatchReadyStage); }
    }

    method EnterUnarmed(next: TeamPhase)
      modifies this
      ensures State() == TeamState(mode, next, 0)
    {
      phase := next;
      phaseStartedAt := 0;
    }
  }

  // --------------------------------------------------------------- individual

  datatype Signals = Signals(forwardComplete: bool, reverseComplete: bool)

  datatype IndividualPhase =
    | IntroDelay | FirstAnimation | PostFirstAnimation
    | ObserverFirstHold | ObserverPanelSetup | ObserverSecondAnimation | ObserverSecondHold
    | ReadyDwell

  datatype IndividualState = IndividualState(mode: Mode, phase: IndividualPhase, started: u32, confirms: u32)

  function IndividualStart(mode: Mode): IndividualState {
    IndividualState(mode, IntroDelay, 0, 0)
  }

  function EnterAt(s: IndividualState, phase: IndividualPhase, now: u32): IndividualState {
    s.(phase := phase, started := now)
  }

  function IndividualUpdate(s0: IndividualState, now: u32, animation: Signals): (IndividualState, Outcome) {
    var s := if s0.started == 0 then s0.(started := now) else s0;
    var elapsed := WrappingSub(now, s.started);
    match s.phase
    case IntroDelay =>
      (if s.mode.observer || elapsed > INTRO_DELAY_MS then EnterAt(s, FirstAnimation, now) else s, Waiting)
    case FirstAnimation =>
      (if animation.forwardComplete then EnterAt(s, PostFirstAnimation, now) else s, Waiting)
    case PostFirstAnimation =>
      (if elapsed > POST_ANIMATION_DELAY_MS
       then EnterAt(s, if s.mode.observer then ObserverFirstHold else ReadyDwell, now) else s, Waiting)
    case ObserverFirstHold =>
      (if animation.reverseComplete && elapsed > INDIVIDUAL_OBSERVER_HOLD_MS
       then EnterAt(s, ObserverPanelSetup, now) else s, Waiting)
    case ObserverPanelSetup =>
      (EnterAt(s.(confirms := 0), ObserverSecondAnimation, now), Waiting)
    case ObserverSecondAnimation =>
      (if animation.forwardComplete then EnterAt(s, ObserverSecondHold, now) else s, Waiting)
    case ObserverSecondHold =>
      (if animation.reverseComplete && elapsed > INDIVIDUAL_OBSERVER_HOLD_MS
       then EnterAt(s, ReadyDwell, now) else s, Waiting)
    case ReadyDwell =>
      var ready := s.mode.observer || elapsed > INDIVIDUAL_READY_DWELL_MS;
      (s, if ready then InstallReadyStage(StageOf(s.mode)) else Waiting)
  }

  function SaturatingNext(n: u32): u32 {
    if n == WRAP - 1 then n else n + 1
  }

  function IndividualInput(s: IndividualState, action: u32): (IndividualState, bool) {
    if !s.mode.manualResultUi then (s, false)
    else if s.phase == ObserverFirstHold && action == 13 then (EnterAt(s, ObserverPanelSetup, 0), true)
    else if s.phase == ObserverSecondHold && action == 8 then (EnterAt(s, IntroDelay, 0), true)
    else if s.phase == ObserverSecondHold && action == 13 then
      var t := s.(confirms := SaturatingNext(s.confirms));
      (if t.confirms > 1 then EnterAt(t, ReadyDwell, 0) else t, true)
    else (s, false)
  }

  class IndividualFinalScheduler {
    const mode: Mode
    var phase: IndividualPhase
    var phaseStartedAt: u32
    var observerConfirmCount: u32

    function State(): IndividualState
      reads this
    {
      IndividualState(mode, phase, phaseStartedAt, observerConfirmCount)
    }

    constructor (m: Mode)
      ensures State() == IndividualStart(m)
    {
      mode := m;
      phase := IntroDelay;
      phaseStartedAt := 0;
      observerConfirmCount := 0;
    }

    method Update(now: u32, animation: Signals) returns (outcome: Outcome)
      modifies this
      ensures (State(), outcome) == IndividualUpdate(old(State()), now, animation)
    {
      if phaseStartedAt == 0 {
        phaseStartedAt := now;
      }
      var elapsed := WrappingSub(now, phaseStartedAt);
      outcome := Waiting;
      match phase {
        case IntroDelay =>
          if mode.observer || elapsed > INTRO_DELAY_MS { Enter(FirstAnimation, now); }
        case FirstAnimation =>
          if animation.forwardComplete { Enter(PostFirstAnimation, now); }
        case PostFirstAnimation =>
          if elapsed > POST_ANIMATION_DELAY_MS { Enter(if mode.observer then ObserverFirstHold else ReadyDwell, now); }
        case ObserverFirstHold =>
          if animation.reverseComplete && elapsed > INDIVIDUAL_OBSERVER_HOLD_MS { Enter(ObserverPanelSetup, now); }
        case ObserverPanelSetup =>
          observerConfirmCount := 0;
          Enter(ObserverSecondAnimation, now);
        case ObserverSecondAnimation =>
          if animation.forwardComplete { Enter(ObserverSecondHold, now); }
        case ObserverSecondHold =>
          if animation.reverseComplete && elapsed > INDIVIDUAL_OBSERVER_HOLD_MS { Enter(ReadyDwell, now); }
        case ReadyDwell =>
          if mode.observer || elapsed > INDIVIDUAL_READY_DWELL_MS { outcome := InstallReadyStage(StageOf(mode)); }
      }
    }

    method Input(action: u32) returns (handled: bool)
      modifies this
      ensures (State(), handled) == IndividualInput(old(State()), action)
    {
      handled := false;
      if !mode.manualResultUi {
        return;
      }
      if phase == ObserverFirstHold && action == 13 {
        Enter(ObserverPanelSetup, 0);
        handled := true;
      } else if phase == ObserverSecondHold && action == 8 {
        Enter(IntroDelay, 0);
        handled := true;
      } else if phase == ObserverSecondHold && action == 13 {
        observerConfirmCount := SaturatingNext(observerConfirmCount);
        if observerConfirmCount > 1 { Enter(ReadyDwell, 0); }
        handled := true;
      }
    }

    method Enter(next: IndividualPhase, now: u32)
      modifies `phase, `phaseStartedAt
      ensures phase == next && phaseStartedAt == now
    {
      phase := next;
      phaseStartedAt := now;
    }
  }
}
