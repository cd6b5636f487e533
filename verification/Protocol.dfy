/** The client's protocol state machine: what every run keeps, and exactly which states runs can reach. */
module Protocol {
  import opened Text

  datatype Transport = Disconnected | AwaitingFirstMessage | EncryptedUnauthenticated | Authenticated

  datatype Phase = AwaitingNextStage | AwaitingResult | Podium

  datatype Scene =
    | Offline | Login | RiderBootstrap | Menu | Migration
    | RoomLobby | Loading | Racing | Settling | Ceremony(phase: Phase)

  datatype Snapshot = Snapshot(sessionDataSeen: bool, slotDataSeen: bool) {
    predicate Complete() { sessionDataSeen && slotDataSeen }
  }

  datatype LoadingState = LoadingState(controlZeroSent: bool, syncRequested: bool, syncAccepted: bool)

  datatype State = State(
    transport: Transport, scene: Scene, migrationPending: bool, room: Snapshot, loading: LoadingState,
    recordFlag: Option<bool>, finishReported: bool)

  datatype Event =
    | ConnectionOpened | ConnectionClosed | ServerFirstMessage | ServerLoginAccepted | ServerRiderSnapshot
    | ServerChannelSwitch(reconnect: bool) | ServerChannelMoveInAccepted
    | ServerRoomAdmissionAccepted | ServerRoomAdmissionRejected | ServerSessionData | ServerSlotData
    | ServerRoomMutation | ServerCommandStart
    | ClientGameControlZero | ClientUdpTimeSyncRequest | ServerUdpTimeSyncReply | ServerGameControlOne
    | ServerStartCollectRecord(flag: bool) | ClientGameControlTwo | ServerRaceTime | ServerGameControlThree
    | ServerGameControlFour | ServerGameNextStage | ServerGameResult | ClientPodiumSchedulerCompleted
    | ServerLeaveRoom

  const NO_ROOM := Snapshot(false, false)
  const FULL_ROOM := Snapshot(true, true)
  const NOT_LOADING := LoadingState(false, false, false)
  const INITIAL := State(Disconnected, Offline, false, NO_ROOM, NOT_LOADING, None, false)

  predicate In(s: State, scene: Scene) {
    s.transport == Authenticated && s.scene == scene
  }

  predicate InRoom(scene: Scene) {
    scene == RoomLobby || scene == Loading || scene == Racing || scene == Settling || scene.Ceremony?
  }

  /** Leaving a race clears what belongs to it. */
  function Cleared(s: State, scene: Scene, room: Snapshot): State {
    s.(scene := scene, room := room, loading := NOT_LOADING, recordFlag := None, finishReported := false)
  }

  /** The state after an event, or nothing when the event is invalid. */
  function Next(s: State, e: Event): Option<State> {
    match e
    case ConnectionOpened =>
      if s.transport != Disconnected then None
      else Some(s.(transport := AwaitingFirstMessage, scene := if s.migrationPending then Migration else Login))
    case ConnectionClosed =>
      Some(s.(transport := Disconnected, scene := if s.migrationPending then Migration else Offline))
    case ServerFirstMessage =>
      if s.transport != AwaitingFirstMessage then None else Some(s.(transport := EncryptedUnauthenticated))
    case ServerLoginAccepted =>
      if s.transport != EncryptedUnauthenticated || s.migrationPending then None
      else Some(s.(transport := Authenticated, scene := RiderBootstrap))
    case ServerRiderSnapshot => if !In(s, RiderBootstrap) then None else Some(s.(scene := Menu))
    case ServerChannelSwitch(reconnect) =>
      if !In(s, Menu) then None
      else if reconnect then Some(s.(migrationPending := true, scene := Migration))
      else Some(s.(migrationPending := false))
    case ServerChannelMoveInAccepted =>
      if s.transport != EncryptedUnauthenticated || !s.migrationPending then None
      else Some(s.(transport := Authenticated, scene := Menu, migrationPending := false))
    case ServerRoomAdmissionAccepted => if !In(s, Menu) then None else Some(s.(scene := RoomLobby, room := NO_ROOM))
    case ServerRoomAdmissionRejected => if !In(s, Menu) then None else Some(s.(room := NO_ROOM))
    case ServerSessionData =>
      if !In(s, RoomLobby) then None else Some(s.(room := s.room.(sessionDataSeen := true)))
    case ServerSlotData => if !In(s, RoomLobby) then None else Some(s.(room := s.room.(slotDataSeen := true)))
    case ServerRoomMutation => if !In(s, RoomLobby) then None else Some(s)
    case ServerCommandStart => if !In(s, RoomLobby) then None else Some(Cleared(s, Loading, FULL_ROOM))
    case ServerLeaveRoom =>
      if s.transport != Authenticated || !InRoom(s.scene) then None else Some(Cleared(s, Menu, NO_ROOM))
    case ClientGameControlZero =>
      if !In(s, Loading) then None else Some(s.(loading := s.loading.(controlZeroSent := true)))
    case ClientUdpTimeSyncRequest =>
      if !In(s, Loading) then None else Some(s.(loading := s.loading.(syncRequested := true)))
    case ServerUdpTimeSyncReply =>
      if !In(s, Loading) || !s.loading.syncRequested then None
      else Some(s.(loading := s.loading.(syncAccepted := true)))
    case ServerGameControlOne => if !In(s, Loading) then None else Some(s.(scene := Racing))
    case ServerStartCollectRecord(flag) =>
      if In(s, Loading) || In(s, Racing) || In(s, Settling) then Some(s.(recordFlag := Some(flag))) else None
    case ClientGameControlTwo => if !In(s, Racing) then None else Some(s.(finishReported := true))
    case ServerRaceTime => if In(s, Racing) || In(s, Settling) then Some(s) else None
    case ServerGameControlThree => if !In(s, Racing) then None else Some(s.(scene := Settling))
    case ServerGameControlFour => if !In(s, Settling) then None else Some(s.(scene := Ceremony(AwaitingNextStage)))
    case ServerGameNextStage =>
      if !In(s, Ceremony(AwaitingNextStage)) then None else Some(s.(scene := Ceremony(AwaitingResult)))
    case ServerGameResult => if !In(s, Ceremony(AwaitingResult)) then None else Some(s.(scene := Ceremony(Podium)))
    case ClientPodiumSchedulerCompleted =>
      if !In(s, Ceremony(Podium)) then None else Some(Cleared(s, RoomLobby, FULL_ROOM))
  }

  /** A rejected event leaves the state as it was. */
  function Step(s: State, e: Event): State {
    if Next(s, e).Some? then Next(s, e).value else s
  }

  function Run(events: seq<Event>): State
    decreases |events|
  {
    if events == [] then INITIAL else Step(Run(events[..|events| - 1]), events[|events| - 1])
  }

  /** The events of a run that were accepted. */
  function Accepted(events: seq<Event>): seq<Event>
    decreases |events|
  {
    if events == [] then []
    else
      var front, last := events[..|events| - 1], events[|events| - 1];
      Accepted(front) + if Next(Run(front), last).Some? then [last] else []
  }

  // ------------------------------------------------------------ the invariant

  predicate RaceScene(scene: Scene) {
    scene == Loading || scene == Racing || scene == Settling || scene.Ceremony?
  }

  /** What every run keeps. */
  predicate Invariant(s: State) {
    && (s.migrationPending <==> s.scene == Migration)
    && (s.scene == Offline ==> s.transport == Disconnected)
    && (s.scene == Login ==> s.transport == AwaitingFirstMessage || s.transport == EncryptedUnauthenticated)
    && (s.scene == RiderBootstrap || s.scene == Menu || InRoom(s.scene) ==> s.transport == Authenticated)
    && (RaceScene(s.scene) ==> s.room.Complete())
    && (s.loading.syncAccepted ==> s.loading.syncRequested)
    && (s.scene == Loading ==> !s.finishReported)
  }

  lemma StepKeepsInvariant(s: State, e: Event)
    requires Invariant(s)
    ensures Invariant(Step(s, e))
  {
  }

  lemma {:induction false} RunsKeepInvariant(events: seq<Event>)
    ensures Invariant(Run(events))
    decreases |events|
  {
    hide Step, Invariant;
    if events == [] {
      InitialInvariant();
    } else {
      RunsKeepInvariant(events[..|events| - 1]);
      StepKeepsInvariant(Run(events[..|events| - 1]), events[|events| - 1]);
    }
  }

  lemma InitialInvariant()
    ensures Invariant(INITIAL)
  {
  }

  // ------------------------------------------------------------- race order

  const RACE: seq<Event> := [
    ServerCommandStart, ServerGameControlOne, ServerGameControlThree, ServerGameControlFour, ServerGameNextStage,
    ServerGameResult]

  /** The place of an event among the milestones, from one; zero for all other events. */
  function Rank(e: Event): nat {
    match e
    case ServerCommandStart => 1
    case ServerGameControlOne => 2
    case ServerGameControlThree => 3
    case ServerGameControlFour => 4
    case ServerGameNextStage => 5
    case ServerGameResult => 6
    case _ => 0
  }

  lemma RankIs(e: Event)
    ensures Rank(e) <= |RACE| && (Rank(e) > 0 ==> RACE[Rank(e) - 1] == e)
  {
  }

  /** The milestones of the race in progress: since the last start, unless a return or an abort came after it. */
  function Milestones(accepted: seq<Event>): seq<Event>
    decreases |accepted|
  {
    if accepted == [] then []
    else
      var front, last := accepted[..|accepted| - 1], accepted[|accepted| - 1];
      if last == ServerCommandStart then [last]
      else if Rank(last) > 0 then Milestones(front) + [last]
      else if last == ClientPodiumSchedulerCompleted || last == ServerLeaveRoom || last == ConnectionClosed then []
      else Milestones(front)
  }

  function Stage(scene: Scene): nat {
    match scene
    case Loading => 1
    case Racing => 2
    case Settling => 3
    case Ceremony(AwaitingNextStage) => 4
    case Ceremony(AwaitingResult) => 5
    case Ceremony(Podium) => 6
    case _ => 0
  }

  /** How one accepted event moves the stage of the race. */
  lemma StageMoves(s: State, e: Event)
    requires Invariant(s) && Next(s, e).Some?
    ensures var after := Stage(Next(s, e).value.scene);
            if Rank(e) > 0 then Stage(s.scene) == Rank(e) - 1 && after == Rank(e)
            else if e == ClientPodiumSchedulerCompleted then Stage(s.scene) == 6 && after == 0
            else if e == ServerLeaveRoom || e == ConnectionClosed then after == 0
            else after == Stage(s.scene)
  {
  }

  /**
   In every run the accepted milestones of the race in progress are exactly the first ones of the race order, as
   many as the scene says.
   */
  lemma {:induction false} RaceInOrder(events: seq<Event>)
    ensures Milestones(Accepted(events)) == RACE[..Stage(Run(events).scene)]
    decreases |events|
  {
    hide Next, Invariant, Stage;
    if events == [] {
      assert Stage(INITIAL.scene) == 0 by { InitialStage(); }
    } else {
      var front, last := events[..|events| - 1], events[|events| - 1];
      RaceInOrder(front);
      RunsKeepInvariant(front);
      var s := Run(front);
      if Next(s, last).Some? {
        StageMoves(s, last);
        var accepted := Accepted(events);
        assert accepted[..|accepted| - 1] == Accepted(front);
        StageBound(s.scene);
        RankIs(last);
        if Rank(last) > 0 { assert RACE[..Rank(last)] == RACE[..Rank(last) - 1] + [last]; }
      } else {
        assert Accepted(events) == Accepted(front);
      }
    }
  }

  lemma InitialStage()
    ensures Stage(INITIAL.scene) == 0
  {
  }

  lemma StageBound(scene: Scene)
    ensures Stage(scene) <= |RACE|
  {
  }

  /** A race completes only with all its milestones behind it, and starts only with none. */
  lemma RaceStartsAndCompletes(events: seq<Event>)
    ensures Next(Run(events), ClientPodiumSchedulerCompleted).Some? ==> Milestones(Accepted(events)) == RACE
    ensures Next(Run(events), ServerCommandStart).Some? ==> Milestones(Accepted(events)) == []
    ensures Next(Run(events), ServerSlotData).Some? ==> Milestones(Accepted(events)) == []
  {
    hide Run, Accepted, Milestones;
    RaceInOrder(events);
    assert RACE[..6] == RACE && RACE[..0] == [];
  }

  // ------------------------------------------------------- reachable, exactly

  ghost predicate Reachable(s: State) {
    exists events :: Run(events) == s
  }

  lemma Extend(s: State, e: Event)
    requires Reachable(s)
    ensures Reachable(Step(s, e))
  {
    hide Step;
    var events :| Run(events) == s;
    assert (events + [e])[..|events|] == events;
    assert Run(events + [e]) == Step(s, e);
  }

  /** Extends by an event if it is wanted. */
  lemma ExtendIf(s: State, e: Event, wanted: bool)
    requires Reachable(s)
    ensures Reachable(if wanted then Step(s, e) else s)
  {
    if wanted { Extend(s, e); }
  }

  lemma ReachLoading(loading: LoadingState, flag: Option<bool>)
    requires loading.syncAccepted ==> loading.syncRequested
    ensures Reachable(State(Authenticated, Loading, false, FULL_ROOM, loading, flag, false))
  {
    hide Reachable;
    Started();
    var s := State(Authenticated, Loading, false, FULL_ROOM, NOT_LOADING, None, false);
    ExtendIf(s, ClientGameControlZero, loading.controlZeroSent);
    s := s.(loading := LoadingState(loading.controlZeroSent, false, false));
    ExtendIf(s, ClientUdpTimeSyncRequest, loading.syncRequested);
    s := s.(loading := LoadingState(loading.controlZeroSent, loading.syncRequested, false));
    ExtendIf(s, ServerUdpTimeSyncReply, loading.syncAccepted);
    s := s.(loading := loading);
    if flag.Some? { Extend(s, ServerStartCollectRecord(flag.value)); }
  }

  lemma Started()
    ensures Reachable(State(Authenticated, Loading, false, FULL_ROOM, NOT_LOADING, None, false))
  {
    hide Reachable;
    var s := INITIAL;
    assert Reachable(s) by { InitialReachable(); }
    Extend(s, ConnectionOpened);
    s := Step(s, ConnectionOpened);
    Extend(s, ServerFirstMessage);
    s := Step(s, ServerFirstMessage);
    Extend(s, ServerLoginAccepted);
    s := Step(s, ServerLoginAccepted);
    Extend(s, ServerRiderSnapshot);
    s := Step(s, ServerRiderSnapshot);
    Extend(s, ServerRoomAdmissionAccepted);
    s := Step(s, ServerRoomAdmissionAccepted);
    Extend(s, ServerCommandStart);
  }

  lemma InitialReachable()
    ensures Reachable(INITIAL)
  {
    assert Run([]) == INITIAL;
  }

  lemma ReachRacing(loading: LoadingState, flag: Option<bool>, finish: bool)
    requires loading.syncAccepted ==> loading.syncRequested
    ensures Reachable(State(Authenticated, Racing, false, FULL_ROOM, loading, flag, finish))
  {
    hide Reachable;
    ReachLoading(loading, flag);
    Extend(State(Authenticated, Loading, false, FULL_ROOM, loading, flag, false), ServerGameControlOne);
    ExtendIf(State(Authenticated, Racing, false, FULL_ROOM, loading, flag, false), ClientGameControlTwo, finish);
  }

  lemma ReachSettling(loading: LoadingState, flag: Option<bool>, finish: bool)
    requires loading.syncAccepted ==> loading.syncRequested
    ensures Reachable(State(Authenticated, Settling, false, FULL_ROOM, loading, flag, finish))
  {
    hide Reachable;
    ReachRacing(loading, flag, finish);
    Extend(State(Authenticated, Racing, false, FULL_ROOM, loading, flag, finish), ServerGameControlThree);
  }

  lemma ReachCeremony(phase: Phase, loading: LoadingState, flag: Option<bool>, finish: bool)
    requires loading.syncAccepted ==> loading.syncRequested
    ensures Reachable(State(Authenticated, Ceremony(phase), false, FULL_ROOM, loading, flag, finish))
  {
    hide Reachable;
    ReachSettling(loading, flag, finish);
    var s := State(Authenticated, Settling, false, FULL_ROOM, loading, flag, finish);
    var next, result := s.(scene := Ceremony(AwaitingNextStage)), s.(scene := Ceremony(AwaitingResult));
    assert Reachable(next) by { Extend(s, ServerGameControlFour); }
    assert Reachable(result) by { Extend(next, ServerGameNextStage); }
    assert Reachable(s.(scene := Ceremony(Podium))) by { Extend(result, ServerGameResult); }
  }

  /** From any offline state the client can log in again and see the menu, whatever is left over from before. */
  lemma LogIn(s: State)
    requires Reachable(s) && s.transport == Disconnected && s.scene == Offline && !s.migrationPending
    ensures Reachable(s.(transport := AwaitingFirstMessage, scene := Login))
    ensures Reachable(s.(transport := EncryptedUnauthenticated, scene := Login))
    ensures Reachable(s.(transport := Authenticated, scene := RiderBootstrap))
    ensures Reachable(s.(transport := Authenticated, scene := Menu))
  {
    hide Reachable;
    Extend(s, ConnectionOpened);
    Extend(s.(transport := AwaitingFirstMessage, scene := Login), ServerFirstMessage);
    Extend(s.(transport := EncryptedUnauthenticated, scene := Login), ServerLoginAccepted);
    Extend(s.(transport := Authenticated, scene := RiderBootstrap), ServerRiderSnapshot);
  }

  lemma ReachLobby(s: State)
    requires Reachable(s) && In(s, Menu)
    ensures forall room :: Reachable(s.(scene := RoomLobby, room := room))
  {
    hide Reachable;
    Extend(s, ServerRoomAdmissionAccepted);
    forall room: Snapshot
      ensures Reachable(s.(scene := RoomLobby, room := room))
    {
      var t := s.(scene := RoomLobby, room := NO_ROOM);
      ExtendIf(t, ServerSessionData, room.sessionDataSeen);
      t := t.(room := Snapshot(room.sessionDataSeen, false));
      ExtendIf(t, ServerSlotData, room.slotDataSeen);
    }
  }

  /** Everything a race and a room left behind survives the connection. */
  lemma ReachOffline(room: Snapshot, loading: LoadingState, flag: Option<bool>, finish: bool)
    requires loading.syncAccepted ==> loading.syncRequested
    ensures Reachable(State(Disconnected, Offline, false, room, loading, flag, finish))
    ensures Reachable(State(Authenticated, RoomLobby, false, room, loading, flag, finish))
  {
    hide Reachable;
    ReachRacing(loading, flag, finish);
    var s := State(Authenticated, Racing, false, FULL_ROOM, loading, flag, finish);
    Extend(s, ConnectionClosed);
    s := State(Disconnected, Offline, false, FULL_ROOM, loading, flag, finish);
    LogIn(s);
    s := s.(transport := Authenticated, scene := Menu);
    ReachLobby(s);
    s := s.(scene := RoomLobby, room := room);
    Extend(s, ConnectionClosed);
  }

  lemma ReachMigration(transport: Transport, room: Snapshot, loading: LoadingState, flag: Option<bool>, finish: bool)
    requires loading.syncAccepted ==> loading.syncRequested
    ensures Reachable(State(transport, Migration, true, room, loading, flag, finish))
  {
    hide Reachable;
    ReachOffline(room, loading, flag, finish);
    LogIn(State(Disconnected, Offline, false, room, loading, flag, finish));
    Extend(State(Authenticated, Menu, false, room, loading, flag, finish), ServerChannelSwitch(true));
    var s := State(Authenticated, Migration, true, room, loading, flag, finish);
    if transport != Authenticated {
      Extend(s, ConnectionClosed);
      s := s.(transport := Disconnected);
      if transport != Disconnected {
        Extend(s, ConnectionOpened);
        s := s.(transport := AwaitingFirstMessage);
        if transport != AwaitingFirstMessage { Extend(s, ServerFirstMessage); }
      }
    }
  }

  lemma InvariantReached(s: State)
    requires Invariant(s)
    ensures Reachable(s)
  {
    hide Reachable, Step;
    ReachOffline(s.room, s.loading, s.recordFlag, s.finishReported);
    LogIn(State(Disconnected, Offline, false, s.room, s.loading, s.recordFlag, s.finishReported));
    match s.scene {
      case Migration => ReachMigration(s.transport, s.room, s.loading, s.recordFlag, s.finishReported);
      case Loading => ReachLoading(s.loading, s.recordFlag);
      case Racing => ReachRacing(s.loading, s.recordFlag, s.finishReported);
      case Settling => ReachSettling(s.loading, s.recordFlag, s.finishReported);
      case Ceremony(phase) => ReachCeremony(phase, s.loading, s.recordFlag, s.finishReported);
      case _ =>
    }
  }

  /** The invariant is the strongest one: a state is reachable exactly when it satisfies it. */
  lemma ReachableExactly(s: State)
    ensures Reachable(s) <==> Invariant(s)
  {
    hide Invariant, Run;
    if Reachable(s) {
      var events :| Run(events) == s;
      RunsKeepInvariant(events);
    }
    if Invariant(s) { InvariantReached(s); }
  }

  // ---------------------------------------------------------------- the machine

  /** What `accept` returns: the new state, or the event with the transport and scene that refused it. */
  datatype Reply = Moved(state: State) | Invalid(event: Event, transport: Transport, scene: Scene)

  class ProtocolFsm {
    var state: State

    constructor ()
      ensures state == INITIAL
    {
      state := INITIAL;
    }

    /** Applies an event or, when it is invalid, reports it and restores the state. */
    method Accept(event: Event) returns (reply: Reply)
      modifies this
      ensures state == Step(old(state), event)
      ensures reply == if Next(old(state), event).Some? then Moved(state)
                       else Invalid(event, old(state).transport, old(state).scene)
    {
      hide Next;
      var before := state;
      var accepted;
      match event {
        case ConnectionOpened => accepted := ApplyTransport(event);
        case ConnectionClosed => accepted := ApplyTransport(event);
        case ServerFirstMessage => accepted := ApplyTransport(event);
        case ServerLoginAccepted => accepted := ApplyTransport(event);
        case ServerRiderSnapshot => accepted := ApplyTransport(event);
        case ServerChannelSwitch(_) => accepted := ApplyTransport(event);
        case ServerChannelMoveInAccepted => accepted := ApplyTransport(event);
        case ServerRoomAdmissionAccepted => accepted := ApplyRoom(event);
        case ServerRoomAdmissionRejected => accepted := ApplyRoom(event);
        case ServerSessionData => accepted := ApplyRoom(event);
        case ServerSlotData => accepted := ApplyRoom(event);
        case ServerRoomMutation => accepted := ApplyRoom(event);
        case ServerCommandStart => accepted := ApplyRoom(event);
        case ServerLeaveRoom => accepted := ApplyRoom(event);
        case _ => accepted := ApplyRace(event);
      }
      if accepted {
        reply := Moved(state);
      } else {
        state := before;
        reply := Invalid(event, before.transport, before.scene);
      }
    }

    method ApplyTransport(event: Event) returns (done: bool)
      requires event in {ConnectionOpened, ConnectionClosed, ServerFirstMessage, ServerLoginAccepted,
                         ServerRiderSnapshot, ServerChannelMoveInAccepted} || event.ServerChannelSwitch?
      modifies this
      ensures Next(old(state), event) == if done then Some(state) else None
    {
      done := true;
      match event {
        case ConnectionOpened =>
          if state.transport != Disconnected { return false; }
          state := state.(transport := AwaitingFirstMessage);
          state := state.(scene := if state.migrationPending then Migration else Login);
        case ConnectionClosed =>
          state := state.(transport := Disconnected);
          state := state.(scene := if state.migrationPending then Migration else Offline);
        case ServerFirstMessage =>
          if state.transport != AwaitingFirstMessage { return false; }
          state := state.(transport := EncryptedUnauthenticated);
        case ServerLoginAccepted =>
          if state.transport != EncryptedUnauthenticated || state.migrationPending { return false; }
          state := state.(transport := Authenticated);
          state := state.(scene := RiderBootstrap);
        case ServerRiderSnapshot =>
          if state.transport != Authenticated || state.scene != RiderBootstrap { return false; }
          state := state.(scene := Menu);
        case ServerChannelSwitch(reconnect) =>
          if !In(state, Menu) { return false; }
          state := state.(migrationPending := reconnect);
          if reconnect { state := state.(scene := Migration); }
        case ServerChannelMoveInAccepted =>
          if state.transport != EncryptedUnauthenticated || !state.migrationPending { return false; }
          state := state.(transport := Authenticated);
          state := state.(scene := Menu);
          state := state.(migrationPending := false);
      }
    }

    method ClearRace()
      modifies this
      ensures state == old(state).(loading := NOT_LOADING, recordFlag := None, finishReported := false)
    {
      state := state.(loading := NOT_LOADING);
      state := state.(recordFlag := None);
      state := state.(finishReported := false);
    }

    method ApplyRoom(event: Event) returns (done: bool)
      requires event in {ServerRoomAdmissionAccepted, ServerRoomAdmissionRejected, ServerSessionData, ServerSlotData,
                         ServerRoomMutation, ServerCommandStart, ServerLeaveRoom}
      modifies this
      ensures Next(old(state), event) == if done then Some(state) else None
    {
      done := true;
      match event {
        case ServerRoomAdmissionAccepted =>
          if !In(state, Menu) { return false; }
          state := state.(scene := RoomLobby);
          state := state.(room := NO_ROOM);
        case ServerRoomAdmissionRejected =>
          if !In(state, Menu) { return false; }
          state := state.(room := NO_ROOM);
        case ServerSessionData =>
          if !In(state, RoomLobby) { return false; }
          state := state.(room := state.room.(sessionDataSeen := true));
        case ServerSlotData =>
          if !In(state, RoomLobby) { return false; }
          state := state.(room := state.room.(slotDataSeen := true));
        case ServerRoomMutation => done := In(state, RoomLobby);
        case ServerCommandStart =>
          if !In(state, RoomLobby) { return false; }
          state := state.(scene := Loading);
          state := state.(room := FULL_ROOM);
          ClearRace();
        case ServerLeaveRoom =>
          if state.transport != Authenticated || !InRoom(state.scene) { return false; }
          state := state.(scene := Menu);
          state := state.(room := NO_ROOM);
          ClearRace();
      }
    }

    method ApplyRace(event: Event) returns (done: bool)
      requires event in {ClientGameControlZero, ClientUdpTimeSyncRequest, ServerUdpTimeSyncReply, ServerGameControlOne,
                         ClientGameControlTwo, ServerRaceTime, ServerGameControlThree, ServerGameControlFour,
                         ServerGameNextStage, ServerGameResult, ClientPodiumSchedulerCompleted}
               || event.ServerStartCollectRecord?
      modifies this
      ensures Next(old(state), event) == if done then Some(state) else None
    {
      done := true;
      match event {
        case ClientGameControlZero =>
          if !In(state, Loading) { return false; }
          state := state.(loading := state.loading.(controlZeroSent := true));
        case ClientUdpTimeSyncRequest =>
          if !In(state, Loading) { return false; }
          state := state.(loading := state.loading.(syncRequested := true));
        case ServerUdpTimeSyncReply =>
          if !In(state, Loading) || !state.loading.syncRequested { return false; }
          state := state.(loading := state.loading.(syncAccepted := true));
        case ServerGameControlOne =>
          if !In(state, Loading) { return false; }
          state := state.(scene := Racing);
        case ServerStartCollectRecord(flag) =>
          if !(In(state, Loading) || In(state, Racing) || In(state, Settling)) { return false; }
          state := state.(recordFlag := Some(flag));
        case ClientGameControlTwo =>
          if !In(state, Racing) { return false; }
          state := state.(finishReported := true);
        case ServerRaceTime => done := In(state, Racing) || In(state, Settling);
        case ServerGameControlThree =>
          if !In(state, Racing) { return false; }
          state := state.(scene := Settling);
        case ServerGameControlFour =>
          if !In(state, Settling) { return false; }
          state := state.(scene := Ceremony(AwaitingNextStage));
        case ServerGameNextStage =>
          if !In(state, Ceremony(AwaitingNextStage)) { return false; }
          state := state.(scene := Ceremony(AwaitingResult));
        case ServerGameResult =>
          if !In(state, Ceremony(AwaitingResult)) { return false; }
          state := state.(scene := Ceremony(Podium));
        case ClientPodiumSchedulerCompleted =>
          if !In(state, Ceremony(Podium)) { return false; }
          state := state.(scene := RoomLobby);
          state := state.(room := FULL_ROOM);
          ClearRace();
      }
    }
  }
}
