/** The protocol state as the accepted events tell it: for every field, the last event that decides it. */
module ProtocolHistory {
  import opened Text
  import opened Protocol

  /** The last event of a kind. */
  function Last(history: seq<Event>, kind: Event -> bool): Option<Event>
    decreases |history|
  {
    if history == [] then None
    else if kind(history[|history| - 1]) then Some(history[|history| - 1])
    else Last(history[..|history| - 1], kind)
  }

  lemma {:induction false} LastIs(history: seq<Event>, kind: Event -> bool)
    ensures match Last(history, kind)
            case None => forall i :: 0 <= i < |history| ==> !kind(history[i])
            case Some(e) =>
              exists i :: 0 <= i < |history| && history[i] == e && kind(e)
                          && forall j :: i < j < |history| ==> !kind(history[j])
    decreases |history|
  {
    if history != [] {
      var last := |history| - 1;
      LastIs(history[..last], kind);
      assert forall i :: 0 <= i < last ==> history[..last][i] == history[i];
      if kind(history[last]) {
        assert history[last] == Last(history, kind).value;
      } else if Last(history, kind).Some? {
        var i :| 0 <= i < last && history[..last][i] == Last(history, kind).value
                 && forall j :: i < j < last ==> !kind(history[..last][j]);
        assert history[i] == Last(history, kind).value;
      }
    }
  }

  lemma LastNext(history: seq<Event>, e: Event, kind: Event -> bool)
    ensures Last(history + [e], kind) == if kind(e) then Some(e) else Last(history, kind)
  {
    assert (history + [e])[..|history|] == history;
  }

  // ------------------------------------------------------- what decides a field

  predicate Connecting(e: Event) {
    e in {ConnectionOpened, ConnectionClosed, ServerFirstMessage, ServerLoginAccepted, ServerChannelMoveInAccepted}
  }

  predicate Switching(e: Event) { e.ServerChannelSwitch? || e == ServerChannelMoveInAccepted }

  predicate Leading(e: Event) {
    e in {ConnectionOpened, ConnectionClosed, ServerLoginAccepted, ServerRiderSnapshot, ServerChannelSwitch(true),
          ServerChannelMoveInAccepted, ServerRoomAdmissionAccepted, ServerLeaveRoom, ServerCommandStart,
          ServerGameControlOne, ServerGameControlThree, ServerGameControlFour, ServerGameNextStage, ServerGameResult,
          ClientPodiumSchedulerCompleted}
  }

  /** Starting a race, returning from it and leaving the room clear what belongs to a race. */
  predicate Clearing(e: Event) {
    e == ServerCommandStart || e == ServerLeaveRoom || e == ClientPodiumSchedulerCompleted
  }

  /** Entering a room, being refused and leaving one forget its snapshots; a start and a return bring both. */
  predicate RoomWide(e: Event) {
    Clearing(e) || e == ServerRoomAdmissionAccepted || e == ServerRoomAdmissionRejected
  }

  function RoomKind(own: Event): Event -> bool { (e: Event) => e == own || RoomWide(e) }

  function RaceKind(own: Event): Event -> bool { (e: Event) => e == own || Clearing(e) }

  predicate Recording(e: Event) { e.ServerStartCollectRecord? || Clearing(e) }

  /** A room snapshot was seen when it came itself, or with a start or a return, since the room was entered. */
  predicate Seen(history: seq<Event>, own: Event) {
    Last(history, RoomKind(own)) in {Some(own), Some(ServerCommandStart), Some(ClientPodiumSchedulerCompleted)}
  }

  /** Something happened in the race in progress. */
  predicate Happened(history: seq<Event>, own: Event) {
    Last(history, RaceKind(own)) == Some(own)
  }

  predicate Pending(history: seq<Event>) {
    Last(history, Switching) == Some(ServerChannelSwitch(true))
  }

  function TransportAfter(last: Option<Event>): Transport {
    match last
    case Some(ConnectionOpened) => AwaitingFirstMessage
    case Some(ServerFirstMessage) => EncryptedUnauthenticated
    case Some(ServerLoginAccepted) => Authenticated
    case Some(ServerChannelMoveInAccepted) => Authenticated
    case _ => Disconnected
  }

  function SceneAfter(last: Option<Event>, pending: bool): Scene {
    match last
    case Some(ConnectionOpened) => if pending then Migration else Login
    case Some(ConnectionClosed) => if pending then Migration else Offline
    case Some(ServerLoginAccepted) => RiderBootstrap
    case Some(ServerRiderSnapshot) => Menu
    case Some(ServerChannelSwitch(_)) => Migration
    case Some(ServerChannelMoveInAccepted) => Menu
    case Some(ServerLeaveRoom) => Menu
    case Some(ServerRoomAdmissionAccepted) => RoomLobby
    case Some(ClientPodiumSchedulerCompleted) => RoomLobby
    case Some(ServerCommandStart) => Loading
    case Some(ServerGameControlOne) => Racing
    case Some(ServerGameControlThree) => Settling
    case Some(ServerGameControlFour) => Ceremony(AwaitingNextStage)
    case Some(ServerGameNextStage) => Ceremony(AwaitingResult)
    case Some(ServerGameResult) => Ceremony(Podium)
    case _ => Offline
  }

  function RecordAfter(last: Option<Event>): Option<bool> {
    match last
    case Some(ServerStartCollectRecord(flag)) => Some(flag)
    case _ => None
  }

  function Told(history: seq<Event>): State {
    State(
      TransportAfter(Last(history, Connecting)), SceneAfter(Last(history, Leading), Pending(history)), Pending(history),
      Snapshot(Seen(history, ServerSessionData), Seen(history, ServerSlotData)),
      LoadingState(Happened(history, ClientGameControlZero), Happened(history, ClientUdpTimeSyncRequest),
                   Happened(history, ServerUdpTimeSyncReply)),
      RecordAfter(Last(history, Recording)), Happened(history, ClientGameControlTwo))
  }

  // -------------------------------------------------------------- the theorem

  lemma SeenNext(history: seq<Event>, e: Event, own: Event)
    ensures Seen(history + [e], own) <==>
              || e == own || e == ServerCommandStart || e == ClientPodiumSchedulerCompleted
              || (!RoomWide(e) && Seen(history, own))
  {
    LastNext(history, e, RoomKind(own));
  }

  lemma HappenedNext(history: seq<Event>, e: Event, own: Event)
    requires !Clearing(own)
    ensures Happened(history + [e], own) <==> e == own || (!Clearing(e) && Happened(history, own))
  {
    LastNext(history, e, RaceKind(own));
  }

  lemma TransportMoves(s: State, e: Event, last: Option<Event>)
    requires s.transport == TransportAfter(last) && Next(s, e).Some?
    ensures Next(s, e).value.transport == TransportAfter(if Connecting(e) then Some(e) else last)
    ensures Next(s, e).value.migrationPending
         == if e.ServerChannelSwitch? then e.reconnect else e != ServerChannelMoveInAccepted && s.migrationPending
  {
  }

  lemma SceneMoves(s: State, e: Event, last: Option<Event>)
    requires s.scene == SceneAfter(last, s.migrationPending) && Invariant(s) && Next(s, e).Some?
    ensures var after := Next(s, e).value;
            after.scene == SceneAfter(if Leading(e) then Some(e) else last, after.migrationPending)
  {
    hide Next, Invariant, SceneAfter;
    if Leading(e) { SceneLed(s, e); } else { SceneStays(s, e, last); }
  }

  lemma SceneLed(s: State, e: Event)
    requires Next(s, e).Some? && Leading(e)
    ensures var after := Next(s, e).value; after.scene == SceneAfter(Some(e), after.migrationPending)
  {
  }

  lemma SceneStays(s: State, e: Event, last: Option<Event>)
    requires s.scene == SceneAfter(last, s.migrationPending) && Invariant(s) && Next(s, e).Some? && !Leading(e)
    ensures Next(s, e).value.scene == s.scene
    ensures Next(s, e).value.scene == SceneAfter(last, Next(s, e).value.migrationPending)
  {
  }

  lemma RoomMoves(s: State, e: Event)
    requires Next(s, e).Some?
    ensures var room, brought := Next(s, e).value.room, e == ServerCommandStart || e == ClientPodiumSchedulerCompleted;
            && (room.sessionDataSeen <==> e == ServerSessionData || brought || (!RoomWide(e) && s.room.sessionDataSeen))
            && (room.slotDataSeen <==> e == ServerSlotData || brought || (!RoomWide(e) && s.room.slotDataSeen))
  {
  }

  lemma LoadingMoves(s: State, e: Event)
    requires Next(s, e).Some?
    ensures var loading := Next(s, e).value.loading;
            && (loading.controlZeroSent <==> e == ClientGameControlZero || (!Clearing(e) && s.loading.controlZeroSent))
            && (loading.syncRequested <==> e == ClientUdpTimeSyncRequest || (!Clearing(e) && s.loading.syncRequested))
  {
  }

  lemma SyncMoves(s: State, e: Event)
    requires Next(s, e).Some?
    ensures Next(s, e).value.loading.syncAccepted <==>
              e == ServerUdpTimeSyncReply || (!Clearing(e) && s.loading.syncAccepted)
  {
  }

  lemma RecordMoves(s: State, e: Event, last: Option<Event>)
    requires s.recordFlag == RecordAfter(last) && Next(s, e).Some?
    ensures Next(s, e).value.recordFlag == RecordAfter(if Recording(e) then Some(e) else last)
    ensures Next(s, e).value.finishReported <==> e == ClientGameControlTwo || (!Clearing(e) && s.finishReported)
  {
  }

  lemma PendingNext(history: seq<Event>, e: Event)
    ensures Pending(history + [e])
         == if e.ServerChannelSwitch? then e.reconnect else e != ServerChannelMoveInAccepted && Pending(history)
  {
    LastNext(history, e, Switching);
  }

  lemma ToldNext(history: seq<Event>, s: State, e: Event)
    requires s == Told(history) && Invariant(s) && Next(s, e).Some?
    ensures Next(s, e).value == Told(history + [e])
  {
    hide Next, Invariant, Last, Pending, Seen, Happened, TransportAfter, SceneAfter, RecordAfter;
    LastNext(history, e, Connecting);
    LastNext(history, e, Leading);
    LastNext(history, e, Recording);
    PendingNext(history, e);
    SeenNext(history, e, ServerSessionData);
    SeenNext(history, e, ServerSlotData);
    HappenedNext(history, e, ClientGameControlZero);
    HappenedNext(history, e, ClientUdpTimeSyncRequest);
    HappenedNext(history, e, ServerUdpTimeSyncReply);
    HappenedNext(history, e, ClientGameControlTwo);
    TransportMoves(s, e, Last(history, Connecting));
    SceneMoves(s, e, Last(history, Leading));
    RoomMoves(s, e);
    LoadingMoves(s, e);
    SyncMoves(s, e);
    RecordMoves(s, e, Last(history, Recording));
  }

  /** On every run the whole state is told by the accepted events, field by field, by the last one that decides it. */
  lemma {:induction false} HistoryTells(events: seq<Event>)
    ensures Run(events) == Told(Accepted(events))
    decreases |events|
  {
    hide Next, Told, Invariant;
    if events == [] {
      NothingTold();
    } else {
      var front, e := events[..|events| - 1], events[|events| - 1];
      HistoryTells(front);
      RunsKeepInvariant(front);
      var s, history := Run(front), Accepted(front);
      if Next(s, e).Some? {
        ToldNext(history, s, e);
      } else {
        assert Accepted(events) == history;
      }
    }
  }

  lemma NothingTold()
    ensures Told([]) == INITIAL
  {
  }

  // ------------------------------------------------------ what may come next

  predicate AtMenu(history: seq<Event>) {
    Last(history, Leading) in {Some(ServerRiderSnapshot), Some(ServerChannelMoveInAccepted), Some(ServerLeaveRoom)}
  }

  predicate AtLobby(history: seq<Event>) {
    Last(history, Leading) in {Some(ServerRoomAdmissionAccepted), Some(ClientPodiumSchedulerCompleted)}
  }

  predicate After(history: seq<Event>, e: Event) {
    Last(history, Leading) == Some(e)
  }

  /** Which events are accepted, told by the events accepted before. */
  predicate Allowed(history: seq<Event>, e: Event) {
    match e
    case ConnectionOpened => Last(history, Connecting) in {None, Some(ConnectionClosed)}
    case ConnectionClosed => true
    case ServerFirstMessage => Last(history, Connecting) == Some(ConnectionOpened)
    case ServerLoginAccepted => Last(history, Connecting) == Some(ServerFirstMessage) && !Pending(history)
    case ServerChannelMoveInAccepted => Last(history, Connecting) == Some(ServerFirstMessage) && Pending(history)
    case ServerRiderSnapshot => After(history, ServerLoginAccepted)
    case ServerChannelSwitch(_) => AtMenu(history)
    case ServerRoomAdmissionAccepted => AtMenu(history)
    case ServerRoomAdmissionRejected => AtMenu(history)
    case ServerSessionData => AtLobby(history)
    case ServerSlotData => AtLobby(history)
    case ServerRoomMutation => AtLobby(history)
    case ServerCommandStart => AtLobby(history)
    case ServerLeaveRoom =>
      || AtLobby(history) || After(history, ServerCommandStart) || After(history, ServerGameControlOne)
      || After(history, ServerGameControlThree) || After(history, ServerGameControlFour)
      || After(history, ServerGameNextStage) || After(history, ServerGameResult)
    case ClientGameControlZero => After(history, ServerCommandStart)
    case ClientUdpTimeSyncRequest => After(history, ServerCommandStart)
    case ServerUdpTimeSyncReply =>
      After(history, ServerCommandStart) && Happened(history, ClientUdpTimeSyncRequest)
    case ServerGameControlOne => After(history, ServerCommandStart)
    case ServerStartCollectRecord(_) =>
      || After(history, ServerCommandStart) || After(history, ServerGameControlOne)
      || After(history, ServerGameControlThree)
    case ClientGameControlTwo => After(history, ServerGameControlOne)
    case ServerRaceTime => After(history, ServerGameControlOne) || After(history, ServerGameControlThree)
    case ServerGameControlThree => After(history, ServerGameControlOne)
    case ServerGameControlFour => After(history, ServerGameControlThree)
    case ServerGameNextStage => After(history, ServerGameControlFour)
    case ServerGameResult => After(history, ServerGameNextStage)
    case ClientPodiumSchedulerCompleted => After(history, ServerGameResult)
  }

  lemma {:induction false} LastKind(history: seq<Event>, kind: Event -> bool)
    ensures Last(history, kind).Some? ==> kind(Last(history, kind).value)
    decreases |history|
  {
    if history != [] { LastKind(history[..|history| - 1], kind); }
  }

  /** On every run an event is accepted exactly when the events before it allow it. */
  lemma AllowedExactly(events: seq<Event>, e: Event)
    ensures Next(Run(events), e).Some? <==> Allowed(Accepted(events), e)
  {
    hide Run, Accepted, Last, Told, Invariant, Happened, After, AtMenu, AtLobby, Pending;
    var history, s := Accepted(events), Run(events);
    HistoryTells(events);
    RunsKeepInvariant(events);
    PlacesTold(history, s);
    ConnectionTold(history, s);
  }

  /** Where the client is, told by the last event that led it somewhere. */
  lemma PlacesTold(history: seq<Event>, s: State)
    requires s == Told(history) && Invariant(s)
    ensures In(s, RiderBootstrap) <==> After(history, ServerLoginAccepted)
    ensures In(s, Menu) <==> AtMenu(history)
    ensures In(s, RoomLobby) <==> AtLobby(history)
    ensures In(s, Loading) <==> After(history, ServerCommandStart)
    ensures In(s, Racing) <==> After(history, ServerGameControlOne)
    ensures In(s, Settling) <==> After(history, ServerGameControlThree)
    ensures In(s, Ceremony(AwaitingNextStage)) <==> After(history, ServerGameControlFour)
    ensures In(s, Ceremony(AwaitingResult)) <==> After(history, ServerGameNextStage)
    ensures In(s, Ceremony(Podium)) <==> After(history, ServerGameResult)
    ensures s.transport == Authenticated && InRoom(s.scene) <==>
              || AtLobby(history) || After(history, ServerCommandStart) || After(history, ServerGameControlOne)
              || After(history, ServerGameControlThree) || After(history, ServerGameControlFour)
              || After(history, ServerGameNextStage) || After(history, ServerGameResult)
  {
    hide Last, TransportAfter, Pending, Seen, Happened, RecordAfter;
    LastKind(history, Leading);
  }

  lemma ConnectionTold(history: seq<Event>, s: State)
    requires s == Told(history)
    ensures s.transport == Disconnected <==> Last(history, Connecting) in {None, Some(ConnectionClosed)}
    ensures s.transport == AwaitingFirstMessage <==> Last(history, Connecting) == Some(ConnectionOpened)
    ensures s.transport == EncryptedUnauthenticated <==> Last(history, Connecting) == Some(ServerFirstMessage)
    ensures s.migrationPending <==> Pending(history)
    ensures s.loading.syncRequested <==> Happened(history, ClientUdpTimeSyncRequest)
  {
    hide Last, SceneAfter, Pending, Seen, Happened, RecordAfter;
    LastKind(history, Connecting);
  }

  // ------------------------------------------------------ one connection's order

  /** The connection's own events since it was last closed. */
  function Opening(history: seq<Event>): seq<Event>
    decreases |history|
  {
    if history == [] then []
    else
      var front, last := history[..|history| - 1], history[|history| - 1];
      if last == ConnectionClosed then []
      else if Connecting(last) then Opening(front) + [last]
      else Opening(front)
  }

  function Opened(transport: Transport, entered: Event): seq<Event> {
    match transport
    case Disconnected => []
    case AwaitingFirstMessage => [ConnectionOpened]
    case EncryptedUnauthenticated => [ConnectionOpened, ServerFirstMessage]
    case Authenticated => [ConnectionOpened, ServerFirstMessage, entered]
  }

  /**
   On every run a connection is opened, then sends its first message, and only then is entered: by a log-in, or, while
   a switch to another channel is pending, by a move-in.
   */
  lemma {:induction false} ConnectionInOrder(events: seq<Event>) returns (entered: Event)
    ensures entered == ServerLoginAccepted || entered == ServerChannelMoveInAccepted
    ensures Opening(Accepted(events)) == Opened(Run(events).transport, entered)
    decreases |events|
  {
    hide Next, Connecting, Invariant;
    if events == [] { return ServerLoginAccepted; }
    var front, e := events[..|events| - 1], events[|events| - 1];
    entered := ConnectionInOrder(front);
    var s := Run(front);
    if Next(s, e).Some? {
      var history := Accepted(front);
      assert (history + [e])[..|history|] == history;
      ConnectionMoves(s, e);
      if e == ServerLoginAccepted || e == ServerChannelMoveInAccepted { entered := e; }
    } else {
      assert Accepted(events) == Accepted(front);
    }
  }

  lemma ConnectionMoves(s: State, e: Event)
    requires Next(s, e).Some?
    ensures var after := Next(s, e).value.transport;
            match e
            case ConnectionOpened => Connecting(e) && s.transport == Disconnected && after == AwaitingFirstMessage
            case ConnectionClosed => after == Disconnected
            case ServerFirstMessage =>
              Connecting(e) && s.transport == AwaitingFirstMessage && after == EncryptedUnauthenticated
            case ServerLoginAccepted =>
              Connecting(e) && s.transport == EncryptedUnauthenticated && !s.migrationPending && after == Authenticated
            case ServerChannelMoveInAccepted =>
              Connecting(e) && s.transport == EncryptedUnauthenticated && s.migrationPending && after == Authenticated
            case _ => !Connecting(e) && after == s.transport
  {
  }

  /** A client that asked to switch channels comes to the menu by the move-in alone. */
  lemma MenuAfterSwitch(events: seq<Event>)
    requires In(Run(events), Menu)
    ensures Last(Accepted(events), Leading) in {Some(ServerRiderSnapshot), Some(ServerLeaveRoom),
                                                Some(ServerChannelMoveInAccepted)}
    ensures !Pending(Accepted(events))
  {
    hide Run, Accepted, Last, Told, Invariant;
    HistoryTells(events);
    RunsKeepInvariant(events);
    PlacesTold(Accepted(events), Run(events));
    MenuNotPending(Accepted(events), Run(events));
  }

  lemma MenuNotPending(history: seq<Event>, s: State)
    requires s == Told(history) && Invariant(s) && In(s, Menu)
    ensures !Pending(history)
  {
    hide Last, SceneAfter;
  }
}
