/** The client's item state machine: an object table and a queue of deferred transitions, over whole races. */
module ItemFsm {
  import opened Text
  import LittleEndian

  datatype Meaning =
    Unknown | Place | Launch | Activate | Impact | Resolve | Retarget | Remove | UpdateRuntimeFlag | NoClientAction

  /** What an operation carries besides its key, its state and its meaning. */
  datatype Details = Details(
    nativePhase: Option<int>, transitionToken: Option<int>, sourceObjectId: Option<int>, targetObjectId: Option<int>,
    targetObjectIds: seq<int>, variety: Option<int>, effectItemId: Option<int>)

  datatype Key = Key(className: string, objectId: int)

  datatype Operation = Operation(className: string, objectId: int, state: int, meaning: Meaning, details: Details)

  datatype ObjectState = ObjectState(state: int, meaning: Meaning, details: Details)

  datatype Outcome = LocalOnly | DeferredOutbound | ImmediateOutbound | UnknownSideEffect

  datatype Marker = Marker(key: Key, state: int, meaning: Meaning)

  datatype Transition = Transition(
    operation: Operation, outcome: Outcome, previous: Option<ObjectState>, current: Option<ObjectState>)

  /** The decoder of operation bodies, whatever it does. */
  type Consume = seq<LittleEndian.byte> -> Option<Operation>

  function KeyOf(op: Operation): Key {
    Key(op.className, op.objectId)
  }

  function StateOf(op: Operation): ObjectState {
    ObjectState(op.state, op.meaning, op.details)
  }

  function MarkerOf(op: Operation): Marker {
    Marker(KeyOf(op), op.state, op.meaning)
  }

  /** The branches after which the native producer is proven to send later. */
  predicate HasFollowUp(op: Operation) {
    var c, s := op.className, op.state;
    || (s == 0 && c in {"GopAngel", "GopGoldShield", "GopCubeForBoss", "GopBigTimebomb", "GopSpecialSmall"})
    || (s == 1 && c in {"GopBalloon", "GopHeadBand", "GopBlock", "GopBoundWall", "GopDynamite", "GopHammer", "GopPress",
                        "GopRobotBeam", "GopTombStone", "GopCloud", "GopCloud2", "GopSlotLock", "GopStraightRocket",
                        "GopAreaUfo", "GopMovingUfo", "GopUfo", "GopShield", "GopThunderbolt", "GopForceZone", "GopOil",
                        "GopSiren", "GopPiratebomb"})
    || ((s == 0 || s == 2) && c in {"GopSpaceCraft", "GopSpecialShield"})
    || (1 <= s <= 3 && c in {"GopCokebomb", "GopSnowbomb", "GopRollingCokebomb", "GopRollingbomb", "GopWaterMine",
                             "GopItemTimeFlybomb", "GopTimeCokebomb", "GopTimeSnowbomb", "GopTimebomb",
                             "GopBossPrison"})
    || (1 <= s <= 2 && c in {"GopInfectedBomb", "GopRollingInfectedbomb", "GopTimeInfectedBomb", "GopBoundRoad",
                             "GopFalling"})
    || (s in {1, 2, 4, 7, 8} && c == "GopLockdownRocket")
    || (c == "GopTimeMine" && (s == 1 || s == 3 || (s == 2 && op.meaning == Impact)))
  }

  function OutcomeOf(op: Operation): Outcome {
    if op.meaning == Unknown then UnknownSideEffect
    else if HasFollowUp(op) then DeferredOutbound
    else LocalOnly
  }

  /** Operations that say something about the object's life. */
  predicate Telling(op: Operation) {
    op.meaning != Unknown && op.meaning != NoClientAction
  }

  // ------------------------------------------------------------ one operation

  datatype State = State(objects: map<Key, ObjectState>, deferred: seq<Marker>, accepted: nat)

  const FRESH := State(map[], [], 0)

  /** `retain`: every marker of another key. */
  function Others(ms: seq<Marker>, key: Key): seq<Marker> {
    if ms == [] then []
    else if ms[0].key == key then Others(ms[1..], key)
    else [ms[0]] + Others(ms[1..], key)
  }

  function Get(objects: map<Key, ObjectState>, key: Key): Option<ObjectState> {
    if key in objects then Some(objects[key]) else None
  }

  function Apply(s: State, op: Operation): State {
    var key := KeyOf(op);
    State(if !Telling(op) then s.objects
          else if op.meaning == Remove then s.objects - {key}
          else s.objects[key := StateOf(op)],
          (if Telling(op) then Others(s.deferred, key) else s.deferred)
          + (if OutcomeOf(op) == DeferredOutbound then [MarkerOf(op)] else []),
          s.accepted + 1)
  }

  // --------------------------------------------------------------- whole runs

  datatype Event = Inbound(raw: seq<LittleEndian.byte>) | Drain | Reset

  function After(s: State, e: Event, consume: Consume): State {
    match e
    case Inbound(raw) => if consume(raw).None? then s else Apply(s, consume(raw).value)
    case Drain => s.(deferred := [])
    case Reset => FRESH
  }

  function Run(s: State, events: seq<Event>, consume: Consume): State
    decreases |events|
  {
    if events == [] then s else After(Run(s, events[..|events| - 1], consume), events[|events| - 1], consume)
  }

  /** The operations accepted since the last reset, and since the last time the queue was taken or reset. */
  datatype History = History(race: seq<Operation>, pending: seq<Operation>)

  function Past(events: seq<Event>, consume: Consume): History
    decreases |events|
  {
    if events == [] then History([], [])
    else
      var h := Past(events[..|events| - 1], consume);
      match events[|events| - 1]
      case Inbound(raw) =>
        if consume(raw).None? then h else History(h.race + [consume(raw).value], h.pending + [consume(raw).value])
      case Drain => h.(pending := [])
      case Reset => History([], [])
  }

  /** The last operation that tells something about a key. */
  function LastTelling(ops: seq<Operation>, key: Key): Option<Operation>
    decreases |ops|
  {
    if ops == [] then None
    else
      var last := ops[|ops| - 1];
      if KeyOf(last) == key && Telling(last) then Some(last) else LastTelling(ops[..|ops| - 1], key)
  }

  lemma {:induction false} LastTellingIsLast(ops: seq<Operation>, key: Key)
    ensures LastTelling(ops, key).None? <==> forall i :: 0 <= i < |ops| && KeyOf(ops[i]) == key ==> !Telling(ops[i])
    ensures LastTelling(ops, key).Some? ==>
              exists i :: 0 <= i < |ops| && ops[i] == LastTelling(ops, key).value
                          && KeyOf(ops[i]) == key && Telling(ops[i])
                          && forall j :: i < j < |ops| && KeyOf(ops[j]) == key ==> !Telling(ops[j])
    decreases |ops|
  {
    hide KeyOf, Telling;
    if ops != [] {
      var n := |ops| - 1;
      var front := ops[..n];
      LastTellingIsLast(front, key);
      if KeyOf(ops[n]) == key && Telling(ops[n]) {
        assert ops[n] == LastTelling(ops, key).value;
      } else {
        if LastTelling(front, key).Some? {
          var i :| 0 <= i < n && front[i] == LastTelling(front, key).value
                   && KeyOf(front[i]) == key && Telling(front[i])
                   && forall j :: i < j < n && KeyOf(front[j]) == key ==> !Telling(front[j]);
          assert ops[i] == LastTelling(ops, key).value;
          forall j | i < j < |ops| && KeyOf(ops[j]) == key
            ensures !Telling(ops[j])
          {
            if j < n { assert front[j] == ops[j]; }
          }
        } else {
          forall i | 0 <= i < |ops| && KeyOf(ops[i]) == key
            ensures !Telling(ops[i])
          {
            if i < n { assert front[i] == ops[i]; }
          }
        }
      }
    }
  }

  /** A later operation tells about this one's key, which disarms its marker. */
  predicate Superseded(ops: seq<Operation>, i: nat)
    requires i < |ops|
  {
    exists j :: i < j < |ops| && KeyOf(ops[j]) == KeyOf(ops[i]) && Telling(ops[j])
  }

  /** The markers that are armed: one per deferring operation that nothing later supersedes, in order. */
  function Armed(ops: seq<Operation>): seq<Marker> {
    if ops == [] then []
    else
      (if OutcomeOf(ops[0]) == DeferredOutbound && !Superseded(ops, 0) then [MarkerOf(ops[0])] else [])
      + Armed(ops[1..])
  }

  // ----------------------------------------------------------- the object table

  /** The object table is a replay of the race: present exactly when the last telling operation was no removal. */
  predicate Replayed(objects: map<Key, ObjectState>, ops: seq<Operation>, key: Key) {
    var last := LastTelling(ops, key);
    Get(objects, key) == if last.None? || last.value.meaning == Remove then None else Some(StateOf(last.value))
  }

  /**
   After any sequence of accepted and undecodable operations, drains and resets, from a fresh machine: the table
   is the replay of the operations since the last reset, and the counter is their number.
   */
  lemma {:induction false} ObjectsAreReplayed(events: seq<Event>, consume: Consume, key: Key)
    ensures Replayed(Run(FRESH, events, consume).objects, Past(events, consume).race, key)
    ensures Run(FRESH, events, consume).accepted == |Past(events, consume).race|
    decreases |events|
  {
    hide HasFollowUp, Others;
    if events != [] {
      var front, last := events[..|events| - 1], events[|events| - 1];
      ObjectsAreReplayed(front, consume, key);
      var h := Past(front, consume);
      if last.Inbound? && consume(last.raw).Some? {
        var op := consume(last.raw).value;
        assert (h.race + [op])[..|h.race|] == h.race;
      }
    }
  }

  // ------------------------------------------------------------------ the queue

  lemma SupersededAppend(ops: seq<Operation>, op: Operation)
    requires ops != []
    ensures Superseded(ops + [op], 0) <==> Superseded(ops, 0) || (KeyOf(op) == KeyOf(ops[0]) && Telling(op))
  {
    hide KeyOf, Telling;
    var all := ops + [op];
    assert all[|ops|] == op;
    if Superseded(ops, 0) {
      var j :| 0 < j < |ops| && KeyOf(ops[j]) == KeyOf(ops[0]) && Telling(ops[j]);
      assert all[j] == ops[j];
    }
    if Superseded(all, 0) {
      var j :| 0 < j < |all| && KeyOf(all[j]) == KeyOf(all[0]) && Telling(all[j]);
      if j < |ops| { assert ops[j] == all[j]; }
    }
  }

  lemma NothingLater(op: Operation)
    ensures !Superseded([op], 0)
  {
  }

  lemma SupersededTail(ops: seq<Operation>, i: nat)
    requires i + 1 < |ops|
    ensures Superseded(ops[1..], i) <==> Superseded(ops, i + 1)
  {
  }

  lemma {:induction false} ArmedAppend(ops: seq<Operation>, op: Operation)
    ensures Armed(ops + [op])
         == (if Telling(op) then Others(Armed(ops), KeyOf(op)) else Armed(ops))
            + if OutcomeOf(op) == DeferredOutbound then [MarkerOf(op)] else []
  {
    hide HasFollowUp, OutcomeOf, Telling, Superseded, Others;
    if ops == [] {
      OthersOne([], KeyOf(op));
      assert !Superseded([op], 0) by { NothingLater(op); }
      assert ops + [op] == [op];
      assert Armed([op][1..]) == [];
    } else {
      var all := ops + [op];
      assert all[1..] == ops[1..] + [op];
      ArmedAppend(ops[1..], op);
      SupersededAppend(ops, op);
      var head := if OutcomeOf(ops[0]) == DeferredOutbound && !Superseded(ops, 0) then [MarkerOf(ops[0])] else [];
      OthersAppend(head, Armed(ops[1..]), KeyOf(op));
      OthersOne(head, KeyOf(op));
    }
  }

  lemma {:induction false} OthersAppend(a: seq<Marker>, b: seq<Marker>, key: Key)
    ensures Others(a + b, key) == Others(a, key) + Others(b, key)
  {
    if a == [] {
      assert a + b == b;
    } else {
      assert (a + b)[1..] == a[1..] + b;
      OthersAppend(a[1..], b, key);
    }
  }

  lemma OthersOne(a: seq<Marker>, key: Key)
    requires |a| <= 1
    ensures Others(a, key) == if a != [] && a[0].key == key then [] else a
  {
  }

  /** After any run the queue is what the operations since it was last taken have armed and not superseded. */
  lemma {:induction false} QueueIsArmed(events: seq<Event>, consume: Consume)
    ensures Run(FRESH, events, consume).deferred == Armed(Past(events, consume).pending)
    decreases |events|
  {
    hide HasFollowUp, Others, OutcomeOf, Telling;
    if events != [] {
      var front, last := events[..|events| - 1], events[|events| - 1];
      QueueIsArmed(front, consume);
      if last.Inbound? && consume(last.raw).Some? {
        ArmedAppend(Past(front, consume).pending, consume(last.raw).value);
      }
    }
  }

  /** No deferring branch is labelled as one without client action. */
  predicate Labelled(ops: seq<Operation>) {
    forall i :: 0 <= i < |ops| && OutcomeOf(ops[i]) == DeferredOutbound ==> ops[i].meaning != NoClientAction
  }

  predicate OnePerKey(ms: seq<Marker>) {
    forall i, j :: 0 <= i < j < |ms| ==> ms[i].key != ms[j].key
  }

  lemma {:induction false} ArmedFrom(ops: seq<Operation>, m: Marker)
    requires m in Armed(ops)
    ensures exists i :: 0 <= i < |ops| && OutcomeOf(ops[i]) == DeferredOutbound
                        && !Superseded(ops, i) && MarkerOf(ops[i]) == m
  {
    hide OutcomeOf, Telling, Superseded, MarkerOf;
    if OutcomeOf(ops[0]) == DeferredOutbound && !Superseded(ops, 0) && MarkerOf(ops[0]) == m {
    } else {
      ArmedFrom(ops[1..], m);
      var i :| 0 <= i < |ops[1..]| && OutcomeOf(ops[1..][i]) == DeferredOutbound
               && !Superseded(ops[1..], i) && MarkerOf(ops[1..][i]) == m;
      assert ops[1..][i] == ops[i + 1];
      SupersededTail(ops, i);
    }
  }

  /** Then a key never has two markers. */
  lemma {:induction false} ArmedOnce(ops: seq<Operation>)
    requires Labelled(ops)
    ensures OnePerKey(Armed(ops))
  {
    hide HasFollowUp;
    if ops != [] {
      var rest := Armed(ops[1..]);
      assert forall i :: 0 <= i < |ops[1..]| ==> ops[1..][i] == ops[i + 1];
      ArmedOnce(ops[1..]);
      if OutcomeOf(ops[0]) == DeferredOutbound && !Superseded(ops, 0) {
        forall k | 0 <= k < |rest|
          ensures rest[k].key != KeyOf(ops[0])
        {
          ArmedFrom(ops[1..], rest[k]);
          var i :| 0 <= i < |ops[1..]| && OutcomeOf(ops[1..][i]) == DeferredOutbound
                   && MarkerOf(ops[1..][i]) == rest[k];
          assert ops[i + 1].meaning != NoClientAction;
          assert Telling(ops[i + 1]);
        }
      }
    }
  }

  /**
   After any run whose deferring operations are labelled with an action, a key has at most one pending marker, and
   it stems from the last telling operation of that key.
   */
  lemma OnePendingMarkerPerKey(events: seq<Event>, consume: Consume)
    requires Labelled(Past(events, consume).pending)
    ensures OnePerKey(Run(FRESH, events, consume).deferred)
    ensures forall m :: m in Run(FRESH, events, consume).deferred ==>
              var last := LastTelling(Past(events, consume).pending, m.key);
              last.Some? && m == MarkerOf(last.value)
  {
    hide HasFollowUp, Run, Past;
    var ops := Past(events, consume).pending;
    QueueIsArmed(events, consume);
    ArmedOnce(ops);
    forall m | m in Armed(ops)
      ensures LastTelling(ops, m.key).Some? && m == MarkerOf(LastTelling(ops, m.key).value)
    {
      ArmedFrom(ops, m);
      var i :| 0 <= i < |ops| && OutcomeOf(ops[i]) == DeferredOutbound && !Superseded(ops, i) && MarkerOf(ops[i]) == m;
      assert ops[i].meaning != NoClientAction;
      LastTellingIs(ops, i);
    }
  }

  lemma LastTellingIs(ops: seq<Operation>, i: nat)
    requires i < |ops| && Telling(ops[i]) && !Superseded(ops, i)
    ensures LastTelling(ops, KeyOf(ops[i])) == Some(ops[i])
  {
  }

  // ------------------------------------------- the labels the decoder gives

  /** The branches that the decoder labels as without client action. */
  predicate NoActionBranch(op: Operation) {
    var c, s := op.className, op.state;
    || c == "GopCourse"
    || (s == 2 && c in {"GopCube", "GopTargetKart", "GopStraightRocket", "GopSilence"})
    || (s == 3 && c == "GopStraightRocket")
    || (s == 4 && c == "GopTimeMine")
    || (s == 7 && c == "GopWaterMine")
  }

  /** The decoder gives that label to these branches only; otherwise it is arbitrary. */
  ghost predicate LabelsAsRead(consume: Consume) {
    forall raw :: consume(raw).Some? && consume(raw).value.meaning == NoClientAction ==>
                    NoActionBranch(consume(raw).value)
  }

  lemma NoActionNeverDefers(op: Operation)
    requires NoActionBranch(op)
    ensures OutcomeOf(op) != DeferredOutbound
  {
  }

  lemma {:induction false} DecodedLabelled(events: seq<Event>, consume: Consume)
    requires LabelsAsRead(consume)
    ensures Labelled(Past(events, consume).pending)
    decreases |events|
  {
    hide NoActionBranch, OutcomeOf;
    if events != [] {
      var front, last := events[..|events| - 1], events[|events| - 1];
      DecodedLabelled(front, consume);
      if last.Inbound? && consume(last.raw).Some? {
        var op := consume(last.raw).value;
        if op.meaning == NoClientAction { NoActionNeverDefers(op); }
      }
    }
  }

  /** With the decoder's labels every run, whatever it receives, leaves a key at most one pending marker. */
  lemma OneMarkerPerKey(events: seq<Event>, consume: Consume)
    requires LabelsAsRead(consume)
    ensures OnePerKey(Run(FRESH, events, consume).deferred)
    ensures forall m :: m in Run(FRESH, events, consume).deferred ==>
              var last := LastTelling(Past(events, consume).pending, m.key);
              last.Some? && m == MarkerOf(last.value)
  {
    hide LabelsAsRead, Labelled, OnePerKey, Run, Past, LastTelling;
    DecodedLabelled(events, consume);
    OnePendingMarkerPerKey(events, consume);
  }

  /** The labels matter: a decoder that gave this one to a deferring branch would leave two markers of one key. */
  lemma TwoMarkersWithoutLabels()
    ensures var op := Operation("GopOil", 0, 1, NoClientAction, Details(None, None, None, None, [], None, None));
            var consume: Consume := raw => Some(op);
            Run(FRESH, [Inbound([]), Inbound([])], consume).deferred == [MarkerOf(op), MarkerOf(op)]
  {
    var op := Operation("GopOil", 0, 1, NoClientAction, Details(None, None, None, None, [], None, None));
    var consume: Consume := raw => Some(op);
    var e := Inbound([]);
    assert OutcomeOf(op) == DeferredOutbound;
    assert [e, e][..1] == [e] && [e][..0] == [];
    assert Run(FRESH, [e], consume) == After(Run(FRESH, [], consume), e, consume);
    assert Run(FRESH, [e], consume).deferred == [MarkerOf(op)];
  }

  // ---------------------------------------------------------------- the machine

  class ItemClientFsm {
    var objects: map<Key, ObjectState>
    var deferredOutbound: seq<Marker>
    var acceptedTransitionCount: nat

    constructor ()
      ensures Now() == FRESH
    {
      objects, deferredOutbound, acceptedTransitionCount := map[], [], 0;
    }

    ghost function Now(): State
      reads this
    {
      State(objects, deferredOutbound, acceptedTransitionCount)
    }

    /** Decodes and applies one operation body; when decoding fails nothing changes. */
    method Accept(raw: seq<LittleEndian.byte>, consume: Consume) returns (r: Option<Transition>)
      modifies this
      ensures Now() == After(old(Now()), Inbound(raw), consume)
      ensures r.None? <==> consume(raw).None?
      ensures consume(raw).None? ==> Now() == old(Now())
      ensures r.Some? ==>
                var op := consume(raw).value;
                r.value == Transition(op, OutcomeOf(op), Get(old(objects), KeyOf(op)), Get(objects, KeyOf(op)))
    {
      hide HasFollowUp, Others;
      var decoded := consume(raw);
      if decoded.None? { return None; }
      var operation := decoded.value;
      var outcome := OutcomeOf(operation);
      var key := KeyOf(operation);
      var previous := Get(objects, key);
      if operation.meaning != Unknown && operation.meaning != NoClientAction {
        deferredOutbound := Others(deferredOutbound, key);
      }
      match operation.meaning {
        case Unknown =>
        case NoClientAction =>
        case Remove => objects := objects - {key};
        case _ => objects := objects[key := StateOf(operation)];
      }
      if outcome == DeferredOutbound {
        deferredOutbound := deferredOutbound + [MarkerOf(operation)];
      }
      acceptedTransitionCount := acceptedTransitionCount + 1;
      r := Some(Transition(operation, outcome, previous, Get(objects, key)));
    }

    method TakeDeferredOutbound() returns (taken: seq<Marker>)
      modifies this`deferredOutbound
      ensures taken == old(deferredOutbound) && deferredOutbound == []
    {
      taken := deferredOutbound;
      deferredOutbound := [];
    }

    method ResetRace()
      modifies this
      ensures Now() == FRESH
    {
      objects := map[];
      deferredOutbound := [];
      acceptedTransitionCount := 0;
    }
  }

  /** Plays a whole run; what it hands out at each drain is what was armed since the drain before. */
  method Play(events: seq<Event>, consume: Consume) returns (fsm: ItemClientFsm, ghost drained: seq<seq<Marker>>)
    ensures fresh(fsm) && fsm.Now() == Run(FRESH, events, consume)
    ensures drained == Drained(events, consume)
  {
    hide HasFollowUp, Others, OutcomeOf, Telling;
    fsm := new ItemClientFsm();
    drained := [];
    assert events[..0] == [];
    for i := 0 to |events|
      invariant fresh(fsm) && fsm.Now() == Run(FRESH, events[..i], consume)
      invariant drained == Drained(events[..i], consume)
    {
      assert events[..i + 1][..i] == events[..i];
      match events[i] {
        case Inbound(raw) => var _ := fsm.Accept(raw, consume);
        case Drain =>
          QueueIsArmed(events[..i], consume);
          var taken := fsm.TakeDeferredOutbound();
          drained := drained + [taken];
        case Reset => fsm.ResetRace();
      }
    }
    assert events[..|events|] == events;
  }

  /** What each drain of a run returns. */
  ghost function Drained(events: seq<Event>, consume: Consume): seq<seq<Marker>>
    decreases |events|
  {
    if events == [] then []
    else
      var front := events[..|events| - 1];
      Drained(front, consume) + if events[|events| - 1].Drain? then [Armed(Past(front, consume).pending)] else []
  }
}
