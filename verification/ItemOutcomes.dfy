/** What the item machine's labels, table and queue say, class by class and state by state, over whole runs. */
module ItemOutcomes {
  import opened Text
  import opened ItemFsm

  /** The classes whose operation of a state arms a later one; the time mine's impact stands apart. */
  function ArmedClasses(state: int): set<string> {
    if state == 0 then
      {"GopAngel", "GopGoldShield", "GopCubeForBoss", "GopBigTimebomb", "GopSpecialSmall", "GopSpaceCraft",
       "GopSpecialShield"}
    else if state == 1 then
      {"GopBalloon", "GopHeadBand", "GopBlock", "GopBoundWall", "GopDynamite", "GopHammer", "GopPress",
       "GopRobotBeam", "GopTombStone", "GopCloud", "GopCloud2", "GopSlotLock", "GopStraightRocket", "GopAreaUfo",
       "GopMovingUfo", "GopUfo", "GopShield", "GopThunderbolt", "GopForceZone", "GopOil", "GopSiren", "GopPiratebomb",
       "GopLockdownRocket", "GopTimeMine"} + Bombs() + Twice()
    else if state == 2 then {"GopSpaceCraft", "GopSpecialShield", "GopLockdownRocket"} + Bombs() + Twice()
    else if state == 3 then {"GopTimeMine"} + Bombs()
    else if state in {4, 7, 8} then {"GopLockdownRocket"}
    else {}
  }

  function Bombs(): set<string> {
    {"GopCokebomb", "GopSnowbomb", "GopRollingCokebomb", "GopRollingbomb", "GopWaterMine", "GopItemTimeFlybomb",
     "GopTimeCokebomb", "GopTimeSnowbomb", "GopTimebomb", "GopBossPrison"}
  }

  function Twice(): set<string> {
    {"GopInfectedBomb", "GopRollingInfectedbomb", "GopTimeInfectedBomb", "GopBoundRoad", "GopFalling"}
  }

  /** The operation arms a later one, by its class, state and meaning. */
  predicate Arms(op: Operation) {
    && op.meaning != Unknown
    && (|| op.className in ArmedClasses(op.state)
        || (op.className == "GopTimeMine" && op.state == 2 && op.meaning == Impact))
  }

  /** Which of the labels an operation gets; the immediate one is never given. */
  lemma OutcomeExactly(op: Operation)
    ensures OutcomeOf(op) == UnknownSideEffect <==> op.meaning == Unknown
    ensures OutcomeOf(op) == DeferredOutbound <==> Arms(op)
    ensures OutcomeOf(op) != ImmediateOutbound
    ensures OutcomeOf(op) == LocalOnly || OutcomeOf(op) == DeferredOutbound || OutcomeOf(op) == UnknownSideEffect
  {
  }

  /** Which operations the decoder may label as without action. */
  lemma NoActionExactly(op: Operation)
    ensures var idle := if op.state == 2 then {"GopCube", "GopTargetKart", "GopStraightRocket", "GopSilence"}
                        else if op.state == 3 then {"GopStraightRocket"}
                        else if op.state == 4 then {"GopTimeMine"}
                        else if op.state == 7 then {"GopWaterMine"}
                        else {};
            NoActionBranch(op) <==> op.className == "GopCourse" || op.className in idle
  {
  }

  /** The operation is about an object and says what became of it. */
  predicate About(op: Operation, key: Key) {
    && op.className == key.className && op.objectId == key.objectId
    && op.meaning in {Place, Launch, Activate, Impact, Resolve, Retarget, Remove, UpdateRuntimeFlag}
  }

  /** It is the last of its kind in a history. */
  predicate LastAbout(ops: seq<Operation>, i: nat, key: Key) {
    && i < |ops| && About(ops[i], key)
    && forall j :: i < j < |ops| ==> !About(ops[j], key)
  }

  /**
   After any run an object stands in the table exactly when the last operation about it since the last reset was no
   removal, and then with that operation's state, meaning and details.
   */
  lemma TableTells(events: seq<Event>, consume: Consume, key: Key)
    ensures var ops, table := Past(events, consume).race, Run(FRESH, events, consume).objects;
            && (key in table <==> exists i: nat :: LastAbout(ops, i, key) && ops[i].meaning != Remove)
            && forall i: nat :: LastAbout(ops, i, key) && ops[i].meaning != Remove ==>
                             key in table && table[key] == ObjectState(ops[i].state, ops[i].meaning, ops[i].details)
  {
    hide Run, Past;
    var ops := Past(events, consume).race;
    ObjectsAreReplayed(events, consume, key);
    LastTellingIsLast(ops, key);
    forall i: nat | i < |ops|
      ensures About(ops[i], key) <==> KeyOf(ops[i]) == key && Telling(ops[i])
    {
    }
    if LastTelling(ops, key).Some? {
      var i: nat :| i < |ops| && ops[i] == LastTelling(ops, key).value && KeyOf(ops[i]) == key && Telling(ops[i])
                    && forall j :: i < j < |ops| && KeyOf(ops[j]) == key ==> !Telling(ops[j]);
      assert LastAbout(ops, i, key);
      forall k: nat | LastAbout(ops, k, key)
        ensures k == i
      {
      }
    }
  }

  /** It arms, and no later operation is about its object. */
  predicate Pending(ops: seq<Operation>, i: nat) {
    && i < |ops| && Arms(ops[i])
    && forall j :: i < j < |ops| ==> !About(ops[j], Key(ops[i].className, ops[i].objectId))
  }

  function PendingCount(ops: seq<Operation>, n: nat): nat
    requires n <= |ops|
  {
    if n == 0 then 0 else PendingCount(ops, n - 1) + if Pending(ops, n - 1) then 1 else 0
  }

  lemma PendingIsArmed(ops: seq<Operation>, i: nat)
    requires i < |ops|
    ensures Pending(ops, i) <==> OutcomeOf(ops[i]) == DeferredOutbound && !Superseded(ops, i)
  {
    hide ArmedClasses, HasFollowUp;
    OutcomeExactly(ops[i]);
    assert forall op: Operation, key :: About(op, key) <==> KeyOf(op) == key && Telling(op);
  }

  lemma {:induction false} PendingTail(ops: seq<Operation>, n: nat)
    requires 0 < n <= |ops|
    ensures PendingCount(ops, n) == (if Pending(ops, 0) then 1 else 0) + PendingCount(ops[1..], n - 1)
  {
    hide Arms;
    if n > 1 {
      PendingTail(ops, n - 1);
      assert ops[1..][n - 2] == ops[n - 1];
      assert Pending(ops[1..], n - 2) <==> Pending(ops, n - 1) by {
        forall j | n - 2 < j < |ops[1..]|
          ensures ops[1..][j] == ops[j + 1]
        {
        }
        assert forall j :: n - 1 < j < |ops| ==> ops[j] == ops[1..][j - 1];
      }
    }
  }

  lemma {:induction false} ArmedAt(ops: seq<Operation>, i: nat)
    requires i < |ops|
    ensures |Armed(ops)| == PendingCount(ops, |ops|)
    ensures Pending(ops, i) ==>
              && PendingCount(ops, i) < |Armed(ops)|
              && Armed(ops)[PendingCount(ops, i)]
                 == Marker(Key(ops[i].className, ops[i].objectId), ops[i].state, ops[i].meaning)
    decreases |ops|
  {
    hide Pending, OutcomeOf, Superseded;
    PendingIsArmed(ops, 0);
    PendingTail(ops, |ops|);
    if |ops| > 1 {
      ArmedAt(ops[1..], if i == 0 then 0 else i - 1);
    } else {
      assert Armed(ops[1..]) == [];
    }
    if i > 0 {
      PendingTail(ops, i);
      PendingShifted(ops, i);
    }
  }

  lemma PendingShifted(ops: seq<Operation>, i: nat)
    requires 0 < i < |ops|
    ensures Pending(ops, i) <==> Pending(ops[1..], i - 1)
  {
    hide Arms;
    assert ops[1..][i - 1] == ops[i];
    forall j | i - 1 < j < |ops[1..]|
      ensures ops[1..][j] == ops[j + 1]
    {
    }
    assert forall j :: i < j < |ops| ==> ops[j] == ops[1..][j - 1];
  }

  /**
   After any run the queue holds one marker for each pending operation since it was last taken, in order, and each
   shows its operation's class, object, state and meaning.
   */
  lemma QueueTells(events: seq<Event>, consume: Consume, i: nat)
    ensures var ops, queue := Past(events, consume).pending, Run(FRESH, events, consume).deferred;
            && |queue| == PendingCount(ops, |ops|)
            && (Pending(ops, i) ==>
                  && PendingCount(ops, i) < |queue|
                  && queue[PendingCount(ops, i)]
                     == Marker(Key(ops[i].className, ops[i].objectId), ops[i].state, ops[i].meaning))
  {
    hide Run, Past, Armed, Arms;
    var ops := Past(events, consume).pending;
    QueueIsArmed(events, consume);
    if ops != [] {
      ArmedAt(ops, if i < |ops| then i else 0);
    } else {
      NothingArmed(ops);
    }
  }

  lemma NothingArmed(ops: seq<Operation>)
    requires ops == []
    ensures Armed(ops) == []
  {
  }
}
