/** The client's reader of `GrSlotDataPacket`, its reference writer, and the packets it accepts. */
module Room {
  import opened Text
  import opened LittleEndian
  import opened Reading
  import opened Cursor
  import opened Layout

  const SLOT_DATA_HASH: nat := 0x337C_062D
  const ROOM_SLOTS: nat := 8
  const OBSERVER_SLOTS: nat := 8

  datatype Endpoint = Endpoint(address: seq<byte>, port: int)

  datatype Player = PlayerInfo(
    playerType: int, userNo: int, p2p: Endpoint, secondary: Endpoint, nickname: string,
    emblems: seq<int>, riderItems: seq<byte>, card: string, rp: int, team: int, ranking: int,
    riderSchoolLevel: int, clubName: string, clubMarkLogo: int)

  datatype Ai = AiInfo(character: int, rider: int, kart: int, balloon: int, headBand: int, goggle: int, team: int)

  datatype Member = Empty | Closed(closedType: int) | Human(player: Player) | Computer(ai: Ai)

  datatype Observer = ObserverInfo(playerType: int, userNo: int, p2p: Endpoint, secondary: Endpoint, nickname: string)

  datatype SlotData = SlotData(
    track: int, roomDataHeader: int, roomData: seq<byte>, roomMaster: int, closedSlotIds: seq<byte>,
    members: seq<Member>, observers: seq<Option<Observer>>, slotPositions: seq<int>)

  /** The part of a player row that the reader passes over. */
  datatype PlayerPad = PlayerPad(afterRanking: seq<byte>, counters: seq<int>, beforeSchool: seq<byte>, end: seq<byte>)

  datatype Padding = Padding(head: seq<byte>, afterClosed: seq<byte>, members: seq<PlayerPad>)

  const HEAD: Row := Plain([Nat(4), Nat(4), Raw(32), Int(4), Raw(11)])

  const GAP: Row := Plain([Raw(16)])

  /** The fields of each kind of row, its tag first. */
  const AI: seq<Kind> := [Int(4), Int(2), Int(2), Int(2), Int(2), Int(2), Int(2), Nat(1)]

  const PLAYER: seq<Kind> := [
    Int(4), Nat(4), Raw(4), Nat(2), Raw(4), Nat(2), Name("rider nickname", 32), Nat(2), Nat(2), Nat(2), Raw(65),
    Name("rider card", 128), Nat(4), Nat(1), Int(4), Raw(30), Int(4), Int(4), Int(4), Int(4), Int(4), Raw(4),
    Nat(1), Name("club name", 64), Int(4), Raw(17)]

  const WATCHER: seq<Kind> := [Int(4), Nat(4), Raw(4), Nat(2), Raw(4), Nat(2), Name("observer nickname", 32)]

  const MEMBER: Row := Tagged(map[0 := [], 1 := [], 7 := AI[1..]], PLAYER[1..])

  const OBSERVER: Row := Tagged(map[0 := []], WATCHER[1..])

  const POSITIONS: Row := Plain([Int(4), Int(4), Int(4), Int(4), Int(4), Int(4), Int(4), Int(4)])

  function PlayerOf(vs: seq<Val>): Player {
    PlayerInfo(NumAt(vs, 0), NumAt(vs, 1), Endpoint(BlobAt(vs, 2), NumAt(vs, 3)), Endpoint(BlobAt(vs, 4), NumAt(vs, 5)),
               StrAt(vs, 6), [NumAt(vs, 7), NumAt(vs, 8), NumAt(vs, 9)], BlobAt(vs, 10), StrAt(vs, 11), NumAt(vs, 12),
               NumAt(vs, 13), NumAt(vs, 14), NumAt(vs, 22), StrAt(vs, 23), NumAt(vs, 24))
  }

  function PlayerPadOf(vs: seq<Val>): PlayerPad {
    PlayerPad(BlobAt(vs, 15), [NumAt(vs, 16), NumAt(vs, 17), NumAt(vs, 18), NumAt(vs, 19), NumAt(vs, 20)],
              BlobAt(vs, 21), BlobAt(vs, 25))
  }

  function AiOf(vs: seq<Val>): Ai {
    AiInfo(NumAt(vs, 1), NumAt(vs, 2), NumAt(vs, 3), NumAt(vs, 4), NumAt(vs, 5), NumAt(vs, 6), NumAt(vs, 7))
  }

  /** The discriminant selects what the row is. */
  function MemberOf(vs: seq<Val>): Member {
    var tag := NumAt(vs, 0);
    if tag == 0 then Empty
    else if tag == 1 then Closed(tag)
    else if tag == 7 then Computer(AiOf(vs))
    else Human(PlayerOf(vs))
  }

  function ObserverOf(vs: seq<Val>): Option<Observer> {
    if NumAt(vs, 0) == 0 then None
    else Some(ObserverInfo(NumAt(vs, 0), NumAt(vs, 1), Endpoint(BlobAt(vs, 2), NumAt(vs, 3)),
                           Endpoint(BlobAt(vs, 4), NumAt(vs, 5)), StrAt(vs, 6)))
  }

  // ----------------------------------------------------- writing the rows

  function PlayerFields(p: Player, pad: PlayerPad): seq<Val>
    requires |p.emblems| == 3 && |pad.counters| == 5
  {
    [Num(p.playerType), Num(p.userNo), Blob(p.p2p.address), Num(p.p2p.port), Blob(p.secondary.address),
     Num(p.secondary.port), Str(p.nickname), Num(p.emblems[0]), Num(p.emblems[1]), Num(p.emblems[2]),
     Blob(p.riderItems), Str(p.card), Num(p.rp), Num(p.team), Num(p.ranking), Blob(pad.afterRanking),
     Num(pad.counters[0]), Num(pad.counters[1]), Num(pad.counters[2]), Num(pad.counters[3]), Num(pad.counters[4]),
     Blob(pad.beforeSchool), Num(p.riderSchoolLevel), Str(p.clubName), Num(p.clubMarkLogo), Blob(pad.end)]
  }

  function AiFields(a: Ai): seq<Val> {
    [Num(7), Num(a.character), Num(a.rider), Num(a.kart), Num(a.balloon), Num(a.headBand), Num(a.goggle), Num(a.team)]
  }

  /** A member can be written when its discriminant is its own and its fixed arrays have their lengths. */
  predicate Writable(m: Member, pad: PlayerPad) {
    match m
    case Empty => true
    case Closed(t) => t == 1
    case Computer(_) => true
    case Human(p) =>
      && p.playerType != 0 && p.playerType != 1 && p.playerType != 7
      && |p.emblems| == 3 && |pad.counters| == 5
  }

  function MemberFields(m: Member, pad: PlayerPad): seq<Val>
    requires Writable(m, pad)
  {
    match m
    case Empty => [Num(0)]
    case Closed(t) => [Num(t)]
    case Computer(a) => AiFields(a)
    case Human(p) => PlayerFields(p, pad)
  }

  function ObserverFields(o: Option<Observer>): seq<Val> {
    match o
    case None => [Num(0)]
    case Some(w) =>
      [Num(w.playerType), Num(w.userNo), Blob(w.p2p.address), Num(w.p2p.port), Blob(w.secondary.address),
       Num(w.secondary.port), Str(w.nickname)]
  }

  // ------------------------------------------------------- rows of a packet

  /** All field values of a packet behind its hash. */
  datatype Rows = Rows(
    head: seq<Val>, closed: seq<byte>, gap: seq<Val>, members: seq<seq<Val>>, observers: seq<seq<Val>>,
        positions: seq<Val>)

  predicate RowsFit(rows: Rows) {
    && RowSuits(rows.head, HEAD) && RowSuits(rows.gap, GAP) && RowSuits(rows.positions, POSITIONS)
    && RowsSuit(rows.members, MEMBER) && RowsSuit(rows.observers, OBSERVER)
    && |rows.closed| <= ROOM_SLOTS && |rows.members| == ROOM_SLOTS && |rows.observers| == OBSERVER_SLOTS
  }

  function ClosedImage(closed: seq<byte>): seq<byte> {
    Digits(|closed|, 4) + closed
  }

  function SeatsImage(rows: Rows): seq<byte>
    requires RowsFit(rows)
  {
    RowsImage(rows.members, MEMBER) + (RowsImage(rows.observers, OBSERVER) + RowImage(rows.positions, POSITIONS))
  }

  function RowsPacket(rows: Rows): seq<byte>
    requires RowsFit(rows)
  {
    Digits(SLOT_DATA_HASH, 4)
    + (RowImage(rows.head, HEAD) + (ClosedImage(rows.closed) + (RowImage(rows.gap, GAP) + SeatsImage(rows))))
  }

  function ReadClosed(packet: seq<byte>, at: nat): Read<seq<byte>> {
    match ReadCount(packet, at, "closed slot", ROOM_SLOTS)
    case Failed(e) => Failed(e)
    case Got(count, next) => Bytes(packet, next, count)
  }

  function ReadSeats(packet: seq<byte>, at: nat, head: seq<Val>, closed: seq<byte>, gap: seq<Val>): Read<Rows> {
    match ReadRows(packet, at, MEMBER, ROOM_SLOTS, [])
    case Failed(e) => Failed(e)
    case Got(members, next) =>
      match ReadRows(packet, next, OBSERVER, OBSERVER_SLOTS, [])
      case Failed(e) => Failed(e)
      case Got(observers, tail) =>
        match ReadRow(packet, tail, POSITIONS)
        case Failed(e) => Failed(e)
        case Got(positions, end) => Got(Rows(head, closed, gap, members, observers, positions), end)
  }

  function ReadBody(packet: seq<byte>, at: nat): Read<Rows> {
    match ReadRow(packet, at, HEAD)
    case Failed(e) => Failed(e)
    case Got(head, next) =>
      match ReadClosed(packet, next)
      case Failed(e) => Failed(e)
      case Got(closed, middle) =>
        match ReadRow(packet, middle, GAP)
        case Failed(e) => Failed(e)
        case Got(gap, seats) => ReadSeats(packet, seats, head, closed, gap)
  }

  function ReadPacket(packet: seq<byte>): Read<Rows> {
    match ReadHash(packet, 0, "GrSlotDataPacket", SLOT_DATA_HASH)
    case Failed(e) => Failed(e)
    case Got(_, next) => ReadBody(packet, next)
  }

  function PositionsOf(vs: seq<Val>): seq<int> {
    [NumAt(vs, 0), NumAt(vs, 1), NumAt(vs, 2), NumAt(vs, 3), NumAt(vs, 4), NumAt(vs, 5), NumAt(vs, 6), NumAt(vs, 7)]
  }

  function SlotDataOf(rows: Rows): SlotData {
    SlotData(NumAt(rows.head, 0), NumAt(rows.head, 1), BlobAt(rows.head, 2), NumAt(rows.head, 3), rows.closed,
             seq(|rows.members|, i requires 0 <= i < |rows.members| => MemberOf(rows.members[i])),
             seq(|rows.observers|, i requires 0 <= i < |rows.observers| => ObserverOf(rows.observers[i])),
             PositionsOf(rows.positions))
  }

  /** What `decode_slot_data` returns. */
  function Decoded(packet: seq<byte>): Result<SlotData> {
    match ReadPacket(packet)
    case Failed(e) => Err(e)
    case Got(rows, end) =>
      if end >= |packet| then Ok(SlotDataOf(rows)) else Err(TrailingBytes(end, |packet| - end))
  }

  // -------------------------------------------------------- reference writer

  predicate Arrays(d: SlotData, p: Padding) {
    && |d.slotPositions| == ROOM_SLOTS && |p.members| == |d.members|
    && forall i :: 0 <= i < |d.members| ==> Writable(d.members[i], p.members[i])
  }

  function RowsOf(d: SlotData, p: Padding): Rows
    requires Arrays(d, p)
  {
    var s := d.slotPositions;
    Rows([Num(d.track), Num(d.roomDataHeader), Blob(d.roomData), Num(d.roomMaster), Blob(p.head)],
         d.closedSlotIds,
         [Blob(p.afterClosed)],
         seq(|d.members|, i requires 0 <= i < |d.members| => MemberFields(d.members[i], p.members[i])),
         seq(|d.observers|, i requires 0 <= i < |d.observers| => ObserverFields(d.observers[i])),
         [Num(s[0]), Num(s[1]), Num(s[2]), Num(s[3]), Num(s[4]), Num(s[5]), Num(s[6]), Num(s[7])])
  }

  /** Arrays of the right lengths, fields in their ranges, names within their limits, at most eight closed slots. */
  predicate Fits(d: SlotData, p: Padding) {
    Arrays(d, p) && RowsFit(RowsOf(d, p))
  }

  function Packet(d: SlotData, p: Padding): seq<byte>
    requires Fits(d, p)
  {
    RowsPacket(RowsOf(d, p))
  }

  // -------------------------------------------------------------- exactness

  lemma RowsValid()
    ensures HEAD.Valid() && GAP.Valid() && MEMBER.Valid() && OBSERVER.Valid() && POSITIONS.Valid()
  {
  }

  lemma ClosedRead(packet: seq<byte>, at: nat, closed: seq<byte>)
    requires |closed| <= ROOM_SLOTS && Shows(packet, at, ClosedImage(closed))
    ensures ReadClosed(packet, at) == Got(closed, at + |ClosedImage(closed)|)
  {
    hide Digits, ReadCount;
    ShowsSplit(packet, at, Digits(|closed|, 4), closed);
    CountRead(packet, at, |closed|, "closed slot", ROOM_SLOTS);
  }

  lemma ClosedAccepted(packet: seq<byte>, at: nat)
    requires ReadClosed(packet, at).Got?
    ensures var r := ReadClosed(packet, at);
            |r.value| <= ROOM_SLOTS && r.at == at + |ClosedImage(r.value)| && Shows(packet, at, ClosedImage(r.value))
  {
    hide Digits, ReadCount;
    CountAccepted(packet, at, "closed slot", ROOM_SLOTS);
    var closed := ReadClosed(packet, at).value;
    ShowsSplit(packet, at, Digits(|closed|, 4), closed);
  }

  lemma SeatsRead(packet: seq<byte>, at: nat, rows: Rows)
    requires RowsFit(rows) && Shows(packet, at, SeatsImage(rows))
    ensures ReadSeats(packet, at, rows.head, rows.closed, rows.gap) == Got(rows, at + |SeatsImage(rows)|)
  {
    hide RowSuits, RowsSuit, RowImage, RowsImage, ReadRow, ReadRows, Shows;
    var members, observers := RowsImage(rows.members, MEMBER), RowsImage(rows.observers, OBSERVER);
    var positions := RowImage(rows.positions, POSITIONS);
    ShowsSplit(packet, at, members, observers + positions);
    ShowsSplit(packet, at + |members|, observers, positions);
    RowsRead(packet, at, MEMBER, rows.members, []);
    RowsRead(packet, at + |members|, OBSERVER, rows.observers, []);
    RowRead(packet, at + |members| + |observers|, rows.positions, POSITIONS);
    assert [] + rows.members == rows.members && [] + rows.observers == rows.observers;
  }

  lemma SeatsAccepted(packet: seq<byte>, at: nat, head: seq<Val>, closed: seq<byte>, gap: seq<Val>)
    requires ReadSeats(packet, at, head, closed, gap).Got? && at <= |packet|
    requires RowSuits(head, HEAD) && RowSuits(gap, GAP) && |closed| <= ROOM_SLOTS
    ensures var r := ReadSeats(packet, at, head, closed, gap);
            && RowsFit(r.value) && r.value.head == head && r.value.closed == closed && r.value.gap == gap
            && r.at == at + |SeatsImage(r.value)| && Shows(packet, at, SeatsImage(r.value))
  {
    hide RowSuits, RowsSuit, RowImage, RowsImage, ReadRow, ReadRows, Shows;
    RowsValid();
    var r := ReadSeats(packet, at, head, closed, gap).value;
    RowsAccepted(packet, at, MEMBER, ROOM_SLOTS, []);
    assert r.members[0..] == r.members && r.observers[0..] == r.observers;
    var members := RowsImage(r.members, MEMBER);
    ShowsMeans(packet, at, members);
    RowsAccepted(packet, at + |members|, OBSERVER, OBSERVER_SLOTS, []);
    var observers := RowsImage(r.observers, OBSERVER);
    ShowsMeans(packet, at + |members|, observers);
    RowAccepted(packet, at + |members| + |observers|, POSITIONS);
    var positions := RowImage(r.positions, POSITIONS);
    ShowsSplit(packet, at + |members|, observers, positions);
    ShowsSplit(packet, at, members, observers + positions);
  }

  lemma BodyRead(packet: seq<byte>, rows: Rows)
    requires RowsFit(rows) && Shows(packet, 0, RowsPacket(rows))
    ensures ReadPacket(packet) == Got(rows, |RowsPacket(rows)|)
  {
    hide RowSuits, RowsSuit, RowImage, SeatsImage, ClosedImage, ReadRow, ReadSeats, ReadClosed, ReadHash, Shows, Digits;
    var hash, head, closed := Digits(SLOT_DATA_HASH, 4), RowImage(rows.head, HEAD), ClosedImage(rows.closed);
    var gap, seats := RowImage(rows.gap, GAP), SeatsImage(rows);
    ShowsSplit(packet, 0, hash, head + (closed + (gap + seats)));
    ShowsSplit(packet, 4, head, closed + (gap + seats));
    ShowsSplit(packet, 4 + |head|, closed, gap + seats);
    ShowsSplit(packet, 4 + |head| + |closed|, gap, seats);
    HashRead(packet, 0, "GrSlotDataPacket", SLOT_DATA_HASH);
    RowRead(packet, 4, rows.head, HEAD);
    ClosedRead(packet, 4 + |head|, rows.closed);
    RowRead(packet, 4 + |head| + |closed|, rows.gap, GAP);
    SeatsRead(packet, 4 + |head| + |closed| + |gap|, rows);
  }

  lemma PacketAccepted(packet: seq<byte>)
    requires ReadPacket(packet).Got?
    ensures var r := ReadPacket(packet);
            RowsFit(r.value) && r.at == |RowsPacket(r.value)| && Shows(packet, 0, RowsPacket(r.value))
  {
    hide RowSuits, RowsSuit, RowImage, SeatsImage, ClosedImage, ReadRow, ReadSeats, ReadClosed, ReadHash, Shows, Digits;
    RowsValid();
    HashRead(packet, 0, "GrSlotDataPacket", SLOT_DATA_HASH);
    var hash := Digits(SLOT_DATA_HASH, 4);
    ShowsMeans(packet, 0, hash);
    RowAccepted(packet, 4, HEAD);
    var r := ReadPacket(packet).value;
    var headValue := ReadRow(packet, 4, HEAD);
    var head := RowImage(headValue.value, HEAD);
    ShowsMeans(packet, 4, head);
    ClosedAccepted(packet, 4 + |head|);
    var closedValue := ReadClosed(packet, 4 + |head|);
    var closed := ClosedImage(closedValue.value);
    ShowsMeans(packet, 4 + |head|, closed);
    RowAccepted(packet, 4 + |head| + |closed|, GAP);
    var gapValue := ReadRow(packet, 4 + |head| + |closed|, GAP);
    var gap := RowImage(gapValue.value, GAP);
    ShowsMeans(packet, 4 + |head| + |closed|, gap);
    SeatsAccepted(packet, gapValue.at, headValue.value, closedValue.value, gapValue.value);
    var seats := SeatsImage(r);
    ShowsSplit(packet, 4 + |head| + |closed|, gap, seats);
    ShowsSplit(packet, 4 + |head|, closed, gap + seats);
    ShowsSplit(packet, 4, head, closed + (gap + seats));
    ShowsSplit(packet, 0, hash, head + (closed + (gap + seats)));
  }

  // -------------------------------------------------------- records and rows

  /** A tagged row holds its tag and then the fields that the tag selects. */
  lemma TagOf(vs: seq<Val>, row: Row, ks: seq<Kind>)
    requires RowSuits(vs, row) && row.Tagged?
    requires ks != [] && ks[0] == Int(4) && ks[1..] == row.Shape(NumAt(vs, 0))
    ensures AllSuit(vs, ks) && |vs| == |ks| && vs[0] == Num(NumAt(vs, 0))
  {
  }

  lemma PlayerExact(vs: seq<Val>)
    requires AllSuit(vs, PLAYER)
    ensures PlayerFields(PlayerOf(vs), PlayerPadOf(vs)) == vs
  {
    hide AllSuit, Suits, NumAt, BlobAt, StrAt;
    var ks := PLAYER;
    var back := PlayerFields(PlayerOf(vs), PlayerPadOf(vs));
    SuitsAt(vs, ks, 0);
    forall i | 0 <= i < |ks|
      ensures back[i] == vs[i]
    {
      SuitsAt(vs, ks, i);
    }
  }

  lemma AiExact(vs: seq<Val>)
    requires AllSuit(vs, AI) && vs[0] == Num(7)
    ensures AiFields(AiOf(vs)) == vs
  {
  }

  lemma MemberExact(vs: seq<Val>)
    requires RowSuits(vs, MEMBER)
    ensures Writable(MemberOf(vs), PlayerPadOf(vs)) && MemberFields(MemberOf(vs), PlayerPadOf(vs)) == vs
  {
    hide AllSuit, RowSuits, Suits, NumAt, BlobAt, StrAt, PlayerFields, AiFields, AiOf;
    var tag := NumAt(vs, 0);
    if tag == 0 || tag == 1 {
      TagOf(vs, MEMBER, [Int(4)]);
      assert vs == [Num(tag)];
    } else if tag == 7 {
      TagOf(vs, MEMBER, AI);
      AiExact(vs);
    } else {
      TagOf(vs, MEMBER, PLAYER);
      PlayerExact(vs);
    }
  }

  lemma WatcherExact(vs: seq<Val>)
    requires AllSuit(vs, WATCHER) && NumAt(vs, 0) != 0
    ensures ObserverFields(ObserverOf(vs)) == vs
  {
  }

  lemma ObserverExact(vs: seq<Val>)
    requires RowSuits(vs, OBSERVER)
    ensures ObserverFields(ObserverOf(vs)) == vs
  {
    hide AllSuit, RowSuits, Suits, NumAt, BlobAt, StrAt;
    if NumAt(vs, 0) == 0 {
      TagOf(vs, OBSERVER, [Int(4)]);
      assert vs == [Num(0)];
    } else {
      TagOf(vs, OBSERVER, WATCHER);
      WatcherExact(vs);
    }
  }

  lemma HeadExact(vs: seq<Val>)
    requires RowSuits(vs, HEAD)
    ensures vs == [Num(NumAt(vs, 0)), Num(NumAt(vs, 1)), Blob(BlobAt(vs, 2)), Num(NumAt(vs, 3)), Blob(BlobAt(vs, 4))]
  {
  }

  lemma PositionsExact(vs: seq<Val>)
    requires RowSuits(vs, POSITIONS)
    ensures var s := PositionsOf(vs);
            vs == [Num(s[0]), Num(s[1]), Num(s[2]), Num(s[3]), Num(s[4]), Num(s[5]), Num(s[6]), Num(s[7])]
  {
  }

  lemma GapExact(vs: seq<Val>)
    requires RowSuits(vs, GAP)
    ensures vs == [Blob(BlobAt(vs, 0))]
  {
  }

  function PaddingOf(rows: Rows): Padding {
    Padding(BlobAt(rows.head, 4), BlobAt(rows.gap, 0),
            seq(|rows.members|, i requires 0 <= i < |rows.members| => PlayerPadOf(rows.members[i])))
  }

  lemma RowsExact(rows: Rows)
    requires RowsFit(rows)
    ensures Arrays(SlotDataOf(rows), PaddingOf(rows)) && RowsOf(SlotDataOf(rows), PaddingOf(rows)) == rows
  {
    hide MemberFields, MemberOf, Writable, PlayerPadOf, ObserverFields, ObserverOf, RowSuits, NumAt, BlobAt;
    var d, p := SlotDataOf(rows), PaddingOf(rows);
    forall i | 0 <= i < |d.members|
      ensures Writable(d.members[i], p.members[i]) && MemberFields(d.members[i], p.members[i]) == rows.members[i]
    {
      MemberExact(rows.members[i]);
    }
    forall i | 0 <= i < |d.observers|
      ensures ObserverFields(d.observers[i]) == rows.observers[i]
    {
      ObserverExact(rows.observers[i]);
    }
    HeadExact(rows.head);
    GapExact(rows.gap);
    PositionsExact(rows.positions);
    var back := RowsOf(d, p);
    assert back.members == rows.members;
    assert back.observers == rows.observers;
  }

  lemma MemberBack(m: Member, pad: PlayerPad)
    requires Writable(m, pad)
    ensures MemberOf(MemberFields(m, pad)) == m
  {
    hide PlayerFields, PlayerOf, AiFields, AiOf, NumAt;
    if m.Human? {
      PlayerBack(m.player, pad);
      PlayerTag(m.player, pad);
    } else {
      if m.Computer? { AiBack(m.ai); }
      TagBack(m, pad);
    }
  }

  lemma PlayerBack(p: Player, pad: PlayerPad)
    requires |p.emblems| == 3 && |pad.counters| == 5
    ensures PlayerOf(PlayerFields(p, pad)) == p
  {
    hide PlayerFields;
    var back := PlayerOf(PlayerFields(p, pad));
    PlayerHead(p, pad);
    PlayerTail(p, pad);
    assert back.emblems == [p.emblems[0], p.emblems[1], p.emblems[2]] == p.emblems;
  }

  lemma PlayerHead(p: Player, pad: PlayerPad)
    requires |p.emblems| == 3 && |pad.counters| == 5
    ensures var vs := PlayerFields(p, pad);
            && NumAt(vs, 0) == p.playerType && NumAt(vs, 1) == p.userNo
            && BlobAt(vs, 2) == p.p2p.address && NumAt(vs, 3) == p.p2p.port
            && BlobAt(vs, 4) == p.secondary.address && NumAt(vs, 5) == p.secondary.port && StrAt(vs, 6) == p.nickname
            && NumAt(vs, 7) == p.emblems[0] && NumAt(vs, 8) == p.emblems[1] && NumAt(vs, 9) == p.emblems[2]
  {
  }

  lemma PlayerTail(p: Player, pad: PlayerPad)
    requires |p.emblems| == 3 && |pad.counters| == 5
    ensures var vs := PlayerFields(p, pad);
            && BlobAt(vs, 10) == p.riderItems && StrAt(vs, 11) == p.card && NumAt(vs, 12) == p.rp
            && NumAt(vs, 13) == p.team && NumAt(vs, 14) == p.ranking && NumAt(vs, 22) == p.riderSchoolLevel
            && StrAt(vs, 23) == p.clubName && NumAt(vs, 24) == p.clubMarkLogo
  {
  }

  lemma PlayerTag(p: Player, pad: PlayerPad)
    requires |p.emblems| == 3 && |pad.counters| == 5
    ensures NumAt(PlayerFields(p, pad), 0) == p.playerType
  {
  }

  lemma AiBack(a: Ai)
    ensures AiOf(AiFields(a)) == a
  {
  }

  lemma TagBack(m: Member, pad: PlayerPad)
    requires Writable(m, pad) && !m.Human?
    ensures NumAt(MemberFields(m, pad), 0) == match m case Empty => 0 case Closed(t) => t case Computer(_) => 7
  {
  }

  lemma ObserverBack(o: Option<Observer>)
    requires RowSuits(ObserverFields(o), OBSERVER)
    ensures ObserverOf(ObserverFields(o)) == o
  {
  }

  lemma SlotDataBack(d: SlotData, p: Padding)
    requires Fits(d, p)
    ensures SlotDataOf(RowsOf(d, p)) == d
  {
    hide MemberFields, MemberOf, Writable, ObserverFields, ObserverOf, RowSuits;
    var rows := RowsOf(d, p);
    var back := SlotDataOf(rows);
    forall i | 0 <= i < |d.members|
      ensures back.members[i] == d.members[i]
    {
      MemberBack(d.members[i], p.members[i]);
    }
    forall i | 0 <= i < |d.observers|
      ensures back.observers[i] == d.observers[i]
    {
      assert RowSuits(rows.observers[i], OBSERVER);
      ObserverBack(d.observers[i]);
    }
    assert back.members == d.members;
    assert back.observers == d.observers;
    assert back.slotPositions == d.slotPositions;
  }

  // ----------------------------------------------------------------- theorems

  /** Decoding what the reference writer wrote gives the snapshot back, whatever the opaque bytes are. */
  lemma RoundTrip(d: SlotData, p: Padding)
    requires Fits(d, p)
    ensures Decoded(Packet(d, p)) == Ok(d)
  {
    hide RowsFit, Arrays, RowsPacket, ReadPacket, SlotDataOf, RowsOf;
    var packet := Packet(d, p);
    assert packet[0..0 + |packet|] == packet;
    ShowsMeans(packet, 0, packet);
    BodyRead(packet, RowsOf(d, p));
    SlotDataBack(d, p);
  }

  /** Every packet `decode_slot_data` accepts is such an output. */
  lemma Accepted(packet: seq<byte>)
    requires Decoded(packet).Ok?
    ensures exists p :: Fits(Decoded(packet).value, p) && packet == Packet(Decoded(packet).value, p)
  {
    hide RowsFit, Arrays, RowsPacket, ReadPacket, SlotDataOf, RowsOf, PaddingOf;
    PacketAccepted(packet);
    var r := ReadPacket(packet);
    RowsExact(r.value);
    ShowsMeans(packet, 0, RowsPacket(r.value));
    assert packet[0..|packet|] == packet;
    var p := PaddingOf(r.value);
    assert Fits(Decoded(packet).value, p) && packet == Packet(Decoded(packet).value, p);
  }

  /** No accepted packet is a proper prefix of another. */
  lemma PrefixFree(p: seq<byte>, q: seq<byte>)
    requires Decoded(p).Ok? && Decoded(q).Ok? && p <= q
    ensures p == q
  {
    hide RowsFit, RowsPacket, ReadPacket, SlotDataOf;
    PacketAccepted(p);
    var r := ReadPacket(p);
    ShowsMeans(p, 0, RowsPacket(r.value));
    ShowsMeans(q, 0, RowsPacket(r.value));
    assert q[0..|p|] == p[0..|p|];
    BodyRead(q, r.value);
  }

  /** A snapshot always has eight seats, eight observer places and at most eight closed slots. */
  lemma AcceptedSeats(packet: seq<byte>)
    requires Decoded(packet).Ok?
    ensures var d := Decoded(packet).value;
            && |d.members| == 8 && |d.observers| == 8 && |d.slotPositions| == 8 && |d.closedSlotIds| <= 8
  {
    hide ReadPacket;
    PacketAccepted(packet);
  }

  // ------------------------------------------------------------------ decode

  method ReadMember(reader: PacketCursor) returns (r: Result<Member>, ghost vs: seq<Val>)
    modifies reader
    ensures match ReadRow(reader.bytes, old(reader.offset), MEMBER)
            case Failed(e) => r == Err(e)
            case Got(row, at) => vs == row && r == Ok(MemberOf(row)) && reader.offset == at
  {
    hide MemberOf, ReadFields;
    vs := [];
    var row :- TakeRow(reader, MEMBER);
    vs := row;
    r := Ok(MemberOf(row));
  }

  method ReadObserver(reader: PacketCursor) returns (r: Result<Option<Observer>>, ghost vs: seq<Val>)
    modifies reader
    ensures match ReadRow(reader.bytes, old(reader.offset), OBSERVER)
            case Failed(e) => r == Err(e)
            case Got(row, at) => vs == row && r == Ok(ObserverOf(row)) && reader.offset == at
  {
    hide ObserverOf, ReadFields;
    vs := [];
    var row :- TakeRow(reader, OBSERVER);
    vs := row;
    r := Ok(ObserverOf(row));
  }

  ghost predicate MembersFrom(members: seq<Member>, rows: seq<seq<Val>>) {
    |members| == |rows| && forall i :: 0 <= i < |rows| ==> members[i] == MemberOf(rows[i])
  }

  ghost predicate ObserversFrom(observers: seq<Option<Observer>>, rows: seq<seq<Val>>) {
    |observers| == |rows| && forall i :: 0 <= i < |rows| ==> observers[i] == ObserverOf(rows[i])
  }

  method Members(reader: PacketCursor) returns (r: Result<seq<Member>>, ghost rows: seq<seq<Val>>)
    modifies reader
    ensures match ReadRows(reader.bytes, old(reader.offset), MEMBER, ROOM_SLOTS, [])
            case Failed(e) => r == Err(e)
            case Got(vss, at) => rows == vss && r.Ok? && MembersFrom(r.value, vss) && reader.offset == at
  {
    hide MemberOf, ReadRow;
    rows := [];
    var members: seq<Member> := [];
    ghost var start := reader.offset;
    for i := 0 to ROOM_SLOTS
      invariant MembersFrom(members, rows)
      invariant ReadRows(reader.bytes, start, MEMBER, ROOM_SLOTS, [])
            == ReadRows(reader.bytes, reader.offset, MEMBER, ROOM_SLOTS - i, rows)
    {
      var member, vs := ReadMember(reader);
      if member.Err? { return Err(member.error), rows; }
      rows := rows + [vs];
      members := members + [member.value];
    }
    r := Ok(members);
  }

  method Observers(reader: PacketCursor) returns (r: Result<seq<Option<Observer>>>, ghost rows: seq<seq<Val>>)
    modifies reader
    ensures match ReadRows(reader.bytes, old(reader.offset), OBSERVER, OBSERVER_SLOTS, [])
            case Failed(e) => r == Err(e)
            case Got(vss, at) => rows == vss && r.Ok? && ObserversFrom(r.value, vss) && reader.offset == at
  {
    hide ObserverOf, ReadRow;
    rows := [];
    var observers: seq<Option<Observer>> := [];
    ghost var start := reader.offset;
    for i := 0 to OBSERVER_SLOTS
      invariant ObserversFrom(observers, rows)
      invariant ReadRows(reader.bytes, start, OBSERVER, OBSERVER_SLOTS, [])
            == ReadRows(reader.bytes, reader.offset, OBSERVER, OBSERVER_SLOTS - i, rows)
    {
      var observer, vs := ReadObserver(reader);
      if observer.Err? { return Err(observer.error), rows; }
      rows := rows + [vs];
      observers := observers + [observer.value];
    }
    r := Ok(observers);
  }

  method DecodeSlotData(packet: seq<byte>) returns (r: Result<SlotData>)
    ensures r == Decoded(packet)
  {
    hide ReadHash, ReadCount, ReadRows, ReadRow, MemberOf, ObserverOf, NumAt, BlobAt;
    var reader := new PacketCursor(packet);
    var _ :- reader.ExpectHash("GrSlotDataPacket", SLOT_DATA_HASH);
    var head :- TakeRow(reader, HEAD);
    var closedCount :- reader.Count("closed slot", ROOM_SLOTS);
    var closed :- reader.Take(closedCount);
    var gap :- TakeRow(reader, GAP);
    var members, memberRows := Members(reader);
    if members.Err? { return Err(members.error); }
    var observers, observerRows := Observers(reader);
    if observers.Err? { return Err(observers.error); }
    var positions :- TakeRow(reader, POSITIONS);
    var _ :- reader.Finish();
    r := Ok(SlotData(NumAt(head, 0), NumAt(head, 1), BlobAt(head, 2), NumAt(head, 3), closed,
                     members.value, observers.value, PositionsOf(positions)));
    ghost var rows := Rows(head, closed, gap, memberRows, observerRows, positions);
    assert r.value.members == SlotDataOf(rows).members;
    assert r.value.observers == SlotDataOf(rows).observers;
  }
}
