/** The client's reader of `GameResultPacket`, its reference writer, and the packets it accepts. */
module GameResult {
  import opened LittleEndian
  import opened Reading
  import opened Cursor
  import opened Layout

  const PACKET_HASH: nat := 0x345C_0651
  const MAX_PARTICIPANTS: nat := 8

  datatype HumanResult = HumanResult(
    playerId: int, finishTime: int, kartId: int, rank: int, teamModeMarker: int,
    currentRp: int, earnedRp: int, earnedLucci: int, currentLucci: int,
    team: int, teamPoints: int, resultMarker: int, characterId: int, displayMarker: int, clubMarkLogo: int)

  datatype AiResult = AiResult(
    playerId: int, finishTime: int, kartId: int, rank: int, teamModeMarker: int, team: int, teamPoints: int)

  datatype GameResult = GameResult(
    winningTeam: int, humans: seq<HumanResult>, ais: seq<AiResult>, terminalMarker: int, terminalStatus: int)

  /** The bytes of a human row that the reader passes over. */
  datatype HumanPad = HumanPad(
    afterTime: seq<byte>, afterMode: seq<byte>, beforeTeam: seq<byte>, afterPoints: seq<byte>,
    afterMarker: seq<byte>, afterCharacter: seq<byte>, afterDisplay: seq<byte>, end: seq<byte>)

  /** Everything in a packet that its result does not show. */
  datatype Padding = Padding(humans: seq<HumanPad>, ais: seq<seq<byte>>, stage: seq<byte>)

  const HUMAN: Row := Plain([
    Int(4), Nat(4), Raw(1), Nat(2), Int(4), Int(2), Raw(1), Nat(4), Nat(4), Nat(4), Nat(4), Raw(29),
    Nat(1), Int(4), Raw(12), Int(4), Raw(1), Nat(2), Raw(49), Nat(1), Raw(37), Int(4), Raw(34)])

  const AI: Row := Plain([Int(4), Nat(4), Raw(1), Int(2), Int(4), Int(2), Nat(1), Int(4)])

  const STAGE: Row := Plain([Raw(34), Nat(4), Nat(1)])

  function HumanOf(vs: seq<Val>): HumanResult {
    HumanResult(NumAt(vs, 0), NumAt(vs, 1), NumAt(vs, 3), NumAt(vs, 4), NumAt(vs, 5),
                NumAt(vs, 7), NumAt(vs, 8), NumAt(vs, 9), NumAt(vs, 10),
                NumAt(vs, 12), NumAt(vs, 13), NumAt(vs, 15), NumAt(vs, 17), NumAt(vs, 19), NumAt(vs, 21))
  }

  function HumanPadOf(vs: seq<Val>): HumanPad {
    HumanPad(BlobAt(vs, 2), BlobAt(vs, 6), BlobAt(vs, 11), BlobAt(vs, 14),
             BlobAt(vs, 16), BlobAt(vs, 18), BlobAt(vs, 20), BlobAt(vs, 22))
  }

  function HumanFields(h: HumanResult, p: HumanPad): seq<Val> {
    [Num(h.playerId), Num(h.finishTime), Blob(p.afterTime), Num(h.kartId), Num(h.rank), Num(h.teamModeMarker),
     Blob(p.afterMode), Num(h.currentRp), Num(h.earnedRp), Num(h.earnedLucci), Num(h.currentLucci),
     Blob(p.beforeTeam), Num(h.team), Num(h.teamPoints), Blob(p.afterPoints), Num(h.resultMarker),
     Blob(p.afterMarker), Num(h.characterId), Blob(p.afterCharacter), Num(h.displayMarker),
     Blob(p.afterDisplay), Num(h.clubMarkLogo), Blob(p.end)]
  }

  function AiOf(vs: seq<Val>): AiResult {
    AiResult(NumAt(vs, 0), NumAt(vs, 1), NumAt(vs, 3), NumAt(vs, 4), NumAt(vs, 5), NumAt(vs, 6), NumAt(vs, 7))
  }

  function AiFields(a: AiResult, pad: seq<byte>): seq<Val> {
    [Num(a.playerId), Num(a.finishTime), Blob(pad), Num(a.kartId), Num(a.rank), Num(a.teamModeMarker),
     Num(a.team), Num(a.teamPoints)]
  }

  // ------------------------------------------------------- rows of a packet

  /** All field values of a packet behind its hash. */
  datatype Rows = Rows(winner: Val, humans: seq<seq<Val>>, ais: seq<seq<Val>>, stage: seq<Val>)

  predicate RowsFit(rows: Rows) {
    && Suits(rows.winner, Nat(1)) && RowSuits(rows.stage, STAGE)
    && RowsSuit(rows.humans, HUMAN) && RowsSuit(rows.ais, AI)
    && |rows.humans| + |rows.ais| <= MAX_PARTICIPANTS
  }

  function AisImage(rows: Rows): seq<byte>
    requires RowsFit(rows)
  {
    CountedImage(rows.ais, AI) + RowImage(rows.stage, STAGE)
  }

  function HumansImage(rows: Rows): seq<byte>
    requires RowsFit(rows)
  {
    CountedImage(rows.humans, HUMAN) + AisImage(rows)
  }

  function RowsPacket(rows: Rows): seq<byte>
    requires RowsFit(rows)
  {
    Digits(PACKET_HASH, 4) + (FieldImage(rows.winner, Nat(1)) + HumansImage(rows))
  }

  function ReadAis(packet: seq<byte>, at: nat, winner: Val, humans: seq<seq<Val>>): Read<Rows> {
    var left := if |humans| <= MAX_PARTICIPANTS then MAX_PARTICIPANTS - |humans| else 0;
    match ReadCounted(packet, at, "AI result", left, AI)
    case Failed(e) => Failed(e)
    case Got(ais, next) =>
      match ReadRow(packet, next, STAGE)
      case Failed(e) => Failed(e)
      case Got(stage, end) => Got(Rows(winner, humans, ais, stage), end)
  }

  function ReadHumans(packet: seq<byte>, at: nat, winner: Val): Read<Rows> {
    match ReadCounted(packet, at, "human result", MAX_PARTICIPANTS, HUMAN)
    case Failed(e) => Failed(e)
    case Got(humans, next) => ReadAis(packet, next, winner, humans)
  }

  function ReadPacket(packet: seq<byte>): Read<Rows> {
    match ReadHash(packet, 0, "GameResultPacket", PACKET_HASH)
    case Failed(e) => Failed(e)
    case Got(_, next) =>
      match ReadField(packet, next, Nat(1))
      case Failed(e) => Failed(e)
      case Got(winner, body) => ReadHumans(packet, body, winner)
  }

  function ResultOf(rows: Rows): GameResult {
    GameResult(if rows.winner.Num? then rows.winner.n else 0,
               seq(|rows.humans|, i requires 0 <= i < |rows.humans| => HumanOf(rows.humans[i])),
               seq(|rows.ais|, i requires 0 <= i < |rows.ais| => AiOf(rows.ais[i])),
               NumAt(rows.stage, 1), NumAt(rows.stage, 2))
  }

  /** What `decode` returns. */
  function Decoded(packet: seq<byte>): Result<GameResult> {
    match ReadPacket(packet)
    case Failed(e) => Err(e)
    case Got(rows, end) =>
      if end >= |packet| then Ok(ResultOf(rows)) else Err(TrailingBytes(end, |packet| - end))
  }

  // -------------------------------------------------------- reference writer

  function RowsOf(g: GameResult, p: Padding): Rows
    requires |p.humans| == |g.humans| && |p.ais| == |g.ais|
  {
    Rows(Num(g.winningTeam),
         seq(|g.humans|, i requires 0 <= i < |g.humans| => HumanFields(g.humans[i], p.humans[i])),
         seq(|g.ais|, i requires 0 <= i < |g.ais| => AiFields(g.ais[i], p.ais[i])),
         [Blob(p.stage), Num(g.terminalMarker), Num(g.terminalStatus)])
  }

  /** Every field is in its machine range, the padding has the right lengths and there are at most eight rows. */
  predicate Fits(g: GameResult, p: Padding) {
    |p.humans| == |g.humans| && |p.ais| == |g.ais| && RowsFit(RowsOf(g, p))
  }

  function Packet(g: GameResult, p: Padding): seq<byte>
    requires Fits(g, p)
  {
    RowsPacket(RowsOf(g, p))
  }

  // -------------------------------------------------------------- exactness

  lemma RowsValid()
    ensures HUMAN.Valid() && AI.Valid() && STAGE.Valid()
  {
  }

  lemma AisRead(packet: seq<byte>, at: nat, rows: Rows)
    requires RowsFit(rows) && Shows(packet, at, AisImage(rows))
    ensures ReadAis(packet, at, rows.winner, rows.humans) == Got(rows, at + |AisImage(rows)|)
  {
    hide RowsSuit, RowSuits, CountedImage, RowImage, ReadCounted, ReadRow, Shows, Suits;
    var first := CountedImage(rows.ais, AI);
    ShowsSplit(packet, at, first, RowImage(rows.stage, STAGE));
    CountedRead(packet, at, "AI result", MAX_PARTICIPANTS - |rows.humans|, AI, rows.ais);
    RowRead(packet, at + |first|, rows.stage, STAGE);
  }

  lemma HumansRead(packet: seq<byte>, at: nat, rows: Rows)
    requires RowsFit(rows) && Shows(packet, at, HumansImage(rows))
    ensures ReadHumans(packet, at, rows.winner) == Got(rows, at + |HumansImage(rows)|)
  {
    hide RowsSuit, RowSuits, CountedImage, AisImage, ReadCounted, ReadAis, Shows, Suits;
    var first := CountedImage(rows.humans, HUMAN);
    ShowsSplit(packet, at, first, AisImage(rows));
    CountedRead(packet, at, "human result", MAX_PARTICIPANTS, HUMAN, rows.humans);
    AisRead(packet, at + |first|, rows);
  }

  lemma PacketRead(packet: seq<byte>, rows: Rows)
    requires RowsFit(rows) && Shows(packet, 0, RowsPacket(rows))
    ensures ReadPacket(packet) == Got(rows, |RowsPacket(rows)|)
  {
    hide RowsSuit, RowSuits, HumansImage, FieldImage, ReadField, ReadHumans, ReadHash, Shows, Suits, Digits;
    var winner := FieldImage(rows.winner, Nat(1));
    ShowsSplit(packet, 0, Digits(PACKET_HASH, 4), winner + HumansImage(rows));
    HashRead(packet, 0, "GameResultPacket", PACKET_HASH);
    ShowsSplit(packet, 4, winner, HumansImage(rows));
    FieldRead(packet, 4, rows.winner, Nat(1));
    HumansRead(packet, 4 + |winner|, rows);
  }

  lemma AisAccepted(packet: seq<byte>, at: nat, winner: Val, humans: seq<seq<Val>>)
    requires ReadAis(packet, at, winner, humans).Got? && at <= |packet|
    requires Suits(winner, Nat(1)) && RowsSuit(humans, HUMAN) && |humans| <= MAX_PARTICIPANTS
    ensures var r := ReadAis(packet, at, winner, humans);
            && RowsFit(r.value) && r.value.winner == winner && r.value.humans == humans
            && r.at == at + |AisImage(r.value)| && Shows(packet, at, AisImage(r.value))
  {
    hide RowsSuit, RowSuits, CountedImage, RowImage, ReadCounted, ReadRow, Shows, Suits;
    RowsValid();
    var r := ReadAis(packet, at, winner, humans).value;
    CountedAccepted(packet, at, "AI result", MAX_PARTICIPANTS - |humans|, AI);
    var first := CountedImage(r.ais, AI);
    ShowsMeans(packet, at, first);
    RowAccepted(packet, at + |first|, STAGE);
    ShowsSplit(packet, at, first, RowImage(r.stage, STAGE));
  }

  lemma HumansAccepted(packet: seq<byte>, at: nat, winner: Val)
    requires ReadHumans(packet, at, winner).Got? && at <= |packet| && Suits(winner, Nat(1))
    ensures var r := ReadHumans(packet, at, winner);
            && RowsFit(r.value) && r.value.winner == winner
            && r.at == at + |HumansImage(r.value)| && Shows(packet, at, HumansImage(r.value))
  {
    hide RowsFit, RowsSuit, RowSuits, CountedImage, AisImage, ReadCounted, ReadAis, Shows, Suits;
    RowsValid();
    CountedAccepted(packet, at, "human result", MAX_PARTICIPANTS, HUMAN);
    var humans := ReadCounted(packet, at, "human result", MAX_PARTICIPANTS, HUMAN).value;
    var first := CountedImage(humans, HUMAN);
    ShowsMeans(packet, at, first);
    AisAccepted(packet, at + |first|, winner, humans);
    var r := ReadHumans(packet, at, winner).value;
    ShowsSplit(packet, at, first, AisImage(r));
  }

  lemma PacketAccepted(packet: seq<byte>)
    requires ReadPacket(packet).Got?
    ensures var r := ReadPacket(packet);
            RowsFit(r.value) && r.at == |RowsPacket(r.value)| && Shows(packet, 0, RowsPacket(r.value))
  {
    hide RowsFit, HumansImage, FieldImage, ReadField, ReadHumans, ReadHash, Shows, Suits, Digits;
    HashRead(packet, 0, "GameResultPacket", PACKET_HASH);
    ShowsMeans(packet, 0, Digits(PACKET_HASH, 4));
    FieldAccepted(packet, 4, Nat(1));
    var head := ReadField(packet, 4, Nat(1));
    var winner := FieldImage(head.value, Nat(1));
    ShowsMeans(packet, 4, winner);
    HumansAccepted(packet, head.at, head.value);
    var r := ReadPacket(packet).value;
    ShowsSplit(packet, 4, winner, HumansImage(r));
    ShowsSplit(packet, 0, Digits(PACKET_HASH, 4), winner + HumansImage(r));
  }

  // -------------------------------------------------------- records and rows

  lemma HumanExact(vs: seq<Val>)
    requires RowSuits(vs, HUMAN)
    ensures HumanFields(HumanOf(vs), HumanPadOf(vs)) == vs
  {
    hide AllSuit, Suits, NumAt, BlobAt;
    var ks := HUMAN.fields;
    assert AllSuit(vs, ks);
    var back := HumanFields(HumanOf(vs), HumanPadOf(vs));
    SuitsAt(vs, ks, 0);
    forall i | 0 <= i < |ks|
      ensures back[i] == vs[i]
    {
      SuitsAt(vs, ks, i);
    }
  }

  lemma AiExact(vs: seq<Val>)
    requires RowSuits(vs, AI)
    ensures AiFields(AiOf(vs), BlobAt(vs, 2)) == vs
  {
  }

  lemma StageExact(vs: seq<Val>)
    requires RowSuits(vs, STAGE)
    ensures vs == [Blob(BlobAt(vs, 0)), Num(NumAt(vs, 1)), Num(NumAt(vs, 2))]
  {
  }

  function PaddingOf(rows: Rows): Padding {
    Padding(seq(|rows.humans|, i requires 0 <= i < |rows.humans| => HumanPadOf(rows.humans[i])),
            seq(|rows.ais|, i requires 0 <= i < |rows.ais| => BlobAt(rows.ais[i], 2)),
            BlobAt(rows.stage, 0))
  }

  lemma RowsExact(rows: Rows)
    requires RowsFit(rows)
    ensures RowsOf(ResultOf(rows), PaddingOf(rows)) == rows
  {
    hide HumanFields, HumanOf, HumanPadOf, AiFields, AiOf, RowSuits, NumAt, BlobAt;
    var back := RowsOf(ResultOf(rows), PaddingOf(rows));
    forall i | 0 <= i < |rows.humans|
      ensures back.humans[i] == rows.humans[i]
    {
      HumanExact(rows.humans[i]);
    }
    forall i | 0 <= i < |rows.ais|
      ensures back.ais[i] == rows.ais[i]
    {
      AiExact(rows.ais[i]);
    }
    StageExact(rows.stage);
    assert back.humans == rows.humans && back.ais == rows.ais;
    assert rows.winner.Num?;
  }

  lemma ResultBack(g: GameResult, p: Padding)
    requires |p.humans| == |g.humans| && |p.ais| == |g.ais|
    ensures ResultOf(RowsOf(g, p)) == g
  {
    var back := ResultOf(RowsOf(g, p));
    assert back.humans == g.humans;
    assert back.ais == g.ais;
  }

  // ----------------------------------------------------------------- theorems

  /** Decoding what the reference writer wrote gives the result back, whatever the opaque bytes are. */
  lemma RoundTrip(g: GameResult, p: Padding)
    requires Fits(g, p)
    ensures Decoded(Packet(g, p)) == Ok(g)
  {
    hide RowsFit, RowsPacket, ReadPacket, ResultOf, RowsOf;
    var packet := Packet(g, p);
    assert packet[0..0 + |packet|] == packet;
    ShowsMeans(packet, 0, packet);
    PacketRead(packet, RowsOf(g, p));
    ResultBack(g, p);
  }

  /** Every packet `decode` accepts is such an output. */
  lemma Accepted(packet: seq<byte>)
    requires Decoded(packet).Ok?
    ensures exists p :: Fits(Decoded(packet).value, p) && packet == Packet(Decoded(packet).value, p)
  {
    hide RowsFit, RowsPacket, ReadPacket, ResultOf, RowsOf, PaddingOf;
    PacketAccepted(packet);
    var r := ReadPacket(packet);
    RowsExact(r.value);
    ShowsMeans(packet, 0, RowsPacket(r.value));
    assert packet[0..|packet|] == packet;
    var p := PaddingOf(r.value);
    Counts(r.value);
    assert Fits(Decoded(packet).value, p) && packet == Packet(Decoded(packet).value, p);
  }

  lemma Counts(rows: Rows)
    ensures |PaddingOf(rows).humans| == |ResultOf(rows).humans| && |PaddingOf(rows).ais| == |ResultOf(rows).ais|
    ensures |ResultOf(rows).humans| == |rows.humans| && |ResultOf(rows).ais| == |rows.ais|
  {
  }

  lemma WidthFrom(ks: seq<Kind>, i: nat, width: nat, rest: nat)
    requires Fixed(ks) && i < |ks| && ks[i].width == width && Width(ks[i + 1..]) == rest
    ensures Width(ks[i..]) == width + rest
  {
  }

  lemma WidthOfNone(ks: seq<Kind>)
    requires ks == []
    ensures Width(ks) == 0
  {
  }

  lemma StageWidth()
    ensures Fixed(STAGE.fields) && Width(STAGE.fields) == 39
  {
  }

  lemma AiKindsWidth(ks: seq<Kind>)
    requires Fixed(ks) && |ks| == 8
    requires ks[0].width == 4 && ks[1].width == 4 && ks[2].width == 1 && ks[3].width == 2 && ks[4].width == 4
    requires ks[5].width == 2 && ks[6].width == 1 && ks[7].width == 4
    ensures Width(ks) == 22
  {
    hide Width, Fixed;
    WidthOfNone(ks[8..]);
    WidthFrom(ks, 7, 4, 0);
    WidthFrom(ks, 6, 1, 4);
    WidthFrom(ks, 5, 2, 5);
    WidthFrom(ks, 4, 4, 7);
    WidthFrom(ks, 3, 2, 11);
    WidthFrom(ks, 2, 1, 13);
    WidthFrom(ks, 1, 4, 14);
    WidthFrom(ks, 0, 4, 18);
    assert ks[0..] == ks;
  }

  lemma AiWidth()
    ensures Fixed(AI.fields) && Width(AI.fields) == 22
  {
    hide Width;
    AiKindsWidth(AI.fields);
  }

  function HumanFieldWidth(i: nat): nat {
    match i
    case 0 => 4 case 1 => 4 case 2 => 1 case 3 => 2
    case 4 => 4 case 5 => 2 case 6 => 1 case 7 => 4
    case 8 => 4 case 9 => 4 case 10 => 4 case 11 => 29
    case 12 => 1 case 13 => 4 case 14 => 12 case 15 => 4
    case 16 => 1 case 17 => 2 case 18 => 49 case 19 => 1
    case 20 => 37 case 21 => 4
    case _ => 34
  }

  lemma HumanFieldIs(i: nat, ks: seq<Kind>)
    requires Plain(ks) == HUMAN && i < |ks|
    ensures !ks[i].Name? && ks[i].width == HumanFieldWidth(i)
  {
  }

  lemma HumanKindsWidth(ks: seq<Kind>)
    requires Fixed(ks) && |ks| == 23 && forall i :: 0 <= i < 23 ==> ks[i].width == HumanFieldWidth(i)
    ensures Width(ks) == 212
  {
    hide Width, Fixed;
    WidthOfNone(ks[23..]);
    WidthFrom(ks, 22, 34, 0);
    WidthFrom(ks, 21, 4, 34);
    WidthFrom(ks, 20, 37, 38);
    WidthFrom(ks, 19, 1, 75);
    WidthFrom(ks, 18, 49, 76);
    WidthFrom(ks, 17, 2, 125);
    WidthFrom(ks, 16, 1, 127);
    WidthFrom(ks, 15, 4, 128);
    WidthFrom(ks, 14, 12, 132);
    WidthFrom(ks, 13, 4, 144);
    WidthFrom(ks, 12, 1, 148);
    WidthFrom(ks, 11, 29, 149);
    WidthFrom(ks, 10, 4, 178);
    WidthFrom(ks, 9, 4, 182);
    WidthFrom(ks, 8, 4, 186);
    WidthFrom(ks, 7, 4, 190);
    WidthFrom(ks, 6, 1, 194);
    WidthFrom(ks, 5, 2, 195);
    WidthFrom(ks, 4, 4, 197);
    WidthFrom(ks, 3, 2, 201);
    WidthFrom(ks, 2, 1, 203);
    WidthFrom(ks, 1, 4, 204);
    WidthFrom(ks, 0, 4, 208);
    assert ks[0..] == ks;
  }

  lemma HumanWidth()
    ensures Fixed(HUMAN.fields) && Width(HUMAN.fields) == 212
  {
    hide Width;
    var ks := HUMAN.fields;
    forall i | 0 <= i < 23
      ensures !ks[i].Name? && ks[i].width == HumanFieldWidth(i)
    {
      HumanFieldIs(i, ks);
    }
    HumanKindsWidth(ks);
  }

  /** An accepted packet of `h` human and `a` AI rows has `52 + 212h + 22a` bytes, and `h + a` is at most eight. */
  lemma AcceptedLength(packet: seq<byte>)
    requires Decoded(packet).Ok?
    ensures var g := Decoded(packet).value;
            && |packet| == 52 + 212 * |g.humans| + 22 * |g.ais|
            && |g.humans| + |g.ais| <= 8
  {
    hide ReadPacket, ResultOf, RowsOf, Width, FieldImage, FieldsImage, RowsImage, Fixed, RowSuits, RowsSuit;
    PacketAccepted(packet);
    var rows := ReadPacket(packet).value;
    ShowsMeans(packet, 0, RowsPacket(rows));
    Counts(rows);
    HumanWidth();
    AiWidth();
    StageWidth();
    RowsWidth(rows.humans, HUMAN);
    RowsWidth(rows.ais, AI);
    RowWidth(rows.stage, STAGE);
    WinnerWidth(rows.winner);
  }

  lemma WinnerWidth(v: Val)
    requires Suits(v, Nat(1))
    ensures |FieldImage(v, Nat(1))| == 1
  {
  }

  /** So the length alone determines both counts. */
  lemma LengthDeterminesCounts(p: seq<byte>, q: seq<byte>)
    requires Decoded(p).Ok? && Decoded(q).Ok? && |p| == |q|
    ensures |Decoded(p).value.humans| == |Decoded(q).value.humans| && |Decoded(p).value.ais| == |Decoded(q).value.ais|
  {
    hide Decoded;
    AcceptedLength(p);
    AcceptedLength(q);
    var h, a := |Decoded(p).value.humans|, |Decoded(p).value.ais|;
    var h', a' := |Decoded(q).value.humans|, |Decoded(q).value.ais|;
    assert 106 * (h - h') == 11 * (a' - a);
    assert (h - h') % 11 == 0;
  }

  /** No accepted packet is a proper prefix of another. */
  lemma PrefixFree(p: seq<byte>, q: seq<byte>)
    requires Decoded(p).Ok? && Decoded(q).Ok? && p <= q
    ensures p == q
  {
    hide RowsFit, RowsPacket, ReadPacket, ResultOf, RowsOf;
    PacketAccepted(p);
    var r := ReadPacket(p);
    ShowsMeans(p, 0, RowsPacket(r.value));
    ShowsMeans(q, 0, RowsPacket(r.value));
    assert q[0..|p|] == p[0..|p|];
    PacketRead(q, r.value);
  }

  // ------------------------------------------------------------------ decode

  method ReadHuman(reader: PacketCursor) returns (r: Result<HumanResult>, ghost vs: seq<Val>)
    modifies reader
    ensures match ReadRow(reader.bytes, old(reader.offset), HUMAN)
            case Failed(e) => r == Err(e)
            case Got(row, at) => vs == row && r == Ok(HumanOf(row)) && reader.offset == at
  {
    hide HumanOf, ReadFields;
    vs := [];
    var row :- TakeRow(reader, HUMAN);
    vs := row;
    r := Ok(HumanOf(row));
  }

  method ReadAi(reader: PacketCursor) returns (r: Result<AiResult>, ghost vs: seq<Val>)
    modifies reader
    ensures match ReadRow(reader.bytes, old(reader.offset), AI)
            case Failed(e) => r == Err(e)
            case Got(row, at) => vs == row && r == Ok(AiOf(row)) && reader.offset == at
  {
    hide AiOf, ReadFields;
    vs := [];
    var row :- TakeRow(reader, AI);
    vs := row;
    r := Ok(AiOf(row));
  }

  method Humans(reader: PacketCursor, count: nat) returns (r: Result<seq<HumanResult>>, ghost rows: seq<seq<Val>>)
    modifies reader
    ensures match ReadRows(reader.bytes, old(reader.offset), HUMAN, count, [])
            case Failed(e) => r == Err(e)
            case Got(vss, at) => rows == vss && |vss| == count && r.Ok? && MapsTo(r.value, vss) && reader.offset == at
  {
    hide HumanOf, ReadRow;
    rows := [];
    var humans: seq<HumanResult> := [];
    ghost var start := reader.offset;
    for i := 0 to count
      invariant MapsTo(humans, rows) && |rows| == i
      invariant ReadRows(reader.bytes, start, HUMAN, count, [])
            == ReadRows(reader.bytes, reader.offset, HUMAN, count - i, rows)
    {
      var human, vs := ReadHuman(reader);
      if human.Err? { return Err(human.error), rows; }
      rows := rows + [vs];
      humans := humans + [human.value];
    }
    r := Ok(humans);
  }

  method Ais(reader: PacketCursor, count: nat) returns (r: Result<seq<AiResult>>, ghost rows: seq<seq<Val>>)
    modifies reader
    ensures match ReadRows(reader.bytes, old(reader.offset), AI, count, [])
            case Failed(e) => r == Err(e)
            case Got(vss, at) => rows == vss && r.Ok? && AisMapTo(r.value, vss) && reader.offset == at
  {
    hide AiOf, ReadRow;
    rows := [];
    var ais: seq<AiResult> := [];
    ghost var start := reader.offset;
    for i := 0 to count
      invariant AisMapTo(ais, rows)
      invariant ReadRows(reader.bytes, start, AI, count, [])
             == ReadRows(reader.bytes, reader.offset, AI, count - i, rows)
    {
      var ai, vs := ReadAi(reader);
      if ai.Err? { return Err(ai.error), rows; }
      rows := rows + [vs];
      ais := ais + [ai.value];
    }
    r := Ok(ais);
  }

  ghost predicate MapsTo(humans: seq<HumanResult>, rows: seq<seq<Val>>) {
    |humans| == |rows| && forall i :: 0 <= i < |rows| ==> humans[i] == HumanOf(rows[i])
  }

  ghost predicate AisMapTo(ais: seq<AiResult>, rows: seq<seq<Val>>) {
    |ais| == |rows| && forall i :: 0 <= i < |rows| ==> ais[i] == AiOf(rows[i])
  }

  method Decode(packet: seq<byte>) returns (r: Result<GameResult>)
    ensures r == Decoded(packet)
  {
    hide ReadHash, ReadField, ReadRows, ReadRow, HumanOf, AiOf, NumAt;
    var reader := new PacketCursor(packet);
    var _ :- reader.ExpectHash("GameResultPacket", PACKET_HASH);
    var winner :- TakeField(reader, Nat(1));
    var humanCount :- reader.Count("human result", MAX_PARTICIPANTS);
    var humans, humanRows := Humans(reader, humanCount);
    if humans.Err? { return Err(humans.error); }
    var left := if humanCount <= MAX_PARTICIPANTS then MAX_PARTICIPANTS - humanCount else 0;
    var aiCount :- reader.Count("AI result", left);
    var ais, aiRows := Ais(reader, aiCount);
    if ais.Err? { return Err(ais.error); }
    var stage :- TakeRow(reader, STAGE);
    var _ :- reader.Finish();
    r := Ok(GameResult(if winner.Num? then winner.n else 0, humans.value, ais.value, NumAt(stage, 1), NumAt(stage, 2)));
    ghost var rows := Rows(winner, humanRows, aiRows, stage);
    assert r.value.humans == ResultOf(rows).humans;
    assert r.value.ais == ResultOf(rows).ais;
  }
}
