/** Where each field of an accepted packet stands, in bytes from its start. */
module PacketOffsets {
  import opened LittleEndian
  import opened Reading
  import opened Cursor
  import opened Layout
  import Text
  import Utf16
  import GameResult
  import Room

  /** An unsigned little-endian number stands here. */
  predicate UnsignedAt(packet: seq<byte>, at: nat, width: nat, n: int) {
    at + width <= |packet| && Natural(packet[at..at + width]) == n
  }

  /** A two's complement little-endian number stands here. */
  predicate SignedAt(packet: seq<byte>, at: nat, width: nat, n: int) {
    at + width <= |packet| && Signed(packet[at..at + width]) == n
  }

  /** A counted UTF-16 name stands here. */
  predicate NameAt(packet: seq<byte>, at: nat, text: string) {
    Shows(packet, at, NameImage(text))
  }

  /** A value of a kind stands here. */
  predicate FieldAt(packet: seq<byte>, at: nat, k: Kind, v: Val) {
    match k
    case Int(w) => v.Num? && SignedAt(packet, at, w, v.n)
    case Nat(w) => v.Num? && UnsignedAt(packet, at, w, v.n)
    case Raw(w) => v.Blob? && |v.bytes| == w && Shows(packet, at, v.bytes)
    case Name(_, _) => v.Str? && NameAt(packet, at, v.text)
  }

  lemma FieldStands(packet: seq<byte>, at: nat, k: Kind, v: Val)
    requires Suits(v, k) && Shows(packet, at, FieldImage(v, k))
    ensures FieldAt(packet, at, k, v)
    ensures !k.Name? ==> |FieldImage(v, k)| == k.width
  {
    hide Natural, Digits, SignedDigits, Signed, InRange, NameImage, NameFits;
    match k {
      case Int(w) => SignedRoundTrip(v.n, w);
      case Nat(w) => DigitsNatural(v.n, w);
      case _ =>
    }
  }

  /** The bytes of the first fields of a row. */
  function Reach(vs: seq<Val>, ks: seq<Kind>, i: nat): nat
    requires AllSuit(vs, ks) && i <= |ks|
    decreases ks
  {
    if i == 0 then 0 else |FieldImage(vs[0], ks[0])| + Reach(vs[1..], ks[1..], i - 1)
  }

  lemma {:induction false} ReachNext(vs: seq<Val>, ks: seq<Kind>, i: nat)
    requires AllSuit(vs, ks) && i < |ks|
    ensures Reach(vs, ks, i + 1) == Reach(vs, ks, i) + |FieldImage(vs[i], ks[i])|
    decreases i
  {
    hide Suits, FieldImage;
    if i > 0 { ReachNext(vs[1..], ks[1..], i - 1); }
  }

  lemma {:induction false} FieldPlaced(packet: seq<byte>, at: nat, vs: seq<Val>, ks: seq<Kind>, i: nat)
    requires AllSuit(vs, ks) && i < |ks| && Shows(packet, at, FieldsImage(vs, ks))
    ensures Shows(packet, at + Reach(vs, ks, i), FieldImage(vs[i], ks[i]))
    decreases i
  {
    hide Suits, FieldImage, Shows;
    var first := FieldImage(vs[0], ks[0]);
    ShowsSplit(packet, at, first, FieldsImage(vs[1..], ks[1..]));
    if i > 0 { FieldPlaced(packet, at + |first|, vs[1..], ks[1..], i - 1); }
  }

  /** The `i`-th field stands at its offset, and the next one behind it. */
  lemma Place(packet: seq<byte>, at: nat, vs: seq<Val>, ks: seq<Kind>, i: nat, offset: nat)
    requires AllSuit(vs, ks) && i < |ks| && Shows(packet, at, FieldsImage(vs, ks)) && Reach(vs, ks, i) == offset
    ensures FieldAt(packet, at + offset, ks[i], vs[i])
    ensures Reach(vs, ks, i + 1) == offset + if ks[i].Name? then |FieldImage(vs[i], ks[i])| else ks[i].width
  {
    hide Suits, FieldImage, Shows, FieldsImage, Reach;
    FieldPlaced(packet, at, vs, ks, i);
    assert Suits(vs[i], ks[i]);
    FieldStands(packet, at + offset, ks[i], vs[i]);
    ReachNext(vs, ks, i);
  }

  lemma ReachNone(vs: seq<Val>, ks: seq<Kind>)
    requires AllSuit(vs, ks)
    ensures Reach(vs, ks, 0) == 0
  {
  }

  // ------------------------------------------------------------ game result

  /** The fields of a human row of 212 bytes. */
  predicate HumanAt(packet: seq<byte>, s: nat, h: GameResult.HumanResult) {
    && SignedAt(packet, s, 4, h.playerId) && UnsignedAt(packet, s + 4, 4, h.finishTime)
    && UnsignedAt(packet, s + 9, 2, h.kartId) && SignedAt(packet, s + 11, 4, h.rank)
    && SignedAt(packet, s + 15, 2, h.teamModeMarker) && UnsignedAt(packet, s + 18, 4, h.currentRp)
    && UnsignedAt(packet, s + 22, 4, h.earnedRp) && UnsignedAt(packet, s + 26, 4, h.earnedLucci)
    && UnsignedAt(packet, s + 30, 4, h.currentLucci) && UnsignedAt(packet, s + 63, 1, h.team)
    && SignedAt(packet, s + 64, 4, h.teamPoints) && SignedAt(packet, s + 80, 4, h.resultMarker)
    && UnsignedAt(packet, s + 85, 2, h.characterId) && UnsignedAt(packet, s + 136, 1, h.displayMarker)
    && SignedAt(packet, s + 174, 4, h.clubMarkLogo)
  }

  /** The numbers of a human row in the order of its fields. */
  predicate HumanNumbers(vs: seq<Val>, h: GameResult.HumanResult) {
    FirstNumbers(vs, h) && MoreNumbers(vs, h) && LastNumbers(vs, h)
  }

  predicate FirstNumbers(vs: seq<Val>, h: GameResult.HumanResult) {
    && |vs| == 23
    && vs[0] == Num(h.playerId) && vs[1] == Num(h.finishTime) && vs[3] == Num(h.kartId) && vs[4] == Num(h.rank)
    && vs[5] == Num(h.teamModeMarker) && vs[7] == Num(h.currentRp)
  }

  predicate MoreNumbers(vs: seq<Val>, h: GameResult.HumanResult) {
    && |vs| == 23 && vs[8] == Num(h.earnedRp)
    && vs[9] == Num(h.earnedLucci) && vs[10] == Num(h.currentLucci) && vs[12] == Num(h.team)
    && vs[13] == Num(h.teamPoints) && vs[15] == Num(h.resultMarker)
  }

  predicate LastNumbers(vs: seq<Val>, h: GameResult.HumanResult) {
    |vs| == 23 && vs[17] == Num(h.characterId) && vs[19] == Num(h.displayMarker) && vs[21] == Num(h.clubMarkLogo)
  }

  /** A row of these kinds stands here. */
  ghost predicate RowAt(packet: seq<byte>, s: nat, vs: seq<Val>, ks: seq<Kind>) {
    AllSuit(vs, ks) && Shows(packet, s, FieldsImage(vs, ks))
  }

  ghost predicate Reaches(vs: seq<Val>, ks: seq<Kind>, i: nat, offset: nat) {
    AllSuit(vs, ks) && i <= |ks| && Reach(vs, ks, i) == offset
  }

  /** One field of a row. */
  lemma Next(packet: seq<byte>, s: nat, vs: seq<Val>, ks: seq<Kind>, i: nat, offset: nat, k: Kind)
    requires RowAt(packet, s, vs, ks) && Reaches(vs, ks, i, offset) && i < |ks| && ks[i] == k && !k.Name?
    ensures i < |vs| && FieldAt(packet, s + offset, k, vs[i]) && Reaches(vs, ks, i + 1, offset + k.width)
  {
    hide FieldAt, Suits, Reach;
    Place(packet, s, vs, ks, i, offset);
  }

  predicate HumanFrontAt(packet: seq<byte>, s: nat, h: GameResult.HumanResult) {
    && SignedAt(packet, s, 4, h.playerId) && UnsignedAt(packet, s + 4, 4, h.finishTime)
    && UnsignedAt(packet, s + 9, 2, h.kartId) && SignedAt(packet, s + 11, 4, h.rank)
    && SignedAt(packet, s + 15, 2, h.teamModeMarker) && UnsignedAt(packet, s + 18, 4, h.currentRp)
  }

  predicate HumanMiddleAt(packet: seq<byte>, s: nat, h: GameResult.HumanResult) {
    && UnsignedAt(packet, s + 22, 4, h.earnedRp) && UnsignedAt(packet, s + 26, 4, h.earnedLucci)
    && UnsignedAt(packet, s + 30, 4, h.currentLucci) && UnsignedAt(packet, s + 63, 1, h.team)
    && SignedAt(packet, s + 64, 4, h.teamPoints) && SignedAt(packet, s + 80, 4, h.resultMarker)
  }

  predicate HumanBackAt(packet: seq<byte>, s: nat, h: GameResult.HumanResult) {
    && UnsignedAt(packet, s + 85, 2, h.characterId) && UnsignedAt(packet, s + 136, 1, h.displayMarker)
    && SignedAt(packet, s + 174, 4, h.clubMarkLogo)
  }

  lemma HumanStands(packet: seq<byte>, s: nat, h: GameResult.HumanResult, p: GameResult.HumanPad)
    requires RowSuits(GameResult.HumanFields(h, p), GameResult.HUMAN)
    requires Shows(packet, s, RowImage(GameResult.HumanFields(h, p), GameResult.HUMAN))
    ensures HumanAt(packet, s, h)
  {
    hide AllSuit, FieldsImage, Shows, UnsignedAt, SignedAt, Reaches, GameResult.HumanFields, HumanNumbers;
    hide FrontKinds, MiddleKinds, BackKinds;
    FrontKindsAre();
    MiddleKindsAre();
    BackKindsAre();
    var vs, ks := GameResult.HumanFields(h, p), GameResult.HUMAN.fields;
    FieldsNumbers(h, p);
    ReachesNone(vs, ks);
    HumanFront(packet, s, vs, ks, h);
    HumanMiddle(packet, s, vs, ks, h);
    HumanBack(packet, s, vs, ks, h);
  }

  predicate FrontKinds(ks: seq<Kind>) {
    FirstKinds(ks) && ks[4] == Int(4) && ks[5] == Int(2) && ks[6] == Raw(1) && ks[7] == Nat(4)
  }

  predicate FirstKinds(ks: seq<Kind>) {
    |ks| == 23 && ks[0] == Int(4) && ks[1] == Nat(4) && ks[2] == Raw(1) && ks[3] == Nat(2)
  }

  predicate MiddleKinds(ks: seq<Kind>) {
    && |ks| == 23
    && ks[8] == Nat(4) && ks[9] == Nat(4) && ks[10] == Nat(4) && ks[11] == Raw(29) && ks[12] == Nat(1)
    && ks[13] == Int(4) && ks[14] == Raw(12) && ks[15] == Int(4)
  }

  predicate BackKinds(ks: seq<Kind>) {
    && |ks| == 23
    && ks[16] == Raw(1) && ks[17] == Nat(2) && ks[18] == Raw(49) && ks[19] == Nat(1) && ks[20] == Raw(37)
    && ks[21] == Int(4)
  }

  lemma FrontKindsAre()
    ensures FrontKinds(GameResult.HUMAN.fields)
  {
    hide FirstKinds;
    FirstKindsAre();
  }

  lemma FirstKindsAre()
    ensures FirstKinds(GameResult.HUMAN.fields)
  {
  }

  lemma MiddleKindsAre()
    ensures MiddleKinds(GameResult.HUMAN.fields)
  {
  }

  lemma BackKindsAre()
    ensures BackKinds(GameResult.HUMAN.fields)
  {
  }

  lemma FieldsNumbers(h: GameResult.HumanResult, p: GameResult.HumanPad)
    ensures HumanNumbers(GameResult.HumanFields(h, p), h)
  {
    hide FirstNumbers, MoreNumbers, LastNumbers, GameResult.HumanFields;
    FirstNumbersAre(h, p);
    MoreNumbersAre(h, p);
    LastNumbersAre(h, p);
  }

  lemma FirstNumbersAre(h: GameResult.HumanResult, p: GameResult.HumanPad)
    ensures FirstNumbers(GameResult.HumanFields(h, p), h)
  {
  }

  lemma MoreNumbersAre(h: GameResult.HumanResult, p: GameResult.HumanPad)
    ensures MoreNumbers(GameResult.HumanFields(h, p), h)
  {
  }

  lemma LastNumbersAre(h: GameResult.HumanResult, p: GameResult.HumanPad)
    ensures LastNumbers(GameResult.HumanFields(h, p), h)
  {
  }

  lemma ReachesNone(vs: seq<Val>, ks: seq<Kind>)
    requires AllSuit(vs, ks)
    ensures Reaches(vs, ks, 0, 0)
  {
  }

  lemma HumanFront(packet: seq<byte>, s: nat, vs: seq<Val>, ks: seq<Kind>, h: GameResult.HumanResult)
    requires RowAt(packet, s, vs, ks) && Reaches(vs, ks, 0, 0) && HumanNumbers(vs, h) && FrontKinds(ks)
    ensures HumanFrontAt(packet, s, h) && Reaches(vs, ks, 8, 22)
  {
    hide RowAt, Reaches, UnsignedAt, SignedAt;
    Next(packet, s, vs, ks, 0, 0, Int(4));
    Next(packet, s, vs, ks, 1, 4, Nat(4));
    Next(packet, s, vs, ks, 2, 8, Raw(1));
    Next(packet, s, vs, ks, 3, 9, Nat(2));
    Next(packet, s, vs, ks, 4, 11, Int(4));
    Next(packet, s, vs, ks, 5, 15, Int(2));
    Next(packet, s, vs, ks, 6, 17, Raw(1));
    Next(packet, s, vs, ks, 7, 18, Nat(4));
  }

  lemma HumanMiddle(packet: seq<byte>, s: nat, vs: seq<Val>, ks: seq<Kind>, h: GameResult.HumanResult)
    requires RowAt(packet, s, vs, ks) && Reaches(vs, ks, 8, 22) && HumanNumbers(vs, h) && MiddleKinds(ks)
    ensures HumanMiddleAt(packet, s, h) && Reaches(vs, ks, 16, 84)
  {
    hide RowAt, Reaches, UnsignedAt, SignedAt;
    Next(packet, s, vs, ks, 8, 22, Nat(4));
    Next(packet, s, vs, ks, 9, 26, Nat(4));
    Next(packet, s, vs, ks, 10, 30, Nat(4));
    Next(packet, s, vs, ks, 11, 34, Raw(29));
    Next(packet, s, vs, ks, 12, 63, Nat(1));
    Next(packet, s, vs, ks, 13, 64, Int(4));
    Next(packet, s, vs, ks, 14, 68, Raw(12));
    Next(packet, s, vs, ks, 15, 80, Int(4));
  }

  lemma HumanBack(packet: seq<byte>, s: nat, vs: seq<Val>, ks: seq<Kind>, h: GameResult.HumanResult)
    requires RowAt(packet, s, vs, ks) && Reaches(vs, ks, 16, 84) && HumanNumbers(vs, h) && BackKinds(ks)
    ensures HumanBackAt(packet, s, h)
  {
    hide RowAt, Reaches, UnsignedAt, SignedAt;
    Next(packet, s, vs, ks, 16, 84, Raw(1));
    Next(packet, s, vs, ks, 17, 85, Nat(2));
    Next(packet, s, vs, ks, 18, 87, Raw(49));
    Next(packet, s, vs, ks, 19, 136, Nat(1));
    Next(packet, s, vs, ks, 20, 137, Raw(37));
    Next(packet, s, vs, ks, 21, 174, Int(4));
  }

  /** The fields of an AI row of 22 bytes. */
  predicate AiAt(packet: seq<byte>, s: nat, a: GameResult.AiResult) {
    && SignedAt(packet, s, 4, a.playerId) && UnsignedAt(packet, s + 4, 4, a.finishTime)
    && SignedAt(packet, s + 9, 2, a.kartId) && SignedAt(packet, s + 11, 4, a.rank)
    && SignedAt(packet, s + 15, 2, a.teamModeMarker) && UnsignedAt(packet, s + 17, 1, a.team)
    && SignedAt(packet, s + 18, 4, a.teamPoints)
  }

  lemma AiStands(packet: seq<byte>, s: nat, a: GameResult.AiResult, pad: seq<byte>)
    requires RowSuits(GameResult.AiFields(a, pad), GameResult.AI)
    requires Shows(packet, s, RowImage(GameResult.AiFields(a, pad), GameResult.AI))
    ensures AiAt(packet, s, a)
  {
    hide AllSuit, FieldsImage, Shows, Reach, UnsignedAt, SignedAt;
    var vs, ks := GameResult.AiFields(a, pad), GameResult.AI.fields;
    ReachNone(vs, ks);
    Place(packet, s, vs, ks, 0, 0);
    Place(packet, s, vs, ks, 1, 4);
    Place(packet, s, vs, ks, 2, 8);
    Place(packet, s, vs, ks, 3, 9);
    Place(packet, s, vs, ks, 4, 11);
    Place(packet, s, vs, ks, 5, 15);
    Place(packet, s, vs, ks, 6, 17);
    Place(packet, s, vs, ks, 7, 18);
  }

  lemma {:induction false} RowPlaced(packet: seq<byte>, at: nat, vss: seq<seq<Val>>, row: Row, width: nat, i: nat)
    requires RowsSuit(vss, row) && i < |vss| && Shows(packet, at, RowsImage(vss, row))
    requires row.Plain? && Fixed(row.fields) && Layout.Width(row.fields) == width
    ensures Shows(packet, at + width * i, RowImage(vss[i], row))
    decreases i
  {
    hide AllSuit, FieldsImage, Shows, Layout.Width;
    var first := RowImage(vss[0], row);
    ShowsSplit(packet, at, first, RowsImage(vss[1..], row));
    RowWidth(vss[0], row);
    if i > 0 {
      RowPlaced(packet, at + width, vss[1..], row, width, i - 1);
      assert width + width * (i - 1) == width * i;
    }
  }

  /** A result packet: hash, winner, two counts, and the rows behind each; 34 opaque bytes and the two end fields. */
  predicate ResultAt(packet: seq<byte>, g: GameResult.GameResult) {
    var h, a := |g.humans|, |g.ais|;
    && UnsignedAt(packet, 0, 4, 0x345C_0651) && UnsignedAt(packet, 4, 1, g.winningTeam)
    && UnsignedAt(packet, 5, 4, h) && UnsignedAt(packet, 9 + 212 * h, 4, a)
    && (forall i :: 0 <= i < h ==> HumanAt(packet, 9 + 212 * i, g.humans[i]))
    && (forall j :: 0 <= j < a ==> AiAt(packet, 13 + 212 * h + 22 * j, g.ais[j]))
    && UnsignedAt(packet, 47 + 212 * h + 22 * a, 4, g.terminalMarker)
    && UnsignedAt(packet, 51 + 212 * h + 22 * a, 1, g.terminalStatus)
  }

  /** The winner, the human rows, the AI rows and the last two fields of an accepted result packet, byte by byte. */
  lemma ResultOffsets(packet: seq<byte>)
    requires GameResult.Decoded(packet).Ok?
    ensures ResultAt(packet, GameResult.Decoded(packet).value)
  {
    hide GameResult.Decoded, GameResult.Packet, GameResult.Fits, ResultAt;
    GameResult.Accepted(packet);
    var g := GameResult.Decoded(packet).value;
    var p :| GameResult.Fits(g, p) && packet == GameResult.Packet(g, p);
    ResultStands(g, p);
  }

  lemma ResultStands(g: GameResult.GameResult, p: GameResult.Padding)
    requires GameResult.Fits(g, p)
    ensures ResultAt(GameResult.Packet(g, p), g)
  {
    hide ResultAt, GameResult.RowsFit, GameResult.RowsPacket, GameResult.HumanFields, GameResult.AiFields;
    hide Shows, UnsignedAt, RowsImage, RowImage, GameResult.HumansImage, RowSuits, RowsSuit;
    var packet, rows := GameResult.Packet(g, p), GameResult.RowsOf(g, p);
    assert packet[0..0 + |packet|] == packet;
    ShowsMeans(packet, 0, packet);
    HeadStands(packet, rows);
    TailStands(packet, rows);
    ResultParts(packet, g, p);
  }

  lemma HeadStands(packet: seq<byte>, rows: GameResult.Rows)
    requires GameResult.RowsFit(rows) && Shows(packet, 0, GameResult.RowsPacket(rows))
    ensures UnsignedAt(packet, 0, 4, 0x345C_0651) && rows.winner.Num? && UnsignedAt(packet, 4, 1, rows.winner.n)
    ensures Shows(packet, 5, GameResult.HumansImage(rows))
  {
    hide UnsignedAt, RowsSuit, RowSuits, Shows, Digits, FieldImage, GameResult.HumansImage;
    var winner := FieldImage(rows.winner, Nat(1));
    ShowsSplit(packet, 0, Digits(GameResult.PACKET_HASH, 4), winner + GameResult.HumansImage(rows));
    NumberStands(packet, 0, GameResult.PACKET_HASH);
    ShowsSplit(packet, 4, winner, GameResult.HumansImage(rows));
    FieldStands(packet, 4, Nat(1), rows.winner);
  }

  lemma CountedStands(packet: seq<byte>, at: nat, vss: seq<seq<Val>>, row: Row)
    requires RowsSuit(vss, row) && |vss| < 0x1_0000_0000 && Shows(packet, at, CountedImage(vss, row))
    ensures UnsignedAt(packet, at, 4, |vss|) && Shows(packet, at + 4, RowsImage(vss, row))
  {
    hide UnsignedAt, RowsSuit, Shows, Digits, RowsImage;
    ShowsSplit(packet, at, Digits(|vss|, 4), RowsImage(vss, row));
    NumberStands(packet, at, |vss|);
  }

  lemma TailStands(packet: seq<byte>, rows: GameResult.Rows)
    requires GameResult.RowsFit(rows) && Shows(packet, 5, GameResult.HumansImage(rows))
    ensures var h, a := |rows.humans|, |rows.ais|;
            && UnsignedAt(packet, 5, 4, h) && Shows(packet, 9, RowsImage(rows.humans, GameResult.HUMAN))
            && UnsignedAt(packet, 9 + 212 * h, 4, a)
            && Shows(packet, 13 + 212 * h, RowsImage(rows.ais, GameResult.AI))
            && Shows(packet, 13 + 212 * h + 22 * a, RowImage(rows.stage, GameResult.STAGE))
  {
    hide UnsignedAt, RowsSuit, RowSuits, Shows, RowsImage, RowImage, Layout.Width, Fixed, Suits;
    var at := 9 + 212 * |rows.humans|;
    GameResult.HumanWidth();
    GameResult.AiWidth();
    RowsWidth(rows.humans, GameResult.HUMAN);
    RowsWidth(rows.ais, GameResult.AI);
    ShowsSplit(packet, 5, CountedImage(rows.humans, GameResult.HUMAN), GameResult.AisImage(rows));
    CountedStands(packet, 5, rows.humans, GameResult.HUMAN);
    ShowsSplit(packet, at, CountedImage(rows.ais, GameResult.AI), RowImage(rows.stage, GameResult.STAGE));
    CountedStands(packet, at, rows.ais, GameResult.AI);
  }

  lemma ResultParts(packet: seq<byte>, g: GameResult.GameResult, p: GameResult.Padding)
    requires GameResult.Fits(g, p)
    requires var rows := GameResult.RowsOf(g, p);
             var h, a := |rows.humans|, |rows.ais|;
             && UnsignedAt(packet, 0, 4, 0x345C_0651) && rows.winner.Num? && UnsignedAt(packet, 4, 1, rows.winner.n)
             && UnsignedAt(packet, 5, 4, h) && Shows(packet, 9, RowsImage(rows.humans, GameResult.HUMAN))
             && UnsignedAt(packet, 9 + 212 * h, 4, a)
             && Shows(packet, 13 + 212 * h, RowsImage(rows.ais, GameResult.AI))
             && Shows(packet, 13 + 212 * h + 22 * a, RowImage(rows.stage, GameResult.STAGE))
    ensures ResultAt(packet, g)
  {
    hide UnsignedAt, RowsSuit, Shows, RowsImage, RowImage, HumanAt, AiAt, GameResult.HumanFields, GameResult.AiFields;
    HumansStand(packet, 9, g, p);
    AisStand(packet, 13 + 212 * |g.humans|, g, p);
    StageStands(packet, 13 + 212 * |g.humans| + 22 * |g.ais|, GameResult.RowsOf(g, p).stage);
  }

  lemma NumberStands(packet: seq<byte>, at: nat, n: nat)
    requires n < 0x1_0000_0000 && Shows(packet, at, Digits(n, 4))
    ensures UnsignedAt(packet, at, 4, n)
  {
    hide Digits, Natural;
    Pow256Values();
    DigitsNatural(n, 4);
  }

  lemma HumansStand(packet: seq<byte>, at: nat, g: GameResult.GameResult, p: GameResult.Padding)
    requires GameResult.Fits(g, p)
    requires Shows(packet, at, RowsImage(GameResult.RowsOf(g, p).humans, GameResult.HUMAN))
    ensures forall i :: 0 <= i < |g.humans| ==> HumanAt(packet, at + 212 * i, g.humans[i])
  {
    hide HumanAt, RowSuits, Shows, RowsImage, RowImage, Layout.Width, Suits;
    hide GameResult.HumanFields, GameResult.AiFields;
    GameResult.HumanWidth();
    var vss := GameResult.RowsOf(g, p).humans;
    forall i | 0 <= i < |g.humans|
      ensures HumanAt(packet, at + 212 * i, g.humans[i])
    {
      RowPlaced(packet, at, vss, GameResult.HUMAN, 212, i);
      assert RowSuits(vss[i], GameResult.HUMAN);
      HumanStands(packet, at + 212 * i, g.humans[i], p.humans[i]);
    }
  }

  lemma AisStand(packet: seq<byte>, at: nat, g: GameResult.GameResult, p: GameResult.Padding)
    requires GameResult.Fits(g, p)
    requires Shows(packet, at, RowsImage(GameResult.RowsOf(g, p).ais, GameResult.AI))
    ensures forall j :: 0 <= j < |g.ais| ==> AiAt(packet, at + 22 * j, g.ais[j])
  {
    hide AiAt, RowSuits, Shows, RowsImage, RowImage, Layout.Width, GameResult.HumanFields, GameResult.AiFields, Suits;
    GameResult.AiWidth();
    var vss := GameResult.RowsOf(g, p).ais;
    forall j | 0 <= j < |g.ais|
      ensures AiAt(packet, at + 22 * j, g.ais[j])
    {
      RowPlaced(packet, at, vss, GameResult.AI, 22, j);
      assert RowSuits(vss[j], GameResult.AI);
      AiStands(packet, at + 22 * j, g.ais[j], p.ais[j]);
    }
  }

  lemma StageStands(packet: seq<byte>, s: nat, vs: seq<Val>)
    requires RowSuits(vs, GameResult.STAGE) && Shows(packet, s, RowImage(vs, GameResult.STAGE))
    ensures UnsignedAt(packet, s + 34, 4, NumAt(vs, 1)) && UnsignedAt(packet, s + 38, 1, NumAt(vs, 2))
  {
    hide FieldsImage, Shows, Reach, UnsignedAt, SignedAt;
    var ks := GameResult.STAGE.fields;
    ReachNone(vs, ks);
    Place(packet, s, vs, ks, 0, 0);
    Place(packet, s, vs, ks, 1, 34);
    Place(packet, s, vs, ks, 2, 38);
  }

  // --------------------------------------------------------------- slot data

  function NameSize(text: string): nat {
    4 + 2 * |Utf16.Units(text)|
  }

  lemma NameImageSize(text: string)
    ensures |NameImage(text)| == NameSize(text)
  {
  }

  /** A name within its limit. */
  predicate LimitedAt(packet: seq<byte>, at: nat, text: string, maximum: nat) {
    NameAt(packet, at, text) && |Utf16.Units(text)| <= maximum
  }

  /** One name of a row. */
  lemma NextName(packet: seq<byte>, s: nat, vs: seq<Val>, ks: seq<Kind>, i: nat, offset: nat, text: string,
                 maximum: nat)
    requires RowAt(packet, s, vs, ks) && Reaches(vs, ks, i, offset)
    requires i < |ks| && ks[i].Name? && ks[i].maximum == maximum
    requires i < |vs| ==> vs[i] == Str(text)
    ensures LimitedAt(packet, s + offset, text, maximum) && Reaches(vs, ks, i + 1, offset + NameSize(text))
  {
    hide Reach;
    Place(packet, s, vs, ks, i, offset);
    NameImageSize(text);
  }

  /** The beginning of a player row, which is the whole of an observer row. */
  predicate RiderAt(packet: seq<byte>, s: nat, playerType: int, userNo: int, p2p: Room.Endpoint,
                    secondary: Room.Endpoint, nickname: string)
  {
    && SignedAt(packet, s, 4, playerType) && UnsignedAt(packet, s + 4, 4, userNo)
    && Shows(packet, s + 8, p2p.address) && UnsignedAt(packet, s + 12, 2, p2p.port)
    && Shows(packet, s + 14, secondary.address) && UnsignedAt(packet, s + 18, 2, secondary.port)
    && LimitedAt(packet, s + 20, nickname, 32)
  }

  /** Emblems, items and card, behind the nickname. */
  predicate ItemsAt(packet: seq<byte>, c: nat, p: Room.Player) {
    && |p.emblems| == 3 && UnsignedAt(packet, c, 2, p.emblems[0]) && UnsignedAt(packet, c + 2, 2, p.emblems[1])
    && UnsignedAt(packet, c + 4, 2, p.emblems[2]) && Shows(packet, c + 6, p.riderItems)
    && LimitedAt(packet, c + 71, p.card, 128)
  }

  /** Points, team and ranking, behind the card. */
  predicate RanksAt(packet: seq<byte>, d: nat, p: Room.Player) {
    UnsignedAt(packet, d, 4, p.rp) && UnsignedAt(packet, d + 4, 1, p.team) && SignedAt(packet, d + 5, 4, p.ranking)
  }

  /** School and club, 63 bytes behind the card. */
  predicate ClubAt(packet: seq<byte>, e: nat, p: Room.Player) {
    && UnsignedAt(packet, e, 1, p.riderSchoolLevel) && LimitedAt(packet, e + 1, p.clubName, 64)
    && SignedAt(packet, e + 1 + NameSize(p.clubName), 4, p.clubMarkLogo)
  }

  predicate PlayerAt(packet: seq<byte>, s: nat, p: Room.Player) {
    var c := s + 20 + NameSize(p.nickname);
    var d := c + 71 + NameSize(p.card);
    && RiderAt(packet, s, p.playerType, p.userNo, p.p2p, p.secondary, p.nickname)
    && ItemsAt(packet, c, p) && RanksAt(packet, d, p) && ClubAt(packet, d + 63, p)
  }

  function MemberSize(m: Room.Member): nat {
    match m
    case Empty => 4
    case Closed(_) => 4
    case Computer(_) => 17
    case Human(p) => 176 + NameSize(p.nickname) + NameSize(p.card) + NameSize(p.clubName)
  }

  predicate MemberAt(packet: seq<byte>, s: nat, m: Room.Member) {
    match m
    case Empty => SignedAt(packet, s, 4, 0)
    case Closed(t) => t == 1 && SignedAt(packet, s, 4, 1)
    case Computer(a) =>
      && SignedAt(packet, s, 4, 7) && SignedAt(packet, s + 4, 2, a.character) && SignedAt(packet, s + 6, 2, a.rider)
      && SignedAt(packet, s + 8, 2, a.kart) && SignedAt(packet, s + 10, 2, a.balloon)
      && SignedAt(packet, s + 12, 2, a.headBand) && SignedAt(packet, s + 14, 2, a.goggle)
      && UnsignedAt(packet, s + 16, 1, a.team)
    case Human(p) => PlayerAt(packet, s, p)
  }

  function ObserverSize(o: Text.Option<Room.Observer>): nat {
    match o
    case None => 4
    case Some(w) => 20 + NameSize(w.nickname)
  }

  predicate ObserverAt(packet: seq<byte>, s: nat, o: Text.Option<Room.Observer>) {
    match o
    case None => SignedAt(packet, s, 4, 0)
    case Some(w) => RiderAt(packet, s, w.playerType, w.userNo, w.p2p, w.secondary, w.nickname)
  }

  predicate RiderKinds(ks: seq<Kind>) {
    && |ks| >= 7
    && ks[0] == Int(4) && ks[1] == Nat(4) && ks[2] == Raw(4) && ks[3] == Nat(2) && ks[4] == Raw(4) && ks[5] == Nat(2)
    && ks[6].Name? && ks[6].maximum == 32
  }

  predicate RiderValues(vs: seq<Val>, playerType: int, userNo: int, p2p: Room.Endpoint, secondary: Room.Endpoint,
                        nickname: string)
  {
    && |vs| >= 7
    && vs[0] == Num(playerType) && vs[1] == Num(userNo) && vs[2] == Blob(p2p.address) && vs[3] == Num(p2p.port)
    && vs[4] == Blob(secondary.address) && vs[5] == Num(secondary.port) && vs[6] == Str(nickname)
  }

  lemma RiderStands(packet: seq<byte>, s: nat, vs: seq<Val>, ks: seq<Kind>, playerType: int, userNo: int,
                    p2p: Room.Endpoint, secondary: Room.Endpoint, nickname: string)
    requires RowAt(packet, s, vs, ks) && Reaches(vs, ks, 0, 0) && RiderKinds(ks)
    requires RiderValues(vs, playerType, userNo, p2p, secondary, nickname)
    ensures RiderAt(packet, s, playerType, userNo, p2p, secondary, nickname)
    ensures Reaches(vs, ks, 7, 20 + NameSize(nickname))
  {
    hide RowAt, Reaches, UnsignedAt, SignedAt, LimitedAt, Shows, NameSize;
    Next(packet, s, vs, ks, 0, 0, Int(4));
    Next(packet, s, vs, ks, 1, 4, Nat(4));
    Next(packet, s, vs, ks, 2, 8, Raw(4));
    Next(packet, s, vs, ks, 3, 12, Nat(2));
    Next(packet, s, vs, ks, 4, 14, Raw(4));
    Next(packet, s, vs, ks, 5, 18, Nat(2));
    NextName(packet, s, vs, ks, 6, 20, nickname, 32);
  }

  predicate ItemsKinds(ks: seq<Kind>) {
    && |ks| >= 12
    && ks[7] == Nat(2) && ks[8] == Nat(2) && ks[9] == Nat(2) && ks[10] == Raw(65)
    && ks[11] == Name("rider card", 128)
  }

  predicate ItemsValues(vs: seq<Val>, p: Room.Player) {
    && |vs| >= 12 && |p.emblems| == 3
    && vs[7] == Num(p.emblems[0]) && vs[8] == Num(p.emblems[1]) && vs[9] == Num(p.emblems[2])
    && vs[10] == Blob(p.riderItems) && vs[11] == Str(p.card)
  }

  lemma ItemsStand(packet: seq<byte>, s: nat, vs: seq<Val>, ks: seq<Kind>, p: Room.Player, c: nat)
    requires RowAt(packet, s, vs, ks) && Reaches(vs, ks, 7, c) && ItemsKinds(ks) && ItemsValues(vs, p)
    ensures ItemsAt(packet, s + c, p) && Reaches(vs, ks, 12, c + 71 + NameSize(p.card))
  {
    hide RowAt, Reaches, UnsignedAt, SignedAt, LimitedAt, Shows, NameSize;
    Next(packet, s, vs, ks, 7, c, Nat(2));
    Next(packet, s, vs, ks, 8, c + 2, Nat(2));
    Next(packet, s, vs, ks, 9, c + 4, Nat(2));
    Next(packet, s, vs, ks, 10, c + 6, Raw(65));
    NextName(packet, s, vs, ks, 11, c + 71, p.card, 128);
  }

  predicate RankKinds(ks: seq<Kind>) {
    && |ks| == 26
    && ks[12] == Nat(4) && ks[13] == Nat(1) && ks[14] == Int(4) && ks[15] == Raw(30) && ks[16] == Int(4)
    && ks[17] == Int(4) && ks[18] == Int(4) && ks[19] == Int(4) && ks[20] == Int(4) && ks[21] == Raw(4)
  }

  predicate ClubKinds(ks: seq<Kind>) {
    && |ks| == 26 && ks[22] == Nat(1) && ks[23] == Name("club name", 64) && ks[24] == Int(4) && ks[25] == Raw(17)
  }

  predicate RankValues(vs: seq<Val>, p: Room.Player) {
    && |vs| == 26 && vs[12] == Num(p.rp) && vs[13] == Num(p.team) && vs[14] == Num(p.ranking)
    && vs[22] == Num(p.riderSchoolLevel) && vs[23] == Str(p.clubName) && vs[24] == Num(p.clubMarkLogo)
  }

  lemma RanksStand(packet: seq<byte>, s: nat, vs: seq<Val>, ks: seq<Kind>, p: Room.Player, d: nat)
    requires RowAt(packet, s, vs, ks) && Reaches(vs, ks, 12, d) && RankKinds(ks) && RankValues(vs, p)
    ensures RanksAt(packet, s + d, p) && Reaches(vs, ks, 22, d + 63)
  {
    hide RowAt, Reaches, UnsignedAt, SignedAt, LimitedAt, Shows;
    Next(packet, s, vs, ks, 12, d, Nat(4));
    Next(packet, s, vs, ks, 13, d + 4, Nat(1));
    Next(packet, s, vs, ks, 14, d + 5, Int(4));
    Next(packet, s, vs, ks, 15, d + 9, Raw(30));
    Next(packet, s, vs, ks, 16, d + 39, Int(4));
    Next(packet, s, vs, ks, 17, d + 43, Int(4));
    Next(packet, s, vs, ks, 18, d + 47, Int(4));
    Next(packet, s, vs, ks, 19, d + 51, Int(4));
    Next(packet, s, vs, ks, 20, d + 55, Int(4));
    Next(packet, s, vs, ks, 21, d + 59, Raw(4));
  }

  lemma ClubStands(packet: seq<byte>, s: nat, vs: seq<Val>, ks: seq<Kind>, p: Room.Player, e: nat)
    requires RowAt(packet, s, vs, ks) && Reaches(vs, ks, 22, e) && ClubKinds(ks) && RankValues(vs, p)
    ensures ClubAt(packet, s + e, p)
    ensures Reaches(vs, ks, 26, e + 22 + NameSize(p.clubName))
  {
    hide RowAt, Reaches, UnsignedAt, SignedAt, LimitedAt, Shows, NameSize;
    Next(packet, s, vs, ks, 22, e, Nat(1));
    NextName(packet, s, vs, ks, 23, e + 1, p.clubName, 64);
    Next(packet, s, vs, ks, 24, e + 1 + NameSize(p.clubName), Int(4));
    Next(packet, s, vs, ks, 25, e + 5 + NameSize(p.clubName), Raw(17));
  }

  lemma PlayerKindsAre()
    ensures RiderKinds(Room.PLAYER) && ItemsKinds(Room.PLAYER) && RankKinds(Room.PLAYER) && ClubKinds(Room.PLAYER)
  {
    hide RiderKinds, ItemsKinds, RankKinds, ClubKinds;
    RiderKindsAre();
    ItemsKindsAre();
    RankKindsAre();
    ClubKindsAre();
  }

  lemma RiderKindsAre()
    ensures RiderKinds(Room.PLAYER) && Room.PLAYER[6].caption == "rider nickname"
  {
  }

  lemma ItemsKindsAre()
    ensures ItemsKinds(Room.PLAYER)
  {
  }

  lemma RankKindsAre()
    ensures RankKinds(Room.PLAYER)
  {
  }

  lemma ClubKindsAre()
    ensures ClubKinds(Room.PLAYER)
  {
  }

  lemma WatcherKindsAre()
    ensures RiderKinds(Room.WATCHER) && |Room.WATCHER| == 7 && Room.WATCHER[6].caption == "observer nickname"
  {
  }

  lemma PlayerStands(packet: seq<byte>, s: nat, p: Room.Player, pad: Room.PlayerPad)
    requires |p.emblems| == 3 && |pad.counters| == 5
    requires RowAt(packet, s, Room.PlayerFields(p, pad), Room.PLAYER)
    ensures PlayerAt(packet, s, p)
    ensures |FieldsImage(Room.PlayerFields(p, pad), Room.PLAYER)| == MemberSize(Room.Human(p))
  {
    hide RowAt, Reaches, RiderAt, RiderKinds, ItemsKinds, RankKinds, ClubKinds, UnsignedAt, SignedAt, LimitedAt, Shows;
    hide Room.PlayerFields, NameSize, RiderValues, ItemsValues, RankValues, ItemsAt, RanksAt, ClubAt, FieldsImage;
    var vs, ks := Room.PlayerFields(p, pad), Room.PLAYER;
    PlayerKindsAre();
    RiderValuesAre(p, pad);
    ItemsValuesAre(p, pad);
    RankValuesAre(p, pad);
    RowSuitsThere(packet, s, vs, ks);
    ReachesNone(vs, ks);
    RiderStands(packet, s, vs, ks, p.playerType, p.userNo, p.p2p, p.secondary, p.nickname);
    var c := 20 + NameSize(p.nickname);
    ItemsStand(packet, s, vs, ks, p, c);
    var d := c + 71 + NameSize(p.card);
    RanksStand(packet, s, vs, ks, p, d);
    ClubStands(packet, s, vs, ks, p, d + 63);
    ReachesEnd(vs, ks, d + 85 + NameSize(p.clubName));
  }

  lemma RowSuitsThere(packet: seq<byte>, s: nat, vs: seq<Val>, ks: seq<Kind>)
    requires RowAt(packet, s, vs, ks)
    ensures AllSuit(vs, ks)
  {
  }

  lemma RiderValuesAre(p: Room.Player, pad: Room.PlayerPad)
    requires |p.emblems| == 3 && |pad.counters| == 5
    ensures RiderValues(Room.PlayerFields(p, pad), p.playerType, p.userNo, p.p2p, p.secondary, p.nickname)
  {
  }

  lemma ItemsValuesAre(p: Room.Player, pad: Room.PlayerPad)
    requires |p.emblems| == 3 && |pad.counters| == 5
    ensures ItemsValues(Room.PlayerFields(p, pad), p)
  {
  }

  lemma RankValuesAre(p: Room.Player, pad: Room.PlayerPad)
    requires |p.emblems| == 3 && |pad.counters| == 5
    ensures RankValues(Room.PlayerFields(p, pad), p)
  {
  }

  lemma {:induction false} ReachAll(vs: seq<Val>, ks: seq<Kind>)
    requires AllSuit(vs, ks)
    ensures Reach(vs, ks, |ks|) == |FieldsImage(vs, ks)|
    decreases ks
  {
    hide Suits, FieldImage;
    if ks != [] { ReachAll(vs[1..], ks[1..]); }
  }

  lemma ReachesEnd(vs: seq<Val>, ks: seq<Kind>, size: nat)
    requires AllSuit(vs, ks) && Reaches(vs, ks, |ks|, size)
    ensures |FieldsImage(vs, ks)| == size
  {
    hide AllSuit, Reach, FieldsImage;
    ReachAll(vs, ks);
  }

  lemma AiKindsAre()
    ensures var ks := Room.AI;
            && |ks| == 8 && ks[0] == Int(4) && ks[1] == Int(2) && ks[2] == Int(2) && ks[3] == Int(2) && ks[4] == Int(2)
            && ks[5] == Int(2) && ks[6] == Int(2) && ks[7] == Nat(1)
  {
  }

  lemma ComputerStands(packet: seq<byte>, s: nat, a: Room.Ai)
    requires RowAt(packet, s, Room.AiFields(a), Room.AI)
    ensures MemberAt(packet, s, Room.Computer(a))
    ensures |FieldsImage(Room.AiFields(a), Room.AI)| == 17
  {
    hide RowAt, Reaches, UnsignedAt, SignedAt, FieldsImage;
    var vs, ks := Room.AiFields(a), Room.AI;
    AiKindsAre();
    RowSuitsThere(packet, s, vs, ks);
    ReachesNone(vs, ks);
    Next(packet, s, vs, ks, 0, 0, Int(4));
    Next(packet, s, vs, ks, 1, 4, Int(2));
    Next(packet, s, vs, ks, 2, 6, Int(2));
    Next(packet, s, vs, ks, 3, 8, Int(2));
    Next(packet, s, vs, ks, 4, 10, Int(2));
    Next(packet, s, vs, ks, 5, 12, Int(2));
    Next(packet, s, vs, ks, 6, 14, Int(2));
    Next(packet, s, vs, ks, 7, 16, Nat(1));
    ReachesEnd(vs, ks, 17);
  }

  /** A lone tag. */
  lemma TagStands(packet: seq<byte>, s: nat, tag: int)
    requires RowAt(packet, s, [Num(tag)], [Int(4)])
    ensures SignedAt(packet, s, 4, tag) && |FieldsImage([Num(tag)], [Int(4)])| == 4
  {
    hide RowAt, Reaches, UnsignedAt, SignedAt, FieldsImage;
    var vs, ks := [Num(tag)], [Int(4)];
    RowSuitsThere(packet, s, vs, ks);
    ReachesNone(vs, ks);
    Next(packet, s, vs, ks, 0, 0, Int(4));
    ReachesEnd(vs, ks, 4);
  }

  lemma MemberKinds(m: Room.Member, pad: Room.PlayerPad)
    requires Room.Writable(m, pad)
    ensures var vs := Room.MemberFields(m, pad);
            Room.MEMBER.Kinds(vs) == match m
                                     case Empty => [Int(4)]
                                     case Closed(_) => [Int(4)]
                                     case Computer(_) => Room.AI
                                     case Human(_) => Room.PLAYER
  {
  }

  lemma MemberStands(packet: seq<byte>, s: nat, m: Room.Member, pad: Room.PlayerPad)
    requires Room.Writable(m, pad) && RowSuits(Room.MemberFields(m, pad), Room.MEMBER)
    requires Shows(packet, s, RowImage(Room.MemberFields(m, pad), Room.MEMBER))
    ensures MemberAt(packet, s, m) && |RowImage(Room.MemberFields(m, pad), Room.MEMBER)| == MemberSize(m)
  {
    hide AllSuit, Shows, FieldsImage, PlayerAt, SignedAt, UnsignedAt, Room.PlayerFields, Room.AiFields;
    MemberKinds(m, pad);
    var vs := Room.MemberFields(m, pad);
    match m {
      case Empty => TagStands(packet, s, 0);
      case Closed(t) => TagStands(packet, s, t);
      case Computer(a) => ComputerStands(packet, s, a);
      case Human(p) => PlayerStands(packet, s, p, pad);
    }
  }

  lemma ObserverKinds(o: Text.Option<Room.Observer>)
    requires o.Some? ==> o.value.playerType != 0
    ensures Room.OBSERVER.Kinds(Room.ObserverFields(o)) == if o.None? then [Int(4)] else Room.WATCHER
  {
  }

  lemma WatcherStands(packet: seq<byte>, s: nat, w: Room.Observer)
    requires RowAt(packet, s, Room.ObserverFields(Text.Some(w)), Room.WATCHER)
    ensures RiderAt(packet, s, w.playerType, w.userNo, w.p2p, w.secondary, w.nickname)
    ensures |FieldsImage(Room.ObserverFields(Text.Some(w)), Room.WATCHER)| == 20 + NameSize(w.nickname)
  {
    hide RowAt, Reaches, RiderAt, FieldsImage, NameSize, RiderKinds;
    var vs, ks := Room.ObserverFields(Text.Some(w)), Room.WATCHER;
    WatcherKindsAre();
    RowSuitsThere(packet, s, vs, ks);
    ReachesNone(vs, ks);
    assert RiderValues(vs, w.playerType, w.userNo, w.p2p, w.secondary, w.nickname);
    RiderStands(packet, s, vs, ks, w.playerType, w.userNo, w.p2p, w.secondary, w.nickname);
    ReachesEnd(vs, ks, 20 + NameSize(w.nickname));
  }

  lemma ObserverStands(packet: seq<byte>, s: nat, o: Text.Option<Room.Observer>)
    requires o.Some? ==> o.value.playerType != 0
    requires RowSuits(Room.ObserverFields(o), Room.OBSERVER)
    requires Shows(packet, s, RowImage(Room.ObserverFields(o), Room.OBSERVER))
    ensures ObserverAt(packet, s, o) && |RowImage(Room.ObserverFields(o), Room.OBSERVER)| == ObserverSize(o)
  {
    hide AllSuit, Shows, FieldsImage, RiderAt, SignedAt, UnsignedAt;
    ObserverKinds(o);
    if o.None? { TagStands(packet, s, 0); } else { WatcherStands(packet, s, o.value); }
  }

  function MembersSize(ms: seq<Room.Member>): nat {
    if ms == [] then 0 else MemberSize(ms[0]) + MembersSize(ms[1..])
  }

  function ObserversSize(os: seq<Text.Option<Room.Observer>>): nat {
    if os == [] then 0 else ObserverSize(os[0]) + ObserversSize(os[1..])
  }

  ghost predicate MembersAt(packet: seq<byte>, at: nat, ms: seq<Room.Member>) {
    forall i :: 0 <= i < |ms| ==> MemberAt(packet, at + MembersSize(ms[..i]), ms[i])
  }

  ghost predicate ObserversAt(packet: seq<byte>, at: nat, os: seq<Text.Option<Room.Observer>>) {
    forall i :: 0 <= i < |os| ==> ObserverAt(packet, at + ObserversSize(os[..i]), os[i])
  }

  lemma {:induction false} MembersStand(packet: seq<byte>, at: nat, ms: seq<Room.Member>, pads: seq<Room.PlayerPad>,
                                        vss: seq<seq<Val>>)
    requires |ms| == |pads| == |vss|
    requires forall i :: 0 <= i < |ms| ==> Room.Writable(ms[i], pads[i]) && vss[i] == Room.MemberFields(ms[i], pads[i])
    requires RowsSuit(vss, Room.MEMBER) && Shows(packet, at, RowsImage(vss, Room.MEMBER))
    ensures MembersAt(packet, at, ms) && |RowsImage(vss, Room.MEMBER)| == MembersSize(ms)
    decreases |ms|
  {
    hide Room.Writable, Room.MemberFields, RowSuits, RowImage, Shows, MemberAt, MemberSize;
    if ms != [] {
      assert RowSuits(vss[0], Room.MEMBER);
      var first := RowImage(vss[0], Room.MEMBER);
      ShowsSplit(packet, at, first, RowsImage(vss[1..], Room.MEMBER));
      MemberStands(packet, at, ms[0], pads[0]);
      MembersStand(packet, at + |first|, ms[1..], pads[1..], vss[1..]);
      forall i | 0 <= i < |ms|
        ensures MemberAt(packet, at + MembersSize(ms[..i]), ms[i])
      {
        if i > 0 {
          assert ms[..i][1..] == ms[1..][..i - 1] && ms[..i][0] == ms[0];
          assert MemberAt(packet, at + |first| + MembersSize(ms[1..][..i - 1]), ms[1..][i - 1]);
        }
      }
    }
  }

  lemma {:induction false} ObserversStand(packet: seq<byte>, at: nat, os: seq<Text.Option<Room.Observer>>,
                                          vss: seq<seq<Val>>)
    requires |os| == |vss|
    requires forall i :: 0 <= i < |os| ==>
               vss[i] == Room.ObserverFields(os[i]) && (os[i].Some? ==> os[i].value.playerType != 0)
    requires RowsSuit(vss, Room.OBSERVER) && Shows(packet, at, RowsImage(vss, Room.OBSERVER))
    ensures ObserversAt(packet, at, os) && |RowsImage(vss, Room.OBSERVER)| == ObserversSize(os)
    decreases |os|
  {
    hide Room.ObserverFields, RowSuits, RowImage, Shows, ObserverAt, ObserverSize;
    if os != [] {
      assert RowSuits(vss[0], Room.OBSERVER);
      var first := RowImage(vss[0], Room.OBSERVER);
      ShowsSplit(packet, at, first, RowsImage(vss[1..], Room.OBSERVER));
      ObserverStands(packet, at, os[0]);
      ObserversStand(packet, at + |first|, os[1..], vss[1..]);
      ObserversGrow(packet, at, os);
    }
  }

  lemma ObserversGrow(packet: seq<byte>, at: nat, os: seq<Text.Option<Room.Observer>>)
    requires os != [] && ObserverAt(packet, at, os[0])
    requires ObserversAt(packet, at + ObserverSize(os[0]), os[1..])
    ensures ObserversAt(packet, at, os)
  {
    hide ObserverAt, ObserverSize;
    forall i | 0 <= i < |os|
      ensures ObserverAt(packet, at + ObserversSize(os[..i]), os[i])
    {
      if i > 0 {
        assert os[..i][1..] == os[1..][..i - 1] && os[..i][0] == os[0];
        assert ObserverAt(packet, at + ObserverSize(os[0]) + ObserversSize(os[1..][..i - 1]), os[1..][i - 1]);
      }
    }
  }

  lemma HeadKinds()
    ensures var ks := Room.HEAD.fields;
            Room.HEAD.Plain? && |ks| == 5 && ks[0] == Nat(4) && ks[1] == Nat(4) && ks[2] == Raw(32) && ks[3] == Int(4)
            && ks[4] == Raw(11)
  {
  }

  predicate HeadAt(packet: seq<byte>, s: nat, d: Room.SlotData) {
    && UnsignedAt(packet, s, 4, d.track) && UnsignedAt(packet, s + 4, 4, d.roomDataHeader)
    && |d.roomData| == 32 && Shows(packet, s + 8, d.roomData) && SignedAt(packet, s + 40, 4, d.roomMaster)
  }

  lemma RoomHeadStands(packet: seq<byte>, s: nat, vs: seq<Val>, ks: seq<Kind>, d: Room.SlotData)
    requires Plain(ks) == Room.HEAD && RowAt(packet, s, vs, ks) && |vs| == 5
    requires vs[0] == Num(d.track) && vs[1] == Num(d.roomDataHeader) && vs[2] == Blob(d.roomData)
    requires vs[3] == Num(d.roomMaster)
    ensures HeadAt(packet, s, d) && RowAt(packet, s, vs, ks) && AllSuit(vs, ks) && |FieldsImage(vs, ks)| == 55
  {
    hide RowAt, Reaches, UnsignedAt, SignedAt, FieldsImage, Shows;
    HeadKinds();
    RowSuitsThere(packet, s, vs, ks);
    ReachesNone(vs, ks);
    Next(packet, s, vs, ks, 0, 0, Nat(4));
    Next(packet, s, vs, ks, 1, 4, Nat(4));
    Next(packet, s, vs, ks, 2, 8, Raw(32));
    Next(packet, s, vs, ks, 3, 40, Int(4));
    Next(packet, s, vs, ks, 4, 44, Raw(11));
    ReachesEnd(vs, ks, 55);
  }

  predicate PositionsAt(packet: seq<byte>, s: nat, positions: seq<int>) {
    && |positions| == 8
    && SignedAt(packet, s, 4, positions[0]) && SignedAt(packet, s + 4, 4, positions[1])
    && SignedAt(packet, s + 8, 4, positions[2]) && SignedAt(packet, s + 12, 4, positions[3])
    && SignedAt(packet, s + 16, 4, positions[4]) && SignedAt(packet, s + 20, 4, positions[5])
    && SignedAt(packet, s + 24, 4, positions[6]) && SignedAt(packet, s + 28, 4, positions[7])
  }

  lemma PositionKinds()
    ensures var ks := Room.POSITIONS.fields;
            && Room.POSITIONS.Plain? && |ks| == 8
            && ks[0] == Int(4) && ks[1] == Int(4) && ks[2] == Int(4) && ks[3] == Int(4)
            && ks[4] == Int(4) && ks[5] == Int(4) && ks[6] == Int(4) && ks[7] == Int(4)
  {
  }

  lemma PositionsStand(packet: seq<byte>, s: nat, vs: seq<Val>, ks: seq<Kind>, positions: seq<int>)
    requires Plain(ks) == Room.POSITIONS && RowAt(packet, s, vs, ks) && |vs| == |positions| == 8
    requires forall i :: 0 <= i < 8 ==> vs[i] == Num(positions[i])
    ensures PositionsAt(packet, s, positions) && AllSuit(vs, ks) && |FieldsImage(vs, ks)| == 32
  {
    hide RowAt, Reaches, UnsignedAt, SignedAt, FieldsImage;
    PositionKinds();
    RowSuitsThere(packet, s, vs, ks);
    ReachesNone(vs, ks);
    Next(packet, s, vs, ks, 0, 0, Int(4));
    Next(packet, s, vs, ks, 1, 4, Int(4));
    Next(packet, s, vs, ks, 2, 8, Int(4));
    Next(packet, s, vs, ks, 3, 12, Int(4));
    Next(packet, s, vs, ks, 4, 16, Int(4));
    Next(packet, s, vs, ks, 5, 20, Int(4));
    Next(packet, s, vs, ks, 6, 24, Int(4));
    Next(packet, s, vs, ks, 7, 28, Int(4));
    ReachesEnd(vs, ks, 32);
  }

  /** A slot packet: hash, head, closed slots, 16 opaque bytes, the members, the observers and the eight positions. */
  ghost predicate SlotAt(packet: seq<byte>, d: Room.SlotData) {
    var members := 79 + |d.closedSlotIds|;
    var observers := members + MembersSize(d.members);
    var positions := observers + ObserversSize(d.observers);
    && UnsignedAt(packet, 0, 4, 0x337C_062D) && HeadAt(packet, 4, d)
    && UnsignedAt(packet, 59, 4, |d.closedSlotIds|) && Shows(packet, 63, d.closedSlotIds)
    && MembersAt(packet, members, d.members) && ObserversAt(packet, observers, d.observers)
    && PositionsAt(packet, positions, d.slotPositions) && |packet| == positions + 32
  }

  lemma SeatsStand(packet: seq<byte>, at: nat, d: Room.SlotData, p: Room.Padding)
    requires Room.Fits(d, p) && Shows(packet, at, Room.SeatsImage(Room.RowsOf(d, p)))
    requires forall i :: 0 <= i < |d.observers| && d.observers[i].Some? ==> d.observers[i].value.playerType != 0
    ensures var observers := at + MembersSize(d.members);
            var positions := observers + ObserversSize(d.observers);
            && MembersAt(packet, at, d.members) && ObserversAt(packet, observers, d.observers)
            && PositionsAt(packet, positions, d.slotPositions)
            && at + |Room.SeatsImage(Room.RowsOf(d, p))| == positions + 32
  {
    hide RowSuits, Shows, RowsImage, FieldsImage, MembersAt, ObserversAt, PositionsAt, Room.MemberFields;
    hide Room.ObserverFields, Room.Writable, MembersSize, ObserversSize, AllSuit;
    var rows := Room.RowsOf(d, p);
    var m, o := RowsImage(rows.members, Room.MEMBER), RowsImage(rows.observers, Room.OBSERVER);
    var q := RowImage(rows.positions, Room.POSITIONS);
    ShowsSplit(packet, at, m, o + q);
    MembersStand(packet, at, d.members, p.members, rows.members);
    ShowsSplit(packet, at + |m|, o, q);
    ObserversStand(packet, at + |m|, d.observers, rows.observers);
    var ks := Room.POSITIONS.fields;
    PositionsRow(packet, at + |m| + |o|, rows.positions);
    PositionsStand(packet, at + |m| + |o|, rows.positions, ks, d.slotPositions);
  }

  lemma PositionsRow(packet: seq<byte>, at: nat, vs: seq<Val>)
    requires RowSuits(vs, Room.POSITIONS) && Shows(packet, at, RowImage(vs, Room.POSITIONS))
    ensures RowAt(packet, at, vs, Room.POSITIONS.fields)
  {
  }

  lemma ObserversTyped(packet: seq<byte>)
    requires Room.Decoded(packet).Ok?
    ensures var os := Room.Decoded(packet).value.observers;
            forall i :: 0 <= i < |os| && os[i].Some? ==> os[i].value.playerType != 0
  {
    hide Room.ReadPacket, Room.MemberOf, Room.PositionsOf;
  }

  /** Every field of an accepted slot packet, member rows and names of any length included, at its place. */
  lemma SlotOffsets(packet: seq<byte>)
    requires Room.Decoded(packet).Ok?
    ensures SlotAt(packet, Room.Decoded(packet).value)
  {
    hide Room.Decoded, Room.Packet, Room.Fits, SlotAt;
    Room.Accepted(packet);
    ObserversTyped(packet);
    var d := Room.Decoded(packet).value;
    var p :| Room.Fits(d, p) && packet == Room.Packet(d, p);
    SlotStands(packet, d, p);
  }

  lemma SlotStands(packet: seq<byte>, d: Room.SlotData, p: Room.Padding)
    requires Room.Fits(d, p) && packet == Room.Packet(d, p)
    requires forall i :: 0 <= i < |d.observers| && d.observers[i].Some? ==> d.observers[i].value.playerType != 0
    ensures SlotAt(packet, d)
  {
    hide RowSuits, Shows, RowImage, FieldsImage, MembersAt, ObserversAt, PositionsAt, HeadAt, UnsignedAt, Digits;
    hide Room.SeatsImage, MembersSize, ObserversSize, Room.MemberFields, Room.ObserverFields, Room.Writable, RowsSuit;
    var rows := Room.RowsOf(d, p);
    assert packet[0..0 + |packet|] == packet;
    ShowsMeans(packet, 0, packet);
    var head, closed := RowImage(rows.head, Room.HEAD), Room.ClosedImage(rows.closed);
    var gap, seats := RowImage(rows.gap, Room.GAP), Room.SeatsImage(rows);
    ShowsSplit(packet, 0, Digits(Room.SLOT_DATA_HASH, 4), head + (closed + (gap + seats)));
    NumberStands(packet, 0, Room.SLOT_DATA_HASH);
    ShowsSplit(packet, 4, head, closed + (gap + seats));
    HeadRow(packet, 4, d, p);
    ShowsSplit(packet, 59, closed, gap + seats);
    ShowsSplit(packet, 59, Digits(|rows.closed|, 4), rows.closed);
    NumberStands(packet, 59, |rows.closed|);
    GapSize(rows.gap);
    ShowsSplit(packet, 63 + |rows.closed|, gap, seats);
    SeatsStand(packet, 79 + |rows.closed|, d, p);
  }

  lemma HeadRow(packet: seq<byte>, s: nat, d: Room.SlotData, p: Room.Padding)
    requires Room.Fits(d, p) && Shows(packet, s, RowImage(Room.RowsOf(d, p).head, Room.HEAD))
    ensures HeadAt(packet, s, d) && |RowImage(Room.RowsOf(d, p).head, Room.HEAD)| == 55
  {
    hide Shows, FieldsImage, HeadAt, RowsSuit, Room.MemberFields, Room.ObserverFields, Room.Writable, AllSuit;
    RoomHeadStands(packet, s, Room.RowsOf(d, p).head, Room.HEAD.fields, d);
  }

  lemma GapSize(vs: seq<Val>)
    requires RowSuits(vs, Room.GAP)
    ensures |RowImage(vs, Room.GAP)| == 16
  {
    RowWidth(vs, Room.GAP);
  }
}
