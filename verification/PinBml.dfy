/** The BML objects of a PIN file and the bounded wire format that holds them. */
module PinBml {
  import Text
  import opened LittleEndian
  import Utf16
  import opened Reading

  type Attributes = seq<(string, string)>

  datatype BmlObject = BmlObject(name: string, value: string, attributes: Attributes, children: seq<BmlObject>)

  datatype CodecLimits = CodecLimits(
    maxStringCodeUnits: nat, maxCollectionItems: nat, maxBmlDepth: nat, maxBmlNodes: nat)

  datatype PinCodecError =
    | LimitExceeded(kind: string, actual: nat, maximum: nat)
    | NegativeLength(field: string, number: int)
    | Truncated(offset: nat, needed: nat)
    | LengthOverflow(what: string)
    | DuplicateBmlAttribute(key: string)

  const USIZE_MAX: nat := 0xFFFF_FFFF_FFFF_FFFF
  const I32_MAX: nat := 0x7FFF_FFFF

  // ---------------------------------------------------------------- reading

  type Read<T> = ReadWith<T, PinCodecError>

  type Result<T> = ResultWith<T, PinCodecError>

  function ReadTake(input: seq<byte>, at: nat, length: nat): Read<seq<byte>> {
    if at + length <= |input| then Got(input[at..at + length], at + length) else Failed(Truncated(at, length))
  }

  function ReadCount(input: seq<byte>, at: nat, field: string, maximum: nat): Read<nat> {
    match ReadTake(input, at, 4)
    case Failed(e) => Failed(e)
    case Got(bytes, next) =>
      var signed := Signed(bytes);
      if signed < 0 then Failed(NegativeLength(field, signed))
      else if signed > maximum then Failed(LimitExceeded(field, signed, maximum))
      else Got(signed, next)
  }

  function ReadString(input: seq<byte>, at: nat, limits: CodecLimits): Read<string> {
    match ReadCount(input, at, "UTF-16 string", limits.maxStringCodeUnits)
    case Failed(e) => Failed(e)
    case Got(count, body) =>
      match ReadTake(input, body, 2 * count)
      case Failed(e) => Failed(e)
      case Got(bytes, next) => Got(Utf16.Lossy(Utf16.BytesUnits(bytes)), next)
  }

  predicate HasKey(attributes: Attributes, key: string) {
    exists i :: 0 <= i < |attributes| && attributes[i].0 == key
  }

  function ReadAttributes(input: seq<byte>, at: nat, limits: CodecLimits, count: nat, done: Attributes)
    : Read<Attributes>
    decreases count
  {
    if count == 0 then Got(done, at)
    else
      match ReadString(input, at, limits)
      case Failed(e) => Failed(e)
      case Got(key, middle) =>
        if HasKey(done, key) then Failed(DuplicateBmlAttribute(key))
        else
          match ReadString(input, middle, limits)
          case Failed(e) => Failed(e)
          case Got(value, next) => ReadAttributes(input, next, limits, count - 1, done + [(key, value)])
  }

  /** `BmlBudget::enter`: the node count after admitting one more node. */
  function Enter(nodes: nat, depth: nat, limits: CodecLimits): Read<nat> {
    if depth > limits.maxBmlDepth then Failed(LimitExceeded("BML depth", depth, limits.maxBmlDepth))
    else if nodes + 1 > USIZE_MAX then Failed(LengthOverflow("BML node count"))
    else if nodes + 1 > limits.maxBmlNodes then Failed(LimitExceeded("BML node count", nodes + 1, limits.maxBmlNodes))
    else Got(nodes + 1, 0)
  }

  function Room(depth: nat, limits: CodecLimits): nat {
    if depth <= limits.maxBmlDepth then limits.maxBmlDepth + 1 - depth else 0
  }

  /** A tree or a list of trees together with the node count that reading it leaves in the budget. */
  datatype Counted<+T> = Counted(value: T, nodes: nat)

  /** Everything of a node but its children. */
  datatype Header = Header(name: string, value: string, attributes: Attributes, children: nat)

  function ReadStrings(input: seq<byte>, at: nat, limits: CodecLimits): Read<(string, string)> {
    match ReadString(input, at, limits)
    case Failed(e) => Failed(e)
    case Got(first, middle) =>
      match ReadString(input, middle, limits)
      case Failed(e) => Failed(e)
      case Got(second, next) => Got((first, second), next)
  }

  function ReadAttributeList(input: seq<byte>, at: nat, limits: CodecLimits): Read<Attributes> {
    match ReadCount(input, at, "BML attribute count", limits.maxCollectionItems)
    case Failed(e) => Failed(e)
    case Got(count, body) => ReadAttributes(input, body, limits, count, [])
  }

  function ReadHeader(input: seq<byte>, at: nat, limits: CodecLimits): Read<Header> {
    match ReadStrings(input, at, limits)
    case Failed(e) => Failed(e)
    case Got(strings, p2) =>
      match ReadAttributeList(input, p2, limits)
      case Failed(e) => Failed(e)
      case Got(attributes, p4) =>
        match ReadCount(input, p4, "BML child count", limits.maxCollectionItems)
        case Failed(e) => Failed(e)
        case Got(children, p5) => Got(Header(strings.0, strings.1, attributes, children), p5)
  }

  function ReadBml(input: seq<byte>, at: nat, limits: CodecLimits, nodes: nat, depth: nat): Read<Counted<BmlObject>>
    decreases Room(depth, limits), 0
  {
    match Enter(nodes, depth, limits)
    case Failed(e) => Failed(e)
    case Got(entered, _) =>
      match ReadHeader(input, at, limits)
      case Failed(e) => Failed(e)
      case Got(h, body) =>
        if depth + 1 > USIZE_MAX then Failed(LengthOverflow("BML depth"))
        else
          match ReadChildren(input, body, limits, entered, depth + 1, h.children, [])
          case Failed(e) => Failed(e)
          case Got(children, next) =>
            Got(Counted(BmlObject(h.name, h.value, h.attributes, children.value), children.nodes), next)
  }

  function ReadChildren(input: seq<byte>, at: nat, limits: CodecLimits, nodes: nat, depth: nat,
                        count: nat, done: seq<BmlObject>): Read<Counted<seq<BmlObject>>>
    decreases Room(depth, limits), 1 + count
  {
    if count == 0 then Got(Counted(done, nodes), at)
    else
      match ReadBml(input, at, limits, nodes, depth)
      case Failed(e) => Failed(e)
      case Got(child, next) =>
        ReadChildren(input, next, limits, child.nodes, depth, count - 1, done + [child.value])
  }

  // ---------------------------------------------------------------- writing

  datatype Written = Wrote(output: seq<byte>, nodes: nat) | Refused(error: PinCodecError)

  function WriteBytes(output: seq<byte>, maximum: nat, bytes: seq<byte>, nodes: nat): Written {
    if |output| + |bytes| > maximum then Refused(LimitExceeded("PIN payload", |output| + |bytes|, maximum))
    else Wrote(output + bytes, nodes)
  }

  function WriteCount(output: seq<byte>, maximum: nat, value: nat, field: string, limit: nat, nodes: nat): Written {
    if value > limit then Refused(LimitExceeded(field, value, limit))
    else if value > I32_MAX then Refused(LengthOverflow(field))
    else WriteBytes(output, maximum, Digits(value, 4), nodes)
  }

  function WriteString(output: seq<byte>, maximum: nat, s: string, limits: CodecLimits, nodes: nat): Written {
    match WriteCount(output, maximum, |Utf16.Units(s)|, "UTF-16 string", limits.maxStringCodeUnits, nodes)
    case Refused(e) => Refused(e)
    case Wrote(out1, _) => WriteBytes(out1, maximum, Utf16.UnitBytes(Utf16.Units(s)), nodes)
  }

  function WriteStrings(output: seq<byte>, maximum: nat, s: string, t: string, limits: CodecLimits, nodes: nat)
    : Written
  {
    match WriteString(output, maximum, s, limits, nodes)
    case Refused(e) => Refused(e)
    case Wrote(out1, _) => WriteString(out1, maximum, t, limits, nodes)
  }

  function WriteAttributes(output: seq<byte>, maximum: nat, attributes: Attributes, limits: CodecLimits,
      nodes: nat): Written
    decreases attributes
  {
    if attributes == [] then Wrote(output, nodes)
    else
      match WriteStrings(output, maximum, attributes[0].0, attributes[0].1, limits, nodes)
      case Refused(e) => Refused(e)
      case Wrote(out2, _) => WriteAttributes(out2, maximum, attributes[1..], limits, nodes)
  }

  function WriteAttributeList(output: seq<byte>, maximum: nat, attributes: Attributes, limits: CodecLimits,
      nodes: nat): Written {
    match WriteCount(output, maximum, |attributes|, "BML attribute count", limits.maxCollectionItems, nodes)
    case Refused(e) => Refused(e)
    case Wrote(out1, _) => WriteAttributes(out1, maximum, attributes, limits, nodes)
  }

  function WriteHeader(output: seq<byte>, maximum: nat, t: BmlObject, limits: CodecLimits, nodes: nat): Written {
    match WriteStrings(output, maximum, t.name, t.value, limits, nodes)
    case Refused(e) => Refused(e)
    case Wrote(out2, _) =>
      match WriteAttributeList(out2, maximum, t.attributes, limits, nodes)
      case Refused(e) => Refused(e)
      case Wrote(out4, _) =>
        WriteCount(out4, maximum, |t.children|, "BML child count", limits.maxCollectionItems, nodes)
  }

  function WriteBml(output: seq<byte>, maximum: nat, t: BmlObject, limits: CodecLimits, nodes: nat, depth: nat): Written
    decreases t
  {
    match Enter(nodes, depth, limits)
    case Failed(e) => Refused(e)
    case Got(entered, _) =>
      match WriteHeader(output, maximum, t, limits, entered)
      case Refused(e) => Refused(e)
      case Wrote(out5, _) =>
        if depth + 1 > USIZE_MAX then Refused(LengthOverflow("BML depth"))
        else WriteChildren(out5, maximum, t.children, limits, entered, depth + 1)
  }

  function WriteChildren(output: seq<byte>, maximum: nat, ts: seq<BmlObject>, limits: CodecLimits, nodes: nat,
      depth: nat): Written
    decreases ts
  {
    if ts == [] then Wrote(output, nodes)
    else
      match WriteBml(output, maximum, ts[0], limits, nodes, depth)
      case Refused(e) => Refused(e)
      case Wrote(out1, nodes1) => WriteChildren(out1, maximum, ts[1..], limits, nodes1, depth)
  }

  // ------------------------------------------------------------ what is meant

  /** Number of nodes of a tree. */
  function Size(t: BmlObject): nat {
    1 + SizeAll(t.children)
  }

  function SizeAll(ts: seq<BmlObject>): nat {
    if ts == [] then 0 else Size(ts[0]) + SizeAll(ts[1..])
  }

  function StringImage(s: string): seq<byte> {
    Digits(|Utf16.Units(s)|, 4) + Utf16.UnitBytes(Utf16.Units(s))
  }

  function StringsImage(s: string, t: string): seq<byte> {
    StringImage(s) + StringImage(t)
  }

  function AttributesImage(attributes: Attributes): seq<byte> {
    if attributes == [] then []
    else StringsImage(attributes[0].0, attributes[0].1) + AttributesImage(attributes[1..])
  }

  function AttributeListImage(attributes: Attributes): seq<byte> {
    Digits(|attributes|, 4) + AttributesImage(attributes)
  }

  function HeaderImage(t: BmlObject): seq<byte> {
    (StringsImage(t.name, t.value) + AttributeListImage(t.attributes)) + Digits(|t.children|, 4)
  }

  /** The bytes of a tree, with no limit in the way. */
  function Image(t: BmlObject): seq<byte> {
    HeaderImage(t) + ImageAll(t.children)
  }

  function ImageAll(ts: seq<BmlObject>): seq<byte> {
    if ts == [] then [] else Image(ts[0]) + ImageAll(ts[1..])
  }

  predicate CountFits(n: nat, limit: nat) {
    n <= limit && n <= I32_MAX
  }

  predicate StringFits(s: string, limits: CodecLimits) {
    CountFits(|Utf16.Units(s)|, limits.maxStringCodeUnits)
  }

  predicate AttributesFit(attributes: Attributes, limits: CodecLimits) {
    forall i :: 0 <= i < |attributes| ==>
      StringFits(attributes[i].0, limits) && StringFits(attributes[i].1, limits)
  }

  predicate HeaderFits(t: BmlObject, limits: CodecLimits) {
    && StringFits(t.name, limits) && StringFits(t.value, limits)
    && CountFits(|t.attributes|, limits.maxCollectionItems)
    && AttributesFit(t.attributes, limits)
    && CountFits(|t.children|, limits.maxCollectionItems)
  }

  /** Every depth, count and string of the tree, rooted at this depth, is within the limits. */
  predicate Fits(t: BmlObject, limits: CodecLimits, depth: nat) {
    && depth <= limits.maxBmlDepth && depth < USIZE_MAX
    && HeaderFits(t, limits)
    && forall i :: 0 <= i < |t.children| ==> Fits(t.children[i], limits, depth + 1)
  }

  predicate AllFit(ts: seq<BmlObject>, limits: CodecLimits, depth: nat) {
    forall i :: 0 <= i < |ts| ==> Fits(ts[i], limits, depth)
  }

  predicate BudgetFits(nodes: nat, limits: CodecLimits) {
    nodes <= limits.maxBmlNodes && nodes <= USIZE_MAX
  }

  predicate DistinctKeys(attributes: Attributes) {
    forall i, j :: 0 <= i < j < |attributes| ==> attributes[i].0 != attributes[j].0
  }

  /** No node repeats an attribute key. */
  predicate NoDuplicates(t: BmlObject) {
    DistinctKeys(t.attributes) && forall i :: 0 <= i < |t.children| ==> NoDuplicates(t.children[i])
  }

  // ------------------------------------------------------- removing children

  /** `remove_direct_children_named`: what is kept of the children. */
  function Others(ts: seq<BmlObject>, name: string): seq<BmlObject> {
    if ts == [] then []
    else (if Text.SameText(ts[0].name, name) then [] else [ts[0]]) + Others(ts[1..], name)
  }

  /** How many trees have the name. */
  function NamedCount(ts: seq<BmlObject>, name: string): nat {
    if ts == [] then 0 else (if Text.SameText(ts[0].name, name) then 1 else 0) + NamedCount(ts[1..], name)
  }
}
