/**
 IPFIX messages (RFC 7011): the encoders that write them into a caller's buffer, and a collector that takes
 them apart knowing only the templates it has been sent.
 */
module Ipfix {
  import opened Common
  import opened Wire

  const VERSION: U16 := 10
  const SET_TEMPLATE: U16 := 2
  const SET_OPTIONS_TEMPLATE: U16 := 3
  const DATA_TEMPLATE: U16 := 256
  const OPTIONS_TEMPLATE: U16 := 257
  const HEADER_SIZE: nat := 16
  const SET_HEADER_SIZE: nat := 4
  const RECORD_SIZE: nat := 54
  const TEMPLATE_SET_SIZE: nat := 84
  const STRING_LEN: nat := 32

  // ---------------------------------------------------------------------------------------------
  // Flow records.

  datatype FlowRecord = FlowRecord(
    srcIP: Option<U32>, dstIP: Option<U32>, nextHop: Option<U32>,
    srcPort: U16, dstPort: U16, protocol: U8, tcpFlags: U8, tos: U8,
    octets: U64, packets: U32, startMs: U32, endMs: U32,
    inIface: U16, outIface: U16, srcAS: U16, dstAS: U16, srcMask: U8, dstMask: U8)

  /** An address that is not IPv4 is sent as 0.0.0.0. */
  function To4(ip: Option<U32>): U32 { if ip.Some? then ip.value else 0 }

  function Clamp32(n: U64): U32 { if n > 0xFFFF_FFFF then 0xFFFF_FFFF else n }

  const FIELD_COUNT: nat := 19

  /** The template, field by field. */
  function FieldAt(i: nat): Field
    requires i < FIELD_COUNT
  {
    match i
    case 0 => Field(1, 4)
    case 1 => Field(2, 4)
    case 2 => Field(4, 1)
    case 3 => Field(5, 1)
    case 4 => Field(6, 1)
    case 5 => Field(7, 2)
    case 6 => Field(8, 4)
    case 7 => Field(9, 1)
    case 8 => Field(10, 2)
    case 9 => Field(11, 2)
    case 10 => Field(12, 4)
    case 11 => Field(13, 1)
    case 12 => Field(14, 2)
    case 13 => Field(15, 4)
    case 14 => Field(16, 2)
    case 15 => Field(17, 2)
    case 16 => Field(152, 8)
    case 17 => Field(153, 8)
    case _ => Field(61, 1)
  }

  /** What a collector should read under each field: octets clamped, times absolute, direction ingress. */
  function ValueAt(r: FlowRecord, start: nat, i: nat): nat
    requires i < FIELD_COUNT
  {
    match i
    case 0 => Clamp32(r.octets)
    case 1 => r.packets
    case 2 => r.protocol
    case 3 => r.tos
    case 4 => r.tcpFlags
    case 5 => r.srcPort
    case 6 => To4(r.srcIP)
    case 7 => r.srcMask
    case 8 => r.inIface
    case 9 => r.dstPort
    case 10 => To4(r.dstIP)
    case 11 => r.dstMask
    case 12 => r.outIface
    case 13 => To4(r.nextHop)
    case 14 => r.srcAS
    case 15 => r.dstAS
    case 16 => start + r.startMs
    case 17 => start + r.endMs
    case _ => 0
  }

  function Template(): seq<Field> { seq(FIELD_COUNT, i requires 0 <= i < FIELD_COUNT => FieldAt(i)) }

  function RecordLayout(r: FlowRecord, start: nat): Layout {
    seq(FIELD_COUNT, i requires 0 <= i < FIELD_COUNT =>
      Content(FieldAt(i).ie, BigEndian(ValueAt(r, start, i), FieldAt(i).width)))
  }

  function RecordLayouts(rs: seq<FlowRecord>, start: nat): seq<Layout> {
    seq(|rs|, i requires 0 <= i < |rs| => RecordLayout(rs[i], start))
  }

  lemma LayoutMatches(r: FlowRecord, start: nat)
    ensures Matches(RecordLayout(r, start), Template())
  {
  }

  function Widths(n: nat): nat
    requires n <= FIELD_COUNT
  {
    if n == 0 then 0 else Widths(n - 1) + FieldAt(n - 1).width
  }

  lemma {:induction false} TotalIsWidths(n: nat)
    requires n <= FIELD_COUNT
    ensures Total(Template()[..n]) == Widths(n)
  {
    if n > 0 {
      TotalIsWidths(n - 1);
      assert Template()[..n][..n - 1] == Template()[..n - 1];
    }
  }

  /** The field list adds up to the record size the encoders budget with. */
  lemma TemplateTotal()
    ensures Total(Template()) == RECORD_SIZE
  {
    assert Widths(6) == 13 by { assert Widths(3) == 9; }
    assert Widths(12) == 27 by { assert Widths(9) == 20; }
    assert Widths(19) == 54 by { assert Widths(15) == 35; assert Widths(17) == 45; }
    TotalIsWidths(FIELD_COUNT);
    assert Template()[..FIELD_COUNT] == Template();
  }

  /** Every field reads back as the number the record meant. */
  lemma FieldReadsBack(r: FlowRecord, start: nat, i: nat)
    requires i < FIELD_COUNT && start + r.startMs < 0x1_0000_0000_0000_0000 && start + r.endMs < 0x1_0000_0000_0000_0000
    ensures FromBigEndian(RecordLayout(r, start)[i].bytes) == ValueAt(r, start, i)
  {
    Wire.Widths();
    ReadBack(ValueAt(r, start, i), FieldAt(i).width);
  }

  /** The one content of this information element reads as this number. */
  ghost predicate Holds(l: Layout, ie: nat, v: nat) {
    exists i :: 0 <= i < |l| && l[i].ie == ie && FromBigEndian(l[i].bytes) == v
      && forall j | 0 <= j < |l| && l[j].ie == ie :: j == i
  }

  /** The position of an element in the template. */
  function PositionOf(ie: nat): int {
    if ie <= 2 then ie - 1 else if ie <= 17 then ie - 2 else if ie == 61 then 18 else ie - 136
  }

  lemma PositionsKnown(i: nat)
    requires i < FIELD_COUNT
    ensures PositionOf(FieldAt(i).ie) == i
  {
  }

  lemma HoldsAt(r: FlowRecord, start: nat, i: nat)
    requires i < FIELD_COUNT && start + r.startMs < 0x1_0000_0000_0000_0000 && start + r.endMs < 0x1_0000_0000_0000_0000
    ensures Holds(RecordLayout(r, start), FieldAt(i).ie, ValueAt(r, start, i))
  {
    hide ValueAt, FieldAt;
    FieldReadsBack(r, start, i);
    var l := RecordLayout(r, start);
    forall j | 0 <= j < |l| && l[j].ie == l[i].ie ensures j == i {
      PositionsKnown(i);
      PositionsKnown(j);
    }
  }

  /**
   A record by the numbers of the IANA information elements: octets (1, clamped to 32 bits), packets (2), protocol,
   type of service and TCP flags (4 to 6), source port, address, prefix length and interface (7 to 10), the same of
   the destination (11 to 14), next hop (15), AS numbers (16, 17), direction (61), start and end (152, 153).
   */
  lemma RecordMeans(r: FlowRecord, start: nat)
    requires start + r.startMs < 0x1_0000_0000_0000_0000 && start + r.endMs < 0x1_0000_0000_0000_0000
    ensures var l := RecordLayout(r, start);
            && Holds(l, 1, if r.octets < 0x1_0000_0000 then r.octets else 0xFFFF_FFFF) && Holds(l, 2, r.packets)
            && Holds(l, 4, r.protocol) && Holds(l, 5, r.tos) && Holds(l, 6, r.tcpFlags)
            && Holds(l, 7, r.srcPort) && Holds(l, 8, if r.srcIP.Some? then r.srcIP.value else 0)
            && Holds(l, 9, r.srcMask) && Holds(l, 10, r.inIface)
            && Holds(l, 11, r.dstPort) && Holds(l, 12, if r.dstIP.Some? then r.dstIP.value else 0)
            && Holds(l, 13, r.dstMask) && Holds(l, 14, r.outIface)
            && Holds(l, 15, if r.nextHop.Some? then r.nextHop.value else 0)
            && Holds(l, 16, r.srcAS) && Holds(l, 17, r.dstAS) && Holds(l, 61, 0)
            && Holds(l, 152, start + r.startMs) && Holds(l, 153, start + r.endMs)
  {
    hide Holds, RecordLayout;
    forall i: nat | i < FIELD_COUNT ensures Holds(RecordLayout(r, start), FieldAt(i).ie, ValueAt(r, start, i)) {
      HoldsAt(r, start, i);
    }
    assert FieldAt(0).ie == 1 && FieldAt(1).ie == 2 && FieldAt(2).ie == 4 && FieldAt(3).ie == 5 && FieldAt(4).ie == 6;
    assert FieldAt(5).ie == 7 && FieldAt(6).ie == 8 && FieldAt(7).ie == 9 && FieldAt(8).ie == 10;
    assert FieldAt(9).ie == 11 && FieldAt(10).ie == 12 && FieldAt(11).ie == 13 && FieldAt(12).ie == 14;
    assert FieldAt(13).ie == 15 && FieldAt(14).ie == 16 && FieldAt(15).ie == 17;
    assert FieldAt(16).ie == 152 && FieldAt(17).ie == 153 && FieldAt(18).ie == 61;
  }

  // ---------------------------------------------------------------------------------------------
  // Messages on the wire.

  function Zeros(n: nat): (b: Bytes)
    ensures |b| == n
  {
    seq(n, i => 0)
  }

  /** One Set: its id, its length including this header, and its body (section 3.3 of RFC 7011). */
  function SetBytes(id: U16, body: Bytes): Bytes {
    BigEndian(id, 2) + BigEndian(SET_HEADER_SIZE + |body|, 2) + body
  }

  function Specs(t: seq<Field>): (b: Bytes)
    ensures |b| == 4 * |t|
  {
    if t == [] then []
    else Specs(t[..|t| - 1]) + (BigEndian(t[|t| - 1].ie, 2) + BigEndian(t[|t| - 1].width, 2))
  }

  function TemplateBody(id: U16, t: seq<Field>): Bytes {
    BigEndian(id, 2) + BigEndian(|t|, 2) + Specs(t)
  }

  /** One scope field comes first; two zero bytes align the Set. */
  function OptionsTemplateBody(id: U16, t: seq<Field>): Bytes {
    BigEndian(id, 2) + BigEndian(|t|, 2) + BigEndian(1, 2) + Specs(t) + Zeros(2)
  }

  function DataPadBytes(n: nat): nat {
    var rem := (SET_HEADER_SIZE + n * RECORD_SIZE) % 4;
    if rem != 0 then 4 - rem else 0
  }

  function DataBody(rs: seq<FlowRecord>, start: nat): Bytes {
    FlattenAll(RecordLayouts(rs, start)) + Zeros(DataPadBytes(|rs|))
  }

  function HeaderTail(time: U32, seqNo: U32, domain: U32): (b: Bytes)
    ensures |b| == 12
  {
    BigEndian(time, 4) + BigEndian(seqNo, 4) + BigEndian(domain, 4)
  }

  function MessageBytes(time: U32, seqNo: U32, domain: U32, sets: Bytes): Bytes {
    BigEndian(VERSION, 2) + BigEndian(HEADER_SIZE + |sets|, 2) + HeaderTail(time, seqNo, domain) + sets
  }

  function TemplateSet(): Bytes { SetBytes(SET_TEMPLATE, TemplateBody(DATA_TEMPLATE, Template())) }

  /** No Data Set at all when there is nothing to carry. */
  function DataPart(rs: seq<FlowRecord>, start: nat): Bytes {
    if rs == [] then [] else SetBytes(DATA_TEMPLATE, DataBody(rs, start))
  }

  function PacketSets(rs: seq<FlowRecord>, start: nat, withTemplate: bool): Bytes {
    (if withTemplate then TemplateSet() else []) + DataPart(rs, start)
  }

  // ---------------------------------------------------------------------------------------------
  // The collector.

  type Templates = map<U16, seq<Field>>

  datatype Record = Record(template: U16, fields: Layout)

  datatype Reading = Reading(records: seq<Record>, templates: Templates)

  function ParseSpecs(b: Bytes, n: nat): seq<Field>
    requires 4 * n <= |b|
  {
    if n == 0 then [] else ParseSpecs(b, n - 1) + [Field(Get16(b, 4 * n - 4), Get16(b, 4 * n - 2))]
  }

  predicate AllZero(b: Bytes) { forall i | 0 <= i < |b| :: b[i] == 0 }

  /** One Set, by its id. Bytes left over at the end of a Set must be zero padding. */
  function ReadSet(id: U16, body: Bytes, known: Templates): Result<Reading> {
    if id == SET_TEMPLATE then
      if |body| < 4 || |body| < 4 + 4 * Get16(body, 2) then Err("short template set")
      else if !AllZero(body[4 + 4 * Get16(body, 2)..]) then Err("template padding")
      else Ok(Reading([], known[Get16(body, 0) := ParseSpecs(body[4..], Get16(body, 2))]))
    else if id == SET_OPTIONS_TEMPLATE then
      if |body| < 6 || |body| < 6 + 4 * Get16(body, 2) then Err("short options template set")
      else if !AllZero(body[6 + 4 * Get16(body, 2)..]) then Err("options template padding")
      else Ok(Reading([], known[Get16(body, 0) := ParseSpecs(body[6..], Get16(body, 2))]))
    else if id in known && Total(known[id]) > 0 then
      var ls := TakeAll(known[id], body);
      if !AllZero(Tail(known[id], body)) then Err("data padding")
      else Ok(Reading(seq(|ls|, i requires 0 <= i < |ls| => Record(id, ls[i])), known))
    else Err("no template")
  }

  /** The Sets of a message, in order. */
  function ReadSets(b: Bytes, known: Templates): Result<Reading>
    decreases |b|
  {
    if b == [] then Ok(Reading([], known))
    else if |b| < 4 || Get16(b, 2) < 4 || |b| < Get16(b, 2) then Err("set length")
    else
      var n := Get16(b, 2);
      var first := ReadSet(Get16(b, 0), b[4..n], known);
      if first.Err? then first
      else
        var rest := ReadSets(b[n..], first.value.templates);
        if rest.Err? then rest
        else Ok(Reading(first.value.records + rest.value.records, rest.value.templates))
  }

  datatype Message = Message(time: U32, seqNo: U32, domain: U32, reading: Reading)

  function ReadMessage(b: Bytes, known: Templates): Result<Message> {
    if |b| < HEADER_SIZE || Get16(b, 0) != VERSION || Get16(b, 2) != |b| then Err("message header")
    else
      var r := ReadSets(b[HEADER_SIZE..], known);
      if r.Err? then Err(r.error) else Ok(Message(Get32(b, 4), Get32(b, 8), Get32(b, 12), r.value))
  }

  // ---------------------------------------------------------------------------------------------
  // Reading back what was written.

  lemma {:induction false} SpecsReadBack(t: seq<Field>, b: Bytes)
    requires 4 * |t| <= |b| && b[..4 * |t|] == Specs(t)
    ensures ParseSpecs(b, |t|) == t
  {
    if t != [] {
      var n := |t|;
      var (front, last) := (t[..n - 1], t[n - 1]);
      var spec := BigEndian(last.ie, 2) + BigEndian(last.width, 2);
      assert Specs(t) == Specs(front) + spec;
      assert b[..4 * n - 4] == b[..4 * n][..4 * n - 4] == Specs(front);
      assert b[4 * n - 4..4 * n] == b[..4 * n][4 * n - 4..] == spec;
      assert b[4 * n - 4..4 * n - 2] == spec[..2] && b[4 * n - 2..4 * n] == spec[2..];
      Got16(b, 4 * n - 4, last.ie);
      Got16(b, 4 * n - 2, last.width);
      SpecsReadBack(front, b);
      assert t == front + [last];
    }
  }

  lemma SetReadBack(id: U16, body: Bytes, rest: Bytes, known: Templates)
    requires SET_HEADER_SIZE + |body| < 0x1_0000 && ReadSet(id, body, known).Ok?
    ensures var first := ReadSet(id, body, known).value;
            var tail := ReadSets(rest, first.templates);
            ReadSets(SetBytes(id, body) + rest, known) ==
              if tail.Err? then tail else Ok(Reading(first.records + tail.value.records, tail.value.templates))
  {
    var b := SetBytes(id, body) + rest;
    var n := SET_HEADER_SIZE + |body|;
    assert b[0..2] == BigEndian(id, 2);
    assert b[2..4] == BigEndian(n, 2);
    Got16(b, 0, id);
    Got16(b, 2, n);
    assert b[4..n] == body && b[n..] == rest;
  }

  lemma TemplateReadBack(id: U16, t: seq<Field>, known: Templates)
    requires |t| < 0x4000
    ensures ReadSet(SET_TEMPLATE, TemplateBody(id, t), known) == Ok(Reading([], known[id := t]))
  {
    var body := TemplateBody(id, t);
    assert body[0..2] == BigEndian(id, 2) && body[2..4] == BigEndian(|t|, 2) && body[4..] == Specs(t);
    Got16(body, 0, id);
    Got16(body, 2, |t|);
    SpecsReadBack(t, body[4..]);
  }

  lemma OptionsTemplateReadBack(id: U16, t: seq<Field>, known: Templates)
    requires |t| < 0x4000
    ensures ReadSet(SET_OPTIONS_TEMPLATE, OptionsTemplateBody(id, t), known) == Ok(Reading([], known[id := t]))
  {
    var body := OptionsTemplateBody(id, t);
    assert body[0..2] == BigEndian(id, 2) && body[2..4] == BigEndian(|t|, 2);
    assert body[6..] == Specs(t) + Zeros(2);
    assert body[6..][..4 * |t|] == Specs(t);
    assert body[6 + 4 * |t|..] == Zeros(2);
    Got16(body, 0, id);
    Got16(body, 2, |t|);
    SpecsReadBack(t, body[6..]);
  }

  function Tagged(id: U16, ls: seq<Layout>): seq<Record> {
    seq(|ls|, i requires 0 <= i < |ls| => Record(id, ls[i]))
  }

  lemma DataReadBack(id: U16, t: seq<Field>, ls: seq<Layout>, pad: nat, known: Templates)
    requires id >= DATA_TEMPLATE && id in known && known[id] == t && AllMatch(ls, t) && pad < Total(t)
    ensures ReadSet(id, FlattenAll(ls) + Zeros(pad), known) == Ok(Reading(Tagged(id, ls), known))
  {
    TakeAllFlatten(ls, t, Zeros(pad));
  }

  lemma MessageReadBack(time: U32, seqNo: U32, domain: U32, sets: Bytes, known: Templates)
    requires HEADER_SIZE + |sets| < 0x1_0000 && ReadSets(sets, known).Ok?
    ensures ReadMessage(MessageBytes(time, seqNo, domain, sets), known) ==
            Ok(Message(time, seqNo, domain, ReadSets(sets, known).value))
  {
    var b := MessageBytes(time, seqNo, domain, sets);
    assert b[0..2] == BigEndian(VERSION, 2) && b[2..4] == BigEndian(HEADER_SIZE + |sets|, 2);
    assert b[4..8] == BigEndian(time, 4) && b[8..12] == BigEndian(seqNo, 4) && b[12..16] == BigEndian(domain, 4);
    assert b[16..] == sets;
    Got16(b, 0, VERSION);
    Got16(b, 2, HEADER_SIZE + |sets|);
    Got32(b, 4, time);
    Got32(b, 8, seqNo);
    Got32(b, 12, domain);
  }

  lemma PacketSizes(rs: seq<FlowRecord>, start: nat)
    ensures |TemplateSet()| == TEMPLATE_SET_SIZE
    ensures |DataBody(rs, start)| == RECORD_SIZE * |rs| + DataPadBytes(|rs|)
  {
    var ls := RecordLayouts(rs, start);
    forall i | 0 <= i < |ls| ensures Matches(ls[i], Template()) { LayoutMatches(rs[i], start); }
    TemplateTotal();
    FlattenAllSize(ls, Template());
  }

  lemma DataSetReads(rs: seq<FlowRecord>, start: nat, now: Templates)
    requires DATA_TEMPLATE in now && now[DATA_TEMPLATE] == Template() && rs != []
    requires SET_HEADER_SIZE + |DataBody(rs, start)| < 0x1_0000
    ensures ReadSets(SetBytes(DATA_TEMPLATE, DataBody(rs, start)) + [], now) ==
            Ok(Reading(Tagged(DATA_TEMPLATE, RecordLayouts(rs, start)), now))
  {
    var ls := RecordLayouts(rs, start);
    forall i | 0 <= i < |ls| ensures Matches(ls[i], Template()) { LayoutMatches(rs[i], start); }
    TemplateTotal();
    DataReadBack(DATA_TEMPLATE, Template(), ls, DataPadBytes(|rs|), now);
    SetReadBack(DATA_TEMPLATE, DataBody(rs, start), [], now);
    assert Tagged(DATA_TEMPLATE, ls) + [] == Tagged(DATA_TEMPLATE, ls);
  }

  lemma DataPartReads(rs: seq<FlowRecord>, start: nat, now: Templates)
    requires DATA_TEMPLATE in now && now[DATA_TEMPLATE] == Template()
    requires SET_HEADER_SIZE + |DataBody(rs, start)| < 0x1_0000
    ensures ReadSets(DataPart(rs, start), now) == Ok(Reading(Tagged(DATA_TEMPLATE, RecordLayouts(rs, start)), now))
  {
    if rs != [] {
      DataSetReads(rs, start, now);
      assert SetBytes(DATA_TEMPLATE, DataBody(rs, start)) + [] == DataPart(rs, start);
    } else {
      assert Tagged(DATA_TEMPLATE, RecordLayouts(rs, start)) == [];
    }
  }

  lemma PacketSetsRead(rs: seq<FlowRecord>, start: nat, withTemplate: bool, known: Templates)
    requires withTemplate || (DATA_TEMPLATE in known && known[DATA_TEMPLATE] == Template())
    requires SET_HEADER_SIZE + |DataBody(rs, start)| < 0x1_0000
    ensures var now := if withTemplate then known[DATA_TEMPLATE := Template()] else known;
            ReadSets(PacketSets(rs, start, withTemplate), known) ==
              Ok(Reading(Tagged(DATA_TEMPLATE, RecordLayouts(rs, start)), now))
  {
    var data := DataPart(rs, start);
    if withTemplate {
      var now := known[DATA_TEMPLATE := Template()];
      DataPartReads(rs, start, now);
      TemplateReadBack(DATA_TEMPLATE, Template(), known);
      SetReadBack(SET_TEMPLATE, TemplateBody(DATA_TEMPLATE, Template()), data, known);
      var records := Tagged(DATA_TEMPLATE, RecordLayouts(rs, start));
      assert [] + records == records;
    } else {
      DataPartReads(rs, start, known);
      assert PacketSets(rs, start, withTemplate) == data;
    }
  }

  /** A collector that holds the template, or is sent it, gets exactly the records: order, fields, both lengths. */
  lemma PacketReadBack(time: U32, seqNo: U32, domain: U32, rs: seq<FlowRecord>, start: nat, withTemplate: bool,
                       known: Templates)
    requires withTemplate || (DATA_TEMPLATE in known && known[DATA_TEMPLATE] == Template())
    requires SET_HEADER_SIZE + |DataBody(rs, start)| < 0x1_0000
    requires HEADER_SIZE + |PacketSets(rs, start, withTemplate)| < 0x1_0000
    ensures var now := if withTemplate then known[DATA_TEMPLATE := Template()] else known;
            ReadMessage(MessageBytes(time, seqNo, domain, PacketSets(rs, start, withTemplate)), known) ==
              Ok(Message(time, seqNo, domain, Reading(Tagged(DATA_TEMPLATE, RecordLayouts(rs, start)), now)))
  {
    PacketSetsRead(rs, start, withTemplate, known);
    MessageReadBack(time, seqNo, domain, PacketSets(rs, start, withTemplate), known);
  }

  // ---------------------------------------------------------------------------------------------
  // The interface option table.

  datatype Shape = IfScoped | SystemScoped

  datatype Iface = Iface(ifIndex: U32, name: Bytes)

  /** Truncated at, and NUL-padded to, the fixed field width. */
  function PaddedString(s: Bytes): (b: Bytes)
    ensures |b| == STRING_LEN
  {
    if |s| >= STRING_LEN then s[..STRING_LEN] else s + Zeros(STRING_LEN - |s|)
  }

  function OptionTemplate(shape: Shape): seq<Field> {
    if shape.IfScoped? then [Field(10, 4), Field(82, STRING_LEN), Field(83, STRING_LEN)]
    else [Field(149, 4), Field(10, 4), Field(83, STRING_LEN)]
  }

  function OptionRecordSize(shape: Shape): nat { if shape.IfScoped? then 68 else 40 }

  function OptionLayout(shape: Shape, domain: U32, ifc: Iface): Layout {
    if shape.IfScoped? then
      [Content(10, BigEndian(ifc.ifIndex, 4)), Content(82, PaddedString(ifc.name)), Content(83, PaddedString(ifc.name))]
    else
      [Content(149, BigEndian(domain, 4)), Content(10, BigEndian(ifc.ifIndex, 4)), Content(83, PaddedString(ifc.name))]
  }

  function OptionLayouts(shape: Shape, domain: U32, ifs: seq<Iface>): seq<Layout> {
    seq(|ifs|, i requires 0 <= i < |ifs| => OptionLayout(shape, domain, ifs[i]))
  }

  function OptionTemplateSet(shape: Shape): Bytes {
    SetBytes(SET_OPTIONS_TEMPLATE, OptionsTemplateBody(OPTIONS_TEMPLATE, OptionTemplate(shape)))
  }

  function OptionSets(shape: Shape, domain: U32, ifs: seq<Iface>): Bytes {
    OptionTemplateSet(shape) + SetBytes(OPTIONS_TEMPLATE, FlattenAll(OptionLayouts(shape, domain, ifs)))
  }

  lemma OptionTotal(shape: Shape)
    ensures Total(OptionTemplate(shape)) == OptionRecordSize(shape) && |OptionTemplateSet(shape)| == 24
  {
    var t := OptionTemplate(shape);
    assert t[..2][..1] == t[..1] && t[..1][..0] == [];
    assert Total(t[..1]) == t[0].width;
    assert Total(t[..2]) == Total(t[..1]) + t[1].width;
  }

  lemma OptionsMatch(shape: Shape, domain: U32, ifs: seq<Iface>)
    ensures AllMatch(OptionLayouts(shape, domain, ifs), OptionTemplate(shape))
    ensures |FlattenAll(OptionLayouts(shape, domain, ifs))| == |ifs| * OptionRecordSize(shape)
  {
    OptionTotal(shape);
    FlattenAllSize(OptionLayouts(shape, domain, ifs), OptionTemplate(shape));
  }

  lemma OptionDataReads(shape: Shape, domain: U32, ifs: seq<Iface>, now: Templates)
    requires OPTIONS_TEMPLATE in now && now[OPTIONS_TEMPLATE] == OptionTemplate(shape)
    requires SET_HEADER_SIZE + |FlattenAll(OptionLayouts(shape, domain, ifs))| < 0x1_0000
    ensures ReadSets(SetBytes(OPTIONS_TEMPLATE, FlattenAll(OptionLayouts(shape, domain, ifs))), now) ==
            Ok(Reading(Tagged(OPTIONS_TEMPLATE, OptionLayouts(shape, domain, ifs)), now))
  {
    var ls := OptionLayouts(shape, domain, ifs);
    var body := FlattenAll(ls);
    OptionsMatch(shape, domain, ifs);
    OptionTotal(shape);
    DataReadBack(OPTIONS_TEMPLATE, OptionTemplate(shape), ls, 0, now);
    assert body + Zeros(0) == body;
    SetReadBack(OPTIONS_TEMPLATE, body, [], now);
    assert SetBytes(OPTIONS_TEMPLATE, body) + [] == SetBytes(OPTIONS_TEMPLATE, body);
    assert Tagged(OPTIONS_TEMPLATE, ls) + [] == Tagged(OPTIONS_TEMPLATE, ls);
  }

  lemma OptionSetsRead(shape: Shape, domain: U32, ifs: seq<Iface>, known: Templates)
    requires SET_HEADER_SIZE + |FlattenAll(OptionLayouts(shape, domain, ifs))| < 0x1_0000
    ensures ReadSets(OptionSets(shape, domain, ifs), known) ==
            Ok(Reading(Tagged(OPTIONS_TEMPLATE, OptionLayouts(shape, domain, ifs)),
                       known[OPTIONS_TEMPLATE := OptionTemplate(shape)]))
  {
    var now := known[OPTIONS_TEMPLATE := OptionTemplate(shape)];
    OptionDataReads(shape, domain, ifs, now);
    OptionsTemplateReadBack(OPTIONS_TEMPLATE, OptionTemplate(shape), known);
    SetReadBack(SET_OPTIONS_TEMPLATE, OptionsTemplateBody(OPTIONS_TEMPLATE, OptionTemplate(shape)),
                SetBytes(OPTIONS_TEMPLATE, FlattenAll(OptionLayouts(shape, domain, ifs))), known);
    var records := Tagged(OPTIONS_TEMPLATE, OptionLayouts(shape, domain, ifs));
    assert [] + records == records;
  }

  /** An option datagram is self-contained: any collector reads the table out of it. */
  lemma OptionsReadBack(time: U32, seqNo: U32, domain: U32, shape: Shape, ifs: seq<Iface>, known: Templates)
    requires HEADER_SIZE + |OptionSets(shape, domain, ifs)| < 0x1_0000
    ensures ReadMessage(MessageBytes(time, seqNo, domain, OptionSets(shape, domain, ifs)), known) ==
            Ok(Message(time, seqNo, domain, Reading(Tagged(OPTIONS_TEMPLATE, OptionLayouts(shape, domain, ifs)),
                                                    known[OPTIONS_TEMPLATE := OptionTemplate(shape)])))
  {
    OptionSetsRead(shape, domain, ifs, known);
    MessageReadBack(time, seqNo, domain, OptionSets(shape, domain, ifs), known);
  }
}
