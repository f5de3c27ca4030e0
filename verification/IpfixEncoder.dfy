/** The encoders: they write at an advancing position in a caller's buffer and fill the length fields in afterwards. */
module IpfixEncoder {
  import opened Common
  import opened Wire
  import opened Ipfix

  // ---------------------------------------------------------------------------------------------
  // Capacity.

  function Overhead(withTemplate: bool): nat {
    HEADER_SIZE + SET_HEADER_SIZE + if withTemplate then TEMPLATE_SET_SIZE else 0
  }

  /** A datagram of `n` records, pad included, fits in `size` bytes. */
  predicate Fits(n: nat, size: nat, withTemplate: bool) {
    Overhead(withTemplate) + n * RECORD_SIZE + DataPadBytes(n) <= size
  }

  /** The record cap: a division, and one record less when the pad would not fit. */
  function Capacity(size: nat, withTemplate: bool): nat
    requires Overhead(withTemplate) <= size
  {
    var n := (size - Overhead(withTemplate)) / RECORD_SIZE;
    if n > 0 && Overhead(withTemplate) + n * RECORD_SIZE + DataPadBytes(n) > size then n - 1 else n
  }

  /** One decrement is always enough, and never one too many: the cap is exactly the largest count that fits. */
  lemma CapacityIsLargest(size: nat, withTemplate: bool, n: nat)
    requires Overhead(withTemplate) <= size
    ensures Fits(n, size, withTemplate) <==> n <= Capacity(size, withTemplate)
  {
    assert n % 2 == 0 || n % 2 == 1;
    assert DataPadBytes(n) == if n % 2 == 1 then 2 else 0 by { PadParity(n); }
    PadParity(Capacity(size, withTemplate));
    PadParity(Capacity(size, withTemplate) + 1);
    PadParity((size - Overhead(withTemplate)) / RECORD_SIZE);
  }

  lemma PadParity(n: nat)
    ensures DataPadBytes(n) == if n % 2 == 1 then 2 else 0
  {
    var k := n / 2;
    if n % 2 == 0 { assert SET_HEADER_SIZE + n * RECORD_SIZE == 4 * (1 + 27 * k); }
    else { assert SET_HEADER_SIZE + n * RECORD_SIZE == 4 * (14 + 27 * k) + 2; }
  }

  // ---------------------------------------------------------------------------------------------
  // Templates, built once.

  /** Writes the field specifiers at `at`. */
  method PutSpecs(buf: array<U8>, at: nat, fields: seq<Field>)
    requires at + 4 * |fields| <= buf.Length
    modifies buf
    ensures buf[..at] == old(buf[..at])
    ensures buf[at..at + 4 * |fields|] == Specs(fields)
    ensures buf[at + 4 * |fields|..] == old(buf[at + 4 * |fields|..])
  {
    ghost var was := buf[..];
    for i := 0 to |fields|
      invariant buf[..at] == old(buf[..at])
      invariant buf[at..at + 4 * i] == Specs(fields[..i])
      invariant buf[at + 4 * i..] == old(buf[at + 4 * i..])
    {
      var p := at + 4 * i;
      ghost var before := buf[..];
      var spec := BigEndian(fields[i].ie, 2) + BigEndian(fields[i].width, 2);
      PutBytes(buf, p, spec);
      assert fields[..i + 1][..i] == fields[..i];
      assert buf[at..p] == buf[..p][at..] == before[at..p];
      assert buf[at..p + 4] == buf[at..p] + spec;
      assert buf[..at] == buf[..p][..at];
      assert buf[p + 4..] == before[p + 4..] == before[p..][4..];
      assert was[p..][4..] == was[p + 4..];
    }
    assert fields[..|fields|] == fields;
  }

  method BuildTemplateSet() returns (buf: array<U8>)
    ensures fresh(buf) && buf[..] == TemplateSet()
  {
    var fields := Template();
    var length := 4 + 4 + 4 * |fields|;
    buf := new U8[length](i => 0);
    var head := BigEndian(SET_TEMPLATE, 2) + BigEndian(length, 2) + BigEndian(DATA_TEMPLATE, 2)
                + BigEndian(|fields|, 2);
    PutBytes(buf, 0, head);
    PutSpecs(buf, 8, fields);
    assert buf[..] == buf[..8] + buf[8..8 + 4 * |fields|];
    assert head + Specs(fields) == TemplateSet();
  }

  function OptionsHead(n: nat): (b: Bytes)
    ensures |b| == 10
  {
    BigEndian(SET_OPTIONS_TEMPLATE, 2) + BigEndian(12 + 4 * n, 2) + BigEndian(OPTIONS_TEMPLATE, 2)
    + BigEndian(n, 2) + BigEndian(1, 2)
  }

  lemma OptionsSetParts(fields: seq<Field>)
    ensures OptionsHead(|fields|) + Specs(fields) + Zeros(2) ==
            SetBytes(SET_OPTIONS_TEMPLATE, OptionsTemplateBody(OPTIONS_TEMPLATE, fields))
  {
    hide BigEndian, Specs, Zeros;
  }

  /** The buffer starts zeroed, so the alignment pad needs no writing. */
  method BuildOptionsTemplateSet(scope: Field, options: seq<Field>) returns (buf: array<U8>)
    ensures fresh(buf)
    ensures buf[..] == SetBytes(SET_OPTIONS_TEMPLATE, OptionsTemplateBody(OPTIONS_TEMPLATE, [scope] + options))
  {
    var fields := [scope] + options;
    var n := |fields|;
    var length := 4 + 6 + 4 * n;
    if length % 4 != 0 { length := length + 4 - length % 4; }
    buf := new U8[length](i => 0);
    assert buf[10..] == Zeros(4 * n + 2);
    PutBytes(buf, 0, OptionsHead(n));
    ghost var rest := buf[10..];
    PutSpecs(buf, 10, fields);
    assert buf[10 + 4 * n..] == rest[4 * n..] == Zeros(2);
    OptionsSetParts(fields);
    assert buf[..] == buf[..10] + buf[10..10 + 4 * n] + buf[10 + 4 * n..];
  }

  // ---------------------------------------------------------------------------------------------
  // Records.

  method PutCounters(buf: array<U8>, pos: nat, r: FlowRecord, ghost start: nat) returns (next: nat)
    requires pos + 13 <= buf.Length
    modifies buf
    ensures next == pos + 13 && buf[..pos] == old(buf[..pos])
    ensures buf[pos..next] == Flatten(RecordLayout(r, start)[..6])
  {
    ghost var l := RecordLayout(r, start);
    next := PutContent(buf, pos, BigEndian(Clamp32(r.octets), 4), pos, l, 0);
    next := PutContent(buf, next, BigEndian(r.packets, 4), pos, l, 1);
    next := PutContent(buf, next, BigEndian(r.protocol, 1), pos, l, 2);
    next := PutContent(buf, next, BigEndian(r.tos, 1), pos, l, 3);
    next := PutContent(buf, next, BigEndian(r.tcpFlags, 1), pos, l, 4);
    next := PutContent(buf, next, BigEndian(r.srcPort, 2), pos, l, 5);
  }

  method PutSource(buf: array<U8>, pos: nat, r: FlowRecord, ghost base: nat, ghost start: nat) returns (next: nat)
    requires base <= pos && pos + 9 <= buf.Length && buf[base..pos] == Flatten(RecordLayout(r, start)[..6])
    modifies buf
    ensures next == pos + 9 && buf[..base] == old(buf[..base])
    ensures buf[base..next] == Flatten(RecordLayout(r, start)[..10])
  {
    ghost var l := RecordLayout(r, start);
    next := PutContent(buf, pos, BigEndian(To4(r.srcIP), 4), base, l, 6);
    next := PutContent(buf, next, BigEndian(r.srcMask, 1), base, l, 7);
    next := PutContent(buf, next, BigEndian(r.inIface, 2), base, l, 8);
    next := PutContent(buf, next, BigEndian(r.dstPort, 2), base, l, 9);
  }

  method PutDestination(buf: array<U8>, pos: nat, r: FlowRecord, ghost base: nat, ghost start: nat) returns (next: nat)
    requires base <= pos && pos + 11 <= buf.Length && buf[base..pos] == Flatten(RecordLayout(r, start)[..10])
    modifies buf
    ensures next == pos + 11 && buf[..base] == old(buf[..base])
    ensures buf[base..next] == Flatten(RecordLayout(r, start)[..14])
  {
    ghost var l := RecordLayout(r, start);
    next := PutContent(buf, pos, BigEndian(To4(r.dstIP), 4), base, l, 10);
    next := PutContent(buf, next, BigEndian(r.dstMask, 1), base, l, 11);
    next := PutContent(buf, next, BigEndian(r.outIface, 2), base, l, 12);
    next := PutContent(buf, next, BigEndian(To4(r.nextHop), 4), base, l, 13);
  }

  method PutRouting(buf: array<U8>, pos: nat, r: FlowRecord, start: nat, ghost base: nat) returns (next: nat)
    requires base <= pos && pos + 21 <= buf.Length && buf[base..pos] == Flatten(RecordLayout(r, start)[..14])
    modifies buf
    ensures next == pos + 21 && buf[..base] == old(buf[..base])
    ensures buf[base..next] == Flatten(RecordLayout(r, start)[..19])
  {
    hide Flatten, BigEndian;
    ghost var l := RecordLayout(r, start);
    next := PutContent(buf, pos, BigEndian(r.srcAS, 2), base, l, 14);
    next := PutContent(buf, next, BigEndian(r.dstAS, 2), base, l, 15);
    next := PutContent(buf, next, BigEndian(start + r.startMs, 8), base, l, 16);
    next := PutContent(buf, next, BigEndian(start + r.endMs, 8), base, l, 17);
    next := PutContent(buf, next, BigEndian(0, 1), base, l, 18);
  }

  /** One flow record, field by field in the order the template announces. */
  method EncodeRecord(buf: array<U8>, pos: nat, r: FlowRecord, start: nat) returns (next: nat)
    requires pos + RECORD_SIZE <= buf.Length
    modifies buf
    ensures next == pos + RECORD_SIZE && buf[..pos] == old(buf[..pos])
    ensures buf[pos..next] == Flatten(RecordLayout(r, start))
  {
    next := PutCounters(buf, pos, r, start);
    next := PutSource(buf, next, r, pos, start);
    next := PutDestination(buf, next, r, pos, start);
    next := PutRouting(buf, next, r, start, pos);
    assert RecordLayout(r, start)[..19] == RecordLayout(r, start);
  }

  /** The Data Set: header, records, pad to a four-byte boundary, then the length goes back into the header. */
  method PutDataSet(buf: array<U8>, pos: nat, rs: seq<FlowRecord>, start: nat) returns (next: nat)
    requires pos + SET_HEADER_SIZE + |rs| * RECORD_SIZE + DataPadBytes(|rs|) <= buf.Length
    modifies buf
    ensures next == pos + SET_HEADER_SIZE + |rs| * RECORD_SIZE + DataPadBytes(|rs|)
    ensures buf[..pos] == old(buf[..pos])
    ensures buf[pos..next] == SetBytes(DATA_TEMPLATE, DataBody(rs, start))
  {
    hide FlattenAll, RecordLayouts, BigEndian;
    PutBytes(buf, pos, BigEndian(DATA_TEMPLATE, 2));
    SubSlice(buf[..], pos + 4, pos, pos + 2);
    SubSlice(buf[..], pos + 4, 0, pos);
    next := PutRecords(buf, pos + 4, rs, start);
    next := PutPad(buf, pos, next);
    SubSlice(buf[..], pos + 4, pos, pos + 2);
    SubSlice(buf[..], pos + 4, 0, pos);
    PatchLength(buf, pos, next, DATA_TEMPLATE);
  }

  /** Zero bytes up to a four-byte boundary of the Set. */
  method PutPad(buf: array<U8>, pos: nat, end: nat) returns (next: nat)
    requires pos + 4 <= end && end + (if (end - pos) % 4 != 0 then 4 - (end - pos) % 4 else 0) <= buf.Length
    modifies buf
    ensures next == end + if (end - pos) % 4 != 0 then 4 - (end - pos) % 4 else 0
    ensures buf[..pos + 4] == old(buf[..pos + 4])
    ensures buf[pos + 4..next] == old(buf[pos + 4..end]) + Zeros(next - end)
  {
    ghost var before := buf[..];
    var pad := if (end - pos) % 4 != 0 then 4 - (end - pos) % 4 else 0;
    PutBytes(buf, end, Zeros(pad));
    next := end + pad;
    assert buf[..pos + 4] == buf[..end][..pos + 4] == before[..pos + 4];
    assert buf[pos + 4..end] == buf[..end][pos + 4..] == before[pos + 4..end];
    assert buf[pos + 4..next] == buf[pos + 4..end] + buf[end..next];
  }

  /** Fills a length field in once the size is known. */
  method PatchLength(buf: array<U8>, pos: nat, end: nat, ghost id: U16)
    requires pos + 4 <= end <= buf.Length && buf[pos..pos + 2] == BigEndian(id, 2)
    modifies buf
    ensures buf[..pos] == old(buf[..pos])
    ensures buf[pos..end] == BigEndian(id, 2) + BigEndian(end - pos, 2) + old(buf[pos + 4..end])
  {
    ghost var before := buf[..];
    PutBytes(buf, pos + 2, BigEndian(end - pos, 2));
    assert buf[..pos] == buf[..pos + 2][..pos] == before[..pos];
    assert buf[pos..pos + 2] == buf[..pos + 2][pos..] == before[pos..pos + 2];
    assert buf[pos + 4..end] == buf[pos + 4..][..end - pos - 4] == before[pos + 4..end];
    assert buf[pos..end] == buf[pos..pos + 2] + buf[pos + 2..pos + 4] + buf[pos + 4..end];
  }

  method PutRecords(buf: array<U8>, pos: nat, rs: seq<FlowRecord>, start: nat) returns (next: nat)
    requires pos + |rs| * RECORD_SIZE <= buf.Length
    modifies buf
    ensures next == pos + |rs| * RECORD_SIZE && buf[..pos] == old(buf[..pos])
    ensures buf[pos..next] == FlattenAll(RecordLayouts(rs, start))
  {
    next := pos;
    ghost var ls := RecordLayouts(rs, start);
    for i := 0 to |rs|
      invariant next == pos + i * RECORD_SIZE && buf[..pos] == old(buf[..pos])
      invariant buf[pos..next] == FlattenAll(ls[..i])
    {
      ghost var (before, at) := (buf[..], next);
      next := EncodeRecord(buf, next, rs[i], start);
      assert buf[..pos] == buf[..at][..pos] == before[..pos];
      assert buf[pos..at] == buf[..at][pos..] == before[pos..at];
      assert buf[pos..next] == buf[pos..at] + buf[at..next];
      assert ls[..i + 1][..i] == ls[..i];
    }
    assert ls[..|rs|] == ls;
  }

  // ---------------------------------------------------------------------------------------------
  // Messages.

  /** The device's start on the wall clock, never before the epoch. */
  function DeviceStart(nowMs: nat, uptimeMs: U32): nat {
    if nowMs < uptimeMs then 0 else nowMs - uptimeMs
  }

  function ExportTime(nowMs: nat): U32 { nowMs / 1000 % 0x1_0000_0000 }

  function PacketBytes(domain: U32, seqNo: U32, uptimeMs: U32, nowMs: nat, rs: seq<FlowRecord>,
                       withTemplate: bool): Bytes {
    MessageBytes(ExportTime(nowMs), seqNo, domain, PacketSets(rs, DeviceStart(nowMs, uptimeMs), withTemplate))
  }

  /** Version, a hole for the length, export time, sequence number and observation domain. */
  method PutHeader(buf: array<U8>, time: U32, seqNo: U32, domain: U32)
    requires HEADER_SIZE <= buf.Length
    modifies buf
    ensures buf[0..2] == BigEndian(VERSION, 2) && buf[4..16] == HeaderTail(time, seqNo, domain)
  {
    PutBytes(buf, 4, HeaderTail(time, seqNo, domain));
    ghost var tail := buf[4..16];
    PutBytes(buf, 0, BigEndian(VERSION, 2));
    assert buf[4..16] == buf[2..][2..14] == tail;
  }

  /** Appends pre-encoded bytes to a message under construction. */
  method PutSets(buf: array<U8>, pos: nat, s: Bytes) returns (next: nat)
    requires 4 <= pos && pos + |s| <= buf.Length
    modifies buf
    ensures next == pos + |s| && buf[0..2] == old(buf[0..2]) && buf[4..next] == old(buf[4..pos]) + s
  {
    ghost var before := buf[..];
    PutBytes(buf, pos, s);
    next := pos + |s|;
    assert buf[0..2] == buf[..pos][0..2] == before[0..2];
    assert buf[4..pos] == buf[..pos][4..] == before[4..pos];
    assert buf[4..next] == buf[4..pos] + buf[pos..next];
  }

  method AppendDataSet(buf: array<U8>, pos: nat, rs: seq<FlowRecord>, start: nat) returns (next: nat)
    requires 4 <= pos && pos + SET_HEADER_SIZE + |rs| * RECORD_SIZE + DataPadBytes(|rs|) <= buf.Length
    modifies buf
    ensures next == pos + SET_HEADER_SIZE + |rs| * RECORD_SIZE + DataPadBytes(|rs|)
    ensures buf[0..2] == old(buf[0..2])
    ensures buf[4..next] == old(buf[4..pos]) + SetBytes(DATA_TEMPLATE, DataBody(rs, start))
  {
    ghost var before := buf[..];
    next := PutDataSet(buf, pos, rs, start);
    assert buf[0..2] == buf[..pos][0..2] == before[0..2];
    assert buf[4..pos] == buf[..pos][4..] == before[4..pos];
    assert buf[4..next] == buf[4..pos] + buf[pos..next];
  }

  /** The message as a whole, once its length is known. */
  method Seal(buf: array<U8>, n: nat, ghost time: U32, ghost seqNo: U32, ghost domain: U32, ghost sets: Bytes)
    requires HEADER_SIZE <= n <= buf.Length && n == HEADER_SIZE + |sets|
    requires buf[0..2] == BigEndian(VERSION, 2) && buf[4..n] == HeaderTail(time, seqNo, domain) + sets
    modifies buf
    ensures buf[..n] == MessageBytes(time, seqNo, domain, sets)
  {
    PatchLength(buf, 0, n, VERSION);
    var head := BigEndian(VERSION, 2) + BigEndian(n, 2);
    assert head + (HeaderTail(time, seqNo, domain) + sets) == head + HeaderTail(time, seqNo, domain) + sets;
    assert buf[..n] == buf[0..n];
  }

  /** What the encoder refuses: no room for the headers, or for one record and its pad. */
  predicate TooSmall(size: nat, records: nat, withTemplate: bool) {
    size < Overhead(withTemplate) || (records > 0 && size < Overhead(withTemplate) + RECORD_SIZE + DataPadBytes(1))
  }

  /** In numbers: 16 and 4 bytes of headers, 84 of template, 54 and a pad of 2 for one record. */
  lemma TooSmallInNumbers(size: nat, records: nat, withTemplate: bool)
    ensures TooSmall(size, records, withTemplate) <==>
            size < (if withTemplate then 104 else 20) + (if records > 0 then 56 else 0)
  {
  }

  /** The records a call really encodes. */
  function Encoded(rs: seq<FlowRecord>, size: nat, withTemplate: bool): seq<FlowRecord>
    requires Overhead(withTemplate) <= size
  {
    if Capacity(size, withTemplate) < |rs| then rs[..Capacity(size, withTemplate)] else rs
  }

  /** By the message itself: the cap is the longest list of records whose message still fits. */
  lemma CapacityByLength(domain: U32, seqNo: U32, uptimeMs: U32, nowMs: nat, rs: seq<FlowRecord>, withTemplate: bool,
                         size: nat)
    requires rs != [] && size >= if withTemplate then 104 else 20
    ensures |rs| <= Capacity(size, withTemplate) <==>
            |PacketBytes(domain, seqNo, uptimeMs, nowMs, rs, withTemplate)| <= size
  {
    PacketSizes(rs, DeviceStart(nowMs, uptimeMs));
    CapacityIsLargest(size, withTemplate, |rs|);
  }

  /** Serialises one message into the first `size` bytes of `buf`; records beyond the capacity are cut off. */
  method EncodePacket(templ: Bytes, domain: U32, seqNo: U32, uptimeMs: U32, nowMs: nat, records: seq<FlowRecord>,
                      withTemplate: bool, buf: array<U8>, size: nat) returns (n: nat, ok: bool)
    requires templ == TemplateSet() && size <= buf.Length
    modifies buf
    ensures ok <==> (records == [] && !withTemplate) || !TooSmall(size, |records|, withTemplate)
    ensures ok <==> (records == [] && !withTemplate)
                    || size >= (if withTemplate then 104 else 20) + (if records != [] then 56 else 0)
    ensures n == 0 <==> !ok || (records == [] && !withTemplate)
    ensures n > 0 ==> n <= size && Overhead(withTemplate) <= size &&
                      buf[..n] == PacketBytes(domain, seqNo, uptimeMs, nowMs,
                                              Encoded(records, size, withTemplate), withTemplate)
  {
    TooSmallInNumbers(size, |records|, withTemplate);
    if records == [] && !withTemplate { return 0, true; }
    var start := DeviceStart(nowMs, uptimeMs);
    var overhead := Overhead(withTemplate);
    if size < overhead { return 0, false; }
    if size < overhead + RECORD_SIZE + DataPadBytes(1) && |records| > 0 { return 0, false; }
    var maxRecords := Capacity(size, withTemplate);
    var rs := Encoded(records, size, withTemplate);
    CapacityIsLargest(size, withTemplate, |rs|);
    n := PutMessage(templ, ExportTime(nowMs), seqNo, domain, rs, start, withTemplate, buf);
    ok := true;
    PacketSizes(rs, start);
  }

  method PutMessage(templ: Bytes, time: U32, seqNo: U32, domain: U32, rs: seq<FlowRecord>, start: nat,
                    withTemplate: bool, buf: array<U8>) returns (n: nat)
    requires templ == TemplateSet() && Fits(|rs|, buf.Length, withTemplate)
    modifies buf
    ensures n == HEADER_SIZE + |PacketSets(rs, start, withTemplate)| && n <= buf.Length
    ensures buf[..n] == MessageBytes(time, seqNo, domain, PacketSets(rs, start, withTemplate))
  {
    hide BigEndian, TemplateSet, HeaderTail, MessageBytes, DataBody;
    PacketSizes(rs, start);
    PutHeader(buf, time, seqNo, domain);
    n := HEADER_SIZE;
    ghost var head := HeaderTail(time, seqNo, domain);
    if withTemplate { n := PutSets(buf, n, templ); }
    ghost var front := if withTemplate then templ else [];
    assert buf[4..n] == head + front;
    if rs != [] { n := AppendDataSet(buf, n, rs, start); }
    assert head + front + DataPart(rs, start) == head + PacketSets(rs, start, withTemplate);
    Seal(buf, n, time, seqNo, domain, PacketSets(rs, start, withTemplate));
  }

  // ---------------------------------------------------------------------------------------------
  // Option datagrams.

  method PutOptionRecord(buf: array<U8>, pos: nat, shape: Shape, domain: U32, ifc: Iface) returns (next: nat)
    requires pos + OptionRecordSize(shape) <= buf.Length
    modifies buf
    ensures next == pos + OptionRecordSize(shape) && buf[..pos] == old(buf[..pos])
    ensures buf[pos..next] == Flatten(OptionLayout(shape, domain, ifc))
  {
    ghost var l := OptionLayout(shape, domain, ifc);
    if shape.IfScoped? {
      next := PutContent(buf, pos, BigEndian(ifc.ifIndex, 4), pos, l, 0);
      next := PutContent(buf, next, PaddedString(ifc.name), pos, l, 1);
      next := PutContent(buf, next, PaddedString(ifc.name), pos, l, 2);
    } else {
      next := PutContent(buf, pos, BigEndian(domain, 4), pos, l, 0);
      next := PutContent(buf, next, BigEndian(ifc.ifIndex, 4), pos, l, 1);
      next := PutContent(buf, next, PaddedString(ifc.name), pos, l, 2);
    }
    assert l[..3] == l;
  }

  method PutOptionRecords(buf: array<U8>, pos: nat, shape: Shape, domain: U32, ifs: seq<Iface>) returns (next: nat)
    requires pos + |ifs| * OptionRecordSize(shape) <= buf.Length
    modifies buf
    ensures next == pos + |ifs| * OptionRecordSize(shape) && buf[..pos] == old(buf[..pos])
    ensures buf[pos..next] == FlattenAll(OptionLayouts(shape, domain, ifs))
  {
    next := pos;
    var w := OptionRecordSize(shape);
    ghost var ls := OptionLayouts(shape, domain, ifs);
    for i := 0 to |ifs|
      invariant next == pos + i * w && buf[..pos] == old(buf[..pos])
      invariant buf[pos..next] == FlattenAll(ls[..i])
    {
      ghost var (before, at) := (buf[..], next);
      assert (i + 1) * w <= |ifs| * w;
      next := PutOptionRecord(buf, next, shape, domain, ifs[i]);
      assert buf[..pos] == buf[..at][..pos] == before[..pos];
      assert buf[pos..at] == buf[..at][pos..] == before[pos..at];
      assert buf[pos..next] == buf[pos..at] + buf[at..next];
      assert ls[..i + 1][..i] == ls[..i];
    }
    assert ls[..|ifs|] == ls;
  }

  function OptionOverhead(): nat { HEADER_SIZE + 24 + SET_HEADER_SIZE }

  /** How many interfaces of the rest fit in one datagram. */
  function OptionCapacity(shape: Shape, size: nat): nat
    requires OptionOverhead() <= size
  {
    (size - OptionOverhead()) / OptionRecordSize(shape)
  }

  function OptionBytes(shape: Shape, domain: U32, seqNo: U32, nowMs: nat, ifs: seq<Iface>): Bytes {
    MessageBytes(ExportTime(nowMs), seqNo, domain, OptionSets(shape, domain, ifs))
  }

  /** A self-contained option datagram for as many interfaces as fit; the caller comes back with the rest. */
  method EncodeOptionsDatagram(templ: Bytes, shape: Shape, domain: U32, seqNo: U32, nowMs: nat, ifs: seq<Iface>,
                               buf: array<U8>, size: nat) returns (n: nat, consumed: nat, ok: bool)
    requires templ == OptionTemplateSet(shape) && size <= buf.Length
    modifies buf
    ensures ok <==> ifs == [] || size >= 44 + if shape.IfScoped? then 68 else 40
    ensures n == 0 <==> consumed == 0
    ensures consumed > 0 <==> ok && ifs != []
    ensures consumed > 0 ==>
              && n <= size && OptionOverhead() <= size && consumed <= |ifs|
              && consumed == (if |ifs| <= OptionCapacity(shape, size) then |ifs| else OptionCapacity(shape, size))
              && buf[..n] == OptionBytes(shape, domain, seqNo, nowMs, ifs[..consumed])
  {
    if ifs == [] { return 0, 0, true; }
    OptionTotal(shape);
    if size < OptionOverhead() + OptionRecordSize(shape) { return 0, 0, false; }
    var maxFit := (size - OptionOverhead()) / OptionRecordSize(shape);
    consumed := if |ifs| > maxFit then maxFit else |ifs|;
    CapFits(consumed, maxFit, OptionRecordSize(shape), size - OptionOverhead());
    n := PutOptionMessage(templ, shape, domain, seqNo, nowMs, ifs[..consumed], buf);
    ok := true;
  }

  method PutOptionMessage(templ: Bytes, shape: Shape, domain: U32, seqNo: U32, nowMs: nat, ifs: seq<Iface>,
                          buf: array<U8>) returns (n: nat)
    requires templ == OptionTemplateSet(shape) && OptionOverhead() + |ifs| * OptionRecordSize(shape) <= buf.Length
    modifies buf
    ensures n == OptionOverhead() + |ifs| * OptionRecordSize(shape)
    ensures buf[..n] == OptionBytes(shape, domain, seqNo, nowMs, ifs)
  {
    hide FlattenAll, OptionLayouts, BigEndian, OptionTemplateSet, HeaderTail, MessageBytes;
    OptionTotal(shape);
    PutHeader(buf, ExportTime(nowMs), seqNo, domain);
    var pos := PutSets(buf, HEADER_SIZE, templ);
    n := AppendOptionSet(buf, pos, shape, domain, ifs);
    OptionsMatch(shape, domain, ifs);
    ghost var head := HeaderTail(ExportTime(nowMs), seqNo, domain);
    ghost var data := SetBytes(OPTIONS_TEMPLATE, FlattenAll(OptionLayouts(shape, domain, ifs)));
    assert head + templ + data == head + (templ + data);
    Seal(buf, n, ExportTime(nowMs), seqNo, domain, OptionSets(shape, domain, ifs));
  }

  lemma OptionCapacityByLength(shape: Shape, domain: U32, seqNo: U32, nowMs: nat, ifs: seq<Iface>, size: nat)
    requires size >= 44
    ensures |ifs| <= OptionCapacity(shape, size) <==> |OptionBytes(shape, domain, seqNo, nowMs, ifs)| <= size
  {
    OptionTotal(shape);
    OptionsMatch(shape, domain, ifs);
    CapIsLargest(|ifs|, OptionRecordSize(shape), size - OptionOverhead());
  }

  lemma CapIsLargest(n: nat, w: nat, room: nat)
    requires w > 0
    ensures n <= room / w <==> n * w <= room
  {
    var q := room / w;
    assert q * w <= room < (q + 1) * w;
    if n <= q { assert n * w <= q * w; } else { assert n * w >= (q + 1) * w; }
  }

  lemma CapFits(n: nat, cap: nat, w: nat, room: nat)
    requires w > 0 && cap == room / w && n <= cap
    ensures n * w <= room && (room >= w ==> cap >= 1)
  {
    assert n * w <= cap * w;
  }

  method AppendOptionSet(buf: array<U8>, pos: nat, shape: Shape, domain: U32, ifs: seq<Iface>) returns (next: nat)
    requires 4 <= pos && pos + SET_HEADER_SIZE + |ifs| * OptionRecordSize(shape) <= buf.Length
    modifies buf
    ensures next == pos + SET_HEADER_SIZE + |ifs| * OptionRecordSize(shape)
    ensures buf[0..2] == old(buf[0..2])
    ensures buf[4..next] == old(buf[4..pos]) + SetBytes(OPTIONS_TEMPLATE, FlattenAll(OptionLayouts(shape, domain, ifs)))
  {
    hide FlattenAll, OptionLayouts, BigEndian;
    var head := BigEndian(OPTIONS_TEMPLATE, 2) + BigEndian(4 + |ifs| * OptionRecordSize(shape), 2);
    var at := PutSets(buf, pos, head);
    ghost var before := buf[..];
    next := PutOptionRecords(buf, at, shape, domain, ifs);
    assert buf[0..2] == buf[..at][0..2] == before[0..2];
    assert buf[4..at] == buf[..at][4..] == before[4..at];
    assert buf[4..next] == buf[4..at] + buf[at..next];
    OptionsMatch(shape, domain, ifs);
  }
}
