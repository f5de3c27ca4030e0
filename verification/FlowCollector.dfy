/** What a collector that starts with no templates makes of everything an exporter ever sends. */
module FlowCollector {
  import opened Common
  import opened Wire
  import opened Ipfix
  import opened IpfixEncoder
  import opened FlowTick

  // ---------------------------------------------------------------------------------------------
  // Pages carry every record once, in order, and fit.

  function Carried(pages: seq<Page>): seq<FlowRecord> {
    if pages == [] then []
    else (if pages[0].Flows? then pages[0].records else []) + Carried(pages[1..])
  }

  function Listed(pages: seq<Page>): seq<Iface> {
    if pages == [] then []
    else (if pages[0].Options? then pages[0].ifs else []) + Listed(pages[1..])
  }

  predicate PageFits(shape: Shape, p: Page, size: nat) {
    match p
    case Flows(rs, withTemplate) => Fits(|rs|, size, withTemplate)
    case Options(ifs) => OptionOverhead() + |ifs| * OptionRecordSize(shape) <= size
  }

  ghost predicate AllFit(shape: Shape, pages: seq<Page>, size: nat) {
    forall k | 0 <= k < |pages| :: PageFits(shape, pages[k], size)
  }

  lemma {:induction false} FlowPagesCarry(shape: Shape, expired: seq<FlowRecord>, withTemplate: bool, size: nat)
    requires SizeOk(size) && (expired != [] || withTemplate)
    ensures var ps := FlowPages(expired, withTemplate, size);
            && Carried(ps) == expired && Listed(ps) == [] && AllFit(shape, ps, size)
            && ps != [] && ps[0].Flows? && ps[0].withTemplate == withTemplate
    decreases |expired|
  {
    var ps := FlowPages(expired, withTemplate, size);
    FirstPage(expired, withTemplate, size);
    var cap := Capacity(size, withTemplate);
    CapacityIsLargest(size, withTemplate, if |expired| <= cap then |expired| else cap);
    assert ps[1..] == if |expired| <= cap then [] else FlowPages(expired[cap..], false, size);
    if |expired| > cap {
      FlowPagesCarry(shape, expired[cap..], false, size);
      forall k | 0 <= k < |ps| ensures PageFits(shape, ps[k], size) {
        if k > 0 { assert ps[k] == ps[1..][k - 1]; }
      }
    }
  }

  lemma {:induction false} OptionPagesList(shape: Shape, ifs: seq<Iface>, size: nat)
    requires SizeOk(size)
    ensures var ps := OptionPages(shape, ifs, size);
            Carried(ps) == [] && Listed(ps) == ifs && AllFit(shape, ps, size)
    decreases |ifs|
  {
    if ifs != [] {
      var ps := OptionPages(shape, ifs, size);
      var cap := OptionCapacity(shape, size);
      var n := if |ifs| <= cap then |ifs| else cap;
      CapFits(n, cap, OptionRecordSize(shape), size - OptionOverhead());
      OptionPage(shape, ifs, size, n);
      OptionPagesList(shape, ifs[n..], size);
      assert ps[1..] == OptionPages(shape, ifs[n..], size);
      forall k | 0 <= k < |ps| ensures PageFits(shape, ps[k], size) {
        if k > 0 { assert ps[k] == ps[1..][k - 1]; }
      }
      assert ifs == ifs[..n] + ifs[n..];
    }
  }

  lemma {:induction false} CarriedConcat(a: seq<Page>, b: seq<Page>)
    ensures Carried(a + b) == Carried(a) + Carried(b) && Listed(a + b) == Listed(a) + Listed(b)
  {
    if a == [] {
      assert a + b == b;
    } else {
      assert (a + b)[1..] == a[1..] + b;
      CarriedConcat(a[1..], b);
    }
  }

  /** One tick sends its expired list and, on a refresh, the whole option table: nothing twice, nothing dropped. */
  lemma TickCarriesAll(shape: Option<Shape>, ifs: seq<Iface>, expired: seq<FlowRecord>, withTemplate: bool, size: nat)
    requires SizeOk(size)
    ensures var ps := TickPages(shape, ifs, expired, withTemplate, size);
            && Carried(ps) == expired
            && Listed(ps) == (if withTemplate && shape.Some? then ifs else [])
            && AllFit(if shape.Some? then shape.value else IfScoped, ps, size)
            && (withTemplate ==> ps != [] && ps[0].Flows? && ps[0].withTemplate)
            && (ps == [] <==> expired == [] && !withTemplate)
  {
    var sh := if shape.Some? then shape.value else IfScoped;
    if expired != [] || withTemplate {
      var a := FlowPages(expired, withTemplate, size);
      var b := if withTemplate && shape.Some? then OptionPages(shape.value, ifs, size) else [];
      FlowPagesCarry(sh, expired, withTemplate, size);
      OptionPagesList(sh, ifs, size);
      CarriedConcat(a, b);
    }
  }

  // ---------------------------------------------------------------------------------------------
  // Sizes on the wire.

  /** No datagram exceeds what its page was sized for. */
  lemma RenderedFits(c: Config, e: Entry, seqNo: U32, size: nat)
    requires PageFits(c.shape, e.page, size) && size < 0x1_0000
    ensures |Render(c, e, seqNo)| <= size
    ensures e.page.Flows? ==> SET_HEADER_SIZE + |DataBody(e.page.records, DeviceStart(e.nowMs, e.uptimeMs))| <= size
  {
    match e.page
    case Flows(rs, withTemplate) =>
      PacketSizes(rs, DeviceStart(e.nowMs, e.uptimeMs));
    case Options(ifs) =>
      OptionTotal(c.shape);
      OptionsMatch(c.shape, c.domain, ifs);
  }

  // ---------------------------------------------------------------------------------------------
  // The collector's view.

  /** The Data Records of one datagram as they should be read. */
  function Records(c: Config, e: Entry): seq<Record> {
    match e.page
    case Flows(rs, _) => Tagged(DATA_TEMPLATE, RecordLayouts(rs, DeviceStart(e.nowMs, e.uptimeMs)))
    case Options(ifs) => Tagged(OPTIONS_TEMPLATE, OptionLayouts(c.shape, c.domain, ifs))
  }

  function LearnOne(c: Config, known: Templates, e: Entry): Templates {
    match e.page
    case Flows(_, withTemplate) => if withTemplate then known[DATA_TEMPLATE := Template()] else known
    case Options(_) => known[OPTIONS_TEMPLATE := OptionTemplate(c.shape)]
  }

  function Learned(c: Config, es: seq<Entry>): Templates {
    if es == [] then map[] else LearnOne(c, Learned(c, es[..|es| - 1]), es[|es| - 1])
  }

  /** The first datagram of the stream carries the template. */
  predicate Armed(es: seq<Entry>) {
    es != [] ==> es[0].page.Flows? && es[0].page.withTemplate
  }

  lemma {:induction false} ArmedKnows(c: Config, es: seq<Entry>)
    requires Armed(es) && es != []
    ensures DATA_TEMPLATE in Learned(c, es) && Learned(c, es)[DATA_TEMPLATE] == Template()
  {
    if |es| > 1 { ArmedKnows(c, es[..|es| - 1]); }
  }

  lemma OneReads(c: Config, e: Entry, seqNo: U32, size: nat, known: Templates)
    requires PageFits(c.shape, e.page, size) && size < 0x1_0000
    requires e.page.Flows? && !e.page.withTemplate ==> DATA_TEMPLATE in known && known[DATA_TEMPLATE] == Template()
    ensures ReadMessage(Render(c, e, seqNo), known) ==
            Ok(Message(ExportTime(e.nowMs), seqNo, c.domain, Reading(Records(c, e), LearnOne(c, known, e))))
  {
    hide ReadMessage, PacketSets, OptionSets, DataBody;
    RenderedFits(c, e, seqNo, size);
    match e.page
    case Flows(rs, withTemplate) =>
      PacketReadBack(ExportTime(e.nowMs), seqNo, c.domain, rs, DeviceStart(e.nowMs, e.uptimeMs), withTemplate, known);
    case Options(ifs) =>
      OptionsReadBack(ExportTime(e.nowMs), seqNo, c.domain, c.shape, ifs, known);
  }

  /** Datagram `k` read with what its predecessors taught: every field of its header and every record is as sent. */
  lemma StreamReads(c: Config, es: seq<Entry>, size: nat, k: nat)
    requires Armed(es) && k < |es| && size < 0x1_0000
    requires forall j | 0 <= j < |es| :: PageFits(c.shape, es[j].page, size)
    ensures ReadMessage(Sent(c, 0, es)[k], Learned(c, es[..k])) ==
            Ok(Message(ExportTime(es[k].nowMs), Wrap(Count(es[..k])), c.domain,
                       Reading(Records(c, es[k]), Learned(c, es[..k + 1]))))
    ensures |Sent(c, 0, es)[k]| <= size
  {
    hide Render, ReadMessage, PageFits, Records;
    if k > 0 { ArmedKnows(c, es[..k]); }
    assert es[..k + 1][..k] == es[..k];
    RenderedFits(c, es[k], Wrap(Count(es[..k])), size);
    OneReads(c, es[k], Wrap(Count(es[..k])), size, Learned(c, es[..k]));
  }

  /** The sequence number counts exactly the records a collector has read out of the earlier datagrams. */
  lemma {:induction false} CountIsRecordsRead(c: Config, es: seq<Entry>)
    ensures Count(es) == RecordsRead(c, es)
  {
    if es != [] { CountIsRecordsRead(c, es[..|es| - 1]); }
  }

  function RecordsRead(c: Config, es: seq<Entry>): nat {
    if es == [] then 0 else RecordsRead(c, es[..|es| - 1]) + |Records(c, es[|es| - 1])|
  }

  // ---------------------------------------------------------------------------------------------
  // Whole runs of the exporter.

  function Pages(es: seq<Entry>): seq<Page> { seq(|es|, k requires 0 <= k < |es| => es[k].page) }

  ghost function AllExpired(ticks: seq<TickIn>): seq<FlowRecord> {
    if ticks == [] then [] else AllExpired(ticks[..|ticks| - 1]) + ticks[|ticks| - 1].expired
  }

  lemma PagesConcat(shape: Shape, a: seq<Entry>, b: seq<Entry>, size: nat)
    requires AllFit(shape, Pages(a), size) && AllFit(shape, Pages(b), size)
    ensures Pages(a + b) == Pages(a) + Pages(b) && AllFit(shape, Pages(a + b), size)
    ensures Carried(Pages(a + b)) == Carried(Pages(a)) + Carried(Pages(b))
  {
    hide PageFits;
    assert Pages(a + b) == Pages(a) + Pages(b);
    CarriedConcat(Pages(a), Pages(b));
  }

  lemma {:induction false} RunShape(p: Plan, ticks: seq<TickIn>)
    requires SizeOk(p.size)
    ensures var es := RunEntries(p, ticks);
            && Carried(Pages(es)) == AllExpired(ticks)
            && AllFit(if p.shape.Some? then p.shape.value else IfScoped, Pages(es), p.size)
            && Armed(es) && (es == [] <==> ticks == [])
  {
    hide TickPages, PageFits, AllFit, Carried;
    if ticks != [] {
      var front := ticks[..|ticks| - 1];
      var t := ticks[|ticks| - 1];
      var last := LastTemplate(p.interval, front);
      RunShape(p, front);
      TickCarriesAll(p.shape, p.ifaces, t.expired, Due(last, t.now, p.interval), p.size);
      var (a, b) := (RunEntries(p, front), TickEntries(p, last, t));
      assert Pages(b) == TickPages(p.shape, p.ifaces, t.expired, Due(last, t.now, p.interval), p.size);
      PagesConcat(if p.shape.Some? then p.shape.value else IfScoped, a, b, p.size);
    } else {
      NothingCarried(if p.shape.Some? then p.shape.value else IfScoped, p.size);
    }
  }

  lemma NothingCarried(shape: Shape, size: nat)
    ensures Pages([]) == [] && Carried([]) == [] && AllFit(shape, [], size)
  {
  }

  /**
   For every run of ticks, at every MTU and either address family: each datagram fits its budget and is readable by
   a collector that has seen the ones before it, its sequence number is the number of Data Records read so far
   modulo 2^32, and the records carried are all the expired flows, once each, in order.
   */
  lemma RunCollected(c: Config, p: Plan, ticks: seq<TickIn>, k: nat)
    requires SizeOk(p.size) && c.shape == (if p.shape.Some? then p.shape.value else IfScoped)
    requires k < |RunEntries(p, ticks)|
    ensures var es := RunEntries(p, ticks);
            && |Sent(c, 0, es)[k]| <= p.size
            && ReadMessage(Sent(c, 0, es)[k], Learned(c, es[..k])) ==
               Ok(Message(es[k].nowMs / 1000 % 0x1_0000_0000, RecordsRead(c, es[..k]) % 0x1_0000_0000, c.domain,
                          Reading(Records(c, es[k]), Learned(c, es[..k + 1]))))
            && Carried(Pages(es)) == AllExpired(ticks)
  {
    var es := RunEntries(p, ticks);
    RunShape(p, ticks);
    forall j | 0 <= j < |es| ensures PageFits(c.shape, es[j].page, p.size) { assert Pages(es)[j] == es[j].page; }
    CountIsRecordsRead(c, es[..k]);
    StreamReads(c, es, p.size, k);
  }

  /** When a flow record read by the collector started and ended: uptimes placed on the wall clock of its datagram. */
  lemma RecordTimes(c: Config, e: Entry, i: nat)
    requires e.page.Flows? && i < |e.page.records|
    requires e.nowMs + 0x1_0000_0000 < 0x1_0000_0000_0000_0000
    ensures var (r, boot) := (e.page.records[i], if e.nowMs < e.uptimeMs then 0 else e.nowMs - e.uptimeMs);
            i < |Records(c, e)| && Holds(Records(c, e)[i].fields, 152, boot + r.startMs)
            && Holds(Records(c, e)[i].fields, 153, boot + r.endMs)
  {
    hide Holds, RecordLayout;
    RecordMeans(e.page.records[i], DeviceStart(e.nowMs, e.uptimeMs));
  }

  // ---------------------------------------------------------------------------------------------
  // The refresh cadence.

  /** Some datagram of tick `j` carries the template. */
  ghost predicate Refreshes(p: Plan, ticks: seq<TickIn>, j: nat)
    requires SizeOk(p.size) && j < |ticks|
  {
    var es := TickEntries(p, LastTemplate(p.interval, ticks[..j]), ticks[j]);
    exists k :: 0 <= k < |es| && es[k].page.Flows? && es[k].page.withTemplate
  }

  lemma {:induction false} OnlyFirstPage(expired: seq<FlowRecord>, withTemplate: bool, size: nat, k: nat)
    requires SizeOk(size) && k < |FlowPages(expired, withTemplate, size)|
    ensures var page := FlowPages(expired, withTemplate, size)[k];
            page.Flows? && (page.withTemplate <==> withTemplate && k == 0)
    decreases |expired|
  {
    CapacityIsLargest(size, withTemplate, 1);
    var cap := Capacity(size, withTemplate);
    if |expired| > cap && k > 0 { OnlyFirstPage(expired[cap..], false, size, k - 1); }
  }

  lemma {:induction false} OptionPagesOnly(shape: Shape, ifs: seq<Iface>, size: nat, k: nat)
    requires SizeOk(size) && k < |OptionPages(shape, ifs, size)|
    ensures OptionPages(shape, ifs, size)[k].Options?
    decreases |ifs|
  {
    var cap := OptionCapacity(shape, size);
    if ifs != [] && |ifs| > cap && k > 0 { OptionPagesOnly(shape, ifs[cap..], size, k - 1); }
  }

  lemma RefreshesWhenDue(p: Plan, ticks: seq<TickIn>, j: nat)
    requires SizeOk(p.size) && j < |ticks|
    ensures Refreshes(p, ticks, j) <==> Due(LastTemplate(p.interval, ticks[..j]), ticks[j].now, p.interval)
  {
    hide FlowPages, OptionPages;
    var (t, last) := (ticks[j], LastTemplate(p.interval, ticks[..j]));
    var due := Due(last, t.now, p.interval);
    var es := TickEntries(p, last, t);
    var ps := TickPages(p.shape, p.ifaces, t.expired, due, p.size);
    TickCarriesAll(p.shape, p.ifaces, t.expired, due, p.size);
    if due { assert es[0].page == ps[0]; }
    if k :| 0 <= k < |es| && es[k].page.Flows? && es[k].page.withTemplate {
      assert es[k].page == ps[k];
      var n := |FlowPages(t.expired, due, p.size)|;
      if k < n { OnlyFirstPage(t.expired, due, p.size, k); }
      else { OptionPagesOnly(p.shape.value, p.ifaces, p.size, k - n); }
    }
  }

  /** The latest refresh before tick `i`. */
  ghost predicate LatestBefore(p: Plan, ticks: seq<TickIn>, j: nat, i: nat)
    requires SizeOk(p.size) && i <= |ticks|
  {
    j < i && Refreshes(p, ticks, j) && forall m | j < m < i :: !Refreshes(p, ticks, m)
  }

  lemma {:induction false} LastIsLatest(p: Plan, ticks: seq<TickIn>, i: nat)
    requires SizeOk(p.size) && i <= |ticks|
    ensures LastTemplate(p.interval, ticks[..i]).None? <==> i == 0
    ensures i > 0 ==> exists j: nat :: LatestBefore(p, ticks, j, i)
    ensures forall j: nat | LatestBefore(p, ticks, j, i) :: LastTemplate(p.interval, ticks[..i]) == Some(ticks[j].now)
  {
    hide Refreshes, TickEntries;
    if i > 0 {
      LastIsLatest(p, ticks, i - 1);
      RefreshesWhenDue(p, ticks, i - 1);
      assert ticks[..i][..i - 1] == ticks[..i - 1];
      if Refreshes(p, ticks, i - 1) {
        assert LatestBefore(p, ticks, i - 1, i);
        assert forall j: nat | LatestBefore(p, ticks, j, i) :: j == i - 1;
      } else {
        var j: nat :| LatestBefore(p, ticks, j, i - 1);
        assert LatestBefore(p, ticks, j, i);
        assert forall m: nat | LatestBefore(p, ticks, m, i) :: m != i - 1 && LatestBefore(p, ticks, m, i - 1);
      }
    }
  }

  /**
   Over every run a tick refreshes the template exactly when it is the first one, or the interval has passed since the
   latest tick that did; a tick in between with nothing to export sends nothing.
   */
  lemma RefreshCadence(p: Plan, ticks: seq<TickIn>, i: nat)
    requires SizeOk(p.size) && i < |ticks|
    ensures i == 0 ==> Refreshes(p, ticks, 0)
    ensures i > 0 ==> exists j: nat :: LatestBefore(p, ticks, j, i)
    ensures forall j: nat | LatestBefore(p, ticks, j, i) ::
              Refreshes(p, ticks, i) <==> ticks[i].now - ticks[j].now >= p.interval
    ensures !Refreshes(p, ticks, i) && ticks[i].expired == [] ==>
              TickEntries(p, LastTemplate(p.interval, ticks[..i]), ticks[i]) == []
  {
    hide Refreshes, TickPages;
    LastIsLatest(p, ticks, i);
    RefreshesWhenDue(p, ticks, i);
    TickCarriesAll(p.shape, p.ifaces, ticks[i].expired,
                   Due(LastTemplate(p.interval, ticks[..i]), ticks[i].now, p.interval), p.size);
  }

  // ---------------------------------------------------------------------------------------------
  // The exporter's own stream.

  /**
   Whatever an exporter has sent since it was built, its datagrams do not fragment: with the 20 or 40 byte IP header
   and the 8 byte UDP header in front of it each still fits the MTU.
   */
  lemma ExporterFitsPath(x: FlowExporter, k: nat)
    requires x.Valid() && k < |x.wire|
    ensures |x.wire[k]| + (if x.ipv4 then 28 else 48) <= x.mtu
  {
    RunCollected(x.Conf(), x.ThePlan(), x.history, k);
  }
}
