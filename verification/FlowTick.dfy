/**
 One exporter's tick over plain IPFIX: expired flows are cut into datagrams that fit the path, templates and the
 interface option table ride the refresh cadence, and the sequence number counts Data Records (section 3.1 of RFC 7011).
 */
module FlowTick {
  import opened Common
  import opened Wire
  import opened Ipfix
  import opened IpfixEncoder

  const MIN_MTU: nat := 576

  /** What the IP and UDP headers leave of the MTU; anything that is not IPv4 pays for an IPv6 header. */
  function PayloadBudget(mtu: nat, ipv4: bool): nat
    requires MIN_MTU <= mtu
  {
    mtu - (if ipv4 then 20 else 40) - 8
  }

  predicate SizeOk(size: nat) {
    PayloadBudget(MIN_MTU, false) <= size < 0x1_0000
  }

  // ---------------------------------------------------------------------------------------------
  // Pages: what a tick should put into each datagram.

  datatype Page =
    | Flows(records: seq<FlowRecord>, withTemplate: bool)
    | Options(ifs: seq<Iface>)
  {
    /** The Data Records it carries. */
    function Count(): nat { if Flows? then |records| else |ifs| }
  }

  function FlowPages(expired: seq<FlowRecord>, withTemplate: bool, size: nat): seq<Page>
    requires SizeOk(size)
    decreases |expired|
  {
    var cap := Capacity(size, withTemplate);
    if |expired| <= cap then [Flows(expired, withTemplate)]
    else
      CapacityIsLargest(size, withTemplate, 1);
      [Flows(expired[..cap], withTemplate)] + FlowPages(expired[cap..], false, size)
  }

  /** The first page, and what the encoder does with it: it takes the whole batch, and it has room for it. */
  lemma FirstPage(rest: seq<FlowRecord>, withTemplate: bool, size: nat)
    requires SizeOk(size) && (rest != [] || withTemplate)
    ensures var cap := Capacity(size, withTemplate);
            var batch := if |rest| <= cap then rest else rest[..cap];
            var left := if |rest| <= cap then [] else rest[cap..];
            && FlowPages(rest, withTemplate, size) ==
                 [Flows(batch, withTemplate)] + (if left == [] then [] else FlowPages(left, false, size))
            && !TooSmall(size, |batch|, withTemplate)
            && Encoded(batch, size, withTemplate) == batch
            && batch + left == rest
            && (left == [] || |left| < |rest|)
  {
    CapacityIsLargest(size, withTemplate, 1);
  }

  function OptionPages(shape: Shape, ifs: seq<Iface>, size: nat): seq<Page>
    requires SizeOk(size)
    decreases |ifs|
  {
    var cap := OptionCapacity(shape, size);
    if ifs == [] then []
    else if |ifs| <= cap then [Options(ifs)]
    else [Options(ifs[..cap])] + OptionPages(shape, ifs[cap..], size)
  }

  function TickPages(shape: Option<Shape>, ifs: seq<Iface>, expired: seq<FlowRecord>, withTemplate: bool,
                     size: nat): seq<Page>
    requires SizeOk(size)
  {
    if expired == [] && !withTemplate then []
    else
      FlowPages(expired, withTemplate, size) +
      if withTemplate && shape.Some? then OptionPages(shape.value, ifs, size) else []
  }

  // ---------------------------------------------------------------------------------------------
  // Datagrams.

  /** A page with the clocks it was encoded under. */
  datatype Entry = Entry(page: Page, uptimeMs: U32, nowMs: nat)

  datatype Config = Config(domain: U32, shape: Shape)

  function Render(c: Config, e: Entry, seqNo: U32): Bytes {
    match e.page
    case Flows(rs, withTemplate) => PacketBytes(c.domain, seqNo, e.uptimeMs, e.nowMs, rs, withTemplate)
    case Options(ifs) => OptionBytes(c.shape, c.domain, seqNo, e.nowMs, ifs)
  }

  function Count(es: seq<Entry>): nat {
    if es == [] then 0 else Count(es[..|es| - 1]) + es[|es| - 1].page.Count()
  }

  /** The 32-bit sequence counter after `n` Data Records. */
  function Wrap(n: nat): U32 { n % 0x1_0000_0000 }

  lemma WrapAdds(n: nat, k: nat)
    ensures Wrap(Wrap(n) + k) == Wrap(n + k)
  {
    assert n == 0x1_0000_0000 * (n / 0x1_0000_0000) + n % 0x1_0000_0000;
  }

  /** The datagrams of these entries when `base` Data Records went before: each carries the count of those before it. */
  function Sent(c: Config, base: nat, es: seq<Entry>): seq<Bytes> {
    seq(|es|, k requires 0 <= k < |es| => Render(c, es[k], Wrap(base + Count(es[..k]))))
  }

  function Stamped(pages: seq<Page>, uptimeMs: U32, wall: nat -> nat, from: nat): seq<Entry> {
    seq(|pages|, k requires 0 <= k < |pages| => Entry(pages[k], uptimeMs, wall(from + k)))
  }

  lemma SentSnoc(c: Config, base: nat, es: seq<Entry>, e: Entry)
    ensures Sent(c, base, es + [e]) == Sent(c, base, es) + [Render(c, e, Wrap(base + Count(es)))]
  {
    hide Render, Wrap, Count;
    var n := es + [e];
    var (whole, parts) := (Sent(c, base, n), Sent(c, base, es) + [Render(c, e, Wrap(base + Count(es)))]);
    assert n[..|es|] == es;
    forall k | 0 <= k < |n| ensures whole[k] == parts[k] {
      if k < |es| { assert n[..k] == es[..k]; }
    }
  }

  lemma StampedSnoc(pages: seq<Page>, p: Page, uptimeMs: U32, wall: nat -> nat)
    ensures Stamped(pages + [p], uptimeMs, wall, 0) ==
              Stamped(pages, uptimeMs, wall, 0) + [Entry(p, uptimeMs, wall(|pages|))]
  {
  }

  /** The pages handled so far are on the wire, and `total` counts everything sent. */
  ghost predicate SoFar(c: Config, base: nat, total: nat, done: seq<Page>, uptimeMs: U32, wall: nat -> nat,
                        out: seq<Bytes>) {
    var es := Stamped(done, uptimeMs, wall, 0);
    |out| == |done| && out == Sent(c, base, es) && total == base + Count(es)
  }

  lemma SoFarStep(c: Config, base: nat, total: nat, done: seq<Page>, uptimeMs: U32, wall: nat -> nat, out: seq<Bytes>,
                  p: Page)
    requires SoFar(c, base, total, done, uptimeMs, wall, out)
    ensures SoFar(c, base, total + p.Count(), done + [p], uptimeMs, wall,
                  out + [Render(c, Entry(p, uptimeMs, wall(|out|)), Wrap(total))])
  {
    hide Render, Sent, Wrap;
    SentSnoc(c, base, Stamped(done, uptimeMs, wall, 0), Entry(p, uptimeMs, wall(|out|)));
    StampedSnoc(done, p, uptimeMs, wall);
  }

  lemma OptionPage(shape: Shape, rest: seq<Iface>, size: nat, n: nat)
    requires SizeOk(size) && rest != [] && 0 < n <= |rest|
    requires n == if |rest| <= OptionCapacity(shape, size) then |rest| else OptionCapacity(shape, size)
    ensures OptionPages(shape, rest, size) == [Options(rest[..n])] + OptionPages(shape, rest[n..], size)
  {
    if n == |rest| {
      assert rest[..n] == rest && rest[n..] == [];
    }
  }

  ghost function MovePage(done: seq<Page>, todo: seq<Page>, p: Page): (r: seq<Page>)
    requires todo != [] && todo[0] == p
    ensures r == done + [p] && r + todo[1..] == done + todo
  {
    done + [p]
  }

  // ---------------------------------------------------------------------------------------------
  // Runs of ticks.

  /** One tick's inputs; `wall(k)` is the wall clock, in milliseconds, as its k-th datagram is encoded. */
  datatype TickIn = TickIn(now: int, uptimeMs: U32, expired: seq<FlowRecord>, wall: nat -> nat)

  datatype Plan = Plan(shape: Option<Shape>, ifaces: seq<Iface>, interval: int, size: nat)

  predicate Due(last: Option<int>, now: int, interval: int) { last.None? || now - last.value >= interval }

  ghost function LastTemplate(interval: int, ticks: seq<TickIn>): Option<int> {
    if ticks == [] then None
    else
      var (last, now) := (LastTemplate(interval, ticks[..|ticks| - 1]), ticks[|ticks| - 1].now);
      if Due(last, now, interval) then Some(now) else last
  }

  ghost function TickEntries(p: Plan, last: Option<int>, t: TickIn): seq<Entry>
    requires SizeOk(p.size)
  {
    Stamped(TickPages(p.shape, p.ifaces, t.expired, Due(last, t.now, p.interval), p.size), t.uptimeMs, t.wall, 0)
  }

  /** Everything a run of ticks should put on the wire. */
  ghost function RunEntries(p: Plan, ticks: seq<TickIn>): seq<Entry>
    requires SizeOk(p.size)
  {
    if ticks == [] then []
    else
      var front := ticks[..|ticks| - 1];
      RunEntries(p, front) + TickEntries(p, LastTemplate(p.interval, front), ticks[|ticks| - 1])
  }

  lemma {:induction false} CountConcat(a: seq<Entry>, b: seq<Entry>)
    ensures Count(a + b) == Count(a) + Count(b)
    decreases |b|
  {
    if b == [] {
      assert a + b == a;
    } else {
      CountConcat(a, b[..|b| - 1]);
      assert (a + b)[..|a + b| - 1] == a + b[..|b| - 1];
    }
  }

  lemma CountPrefix(a: seq<Entry>, b: seq<Entry>, k: nat)
    requires k <= |a + b|
    ensures Count((a + b)[..k]) == if k < |a| then Count(a[..k]) else Count(a) + Count(b[..k - |a|])
  {
    if k < |a| {
      assert (a + b)[..k] == a[..k];
    } else {
      assert (a + b)[..k] == a + b[..k - |a|];
      CountConcat(a, b[..k - |a|]);
    }
  }

  lemma SentConcat(c: Config, a: seq<Entry>, b: seq<Entry>)
    ensures Sent(c, 0, a + b) == Sent(c, 0, a) + Sent(c, Count(a), b)
  {
    hide Render, Wrap, Count;
    var (whole, parts) := (Sent(c, 0, a + b), Sent(c, 0, a) + Sent(c, Count(a), b));
    forall k | 0 <= k < |a + b| ensures whole[k] == parts[k] { CountPrefix(a, b, k); }
  }

  lemma RunGrows(c: Config, p: Plan, ticks: seq<TickIn>, t: TickIn, out: seq<Bytes>, total: nat)
    requires SizeOk(p.size)
    requires var last := LastTemplate(p.interval, ticks);
             SoFar(c, Count(RunEntries(p, ticks)), total,
                   TickPages(p.shape, p.ifaces, t.expired, Due(last, t.now, p.interval), p.size),
                   t.uptimeMs, t.wall, out)
    ensures var es := RunEntries(p, ticks + [t]);
            Sent(c, 0, es) == Sent(c, 0, RunEntries(p, ticks)) + out && Count(es) == total
    ensures var last := LastTemplate(p.interval, ticks);
            LastTemplate(p.interval, ticks + [t]) == if Due(last, t.now, p.interval) then Some(t.now) else last
  {
    assert (ticks + [t])[..|ticks|] == ticks;
    var (a, b) := (RunEntries(p, ticks), TickEntries(p, LastTemplate(p.interval, ticks), t));
    SentConcat(c, a, b);
    CountConcat(a, b);
  }

  // ---------------------------------------------------------------------------------------------
  // The exporter.

  class FlowExporter {
    const domain: U32
    const templateInterval: int
    const shape: Option<Shape>
    const ifaces: seq<Iface>
    const templ: Bytes
    const optTempl: Bytes
    const size: nat
    /** The path the exporter was built for. */
    ghost const mtu: nat
    ghost const ipv4: bool
    var seqNo: U32
    var lastTempl: Option<int>
    /** Every tick so far, and every datagram handed to the socket. */
    ghost var history: seq<TickIn>
    ghost var wire: seq<Bytes>
    ghost var total: nat

    ghost predicate Ready()
      reads `seqNo, `total
    {
      && seqNo == Wrap(total) && SizeOk(size) && size + (if ipv4 then 28 else 48) == mtu && templ == TemplateSet()
      && (shape.Some? ==> optTempl == OptionTemplateSet(shape.value))
    }

    ghost predicate Valid()
      reads this
    {
      && Ready()
      && wire == Sent(Conf(), 0, RunEntries(ThePlan(), history))
      && total == Count(RunEntries(ThePlan(), history))
      && lastTempl == LastTemplate(templateInterval, history)
    }

    ghost function ThePlan(): Plan
      requires SizeOk(size)
    {
      Plan(shape, ifaces, templateInterval, size)
    }

    ghost function Conf(): Config { Config(domain, if shape.Some? then shape.value else IfScoped) }

    /** The pooled buffers are one MTU long; the collector's address family decides how much of that is payload. */
    constructor (domain: U32, templateInterval: int, shape: Option<Shape>, ifaces: seq<Iface>, mtu: nat, ipv4: bool)
      requires 576 <= mtu <= 65535
      ensures Valid() && history == [] && wire == [] && size + (if ipv4 then 28 else 48) == mtu
      ensures this.mtu == mtu && this.ipv4 == ipv4
      ensures this.domain == domain && this.shape == shape && this.ifaces == ifaces
              && this.templateInterval == templateInterval
    {
      size := PayloadBudget(mtu, ipv4);
      this.mtu, this.ipv4 := mtu, ipv4;
      history, wire, total := [], [], 0;
      this.domain, this.templateInterval, this.shape, this.ifaces := domain, templateInterval, shape, ifaces;
      seqNo, lastTempl := 0, None;
      var t := BuildTemplateSet();
      templ := t[..];
      if shape.Some? {
        var fields := OptionTemplate(shape.value);
        var o := BuildOptionsTemplateSet(fields[0], fields[1..]);
        assert [fields[0]] + fields[1..] == fields;
        optTempl := o[..];
      } else {
        optTempl := [];
      }
    }

    /** One datagram off the front of the list. Its own capacity arithmetic must agree with the encoder's. */
    method SendPage(rest: seq<FlowRecord>, withTemplate: bool, uptimeMs: U32, nowMs: nat, buf: array<U8>)
      returns (left: seq<FlowRecord>, packet: Bytes, ghost page: Page)
      requires Ready() && size <= buf.Length && (rest != [] || withTemplate)
      modifies buf, `seqNo, `total
      ensures FlowPages(rest, withTemplate, size) == [page] + if left == [] then [] else FlowPages(left, false, size)
      ensures packet == Render(Conf(), Entry(page, uptimeMs, nowMs), Wrap(old(total)))
      ensures Ready() && total == old(total) + page.Count()
      ensures |left| < |rest| || left == []
    {
      hide PacketBytes, OptionBytes, FlowPages, Encoded, TooSmall;
      var overhead := HEADER_SIZE + 4 + if withTemplate then TEMPLATE_SET_SIZE else 0;
      var cap := (size - overhead) / RECORD_SIZE;
      if cap > 0 && overhead + cap * RECORD_SIZE + DataPadBytes(cap) > size { cap := cap - 1; }
      assert cap == Capacity(size, withTemplate);
      FirstPage(rest, withTemplate, size);
      var batch;
      if cap >= |rest| { batch, left := rest, []; } else { batch, left := rest[..cap], rest[cap..]; }
      page := Flows(batch, withTemplate);
      var n, ok := EncodePacket(templ, domain, seqNo, uptimeMs, nowMs, batch, withTemplate, buf, size);
      packet := buf[..n];
      WrapAdds(total, |batch|);
      seqNo, total := Wrap(seqNo + |batch|), total + |batch|;
    }

    /** Cuts the expired list into datagrams. */
    method SendFlows(expired: seq<FlowRecord>, withTemplate: bool, now: int, uptimeMs: U32, wall: nat -> nat,
                     buf: array<U8>) returns (out: seq<Bytes>)
      requires Ready() && size <= buf.Length && (expired != [] || withTemplate)
      modifies buf, `seqNo, `total, `lastTempl
      ensures Ready() && SoFar(Conf(), old(total), total, FlowPages(expired, withTemplate, size), uptimeMs, wall, out)
      ensures lastTempl == if withTemplate then Some(now) else old(lastTempl)
    {
      out := [];
      var rest, sendTemplate := expired, withTemplate;
      ghost var goal := FlowPages(expired, withTemplate, size);
      ghost var (done: seq<Page>, todo) := ([], goal);
      while true
        invariant goal == done + todo && todo == FlowPages(rest, sendTemplate, size)
        invariant (rest != [] || sendTemplate) && (sendTemplate ==> withTemplate)
        invariant Ready() && SoFar(Conf(), old(total), total, done, uptimeMs, wall, out)
        invariant lastTempl == if withTemplate && !sendTemplate then Some(now) else old(lastTempl)
        decreases |rest|
      {
        ghost var was := total;
        var left, packet, page := SendPage(rest, sendTemplate, uptimeMs, wall(|out|), buf);
        SoFarStep(Conf(), old(total), was, done, uptimeMs, wall, out, page);
        out := out + [packet];
        if sendTemplate { lastTempl := Some(now); sendTemplate := false; }
        done, todo := MovePage(done, todo, page), todo[1..];
        rest := left;
        if rest == [] { break; }
      }
      assert goal == done;
    }

    /** Appends the option table, a datagram at a time. */
    method SendOptions(sh: Shape, before: seq<Bytes>, uptimeMs: U32, wall: nat -> nat, buf: array<U8>,
                       ghost base: nat, ghost pages: seq<Page>) returns (out: seq<Bytes>)
      requires Ready() && shape == Some(sh) && size <= buf.Length
      requires SoFar(Conf(), base, total, pages, uptimeMs, wall, before)
      modifies buf, `seqNo, `total
      ensures Ready() && SoFar(Conf(), base, total, pages + OptionPages(sh, ifaces, size), uptimeMs, wall, out)
    {
      hide PacketBytes, Stamped, Sent;
      out := before;
      var rest := ifaces;
      ghost var (done, todo) := (pages, OptionPages(sh, ifaces, size));
      ghost var goal := done + todo;
      while rest != []
        invariant goal == done + todo && todo == OptionPages(sh, rest, size)
        invariant Ready() && SoFar(Conf(), base, total, done, uptimeMs, wall, out)
        decreases |rest|
      {
        var n, consumed, ok := EncodeOptionsDatagram(optTempl, sh, domain, seqNo, wall(|out|), rest, buf, size);
        ghost var page := Options(rest[..consumed]);
        OptionPage(sh, rest, size, consumed);
        SoFarStep(Conf(), base, total, done, uptimeMs, wall, out, page);
        out := out + [buf[..n]];
        WrapAdds(total, consumed);
        seqNo, total := Wrap(seqNo + consumed), total + consumed;
        done, todo := MovePage(done, todo, page), todo[1..];
        rest := rest[consumed..];
      }
      assert goal == done;
    }

    method Send(now: int, uptimeMs: U32, expired: seq<FlowRecord>, sendTemplate: bool, wall: nat -> nat, buf: array<U8>)
      returns (out: seq<Bytes>)
      requires Ready() && size <= buf.Length
      modifies buf, `seqNo, `total, `lastTempl
      ensures Ready() && SoFar(Conf(), old(total), total, TickPages(shape, ifaces, expired, sendTemplate, size),
                               uptimeMs, wall, out)
      ensures lastTempl == if sendTemplate then Some(now) else old(lastTempl)
    {
      hide Render, Wrap, FlowPages, OptionPages;
      ghost var base := total;
      if expired == [] && !sendTemplate { return []; }
      ghost var pages := FlowPages(expired, sendTemplate, size);
      assert pages + [] == pages;
      out := SendFlows(expired, sendTemplate, now, uptimeMs, wall, buf);
      if sendTemplate && shape.Some? {
        out := SendOptions(shape.value, out, uptimeMs, wall, buf, base, pages);
      }
    }

    /** One tick: nothing when there is nothing to say, otherwise flows, and the option table on a refresh. */
    method Tick(now: int, uptimeMs: U32, expired: seq<FlowRecord>, wall: nat -> nat, buf: array<U8>)
      returns (out: seq<Bytes>)
      requires Valid() && size <= buf.Length
      modifies this, buf
      ensures Valid() && history == old(history) + [TickIn(now, uptimeMs, expired, wall)] && wire == old(wire) + out
    {
      hide SoFar, Sent, Render, Wrap, TickPages, Count;
      ghost var tick := TickIn(now, uptimeMs, expired, wall);
      var sendTemplate := lastTempl.None? || now - lastTempl.value >= templateInterval;
      out := Send(now, uptimeMs, expired, sendTemplate, wall, buf);
      RunGrows(Conf(), ThePlan(), history, tick, out, total);
      history, wire := history + [tick], wire + out;
    }
  }
}
