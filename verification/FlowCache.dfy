/**
 The flow cache of one device. Flows enter by packet arrival or by synthesis, leave by the active or the inactive
 timeout or by trimming, and never outnumber the limit. Times and durations are in milliseconds.
 */
module FlowCache {
  import opened Common
  import opened Wire
  import opened Ipfix
  import Sorting

  /** The five-tuple; an address that is not IPv4 counts as 0.0.0.0. */
  datatype FlowKey = FlowKey(src: U32, dst: U32, srcPort: U16, dstPort: U16, protocol: U8)

  function RecordKey(r: FlowRecord): FlowKey {
    FlowKey(To4(r.srcIP), To4(r.dstIP), r.srcPort, r.dstPort, r.protocol)
  }

  datatype FlowEntry = FlowEntry(record: FlowRecord, lastSeenAt: int, activeDeadline: int)

  // ---------------------------------------------------------------------------------------------
  // The export order.

  predicate Less(a: FlowKey, b: FlowKey) {
    if a.src != b.src then a.src < b.src
    else if a.dst != b.dst then a.dst < b.dst
    else if a.srcPort != b.srcPort then a.srcPort < b.srcPort
    else if a.dstPort != b.dstPort then a.dstPort < b.dstPort
    else a.protocol < b.protocol
  }

  predicate RecordLess(a: FlowRecord, b: FlowRecord) { Less(RecordKey(a), RecordKey(b)) }

  ghost predicate Sorted(rs: seq<FlowRecord>) { Sorting.Ascending(RecordLess, rs) }

  ghost predicate DistinctKeys(rs: seq<FlowRecord>) {
    forall i, j | 0 <= i < j < |rs| :: RecordKey(rs[i]) != RecordKey(rs[j])
  }

  /** The five numbers a flow is told apart by, in the order they weigh: an address that is not IPv4 weighs 0. */
  ghost function Weights(r: FlowRecord): seq<nat> {
    [if r.srcIP.Some? then r.srcIP.value else 0, if r.dstIP.Some? then r.dstIP.value else 0,
     r.srcPort, r.dstPort, r.protocol]
  }

  /** The first number that differs is smaller. */
  ghost predicate Before(x: seq<nat>, y: seq<nat>) {
    exists p :: 0 <= p < |x| && p < |y| && x[p] < y[p] && forall i | 0 <= i < p :: x[i] == y[i]
  }

  /** Records share a flow exactly when all five agree, and export follows them in lexicographic order. */
  lemma KeyIsWeights(a: FlowRecord, b: FlowRecord)
    ensures RecordKey(a) == RecordKey(b) <==> Weights(a) == Weights(b)
    ensures RecordLess(a, b) <==> Before(Weights(a), Weights(b))
  {
    var (x, y) := (Weights(a), Weights(b));
    assert x == y <==> x[0] == y[0] && x[1] == y[1] && x[2] == y[2] && x[3] == y[3] && x[4] == y[4];
    if RecordLess(a, b) {
      var p := if x[0] != y[0] then 0 else if x[1] != y[1] then 1 else if x[2] != y[2] then 2
               else if x[3] != y[3] then 3 else 4;
      assert x[p] < y[p];
    }
  }

  lemma SortedIsLexicographic(rs: seq<FlowRecord>)
    requires Sorted(rs)
    ensures forall i, j | 0 <= i < j < |rs| :: Before(Weights(rs[i]), Weights(rs[j]))
  {
    hide Weights, Before, RecordLess;
    forall i, j | 0 <= i < j < |rs| ensures Before(Weights(rs[i]), Weights(rs[j])) {
      assert RecordLess(rs[i], rs[j]);
      KeyIsWeights(rs[i], rs[j]);
    }
  }

  method SortByKey(rs: seq<FlowRecord>) returns (out: seq<FlowRecord>)
    requires DistinctKeys(rs)
    ensures Sorted(out) && multiset(out) == multiset(rs) && |out| == |rs|
  {
    forall a, b, c | RecordLess(a, b) && RecordLess(b, c) ensures RecordLess(a, c) {
    }
    forall i, j | 0 <= i < j < |rs| ensures RecordLess(rs[i], rs[j]) || RecordLess(rs[j], rs[i]) {
    }
    out := Sorting.SortBy(RecordLess, rs);
  }

  // ---------------------------------------------------------------------------------------------
  // Lifetimes.

  /** Clamped at zero, so a wrapped end does not put the last packet before the first. */
  function Duration(r: FlowRecord): nat { if r.endMs <= r.startMs then 0 else r.endMs - r.startMs }

  predicate DueActive(e: FlowEntry, now: int) { now >= e.activeDeadline }

  predicate DueInactive(e: FlowEntry, now: int, inactive: int) { now - e.lastSeenAt >= inactive }

  predicate Due(e: FlowEntry, now: int, inactive: int) { DueActive(e, now) || DueInactive(e, now, inactive) }

  function DueKeys(flows: map<FlowKey, FlowEntry>, now: int, inactive: int): set<FlowKey> {
    set k | k in flows && Due(flows[k], now, inactive)
  }

  function Min(a: int, b: int): int { if a < b then a else b }

  /** How long a synthesised flow lives: until its active deadline, or until it has been idle long enough. */
  function Lifetime(r: FlowRecord, deadline: int, inactive: int): int { Min(deadline, Duration(r) + inactive) }

  /** A synthesised flow of a given age. */
  function Synthetic(r: FlowRecord, deadline: int, now: int, age: nat): FlowEntry {
    FlowEntry(r, now - age + Duration(r), now - age + deadline)
  }

  /**
   It is due exactly when its age has reached its lifetime, so one whose age is drawn below it is never born expired.
   */
  lemma BornExpiredIff(r: FlowRecord, deadline: int, inactive: int, now: int, age: nat)
    ensures Due(Synthetic(r, deadline, now, age), now, inactive) <==> age >= Lifetime(r, deadline, inactive)
  {
  }

  /** One record the generator draws: its jitter on the active timeout, and its age should the cache be cold. */
  datatype Draw = Draw(record: FlowRecord, jitter: int, age: nat)

  function Or8(a: U8, b: U8): U8 { ((a as bv8) | (b as bv8)) as nat }

  /** A packet of a flow already cached. */
  function Accumulated(e: FlowEntry, r: FlowRecord, now: int): FlowEntry {
    FlowEntry(e.record.(octets := (e.record.octets + r.octets) % 0x1_0000_0000_0000_0000,
                        packets := (e.record.packets + r.packets) % 0x1_0000_0000,
                        tcpFlags := Or8(e.record.tcpFlags, r.tcpFlags), endMs := r.endMs),
              now, e.activeDeadline)
  }

  /** What a burst of packets of one flow makes of its entry; the k-th arrives at `at(k)`. */
  function Burst(e: FlowEntry, rs: seq<FlowRecord>, at: nat -> int): FlowEntry {
    if rs == [] then e else Accumulated(Burst(e, rs[..|rs| - 1], at), rs[|rs| - 1], at(|rs| - 1))
  }

  ghost function SumOctets(rs: seq<FlowRecord>): nat {
    if rs == [] then 0 else SumOctets(rs[..|rs| - 1]) + rs[|rs| - 1].octets
  }

  ghost function SumPackets(rs: seq<FlowRecord>): nat {
    if rs == [] then 0 else SumPackets(rs[..|rs| - 1]) + rs[|rs| - 1].packets
  }

  /** A TCP flag, one of eight. */
  ghost predicate Flag(flags: U8, mask: bv8) { flags as bv8 & mask != 0 }

  lemma OrKept(a: U8, b: U8)
    ensures Or8(a, b) as bv8 == a as bv8 | b as bv8
  {
  }

  lemma OrMasked(x: bv8, y: bv8, mask: bv8)
    ensures (x | y) & mask == 0 <==> x & mask == 0 && y & mask == 0
  {
  }

  lemma OrBits(a: U8, b: U8, mask: bv8)
    ensures Flag(Or8(a, b), mask) <==> Flag(a, mask) || Flag(b, mask)
  {
    hide Or8;
    OrKept(a, b);
    OrMasked(a as bv8, b as bv8, mask);
  }

  lemma {:induction false} TimesAtLeast(d: nat, m: nat)
    requires d > 0
    ensures d * m >= m
  {
    if d > 1 {
      TimesAtLeast(d - 1, m);
      assert d * m == (d - 1) * m + m;
    }
  }

  lemma NearIsZero(d: int, m: int)
    requires m > 0 && -m < d * m < m
    ensures d == 0
  {
    assert -d * m == -(d * m);
    if d > 0 { TimesAtLeast(d, m); }
    if d < 0 { TimesAtLeast(-d, m); }
  }

  lemma Parts(x: nat, m: nat)
    requires m > 0
    ensures x == x / m * m + x % m && x % m < m
  {
  }

  lemma Distributes(q: int, k: int, m: int)
    ensures (q + k) * m == q * m + k * m && (q - k) * m == q * m - k * m
  {
  }

  lemma RemainderIs(x: nat, q: nat, r: nat, m: nat)
    requires r < m && x == q * m + r
    ensures x % m == r
  {
    Parts(x, m);
    Distributes(x / m, q, m);
    NearIsZero(x / m - q, m);
  }

  lemma AddWraps(a: nat, b: nat, c: nat, m: nat)
    requires m > 0
    ensures ((a + b) % m + c) % m == (a + b + c) % m
  {
    var r := (a + b) % m;
    Parts(a + b, m);
    Parts(r + c, m);
    WrapsTwice(a + b, c, (a + b) / m, r, (r + c) / m, (r + c) % m, m);
  }

  lemma WrapsTwice(s: nat, c: nat, q: nat, r: nat, k: nat, x: nat, m: nat)
    requires s == q * m + r && r + c == k * m + x && x < m
    ensures (s + c) % m == x
  {
    Distributes(q, k, m);
    RemainderIs(s + c, q + k, x, m);
  }

  /**
   Over every burst nothing is lost or invented: octets and packets are the totals modulo their widths, the start is
   the first packet's and the end the last one's, and the entry keeps its key.
   */
  lemma {:induction false} BurstTotals(e: FlowEntry, rs: seq<FlowRecord>, at: nat -> int)
    requires rs != []
    ensures var (was, now) := (e.record, Burst(e, rs, at).record);
            && now.octets == (was.octets + SumOctets(rs)) % 0x1_0000_0000_0000_0000
            && now.packets == (was.packets + SumPackets(rs)) % 0x1_0000_0000
            && now.startMs == was.startMs && now.endMs == rs[|rs| - 1].endMs
            && RecordKey(now) == RecordKey(was)
    decreases |rs|
  {
    hide Or8;
    var (front, last) := (rs[..|rs| - 1], rs[|rs| - 1]);
    if front != [] {
      BurstTotals(e, front, at);
      AddWraps(e.record.octets, SumOctets(front), last.octets, 0x1_0000_0000_0000_0000);
      AddWraps(e.record.packets, SumPackets(front), last.packets, 0x1_0000_0000);
      assert e.record.octets + SumOctets(rs) == e.record.octets + SumOctets(front) + last.octets;
      assert e.record.packets + SumPackets(rs) == e.record.packets + SumPackets(front) + last.packets;
    }
  }

  /** A TCP flag is set exactly when some packet set it. */
  lemma {:induction false} BurstFlags(e: FlowEntry, rs: seq<FlowRecord>, at: nat -> int, mask: bv8)
    ensures Flag(Burst(e, rs, at).record.tcpFlags, mask) <==>
            Flag(e.record.tcpFlags, mask) || exists i :: 0 <= i < |rs| && Flag(rs[i].tcpFlags, mask)
  {
    hide Or8, Flag;
    if rs != [] {
      var (front, last) := (rs[..|rs| - 1], rs[|rs| - 1]);
      OrBits(Burst(e, front, at).record.tcpFlags, last.tcpFlags, mask);
      BurstFlags(e, front, at, mask);
      assert forall i | 0 <= i < |front| :: front[i] == rs[i];
      if i :| 0 <= i < |front| && Flag(front[i].tcpFlags, mask) { assert Flag(rs[i].tcpFlags, mask); }
    }
  }

  /**
   A flow opened at `born` and last touched by the burst is due exactly when the active timeout has passed since it
   opened, whatever arrived since, or the inactive one since its last packet.
   */
  lemma {:induction false} BurstDue(r: FlowRecord, born: int, active: int, inactive: int, rs: seq<FlowRecord>,
                                    at: nat -> int, now: int)
    ensures var last := if rs == [] then born else at(|rs| - 1);
            Due(Burst(FlowEntry(r, born, born + active), rs, at), now, inactive) <==>
              now >= born + active || now >= last + inactive
  {
    BurstDeadline(FlowEntry(r, born, born + active), rs, at);
  }

  lemma {:induction false} BurstDeadline(e: FlowEntry, rs: seq<FlowRecord>, at: nat -> int)
    ensures Burst(e, rs, at).activeDeadline == e.activeDeadline
  {
    if rs != [] { BurstDeadline(e, rs[..|rs| - 1], at); }
  }

  ghost predicate Keyed(flows: map<FlowKey, FlowEntry>) {
    forall k | k in flows :: RecordKey(flows[k].record) == k
  }

  // ---------------------------------------------------------------------------------------------
  // The cache.

  class FlowCache {
    const activeTimeout: int
    const inactiveTimeout: int
    const maxFlows: nat
    var flows: map<FlowKey, FlowEntry>
    var expiredActive: nat
    var expiredInactive: nat
    var warmed: bool
    /** Flows that ever entered, were handed out for export, and were trimmed. */
    ghost var inserted: nat
    ghost var exported: nat
    ghost var trimmed: nat

    constructor (activeTimeout: int, inactiveTimeout: int, maxFlows: nat)
      ensures Valid() && flows == map[] && !warmed && this.maxFlows == maxFlows
      ensures this.activeTimeout == activeTimeout && this.inactiveTimeout == inactiveTimeout
    {
      this.activeTimeout, this.inactiveTimeout, this.maxFlows := activeTimeout, inactiveTimeout, maxFlows;
      flows, warmed := map[], false;
      expiredActive, expiredInactive, inserted, exported, trimmed := 0, 0, 0, 0, 0;
    }

    /** Never over the limit; every flow that entered is live, exported or trimmed; each export has one reason. */
    ghost predicate Valid()
      reads this
    {
      && |flows| <= maxFlows
      && Keyed(flows)
      && inserted == |flows| + exported + trimmed
      && exported == expiredActive + expiredInactive
    }

    /** A packet arrives: it joins its flow, opens one, or is lost to a full cache. */
    method Add(r: FlowRecord, now: int)
      requires Valid()
      modifies `flows, `inserted
      ensures Valid()
      ensures var k := RecordKey(r);
              flows == if k in old(flows) then old(flows)[k := Accumulated(old(flows)[k], r, now)]
                       else if |old(flows)| >= maxFlows then old(flows)
                       else old(flows)[k := FlowEntry(r, now, now + activeTimeout)]
    {
      var k := RecordKey(r);
      if k in flows {
        flows := flows[k := Accumulated(flows[k], r, now)];
        return;
      }
      if |flows| >= maxFlows { return; }
      flows := flows[k := FlowEntry(r, now, now + activeTimeout)];
      inserted := inserted + 1;
    }

    /** Takes one due flow out, on the side of the timeout that retired it. */
    method Retire(k: FlowKey, now: int) returns (r: FlowRecord)
      requires Valid() && k in flows && Due(flows[k], now, inactiveTimeout)
      modifies `flows, `expiredActive, `expiredInactive, `exported
      ensures Valid() && r == old(flows)[k].record && flows == old(flows) - {k} && exported == old(exported) + 1
      ensures expiredActive == old(expiredActive) + if DueActive(old(flows)[k], now) then 1 else 0
    {
      if DueActive(flows[k], now) {
        expiredActive := expiredActive + 1;
      } else {
        expiredInactive := expiredInactive + 1;
      }
      r := flows[k].record;
      flows := flows - {k};
      exported := exported + 1;
    }

    /** Takes the due flows out, one after the other. */
    method TakeDue(now: int, due: set<FlowKey>) returns (expired: seq<FlowRecord>)
      requires Valid() && due == DueKeys(flows, now, inactiveTimeout)
      modifies `flows, `expiredActive, `expiredInactive, `exported
      ensures Valid() && exported == old(exported) + |expired| && flows == old(flows) - due
      ensures Collected(old(flows), due, expired)
      ensures expiredActive == old(expiredActive) + |ActiveAmong(old(flows), due, now)|
    {
      hide Due, DueActive, RecordKey, Collected, DistinctKeys, ActiveAmong, Keyed;
      ghost var was := flows;
      var todo := due;
      expired := [];
      ghost var took: set<FlowKey> := {};
      NoneCollected(flows, now);
      while todo != {}
        invariant Valid() && exported == old(exported) + |expired|
        invariant took !! todo && took + todo == due && flows == was - took
        invariant Collected(was, took, expired)
        invariant expiredActive == old(expiredActive) + |ActiveAmong(was, took, now)|
        decreases |todo|
      {
        var k :| k in todo;
        var r := Retire(k, now);
        CollectOne(was, took, expired, k);
        ActiveOneMore(was, took, k, now);
        expired := expired + [r];
        took := took + {k};
        todo := todo - {k};
      }
    }

    /** Hands out every due flow, once, in key order, and keeps every other. */
    method Expire(now: int) returns (expired: seq<FlowRecord>)
      requires Valid()
      modifies `flows, `expiredActive, `expiredInactive, `exported
      ensures Valid() && Sorted(expired) && exported == old(exported) + |expired|
      ensures forall i, j | 0 <= i < j < |expired| :: Before(Weights(expired[i]), Weights(expired[j]))
      ensures flows == map k | k in old(flows) && !Due(old(flows)[k], now, inactiveTimeout) :: old(flows)[k]
      ensures multiset(expired) == multiset(DueRecords(old(flows), now, inactiveTimeout))
      ensures expiredActive == old(expiredActive) + |ActiveAmong(old(flows), old(flows).Keys, now)|
    {
      hide Due, DueActive, RecordKey, Collected, DistinctKeys, Sorted, Keyed, ActiveAmong, DueRecords;
      var due := DueKeys(flows, now, inactiveTimeout);
      expired := TakeDue(now, due);
      AllCollected(old(flows), due, expired, now, inactiveTimeout);
      ActiveAreDue(old(flows), due, now, inactiveTimeout);
      expired := SortByKey(expired);
      SortedIsLexicographic(expired);
    }

    /** Drops flows, any of them, until at most `target` are left; says how many. */
    method TrimTo(target: int) returns (dropped: nat)
      requires Valid()
      modifies `flows, `trimmed
      ensures Valid() && |flows| == Min(|old(flows)|, if target < 0 then 0 else target)
      ensures dropped == |old(flows)| - |flows| && trimmed == old(trimmed) + dropped
      ensures forall k | k in flows :: k in old(flows) && flows[k] == old(flows)[k]
    {
      hide RecordKey;
      var goal: nat := if target < 0 then 0 else target;
      dropped := 0;
      while |flows| > goal
        invariant Valid() && dropped == |old(flows)| - |flows| && trimmed == old(trimmed) + dropped
        invariant |flows| >= Min(|old(flows)|, goal)
        invariant forall k | k in flows :: k in old(flows) && flows[k] == old(flows)[k]
        decreases |flows|
      {
        var k :| k in flows;
        flows := flows - {k};
        dropped, trimmed := dropped + 1, trimmed + 1;
      }
    }

    /** Puts one synthesised flow in, unless its key is taken; a cold cache starts it part-way through its life. */
    method Insert(d: Draw, now: int)
      requires Valid() && |flows| < maxFlows
      modifies `flows, `inserted
      ensures Valid() && |flows| <= |old(flows)| + 1
      ensures var k := RecordKey(d.record);
              flows == if k in old(flows) then old(flows) else old(flows)[k := Born(warmed, d, now)]
    {
      var k := RecordKey(d.record);
      if k !in flows {
        flows := flows[k := Born(warmed, d, now)];
        inserted := inserted + 1;
      }
    }

    /** The entry a draw becomes, in a warm or a cold cache. */
    function Born(warm: bool, d: Draw, now: int): FlowEntry {
      var deadline := activeTimeout + d.jitter;
      var age := if warm || Lifetime(d.record, deadline, inactiveTimeout) <= 0 then 0 else d.age;
      Synthetic(d.record, deadline, now, age)
    }

    /** The age the generator draws lies below the flow's own lifetime. */
    ghost predicate AgeOk(d: Draw) {
      var lifetime := Lifetime(d.record, activeTimeout + d.jitter, inactiveTimeout);
      lifetime > 0 ==> d.age < lifetime
    }

    /** The table after `n` draws: each adds its flow unless the key is taken, until the cache is full. */
    ghost function Filled(warm: bool, from: map<FlowKey, FlowEntry>, now: int, draw: nat -> Draw, n: nat)
      : map<FlowKey, FlowEntry>
    {
      if n == 0 then from
      else
        var before := Filled(warm, from, now, draw, n - 1);
        var (d, k) := (draw(n - 1), RecordKey(draw(n - 1).record));
        if |before| >= maxFlows || k in before then before else before[k := Born(warm, d, now)]
    }

    lemma FilledStep(warm: bool, from: map<FlowKey, FlowEntry>, now: int, draw: nat -> Draw, n: nat)
      ensures Filled(warm, from, now, draw, 0) == from
      ensures var before := Filled(warm, from, now, draw, n);
              var k := RecordKey(draw(n).record);
              Filled(warm, from, now, draw, n + 1)
              == if |before| >= maxFlows || k in before then before else before[k := Born(warm, draw(n), now)]
    {
    }

    /** Once full the table stays as it is. */
    lemma {:induction false} FullStays(warm: bool, from: map<FlowKey, FlowEntry>, now: int, draw: nat -> Draw, n: nat,
                                       more: nat)
      requires n <= more && |Filled(warm, from, now, draw, n)| >= maxFlows
      ensures Filled(warm, from, now, draw, more) == Filled(warm, from, now, draw, n)
      decreases more
    {
      if n < more { FullStays(warm, from, now, draw, n, more - 1); }
    }

    /** Some draw has this key and became this entry. */
    ghost predicate Drawn(warm: bool, now: int, draw: nat -> Draw, k: FlowKey, e: FlowEntry) {
      exists i: nat :: RecordKey(draw(i).record) == k && e == Born(warm, draw(i), now)
    }

    /** What is there stays. */
    lemma {:induction false} FilledKeeps(warm: bool, from: map<FlowKey, FlowEntry>, now: int, draw: nat -> Draw, n: nat)
      ensures |Filled(warm, from, now, draw, n)| <= |from| + n
      ensures forall k | k in from ::
                k in Filled(warm, from, now, draw, n) && Filled(warm, from, now, draw, n)[k] == from[k]
    {
      hide RecordKey, Born;
      if n > 0 { FilledKeeps(warm, from, now, draw, n - 1); }
    }

    /** What is new was drawn. */
    lemma {:induction false} FilledDrawn(warm: bool, from: map<FlowKey, FlowEntry>, now: int, draw: nat -> Draw, n: nat,
                                         k: FlowKey)
      requires k in Filled(warm, from, now, draw, n) && k !in from
      ensures Drawn(warm, now, draw, k, Filled(warm, from, now, draw, n)[k])
    {
      hide RecordKey, Born;
      if k in Filled(warm, from, now, draw, n - 1) {
        FilledDrawn(warm, from, now, draw, n - 1, k);
      } else {
        assert RecordKey(draw(n - 1).record) == k;
      }
    }

    /** While there is room every draw's key is there. */
    lemma {:induction false} FilledPresent(warm: bool, from: map<FlowKey, FlowEntry>, now: int, draw: nat -> Draw,
                                           n: nat, i: nat)
      requires |Filled(warm, from, now, draw, n)| < maxFlows && i < n
      ensures RecordKey(draw(i).record) in Filled(warm, from, now, draw, n)
    {
      hide RecordKey, Born;
      if i < n - 1 { FilledPresent(warm, from, now, draw, n - 1, i); }
    }

    /**
     When a drawn flow is due in the instants to come: like one that opened at `now`, or at `now` less its age when it
     went into a cold cache with a life ahead of it.
     */
    ghost predicate Ages(warm: bool, now: int, d: Draw, e: FlowEntry) {
      var active := activeTimeout + d.jitter;
      var lasted := if d.record.endMs <= d.record.startMs then 0 else d.record.endMs - d.record.startMs;
      var since := if warm || active <= 0 || lasted + inactiveTimeout <= 0 then now else now - d.age;
      e.activeDeadline == since + active && e.lastSeenAt == since + lasted
    }

    /** A flow some draw put in: expired from the start exactly when it had no life at all. */
    ghost predicate Newborn(warm: bool, now: int, draw: nat -> Draw, k: FlowKey, e: FlowEntry) {
      exists i: nat :: RecordKey(draw(i).record) == k && e.record == draw(i).record
        && Ages(warm, now, draw(i), e)
        && (Due(e, now, inactiveTimeout) <==>
              Lifetime(draw(i).record, activeTimeout + draw(i).jitter, inactiveTimeout) <= 0)
    }

    lemma DrawnIsNewborn(warm: bool, now: int, draw: nat -> Draw, k: FlowKey, e: FlowEntry)
      requires Drawn(warm, now, draw, k, e) && forall i: nat :: AgeOk(draw(i))
      ensures Newborn(warm, now, draw, k, e)
    {
      hide RecordKey, Born, AgeOk, Due, Lifetime, Ages;
      var i: nat :| RecordKey(draw(i).record) == k && e == Born(warm, draw(i), now);
      assert AgeOk(draw(i));
      NotBornExpired(warm, draw(i), now);
    }

    /** The filled table, as the generator promises it. */
    lemma FilledFacts(warm: bool, from: map<FlowKey, FlowEntry>, now: int, draw: nat -> Draw, n: nat)
      requires forall i: nat :: AgeOk(draw(i))
      ensures var f := Filled(warm, from, now, draw, n);
              && |f| <= |from| + n
              && (forall k | k in from :: k in f && f[k] == from[k])
              && (forall k | k in f && k !in from :: Newborn(warm, now, draw, k, f[k]))
              && (|f| < maxFlows ==> forall i: nat | i < n :: RecordKey(draw(i).record) in f)
    {
      hide RecordKey, Born, AgeOk, Filled, Newborn, Drawn;
      var f := Filled(warm, from, now, draw, n);
      FilledKeeps(warm, from, now, draw, n);
      forall k | k in f && k !in from ensures Newborn(warm, now, draw, k, f[k]) {
        FilledDrawn(warm, from, now, draw, n, k);
        DrawnIsNewborn(warm, now, draw, k, f[k]);
      }
      forall i: nat | |f| < maxFlows && i < n ensures RecordKey(draw(i).record) in f {
        FilledPresent(warm, from, now, draw, n, i);
      }
    }

    /**
     Fills the cache up to `target` from a stream of draws, and counts as warm from then on. While there is room, every
     draw tried has its key in the table afterwards. No flow whose lifetime is positive is born expired.
     */
    method GenerateFlows(target: int, now: int, draw: nat -> Draw)
      requires Valid() && forall i: nat :: AgeOk(draw(i))
      modifies `flows, `inserted, `warmed
      ensures Valid() && (|flows| <= |old(flows)| || |flows| <= target)
      ensures var need := target - |old(flows)|;
              && flows == (if need <= 0 then old(flows) else Filled(old(warmed), old(flows), now, draw, need))
              && (|flows| < maxFlows ==> forall i: nat | i < need :: RecordKey(draw(i).record) in flows)
              && warmed == (old(warmed) || need > 0)
      ensures forall k | k in old(flows) :: k in flows && flows[k] == old(flows)[k]
      ensures forall k | k in flows && k !in old(flows) :: Newborn(old(warmed), now, draw, k, flows[k])
    {
      hide RecordKey, Born, AgeOk, Newborn, Keyed, Filled;
      var need := target - |flows|;
      if need <= 0 { return; }
      FilledStep(warmed, flows, now, draw, 0);
      for i := 0 to need
        invariant Valid() && warmed == old(warmed)
        invariant flows == Filled(warmed, old(flows), now, draw, i)
      {
        if |flows| >= maxFlows {
          FullStays(warmed, old(flows), now, draw, i, need);
          break;
        }
        FilledStep(warmed, old(flows), now, draw, i);
        Insert(draw(i), now);
      }
      FilledFacts(warmed, old(flows), now, draw, need);
      warmed := true;
    }

    lemma NotBornExpired(warm: bool, d: Draw, now: int)
      requires AgeOk(d)
      ensures Born(warm, d, now).record == d.record && Ages(warm, now, d, Born(warm, d, now))
      ensures Due(Born(warm, d, now), now, inactiveTimeout) <==>
              Lifetime(d.record, activeTimeout + d.jitter, inactiveTimeout) <= 0
    {
      var deadline := activeTimeout + d.jitter;
      var age := if warm || Lifetime(d.record, deadline, inactiveTimeout) <= 0 then 0 else d.age;
      BornExpiredIff(d.record, deadline, inactiveTimeout, now, age);
    }
  }

  lemma NoneCollected(flows: map<FlowKey, FlowEntry>, now: int)
    ensures Collected(flows, {}, []) && ActiveAmong(flows, {}, now) == {}
  {
  }

  /** The flows among `keys` whose active timeout has passed, whatever the inactive one says. */
  ghost function ActiveAmong(flows: map<FlowKey, FlowEntry>, keys: set<FlowKey>, now: int): set<FlowKey> {
    set k | k in keys && k in flows && DueActive(flows[k], now)
  }

  lemma ActiveOneMore(flows: map<FlowKey, FlowEntry>, took: set<FlowKey>, k: FlowKey, now: int)
    requires k in flows && k !in took
    ensures |ActiveAmong(flows, took + {k}, now)| ==
              |ActiveAmong(flows, took, now)| + if DueActive(flows[k], now) then 1 else 0
  {
    var (was, next) := (ActiveAmong(flows, took, now), ActiveAmong(flows, took + {k}, now));
    assert next == if DueActive(flows[k], now) then was + {k} else was;
  }

  lemma ActiveAreDue(flows: map<FlowKey, FlowEntry>, took: set<FlowKey>, now: int, inactive: int)
    requires forall k :: k in took <==> k in flows && Due(flows[k], now, inactive)
    ensures ActiveAmong(flows, flows.Keys, now) == ActiveAmong(flows, took, now)
  {
  }

  ghost function DueRecords(flows: map<FlowKey, FlowEntry>, now: int, inactive: int): set<FlowRecord> {
    set k | k in flows && Due(flows[k], now, inactive) :: flows[k].record
  }

  /** The list holds the record of each taken key once. */
  ghost predicate Collected(flows: map<FlowKey, FlowEntry>, took: set<FlowKey>, rs: seq<FlowRecord>) {
    && took <= flows.Keys
    && (forall i | 0 <= i < |rs| :: RecordKey(rs[i]) in took && flows[RecordKey(rs[i])].record == rs[i])
    && (forall k | k in took :: exists i :: 0 <= i < |rs| && RecordKey(rs[i]) == k)
    && DistinctKeys(rs)
  }

  lemma CollectOne(flows: map<FlowKey, FlowEntry>, took: set<FlowKey>, rs: seq<FlowRecord>, k: FlowKey)
    requires Collected(flows, took, rs) && Keyed(flows) && k in flows && k !in took
    ensures Collected(flows, took + {k}, rs + [flows[k].record])
  {
    hide RecordKey;
    var n := rs + [flows[k].record];
    forall j | j in took + {k} ensures exists i :: 0 <= i < |n| && RecordKey(n[i]) == j {
      if j == k {
        assert RecordKey(n[|rs|]) == k;
      } else {
        var i :| 0 <= i < |rs| && RecordKey(rs[i]) == j;
        assert RecordKey(n[i]) == j;
      }
    }
  }

  lemma AllCollected(flows: map<FlowKey, FlowEntry>, took: set<FlowKey>, rs: seq<FlowRecord>, now: int, inactive: int)
    requires Collected(flows, took, rs) && Keyed(flows)
    requires forall k :: k in took <==> k in flows && Due(flows[k], now, inactive)
    ensures multiset(rs) == multiset(DueRecords(flows, now, inactive)) && DistinctKeys(rs)
  {
    hide RecordKey, Due;
    var want := DueRecords(flows, now, inactive);
    DistinctOnce(rs);
    forall r ensures r in rs <==> r in want {
      if r in rs { assert RecordKey(r) in took; }
      if r in want {
        var k :| k in flows && Due(flows[k], now, inactive) && flows[k].record == r;
        var i :| 0 <= i < |rs| && RecordKey(rs[i]) == k;
        assert rs[i] == r;
      }
    }
    forall r ensures multiset(rs)[r] == multiset(want)[r] { assert r in rs <==> r in multiset(rs); }
  }

  lemma {:induction false} DistinctOnce(rs: seq<FlowRecord>)
    requires DistinctKeys(rs)
    ensures forall r :: multiset(rs)[r] <= 1
  {
    hide RecordKey;
    if rs != [] {
      var (front, last) := (rs[..|rs| - 1], rs[|rs| - 1]);
      DistinctOnce(front);
      assert rs == front + [last];
      assert last !in front;
      assert last !in multiset(front);
    }
  }
}
