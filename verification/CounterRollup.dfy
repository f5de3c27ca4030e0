/**
 The counter hierarchy built before the cycler is published, and the bounds it promises: children
 never sum above their parent on any column, an aggregate is the sum of its members.
 */
module CounterRollup {
  import opened Common
  import opened Sorting
  import opened HoldLedger
  import Hierarchy

  // ---------------------------------------------------------------------------------------------
  // One direction of one interface: packet profile and pre-seeded bases.

  datatype Profile = Profile(pktSize: real, ucast: real, mcast: real, bcast: real, errPpm: nat, discPpm: nat) {
    /** Packet-mix fractions are never negative. */
    ghost predicate Valid() { ucast >= 0.0 && mcast >= 0.0 && bcast >= 0.0 }
  }

  datatype Bases = Bases(octets: nat, ucast: nat, mcast: nat, bcast: nat, errors: nat, discards: nat)

  datatype Lane = Lane(profile: Profile, base: Bases)

  datatype Port = Port(speed: nat, in_: Lane, out: Lane) {
    function At(d: Direction): Lane { if d.Inbound? then in_ else out }
  }

  datatype Column = Octets | Ucast | Mcast | Bcast | Errors | Discards

  function Base(b: Bases, col: Column): nat {
    match col
    case Octets => b.octets
    case Ucast => b.ucast
    case Mcast => b.mcast
    case Bcast => b.bcast
    case Errors => b.errors
    case Discards => b.discards
  }

  function SafePktSize(v: real): (r: real)
    ensures r > 0.0
  {
    if v <= 0.0 then 500.0 else v
  }

  function Ratio(p: Profile, col: Column): real
    requires col.Ucast? || col.Mcast? || col.Bcast?
  {
    match col
    case Ucast => p.ucast
    case Mcast => p.mcast
    case Bcast => p.bcast
  }

  /** Packets of one kind in `delta` octets. */
  function Packets(delta: nat, pktSize: real, ratio: real): nat
    requires ratio >= 0.0
  {
    var total := delta as real / SafePktSize(pktSize);
    assert total >= 0.0 && total * ratio >= 0.0;
    (total * ratio).Floor
  }

  /** Whole packets of `delta` octets that a per-million rate marks. */
  function Marked(delta: nat, pktSize: real, ppm: nat): nat {
    Packets(delta, pktSize, 1.0) * ppm / 1_000_000
  }

  /** What `delta` octets add to a column. */
  function Growth(p: Profile, delta: nat, col: Column): nat
    requires p.Valid()
  {
    match col
    case Octets => delta
    case Errors => Marked(delta, p.pktSize, p.errPpm)
    case Discards => Marked(delta, p.pktSize, p.discPpm)
    case _ => Packets(delta, p.pktSize, Ratio(p, col))
  }

  /** The counter a poll of the column serves, before any 32-bit shadow truncation. */
  function Counter(lane: Lane, delta: nat, col: Column): nat
    requires lane.profile.Valid()
  {
    Base(lane.base, col) + Growth(lane.profile, delta, col)
  }

  // ---------------------------------------------------------------------------------------------
  // The same columns in values.

  /** `n` whole packets of `size` octets in that fraction of `octets`. */
  ghost predicate WholePackets(n: nat, size: real, octets: nat, ratio: real) {
    n as real * size <= octets as real * ratio < (n + 1) as real * size
  }

  /** `n` whole packets out of `total` at `ppm` in a million. */
  ghost predicate WholeMarks(n: nat, total: nat, ppm: nat) { n * 1_000_000 <= total * ppm < (n + 1) * 1_000_000 }

  lemma DivideOut(x: real, size: real, n: nat)
    requires size > 0.0 && n as real <= x / size < (n + 1) as real
    ensures n as real * size <= x < (n + 1) as real * size
  {
    var q := x / size;
    assert q * size == x;
    assert n as real * size <= q * size < (n + 1) as real * size;
  }

  lemma PacketsWhole(delta: nat, pktSize: real, ratio: real)
    requires ratio >= 0.0
    ensures WholePackets(Packets(delta, pktSize, ratio), if pktSize > 0.0 then pktSize else 500.0, delta, ratio)
  {
    var size := SafePktSize(pktSize);
    var (d, n) := (delta as real, Packets(delta, pktSize, ratio));
    assert d / size * ratio == d * ratio / size;
    DivideOut(d * ratio, size, n);
  }

  /**
   What each column of a poll means: the base plus the served octets, plus the whole packets of that kind in them, or
   plus the per-million part of all whole packets in them. A packet size that is not positive counts as 500.
   */
  lemma CounterInValues(lane: Lane, delta: nat)
    requires lane.profile.Valid()
    ensures Counter(lane, delta, Octets) == lane.base.octets + delta
    ensures var (p, b) := (lane.profile, lane.base);
            var size := if p.pktSize > 0.0 then p.pktSize else 500.0;
            && (exists n :: Counter(lane, delta, Ucast) == b.ucast + n && WholePackets(n, size, delta, p.ucast))
            && (exists n :: Counter(lane, delta, Mcast) == b.mcast + n && WholePackets(n, size, delta, p.mcast))
            && (exists n :: Counter(lane, delta, Bcast) == b.bcast + n && WholePackets(n, size, delta, p.bcast))
            && (exists n, total :: Counter(lane, delta, Errors) == b.errors + n
                  && WholePackets(total, size, delta, 1.0) && WholeMarks(n, total, p.errPpm))
            && (exists n, total :: Counter(lane, delta, Discards) == b.discards + n
                  && WholePackets(total, size, delta, 1.0) && WholeMarks(n, total, p.discPpm))
  {
    hide WholePackets, Packets;
    var p := lane.profile;
    PacketsWhole(delta, p.pktSize, p.ucast);
    PacketsWhole(delta, p.pktSize, p.mcast);
    PacketsWhole(delta, p.pktSize, p.bcast);
    PacketsWhole(delta, p.pktSize, 1.0);
    var size := if p.pktSize > 0.0 then p.pktSize else 500.0;
    var (u, m, b) := (Packets(delta, p.pktSize, p.ucast), Packets(delta, p.pktSize, p.mcast),
                      Packets(delta, p.pktSize, p.bcast));
    assert Counter(lane, delta, Ucast) == lane.base.ucast + u && WholePackets(u, size, delta, p.ucast);
    assert Counter(lane, delta, Mcast) == lane.base.mcast + m && WholePackets(m, size, delta, p.mcast);
    assert Counter(lane, delta, Bcast) == lane.base.bcast + b && WholePackets(b, size, delta, p.bcast);
    var total := Packets(delta, p.pktSize, 1.0);
    assert WholePackets(total, size, delta, 1.0);
    assert WholeMarks(Marked(delta, p.pktSize, p.errPpm), total, p.errPpm);
    assert WholeMarks(Marked(delta, p.pktSize, p.discPpm), total, p.discPpm);
  }

  // ---------------------------------------------------------------------------------------------
  // Growth of a sum against sums of growths.

  lemma PacketsSplit(x: nat, y: nat, pktSize: real, ratio: real)
    requires ratio >= 0.0
    ensures Packets(x, pktSize, ratio) + Packets(y, pktSize, ratio) <= Packets(x + y, pktSize, ratio)
    ensures Packets(x + y, pktSize, ratio) <= Packets(x, pktSize, ratio) + Packets(y, pktSize, ratio) + 1
  {
    var size := SafePktSize(pktSize);
    var a := (x as real / size) * ratio;
    var b := (y as real / size) * ratio;
    assert ((x + y) as real / size) * ratio == a + b by {
      assert (x + y) as real / size == x as real / size + y as real / size;
    }
  }

  lemma MarkedSplit(x: nat, y: nat, pktSize: real, ppm: nat)
    ensures Marked(x, pktSize, ppm) + Marked(y, pktSize, ppm) <= Marked(x + y, pktSize, ppm)
  {
    PacketsSplit(x, y, pktSize, 1.0);
    var (a, b, c) := (Packets(x, pktSize, 1.0), Packets(y, pktSize, 1.0), Packets(x + y, pktSize, 1.0));
    assert a * ppm + b * ppm <= c * ppm by {
      assert (a + b) * ppm <= c * ppm;
    }
  }

  lemma GrowthSplit(p: Profile, x: nat, y: nat, col: Column)
    requires p.Valid()
    ensures Growth(p, x, col) + Growth(p, y, col) <= Growth(p, x + y, col)
  {
    match col
    case Octets =>
    case Errors => MarkedSplit(x, y, p.pktSize, p.errPpm);
    case Discards => MarkedSplit(x, y, p.pktSize, p.discPpm);
    case _ => PacketsSplit(x, y, p.pktSize, Ratio(p, col));
  }

  function Sum(xs: seq<nat>): nat {
    if xs == [] then 0 else xs[0] + Sum(xs[1..])
  }

  function Growths(p: Profile, xs: seq<nat>, col: Column): nat
    requires p.Valid()
  {
    if xs == [] then 0 else Growth(p, xs[0], col) + Growths(p, xs[1..], col)
  }

  lemma {:induction false} GrowthsBelowGrowthOfSum(p: Profile, xs: seq<nat>, col: Column)
    requires p.Valid()
    ensures Growths(p, xs, col) <= Growth(p, Sum(xs), col)
  {
    if xs != [] {
      GrowthsBelowGrowthOfSum(p, xs[1..], col);
      GrowthSplit(p, xs[0], Sum(xs[1..]), col);
    }
  }

  lemma {:induction false} PacketGrowthOfSumNear(p: Profile, xs: seq<nat>, col: Column)
    requires p.Valid() && xs != [] && (col.Ucast? || col.Mcast? || col.Bcast?)
    ensures Growth(p, Sum(xs), col) <= Growths(p, xs, col) + (|xs| - 1)
    decreases |xs|
  {
    if |xs| > 1 {
      PacketGrowthOfSumNear(p, xs[1..], col);
      PacketsSplit(xs[0], Sum(xs[1..]), p.pktSize, Ratio(p, col));
    } else {
      assert xs[1..] == [];
      assert Packets(0, p.pktSize, Ratio(p, col)) == 0;
    }
  }

  // ---------------------------------------------------------------------------------------------
  // Shares.

  /** `n` of these claim at most 0.96 of a parent. */
  ghost predicate Fits(share: real, n: nat) { share * n as real <= 0.96 }

  /** One of `n` children's share: the even split of 0.8, jittered by up to a fifth by `u` in [-1, 1). */
  function ChildShare(u: real, n: nat): (r: real)
    requires -1.0 <= u < 1.0 && n > 0
    ensures 0.0 <= r && r * n as real == 0.8 + 0.16 * u
    ensures Fits(r, n)
  {
    var even := 0.8 / n as real;
    assert even * n as real == 0.8;
    var f := 1.0 + 0.2 * u;
    assert 0.0 <= f <= 1.2;
    assert even * f * n as real == 0.8 * f by {
      assert even * f * n as real == (even * n as real) * f;
    }
    0.8 / n as real * (1.0 + 0.2 * u)
  }

  function SumReals(xs: seq<real>): real {
    if xs == [] then 0.0 else xs[0] + SumReals(xs[1..])
  }

  /** Values each below a share of a total sum below it, when the shares sum to at most one. */
  lemma {:induction false} SharesOfTotal(xs: seq<nat>, shares: seq<real>, total: nat)
    requires |xs| == |shares|
    requires forall i | 0 <= i < |xs| :: shares[i] >= 0.0 && xs[i] <= Scale(total, shares[i])
    ensures Sum(xs) as real <= SumReals(shares) * total as real
  {
    if xs != [] {
      SharesOfTotal(xs[1..], shares[1..], total);
      assert xs[0] as real <= total as real * shares[0];
      assert SumReals(shares) * total as real == shares[0] * total as real + SumReals(shares[1..]) * total as real;
    }
  }

  lemma {:induction false} SharesBounded(shares: seq<real>, n: nat)
    requires n > 0 && |shares| <= n
    requires forall i | 0 <= i < |shares| :: Fits(shares[i], n)
    ensures SumReals(shares) * n as real <= 0.96 * |shares| as real
  {
    if shares != [] {
      SharesBounded(shares[1..], n);
      assert SumReals(shares) * n as real == shares[0] * n as real + SumReals(shares[1..]) * n as real;
    }
  }

  lemma MulPositive(a: real, n: real)
    requires a > 0.0 && n > 0.0
    ensures a * n > 0.0
  {
  }

  lemma SharesBelowOne(shares: seq<real>, n: nat)
    requires n > 0 && |shares| <= n
    requires forall i | 0 <= i < |shares| :: Fits(shares[i], n)
    ensures SumReals(shares) <= 0.96
  {
    SharesBounded(shares, n);
    var over := SumReals(shares) - 0.96;
    assert over * n as real == SumReals(shares) * n as real - 0.96 * n as real;
    assert over * n as real <= 0.0;
    if over > 0.0 { MulPositive(over, n as real); }
  }

  lemma PartBelowWhole(x: nat, part: real, total: nat)
    requires x as real <= part * total as real && part <= 1.0
    ensures x <= total
  {
  }

  lemma SharedSumBelow(xs: seq<nat>, shares: seq<real>, total: nat, n: nat)
    requires |xs| == |shares| && n > 0 && |shares| <= n
    requires forall i | 0 <= i < |xs| ::
               shares[i] >= 0.0 && Fits(shares[i], n) && xs[i] <= Scale(total, shares[i])
    ensures Sum(xs) <= total
  {
    hide Fits, Scale, Sum, SumReals;
    SharesOfTotal(xs, shares, total);
    SharesBelowOne(shares, n);
    PartBelowWhole(Sum(xs), SumReals(shares), total);
  }

  // ---------------------------------------------------------------------------------------------
  // Seeding.

  /** Bases recomputed from the octet base through a packet profile. */
  function Reseeded(p: Profile, octets: nat): Bases
    requires p.Valid()
  {
    var total := Packets(octets, p.pktSize, 1.0);
    Bases(octets, Scale(total, p.ucast), Scale(total, p.mcast), Scale(total, p.bcast),
          total * p.errPpm / 1_000_000, total * p.discPpm / 1_000_000)
  }

  /** In values: whole packets first, then the whole part of each kind of them, and the per-million parts. */
  lemma ReseededInValues(p: Profile, octets: nat)
    requires p.Valid()
    ensures var b := Reseeded(p, octets);
            var size := if p.pktSize > 0.0 then p.pktSize else 500.0;
            b.octets == octets &&
            exists total :: WholePackets(total, size, octets, 1.0)
              && WholeShare(b.ucast, p.ucast, total) && WholeShare(b.mcast, p.mcast, total)
              && WholeShare(b.bcast, p.bcast, total)
              && WholeMarks(b.errors, total, p.errPpm) && WholeMarks(b.discards, total, p.discPpm)
  {
    hide WholePackets, Packets, WholeShare, Scale;
    PacketsWhole(octets, p.pktSize, 1.0);
    var total := Packets(octets, p.pktSize, 1.0);
    ScaleIsWhole(total, p.ucast);
    ScaleIsWhole(total, p.mcast);
    ScaleIsWhole(total, p.bcast);
    var size := if p.pktSize > 0.0 then p.pktSize else 500.0;
    var b := Reseeded(p, octets);
    assert WholePackets(total, size, octets, 1.0);
    assert WholeMarks(b.errors, total, p.errPpm) && WholeMarks(b.discards, total, p.discPpm);
  }

  function AddBases(a: Bases, b: Bases): Bases {
    Bases(a.octets + b.octets, a.ucast + b.ucast, a.mcast + b.mcast, a.bcast + b.bcast,
          a.errors + b.errors, a.discards + b.discards)
  }

  function ScaleBases(b: Bases, share: real): Bases
    requires share >= 0.0
  {
    Bases(Scale(b.octets, share), Scale(b.ucast, share), Scale(b.mcast, share), Scale(b.bcast, share),
          Scale(b.errors, share), Scale(b.discards, share))
  }

  const NO_BASES := Bases(0, 0, 0, 0, 0, 0)

  ghost predicate PortsValid(ports: seq<Port>) {
    forall s | 0 <= s < |ports| :: ports[s].in_.profile.Valid() && ports[s].out.profile.Valid()
  }

  /** The bases of `ms`, summed. */
  ghost function SumBases(ports: seq<Port>, ms: seq<nat>, d: Direction): Bases
    requires forall k | 0 <= k < |ms| :: 1 <= ms[k] <= |ports|
  {
    if ms == [] then NO_BASES
    else AddBases(SumBases(ports, ms[..|ms| - 1], d), ports[ms[|ms| - 1] - 1].At(d).base)
  }

  /** Members carry the aggregate's profile and its bases are their sums. */
  ghost predicate AggregateSeeded(ports: seq<Port>, slot: nat, ms: seq<nat>) {
    && slot < |ports|
    && (forall k | 0 <= k < |ms| :: 1 <= ms[k] <= |ports|)
    && (forall k | 0 <= k < |ms| ::
          && ports[ms[k] - 1].in_.profile == ports[slot].in_.profile
          && ports[ms[k] - 1].out.profile == ports[slot].out.profile)
    && ports[slot].in_.base == SumBases(ports, ms, Inbound)
    && ports[slot].out.base == SumBases(ports, ms, Outbound)
  }

  ghost predicate ChildSeeded(ports: seq<Port>, slot: nat, parent: nat, share: real) {
    && slot < |ports| && parent < |ports| && share >= 0.0
    && ports[slot].in_ == Lane(ports[parent].in_.profile, ScaleBases(ports[parent].in_.base, share))
    && ports[slot].out == Lane(ports[parent].out.profile, ScaleBases(ports[parent].out.base, share))
  }

  /** A member takes the aggregate's profiles; its packet bases follow its own octet base through them. */
  function Member(port: Port, pIn: Profile, pOut: Profile): Port
    requires pIn.Valid() && pOut.Valid()
  {
    Port(port.speed, Lane(pIn, Reseeded(pIn, port.in_.base.octets)), Lane(pOut, Reseeded(pOut, port.out.base.octets)))
  }

  /** The table with every port of `ms` made a member. */
  function Reprofiled(ports: seq<Port>, ms: seq<nat>, pIn: Profile, pOut: Profile): (r: seq<Port>)
    requires pIn.Valid() && pOut.Valid()
    ensures |r| == |ports|
  {
    seq(|ports|, s requires 0 <= s < |ports| => if s + 1 in ms then Member(ports[s], pIn, pOut) else ports[s])
  }

  lemma ReprofileOne(ports: seq<Port>, ms: seq<nat>, m: nat, pIn: Profile, pOut: Profile)
    requires pIn.Valid() && pOut.Valid() && 1 <= m <= |ports|
    ensures Reprofiled(ports, ms + [m], pIn, pOut)
         == Reprofiled(ports, ms, pIn, pOut)[m - 1 := Member(Reprofiled(ports, ms, pIn, pOut)[m - 1], pIn, pOut)]
  {
  }

  /** Making a port a member twice changes nothing more. */
  lemma ReprofiledAt(ports: seq<Port>, ms: seq<nat>, some: seq<nat>, m: nat, pIn: Profile, pOut: Profile)
    requires pIn.Valid() && pOut.Valid() && m < |ports| && m + 1 in ms
    ensures Member(Reprofiled(ports, some, pIn, pOut)[m], pIn, pOut) == Reprofiled(ports, ms, pIn, pOut)[m]
  {
  }

  lemma {:induction false} SumBasesOf(a: seq<Port>, b: seq<Port>, ms: seq<nat>, d: Direction)
    requires |a| == |b| && forall k | 0 <= k < |ms| :: 1 <= ms[k] <= |a| && a[ms[k] - 1] == b[ms[k] - 1]
    ensures SumBases(a, ms, d) == SumBases(b, ms, d)
  {
    if ms != [] { SumBasesOf(a, b, ms[..|ms| - 1], d); }
  }

  /** Members first, then the aggregate's bases as the sums of theirs. */
  ghost function SeededPorts(ports: seq<Port>, slot: nat, ms: seq<nat>): (r: seq<Port>)
    requires slot < |ports| && PortsValid(ports)
    requires forall k | 0 <= k < |ms| :: 1 <= ms[k] <= |ports|
    ensures |r| == |ports|
  {
    var (pIn, pOut) := (ports[slot].in_.profile, ports[slot].out.profile);
    var mid := Reprofiled(ports, ms, pIn, pOut);
    mid[slot := Port(ports[slot].speed, Lane(pIn, SumBases(mid, ms, Inbound)), Lane(pOut, SumBases(mid, ms, Outbound)))]
  }

  lemma SeededAt(ports: seq<Port>, slot: nat, ms: seq<nat>, s: nat)
    requires slot < |ports| && PortsValid(ports) && s < |ports|
    requires forall k | 0 <= k < |ms| :: 1 <= ms[k] <= |ports| && ms[k] - 1 != slot
    ensures var (r, p) := (SeededPorts(ports, slot, ms)[s], ports[s]);
            && r.speed == p.speed
            && r.in_.profile == (if s + 1 in ms then ports[slot].in_.profile else p.in_.profile)
            && r.out.profile == (if s + 1 in ms then ports[slot].out.profile else p.out.profile)
            && (s != slot && s + 1 !in ms ==> r == p)
  {
    hide SumBases, Reseeded, Profile.Valid;
    assert slot + 1 !in ms;
  }

  lemma SeededPortsOk(ports: seq<Port>, slot: nat, ms: seq<nat>)
    requires slot < |ports| && PortsValid(ports)
    requires forall k | 0 <= k < |ms| :: 1 <= ms[k] <= |ports| && ms[k] - 1 != slot
    ensures var r := SeededPorts(ports, slot, ms);
            && PortsValid(r) && AggregateSeeded(r, slot, ms)
            && (forall s | 0 <= s < |ports| && s != slot && s + 1 !in ms :: r[s] == ports[s])
            && (forall s | 0 <= s < |ports| :: r[s].speed == ports[s].speed)
  {
    hide SumBases, Reseeded, Reprofiled, Profile.Valid;
    var (pIn, pOut) := (ports[slot].in_.profile, ports[slot].out.profile);
    var mid := Reprofiled(ports, ms, pIn, pOut);
    var r := SeededPorts(ports, slot, ms);
    forall s | 0 <= s < |ports|
      ensures r[s].speed == ports[s].speed
      ensures r[s].in_.profile == if s + 1 in ms then pIn else ports[s].in_.profile
      ensures r[s].out.profile == if s + 1 in ms then pOut else ports[s].out.profile
      ensures s != slot && s + 1 !in ms ==> r[s] == ports[s]
    {
      SeededAt(ports, slot, ms, s);
    }
    SumBasesOf(mid, r, ms, Inbound);
    SumBasesOf(mid, r, ms, Outbound);
  }

  method SeedAggregate(ports: seq<Port>, slot: nat, ms: seq<nat>) returns (r: seq<Port>)
    requires slot < |ports| && PortsValid(ports)
    requires forall k | 0 <= k < |ms| :: 1 <= ms[k] <= |ports| && ms[k] - 1 != slot
    ensures r == SeededPorts(ports, slot, ms)
  {
    var (pIn, pOut) := (ports[slot].in_.profile, ports[slot].out.profile);
    r := ports;
    var (sumIn, sumOut) := (NO_BASES, NO_BASES);
    ghost var mid := Reprofiled(ports, ms, pIn, pOut);
    for k := 0 to |ms|
      invariant r == Reprofiled(ports, ms[..k], pIn, pOut)
      invariant sumIn == SumBases(mid, ms[..k], Inbound)
      invariant sumOut == SumBases(mid, ms[..k], Outbound)
    {
      hide Reseeded, AddBases, Profile.Valid, Reprofiled;
      var m := ms[k] - 1;
      assert ms[..k + 1] == ms[..k] + [ms[k]];
      assert ms[..k + 1][..k] == ms[..k];
      ReprofileOne(ports, ms[..k], ms[k], pIn, pOut);
      ReprofiledAt(ports, ms, ms[..k], m, pIn, pOut);
      var port := Member(r[m], pIn, pOut);
      r := r[m := port];
      sumIn := AddBases(sumIn, port.in_.base);
      sumOut := AddBases(sumOut, port.out.base);
    }
    assert ms[..|ms|] == ms;
    r := r[slot := Port(r[slot].speed, Lane(pIn, sumIn), Lane(pOut, sumOut))];
  }

  // ---------------------------------------------------------------------------------------------
  // Building the hierarchy.

  /** What the initialiser hands over: a one-level parent table, stack aggregates and one port per slot. */
  ghost predicate Inputs(parents: map<nat, nat>, members: map<nat, seq<nat>>, ports: seq<Port>, jitter: seq<real>) {
    && PortsValid(ports) && |jitter| == |ports|
    && (forall s | 0 <= s < |jitter| :: -1.0 <= jitter[s] < 1.0)
    && (forall c | c in parents :: 1 <= c <= |ports| && 1 <= parents[c] <= |ports|)
    && Hierarchy.OneLevel(parents)
    && (forall a | a in members :: 1 <= a <= |ports| && Distinct(members[a]))
    && (forall a, k | a in members && 0 <= k < |members[a]| :: 1 <= members[a][k] <= |ports| && members[a][k] != a)
  }

  ghost predicate Distinct(ms: seq<nat>) {
    forall j, k | 0 <= j < k < |ms| :: ms[j] != ms[k]
  }

  /** The members an aggregate may count: not claimed by an earlier one, not a child, not an aggregate. */
  function Usable(list: seq<nat>, barred: set<nat>): (r: seq<nat>)
    ensures forall x :: x in r <==> x in list && x !in barred
    ensures Distinct(list) ==> Distinct(r)
  {
    if list == [] then []
    else
      var before := Usable(list[..|list| - 1], barred);
      if list[|list| - 1] in barred then before else before + [list[|list| - 1]]
  }

  /** Slot `s` sums `mem[s]`: at least two, each usable. */
  ghost predicate SumsOk(parents: map<nat, nat>, members: map<nat, seq<nat>>, n: nat, s: nat, ms: seq<nat>) {
    ms != [] ==>
      && s + 1 in members && s + 1 !in parents && |ms| >= 2 && Distinct(ms)
      && forall k | 0 <= k < |ms| ::
           1 <= ms[k] <= n && ms[k] !in parents && ms[k] !in members && ms[k] in members[s + 1]
  }

  ghost predicate Claimed(mem: seq<seq<nat>>, claimed: set<nat>) {
    && (forall s, x | 0 <= s < |mem| && x in mem[s] :: x in claimed)
    && NoneTwice(mem)
  }

  function Names(ms: seq<nat>): set<nat> { set x | x in ms }

  /** No interface is counted in two aggregates. */
  ghost predicate NoneTwice(mem: seq<seq<nat>>) {
    forall s, t, x | 0 <= s < |mem| && 0 <= t < |mem| && x in mem[s] && x in mem[t] :: s == t
  }

  ghost predicate SameSpeeds(a: seq<Port>, b: seq<Port>) {
    |a| == |b| && forall s | 0 <= s < |a| :: a[s].speed == b[s].speed
  }

  ghost predicate AllSeeded(ports: seq<Port>, mem: seq<seq<nat>>) {
    |mem| == |ports| && forall s | 0 <= s < |mem| && mem[s] != [] :: AggregateSeeded(ports, s, mem[s])
  }

  /** Ports untouched by a change keep an aggregate seeded. */
  lemma StaysSeeded(a: seq<Port>, b: seq<Port>, s: nat, ms: seq<nat>)
    requires AggregateSeeded(a, s, ms) && |a| == |b|
    requires b[s] == a[s] && forall k | 0 <= k < |ms| :: b[ms[k] - 1] == a[ms[k] - 1]
    ensures AggregateSeeded(b, s, ms)
  {
    SumBasesOf(a, b, ms, Inbound);
    SumBasesOf(a, b, ms, Outbound);
  }

  lemma OthersStaySeeded(parents: map<nat, nat>, members: map<nat, seq<nat>>, ports: seq<Port>, mem: seq<seq<nat>>,
                         claimed: set<nat>, agg: nat, ms: seq<nat>, r: seq<Port>, s: nat)
    requires s < |mem| && mem[s] != [] && s + 1 != agg && AggregateSeeded(ports, s, mem[s]) && |r| == |ports|
    requires SumsOk(parents, members, |ports|, s, mem[s]) && agg in members
    requires forall x | x in mem[s] :: x in claimed
    requires forall x | x in ms :: x !in claimed && x !in members
    requires forall x | 0 <= x < |ports| && x + 1 != agg && x + 1 !in ms :: r[x] == ports[x]
    ensures AggregateSeeded(r, s, mem[s])
  {
    assert s + 1 !in ms;
    forall k | 0 <= k < |mem[s]| ensures r[mem[s][k] - 1] == ports[mem[s][k] - 1] {
      assert mem[s][k] in mem[s];
      assert mem[s][k] !in ms && mem[s][k] != agg;
    }
    StaysSeeded(ports, r, s, mem[s]);
  }

  lemma OneMoreClaim(mem: seq<seq<nat>>, claimed: set<nat>, i: nat, ms: seq<nat>)
    requires Claimed(mem, claimed) && i < |mem| && mem[i] == [] && forall x | x in ms :: x !in claimed
    ensures Claimed(mem[i := ms], claimed + Names(ms))
  {
  }

  /** The interfaces counted by the aggregates below slot `n`. */
  ghost function Below(mem: seq<seq<nat>>, n: nat): set<nat>
    requires n <= |mem|
  {
    set s, x | 0 <= s < n && x in mem[s] :: x
  }

  lemma BelowAll(mem: seq<seq<nat>>, n: nat)
    requires n <= |mem| && forall s | n <= s < |mem| :: mem[s] == []
    ensures Below(mem, n) == Below(mem, |mem|)
  {
  }

  lemma BelowPut(mem: seq<seq<nat>>, i: nat, ms: seq<nat>, n: nat)
    requires i < |mem| && mem[i] == [] && n <= |mem|
    ensures Below(mem[i := ms], n) == if i < n then Below(mem, n) + Names(ms) else Below(mem, n)
  {
    var put := mem[i := ms];
    forall x | x in Names(ms) && i < n ensures x in Below(put, n) { assert x in put[i]; }
    forall x | x in Below(mem, n) ensures x in Below(put, n) {
      var s :| 0 <= s < n && x in mem[s];
      assert x in put[s];
    }
  }

  /** Aggregate `a` sums what its list offers once the lower aggregates have taken theirs, if that is two or more. */
  ghost predicate Takes(parents: map<nat, nat>, members: map<nat, seq<nat>>, mem: seq<seq<nat>>, a: nat)
    requires a in members && 1 <= a <= |mem|
  {
    var ms := Usable(members[a], Below(mem, a - 1) + parents.Keys + members.Keys);
    mem[a - 1] == if |ms| >= 2 then ms else []
  }

  /** What the sums leave in slot `x`: a member follows its aggregate's profiles, a port in no sum is as it was. */
  ghost predicate Reseated(ports: seq<Port>, mem: seq<seq<nat>>, x: nat, port: Port)
    requires PortsValid(ports) && |mem| == |ports| && x < |ports|
  {
    && (forall s | 0 <= s < |mem| && x + 1 in mem[s] ::
          port == Member(ports[x], ports[s].in_.profile, ports[s].out.profile))
    && (mem[x] != [] ==> port.in_.profile == ports[x].in_.profile && port.out.profile == ports[x].out.profile)
    && (mem[x] == [] && (forall s | 0 <= s < |mem| :: x + 1 !in mem[s]) ==> port == ports[x])
  }

  lemma ReseatOne(parents: map<nat, nat>, members: map<nat, seq<nat>>, ports: seq<Port>, mem: seq<seq<nat>>,
                  r: seq<Port>, claimed: set<nat>, agg: nat, ms: seq<nat>, x: nat)
    requires PortsValid(ports) && |mem| == |ports| == |r| && x < |ports| && PortsValid(r)
    requires forall y | 0 <= y < |r| :: Reseated(ports, mem, y, r[y])
    requires forall s | 0 <= s < |mem| :: SumsOk(parents, members, |ports|, s, mem[s])
    requires Claimed(mem, claimed) && agg in members && 1 <= agg <= |ports| && mem[agg - 1] == []
    requires ms != [] && forall y | y in ms :: y !in claimed && y !in members
    requires forall k | 0 <= k < |ms| :: 1 <= ms[k] <= |ports| && ms[k] != agg
    ensures Reseated(ports, mem[agg - 1 := ms], x, SeededPorts(r, agg - 1, ms)[x])
  {
    hide SumBases, Reseeded, Profile.Valid, SumsOk, Member;
    var next := mem[agg - 1 := ms];
    Unsummed(parents, members, |ports|, mem, agg);
    SeededAt(r, agg - 1, ms, x);
    assert r[agg - 1] == ports[agg - 1] by { assert Reseated(ports, mem, agg - 1, r[agg - 1]); }
    assert Reseated(ports, mem, x, r[x]);
    if x + 1 in ms {
      NewMember(parents, members, |ports|, mem, claimed, x);
      assert forall s | 0 <= s < |next| && x + 1 in next[s] :: s == agg - 1;
    } else {
      assert forall s | 0 <= s < |next| && x + 1 in next[s] :: x + 1 in mem[s];
      if x != agg - 1 {
        assert forall s | 0 <= s < |next| && x + 1 in mem[s] :: x + 1 in next[s];
      }
    }
  }

  lemma NewMember(parents: map<nat, nat>, members: map<nat, seq<nat>>, n: nat, mem: seq<seq<nat>>, claimed: set<nat>,
                  x: nat)
    requires |mem| == n && x < n && Claimed(mem, claimed) && x + 1 !in claimed && x + 1 !in members
    requires forall s | 0 <= s < |mem| :: SumsOk(parents, members, n, s, mem[s])
    ensures mem[x] == [] && forall s | 0 <= s < |mem| :: x + 1 !in mem[s]
  {
    assert SumsOk(parents, members, n, x, mem[x]);
  }

  /** An aggregate is nobody's member. */
  lemma Unsummed(parents: map<nat, nat>, members: map<nat, seq<nat>>, n: nat, mem: seq<seq<nat>>, agg: nat)
    requires |mem| == n && agg in members
    requires forall s | 0 <= s < |mem| :: SumsOk(parents, members, n, s, mem[s])
    ensures forall s | 0 <= s < |mem| :: agg !in mem[s]
  {
    forall s | 0 <= s < |mem| ensures agg !in mem[s] { assert SumsOk(parents, members, n, s, mem[s]); }
  }

  /** The aggregates summed so far. */
  ghost predicate Summed(parents: map<nat, nat>, members: map<nat, seq<nat>>, ports: seq<Port>,
                         mem: seq<seq<nat>>, r: seq<Port>, claimed: set<nat>) {
    && |mem| == |ports| && PortsValid(ports) && PortsValid(r) && SameSpeeds(r, ports) && AllSeeded(r, mem)
    && Claimed(mem, claimed)
    && (forall s | 0 <= s < |mem| :: SumsOk(parents, members, |ports|, s, mem[s]))
    && (forall s | 0 <= s < |mem| :: Reseated(ports, mem, s, r[s]))
  }

  lemma UsableOk(parents: map<nat, nat>, members: map<nat, seq<nat>>, ports: seq<Port>, jitter: seq<real>,
                 claimed: set<nat>, agg: nat)
    requires Inputs(parents, members, ports, jitter) && agg in members && agg !in parents
    requires |Usable(members[agg], claimed + parents.Keys + members.Keys)| >= 2
    ensures var ms := Usable(members[agg], claimed + parents.Keys + members.Keys);
            && SumsOk(parents, members, |ports|, agg - 1, ms)
            && (forall x | x in ms :: x !in claimed && x !in members)
            && (forall k | 0 <= k < |ms| :: 1 <= ms[k] <= |ports| && ms[k] != agg)
  {
    var ms := Usable(members[agg], claimed + parents.Keys + members.Keys);
    forall k | 0 <= k < |ms|
      ensures 1 <= ms[k] <= |ports| && ms[k] !in parents && ms[k] !in members && ms[k] in members[agg] && ms[k] != agg
    {
      assert ms[k] in ms;
      var j :| 0 <= j < |members[agg]| && members[agg][j] == ms[k];
    }
  }

  lemma SumOneMore(parents: map<nat, nat>, members: map<nat, seq<nat>>, ports: seq<Port>,
                   mem: seq<seq<nat>>, r: seq<Port>, claimed: set<nat>, agg: nat, ms: seq<nat>, next: seq<Port>)
    requires Summed(parents, members, ports, mem, r, claimed)
    requires agg in members && 1 <= agg <= |ports| && mem[agg - 1] == [] && ms != []
    requires SumsOk(parents, members, |ports|, agg - 1, ms) && forall x | x in ms :: x !in claimed && x !in members
    requires forall k | 0 <= k < |ms| :: 1 <= ms[k] <= |ports| && ms[k] != agg
    requires next == SeededPorts(r, agg - 1, ms)
    ensures Summed(parents, members, ports, mem[agg - 1 := ms], next, claimed + Names(ms))
  {
    hide SumsOk, Reseated, NoneTwice, AggregateSeeded, Profile.Valid, Reseeded, SumBases, Names, SeededPorts;
    var mem' := mem[agg - 1 := ms];
    SeededPortsOk(r, agg - 1, ms);
    OneMoreClaim(mem, claimed, agg - 1, ms);
    forall s | 0 <= s < |mem'| && mem'[s] != [] ensures AggregateSeeded(next, s, mem'[s]) {
      if s != agg - 1 { OthersStaySeeded(parents, members, r, mem, claimed, agg, ms, next, s); }
    }
    forall s | 0 <= s < |mem'| ensures Reseated(ports, mem', s, next[s]) {
      ReseatOne(parents, members, ports, mem, r, claimed, agg, ms, s);
    }
  }

  method SumOne(parents: map<nat, nat>, members: map<nat, seq<nat>>, ports: seq<Port>, ghost jitter: seq<real>,
                mem: seq<seq<nat>>, r: seq<Port>, claimed: set<nat>, agg: nat)
    returns (mem': seq<seq<nat>>, r': seq<Port>, claimed': set<nat>)
    requires Inputs(parents, members, ports, jitter) && Summed(parents, members, ports, mem, r, claimed)
    requires agg in members && agg !in parents && mem[agg - 1] == []
    ensures |mem'| == |mem| && Summed(parents, members, ports, mem', r', claimed')
    ensures forall s | 0 <= s < |mem| && s != agg - 1 :: mem'[s] == mem[s]
    ensures claimed' == claimed + Names(mem'[agg - 1])
    ensures var ms := Usable(members[agg], claimed + parents.Keys + members.Keys);
            mem'[agg - 1] == if |ms| >= 2 then ms else []
  {
    hide Reseated, SumsOk, AllSeeded, Claimed, SeededPorts, Profile.Valid;
    var ms := Usable(members[agg], claimed + parents.Keys + members.Keys);
    if |ms| < 2 {
      assert Names([]) == {};
      return mem, r, claimed;
    }
    UsableOk(parents, members, ports, jitter, claimed, agg);
    var next := SeedAggregate(r, agg - 1, ms);
    SumOneMore(parents, members, ports, mem, r, claimed, agg, ms, next);
    return mem[agg - 1 := ms], next, claimed + Names(ms);
  }

  /** The aggregates up to position `i`, in ascending order, have taken theirs; the rest sum nothing yet. */
  ghost predicate TakenUpTo(parents: map<nat, nat>, members: map<nat, seq<nat>>, mem: seq<seq<nat>>, list: seq<nat>,
                            i: nat)
    requires i <= |list| && forall j | 0 <= j < |list| :: list[j] in members && 1 <= list[j] <= |mem|
  {
    && (forall j | 0 <= j < i :: Takes(parents, members, mem, list[j]))
    && (forall s | 0 <= s < |mem| && s + 1 !in list[..i] :: mem[s] == [])
  }

  lemma TakeOne(parents: map<nat, nat>, members: map<nat, seq<nat>>, mem: seq<seq<nat>>, list: seq<nat>, i: nat,
                ms: seq<nat>)
    requires i < |list| && forall j | 0 <= j < |list| :: list[j] in members && 1 <= list[j] <= |mem|
    requires forall j, k | 0 <= j < k < |list| :: list[j] < list[k]
    requires TakenUpTo(parents, members, mem, list, i)
    requires var us := Usable(members[list[i]], Below(mem, |mem|) + parents.Keys + members.Keys);
             ms == if |us| >= 2 then us else []
    ensures mem[list[i] - 1] == []
    ensures TakenUpTo(parents, members, mem[list[i] - 1 := ms], list, i + 1)
  {
    hide Usable, Below;
    var (a, next) := (list[i], mem[list[i] - 1 := ms]);
    forall s | a - 1 <= s < |mem| ensures mem[s] == [] {
      assert s + 1 !in list[..i];
    }
    BelowAll(mem, a - 1);
    forall j | 0 <= j < i + 1 ensures Takes(parents, members, next, list[j]) {
      BelowPut(mem, a - 1, ms, list[j] - 1);
      if j < i { assert Takes(parents, members, mem, list[j]); }
    }
    forall s | 0 <= s < |next| && s + 1 !in list[..i + 1] ensures next[s] == [] {
      assert list[..i + 1] == list[..i] + [a];
    }
  }

  /** Before the first aggregate. */
  lemma NoneTaken(parents: map<nat, nat>, members: map<nat, seq<nat>>, ports: seq<Port>, jitter: seq<real>)
    requires Inputs(parents, members, ports, jitter)
    ensures var mem := seq(|ports|, _ => []); Summed(parents, members, ports, mem, ports, {}) && Below(mem, |mem|) == {}
  {
    hide SumBases, Reseeded, Profile.Valid;
  }

  method SumAggregates(parents: map<nat, nat>, members: map<nat, seq<nat>>, ports: seq<Port>, ghost jitter: seq<real>)
    returns (mem: seq<seq<nat>>, r: seq<Port>, claimed: set<nat>)
    requires Inputs(parents, members, ports, jitter)
    ensures Summed(parents, members, ports, mem, r, claimed)
    ensures forall a | a in members && a !in parents :: Takes(parents, members, mem, a)
  {
    hide Summed, Takes, Below, Usable;
    NoneTaken(parents, members, ports, jitter);
    mem, r, claimed := seq(|ports|, _ => []), ports, {};
    var aggregates := SortedInts(set a | a in members && a !in parents);
    forall j | 0 <= j < |aggregates|
      ensures aggregates[j] in members && aggregates[j] !in parents && 1 <= aggregates[j] <= |ports|
    {
      assert aggregates[j] in aggregates;
    }
    for i := 0 to |aggregates|
      invariant |mem| == |ports| && Summed(parents, members, ports, mem, r, claimed)
      invariant TakenUpTo(parents, members, mem, aggregates, i)
      invariant claimed == Below(mem, |mem|)
    {
      ghost var (was, a) := (mem, aggregates[i]);
      ghost var us := Usable(members[a], claimed + parents.Keys + members.Keys);
      TakeOne(parents, members, was, aggregates, i, if |us| >= 2 then us else []);
      mem, r, claimed := SumOne(parents, members, ports, jitter, mem, r, claimed, aggregates[i]);
      assert mem == was[a - 1 := mem[a - 1]];
      BelowPut(was, a - 1, mem[a - 1], |mem|);
    }
    assert aggregates[..|aggregates|] == aggregates;
    forall a | a in members && a !in parents ensures Takes(parents, members, mem, a) {
      assert a in aggregates;
    }
  }

  /** The children of `p` that declare a speed; the others take no share and count as no sibling. */
  ghost function Kids(parents: map<nat, nat>, ports: seq<Port>, p: nat): set<nat>
    requires forall c | c in parents :: 1 <= c <= |ports|
  {
    set c | c in parents && ports[c - 1].speed != 0 && parents[c] == p
  }

  /** The sibling count of `p`, over the children not in `todo`. */
  ghost predicate Counted(parents: map<nat, nat>, ports: seq<Port>, siblings: map<nat, nat>, todo: set<nat>, p: nat)
    requires forall c | c in parents :: 1 <= c <= |ports|
  {
    var done := Kids(parents, ports, p) - todo;
    if done == {} then p !in siblings else p in siblings && siblings[p] == |done|
  }

  function CountOne(siblings: map<nat, nat>, p: nat): map<nat, nat> {
    siblings[p := (if p in siblings then siblings[p] else 0) + 1]
  }

  lemma CountedOne(parents: map<nat, nat>, ports: seq<Port>, siblings: map<nat, nat>, todo: set<nat>, c: nat, p: nat)
    requires forall c | c in parents :: 1 <= c <= |ports|
    requires c in todo && c in parents && Counted(parents, ports, siblings, todo, p)
    ensures var counts := if ports[c - 1].speed != 0 then CountOne(siblings, parents[c]) else siblings;
            Counted(parents, ports, counts, todo - {c}, p)
  {
    var kids := Kids(parents, ports, p);
    if c in kids {
      assert kids - (todo - {c}) == (kids - todo) + {c};
    } else {
      assert kids - (todo - {c}) == kids - todo;
    }
  }

  method CountSiblings(parents: map<nat, nat>, ports: seq<Port>) returns (siblings: map<nat, nat>, children: set<nat>)
    requires forall c | c in parents :: 1 <= c <= |ports|
    ensures children == set c | c in parents && ports[c - 1].speed != 0
    ensures forall p :: Counted(parents, ports, siblings, {}, p)
  {
    siblings, children := map[], {};
    var todo := parents.Keys;
    while todo != {}
      invariant todo <= parents.Keys
      invariant children == set c | c in parents && c !in todo && ports[c - 1].speed != 0
      invariant forall p :: Counted(parents, ports, siblings, todo, p)
      decreases |todo|
    {
      hide Counted, CountOne;
      var c :| c in todo;
      var next := if ports[c - 1].speed != 0 then CountOne(siblings, parents[c]) else siblings;
      ghost var rest := todo - {c};
      forall p ensures Counted(parents, ports, next, rest, p) {
        CountedOne(parents, ports, siblings, todo, c, p);
      }
      if ports[c - 1].speed != 0 {
        children := children + {c};
      }
      siblings := next;
      todo := todo - {c};
    }
  }

  function ChildPort(child: Port, parent: Port, share: real): Port
    requires share >= 0.0
  {
    Port(child.speed, Lane(parent.in_.profile, ScaleBases(parent.in_.base, share)),
         Lane(parent.out.profile, ScaleBases(parent.out.base, share)))
  }

  /** Children carry a share of a top-level parent, together at most 0.96 of it. */
  ghost predicate Shared(parents: map<nat, nat>, ports: seq<Port>, c: Rollup, s: nat)
    requires |c.share| == |c.counterParent| == |ports| && s < |ports|
    requires forall i | i in parents :: 1 <= i <= |ports|
  {
    if s + 1 in parents && ports[s].speed != 0 then
      && c.counterParent[s] == parents[s + 1]
      && c.counterParent[s] != 0
      && c.share[s] >= 0.0 && Fits(c.share[s], |Kids(parents, ports, parents[s + 1])|)
      && ChildSeeded(ports, s, parents[s + 1] - 1, c.share[s])
    else
      c.counterParent[s] == 0
  }

  /** Sharing out touches children only, and no child is summed or sums. */
  lemma ChildrenAreSeparate(parents: map<nat, nat>, members: map<nat, seq<nat>>, seeded: seq<Port>, r: seq<Port>,
                            mem: seq<seq<nat>>)
    requires AllSeeded(seeded, mem) && |r| == |seeded|
    requires forall s | 0 <= s < |mem| :: SumsOk(parents, members, |seeded|, s, mem[s])
    requires forall s | 0 <= s < |seeded| && s + 1 !in parents :: r[s] == seeded[s]
    ensures AllSeeded(r, mem)
  {
    forall s | 0 <= s < |mem| && mem[s] != [] ensures AggregateSeeded(r, s, mem[s]) {
      assert SumsOk(parents, members, |seeded|, s, mem[s]);
      StaysSeeded(seeded, r, s, mem[s]);
    }
  }

  /** A one-level table and usable members give every read a falling rank. */
  lemma RankedByConstruction(parents: map<nat, nat>, members: map<nat, seq<nat>>, n: nat, c: Rollup)
    requires |c.counterParent| == |c.share| == |c.members| == n && Hierarchy.OneLevel(parents)
    requires forall i | i in parents :: 1 <= parents[i] <= n
    requires forall s | 0 <= s < n :: SumsOk(parents, members, n, s, c.members[s])
    requires forall s | 0 <= s < n :: c.share[s] >= 0.0
    requires forall s | 0 <= s < n && c.counterParent[s] != 0 ::
               s + 1 in parents && c.counterParent[s] == parents[s + 1]
    ensures c.Ranked()
  {
    forall s | 0 <= s < n && c.members[s] != [] ensures c.counterParent[s] == 0 {
      assert SumsOk(parents, members, n, s, c.members[s]);
    }
    forall s, k | 0 <= s < n && 0 <= k < |c.members[s]|
      ensures 1 <= c.members[s][k] <= n && c.Standalone(c.members[s][k] - 1)
    {
      assert SumsOk(parents, members, n, s, c.members[s]);
      var m := c.members[s][k] - 1;
      assert SumsOk(parents, members, n, m, c.members[m]);
    }
  }

  /** Slot `s` once the children of `done` have their shares. */
  ghost predicate SharedSoFar(parents: map<nat, nat>, seeded: seq<Port>, done: set<nat>, port: Port, parent: nat,
                              share: real, s: nat)
    requires s < |seeded| && forall c | c in parents :: 1 <= c <= |seeded| && 1 <= parents[c] <= |seeded|
  {
    && share >= 0.0
    && if s + 1 in done then
         && s + 1 in parents && parent == parents[s + 1]
         && Fits(share, |Kids(parents, seeded, parent)|)
         && port == ChildPort(seeded[s], seeded[parent - 1], share)
       else
         port == seeded[s] && parent == 0
  }

  ghost predicate ParentsInRange(parents: map<nat, nat>, n: nat) {
    forall c | c in parents :: 1 <= c <= n && 1 <= parents[c] <= n
  }

  lemma SharedAtTheEnd(parents: map<nat, nat>, seeded: seq<Port>, r: seq<Port>, c: Rollup, children: set<nat>, s: nat)
    requires ParentsInRange(parents, |seeded|) && children == set c | c in parents && seeded[c - 1].speed != 0
    requires 0 <= s < |r| == |seeded| == |c.share| == |c.counterParent| && SameSpeeds(r, seeded)
    requires SharedSoFar(parents, seeded, children, r[s], c.counterParent[s], c.share[s], s)
    requires forall x | 0 <= x < |r| && x + 1 !in parents :: r[x] == seeded[x]
    requires Hierarchy.OneLevel(parents)
    ensures Shared(parents, r, c, s)
  {
    if s + 1 in children {
      var p := parents[s + 1];
      assert r[p - 1] == seeded[p - 1];
      assert Kids(parents, seeded, p) == Kids(parents, r, p);
    }
  }

  /** Child `k` takes its share; the others stand. */
  lemma ShareOne(parents: map<nat, nat>, seeded: seq<Port>, done: set<nat>, r: seq<Port>, counterParent: seq<nat>,
                 share: seq<real>, k: nat, sh: real)
    requires ParentsInRange(parents, |seeded|) && |r| == |counterParent| == |share| == |seeded|
    requires forall s | 0 <= s < |r| :: SharedSoFar(parents, seeded, done, r[s], counterParent[s], share[s], s)
    requires k in parents && k !in done && parents[k] !in done
    requires sh >= 0.0 && Fits(sh, |Kids(parents, seeded, parents[k])|)
    ensures var r' := r[k - 1 := ChildPort(r[k - 1], r[parents[k] - 1], sh)];
            var (cp, ss) := (counterParent[k - 1 := parents[k]], share[k - 1 := sh]);
            forall s | 0 <= s < |r| :: SharedSoFar(parents, seeded, done + {k}, r'[s], cp[s], ss[s], s)
  {
    var p := parents[k];
    assert SharedSoFar(parents, seeded, done, r[p - 1], counterParent[p - 1], share[p - 1], p - 1);
    assert SharedSoFar(parents, seeded, done, r[k - 1], counterParent[k - 1], share[k - 1], k - 1);
  }

  method ShareNext(parents: map<nat, nat>, seeded: seq<Port>, jitter: seq<real>, siblings: map<nat, nat>,
                   ghost done: set<nat>, r: seq<Port>, counterParent: seq<nat>, share: seq<real>, k: nat)
    returns (r': seq<Port>, counterParent': seq<nat>, share': seq<real>)
    requires |jitter| == |seeded| && forall s | 0 <= s < |jitter| :: -1.0 <= jitter[s] < 1.0
    requires ParentsInRange(parents, |seeded|) && |r| == |counterParent| == |share| == |seeded|
    requires forall p :: Counted(parents, seeded, siblings, {}, p)
    requires k in parents && seeded[k - 1].speed != 0 && k !in done && parents[k] !in done
    requires forall s | 0 <= s < |r| :: SharedSoFar(parents, seeded, done, r[s], counterParent[s], share[s], s)
    ensures |r'| == |counterParent'| == |share'| == |seeded|
    ensures forall s | 0 <= s < |r'| :: SharedSoFar(parents, seeded, done + {k}, r'[s], counterParent'[s], share'[s], s)
  {
    var p := parents[k];
    SiblingCount(parents, seeded, siblings, k);
    var sh := ChildShare(jitter[k - 1], siblings[p]);
    ShareOne(parents, seeded, done, r, counterParent, share, k, sh);
    return r[k - 1 := ChildPort(r[k - 1], r[p - 1], sh)], counterParent[k - 1 := p], share[k - 1 := sh];
  }

  method ShareOut(parents: map<nat, nat>, seeded: seq<Port>, jitter: seq<real>)
    returns (counterParent: seq<nat>, share: seq<real>, r: seq<Port>, ghost children: set<nat>)
    requires |jitter| == |seeded| && forall s | 0 <= s < |jitter| :: -1.0 <= jitter[s] < 1.0
    requires ParentsInRange(parents, |seeded|) && Hierarchy.OneLevel(parents)
    ensures |r| == |counterParent| == |share| == |seeded|
    ensures children == set c | c in parents && seeded[c - 1].speed != 0
    ensures forall s | 0 <= s < |r| :: SharedSoFar(parents, seeded, children, r[s], counterParent[s], share[s], s)
  {
    r, counterParent, share := seeded, seq(|seeded|, _ => 0), seq(|seeded|, _ => 0.0);
    var siblings, childSet := CountSiblings(parents, seeded);
    var list := SortedInts(childSet);
    forall j | 0 <= j < |list| ensures list[j] in childSet && parents[list[j]] !in childSet { assert list[j] in list; }
    ghost var done: set<nat> := {};
    for i := 0 to |list|
      invariant |r| == |counterParent| == |share| == |seeded|
      invariant done <= childSet && forall x | x in childSet && x !in done :: x in list[i..]
      invariant forall j | i <= j < |list| :: list[j] !in done
      invariant forall s | 0 <= s < |r| :: SharedSoFar(parents, seeded, done, r[s], counterParent[s], share[s], s)
    {
      var k := list[i];
      r, counterParent, share := ShareNext(parents, seeded, jitter, siblings, done, r, counterParent, share, k);
      done := done + {k};
    }
    children := childSet;
    assert done == children;
  }

  lemma SiblingCount(parents: map<nat, nat>, ports: seq<Port>, siblings: map<nat, nat>, k: nat)
    requires ParentsInRange(parents, |ports|) && k in parents && ports[k - 1].speed != 0
    requires forall p :: Counted(parents, ports, siblings, {}, p)
    ensures parents[k] in siblings && siblings[parents[k]] == |Kids(parents, ports, parents[k])| > 0
  {
    var p := parents[k];
    assert Counted(parents, ports, siblings, {}, p) && k in Kids(parents, ports, p);
    assert Kids(parents, ports, p) - {} == Kids(parents, ports, p);
  }

  method BuildRollup(parents: map<nat, nat>, members: map<nat, seq<nat>>, ports: seq<Port>, jitter: seq<real>,
                     dial: (nat, real, Direction) -> nat)
    returns (c: Rollup, r: seq<Port>)
    requires Inputs(parents, members, ports, jitter)
    ensures c.Ranked() && c.Slots() == |ports| && c.dial == dial
    ensures PortsValid(r) && SameSpeeds(r, ports) && AllSeeded(r, c.members) && NoneTwice(c.members)
    ensures forall s | 0 <= s < |c.members| :: SumsOk(parents, members, |ports|, s, c.members[s])
    ensures forall a | a in members && a !in parents :: Takes(parents, members, c.members, a)
    ensures forall s | 0 <= s < |ports| :: Shared(parents, r, c, s)
    ensures forall s | 0 <= s < |ports| && c.counterParent[s] == 0 :: Reseated(ports, c.members, s, r[s])
  {
    var mem, seeded, claimed := SumAggregates(parents, members, ports, jitter);
    var counterParent, share, shared, children := ShareOut(parents, seeded, jitter);
    r := shared;
    c := Rollup(counterParent, share, mem, dial);
    forall s | 0 <= s < |r|
      ensures r[s].in_.profile.Valid() && r[s].out.profile.Valid() && r[s].speed == seeded[s].speed
      ensures s + 1 !in parents ==> r[s] == seeded[s]
      ensures counterParent[s] != 0 ==> s + 1 in parents && counterParent[s] == parents[s + 1]
      ensures share[s] >= 0.0
      ensures counterParent[s] == 0 ==> r[s] == seeded[s]
    {
      assert SharedSoFar(parents, seeded, children, r[s], counterParent[s], share[s], s);
    }
    ChildrenAreSeparate(parents, members, seeded, r, mem);
    RankedByConstruction(parents, members, |ports|, c);
    forall s | 0 <= s < |ports| ensures Shared(parents, r, c, s) {
      assert SharedSoFar(parents, seeded, children, r[s], counterParent[s], share[s], s);
      SharedAtTheEnd(parents, seeded, r, c, children, s);
    }
  }

  // ---------------------------------------------------------------------------------------------
  // The bounds.

  /** One column of the interfaces of `list`, summed as a poll at `t` serves them. */
  ghost function SumCounters(ports: seq<Port>, c: Rollup, ledger: Ledger, list: seq<nat>, t: real, d: Direction,
                             col: Column): nat
    requires c.Ranked() && |ledger| == |ports| == c.Slots() && PortsValid(ports)
    requires forall i | 0 <= i < |list| :: 1 <= list[i] <= c.Slots()
  {
    if list == [] then 0
    else
      Counter(ports[list[0] - 1].At(d), Served(c, ledger, list[0] - 1, t, d), col)
      + SumCounters(ports, c, ledger, list[1..], t, d, col)
  }

  ghost function Deltas(c: Rollup, ledger: Ledger, list: seq<nat>, t: real, d: Direction): seq<nat>
    requires c.Ranked() && |ledger| == c.Slots() && forall i | 0 <= i < |list| :: 1 <= list[i] <= c.Slots()
  {
    seq(|list|, i requires 0 <= i < |list| => Served(c, ledger, list[i] - 1, t, d))
  }

  ghost function BasesOf(ports: seq<Port>, list: seq<nat>, d: Direction, col: Column): seq<nat>
    requires forall i | 0 <= i < |list| :: 1 <= list[i] <= |ports|
  {
    seq(|list|, i requires 0 <= i < |list| => Base(ports[list[i] - 1].At(d).base, col))
  }

  /** Interfaces sharing one profile: their counters sum to their bases plus their growths. */
  lemma {:induction false} CountersSplit(ports: seq<Port>, c: Rollup, ledger: Ledger, list: seq<nat>, p: Profile,
                                         t: real, d: Direction, col: Column)
    requires c.Ranked() && |ledger| == |ports| == c.Slots() && PortsValid(ports) && p.Valid()
    requires forall i | 0 <= i < |list| :: 1 <= list[i] <= c.Slots() && ports[list[i] - 1].At(d).profile == p
    ensures SumCounters(ports, c, ledger, list, t, d, col)
         == Sum(BasesOf(ports, list, d, col)) + Growths(p, Deltas(c, ledger, list, t, d), col)
  {
    if list != [] {
      CountersSplit(ports, c, ledger, list[1..], p, t, d, col);
      hide BasesOf, Deltas, Growths, Sum, Served, Growth, Base, Profile.Valid;
      FirstBase(ports, list, d, col);
      FirstDelta(c, ledger, list, p, t, d, col);
    } else {
      NothingSplit(ports, c, ledger, p, t, d, col);
    }
  }

  lemma FirstBase(ports: seq<Port>, list: seq<nat>, d: Direction, col: Column)
    requires list != [] && forall i | 0 <= i < |list| :: 1 <= list[i] <= |ports|
    ensures Sum(BasesOf(ports, list, d, col))
         == Base(ports[list[0] - 1].At(d).base, col) + Sum(BasesOf(ports, list[1..], d, col))
  {
    assert BasesOf(ports, list, d, col)[1..] == BasesOf(ports, list[1..], d, col);
  }

  lemma FirstDelta(c: Rollup, ledger: Ledger, list: seq<nat>, p: Profile, t: real, d: Direction, col: Column)
    requires c.Ranked() && |ledger| == c.Slots() && p.Valid()
    requires list != [] && forall i | 0 <= i < |list| :: 1 <= list[i] <= c.Slots()
    ensures Growths(p, Deltas(c, ledger, list, t, d), col)
         == Growth(p, Served(c, ledger, list[0] - 1, t, d), col) + Growths(p, Deltas(c, ledger, list[1..], t, d), col)
  {
    hide Served, Growth;
    assert Deltas(c, ledger, list, t, d)[1..] == Deltas(c, ledger, list[1..], t, d);
  }

  lemma NothingSplit(ports: seq<Port>, c: Rollup, ledger: Ledger, p: Profile, t: real, d: Direction, col: Column)
    requires c.Ranked() && |ledger| == |ports| == c.Slots() && PortsValid(ports) && p.Valid()
    ensures SumCounters(ports, c, ledger, [], t, d, col) == 0
    ensures Sum(BasesOf(ports, [], d, col)) == 0 && Growths(p, Deltas(c, ledger, [], t, d), col) == 0
  {
  }

  lemma GrowthMono(p: Profile, x: nat, y: nat, col: Column)
    requires p.Valid() && x <= y
    ensures Growth(p, x, col) <= Growth(p, y, col)
  {
    GrowthSplit(p, x, y - x, col);
  }

  lemma {:induction false} DistinctFit(list: seq<nat>, s: set<nat>)
    requires Distinct(list) && forall i | 0 <= i < |list| :: list[i] in s
    ensures |list| <= |s|
  {
    if list != [] {
      DistinctFit(list[1..], s - {list[0]});
    }
  }

  /** A child serves at most its share of what its parent serves, once no close lies ahead of the poll. */
  lemma ChildServedWithinShare(c: Rollup, ledger: Ledger, now: real, s: nat, t: real, d: Direction)
    requires LedgerOk(c, ledger, now) && now <= t && s < c.Slots() && c.counterParent[s] != 0
    ensures Served(c, ledger, s, t, d) <= Scale(Served(c, ledger, c.counterParent[s] - 1, t, d), c.share[s])
    ensures Served(c, ledger, s, t, d) as real <= c.share[s] * Served(c, ledger, c.counterParent[s] - 1, t, d) as real
  {
    hide Served, Scale;
    ChildServedBelow(c, ledger, now, s, t, d);
    ScaleIsWhole(Served(c, ledger, c.counterParent[s] - 1, t, d), c.share[s]);
  }

  lemma ChildServedBelow(c: Rollup, ledger: Ledger, now: real, s: nat, t: real, d: Direction)
    requires LedgerOk(c, ledger, now) && now <= t && s < c.Slots() && c.counterParent[s] != 0
    ensures Served(c, ledger, s, t, d) <= Scale(Served(c, ledger, c.counterParent[s] - 1, t, d), c.share[s])
  {
    var p := c.counterParent[s] - 1;
    assert c.members[s] == [];
    if ledger[s].None? {
      assert Raw(c, ledger, s, t, d) == Scale(Served(c, ledger, p, t, d), c.share[s]);
    } else {
      assert EntryOk(c, ledger, s, now);
      var at := ledger[s].value.Clamp(t);
      assert Raw(c, ledger, s, at, d) == Scale(Served(c, ledger, p, at, d), c.share[s]);
      ServedMono(c, ledger, p, at, t, d);
      ScaleMono(Served(c, ledger, p, at, d), Served(c, ledger, p, t, d), c.share[s]);
    }
  }

  /** A duplicate-free list of children of `p`, by ifIndex. */
  ghost predicate Children(c: Rollup, p: nat, kids: seq<nat>) {
    && Distinct(kids)
    && forall i | 0 <= i < |kids| :: 1 <= kids[i] <= c.Slots() && c.counterParent[kids[i] - 1] == p + 1
  }

  ghost function SharesOf(c: Rollup, kids: seq<nat>): seq<real>
    requires |c.share| == c.Slots() && forall i | 0 <= i < |kids| :: 1 <= kids[i] <= c.Slots()
  {
    seq(|kids|, i requires 0 <= i < |kids| => c.share[kids[i] - 1])
  }

  lemma KidsShare(parents: map<nat, nat>, ports: seq<Port>, c: Rollup, p: nat, kids: seq<nat>)
    requires c.Ranked() && |ports| == c.Slots() && ParentsInRange(parents, |ports|)
    requires forall s | 0 <= s < |ports| :: Shared(parents, ports, c, s)
    requires Children(c, p, kids) && kids != []
    ensures var n := |Kids(parents, ports, p + 1)|;
            && 0 < |kids| <= n
            && forall i | 0 <= i < |kids| ::
                 && Fits(c.share[kids[i] - 1], n)
                 && ChildSeeded(ports, kids[i] - 1, p, c.share[kids[i] - 1])
  {
    forall i | 0 <= i < |kids|
      ensures kids[i] in Kids(parents, ports, p + 1)
      ensures Fits(c.share[kids[i] - 1], |Kids(parents, ports, p + 1)|)
      ensures ChildSeeded(ports, kids[i] - 1, p, c.share[kids[i] - 1])
    {
      var s := kids[i] - 1;
      assert Shared(parents, ports, c, s);
      assert Kids(parents, ports, parents[s + 1]) == Kids(parents, ports, p + 1);
    }
    DistinctFit(kids, Kids(parents, ports, p + 1));
  }

  lemma ScaledBase(b: Bases, share: real, col: Column)
    requires share >= 0.0
    ensures Base(ScaleBases(b, share), col) == Scale(Base(b, col), share)
  {
  }

  /** The children's bases fit the parent's base. */
  lemma KidBasesFit(parents: map<nat, nat>, ports: seq<Port>, c: Rollup, p: nat, kids: seq<nat>, d: Direction,
                    col: Column)
    requires c.Ranked() && |ports| == c.Slots() && ParentsInRange(parents, |ports|) && p < c.Slots()
    requires forall s | 0 <= s < |ports| :: Shared(parents, ports, c, s)
    requires Children(c, p, kids) && kids != []
    ensures Sum(BasesOf(ports, kids, d, col)) <= Base(ports[p].At(d).base, col)
    ensures forall i | 0 <= i < |kids| :: ports[kids[i] - 1].At(d).profile == ports[p].At(d).profile
  {
    var b := ports[p].At(d).base;
    KidsShare(parents, ports, c, p, kids);
    var bs := BasesOf(ports, kids, d, col);
    var shares := SharesOf(c, kids);
    forall i | 0 <= i < |kids| ensures bs[i] <= Scale(Base(b, col), shares[i]) {
      assert ChildSeeded(ports, kids[i] - 1, p, c.share[kids[i] - 1]);
      ScaledBase(b, shares[i], col);
    }
    SharedSumBelow(bs, shares, Base(b, col), |Kids(parents, ports, p + 1)|);
  }

  /** The children's served deltas fit the parent's. */
  lemma KidDeltasFit(parents: map<nat, nat>, ports: seq<Port>, c: Rollup, ledger: Ledger, now: real,
                     p: nat, kids: seq<nat>, t: real, d: Direction)
    requires LedgerOk(c, ledger, now) && now <= t
    requires |ports| == c.Slots() && ParentsInRange(parents, |ports|) && p < c.Slots()
    requires forall s | 0 <= s < |ports| :: Shared(parents, ports, c, s)
    requires Children(c, p, kids) && kids != []
    ensures Sum(Deltas(c, ledger, kids, t, d)) <= Served(c, ledger, p, t, d)
  {
    KidsShare(parents, ports, c, p, kids);
    var xs := Deltas(c, ledger, kids, t, d);
    var shares := SharesOf(c, kids);
    forall i | 0 <= i < |kids| ensures shares[i] >= 0.0 && xs[i] <= Scale(Served(c, ledger, p, t, d), shares[i]) {
      ChildServedWithinShare(c, ledger, now, kids[i] - 1, t, d);
    }
    SharedSumBelow(xs, shares, Served(c, ledger, p, t, d), |Kids(parents, ports, p + 1)|);
  }

  /**
   At any instant no earlier than every recorded transition, the counters of any children of a parent
   sum to at most the parent's, on every column and in both directions.
   */
  lemma ChildrenWithinParent(parents: map<nat, nat>, ports: seq<Port>, c: Rollup, ledger: Ledger, now: real,
                             p: nat, kids: seq<nat>, t: real, d: Direction, col: Column)
    requires LedgerOk(c, ledger, now) && now <= t
    requires |ports| == c.Slots() && PortsValid(ports) && ParentsInRange(parents, |ports|) && p < c.Slots()
    requires forall s | 0 <= s < |ports| :: Shared(parents, ports, c, s)
    requires Children(c, p, kids)
    ensures SumCounters(ports, c, ledger, kids, t, d, col) <= Counter(ports[p].At(d), Served(c, ledger, p, t, d), col)
  {
    if kids != [] {
      var profile := ports[p].At(d).profile;
      var xs := Deltas(c, ledger, kids, t, d);
      KidBasesFit(parents, ports, c, p, kids, d, col);
      KidDeltasFit(parents, ports, c, ledger, now, p, kids, t, d);
      CountersSplit(ports, c, ledger, kids, profile, t, d, col);
      GrowthsBelowGrowthOfSum(profile, xs, col);
      GrowthMono(profile, Sum(xs), Served(c, ledger, p, t, d), col);
    }
  }

  lemma {:induction false} SumAppend(xs: seq<nat>, x: nat)
    ensures Sum(xs + [x]) == Sum(xs) + x
  {
    if xs != [] {
      assert (xs + [x])[1..] == xs[1..] + [x];
      SumAppend(xs[1..], x);
    }
  }

  lemma {:induction false} SumBasesColumn(ports: seq<Port>, ms: seq<nat>, d: Direction, col: Column)
    requires forall k | 0 <= k < |ms| :: 1 <= ms[k] <= |ports|
    ensures Base(SumBases(ports, ms, d), col) == Sum(BasesOf(ports, ms, d, col))
    decreases |ms|
  {
    if ms != [] {
      var (front, last) := (ms[..|ms| - 1], ms[|ms| - 1]);
      SumBasesColumn(ports, front, d, col);
      assert BasesOf(ports, ms, d, col) == BasesOf(ports, front, d, col) + [Base(ports[last - 1].At(d).base, col)];
      SumAppend(BasesOf(ports, front, d, col), Base(ports[last - 1].At(d).base, col));
    }
  }

  lemma {:induction false} SumServedIsSum(c: Rollup, ledger: Ledger, s: nat, k: nat, t: real, d: Direction)
    requires c.Ranked() && |ledger| == c.Slots() && s < c.Slots() && c.members[s] != [] && k <= |c.members[s]|
    ensures SumServed(c, ledger, s, k, t, d) == Sum(Deltas(c, ledger, c.members[s][k..], t, d))
    decreases |c.members[s]| - k
  {
    if k < |c.members[s]| {
      hide Served;
      SumServedIsSum(c, ledger, s, k + 1, t, d);
      var list := c.members[s][k..];
      assert list[1..] == c.members[s][k + 1..];
      assert Deltas(c, ledger, list, t, d)[1..] == Deltas(c, ledger, list[1..], t, d);
    }
  }

  /**
   An aggregate that was never held equals the sum of its members, exactly on octets and within
   members - 1 packets on each packet column: the floor of a sum against a sum of floors.
   */
  lemma AggregateIsMemberSum(ports: seq<Port>, c: Rollup, ledger: Ledger, s: nat, t: real, d: Direction, col: Column)
    requires c.Ranked() && |ledger| == |ports| == c.Slots() && PortsValid(ports)
    requires s < c.Slots() && c.members[s] != [] && AggregateSeeded(ports, s, c.members[s]) && ledger[s] == None
    ensures var agg := Counter(ports[s].At(d), Served(c, ledger, s, t, d), col);
            var sum := SumCounters(ports, c, ledger, c.members[s], t, d, col);
            && (col == Octets ==> agg == sum)
            && sum <= agg
            && (col.Ucast? || col.Mcast? || col.Bcast? ==> agg - sum <= |c.members[s]| - 1)
  {
    var ms := c.members[s];
    var p := ports[s].At(d).profile;
    var xs := Deltas(c, ledger, ms, t, d);
    AggregateColumn(ports, c, ledger, s, t, d, col);
    GrowthsBelowGrowthOfSum(p, xs, col);
    if col.Ucast? || col.Mcast? || col.Bcast? {
      PacketGrowthOfSumNear(p, xs, col);
    } else if col == Octets {
      OctetGrowthIsSum(p, xs);
    }
  }

  /** Aggregate and member sum share one base; they differ by the growth of a sum against a sum of growths. */
  lemma AggregateColumn(ports: seq<Port>, c: Rollup, ledger: Ledger, s: nat, t: real, d: Direction, col: Column)
    requires c.Ranked() && |ledger| == |ports| == c.Slots() && PortsValid(ports)
    requires s < c.Slots() && c.members[s] != [] && AggregateSeeded(ports, s, c.members[s]) && ledger[s] == None
    ensures var (ms, p) := (c.members[s], ports[s].At(d).profile);
            var xs := Deltas(c, ledger, ms, t, d);
            var base := Sum(BasesOf(ports, ms, d, col));
            && Counter(ports[s].At(d), Served(c, ledger, s, t, d), col) == base + Growth(p, Sum(xs), col)
            && SumCounters(ports, c, ledger, ms, t, d, col) == base + Growths(p, xs, col)
  {
    var ms := c.members[s];
    CountersSplit(ports, c, ledger, ms, ports[s].At(d).profile, t, d, col);
    SumBasesColumn(ports, ms, d, col);
    assert ms[0..] == ms;
    SumServedIsSum(c, ledger, s, 0, t, d);
    assert Raw(c, ledger, s, t, d) == SumServed(c, ledger, s, 0, t, d);
  }

  lemma {:induction false} OctetGrowthIsSum(p: Profile, xs: seq<nat>)
    requires p.Valid()
    ensures Growths(p, xs, Octets) == Sum(xs)
  {
    if xs != [] { OctetGrowthIsSum(p, xs[1..]); }
  }
}
