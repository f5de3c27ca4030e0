/**
 The DNS view over a set of devices: a unique forward label each, address records for it and for its management name,
 and a reverse pointer in the most specific configured zone. Names are sequences of labels; letter case of zone names
 is already folded.
 */
module DnsZone {
  import opened Common
  import opened Decimal
  import opened Wire
  import opened DnsLabel
  import Sorting

  type Name = seq<string>

  datatype Ip = Ip(a: U8, b: U8, c: U8, d: U8)

  datatype Device = Device(ip: Ip, sysName: string)

  function Octets(ip: Ip): seq<U8> { [ip.a, ip.b, ip.c, ip.d] }

  function Number(ip: Ip): nat {
    0x100_0000 * (ip.a as nat) + 0x1_0000 * (ip.b as nat) + 0x100 * (ip.c as nat) + (ip.d as nat)
  }

  ghost predicate DistinctIps(ds: seq<Device>) {
    forall i, j | 0 <= i < j < |ds| :: ds[i].ip != ds[j].ip
  }

  // ---------------------------------------------------------------------------------------------
  // Reverse zones.

  const ARPA: Name := ["in-addr", "arpa"]

  /** Octets, last first, under in-addr.arpa. */
  function Backwards(prefix: seq<U8>): Name {
    if prefix == [] then [] else [Itoa(prefix[|prefix| - 1])] + Backwards(prefix[..|prefix| - 1])
  }

  function ZoneName(prefix: seq<U8>): Name { Backwards(prefix) + ARPA }

  /** The octet a label spells in its one canonical form. */
  predicate IsOctet(p: string) { 0 <= Value(p) <= 255 && Itoa(Value(p)) == p }

  /** The network a reverse-zone name stands for: one to four octets. */
  method ParseReverseZone(name: Name) returns (r: Option<seq<U8>>)
    ensures r.Some? ==> 1 <= |r.value| <= 4 && ZoneName(r.value) == name
    ensures r.None? ==> forall p: seq<U8> | 1 <= |p| <= 4 :: ZoneName(p) != name
  {
    hide IsOctet, Itoa, Value, Backwards;
    if |name| < 3 || name[|name| - 2..] != ARPA || |name| > 6 {
      forall p: seq<U8> | 1 <= |p| <= 4 ensures ZoneName(p) != name { ZoneNameShape(p); }
      return None;
    }
    var parts := name[..|name| - 2];
    var prefix: seq<U8> := [];
    var n := |parts|;
    assert name == parts + ARPA;
    assert Backwards(prefix) == parts[n..] by { NoOctets(); }
    while n > 0
      invariant 0 <= n <= |parts| && |prefix| == |parts| - n
      invariant Backwards(prefix) == parts[n..]
    {
      var p := parts[n - 1];
      if !IsOctet(p) {
        forall q: seq<U8> | 1 <= |q| <= 4 ensures ZoneName(q) != name { NotAnOctet(q, parts, n - 1); }
        return None;
      }
      OctetSpelled(p);
      BackwardsSnoc(prefix, Value(p));
      assert parts[n - 1..] == [p] + parts[n..];
      prefix := prefix + [Value(p)];
      n := n - 1;
    }
    assert parts[0..] == parts;
    return Some(prefix);
  }

  lemma NoOctets()
    ensures Backwards([]) == []
  {
  }

  lemma OctetSpelled(p: string)
    requires IsOctet(p)
    ensures 0 <= Value(p) <= 255 && Itoa(Value(p)) == p
  {
  }

  lemma BackwardsSnoc(prefix: seq<U8>, v: U8)
    ensures Backwards(prefix + [v]) == [Itoa(v)] + Backwards(prefix)
  {
    assert (prefix + [v])[..|prefix|] == prefix;
  }

  lemma {:induction false} BackwardsAt(p: seq<U8>, i: nat)
    requires i < |p|
    ensures |Backwards(p)| == |p| && Backwards(p)[i] == Itoa(p[|p| - 1 - i])
  {
    if |p| > 1 { BackwardsAt(p[..|p| - 1], if i > 0 then i - 1 else 0); }
  }

  lemma ZoneNameShape(p: seq<U8>)
    requires 1 <= |p| <= 4
    ensures |ZoneName(p)| == |p| + 2 && ZoneName(p)[|p|..] == ARPA && ZoneName(p)[..|p|] == Backwards(p)
  {
    BackwardsAt(p, 0);
  }

  lemma NotAnOctet(q: seq<U8>, parts: Name, i: nat)
    requires 1 <= |q| <= 4 && i < |parts| && !IsOctet(parts[i])
    ensures ZoneName(q) != parts + ARPA
  {
    ZoneNameShape(q);
    if |q| == |parts| {
      BackwardsAt(q, i);
      ItoaReadsBack(q[|q| - 1 - i]);
      assert IsOctet(Backwards(q)[i]);
      assert (parts + ARPA)[i] == parts[i] && ZoneName(q)[i] == Backwards(q)[i];
    }
  }

  predicate Contains(prefix: seq<U8>, ip: Ip) { prefix <= Octets(ip) }

  /** Octet by octet, from the front; four octets are the address itself. */
  lemma ContainsInValues(prefix: seq<U8>, ip: Ip)
    ensures Contains(prefix, ip) <==>
            && |prefix| <= 4
            && (|prefix| > 0 ==> prefix[0] == ip.a) && (|prefix| > 1 ==> prefix[1] == ip.b)
            && (|prefix| > 2 ==> prefix[2] == ip.c) && (|prefix| > 3 ==> prefix[3] == ip.d)
  {
  }

  function PtrName(ip: Ip): Name { ZoneName(Octets(ip)) }

  predicate Under(zone: Name, name: Name) { |zone| <= |name| && name[|name| - |zone|..] == zone }

  lemma {:induction false} BackwardsUnder(p: seq<U8>, full: seq<U8>)
    requires p <= full
    ensures |Backwards(p)| <= |Backwards(full)| && Backwards(full)[|Backwards(full)| - |Backwards(p)|..] == Backwards(p)
    decreases |full|
  {
    if |p| < |full| {
      BackwardsUnder(p, full[..|full| - 1]);
    } else {
      assert p == full;
    }
  }

  /** A zone that contains an address is a suffix of the address's pointer name. */
  lemma PtrUnderZone(p: seq<U8>, ip: Ip)
    requires Contains(p, ip)
    ensures Under(ZoneName(p), PtrName(ip))
  {
    BackwardsUnder(p, Octets(ip));
    var (b, f) := (Backwards(p), Backwards(Octets(ip)));
    assert f == f[..|f| - |b|] + b;
    assert PtrName(ip) == f[..|f| - |b|] + ZoneName(p);
  }

  /** The most specific of the zones that contain an address. */
  ghost predicate MostSpecific(zones: seq<seq<U8>>, ip: Ip, z: seq<U8>) {
    z in zones && Contains(z, ip) && forall y | y in zones && Contains(y, ip) :: |y| <= |z|
  }

  method ReverseZoneFor(ip: Ip, zones: seq<seq<U8>>) returns (r: Option<seq<U8>>)
    ensures r.Some? ==> MostSpecific(zones, ip, r.value)
    ensures r.None? ==> forall z | z in zones :: !Contains(z, ip)
  {
    r := None;
    for i := 0 to |zones|
      invariant r.Some? ==> MostSpecific(zones[..i], ip, r.value)
      invariant r.None? ==> forall z | z in zones[..i] :: !Contains(z, ip)
    {
      assert zones[..i + 1] == zones[..i] + [zones[i]];
      if Contains(zones[i], ip) && (r.None? || |zones[i]| > |r.value|) { r := Some(zones[i]); }
    }
    assert zones[..|zones|] == zones;
  }

  /** Two zones that contain one address and are equally specific are the same zone. */
  lemma MostSpecificUnique(zones: seq<seq<U8>>, ip: Ip, y: seq<U8>, z: seq<U8>)
    requires MostSpecific(zones, ip, y) && MostSpecific(zones, ip, z)
    ensures y == z
  {
  }

  // ---------------------------------------------------------------------------------------------
  // Labels.

  function ShortSuffix(ip: Ip): string { Itoa(ip.c) + "-" + Itoa(ip.d) }

  function FullSuffix(ip: Ip): string { Itoa(ip.a) + "-" + Itoa(ip.b) + "-" + Itoa(ip.c) + "-" + Itoa(ip.d) }

  function IpLabel(ip: Ip): string { "dev-" + FullSuffix(ip) }

  lemma OctetLength(v: U8)
    ensures 1 <= |Itoa(v)| <= 3
  {
    assert Pow10(3) == 1000;
    ItoaLength(v, 3);
  }

  lemma SuffixesValid(ip: Ip)
    ensures ValidLabel(ShortSuffix(ip)) && |ShortSuffix(ip)| <= 7
    ensures ValidLabel(FullSuffix(ip)) && |FullSuffix(ip)| <= 15
    ensures ValidLabel(IpLabel(ip))
  {
    OctetLength(ip.a);
    OctetLength(ip.b);
    OctetLength(ip.c);
    OctetLength(ip.d);
    var (s, f) := (ShortSuffix(ip), FullSuffix(ip));
    assert s[|s| - 1] == Itoa(ip.d)[|Itoa(ip.d)| - 1] && s[0] == Itoa(ip.c)[0];
    assert f[|f| - 1] == Itoa(ip.d)[|Itoa(ip.d)| - 1] && f[0] == Itoa(ip.a)[0];
  }

  /** Far more numbers than there are addresses. */
  const NUMBERS: nat := 0x1_0000_0010

  lemma NumbersSmall()
    ensures NUMBERS < Pow10(60)
  {
    assert Pow10(5) == 100_000;
    assert Pow10(10) == 10_000_000_000;
    Pow10Grows(10, 60);
  }

  lemma {:induction false} Pow10Grows(a: nat, b: nat)
    requires a <= b
    ensures Pow10(a) <= Pow10(b)
    decreases b
  {
    if a < b { Pow10Grows(a, b - 1); }
  }

  /** The base with part of the address when that is free, else with all of it, else with the first free number. */
  ghost predicate Suffixed(base: string, ip: Ip, taken: set<string>, cand: string) {
    var (short, full) := (JoinLabel(base, ShortSuffix(ip)), JoinLabel(base, FullSuffix(ip)));
    if short !in taken then cand == short
    else if full !in taken then cand == full
    else exists k :: FirstFree(base, taken, k) && cand == JoinLabel(base, Itoa(k))
  }

  /** The first number from 2 on whose label is free. */
  ghost predicate FirstFree(base: string, taken: set<string>, k: nat) {
    k >= 2 && JoinLabel(base, Itoa(k)) !in taken && forall j: nat | 2 <= j < k :: JoinLabel(base, Itoa(j)) in taken
  }

  /**
   A label nobody has. Different numbers give different labels, so a number no larger than the count of taken labels
   is free.
   */
  method Disambiguate(base: string, ip: Ip, taken: set<string>) returns (cand: string)
    requires ValidLabel(base) && |taken| + 4 < NUMBERS
    ensures ValidLabel(cand) && cand !in taken
    ensures Suffixed(base, ip, taken, cand)
  {
    hide ValidLabel, JoinLabel, Itoa, Pow10;
    SuffixesFit(base, ip);
    cand := JoinLabel(base, ShortSuffix(ip));
    if cand !in taken { return; }
    cand := JoinLabel(base, FullSuffix(ip));
    if cand !in taken { return; }
    NumbersSmall();
    var i: nat := 2;
    ghost var tried: set<string> := {};
    while true
      invariant 2 <= i && tried <= taken && |tried| == i - 2 && i <= |taken| + 2
      invariant forall k | 2 <= k < i :: JoinLabel(base, Itoa(k)) in tried
      invariant forall t | t in tried :: exists k: nat :: 2 <= k < i && t == JoinLabel(base, Itoa(k))
      decreases |taken| + 3 - i
    {
      cand := JoinLabel(base, Itoa(i));
      NumericSuffix(base, i);
      if cand !in taken {
        assert FirstFree(base, taken, i);
        return;
      }
      TriedIsNew(base, i, tried);
      tried := tried + {cand};
      Sized(tried, taken);
      i := i + 1;
    }
  }

  lemma SuffixesFit(base: string, ip: Ip)
    requires ValidLabel(base)
    ensures ValidLabel(JoinLabel(base, ShortSuffix(ip))) && ValidLabel(JoinLabel(base, FullSuffix(ip)))
  {
    SuffixesValid(ip);
    JoinValid(base, ShortSuffix(ip));
    JoinValid(base, FullSuffix(ip));
  }

  lemma TriedIsNew(base: string, i: nat, tried: set<string>)
    requires ValidLabel(base) && i < NUMBERS && NUMBERS < Pow10(60)
    requires forall t | t in tried :: exists k: nat :: 2 <= k < i && t == JoinLabel(base, Itoa(k))
    ensures JoinLabel(base, Itoa(i)) !in tried
  {
    hide ValidLabel, JoinLabel, Itoa, Pow10;
    forall t | t in tried ensures t != JoinLabel(base, Itoa(i)) {
      var k: nat :| 2 <= k < i && t == JoinLabel(base, Itoa(k));
      NumericApart(base, k, i);
    }
  }

  lemma Sized(a: set<string>, b: set<string>)
    requires a <= b
    ensures |a| <= |b|
  {
    assert b == a + (b - a);
  }

  // ---------------------------------------------------------------------------------------------
  // How many devices there can be.

  lemma {:induction false} BoundedSet(s: set<nat>, n: nat)
    requires forall x | x in s :: x < n
    ensures |s| <= n
  {
    if n == 0 {
      assert s == {};
    } else {
      BoundedSet(s - {n - 1}, n - 1);
    }
  }

  lemma {:induction false} NumbersOf(ds: seq<Device>) returns (s: set<nat>)
    requires DistinctIps(ds)
    ensures |s| == |ds| && forall x | x in s :: exists i :: 0 <= i < |ds| && x == Number(ds[i].ip)
  {
    hide Number;
    if ds == [] { return {}; }
    var (front, last) := (ds[..|ds| - 1], ds[|ds| - 1]);
    var t := NumbersOf(front);
    if Number(last.ip) in t {
      var i :| 0 <= i < |front| && Number(last.ip) == Number(front[i].ip);
      NumberInjective(last.ip, front[i].ip);
    }
    s := t + {Number(last.ip)};
    forall x | x in s ensures exists i :: 0 <= i < |ds| && x == Number(ds[i].ip) {
      if x in t {
        var i :| 0 <= i < |front| && x == Number(front[i].ip);
        assert x == Number(ds[i].ip);
      } else {
        assert x == Number(ds[|ds| - 1].ip);
      }
    }
  }

  lemma NumberInjective(x: Ip, y: Ip)
    requires Number(x) == Number(y)
    ensures x == y
  {
    var (hx, hy) := (256 * (x.a as nat) + (x.b as nat), 256 * (y.a as nat) + (y.b as nat));
    var (lx, ly) := (256 * (x.c as nat) + (x.d as nat), 256 * (y.c as nat) + (y.d as nat));
    assert Number(x) == 0x1_0000 * hx + lx && Number(y) == 0x1_0000 * hy + ly;
    assert hx == hy && lx == ly;
  }

  /** Distinct IPv4 addresses number at most 2^32. */
  lemma FewDevices(ds: seq<Device>)
    requires DistinctIps(ds)
    ensures |ds| <= 0x1_0000_0000
  {
    var s := NumbersOf(ds);
    BoundedSet(s, 0x1_0000_0000);
  }

  // ---------------------------------------------------------------------------------------------
  // First pass: one label per device.

  type Labels = map<Ip, string>

  /** Every device so far has a valid label that no other device has. */
  ghost predicate Assigned(ds: seq<Device>, labels: Labels) {
    && (forall ip :: ip in labels <==> exists i :: 0 <= i < |ds| && ds[i].ip == ip)
    && (forall ip | ip in labels :: ValidLabel(labels[ip]))
    && (forall x, y | x in labels && y in labels && labels[x] == labels[y] :: x == y)
  }

  lemma AssignOne(ds: seq<Device>, n: nat, labels: Labels, taken: set<string>, name: string)
    requires n < |ds| && DistinctIps(ds) && Assigned(ds[..n], labels) && ValidLabel(name) && name !in taken
    requires forall ip | ip in labels :: labels[ip] in taken
    ensures ds[n].ip !in labels && Assigned(ds[..n + 1], labels[ds[n].ip := name])
  {
    hide ValidLabel;
    var (now, ip) := (labels[ds[n].ip := name], ds[n].ip);
    assert ip !in labels;
    var (front, all) := (ds[..n], ds[..n + 1]);
    assert all[n].ip == ip;
    forall x ensures x in now <==> exists i :: 0 <= i < |all| && all[i].ip == x {
      if x in labels {
        var i :| 0 <= i < |front| && front[i].ip == x;
        assert all[i].ip == x;
      }
      if i :| 0 <= i < |all| && all[i].ip == x && i < n { assert front[i].ip == x; }
    }
  }

  /** The label a device asks for: its name's, or one made from its address. */
  function BaseOf(d: Device, lower: char -> char): string {
    var base := LabelOf(d.sysName, lower);
    if base == "" then IpLabel(d.ip) else base
  }

  method BaseLabel(d: Device, lower: char -> char) returns (base: string)
    ensures ValidLabel(base) && base == BaseOf(d, lower)
  {
    base := SanitiseLabel(d.sysName, lower);
    if base == "" {
      SuffixesValid(d.ip);
      base := IpLabel(d.ip);
    }
  }

  ghost predicate Labelled(ds: seq<Device>, labels: Labels, n: nat) {
    n <= |ds| && forall i | 0 <= i < n :: ds[i].ip in labels
  }

  /** The labels of the first `n` devices. */
  ghost function Held(ds: seq<Device>, labels: Labels, n: nat): set<string>
    requires Labelled(ds, labels, n)
  {
    set i | 0 <= i < n :: labels[ds[i].ip]
  }

  /** Device `n` has the label it asks for unless a device before it holds that one, and then a suffix of it. */
  ghost predicate Chosen(ds: seq<Device>, labels: Labels, lower: char -> char, n: nat)
    requires Labelled(ds, labels, n + 1)
  {
    var (base, held, name) := (BaseOf(ds[n], lower), Held(ds, labels, n), labels[ds[n].ip]);
    if base in held then Suffixed(base, ds[n].ip, held, name) else name == base
  }

  /** How many of the first `n` devices could not have the label they ask for. */
  ghost function Renamed(ds: seq<Device>, labels: Labels, lower: char -> char, n: nat): nat
    requires Labelled(ds, labels, n)
  {
    if n == 0 then 0
    else Renamed(ds, labels, lower, n - 1) + if BaseOf(ds[n - 1], lower) in Held(ds, labels, n - 1) then 1 else 0
  }

  lemma HeldGrow(ds: seq<Device>, labels: Labels, ip: Ip, name: string, n: nat)
    requires Labelled(ds, labels, n) && ip !in labels
    ensures Labelled(ds, labels[ip := name], n) && Held(ds, labels[ip := name], n) == Held(ds, labels, n)
  {
    var now := labels[ip := name];
    assert forall i | 0 <= i < n :: now[ds[i].ip] == labels[ds[i].ip];
  }

  lemma {:induction false} LabelsGrow(ds: seq<Device>, labels: Labels, ip: Ip, name: string, lower: char -> char,
                                      n: nat)
    requires Labelled(ds, labels, n) && ip !in labels
    ensures Labelled(ds, labels[ip := name], n) && Held(ds, labels[ip := name], n) == Held(ds, labels, n)
    ensures Renamed(ds, labels[ip := name], lower, n) == Renamed(ds, labels, lower, n)
  {
    hide BaseOf;
    HeldGrow(ds, labels, ip, name, n);
    if n > 0 {
      hide Held;
      LabelsGrow(ds, labels, ip, name, lower, n - 1);
    }
  }

  lemma HeldOne(ds: seq<Device>, labels: Labels, n: nat)
    requires Labelled(ds, labels, n + 1)
    ensures Held(ds, labels, n + 1) == Held(ds, labels, n) + {labels[ds[n].ip]}
  {
  }

  /** The first pass after `n` devices. */
  ghost predicate Labelling(ds: seq<Device>, labels: Labels, lower: char -> char, n: nat, taken: set<string>,
                            renamed: nat) {
    && Labelled(ds, labels, n) && Assigned(ds[..n], labels)
    && taken == Held(ds, labels, n) && |taken| <= n && renamed == Renamed(ds, labels, lower, n)
    && (forall ip | ip in labels :: labels[ip] in taken)
    && forall i | 0 <= i < n :: Chosen(ds, labels, lower, i)
  }

  lemma LabelOne(ds: seq<Device>, labels: Labels, lower: char -> char, n: nat, taken: set<string>, renamed: nat,
                 name: string)
    requires n < |ds| && DistinctIps(ds) && Labelling(ds, labels, lower, n, taken, renamed)
    requires ValidLabel(name) && name !in taken
    requires var base := BaseOf(ds[n], lower);
             if base in taken then Suffixed(base, ds[n].ip, taken, name) else name == base
    ensures Labelling(ds, labels[ds[n].ip := name], lower, n + 1, taken + {name},
                      renamed + if BaseOf(ds[n], lower) in taken then 1 else 0)
  {
    hide ValidLabel, BaseOf, Suffixed, Assigned, Held;
    var (ip, now) := (ds[n].ip, labels[ds[n].ip := name]);
    AssignOne(ds, n, labels, taken, name);
    LabelsGrow(ds, labels, ip, name, lower, n);
    HeldOne(ds, now, n);
    forall i | 0 <= i < n + 1 ensures Chosen(ds, now, lower, i) {
      LabelsGrow(ds, labels, ip, name, lower, i);
      if i < n { assert Chosen(ds, labels, lower, i); }
    }
  }

  method AssignLabels(ds: seq<Device>, lower: char -> char) returns (labels: Labels, renamed: nat)
    requires DistinctIps(ds)
    ensures Assigned(ds, labels) && Labelled(ds, labels, |ds|)
    ensures forall n | 0 <= n < |ds| :: Chosen(ds, labels, lower, n)
    ensures renamed == Renamed(ds, labels, lower, |ds|)
  {
    hide ValidLabel, Assigned, Chosen, Held, Renamed, BaseOf, Suffixed;
    labels, renamed := map[], 0;
    var taken: set<string> := {};
    FewDevices(ds);
    NoneAssigned(ds, lower);
    for n := 0 to |ds|
      invariant Labelling(ds, labels, lower, n, taken, renamed)
    {
      var name := BaseLabel(ds[n], lower);
      ghost var (was, count) := (labels, renamed);
      if name in taken {
        name := Disambiguate(name, ds[n].ip, taken);
        renamed := renamed + 1;
      }
      LabelOne(ds, was, lower, n, taken, count, name);
      taken := taken + {name};
      labels := labels[ds[n].ip := name];
    }
    assert ds[..|ds|] == ds;
  }

  lemma NoneAssigned(ds: seq<Device>, lower: char -> char)
    ensures Labelling(ds, map[], lower, 0, {}, 0)
  {
  }

  /** A device keeps the label it asks for exactly when no lower address holds that label. */
  lemma KeepsBaseExactly(ds: seq<Device>, labels: Labels, lower: char -> char, n: nat)
    requires Assigned(ds, labels) && DistinctIps(ds) && Labelled(ds, labels, |ds|) && n < |ds|
    requires Chosen(ds, labels, lower, n)
    ensures labels[ds[n].ip] == BaseOf(ds[n], lower) <==>
            forall i | 0 <= i < n :: labels[ds[i].ip] != BaseOf(ds[n], lower)
  {
    hide ValidLabel, BaseOf, Suffixed;
    if labels[ds[n].ip] == BaseOf(ds[n], lower) {
      forall i | 0 <= i < n ensures labels[ds[i].ip] != BaseOf(ds[n], lower) {
        assert ds[i].ip != ds[n].ip;
      }
    }
  }

  // ---------------------------------------------------------------------------------------------
  // Which labels are gone, from the devices alone.

  /** Label `b` is gone once the first `n` devices have theirs. */
  ghost predicate UsedUp(ds: seq<Device>, lower: char -> char, n: nat, b: string)
    requires n <= |ds|
    decreases n, 0
  {
    n > 0 && (UsedUp(ds, lower, n - 1, b) || UsedBy(ds, lower, n - 1, b))
  }

  /**
   Device `i` sees to it that `b` is gone: it asks for `b`, or what it asks for is gone and `b` is the first of its
   suffixes that is not, or one before that.
   */
  ghost predicate UsedBy(ds: seq<Device>, lower: char -> char, i: nat, b: string)
    requires i < |ds|
    decreases i, 2
  {
    var (base, ip) := (BaseOf(ds[i], lower), ds[i].ip);
    var (short, full) := (JoinLabel(base, ShortSuffix(ip)), JoinLabel(base, FullSuffix(ip)));
    || b == base
    || (UsedUp(ds, lower, i, base) && b == short)
    || (UsedUp(ds, lower, i, base) && UsedUp(ds, lower, i, short) && b == full)
    || (UsedUp(ds, lower, i, base) && UsedUp(ds, lower, i, short) && UsedUp(ds, lower, i, full) &&
        exists k: nat :: UsedBelow(ds, lower, i, base, k) && b == JoinLabel(base, Itoa(k)))
  }

  /** Every number from 2 up to `k` is gone. */
  ghost predicate UsedBelow(ds: seq<Device>, lower: char -> char, i: nat, base: string, k: nat)
    requires i < |ds|
    decreases i, 1
  {
    k >= 2 && forall j: nat | 2 <= j < k :: UsedUp(ds, lower, i, JoinLabel(base, Itoa(j)))
  }

  /** One more device: what is gone after it is what was gone before, and its own label. */
  lemma ChosenUsesUp(ds: seq<Device>, labels: Labels, lower: char -> char, n: nat, b: string)
    requires n < |ds| && Labelled(ds, labels, n + 1) && Chosen(ds, labels, lower, n)
    requires forall x :: x in Held(ds, labels, n) <==> UsedUp(ds, lower, n, x)
    ensures b in Held(ds, labels, n) || UsedBy(ds, lower, n, b) <==> b in Held(ds, labels, n) || b == labels[ds[n].ip]
  {
    hide BaseOf, JoinLabel, ShortSuffix, FullSuffix, Itoa, UsedUp, Held;
    var (base, ip, held) := (BaseOf(ds[n], lower), ds[n].ip, Held(ds, labels, n));
    var (short, full) := (JoinLabel(base, ShortSuffix(ip)), JoinLabel(base, FullSuffix(ip)));
    if base in held && short in held && full in held {
      var k :| FirstFree(base, held, k) && labels[ip] == JoinLabel(base, Itoa(k));
      assert UsedBelow(ds, lower, n, base, k);
      assert !UsedUp(ds, lower, n, JoinLabel(base, Itoa(k)));
    }
  }

  /** The labels the first pass hands out are the ones that are gone. */
  lemma {:induction false} HeldExactly(ds: seq<Device>, labels: Labels, lower: char -> char, n: nat)
    requires Labelled(ds, labels, n) && forall i | 0 <= i < n :: Chosen(ds, labels, lower, i)
    ensures forall b :: b in Held(ds, labels, n) <==> UsedUp(ds, lower, n, b)
  {
    hide Chosen, UsedBy;
    if n > 0 {
      HeldExactly(ds, labels, lower, n - 1);
      HeldOne(ds, labels, n - 1);
      forall b ensures b in Held(ds, labels, n) <==> UsedUp(ds, lower, n, b) {
        ChosenUsesUp(ds, labels, lower, n - 1, b);
      }
    }
  }

  /** A device keeps the label it asks for if and only if the lower addresses do not use that label up. */
  lemma KeepsLabelExactly(ds: seq<Device>, labels: Labels, lower: char -> char, n: nat)
    requires Assigned(ds, labels) && DistinctIps(ds) && Labelled(ds, labels, |ds|) && n < |ds|
    requires forall i | 0 <= i < |ds| :: Chosen(ds, labels, lower, i)
    ensures labels[ds[n].ip] == BaseOf(ds[n], lower) <==> !UsedUp(ds, lower, n, BaseOf(ds[n], lower))
  {
    hide Chosen, Assigned, BaseOf, UsedUp;
    KeepsBaseExactly(ds, labels, lower, n);
    HeldExactly(ds, labels, lower, n);
  }

  /**
   The lowest address that asks for a label can lose it: not to another device that asks for it, but to one renamed
   into it. Here the second device is renamed to the label the third asks for.
   */
  lemma RenamedIntoLabel(ds: seq<Device>, labels: Labels, lower: char -> char)
    requires |ds| == 3 && DistinctIps(ds) && Assigned(ds, labels) && Labelled(ds, labels, 3)
    requires forall n | 0 <= n < 3 :: Chosen(ds, labels, lower, n)
    requires BaseOf(ds[0], lower) == BaseOf(ds[1], lower)
    requires BaseOf(ds[2], lower) == JoinLabel(BaseOf(ds[1], lower), ShortSuffix(ds[1].ip)) != BaseOf(ds[0], lower)
    ensures BaseOf(ds[2], lower) !in {BaseOf(ds[0], lower), BaseOf(ds[1], lower)}
    ensures labels[ds[1].ip] == BaseOf(ds[2], lower) && labels[ds[2].ip] != BaseOf(ds[2], lower)
  {
    hide ValidLabel, BaseOf, JoinLabel, ShortSuffix, FullSuffix;
    assert Chosen(ds, labels, lower, 0) && Chosen(ds, labels, lower, 1);
    assert Held(ds, labels, 0) == {};
    HeldOne(ds, labels, 0);
    KeepsBaseExactly(ds, labels, lower, 2);
  }

  /** Three devices of one network, the third named like the second once renamed. */
  const SAMPLE: seq<Device> :=
    [Device(Ip(10, 0, 0, 1), "r"), Device(Ip(10, 0, 0, 2), "r"), Device(Ip(10, 0, 0, 3), "r-0-2")]

  function Same(c: char): char { c }

  /** A device named by a clean label asks for that label. */
  lemma CleanBase(ip: Ip, s: string)
    requires ValidLabel(s) && !HasPair(s)
    ensures BaseOf(Device(ip, s), Same) == s
  {
    hide HasPair, Cleaned, Collapse, Trim, IpLabel;
    CleanedFacts(s, Same);
    RunsFacts(s);
    TrimKeeps(s);
  }

  lemma SampleSpelled()
    ensures BaseOf(SAMPLE[0], Same) == "r" && BaseOf(SAMPLE[1], Same) == "r" && BaseOf(SAMPLE[2], Same) == "r-0-2"
    ensures JoinLabel("r", ShortSuffix(SAMPLE[1].ip)) == "r-0-2"
  {
    hide BaseOf;
    CleanBase(SAMPLE[0].ip, "r");
    CleanBase(SAMPLE[1].ip, "r");
    CleanBase(SAMPLE[2].ip, "r-0-2");
    assert ShortSuffix(SAMPLE[1].ip) == "0-2" by { assert Itoa(0) == "0" && Itoa(2) == "2"; }
  }

  /** Nobody but 10.0.0.3 asks for "r-0-2", the pass runs, and 10.0.0.2 ends up with it. */
  method LowestLosesLabel() returns (labels: Labels, renamed: nat)
    ensures BaseOf(SAMPLE[0], Same) != "r-0-2" && BaseOf(SAMPLE[1], Same) != "r-0-2"
    ensures BaseOf(SAMPLE[2], Same) == "r-0-2" && UsedUp(SAMPLE, Same, 2, "r-0-2")
    ensures Labelled(SAMPLE, labels, 3)
    ensures labels[Ip(10, 0, 0, 2)] == "r-0-2" && labels[Ip(10, 0, 0, 3)] != "r-0-2"
  {
    SampleSpelled();
    hide BaseOf, JoinLabel, ShortSuffix, Assigned, Chosen, UsedUp;
    labels, renamed := AssignLabels(SAMPLE, Same);
    RenamedIntoLabel(SAMPLE, labels, Same);
    KeepsLabelExactly(SAMPLE, labels, Same, 2);
  }

  // ---------------------------------------------------------------------------------------------
  // Second pass: records.

  datatype Record = A(name: Name, ip: Ip) | Ptr(name: Name, target: Name)

  function DeviceName(domain: Name, name: string): Name { [name] + domain }

  function MgmtName(domain: Name, name: string): Name { ["ip4", "mgmt", name] + domain }

  /** The two address records of each device, in order. */
  function Forward(ds: seq<Device>, labels: Labels, domain: Name): seq<Record>
    requires forall i | 0 <= i < |ds| :: ds[i].ip in labels
  {
    if ds == [] then []
    else
      var d := ds[|ds| - 1];
      Forward(ds[..|ds| - 1], labels, domain) +
      [A(DeviceName(domain, labels[d.ip]), d.ip), A(MgmtName(domain, labels[d.ip]), d.ip)]
  }

  /** The addresses a name resolves to. */
  function Resolve(records: seq<Record>, name: Name): set<Ip> {
    set i | 0 <= i < |records| && records[i].A? && records[i].name == name :: records[i].ip
  }

  datatype ZoneView = ZoneView(forward: seq<Record>, reverse: map<Name, seq<Record>>, published: nat, ptrs: nat,
                               omitted: nat, renamed: nat)

  /** The pointer record of one device. */
  function PtrOf(d: Device, labels: Labels, domain: Name): Record
    requires d.ip in labels
  {
    Ptr(PtrName(d.ip), MgmtName(domain, labels[d.ip]))
  }

  ghost predicate Listed(reverse: map<Name, seq<Record>>, zone: Name, r: Record) {
    zone in reverse && r in reverse[zone]
  }

  /** Each device has its pointer in its most specific zone, and the zones hold no other record. */
  ghost predicate ReverseOk(ds: seq<Device>, labels: Labels, domain: Name, zones: seq<seq<U8>>,
                            reverse: map<Name, seq<Record>>) {
    && (forall i | 0 <= i < |ds| :: ds[i].ip in labels)
    && (forall i, z | 0 <= i < |ds| && MostSpecific(zones, ds[i].ip, z) ::
          Listed(reverse, ZoneName(z), PtrOf(ds[i], labels, domain)))
    && (forall zone, r | Listed(reverse, zone, r) ::
          exists i, z ::
            0 <= i < |ds| && MostSpecific(zones, ds[i].ip, z) && zone == ZoneName(z)
            && r == PtrOf(ds[i], labels, domain))
  }

  lemma AddPtr(ds: seq<Device>, n: nat, labels: Labels, domain: Name, zones: seq<seq<U8>>,
               was: map<Name, seq<Record>>, z: Option<seq<U8>>, now: map<Name, seq<Record>>)
    requires n < |ds| && ds[n].ip in labels && ReverseOk(ds[..n], labels, domain, zones, was)
    requires z.Some? ==> MostSpecific(zones, ds[n].ip, z.value)
    requires z.None? ==> forall y | y in zones :: !Contains(y, ds[n].ip)
    requires now == if z.None? then was
                    else was[ZoneName(z.value) :=
                      (if ZoneName(z.value) in was then was[ZoneName(z.value)] else [])
                      + [PtrOf(ds[n], labels, domain)]]
    ensures ReverseOk(ds[..n + 1], labels, domain, zones, now)
  {
    hide ZoneName, PtrOf, Contains;
    var (front, all) := (ds[..n], ds[..n + 1]);
    assert forall i | 0 <= i < n :: all[i] == front[i];
    assert all[n] == ds[n];
    forall i, y | 0 <= i < |all| && MostSpecific(zones, all[i].ip, y)
      ensures Listed(now, ZoneName(y), PtrOf(all[i], labels, domain))
    {
      if i < n {
        assert Listed(was, ZoneName(y), PtrOf(front[i], labels, domain));
      } else {
        MostSpecificUnique(zones, ds[n].ip, y, z.value);
      }
    }
    forall zone, r | Listed(now, zone, r)
      ensures exists i, y ::
                0 <= i < |all| && MostSpecific(zones, all[i].ip, y) && zone == ZoneName(y)
                && r == PtrOf(all[i], labels, domain)
    {
      if Listed(was, zone, r) {
        var i, y :| 0 <= i < |front| && MostSpecific(zones, front[i].ip, y) && zone == ZoneName(y)
          && r == PtrOf(front[i], labels, domain);
        assert MostSpecific(zones, all[i].ip, y);
      } else {
        assert MostSpecific(zones, all[n].ip, z.value);
      }
    }
  }

  /** The address's pointer belongs in this zone. */
  ghost predicate GoesTo(zones: seq<seq<U8>>, ip: Ip, zone: Name) {
    exists z :: MostSpecific(zones, ip, z) && ZoneName(z) == zone
  }

  /** The pointers of a zone: one for each device that belongs there, in order. */
  ghost function PtrsIn(ds: seq<Device>, labels: Labels, domain: Name, zones: seq<seq<U8>>, zone: Name): seq<Record>
    requires forall i | 0 <= i < |ds| :: ds[i].ip in labels
  {
    if ds == [] then []
    else
      var d := ds[|ds| - 1];
      PtrsIn(ds[..|ds| - 1], labels, domain, zones, zone) +
      if GoesTo(zones, d.ip, zone) then [PtrOf(d, labels, domain)] else []
  }

  /** How many devices some zone contains. */
  ghost function Reached(ds: seq<Device>, zones: seq<seq<U8>>): nat {
    if ds == [] then 0
    else Reached(ds[..|ds| - 1], zones) + if exists z :: z in zones && Contains(z, ds[|ds| - 1].ip) then 1 else 0
  }

  function Records(reverse: map<Name, seq<Record>>, zone: Name): seq<Record> {
    if zone in reverse then reverse[zone] else []
  }

  lemma PtrsOne(ds: seq<Device>, n: nat, labels: Labels, domain: Name, zones: seq<seq<U8>>, z: Option<seq<U8>>,
                zone: Name)
    requires n < |ds| && forall i | 0 <= i < |ds| :: ds[i].ip in labels
    requires z.Some? ==> MostSpecific(zones, ds[n].ip, z.value)
    requires z.None? ==> forall y | y in zones :: !Contains(y, ds[n].ip)
    ensures PtrsIn(ds[..n + 1], labels, domain, zones, zone) == PtrsIn(ds[..n], labels, domain, zones, zone) +
            if z.Some? && zone == ZoneName(z.value) then [PtrOf(ds[n], labels, domain)] else []
    ensures Reached(ds[..n + 1], zones) == Reached(ds[..n], zones) + if z.Some? then 1 else 0
  {
    hide ZoneName, PtrOf, Contains;
    assert ds[..n + 1][..n] == ds[..n];
    if GoesTo(zones, ds[n].ip, zone) {
      var y :| MostSpecific(zones, ds[n].ip, y) && ZoneName(y) == zone;
      assert y in zones && Contains(y, ds[n].ip);
      MostSpecificUnique(zones, ds[n].ip, y, z.value);
    }
  }

  lemma AddRecord(ds: seq<Device>, n: nat, labels: Labels, domain: Name, zones: seq<seq<U8>>,
                  was: map<Name, seq<Record>>, z: Option<seq<U8>>, now: map<Name, seq<Record>>)
    requires n < |ds| && forall i | 0 <= i < |ds| :: ds[i].ip in labels
    requires z.Some? ==> MostSpecific(zones, ds[n].ip, z.value)
    requires z.None? ==> forall y | y in zones :: !Contains(y, ds[n].ip)
    requires forall zone :: Records(was, zone) == PtrsIn(ds[..n], labels, domain, zones, zone)
    requires now == if z.None? then was
                    else was[ZoneName(z.value) := Records(was, ZoneName(z.value)) + [PtrOf(ds[n], labels, domain)]]
    ensures forall zone :: Records(now, zone) == PtrsIn(ds[..n + 1], labels, domain, zones, zone)
    ensures Reached(ds[..n + 1], zones) == Reached(ds[..n], zones) + if z.Some? then 1 else 0
  {
    hide ZoneName, PtrOf, Contains, PtrsIn, Reached;
    PtrsOne(ds, n, labels, domain, zones, z, []);
    forall zone ensures Records(now, zone) == PtrsIn(ds[..n + 1], labels, domain, zones, zone) {
      PtrsOne(ds, n, labels, domain, zones, z, zone);
    }
  }

  ghost predicate NoRepeats(rs: seq<Record>) { forall i, j | 0 <= i < j < |rs| :: rs[i] != rs[j] }

  /** Devices with distinct addresses have distinct pointers, so no zone lists one twice. */
  lemma {:induction false} PtrsDistinct(ds: seq<Device>, labels: Labels, domain: Name, zones: seq<seq<U8>>, zone: Name)
    requires DistinctIps(ds) && forall i | 0 <= i < |ds| :: ds[i].ip in labels
    ensures NoRepeats(PtrsIn(ds, labels, domain, zones, zone))
  {
    hide MgmtName;
    if ds != [] {
      var (front, d) := (ds[..|ds| - 1], ds[|ds| - 1]);
      PtrsDistinct(front, labels, domain, zones, zone);
      var (was, rs) := (PtrsIn(front, labels, domain, zones, zone), PtrsIn(ds, labels, domain, zones, zone));
      forall i, j | 0 <= i < j < |rs| ensures rs[i] != rs[j] {
        assert rs[i] == was[i];
        if j < |was| {
          assert rs[j] == was[j] && was[i] != was[j];
        } else {
          assert rs[j] == PtrOf(d, labels, domain);
          NewPtr(ds, labels, domain, zones, zone, was[i]);
        }
      }
    }
  }

  /** The last device's pointer is not among those of the devices before it. */
  lemma NewPtr(ds: seq<Device>, labels: Labels, domain: Name, zones: seq<seq<U8>>, zone: Name, r: Record)
    requires ds != [] && DistinctIps(ds) && forall i | 0 <= i < |ds| :: ds[i].ip in labels
    requires r in PtrsIn(ds[..|ds| - 1], labels, domain, zones, zone)
    ensures r != PtrOf(ds[|ds| - 1], labels, domain)
  {
    hide MgmtName;
    var (front, d) := (ds[..|ds| - 1], ds[|ds| - 1]);
    PtrsOf(front, labels, domain, zones, zone, r);
    var i :| 0 <= i < |front| && r == PtrOf(front[i], labels, domain);
    assert front[i].ip != d.ip;
    if r.name == PtrName(d.ip) { ZoneNameInjective(Octets(front[i].ip), Octets(d.ip)); }
  }

  lemma {:induction false} PtrsOf(ds: seq<Device>, labels: Labels, domain: Name, zones: seq<seq<U8>>, zone: Name,
                                  r: Record)
    requires (forall i | 0 <= i < |ds| :: ds[i].ip in labels) && r in PtrsIn(ds, labels, domain, zones, zone)
    ensures exists i :: 0 <= i < |ds| && r == PtrOf(ds[i], labels, domain)
  {
    hide PtrOf;
    var (front, d) := (ds[..|ds| - 1], ds[|ds| - 1]);
    if r in PtrsIn(front, labels, domain, zones, zone) {
      PtrsOf(front, labels, domain, zones, zone, r);
      var i :| 0 <= i < |front| && r == PtrOf(front[i], labels, domain);
      assert r == PtrOf(ds[i], labels, domain);
    } else {
      assert r == PtrOf(ds[|ds| - 1], labels, domain);
    }
  }

  lemma {:induction false} ForwardHolds(ds: seq<Device>, labels: Labels, domain: Name, r: Record)
    requires forall i | 0 <= i < |ds| :: ds[i].ip in labels
    ensures r in Forward(ds, labels, domain) <==>
            exists i :: 0 <= i < |ds| &&
              (r == A(DeviceName(domain, labels[ds[i].ip]), ds[i].ip)
                || r == A(MgmtName(domain, labels[ds[i].ip]), ds[i].ip))
  {
    hide DeviceName, MgmtName;
    if ds != [] {
      var (front, d) := (ds[..|ds| - 1], ds[|ds| - 1]);
      ForwardHolds(front, labels, domain, r);
      assert forall i | 0 <= i < |front| :: front[i] == ds[i];
      var two := [A(DeviceName(domain, labels[d.ip]), d.ip), A(MgmtName(domain, labels[d.ip]), d.ip)];
      assert r in Forward(ds, labels, domain) <==> r in Forward(front, labels, domain) || r == two[0] || r == two[1];
    }
  }

  lemma NamesApart(domain: Name, x: string, y: string)
    ensures DeviceName(domain, x) == DeviceName(domain, y) ==> x == y
    ensures MgmtName(domain, x) == MgmtName(domain, y) ==> x == y
    ensures DeviceName(domain, x) != MgmtName(domain, y)
  {
    assert DeviceName(domain, x)[0] == x && DeviceName(domain, y)[0] == y;
    assert MgmtName(domain, x)[2] == x && MgmtName(domain, y)[2] == y;
  }

  /** Both names of a device resolve to its own address and to no other. */
  lemma ForwardResolves(ds: seq<Device>, labels: Labels, domain: Name, i: nat)
    requires Assigned(ds, labels) && i < |ds|
    requires forall j | 0 <= j < |ds| :: ds[j].ip in labels
    ensures var (f, ip) := (Forward(ds, labels, domain), ds[i].ip);
            Resolve(f, DeviceName(domain, labels[ip])) == {ip} && Resolve(f, MgmtName(domain, labels[ip])) == {ip}
  {
    var (f, ip) := (Forward(ds, labels, domain), ds[i].ip);
    var (dev, mgmt) := (A(DeviceName(domain, labels[ip]), ip), A(MgmtName(domain, labels[ip]), ip));
    hide DeviceName, MgmtName, Forward, ValidLabel;
    ForwardHolds(ds, labels, domain, dev);
    ForwardHolds(ds, labels, domain, mgmt);
    assert dev in f && mgmt in f;
    forall r | r in f && (r.name == dev.name || r.name == mgmt.name) ensures r.A? && r.ip == ip {
      ForwardHolds(ds, labels, domain, r);
      var j :| 0 <= j < |ds| &&
        (r == A(DeviceName(domain, labels[ds[j].ip]), ds[j].ip)
          || r == A(MgmtName(domain, labels[ds[j].ip]), ds[j].ip));
      NamesApart(domain, labels[ip], labels[ds[j].ip]);
      NamesApart(domain, labels[ds[j].ip], labels[ip]);
    }
  }

  predicate IpLess(x: Device, y: Device) { Number(x.ip) < Number(y.ip) }

  /** Numeric address order; no two devices share an address. */
  method SortDevices(devices: seq<Device>) returns (ds: seq<Device>)
    requires DistinctIps(devices)
    ensures Sorting.Ascending(IpLess, ds) && multiset(ds) == multiset(devices) && DistinctIps(ds)
  {
    forall i, j | 0 <= i < j < |devices| ensures IpLess(devices[i], devices[j]) || IpLess(devices[j], devices[i]) {
      if Number(devices[i].ip) == Number(devices[j].ip) { NumberInjective(devices[i].ip, devices[j].ip); }
    }
    ds := Sorting.SortBy(IpLess, devices);
    forall i, j | 0 <= i < j < |ds| ensures ds[i].ip != ds[j].ip { assert IpLess(ds[i], ds[j]); }
  }

  method ParseZones(names: seq<Name>) returns (zones: seq<seq<U8>>)
    ensures forall z: seq<U8> :: z in zones <==> 1 <= |z| <= 4 && ZoneName(z) in names
  {
    hide ZoneName;
    zones := [];
    for i := 0 to |names|
      invariant forall z: seq<U8> :: z in zones <==> 1 <= |z| <= 4 && ZoneName(z) in names[..i]
    {
      assert forall x :: x in names[..i + 1] <==> x in names[..i] || x == names[i];
      var z := ParseReverseZone(names[i]);
      if z.Some? {
        forall y: seq<U8> | 1 <= |y| <= 4 && ZoneName(y) == names[i] ensures y == z.value {
          ZoneNameInjective(y, z.value);
        }
        ghost var was := zones;
        zones := zones + [z.value];
        assert forall y :: y in zones <==> y in was || y == z.value;
      }
    }
    assert names[..|names|] == names;
  }

  lemma ZoneNameInjective(y: seq<U8>, z: seq<U8>)
    requires 1 <= |y| <= 4 && 1 <= |z| <= 4 && ZoneName(y) == ZoneName(z)
    ensures y == z
  {
    ZoneNameShape(y);
    ZoneNameShape(z);
    forall i | 0 <= i < |y| ensures y[i] == z[i] {
      BackwardsAt(y, |y| - 1 - i);
      BackwardsAt(z, |y| - 1 - i);
      ItoaInjective(y[i], z[i]);
    }
  }

  /**
   The whole view. Labels are valid and owned by one device each; both names of a device resolve to its address alone;
   a device in reach of a configured zone has its pointer in the most specific one, once, and only there.
   */
  method BuildZoneView(devices: seq<Device>, domain: Name, zoneNames: seq<Name>, lower: char -> char)
    returns (view: ZoneView, labels: Labels, ds: seq<Device>, zones: seq<seq<U8>>)
    requires DistinctIps(devices)
    ensures Sorting.Ascending(IpLess, ds) && multiset(ds) == multiset(devices)
    ensures forall z: seq<U8> :: z in zones <==> 1 <= |z| <= 4 && ZoneName(z) in zoneNames
    ensures Assigned(ds, labels) && Labelled(ds, labels, |ds|)
    ensures forall n | 0 <= n < |ds| :: Chosen(ds, labels, lower, n)
    ensures view.renamed == Renamed(ds, labels, lower, |ds|)
    ensures ReverseOk(ds, labels, domain, zones, view.reverse)
    ensures forall zone :: Records(view.reverse, zone) == PtrsIn(ds, labels, domain, zones, zone)
    ensures view.forward == Forward(ds, labels, domain)
    ensures view.published == |devices| == view.ptrs + view.omitted && view.ptrs == Reached(ds, zones)
  {
    hide Assigned, Chosen, Renamed, ReverseOk, PtrsIn, Forward, Reached, ZoneName;
    zones := ParseZones(zoneNames);
    ds := SortDevices(devices);
    assert |ds| == |multiset(ds)| == |devices|;
    var renamed;
    labels, renamed := AssignLabels(ds, lower);
    view := EmitRecords(ds, labels, domain, zones, renamed);
  }

  /** The reverse records of the first `n` devices. */
  ghost predicate Emitted(ds: seq<Device>, n: nat, labels: Labels, domain: Name, zones: seq<seq<U8>>,
                          reverse: map<Name, seq<Record>>, ptrs: int)
    requires n <= |ds| && forall i | 0 <= i < |ds| :: ds[i].ip in labels
  {
    && ReverseOk(ds[..n], labels, domain, zones, reverse)
    && (forall zone :: Records(reverse, zone) == PtrsIn(ds[..n], labels, domain, zones, zone))
    && ptrs == Reached(ds[..n], zones)
  }

  lemma NothingEmitted(ds: seq<Device>, labels: Labels, domain: Name, zones: seq<seq<U8>>)
    requires forall i | 0 <= i < |ds| :: ds[i].ip in labels
    ensures Emitted(ds, 0, labels, domain, zones, map[], 0) && Forward(ds[..0], labels, domain) == []
  {
    assert ds[..0] == [];
  }

  lemma AllEmitted(ds: seq<Device>, labels: Labels, domain: Name, zones: seq<seq<U8>>,
                   reverse: map<Name, seq<Record>>, ptrs: int)
    requires forall i | 0 <= i < |ds| :: ds[i].ip in labels
    requires Emitted(ds, |ds|, labels, domain, zones, reverse, ptrs)
    ensures ReverseOk(ds, labels, domain, zones, reverse) && ptrs == Reached(ds, zones)
    ensures forall zone :: Records(reverse, zone) == PtrsIn(ds, labels, domain, zones, zone)
  {
    assert ds[..|ds|] == ds;
  }

  lemma ForwardOne(ds: seq<Device>, n: nat, labels: Labels, domain: Name)
    requires n < |ds| && forall i | 0 <= i < |ds| :: ds[i].ip in labels
    ensures var ip := ds[n].ip;
            Forward(ds[..n + 1], labels, domain) == Forward(ds[..n], labels, domain)
              + [A(DeviceName(domain, labels[ip]), ip), A(MgmtName(domain, labels[ip]), ip)]
  {
    assert ds[..n + 1][..n] == ds[..n];
  }

  lemma EmitOne(ds: seq<Device>, n: nat, labels: Labels, domain: Name, zones: seq<seq<U8>>,
                was: map<Name, seq<Record>>, z: Option<seq<U8>>, now: map<Name, seq<Record>>, ptrs: int)
    requires n < |ds| && (forall i | 0 <= i < |ds| :: ds[i].ip in labels)
    requires Emitted(ds, n, labels, domain, zones, was, ptrs)
    requires z.Some? ==> MostSpecific(zones, ds[n].ip, z.value)
    requires z.None? ==> forall y | y in zones :: !Contains(y, ds[n].ip)
    requires now == if z.None? then was
                    else was[ZoneName(z.value) := Records(was, ZoneName(z.value)) + [PtrOf(ds[n], labels, domain)]]
    ensures Emitted(ds, n + 1, labels, domain, zones, now, if z.Some? then ptrs + 1 else ptrs)
  {
    hide ReverseOk, ZoneName, PtrOf, PtrsIn, Reached, MostSpecific, Contains;
    AddPtr(ds, n, labels, domain, zones, was, z, now);
    AddRecord(ds, n, labels, domain, zones, was, z, now);
  }

  method EmitRecords(ds: seq<Device>, labels: Labels, domain: Name, zones: seq<seq<U8>>, renamed: nat)
    returns (view: ZoneView)
    requires forall i | 0 <= i < |ds| :: ds[i].ip in labels
    ensures ReverseOk(ds, labels, domain, zones, view.reverse)
    ensures forall zone :: Records(view.reverse, zone) == PtrsIn(ds, labels, domain, zones, zone)
    ensures view.forward == Forward(ds, labels, domain) && view.renamed == renamed
    ensures view.published == |ds| == view.ptrs + view.omitted && view.ptrs == Reached(ds, zones)
  {
    hide Emitted, Forward, ZoneName, PtrName, DeviceName, MgmtName, MostSpecific;
    var forward, reverse, ptrs, omitted: nat := [], map[], 0, 0;
    NothingEmitted(ds, labels, domain, zones);
    for n := 0 to |ds|
      invariant forward == Forward(ds[..n], labels, domain)
      invariant Emitted(ds, n, labels, domain, zones, reverse, ptrs)
      invariant ptrs + omitted == n
    {
      var d := ds[n];
      ForwardOne(ds, n, labels, domain);
      forward := forward + [A(DeviceName(domain, labels[d.ip]), d.ip), A(MgmtName(domain, labels[d.ip]), d.ip)];
      var z := ReverseZoneFor(d.ip, zones);
      ghost var was := reverse;
      if z.None? {
        omitted := omitted + 1;
      } else {
        var origin := ZoneName(z.value);
        reverse := reverse[origin := (if origin in reverse then reverse[origin] else []) +
                             [Ptr(PtrName(d.ip), MgmtName(domain, labels[d.ip]))]];
        ptrs := ptrs + 1;
      }
      EmitOne(ds, n, labels, domain, zones, was, z, reverse, if z.Some? then ptrs - 1 else ptrs);
    }
    assert ds[..|ds|] == ds;
    AllEmitted(ds, labels, domain, zones, reverse, ptrs);
    return ZoneView(forward, reverse, |ds|, ptrs, omitted, renamed);
  }

  /**
   Every pointer lies under its zone, that zone is the most specific for the address, and the pointer's target resolves
   back to the address alone.
   */
  lemma PtrRoundTrip(ds: seq<Device>, labels: Labels, domain: Name, zones: seq<seq<U8>>,
                     reverse: map<Name, seq<Record>>, zone: Name, r: Record)
    requires Assigned(ds, labels) && ReverseOk(ds, labels, domain, zones, reverse) && Listed(reverse, zone, r)
    ensures exists ip, z ::
              && r.Ptr? && r.name == PtrName(ip) && zone == ZoneName(z) && MostSpecific(zones, ip, z)
              && Under(zone, r.name)
              && Resolve(Forward(ds, labels, domain), r.target) == {ip}
  {
    hide MgmtName, Forward, Resolve, Under, Assigned, ZoneName;
    var i, z :| 0 <= i < |ds| && MostSpecific(zones, ds[i].ip, z) && zone == ZoneName(z)
      && r == PtrOf(ds[i], labels, domain);
    PtrUnderZone(z, ds[i].ip);
    ForwardResolves(ds, labels, domain, i);
    assert MostSpecific(zones, ds[i].ip, z) && r.name == PtrName(ds[i].ip);
  }
}
