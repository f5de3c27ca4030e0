/**
 The counter hold ledger: what a poll of one interface counter is served.

 A slot's octet delta is its own dial (standalone), the sum of its members' served deltas
 (aggregate) or a share of its parent's served delta (child). The ledger then freezes the
 delta while the interface is not up. One ledger write changes what other slots read, so the
 facts below are stated for every slot, not only for the slot written.
 */
module HoldLedger {
  import opened Common

  datatype Direction = Inbound | Outbound

  /** One immutable ledger entry. `downAt` is meaningful only while `down`. */
  datatype Hold = Hold(down: bool, downAt: real, upAt: real, skippedIn: nat, skippedOut: nat) {
    function Skipped(d: Direction): nat {
      if d.Inbound? then skippedIn else skippedOut
    }

    /** The instant the dial is read at: capped at the open interval's start, then raised to the last close. */
    function Clamp(t: real): real {
      var capped := if down && t > downAt then downAt else t;
      if capped < upAt then upAt else capped
    }
  }

  type Ledger = seq<Option<Hold>>

  /** The counter hierarchy and the dials. Slots are 0-based; `counterParent` and `members` name 1-based ifIndexes. */
  datatype Rollup = Rollup(
    counterParent: seq<nat>,
    share: seq<real>,
    members: seq<seq<nat>>,
    dial: (nat, real, Direction) -> nat)
  {
    function Slots(): nat { |counterParent| }

    /** The depth a read can still recurse to. */
    function Rank(s: nat): nat
      requires s < |counterParent| == |members|
    {
      if members[s] != [] then 1 else if counterParent[s] != 0 then 2 else 0
    }

    ghost predicate Standalone(s: nat)
      requires s < |counterParent| == |members|
    {
      members[s] == [] && counterParent[s] == 0
    }

    /** Members are standalone; a child's parent is standalone or an aggregate. */
    ghost predicate Ranked() {
      && |share| == |members| == |counterParent|
      && (forall s | 0 <= s < |members| && members[s] != [] :: counterParent[s] == 0)
      && (forall s, k | 0 <= s < |members| && 0 <= k < |members[s]| ::
            1 <= members[s][k] <= |members| && Standalone(members[s][k] - 1))
      && (forall s | 0 <= s < |counterParent| && counterParent[s] != 0 ::
            counterParent[s] <= |counterParent| && counterParent[counterParent[s] - 1] == 0 && share[s] >= 0.0)
    }

    /** The octet dial never turns back. */
    ghost predicate DialsRise() {
      forall s, t1, t2, d {:trigger dial(s, t1, d), dial(s, t2, d)} :: t1 <= t2 ==> dial(s, t1, d) <= dial(s, t2, d)
    }

    ghost predicate Valid() { Ranked() && DialsRise() }
  }

  /** A share of a served delta, truncated to whole octets. */
  function Scale(v: nat, share: real): nat
    requires share >= 0.0
  {
    (v as real * share).Floor
  }

  function Raw(c: Rollup, ledger: Ledger, s: nat, t: real, d: Direction): nat
    requires c.Ranked() && |ledger| == c.Slots() && s < c.Slots()
    decreases c.Rank(s), 1, 0
  {
    if c.members[s] != [] then
      SumServed(c, ledger, s, 0, t, d)
    else if c.counterParent[s] != 0 then
      Scale(Served(c, ledger, c.counterParent[s] - 1, t, d), c.share[s])
    else
      c.dial(s, t, d)
  }

  /** The members of aggregate `s` from position `k` on, summed as served. */
  function SumServed(c: Rollup, ledger: Ledger, s: nat, k: nat, t: real, d: Direction): nat
    requires c.Ranked() && |ledger| == c.Slots() && s < c.Slots() && k <= |c.members[s]|
    requires c.members[s] != []
    decreases 1, 0, |c.members[s]| - k
  {
    if k == |c.members[s]| then 0
    else Served(c, ledger, c.members[s][k] - 1, t, d) + SumServed(c, ledger, s, k + 1, t, d)
  }

  /** What the hold makes of a raw reading: the underflow guard serves 0 rather than wrapping. */
  function Less(raw: nat, skipped: nat): nat {
    if raw < skipped then 0 else raw - skipped
  }

  function HeldDelta(c: Rollup, ledger: Ledger, h: Option<Hold>, s: nat, t: real, d: Direction): nat
    requires c.Ranked() && |ledger| == c.Slots() && s < c.Slots()
    decreases c.Rank(s), 2, 0
  {
    match h
    case None => Raw(c, ledger, s, t, d)
    case Some(e) => Less(Raw(c, ledger, s, e.Clamp(t), d), e.Skipped(d))
  }

  function Served(c: Rollup, ledger: Ledger, s: nat, t: real, d: Direction): nat
    requires c.Ranked() && |ledger| == c.Slots() && s < c.Slots()
    decreases c.Rank(s), 3, 0
  {
    HeldDelta(c, ledger, ledger[s], s, t, d)
  }

  // ---------------------------------------------------------------------------------------------
  // A ledger, read at a later instant, never serves less.

  lemma ScaleMono(v: nat, w: nat, share: real)
    requires v <= w && share >= 0.0
    ensures Scale(v, share) <= Scale(w, share)
  {
    assert v as real * share <= w as real * share;
  }

  lemma {:induction false} RawMono(c: Rollup, ledger: Ledger, s: nat, t1: real, t2: real, d: Direction)
    requires c.Valid() && |ledger| == c.Slots() && s < c.Slots() && t1 <= t2
    ensures Raw(c, ledger, s, t1, d) <= Raw(c, ledger, s, t2, d)
    decreases c.Rank(s), 1, 0
  {
    if c.members[s] != [] {
      SumMono(c, ledger, s, 0, t1, t2, d);
    } else if c.counterParent[s] != 0 {
      var p := c.counterParent[s] - 1;
      ServedMono(c, ledger, p, t1, t2, d);
      ScaleMono(Served(c, ledger, p, t1, d), Served(c, ledger, p, t2, d), c.share[s]);
    }
  }

  lemma {:induction false} SumMono(c: Rollup, ledger: Ledger, s: nat, k: nat, t1: real, t2: real, d: Direction)
    requires c.Valid() && |ledger| == c.Slots() && s < c.Slots() && k <= |c.members[s]| && t1 <= t2
    requires c.members[s] != []
    ensures SumServed(c, ledger, s, k, t1, d) <= SumServed(c, ledger, s, k, t2, d)
    decreases 1, 0, |c.members[s]| - k
  {
    if k < |c.members[s]| {
      ServedMono(c, ledger, c.members[s][k] - 1, t1, t2, d);
      SumMono(c, ledger, s, k + 1, t1, t2, d);
    }
  }

  lemma {:induction false} ServedMono(c: Rollup, ledger: Ledger, s: nat, t1: real, t2: real, d: Direction)
    requires c.Valid() && |ledger| == c.Slots() && s < c.Slots() && t1 <= t2
    ensures Served(c, ledger, s, t1, d) <= Served(c, ledger, s, t2, d)
    decreases c.Rank(s), 3, 0
  {
    match ledger[s]
    case None => RawMono(c, ledger, s, t1, t2, d);
    case Some(e) => RawMono(c, ledger, s, e.Clamp(t1), e.Clamp(t2), d);
  }

  // ---------------------------------------------------------------------------------------------
  // A read depends only on the entries of the slots it composes.

  function Deps(c: Rollup, s: nat): set<nat>
    requires c.Ranked() && s < c.Slots()
    decreases c.Rank(s)
  {
    if c.members[s] != [] then
      {s} + set k | 0 <= k < |c.members[s]| :: c.members[s][k] - 1
    else if c.counterParent[s] != 0 then
      {s} + Deps(c, c.counterParent[s] - 1)
    else
      {s}
  }

  ghost predicate Agree(a: Ledger, b: Ledger, on: set<nat>) {
    |a| == |b| && forall s | s in on && s < |a| :: a[s] == b[s]
  }

  lemma {:induction false} RawOfDeps(c: Rollup, a: Ledger, b: Ledger, s: nat, t: real, d: Direction)
    requires c.Ranked() && |a| == |b| == c.Slots() && s < c.Slots()
    requires Agree(a, b, Deps(c, s) - {s})
    ensures Raw(c, a, s, t, d) == Raw(c, b, s, t, d)
    decreases c.Rank(s), 1, 0
  {
    if c.members[s] != [] {
      SumOfDeps(c, a, b, s, 0, t, d);
    } else if c.counterParent[s] != 0 {
      ServedOfDeps(c, a, b, c.counterParent[s] - 1, t, d);
    }
  }

  lemma {:induction false} SumOfDeps(c: Rollup, a: Ledger, b: Ledger, s: nat, k: nat, t: real, d: Direction)
    requires c.Ranked() && |a| == |b| == c.Slots() && s < c.Slots() && k <= |c.members[s]|
    requires c.members[s] != [] && Agree(a, b, Deps(c, s) - {s})
    ensures SumServed(c, a, s, k, t, d) == SumServed(c, b, s, k, t, d)
    decreases 1, 0, |c.members[s]| - k
  {
    if k < |c.members[s]| {
      ServedOfDeps(c, a, b, c.members[s][k] - 1, t, d);
      SumOfDeps(c, a, b, s, k + 1, t, d);
    }
  }

  lemma {:induction false} ServedOfDeps(c: Rollup, a: Ledger, b: Ledger, s: nat, t: real, d: Direction)
    requires c.Ranked() && |a| == |b| == c.Slots() && s < c.Slots()
    requires Agree(a, b, Deps(c, s))
    ensures Served(c, a, s, t, d) == Served(c, b, s, t, d)
    decreases c.Rank(s), 3, 0
  {
    assert s in Deps(c, s);
    match a[s]
    case None => RawOfDeps(c, a, b, s, t, d);
    case Some(e) => RawOfDeps(c, a, b, s, e.Clamp(t), d);
  }

  // ---------------------------------------------------------------------------------------------
  // The writer.

  function Later(a: real, b: real): real { if a < b then b else a }

  /** Bring the ledger for `w` into agreement with the derived oper-status `up` at instant `now`. */
  function Reconcile(c: Rollup, ledger: Ledger, w: nat, up: bool, now: real): (r: Ledger)
    requires c.Valid() && |ledger| == c.Slots() && w < c.Slots()
    ensures |r| == |ledger| && forall s | 0 <= s < |ledger| && s != w :: r[s] == ledger[s]
  {
    match ledger[w]
    case None =>
      if up then ledger else ledger[w := Some(Hold(true, now, 0.0, 0, 0))]
    case Some(h) =>
      if up && h.down then
        var t := Later(now, h.downAt);
        RawMono(c, ledger, w, h.downAt, t, Inbound);
        RawMono(c, ledger, w, h.downAt, t, Outbound);
        ledger[w := Some(Hold(false, 0.0, t,
                              h.skippedIn + (Raw(c, ledger, w, t, Inbound) - Raw(c, ledger, w, h.downAt, Inbound)),
                              h.skippedOut + (Raw(c, ledger, w, t, Outbound) - Raw(c, ledger, w, h.downAt, Outbound))))]
      else if !up && !h.down then
        ledger[w := Some(Hold(true, now, h.upAt, h.skippedIn, h.skippedOut))]
      else
        ledger
  }

  /**
   No entry lies in the future, intervals are ordered, and no skipped total exceeds what the slot can subtract it from.
   */
  ghost predicate EntryOk(c: Rollup, ledger: Ledger, s: nat, now: real)
    requires c.Ranked() && |ledger| == c.Slots() && s < c.Slots()
  {
    match ledger[s]
    case None => true
    case Some(h) =>
      && h.upAt <= now
      && (h.down ==> h.upAt <= h.downAt <= now)
      && Raw(c, ledger, s, h.upAt, Inbound) >= h.skippedIn
      && Raw(c, ledger, s, h.upAt, Outbound) >= h.skippedOut
  }

  ghost predicate LedgerOk(c: Rollup, ledger: Ledger, now: real) {
    && c.Valid() && |ledger| == c.Slots() && 0.0 <= now
    && forall s | 0 <= s < |ledger| :: EntryOk(c, ledger, s, now)
  }

  /** In a ledger that is Ok the underflow guard is dead code: for every slot, instant and direction. */
  lemma GuardNeverTaken(c: Rollup, ledger: Ledger, now: real, s: nat, t: real, d: Direction)
    requires LedgerOk(c, ledger, now) && s < c.Slots() && ledger[s].Some?
    ensures Raw(c, ledger, s, ledger[s].value.Clamp(t), d) >= ledger[s].value.Skipped(d)
  {
    var h := ledger[s].value;
    assert EntryOk(c, ledger, s, now);
    RawMono(c, ledger, s, h.upAt, h.Clamp(t), d);
  }

  /** `n` is that share of `v`, less the fraction of an octet it has beyond a whole number. */
  ghost predicate WholeShare(n: nat, share: real, v: nat) { n as real <= share * v as real < n as real + 1.0 }

  lemma ScaleIsWhole(v: nat, share: real)
    requires share >= 0.0
    ensures WholeShare(Scale(v, share), share, v)
  {
    var x := v as real * share;
    assert x.Floor as real <= x < x.Floor as real + 1.0;
  }

  lemma ChildRawIsWhole(c: Rollup, ledger: Ledger, s: nat, t: real, d: Direction)
    requires c.Ranked() && |ledger| == c.Slots() && s < c.Slots() && c.counterParent[s] != 0
    ensures WholeShare(Raw(c, ledger, s, t, d), c.share[s], Served(c, ledger, c.counterParent[s] - 1, t, d))
  {
    hide Scale, WholeShare;
    assert c.members[s] == [];
    ScaleIsWhole(Served(c, ledger, c.counterParent[s] - 1, t, d), c.share[s]);
  }

  /** A child that was never held serves its share of what its parent serves, less than one octet short of it. */
  lemma ChildServesShare(c: Rollup, ledger: Ledger, s: nat, t: real, d: Direction)
    requires c.Ranked() && |ledger| == c.Slots() && s < c.Slots() && c.counterParent[s] != 0 && ledger[s].None?
    ensures var (child, parent) := (Served(c, ledger, s, t, d), Served(c, ledger, c.counterParent[s] - 1, t, d));
            child as real <= c.share[s] * parent as real < child as real + 1.0
  {
    hide Raw;
    ChildRawIsWhole(c, ledger, s, t, d);
  }

  /**
   A child with a ledger entry serves the same share less what its holds skipped, of the parent's delta at the instant
   its own count last ran: the fall while it is held, otherwise the poll itself.
   */
  lemma HeldChildServesShare(c: Rollup, ledger: Ledger, now: real, s: nat, t: real, d: Direction)
    requires LedgerOk(c, ledger, now) && s < c.Slots() && c.counterParent[s] != 0 && ledger[s].Some?
    requires t >= ledger[s].value.upAt
    ensures var (h, p) := (ledger[s].value, c.counterParent[s] - 1);
            var at := if h.down && h.downAt < t then h.downAt else t;
            WholeShare(Served(c, ledger, s, t, d) + (if d == Inbound then h.skippedIn else h.skippedOut),
                       c.share[s], Served(c, ledger, p, at, d))
  {
    hide Raw, WholeShare;
    assert EntryOk(c, ledger, s, now);
    GuardNeverTaken(c, ledger, now, s, t, d);
    ChildRawIsWhole(c, ledger, s, ledger[s].value.Clamp(t), d);
  }

  /**
   So while a child is up it grows by the difference of two such whole parts, within one octet of its share of its
   parent's growth.
   */
  lemma ChildGrowthIsShare(c: Rollup, ledger: Ledger, now: real, s: nat, t1: real, t2: real, d: Direction)
    requires LedgerOk(c, ledger, now) && s < c.Slots() && c.counterParent[s] != 0 && t1 <= t2
    requires ledger[s].Some? ==> ledger[s].value.upAt <= t1 && (ledger[s].value.down ==> t2 <= ledger[s].value.downAt)
    ensures var (p, share) := (c.counterParent[s] - 1, c.share[s]);
            var (from, to) := (Served(c, ledger, p, t1, d), Served(c, ledger, p, t2, d));
            var growth := Served(c, ledger, s, t2, d) - Served(c, ledger, s, t1, d);
            && (exists a: nat, b: nat :: WholeShare(a, share, from) && WholeShare(b, share, to) && growth == b - a)
            && share * to as real - share * from as real - 1.0 < growth as real
            && growth as real < share * to as real - share * from as real + 1.0
  {
    hide Served;
    var p := c.counterParent[s] - 1;
    var (from, to) := (Served(c, ledger, p, t1, d), Served(c, ledger, p, t2, d));
    var (a, b) := (Served(c, ledger, s, t1, d), Served(c, ledger, s, t2, d));
    if ledger[s].None? {
      ChildServesShare(c, ledger, s, t1, d);
      ChildServesShare(c, ledger, s, t2, d);
      assert WholeShare(a, c.share[s], from) && WholeShare(b, c.share[s], to);
    } else {
      var h := ledger[s].value;
      var skipped := if d == Inbound then h.skippedIn else h.skippedOut;
      HeldChildServesShare(c, ledger, now, s, t1, d);
      HeldChildServesShare(c, ledger, now, s, t2, d);
      assert WholeShare(a + skipped, c.share[s], from) && WholeShare(b + skipped, c.share[s], to);
    }
  }

  /** A write leaves the raw reading of its own slot alone: a slot never composes itself. */
  lemma OwnRawUnmoved(c: Rollup, ledger: Ledger, w: nat, up: bool, now: real, t: real, d: Direction)
    requires c.Valid() && |ledger| == c.Slots() && w < c.Slots()
    ensures Raw(c, Reconcile(c, ledger, w, up, now), w, t, d) == Raw(c, ledger, w, t, d)
  {
    RawOfDeps(c, ledger, Reconcile(c, ledger, w, up, now), w, t, d);
  }

  /** The slot written at `now` serves no less, at every instant up to `now`. */
  lemma OwnServedRaised(c: Rollup, ledger: Ledger, w: nat, up: bool, now: real, t: real, d: Direction)
    requires LedgerOk(c, ledger, now) && w < c.Slots() && t <= now
    ensures Served(c, Reconcile(c, ledger, w, up, now), w, t, d) >= Served(c, ledger, w, t, d)
  {
    var after := Reconcile(c, ledger, w, up, now);
    assert EntryOk(c, ledger, w, now);
    if after[w] == ledger[w] {
      assert after == ledger;
    } else {
      var h := after[w].value;
      OwnRawUnmoved(c, ledger, w, up, now, h.Clamp(t), d);
      match ledger[w]
      case None => RawMono(c, ledger, w, t, h.Clamp(t), d);
      case Some(g) =>
        if g.down {
          RawMono(c, ledger, w, g.Clamp(t), g.downAt, d);
          RawMono(c, ledger, w, g.upAt, g.downAt, d);
        }
    }
  }

  lemma {:induction false} RawRaised(c: Rollup, ledger: Ledger, w: nat, up: bool, now: real, s: nat, t: real,
                                     d: Direction)
    requires LedgerOk(c, ledger, now) && w < c.Slots() && s < c.Slots() && t <= now
    ensures Raw(c, Reconcile(c, ledger, w, up, now), s, t, d) >= Raw(c, ledger, s, t, d)
    decreases c.Rank(s), 1, 0
  {
    var after := Reconcile(c, ledger, w, up, now);
    if c.members[s] != [] {
      SumRaised(c, ledger, w, up, now, s, 0, t, d);
    } else if c.counterParent[s] != 0 {
      var p := c.counterParent[s] - 1;
      ServedRaised(c, ledger, w, up, now, p, t, d);
      ScaleMono(Served(c, ledger, p, t, d), Served(c, after, p, t, d), c.share[s]);
    }
  }

  lemma {:induction false} SumRaised(c: Rollup, ledger: Ledger, w: nat, up: bool, now: real, s: nat, k: nat, t: real,
                                     d: Direction)
    requires LedgerOk(c, ledger, now) && w < c.Slots() && s < c.Slots() && t <= now
    requires c.members[s] != [] && k <= |c.members[s]|
    ensures SumServed(c, Reconcile(c, ledger, w, up, now), s, k, t, d) >= SumServed(c, ledger, s, k, t, d)
    decreases 1, 0, |c.members[s]| - k
  {
    if k < |c.members[s]| {
      ServedRaised(c, ledger, w, up, now, c.members[s][k] - 1, t, d);
      SumRaised(c, ledger, w, up, now, s, k + 1, t, d);
    }
  }

  /** A write at `now`, to any slot, never lowers what any slot serves at any instant up to `now`. */
  lemma {:induction false} ServedRaised(c: Rollup, ledger: Ledger, w: nat, up: bool, now: real, s: nat, t: real,
                                        d: Direction)
    requires LedgerOk(c, ledger, now) && w < c.Slots() && s < c.Slots() && t <= now
    ensures Served(c, Reconcile(c, ledger, w, up, now), s, t, d) >= Served(c, ledger, s, t, d)
    decreases c.Rank(s), 3, 0
  {
    if s == w {
      OwnServedRaised(c, ledger, w, up, now, t, d);
    } else {
      assert EntryOk(c, ledger, s, now);
      match ledger[s]
      case None => RawRaised(c, ledger, w, up, now, s, t, d);
      case Some(h) => RawRaised(c, ledger, w, up, now, s, h.Clamp(t), d);
    }
  }

  lemma WrittenEntryOk(c: Rollup, ledger: Ledger, w: nat, up: bool, now: real)
    requires LedgerOk(c, ledger, now) && w < c.Slots()
    ensures EntryOk(c, Reconcile(c, ledger, w, up, now), w, now)
  {
    var after := Reconcile(c, ledger, w, up, now);
    assert EntryOk(c, ledger, w, now);
    if after[w] == ledger[w] {
      assert after == ledger;
    } else {
      var h := after[w].value;
      OwnRawUnmoved(c, ledger, w, up, now, h.upAt, Inbound);
      OwnRawUnmoved(c, ledger, w, up, now, h.upAt, Outbound);
      if ledger[w].Some? && ledger[w].value.down {
        var g := ledger[w].value;
        RawMono(c, ledger, w, g.upAt, g.downAt, Inbound);
        RawMono(c, ledger, w, g.upAt, g.downAt, Outbound);
      }
    }
  }

  /** Every write keeps the ledger Ok. */
  lemma ReconcileKeepsOk(c: Rollup, ledger: Ledger, w: nat, up: bool, now: real)
    requires LedgerOk(c, ledger, now) && w < c.Slots()
    ensures LedgerOk(c, Reconcile(c, ledger, w, up, now), now)
  {
    var after := Reconcile(c, ledger, w, up, now);
    forall s | 0 <= s < |after| ensures EntryOk(c, after, s, now) {
      if s == w {
        WrittenEntryOk(c, ledger, w, up, now);
      } else {
        assert EntryOk(c, ledger, s, now);
        if ledger[s].Some? {
          RawRaised(c, ledger, w, up, now, s, ledger[s].value.upAt, Inbound);
          RawRaised(c, ledger, w, up, now, s, ledger[s].value.upAt, Outbound);
        }
      }
    }
  }

  /** The written slot serves the same value at the instant of the write: no jump at a hold or at a recovery. */
  lemma NoJumpAtTransition(c: Rollup, ledger: Ledger, w: nat, up: bool, now: real, d: Direction)
    requires LedgerOk(c, ledger, now) && w < c.Slots()
    ensures Served(c, Reconcile(c, ledger, w, up, now), w, now, d) == Served(c, ledger, w, now, d)
  {
    var after := Reconcile(c, ledger, w, up, now);
    assert EntryOk(c, ledger, w, now);
    if after[w] == ledger[w] {
      assert after == ledger;
    } else {
      OwnRawUnmoved(c, ledger, w, up, now, now, d);
      if ledger[w].Some? && ledger[w].value.down {
        var g := ledger[w].value;
        RawMono(c, ledger, w, g.upAt, g.downAt, d);
      }
    }
  }

  // ---------------------------------------------------------------------------------------------
  // Seeding.

  /** The ledger before the first poll: interfaces that boot in a non-up state are held from instant 0. */
  function Seeded(c: Rollup, down: set<nat>): (r: Ledger)
    ensures |r| == c.Slots()
  {
    seq(c.Slots(), s => if s in down then Some(Hold(true, 0.0, 0.0, 0, 0)) else None)
  }

  lemma SeededOk(c: Rollup, down: set<nat>)
    requires c.Valid()
    ensures LedgerOk(c, Seeded(c, down), 0.0)
  {
  }

  // ---------------------------------------------------------------------------------------------
  // A standalone slot counts exactly the traffic of the intervals it was up.

  datatype Transition = Transition(at: real, up: bool)

  /** One call of the writer. */
  datatype Write = Write(slot: nat, at: real, up: bool)

  /** Writes to known slots at non-decreasing instants, none before 0. */
  ghost predicate InOrder(ws: seq<Write>, slots: nat) {
    && (forall i | 0 <= i < |ws| :: ws[i].slot < slots && 0.0 <= ws[i].at)
    && (forall i, j | 0 <= i < j < |ws| :: ws[i].at <= ws[j].at)
  }

  function Writes(c: Rollup, ledger: Ledger, ws: seq<Write>): (r: Ledger)
    requires c.Valid() && |ledger| == c.Slots() && forall i | 0 <= i < |ws| :: ws[i].slot < c.Slots()
    ensures |r| == |ledger|
    decreases |ws|
  {
    if ws == [] then ledger
    else var last := ws[|ws| - 1]; Reconcile(c, Writes(c, ledger, ws[..|ws| - 1]), last.slot, last.up, last.at)
  }

  /** The transitions of one slot among the writes. */
  function Of(ws: seq<Write>, w: nat): seq<Transition> {
    if ws == [] then []
    else
      var last := ws[|ws| - 1];
      Of(ws[..|ws| - 1], w) + if last.slot == w then [Transition(last.at, last.up)] else []
  }

  /** Whether the interface is up after the transitions. */
  function UpAfter(seededUp: bool, ts: seq<Transition>): bool {
    if ts == [] then seededUp else ts[|ts| - 1].up
  }

  /** The last transition's instant, 0 before the first. */
  function LastAt(ts: seq<Transition>): real {
    if ts == [] then 0.0 else ts[|ts| - 1].at
  }

  /** The reference meter: accumulate the dial's growth over the intervals that were up, and nothing else. */
  function Metered(dial: real -> nat, seededUp: bool, ts: seq<Transition>, t: real): int
    decreases |ts|
  {
    var from := LastAt(ts);
    var grown := if UpAfter(seededUp, ts) then dial(t) - dial(from) else 0;
    if ts == [] then dial(0.0) + grown
    else Metered(dial, seededUp, ts[..|ts| - 1], from) + grown
  }

  /** The last write's instant, `from` before the first. */
  function LastWrite(from: real, ws: seq<Write>): real {
    if ws == [] then from else ws[|ws| - 1].at
  }

  /** Writes none of which is earlier than `from` keep a consistent ledger consistent. */
  lemma {:induction false} WritesStayOk(c: Rollup, ledger: Ledger, from: real, ws: seq<Write>)
    requires LedgerOk(c, ledger, from) && InOrder(ws, c.Slots()) && forall i | 0 <= i < |ws| :: from <= ws[i].at
    ensures LedgerOk(c, Writes(c, ledger, ws), LastWrite(from, ws)) && from <= LastWrite(from, ws)
    decreases |ws|
  {
    if ws != [] {
      var (prefix, last) := (ws[..|ws| - 1], ws[|ws| - 1]);
      WritesStayOk(c, ledger, from, prefix);
      var before := Writes(c, ledger, prefix);
      assert LastWrite(from, prefix) <= last.at;
      OkLater(c, before, LastWrite(from, prefix), last.at);
      ReconcileKeepsOk(c, before, last.slot, last.up, last.at);
    }
  }

  lemma OkLater(c: Rollup, ledger: Ledger, t1: real, t2: real)
    requires LedgerOk(c, ledger, t1) && t1 <= t2
    ensures LedgerOk(c, ledger, t2)
  {
    forall s | 0 <= s < |ledger| ensures EntryOk(c, ledger, s, t2) {
      assert EntryOk(c, ledger, s, t1);
    }
  }

  /** The ledger entry says down exactly when the slot's last transition did. */
  lemma {:induction false} EntryFollowsTransitions(c: Rollup, down: set<nat>, w: nat, ws: seq<Write>)
    requires c.Valid() && w < c.Slots() && forall i | 0 <= i < |ws| :: ws[i].slot < c.Slots()
    ensures var h := Writes(c, Seeded(c, down), ws)[w];
            (h.Some? && h.value.down) == !UpAfter(w !in down, Of(ws, w))
    decreases |ws|
  {
    if ws != [] {
      EntryFollowsTransitions(c, down, w, ws[..|ws| - 1]);
    }
  }

  /** What a standalone slot serves does not depend on writes to other slots. */
  lemma OtherWriteUnseen(c: Rollup, ledger: Ledger, v: nat, up: bool, now: real, w: nat, t: real, d: Direction)
    requires c.Valid() && |ledger| == c.Slots() && v < c.Slots() && w < c.Slots() && c.Standalone(w) && v != w
    ensures Served(c, Reconcile(c, ledger, v, up, now), w, t, d) == Served(c, ledger, w, t, d)
  {
    ServedOfDeps(c, Reconcile(c, ledger, v, up, now), ledger, w, t, d);
  }

  /**
   The clamp-and-subtract form refines the meter: over any writes to any slots, a poll of a standalone slot
   after its last transition serves exactly the growth of the dial while the interface was up.
   */
  lemma {:induction false} StandaloneServesUpTraffic(c: Rollup, down: set<nat>, w: nat, ws: seq<Write>, t: real,
                                                     d: Direction)
    requires c.Valid() && w < c.Slots() && c.Standalone(w) && InOrder(ws, c.Slots()) && LastAt(Of(ws, w)) <= t
    ensures Served(c, Writes(c, Seeded(c, down), ws), w, t, d)
         == Metered(x => c.dial(w, x, d), w !in down, Of(ws, w), t)
    decreases |ws|
  {
    if ws == [] {
      SeededOk(c, down);
      var (ledger, dial) := (Seeded(c, down), (x: real) => c.dial(w, x, d));
      assert Of(ws, w) == [] && Writes(c, ledger, ws) == ledger;
      GrowthSince(c, ledger, w, 0.0, t, d);
      SeededServes(c, down, w, d);
      assert Raw(c, ledger, w, t, d) == dial(t) && Raw(c, ledger, w, 0.0, d) == dial(0.0);
    } else {
      var (prefix, last) := (ws[..|ws| - 1], ws[|ws| - 1]);
      assert InOrder(prefix, c.Slots());
      if last.slot == w {
        MeteredTransition(c, down, w, ws, t, d);
        LastOfBefore(prefix, w, last.at);
        StandaloneServesUpTraffic(c, down, w, prefix, last.at, d);
        assert Of(ws, w)[..|Of(ws, w)| - 1] == Of(prefix, w);
      } else {
        OtherWriteUnseen(c, Writes(c, Seeded(c, down), prefix), last.slot, last.up, last.at, w, t, d);
        assert Of(ws, w) == Of(prefix, w);
        StandaloneServesUpTraffic(c, down, w, prefix, t, d);
      }
    }
  }

  lemma SeededServes(c: Rollup, down: set<nat>, w: nat, d: Direction)
    requires c.Valid() && w < c.Slots() && c.Standalone(w)
    ensures Served(c, Seeded(c, down), w, 0.0, d) == c.dial(w, 0.0, d)
  {
    var ledger := Seeded(c, down);
    assert Raw(c, ledger, w, 0.0, d) == c.dial(w, 0.0, d);
    if w in down { assert ledger[w].value.Clamp(0.0) == 0.0; }
  }

  lemma {:induction false} LastOfBefore(ws: seq<Write>, w: nat, now: real)
    requires 0.0 <= now && forall i | 0 <= i < |ws| :: ws[i].at <= now
    ensures LastAt(Of(ws, w)) <= now
  {
    if ws != [] { LastOfBefore(ws[..|ws| - 1], w, now); }
  }

  /** Across a write to the slot itself: no jump at the write, then growth while it is up. */
  lemma MeteredTransition(c: Rollup, down: set<nat>, w: nat, ws: seq<Write>, t: real, d: Direction)
    requires c.Valid() && w < c.Slots() && c.Standalone(w) && InOrder(ws, c.Slots())
    requires ws != [] && ws[|ws| - 1].slot == w && ws[|ws| - 1].at <= t
    ensures var last := ws[|ws| - 1];
            Served(c, Writes(c, Seeded(c, down), ws), w, t, d)
            == Served(c, Writes(c, Seeded(c, down), ws[..|ws| - 1]), w, last.at, d)
             + if last.up then c.dial(w, t, d) - c.dial(w, last.at, d) else 0
  {
    var (prefix, last) := (ws[..|ws| - 1], ws[|ws| - 1]);
    var before := Writes(c, Seeded(c, down), prefix);
    SeededOk(c, down);
    WritesStayOk(c, Seeded(c, down), 0.0, ws);
    WritesStayOk(c, Seeded(c, down), 0.0, prefix);
    assert LastWrite(0.0, prefix) <= last.at;
    OkLater(c, before, LastWrite(0.0, prefix), last.at);
    EntryFollowsTransitions(c, down, w, ws);
    GrowthSince(c, Writes(c, Seeded(c, down), ws), w, last.at, t, d);
    NoJumpAtTransition(c, before, w, last.up, last.at, d);
  }

  /** Between writes a slot grows with its raw reading while up and not at all while held. */
  lemma GrowthSince(c: Rollup, ledger: Ledger, w: nat, from: real, t: real, d: Direction)
    requires LedgerOk(c, ledger, from) && w < c.Slots() && from <= t
    ensures var held := ledger[w].Some? && ledger[w].value.down;
            Served(c, ledger, w, t, d) - Served(c, ledger, w, from, d)
            == if held then 0 else Raw(c, ledger, w, t, d) - Raw(c, ledger, w, from, d)
  {
    assert EntryOk(c, ledger, w, from);
    if ledger[w].Some? {
      GuardNeverTaken(c, ledger, from, w, t, d);
      GuardNeverTaken(c, ledger, from, w, from, d);
    }
  }

  // ---------------------------------------------------------------------------------------------
  // When a hold is flat: what a write to one slot does to the reading of another.

  /** The write ends the slot's hold. */
  predicate Closes(ledger: Ledger, w: nat, up: bool)
    requires w < |ledger|
  {
    up && ledger[w].Some? && ledger[w].value.down
  }

  /** The instant a slot reads its dial at. */
  function ReadAt(ledger: Ledger, s: nat, t: real): real
    requires s < |ledger|
  {
    if ledger[s].Some? then ledger[s].value.Clamp(t) else t
  }

  /**
   Ending a hold raises every earlier reading of the slot to what it served as the hold began;
   no other write moves a reading of the past.
   */
  lemma CloseLiftsThePast(c: Rollup, ledger: Ledger, w: nat, up: bool, now: real, x: real, d: Direction)
    requires LedgerOk(c, ledger, now) && w < c.Slots() && 0.0 <= x <= now
    ensures Served(c, Reconcile(c, ledger, w, up, now), w, x, d)
         == Served(c, ledger, w, if Closes(ledger, w, up) then ledger[w].value.downAt else x, d)
  {
    var after := Reconcile(c, ledger, w, up, now);
    assert EntryOk(c, ledger, w, now);
    if after[w] == ledger[w] {
      assert after == ledger;
    } else {
      OwnRawUnmoved(c, ledger, w, up, now, after[w].value.Clamp(x), d);
      if ledger[w].Some? && ledger[w].value.down {
        var g := ledger[w].value;
        RawMono(c, ledger, w, g.upAt, g.downAt, d);
      }
    }
  }

  /** Two consistent ledgers that agree on a slot's entry serve the same there exactly when its raw readings agree. */
  lemma ServedFollowsRaw(c: Rollup, a: Ledger, b: Ledger, now: real, s: nat, t: real, d: Direction)
    requires LedgerOk(c, a, now) && LedgerOk(c, b, now) && s < c.Slots() && a[s] == b[s]
    ensures Served(c, b, s, t, d) - Served(c, a, s, t, d)
         == Raw(c, b, s, ReadAt(a, s, t), d) - Raw(c, a, s, ReadAt(a, s, t), d)
  {
    if a[s].Some? {
      GuardNeverTaken(c, a, now, s, t, d);
      GuardNeverTaken(c, b, now, s, t, d);
    }
  }

  /**
   A child and a write to its parent, standalone or aggregate. The child's reading moves exactly when the write
   ends the parent's hold and the child's share can tell the parent's reading at that hold's start from its own.
   */
  lemma ChildFlatExactly(c: Rollup, ledger: Ledger, s: nat, up: bool, now: real, t: real, d: Direction)
    requires LedgerOk(c, ledger, now) && s < c.Slots() && c.counterParent[s] != 0 && c.members[s] == []
    requires 0.0 <= ReadAt(ledger, s, t) <= now
    ensures var (p, x) := (c.counterParent[s] - 1, ReadAt(ledger, s, t));
            Served(c, Reconcile(c, ledger, p, up, now), s, t, d) == Served(c, ledger, s, t, d) <==>
              Closes(ledger, p, up) ==>
                Scale(Served(c, ledger, p, ledger[p].value.downAt, d), c.share[s])
                == Scale(Served(c, ledger, p, x, d), c.share[s])
  {
    var (p, x) := (c.counterParent[s] - 1, ReadAt(ledger, s, t));
    var after := Reconcile(c, ledger, p, up, now);
    ReconcileKeepsOk(c, ledger, p, up, now);
    ServedFollowsRaw(c, ledger, after, now, s, t, d);
    CloseLiftsThePast(c, ledger, p, up, now, x, d);
  }

  /** How often a slot stands in a member list. */
  function Occurs(members: seq<nat>, w: nat, k: nat): nat
    requires k <= |members|
    decreases |members| - k
  {
    if k == |members| then 0 else (if members[k] == w + 1 then 1 else 0) + Occurs(members, w, k + 1)
  }

  /** How far a write lifts the written slot's reading of a past instant. */
  function Lift(c: Rollup, ledger: Ledger, w: nat, up: bool, x: real, d: Direction): int
    requires c.Valid() && |ledger| == c.Slots() && w < c.Slots()
  {
    if Closes(ledger, w, up) then Served(c, ledger, w, ledger[w].value.downAt, d) - Served(c, ledger, w, x, d) else 0
  }

  lemma OneMore(n: nat, lift: int)
    ensures (1 + n) * lift == lift + n * lift
  {
  }

  /** What a write to a member adds to the sum of the members, read at a past instant. */
  lemma {:induction false} SumLifted(c: Rollup, ledger: Ledger, w: nat, up: bool, now: real, s: nat, k: nat, x: real,
                                     d: Direction)
    requires LedgerOk(c, ledger, now) && s < c.Slots() && c.members[s] != [] && k <= |c.members[s]|
    requires w < c.Slots() && 0.0 <= x <= now
    ensures SumServed(c, Reconcile(c, ledger, w, up, now), s, k, x, d) - SumServed(c, ledger, s, k, x, d)
         == Occurs(c.members[s], w, k) * Lift(c, ledger, w, up, x, d)
    decreases |c.members[s]| - k
  {
    hide Reconcile, Served, Raw;
    if k < |c.members[s]| {
      SumLifted(c, ledger, w, up, now, s, k + 1, x, d);
      var m := c.members[s][k] - 1;
      if m == w {
        CloseLiftsThePast(c, ledger, w, up, now, x, d);
        OneMore(Occurs(c.members[s], w, k + 1), Lift(c, ledger, w, up, x, d));
      } else {
        OtherWriteUnseen(c, ledger, w, up, now, m, x, d);
      }
    }
  }

  lemma {:induction false} OccursOnce(members: seq<nat>, w: nat, k: nat)
    requires k <= |members|
    ensures Occurs(members, w, k) > 0 <==> w + 1 in members[k..]
    decreases |members| - k
  {
    if k < |members| {
      OccursOnce(members, w, k + 1);
      assert members[k..] == [members[k]] + members[k + 1..];
    }
  }

  /** What an aggregate's reading gains from a write to a slot: as many times the slot's lift as it lists the slot. */
  lemma AggregateLift(c: Rollup, ledger: Ledger, s: nat, w: nat, up: bool, now: real, t: real, d: Direction)
    requires LedgerOk(c, ledger, now) && s < c.Slots() && c.members[s] != [] && w < c.Slots() && w != s
    requires 0.0 <= ReadAt(ledger, s, t) <= now
    ensures Served(c, Reconcile(c, ledger, w, up, now), s, t, d) - Served(c, ledger, s, t, d)
         == Occurs(c.members[s], w, 0) * Lift(c, ledger, w, up, ReadAt(ledger, s, t), d)
  {
    ReconcileKeepsOk(c, ledger, w, up, now);
    ServedFollowsRaw(c, ledger, Reconcile(c, ledger, w, up, now), now, s, t, d);
    SumLifted(c, ledger, w, up, now, s, 0, ReadAt(ledger, s, t), d);
  }

  /** An aggregate and a write to one of its members. */
  lemma AggregateFlatExactly(c: Rollup, ledger: Ledger, s: nat, w: nat, up: bool, now: real, t: real, d: Direction)
    requires LedgerOk(c, ledger, now) && s < c.Slots() && w < c.Slots() && w + 1 in c.members[s]
    requires 0.0 <= ReadAt(ledger, s, t) <= now
    ensures var x := ReadAt(ledger, s, t);
            Served(c, Reconcile(c, ledger, w, up, now), s, t, d) == Served(c, ledger, s, t, d) <==>
              Closes(ledger, w, up) ==>
                Served(c, ledger, w, ledger[w].value.downAt, d) == Served(c, ledger, w, x, d)
  {
    MemberApart(c, s, w);
    AggregateLift(c, ledger, s, w, up, now, t, d);
    OccursOnce(c.members[s], w, 0);
  }

  lemma MemberApart(c: Rollup, s: nat, w: nat)
    requires c.Ranked() && s < c.Slots() && w + 1 in c.members[s]
    ensures w < c.Slots() && c.Standalone(w) && w != s
  {
    var k :| 0 <= k < |c.members[s]| && c.members[s][k] == w + 1;
  }

  /** A child of an aggregate and a write to one of the aggregate's members, reached through two clamps. */
  lemma GrandchildFlatExactly(c: Rollup, ledger: Ledger, s: nat, w: nat, up: bool, now: real, t: real, d: Direction)
    requires LedgerOk(c, ledger, now) && s < c.Slots() && c.counterParent[s] != 0 && c.members[s] == []
    requires w + 1 in c.members[c.counterParent[s] - 1] && w < c.Slots()
    requires var p := c.counterParent[s] - 1; 0.0 <= ReadAt(ledger, p, ReadAt(ledger, s, t)) <= now
    ensures var p := c.counterParent[s] - 1;
            var x := ReadAt(ledger, s, t);
            var gain := Occurs(c.members[p], w, 0) * Lift(c, ledger, w, up, ReadAt(ledger, p, x), d);
            && gain >= 0
            && (Served(c, Reconcile(c, ledger, w, up, now), s, t, d) == Served(c, ledger, s, t, d) <==>
                  Scale(Served(c, ledger, p, x, d) + gain, c.share[s]) == Scale(Served(c, ledger, p, x, d), c.share[s]))
  {
    var p := c.counterParent[s] - 1;
    var x := ReadAt(ledger, s, t);
    var after := Reconcile(c, ledger, w, up, now);
    MemberApart(c, p, w);
    ReconcileKeepsOk(c, ledger, w, up, now);
    ServedFollowsRaw(c, ledger, after, now, s, t, d);
    AggregateLift(c, ledger, p, w, up, now, x, d);
    LiftUpward(c, ledger, w, up, now, ReadAt(ledger, p, x), d);
  }

  lemma LiftUpward(c: Rollup, ledger: Ledger, w: nat, up: bool, now: real, x: real, d: Direction)
    requires LedgerOk(c, ledger, now) && w < c.Slots() && 0.0 <= x <= now
    ensures Lift(c, ledger, w, up, x, d) >= 0
  {
    OwnServedRaised(c, ledger, w, up, now, x, d);
    CloseLiftsThePast(c, ledger, w, up, now, x, d);
  }

  /** Enough for all of them: a slot already down at the instant read lifts nothing by coming up. */
  lemma FellFirstLiftsNothing(c: Rollup, ledger: Ledger, w: nat, up: bool, now: real, x: real, d: Direction)
    requires LedgerOk(c, ledger, now) && w < c.Slots()
    requires Closes(ledger, w, up) ==> ledger[w].value.downAt <= x
    ensures Lift(c, ledger, w, up, x, d) == 0
  {
    assert EntryOk(c, ledger, w, now);
    if Closes(ledger, w, up) {
      var h := ledger[w].value;
      assert Served(c, ledger, w, x, d) == Less(Raw(c, ledger, w, h.Clamp(x), d), h.Skipped(d));
      assert Served(c, ledger, w, h.downAt, d) == Less(Raw(c, ledger, w, h.Clamp(h.downAt), d), h.Skipped(d));
    }
  }

  /** So a held child keeps its reading when its parent, down since before the child's hold, comes up. */
  lemma HeldChildFlat(c: Rollup, ledger: Ledger, s: nat, up: bool, now: real, t: real, d: Direction)
    requires LedgerOk(c, ledger, now) && s < c.Slots() && c.counterParent[s] != 0 && c.members[s] == []
    requires 0.0 <= ReadAt(ledger, s, t) <= now
    requires var p := c.counterParent[s] - 1;
             Closes(ledger, p, up) ==> ledger[p].value.downAt <= ReadAt(ledger, s, t)
    ensures Served(c, Reconcile(c, ledger, c.counterParent[s] - 1, up, now), s, t, d) == Served(c, ledger, s, t, d)
  {
    var p := c.counterParent[s] - 1;
    FellFirstLiftsNothing(c, ledger, p, up, now, ReadAt(ledger, s, t), d);
    ChildFlatExactly(c, ledger, s, up, now, t, d);
  }

  /** A held slot reads an instant of the past, so the conditions above apply to every hold. */
  lemma HeldReadsThePast(c: Rollup, ledger: Ledger, s: nat, now: real, t: real)
    requires LedgerOk(c, ledger, now) && s < c.Slots() && ledger[s].Some? && ledger[s].value.down
    requires 0.0 <= t && 0.0 <= ledger[s].value.downAt
    ensures 0.0 <= ReadAt(ledger, s, t) <= ledger[s].value.downAt <= now
  {
    assert EntryOk(c, ledger, s, now);
  }

  /** The condition can fail: a held child rises when its parent, still up at the child's hold, later bounces. */
  lemma HeldChildCanRise()
    ensures exists c: Rollup, ledger: Ledger, now: real ::
      && LedgerOk(c, ledger, now) && c.Slots() == 2 && c.counterParent[1] == 1
      && ledger[1].Some? && ledger[1].value.down
      && var bounced := Reconcile(c, Reconcile(c, ledger, 0, false, now), 0, true, now + 4.0);
         Served(c, bounced, 1, now, Inbound) > Served(c, ledger, 1, now, Inbound)
  {
    var dial := (s: nat, t: real, d: Direction) => if t < 0.0 then 0 else (t * 10.0).Floor;
    var c := Rollup([0, 1], [0.0, 0.5], [[], []], dial);
    forall s, t1: real, t2: real, d | t1 <= t2 ensures dial(s, t1, d) <= dial(s, t2, d) {
      assert t1 * 10.0 <= t2 * 10.0;
    }
    assert c.Valid();
    var ledger: Ledger := [None, Some(Hold(true, 15.0, 0.0, 0, 0))];
    var now := 16.0;
    assert LedgerOk(c, ledger, now);
    assert dial(0, 15.0, Inbound) == 150 && dial(0, 16.0, Inbound) == 160 && dial(0, 20.0, Inbound) == 200;
    var parentHeld := Reconcile(c, ledger, 0, false, now);
    assert parentHeld == [Some(Hold(true, 16.0, 0.0, 0, 0)), ledger[1]];
    var bounced := Reconcile(c, parentHeld, 0, true, 20.0);
    assert bounced[0] == Some(Hold(false, 0.0, 20.0, 40, 40));
    assert Served(c, ledger, 0, 15.0, Inbound) == 150;
    assert Served(c, bounced, 0, 15.0, Inbound) == 160;
    assert Scale(150, 0.5) == 75 && Scale(160, 0.5) == 80;
    assert Served(c, ledger, 1, now, Inbound) == 75;
    assert Served(c, bounced, 1, now, Inbound) == 80;
  }

  /**
   A held aggregate likewise: when a member that was still up bounces at `now` and `later`, the aggregate's reading of
   instant `x` rises by all the member counted between `x` and its fall, once for each time it is listed.
   */
  lemma BounceLiftsAggregate(c: Rollup, ledger: Ledger, s: nat, w: nat, now: real, later: real, t: real, d: Direction)
    requires LedgerOk(c, ledger, now) && s < c.Slots() && w < c.Slots() && w + 1 in c.members[s] && now <= later
    requires ledger[w].None? || !ledger[w].value.down
    requires 0.0 <= ReadAt(ledger, s, t) <= now
    ensures var bounced := Reconcile(c, Reconcile(c, ledger, w, false, now), w, true, later);
            Served(c, bounced, s, t, d) - Served(c, ledger, s, t, d)
            == Occurs(c.members[s], w, 0)
               * (Served(c, ledger, w, now, d) - Served(c, ledger, w, ReadAt(ledger, s, t), d))
  {
    hide Served, Raw;
    var x := ReadAt(ledger, s, t);
    var held := Reconcile(c, ledger, w, false, now);
    MemberApart(c, s, w);
    ReconcileKeepsOk(c, ledger, w, false, now);
    OkLater(c, held, now, later);
    AggregateLift(c, ledger, s, w, false, now, t, d);
    AggregateLift(c, held, s, w, true, later, t, d);
    NoJumpAtTransition(c, ledger, w, false, now, d);
    CloseLiftsThePast(c, ledger, w, false, now, x, d);
  }

  // ---------------------------------------------------------------------------------------------
  // A whole hold: any writes between its opening and its closing.

  /** What a write to slot `w` must not do if slot `s` is to keep its reading: a condition on the ledger before it. */
  ghost predicate Undisturbed(c: Rollup, ledger: Ledger, s: nat, w: nat, up: bool, t: real, d: Direction)
    requires c.Valid() && |ledger| == c.Slots() && s < c.Slots() && w < c.Slots()
  {
    var x := ReadAt(ledger, s, t);
    if c.members[s] != [] then
      w + 1 in c.members[s] ==> Lift(c, ledger, w, up, x, d) == 0
    else if c.counterParent[s] == 0 then
      true
    else if w + 1 == c.counterParent[s] then
      SameShare(c, ledger, s, x, Lift(c, ledger, w, up, x, d), d)
    else
      var p := c.counterParent[s] - 1;
      w + 1 in c.members[p] ==>
        SameShare(c, ledger, s, x, Occurs(c.members[p], w, 0) * Lift(c, ledger, w, up, ReadAt(ledger, p, x), d), d)
  }

  /** The child's share cannot tell its parent's reading from one higher by `gain`. */
  ghost predicate SameShare(c: Rollup, ledger: Ledger, s: nat, x: real, gain: int, d: Direction)
    requires c.Valid() && |ledger| == c.Slots() && s < c.Slots() && c.counterParent[s] != 0
  {
    var was := Served(c, ledger, c.counterParent[s] - 1, x, d);
    was + gain >= 0 && Scale(was + gain, c.share[s]) == Scale(was, c.share[s])
  }

  /** No entry reaches back before the start. */
  ghost predicate FromStart(ledger: Ledger) {
    forall s | 0 <= s < |ledger| && ledger[s].Some? ::
      0.0 <= ledger[s].value.upAt && (ledger[s].value.down ==> 0.0 <= ledger[s].value.downAt)
  }

  /** An instant read through any entry lies between the start and the present. */
  lemma ReadInRange(c: Rollup, ledger: Ledger, now: real, s: nat, t: real)
    requires LedgerOk(c, ledger, now) && FromStart(ledger) && s < c.Slots() && 0.0 <= t <= now
    ensures 0.0 <= ReadAt(ledger, s, t) <= now
  {
    assert EntryOk(c, ledger, s, now);
  }

  /** A write to a slot the reading does not depend on. */
  lemma ElsewhereUnseen(c: Rollup, ledger: Ledger, s: nat, w: nat, up: bool, now: real, t: real, d: Direction)
    requires c.Valid() && |ledger| == c.Slots() && s < c.Slots() && w < c.Slots() && w !in Deps(c, s)
    ensures Served(c, Reconcile(c, ledger, w, up, now), s, t, d) == Served(c, ledger, s, t, d)
  {
    ServedOfDeps(c, Reconcile(c, ledger, w, up, now), ledger, s, t, d);
  }

  /** A write to another slot: the reading stays if and only if the write leaves it undisturbed. */
  lemma WriteFlatExactly(c: Rollup, ledger: Ledger, s: nat, w: nat, up: bool, now: real, t: real, d: Direction)
    requires LedgerOk(c, ledger, now) && FromStart(ledger) && s < c.Slots() && w < c.Slots() && w != s
    requires 0.0 <= ReadAt(ledger, s, t) <= now
    ensures Served(c, Reconcile(c, ledger, w, up, now), s, t, d) == Served(c, ledger, s, t, d) <==>
            Undisturbed(c, ledger, s, w, up, t, d)
  {
    hide Served, Raw, Reconcile, Scale, EntryOk, FromStart, Occurs, Rollup.DialsRise;
    if c.members[s] != [] {
      if w + 1 in c.members[s] {
        AggregateFlatExactly(c, ledger, s, w, up, now, t, d);
      } else {
        NotMember(c, s, w);
        ElsewhereUnseen(c, ledger, s, w, up, now, t, d);
      }
    } else if c.counterParent[s] == 0 {
      ElsewhereUnseen(c, ledger, s, w, up, now, t, d);
    } else if w + 1 == c.counterParent[s] {
      ChildFlatExactly(c, ledger, s, up, now, t, d);
    } else {
      var p := c.counterParent[s] - 1;
      if w + 1 in c.members[p] {
        ReadInRange(c, ledger, now, p, ReadAt(ledger, s, t));
        GrandchildFlatExactly(c, ledger, s, w, up, now, t, d);
      } else {
        NotMember(c, p, w);
        ElsewhereUnseen(c, ledger, s, w, up, now, t, d);
      }
    }
  }

  lemma NotMember(c: Rollup, s: nat, w: nat)
    requires c.Ranked() && s < c.Slots() && c.counterParent[s] == 0 && w != s && w + 1 !in c.members[s]
    ensures w !in Deps(c, s)
  {
  }

  /** Each of the writes in turn leaves the slot's reading undisturbed. */
  ghost predicate LeftAlone(c: Rollup, ledger: Ledger, ws: seq<Write>, s: nat, t: real, d: Direction)
    requires c.Valid() && |ledger| == c.Slots() && s < c.Slots()
    requires forall i | 0 <= i < |ws| :: ws[i].slot < c.Slots()
    decreases |ws|
  {
    ws == [] ||
    var (prefix, last) := (ws[..|ws| - 1], ws[|ws| - 1]);
    && LeftAlone(c, ledger, prefix, s, t, d)
    && Undisturbed(c, Writes(c, ledger, prefix), s, last.slot, last.up, t, d)
  }

  /** Writes of one hold of slot `s`: in order from `from` on, none to the slot itself that ends the hold. */
  ghost predicate DuringHold(c: Rollup, ledger: Ledger, from: real, ws: seq<Write>, s: nat) {
    && LedgerOk(c, ledger, from) && FromStart(ledger) && InOrder(ws, c.Slots())
    && (forall i | 0 <= i < |ws| :: from <= ws[i].at && !(ws[i].slot == s && ws[i].up))
    && s < c.Slots() && ledger[s].Some? && ledger[s].value.down
  }

  /** The ledger stays consistent and the slot's own entry stays put. */
  lemma {:induction false} HoldStands(c: Rollup, ledger: Ledger, from: real, ws: seq<Write>, s: nat)
    requires DuringHold(c, ledger, from, ws, s)
    ensures var n := Writes(c, ledger, ws);
            LedgerOk(c, n, LastWrite(from, ws)) && FromStart(n) && n[s] == ledger[s] && from <= LastWrite(from, ws)
    decreases |ws|
  {
    WritesStayOk(c, ledger, from, ws);
    if ws != [] {
      var prefix := ws[..|ws| - 1];
      assert DuringHold(c, ledger, from, prefix, s);
      HoldStands(c, ledger, from, prefix, s);
    }
  }

  /**
   Over a whole hold, any writes to any slots: the held reading stays if and only if each of them leaves it undisturbed.
   Readings only ever rise, so nothing lost at one write is made good by another.
   */
  lemma {:induction false} HoldFlatExactly(c: Rollup, ledger: Ledger, from: real, ws: seq<Write>, s: nat, t: real,
                                           d: Direction)
    requires DuringHold(c, ledger, from, ws, s) && 0.0 <= t
    ensures Served(c, Writes(c, ledger, ws), s, t, d) >= Served(c, ledger, s, t, d)
    ensures Served(c, Writes(c, ledger, ws), s, t, d) == Served(c, ledger, s, t, d) <==>
            LeftAlone(c, ledger, ws, s, t, d)
    decreases |ws|
  {
    if ws != [] {
      hide Undisturbed, Served, LedgerOk, FromStart, Reconcile, Writes;
      var prefix := ws[..|ws| - 1];
      assert DuringHold(c, ledger, from, prefix, s);
      HoldFlatExactly(c, ledger, from, prefix, s, t, d);
      HoldStep(c, ledger, from, ws, s, t, d);
    }
  }

  /** The last write of a hold. */
  lemma HoldStep(c: Rollup, ledger: Ledger, from: real, ws: seq<Write>, s: nat, t: real, d: Direction)
    requires DuringHold(c, ledger, from, ws, s) && 0.0 <= t && ws != []
    ensures var (before, last) := (Writes(c, ledger, ws[..|ws| - 1]), ws[|ws| - 1]);
            var after := Writes(c, ledger, ws);
            && Served(c, after, s, t, d) >= Served(c, before, s, t, d)
            && (Served(c, after, s, t, d) == Served(c, before, s, t, d) <==>
                  Undisturbed(c, before, s, last.slot, last.up, t, d))
  {
    var (prefix, last) := (ws[..|ws| - 1], ws[|ws| - 1]);
    assert DuringHold(c, ledger, from, prefix, s);
    HoldStands(c, ledger, from, prefix, s);
    var before := Writes(c, ledger, prefix);
    assert LastWrite(from, prefix) <= last.at;
    OkLater(c, before, LastWrite(from, prefix), last.at);
    assert EntryOk(c, before, s, last.at);
    HoldWrite(c, before, s, last.slot, last.up, last.at, t, d);
  }

  /** One write during a hold. */
  lemma HoldWrite(c: Rollup, ledger: Ledger, s: nat, w: nat, up: bool, now: real, t: real, d: Direction)
    requires LedgerOk(c, ledger, now) && FromStart(ledger) && s < c.Slots() && w < c.Slots() && !(w == s && up)
    requires ledger[s].Some? && ledger[s].value.down && 0.0 <= t
    ensures var after := Reconcile(c, ledger, w, up, now);
            && Served(c, after, s, t, d) >= Served(c, ledger, s, t, d)
            && (Served(c, after, s, t, d) == Served(c, ledger, s, t, d) <==> Undisturbed(c, ledger, s, w, up, t, d))
  {
    HeldReadsThePast(c, ledger, s, now, t);
    var after := Reconcile(c, ledger, w, up, now);
    if w == s {
      assert after == ledger;
      OwnUndisturbed(c, ledger, s, up, t, d);
    } else {
      hide Undisturbed;
      WriteFlatExactly(c, ledger, s, w, up, now, t, d);
      ReconcileKeepsOk(c, ledger, w, up, now);
      ServedFollowsRaw(c, ledger, after, now, s, t, d);
      RawRaised(c, ledger, w, up, now, s, ReadAt(ledger, s, t), d);
    }
  }

  /** A slot is neither its own member nor its own parent. */
  lemma OwnUndisturbed(c: Rollup, ledger: Ledger, s: nat, up: bool, t: real, d: Direction)
    requires c.Valid() && |ledger| == c.Slots() && s < c.Slots()
    ensures Undisturbed(c, ledger, s, s, up, t, d)
  {
    if c.members[s] != [] {
      if s + 1 in c.members[s] { MemberApart(c, s, s); }
    } else if c.counterParent[s] != 0 {
      var p := c.counterParent[s] - 1;
      if s + 1 in c.members[p] { MemberApart(c, p, s); }
    }
  }

  // A sufficient condition a caller can see before the hold: nothing the reading depends on falls while it lasts, and
  // what is down by then was down at the instant read.

  /** The instant at which a reading of slot `s` at `t` reads slot `q`. */
  function InstantAt(c: Rollup, ledger: Ledger, s: nat, q: nat, t: real): real
    requires c.Ranked() && |ledger| == c.Slots() && s < c.Slots()
  {
    var x := ReadAt(ledger, s, t);
    if c.members[s] == [] && c.counterParent[s] != 0 && q + 1 != c.counterParent[s]
    then ReadAt(ledger, c.counterParent[s] - 1, x) else x
  }

  ghost predicate FellFirst(c: Rollup, ledger: Ledger, s: nat, t: real)
    requires c.Ranked() && |ledger| == c.Slots() && s < c.Slots()
  {
    forall q | 0 <= q < |ledger| && q in Deps(c, s) && q != s && ledger[q].Some? && ledger[q].value.down ::
      ledger[q].value.downAt <= InstantAt(c, ledger, s, q, t)
  }

  /** The slots a reading can be disturbed by. */
  ghost predicate Reaches(c: Rollup, s: nat, w: nat)
    requires c.Ranked() && s < c.Slots()
  {
    if c.members[s] != [] then w + 1 in c.members[s]
    else c.counterParent[s] != 0 && (w + 1 == c.counterParent[s] || w + 1 in c.members[c.counterParent[s] - 1])
  }

  lemma ReachedIsDep(c: Rollup, s: nat, w: nat)
    requires c.Ranked() && s < c.Slots() && Reaches(c, s, w)
    ensures w in Deps(c, s) && w != s && w < c.Slots()
  {
    hide Rollup.DialsRise;
    if c.members[s] != [] {
      MemberApart(c, s, w);
      var k :| 0 <= k < |c.members[s]| && c.members[s][k] == w + 1;
    } else if w + 1 != c.counterParent[s] {
      var p := c.counterParent[s] - 1;
      MemberApart(c, p, w);
      var k :| 0 <= k < |c.members[p]| && c.members[p][k] == w + 1;
    }
  }

  lemma FellFirstUndisturbed(c: Rollup, ledger: Ledger, s: nat, w: nat, up: bool, now: real, t: real, d: Direction)
    requires LedgerOk(c, ledger, now) && s < c.Slots() && w < c.Slots() && FellFirst(c, ledger, s, t)
    ensures Undisturbed(c, ledger, s, w, up, t, d)
  {
    hide Served, Scale, EntryOk, Deps, Occurs, Rollup.DialsRise;
    if Reaches(c, s, w) {
      ReachedIsDep(c, s, w);
      FellFirstLiftsNothing(c, ledger, w, up, now, InstantAt(c, ledger, s, w, t), d);
      hide Lift;
    }
  }

  /** A write that is no fall keeps the condition. */
  lemma FellFirstStays(c: Rollup, ledger: Ledger, s: nat, w: nat, up: bool, now: real, t: real)
    requires LedgerOk(c, ledger, now) && FromStart(ledger) && s < c.Slots() && w < c.Slots()
    requires FellFirst(c, ledger, s, t)
    requires ledger[s].Some? && ledger[s].value.down && !(w == s && up) && (w in Deps(c, s) && w != s ==> up)
    ensures FellFirst(c, Reconcile(c, ledger, w, up, now), s, t)
  {
    hide Raw, Deps, Rollup.DialsRise;
    var (after, x) := (Reconcile(c, ledger, w, up, now), ReadAt(ledger, s, t));
    assert EntryOk(c, ledger, s, now);
    assert after[s] == ledger[s];
    forall q | 0 <= q < |after| && q in Deps(c, s) && q != s && after[q].Some? && after[q].value.down
      ensures after[q].value.downAt <= InstantAt(c, after, s, q, t)
    {
      assert after[q] == ledger[q];
      if c.members[s] == [] && c.counterParent[s] != 0 && q + 1 != c.counterParent[s] {
        var p := c.counterParent[s] - 1;
        ReachedIsDep(c, s, p);
        ReadRises(c, ledger, p, w, up, now, x);
      }
    }
  }

  /** A write that is no fall of slot `p` lets it read no earlier instant. */
  lemma ReadRises(c: Rollup, ledger: Ledger, p: nat, w: nat, up: bool, now: real, x: real)
    requires LedgerOk(c, ledger, now) && p < c.Slots() && w < c.Slots() && x <= now && (w == p ==> up)
    ensures ReadAt(Reconcile(c, ledger, w, up, now), p, x) >= ReadAt(ledger, p, x)
  {
    hide Raw, Rollup.DialsRise;
    assert EntryOk(c, ledger, p, now);
  }

  /** So a hold is flat, whatever is written while it lasts, when nothing it depends on falls in that time. */
  lemma {:induction false} HoldStaysFlat(c: Rollup, ledger: Ledger, from: real, ws: seq<Write>, s: nat, t: real,
                                         d: Direction)
    requires DuringHold(c, ledger, from, ws, s) && 0.0 <= t && FellFirst(c, ledger, s, t)
    requires forall i | 0 <= i < |ws| :: ws[i].slot in Deps(c, s) && ws[i].slot != s ==> ws[i].up
    ensures Served(c, Writes(c, ledger, ws), s, t, d) == Served(c, ledger, s, t, d)
    ensures FellFirst(c, Writes(c, ledger, ws), s, t)
    decreases |ws|
  {
    if ws != [] {
      hide Undisturbed, Served, Reconcile, FellFirst, Deps;
      var (prefix, last) := (ws[..|ws| - 1], ws[|ws| - 1]);
      assert DuringHold(c, ledger, from, prefix, s);
      HoldStaysFlat(c, ledger, from, prefix, s, t, d);
      HoldStep(c, ledger, from, ws, s, t, d);
      HoldStands(c, ledger, from, prefix, s);
      var before := Writes(c, ledger, prefix);
      OkLater(c, before, LastWrite(from, prefix), last.at);
      FellFirstUndisturbed(c, before, s, last.slot, last.up, last.at, t, d);
      FellFirstStays(c, before, s, last.slot, last.up, last.at, t);
    }
  }

  // ---------------------------------------------------------------------------------------------
  // The ledger as the cycler holds it: slots replaced in place under a sequence counter.

  class Cycler {
    const c: Rollup
    var hold: Ledger
    var holdSeq: nat

    ghost predicate Sized()
      reads this
    {
      c.Valid() && |hold| == c.Slots()
    }

    constructor (c: Rollup)
      requires c.Valid()
      ensures this.c == c && Sized() && holdSeq == 0 && hold == Seeded(c, {})
    {
      this.c := c;
      hold := seq(|c.counterParent|, _ => None);
      holdSeq := 0;
      new;
      assert hold == Seeded(c, {});
    }

    /** Open a hold at instant 0 for every known interface that is not up. */
    method SeedHolds(known: set<nat>, up: set<nat>)
      requires Sized() && hold == Seeded(c, {})
      requires forall ifIndex | ifIndex in known :: 1 <= ifIndex <= c.Slots()
      modifies this`hold
      ensures Sized() && hold == Seeded(c, set ifIndex | ifIndex in known && ifIndex !in up :: ifIndex - 1)
    {
      var todo := known;
      ghost var done: set<nat> := {};
      while todo != {}
        invariant todo <= known && |hold| == c.Slots()
        invariant done == set ifIndex | ifIndex in known && ifIndex !in todo && ifIndex !in up :: ifIndex - 1
        invariant hold == Seeded(c, done)
        decreases |todo|
      {
        var ifIndex :| ifIndex in todo;
        todo := todo - {ifIndex};
        if ifIndex !in up {
          hold := hold[ifIndex - 1 := Some(Hold(true, 0.0, 0.0, 0, 0))];
          done := done + {ifIndex - 1};
        }
      }
      assert done == set ifIndex | ifIndex in known && ifIndex !in up :: ifIndex - 1;
    }

    /**
     The oper hook's writer; an unknown interface or a cycler without a state engine changes nothing but the sequence.
     */
    method ReconcileHoldAt(ifIndex: int, hasState: bool, known: set<int>, up: bool, now: real)
      requires Sized()
      modifies this
      ensures Sized() && holdSeq == old(holdSeq) + 2
      ensures hold == if 1 <= ifIndex <= c.Slots() && hasState && ifIndex in known
                      then Reconcile(c, old(hold), ifIndex - 1, up, now) else old(hold)
    {
      holdSeq := holdSeq + 1;
      var slot := ifIndex - 1;
      if 0 <= slot < |hold| && hasState && ifIndex in known {
        var h := hold[slot];
        if up && h.Some? && h.value.down {
          var t := Later(now, h.value.downAt);
          RawMono(c, hold, slot, h.value.downAt, t, Inbound);
          RawMono(c, hold, slot, h.value.downAt, t, Outbound);
          hold := hold[slot := Some(Hold(false, 0.0, t,
            h.value.skippedIn + (Raw(c, hold, slot, t, Inbound) - Raw(c, hold, slot, h.value.downAt, Inbound)),
            h.value.skippedOut + (Raw(c, hold, slot, t, Outbound) - Raw(c, hold, slot, h.value.downAt, Outbound))))];
        } else if !up && (h.None? || !h.value.down) {
          var n := if h.None? then Hold(true, now, 0.0, 0, 0)
                   else Hold(true, now, h.value.upAt, h.value.skippedIn, h.value.skippedOut);
          hold := hold[slot := Some(n)];
        }
      }
      holdSeq := holdSeq + 1;
    }

    /** Both directions of one poll, from one ledger entry. */
    method HeldDeltasAt(slot: nat, t: real) returns (in_: nat, out: nat)
      requires Sized() && slot < c.Slots()
      ensures in_ == Served(c, hold, slot, t, Inbound) && out == Served(c, hold, slot, t, Outbound)
    {
      var h := hold[slot];
      in_ := HeldDelta(c, hold, h, slot, t, Inbound);
      out := HeldDelta(c, hold, h, slot, t, Outbound);
    }
  }
}
