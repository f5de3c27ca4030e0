/**
 The flap scheduler: one pending event per registered interface, kept in a binary heap by fire time. Entries know
 their own position in the heap, so one can be taken out from the middle, and a second table finds them by key.
 */
module FlapScheduler {
  import opened Common

  // ---------------------------------------------------------------------------------------------
  // Binary heaps of times.

  function Parent(i: nat): nat
    requires i > 0
  {
    (i - 1) / 2
  }

  ghost predicate Ordered(t: seq<int>) {
    forall i | 0 < i < |t| :: t[Parent(i)] <= t[i]
  }

  /** In order but for the edge into `j`; nothing below `j` is earlier than its grandparent. */
  ghost predicate UpHole(t: seq<int>, j: nat) {
    && j < |t|
    && (forall i | 0 < i < |t| && i != j :: t[Parent(i)] <= t[i])
    && (j > 0 ==> forall c | 0 < c < |t| && Parent(c) == j :: t[Parent(j)] <= t[c])
  }

  /** In order but for the edges at `i`; nothing below `i` is earlier than what is above it. */
  ghost predicate Hole(t: seq<int>, i: nat) {
    && i < |t|
    && (forall c | 0 < c < |t| && c != i && Parent(c) != i :: t[Parent(c)] <= t[c])
    && (i > 0 ==> forall c | 0 < c < |t| && Parent(c) == i :: t[Parent(i)] <= t[c])
  }

  function Swapped<T>(t: seq<T>, i: nat, j: nat): seq<T>
    requires i < |t| && j < |t|
  {
    t[i := t[j]][j := t[i]]
  }

  /** An entry earlier than its parent moves up; the hole moves with it. */
  lemma UpSwap(t: seq<int>, j: nat)
    requires UpHole(t, j) && j > 0 && t[j] < t[Parent(j)]
    ensures UpHole(Swapped(t, Parent(j), j), Parent(j))
  {
    var (p, u) := (Parent(j), Swapped(t, Parent(j), j));
    forall i | 0 < i < |u| && i != p ensures u[Parent(i)] <= u[i] {
      if i != j && Parent(i) == p { assert t[p] <= t[i]; }
    }
    if p > 0 {
      forall c | 0 < c < |u| && Parent(c) == p ensures u[Parent(p)] <= u[c] { assert t[Parent(p)] <= t[p]; }
    }
  }

  /** `j` is the earliest child of `i`, and earlier than `i`. */
  ghost predicate Sinks(t: seq<int>, i: nat, j: nat) {
    && i < |t| && 0 < j < |t| && Parent(j) == i && t[j] < t[i]
    && forall c | 0 < c < |t| && Parent(c) == i :: t[j] <= t[c]
  }

  /** The earliest child moves up; the hole moves down with what it replaced. */
  lemma DownSwap(t: seq<int>, i: nat, j: nat)
    requires Hole(t, i) && Sinks(t, i, j)
    ensures Hole(Swapped(t, i, j), j) && Swapped(t, i, j)[i] <= Swapped(t, i, j)[j] && i < j && Parent(j) == i
  {
    var u := Swapped(t, i, j);
    forall c | 0 < c < |u| && c != j && Parent(c) != j ensures u[Parent(c)] <= u[c] {
      if c == i { assert t[Parent(i)] <= t[j]; }
    }
    forall c | 0 < c < |u| && Parent(c) == j ensures u[Parent(j)] <= u[c] { assert t[j] <= t[c]; }
  }

  lemma {:induction false} RootEarliest(t: seq<int>, i: nat)
    requires Ordered(t) && i < |t|
    ensures t[0] <= t[i]
  {
    if i > 0 { RootEarliest(t, Parent(i)); }
  }

  // ---------------------------------------------------------------------------------------------
  // Entries.

  datatype Action = Down | Up

  datatype Scenario = Clean | Rare | Typical | Aggressive

  datatype Key = Key(ip: string, ifIndex: nat)

  const SECOND: nat := 1_000_000_000

  /** Mean interval and the range of outage lengths, in nanoseconds; a clean scenario never flaps. */
  function FlapBand(s: Scenario): (nat, nat, nat) {
    match s
    case Clean => (0, 0, 0)
    case Rare => (6 * 3600 * SECOND, SECOND, 10 * SECOND)
    case Typical => (15 * 60 * SECOND, SECOND, 30 * SECOND)
    case Aggressive => (60 * SECOND, SECOND, 5 * SECOND)
  }

  /** The generator's draw below a bound. */
  ghost predicate DrawsBelow(int63n: nat -> nat) { forall n: nat | n > 0 :: int63n(n) < n }

  /**
   How long until the counterpart of an action: an outage lasts one second up to ten, thirty or five; the next one
   comes after `exp` times six hours, a quarter of an hour or a minute. The range of outages is never empty.
   */
  method NextOffset(s: Scenario, action: Action, int63n: nat -> nat, exp: real) returns (offset: nat)
    requires !s.Clean? && DrawsBelow(int63n) && exp >= 0.0
    ensures var longest := if s.Rare? then 10_000_000_000 else if s.Typical? then 30_000_000_000 else 5_000_000_000;
            action.Down? ==> 1_000_000_000 <= offset <= longest
    ensures var mean := if s.Rare? then 21_600.0 else if s.Typical? then 900.0 else 60.0;
            action.Up? ==> offset as real <= exp * mean * 1_000_000_000.0 < offset as real + 1.0
  {
    var (mean, low, high) := FlapBand(s);
    match action
    case Down =>
      offset := low + int63n(high - low + 1);
    case Up =>
      offset := (exp * mean as real).Floor;
  }

  /** One queued event; only its place in the heap changes. */
  class FlapEntry {
    const nextFire: int
    const key: Key
    const action: Action
    const scenario: Scenario
    var index: int

    constructor (nextFire: int, key: Key, action: Action, scenario: Scenario)
      ensures this.nextFire == nextFire && this.key == key && this.action == action && this.scenario == scenario
    {
      this.nextFire, this.key, this.action, this.scenario := nextFire, key, action, scenario;
      index := 0;
    }
  }

  ghost function Times(h: seq<FlapEntry>): seq<int> { seq(|h|, i requires 0 <= i < |h| => h[i].nextFire) }

  ghost predicate Indexed(h: seq<FlapEntry>)
    reads h
  {
    forall i | 0 <= i < |h| :: h[i].index == i
  }

  ghost function Elems(h: seq<FlapEntry>): set<FlapEntry> { set e | e in h }

  ghost predicate SameEntries(a: seq<FlapEntry>, b: seq<FlapEntry>) {
    |a| == |b| && Elems(a) == Elems(b)
  }

  lemma SwappedSame(h: seq<FlapEntry>, i: nat, j: nat)
    requires i < |h| && j < |h|
    ensures SameEntries(h, Swapped(h, i, j)) && Times(Swapped(h, i, j)) == Swapped(Times(h), i, j)
  {
    var s := Swapped(h, i, j);
    forall e | e in h ensures e in s {
      var k :| 0 <= k < |h| && h[k] == e;
      assert s[if k == i then j else if k == j then i else k] == e;
    }
  }

  /** The event queue: a slice of entries in heap order. */
  class FlapHeap {
    var slots: seq<FlapEntry>

    constructor ()
      ensures slots == []
    {
      slots := [];
    }

    ghost predicate Valid()
      reads this, slots
    {
      Indexed(slots) && Ordered(Times(slots))
    }

    method Swap(i: nat, j: nat)
      requires i < |slots| && j < |slots| && Indexed(slots)
      modifies this, Elems(slots)
      ensures slots == Swapped(old(slots), i, j) && Indexed(slots)
      ensures SameEntries(slots, old(slots)) && Times(slots) == Swapped(Times(old(slots)), i, j)
    {
      SwappedSame(slots, i, j);
      ghost var before := slots;
      var (a, b) := (slots[i], slots[j]);
      slots := slots[i := b][j := a];
      slots[i].index := i;
      slots[j].index := j;
    }

    /** Moves an entry that may be too early for its place towards the root. */
    method SiftUp(start: nat)
      requires Indexed(slots) && UpHole(Times(slots), start)
      modifies this, Elems(slots)
      ensures Valid() && SameEntries(slots, old(slots))
    {
      var j := start;
      while j > 0 && slots[j].nextFire < slots[Parent(j)].nextFire
        invariant SameEntries(slots, old(slots)) && Indexed(slots) && UpHole(Times(slots), j)
        decreases j
      {
        hide UpHole, Elems;
        UpSwap(Times(slots), j);
        Swap(Parent(j), j);
        j := Parent(j);
      }
    }

    /** The earliest child of `i`, if it is earlier than `i` itself. */
    method EarlierChild(i: nat) returns (j: nat)
      requires i < |slots|
      ensures j <= |slots| && (j < |slots| ==> Sinks(Times(slots), i, j))
      ensures j == |slots| ==> forall c | 0 < c < |slots| && Parent(c) == i :: Times(slots)[i] <= Times(slots)[c]
    {
      var left := 2 * i + 1;
      if left >= |slots| {
        return |slots|;
      }
      j := left;
      if left + 1 < |slots| && slots[left + 1].nextFire < slots[left].nextFire { j := left + 1; }
      EarliestChild(Times(slots), i, j);
      if slots[j].nextFire >= slots[i].nextFire { return |slots|; }
    }

    /** Moves an entry that may be too late for its place away from the root; says whether it moved. */
    method SiftDown(start: nat) returns (moved: bool)
      requires Indexed(slots) && Hole(Times(slots), start)
      modifies this, Elems(slots)
      ensures Indexed(slots) && SameEntries(slots, old(slots))
      ensures if moved then Ordered(Times(slots)) else slots == old(slots) && UpHole(Times(slots), start)
    {
      var i := start;
      assert start < |slots|;
      hide Hole, UpHole, Ordered, Sinks, Elems;
      var j := EarlierChild(i);
      while j < |slots|
        invariant SameEntries(slots, old(slots)) && Indexed(slots) && Hole(Times(slots), i)
        invariant start <= i < |slots| && 0 <= j <= |slots|
        invariant j < |slots| ==> Sinks(Times(slots), i, j)
        invariant j == |slots| ==> forall c | 0 < c < |slots| && Parent(c) == i :: Times(slots)[i] <= Times(slots)[c]
        invariant i == start ==> slots == old(slots)
        invariant i > start ==> Times(slots)[Parent(i)] <= Times(slots)[i]
        decreases |slots| - i
      {
        DownSwap(Times(slots), i, j);
        Swap(i, j);
        i := j;
        j := EarlierChild(i);
      }
      moved := i > start;
    }

    /** Puts a new entry into the queue. */
    method Push(e: FlapEntry)
      requires Valid() && e !in Elems(slots)
      modifies this, Elems(slots), e
      ensures Valid() && Elems(slots) == Elems(old(slots)) + {e}
    {
      ghost var before := slots;
      e.index := |slots|;
      slots := slots + [e];
      assert Times(slots) == Times(before) + [e.nextFire];
      SiftUp(|slots| - 1);
    }

    /** Shortens the slice by its last entry. */
    method CutLast() returns (e: FlapEntry)
      requires Indexed(slots) && slots != []
      modifies this, Elems(slots)
      ensures var n := |old(slots)| - 1; e == old(slots)[n] && slots == old(slots)[..n]
      ensures e.index == -1 && Indexed(slots) && Elems(slots) == Elems(old(slots)) - {e}
    {
      var n := |slots| - 1;
      e := slots[n];
      assert forall k | 0 <= k < n :: slots[k].index == k;
      assert slots == slots[..n] + [e];
      slots := slots[..n];
      assert e !in Elems(slots);
      e.index := -1;
    }

    /** Takes the entry at `i` out, from anywhere in the queue. */
    method Remove(i: nat) returns (e: FlapEntry)
      requires Valid() && i < |slots|
      modifies this, Elems(slots)
      ensures e == old(slots)[i] && e.index == -1 && Valid() && Elems(slots) == Elems(old(slots)) - {e}
    {
      var n := |slots| - 1;
      ghost var before := Times(slots);
      if n != i {
        Swap(i, n);
        e := CutLast();
        assert Times(slots) == before[i := before[n]][..n];
        Settle(i);
      } else {
        e := CutLast();
        assert Times(slots) == before[..n];
      }
    }

    /** Puts a replaced entry where it belongs, downwards or, failing that, upwards. */
    method Settle(i: nat)
      requires Indexed(slots) && Hole(Times(slots), i)
      modifies this, Elems(slots)
      ensures Valid() && SameEntries(slots, old(slots))
    {
      var moved := SiftDown(i);
      if !moved { SiftUp(i); }
    }

    /** Takes the earliest entry out. */
    method Pop() returns (e: FlapEntry)
      requires Valid() && slots != []
      modifies this, Elems(slots)
      ensures e in Elems(old(slots)) && e.index == -1 && Valid() && Elems(slots) == Elems(old(slots)) - {e}
      ensures forall x | x in Elems(old(slots)) :: e.nextFire <= x.nextFire
    {
      forall x | x in Elems(slots) ensures slots[0].nextFire <= x.nextFire {
        var k :| 0 <= k < |slots| && slots[k] == x;
        RootEarliest(Times(slots), k);
      }
      e := Remove(0);
    }
  }

  lemma EarliestChild(t: seq<int>, i: nat, j: nat)
    requires 2 * i + 1 < |t| && j < |t| && 2 * i + 1 <= j <= 2 * i + 2
    requires if j == 2 * i + 1 then 2 * i + 2 >= |t| || t[j] <= t[2 * i + 2] else t[j] < t[2 * i + 1]
    ensures Parent(j) == i && forall c | 0 < c < |t| && Parent(c) == i :: t[j] <= t[c]
  {
    forall c | 0 < c < |t| && Parent(c) == i ensures t[j] <= t[c] { assert c == 2 * i + 1 || c == 2 * i + 2; }
  }

  // ---------------------------------------------------------------------------------------------
  // What happened to each interface.

  datatype Event = Registered(key: Key) | Fired(key: Key, action: Action) | Dropped(key: Key)

  /** The action due next for a key: down after a registration or an up, up after a down. */
  function NextAction(log: seq<Event>, k: Key): Action {
    if log == [] then Down
    else
      match log[|log| - 1]
      case Fired(key, a) => if key == k then (if a.Down? then Up else Down) else NextAction(log[..|log| - 1], k)
      case Registered(key) => if key == k then Down else NextAction(log[..|log| - 1], k)
      case Dropped(_) => NextAction(log[..|log| - 1], k)
  }

  /** Whether a key is registered, by the last thing that happened to it. */
  predicate IsRegistered(log: seq<Event>, k: Key) {
    log != [] &&
    match log[|log| - 1]
    case Fired(_, _) => IsRegistered(log[..|log| - 1], k)
    case Registered(key) => key == k || IsRegistered(log[..|log| - 1], k)
    case Dropped(key) => key != k && IsRegistered(log[..|log| - 1], k)
  }

  /** Every fired action was the one due, and of a registered interface. */
  ghost predicate Alternates(log: seq<Event>) {
    forall i | 0 <= i < |log| && log[i].Fired? ::
      log[i].action == NextAction(log[..i], log[i].key) && IsRegistered(log[..i], log[i].key)
  }

  lemma LogGrows(log: seq<Event>, e: Event)
    requires Alternates(log) && (e.Fired? ==> e.action == NextAction(log, e.key) && IsRegistered(log, e.key))
    ensures Alternates(log + [e])
  {
    var n := log + [e];
    assert n[..|log|] == log;
    forall i | 0 <= i < |n| && n[i].Fired?
      ensures n[i].action == NextAction(n[..i], n[i].key) && IsRegistered(n[..i], n[i].key)
    {
      if i < |log| { assert n[..i] == log[..i]; }
    }
  }

  lemma LogStep(log: seq<Event>, e: Event, k: Key)
    ensures NextAction(log + [e], k) ==
            match e
            case Fired(key, a) => if key == k then (if a.Down? then Up else Down) else NextAction(log, k)
            case Registered(key) => if key == k then Down else NextAction(log, k)
            case Dropped(_) => NextAction(log, k)
    ensures IsRegistered(log + [e], k) ==
            match e
            case Fired(_, _) => IsRegistered(log, k)
            case Registered(key) => key == k || IsRegistered(log, k)
            case Dropped(key) => key != k && IsRegistered(log, k)
  {
    assert (log + [e])[..|log|] == log;
  }

  // ---------------------------------------------------------------------------------------------
  // The scheduler.

  class Scheduler {
    const queue: FlapHeap
    var byKey: map<Key, FlapEntry>
    /** Every registration, fire and removal so far. */
    ghost var log: seq<Event>

    constructor ()
      ensures Valid() && fresh(queue) && byKey == map[] && log == []
    {
      queue := new FlapHeap();
      byKey, log := map[], [];
    }

    /** The queue and the table hold the same entries: one pending event per key. */
    ghost predicate Paired()
      reads this, queue
    {
      && (forall k | k in byKey :: byKey[k] in Elems(queue.slots) && byKey[k].key == k)
      && (forall e | e in Elems(queue.slots) :: e.key in byKey && byKey[e.key] == e)
    }

    ghost predicate Valid()
      reads this, queue, Elems(queue.slots)
    {
      queue.Valid() && Paired() && InStep(log, byKey)
    }

    /** A registered key's entry is where its back-pointer says. */
    lemma WellPlaced(k: Key)
      requires queue.Valid() && Paired() && k in byKey
      ensures 0 <= byKey[k].index < |queue.slots| && queue.slots[byKey[k].index] == byKey[k]
    {
    }

    /** Takes one key's event out of the queue. */
    method Drop(k: Key)
      requires queue.Valid() && Paired() && k in byKey
      modifies this, queue, Elems(queue.slots)
      ensures queue.Valid() && Paired() && byKey == old(byKey) - {k} && log == old(log)
      ensures Elems(queue.slots) == Elems(old(queue.slots)) - {old(byKey)[k]}
    {
      WellPlaced(k);
      hide FlapHeap.Valid, Elems;
      var e := queue.Remove(byKey[k].index);
      byKey := byKey - {k};
    }

    /** Queues an event for a key that has none. */
    method Add(k: Key, e: FlapEntry)
      requires queue.Valid() && Paired() && k !in byKey && e.key == k && e !in Elems(queue.slots)
      modifies this, queue, Elems(queue.slots), e
      ensures queue.Valid() && Paired() && byKey == old(byKey)[k := e] && log == old(log)
      ensures Elems(queue.slots) == Elems(old(queue.slots)) + {e}
    {
      hide FlapHeap.Valid, Elems;
      queue.Push(e);
      byKey := byKey[k := e];
    }

    /** (Re)registers one interface: whatever it had pending is replaced by a fresh down event. */
    method RegisterOne(k: Key, at: int, scenario: Scenario)
      requires Valid() && !scenario.Clean?
      modifies this, queue, Elems(queue.slots)
      ensures Valid() && log == old(log) + [Registered(k)] && fresh(Elems(queue.slots) - Elems(old(queue.slots)))
      ensures k in byKey && byKey == old(byKey)[k := byKey[k]] && fresh(byKey[k])
      ensures byKey[k].nextFire == at && byKey[k].scenario == scenario && byKey[k].action == Down
    {
      hide FlapHeap.Valid, Elems, InStep;
      ghost var before := byKey;
      if k in byKey { Drop(k); }
      var e := new FlapEntry(at, k, Down, scenario);
      Add(k, e);
      log := log + [Registered(k)];
      assert byKey == before[k := e];
      LogRegistered(old(log), k, before, e);
    }

    /**
     Registers a device's interfaces, except those without a link of their own. `draw(i)` is the i-th random offset.
     Whatever an asked interface had pending is replaced; the last mention of an interface decides its offset.
     */
    method Register(ip: string, ifIndexes: seq<nat>, scenario: Scenario, linkless: set<nat>, now: int, draw: nat -> nat)
      requires Valid()
      modifies this, queue, Elems(queue.slots)
      ensures Valid() && fresh(Elems(queue.slots) - Elems(old(queue.slots)))
      ensures var asked := if scenario.Clean? then {} else Asked(ip, ifIndexes, linkless);
              && byKey.Keys == old(byKey).Keys + asked
              && (forall k | k in byKey && k !in asked :: byKey[k] == old(byKey)[k])
              && (forall k | k in asked ::
                    Renewed(byKey[k], ifIndexes, k.ifIndex, scenario, now, draw) && fresh(byKey[k]))
    {
      hide FlapHeap.Valid, Elems, InStep, Asked, Renewed;
      var (mean, _, _) := FlapBand(scenario);
      if mean == 0 { return; }
      NoneAsked(ip, linkless);
      assert ifIndexes[..0] == [];
      for n := 0 to |ifIndexes|
        invariant Valid() && fresh(Elems(queue.slots) - Elems(old(queue.slots)))
        invariant byKey.Keys == old(byKey).Keys + Asked(ip, ifIndexes[..n], linkless)
        invariant forall k | k in byKey && k !in Asked(ip, ifIndexes[..n], linkless) :: byKey[k] == old(byKey)[k]
        invariant forall k | k in Asked(ip, ifIndexes[..n], linkless) ::
                    Renewed(byKey[k], ifIndexes[..n], k.ifIndex, scenario, now, draw) && fresh(byKey[k])
      {
        var i := ifIndexes[n];
        ghost var was := byKey;
        AskedOneMore(ip, ifIndexes, n, linkless);
        if i !in linkless { RegisterOne(Key(ip, i), now + draw(n), scenario); }
        forall k | k in Asked(ip, ifIndexes[..n + 1], linkless)
          ensures Renewed(byKey[k], ifIndexes[..n + 1], k.ifIndex, scenario, now, draw) && fresh(byKey[k])
        {
          AskedAre(ip, ifIndexes[..n + 1], linkless, k);
          if k.ifIndex != i { RenewedStays(was[k], ifIndexes, n, k.ifIndex, scenario, now, draw); }
          else { RenewedNow(byKey[k], ifIndexes, n, scenario, now, draw); }
        }
      }
      assert ifIndexes[..|ifIndexes|] == ifIndexes;
    }

    /** Removes every event of a device. */
    method Deregister(ip: string)
      requires Valid()
      modifies this, queue, Elems(queue.slots)
      ensures Valid() && byKey == map k | k in old(byKey) && k.ip != ip :: old(byKey)[k]
      ensures Elems(queue.slots) <= Elems(old(queue.slots))
    {
      hide FlapHeap.Valid, Elems, InStep;
      var todo := set k | k in byKey && k.ip == ip;
      while todo != {}
        invariant Valid()
        invariant forall k | k in todo :: k in byKey && k.ip == ip
        invariant forall k | k in byKey :: k in old(byKey) && byKey[k] == old(byKey)[k] && (k.ip == ip ==> k in todo)
        invariant forall k | k in old(byKey) && k.ip != ip :: k in byKey
        invariant Elems(queue.slots) <= Elems(old(queue.slots))
        decreases |todo|
      {
        var k :| k in todo;
        ghost var was := byKey;
        Drop(k);
        LogDropped(log, k, was);
        log := log + [Dropped(k)];
        todo := todo - {k};
      }
    }

    /**
     The pop, reschedule and fire step. The popped entry is always the one its key is registered under, so the
     check for a replaced entry never triggers, and the counterpart is queued under the same key.
     */
    method Fire(now: int, int63n: nat -> nat, exp: real) returns (fired: FlapEntry)
      requires Valid() && queue.slots != [] && DrawsBelow(int63n) && exp >= 0.0
      modifies this, queue, Elems(queue.slots)
      ensures Valid() && fresh(Elems(queue.slots) - Elems(old(queue.slots)))
      ensures fired in Elems(old(queue.slots)) && fired.key in old(byKey) && fired == old(byKey)[fired.key]
      ensures forall e | e in Elems(old(queue.slots)) :: fired.nextFire <= e.nextFire
      ensures log == old(log) + [Fired(fired.key, fired.action)]
      ensures fired.key in byKey && byKey == old(byKey)[fired.key := byKey[fired.key]]
      ensures var next := byKey[fired.key];
              next.action != fired.action && next.nextFire >= now && next.scenario == fired.scenario
      ensures var next := byKey[fired.key];
              fired.action.Down? ==> now + 1_000_000_000 <= next.nextFire <= now + 30_000_000_000
    {
      hide FlapHeap.Valid, Elems, InStep, DrawsBelow;
      ghost var was := byKey;
      fired := queue.Pop();
      var k := fired.key;
      assert k in byKey && byKey[k] == fired;
      byKey := byKey - {k};
      NeverClean(log, was, k);
      var offset := NextOffset(fired.scenario, fired.action, int63n, exp);
      var next := new FlapEntry(now + offset, k, if fired.action.Down? then Up else Down, fired.scenario);
      Add(k, next);
      LogFired(log, k, was, next);
      log := log + [Fired(k, fired.action)];
      assert byKey == was[k := next];
    }
  }

  ghost function Asked(ip: string, ifs: seq<nat>, linkless: set<nat>): set<Key> {
    set i | i in ifs && i !in linkless :: Key(ip, i)
  }

  lemma NoneAsked(ip: string, linkless: set<nat>)
    ensures Asked(ip, [], linkless) == {}
  {
  }

  lemma AskedAre(ip: string, ifs: seq<nat>, linkless: set<nat>, k: Key)
    requires k in Asked(ip, ifs, linkless)
    ensures k == Key(ip, k.ifIndex) && k.ifIndex in ifs && k.ifIndex !in linkless
  {
  }

  /** A fresh down event for interface `i`, at the offset drawn for its last mention. */
  ghost predicate Renewed(e: FlapEntry, ifs: seq<nat>, i: nat, scenario: Scenario, now: int, draw: nat -> nat) {
    && e.action == Down && e.scenario == scenario
    && exists n: nat :: LastMention(ifs, i, n) && e.nextFire == now + draw(n)
  }

  ghost predicate LastMention(ifs: seq<nat>, i: nat, n: nat) {
    n < |ifs| && ifs[n] == i && forall m | n < m < |ifs| :: ifs[m] != i
  }

  lemma RenewedStays(e: FlapEntry, ifs: seq<nat>, n: nat, i: nat, scenario: Scenario, now: int, draw: nat -> nat)
    requires n < |ifs| && ifs[n] != i && Renewed(e, ifs[..n], i, scenario, now, draw)
    ensures Renewed(e, ifs[..n + 1], i, scenario, now, draw)
  {
    var m: nat :| LastMention(ifs[..n], i, m) && e.nextFire == now + draw(m);
    assert LastMention(ifs[..n + 1], i, m);
  }

  lemma RenewedNow(e: FlapEntry, ifs: seq<nat>, n: nat, scenario: Scenario, now: int, draw: nat -> nat)
    requires n < |ifs| && e.action == Down && e.scenario == scenario && e.nextFire == now + draw(n)
    ensures Renewed(e, ifs[..n + 1], ifs[n], scenario, now, draw)
  {
    assert LastMention(ifs[..n + 1], ifs[n], n);
  }

  lemma AskedOneMore(ip: string, ifs: seq<nat>, n: nat, linkless: set<nat>)
    requires n < |ifs|
    ensures Asked(ip, ifs[..n + 1], linkless) ==
            Asked(ip, ifs[..n], linkless) + if ifs[n] in linkless then {} else {Key(ip, ifs[n])}
  {
    assert ifs[..n + 1] == ifs[..n] + [ifs[n]];
  }

  /** What the table and the log must agree on. */
  ghost predicate InStep(log: seq<Event>, byKey: map<Key, FlapEntry>) {
    && Alternates(log)
    && (forall k :: k in byKey <==> IsRegistered(log, k))
    && (forall k | k in byKey :: byKey[k].action == NextAction(log, k) && !byKey[k].scenario.Clean?)
  }

  lemma NeverClean(log: seq<Event>, byKey: map<Key, FlapEntry>, k: Key)
    requires InStep(log, byKey) && k in byKey
    ensures !byKey[k].scenario.Clean?
  {
  }

  lemma LogRegistered(log: seq<Event>, k: Key, byKey: map<Key, FlapEntry>, e: FlapEntry)
    requires InStep(log, byKey) && e.action == Down && !e.scenario.Clean?
    ensures InStep(log + [Registered(k)], byKey[k := e])
  {
    hide NextAction, IsRegistered, Alternates;
    LogGrows(log, Registered(k));
    forall j { LogStep(log, Registered(k), j); }
  }

  lemma LogDropped(log: seq<Event>, k: Key, byKey: map<Key, FlapEntry>)
    requires InStep(log, byKey)
    ensures InStep(log + [Dropped(k)], byKey - {k})
  {
    hide NextAction, IsRegistered, Alternates;
    LogGrows(log, Dropped(k));
    forall j { LogStep(log, Dropped(k), j); }
  }

  lemma LogFired(log: seq<Event>, k: Key, byKey: map<Key, FlapEntry>, next: FlapEntry)
    requires InStep(log, byKey) && k in byKey && next.action != byKey[k].action && next.scenario == byKey[k].scenario
    ensures InStep(log + [Fired(k, byKey[k].action)], byKey[k := next])
  {
    hide NextAction, IsRegistered, Alternates;
    LogGrows(log, Fired(k, byKey[k].action));
    forall j { LogStep(log, Fired(k, byKey[k].action), j); }
  }
}
