/**
 The interface state engine: link, admin and last-change are stored, oper-status is derived (sections
 3.1.13, 3.1.14 and 6 of RFC 2863). A mutation of a parent cascades one level to its subinterfaces.
 Mutations of a family run one at a time under the family lock, so a run is a sequence of operations.
 */
module StateEngine {
  import opened Common
  import opened Sorting
  import Hierarchy

  // ifOperStatus and ifAdminStatus values the rules name.
  const OPER_UP: nat := 1
  const OPER_DOWN: nat := 2
  const OPER_TESTING: nat := 3
  const OPER_UNKNOWN: nat := 4
  const OPER_LOWER_LAYER_DOWN: nat := 7
  const ADMIN_UP: nat := 1
  const ADMIN_DOWN: nat := 2
  const ADMIN_TESTING: nat := 3

  /** One stored word, unpacked. `rel` is nanoseconds since boot. */
  datatype Slot = Slot(link: nat, admin: nat, rel: nat) {
    /** The defaults an unseeded word reads as. */
    function Norm(): Slot {
      Slot(if link == 0 then OPER_UNKNOWN else link, if admin == 0 then ADMIN_UP else admin, rel)
    }
  }

  /** Admin down and testing force the result; admin up releases it to the physical layer. */
  function DeriveOper(admin: nat, link: nat): nat {
    if admin == ADMIN_DOWN then OPER_DOWN else if admin == ADMIN_TESTING then OPER_TESTING else link
  }

  /** An interface that would be up reads lowerLayerDown while the one beneath it is not up. */
  function DeriveChildOper(admin: nat, link: nat, parentOper: nat): nat {
    var oper := DeriveOper(admin, link);
    if oper == OPER_UP && parentOper != OPER_UP then OPER_LOWER_LAYER_DOWN else oper
  }

  datatype ChangedLeaf = OperLeaf | AdminLeaf

  datatype Event = Event(ifIndex: nat, oper: nat, prevOper: nat, admin: nat, link: nat, rel: nat, changed: ChangedLeaf)

  /** Slots and the family tables; a parent of 0 means top-level. */
  datatype Engine = Engine(slots: seq<Slot>, parent: seq<nat>, children: seq<seq<nat>>) {
    ghost predicate Shaped() {
      |slots| == |parent| == |children| && forall s | 0 <= s < |parent| :: parent[s] <= |parent|
    }

    /** One level: a parent is top-level, and the child lists are the parent table read backwards. */
    ghost predicate Valid() {
      && Shaped()
      && (forall s | 0 <= s < |parent| && parent[s] != 0 :: parent[parent[s] - 1] == 0)
      && (forall s, c | 0 <= s < |children| && c in children[s] :: 1 <= c <= |parent| && parent[c - 1] == s + 1)
      && (forall c | 0 <= c < |parent| && parent[c] != 0 :: c + 1 in children[parent[c] - 1])
      && (forall s, j, k | 0 <= s < |children| && 0 <= j < k < |children[s]| :: children[s][j] != children[s][k])
    }

    /**
     The parent's derived oper-status, or up for a top-level interface. Parents are top-level, so this does not recurse.
     */
    function ParentOper(s: nat): nat
      requires Shaped() && s < |slots|
    {
      if parent[s] == 0 then OPER_UP
      else var p := slots[parent[s] - 1].Norm(); DeriveOper(p.admin, p.link)
    }

    function Oper(s: nat): nat
      requires Shaped() && s < |slots|
    {
      DeriveChildOper(slots[s].Norm().admin, slots[s].Norm().link, ParentOper(s))
    }
  }

  // ---------------------------------------------------------------------------------------------
  // The mutators, as functions of the engine.

  datatype Outcome = Outcome(engine: Engine, events: seq<Event>)

  function OperEvent(ifIndex: nat, slot: Slot, was: nat, now: nat, rel: nat): Event {
    Event(ifIndex, now, was, slot.admin, slot.link, rel, OperLeaf)
  }

  /** Each listed child whose derived oper moved with its parent is stamped and reports it. */
  function Cascade(slots: seq<Slot>, kids: seq<nat>, wasParent: nat, nowParent: nat, rel: nat)
    : (r: (seq<Slot>, seq<Event>))
    requires InRange(kids, |slots|)
    ensures |r.0| == |slots|
    decreases |kids|
  {
    if kids == [] then (slots, [])
    else
      var front := Cascade(slots, kids[..|kids| - 1], wasParent, nowParent, rel);
      var c := kids[|kids| - 1];
      var slot := front.0[c - 1].Norm();
      var was := DeriveChildOper(slot.admin, slot.link, wasParent);
      var now := DeriveChildOper(slot.admin, slot.link, nowParent);
      if was == now then front
      else (front.0[c - 1 := slot.(rel := rel)], front.1 + [OperEvent(c, slot, was, now, rel)])
  }

  ghost predicate InRange(kids: seq<nat>, n: nat) {
    forall k | 0 <= k < |kids| :: 1 <= kids[k] <= n
  }

  /** A stored word replaced and, when the derived value moved, the family told. */
  function Commit(e: Engine, s: nat, slot: Slot, own: seq<Event>, was: nat, now: nat, rel: nat): (r: Outcome)
    requires e.Shaped() && s < |e.slots| && InRange(e.children[s], |e.slots|)
    ensures |r.engine.slots| == |e.slots| && r.engine.parent == e.parent && r.engine.children == e.children
  {
    var slots := e.slots[s := slot];
    if was == now then Outcome(e.(slots := slots), own)
    else
      var r := Cascade(slots, e.children[s], was, now, rel);
      Outcome(e.(slots := r.0), own + [OperEvent(s + 1, slot, was, now, rel)] + r.1)
  }

  lemma KidsInRange(e: Engine, s: nat)
    requires e.Valid() && s < |e.slots|
    ensures InRange(e.children[s], |e.slots|)
  {
    assert forall k | 0 <= k < |e.children[s]| :: e.children[s][k] in e.children[s];
  }

  datatype Op =
    | SetLink(ifIndex: nat, value: nat, rel: nat)
    | SetAdmin(ifIndex: nat, value: nat, rel: nat)

  function SetLinkState(e: Engine, ifIndex: nat, value: nat, rel: nat): Outcome
    requires e.Valid()
  {
    if !(1 <= ifIndex <= |e.slots|) || !(OPER_UP <= value <= OPER_LOWER_LAYER_DOWN) then Outcome(e, [])
    else
      var s := ifIndex - 1;
      var cur := e.slots[s].Norm();
      if cur.link == value then Outcome(e, [])
      else
        var was := e.Oper(s);
        var now := DeriveChildOper(cur.admin, value, e.ParentOper(s));
        KidsInRange(e, s);
        Commit(e, s, Slot(value, cur.admin, if was == now then cur.rel else rel), [], was, now, rel)
  }

  function SetAdminLeaf(e: Engine, ifIndex: nat, value: nat, rel: nat): Outcome
    requires e.Valid()
  {
    if !(1 <= ifIndex <= |e.slots|) || !(ADMIN_UP <= value <= ADMIN_TESTING) then Outcome(e, [])
    else
      var s := ifIndex - 1;
      var cur := e.slots[s].Norm();
      if cur.admin == value then Outcome(e, [])
      else
        var was := e.Oper(s);
        var now := DeriveChildOper(value, cur.link, e.ParentOper(s));
        var stamp := if was == now then cur.rel else rel;
        KidsInRange(e, s);
        Commit(e, s, Slot(cur.link, value, stamp),
               [Event(ifIndex, now, was, value, cur.link, stamp, AdminLeaf)], was, now, rel)
  }

  function Apply(e: Engine, op: Op): Outcome
    requires e.Valid()
  {
    match op
    case SetLink(i, v, rel) => SetLinkState(e, i, v, rel)
    case SetAdmin(i, v, rel) => SetAdminLeaf(e, i, v, rel)
  }

  // ---------------------------------------------------------------------------------------------
  // One operation, seen from one interface.

  /** The oper events of one interface, in order. */
  function OperEvents(es: seq<Event>, ifIndex: nat): seq<Event> {
    if es == [] then []
    else
      var before := OperEvents(es[..|es| - 1], ifIndex);
      var last := es[|es| - 1];
      if last.ifIndex == ifIndex && last.changed == OperLeaf then before + [last] else before
  }

  lemma {:induction false} OperEventsConcat(a: seq<Event>, b: seq<Event>, i: nat)
    ensures OperEvents(a + b, i) == OperEvents(a, i) + OperEvents(b, i)
    decreases |b|
  {
    if b == [] {
      assert a + b == a;
    } else {
      assert (a + b)[..|a + b| - 1] == a + b[..|b| - 1];
      OperEventsConcat(a, b[..|b| - 1], i);
    }
  }

  /** The cascade touches the listed children that moved, stamps them and nothing else, and reports each once. */
  lemma {:induction false} CascadeExact(slots: seq<Slot>, kids: seq<nat>, was: nat, now: nat, rel: nat, i: nat)
    requires InRange(kids, |slots|)
    requires forall j, k | 0 <= j < k < |kids| :: kids[j] != kids[k]
    requires 1 <= i <= |slots|
    ensures var r := Cascade(slots, kids, was, now, rel);
            var slot := slots[i - 1].Norm();
            var (w, n) := (DeriveChildOper(slot.admin, slot.link, was), DeriveChildOper(slot.admin, slot.link, now));
            if i in kids && w != n
            then r.0[i - 1] == slot.(rel := rel) && OperEvents(r.1, i) == [OperEvent(i, slot, w, n, rel)]
            else r.0[i - 1] == slots[i - 1] && OperEvents(r.1, i) == []
    decreases |kids|
  {
    if kids != [] {
      var front := kids[..|kids| - 1];
      var c := kids[|kids| - 1];
      CascadeExact(slots, front, was, now, rel, i);
      CascadeExact(slots, front, was, now, rel, c);
      assert c !in front;
      assert i in kids <==> i in front || i == c;
      var f := Cascade(slots, front, was, now, rel);
      var r := Cascade(slots, kids, was, now, rel);
      if r.1 != f.1 { assert r.1[..|r.1| - 1] == f.1; }
    }
  }

  /** What one operation may do to one interface. */
  ghost predicate Exact(e: Engine, r: Outcome, rel: nat, s: nat)
    requires e.Shaped() && r.engine.Shaped() && |r.engine.slots| == |e.slots| && s < |e.slots|
  {
    var (was, now) := (e.Oper(s), r.engine.Oper(s));
    if was == now then
      OperEvents(r.events, s + 1) == [] && r.engine.slots[s].rel == e.slots[s].rel
    else
      var slot := r.engine.slots[s];
      slot.rel == rel && OperEvents(r.events, s + 1) ==
        [Event(ifIndex := s + 1, oper := now, prevOper := was, admin := slot.admin, link := slot.link, rel := rel,
               changed := OperLeaf)]
  }

  /** How interface `i` stands to interface `s`: `s` itself, a child of `s`, or outside the family. */
  ghost predicate Related(e: Engine, s: nat, i: nat)
    requires e.Shaped() && s < |e.slots| && i < |e.slots|
  {
    var kids := e.children[s];
    && InRange(kids, |e.slots|) && (forall j, k | 0 <= j < k < |kids| :: kids[j] != kids[k])
    && s + 1 !in kids
    && (i + 1 in kids <==> e.parent[i] == s + 1)
    && (e.parent[i] == s + 1 ==> e.parent[s] == 0)
    && e.parent[i] !in kids
  }

  lemma AllRelated(e: Engine, s: nat, i: nat)
    requires e.Valid() && s < |e.slots| && i < |e.slots|
    ensures Related(e, s, i)
  {
    KidsInRange(e, s);
    assert s + 1 !in e.children[s] by { assert e.parent[s] != s + 1; }
    if e.parent[i] != 0 { assert e.parent[e.parent[i] - 1] == 0; }
  }

  /** The slots after a visible commit. */
  lemma CommitSlots(e: Engine, s: nat, slot: Slot, own: seq<Event>, was: nat, now: nat, rel: nat, i: nat)
    requires e.Shaped() && s < |e.slots| && i < |e.slots| && Related(e, s, i) && was != now
    ensures var r := Commit(e, s, slot, own, was, now, rel).engine.slots;
            var cur := e.slots[i].Norm();
            var (w, n) := (DeriveChildOper(cur.admin, cur.link, was), DeriveChildOper(cur.admin, cur.link, now));
            && r[s] == slot
            && (i != s ==> r[i] == if e.parent[i] == s + 1 && w != n then cur.(rel := rel) else e.slots[i])
            && (e.parent[i] != 0 ==>
                  r[e.parent[i] - 1] == if e.parent[i] == s + 1 then slot else e.slots[e.parent[i] - 1])
  {
    var (slots, kids) := (e.slots[s := slot], e.children[s]);
    CascadeExact(slots, kids, was, now, rel, i + 1);
    CascadeExact(slots, kids, was, now, rel, s + 1);
    if e.parent[i] != 0 { CascadeExact(slots, kids, was, now, rel, e.parent[i]); }
  }

  lemma ThreeParts(own: seq<Event>, ev: Event, rest: seq<Event>, i: nat)
    requires OperEvents(own, i) == [] && ev.changed == OperLeaf
    ensures OperEvents(own + [ev] + rest, i) == (if ev.ifIndex == i then [ev] else []) + OperEvents(rest, i)
  {
    OperEventsConcat(own + [ev], rest, i);
    OperEventsConcat(own, [ev], i);
  }

  /** The events of one interface after a visible commit. */
  lemma CommitEvents(e: Engine, s: nat, slot: Slot, own: seq<Event>, was: nat, now: nat, rel: nat, i: nat)
    requires e.Shaped() && s < |e.slots| && i < |e.slots| && Related(e, s, i) && was != now
    requires OperEvents(own, i + 1) == []
    ensures var cur := e.slots[i].Norm();
            var (w, n) := (DeriveChildOper(cur.admin, cur.link, was), DeriveChildOper(cur.admin, cur.link, now));
            OperEvents(Commit(e, s, slot, own, was, now, rel).events, i + 1) ==
              if i == s then [OperEvent(s + 1, slot, was, now, rel)]
              else if e.parent[i] == s + 1 && w != n then [OperEvent(i + 1, cur, w, n, rel)]
              else []
  {
    var slots := e.slots[s := slot];
    var r := Cascade(slots, e.children[s], was, now, rel);
    CascadeExact(slots, e.children[s], was, now, rel, i + 1);
    ThreeParts(own, OperEvent(s + 1, slot, was, now, rel), r.1, i + 1);
  }

  /** A word committed at `s`: every interface reports exactly its own derived change, once, stamped with it. */
  lemma CommitExact(e: Engine, s: nat, slot: Slot, own: seq<Event>, was: nat, now: nat, rel: nat, i: nat)
    requires e.Shaped() && s < |e.slots| && i < |e.slots| && Related(e, s, i) && Related(e, s, s)
    requires slot == slot.Norm() && was == e.Oper(s) && now == DeriveChildOper(slot.admin, slot.link, e.ParentOper(s))
    requires slot.rel == if was == now then e.slots[s].rel else rel
    requires OperEvents(own, i + 1) == []
    requires e.parent[s] != s + 1
    ensures var r := Commit(e, s, slot, own, was, now, rel);
            && r.engine.Shaped()
            && Exact(e, r, rel, i)
            && (i != s ==> r.engine.slots[i].Norm().(rel := 0) == e.slots[i].Norm().(rel := 0))
            && r.engine.slots[s] == slot
  {
    var r := Commit(e, s, slot, own, was, now, rel);
    if was != now {
      CommitSlots(e, s, slot, own, was, now, rel, i);
      CommitEvents(e, s, slot, own, was, now, rel, i);
      if e.parent[s] != 0 { ParentUntouched(e, s, slot, own, was, now, rel); }
    }
  }

  lemma ParentUntouched(e: Engine, s: nat, slot: Slot, own: seq<Event>, was: nat, now: nat, rel: nat)
    requires e.Shaped() && s < |e.slots| && Related(e, s, s) && was != now && e.parent[s] != 0 && e.parent[s] != s + 1
    ensures Commit(e, s, slot, own, was, now, rel).engine.slots[e.parent[s] - 1] == e.slots[e.parent[s] - 1]
  {
    CommitSlots(e, s, slot, own, was, now, rel, s);
  }

  /** Replacing slots leaves the family tables alone. */
  lemma StaysValid(e: Engine, op: Op)
    requires e.Valid()
    ensures Apply(e, op).engine.Valid() && |Apply(e, op).engine.slots| == |e.slots|
  {
    var n := Apply(e, op).engine;
    assert n.parent == e.parent && n.children == e.children;
  }

  lemma LinkExact(e: Engine, op: Op, i: nat)
    requires e.Valid() && i < |e.slots| && op.SetLink? && Apply(e, op).engine.Valid()
    ensures |Apply(e, op).engine.slots| == |e.slots| && Exact(e, Apply(e, op), op.rel, i)
  {
    if 1 <= op.ifIndex <= |e.slots| && OPER_UP <= op.value <= OPER_LOWER_LAYER_DOWN {
      var s := op.ifIndex - 1;
      var cur := e.slots[s].Norm();
      if cur.link != op.value {
        var (was, now) := (e.Oper(s), DeriveChildOper(cur.admin, op.value, e.ParentOper(s)));
        AllRelated(e, s, i);
        AllRelated(e, s, s);
        CommitExact(e, s, Slot(op.value, cur.admin, if was == now then cur.rel else op.rel), [], was, now, op.rel, i);
      }
    }
  }

  lemma AdminExact(e: Engine, op: Op, i: nat)
    requires e.Valid() && i < |e.slots| && op.SetAdmin? && Apply(e, op).engine.Valid()
    ensures |Apply(e, op).engine.slots| == |e.slots| && Exact(e, Apply(e, op), op.rel, i)
  {
    if 1 <= op.ifIndex <= |e.slots| && ADMIN_UP <= op.value <= ADMIN_TESTING {
      var s := op.ifIndex - 1;
      var cur := e.slots[s].Norm();
      if cur.admin != op.value {
        var (was, now) := (e.Oper(s), DeriveChildOper(op.value, cur.link, e.ParentOper(s)));
        var stamp := if was == now then cur.rel else op.rel;
        var ev := Event(op.ifIndex, now, was, op.value, cur.link, stamp, AdminLeaf);
        AllRelated(e, s, i);
        AllRelated(e, s, s);
        assert OperEvents([ev], i + 1) == [] by { assert [ev][..0] == []; }
        hide Related, Exact, OperEvents, Engine.Valid, Commit;
        CommitExact(e, s, Slot(cur.link, op.value, stamp), [ev], was, now, op.rel, i);
      }
    }
  }

  /** The heart of the engine: every derived change an operation causes is reported exactly once and stamped with it. */
  lemma ApplyExact(e: Engine, op: Op, i: nat)
    requires e.Valid() && i < |e.slots|
    ensures Apply(e, op).engine.Valid() && |Apply(e, op).engine.slots| == |e.slots|
    ensures Exact(e, Apply(e, op), op.rel, i)
  {
    StaysValid(e, op);
    if op.SetLink? { LinkExact(e, op, i); } else { AdminExact(e, op, i); }
  }

  // ---------------------------------------------------------------------------------------------
  // Stored values: only a setter naming an interface moves its link or admin.

  function AfterLink(op: Op, i: nat, link: nat): nat {
    if op.SetLink? && op.ifIndex == i + 1 && OPER_UP <= op.value <= OPER_LOWER_LAYER_DOWN then op.value else link
  }

  function AfterAdmin(op: Op, i: nat, admin: nat): nat {
    if op.SetAdmin? && op.ifIndex == i + 1 && ADMIN_UP <= op.value <= ADMIN_TESTING then op.value else admin
  }

  lemma CommitStored(e: Engine, s: nat, slot: Slot, own: seq<Event>, was: nat, now: nat, rel: nat, i: nat)
    requires e.Valid() && s < |e.slots| && i < |e.slots| && InRange(e.children[s], |e.slots|)
    ensures var r := Commit(e, s, slot, own, was, now, rel).engine.slots;
            r[s] == slot && (i != s ==> r[i].Norm().(rel := 0) == e.slots[i].Norm().(rel := 0))
  {
    if was != now {
      AllRelated(e, s, i);
      CommitSlots(e, s, slot, own, was, now, rel, i);
    }
  }

  lemma ApplyStored(e: Engine, op: Op, i: nat)
    requires e.Valid() && i < |e.slots|
    ensures var (was, now) := (e.slots[i].Norm(), Apply(e, op).engine.slots[i].Norm());
            now.link == AfterLink(op, i, was.link) && now.admin == AfterAdmin(op, i, was.admin)
  {
    if 1 <= op.ifIndex <= |e.slots| {
      var s := op.ifIndex - 1;
      var cur := e.slots[s].Norm();
      KidsInRange(e, s);
      var was := e.Oper(s);
      if op.SetLink? {
        var now := DeriveChildOper(cur.admin, op.value, e.ParentOper(s));
        CommitStored(e, s, Slot(op.value, cur.admin, if was == now then cur.rel else op.rel), [], was, now, op.rel, i);
      } else {
        var now := DeriveChildOper(op.value, cur.link, e.ParentOper(s));
        var stamp := if was == now then cur.rel else op.rel;
        CommitStored(e, s, Slot(cur.link, op.value, stamp),
                     [Event(op.ifIndex, now, was, op.value, cur.link, stamp, AdminLeaf)], was, now, op.rel, i);
      }
    }
  }

  // ---------------------------------------------------------------------------------------------
  // Whole runs.

  function Run(e: Engine, ops: seq<Op>): (r: Outcome)
    requires e.Valid()
    ensures r.engine.Valid() && |r.engine.slots| == |e.slots| && r.engine.parent == e.parent
  {
    if ops == [] then Outcome(e, [])
    else
      var r := Run(e, ops[..|ops| - 1]);
      var op := ops[|ops| - 1];
      StaysValid(r.engine, op);
      var next := Apply(r.engine, op);
      Outcome(next.engine, r.events + next.events)
  }

  /** Events that lead from one value to another without a gap, each of them a change. */
  predicate Chain(es: seq<Event>, from: nat, to: nat) {
    if es == [] then from == to
    else
      var last := es[|es| - 1];
      last.oper == to && last.prevOper != to && Chain(es[..|es| - 1], from, last.prevOper)
  }

  /**
   When the derived oper-status of slot `i` last moved in the run, by comparing it before and after each operation.
   */
  function LastMoved(e: Engine, ops: seq<Op>, i: nat): nat
    requires e.Valid() && i < |e.slots|
  {
    if ops == [] then e.slots[i].rel
    else
      var front := ops[..|ops| - 1];
      if Run(e, front).engine.Oper(i) != Run(e, ops).engine.Oper(i) then ops[|ops| - 1].rel else LastMoved(e, front, i)
  }

  /** The link last set on slot `i`, or the seeded one: parents, cascades and admin writes do not appear in it. */
  function LastLink(seed: nat, ops: seq<Op>, i: nat): nat {
    if ops == [] then seed else AfterLink(ops[|ops| - 1], i, LastLink(seed, ops[..|ops| - 1], i))
  }

  function LastAdmin(seed: nat, ops: seq<Op>, i: nat): nat {
    if ops == [] then seed else AfterAdmin(ops[|ops| - 1], i, LastAdmin(seed, ops[..|ops| - 1], i))
  }

  /** Over every run the oper events of an interface are an unbroken chain from its seeded value to its current one. */
  lemma {:induction false} OperEventsChain(e: Engine, ops: seq<Op>, i: nat)
    requires e.Valid() && i < |e.slots|
    ensures Chain(OperEvents(Run(e, ops).events, i + 1), e.Oper(i), Run(e, ops).engine.Oper(i))
  {
    hide Apply, Engine.Valid, Engine.Oper;
    if ops != [] {
      var r := Run(e, ops[..|ops| - 1]);
      var next := Apply(r.engine, ops[|ops| - 1]);
      OperEventsChain(e, ops[..|ops| - 1], i);
      ApplyExact(r.engine, ops[|ops| - 1], i);
      OperEventsConcat(r.events, next.events, i + 1);
      var before := OperEvents(r.events, i + 1);
      var after := OperEvents(next.events, i + 1);
      if after == [] {
        assert before + after == before;
      } else {
        assert (before + after)[..|before + after| - 1] == before;
      }
    }
  }

  /** Last-change is the stamp of the latest derived change, and that is the stamp of the latest oper event. */
  lemma {:induction false} LastChangeIsLatestMove(e: Engine, ops: seq<Op>, i: nat)
    requires e.Valid() && i < |e.slots|
    ensures Run(e, ops).engine.slots[i].rel == LastMoved(e, ops, i)
    ensures var es := OperEvents(Run(e, ops).events, i + 1);
            LastMoved(e, ops, i) == if es == [] then e.slots[i].rel else es[|es| - 1].rel
  {
    hide Apply, Engine.Valid, Engine.Oper;
    if ops != [] {
      var r := Run(e, ops[..|ops| - 1]);
      var next := Apply(r.engine, ops[|ops| - 1]);
      LastChangeIsLatestMove(e, ops[..|ops| - 1], i);
      ApplyExact(r.engine, ops[|ops| - 1], i);
      OperEventsConcat(r.events, next.events, i + 1);
    }
  }

  /** An admin move stamps exactly when it moves the derived oper-status; either way it is stored. */
  lemma AdminMoveStamp(e: Engine, i: nat, value: nat, rel: nat)
    requires e.Valid() && i < |e.slots| && ADMIN_UP <= value <= ADMIN_TESTING && value != e.slots[i].Norm().admin
    ensures var (cur, slots) := (e.slots[i].Norm(), Apply(e, SetAdmin(i + 1, value, rel)).engine.slots);
            && |slots| == |e.slots| && slots[i].admin == value && slots[i].link == cur.link
            && slots[i].rel == if DeriveChildOper(value, cur.link, e.ParentOper(i)) == e.Oper(i) then cur.rel else rel
  {
    var cur := e.slots[i].Norm();
    var (was, now) := (e.Oper(i), DeriveChildOper(value, cur.link, e.ParentOper(i)));
    var stamp := if was == now then cur.rel else rel;
    KidsInRange(e, i);
    CommitStored(e, i, Slot(cur.link, value, stamp), [Event(i + 1, now, was, value, cur.link, stamp, AdminLeaf)],
                 was, now, rel, i);
  }

  /** So an interface taken down by admin over a link already down keeps its last-change. */
  lemma AdminDownOverDownLink(e: Engine, i: nat, rel: nat)
    requires e.Valid() && i < |e.slots| && e.slots[i].Norm().link == OPER_DOWN && e.slots[i].Norm().admin == ADMIN_UP
    ensures var slots := Apply(e, SetAdmin(i + 1, ADMIN_DOWN, rel)).engine.slots;
            |slots| == |e.slots| && slots[i].admin == ADMIN_DOWN != e.slots[i].Norm().admin
              && slots[i].rel == e.slots[i].rel
  {
    AdminMoveStamp(e, i, ADMIN_DOWN, rel);
  }

  /** No admin sequence, cascade or parent bounce alters a stored link; no link sequence alters an admin value. */
  lemma {:induction false} StoredIsLastSet(e: Engine, ops: seq<Op>, i: nat)
    requires e.Valid() && i < |e.slots|
    ensures var (seed, now) := (e.slots[i].Norm(), Run(e, ops).engine.slots[i].Norm());
            now.link == LastLink(seed.link, ops, i) && now.admin == LastAdmin(seed.admin, ops, i)
  {
    if ops != [] {
      StoredIsLastSet(e, ops[..|ops| - 1], i);
      ApplyStored(Run(e, ops[..|ops| - 1]).engine, ops[|ops| - 1], i);
    }
  }

  /** So the reported oper-status is a function of the last values set on the interface and on its parent alone. */
  lemma OperForgetsHistory(e: Engine, ops: seq<Op>, i: nat)
    requires e.Valid() && i < |e.slots|
    ensures var seed := e.slots[i].Norm();
            var own := DeriveOper(LastAdmin(seed.admin, ops, i), LastLink(seed.link, ops, i));
            Run(e, ops).engine.Oper(i) ==
              if e.parent[i] == 0 || own != OPER_UP then own
              else
                var p := e.parent[i] - 1;
                var up := e.slots[p].Norm();
                if DeriveOper(LastAdmin(up.admin, ops, p), LastLink(up.link, ops, p)) == OPER_UP then OPER_UP
                else OPER_LOWER_LAYER_DOWN
  {
    hide Apply, Run, LastLink, LastAdmin;
    StoredIsLastSet(e, ops, i);
    if e.parent[i] != 0 { StoredIsLastSet(e, ops, e.parent[i] - 1); }
  }

  /**
   The same in values, over every run: admin down (2) and testing (3) read as themselves; under admin up the last link
   set shows, except that an up (1) link over a parent that is not up reads lowerLayerDown (7). A word never seeded
   starts out with link unknown (4) and admin up.
   */
  lemma OperInValues(e: Engine, ops: seq<Op>, i: nat)
    requires e.Valid() && i < |e.slots|
    ensures var (word, now) := (e.slots[i], Run(e, ops).engine);
            var admin := LastAdmin(if word.admin == 0 then 1 else word.admin, ops, i);
            var link := LastLink(if word.link == 0 then 4 else word.link, ops, i);
            && (admin == 2 ==> now.Oper(i) == 2)
            && (admin == 3 ==> now.Oper(i) == 3)
            && (admin == 1 && link != 1 ==> now.Oper(i) == link)
            && (admin == 1 && link == 1 && e.parent[i] == 0 ==> now.Oper(i) == 1)
            && (admin == 1 && link == 1 && e.parent[i] != 0 ==>
                  now.Oper(i) == if now.Oper(e.parent[i] - 1) == 1 then 1 else 7)
  {
    hide Apply, Run, LastLink, LastAdmin;
    StoredIsLastSet(e, ops, i);
  }

  /** And what is reported: the last oper event of an interface whose value moved carries that very value. */
  lemma LastEventTellsOper(e: Engine, ops: seq<Op>, i: nat)
    requires e.Valid() && i < |e.slots|
    ensures var es := OperEvents(Run(e, ops).events, i + 1);
            if es == [] then Run(e, ops).engine.Oper(i) == e.Oper(i)
            else es[|es| - 1].oper == Run(e, ops).engine.Oper(i)
  {
    OperEventsChain(e, ops, i);
  }

  // ---------------------------------------------------------------------------------------------
  // The family tables, from a child-to-parent map.

  predicate Placed(parents: map<nat, nat>, n: nat, c: nat) {
    c in parents && 1 <= c <= n && 1 <= parents[c] <= n
  }

  ghost predicate ParentAt(parents: map<nat, nat>, n: nat, kids: seq<nat>, p: nat, s: nat) {
    p == if s + 1 in kids && Placed(parents, n, s + 1) then parents[s + 1] else 0
  }

  ghost predicate ChildrenAt(parents: map<nat, nat>, n: nat, kids: seq<nat>, list: seq<nat>, s: nat) {
    Rising(list) && forall c :: c in list <==> c in kids && Placed(parents, n, c) && parents[c] == s + 1
  }

  /** The tables after the children in `kids`: entries out of range are ignored. */
  ghost predicate Tables(parents: map<nat, nat>, n: nat, kids: seq<nat>, parent: seq<nat>, children: seq<seq<nat>>) {
    && |parent| == |children| == n
    && (forall s | 0 <= s < n :: ParentAt(parents, n, kids, parent[s], s))
    && (forall s | 0 <= s < n :: ChildrenAt(parents, n, kids, children[s], s))
  }

  lemma PlaceOne(parents: map<nat, nat>, n: nat, kids: seq<nat>, c: nat, parent: seq<nat>, children: seq<seq<nat>>)
    requires Tables(parents, n, kids, parent, children) && Placed(parents, n, c) && forall k | k in kids :: k < c
    ensures var p := parents[c] - 1;
            Tables(parents, n, kids + [c], parent[c - 1 := parents[c]], children[p := children[p] + [c]])
  {
    var p := parents[c] - 1;
    var (nextParent, nextChildren) := (parent[c - 1 := parents[c]], children[p := children[p] + [c]]);
    forall s | 0 <= s < n ensures ParentAt(parents, n, kids + [c], nextParent[s], s) {
      assert ParentAt(parents, n, kids, parent[s], s);
    }
    forall s | 0 <= s < n ensures ChildrenAt(parents, n, kids + [c], nextChildren[s], s) {
      assert ChildrenAt(parents, n, kids, children[s], s);
      if s == p {
        assert forall i | 0 <= i < |children[p]| :: children[p][i] in children[p];
      }
    }
  }

  lemma SkipOne(parents: map<nat, nat>, n: nat, kids: seq<nat>, c: nat, parent: seq<nat>, children: seq<seq<nat>>)
    requires Tables(parents, n, kids, parent, children) && !Placed(parents, n, c)
    ensures Tables(parents, n, kids + [c], parent, children)
  {
    forall s | 0 <= s < n
      ensures ParentAt(parents, n, kids + [c], parent[s], s) && ChildrenAt(parents, n, kids + [c], children[s], s)
    {
      assert ParentAt(parents, n, kids, parent[s], s) && ChildrenAt(parents, n, kids, children[s], s);
    }
  }

  method SetParents(n: nat, parents: map<nat, nat>) returns (parent: seq<nat>, children: seq<seq<nat>>)
    ensures exists kids :: Lists(kids, parents.Keys) && Tables(parents, n, kids, parent, children)
  {
    var kids := SortedInts(parents.Keys);
    parent, children := seq(n, _ => 0), seq(n, _ => []);
    assert kids[..0] == [];
    for k := 0 to |kids|
      invariant Tables(parents, n, kids[..k], parent, children)
    {
      var c := kids[k];
      assert kids[..k + 1] == kids[..k] + [c];
      assert c in parents.Keys by { assert c in kids; }
      if 1 <= c <= n && 1 <= parents[c] <= n {
        PlaceOne(parents, n, kids[..k], c, parent, children);
        parent, children := parent[c - 1 := parents[c]], children[parents[c] - 1 := children[parents[c] - 1] + [c]];
      } else {
        SkipOne(parents, n, kids[..k], c, parent, children);
      }
    }
    assert kids[..|kids|] == kids;
  }

  /** The tables in values: each is the map restricted to interfaces the device has, one read forwards, one back. */
  lemma TablesInValues(parents: map<nat, nat>, n: nat, kids: seq<nat>, parent: seq<nat>, children: seq<seq<nat>>,
                       s: nat)
    requires Lists(kids, parents.Keys) && Tables(parents, n, kids, parent, children) && s < n
    ensures parent[s] == if s + 1 in parents && 1 <= parents[s + 1] <= n then parents[s + 1] else 0
    ensures Rising(children[s])
    ensures forall c :: c in children[s] <==> c in parents && 1 <= c <= n && parents[c] == s + 1
  {
    assert ParentAt(parents, n, kids, parent[s], s) && ChildrenAt(parents, n, kids, children[s], s);
    assert forall c :: c in kids <==> c in parents.Keys;
  }

  /** The tables fit the engine if and only if no interface in range hangs below one that does too. */
  lemma TablesFit(parents: map<nat, nat>, n: nat, kids: seq<nat>, parent: seq<nat>, children: seq<seq<nat>>,
                  slots: seq<Slot>)
    requires Lists(kids, parents.Keys) && Tables(parents, n, kids, parent, children) && |slots| == n
    ensures Engine(slots, parent, children).Valid() <==>
            forall c | c in parents && Placed(parents, n, c) :: !Placed(parents, n, parents[c])
  {
    var e := Engine(slots, parent, children);
    forall c: nat | Placed(parents, n, c) ensures parent[c - 1] == parents[c] && c in kids {
      assert c in parents.Keys;
      assert ParentAt(parents, n, kids, parent[c - 1], c - 1);
    }
    forall s | 0 <= s < n && parent[s] != 0 ensures Placed(parents, n, s + 1) && parent[s] == parents[s + 1] {
      assert ParentAt(parents, n, kids, parent[s], s);
    }
    assert e.Shaped();
    if forall c | c in parents && Placed(parents, n, c) :: !Placed(parents, n, parents[c]) {
      forall s | 0 <= s < n && parent[s] != 0 ensures parent[parent[s] - 1] == 0 && s + 1 in children[parent[s] - 1] {
        assert ChildrenAt(parents, n, kids, children[parent[s] - 1], parent[s] - 1);
      }
      forall s, c | 0 <= s < n && c in children[s] ensures 1 <= c <= n && parent[c - 1] == s + 1 {
        assert ChildrenAt(parents, n, kids, children[s], s);
      }
      forall s, j, k | 0 <= s < n && 0 <= j < k < |children[s]| ensures children[s][j] != children[s][k] {
        assert ChildrenAt(parents, n, kids, children[s], s);
      }
    }
  }

  /** So a one-level parent map, as the interface hierarchy delivers it, gives a valid engine. */
  lemma OneLevelFits(parents: map<nat, nat>, n: nat, kids: seq<nat>, parent: seq<nat>, children: seq<seq<nat>>,
                     slots: seq<Slot>)
    requires Lists(kids, parents.Keys) && Tables(parents, n, kids, parent, children) && |slots| == n
    requires Hierarchy.OneLevel(parents)
    ensures Engine(slots, parent, children).Valid()
  {
    TablesFit(parents, n, kids, parent, children, slots);
  }

  // ---------------------------------------------------------------------------------------------
  // The engine itself.

  datatype LinkMutation = LinkUnchanged | LinkMovedMasked | LinkMovedVisible

  /** A link move reports something exactly when the derived value of its own interface moved. */
  lemma ReportedIffVisible(e: Engine, op: Op)
    requires e.Valid() && op.SetLink? && 1 <= op.ifIndex <= |e.slots| && Apply(e, op).engine.Valid()
    ensures |Apply(e, op).engine.slots| == |e.slots|
    ensures Apply(e, op).events == [] <==> Apply(e, op).engine.Oper(op.ifIndex - 1) == e.Oper(op.ifIndex - 1)
  {
    LinkExact(e, op, op.ifIndex - 1);
    var es := Apply(e, op).events;
    if es != [] {
      assert es == [] + [es[0]] + es[1..];
      ThreeParts([], es[0], es[1..], op.ifIndex);
    }
  }

  /** The slot array is updated in place; the family tables are fixed when the engine is built. */
  class InterfaceState {
    const slots: array<Slot>
    const parent: seq<nat>
    const children: seq<seq<nat>>

    /** Unseeded words over the family tables of a parent map. */
    constructor (n: nat, parents: map<nat, nat>)
      ensures fresh(slots) && slots[..] == seq(n, i => Slot(0, 0, 0))
      ensures exists kids :: Lists(kids, parents.Keys) && Tables(parents, n, kids, parent, children)
      ensures Hierarchy.OneLevel(parents) ==> Valid()
    {
      slots := new Slot[n](i => Slot(0, 0, 0));
      var table, lists := SetParents(n, parents);
      parent, children := table, lists;
      new;
      ghost var kids :| Lists(kids, parents.Keys) && Tables(parents, n, kids, table, lists);
      if Hierarchy.OneLevel(parents) { OneLevelFits(parents, n, kids, table, lists, slots[..]); }
    }

    /** Sets a word before the engine is published; refuses what the status objects do not define. Not a transition. */
    method Seed(ifIndex: nat, link: nat, admin: nat)
      requires Valid()
      modifies slots
      ensures Valid()
      ensures var e := old(View());
              View() == if 1 <= ifIndex <= |e.slots| && OPER_UP <= link <= OPER_LOWER_LAYER_DOWN
                && ADMIN_UP <= admin <= ADMIN_TESTING
                        then e.(slots := e.slots[ifIndex - 1 := Slot(link, admin, 0)]) else e
    {
      if !(1 <= ifIndex <= slots.Length) { return; }
      if !(OPER_UP <= link <= OPER_LOWER_LAYER_DOWN) { return; }
      if !(ADMIN_UP <= admin <= ADMIN_TESTING) { return; }
      ghost var before := slots[..];
      slots[ifIndex - 1] := Slot(link, admin, 0);
      assert slots[..] == before[ifIndex - 1 := Slot(link, admin, 0)];
    }

    ghost function View(): Engine
      reads slots
    {
      Engine(slots[..], parent, children)
    }

    ghost predicate Valid()
      reads slots
    {
      View().Valid()
    }

    /** The parent's derived oper-status; a top-level interface stands on nothing and reads up. */
    method ReadParentOper(s: nat) returns (oper: nat)
      requires Valid() && s < slots.Length
      ensures oper == View().ParentOper(s)
    {
      assert slots[..][s] == slots[s];
      if parent[s] == 0 { return OPER_UP; }
      var p := slots[parent[s] - 1].Norm();
      return DeriveOper(p.admin, p.link);
    }

    /** Stamps and reports each child of `s` that moved with it. */
    method CascadeChildren(s: nat, wasParent: nat, nowParent: nat, rel: nat) returns (events: seq<Event>)
      requires s < slots.Length == |children| && InRange(children[s], slots.Length)
      modifies slots
      ensures (slots[..], events) == Cascade(old(slots[..]), children[s], wasParent, nowParent, rel)
    {
      events := [];
      var kids := children[s];
      ghost var before := slots[..];
      for k := 0 to |kids|
        invariant InRange(kids[..k], slots.Length)
        invariant (slots[..], events) == Cascade(before, kids[..k], wasParent, nowParent, rel)
      {
        var c := kids[k];
        var slot := slots[c - 1].Norm();
        var was := DeriveChildOper(slot.admin, slot.link, wasParent);
        var now := DeriveChildOper(slot.admin, slot.link, nowParent);
        assert kids[..k + 1][..k] == kids[..k];
        assert slots[..][c - 1] == slots[c - 1];
        if was != now {
          slots[c - 1] := slot.(rel := rel);
          events := events + [OperEvent(c, slot, was, now, rel)];
        }
      }
      assert kids[..|kids|] == kids;
    }

    /** Stores the word and, on a visible move, reports it and runs the cascade. */
    method Store(s: nat, slot: Slot, own: seq<Event>, was: nat, now: nat, rel: nat) returns (events: seq<Event>)
      requires Valid() && s < slots.Length
      modifies slots
      ensures InRange(children[s], slots.Length)
      ensures Outcome(View(), events) == Commit(old(View()), s, slot, own, was, now, rel)
    {
      KidsInRange(View(), s);
      ghost var before := slots[..];
      slots[s] := slot;
      assert slots[..] == before[s := slot];
      events := own;
      if was != now {
        var rest := CascadeChildren(s, was, now, rel);
        events := own + [OperEvent(s + 1, slot, was, now, rel)] + rest;
      }
    }

    /** Moves the link, reporting only what the admin state and the parent let through. */
    method SetLinkState(ifIndex: nat, value: nat, rel: nat) returns (outcome: LinkMutation, events: seq<Event>)
      requires Valid()
      modifies slots
      ensures Outcome(View(), events) == Apply(old(View()), SetLink(ifIndex, value, rel)) && Valid()
      ensures outcome == LinkUnchanged <==> View() == old(View())
      ensures outcome == LinkMovedVisible <==> events != []
      ensures 1 <= ifIndex <= slots.Length ==>
                (outcome == LinkMovedVisible <==> View().Oper(ifIndex - 1) != old(View().Oper(ifIndex - 1)))
    {
      ghost var e := View();
      ghost var op := SetLink(ifIndex, value, rel);
      StaysValid(e, op);
      if !(1 <= ifIndex <= slots.Length) || !(OPER_UP <= value <= OPER_LOWER_LAYER_DOWN) {
        return LinkUnchanged, [];
      }
      var s := ifIndex - 1;
      assert slots[..][s] == slots[s];
      var cur := slots[s].Norm();
      if cur.link == value { return LinkUnchanged, []; }
      var pOper := ReadParentOper(s);
      var was := DeriveChildOper(cur.admin, cur.link, pOper);
      var now := DeriveChildOper(cur.admin, value, pOper);
      events := Store(s, Slot(value, cur.admin, if was == now then cur.rel else rel), [], was, now, rel);
      ApplyStored(e, op, s);
      ReportedIffVisible(e, op);
      return if was == now then LinkMovedMasked else LinkMovedVisible, events;
    }

    /** Moves the admin leaf: one event for it, then those of every derived change it implies. */
    method SetAdminLeaf(ifIndex: nat, value: nat, rel: nat) returns (events: seq<Event>)
      requires Valid()
      modifies slots
      ensures Outcome(View(), events) == Apply(old(View()), SetAdmin(ifIndex, value, rel)) && Valid()
      ensures events == [] <==> View() == old(View())
    {
      ghost var e := View();
      ghost var op := SetAdmin(ifIndex, value, rel);
      StaysValid(e, op);
      if !(1 <= ifIndex <= slots.Length) || !(ADMIN_UP <= value <= ADMIN_TESTING) { return []; }
      var s := ifIndex - 1;
      assert slots[..][s] == slots[s];
      var cur := slots[s].Norm();
      if cur.admin == value { return []; }
      var pOper := ReadParentOper(s);
      var was := DeriveChildOper(cur.admin, cur.link, pOper);
      var now := DeriveChildOper(value, cur.link, pOper);
      var stamp := if was == now then cur.rel else rel;
      events := Store(s, Slot(cur.link, value, stamp),
                      [Event(ifIndex, now, was, value, cur.link, stamp, AdminLeaf)], was, now, rel);
      ApplyStored(e, op, s);
    }
  }
}
