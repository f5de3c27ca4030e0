/**
 The engine's mutators as others see them. A mutation of a parent/child family holds the family lock and writes its
 slots one at a time; a standalone interface takes no lock and moves in one compare-and-swap, at any time. Events are
 broadcast after the writes. A reader loads an interface's own word and then, for oper-status, the word of its parent:
 two loads, with anything in between.
 */
module Mutators {
  import opened Common
  import opened StateEngine

  datatype Kind = OperStatus | AdminStatus | LastChange

  /** A state leaf of the interface in slot `s`. */
  datatype Leaf = Leaf(s: nat, kind: Kind)

  function ValueOf(e: Engine, l: Leaf): nat
    requires e.Shaped() && l.s < |e.slots|
  {
    match l.kind
    case OperStatus => e.Oper(l.s)
    case AdminStatus => e.slots[l.s].Norm().admin
    case LastChange => e.slots[l.s].rel
  }

  /** Last-change is implied by any change; the other two only by their own. */
  predicate Matches(ev: Event, l: Leaf) {
    ev.ifIndex == l.s + 1 &&
    match l.kind
    case OperStatus => ev.changed == OperLeaf
    case AdminStatus => ev.changed == AdminLeaf
    case LastChange => true
  }

  predicate AnyMatch(evs: seq<Event>, l: Leaf) { exists i :: 0 <= i < |evs| && Matches(evs[i], l) }

  // ---------------------------------------------------------------------------------------------
  // What one mutation can do to a leaf, at any point of its writes.

  lemma {:induction false} HasOperEvent(evs: seq<Event>, i: nat)
    requires OperEvents(evs, i) != []
    ensures exists k :: 0 <= k < |evs| && evs[k].ifIndex == i && evs[k].changed == OperLeaf
  {
    var (front, last) := (evs[..|evs| - 1], evs[|evs| - 1]);
    if !(last.ifIndex == i && last.changed == OperLeaf) {
      HasOperEvent(front, i);
      var k :| 0 <= k < |front| && front[k].ifIndex == i && front[k].changed == OperLeaf;
      assert evs[k] == front[k];
    } else {
      assert evs[|evs| - 1] == last;
    }
  }

  /** A leaf whose value an operation moves is named by one of its events. */
  lemma MovedIsAnnounced(e: Engine, op: Op, l: Leaf)
    requires e.Valid() && l.s < |e.slots|
    ensures var r := Apply(e, op);
            r.engine.Valid() && |r.engine.slots| == |e.slots| &&
            (ValueOf(e, l) != ValueOf(r.engine, l) ==> AnyMatch(r.events, l))
  {
    ApplyExact(e, op, l.s);
    ApplyStored(e, op, l.s);
    var r := Apply(e, op);
    if l.kind.AdminStatus? {
      if ValueOf(e, l) != ValueOf(r.engine, l) { assert Matches(r.events[0], l); }
    } else if OperEvents(r.events, l.s + 1) != [] {
      HasOperEvent(r.events, l.s + 1);
      var k :| 0 <= k < |r.events| && r.events[k].ifIndex == l.s + 1 && r.events[k].changed == OperLeaf;
      assert Matches(r.events[k], l);
    }
  }

  lemma UnannouncedSame(e: Engine, op: Op, l: Leaf)
    requires e.Valid() && l.s < |e.slots| && !AnyMatch(Apply(e, op).events, l)
    ensures Apply(e, op).engine.Valid() && |Apply(e, op).engine.slots| == |e.slots|
    ensures ValueOf(e, l) == ValueOf(Apply(e, op).engine, l)
  {
    MovedIsAnnounced(e, op, l);
  }

  /** The interfaces whose mutations take the family lock. */
  predicate Family(e: Engine, s: nat)
    requires s < |e.parent| == |e.children|
  {
    e.parent[s] != 0 || e.children[s] != []
  }

  predicate FamilyOp(e: Engine, op: Op)
    requires |e.slots| == |e.parent| == |e.children|
  {
    1 <= op.ifIndex <= |e.slots| && Family(e, op.ifIndex - 1)
  }

  ghost predicate SameTables(a: Engine, b: Engine) {
    |a.slots| == |b.slots| && a.parent == b.parent && a.children == b.children
  }

  lemma TablesStay(e: Engine, op: Op)
    requires e.Valid()
    ensures SameTables(e, Apply(e, op).engine) && Apply(e, op).engine.Valid()
  {
    StaysValid(e, op);
  }

  lemma SameTablesValid(a: Engine, b: Engine)
    requires a.Valid() && SameTables(a, b)
    ensures b.Valid()
  {
  }

  /** The family's slots part-way through a mutation: some written, the others not yet. */
  ghost predicate Mixed(a: Engine, m: Engine, b: Engine) {
    && SameTables(a, m) && SameTables(a, b) && |a.slots| == |a.parent| == |a.children|
    && forall s | 0 <= s < |a.slots| && Family(a, s) :: m.slots[s] == a.slots[s] || m.slots[s] == b.slots[s]
  }

  /** What an operation leaves alone: the links and admin values of other interfaces. */
  lemma OthersKept(e: Engine, op: Op, s: nat)
    requires e.Valid() && s < |e.slots|
    ensures var b := Apply(e, op).engine;
            && |b.slots| == |e.slots|
            && (s + 1 != op.ifIndex ==> b.slots[s].Norm().(rel := 0) == e.slots[s].Norm().(rel := 0))
  {
    StaysValid(e, op);
    ApplyStored(e, op, s);
  }

  lemma FamilyParent(e: Engine, s: nat)
    requires e.Valid() && s < |e.slots| && e.parent[s] != 0
    ensures Family(e, s) && Family(e, e.parent[s] - 1) && e.parent[s] != s + 1
  {
    assert s + 1 in e.children[e.parent[s] - 1];
    assert e.parent[e.parent[s] - 1] == 0;
  }

  /** So part-way through its writes every leaf of the family shows its old value or its new one. */
  lemma MixedValue(e: Engine, op: Op, m: Engine, l: Leaf)
    requires e.Valid() && l.s < |e.slots| && Family(e, l.s) && Mixed(e, m, Apply(e, op).engine)
    ensures m.Shaped() && Apply(e, op).engine.Shaped() && |Apply(e, op).engine.slots| == |e.slots|
    ensures ValueOf(m, l) == ValueOf(e, l) || ValueOf(m, l) == ValueOf(Apply(e, op).engine, l)
  {
    hide Apply;
    StaysValid(e, op);
    if l.kind.OperStatus? && e.parent[l.s] != 0 {
      FamilyParent(e, l.s);
      OthersKept(e, op, l.s);
      OthersKept(e, op, e.parent[l.s] - 1);
    }
  }

  /** A standalone interface has nobody to tell: its mutation is its own slot. */
  lemma StandaloneSlots(e: Engine, op: Op, s: nat)
    requires e.Valid() && !FamilyOp(e, op) && s < |e.slots| && s + 1 != op.ifIndex
    ensures |Apply(e, op).engine.slots| == |e.slots| && Apply(e, op).engine.slots[s] == e.slots[s]
  {
    StaysValid(e, op);
  }

  // ---------------------------------------------------------------------------------------------
  // Reads in two loads.

  /** What an interface derives from its own word alone. */
  function Own(w: Slot): nat { DeriveOper(w.Norm().admin, w.Norm().link) }

  /** The value a read delivers that loaded `w` first and finds the parent as it is in `e`. */
  function Completed(e: Engine, l: Leaf, w: Slot): nat
    requires e.Shaped() && l.s < |e.slots|
  {
    match l.kind
    case OperStatus => DeriveChildOper(w.Norm().admin, w.Norm().link, e.ParentOper(l.s))
    case AdminStatus => w.Norm().admin
    case LastChange => w.rel
  }

  /** The loaded word is as good as the current one. */
  predicate Agrees(e: Engine, l: Leaf, w: Slot)
    requires e.Shaped() && l.s < |e.slots|
  {
    var now := e.slots[l.s];
    match l.kind
    case OperStatus =>
      Own(w) == Own(now) || (Own(w) == OPER_LOWER_LAYER_DOWN && Own(now) == OPER_UP && e.ParentOper(l.s) != OPER_UP)
    case AdminStatus => w.Norm().admin == now.Norm().admin
    case LastChange => w.rel == now.rel
  }

  lemma AgreesCompletes(e: Engine, l: Leaf, w: Slot)
    requires e.Shaped() && l.s < |e.slots| && Agrees(e, l, w)
    ensures Completed(e, l, w) == ValueOf(e, l)
  {
  }

  /** The guard a caller can check: a child of `sevens` may be given the link lowerLayerDown, no other child. */
  predicate Allowed(e: Engine, sevens: set<nat>, op: Op)
    requires |e.slots| == |e.parent|
  {
    op.SetLink? && op.value == OPER_LOWER_LAYER_DOWN && 1 <= op.ifIndex <= |e.slots|
      && e.parent[op.ifIndex - 1] != 0 ==>
      op.ifIndex - 1 in sevens
  }

  /** The leaves the guard leaves open: the oper-status of such a child. */
  predicate Exposed(e: Engine, sevens: set<nat>, l: Leaf)
    requires l.s < |e.parent|
  {
    l.kind.OperStatus? && e.parent[l.s] != 0 && l.s in sevens
  }

  /** A child's own mutation leaves its parent's slot alone. */
  lemma ParentKept(e: Engine, op: Op)
    requires e.Valid() && 1 <= op.ifIndex <= |e.slots| && e.parent[op.ifIndex - 1] != 0
    ensures var p := e.parent[op.ifIndex - 1] - 1;
            |Apply(e, op).engine.slots| == |e.slots|
              && Apply(e, op).engine.slots[p].Norm().(rel := 0) == e.slots[p].Norm().(rel := 0)
  {
    FamilyParent(e, op.ifIndex - 1);
    OthersKept(e, op, e.parent[op.ifIndex - 1] - 1);
  }

  /**
   An operation that says nothing about a child's oper-status moves its own reading at most from lowerLayerDown to up.
   */
  lemma SilentOwn(e: Engine, op: Op, s: nat, sevens: set<nat>)
    requires e.Valid() && s < |e.slots| && Allowed(e, sevens, op) && !Exposed(e, sevens, Leaf(s, OperStatus))
    requires !AnyMatch(Apply(e, op).events, Leaf(s, OperStatus))
    ensures var (was, now) := (e.slots[s], Apply(e, op).engine.slots[s]);
            || Own(now) == Own(was)
            || (Own(was) == OPER_LOWER_LAYER_DOWN && Own(now) == OPER_UP && e.parent[s] != 0
              && e.ParentOper(s) != OPER_UP)
  {
    hide Apply;
    UnannouncedSame(e, op, Leaf(s, OperStatus));
    ApplyStored(e, op, s);
    if e.parent[s] != 0 {
      FamilyParent(e, s);
      TablesStay(e, op);
      if op.ifIndex == s + 1 { ParentKept(e, op); }
    }
    TablesStay(e, op);
  }

  /** `n` is `m` with some of an operation's writes done. */
  ghost predicate Further(m: Engine, n: Engine, b: Engine) {
    SameTables(m, n) && SameTables(n, b) &&
    forall i | 0 <= i < |n.slots| && n.slots[i] != m.slots[i] :: n.slots[i] == b.slots[i]
  }

  /** Writes of an operation that says nothing about a leaf spoil no word loaded for it. */
  lemma AgreesKept(e: Engine, op: Op, m: Engine, n: Engine, l: Leaf, w: Slot, sevens: set<nat>)
    requires e.Valid() && l.s < |e.slots| && Allowed(e, sevens, op) && !Exposed(e, sevens, l)
    requires SameTables(e, m) && Further(m, n, Apply(e, op).engine)
    requires m.slots[l.s] == e.slots[l.s] || m.slots[l.s] == Apply(e, op).engine.slots[l.s]
    requires !AnyMatch(Apply(e, op).events, l)
    requires m.Shaped() && n.Shaped() && ValueOf(m, l) == ValueOf(n, l) && Agrees(m, l, w)
    ensures Agrees(n, l, w)
  {
    hide Apply, AnyMatch;
    if l.kind.OperStatus? && Own(m.slots[l.s]) != Own(n.slots[l.s]) { SilentOwn(e, op, l.s, sevens); }
  }

  // ---------------------------------------------------------------------------------------------
  // Mutators at work.

  /** A family mutation under way: where it started and what it does. */
  datatype Commit = Commit(before: Engine, op: Op)

  /** The engine, the family mutation under way, and events committed but not yet broadcast. */
  datatype Work = Work(engine: Engine, commit: Option<Commit>, pending: seq<Event>)

  datatype Act =
    | Begin(op: Op)                // a family mutation takes the lock
    | Write(s: nat)
    | Finish
    | Mutate(op: Op)               // a standalone one does not

  function Target(c: Commit): Outcome
    requires c.before.Valid()
  {
    Apply(c.before, c.op)
  }

  ghost predicate Writing(w: Work) {
    && w.commit.Some? && w.commit.value.before.Valid() && SameTables(w.commit.value.before, w.engine)
    && SameTables(w.engine, Target(w.commit.value).engine)
  }

  ghost predicate CanAct(sevens: set<nat>, w: Work, act: Act) {
    match act
    case Begin(op) => w.engine.Valid() && w.commit.None? && FamilyOp(w.engine, op) && Allowed(w.engine, sevens, op)
    case Write(i) => Writing(w) && i < |w.engine.slots| && Family(w.commit.value.before, i)
    case Finish =>
      Writing(w) && forall i | 0 <= i < |w.engine.slots| && Family(w.commit.value.before, i) ::
        w.engine.slots[i] == Target(w.commit.value).engine.slots[i]
    case Mutate(op) => w.engine.Valid() && !FamilyOp(w.engine, op)
  }

  ghost function Acted(sevens: set<nat>, w: Work, act: Act): Work
    requires CanAct(sevens, w, act)
  {
    match act
    case Begin(op) => w.(commit := Some(Commit(w.engine, op)))
    case Write(i) => w.(engine := w.engine.(slots := w.engine.slots[i := Target(w.commit.value).engine.slots[i]]))
    case Finish => w.(commit := None, pending := w.pending + Target(w.commit.value).events)
    case Mutate(op) => w.(engine := Apply(w.engine, op).engine, pending := w.pending + Apply(w.engine, op).events)
  }

  /** The families are whole, or part-way through the one mutation under way. */
  ghost predicate WorkOk(sevens: set<nat>, w: Work) {
    && w.engine.Valid()
    && (w.commit.Some? ==>
          var c := w.commit.value;
          c.before.Valid() && Allowed(c.before, sevens, c.op) && Mixed(c.before, w.engine, Target(c).engine))
  }

  /** A matching event has been committed, or is about to be, and is not yet broadcast. */
  ghost predicate Announced(w: Work, l: Leaf) {
    || (w.commit.Some? && w.commit.value.before.Valid() && AnyMatch(Target(w.commit.value).events, l))
    || AnyMatch(w.pending, l)
  }

  lemma AnyMatchParts(a: seq<Event>, b: seq<Event>, l: Leaf)
    ensures AnyMatch(a + b, l) <==> AnyMatch(a, l) || AnyMatch(b, l)
  {
    var c := a + b;
    if i :| 0 <= i < |c| && Matches(c[i], l) {
      if i < |a| { assert Matches(a[i], l); } else { assert Matches(b[i - |a|], l); }
    }
    if i :| 0 <= i < |a| && Matches(a[i], l) { assert Matches(c[i], l); }
    if i :| 0 <= i < |b| && Matches(b[i], l) { assert Matches(c[|a| + i], l); }
  }

  lemma AnyMatchWithout(a: seq<Event>, k: nat, l: Leaf)
    requires k < |a|
    ensures AnyMatch(a, l) <==> AnyMatch(a[..k] + a[k + 1..], l) || Matches(a[k], l)
  {
    assert a == a[..k] + [a[k]] + a[k + 1..];
    AnyMatchParts(a[..k] + [a[k]], a[k + 1..], l);
    AnyMatchParts(a[..k], [a[k]], l);
    AnyMatchParts(a[..k], a[k + 1..], l);
    OneMatch(a[k], l);
  }

  lemma OneMatch(ev: Event, l: Leaf)
    ensures AnyMatch([ev], l) <==> Matches(ev, l)
  {
    assert [ev][0] == ev;
  }

  /** While a mutation is under way, a leaf it does not announce shows what it showed before. */
  lemma UnannouncedUnmoved(c: Commit, m: Engine, l: Leaf)
    requires c.before.Valid() && l.s < |c.before.slots| && Family(c.before, l.s)
    requires Mixed(c.before, m, Target(c).engine) && !AnyMatch(Target(c).events, l)
    ensures m.Shaped() && ValueOf(m, l) == ValueOf(c.before, l)
  {
    hide Apply, AnyMatch, ValueOf;
    MixedValue(c.before, c.op, m, l);
    UnannouncedSame(c.before, c.op, l);
  }

  /** One write of an operation that does not announce a leaf. */
  lemma WriteLeaf(c: Commit, m: Engine, i: nat, l: Leaf, sevens: set<nat>)
    requires c.before.Valid() && Allowed(c.before, sevens, c.op) && Mixed(c.before, m, Target(c).engine)
    requires i < |m.slots| && Family(c.before, i) && l.s < |m.slots| && !Exposed(m, sevens, l)
    requires !AnyMatch(Target(c).events, l)
    ensures var n := m.(slots := m.slots[i := Target(c).engine.slots[i]]);
            && n.Shaped() && m.Shaped() && ValueOf(n, l) == ValueOf(m, l)
            && forall w :: Agrees(m, l, w) ==> Agrees(n, l, w)
  {
    hide Apply, AnyMatch;
    var n := m.(slots := m.slots[i := Target(c).engine.slots[i]]);
    if Family(c.before, l.s) {
      UnannouncedUnmoved(c, m, l);
      UnannouncedUnmoved(c, n, l);
      forall w | Agrees(m, l, w) ensures Agrees(n, l, w) { AgreesKept(c.before, c.op, m, n, l, w, sevens); }
    }
  }

  /** A standalone mutation and a leaf it does not announce. */
  lemma MutateLeaf(e: Engine, op: Op, l: Leaf, sevens: set<nat>)
    requires e.Valid() && !FamilyOp(e, op) && l.s < |e.slots| && !Exposed(e, sevens, l)
    requires !AnyMatch(Apply(e, op).events, l)
    ensures var n := Apply(e, op).engine;
            && SameTables(e, n) && n.Valid() && ValueOf(n, l) == ValueOf(e, l)
            && forall w :: Agrees(e, l, w) ==> Agrees(n, l, w)
  {
    hide Apply, AnyMatch;
    var n := Apply(e, op).engine;
    TablesStay(e, op);
    UnannouncedSame(e, op, l);
    forall w | Agrees(e, l, w) ensures Agrees(n, l, w) { AgreesKept(e, op, e, n, l, w, sevens); }
  }

  /** It leaves the families alone. */
  lemma MutateMixed(e: Engine, op: Op, a: Engine, b: Engine)
    requires e.Valid() && !FamilyOp(e, op) && Mixed(a, e, b)
    ensures Mixed(a, Apply(e, op).engine, b)
  {
    hide Apply;
    TablesStay(e, op);
    var n := Apply(e, op).engine;
    forall s | 0 <= s < |a.slots| && Family(a, s) ensures n.slots[s] == a.slots[s] || n.slots[s] == b.slots[s] {
      StandaloneSlots(e, op, s);
    }
  }

  lemma ActKeepsOk(sevens: set<nat>, w: Work, act: Act)
    requires WorkOk(sevens, w) && CanAct(sevens, w, act)
    ensures WorkOk(sevens, Acted(sevens, w, act)) && SameTables(w.engine, Acted(sevens, w, act).engine)
  {
    hide Apply, Allowed;
    match act
    case Begin(op) => TablesStay(w.engine, op);
    case Write(i) =>
      var n := Acted(sevens, w, act);
      assert Mixed(w.commit.value.before, n.engine, Target(w.commit.value).engine);
      SameTablesValid(w.engine, n.engine);
    case Finish =>
    case Mutate(op) =>
      TablesStay(w.engine, op);
      if w.commit.Some? { MutateMixed(w.engine, op, w.commit.value.before, Target(w.commit.value).engine); }
  }

  /**
   What any step of any mutator does to a leaf that is not exposed: an announcement is not taken back, and while there
   is none the value stands and so does every word loaded for it.
   */
  lemma ActLeaf(sevens: set<nat>, w: Work, act: Act, l: Leaf)
    requires WorkOk(sevens, w) && CanAct(sevens, w, act) && l.s < |w.engine.slots| && !Exposed(w.engine, sevens, l)
    ensures var n := Acted(sevens, w, act);
            && (Announced(w, l) ==> Announced(n, l))
            && n.engine.Shaped() && |n.engine.slots| == |w.engine.slots|
            && (!Announced(n, l) ==>
                  && ValueOf(n.engine, l) == ValueOf(w.engine, l)
                  && forall word :: Agrees(w.engine, l, word) ==> Agrees(n.engine, l, word))
  {
    hide Apply, AnyMatch, ValueOf, Agrees, Mixed, Allowed;
    ActKeepsOk(sevens, w, act);
    match act
    case Begin(op) =>
    case Write(i) =>
      if !Announced(w, l) { WriteLeaf(w.commit.value, w.engine, i, l, sevens); }
    case Finish => AnyMatchParts(w.pending, Target(w.commit.value).events, l);
    case Mutate(op) =>
      var evs := Apply(w.engine, op).events;
      AnyMatchParts(w.pending, evs, l);
      if !AnyMatch(evs, l) { MutateLeaf(w.engine, op, l, sevens); }
  }

  // ---------------------------------------------------------------------------------------------
  // A child's link moved beneath a down parent, and the parent's rise.

  /** Everything down but the child `c`, which is up over its down parent. */
  function TornStart(e: Engine, c: nat): Engine
    requires c < |e.slots|
  {
    e.(slots := seq(|e.slots|, i => Slot(if i == c then OPER_UP else OPER_DOWN, ADMIN_UP, 0)))
  }

  function ChildGoes(c: nat): Op { SetLink(c + 1, OPER_LOWER_LAYER_DOWN, 0) }

  function ParentRises(p: nat): Op { SetLink(p + 1, OPER_UP, 0) }

  /** The child's own move is masked by its parent. */
  lemma ChildMoveMasked(e: Engine, c: nat)
    requires e.Valid() && c < |e.slots| && e.parent[c] != 0
    ensures var (a, p) := (TornStart(e, c), e.parent[c] - 1);
            a.Valid() && Apply(a, ChildGoes(c)) ==
              Outcome(a.(slots := a.slots[c := Slot(OPER_LOWER_LAYER_DOWN, ADMIN_UP, 0)]), [])
  {
    SameTablesValid(e, TornStart(e, c));
    FamilyParent(e, c);
  }

  /** A cascade over children that do not follow their parent changes nothing. */
  lemma {:induction false} StillCascade(slots: seq<Slot>, kids: seq<nat>, was: nat, now: nat, rel: nat)
    requires InRange(kids, |slots|)
    requires forall k | 0 <= k < |kids| :: Own(slots[kids[k] - 1]) != OPER_UP
    ensures Cascade(slots, kids, was, now, rel) == (slots, [])
    decreases |kids|
  {
    if kids != [] {
      StillCascade(slots, kids[..|kids| - 1], was, now, rel);
      assert Own(slots[kids[|kids| - 1] - 1]) != OPER_UP;
    }
  }

  /** The parent's rise reaches no child: each reads the same before and after. */
  lemma ParentRiseUnfelt(e: Engine, a: Engine, p: nat)
    requires e.Valid() && SameTables(e, a) && p < |a.slots| && a.parent[p] == 0
    requires a.slots[p] == Slot(OPER_DOWN, ADMIN_UP, 0)
    requires forall i | 0 <= i < |a.slots| :: Own(a.slots[i]) != OPER_UP
    ensures a.Valid()
    ensures var r := Apply(a, ParentRises(p));
            r.engine == a.(slots := a.slots[p := Slot(OPER_UP, ADMIN_UP, 0)]) && |r.events| == 1
              && r.events[0].ifIndex == p + 1
  {
    SameTablesValid(e, a);
    KidsInRange(a, p);
    AllRelated(a, p, p);
    StillCascade(a.slots[p := Slot(OPER_UP, ADMIN_UP, 0)], a.children[p], OPER_DOWN, OPER_UP, 0);
  }

  /** `acts` lead from `w` to `end`, each possible where it is taken. */
  ghost predicate Leads(sevens: set<nat>, w: Work, acts: seq<Act>, end: Work)
    decreases |acts|
  {
    if acts == [] then w == end
    else CanAct(sevens, w, acts[0]) && Leads(sevens, Acted(sevens, w, acts[0]), acts[1..], end)
  }

  /** One family mutation that moves one slot. */
  lemma OneSlotLeads(sevens: set<nat>, w: Work, op: Op, s: nat, slot: Slot, evs: seq<Event>)
    requires w.engine.Valid() && w.commit.None? && FamilyOp(w.engine, op) && Allowed(w.engine, sevens, op)
    requires s < |w.engine.slots| && Family(w.engine, s)
    requires Apply(w.engine, op) == Outcome(w.engine.(slots := w.engine.slots[s := slot]), evs)
    ensures Leads(sevens, w, [Begin(op), Write(s), Finish],
                  Work(w.engine.(slots := w.engine.slots[s := slot]), None, w.pending + evs))
  {
    hide Apply, Allowed;
    var acts := [Begin(op), Write(s), Finish];
    var a := Acted(sevens, w, acts[0]);
    var b := Acted(sevens, a, acts[1]);
    assert b.engine == w.engine.(slots := w.engine.slots[s := slot]);
    assert CanAct(sevens, b, acts[2]);
    var c := Acted(sevens, b, acts[2]);
    assert acts[1..][0] == Write(s) && acts[1..][1..] == [Finish] && [Finish][1..] == [];
    assert Leads(sevens, c, [], c);
    assert Leads(sevens, b, [Finish], c);
    assert Leads(sevens, a, acts[1..], c);
  }

  lemma {:induction false} LeadsOn(sevens: set<nat>, w: Work, xs: seq<Act>, mid: Work, ys: seq<Act>, end: Work)
    requires Leads(sevens, w, xs, mid) && Leads(sevens, mid, ys, end)
    ensures Leads(sevens, w, xs + ys, end)
    decreases |xs|
  {
    hide CanAct, Acted;
    if xs == [] {
      assert xs + ys == ys;
    } else {
      LeadsOn(sevens, Acted(sevens, w, xs[0]), xs[1..], mid, ys, end);
      assert (xs + ys)[1..] == xs[1..] + ys;
    }
  }

  /** The child at lowerLayerDown by its own link, over a parent that is up. */
  function TornEnd(e: Engine, c: nat): Engine
    requires c < |e.slots| == |e.parent| && 0 < e.parent[c] <= |e.slots|
  {
    var a := TornStart(e, c);
    a.(slots := a.slots[c := Slot(OPER_LOWER_LAYER_DOWN, ADMIN_UP, 0)][e.parent[c] - 1 := Slot(OPER_UP, ADMIN_UP, 0)])
  }

  function TornActs(c: nat, p: nat): seq<Act> {
    [Begin(ChildGoes(c)), Write(c), Finish] + [Begin(ParentRises(p)), Write(p), Finish]
  }

  /** The child's link moves unseen, then the parent rises unfelt: one event, the parent's. */
  lemma TornLeads(sevens: set<nat>, e: Engine, c: nat, pending: seq<Event>) returns (ev: Event)
    requires e.Valid() && c < |e.slots| && e.parent[c] != 0 && c in sevens
    ensures ev.ifIndex == e.parent[c]
    ensures Leads(sevens, Work(TornStart(e, c), None, pending), TornActs(c, e.parent[c] - 1),
                  Work(TornEnd(e, c), None, pending + [ev]))
  {
    hide Apply, Leads;
    var (a, p, slot) := (TornStart(e, c), e.parent[c] - 1, Slot(OPER_LOWER_LAYER_DOWN, ADMIN_UP, 0));
    FamilyParent(e, c);
    ChildMoveMasked(e, c);
    var b := a.(slots := a.slots[c := slot]);
    OneSlotLeads(sevens, Work(a, None, pending), ChildGoes(c), c, slot, []);
    assert pending + [] == pending;
    ParentRiseUnfelt(e, b, p);
    var evs := Apply(b, ParentRises(p)).events;
    ev := evs[0];
    assert evs == [ev];
    OneSlotLeads(sevens, Work(b, None, pending), ParentRises(p), p, Slot(OPER_UP, ADMIN_UP, 0), evs);
    LeadsOn(sevens, Work(a, None, pending), [Begin(ChildGoes(c)), Write(c), Finish], Work(b, None, pending),
            [Begin(ParentRises(p)), Write(p), Finish], Work(TornEnd(e, c), None, pending + [ev]));
  }
}
