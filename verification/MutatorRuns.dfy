/**
 Every interleaving of the mutators is a sequential run of the engine. A family mutation writes its slots one at a time
 under the family lock, standalone ones come in between, and yet engine and events are those of the operations applied
 one after the other: family ones where they finish, standalone ones where they happen.
 */
module MutatorRuns {
  import opened Common
  import opened StateEngine
  import opened Mutators

  /** The same tables, and the same words on the interfaces of families. */
  ghost predicate SameFamilies(a: Engine, b: Engine) {
    && SameTables(a, b) && |a.slots| == |a.parent| == |a.children|
    && forall s | 0 <= s < |a.slots| && Family(a, s) :: a.slots[s] == b.slots[s]
  }

  /** The same tables, and the same words on standalone interfaces. */
  ghost predicate SameOthers(a: Engine, b: Engine) {
    && SameTables(a, b) && |a.slots| == |a.parent| == |a.children|
    && forall s | 0 <= s < |a.slots| && !Family(a, s) :: a.slots[s] == b.slots[s]
  }

  lemma SameAll(a: Engine, b: Engine)
    requires SameFamilies(a, b) && SameOthers(a, b)
    ensures a == b
  {
    assert a.slots == b.slots;
  }

  // ---------------------------------------------------------------------------------------------
  // An operation reads and writes its own side only.

  /** A cascade depends on the words of the children it visits and moves no other. */
  lemma {:induction false} CascadeLocal(a: seq<Slot>, b: seq<Slot>, kids: seq<nat>, was: nat, now: nat, rel: nat)
    requires |a| == |b| && InRange(kids, |a|) && forall c | c in kids :: a[c - 1] == b[c - 1]
    ensures var (x, y) := (Cascade(a, kids, was, now, rel), Cascade(b, kids, was, now, rel));
            && x.1 == y.1
            && forall i | 0 <= i < |a| ::
                 if i + 1 in kids then x.0[i] == y.0[i] else x.0[i] == a[i] && y.0[i] == b[i]
    decreases |kids|
  {
    hide DeriveChildOper, OperEvent, Slot.Norm;
    if kids != [] {
      hide Cascade;
      var (front, c) := (kids[..|kids| - 1], kids[|kids| - 1]);
      assert kids == front + [c];
      assert forall x :: x in kids <==> x in front || x == c;
      assert InRange(front, |a|) && 1 <= c <= |a|;
      CascadeLocal(a, b, front, was, now, rel);
      var (x, y) := (Cascade(a, front, was, now, rel), Cascade(b, front, was, now, rel));
      assert x.0[c - 1] == y.0[c - 1];
      CascadeSnoc(a, kids, was, now, rel);
      CascadeSnoc(b, kids, was, now, rel);
    }
  }

  /** The last child of a cascade, after the others. */
  lemma CascadeSnoc(slots: seq<Slot>, kids: seq<nat>, was: nat, now: nat, rel: nat)
    requires InRange(kids, |slots|) && kids != []
    ensures InRange(kids[..|kids| - 1], |slots|)
    ensures var (front, c) := (kids[..|kids| - 1], kids[|kids| - 1]);
            var x := Cascade(slots, front, was, now, rel);
            var slot := x.0[c - 1].Norm();
            var (w, n) := (DeriveChildOper(slot.admin, slot.link, was), DeriveChildOper(slot.admin, slot.link, now));
            Cascade(slots, kids, was, now, rel) ==
              if w == n then x else (x.0[c - 1 := slot.(rel := rel)], x.1 + [OperEvent(c, slot, w, n, rel)])
  {
  }

  lemma KidsAreFamily(e: Engine, s: nat, c: nat)
    requires e.Valid() && s < |e.slots| && c in e.children[s]
    ensures 1 <= c <= |e.slots| && Family(e, c - 1)
  {
  }

  lemma CommitLocal(a: Engine, b: Engine, s: nat, slot: Slot, own: seq<Event>, was: nat, now: nat, rel: nat)
    requires a.Valid() && b.Valid() && SameFamilies(a, b) && s < |a.slots| && Family(a, s)
    requires InRange(a.children[s], |a.slots|)
    ensures var (x, y) := (StateEngine.Commit(a, s, slot, own, was, now, rel),
                           StateEngine.Commit(b, s, slot, own, was, now, rel));
            x.events == y.events && SameFamilies(x.engine, y.engine) && SameOthers(b, y.engine)
  {
    hide Cascade;
    forall c | c in a.children[s] ensures 1 <= c <= |a.slots| && Family(a, c - 1) { KidsAreFamily(a, s, c); }
    CascadeLocal(a.slots[s := slot], b.slots[s := slot], a.children[s], was, now, rel);
  }

  /** A family operation does the same wherever the families agree, and leaves standalone words alone. */
  lemma FamilyLocal(a: Engine, b: Engine, op: Op)
    requires a.Valid() && b.Valid() && SameFamilies(a, b) && FamilyOp(a, op)
    ensures var (x, y) := (Apply(a, op), Apply(b, op));
            x.events == y.events && SameFamilies(x.engine, y.engine) && SameOthers(b, y.engine)
  {
    hide StateEngine.Commit;
    var s := op.ifIndex - 1;
    var cur := a.slots[s].Norm();
    KidsInRange(a, s);
    if a.parent[s] != 0 { FamilyParent(a, s); }
    assert a.Oper(s) == b.Oper(s) && a.ParentOper(s) == b.ParentOper(s);
    var was := a.Oper(s);
    match op
    case SetLink(_, v, rel) =>
      var now := DeriveChildOper(cur.admin, v, a.ParentOper(s));
      CommitLocal(a, b, s, Slot(v, cur.admin, if was == now then cur.rel else rel), [], was, now, rel);
    case SetAdmin(i, v, rel) =>
      var now := DeriveChildOper(v, cur.link, a.ParentOper(s));
      var stamp := if was == now then cur.rel else rel;
      var ev := Event(i, now, was, v, cur.link, stamp, AdminLeaf);
      CommitLocal(a, b, s, Slot(cur.link, v, stamp), [ev], was, now, rel);
  }

  /** A standalone operation does the same wherever the standalone words agree, and leaves the families alone. */
  lemma OtherLocal(a: Engine, b: Engine, op: Op)
    requires a.Valid() && b.Valid() && SameOthers(a, b) && !FamilyOp(a, op)
    ensures var (x, y) := (Apply(a, op), Apply(b, op));
            && x.events == y.events && SameOthers(x.engine, y.engine)
            && SameFamilies(a, x.engine) && SameFamilies(b, y.engine)
  {
    hide StateEngine.Commit, Engine.Valid, Engine.Oper, Engine.ParentOper, DeriveChildOper, SameOthers, SameFamilies;
    SameSelf(a);
    SameSelf(b);
    SameSize(a, b);
    if 1 <= op.ifIndex <= |a.slots| {
      var s := op.ifIndex - 1;
      AloneFacts(a, b, s);
      var cur := a.slots[s].Norm();
      var was := a.Oper(s);
      match op
      case SetLink(_, v, rel) =>
        var now := DeriveChildOper(cur.admin, v, a.ParentOper(s));
        CommitAlone(a, b, s, Slot(v, cur.admin, if was == now then cur.rel else rel), [], was, now, rel);
      case SetAdmin(i, v, rel) =>
        var now := DeriveChildOper(v, cur.link, a.ParentOper(s));
        var stamp := if was == now then cur.rel else rel;
        var ev := Event(i, now, was, v, cur.link, stamp, AdminLeaf);
        CommitAlone(a, b, s, Slot(cur.link, v, stamp), [ev], was, now, rel);
    }
  }

  lemma SameSelf(e: Engine)
    requires e.Valid()
    ensures SameFamilies(e, e) && e.Shaped()
  {
  }

  lemma SameSize(a: Engine, b: Engine)
    requires SameOthers(a, b)
    ensures |a.slots| == |b.slots|
  {
  }

  lemma AloneFacts(a: Engine, b: Engine, s: nat)
    requires a.Valid() && b.Valid() && SameOthers(a, b) && s < |a.slots| && !Family(a, s)
    ensures |b.slots| == |a.slots| && a.children == b.children && b.slots[s] == a.slots[s]
    ensures a.Oper(s) == b.Oper(s) && a.ParentOper(s) == b.ParentOper(s) && InRange(a.children[s], |a.slots|)
  {
    KidsInRange(a, s);
  }

  lemma CommitAlone(a: Engine, b: Engine, s: nat, slot: Slot, own: seq<Event>, was: nat, now: nat, rel: nat)
    requires a.Valid() && b.Valid() && SameOthers(a, b) && s < |a.slots| && !Family(a, s)
    requires InRange(a.children[s], |a.slots|)
    ensures var (x, y) := (StateEngine.Commit(a, s, slot, own, was, now, rel),
                           StateEngine.Commit(b, s, slot, own, was, now, rel));
            && x.events == y.events && SameOthers(x.engine, y.engine)
            && SameFamilies(a, x.engine) && SameFamilies(b, y.engine)
  {
    assert Cascade(a.slots[s := slot], [], was, now, rel).0 == a.slots[s := slot];
    assert Cascade(b.slots[s := slot], [], was, now, rel).0 == b.slots[s := slot];
  }

  // ---------------------------------------------------------------------------------------------
  // The interleaving and its sequential run.

  /** What the mutators have done so far is `q`, but for the writes of the family mutation under way. */
  ghost predicate Matched(w: Work, q: Outcome, held: Option<Op>) {
    && w.engine.Valid() && q.engine.Valid() && SameOthers(w.engine, q.engine) && w.pending == q.events
    && match w.commit
       case None => held == None && SameFamilies(w.engine, q.engine)
       case Some(c) =>
         && held == Some(c.op) && c.before.Valid() && SameTables(c.before, w.engine)
         && FamilyOp(c.before, c.op) && SameFamilies(c.before, q.engine)
  }

  /** The operations in the order they take effect; `held` is the one whose mutation is under way. */
  ghost function OpsOf(acts: seq<Act>, held: Option<Op>): seq<Op> {
    if acts == [] then []
    else
      match acts[0]
      case Begin(op) => OpsOf(acts[1..], Some(op))
      case Write(_) => OpsOf(acts[1..], held)
      case Finish => (if held.Some? then [held.value] else []) + OpsOf(acts[1..], None)
      case Mutate(op) => [op] + OpsOf(acts[1..], held)
  }

  ghost function HeldAfter(act: Act, held: Option<Op>): Option<Op> {
    match act
    case Begin(op) => Some(op)
    case Finish => None
    case _ => held
  }

  ghost function OpOf(act: Act, held: Option<Op>): Option<Op> {
    match act
    case Finish => held
    case Mutate(op) => Some(op)
    case _ => None
  }

  ghost function Then(q: Outcome, op: Op): Outcome
    requires q.engine.Valid()
  {
    Outcome(Apply(q.engine, op).engine, q.events + Apply(q.engine, op).events)
  }

  lemma FinishMatched(sevens: set<nat>, w: Work, q: Outcome)
    requires w.commit.Some? && Matched(w, q, Some(w.commit.value.op)) && CanAct(sevens, w, Finish)
    ensures Matched(Acted(sevens, w, Finish), Then(q, w.commit.value.op), None)
  {
    hide Apply;
    var c := w.commit.value;
    FamilyLocal(c.before, q.engine, c.op);
    TablesStay(q.engine, c.op);
    TablesStay(c.before, c.op);
    assert SameFamilies(w.engine, Target(c).engine);
  }

  lemma MutateMatched(sevens: set<nat>, w: Work, q: Outcome, held: Option<Op>, op: Op)
    requires Matched(w, q, held) && CanAct(sevens, w, Mutate(op))
    ensures Matched(Acted(sevens, w, Mutate(op)), Then(q, op), held)
  {
    hide Apply;
    OtherLocal(w.engine, q.engine, op);
    TablesStay(w.engine, op);
    TablesStay(q.engine, op);
  }

  lemma ActMatched(sevens: set<nat>, w: Work, act: Act, q: Outcome, held: Option<Op>)
    requires Matched(w, q, held) && CanAct(sevens, w, act)
    ensures var op := OpOf(act, held);
            Matched(Acted(sevens, w, act), if op.Some? then Then(q, op.value) else q, HeldAfter(act, held))
  {
    hide Apply, Then;
    match act
    case Begin(op) =>
    case Write(i) => SameTablesValid(w.engine, Acted(sevens, w, act).engine);
    case Finish => FinishMatched(sevens, w, q);
    case Mutate(op) => MutateMatched(sevens, w, q, held, op);
  }

  lemma RunThen(e: Engine, ops: seq<Op>, op: Op)
    requires e.Valid()
    ensures Run(e, ops + [op]) == Then(Run(e, ops), op)
  {
    assert (ops + [op])[..|ops|] == ops;
  }

  lemma {:induction false} RunMatched(sevens: set<nat>, e: Engine, done: seq<Op>, w: Work, acts: seq<Act>, end: Work,
                                      held: Option<Op>) returns (last: Option<Op>)
    requires e.Valid() && Leads(sevens, w, acts, end) && Matched(w, Run(e, done), held)
    ensures Matched(end, Run(e, done + OpsOf(acts, held)), last)
    decreases |acts|
  {
    hide Matched, CanAct, Acted, Run, OpsOf, OpOf, HeldAfter, Then;
    if acts == [] {
      NoOps(done, held);
      return held;
    }
    var (act, op) := (acts[0], OpOf(acts[0], held));
    var now := if op.Some? then done + [op.value] else done;
    ActMatched(sevens, w, act, Run(e, done), held);
    if op.Some? { RunThen(e, done, op.value); }
    last := RunMatched(sevens, e, now, Acted(sevens, w, act), acts[1..], end, HeldAfter(act, held));
    OpsStep(done, acts, held);
  }

  lemma NoOps(done: seq<Op>, held: Option<Op>)
    ensures done + OpsOf([], held) == done
  {
  }

  lemma OpsStep(done: seq<Op>, acts: seq<Act>, held: Option<Op>)
    requires acts != []
    ensures var op := OpOf(acts[0], held);
            (if op.Some? then done + [op.value] else done) + OpsOf(acts[1..], HeldAfter(acts[0], held))
            == done + OpsOf(acts, held)
  {
    var (op, rest) := (OpOf(acts[0], held), OpsOf(acts[1..], HeldAfter(acts[0], held)));
    assert OpsOf(acts, held) == (if op.Some? then [op.value] else []) + rest;
    if op.Some? {
      assert done + [op.value] + rest == done + ([op.value] + rest);
    } else {
      assert [] + rest == rest;
    }
  }

  /** From any engine at rest, whenever no mutation is under way: the words and the events are the sequential run's. */
  lemma InterleavingIsRun(sevens: set<nat>, e: Engine, acts: seq<Act>, end: Work)
    requires e.Valid() && Leads(sevens, Work(e, None, []), acts, end) && end.commit.None?
    ensures Outcome(end.engine, end.pending) == Run(e, OpsOf(acts, None))
  {
    hide Leads;
    var last := RunMatched(sevens, e, [], Work(e, None, []), acts, end, None);
    assert [] + OpsOf(acts, None) == OpsOf(acts, None);
    SameAll(end.engine, Run(e, OpsOf(acts, None)).engine);
  }
}
