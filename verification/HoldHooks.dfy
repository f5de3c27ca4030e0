/**
 The counter holds beside the mutators. Every broadcast oper event runs a hook for its interface: under the ledger's
 mutex it loads the interface's own word, then its parent's, and only then stores what it derived. It reads the engine
 and not the event, so hooks that run out of order are meant to converge on the state the engine holds.
 */
module HoldHooks {
  import opened Common
  import opened StateEngine
  import opened Mutators
  import opened HoldLedger

  /** The hook holding the ledger's mutex: its interface's word loaded, or its verdict formed. */
  datatype Hook = Idle | Loaded(slot: nat, word: Slot) | Decided(slot: nat, up: bool)

  datatype State = State(work: Work, hook: Hook, ledger: Ledger)

  datatype Step =
    | Mutator(act: Act)
    | Enter(k: nat)                // an event is broadcast: its hook takes the mutex and loads the own word
    | LoadParent
    | Store(now: real)

  /** The counter hierarchy, the known ifIndexes, and the children that may be given the link lowerLayerDown. */
  datatype Setting = Setting(rollup: Rollup, known: set<nat>, sevens: set<nat>) {
    ghost predicate Fits(e: Engine) { rollup.Valid() && rollup.Slots() == |e.slots| }
  }

  function OperOf(slot: nat): Leaf { Leaf(slot, OperStatus) }

  /** A hold is open on this slot. */
  predicate Open(ledger: Ledger, slot: nat) { slot < |ledger| && ledger[slot].Some? && ledger[slot].value.down }

  ghost predicate Init(g: Setting, s: State) {
    && s.work.engine.Valid() && s.work.commit == None && s.work.pending == [] && s.hook == Idle && g.Fits(s.work.engine)
    && s.ledger == Seeded(g.rollup, DownAtStart(g, s.work.engine))
  }

  /** The known interfaces that are not up. */
  ghost function DownAtStart(g: Setting, e: Engine): set<nat>
    requires e.Shaped()
  {
    set i | 0 <= i < |e.slots| && i + 1 in g.known && e.Oper(i) != OPER_UP
  }

  ghost predicate Enabled(g: Setting, s: State, step: Step) {
    match step
    case Mutator(act) => CanAct(g.sevens, s.work, act)
    case Enter(k) => s.hook.Idle? && k < |s.work.pending|
    case LoadParent => s.hook.Loaded? && s.work.engine.Shaped() && s.hook.slot < |s.work.engine.slots|
    case Store(_) => s.hook.Decided? && g.rollup.Valid() && s.hook.slot < |s.ledger| == g.rollup.Slots()
  }

  /** The event asks for a hook that does something. */
  predicate Asks(g: Setting, s: State, ev: Event) {
    ev.changed == OperLeaf && ev.ifIndex in g.known && 1 <= ev.ifIndex <= |s.work.engine.slots|
  }

  ghost function Next(g: Setting, s: State, step: Step): State
    requires Enabled(g, s, step)
  {
    match step
    case Mutator(act) => s.(work := Acted(g.sevens, s.work, act))
    case Enter(k) =>
      var ev := s.work.pending[k];
      var n := s.(work := s.work.(pending := s.work.pending[..k] + s.work.pending[k + 1..]));
      if Asks(g, s, ev) then n.(hook := Loaded(ev.ifIndex - 1, s.work.engine.slots[ev.ifIndex - 1])) else n
    case LoadParent =>
      var up := Completed(s.work.engine, OperOf(s.hook.slot), s.hook.word) == OPER_UP;
      s.(hook := Decided(s.hook.slot, up))
    case Store(now) =>
      s.(ledger := Reconcile(g.rollup, s.ledger, s.hook.slot, s.hook.up, now), hook := Idle)
  }

  ghost predicate Moves(g: Setting, s: State, n: State) {
    exists step :: Enabled(g, s, step) && n == Next(g, s, step)
  }

  ghost predicate Runs(g: Setting, run: seq<State>) {
    && |run| > 0 && Init(g, run[0])
    && forall i | 0 < i < |run| :: Moves(g, run[i - 1], run[i])
  }

  // ---------------------------------------------------------------------------------------------
  // The invariant.

  /** A hold is open exactly while the interface is not up. */
  ghost predicate Converged(s: State, i: nat) {
    s.work.engine.Shaped() && i < |s.work.engine.slots| && Open(s.ledger, i) == (s.work.engine.Oper(i) != OPER_UP)
  }

  /** The ledger, or the hook at work on the interface, agrees with the engine, or another hook is still to come. */
  ghost predicate SlotOk(s: State, i: nat) {
    var e := s.work.engine;
    e.Shaped() && i < |e.slots| &&
    (|| Announced(s.work, OperOf(i))
     || (match s.hook
         case Loaded(slot, word) => if slot == i then Agrees(e, OperOf(i), word) else Converged(s, i)
         case Decided(slot, up) => if slot == i then up == (e.Oper(i) == OPER_UP) else Converged(s, i)
         case Idle => Converged(s, i)))
  }

  /** Interfaces the theorem is about: known, and not a child that may be given the link lowerLayerDown. */
  ghost predicate Safe(g: Setting, e: Engine, i: nat) {
    i < |e.slots| == |e.parent| && i + 1 in g.known && !Exposed(e, g.sevens, OperOf(i))
  }

  ghost predicate Inv(g: Setting, s: State) {
    && WorkOk(g.sevens, s.work) && g.Fits(s.work.engine) && |s.ledger| == g.rollup.Slots()
    && (!s.hook.Idle? ==> s.hook.slot < |s.ledger|)
    && forall i | Safe(g, s.work.engine, i) :: SlotOk(s, i)
  }

  lemma MutatorInv(g: Setting, s: State, act: Act)
    requires Inv(g, s) && Enabled(g, s, Mutator(act))
    ensures Inv(g, Next(g, s, Mutator(act)))
  {
    hide ValueOf, Agrees, Announced, WorkOk, CanAct, Acted, Setting.Fits;
    var n := Next(g, s, Mutator(act));
    ActKeepsOk(g.sevens, s.work, act);
    FitsStays(g, s.work.engine, n.work.engine);
    forall i | Safe(g, n.work.engine, i) ensures SlotOk(n, i) {
      assert SlotOk(s, i);
      ActLeaf(g.sevens, s.work, act, OperOf(i));
      OperValue(s.work.engine, i);
      OperValue(n.work.engine, i);
    }
  }

  lemma FitsStays(g: Setting, a: Engine, b: Engine)
    requires g.Fits(a) && SameTables(a, b)
    ensures g.Fits(b)
  {
  }

  lemma OperValue(e: Engine, i: nat)
    requires e.Shaped() && i < |e.slots|
    ensures ValueOf(e, OperOf(i)) == e.Oper(i)
  {
  }

  lemma EnterInv(g: Setting, s: State, k: nat)
    requires Inv(g, s) && Enabled(g, s, Enter(k))
    ensures Inv(g, Next(g, s, Enter(k)))
  {
    hide AnyMatch, Target, Mixed, Allowed;
    var n := Next(g, s, Enter(k));
    forall i | Safe(g, n.work.engine, i) ensures SlotOk(n, i) {
      assert SlotOk(s, i);
      AnyMatchWithout(s.work.pending, k, OperOf(i));
    }
  }

  lemma LoadParentInv(g: Setting, s: State)
    requires Inv(g, s) && Enabled(g, s, LoadParent)
    ensures Inv(g, Next(g, s, LoadParent))
  {
    hide Announced, WorkOk, Agrees, Completed, ValueOf;
    var n := Next(g, s, LoadParent);
    forall i | Safe(g, n.work.engine, i) ensures SlotOk(n, i) {
      assert SlotOk(s, i);
      if s.hook.slot == i && Agrees(s.work.engine, OperOf(i), s.hook.word) {
        AgreesCompletes(s.work.engine, OperOf(i), s.hook.word);
        OperValue(s.work.engine, i);
      }
    }
  }

  /** A hook leaves its interface held exactly when it found it not up, and no other interface touched. */
  lemma StoredVerdict(c: Rollup, ledger: Ledger, w: nat, up: bool, now: real, i: nat)
    requires c.Valid() && |ledger| == c.Slots() && w < c.Slots()
    ensures Open(Reconcile(c, ledger, w, up, now), i) == if i == w then !up else Open(ledger, i)
  {
  }

  lemma StoreInv(g: Setting, s: State, now: real)
    requires Inv(g, s) && Enabled(g, s, Store(now))
    ensures Inv(g, Next(g, s, Store(now)))
  {
    hide Announced, WorkOk, Agrees, Reconcile, Open;
    var n := Next(g, s, Store(now));
    forall i | Safe(g, n.work.engine, i) ensures SlotOk(n, i) {
      assert SlotOk(s, i);
      StoredVerdict(g.rollup, s.ledger, s.hook.slot, s.hook.up, now, i);
    }
  }

  /** Every step of every mutator and hook, in any order of the events. */
  lemma NextInv(g: Setting, s: State, step: Step)
    requires Inv(g, s) && Enabled(g, s, step)
    ensures Inv(g, Next(g, s, step))
  {
    hide Inv, Next;
    match step
    case Mutator(act) => MutatorInv(g, s, act);
    case Enter(k) => EnterInv(g, s, k);
    case LoadParent => LoadParentInv(g, s);
    case Store(now) => StoreInv(g, s, now);
  }

  lemma {:induction false} RunInv(g: Setting, run: seq<State>, i: nat)
    requires Runs(g, run) && i < |run|
    ensures Inv(g, run[i])
  {
    if i > 0 {
      hide Inv, Enabled, Next, Init;
      RunInv(g, run, i - 1);
      assert Moves(g, run[i - 1], run[i]);
      var step :| Enabled(g, run[i - 1], step) && run[i] == Next(g, run[i - 1], step);
      NextInv(g, run[i - 1], step);
    } else {
      assert forall j | Safe(g, run[0].work.engine, j) :: SlotOk(run[0], j);
    }
  }

  /** Every mutation committed and every hook finished. */
  predicate Quiet(s: State) { s.work.commit.None? && s.work.pending == [] && s.hook.Idle? }

  /** In every interleaving: once every hook has finished, the open holds are the interfaces that are not up. */
  lemma HoldsConverge(g: Setting, run: seq<State>, k: nat, i: nat)
    requires Runs(g, run) && k < |run| && Quiet(run[k]) && Safe(g, run[k].work.engine, i)
    ensures Converged(run[k], i)
  {
    RunInv(g, run, k);
    assert SlotOk(run[k], i);
  }

  // ---------------------------------------------------------------------------------------------
  // Why the exception is needed: a hook torn between a child's word and its parent's.

  /** All down, and the child `c` shut although its link is up. */
  function ShutStart(e: Engine, c: nat): Engine
    requires c < |e.slots|
  {
    var a := TornStart(e, c);
    a.(slots := a.slots[c := Slot(OPER_UP, ADMIN_DOWN, 0)])
  }

  function Unshut(c: nat): Op { SetAdmin(c + 1, ADMIN_UP, 0) }

  /** One level: a child has no children. */
  lemma Childless(e: Engine, c: nat)
    requires e.Valid() && c < |e.slots| && e.parent[c] != 0
    ensures e.children[c] == []
  {
    if e.children[c] != [] {
      SomeElement(e.children[c]);
      assert false;
    }
  }

  lemma SomeElement(s: seq<nat>)
    requires s != []
    ensures exists k :: k in s
  {
    assert s[0] in s;
  }

  /** Admin up takes the child from down to lowerLayerDown, which it reports. */
  lemma UnshutReports(e: Engine, c: nat) returns (admin: Event, oper: Event)
    requires e.Valid() && c < |e.slots| && e.parent[c] != 0
    ensures ShutStart(e, c).Valid() && admin.changed == AdminLeaf && oper.changed == OperLeaf && oper.ifIndex == c + 1
    ensures Apply(ShutStart(e, c), Unshut(c)) == Outcome(TornStart(e, c), [admin, oper])
  {
    var (a, b) := (ShutStart(e, c), TornStart(e, c));
    SameTablesValid(e, a);
    FamilyParent(e, c);
    Childless(a, c);
    hide Engine.Valid;
    var (was, now) := (OPER_DOWN, OPER_LOWER_LAYER_DOWN);
    admin := Event(c + 1, now, was, ADMIN_UP, OPER_UP, 0, AdminLeaf);
    oper := OperEvent(c + 1, Slot(OPER_UP, ADMIN_UP, 0), was, now, 0);
    assert a.slots[c := Slot(OPER_UP, ADMIN_UP, 0)] == b.slots;
    assert [admin] + [oper] + [] == [admin, oper];
  }

  /** One step more. */
  lemma Extend(g: Setting, run: seq<State>, step: Step) returns (longer: seq<State>)
    requires Runs(g, run) && Enabled(g, run[|run| - 1], step)
    ensures longer == run + [Next(g, run[|run| - 1], step)] && Runs(g, longer)
  {
    hide Init, Enabled, Next;
    longer := run + [Next(g, run[|run| - 1], step)];
    forall i | 0 < i < |longer| ensures Moves(g, longer[i - 1], longer[i]) {
      if i < |run| { assert Moves(g, run[i - 1], run[i]); }
    }
  }

  lemma {:induction false} ExtendActs(g: Setting, start: seq<State>, acts: seq<Act>, end: Work)
    returns (run: seq<State>)
    requires Runs(g, start) && Leads(g.sevens, start[|start| - 1].work, acts, end)
    ensures Runs(g, run) && run[0] == start[0] && run[|run| - 1] == start[|start| - 1].(work := end)
    decreases |acts|
  {
    hide Init, CanAct, Acted, Moves;
    run := start;
    if acts != [] {
      run := Extend(g, run, Mutator(acts[0]));
      run := ExtendActs(g, run, acts[1..], end);
    }
  }

  /** The child is unshut. */
  lemma TornUnshut(g: Setting, e: Engine, c: nat) returns (run: seq<State>, admin: Event, oper: Event)
    requires e.Valid() && g.Fits(e) && c < |e.slots| && e.parent[c] != 0
    ensures Runs(g, run) && SameTables(e, run[0].work.engine)
    ensures admin.changed == AdminLeaf && oper.changed == OperLeaf && oper.ifIndex == c + 1
    ensures var end := run[|run| - 1];
            end.work == Work(TornStart(e, c), None, [admin, oper]) && end.hook.Idle? && |end.ledger| == |e.slots|
  {
    hide Leads, Moves, Apply, DownAtStart;
    var a := ShutStart(e, c);
    admin, oper := UnshutReports(e, c);
    FamilyParent(e, c);
    run := [State(Work(a, None, []), Idle, Seeded(g.rollup, DownAtStart(g, a)))];
    assert a.(slots := a.slots[c := Slot(OPER_UP, ADMIN_UP, 0)]) == TornStart(e, c);
    OneSlotLeads(g.sevens, run[0].work, Unshut(c), c, Slot(OPER_UP, ADMIN_UP, 0), [admin, oper]);
    assert [] + [admin, oper] == [admin, oper];
    run := ExtendActs(g, run, [Begin(Unshut(c)), Act.Write(c), Finish], Work(TornStart(e, c), None, [admin, oper]));
  }

  /** Its hook loads the child's word. */
  lemma TornFirst(g: Setting, e: Engine, c: nat) returns (run: seq<State>)
    requires e.Valid() && g.Fits(e) && c < |e.slots| && e.parent[c] != 0 && c + 1 in g.known
    ensures Runs(g, run) && SameTables(e, run[0].work.engine)
    ensures var end := run[|run| - 1];
            && end.work == Work(TornStart(e, c), None, []) && end.hook == Loaded(c, Slot(OPER_UP, ADMIN_UP, 0))
            && |end.ledger| == |e.slots|
  {
    hide Moves, Init;
    var start, admin, oper := TornUnshut(g, e, c);
    run := Extend(g, start, Enter(0));
    assert run[|run| - 1].work.pending == [oper];
    run := Extend(g, run, Enter(0));
    assert run[|run| - 1].work.pending == [];
  }

  /** The last event's hook, if it has one, leaves the child's hold alone. */
  lemma TornLast(g: Setting, start: seq<State>, ev: Event, c: nat) returns (run: seq<State>)
    requires Runs(g, start) && start[|start| - 1].work.commit.None? && start[|start| - 1].work.pending == [ev]
    requires start[|start| - 1].hook == Idle && ev.ifIndex != c + 1
    requires var s := start[|start| - 1];
             s.work.engine.Shaped() && g.rollup.Valid() && |s.ledger| == g.rollup.Slots() == |s.work.engine.slots|
    ensures Runs(g, run) && run[0] == start[0] && Quiet(run[|run| - 1])
    ensures run[|run| - 1].work.engine == start[|start| - 1].work.engine
    ensures Open(run[|run| - 1].ledger, c) == Open(start[|start| - 1].ledger, c)
  {
    hide Moves, Init, Completed, Reconcile, Open;
    var s := start[|start| - 1];
    run := Extend(g, start, Enter(0));
    if Asks(g, s, ev) {
      run := Extend(g, run, LoadParent);
      var up := run[|run| - 1].hook.up;
      run := Extend(g, run, Store(0.0));
      StoredVerdict(g.rollup, s.ledger, ev.ifIndex - 1, up, 0.0, c);
    }
  }

  /** Between its two loads the child's link moves unseen and the parent rises unfelt: the hook ends the hold. */
  lemma TornRun(g: Setting, e: Engine, c: nat) returns (run: seq<State>)
    requires e.Valid() && g.Fits(e) && c < |e.slots| && e.parent[c] != 0 && c + 1 in g.known && c in g.sevens
    ensures Runs(g, run) && SameTables(e, run[0].work.engine) && Quiet(run[|run| - 1])
    ensures var end := run[|run| - 1];
            && end.work.engine.Shaped() && |end.work.engine.slots| == |e.slots|
            && end.work.engine.Oper(c) == OPER_LOWER_LAYER_DOWN && !Open(end.ledger, c)
  {
    hide Moves, Init, Leads, Reconcile, Open;
    FamilyParent(e, c);
    run := TornFirst(g, e, c);
    var ev := TornLeads(g.sevens, e, c, []);
    assert [] + [ev] == [ev];
    run := ExtendActs(g, run, TornActs(c, e.parent[c] - 1), Work(TornEnd(e, c), None, [ev]));
    run := Extend(g, run, LoadParent);
    StoredVerdict(g.rollup, run[|run| - 1].ledger, c, true, 0.0, c);
    run := Extend(g, run, Store(0.0));
    run := TornLast(g, run, ev, c);
  }

  /** A run over the same family tables that falls quiet with the ledger and the engine apart. */
  ghost predicate Wrong(g: Setting, run: seq<State>, e: Engine, i: nat) {
    Runs(g, run) && SameTables(e, run[0].work.engine) && Quiet(run[|run| - 1]) && !Converged(run[|run| - 1], i)
  }

  ghost predicate AlwaysConverges(g: Setting, e: Engine, i: nat) { forall run: seq<State> :: !Wrong(g, run, e, i) }

  lemma {:induction false} TablesNeverMove(g: Setting, run: seq<State>, i: nat)
    requires Runs(g, run) && i < |run|
    ensures SameTables(run[0].work.engine, run[i].work.engine)
  {
    if i > 0 {
      TablesNeverMove(g, run, i - 1);
      hide Inv, Enabled, Next, Init;
      RunInv(g, run, i - 1);
      assert Moves(g, run[i - 1], run[i]);
      var step :| Enabled(g, run[i - 1], step) && run[i] == Next(g, run[i - 1], step);
      StepTables(g, run[i - 1], step);
    }
  }

  lemma StepTables(g: Setting, s: State, step: Step)
    requires Inv(g, s) && Enabled(g, s, step)
    ensures SameTables(s.work.engine, Next(g, s, step).work.engine)
  {
    hide WorkOk, CanAct, Acted, SlotOk, Reconcile;
    if step.Mutator? { ActKeepsOk(g.sevens, s.work, step.act); }
  }

  /** So hooks converge, on every run, for exactly the interfaces the guard keeps safe. */
  lemma HoldsConvergeExactly(g: Setting, e: Engine, i: nat)
    requires e.Valid() && g.Fits(e) && i < |e.slots| && i + 1 in g.known
    ensures AlwaysConverges(g, e, i) <==> !Exposed(e, g.sevens, OperOf(i))
  {
    if Exposed(e, g.sevens, OperOf(i)) {
      var run := TornRun(g, e, i);
      assert Wrong(g, run, e, i);
    } else {
      forall run: seq<State> ensures !Wrong(g, run, e, i) {
        if Runs(g, run) && SameTables(e, run[0].work.engine) && Quiet(run[|run| - 1]) {
          TablesNeverMove(g, run, |run| - 1);
          HoldsConverge(g, run, |run| - 1, i);
        }
      }
    }
  }
}
