/**
 An ON_CHANGE stream beside the mutators. The stream registers its channel, reads a snapshot leaf by leaf, syncs, and
 from then on re-reads the leaves each event names. Every load, broadcast and delivery is its own step, between any
 steps of the mutators.
 */
module OnChange {
  import opened Common
  import opened StateEngine
  import opened Mutators

  // ---------------------------------------------------------------------------------------------
  // The system.

  const BUFFER_DEPTH: nat := 16

  /** A read under way: the word loaded for a leaf. */
  datatype Load = Load(leaf: Leaf, word: Slot)

  datatype State = State(
    work: Work,
    registered: bool,
    channel: seq<Event>,
    unread: set<Leaf>,             // leaves the snapshot has still to read
    synced: bool,
    todo: set<Leaf>,               // leaves the event in hand has still to have re-read
    reading: Option<Load>,
    outbox: seq<(Leaf, nat)>,      // read, not yet delivered
    view: map<Leaf, nat>,          // the client's view
    lost: bool)                    // an event was dropped from the channel

  datatype Step =
    | Mutator(act: Act)
    | Broadcast(k: nat)
    | Register
    | LoadOwn(l: Leaf)
    | LoadParent
    | Sync
    | TakeEvent
    | Deliver

  /** What the stream covers, and which children may be given the link lowerLayerDown. */
  datatype Setting = Setting(covered: set<Leaf>, sevens: set<nat>)

  ghost predicate Init(g: Setting, s: State) {
    && s.work.engine.Valid() && s.work.commit == None && s.work.pending == []
    && !s.registered && s.channel == [] && s.unread == g.covered && !s.synced && s.todo == {} && s.reading == None
    && s.outbox == [] && s.view == map[] && !s.lost
    && forall l | l in g.covered :: l.s < |s.work.engine.slots|
  }

  ghost predicate Enabled(g: Setting, s: State, step: Step) {
    match step
    case Mutator(act) => CanAct(g.sevens, s.work, act)
    case Broadcast(k) => k < |s.work.pending|
    case Register => !s.registered
    // The snapshot, overlapping subscriptions included, the event in hand, or a heartbeat.
    case LoadOwn(l) => s.reading.None? && s.registered && l in g.covered && l.s < |s.work.engine.slots|
    case LoadParent => s.reading.Some? && s.work.engine.Shaped() && s.reading.value.leaf.s < |s.work.engine.slots|
    case Sync => s.registered && s.unread == {} && s.reading.None?
    case TakeEvent => s.synced && s.todo == {} && s.channel != [] && s.reading.None?
    case Deliver => s.outbox != []
  }

  ghost function Next(g: Setting, s: State, step: Step): State
    requires Enabled(g, s, step)
  {
    match step
    case Mutator(act) => s.(work := Acted(g.sevens, s.work, act))
    case Broadcast(k) =>
      var n := s.(work := s.work.(pending := s.work.pending[..k] + s.work.pending[k + 1..]));
      if !s.registered then n
      else if |s.channel| < BUFFER_DEPTH then n.(channel := s.channel + [s.work.pending[k]])
      else n.(channel := s.channel[1..] + [s.work.pending[k]], lost := true)
    case Register => s.(registered := true)
    case LoadOwn(l) => s.(reading := Some(Load(l, s.work.engine.slots[l.s])))
    case LoadParent =>
      var Load(l, w) := s.reading.value;
      s.(unread := s.unread - {l}, todo := s.todo - {l}, reading := None,
         outbox := s.outbox + [(l, Completed(s.work.engine, l, w))])
    case Sync => s.(synced := true)
    case TakeEvent => s.(channel := s.channel[1..], todo := set l | l in g.covered && Matches(s.channel[0], l))
    case Deliver => s.(outbox := s.outbox[1..], view := s.view[s.outbox[0].0 := s.outbox[0].1])
  }

  ghost predicate Moves(g: Setting, s: State, n: State) {
    exists step :: Enabled(g, s, step) && n == Next(g, s, step)
  }

  ghost predicate Runs(g: Setting, run: seq<State>) {
    && |run| > 0 && Init(g, run[0])
    && forall i | 0 < i < |run| :: Moves(g, run[i - 1], run[i])
  }

  // ---------------------------------------------------------------------------------------------
  // The invariant.

  /** A matching event has been committed, or is about to be, and the stream has not taken it yet. */
  ghost predicate Coming(s: State, l: Leaf) { Announced(s.work, l) || AnyMatch(s.channel, l) }

  /** The same, or the stream has it in hand and has still to re-read the leaf for it. */
  ghost predicate InFlight(s: State, l: Leaf) { Coming(s, l) || l in s.todo }

  /** The last value read for a leaf: still in the outbox, or delivered. */
  ghost function Latest(outbox: seq<(Leaf, nat)>, view: map<Leaf, nat>, l: Leaf): Option<nat> {
    if outbox != [] && outbox[|outbox| - 1].0 == l then Some(outbox[|outbox| - 1].1)
    else if outbox != [] then Latest(outbox[..|outbox| - 1], view, l)
    else if l in view then Some(view[l])
    else None
  }

  ghost predicate Fresh(s: State, l: Leaf) {
    s.work.engine.Shaped() && l.s < |s.work.engine.slots| &&
    (l !in s.unread && !s.lost ==> Latest(s.outbox, s.view, l) == Some(ValueOf(s.work.engine, l)) || InFlight(s, l))
  }

  /** The word in hand is as good as the current one, or the leaf will be read again. */
  ghost predicate Settled(s: State, l: Leaf) {
    s.work.engine.Shaped() && l.s < |s.work.engine.slots| &&
    (s.reading.Some? && s.reading.value.leaf == l && !s.lost ==>
       Agrees(s.work.engine, l, s.reading.value.word) || Coming(s, l))
  }

  ghost predicate LeafOk(g: Setting, s: State, l: Leaf) {
    && l.s < |s.work.engine.slots| == |s.work.engine.parent|
    && (!Exposed(s.work.engine, g.sevens, l) ==> Fresh(s, l) && Settled(s, l))
  }

  ghost predicate Phases(g: Setting, s: State) {
    && (!s.registered ==> s.unread == g.covered && s.reading.None?)
    && (s.synced ==> s.registered && s.unread == {})
    && s.unread <= g.covered
    && (s.reading.Some? ==> s.reading.value.leaf in g.covered)
  }

  ghost predicate Inv(g: Setting, s: State) {
    && WorkOk(g.sevens, s.work)
    && Phases(g, s)
    && (forall l | l in g.covered :: LeafOk(g, s, l))
  }

  lemma {:induction false} LatestPush(outbox: seq<(Leaf, nat)>, view: map<Leaf, nat>, x: (Leaf, nat), l: Leaf)
    ensures Latest(outbox + [x], view, l) == if x.0 == l then Some(x.1) else Latest(outbox, view, l)
  {
    assert (outbox + [x])[..|outbox|] == outbox;
  }

  lemma {:induction false} LatestPop(outbox: seq<(Leaf, nat)>, view: map<Leaf, nat>, l: Leaf)
    requires outbox != []
    ensures Latest(outbox[1..], view[outbox[0].0 := outbox[0].1], l) == Latest(outbox, view, l)
    decreases |outbox|
  {
    var (rest, front) := (outbox[1..], outbox[..|outbox| - 1]);
    if |outbox| > 1 {
      assert rest[|rest| - 1] == outbox[|outbox| - 1];
      assert rest[..|rest| - 1] == front[1..];
      LatestPop(front, view, l);
    }
  }

  lemma MutatorInv(g: Setting, s: State, act: Act)
    requires Inv(g, s) && Enabled(g, s, Mutator(act))
    ensures Inv(g, Next(g, s, Mutator(act)))
  {
    hide Latest, ValueOf, AnyMatch, Agrees, Announced, WorkOk, CanAct, Acted;
    var n := Next(g, s, Mutator(act));
    ActKeepsOk(g.sevens, s.work, act);
    forall l | l in g.covered ensures LeafOk(g, n, l) {
      assert LeafOk(g, s, l);
      if !Exposed(s.work.engine, g.sevens, l) { ActLeaf(g.sevens, s.work, act, l); }
    }
  }

  lemma BroadcastInv(g: Setting, s: State, k: nat)
    requires Inv(g, s) && Enabled(g, s, Broadcast(k))
    ensures Inv(g, Next(g, s, Broadcast(k)))
  {
    hide Latest, ValueOf, AnyMatch, Target, Agrees, Mixed, Allowed;
    var n := Next(g, s, Broadcast(k));
    forall l | l in g.covered ensures LeafOk(g, n, l) {
      assert LeafOk(g, s, l);
      AnyMatchWithout(s.work.pending, k, l);
      AnyMatchParts(s.channel, [s.work.pending[k]], l);
      OneMatch(s.work.pending[k], l);
    }
  }

  lemma LoadParentInv(g: Setting, s: State)
    requires Inv(g, s) && Enabled(g, s, LoadParent)
    ensures Inv(g, Next(g, s, LoadParent))
  {
    hide Latest, ValueOf, AnyMatch, Announced, WorkOk, Agrees, Completed;
    var n := Next(g, s, LoadParent);
    var Load(r, w) := s.reading.value;
    forall l | l in g.covered ensures LeafOk(g, n, l) {
      assert LeafOk(g, s, l);
      LatestPush(s.outbox, s.view, (r, Completed(s.work.engine, r, w)), l);
      if l == r && Agrees(s.work.engine, r, w) { AgreesCompletes(s.work.engine, r, w); }
    }
  }

  lemma TakeInv(g: Setting, s: State)
    requires Inv(g, s) && Enabled(g, s, TakeEvent)
    ensures Inv(g, Next(g, s, TakeEvent))
  {
    hide Latest, ValueOf, AnyMatch, Target, Agrees, WorkOk;
    var n := Next(g, s, TakeEvent);
    forall l | l in g.covered ensures LeafOk(g, n, l) {
      assert LeafOk(g, s, l);
      AnyMatchWithout(s.channel, 0, l);
      assert s.channel[..0] + s.channel[1..] == s.channel[1..];
    }
  }

  lemma DeliverInv(g: Setting, s: State)
    requires Inv(g, s) && Enabled(g, s, Deliver)
    ensures Inv(g, Next(g, s, Deliver))
  {
    hide Latest, ValueOf, AnyMatch, Target, Agrees, WorkOk;
    var n := Next(g, s, Deliver);
    forall l | l in g.covered ensures LeafOk(g, n, l) {
      assert LeafOk(g, s, l);
      LatestPop(s.outbox, s.view, l);
    }
  }

  lemma PlainInv(g: Setting, s: State, step: Step)
    requires Inv(g, s) && Enabled(g, s, step) && (step.Register? || step.Sync? || step.LoadOwn?)
    ensures Inv(g, Next(g, s, step))
  {
    hide Latest, ValueOf, AnyMatch, Announced, WorkOk;
    var n := Next(g, s, step);
    forall l | l in g.covered ensures LeafOk(g, n, l) { assert LeafOk(g, s, l); }
  }

  lemma NextInv(g: Setting, s: State, step: Step)
    requires Inv(g, s) && Enabled(g, s, step)
    ensures Inv(g, Next(g, s, step))
  {
    hide Inv, Next;
    match step
    case Mutator(act) => MutatorInv(g, s, act);
    case Broadcast(k) => BroadcastInv(g, s, k);
    case Register => PlainInv(g, s, step);
    case LoadOwn(l) => PlainInv(g, s, step);
    case LoadParent => LoadParentInv(g, s);
    case Sync => PlainInv(g, s, step);
    case TakeEvent => TakeInv(g, s);
    case Deliver => DeliverInv(g, s);
  }

  lemma {:induction false} RunInv(g: Setting, run: seq<State>, i: nat)
    requires Runs(g, run) && i < |run|
    ensures Inv(g, run[i])
  {
    if i > 0 {
      hide Inv, Enabled, Next, Init;
      RunInv(g, run, i - 1);
      assert Moves(g, run[i - 1], run[i]);
      var step :| Enabled(g, run[i - 1], step) && run[i] == Next(g, run[i - 1], step);
      NextInv(g, run[i - 1], step);
    } else {
      assert forall l | l in g.covered :: LeafOk(g, run[0], l);
    }
  }

  /**
   The channel over every run: empty until the stream registers, never more than 16 events, and an event is dropped
   only to make room for a new one in a channel that holds 16.
   */
  lemma {:induction false} ChannelBounded(g: Setting, run: seq<State>, i: nat)
    requires Runs(g, run) && i < |run|
    ensures |run[i].channel| <= 16 && (!run[i].registered ==> run[i].channel == [] && !run[i].lost)
    ensures i > 0 && run[i].lost && !run[i - 1].lost ==>
              |run[i - 1].channel| == 16 == |run[i].channel| && run[i].channel[..15] == run[i - 1].channel[1..]
  {
    if i > 0 {
      hide Enabled, Next, ChannelOk, Init;
      assert ChannelOk(run[i - 1]) by { ChannelBounded(g, run, i - 1); ChannelIs(run[i - 1]); }
      assert Moves(g, run[i - 1], run[i]);
      var step :| Enabled(g, run[i - 1], step) && run[i] == Next(g, run[i - 1], step);
      ChannelStep(g, run[i - 1], step);
      ChannelIs(run[i]);
    }
  }

  ghost predicate ChannelOk(s: State) {
    |s.channel| <= 16 && (!s.registered ==> s.channel == [] && !s.lost)
  }

  lemma ChannelIs(s: State)
    ensures ChannelOk(s) <==> |s.channel| <= 16 && (!s.registered ==> s.channel == [] && !s.lost)
  {
  }

  lemma ChannelStep(g: Setting, s: State, step: Step)
    requires Enabled(g, s, step) && ChannelOk(s)
    ensures var n := Next(g, s, step);
            && ChannelOk(n)
            && (n.lost && !s.lost ==> |s.channel| == 16 == |n.channel| && n.channel[..15] == s.channel[1..])
  {
    hide CanAct, Acted, Completed, Matches;
    match step
    case Broadcast(k) =>
    case TakeEvent =>
    case _ =>
  }

  /** An update for this leaf is read but not yet delivered. */
  predicate InOutbox(s: State, l: Leaf) { exists i :: 0 <= i < |s.outbox| && s.outbox[i].0 == l }

  lemma {:induction false} LatestOutside(outbox: seq<(Leaf, nat)>, view: map<Leaf, nat>, l: Leaf)
    requires forall i | 0 <= i < |outbox| :: outbox[i].0 != l
    ensures Latest(outbox, view, l) == if l in view then Some(view[l]) else None
  {
    if outbox != [] { LatestOutside(outbox[..|outbox| - 1], view, l); }
  }

  /** What the client holds for a leaf is the engine's value. */
  ghost predicate Current(s: State, l: Leaf) {
    s.work.engine.Shaped() && l.s < |s.work.engine.slots| && l in s.view && s.view[l] == ValueOf(s.work.engine, l)
  }

  /**
   After the sync, in every interleaving and as long as no event was dropped: what the client holds for a covered leaf
   is the engine's value, or a matching event or update is still on its way. The oper-status of a child that may be
   given the link lowerLayerDown is the one exception.
   */
  lemma ViewIsCurrentOrComing(g: Setting, run: seq<State>, i: nat, l: Leaf)
    requires Runs(g, run) && i < |run| && l in g.covered && run[i].synced && !run[i].lost
    requires l.s < |run[i].work.engine.parent| && !Exposed(run[i].work.engine, g.sevens, l)
    ensures Current(run[i], l) || InFlight(run[i], l) || InOutbox(run[i], l)
  {
    RunInv(g, run, i);
    var s := run[i];
    assert LeafOk(g, s, l);
    if !InOutbox(s, l) { LatestOutside(s.outbox, s.view, l); }
  }

  /** Synced, nothing dropped, nothing on its way. */
  predicate Quiet(s: State) {
    && s.synced && !s.lost && s.work.commit.None? && s.work.pending == []
    && s.channel == [] && s.todo == {} && s.outbox == []
  }

  /** Nothing on its way: the client's view is the engine's state. */
  lemma QuietViewIsEngine(g: Setting, run: seq<State>, i: nat, l: Leaf)
    requires Runs(g, run) && i < |run| && l in g.covered && Quiet(run[i])
    requires l.s < |run[i].work.engine.parent| && !Exposed(run[i].work.engine, g.sevens, l)
    ensures Current(run[i], l)
    ensures var (e, held) := (run[i].work.engine, run[i].view[l]);
            && (l.kind == OperStatus ==> held == e.Oper(l.s))
            && (l.kind == AdminStatus ==> held == if e.slots[l.s].admin == 0 then 1 else e.slots[l.s].admin)
            && (l.kind == LastChange ==> held == e.slots[l.s].rel)
  {
    ViewIsCurrentOrComing(g, run, i, l);
  }

  // ---------------------------------------------------------------------------------------------
  // Why the exception is needed: a read torn between a child's word and its parent's.

  /** One step more. */
  lemma Extend(g: Setting, run: seq<State>, step: Step) returns (longer: seq<State>)
    requires Runs(g, run) && Enabled(g, run[|run| - 1], step)
    ensures longer == run + [Next(g, run[|run| - 1], step)] && Runs(g, longer)
  {
    hide Init, Enabled, Next;
    longer := run + [Next(g, run[|run| - 1], step)];
    forall i | 0 < i < |longer| ensures Moves(g, longer[i - 1], longer[i]) {
      if i < |run| { assert Moves(g, run[i - 1], run[i]); }
    }
  }

  lemma {:induction false} ExtendActs(g: Setting, start: seq<State>, acts: seq<Act>, end: Work)
    returns (run: seq<State>)
    requires Runs(g, start) && Leads(g.sevens, start[|start| - 1].work, acts, end)
    ensures Runs(g, run) && run[0] == start[0] && run[|run| - 1] == start[|start| - 1].(work := end)
    decreases |acts|
  {
    hide Init, CanAct, Acted, Moves;
    run := start;
    if acts != [] {
      run := Extend(g, run, Mutator(acts[0]));
      run := ExtendActs(g, run, acts[1..], end);
    }
  }

  /** The stream loads the parent's word, delivers what it derives and takes the parent's event. */
  lemma TornLast(g: Setting, start: seq<State>, b: Engine, l: Leaf, w: Slot, ev: Event) returns (run: seq<State>)
    requires b.Shaped() && l.s < |b.slots| && !Matches(ev, l) && g.covered == {l}
    requires Runs(g, start)
    requires start[|start| - 1]
             == State(Work(b, None, [ev]), true, [], {l}, false, {}, Some(Load(l, w)), [], map[], false)
    ensures Runs(g, run) && run[0] == start[0]
    ensures Quiet(run[|run| - 1]) && run[|run| - 1].view == map[l := Completed(b, l, w)]
    ensures run[|run| - 1].work.engine == b
  {
    hide Completed, Matches;
    run := Extend(g, start, LoadParent);
    run := Extend(g, run, Deliver);
    run := Extend(g, run, Sync);
    run := Extend(g, run, Broadcast(0));
    run := Extend(g, run, TakeEvent);
  }

  /**
   The stream loads the child's word; the child's link moves unseen beneath its down parent and the parent rises unfelt;
   the stream loads the parent's word. Then all is quiet, the client told up, the engine at lowerLayerDown.
   */
  lemma TornRun(e: Engine, c: nat, g: Setting) returns (run: seq<State>)
    requires e.Valid() && c < |e.slots| && e.parent[c] != 0
    requires g.covered == {Leaf(c, OperStatus)} && c in g.sevens
    ensures Runs(g, run) && SameTables(e, run[0].work.engine) && Quiet(run[|run| - 1])
    ensures run[|run| - 1].view == map[Leaf(c, OperStatus) := OPER_UP]
    ensures run[|run| - 1].work.engine.Shaped() && |run[|run| - 1].work.engine.slots| == |e.slots|
    ensures run[|run| - 1].work.engine.Oper(c) == OPER_LOWER_LAYER_DOWN
  {
    hide Leads, Moves;
    var (l, a) := (Leaf(c, OperStatus), TornStart(e, c));
    FamilyParent(e, c);
    SameTablesValid(e, a);
    run := [State(Work(a, None, []), false, [], {l}, false, {}, None, [], map[], false)];
    run := Extend(g, run, Register);
    run := Extend(g, run, LoadOwn(l));
    var ev := TornLeads(g.sevens, e, c, []);
    assert [] + [ev] == [ev];
    run := ExtendActs(g, run, TornActs(c, e.parent[c] - 1), Work(TornEnd(e, c), None, [ev]));
    run := TornLast(g, run, TornEnd(e, c), l, Slot(OPER_UP, ADMIN_UP, 0), ev);
  }

  /** A run over the same family tables that falls quiet with the client's view of a leaf wrong. */
  ghost predicate Wrong(g: Setting, run: seq<State>, e: Engine, l: Leaf) {
    Runs(g, run) && SameTables(e, run[0].work.engine) && Quiet(run[|run| - 1]) && !Current(run[|run| - 1], l)
  }

  /** The view of a leaf is right whenever a run falls quiet, whatever the stream covers besides. */
  ghost predicate AlwaysRight(e: Engine, sevens: set<nat>, l: Leaf) {
    forall covered: set<Leaf>, run: seq<State> | l in covered :: !Wrong(Setting(covered, sevens), run, e, l)
  }

  lemma StepTables(g: Setting, s: State, step: Step)
    requires Inv(g, s) && Enabled(g, s, step)
    ensures SameTables(s.work.engine, Next(g, s, step).work.engine)
  {
    hide WorkOk, CanAct, Acted, LeafOk;
    if step.Mutator? { ActKeepsOk(g.sevens, s.work, step.act); }
  }

  lemma {:induction false} TablesNeverMove(g: Setting, run: seq<State>, i: nat)
    requires Runs(g, run) && i < |run|
    ensures SameTables(run[0].work.engine, run[i].work.engine)
  {
    hide Inv, Enabled, Next, Init;
    if i > 0 {
      TablesNeverMove(g, run, i - 1);
      RunInv(g, run, i - 1);
      assert Moves(g, run[i - 1], run[i]);
      var step :| Enabled(g, run[i - 1], step) && run[i] == Next(g, run[i - 1], step);
      StepTables(g, run[i - 1], step);
    }
  }

  /** So the theorem holds of exactly the leaves the guard keeps safe. */
  lemma ViewRightExactly(e: Engine, sevens: set<nat>, l: Leaf)
    requires e.Valid() && l.s < |e.slots|
    ensures AlwaysRight(e, sevens, l) <==> !Exposed(e, sevens, l)
  {
    if Exposed(e, sevens, l) {
      var g := Setting({l}, sevens);
      var run := TornRun(e, l.s, g);
      assert Wrong(g, run, e, l);
    } else {
      forall covered: set<Leaf>, run: seq<State> | l in covered ensures !Wrong(Setting(covered, sevens), run, e, l) {
        var g := Setting(covered, sevens);
        if Runs(g, run) && SameTables(e, run[0].work.engine) && Quiet(run[|run| - 1]) {
          TablesNeverMove(g, run, |run| - 1);
          QuietViewIsEngine(g, run, |run| - 1, l);
        }
      }
    }
  }
}
