/**
 The packed interface word and the lock-free loop that updates it. One 64-bit word holds link (3 bits),
 admin (3 bits) and last-change (58 bits of nanoseconds since boot); shifts and masks of these disjoint
 fields are written as division and remainder. Any number of threads load the word of a standalone
 interface, compute a successor and compare-and-swap, retrying when the word has moved.
 */
module StateWord {
  import opened StateEngine

  type Word = n: nat | n < 0x1_0000_0000_0000_0000

  /** One past the largest last-change. */
  const REL_SPAN: nat := 0x400_0000_0000_0000

  /** The largest last-change, all 58 bits set, marks a clock that read earlier than boot. */
  const REWIND: nat := REL_SPAN - 1

  type Stamp = n: nat | n <= REWIND

  // ---------------------------------------------------------------------------------------------
  // Packing.

  function PackState(slot: Slot): Word {
    slot.link % 8 + 8 * (slot.admin % 8) + 64 * (slot.rel % REL_SPAN)
  }

  function UnpackState(w: Word): Slot {
    Slot(w % 8, w / 8 % 8, w / 64 % REL_SPAN)
  }

  predicate Fits(slot: Slot) { slot.link <= 7 && slot.admin <= 7 && slot.rel <= REWIND }

  /** The fields come back exactly when they fit: no neighbour leaks into another. */
  lemma UnpackPack(slot: Slot)
    ensures UnpackState(PackState(slot)) == slot <==> Fits(slot)
  {
    var (l, a, r) := (slot.link % 8, slot.admin % 8, slot.rel % REL_SPAN);
    FieldsApart(l, a, r);
  }

  /** Three fields side by side. */
  lemma FieldsApart(l: nat, a: nat, r: nat)
    requires l < 8 && a < 8 && r < REL_SPAN
    ensures var w := l + 8 * a + 64 * r; w % 8 == l && w / 8 % 8 == a && w / 64 % REL_SPAN == r
  {
    var w := l + 8 * a + 64 * r;
    assert w == 8 * (a + 8 * r) + l;
    assert w / 8 == a + 8 * r;
    assert w == 64 * r + (8 * a + l);
    assert w / 64 == r;
  }

  /** Packing loses nothing: every 64-bit word is the packing of its own fields. */
  lemma PackUnpack(w: Word)
    ensures PackState(UnpackState(w)) == w && Fits(UnpackState(w))
  {
    assert w / 64 == w / 8 / 8;
  }

  /** Nanoseconds since boot in 58 bits, or the rewind mark. */
  function WallRelNs(now: nat, boot: nat): Stamp {
    if now < boot then REWIND else (now - boot) % REL_SPAN
  }

  /** The clocks the stamp is exact for: at or after boot, and short of the mark. */
  predicate ClockOk(now: nat, boot: nat) {
    boot <= now < boot + REWIND
  }

  /** The stamp reads back as a time, and as the right one, on those clocks and no others. */
  lemma StampExact(now: nat, boot: nat)
    ensures (WallRelNs(now, boot) != REWIND && boot + WallRelNs(now, boot) == now) <==> ClockOk(now, boot)
    ensures now < boot ==> WallRelNs(now, boot) == 0x3FF_FFFF_FFFF_FFFF
  {
  }

  // ---------------------------------------------------------------------------------------------
  // The sequential transition.

  datatype Call = LinkTo(value: nat) | AdminTo(value: nat) {
    predicate InRange() {
      if LinkTo? then OPER_UP <= value <= OPER_LOWER_LAYER_DOWN else ADMIN_UP <= value <= ADMIN_TESTING
    }
  }

  function Read(w: Word): Slot { UnpackState(w).Norm() }

  function Oper(w: Word): nat { DeriveOper(Read(w).admin, Read(w).link) }

  /** The call returns without storing anything. */
  predicate Settled(w: Word, call: Call) {
    !call.InRange() || (if call.LinkTo? then Read(w).link else Read(w).admin) == call.value
  }

  function OperAfter(w: Word, call: Call): nat {
    if call.LinkTo? then DeriveOper(Read(w).admin, call.value) else DeriveOper(call.value, Read(w).link)
  }

  predicate Visible(w: Word, call: Call) { Oper(w) != OperAfter(w, call) }

  /** The fields the loop tries to store. */
  function Wanted(w: Word, call: Call, stamp: Stamp): Slot {
    var cur := Read(w);
    var rel := if Visible(w, call) then stamp else cur.rel;
    if call.LinkTo? then Slot(call.value, cur.admin, rel) else Slot(cur.link, call.value, rel)
  }

  function After(w: Word, call: Call, stamp: Stamp): Word {
    if Settled(w, call) then w else PackState(Wanted(w, call, stamp))
  }

  /** A call moves its own leaf and, when the derived value moves, last-change; nothing else. */
  lemma AfterFields(w: Word, call: Call, stamp: Stamp)
    ensures Read(After(w, call, stamp)) == if Settled(w, call) then Read(w) else Wanted(w, call, stamp)
  {
    UnpackPack(Wanted(w, call, stamp));
  }

  /** The loop's successor is the engine's transition of a one-interface device. */
  lemma AfterIsEngineStep(w: Word, call: Call, stamp: Stamp)
    ensures var e := Engine([UnpackState(w)], [0], [[]]);
            var op := if call.LinkTo? then SetLink(1, call.value, stamp) else SetAdmin(1, call.value, stamp);
            e.Valid() && Apply(e, op).engine == Engine([UnpackState(After(w, call, stamp))], [0], [[]])
  {
    UnpackPack(Wanted(w, call, stamp));
  }

  // ---------------------------------------------------------------------------------------------
  // Threads. Load, clock sample and compare-and-swap are separate steps; anything may happen in between.

  datatype Thread =
    | Idle
    | Called(call: Call)
    | Loaded(call: Call, cur: Word)
    | Ready(call: Call, cur: Word, stamp: Stamp)

  /** A returned call and what it told its caller: whether it stored, and the derived values around the store. */
  datatype Return = Return(thread: nat, call: Call, stamp: Stamp, stored: bool, was: nat, now: nat)

  /** `now` is the wall clock. */
  datatype State = State(word: Word, now: nat, threads: seq<Thread>, log: seq<Return>)

  datatype Step =
    | Elapse(to: nat)
    | Begin(t: nat, call: Call)
    | Load(t: nat)
    | Sample(t: nat)
    | Swap(t: nat)

  ghost predicate Init(boot: nat, seed: Word, s: State) {
    && s.word == seed && s.log == []
    && ClockOk(s.now, boot) && boot + Read(seed).rel <= s.now
    && (forall t | 0 <= t < |s.threads| :: s.threads[t] == Idle)
  }

  predicate Enabled(boot: nat, s: State, step: Step) {
    match step
    case Elapse(to) => s.now <= to && ClockOk(to, boot)
    case Begin(t, _) => t < |s.threads| && s.threads[t].Idle?
    case Load(t) => t < |s.threads| && s.threads[t].Called?
    case Sample(t) => t < |s.threads| && s.threads[t].Loaded?
    case Swap(t) => t < |s.threads| && s.threads[t].Ready?
  }

  function Next(boot: nat, s: State, step: Step): State
    requires Enabled(boot, s, step)
  {
    match step
    case Elapse(to) => s.(now := to)
    case Begin(t, call) => s.(threads := s.threads[t := Called(call)])
    case Load(t) =>
      var call := s.threads[t].call;
      if Settled(s.word, call) then
        s.(threads := s.threads[t := Idle], log := s.log + [Return(t, call, 0, false, Oper(s.word), Oper(s.word))])
      else
        s.(threads := s.threads[t := Loaded(call, s.word)])
    case Sample(t) =>
      var (call, cur) := (s.threads[t].call, s.threads[t].cur);
      var stamp := if Visible(cur, call) then WallRelNs(s.now, boot) else Read(cur).rel;
      s.(threads := s.threads[t := Ready(call, cur, stamp)])
    case Swap(t) =>
      var (call, cur, stamp) := (s.threads[t].call, s.threads[t].cur, s.threads[t].stamp);
      if s.word == cur then
        State(After(cur, call, stamp), s.now, s.threads[t := Idle],
              s.log + [Return(t, call, stamp, true, Oper(cur), OperAfter(cur, call))])
      else
        s.(threads := s.threads[t := Called(call)])
  }

  ghost predicate Moves(boot: nat, s: State, n: State) {
    exists step :: Enabled(boot, s, step) && n == Next(boot, s, step)
  }

  ghost predicate Runs(boot: nat, seed: Word, run: seq<State>) {
    && |run| > 0 && Init(boot, seed, run[0])
    && forall i | 0 < i < |run| :: Moves(boot, run[i - 1], run[i])
  }

  // ---------------------------------------------------------------------------------------------
  // What every run keeps.

  /** One call at a time, in the order of the log. */
  function Sequential(seed: Word, log: seq<Return>): Word {
    if log == [] then seed
    else After(Sequential(seed, log[..|log| - 1]), log[|log| - 1].call, log[|log| - 1].stamp)
  }

  /** Every logged return is what the call would have returned run alone on the word the log gives at that point. */
  ghost predicate Legal(seed: Word, log: seq<Return>) {
    forall i | 0 <= i < |log| :: LegalReturn(Sequential(seed, log[..i]), log[i])
  }

  predicate LegalReturn(w: Word, r: Return) {
    && r.stored == !Settled(w, r.call)
    && r.was == Oper(w)
    && r.now == (if r.stored then OperAfter(w, r.call) else Oper(w))
  }

  predicate ThreadOk(th: Thread, boot: nat, now: nat) {
    match th
    case Idle => true
    case Called(_) => true
    case Loaded(call, cur) => !Settled(cur, call) && boot + Read(cur).rel <= now
    case Ready(call, cur, stamp) => !Settled(cur, call) && Read(cur).rel <= stamp && boot + stamp <= now
  }

  ghost predicate Inv(boot: nat, seed: Word, s: State) {
    && ClockOk(s.now, boot)
    && boot + Read(s.word).rel <= s.now
    && s.word == Sequential(seed, s.log)
    && Legal(seed, s.log)
    && (forall t | 0 <= t < |s.threads| :: ThreadOk(s.threads[t], boot, s.now))
  }

  lemma AppendLegal(seed: Word, log: seq<Return>, r: Return)
    requires Legal(seed, log) && LegalReturn(Sequential(seed, log), r)
    ensures Legal(seed, log + [r])
    ensures Sequential(seed, log + [r]) == After(Sequential(seed, log), r.call, r.stamp)
  {
    var n := log + [r];
    assert n[..|log|] == log;
    forall i | 0 <= i < |n| ensures LegalReturn(Sequential(seed, n[..i]), n[i]) {
      if i < |log| { assert n[..i] == log[..i]; }
    }
  }

  lemma SwapInv(boot: nat, seed: Word, s: State, t: nat)
    requires Inv(boot, seed, s) && Enabled(boot, s, Swap(t)) && s.word == s.threads[t].cur
    ensures Inv(boot, seed, Next(boot, s, Swap(t))) && Read(s.word).rel <= Read(Next(boot, s, Swap(t)).word).rel
  {
    var th := s.threads[t];
    AfterFields(th.cur, th.call, th.stamp);
    AppendLegal(seed, s.log, Return(t, th.call, th.stamp, true, Oper(th.cur), OperAfter(th.cur, th.call)));
  }

  lemma LoadInv(boot: nat, seed: Word, s: State, t: nat)
    requires Inv(boot, seed, s) && Enabled(boot, s, Load(t))
    ensures Inv(boot, seed, Next(boot, s, Load(t))) && Next(boot, s, Load(t)).word == s.word
  {
    hide UnpackState, PackState, Sequential, LegalReturn, Legal;
    var call := s.threads[t].call;
    if Settled(s.word, call) {
      var r := Return(t, call, 0, false, Oper(s.word), Oper(s.word));
      AppendLegal(seed, s.log, r);
    }
  }

  lemma SampleInv(boot: nat, seed: Word, s: State, t: nat)
    requires Inv(boot, seed, s) && Enabled(boot, s, Sample(t))
    ensures Inv(boot, seed, Next(boot, s, Sample(t))) && Next(boot, s, Sample(t)).word == s.word
  {
    hide UnpackState, Sequential, Legal, Settled;
    StampExact(s.now, boot);
  }

  lemma NextInv(boot: nat, seed: Word, s: State, step: Step)
    requires Inv(boot, seed, s) && Enabled(boot, s, step)
    ensures Inv(boot, seed, Next(boot, s, step)) && Read(s.word).rel <= Read(Next(boot, s, step).word).rel
  {
    hide UnpackState, PackState, Sequential, Legal, Settled, After;
    match step
    case Elapse(to) =>
    case Begin(_, _) =>
    case Load(t) => LoadInv(boot, seed, s, t);
    case Sample(t) => SampleInv(boot, seed, s, t);
    case Swap(t) => if s.word == s.threads[t].cur { SwapInv(boot, seed, s, t); }
  }

  lemma {:induction false} RunInv(boot: nat, seed: Word, run: seq<State>, i: nat)
    requires Runs(boot, seed, run) && i < |run|
    ensures Inv(boot, seed, run[i])
    ensures i > 0 ==> Read(run[i - 1].word).rel <= Read(run[i].word).rel
  {
    if i > 0 {
      RunInv(boot, seed, run, i - 1);
      assert Moves(boot, run[i - 1], run[i]);
      var step :| Enabled(boot, run[i - 1], step) && run[i] == Next(boot, run[i - 1], step);
      NextInv(boot, seed, run[i - 1], step);
    }
  }

  /** Every interleaving is equivalent to running the returned calls one at a time: none is lost, none acts twice. */
  lemma EverySuccessIsSequential(boot: nat, seed: Word, run: seq<State>, i: nat)
    requires Runs(boot, seed, run) && i < |run|
    ensures run[i].word == Sequential(seed, run[i].log) && Legal(seed, run[i].log)
  {
    RunInv(boot, seed, run, i);
  }

  // ---------------------------------------------------------------------------------------------
  // Every call is answered once, in its thread's own order.

  /** The calls thread `t` has begun. */
  ghost function Begun(run: seq<State>, i: nat, t: nat): seq<Call>
    requires i < |run|
  {
    if i == 0 then []
    else
      var (was, is_) := (run[i - 1].threads, run[i].threads);
      Begun(run, i - 1, t) + if t < |was| && t < |is_| && was[t].Idle? && !is_[t].Idle? then [is_[t].call] else []
  }

  /** The calls the log says thread `t` was answered. */
  ghost function Answered(log: seq<Return>, t: nat): seq<Call> {
    if log == [] then []
    else
      var last := log[|log| - 1];
      Answered(log[..|log| - 1], t) + if last.thread == t then [last.call] else []
  }

  ghost predicate Account(begun: seq<Call>, log: seq<Return>, th: Thread, t: nat) {
    begun == Answered(log, t) + if th.Idle? then [] else [th.call]
  }

  lemma AnsweredSnoc(log: seq<Return>, r: Return, t: nat)
    ensures Answered(log + [r], t) == Answered(log, t) + if r.thread == t then [r.call] else []
  {
    assert (log + [r])[..|log|] == log;
  }

  lemma StepAccounts(boot: nat, s: State, step: Step, t: nat, begun: seq<Call>)
    requires Enabled(boot, s, step) && t < |s.threads| && Account(begun, s.log, s.threads[t], t)
    ensures var n := Next(boot, s, step);
            var new_ := if s.threads[t].Idle? && !n.threads[t].Idle? then [n.threads[t].call] else [];
            Account(begun + new_, n.log, n.threads[t], t)
  {
    hide Settled, After, Oper, OperAfter, Visible, WallRelNs, Read, Answered;
    var n := Next(boot, s, step);
    match step
    case Elapse(_) =>
    case Begin(_, _) =>
    case Load(_) => if |n.log| > |s.log| { AnsweredSnoc(s.log, n.log[|s.log|], t); }
    case Sample(_) =>
    case Swap(_) => if |n.log| > |s.log| { AnsweredSnoc(s.log, n.log[|s.log|], t); }
  }

  /** The calls a thread has begun are those the log answers it, in that order, and the one it is in. */
  lemma {:induction false} EveryCallAnswered(boot: nat, seed: Word, run: seq<State>, i: nat, t: nat)
    requires Runs(boot, seed, run) && i < |run| && t < |run[0].threads|
    ensures |run[i].threads| == |run[0].threads|
    ensures Begun(run, i, t) == Answered(run[i].log, t)
                              + if run[i].threads[t].Idle? then [] else [run[i].threads[t].call]
  {
    if i > 0 {
      EveryCallAnswered(boot, seed, run, i - 1, t);
      assert Moves(boot, run[i - 1], run[i]);
      var step :| Enabled(boot, run[i - 1], step) && run[i] == Next(boot, run[i - 1], step);
      StepAccounts(boot, run[i - 1], step, t, Begun(run, i - 1, t));
    }
  }

  /** The steps lead from `s` to `end`, each enabled where it is taken. */
  ghost predicate Leads(boot: nat, s: State, steps: seq<Step>, end: State)
    decreases |steps|
  {
    if steps == [] then s == end
    else Enabled(boot, s, steps[0]) && Leads(boot, Next(boot, s, steps[0]), steps[1..], end)
  }

  /**
   A thread left alone: a call that finds its value there returns after its load; any other is done after one load,
   one clock reading at whatever instant and one swap, with its value in force, stamped with that instant if it shows.
   */
  lemma AloneReturns(boot: nat, s: State, t: nat, call: Call, to: nat) returns (steps: seq<Step>, end: State)
    requires t < |s.threads| && s.threads[t].Idle? && call.InRange() && s.now <= to && ClockOk(to, boot)
    ensures Leads(boot, s, steps, end) && end.threads == s.threads && |end.log| == |s.log| + 1
    ensures if Asked(s.word, call) == call.value then end.word == s.word
            else Asked(end.word, call) == call.value && end.now == to
    ensures Oper(end.word) != Oper(s.word) ==> boot + Read(end.word).rel == to
  {
    hide PackState, UnpackState, WallRelNs;
    var begun := Next(boot, s, Begin(t, call));
    var loaded := Next(boot, begun, Load(t));
    if loaded.threads[t].Idle? {
      steps, end := [Begin(t, call), Load(t)], loaded;
      assert steps[1..] == [Load(t)] && steps[1..][1..] == [] && Leads(boot, begun, [Load(t)], end);
      assert end.threads == s.threads;
    } else {
      var waited := Next(boot, loaded, Elapse(to));
      var ready := Next(boot, waited, Sample(t));
      end := Next(boot, ready, Swap(t));
      StampExact(to, boot);
      AfterFields(s.word, call, ready.threads[t].stamp);
      steps := [Begin(t, call), Load(t), Elapse(to), Sample(t), Swap(t)];
      assert steps[1..] == [Load(t), Elapse(to), Sample(t), Swap(t)];
      assert steps[1..][1..] == [Elapse(to), Sample(t), Swap(t)] && steps[2..][1..] == [Sample(t), Swap(t)];
      assert [Sample(t), Swap(t)][1..] == [Swap(t)] && [Swap(t)][1..] == [];
      assert Leads(boot, ready, [Swap(t)], end);
      assert Leads(boot, waited, [Sample(t), Swap(t)], end);
      assert Leads(boot, loaded, [Elapse(to), Sample(t), Swap(t)], end);
      assert Leads(boot, begun, [Load(t), Elapse(to), Sample(t), Swap(t)], end);
      assert end.threads == s.threads;
    }
  }

  /** A swap that finds the word moved changes nothing: the thread is back where its call began. */
  lemma LostSwapStartsOver(boot: nat, s: State, t: nat)
    requires Enabled(boot, s, Swap(t)) && s.word != s.threads[t].cur
    ensures Next(boot, s, Swap(t)) == s.(threads := s.threads[t := Called(s.threads[t].call)])
  {
  }

  /** What the word holds of the leaf a call is for. */
  function Asked(w: Word, call: Call): nat { if call.LinkTo? then Read(w).link else Read(w).admin }

  // ---------------------------------------------------------------------------------------------
  // Stamps are clock readings.

  ghost predicate Sampled(boot: nat, run: seq<State>, i: nat, stamp: Stamp)
    requires i < |run|
  {
    exists j :: 0 <= j <= i && boot + stamp == run[j].now
  }

  ghost predicate ReadyIsSampled(boot: nat, run: seq<State>, i: nat, t: nat)
    requires i < |run|
  {
    var ths := run[i].threads;
    t < |ths| && ths[t].Ready? && Visible(ths[t].cur, ths[t].call) ==> Sampled(boot, run, i, ths[t].stamp)
  }

  lemma {:induction false} AllSampled(boot: nat, seed: Word, run: seq<State>, i: nat, t: nat)
    requires Runs(boot, seed, run) && i < |run|
    ensures ReadyIsSampled(boot, run, i, t)
  {
    if i > 0 {
      hide Visible, Settled, After, Oper, OperAfter, Read, WallRelNs;
      AllSampled(boot, seed, run, i - 1, t);
      RunInv(boot, seed, run, i - 1);
      StampExact(run[i - 1].now, boot);
      assert Moves(boot, run[i - 1], run[i]);
      var step :| Enabled(boot, run[i - 1], step) && run[i] == Next(boot, run[i - 1], step);
      if step == Sample(t) && Visible(run[i - 1].threads[t].cur, run[i - 1].threads[t].call) {
        assert boot + run[i].threads[t].stamp == run[i - 1].now;
      }
      if t < |run[i - 1].threads| && run[i].threads[t].Ready? && step != Sample(t) {
        assert run[i].threads[t] == run[i - 1].threads[t];
      }
    }
  }

  /**
   Last-change moves exactly when the derived value does, and then to an instant the clock showed earlier in the run;
   a store the derived value does not show leaves it alone.
   */
  lemma LastChangeIsSampled(boot: nat, seed: Word, run: seq<State>, i: nat)
    requires Runs(boot, seed, run) && 0 < i < |run|
    ensures Oper(run[i].word) == Oper(run[i - 1].word) ==> Read(run[i].word).rel == Read(run[i - 1].word).rel
    ensures Oper(run[i].word) != Oper(run[i - 1].word) ==> Sampled(boot, run, i - 1, Read(run[i].word).rel)
  {
    hide PackState, UnpackState, Sampled;
    assert Moves(boot, run[i - 1], run[i]);
    var step :| Enabled(boot, run[i - 1], step) && run[i] == Next(boot, run[i - 1], step);
    if step.Swap? && run[i - 1].word == run[i - 1].threads[step.t].cur {
      var th := run[i - 1].threads[step.t];
      AllSampled(boot, seed, run, i - 1, step.t);
      RunInv(boot, seed, run, i - 1);
      AfterFields(th.cur, th.call, th.stamp);
    }
  }

  /** Last-change never decreases. */
  lemma {:induction false} LastChangeNeverDecreases(boot: nat, seed: Word, run: seq<State>, i: nat, j: nat)
    requires Runs(boot, seed, run) && i <= j < |run|
    ensures Read(run[i].word).rel <= Read(run[j].word).rel
    decreases j
  {
    hide Inv, Read;
    if i < j {
      LastChangeNeverDecreases(boot, seed, run, i, j - 1);
      RunInv(boot, seed, run, j);
    }
  }

  /** The value the last call for one leaf asked for, or the seeded value; out-of-range calls are refused. */
  function LastAsked(seed: nat, log: seq<Return>, link: bool): nat {
    if log == [] then seed
    else
      var c := log[|log| - 1].call;
      if c.InRange() && c.LinkTo? == link then c.value else LastAsked(seed, log[..|log| - 1], link)
  }

  /** No update of either leaf is lost, whichever leaf the racing calls were for. */
  lemma {:induction false} NoUpdateLost(seed: Word, log: seq<Return>)
    requires Legal(seed, log)
    ensures Read(Sequential(seed, log)).link == LastAsked(Read(seed).link, log, true)
    ensures Read(Sequential(seed, log)).admin == LastAsked(Read(seed).admin, log, false)
  {
    if log != [] {
      var front := log[..|log| - 1];
      var r := log[|log| - 1];
      forall i | 0 <= i < |front| ensures LegalReturn(Sequential(seed, front[..i]), front[i]) {
        assert front[..i] == log[..i];
      }
      assert LegalReturn(Sequential(seed, log[..|log| - 1]), r);
      NoUpdateLost(seed, front);
      AfterFields(Sequential(seed, front), r.call, r.stamp);
    }
  }
}
