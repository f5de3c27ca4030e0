/**
 The ledger under concurrency: any number of seqlock readers, writers serialised by a mutex, and a
 clock that does not turn back. A reader samples its instant, then brackets its loads with the
 sequence counter and retries when the counter was odd or moved; a writer makes the counter odd,
 then samples its instant, stores and makes it even again. Every load of every slot is its own step.
 */
module Seqlock {
  import opened Common
  import opened HoldLedger

  datatype Phase =
    | Idle
      // `mark` counts the reads that had completed when `t` was sampled.
    | Sampled(slot: nat, t: real, mark: nat)
      // The loads of one bracket, by direction; `gotIn` and `gotOut` say which slots were loaded.
    | Bracketed(slot: nat, t: real, mark: nat, seen: nat,
                viewIn: Ledger, viewOut: Ledger, gotIn: set<nat>, gotOut: set<nat>)

  datatype Writer =
    | Free
    | Entered(w: nat)
    | Stamped(w: nat, up: bool, at: real)
    | Stored(w: nat)

  /** A completed poll. */
  datatype Read = Read(slot: nat, t: real, valIn: nat, valOut: nat, mark: nat)

  datatype State = State(
    clock: real,
    holdSeq: nat,
    ledger: Ledger,
    writer: Writer,
    readers: seq<Phase>,
    log: seq<Read>)

  datatype Step =
    | Elapse(to: real)
    | Sample(r: nat, slot: nat)
    | Enter(r: nat)
    | Load(r: nat, j: nat, d: Direction)
    | Finish(r: nat)
    | Lock(w: nat)
    | Stamp(up: bool)
    | Store
    | Unlock

  ghost predicate Init(c: Rollup, s: State) {
    && c.Valid()
    && s.clock == 0.0
    && s.holdSeq == 0
    && (exists down: set<nat> :: s.ledger == Seeded(c, down))
    && s.writer == Free
    && (forall r | 0 <= r < |s.readers| :: s.readers[r] == Idle)
    && s.log == []
  }

  ghost predicate Enabled(c: Rollup, s: State, step: Step)
    requires c.Valid()
  {
    match step
    case Elapse(to) => s.clock <= to
    case Sample(r, slot) => r < |s.readers| && s.readers[r].Idle? && slot < c.Slots()
    case Enter(r) => r < |s.readers| && s.readers[r].Sampled? && s.holdSeq % 2 == 0
    case Load(r, j, d) => r < |s.readers| && s.readers[r].Bracketed? && j < |s.ledger|
    case Finish(r) =>
      && r < |s.readers| && s.readers[r].Bracketed?
      && s.readers[r].slot < c.Slots()
      && |s.readers[r].viewIn| == |s.readers[r].viewOut| == c.Slots()
      && Deps(c, s.readers[r].slot) <= s.readers[r].gotIn
      && Deps(c, s.readers[r].slot) <= s.readers[r].gotOut
    case Lock(w) => s.writer.Free? && w < c.Slots()
    case Stamp(up) => s.writer.Entered?
    case Store => s.writer.Stamped? && |s.ledger| == c.Slots() && s.writer.w < c.Slots()
    case Unlock => s.writer.Entered? || s.writer.Stored?
  }

  ghost function Next(c: Rollup, s: State, step: Step): State
    requires c.Valid() && Enabled(c, s, step)
  {
    match step
    case Elapse(to) => s.(clock := to)
    case Sample(r, slot) => s.(readers := s.readers[r := Sampled(slot, s.clock, |s.log|)])
    case Enter(r) =>
      var p := s.readers[r];
      var blank := seq(c.Slots(), _ => None);
      s.(readers := s.readers[r := Bracketed(p.slot, p.t, p.mark, s.holdSeq, blank, blank, {}, {})])
    case Load(r, j, d) =>
      var p := s.readers[r];
      var q := if d.Inbound?
               then p.(viewIn := Put(p.viewIn, j, s.ledger[j]), gotIn := p.gotIn + {j})
               else p.(viewOut := Put(p.viewOut, j, s.ledger[j]), gotOut := p.gotOut + {j});
      s.(readers := s.readers[r := q])
    case Finish(r) =>
      var p := s.readers[r];
      if p.seen == s.holdSeq then
        var read := Read(p.slot, p.t, Served(c, p.viewIn, p.slot, p.t, Inbound),
                         Served(c, p.viewOut, p.slot, p.t, Outbound), p.mark);
        s.(readers := s.readers[r := Idle], log := s.log + [read])
      else
        s.(readers := s.readers[r := Sampled(p.slot, p.t, p.mark)])
    case Lock(w) => s.(writer := Entered(w), holdSeq := s.holdSeq + 1)
    case Stamp(up) => s.(writer := Stamped(s.writer.w, up, s.clock))
    case Store =>
      s.(ledger := Reconcile(c, s.ledger, s.writer.w, s.writer.up, s.writer.at), writer := Stored(s.writer.w))
    case Unlock => s.(writer := Free, holdSeq := s.holdSeq + 1)
  }

  function Put(view: Ledger, j: nat, h: Option<Hold>): (r: Ledger)
    ensures |r| == |view|
  {
    if j < |view| then view[j := h] else view
  }

  /** `steps` leads from `s` to `end`, every step enabled where it is taken. */
  ghost predicate Runs(c: Rollup, s: State, steps: seq<Step>, end: State)
    requires c.Valid()
    decreases |steps|
  {
    if steps == [] then s == end
    else Enabled(c, s, steps[0]) && Runs(c, Next(c, s, steps[0]), steps[1..], end)
  }

  /** A read that completed before another sampled its instant served no more, in either direction. */
  ghost predicate NeverBackwards(log: seq<Read>) {
    forall i, j | 0 <= i < j < |log| && i < log[j].mark && log[i].slot == log[j].slot ::
      log[i].valIn <= log[j].valIn && log[i].valOut <= log[j].valOut
  }

  // ---------------------------------------------------------------------------------------------
  // The invariant.

  ghost predicate ViewOk(view: Ledger, got: set<nat>, ledger: Ledger, current: bool) {
    && |view| == |ledger|
    && (current ==> Agree(view, ledger, got))
  }

  ghost predicate ReaderOk(c: Rollup, s: State, p: Phase) {
    match p
    case Idle => true
    case Sampled(slot, t, mark) =>
      slot < c.Slots() && t <= s.clock && mark <= |s.log| && Precedes(s.log, mark, t)
    case Bracketed(slot, t, mark, seen, viewIn, viewOut, gotIn, gotOut) =>
      && slot < c.Slots() && t <= s.clock && mark <= |s.log| && Precedes(s.log, mark, t)
      && seen % 2 == 0 && seen <= s.holdSeq
      && ViewOk(viewIn, gotIn, s.ledger, seen == s.holdSeq)
      && ViewOk(viewOut, gotOut, s.ledger, seen == s.holdSeq)
  }

  /** The first `mark` reads sampled no later than `t`. */
  ghost predicate Precedes(log: seq<Read>, mark: nat, t: real) {
    forall i | 0 <= i < mark && i < |log| :: log[i].t <= t
  }

  /** What a completed read served is still a floor for its slot. */
  ghost predicate ReadOk(c: Rollup, s: State, r: Read)
    requires c.Ranked() && |s.ledger| == c.Slots()
  {
    && r.slot < c.Slots() && r.t <= s.clock
    && r.valIn <= Served(c, s.ledger, r.slot, r.t, Inbound)
    && r.valOut <= Served(c, s.ledger, r.slot, r.t, Outbound)
  }

  ghost predicate WriterOk(c: Rollup, s: State) {
    && (s.holdSeq % 2 == 0 <==> s.writer.Free?)
    && (!s.writer.Free? ==> s.writer.w < c.Slots())
    && (s.writer.Stamped? ==>
          && s.writer.at <= s.clock
          && LedgerOk(c, s.ledger, s.writer.at)
          && Precedes(s.log, |s.log|, s.writer.at))
  }

  ghost predicate Inv(c: Rollup, s: State) {
    && LedgerOk(c, s.ledger, s.clock)
    && WriterOk(c, s)
    && (forall i | 0 <= i < |s.log| :: ReadOk(c, s, s.log[i]))
    && (forall r | 0 <= r < |s.readers| :: ReaderOk(c, s, s.readers[r]))
    && NeverBackwards(s.log)
  }

  /** A completed read is a floor for any later instant. */
  lemma FloorRises(c: Rollup, s: State, r: Read, t: real)
    requires c.Valid() && |s.ledger| == c.Slots() && ReadOk(c, s, r) && r.t <= t
    ensures r.valIn <= Served(c, s.ledger, r.slot, t, Inbound) && r.valOut <= Served(c, s.ledger, r.slot, t, Outbound)
  {
    ServedMono(c, s.ledger, r.slot, r.t, t, Inbound);
    ServedMono(c, s.ledger, r.slot, r.t, t, Outbound);
  }

  lemma FinishInv(c: Rollup, s: State, r: nat)
    requires Inv(c, s) && Enabled(c, s, Finish(r))
    ensures Inv(c, Next(c, s, Finish(r)))
  {
    var n := Next(c, s, Finish(r));
    var p := s.readers[r];
    assert ReaderOk(c, s, p);
    if p.seen == s.holdSeq {
      hide LedgerOk, WriterOk;
      var read := n.log[|s.log|];
      ServedOfDeps(c, p.viewIn, s.ledger, p.slot, p.t, Inbound);
      ServedOfDeps(c, p.viewOut, s.ledger, p.slot, p.t, Outbound);
      forall i | 0 <= i < |s.log| && i < p.mark && s.log[i].slot == p.slot
        ensures s.log[i].valIn <= read.valIn && s.log[i].valOut <= read.valOut
      {
        FloorRises(c, s, s.log[i], p.t);
      }
      forall i | 0 <= i < |n.log| ensures ReadOk(c, n, n.log[i]) {
        if i < |s.log| { assert ReadOk(c, s, s.log[i]); }
      }
    } else {
      forall i | 0 <= i < |n.log| ensures ReadOk(c, n, n.log[i]) {
        assert ReadOk(c, s, s.log[i]);
      }
    }
    forall q | 0 <= q < |n.readers| ensures ReaderOk(c, n, n.readers[q]) {
      assert ReaderOk(c, s, s.readers[q]);
    }
  }

  lemma StoreInv(c: Rollup, s: State)
    requires Inv(c, s) && Enabled(c, s, Store)
    ensures Inv(c, Next(c, s, Store))
  {
    var n := Next(c, s, Store);
    var (w, up, at) := (s.writer.w, s.writer.up, s.writer.at);
    ReconcileKeepsOk(c, s.ledger, w, up, at);
    OkLater(c, n.ledger, at, s.clock);
    forall i | 0 <= i < |n.log| ensures ReadOk(c, n, n.log[i]) {
      var read := s.log[i];
      assert ReadOk(c, s, read);
      ServedRaised(c, s.ledger, w, up, at, read.slot, read.t, Inbound);
      ServedRaised(c, s.ledger, w, up, at, read.slot, read.t, Outbound);
    }
    forall r | 0 <= r < |n.readers| ensures ReaderOk(c, n, n.readers[r]) {
      assert ReaderOk(c, s, s.readers[r]);
    }
  }

  lemma OtherStepInv(c: Rollup, s: State, step: Step)
    requires Inv(c, s) && Enabled(c, s, step)
    requires step.Elapse? || step.Lock? || step.Stamp? || step.Unlock?
    ensures Inv(c, Next(c, s, step))
  {
    var n := Next(c, s, step);
    if step.Elapse? { OkLater(c, s.ledger, s.clock, step.to); }
    forall i | 0 <= i < |n.log| ensures ReadOk(c, n, n.log[i]) {
      assert ReadOk(c, s, s.log[i]);
    }
    forall r | 0 <= r < |n.readers| ensures ReaderOk(c, n, n.readers[r]) {
      assert ReaderOk(c, s, s.readers[r]);
    }
  }

  lemma NextInv(c: Rollup, s: State, step: Step)
    requires Inv(c, s) && Enabled(c, s, step)
    ensures Inv(c, Next(c, s, step))
  {
    match step
    case Finish(r) => FinishInv(c, s, r);
    case Store => StoreInv(c, s);
    case Sample(_, _) => 
    case Enter(_) => 
    case Load(_, _, _) => 
    case _ => OtherStepInv(c, s, step);
  }

  lemma {:induction false} RunInv(c: Rollup, s: State, steps: seq<Step>, end: State)
    requires Inv(c, s) && Runs(c, s, steps, end)
    ensures Inv(c, end)
    decreases |steps|
  {
    if steps != [] {
      NextInv(c, s, steps[0]);
      RunInv(c, Next(c, s, steps[0]), steps[1..], end);
    }
  }

  // ---------------------------------------------------------------------------------------------
  // The theorems, over every interleaving.

  /** No poll ever goes backwards, on standalone, child and aggregate slots alike. */
  lemma NoPollGoesBackwards(c: Rollup, s: State, steps: seq<Step>, end: State)
    requires Init(c, s) && Runs(c, s, steps, end)
    ensures NeverBackwards(end.log)
  {
    RunInv(c, s, steps, end);
  }

  /** In every reachable ledger the underflow guard is never taken, for any slot, instant or direction. */
  lemma GuardUnreachable(c: Rollup, s: State, steps: seq<Step>, end: State, slot: nat, t: real, d: Direction)
    requires Init(c, s) && Runs(c, s, steps, end)
    requires slot < |end.ledger| && end.ledger[slot].Some?
    ensures c.Ranked() && |end.ledger| == c.Slots()
    ensures Raw(c, end.ledger, slot, end.ledger[slot].value.Clamp(t), d) >= end.ledger[slot].value.Skipped(d)
  {
    RunInv(c, s, steps, end);
    GuardNeverTaken(c, end.ledger, end.clock, slot, t, d);
  }

  /**
   A read that completed is a read of one ledger generation: what it served is the served value of the ledger as it
   stood.
   */
  lemma CompletedReadIsAtomic(c: Rollup, s: State, steps: seq<Step>, end: State, r: nat)
    requires Init(c, s) && Runs(c, s, steps, end) && Enabled(c, end, Finish(r)) && end.readers[r].seen == end.holdSeq
    ensures c.Ranked() && |end.ledger| == c.Slots()
    ensures var p := end.readers[r];
            var read := Next(c, end, Finish(r)).log[|end.log|];
            read.valIn == Served(c, end.ledger, p.slot, p.t, Inbound)
            && read.valOut == Served(c, end.ledger, p.slot, p.t, Outbound)
  {
    RunInv(c, s, steps, end);
    var p := end.readers[r];
    assert ReaderOk(c, end, p);
    ServedOfDeps(c, p.viewIn, end.ledger, p.slot, p.t, Inbound);
    ServedOfDeps(c, p.viewOut, end.ledger, p.slot, p.t, Outbound);
  }

  // ---------------------------------------------------------------------------------------------
  // A reader no writer disturbs.

  lemma {:induction false} RunsOn(c: Rollup, s: State, steps: seq<Step>, mid: State, more: seq<Step>, end: State)
    requires c.Valid() && Runs(c, s, steps, mid) && Runs(c, mid, more, end)
    ensures Runs(c, s, steps + more, end)
    decreases |steps|
  {
    hide Enabled, Next;
    if steps == [] {
      assert steps + more == more;
    } else {
      assert (steps + more)[1..] == steps[1..] + more;
      RunsOn(c, Next(c, s, steps[0]), steps[1..], mid, more, end);
    }
  }

  /** The steps are this reader's own. */
  ghost predicate Own(steps: seq<Step>, r: nat) {
    forall i | 0 <= i < |steps| :: steps[i] == Enter(r) || steps[i] == Finish(r) || (steps[i].Load? && steps[i].r == r)
  }

  /** The same bracket with the first `k` slots loaded in both directions. */
  ghost predicate HasLoaded(p: Phase, q: Phase, k: nat) {
    && p.Bracketed? && q.Bracketed?
    && q.slot == p.slot && q.t == p.t && q.mark == p.mark && q.seen == p.seen
    && |q.viewIn| == |p.viewIn| && |q.viewOut| == |p.viewOut|
    && forall j | 0 <= j < k :: j in q.gotIn && j in q.gotOut
  }

  lemma LoadBoth(c: Rollup, s: State, r: nat, k: nat) returns (end: State)
    requires c.Valid() && r < |s.readers| && s.readers[r].Bracketed? && k < |s.ledger|
    ensures Runs(c, s, [Load(r, k, Inbound), Load(r, k, Outbound)], end)
    ensures |end.readers| == |s.readers| && end == s.(readers := s.readers[r := end.readers[r]])
    ensures forall p | HasLoaded(p, s.readers[r], k) :: HasLoaded(p, end.readers[r], k + 1)
  {
    var steps := [Load(r, k, Inbound), Load(r, k, Outbound)];
    var mid := Next(c, s, steps[0]);
    end := Next(c, mid, steps[1]);
    assert steps[1..] == [steps[1]] && steps[1..][1..] == [];
    assert Runs(c, mid, steps[1..], end);
  }

  lemma {:induction false} LoadAll(c: Rollup, s: State, r: nat, k: nat) returns (steps: seq<Step>, end: State)
    requires c.Valid() && r < |s.readers| && s.readers[r].Bracketed? && k <= |s.ledger|
    ensures Runs(c, s, steps, end) && Own(steps, r)
    ensures |end.readers| == |s.readers| && end == s.(readers := s.readers[r := end.readers[r]])
    ensures HasLoaded(s.readers[r], end.readers[r], k)
    decreases k
  {
    steps, end := [], s;
    if k > 0 {
      hide Next, Enabled, Runs;
      var front, mid := LoadAll(c, s, r, k - 1);
      end := LoadBoth(c, mid, r, k - 1);
      var more := [Load(r, k - 1, Inbound), Load(r, k - 1, Outbound)];
      steps := front + more;
      RunsOn(c, s, front, mid, more, end);
    }
  }

  /** What a poll of `slot` at instant `t` should log. */
  ghost function Poll(c: Rollup, ledger: Ledger, slot: nat, t: real, mark: nat): Read
    requires c.Ranked() && |ledger| == c.Slots() && slot < c.Slots()
  {
    Read(slot, t, Served(c, ledger, slot, t, Inbound), Served(c, ledger, slot, t, Outbound), mark)
  }

  /** One bracket, from its entry: it completes the poll, or sends the reader back when a writer came in between. */
  lemma BracketEnds(c: Rollup, start: State, steps: seq<Step>, s: State, r: nat)
    returns (more: seq<Step>, end: State)
    requires Init(c, start) && Runs(c, start, steps, s) && r < |s.readers| && s.readers[r].Bracketed?
    ensures Runs(c, s, more, end) && Own(more, r)
    ensures var p := s.readers[r];
            && p.slot < c.Slots() == |s.ledger|
            && if p.seen == s.holdSeq
               then end == s.(readers := s.readers[r := Idle], log := s.log + [Poll(c, s.ledger, p.slot, p.t, p.mark)])
               else end == s.(readers := s.readers[r := Sampled(p.slot, p.t, p.mark)])
  {
    hide Runs;
    var p := s.readers[r];
    RunInv(c, start, steps, s);
    assert ReaderOk(c, s, p);
    var loads, loaded := LoadAll(c, s, r, c.Slots());
    RunsOn(c, start, steps, s, loads, loaded);
    DepsInRange(c, p.slot);
    assert Enabled(c, loaded, Finish(r));
    if p.seen == s.holdSeq { CompletedReadIsAtomic(c, start, steps + loads, loaded, r); }
    end := Next(c, loaded, Finish(r));
    OneStep(c, loaded, Finish(r));
    more := loads + [Finish(r)];
    RunsOn(c, s, loads, loaded, [Finish(r)], end);
  }

  lemma SampledEnds(c: Rollup, start: State, steps: seq<Step>, s: State, r: nat)
    returns (more: seq<Step>, end: State)
    requires Init(c, start) && Runs(c, start, steps, s) && s.writer.Free?
    requires r < |s.readers| && s.readers[r].Sampled?
    ensures Runs(c, s, more, end) && Own(more, r)
    ensures var p := s.readers[r];
            && p.slot < c.Slots() == |s.ledger|
            && end == s.(readers := s.readers[r := Idle], log := s.log + [Poll(c, s.ledger, p.slot, p.t, p.mark)])
  {
    hide Runs;
    RunInv(c, start, steps, s);
    assert ReaderOk(c, s, s.readers[r]);
    var entered := Next(c, s, Enter(r));
    OneStep(c, s, Enter(r));
    RunsOn(c, start, steps, s, [Enter(r)], entered);
    var rest;
    rest, end := BracketEnds(c, start, steps + [Enter(r)], entered, r);
    more := [Enter(r)] + rest;
    RunsOn(c, s, [Enter(r)], entered, rest, end);
  }

  /**
   While no writer holds the lock a reader's own steps complete its poll, whatever it was in the middle of, even a
   bracket that a writer has spoilt. The poll serves the ledger as it stands at the instant the reader sampled.
   */
  lemma ReaderCanFinish(c: Rollup, start: State, steps: seq<Step>, s: State, r: nat)
    returns (more: seq<Step>, end: State)
    requires Init(c, start) && Runs(c, start, steps, s) && s.writer.Free?
    requires r < |s.readers| && !s.readers[r].Idle?
    ensures Runs(c, s, more, end) && Own(more, r)
    ensures var p := s.readers[r];
            && p.slot < c.Slots() == |s.ledger|
            && end == s.(readers := s.readers[r := Idle], log := s.log + [Poll(c, s.ledger, p.slot, p.t, p.mark)])
  {
    hide Runs;
    if s.readers[r].Sampled? {
      more, end := SampledEnds(c, start, steps, s, r);
    } else {
      more, end := BracketEnds(c, start, steps, s, r);
      if s.readers[r].seen != s.holdSeq {
        var rest, last := SampledEnds(c, start, steps + more, end, r) by { RunsOn(c, start, steps, s, more, end); }
        RunsOn(c, s, more, end, rest, last);
        more, end := more + rest, last;
      }
    }
  }

  /** A poll that starts samples the clock and counts the reads completed by then. */
  lemma PollStarts(c: Rollup, s: State, r: nat, slot: nat)
    requires c.Valid() && r < |s.readers| && s.readers[r].Idle? && slot < c.Slots()
    ensures Runs(c, s, [Sample(r, slot)], s.(readers := s.readers[r := Sampled(slot, s.clock, |s.log|)]))
  {
    OneStep(c, s, Sample(r, slot));
  }

  /**
   A writer that finds the lock free gets through, stamps the instant after it made the counter odd and leaves the
   ledger reconciled at that instant, the counter even and the lock free.
   */
  lemma WriterCanFinish(c: Rollup, start: State, steps: seq<Step>, s: State, w: nat, up: bool, later: real)
    requires Init(c, start) && Runs(c, start, steps, s) && s.writer.Free? && w < c.Slots() && s.clock <= later
    ensures |s.ledger| == c.Slots()
    ensures Runs(c, s, [Lock(w), Elapse(later), Stamp(up), Store, Unlock],
                 s.(clock := later, holdSeq := s.holdSeq + 2, ledger := Reconcile(c, s.ledger, w, up, later)))
  {
    RunInv(c, start, steps, s);
    WriteSteps(c, s, w, up, later);
  }

  lemma WriteSteps(c: Rollup, s: State, w: nat, up: bool, later: real)
    requires c.Valid() && s.writer.Free? && w < c.Slots() == |s.ledger| && s.clock <= later
    ensures Runs(c, s, [Lock(w), Elapse(later), Stamp(up), Store, Unlock],
                 s.(clock := later, holdSeq := s.holdSeq + 2, ledger := Reconcile(c, s.ledger, w, up, later)))
  {
    hide Runs, Reconcile, Rollup.Valid, Rollup.Ranked;
    var locked := s.(writer := Entered(w), holdSeq := s.holdSeq + 1);
    var waited := locked.(clock := later);
    var stamped := waited.(writer := Stamped(w, up, later));
    var stored := stamped.(ledger := Reconcile(c, s.ledger, w, up, later), writer := Stored(w));
    OneStep(c, s, Lock(w));
    OneStep(c, locked, Elapse(later));
    OneStep(c, waited, Stamp(up));
    OneStep(c, stamped, Store);
    OneStep(c, stored, Unlock);
    hide Enabled, Next;
    var (a, b) := ([Lock(w)] + [Elapse(later)], [Stamp(up)] + [Store]);
    RunsOn(c, s, [Lock(w)], locked, [Elapse(later)], waited);
    RunsOn(c, waited, [Stamp(up)], stamped, [Store], stored);
    RunsOn(c, s, a, waited, b, stored);
    RunsOn(c, s, a + b, stored, [Unlock], s.(clock := later, holdSeq := s.holdSeq + 2, ledger := stored.ledger));
    assert a + b + [Unlock] == [Lock(w), Elapse(later), Stamp(up), Store, Unlock];
  }

  lemma OneStep(c: Rollup, s: State, step: Step)
    requires c.Valid() && Enabled(c, s, step)
    ensures Runs(c, s, [step], Next(c, s, step))
  {
    assert [step][1..] == [];
  }

  lemma {:induction false} DepsInRange(c: Rollup, s: nat)
    requires c.Ranked() && s < c.Slots()
    ensures forall d | d in Deps(c, s) :: d < c.Slots()
    decreases c.Rank(s)
  {
    if c.members[s] == [] && c.counterParent[s] != 0 { DepsInRange(c, c.counterParent[s] - 1); }
  }
}
