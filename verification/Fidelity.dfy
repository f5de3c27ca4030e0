/**
 The fleet's silence switch and its auto-revert. One lock covers the value, the pending timer, the value to return to
 and a generation counter. Stopping a timer cannot recall a callback that has already fired and waits for the lock,
 so any callback ever armed may still run, once, at any later point.
 */
module Fidelity {
  import opened Common

  datatype Callback = Callback(gen: nat, restore: bool)

  /** `waiting` holds every callback armed and not yet run. */
  datatype State = State(silent: bool, transitions: nat, pending: bool, restore: bool, gen: nat, waiting: set<Callback>)

  datatype Step =
    | Set(silent: bool, timed: bool)
    | Cancel
    | Run(cb: Callback)

  predicate Enabled(s: State, step: Step) { step.Run? ==> step.cb in s.waiting }

  /** A callback acts only while its generation is current. */
  predicate Acts(s: State, cb: Callback) { cb.gen == s.gen }

  function Next(s: State, step: Step): State
    requires Enabled(s, step)
  {
    match step
    case Set(silent, timed) =>
      var same := s.pending && silent == s.silent;
      var restore := if same then s.restore else s.silent;
      var moved := if s.silent != silent then 1 else 0;
      var n := s.(silent := silent, transitions := s.transitions + moved, gen := s.gen + 1);
      if timed then n.(pending := true, restore := restore, waiting := s.waiting + {Callback(n.gen, restore)})
      else n.(pending := false, restore := silent)
    case Cancel => s.(pending := false, gen := s.gen + 1)
    case Run(cb) =>
      var n := s.(waiting := s.waiting - {cb});
      if !Acts(s, cb) then n
      else
        var moved := if s.silent != cb.restore then 1 else 0;
        n.(silent := cb.restore, pending := false, transitions := s.transitions + moved)
  }

  function Steps(s: State, steps: seq<Step>): Option<State> {
    if steps == [] then Some(s)
    else
      var front := Steps(s, steps[..|steps| - 1]);
      var last := steps[|steps| - 1];
      if front.Some? && Enabled(front.value, last) then Some(Next(front.value, last)) else None
  }

  /** Generations are never reused, and the current one is armed exactly while a revert is pending. */
  ghost predicate Inv(s: State) {
    && (forall cb | cb in s.waiting :: cb.gen <= s.gen)
    && (forall a, b | a in s.waiting && b in s.waiting && a.gen == b.gen :: a == b)
    && (s.pending <==> exists cb :: cb in s.waiting && Acts(s, cb))
    && (forall cb | cb in s.waiting && Acts(s, cb) :: cb.restore == s.restore)
  }

  lemma NextInv(s: State, step: Step)
    requires Inv(s) && Enabled(s, step)
    ensures Inv(Next(s, step))
  {
    var n := Next(s, step);
    match step
    case Set(silent, timed) =>
      if timed {
        var cb := Callback(n.gen, n.restore);
        assert cb in n.waiting && Acts(n, cb);
      }
    case Cancel =>
    case Run(cb) =>
      if s.pending && !Acts(s, cb) {
        var live :| live in s.waiting && Acts(s, live);
        assert live in n.waiting && Acts(n, live);
      }
  }

  lemma {:induction false} StepsInv(s: State, steps: seq<Step>)
    requires Inv(s) && Steps(s, steps).Some?
    ensures Inv(Steps(s, steps).value)
  {
    if steps != [] {
      StepsInv(s, steps[..|steps| - 1]);
      NextInv(Steps(s, steps[..|steps| - 1]).value, steps[|steps| - 1]);
    }
  }

  /** A callback superseded while it waited for the lock changes nothing but its own turn. */
  lemma SupersededIsInert(s: State, steps: seq<Step>, step: Step, cb: Callback)
    requires Inv(s) && Steps(s, steps).Some?
    requires var at := Steps(s, steps).value;
             Enabled(at, step) && !step.Run? && cb in at.waiting
    ensures var n := Next(Steps(s, steps).value, step);
            cb in n.waiting && Next(n, Run(cb)) == n.(waiting := n.waiting - {cb})
  {
    StepsInv(s, steps);
  }

  /** At any point of any run at most one waiting callback can act; it would restore the recorded value. */
  lemma OneCanAct(s: State, steps: seq<Step>, a: Callback, b: Callback)
    requires Inv(s) && Steps(s, steps).Some?
    requires var at := Steps(s, steps).value;
             a in at.waiting && b in at.waiting && Acts(at, a) && Acts(at, b)
    ensures a == b && Steps(s, steps).value.pending && a.restore == Steps(s, steps).value.restore
  {
    StepsInv(s, steps);
  }

  // ---------------------------------------------------------------------------------------------
  // Chains.

  /** Timed requests for one value, with callbacks that turn out superseded in between. */
  ghost predicate Chain(s: State, steps: seq<Step>, value: bool) {
    && Steps(s, steps).Some?
    && forall i | 0 <= i < |steps| ::
         || steps[i] == Set(value, true)
         || (steps[i].Run? && Steps(s, steps[..i]).Some? && !Acts(Steps(s, steps[..i]).value, steps[i].cb))
  }

  /**
   Where a chain towards `value` returns to: the value in force before it, even inside a pending window that goes the
   other way; inside one that goes the same way the chain is its continuation and keeps its target.
   */
  function Origin(s: State, value: bool): bool { if s.pending && value == s.silent then s.restore else s.silent }

  predicate AnySet(steps: seq<Step>) { exists i :: 0 <= i < |steps| && steps[i].Set? }

  lemma ChainFront(s: State, steps: seq<Step>, value: bool)
    requires steps != [] && Chain(s, steps, value)
    ensures var (front, last) := (steps[..|steps| - 1], steps[|steps| - 1]);
            && Chain(s, front, value) && Steps(s, front).Some?
            && (last == Set(value, true) || (last.Run? && !Acts(Steps(s, front).value, last.cb)))
  {
    var front := steps[..|steps| - 1];
    assert forall i | 0 <= i < |front| :: front[i] == steps[i] && front[..i] == steps[..i];
  }

  lemma {:induction false} ChainKeepsTarget(s: State, steps: seq<Step>, value: bool)
    requires Inv(s) && Chain(s, steps, value)
    ensures var n := Steps(s, steps).value;
            if AnySet(steps) then n.pending && n.restore == Origin(s, value) && n.silent == value
            else n.pending == s.pending && n.silent == s.silent && n.restore == s.restore && n.gen == s.gen
  {
    if steps != [] {
      hide Inv, AnySet, Chain;
      ChainFront(s, steps, value);
      ChainKeepsTarget(s, steps[..|steps| - 1], value);
    }
  }

  /**
   However often a window is shortened or extended, its revert restores the value from before its first request. A
   change of direction inside a pending window starts a new chain, so its revert returns to the outer window's value.
   */
  lemma ChainRestores(s: State, steps: seq<Step>, value: bool, cb: Callback)
    requires Inv(s) && Chain(s, steps, value) && AnySet(steps)
    requires var at := Steps(s, steps).value; cb in at.waiting && Acts(at, cb)
    ensures Next(Steps(s, steps).value, Run(cb)).silent == Origin(s, value)
  {
    ChainKeepsTarget(s, steps, value);
    StepsInv(s, steps);
  }

  // ---------------------------------------------------------------------------------------------
  // Standing requests.

  /** A run cut in two is its first part and, from the state that reaches, its second. */
  lemma {:induction false} StepsJoin(s: State, first: seq<Step>, rest: seq<Step>)
    requires Steps(s, first + rest).Some?
    ensures Steps(s, first).Some? && Steps(s, first + rest) == Steps(Steps(s, first).value, rest)
  {
    if rest == [] {
      assert first + rest == first;
    } else {
      assert (first + rest)[..|first + rest| - 1] == first + rest[..|rest| - 1];
      StepsJoin(s, first, rest[..|rest| - 1]);
    }
  }

  /** With nothing pending, no cancel and no callback moves the value: only a request can. */
  lemma {:induction false} QuietStays(s: State, steps: seq<Step>)
    requires Inv(s) && !s.pending && Steps(s, steps).Some? && !AnySet(steps)
    ensures var n := Steps(s, steps).value;
            !n.pending && n.silent == s.silent && n.restore == s.restore && n.transitions == s.transitions
  {
    if steps != [] {
      var front := steps[..|steps| - 1];
      assert forall i | 0 <= i < |front| :: front[i] == steps[i];
      QuietStays(s, front);
      StepsInv(s, front);
      assert !steps[|steps| - 1].Set?;
    }
  }

  /** At the end of any run a request takes effect at once, and a timed one leaves a revert pending. */
  lemma RequestTakesEffect(s: State, steps: seq<Step>, value: bool, timed: bool)
    requires Steps(s, steps).Some?
    ensures var n := Steps(s, steps + [Set(value, timed)]);
            n.Some? && n.value.silent == value && n.value.pending == timed
  {
    assert (steps + [Set(value, timed)])[..|steps|] == steps;
  }

  /** A standing request then stays in force, with nothing pending, through every cancel and callback that follows. */
  lemma StandingStays(s: State, before: seq<Step>, value: bool, after: seq<Step>)
    requires Inv(s) && Steps(s, before + [Set(value, false)] + after).Some? && !AnySet(after)
    ensures var n := Steps(s, before + [Set(value, false)] + after).value;
            n.silent == value && n.restore == value && !n.pending
  {
    var upTo := before + [Set(value, false)];
    StepsJoin(s, upTo, after);
    StepsJoin(s, before, [Set(value, false)]);
    assert [Set(value, false)][..0] == [];
    StepsInv(s, upTo);
    QuietStays(Steps(s, upTo).value, after);
  }

  /** A cancelled window likewise: the value in force at the cancel stays until the next request. */
  lemma CancelledStays(s: State, before: seq<Step>, after: seq<Step>)
    requires Inv(s) && Steps(s, before + [Cancel] + after).Some? && !AnySet(after)
    ensures Steps(s, before).Some?
    ensures var n := Steps(s, before + [Cancel] + after).value;
            n.silent == Steps(s, before).value.silent && !n.pending
  {
    var upTo := before + [Cancel];
    StepsJoin(s, upTo, after);
    StepsJoin(s, before, [Cancel]);
    assert [Cancel][..0] == [];
    StepsInv(s, upTo);
    QuietStays(Steps(s, upTo).value, after);
  }

  // ---------------------------------------------------------------------------------------------
  // The transition count.

  /** How often the value in force changed along a run. */
  ghost function Changes(s: State, steps: seq<Step>): nat
    requires Steps(s, steps).Some?
  {
    if steps == [] then 0
    else
      var front := steps[..|steps| - 1];
      Changes(s, front) + if Steps(s, front).value.silent != Steps(s, steps).value.silent then 1 else 0
  }

  lemma {:induction false} TransitionsCountChanges(s: State, steps: seq<Step>)
    requires Steps(s, steps).Some?
    ensures Steps(s, steps).value.transitions == s.transitions + Changes(s, steps)
  {
    if steps != [] { TransitionsCountChanges(s, steps[..|steps| - 1]); }
  }

  // ---------------------------------------------------------------------------------------------
  // The switch.

  class FidelitySwitch {
    var silent: bool
    var transitions: nat
    var timer: bool
    var restore: bool
    var gen: nat
    /** Callbacks handed to the runtime and not yet run. */
    ghost var waiting: set<Callback>

    constructor (silent: bool)
      ensures View() == State(silent, 0, false, false, 0, {}) && Inv(View())
    {
      this.silent, transitions, timer, restore, gen, waiting := silent, 0, false, false, 0, {};
    }

    ghost function View(): State
      reads this
    {
      State(silent, transitions, timer, restore, gen, waiting)
    }

    method CancelLocked()
      modifies `timer, `gen
      ensures View() == old(View()).(pending := false, gen := old(gen) + 1)
    {
      timer := false;
      gen := gen + 1;
    }

    /** Cancels a pending revert, for shutdown. */
    method CancelRevert()
      modifies `timer, `gen
      ensures View() == Next(old(View()), Cancel)
    {
      CancelLocked();
    }

    /** Applies a value and, when timed, arms a revert; says what the revert would restore. */
    method SetFidelity(value: bool, timed: bool) returns (revertTo: Option<bool>)
      modifies this
      ensures View() == Next(old(View()), Set(value, timed))
      ensures silent == value && timer == timed
      ensures revertTo == if timed then Some(restore) else None
    {
      var hadPending := timer;
      CancelLocked();
      var sameDirection := hadPending && value == silent;
      if !sameDirection { restore := silent; }
      if silent != value { transitions := transitions + 1; }
      silent := value;
      if !timed {
        restore := value;
        return None;
      }
      timer := true;
      waiting := waiting + {Callback(gen, restore)};
      return Some(restore);
    }

    /** A callback that has got the lock. */
    method Revert(myGen: nat, myRestore: bool)
      requires Callback(myGen, myRestore) in waiting
      modifies this
      ensures View() == Next(old(View()), Run(Callback(myGen, myRestore)))
    {
      waiting := waiting - {Callback(myGen, myRestore)};
      if gen != myGen { return; }
      if silent != myRestore { transitions := transitions + 1; }
      silent := myRestore;
      timer := false;
    }
  }
}
