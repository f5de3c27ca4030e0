/**
 Which interface is a subinterface of which. The name rule decides first, the stack table fills in
 what the names leave open, and a child of a child is dropped so that the engine cascades one level.
 */
module Hierarchy {
  import opened Common
  import opened Decimal
  import opened Sorting

  // ---------------------------------------------------------------------------------------------
  // The <parent>.<unit> name rule.

  /** A canonical uint32: no sign, no leading zero. */
  predicate CanonicalUnit(s: string) {
    Digits(s) && (s[0] == '0' ==> |s| == 1) && Value(s) < 0x1_0000_0000
  }

  /** The units are exactly the numbers below 2^32, each spelled one way. */
  lemma UnitsAreNumbers(s: string)
    ensures CanonicalUnit(s) <==> exists n: nat :: n < 0x1_0000_0000 && s == Itoa(n)
  {
    if CanonicalUnit(s) { SpelledBack(s); }
    if n: nat :| n < 0x1_0000_0000 && s == Itoa(n) {
      ItoaReadsBack(n);
      NoLeadingZero(n);
    }
  }

  /** Position of the last '.' before `n`, or -1. */
  function LastDot(s: string, n: nat): (i: int)
    requires n <= |s|
    ensures -1 <= i < n
    ensures i >= 0 ==> s[i] == '.'
    ensures forall k | i < k < n :: s[k] != '.'
  {
    if n == 0 then -1 else if s[n - 1] == '.' then n - 1 else LastDot(s, n - 1)
  }

  /** A subinterface name: a parent's name, a dot and a canonical unit. */
  predicate Splits(name: string, parent: string, unit: string) {
    parent != "" && name == parent + "." + unit && CanonicalUnit(unit) && '.' !in unit
  }

  /** The dot is the last one, so a name splits in at most one way. */
  lemma SplitsAtLastDot(name: string, parent: string, unit: string)
    requires Splits(name, parent, unit)
    ensures LastDot(name, |name|) == |parent| && name[..|parent|] == parent && name[|parent| + 1..] == unit
  {
    assert name[|parent|] == '.';
    assert forall k | |parent| < k < |name| :: name[k] == unit[k - |parent| - 1];
  }

  /** The parent name of a subinterface name, and nothing for every other name. */
  function SplitName(name: string): (parent: Option<string>)
    ensures parent.Some? ==> exists unit :: Splits(name, parent.value, unit)
    ensures forall p, unit | Splits(name, p, unit) :: parent == Some(p)
  {
    var dot := LastDot(name, |name|);
    var r :=
      if dot <= 0 || !CanonicalUnit(name[dot + 1..]) then None
      else
        assert Splits(name, name[..dot], name[dot + 1..]);
        Some(name[..dot]);
    assert forall p, unit | Splits(name, p, unit) :: r == Some(p) by {
      forall p, unit | Splits(name, p, unit) ensures r == Some(p) { SplitsAtLastDot(name, p, unit); }
    }
    r
  }

  // ---------------------------------------------------------------------------------------------
  // ifStackTable.

  /** One active ifStackStatus row: `higher` runs on top of `lower`. */
  datatype StackRow = StackRow(higher: nat, lower: nat)

  datatype StackLayers = StackLayers(parents: map<nat, nat>, members: map<nat, seq<nat>>)

  ghost predicate Counted(row: StackRow, known: set<nat>) {
    row.higher in known && row.lower != 0 && row.higher != row.lower
  }

  /** The distinct lower layers of `h`, in row order, known or not. */
  ghost function Rows(rows: seq<StackRow>, known: set<nat>, h: nat): (r: seq<nat>)
    ensures forall i, j | 0 <= i < j < |r| :: r[i] != r[j]
    ensures forall x | x in r :: x != 0 && x != h && StackRow(h, x) in rows
  {
    if rows == [] then []
    else
      var last := rows[|rows| - 1];
      var before := Rows(rows[..|rows| - 1], known, h);
      if last.higher == h && Counted(last, known) && last.lower !in before then before + [last.lower] else before
  }

  /** Those of them that are interfaces of the device. */
  ghost function Resolved(ls: seq<nat>, known: set<nat>): (r: seq<nat>)
    ensures forall x :: x in r <==> x in ls && x in known
    ensures |r| <= |ls|
    ensures (forall i, j | 0 <= i < j < |ls| :: ls[i] != ls[j]) ==> forall i, j | 0 <= i < j < |r| :: r[i] != r[j]
  {
    if ls == [] then []
    else
      var last := ls[|ls| - 1];
      var before := Resolved(ls[..|ls| - 1], known);
      if last in known then before + [last] else before
  }

  lemma ResolvedAppend(ls: seq<nat>, x: nat, known: set<nat>)
    ensures Resolved(ls + [x], known) == Resolved(ls, known) + (if x in known then [x] else [])
  {
    assert (ls + [x])[..|ls|] == ls;
  }

  /** The rows read so far: the resolvable lower layers, the row count and the rows already seen. */
  datatype Tally = Tally(lower: map<nat, seq<nat>>, count: map<nat, nat>, seen: set<(nat, nat)>)

  ghost predicate Tallied(rows: seq<StackRow>, known: set<nat>, t: Tally, h: nat) {
    var ls := Rows(rows, known, h);
    && (if Resolved(ls, known) == [] then h !in t.lower else h in t.lower && t.lower[h] == Resolved(ls, known))
    && (if ls == [] then h !in t.count else h in t.count && t.count[h] == |ls|)
    && (forall l :: (h, l) in t.seen <==> l in ls)
  }

  /** One row: skipped unless its higher layer is known, it is no marker row and it is new. */
  function Take(t: Tally, row: StackRow, known: set<nat>): Tally {
    var (h, l) := (row.higher, row.lower);
    if h !in known || l == 0 || h == l || (h, l) in t.seen then t
    else
      Tally(if l in known then t.lower[h := (if h in t.lower then t.lower[h] else []) + [l]] else t.lower,
            t.count[h := (if h in t.count then t.count[h] else 0) + 1],
            t.seen + {(h, l)})
  }

  lemma TakeTallies(rows: seq<StackRow>, row: StackRow, known: set<nat>, t: Tally, h: nat)
    requires Tallied(rows, known, t, h)
    ensures Tallied(rows + [row], known, Take(t, row, known), h)
  {
    hide Resolved;
    assert (rows + [row])[..|rows|] == rows;
    ResolvedAppend(Rows(rows, known, h), row.lower, known);
    assert forall l :: (h, l) in t.seen <==> l in Rows(rows, known, h);
  }

  method CollectRows(rows: seq<StackRow>, known: set<nat>) returns (t: Tally)
    ensures forall h :: Tallied(rows, known, t, h)
  {
    t := Tally(map[], map[], {});
    for i := 0 to |rows|
      invariant forall h :: Tallied(rows[..i], known, t, h)
    {
      ghost var done := rows[..i + 1];
      assert done == rows[..i] + [rows[i]];
      var next := Take(t, rows[i], known);
      forall h ensures Tallied(done, known, next, h) {
        TakeTallies(rows[..i], rows[i], known, t, h);
      }
      t := next;
    }
    assert rows[..|rows|] == rows;
  }

  /**
   A higher layer with exactly one row, resolvable, has a parent; one with two or more resolvable rows
   is an aggregate of them; a single resolvable row among several is neither.
   */
  method ReadStackLayers(rows: seq<StackRow>, known: set<nat>) returns (out: StackLayers)
    ensures forall h :: h in out.members <==> |Resolved(Rows(rows, known, h), known)| >= 2
    ensures forall h | h in out.members :: out.members[h] == Resolved(Rows(rows, known, h), known)
    ensures forall h :: h in out.parents <==> |Rows(rows, known, h)| == 1 && Rows(rows, known, h)[0] in known
    ensures forall h | h in out.parents :: out.parents[h] == Rows(rows, known, h)[0]
  {
    var t := CollectRows(rows, known);
    var (lower, count) := (t.lower, t.count);
    forall h ensures SingleRowFact(rows, known, h) {}
    hide Rows, Resolved;
    forall h | h in lower ensures h in count && lower[h] != [] { assert Tallied(rows, known, t, h); }
    var parents: map<nat, nat> := map[];
    var members: map<nat, seq<nat>> := map[];
    var todo := lower.Keys;
    while todo != {}
      invariant todo <= lower.Keys
      invariant forall h :: h in members <==> h in lower && h !in todo && |lower[h]| >= 2
      invariant forall h | h in members :: members[h] == lower[h]
      invariant forall h :: h in parents <==> h in lower && h !in todo && |lower[h]| < 2 && count[h] < 2
      invariant forall h | h in parents :: parents[h] == lower[h][0]
      decreases |todo|
    {
      var h :| h in todo;
      todo := todo - {h};
      assert SingleRowFact(rows, known, h) && Tallied(rows, known, t, h);
      if |lower[h]| >= 2 {
        members := members[h := lower[h]];
      } else if count[h] < 2 {
        parents := parents[h := lower[h][0]];
      }
    }
    out := StackLayers(parents, members);
    forall h
      ensures h in members <==> |Resolved(Rows(rows, known, h), known)| >= 2
      ensures h in members ==> members[h] == Resolved(Rows(rows, known, h), known)
      ensures h in parents <==> |Rows(rows, known, h)| == 1 && Rows(rows, known, h)[0] in known
      ensures h in parents ==> parents[h] == Rows(rows, known, h)[0]
    {
      assert SingleRowFact(rows, known, h) && Tallied(rows, known, t, h);
    }
  }

  ghost predicate SingleRowFact(rows: seq<StackRow>, known: set<nat>, h: nat) {
    var ls := Rows(rows, known, h);
    && (|ls| == 1 ==> Resolved(ls, known) == if ls[0] in known then ls else [])
    && |Resolved(ls, known)| <= |ls|
  }

  // ---------------------------------------------------------------------------------------------
  // The parent table.

  /** The lowest ifIndex carrying a name. */
  ghost predicate FirstNamed(names: map<nat, string>, name: string, i: nat) {
    i in names && names[i] == name && forall j | j in names && names[j] == name :: i <= j
  }

  /** The parent the name rule gives `i`. */
  ghost predicate NameParent(names: map<nat, string>, i: nat, p: nat) {
    i in names && SplitName(names[i]).Some? && FirstNamed(names, SplitName(names[i]).value, p) && p != i
  }

  /** The parent of `i`: by name first, by its stack row when names leave it open. */
  ghost predicate ParentOf(names: map<nat, string>, stacked: map<nat, nat>, i: nat, p: nat) {
    || NameParent(names, i, p)
    || (i in stacked && stacked[i] == p && forall q :: !NameParent(names, i, q))
  }

  ghost predicate HasParent(names: map<nat, string>, stacked: map<nat, nat>, i: nat) {
    exists p :: ParentOf(names, stacked, i, p)
  }

  /** What is kept of it: a named interface whose parent has a parent itself is dropped. */
  ghost predicate Hangs(names: map<nat, string>, stacked: map<nat, nat>, i: nat, p: nat) {
    ParentOf(names, stacked, i, p) && !(i in names && HasParent(names, stacked, p))
  }

  /** The table before nested children are dropped. */
  ghost predicate FullTable(names: map<nat, string>, stacked: map<nat, nat>, table: map<nat, nat>) {
    && (forall i | i in table :: ParentOf(names, stacked, i, table[i]))
    && (forall i, p | ParentOf(names, stacked, i, p) :: i in table)
  }

  /** The table after. */
  ghost predicate Built(names: map<nat, string>, stacked: map<nat, nat>, parents: map<nat, nat>) {
    && (forall i | i in parents :: Hangs(names, stacked, i, parents[i]))
    && (forall i, p | Hangs(names, stacked, i, p) :: i in parents && parents[i] == p)
  }

  lemma OneParent(names: map<nat, string>, stacked: map<nat, nat>, i: nat, p: nat, q: nat)
    requires ParentOf(names, stacked, i, p) && ParentOf(names, stacked, i, q)
    ensures p == q
  {
  }

  /** The full table is unique, so names and stack rows alone determine what is kept of it. */
  lemma FullTableUnique(names: map<nat, string>, stacked: map<nat, nat>, a: map<nat, nat>, b: map<nat, nat>)
    requires FullTable(names, stacked, a) && FullTable(names, stacked, b)
    ensures a == b
  {
    hide ParentOf;
    forall i | i in a ensures i in b && a[i] == b[i] { OneParent(names, stacked, i, a[i], b[i]); }
    assert forall i | i in b :: ParentOf(names, stacked, i, b[i]) && i in a;
  }

  /** Named children whose parent is itself a child. */
  ghost predicate Nested(names: map<nat, string>, table: map<nat, nat>, i: nat) {
    i in names && i in table && table[i] in table
  }

  ghost predicate OneLevel(table: map<nat, nat>) {
    forall i | i in table :: table[i] !in table
  }

  method InterfaceParents(names: map<nat, string>, stacked: map<nat, nat>)
    returns (parents: map<nat, nat>)
    ensures Built(names, stacked, parents)
  {
    var idxs := SortedInts(names.Keys);
    var byRule := ParentsByName(names, idxs);
    var full := AddStacked(byRule, stacked);
    assert FullTable(names, stacked, full) by {
      forall i | i in full ensures ParentOf(names, stacked, i, full[i]) {
        assert i in byRule ==> NameParent(names, i, full[i]);
      }
    }
    hide ParentOf, NameParent, FullTable, Built;
    var nested := NestedChildren(names, idxs, full);
    parents := DropAll(full, nested);
    KeptIsBuilt(names, stacked, full, parents);
  }

  lemma KeptIsBuilt(names: map<nat, string>, stacked: map<nat, nat>, full: map<nat, nat>, parents: map<nat, nat>)
    requires FullTable(names, stacked, full)
    requires forall i :: i in parents <==> i in full && !Nested(names, full, i)
    requires forall i | i in parents :: parents[i] == full[i]
    ensures Built(names, stacked, parents)
  {
    hide ParentOf;
    forall i ensures i in full <==> HasParent(names, stacked, i) {}
    forall i, p | Hangs(names, stacked, i, p) ensures i in parents && parents[i] == p {
      OneParent(names, stacked, i, p, full[i]);
    }
  }

  method AddStacked(byRule: map<nat, nat>, stacked: map<nat, nat>) returns (parents: map<nat, nat>)
    ensures forall i | i in byRule :: i in parents && parents[i] == byRule[i]
    ensures forall i | i in parents && i !in byRule :: i in stacked && parents[i] == stacked[i]
    ensures forall i | i in stacked :: i in parents
  {
    parents := byRule;
    var todo := stacked.Keys;
    while todo != {}
      invariant todo <= stacked.Keys
      invariant forall i | i in byRule :: i in parents && parents[i] == byRule[i]
      invariant forall i | i in parents && i !in byRule :: i in stacked && parents[i] == stacked[i]
      invariant forall i | i in stacked && i !in todo :: i in parents
      decreases |todo|
    {
      var h :| h in todo;
      todo := todo - {h};
      if h !in parents { parents := parents[h := stacked[h]]; }
    }
  }

  method DropAll(table: map<nat, nat>, nested: seq<nat>) returns (parents: map<nat, nat>)
    ensures forall i :: i in parents <==> i in table && i !in nested
    ensures forall i | i in parents :: parents[i] == table[i]
  {
    parents := table;
    for k := 0 to |nested|
      invariant forall i :: i in parents <==> i in table && i !in nested[..k]
      invariant forall i | i in parents :: parents[i] == table[i]
    {
      parents := parents - {nested[k]};
    }
    assert nested[..|nested|] == nested;
  }

  method ParentsByName(names: map<nat, string>, idxs: seq<nat>) returns (parents: map<nat, nat>)
    requires Lists(idxs, names.Keys)
    ensures forall i | i in parents :: NameParent(names, i, parents[i])
    ensures forall i, p | NameParent(names, i, p) :: i in parents
  {
    var byName := NamesByFirst(names, idxs);
    parents := map[];
    for k := 0 to |idxs|
      invariant forall i | i in parents :: NameParent(names, i, parents[i])
      invariant forall j, p | 0 <= j < k && NameParent(names, idxs[j], p) :: idxs[j] in parents
    {
      var i := idxs[k];
      assert i in idxs && i in names;
      var split := SplitName(names[i]);
      if split.Some? && split.value in byName && byName[split.value] != i {
        parents := parents[i := byName[split.value]];
      }
    }
    forall i, p | NameParent(names, i, p) ensures i in parents {
      assert i in idxs;
      var j :| 0 <= j < |idxs| && idxs[j] == i;
    }
  }

  method NestedChildren(names: map<nat, string>, idxs: seq<nat>, table: map<nat, nat>) returns (nested: seq<nat>)
    requires Lists(idxs, names.Keys)
    ensures forall i :: i in nested <==> Nested(names, table, i)
  {
    nested := [];
    for k := 0 to |idxs|
      invariant forall i | i in nested :: Nested(names, table, i)
      invariant forall j | 0 <= j < k && Nested(names, table, idxs[j]) :: idxs[j] in nested
    {
      assert idxs[k] in idxs;
      if idxs[k] in table && table[idxs[k]] in table { nested := nested + [idxs[k]]; }
    }
    forall i | Nested(names, table, i) ensures i in nested {
      assert i in idxs;
      var j :| 0 <= j < |idxs| && idxs[j] == i;
    }
  }

  method NamesByFirst(names: map<nat, string>, idxs: seq<nat>) returns (byName: map<string, nat>)
    requires Lists(idxs, names.Keys)
    ensures forall n :: n in byName <==> n != "" && exists i :: i in names && names[i] == n
    ensures forall n | n in byName :: FirstNamed(names, n, byName[n])
  {
    byName := map[];
    for k := 0 to |idxs|
      invariant forall n | n in byName :: n != "" && FirstNamed(names, n, byName[n])
      invariant forall j | 0 <= j < k :: idxs[j] in names && (names[idxs[j]] != "" ==> names[idxs[j]] in byName)
    {
      assert idxs[k] in idxs;
      var n := names[idxs[k]];
      if n !in byName && n != "" {
        forall x | x in names && names[x] == n ensures idxs[k] <= x {
          assert x in idxs;
          var m :| 0 <= m < |idxs| && idxs[m] == x;
        }
        byName := byName[n := idxs[k]];
      }
    }
    forall n | n != "" && exists i :: i in names && names[i] == n ensures n in byName {
      var i :| i in names && names[i] == n;
      assert i in idxs;
      var j :| 0 <= j < |idxs| && idxs[j] == i;
    }
  }

  /**
   The nested check visits named ifIndexes only. The result is one level deep if and only if every unnamed stacked
   ifIndex rests on an interface without a parent, or on one the check drops: named, below an interface with a parent.
   */
  lemma OneLevelExactly(names: map<nat, string>, stacked: map<nat, nat>, parents: map<nat, nat>)
    requires Built(names, stacked, parents)
    ensures OneLevel(parents) <==>
            forall h | h in stacked && h !in names :: forall p :: !Hangs(names, stacked, stacked[h], p)
  {
    hide ParentOf;
    if forall h | h in stacked && h !in names :: forall p :: !Hangs(names, stacked, stacked[h], p) {
      forall i | i in parents ensures parents[i] !in parents {
        assert Hangs(names, stacked, i, parents[i]);
        if i !in names { UnnamedByStack(names, stacked, i, parents[i]); }
      }
    } else {
      var h, p :| h in stacked && h !in names && Hangs(names, stacked, stacked[h], p);
      UnnamedByStack(names, stacked, h, stacked[h]);
      assert Hangs(names, stacked, h, stacked[h]);
    }
  }

  lemma UnnamedByStack(names: map<nat, string>, stacked: map<nat, nat>, i: nat, p: nat)
    requires i !in names
    ensures ParentOf(names, stacked, i, p) <==> i in stacked && stacked[i] == p
  {
  }

  /** So the depth result holds whenever every stacked ifIndex is named. */
  lemma AllNamedOneLevel(names: map<nat, string>, stacked: map<nat, nat>, parents: map<nat, nat>)
    requires Built(names, stacked, parents) && stacked.Keys <= names.Keys
    ensures OneLevel(parents)
  {
    OneLevelExactly(names, stacked, parents);
  }

  /** Two unnamed interfaces stacked on each other stay each other's parent. */
  lemma UnnamedCycleSurvives()
    ensures var stacked := map[1 := 2, 2 := 1]; Built(map[], stacked, stacked) && !OneLevel(stacked)
  {
    var stacked: map<nat, nat> := map[1 := 2, 2 := 1];
    forall i: nat, p: nat ensures ParentOf(map[], stacked, i, p) <==> i in stacked && stacked[i] == p {
      UnnamedByStack(map[], stacked, i, p);
    }
    assert stacked[1] in stacked;
  }
}
