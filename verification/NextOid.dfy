/**
 GETNEXT over the interface counters (section 4.2.2 of RFC 3416). The device owns one row per counter column and
 interface, spread over ifTable and ifXTable. The search locates the column by a scan and the interface by
 bisection instead of comparing against every row. Object identifiers are sequences of sub-identifiers.
 */
module NextOid {
  import opened Common

  type Oid = seq<nat>

  // ---------------------------------------------------------------------------------------------
  // Lexicographic order.

  /** Sub-identifier by sub-identifier; a proper prefix comes first. */
  predicate Less(a: Oid, b: Oid) {
    b != [] && (a == [] || a[0] < b[0] || (a[0] == b[0] && Less(a[1..], b[1..])))
  }

  lemma {:induction false} LessTrans(a: Oid, b: Oid, c: Oid)
    requires Less(a, b) && Less(b, c)
    ensures Less(a, c)
  {
    if a != [] && a[0] == b[0] == c[0] { LessTrans(a[1..], b[1..], c[1..]); }
  }

  lemma {:induction false} LessIrreflexive(a: Oid)
    ensures !Less(a, a)
  {
    if a != [] { LessIrreflexive(a[1..]); }
  }

  lemma {:induction false} LessAfter(p: Oid, a: Oid, b: Oid)
    ensures Less(p + a, p + b) <==> Less(a, b)
  {
    if p == [] {
      assert p + a == a && p + b == b;
    } else {
      assert (p + a)[1..] == p[1..] + a && (p + b)[1..] == p[1..] + b;
      LessAfter(p[1..], a, b);
    }
  }

  // ---------------------------------------------------------------------------------------------
  // The owned rows.

  const INTERFACES: Oid := [1, 3, 6, 1, 2, 1]
  const IF_TABLE: Oid := INTERFACES + [2, 2, 1]
  const IFX_TABLE: Oid := INTERFACES + [31, 1, 1, 1]

  const COLUMNS: nat := 23

  datatype Column = Column(ifX: bool, num: nat)

  /** Every column the cycler owns, in MIB order. */
  function ColumnAt(c: nat): Column
    requires c < COLUMNS
  {
    match c
    case 0 => Column(false, 7)
    case 1 => Column(false, 8)
    case 2 => Column(false, 9)
    case 3 => Column(false, 10)
    case 4 => Column(false, 11)
    case 5 => Column(false, 13)
    case 6 => Column(false, 14)
    case 7 => Column(false, 16)
    case 8 => Column(false, 17)
    case 9 => Column(false, 19)
    case 10 => Column(false, 20)
    case 11 => Column(true, 2)
    case 12 => Column(true, 3)
    case 13 => Column(true, 4)
    case 14 => Column(true, 5)
    case 15 => Column(true, 6)
    case 16 => Column(true, 7)
    case 17 => Column(true, 8)
    case 18 => Column(true, 9)
    case 19 => Column(true, 10)
    case 20 => Column(true, 11)
    case 21 => Column(true, 12)
    case _ => Column(true, 13)
  }

  function Table(ifX: bool): Oid { if ifX then IFX_TABLE else IF_TABLE }

  function Row(c: nat, i: nat): Oid
    requires c < COLUMNS
  {
    Table(ColumnAt(c).ifX) + [ColumnAt(c).num, i]
  }

  /** The order of the columns: table first, then number. */
  predicate Before(a: Column, b: Column) {
    (!a.ifX && b.ifX) || (a.ifX == b.ifX && a.num < b.num)
  }

  /** The interfaces, ascending and numbered from one. */
  ghost predicate Sorted(ifs: seq<nat>) {
    && ifs != [] && ifs[0] >= 1
    && forall i, j | 0 <= i < j < |ifs| :: ifs[i] < ifs[j]
  }

  ghost predicate Owned(ifs: seq<nat>, oid: Oid) {
    exists c: nat, j: nat :: c < COLUMNS && j < |ifs| && oid == Row(c, ifs[j])
  }

  function FirstRow(ifs: seq<nat>): Oid
    requires ifs != []
  {
    Row(0, ifs[0])
  }

  function LastRow(ifs: seq<nat>): Oid
    requires ifs != []
  {
    Row(COLUMNS - 1, ifs[|ifs| - 1])
  }

  // ---------------------------------------------------------------------------------------------
  // Where an identifier sits among the rows.

  /** Inside one of the tables, naming at least a column. */
  predicate Inside(oid: Oid, ifX: bool) {
    |Table(ifX)| < |oid| && Table(ifX) <= oid
  }

  lemma TablesApart(a: Oid, b: Oid)
    ensures Less(IF_TABLE + a, IFX_TABLE + b) && !Less(IFX_TABLE + b, IF_TABLE + a)
  {
    var (x, y) := ([2, 2, 1] + a, [31, 1, 1, 1] + b);
    assert IF_TABLE + a == INTERFACES + x && IFX_TABLE + b == INTERFACES + y;
    LessAfter(INTERFACES, x, y);
    LessAfter(INTERFACES, y, x);
  }

  /** The column an identifier names, and the instance: a missing one counts as zero, extra ones do not matter. */
  function ColOf(oid: Oid, ifX: bool): nat
    requires Inside(oid, ifX)
  {
    oid[|Table(ifX)|]
  }

  function InstanceOf(oid: Oid, ifX: bool): nat
    requires Inside(oid, ifX)
  {
    if |oid| > |Table(ifX)| + 1 then oid[|Table(ifX)| + 1] else 0
  }

  /** The three numbers decide the order against every row. */
  predicate KeyBelow(ifX: bool, col: nat, inst: nat, c: nat, i: nat)
    requires c < COLUMNS
  {
    Before(Column(ifX, col), ColumnAt(c)) || (ColumnAt(c) == Column(ifX, col) && inst < i)
  }

  lemma CellOrder(rest: Oid, num: nat, i: nat)
    requires rest != [] && i >= 1
    ensures Less(rest, [num, i]) <==> rest[0] < num || (rest[0] == num && (|rest| == 1 || rest[1] < i))
  {
    var cell := [num, i];
    assert cell[1..] == [i];
    assert [i][1..] == [];
    var tail := rest[1..];
    assert Less(tail, [i]) <==> tail == [] || tail[0] < i by {
      if tail != [] { assert !Less(tail[1..], []); }
    }
  }

  lemma KeyDecides(oid: Oid, ifX: bool, c: nat, i: nat)
    requires Inside(oid, ifX) && c < COLUMNS && i >= 1
    ensures Less(oid, Row(c, i)) <==> KeyBelow(ifX, ColOf(oid, ifX), InstanceOf(oid, ifX), c, i)
  {
    var p := Table(ifX);
    var rest := oid[|p|..];
    var cell := [ColumnAt(c).num, i];
    assert oid == p + rest;
    if ColumnAt(c).ifX == ifX {
      LessAfter(p, rest, cell);
      CellOrder(rest, ColumnAt(c).num, i);
    } else if ifX {
      TablesApart(cell, rest);
    } else {
      TablesApart(rest, cell);
    }
  }

  /** Rows are ordered by column, then interface. */
  lemma RowOrder(c: nat, i: nat, d: nat, j: nat)
    requires c < COLUMNS && d < COLUMNS && j >= 1
    ensures Less(Row(c, i), Row(d, j)) <==> c < d || (c == d && i < j)
  {
    KeyDecides(Row(c, i), ColumnAt(c).ifX, d, j);
  }

  // ---------------------------------------------------------------------------------------------
  // The successor.

  /** The plain definition over the whole table: the least owned row strictly greater, or none when there is none. */
  ghost predicate IsNext(ifs: seq<nat>, oid: Oid, r: Option<Oid>) {
    match r
    case None => forall c: nat, j: nat | c < COLUMNS && j < |ifs| :: !Less(oid, Row(c, ifs[j]))
    case Some(x) =>
      && Owned(ifs, x) && Less(oid, x)
      && forall c: nat, j: nat | c < COLUMNS && j < |ifs| && Less(oid, Row(c, ifs[j])) ::
           x == Row(c, ifs[j]) || Less(x, Row(c, ifs[j]))
  }

  /** A row above `oid` with none of the earlier rows above it is the successor. */
  lemma PositionIsNext(ifs: seq<nat>, oid: Oid, c: nat, j: nat)
    requires Sorted(ifs) && c < COLUMNS && j < |ifs| && Less(oid, Row(c, ifs[j]))
    requires forall d: nat, k: nat | d < COLUMNS && k < |ifs| && (d < c || (d == c && k < j)) ::
               !Less(oid, Row(d, ifs[k]))
    ensures IsNext(ifs, oid, Some(Row(c, ifs[j])))
  {
    forall d: nat, k: nat | d < COLUMNS && k < |ifs| && Less(oid, Row(d, ifs[k]))
      ensures Row(c, ifs[j]) == Row(d, ifs[k]) || Less(Row(c, ifs[j]), Row(d, ifs[k]))
    {
      assert ifs[k] >= ifs[0] >= 1;
      RowOrder(c, ifs[j], d, ifs[k]);
    }
  }

  /** The successor is unique, so it is the answer whatever way it was found. */
  lemma NextUnique(ifs: seq<nat>, oid: Oid, a: Option<Oid>, b: Option<Oid>)
    requires IsNext(ifs, oid, a) && IsNext(ifs, oid, b)
    ensures a == b
  {
    if a.Some? && b.Some? && a != b {
      var c: nat, j: nat :| c < COLUMNS && j < |ifs| && a.value == Row(c, ifs[j]);
      var d: nat, k: nat :| d < COLUMNS && k < |ifs| && b.value == Row(d, ifs[k]);
      LessTrans(a.value, b.value, a.value);
      LessIrreflexive(a.value);
    }
  }

  /** Outside the tables, at or above the first row and below the last. */
  ghost predicate InGap(ifs: seq<nat>, oid: Oid)
    requires ifs != []
  {
    && !Inside(oid, true) && !Inside(oid, false)
    && !Less(oid, FirstRow(ifs)) && Less(oid, LastRow(ifs))
  }

  /** The first position whose value is at least `x`. */
  method SearchInts(a: seq<nat>, x: nat) returns (pos: nat)
    requires forall i, j | 0 <= i < j < |a| :: a[i] < a[j]
    ensures pos <= |a| && (forall k | 0 <= k < pos :: a[k] < x) && (forall k | pos <= k < |a| :: a[k] >= x)
  {
    var i, j := 0, |a|;
    while i < j
      invariant 0 <= i <= j <= |a|
      invariant forall k | 0 <= k < i :: a[k] < x
      invariant forall k | j <= k < |a| :: a[k] >= x
    {
      var h := (i + j) / 2;
      if a[h] < x { i := h + 1; } else { j := h; }
    }
    return i;
  }

  /** The first owned column at or after the one named; `COLUMNS` when there is none. */
  method FindColumn(ifX: bool, col: nat) returns (c: nat)
    ensures c <= COLUMNS
    ensures forall d | 0 <= d < c :: Before(ColumnAt(d), Column(ifX, col))
    ensures c < COLUMNS ==> ColumnAt(c) == Column(ifX, col) || Before(Column(ifX, col), ColumnAt(c))
  {
    c := 0;
    while c < COLUMNS
      invariant c <= COLUMNS
      invariant forall d | 0 <= d < c :: Before(ColumnAt(d), Column(ifX, col))
    {
      var entry := ColumnAt(c);
      if ifX && !entry.ifX {
        // The identifier is in ifXTable: skip ifTable entries.
      } else if !ifX && entry.ifX {
        return c;
      } else if entry.num >= col {
        return c;
      }
      c := c + 1;
    }
  }

  /** No row of these columns is above an identifier that names a later column. */
  lemma EarlierColumns(oid: Oid, ifX: bool, d: nat, i: nat)
    requires Inside(oid, ifX) && d < COLUMNS && i >= 1 && Before(ColumnAt(d), Column(ifX, ColOf(oid, ifX)))
    ensures !Less(oid, Row(d, i))
  {
    KeyDecides(oid, ifX, d, i);
  }

  /** The search inside a table. */
  method NextInside(ifs: seq<nat>, oid: Oid, ifX: bool) returns (r: Option<Oid>)
    requires Sorted(ifs) && Inside(oid, ifX)
    ensures IsNext(ifs, oid, r)
  {
    hide Less, Row;
    var col := ColOf(oid, ifX);
    var inst := InstanceOf(oid, ifX);
    var c := FindColumn(ifX, col);
    forall d: nat, k: nat | d < c && d < COLUMNS && k < |ifs| ensures !Less(oid, Row(d, ifs[k])) {
      assert ifs[k] >= ifs[0];
      EarlierColumns(oid, ifX, d, ifs[k]);
    }
    if c == COLUMNS { return None; }
    if ColumnAt(c) == Column(ifX, col) {
      var pos := SearchInts(ifs, inst + 1);
      forall k: nat | k < |ifs| ensures Less(oid, Row(c, ifs[k])) <==> inst < ifs[k] {
        assert ifs[k] >= ifs[0];
        KeyDecides(oid, ifX, c, ifs[k]);
      }
      if pos < |ifs| {
        PositionIsNext(ifs, oid, c, pos);
        return Some(Row(c, ifs[pos]));
      }
      if c + 1 >= COLUMNS { return None; }
      KeyDecides(oid, ifX, c + 1, ifs[0]);
      PositionIsNext(ifs, oid, c + 1, 0);
      return Some(Row(c + 1, ifs[0]));
    }
    KeyDecides(oid, ifX, c, ifs[0]);
    PositionIsNext(ifs, oid, c, 0);
    return Some(Row(c, ifs[0]));
  }

  lemma OutsideNone(ifs: seq<nat>, oid: Oid)
    requires Sorted(ifs)
    ensures IsNext(ifs, oid, None) <==> !Less(oid, LastRow(ifs))
  {
    forall c: nat, j: nat | c < COLUMNS && j < |ifs| && Less(oid, Row(c, ifs[j])) ensures Less(oid, LastRow(ifs)) {
      assert ifs[j] >= ifs[0] >= 1 && ifs[|ifs| - 1] >= ifs[0];
      RowOrder(c, ifs[j], COLUMNS - 1, ifs[|ifs| - 1]);
      if Row(c, ifs[j]) != LastRow(ifs) { LessTrans(oid, Row(c, ifs[j]), LastRow(ifs)); }
    }
  }

  /** The answer is the successor for every identifier outside the gap, and for none inside it. */
  method NextDynamicOid(ifs: seq<nat>, oid: Oid) returns (r: Option<Oid>)
    requires ifs == [] || Sorted(ifs)
    ensures ifs == [] ==> r == None
    ensures ifs != [] ==> (IsNext(ifs, oid, r) <==> !InGap(ifs, oid))
    ensures ifs != [] && InGap(ifs, oid) ==> r == None
  {
    if ifs == [] { return None; }
    if Inside(oid, true) {
      r := NextInside(ifs, oid, true);
    } else if Inside(oid, false) {
      r := NextInside(ifs, oid, false);
    } else if Less(oid, FirstRow(ifs)) {
      PositionIsNext(ifs, oid, 0, 0);
      return Some(FirstRow(ifs));
    } else {
      OutsideNone(ifs, oid);
      return None;
    }
  }

  /** The gap is real: an identifier between the tables ends the walk although all of ifXTable is still to come. */
  lemma GapExists(ifs: seq<nat>)
    requires Sorted(ifs)
    ensures InGap(ifs, IFX_TABLE) && !IsNext(ifs, IFX_TABLE, None)
  {
    var none: Oid := [];
    var cell := [ColumnAt(0).num, ifs[0]];
    assert IFX_TABLE + none == IFX_TABLE;
    TablesApart(cell, none);
    LessAfter(IFX_TABLE, none, [13, ifs[|ifs| - 1]]);
    assert Less(IFX_TABLE, LastRow(ifs));
    assert IFX_TABLE[6] == 31 && IF_TABLE[6] == 2;
    OutsideNone(ifs, IFX_TABLE);
  }

  // ---------------------------------------------------------------------------------------------
  // Walks.

  /** The rows from one position on, in walking order. */
  function RowsFrom(ifs: seq<nat>, c: nat, j: nat): seq<Oid>
    requires ifs != [] && c <= COLUMNS && j < |ifs|
    decreases COLUMNS - c, |ifs| - j
  {
    if c == COLUMNS then []
    else if j + 1 < |ifs| then [Row(c, ifs[j])] + RowsFrom(ifs, c, j + 1)
    else [Row(c, ifs[j])] + RowsFrom(ifs, c + 1, 0)
  }

  lemma RowsNotBelow(ifs: seq<nat>, c: nat, j: nat, d: nat, k: nat)
    requires Sorted(ifs) && c < COLUMNS && j < |ifs| && d < COLUMNS && k < |ifs|
    ensures Less(Row(c, ifs[j]), Row(d, ifs[k])) <==> c < d || (c == d && j < k)
  {
    assert ifs[k] >= ifs[0] >= 1;
    RowOrder(c, ifs[j], d, ifs[k]);
  }

  /** From one row the successor is the next row of the column, or the first of the next column. */
  lemma NextOfRow(ifs: seq<nat>, c: nat, j: nat)
    requires Sorted(ifs) && c < COLUMNS && j < |ifs|
    ensures IsNext(ifs, Row(c, ifs[j]),
                   if j + 1 < |ifs| then Some(Row(c, ifs[j + 1]))
                   else if c + 1 < COLUMNS then Some(Row(c + 1, ifs[0])) else None)
    ensures !InGap(ifs, Row(c, ifs[j]))
  {
    forall d: nat, k: nat | d < COLUMNS && k < |ifs|
      ensures Less(Row(c, ifs[j]), Row(d, ifs[k])) <==> c < d || (c == d && j < k)
    {
      RowsNotBelow(ifs, c, j, d, k);
    }
    if j + 1 < |ifs| {
      PositionIsNext(ifs, Row(c, ifs[j]), c, j + 1);
    } else if c + 1 < COLUMNS {
      PositionIsNext(ifs, Row(c, ifs[j]), c + 1, 0);
    }
  }

  lemma NextOfStart(ifs: seq<nat>, start: Oid)
    requires Sorted(ifs) && Less(start, FirstRow(ifs))
    ensures IsNext(ifs, start, Some(FirstRow(ifs))) && !InGap(ifs, start)
  {
    PositionIsNext(ifs, start, 0, 0);
  }

  /** A walk that has visited `rows` and stands before row `j` of column `c`, or at the end. */
  ghost predicate WalkAt(ifs: seq<nat>, rows: seq<Oid>, next: Option<Oid>, c: nat, j: nat) {
    && c <= COLUMNS && j < |ifs| && (c == COLUMNS ==> j == 0)
    && rows + RowsFrom(ifs, c, j) == RowsFrom(ifs, 0, 0)
    && next == if c < COLUMNS then Some(Row(c, ifs[j])) else None
  }

  lemma WalkStarts(ifs: seq<nat>, start: Oid, next: Option<Oid>)
    requires Sorted(ifs) && Less(start, FirstRow(ifs)) && (!InGap(ifs, start) ==> IsNext(ifs, start, next))
    ensures WalkAt(ifs, [], next, 0, 0)
  {
    hide IsNext, InGap, Less, Row;
    NextOfStart(ifs, start);
    NextUnique(ifs, start, next, Some(FirstRow(ifs)));
  }

  /** One row further. */
  lemma WalkStep(ifs: seq<nat>, rows: seq<Oid>, at: Oid, c: nat, j: nat, next: Option<Oid>)
    requires Sorted(ifs) && WalkAt(ifs, rows, Some(at), c, j) && (!InGap(ifs, at) ==> IsNext(ifs, at, next))
    ensures c < COLUMNS && j < |ifs|
    ensures var (d, k) := if j + 1 < |ifs| then (c, j + 1) else (c + 1, 0); WalkAt(ifs, rows + [at], next, d, k)
  {
    hide Row, IsNext, InGap, Less;
    NextOfRow(ifs, c, j);
    NextUnique(ifs, at, next, if j + 1 < |ifs| then Some(Row(c, ifs[j + 1]))
                              else if c + 1 < COLUMNS then Some(Row(c + 1, ifs[0])) else None);
    var (d, k) := if j + 1 < |ifs| then (c, j + 1) else (c + 1, 0);
    assert RowsFrom(ifs, c, j) == [at] + RowsFrom(ifs, d, k);
    assert rows + ([at] + RowsFrom(ifs, d, k)) == (rows + [at]) + RowsFrom(ifs, d, k);
  }

  lemma WalkEnds(ifs: seq<nat>, rows: seq<Oid>, c: nat, j: nat)
    requires WalkAt(ifs, rows, None, c, j)
    ensures rows == RowsFrom(ifs, 0, 0)
  {
  }

  /** A walk started below the first row visits every owned row once, in order, and ends. */
  method Walk(ifs: seq<nat>, start: Oid) returns (rows: seq<Oid>)
    requires Sorted(ifs) && Less(start, FirstRow(ifs))
    ensures rows == RowsFrom(ifs, 0, 0)
  {
    hide Row, IsNext, InGap, Less, RowsFrom, WalkAt;
    rows := [];
    ghost var c: nat, j: nat := 0, 0;
    var next := NextDynamicOid(ifs, start);
    WalkStarts(ifs, start, next);
    while next.Some?
      invariant WalkAt(ifs, rows, next, c, j) && c <= COLUMNS && j < |ifs|
      decreases COLUMNS - c, |ifs| - j
    {
      var at := next.value;
      next := NextDynamicOid(ifs, at);
      WalkStep(ifs, rows, at, c, j, next);
      rows := rows + [at];
      if j + 1 < |ifs| { j := j + 1; } else { c, j := c + 1, 0; }
    }
    WalkEnds(ifs, rows, c, j);
  }

  ghost predicate Increasing(rows: seq<Oid>) {
    forall a, b | 0 <= a < b < |rows| :: Less(rows[a], rows[b])
  }

  /** A row at or after row `j` of column `c`. */
  ghost predicate RowAfter(ifs: seq<nat>, c: nat, j: nat, x: Oid) {
    exists d: nat, k: nat :: d < COLUMNS && k < |ifs| && (c < d || (c == d && j <= k)) && x == Row(d, ifs[k])
  }

  /** The rows from one position on are exactly those. */
  lemma {:induction false} RowsAre(ifs: seq<nat>, c: nat, j: nat, x: Oid)
    requires c <= COLUMNS && j < |ifs|
    ensures x in RowsFrom(ifs, c, j) <==> RowAfter(ifs, c, j, x)
    decreases COLUMNS - c, |ifs| - j
  {
    hide Row;
    if c < COLUMNS {
      var (d, k) := if j + 1 < |ifs| then (c, j + 1) else (c + 1, 0);
      RowsAre(ifs, d, k, x);
    }
  }

  /** The walking order is strictly increasing. */
  lemma {:induction false} RowsIncrease(ifs: seq<nat>, c: nat, j: nat)
    requires Sorted(ifs) && c <= COLUMNS && j < |ifs|
    ensures Increasing(RowsFrom(ifs, c, j))
    decreases COLUMNS - c, |ifs| - j
  {
    if c < COLUMNS {
      hide Less, Row, Sorted;
      var (d, k) := if j + 1 < |ifs| then (c, j + 1) else (c + 1, 0);
      RowsIncrease(ifs, d, k);
      var rest := RowsFrom(ifs, d, k);
      forall x | x in rest ensures Less(Row(c, ifs[j]), x) {
        RowsAre(ifs, d, k, x);
        var e: nat, l: nat :| e < COLUMNS && l < |ifs| && (d < e || (d == e && k <= l)) && x == Row(e, ifs[l]);
        RowsNotBelow(ifs, c, j, e, l);
      }
    }
  }

  /** So a whole walk is the owned set, sorted. */
  lemma WalkIsOwnedSet(ifs: seq<nat>, x: Oid)
    requires Sorted(ifs)
    ensures Increasing(RowsFrom(ifs, 0, 0))
    ensures x in RowsFrom(ifs, 0, 0) <==> Owned(ifs, x)
  {
    RowsIncrease(ifs, 0, 0);
    RowsAre(ifs, 0, 0, x);
  }

  // ---------------------------------------------------------------------------------------------
  // GET.

  /** What a point lookup answers: a table prefix, a column its dispatch knows, one instance, a known interface. */
  predicate Served(ifs: seq<nat>, oid: Oid) {
    var ifX := Inside(oid, true);
    && (ifX || Inside(oid, false))
    && |oid| == |Table(ifX)| + 2
    && InstanceOf(oid, ifX) in ifs
    && (if ifX then 2 <= ColOf(oid, ifX) <= 13
        else ColOf(oid, ifX) in {7, 8, 9, 10, 11, 13, 14, 16, 17, 19, 20})
  }

  lemma ColumnOf(ifX: bool, num: nat)
    returns (c: nat)
    requires if ifX then 2 <= num <= 13 else num in {7, 8, 9, 10, 11, 13, 14, 16, 17, 19, 20}
    ensures c < COLUMNS && ColumnAt(c) == Column(ifX, num)
  {
    if ifX { return num + 9; }
    if num <= 11 { return num - 7; }
    if num <= 14 { return num - 8; }
    if num <= 17 { return num - 9; }
    return num - 10;
  }

  /** GET and GETNEXT agree on what exists: a point lookup answers exactly the rows a walk visits. */
  lemma ServedIsOwned(ifs: seq<nat>, oid: Oid)
    ensures Served(ifs, oid) <==> Owned(ifs, oid)
  {
    if Served(ifs, oid) {
      var ifX := Inside(oid, true);
      var c := ColumnOf(ifX, ColOf(oid, ifX));
      var j: nat :| j < |ifs| && ifs[j] == InstanceOf(oid, ifX);
      assert oid == Row(c, ifs[j]);
    }
    if Owned(ifs, oid) {
      var c: nat, j: nat :| c < COLUMNS && j < |ifs| && oid == Row(c, ifs[j]);
      assert oid[6] == if ColumnAt(c).ifX then 31 else 2;
      assert IFX_TABLE[6] == 31;
    }
  }
}
