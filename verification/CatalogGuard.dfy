/**
 The catalogue's load guard: two subtrees of one origin on one entry path must never render the same entry. Some
 key sources are known when the catalogue is loaded; the interface set exists only per device, so for those the
 guard has to decide from the filters alone.
 */
module CatalogGuard {
  import opened Common

  datatype Iface = Iface(name: string, ifIndex: nat, ifType: nat)

  /** The device's interfaces, and the subinterface units of each by parent name. */
  datatype Device = Device(all: seq<Iface>, subs: map<string, seq<(string, nat)>>) {
    /** Rows of one name agree on their ifType, unless one has none (0). */
    ghost predicate TypedByName() {
      forall v, w | v in all && w in all && v.name == w.name && v.ifType != 0 && w.ifType != 0 :: v.ifType == w.ifType
    }
  }

  // ---------------------------------------------------------------------------------------------
  // Interface filters.

  /** An absent term accepts everything. */
  datatype Filter = Filter(ifTypes: Option<set<nat>>, names: Option<set<string>>, exclude: Option<set<string>>)

  predicate Admits(f: Option<Filter>, v: Iface) {
    f.Some? ==>
      && (f.value.ifTypes.Some? ==> v.ifType in f.value.ifTypes.value)
      && (f.value.names.Some? ==> v.name in f.value.names.value)
      && (f.value.exclude.Some? ==> v.name !in f.value.exclude.value)
  }

  predicate Intersect<T(==)>(a: Option<set<T>>, b: Option<set<T>>) {
    a.Some? && b.Some? && exists x :: x in a.value && x in b.value
  }

  /** `sub` is present and wholly inside `super`; an absent set holds nothing. */
  predicate Subset(sub: Option<set<string>>, super: Option<set<string>>) {
    sub.Some? && sub.value <= if super.Some? then super.value else {}
  }

  predicate DisjointFilters(f: Option<Filter>, g: Option<Filter>) {
    f.Some? && g.Some? &&
    (|| (f.value.ifTypes.Some? && g.value.ifTypes.Some? && !Intersect(f.value.ifTypes, g.value.ifTypes))
     || (f.value.names.Some? && g.value.names.Some? && !Intersect(f.value.names, g.value.names))
     || Subset(f.value.names, g.value.exclude)
     || Subset(g.value.names, f.value.exclude))
  }

  /** What parsing a filter guarantees: no empty term, positive types, and no name both kept and dropped. */
  predicate Parsed(f: Option<Filter>) {
    f.Some? ==>
      && (f.value.ifTypes.Some? ==> f.value.ifTypes.value != {} && 0 !in f.value.ifTypes.value)
      && (f.value.names.Some? ==> f.value.names.value != {})
      && !Intersect(f.value.names, f.value.exclude)
  }

  function Terms(f: Option<Filter>): Filter { if f.Some? then f.value else Filter(None, None, None) }

  lemma {:induction false} LengthBound(s: set<string>) returns (n: nat)
    ensures forall x | x in s :: |x| < n
  {
    if s == {} { return 0; }
    var y :| y in s;
    var m := LengthBound(s - {y});
    n := m + |y| + 1;
    forall x | x in s ensures |x| < n { if x != y { assert x in s - {y}; } }
  }

  lemma SharedType(f: Option<Filter>, g: Option<Filter>) returns (t: nat)
    requires Parsed(f) && Parsed(g) && !DisjointFilters(f, g)
    ensures Terms(f).ifTypes.Some? ==> t in Terms(f).ifTypes.value
    ensures Terms(g).ifTypes.Some? ==> t in Terms(g).ifTypes.value
  {
    var (a, b) := (Terms(f).ifTypes, Terms(g).ifTypes);
    if a.Some? && b.Some? { t :| t in a.value && t in b.value; }
    else if a.Some? { t :| t in a.value; }
    else if b.Some? { t :| t in b.value; }
    else { t := 0; }
  }

  lemma SharedName(f: Option<Filter>, g: Option<Filter>) returns (n: string)
    requires Parsed(f) && Parsed(g) && !DisjointFilters(f, g)
    ensures forall h | h in {Terms(f), Terms(g)} ::
              (h.names.Some? ==> n in h.names.value) && (h.exclude.Some? ==> n !in h.exclude.value)
  {
    var (a, b) := (Terms(f), Terms(g));
    var noA := if a.exclude.Some? then a.exclude.value else {};
    var noB := if b.exclude.Some? then b.exclude.value else {};
    if a.names.Some? && b.names.Some? {
      n :| n in a.names.value && n in b.names.value;
    } else if a.names.Some? {
      n :| n in a.names.value && n !in noB;
    } else if b.names.Some? {
      n :| n in b.names.value && n !in noA;
    } else {
      var k := LengthBound(noA + noB);
      n := seq(k, i => 'x');
      assert n !in noA + noB;
      return;
    }
  }

  /** The verdict is exact: it says disjoint if and only if no interface there could ever be passes both filters. */
  lemma DisjointExactly(f: Option<Filter>, g: Option<Filter>)
    requires Parsed(f) && Parsed(g)
    ensures DisjointFilters(f, g) <==> forall v: Iface :: !(Admits(f, v) && Admits(g, v))
  {
    if !DisjointFilters(f, g) {
      var t := SharedType(f, g);
      var n := SharedName(f, g);
      assert Terms(f) in {Terms(f), Terms(g)} && Terms(g) in {Terms(f), Terms(g)};
      assert Admits(f, Iface(n, 1, t)) && Admits(g, Iface(n, 1, t));
    } else {
      forall v: Iface ensures !(Admits(f, v) && Admits(g, v)) {
      }
    }
  }

  // ---------------------------------------------------------------------------------------------
  // Subtrees and their entries.

  /** Component, neighbour and static sources are value lists known at load; the other two need a device. */
  datatype Key =
    | Interfaces(filter: Option<Filter>)
    | Subinterfaces
    | Loaded(values: seq<string>)

  /** A path element; its keys in name order. A value of "*" is filled in from the entry's keys. */
  datatype Elem = Elem(name: string, keys: seq<(string, string)>)

  datatype Subtree = Subtree(origin: string, elems: seq<Elem>, keys: seq<Key>)

  /** The key tuples a device renders for these sources. */
  ghost predicate Renders(dev: Device, keys: seq<Key>, tuple: seq<string>) {
    |tuple| == |keys| && forall i | 0 <= i < |keys| :: RendersAt(dev, keys, tuple, i)
  }

  ghost predicate RendersAt(dev: Device, keys: seq<Key>, tuple: seq<string>, i: nat)
    requires i < |keys| && |keys| <= |tuple|
  {
    match keys[i]
    case Loaded(values) => tuple[i] in values
    case Interfaces(f) => exists v :: v in dev.all && Admits(f, v) && v.name == tuple[i]
    case Subinterfaces =>
      i > 0 && tuple[i - 1] in dev.subs && exists u :: u in dev.subs[tuple[i - 1]] && u.0 == tuple[i]
  }

  datatype Entry = Entry(keys: seq<string>, ifIndex: nat)

  /** One more key: the entries so far, each extended by every value the source offers it. */
  function Extend(dev: Device, entries: seq<Entry>, k: Key): seq<Entry> {
    if entries == [] then []
    else Extend(dev, entries[..|entries| - 1], k) + Offers(dev, entries[|entries| - 1], k)
  }

  function Offers(dev: Device, e: Entry, k: Key): seq<Entry> {
    match k
    case Loaded(values) => seq(|values|, i requires 0 <= i < |values| => Entry(e.keys + [values[i]], e.ifIndex))
    case Interfaces(f) => Admitted(dev.all, f, e)
    case Subinterfaces =>
      if e.keys != [] && e.keys[|e.keys| - 1] in dev.subs then
        var us := dev.subs[e.keys[|e.keys| - 1]];
        seq(|us|, i requires 0 <= i < |us| => Entry(e.keys + [us[i].0], us[i].1))
      else []
  }

  function Admitted(all: seq<Iface>, f: Option<Filter>, e: Entry): seq<Entry> {
    if all == [] then []
    else
      var v := all[|all| - 1];
      Admitted(all[..|all| - 1], f, e) + if Admits(f, v) then [Entry(e.keys + [v.name], v.ifIndex)] else []
  }

  function Expand(dev: Device, keys: seq<Key>): seq<Entry> {
    if keys == [] then [Entry([], 0)]
    else Extend(dev, Expand(dev, keys[..|keys| - 1]), keys[|keys| - 1])
  }

  lemma {:induction false} AdmittedKeys(all: seq<Iface>, f: Option<Filter>, e: Entry, x: seq<string>)
    ensures (exists n :: n in Admitted(all, f, e) && n.keys == x) <==>
            (exists v :: v in all && Admits(f, v) && x == e.keys + [v.name])
  {
    if all != [] {
      var (front, last) := (all[..|all| - 1], all[|all| - 1]);
      AdmittedKeys(front, f, e, x);
      assert forall v :: v in all <==> v in front || v == last;
      var one := if Admits(f, last) then [Entry(e.keys + [last.name], last.ifIndex)] else [];
      assert forall n :: n in Admitted(all, f, e) <==> n in Admitted(front, f, e) || n in one;
    }
  }

  lemma OffersKeys(dev: Device, e: Entry, keys: seq<Key>, x: seq<string>)
    requires keys != [] && |e.keys| == |keys| - 1
    ensures (exists n :: n in Offers(dev, e, keys[|keys| - 1]) && n.keys == x) <==>
            |x| == |keys| && x[..|keys| - 1] == e.keys && RendersAt(dev, keys, x, |keys| - 1)
  {
    var k := keys[|keys| - 1];
    match k
    case Loaded(values) =>
      if |x| == |keys| && x[..|keys| - 1] == e.keys && x[|keys| - 1] in values {
        var i: nat :| i < |values| && values[i] == x[|keys| - 1];
        assert Offers(dev, e, k)[i].keys == x;
      }
    case Interfaces(f) => AdmittedKeys(dev.all, f, e, x);
    case Subinterfaces =>
      if |x| == |keys| && x[..|keys| - 1] == e.keys && RendersAt(dev, keys, x, |keys| - 1) {
        var us := dev.subs[x[|keys| - 2]];
        var i: nat :| i < |us| && us[i].0 == x[|keys| - 1];
        assert e.keys[|e.keys| - 1] == x[|keys| - 2];
        assert Offers(dev, e, k)[i].keys == x;
      }
  }

  ghost predicate HasKeys(es: seq<Entry>, x: seq<string>) { exists e :: e in es && e.keys == x }

  lemma {:induction false} ExtendKeys(dev: Device, es: seq<Entry>, keys: seq<Key>, x: seq<string>)
    requires keys != [] && forall e | e in es :: |e.keys| == |keys| - 1
    ensures HasKeys(Extend(dev, es, keys[|keys| - 1]), x) <==>
            |x| == |keys| && HasKeys(es, x[..|keys| - 1]) && RendersAt(dev, keys, x, |keys| - 1)
  {
    if es != [] {
      var (front, last, k) := (es[..|es| - 1], es[|es| - 1], keys[|keys| - 1]);
      ExtendKeys(dev, front, keys, x);
      OffersKeys(dev, last, keys, x);
      assert forall e :: e in es <==> e in front || e == last;
      assert forall n :: n in Extend(dev, es, k) <==> n in Extend(dev, front, k) || n in Offers(dev, last, k);
    }
  }

  lemma {:induction false} ExpandLengths(dev: Device, keys: seq<Key>)
    ensures forall e | e in Expand(dev, keys) :: |e.keys| == |keys|
  {
    if keys != [] {
      var front := keys[..|keys| - 1];
      ExpandLengths(dev, front);
      forall e | e in Expand(dev, keys) ensures |e.keys| == |keys| {
        assert HasKeys(Expand(dev, keys), e.keys);
        ExtendKeys(dev, Expand(dev, front), keys, e.keys);
      }
    }
  }

  /** The expansion is the product: it renders a tuple exactly when every position offers its value. */
  lemma {:induction false} ExpandExactly(dev: Device, keys: seq<Key>, x: seq<string>)
    ensures HasKeys(Expand(dev, keys), x) <==> Renders(dev, keys, x)
  {
    if keys == [] {
      assert Entry([], 0) in Expand(dev, keys);
    } else {
      var front := keys[..|keys| - 1];
      ExpandLengths(dev, front);
      ExtendKeys(dev, Expand(dev, front), keys, x);
      if |x| == |keys| {
        ExpandExactly(dev, front, x[..|keys| - 1]);
        RendersSplit(dev, keys, x);
      }
    }
  }

  lemma RendersSplit(dev: Device, keys: seq<Key>, x: seq<string>)
    requires keys != [] && |x| == |keys|
    ensures Renders(dev, keys, x) <==>
            Renders(dev, keys[..|keys| - 1], x[..|keys| - 1]) && RendersAt(dev, keys, x, |keys| - 1)
  {
    var (front, y) := (keys[..|keys| - 1], x[..|keys| - 1]);
    assert forall i | 0 <= i < |front| :: RendersAt(dev, front, y, i) <==> RendersAt(dev, keys, x, i);
  }

  // ---------------------------------------------------------------------------------------------
  // Entry paths.

  function Stars(keys: seq<(string, string)>): nat {
    if keys == [] then 0 else Stars(keys[..|keys| - 1]) + if keys[|keys| - 1].1 == "*" then 1 else 0
  }

  function AllStars(elems: seq<Elem>): nat {
    if elems == [] then 0 else AllStars(elems[..|elems| - 1]) + Stars(elems[|elems| - 1].keys)
  }

  function FillKeys(keys: seq<(string, string)>, x: seq<string>): seq<(string, string)>
    requires |x| == Stars(keys)
  {
    if keys == [] then []
    else
      var (front, last) := (keys[..|keys| - 1], keys[|keys| - 1]);
      if last.1 == "*" then FillKeys(front, x[..|x| - 1]) + [(last.0, x[|x| - 1])] else FillKeys(front, x) + [last]
  }

  /** The wildcard keys of an entry path, filled in order. */
  function Fill(elems: seq<Elem>, x: seq<string>): seq<Elem>
    requires |x| == AllStars(elems)
  {
    if elems == [] then []
    else
      var (front, last) := (elems[..|elems| - 1], elems[|elems| - 1]);
      var cut := AllStars(front);
      Fill(front, x[..cut]) + [Elem(last.name, FillKeys(last.keys, x[cut..]))]
  }

  lemma {:induction false} FillKeysInjective(keys: seq<(string, string)>, x: seq<string>, y: seq<string>)
    requires |x| == |y| == Stars(keys) && FillKeys(keys, x) == FillKeys(keys, y)
    ensures x == y
  {
    if keys != [] {
      var (front, n) := (keys[..|keys| - 1], |x|);
      var (a, b) := (FillKeys(keys, x), FillKeys(keys, y));
      assert a[..|a| - 1] == b[..|b| - 1] && a[|a| - 1] == b[|b| - 1];
      if keys[|keys| - 1].1 == "*" {
        assert a[..|a| - 1] == FillKeys(front, x[..n - 1]) && b[..|b| - 1] == FillKeys(front, y[..n - 1]);
        FillKeysInjective(front, x[..n - 1], y[..n - 1]);
        assert x == x[..n - 1] + [x[n - 1]] && y == y[..n - 1] + [y[n - 1]];
      } else {
        assert a[..|a| - 1] == FillKeys(front, x) && b[..|b| - 1] == FillKeys(front, y);
        FillKeysInjective(front, x, y);
      }
    }
  }

  /** Two tuples fill the same path only when they are the same tuple. */
  lemma {:induction false} FillInjective(elems: seq<Elem>, x: seq<string>, y: seq<string>)
    requires |x| == |y| == AllStars(elems) && Fill(elems, x) == Fill(elems, y)
    ensures x == y
  {
    if elems != [] {
      var (front, last) := (elems[..|elems| - 1], elems[|elems| - 1]);
      var cut := AllStars(front);
      var (a, b) := (Fill(elems, x), Fill(elems, y));
      assert a[..|a| - 1] == Fill(front, x[..cut]) && b[..|b| - 1] == Fill(front, y[..cut]);
      FillInjective(front, x[..cut], y[..cut]);
      assert a[|a| - 1] == b[|b| - 1];
      FillKeysInjective(last.keys, x[cut..], y[cut..]);
      assert x == x[..cut] + x[cut..] && y == y[..cut] + y[cut..];
    }
  }

  // ---------------------------------------------------------------------------------------------
  // The guard.

  /** What parsing a subtree guarantees: one source per wildcard, and a subinterfaces key right after its interface. */
  predicate WellFormed(st: Subtree) {
    && |st.keys| == AllStars(st.elems)
    && forall i | 0 <= i < |st.keys| :: st.keys[i].Subinterfaces? ==> i > 0 && st.keys[i - 1].Interfaces?
  }

  predicate SamePath(a: Subtree, b: Subtree) { a.origin == b.origin && a.elems == b.elems }

  /** The position of the first interfaces key, or the number of keys. */
  function InterfacesAt(keys: seq<Key>): (i: nat)
    ensures i <= |keys| && (i < |keys| ==> keys[i].Interfaces?)
    ensures forall j | 0 <= j < i :: !keys[j].Interfaces?
  {
    if keys == [] || keys[0].Interfaces? then 0 else 1 + InterfacesAt(keys[1..])
  }

  function Join(x: seq<string>): string {
    if x == [] then "" else Join(x[..|x| - 1]) + "\0" + x[|x| - 1]
  }

  predicate Loadable(keys: seq<Key>) { forall i | 0 <= i < |keys| :: keys[i].Loaded? }

  ghost predicate Offered(keys: seq<Key>, x: seq<string>) {
    |x| == |keys| && forall i | 0 <= i < |keys| :: keys[i].Loaded? && x[i] in keys[i].values
  }

  ghost predicate Made(keys: seq<Key>, t: string) { exists x :: Offered(keys, x) && Join(x) == t }

  /** The joined tuples of a subtree whose sources are all known at load, or nothing when one needs a device. */
  method EntryTuples(keys: seq<Key>) returns (tuples: Option<set<string>>)
    ensures tuples.Some? <==> Loadable(keys)
    ensures tuples.Some? ==> forall x | Offered(keys, x) :: Join(x) in tuples.value
    ensures tuples.Some? ==> forall t | t in tuples.value :: Made(keys, t)
  {
    var ts: set<string> := {""};
    assert forall x | Offered(keys[..0], x) :: Join(x) == "";
    assert Offered(keys[..0], []) && Join([]) == "";
    for n := 0 to |keys|
      invariant Loadable(keys[..n])
      invariant forall x | Offered(keys[..n], x) :: Join(x) in ts
      invariant forall t | t in ts :: Made(keys[..n], t)
    {
      if !keys[n].Loaded? { return None; }
      var values := keys[n].values;
      var next := set t, v | t in ts && v in values :: t + "\0" + v;
      TuplesGrow(keys, n, ts, next);
      ts := next;
    }
    assert keys[..|keys|] == keys;
    return Some(ts);
  }

  lemma OfferedSnoc(keys: seq<Key>, n: nat, x: seq<string>)
    requires n < |keys| && keys[n].Loaded?
    ensures Offered(keys[..n + 1], x) <==> |x| == n + 1 && Offered(keys[..n], x[..n]) && x[n] in keys[n].values
  {
    if |x| == n + 1 {
      assert forall i | 0 <= i < n :: keys[..n + 1][i] == keys[..n][i] && x[i] == x[..n][i];
      assert keys[..n + 1][n] == keys[n];
    }
  }

  lemma JoinSnoc(x: seq<string>, v: string)
    ensures Join(x + [v]) == Join(x) + "\0" + v
  {
    assert (x + [v])[..|x|] == x;
  }

  lemma TuplesGrow(keys: seq<Key>, n: nat, ts: set<string>, next: set<string>)
    requires n < |keys| && keys[n].Loaded?
    requires forall x | Offered(keys[..n], x) :: Join(x) in ts
    requires forall t | t in ts :: Made(keys[..n], t)
    requires next == set t, v | t in ts && v in keys[n].values :: t + "\0" + v
    ensures forall x | Offered(keys[..n + 1], x) :: Join(x) in next
    ensures forall t | t in next :: Made(keys[..n + 1], t)
  {
    hide Offered, Join;
    forall x | Offered(keys[..n + 1], x) ensures Join(x) in next {
      OfferedSnoc(keys, n, x);
      JoinSnoc(x[..n], x[n]);
      assert x == x[..n] + [x[n]];
      assert Join(x[..n]) in ts;
    }
    forall u | u in next ensures Made(keys[..n + 1], u) {
      var t, v :| t in ts && v in keys[n].values && u == t + "\0" + v;
      var x :| Offered(keys[..n], x) && Join(x) == t;
      JoinGrows(keys, n, x, v);
      assert Offered(keys[..n + 1], x + [v]) && Join(x + [v]) == u;
    }
  }

  lemma JoinGrows(keys: seq<Key>, n: nat, x: seq<string>, v: string)
    requires n < |keys| && keys[n].Loaded? && v in keys[n].values && Offered(keys[..n], x)
    ensures Offered(keys[..n + 1], x + [v]) && Join(x + [v]) == Join(x) + "\0" + v
  {
    JoinSnoc(x, v);
    OfferedSnoc(keys, n, x + [v]);
    assert (x + [v])[..n] == x;
  }

  /** No value is offered at this position by both. */
  predicate Apart(a: Key, b: Key) {
    a.Loaded? && b.Loaded? && forall v | v in a.values :: v !in b.values
  }

  /** A pair keyed on interfaces at one position: disjoint filters, or another position that cannot agree. */
  predicate InterfacePairOk(a: seq<Key>, b: seq<Key>, pos: nat)
    requires pos < |a| == |b| && a[pos].Interfaces? && b[pos].Interfaces?
  {
    || DisjointFilters(a[pos].filter, b[pos].filter)
    || exists k :: 0 <= k < |a| && k != pos && Apart(a[k], b[k])
  }

  method CheckSamePathInterfacePair(a: seq<Key>, b: seq<Key>, pos: nat) returns (ok: bool)
    requires pos < |a| == |b| && a[pos].Interfaces? && b[pos].Interfaces?
    ensures ok <==> InterfacePairOk(a, b, pos)
    ensures ok <==> DisjointFilters(a[pos].filter, b[pos].filter) || exists k :: 0 <= k < |a| && Apart(a[k], b[k])
  {
    if DisjointFilters(a[pos].filter, b[pos].filter) { return true; }
    for k := 0 to |a|
      invariant forall i | 0 <= i < k && i != pos :: !Apart(a[i], b[i])
    {
      if k != pos && !a[k].Subinterfaces? && !b[k].Subinterfaces? && Apart(a[k], b[k]) { return true; }
    }
    return false;
  }

  ghost predicate SharesTuple(a: seq<Key>, b: seq<Key>) {
    exists x, y :: Offered(a, x) && Offered(b, y) && Join(x) == Join(y)
  }

  /** What the guard asks of one pair. */
  ghost predicate PairOk(a: Subtree, b: Subtree)
    requires WellFormed(a) && WellFormed(b)
  {
    SamePath(a, b) ==>
      var (ia, ib, n) := (InterfacesAt(a.keys), InterfacesAt(b.keys), |a.keys|);
      if ia < n && ib < n then ia == ib && InterfacePairOk(a.keys, b.keys, ia)
      else ia == n && Loadable(a.keys) && Loadable(b.keys) ==> !SharesTuple(a.keys, b.keys)
  }

  method CheckPair(a: Subtree, b: Subtree) returns (ok: bool)
    requires WellFormed(a) && WellFormed(b)
    ensures ok <==> PairOk(a, b)
  {
    if !SamePath(a, b) { return true; }
    var ia := InterfacesAt(a.keys);
    if ia < |a.keys| {
      var ib := InterfacesAt(b.keys);
      if ib == ia { ok := CheckSamePathInterfacePair(a.keys, b.keys, ia); return; }
      return ib == |b.keys|;
    }
    var ta := EntryTuples(a.keys);
    if ta.None? { return true; }
    var tb := EntryTuples(b.keys);
    if tb.None? { return true; }
    ok := ta.value !! tb.value;
  }

  method CheckSamePathSubtrees(c: seq<Subtree>) returns (ok: bool)
    requires forall i | 0 <= i < |c| :: WellFormed(c[i])
    ensures ok <==> forall i, j | 0 <= i < j < |c| :: PairOk(c[i], c[j])
  {
    for i := 0 to |c|
      invariant forall k, l | 0 <= k < i && k < l < |c| :: PairOk(c[k], c[l])
    {
      for j := i + 1 to |c|
        invariant forall l | i < l < j :: PairOk(c[i], c[l])
      {
        var fine := CheckPair(c[i], c[j]);
        if !fine { return false; }
      }
    }
    return true;
  }

  // ---------------------------------------------------------------------------------------------
  // Soundness.

  lemma LoadableWithoutInterfaces(st: Subtree)
    requires WellFormed(st) && InterfacesAt(st.keys) == |st.keys|
    ensures Loadable(st.keys)
  {
    forall i | 0 <= i < |st.keys| ensures st.keys[i].Loaded? {
      assert !st.keys[i].Interfaces? && (i > 0 ==> !st.keys[i - 1].Interfaces?);
    }
  }

  predicate ParsedFilters(keys: seq<Key>) {
    forall i | 0 <= i < |keys| :: keys[i].Interfaces? ==> Parsed(keys[i].filter)
  }

  lemma InterfacesApart(dev: Device, a: seq<Key>, b: seq<Key>, pos: nat, x: seq<string>)
    requires dev.TypedByName() && pos < |a| == |b| && a[pos].Interfaces? && b[pos].Interfaces?
    requires ParsedFilters(a) && ParsedFilters(b)
    requires InterfacePairOk(a, b, pos) && Renders(dev, a, x)
    ensures !Renders(dev, b, x)
  {
    if DisjointFilters(a[pos].filter, b[pos].filter) {
      assert RendersAt(dev, a, x, pos);
      var v :| v in dev.all && Admits(a[pos].filter, v) && v.name == x[pos];
      forall w | w in dev.all && w.name == x[pos] ensures !Admits(b[pos].filter, w) {
      }
      assert !RendersAt(dev, b, x, pos);
    } else {
      var k :| 0 <= k < |a| && k != pos && Apart(a[k], b[k]);
      assert RendersAt(dev, a, x, k);
      assert !RendersAt(dev, b, x, k);
    }
  }

  /** Subtrees the guard compares: one path, both or neither keyed on interfaces. */
  predicate Compared(a: Subtree, b: Subtree) {
    SamePath(a, b) && (InterfacesAt(a.keys) < |a.keys|) == (InterfacesAt(b.keys) < |b.keys|)
  }

  lemma PairApart(dev: Device, a: Subtree, b: Subtree, x: seq<string>)
    requires WellFormed(a) && WellFormed(b) && Compared(a, b) && PairOk(a, b) && dev.TypedByName()
    requires ParsedFilters(a.keys) && ParsedFilters(b.keys)
    requires Renders(dev, a.keys, x)
    ensures !Renders(dev, b.keys, x)
  {
    if InterfacesAt(a.keys) < |a.keys| {
      InterfacesApart(dev, a.keys, b.keys, InterfacesAt(a.keys), x);
    } else {
      LoadableWithoutInterfaces(a);
      LoadableWithoutInterfaces(b);
      forall i | 0 <= i < |a.keys| ensures x[i] in a.keys[i].values { assert RendersAt(dev, a.keys, x, i); }
      assert Offered(a.keys, x);
      assert !Offered(b.keys, x);
      var i: nat :| i < |b.keys| && x[i] !in b.keys[i].values;
      assert !RendersAt(dev, b.keys, x, i);
    }
  }

  /** A parsed catalogue the guard accepts. */
  ghost predicate Accepted(c: seq<Subtree>) {
    && (forall k | 0 <= k < |c| :: WellFormed(c[k]) && ParsedFilters(c[k].keys))
    && (forall k, l | 0 <= k < l < |c| :: PairOk(c[k], c[l]))
  }

  /** Two entries of a device, one from each subtree, fill one path. */
  ghost predicate Clashes(dev: Device, a: Subtree, b: Subtree, x: seq<string>, y: seq<string>) {
    && |x| == AllStars(a.elems) && |y| == AllStars(b.elems)
    && HasKeys(Expand(dev, a.keys), x) && HasKeys(Expand(dev, b.keys), y)
    && Fill(a.elems, x) == Fill(b.elems, y)
  }

  /** No two subtrees of an accepted catalogue that the guard compares render one entry of this device. */
  ghost predicate SubtreesApart(dev: Device) {
    forall c, i, j, x, y | Accepted(c) && 0 <= i < j < |c| && Compared(c[i], c[j]) :: !Clashes(dev, c[i], c[j], x, y)
  }

  /**
   In a catalogue the guard accepts no two subtrees render one entry: on every device whose same-named rows agree on
   their ifType, same-path subtrees that are both, or neither, keyed on interfaces expand to disjoint entry paths.
   */
  lemma GuardSound(c: seq<Subtree>, dev: Device, i: nat, j: nat, x: seq<string>, y: seq<string>)
    requires Accepted(c) && dev.TypedByName() && i < j < |c| && Compared(c[i], c[j])
    requires HasKeys(Expand(dev, c[i].keys), x) && HasKeys(Expand(dev, c[j].keys), y)
    ensures |x| == |y| == AllStars(c[i].elems) && Fill(c[i].elems, x) != Fill(c[j].elems, y)
  {
    var (a, b) := (c[i], c[j]);
    assert PairOk(a, b);
    ExpandExactly(dev, a.keys, x);
    ExpandExactly(dev, b.keys, y);
    PairApart(dev, a, b, x);
    if Fill(a.elems, x) == Fill(b.elems, y) { FillInjective(a.elems, x, y); }
  }

  // ---------------------------------------------------------------------------------------------
  // Exactness: what the guard rejects does clash.

  /** Loaded sources, but for an interfaces key at `pos` if that is a position; no value holds the joining NUL. */
  ghost predicate Plain(keys: seq<Key>, pos: nat) {
    && InterfacesAt(keys) == pos
    && (forall k | 0 <= k < |keys| && k != pos :: keys[k].Loaded?)
    && (forall k, v | 0 <= k < |keys| && keys[k].Loaded? && v in keys[k].values :: '\0' !in v)
  }

  lemma AfterLastNul(a: string, x: string, b: string, y: string)
    requires a + "\0" + x == b + "\0" + y && '\0' !in x && '\0' !in y
    ensures a == b && x == y
  {
    var (s, t) := (a + "\0" + x, b + "\0" + y);
    assert s[|a|] == '\0' && t[|b|] == '\0';
    assert forall i | |a| < i < |s| :: s[i] == x[i - |a| - 1];
    assert forall i | |b| < i < |t| :: t[i] == y[i - |b| - 1];
    assert |a| == |b|;
    assert s[|a| + 1..] == x && t[|b| + 1..] == y && s[..|a|] == a && t[..|b|] == b;
  }

  /** Values without the joining NUL are told apart by their join. */
  lemma {:induction false} JoinInjective(x: seq<string>, y: seq<string>)
    requires |x| == |y| && Join(x) == Join(y)
    requires forall i | 0 <= i < |x| :: '\0' !in x[i] && '\0' !in y[i]
    ensures x == y
  {
    if x != [] {
      var n := |x| - 1;
      AfterLastNul(Join(x[..n]), x[n], Join(y[..n]), y[n]);
      JoinInjective(x[..n], y[..n]);
      assert x == x[..n] + [x[n]] && y == y[..n] + [y[n]];
    }
  }

  /** A tuple both sides offer on every device that has interface `name`. */
  lemma {:induction false} CommonTuple(a: seq<Key>, b: seq<Key>, pos: nat, name: string, n: nat)
    returns (x: seq<string>)
    requires n <= |a| == |b| && Plain(a, pos) && Plain(b, pos)
    requires forall k | 0 <= k < n && k != pos :: !Apart(a[k], b[k])
    ensures |x| == n
    ensures forall k | 0 <= k < n ::
              if k == pos then x[k] == name else x[k] in a[k].values && x[k] in b[k].values
  {
    if n == 0 { return []; }
    var front := CommonTuple(a, b, pos, name, n - 1);
    if n - 1 == pos { return front + [name]; }
    var v :| v in a[n - 1].values && v in b[n - 1].values;
    x := front + [v];
  }

  /** Both render this tuple on this device. */
  ghost predicate BothRender(dev: Device, a: seq<Key>, b: seq<Key>, x: seq<string>) {
    Renders(dev, a, x) && Renders(dev, b, x)
  }

  /** Filters that overlap and no position apart: a device with one interface has both render one tuple. */
  lemma OverlapRenders(a: seq<Key>, b: seq<Key>, pos: nat) returns (dev: Device, x: seq<string>)
    requires pos < |a| == |b| && Plain(a, pos) && Plain(b, pos) && ParsedFilters(a) && ParsedFilters(b)
    requires !InterfacePairOk(a, b, pos)
    ensures dev.TypedByName() && BothRender(dev, a, b, x)
  {
    DisjointExactly(a[pos].filter, b[pos].filter);
    var v: Iface :| Admits(a[pos].filter, v) && Admits(b[pos].filter, v);
    dev := Device([v], map[]);
    x := CommonTuple(a, b, pos, v.name, |a|);
    forall k | 0 <= k < |a| ensures RendersAt(dev, a, x, k) && RendersAt(dev, b, x, k) {
      if k == pos { assert v in dev.all; }
    }
  }

  lemma SharedRenders(a: seq<Key>, b: seq<Key>) returns (x: seq<string>)
    requires |a| == |b| && Plain(a, |a|) && Plain(b, |b|) && SharesTuple(a, b)
    ensures BothRender(Device([], map[]), a, b, x)
  {
    var y, z :| Offered(a, y) && Offered(b, z) && Join(y) == Join(z);
    JoinInjective(y, z);
    x := y;
  }

  /**
   Between subtrees of one path whose sources are value lists, but for an interfaces key at one common position, the
   guard is exact: it rejects the pair if and only if both render one entry of some device with well-typed names.
   */
  lemma GuardExact(a: Subtree, b: Subtree, pos: nat)
    requires WellFormed(a) && WellFormed(b) && SamePath(a, b)
    requires Plain(a.keys, pos) && Plain(b.keys, pos) && ParsedFilters(a.keys) && ParsedFilters(b.keys)
    ensures PairOk(a, b) <==>
            forall dev: Device, x :: dev.TypedByName() ==> !BothRender(dev, a.keys, b.keys, x)
  {
    if PairOk(a, b) {
      forall dev: Device, x | dev.TypedByName() ensures !BothRender(dev, a.keys, b.keys, x) {
        if Renders(dev, a.keys, x) { PairApart(dev, a, b, x); }
      }
    } else if pos < |a.keys| {
      var dev, x := OverlapRenders(a.keys, b.keys, pos);
    } else {
      var x := SharedRenders(a.keys, b.keys);
      assert Device([], map[]).TypedByName();
    }
  }

  /** The two-subtree catalogue split by ifType. */
  function ByType(t: nat): Subtree {
    Subtree("", [Elem("interface", [("name", "*")])], [Interfaces(Some(Filter(Some({t}), None, None)))])
  }

  lemma ByTypeRenders(dev: Device, v: Iface)
    requires v in dev.all
    ensures AllStars(ByType(v.ifType).elems) == 1
    ensures HasKeys(Expand(dev, ByType(v.ifType).keys), [v.name])
  {
    var st := ByType(v.ifType);
    assert [("name", "*")][..0] == [] && Stars([("name", "*")]) == 1;
    assert st.elems[..0] == [] && AllStars(st.elems) == 1;
    assert RendersAt(dev, st.keys, [v.name], 0);
    ExpandExactly(dev, st.keys, [v.name]);
  }

  /** Two rows of one name and different types slip past filters disjoint by type. */
  lemma SharedNameSlipsPast(dev: Device, v: Iface, w: Iface)
    requires v in dev.all && w in dev.all && v.name == w.name && v.ifType != w.ifType && v.ifType != 0 && w.ifType != 0
    ensures var (a, b) := (ByType(v.ifType), ByType(w.ifType));
            Accepted([a, b]) && Compared(a, b) && Clashes(dev, a, b, [v.name], [v.name])
  {
    ByTypeRenders(dev, v);
    ByTypeRenders(dev, w);
    var (a, b) := (ByType(v.ifType), ByType(w.ifType));
    assert InterfacesAt(a.keys) == 0 && InterfacesAt(b.keys) == 0;
  }

  /** So the guard is sound for a device if and only if same-named rows of the device agree on their ifType. */
  lemma GuardSoundExactly(dev: Device)
    ensures SubtreesApart(dev) <==> dev.TypedByName()
  {
    if dev.TypedByName() {
      forall c: seq<Subtree>, i, j, x, y | Accepted(c) && 0 <= i < j < |c| && Compared(c[i], c[j])
        ensures !Clashes(dev, c[i], c[j], x, y)
      {
        if HasKeys(Expand(dev, c[i].keys), x) && HasKeys(Expand(dev, c[j].keys), y) {
          GuardSound(c, dev, i, j, x, y);
        }
      }
    } else {
      var v, w :| v in dev.all && w in dev.all && v.name == w.name && v.ifType != 0 && w.ifType != 0
                  && v.ifType != w.ifType;
      SharedNameSlipsPast(dev, v, w);
      var c := [ByType(v.ifType), ByType(w.ifType)];
      assert Accepted(c) && Compared(c[0], c[1]) && Clashes(dev, c[0], c[1], [v.name], [v.name]);
    }
  }
}
