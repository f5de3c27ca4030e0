/**
 The JSON_IETF container layout: resolved leaves are folded into one nested value per requested instance. A keyed path
 element is a list entry, which repeats its keys as members (section 5.4 of RFC 7951). Nodes are values here; each has
 one owner, so replacing a node on the way back up is what updating it in place does.
 */
module JsonFold {
  import opened Common

  /** Key names and values, in name order. */
  type Keys = seq<(string, string)>

  datatype Elem = Elem(name: string, keys: Keys)

  type Path = seq<Elem>

  /** A leaf's own encoding, or a key spelled as a string. */
  datatype Scalar = Encoded(text: string) | Quoted(text: string)

  datatype Node =
    | Leaf(val: Scalar, key: bool)
    | Container(members: map<string, Node>)
    | List(entries: map<string, Node>, order: seq<string>)

  const EMPTY := Container(map[])

  // ---------------------------------------------------------------------------------------------
  // Entry identity.

  function Joined(keys: Keys): string {
    if keys == [] then "" else Joined(keys[..|keys| - 1]) + keys[|keys| - 1].0 + "\0" + keys[|keys| - 1].1 + "\0"
  }

  /** A single key is identified by its value, several by names and values with NUL separators. */
  function EntryId(keys: Keys): string {
    if |keys| == 1 then keys[0].1 else Joined(keys)
  }

  /** Where a step leads: a member, or one entry of a list. */
  datatype Step = Member(name: string) | Entry(name: string, id: string)

  function StepOf(e: Elem): Step { if e.keys == [] then Member(e.name) else Entry(e.name, EntryId(e.keys)) }

  function Canon(path: Path): seq<Step> {
    if path == [] then [] else [StepOf(path[0])] + Canon(path[1..])
  }

  // ---------------------------------------------------------------------------------------------
  // Building.

  function KeyMembers(keys: Keys): map<string, Node> {
    if keys == [] then map[]
    else KeyMembers(keys[..|keys| - 1])[keys[|keys| - 1].0 := Leaf(Quoted(keys[|keys| - 1].1), true)]
  }

  function SetScalar(n: Node, val: Scalar): Result<Node> {
    match n
    case List(_, _) => Err("a leaf and a container share a path")
    case Container(members) =>
      if members == map[] then Ok(Leaf(val, false)) else Err("a leaf and a container share a path")
    case Leaf(_, key) => if key then Ok(Leaf(val, false)) else Err("two leaves share a path")
  }

  /** Places a value below a node, creating what is missing on the way. */
  function Insert(n: Node, path: Path, val: Scalar): (r: Result<Node>)
    ensures r.Ok? ==> !r.value.List? && r.value != EMPTY
    decreases |path|
  {
    if path == [] then SetScalar(n, val)
    else if !n.Container? then Err("a leaf and a container share a path")
    else if Blocked(n, path[0]) then Err("both a list and a container")
    else
      var r := Insert(ChildOf(n, path[0]), path[1..], val);
      if r.Err? then r
      else
        assert WithChild(n, path[0], r.value).members != map[];
        Ok(WithChild(n, path[0], r.value))
  }

  /** The name is taken by the other kind of node. */
  predicate Blocked(n: Node, e: Elem)
    requires n.Container?
  {
    e.name in n.members && n.members[e.name].List? == (e.keys == [])
  }

  /** The node an element leads to: the existing one, or a new one; a new entry holds its keys. */
  function ChildOf(n: Node, e: Elem): Node
    requires n.Container?
  {
    match Sub(n, StepOf(e))
    case Some(c) => c
    case None => Container(KeyMembers(e.keys))
  }

  function WithChild(n: Node, e: Elem, c: Node): (r: Node)
    requires n.Container? && !Blocked(n, e)
    ensures r.Container? && e.name in r.members
  {
    if e.keys == [] then Container(n.members[e.name := c])
    else
      var id := EntryId(e.keys);
      var l := if e.name in n.members then n.members[e.name] else List(map[], []);
      Container(n.members[e.name := List(l.entries[id := c], if id in l.entries then l.order else l.order + [id])])
  }

  // ---------------------------------------------------------------------------------------------
  // Reading back.

  function Sub(n: Node, s: Step): Option<Node> {
    if !n.Container? || s.name !in n.members then None
    else
      var c := n.members[s.name];
      match s
      case Member(_) => if c.List? then None else Some(c)
      case Entry(_, id) => if c.List? && id in c.entries then Some(c.entries[id]) else None
  }

  function LeafAt(n: Node, p: seq<Step>): (r: Option<Node>)
    ensures r.Some? ==> r.value.Leaf?
    decreases |p|
  {
    if p == [] then if n.Leaf? then Some(n) else None
    else match Sub(n, p[0])
      case None => None
      case Some(c) => LeafAt(c, p[1..])
  }

  /** The key a path would leave at `p`: the name of a key of one of its elements, right below that entry. */
  function KeyAt(path: Path, p: seq<Step>): Option<Scalar>
    decreases |path|
  {
    if path == [] || p == [] || p[0] != StepOf(path[0]) then None
    else if |p| == 2 && p[1].Member? && HasKey(path[0].keys, p[1].name) then Some(KeyValue(path[0].keys, p[1].name))
    else KeyAt(path[1..], p[1..])
  }

  predicate HasKey(keys: Keys, k: string) { exists i :: 0 <= i < |keys| && keys[i].0 == k }

  function KeyValue(keys: Keys, k: string): Scalar
    requires HasKey(keys, k)
  {
    if keys[|keys| - 1].0 == k then Quoted(keys[|keys| - 1].1)
    else
      assert HasKey(keys[..|keys| - 1], k) by {
        var i :| 0 <= i < |keys| && keys[i].0 == k;
        assert keys[..|keys| - 1][i] == keys[i];
      }
      KeyValue(keys[..|keys| - 1], k)
  }

  lemma {:induction false} KeyMembersAre(keys: Keys, k: string)
    ensures k in KeyMembers(keys) <==> HasKey(keys, k)
    ensures HasKey(keys, k) ==> KeyMembers(keys)[k] == Leaf(KeyValue(keys, k), true)
  {
    if keys != [] {
      var front := keys[..|keys| - 1];
      KeyMembersAre(front, k);
      if HasKey(front, k) {
        var i :| 0 <= i < |front| && front[i].0 == k;
        assert keys[i].0 == k;
      }
      if HasKey(keys, k) && keys[|keys| - 1].0 != k {
        var i :| 0 <= i < |keys| && keys[i].0 == k;
        assert front[i].0 == k;
      }
    }
  }

  /** Every existing entry along the path holds its keys, and the nodes below it too. */
  predicate KeysPresent(n: Node, path: Path)
    decreases |path|
  {
    path != [] ==>
      match Sub(n, StepOf(path[0]))
      case None => true
      case Some(c) =>
        && (forall i | 0 <= i < |path[0].keys| :: LeafAt(c, [Member(path[0].keys[i].0)]).Some?)
        && KeysPresent(c, path[1..])
  }

  /** A node replaced below one step: nothing else moves. */
  lemma {:induction false} SubAfter(n: Node, e: Elem, c: Node, s: Step)
    requires n.Container? && !Blocked(n, e) && (e.keys == [] ==> !c.List?)
    ensures Sub(WithChild(n, e, c), s) == if s == StepOf(e) then Some(c) else Sub(n, s)
  {
  }

  lemma {:induction false} FreshLeaves(keys: Keys, p: seq<Step>)
    ensures LeafAt(Container(KeyMembers(keys)), p) ==
            if |p| == 1 && p[0].Member? && HasKey(keys, p[0].name)
            then Some(Leaf(KeyValue(keys, p[0].name), true))
            else None
  {
    if p != [] { KeyMembersAre(keys, p[0].name); }
  }

  /** What one insertion leaves at every path: its value at its own, the keys of new entries, the rest as it was. */
  lemma {:induction false} InsertLeaf(n: Node, path: Path, val: Scalar, p: seq<Step>)
    requires KeysPresent(n, path) && Insert(n, path, val).Ok?
    ensures LeafAt(Insert(n, path, val).value, p) ==
            if p == Canon(path) then Some(Leaf(val, false))
            else if LeafAt(n, p).Some? then LeafAt(n, p)
            else if KeyAt(path, p).Some? then Some(Leaf(KeyAt(path, p).value, true))
            else None
    decreases |path|
  {
    if path != [] {
      var (e, rest) := (path[0], path[1..]);
      var s := StepOf(e);
      var c := ChildOf(n, e);
      var done := Insert(c, rest, val).value;
      if p != [] { SubAfter(n, e, done, p[0]); }
      if p != [] && p[0] == s {
        hide EntryId, SetScalar, WithChild;
        var q := p[1..];
        ChildKeysPresent(n, path);
        InsertLeaf(c, rest, val, q);
        assert p == Canon(path) <==> q == Canon(rest);
        if Sub(n, s).None? { FreshLeaves(e.keys, q); } else { KeyIsThere(n, path, q); }
      }
    }
  }

  /** A key of an existing entry is a leaf right below it. */
  lemma {:induction false} KeyIsThere(n: Node, path: Path, q: seq<Step>)
    requires path != [] && KeysPresent(n, path) && Sub(n, StepOf(path[0])).Some?
    ensures |q| == 1 && q[0].Member? && HasKey(path[0].keys, q[0].name) ==>
              LeafAt(Sub(n, StepOf(path[0])).value, q).Some?
  {
    var e := path[0];
    if |q| == 1 && q[0].Member? && HasKey(e.keys, q[0].name) {
      var i :| 0 <= i < |e.keys| && e.keys[i].0 == q[0].name;
      assert q == [Member(e.keys[i].0)];
    }
  }

  lemma {:induction false} ChildKeysPresent(n: Node, path: Path)
    requires path != [] && n.Container? && KeysPresent(n, path)
    ensures KeysPresent(ChildOf(n, path[0]), path[1..])
  {
    if Sub(n, StepOf(path[0])).None? { FreshKeysPresent(path[0].keys, path[1..]); }
  }

  /** Only key leaves stand below a new entry, so no entry exists further along. */
  lemma {:induction false} FreshKeysPresent(keys: Keys, path: Path)
    ensures KeysPresent(Container(KeyMembers(keys)), path)
  {
    if path != [] {
      var s := StepOf(path[0]);
      KeyMembersAre(keys, s.name);
      if Sub(Container(KeyMembers(keys)), s).Some? {
        var c := Sub(Container(KeyMembers(keys)), s).value;
        if path[1..] != [] { assert Sub(c, StepOf(path[1..][0])).None?; }
      }
    }
  }

  // ---------------------------------------------------------------------------------------------
  // When an insertion fails.

  /** No dead ends: every node but the root leads to a leaf. */
  predicate Alive(n: Node) {
    match n
    case Leaf(_, _) => true
    case Container(members) => forall k | k in members :: members[k] != EMPTY && Alive(members[k])
    case List(entries, _) =>
      entries != map[] && forall id | id in entries ::
        entries[id].Container? && entries[id] != EMPTY && Alive(entries[id])
  }

  lemma {:induction false} AliveLeaf(n: Node) returns (p: seq<Step>)
    requires Alive(n) && n != EMPTY && !n.List?
    ensures LeafAt(n, p).Some?
    ensures n.Container? ==> p != []
    decreases n
  {
    if n.Leaf? { return []; }
    var k :| k in n.members;
    p := BelowMember(n, k);
  }

  lemma {:induction false} BelowMember(n: Node, k: string) returns (p: seq<Step>)
    requires n.Container? && Alive(n) && k in n.members
    ensures p != [] && LeafAt(n, p).Some? && p[0].name == k && p[0].Entry? == n.members[k].List?
    decreases n, 0
  {
    var c := n.members[k];
    if c.List? {
      var id :| id in c.entries;
      var q := AliveLeaf(c.entries[id]);
      p := [Entry(k, id)] + q;
      assert p[1..] == q;
    } else {
      var q := AliveLeaf(c);
      p := [Member(k)] + q;
      assert p[1..] == q;
    }
  }

  /** Two leaf paths no tree can hold: one runs into the other, or they first part over one name of two kinds. */
  predicate Conflicts(a: seq<Step>, b: seq<Step>) {
    if a == [] || b == [] then a != b
    else if a[0] == b[0] then Conflicts(a[1..], b[1..])
    else a[0].name == b[0].name && a[0].Entry? != b[0].Entry?
  }

  /** A leaf already in the tree, or a key the path itself implies, that the new leaf cannot stand beside. */
  predicate Blocks(n: Node, path: Path, l: seq<Step>) {
    || ((LeafAt(n, l).Some? || KeyAt(path, l).Some?) && Conflicts(l, Canon(path)))
    || (l == Canon(path) && LeafAt(n, l).Some? && !LeafAt(n, l).value.key)
  }

  lemma {:induction false} BlocksBelow(n: Node, path: Path, q: seq<Step>)
    requires path != [] && n.Container? && !Blocked(n, path[0]) && KeysPresent(n, path)
    ensures Blocks(n, path, [StepOf(path[0])] + q) <==> Blocks(ChildOf(n, path[0]), path[1..], q)
  {
    var e := path[0];
    var s := StepOf(e);
    var l := [s] + q;
    assert l[1..] == q && Canon(path)[1..] == Canon(path[1..]) && Canon(path)[0] == s;
    assert Conflicts(l, Canon(path)) <==> Conflicts(q, Canon(path[1..]));
    var c := ChildOf(n, e);
    if Sub(n, s).None? { FreshLeaves(e.keys, q); } else { KeyIsThere(n, path, q); }
  }

  /** An insertion fails exactly when some leaf stands in its way; it never overwrites one. */
  lemma {:induction false} InsertFails(n: Node, path: Path, val: Scalar)
    requires Alive(n) && !n.List? && KeysPresent(n, path)
    ensures Insert(n, path, val).Err? <==> exists l :: Blocks(n, path, l)
    decreases |path|
  {
    if path == [] {
      if n.Container? && n != EMPTY {
        var p := AliveLeaf(n);
        assert Blocks(n, path, p);
      } else if n.Leaf? && !n.key {
        assert Blocks(n, path, []);
      }
    } else if n.Leaf? {
      assert Blocks(n, path, []);
    } else if Blocked(n, path[0]) {
      var p := BelowMember(n, path[0].name);
      assert Conflicts(p, Canon(path));
      assert Blocks(n, path, p);
    } else {
      ChildKeysPresent(n, path);
      ChildAlive(n, path[0]);
      InsertFails(ChildOf(n, path[0]), path[1..], val);
      BlockedBelow(n, path);
    }
  }

  /** Past a free step, what stands in the way stands in the way below it. */
  lemma {:induction false} BlockedBelow(n: Node, path: Path)
    requires path != [] && n.Container? && !Blocked(n, path[0])
    requires KeysPresent(n, path)
    ensures (exists l :: Blocks(n, path, l)) <==> exists q :: Blocks(ChildOf(n, path[0]), path[1..], q)
  {
    var (s, c) := (StepOf(path[0]), ChildOf(n, path[0]));
    if l :| Blocks(n, path, l) {
      BlocksBelow(n, path, l[1..]);
      assert [s] + l[1..] == l;
      assert Blocks(c, path[1..], l[1..]);
    }
    if q :| Blocks(c, path[1..], q) {
      BlocksBelow(n, path, q);
      assert Blocks(n, path, [s] + q);
    }
  }

  lemma {:induction false} ChildAlive(n: Node, e: Elem)
    requires n.Container? && Alive(n) && !Blocked(n, e)
    ensures Alive(ChildOf(n, e)) && !ChildOf(n, e).List?
  {
    if Sub(n, StepOf(e)).None? {
      forall k | k in KeyMembers(e.keys) ensures KeyMembers(e.keys)[k] != EMPTY && Alive(KeyMembers(e.keys)[k]) {
        KeyMembersAre(e.keys, k);
      }
    }
  }

  lemma {:induction false} InsertAlive(n: Node, path: Path, val: Scalar)
    requires Alive(n) && !n.List? && Insert(n, path, val).Ok?
    ensures Alive(Insert(n, path, val).value)
    decreases |path|
  {
    if path != [] {
      hide EntryId, KeyMembers, SetScalar;
      var e := path[0];
      ChildAlive(n, e);
      var c := ChildOf(n, e);
      InsertAlive(c, path[1..], val);
      if e.keys != [] { EntryIsContainer(n, e); }
      EntryStays(c, path[1..], val);
      WithAlive(n, e, Insert(c, path[1..], val).value);
    }
  }

  /** An insertion into a container that already holds something leaves a container. */
  lemma {:induction false} EntryStays(c: Node, path: Path, val: Scalar)
    requires Insert(c, path, val).Ok?
    ensures c.Container? && c != EMPTY ==> Insert(c, path, val).value.Container?
  {
  }

  lemma {:induction false} WithAlive(n: Node, e: Elem, c: Node)
    requires n.Container? && !Blocked(n, e) && Alive(n) && Alive(c) && c != EMPTY && (e.keys != [] ==> c.Container?)
    ensures Alive(WithChild(n, e, c))
  {
    hide EntryId;
  }

  lemma {:induction false} EntryIsContainer(n: Node, e: Elem)
    requires n.Container? && Alive(n) && !Blocked(n, e) && e.keys != []
    ensures ChildOf(n, e).Container? && ChildOf(n, e) != EMPTY
  {
    if Sub(n, StepOf(e)).None? { KeyMembersAre(e.keys, e.keys[0].0); }
  }

  // ---------------------------------------------------------------------------------------------
  // List entries keep the order they were first seen in.

  /** Every list names each of its entries once. */
  ghost predicate Listed(n: Node) {
    match n
    case Leaf(_, _) => true
    case Container(members) => forall k | k in members :: Listed(members[k])
    case List(entries, order) =>
      && (forall id :: id in entries <==> id in order)
      && (forall i, j | 0 <= i < j < |order| :: order[i] != order[j])
      && (forall id | id in entries :: Listed(entries[id]))
  }

  /** The order of the list called `name` below a path, when there is one. */
  function OrderAt(n: Node, p: seq<Step>, name: string): Option<seq<string>>
    decreases |p|
  {
    if p == [] then
      if n.Container? && name in n.members && n.members[name].List? then Some(n.members[name].order) else None
    else match Sub(n, p[0])
      case None => None
      case Some(c) => OrderAt(c, p[1..], name)
  }

  lemma {:induction false} InsertListed(n: Node, path: Path, val: Scalar)
    requires Listed(n) && !n.List? && Insert(n, path, val).Ok?
    ensures Listed(Insert(n, path, val).value)
    decreases |path|
  {
    if path != [] {
      var (e, rest) := (path[0], path[1..]);
      var c := ChildOf(n, e);
      ChildListed(n, e);
      assert !c.List?;
      InsertListed(c, rest, val);
    }
  }

  lemma {:induction false} ChildListed(n: Node, e: Elem)
    requires n.Container? && Listed(n)
    ensures Listed(ChildOf(n, e))
  {
    if Sub(n, StepOf(e)).None? {
      forall k | k in KeyMembers(e.keys) ensures Listed(KeyMembers(e.keys)[k]) { KeyMembersAre(e.keys, k); }
    }
  }

  /** An insertion may add one entry at the end of a list; entries already there keep their places. */
  lemma {:induction false} OrderKept(n: Node, path: Path, val: Scalar, p: seq<Step>, name: string)
    requires Insert(n, path, val).Ok? && OrderAt(n, p, name).Some?
    ensures var now := OrderAt(Insert(n, path, val).value, p, name);
            now.Some? && OrderAt(n, p, name).value <= now.value && |now.value| <= |OrderAt(n, p, name).value| + 1
    decreases |path|
  {
    if path != [] {
      var (e, c) := (path[0], ChildOf(n, path[0]));
      var done := Insert(c, path[1..], val).value;
      if p != [] {
        SubAfter(n, e, done, p[0]);
        if p[0] == StepOf(e) { OrderKept(c, path[1..], val, p[1..], name); }
      }
    }
  }

  // ---------------------------------------------------------------------------------------------
  // Whole folds.

  datatype Update = Update(path: Path, val: Scalar)

  function Fold(us: seq<Update>): (r: Result<Node>)
    ensures r.Ok? ==> !r.value.List?
  {
    if us == [] then Ok(EMPTY)
    else
      var front := Fold(us[..|us| - 1]);
      if front.Err? then front else Insert(front.value, us[|us| - 1].path, us[|us| - 1].val)
  }

  /** Entry ids are faithful: a list and an id stand for one set of keys, `dict`'s. */
  ghost predicate Faithful(path: Path, dict: (string, string) -> Keys) {
    forall i | 0 <= i < |path| && path[i].keys != [] :: dict(path[i].name, EntryId(path[i].keys)) == path[i].keys
  }

  /** Every entry holds the keys its id stands for. */
  ghost predicate Keyed(n: Node, dict: (string, string) -> Keys) {
    match n
    case Leaf(_, _) => true
    case List(_, _) => true
    case Container(members) =>
      && (forall k | k in members :: Keyed(members[k], dict))
      && (forall k, id | k in members && members[k].List? && id in members[k].entries ::
            var entry := members[k].entries[id];
            !entry.List? && Keyed(entry, dict) && HoldsKeys(entry, dict(k, id)))
  }

  predicate HoldsKeys(n: Node, keys: Keys) {
    forall i | 0 <= i < |keys| :: LeafAt(n, [Member(keys[i].0)]).Some?
  }

  lemma {:induction false} KeyedPresent(n: Node, path: Path, dict: (string, string) -> Keys)
    requires Keyed(n, dict) && Faithful(path, dict)
    ensures KeysPresent(n, path)
    decreases |path|
  {
    if path != [] && Sub(n, StepOf(path[0])).Some? {
      var c := Sub(n, StepOf(path[0])).value;
      KeyedPresent(c, path[1..], dict);
    }
  }

  lemma {:induction false} InsertKeyed(n: Node, path: Path, val: Scalar, dict: (string, string) -> Keys)
    requires Keyed(n, dict) && Faithful(path, dict) && !n.List? && Insert(n, path, val).Ok?
    ensures Keyed(Insert(n, path, val).value, dict)
    decreases |path|
  {
    if path != [] {
      var (e, rest) := (path[0], path[1..]);
      var c := ChildOf(n, e);
      var done := Insert(c, rest, val).value;
      ChildKeyed(n, e, dict);
      InsertKeyed(c, rest, val, dict);
      if e.keys != [] { KeysStay(n, path, val, dict); }
    }
  }

  lemma {:induction false} ChildKeyed(n: Node, e: Elem, dict: (string, string) -> Keys)
    requires n.Container? && Keyed(n, dict) && !Blocked(n, e)
    ensures Keyed(ChildOf(n, e), dict) && !ChildOf(n, e).List?
  {
    if Sub(n, StepOf(e)).None? {
      forall k | k in KeyMembers(e.keys) ensures KeyMembers(e.keys)[k].Leaf? { KeyMembersAre(e.keys, k); }
    }
  }

  /** An insertion below an entry leaves its keys in place, restated or not. */
  lemma {:induction false} KeysStay(n: Node, path: Path, val: Scalar, dict: (string, string) -> Keys)
    requires path != [] && path[0].keys != [] && n.Container? && !Blocked(n, path[0])
    requires Keyed(n, dict) && Faithful(path, dict) && Insert(ChildOf(n, path[0]), path[1..], val).Ok?
    ensures HoldsKeys(Insert(ChildOf(n, path[0]), path[1..], val).value, path[0].keys)
  {
    var (e, rest) := (path[0], path[1..]);
    var c := ChildOf(n, e);
    ChildKeyed(n, e, dict);
    KeyedPresent(c, rest, dict);
    forall i | 0 <= i < |e.keys| ensures LeafAt(Insert(c, rest, val).value, [Member(e.keys[i].0)]).Some? {
      var p := [Member(e.keys[i].0)];
      InsertLeaf(c, rest, val, p);
      if Sub(n, StepOf(e)).None? { FreshLeaves(e.keys, p); }
    }
  }

  /** The tree of a successful fold is sound: nothing dead, every entry with its keys. */
  lemma {:induction false} FoldSound(us: seq<Update>, dict: (string, string) -> Keys)
    requires Fold(us).Ok? && forall i | 0 <= i < |us| :: Faithful(us[i].path, dict)
    ensures Alive(Fold(us).value) && Keyed(Fold(us).value, dict)
  {
    if us != [] {
      var (front, u) := (us[..|us| - 1], us[|us| - 1]);
      FoldSound(front, dict);
      InsertAlive(Fold(front).value, u.path, u.val);
      InsertKeyed(Fold(front).value, u.path, u.val, dict);
    }
  }

  lemma {:induction false} FoldListed(us: seq<Update>)
    requires Fold(us).Ok?
    ensures Listed(Fold(us).value)
  {
    if us != [] {
      FoldListed(us[..|us| - 1]);
      InsertListed(Fold(us[..|us| - 1]).value, us[|us| - 1].path, us[|us| - 1].val);
    }
  }

  // ---------------------------------------------------------------------------------------------
  // The order of list entries.

  /** The entry of the list `name` right below `p` that a path runs through. */
  function Mentioned(path: Path, p: seq<Step>, name: string): Option<string> {
    var c := Canon(path);
    if |p| < |c| && c[..|p|] == p && c[|p|].Entry? && c[|p|].name == name then Some(c[|p|].id) else None
  }

  /** The entries the updates mention, each where it is mentioned first. */
  function FirstMentions(us: seq<Update>, p: seq<Step>, name: string): seq<string> {
    if us == [] then []
    else Noted(FirstMentions(us[..|us| - 1], p, name), Mentioned(us[|us| - 1].path, p, name))
  }

  function Noted(order: seq<string>, id: Option<string>): seq<string> {
    if id.Some? && id.value !in order then order + [id.value] else order
  }

  function ListOrder(n: Node, p: seq<Step>, name: string): seq<string> {
    if OrderAt(n, p, name).Some? then OrderAt(n, p, name).value else []
  }

  lemma {:induction false} FreshOrder(keys: Keys, p: seq<Step>, name: string)
    ensures ListOrder(Container(KeyMembers(keys)), p, name) == []
  {
    var n := Container(KeyMembers(keys));
    KeyMembersAre(keys, if p == [] then name else p[0].name);
    if p != [] && Sub(n, p[0]).Some? { assert OrderAt(Sub(n, p[0]).value, p[1..], name) == None; }
  }

  lemma {:induction false} MentionedBelow(path: Path, p: seq<Step>, name: string)
    requires path != [] && p != []
    ensures Mentioned(path, p, name) ==
            if p[0] == StepOf(path[0]) then Mentioned(path[1..], p[1..], name) else None
  {
    hide StepOf;
    var (c, rest) := (Canon(path), Canon(path[1..]));
    assert c == [StepOf(path[0])] + rest;
    if |p| < |c| {
      assert c[..|p|] == [StepOf(path[0])] + rest[..|p| - 1] && p == [p[0]] + p[1..];
      assert c[..|p|] == p <==> p[0] == StepOf(path[0]) && rest[..|p| - 1] == p[1..] by {
        if c[..|p|] == p { assert c[..|p|][1..] == rest[..|p| - 1]; }
      }
    }
  }

  lemma {:induction false} InsertOrder(n: Node, path: Path, val: Scalar, p: seq<Step>, name: string)
    requires Listed(n) && !n.List? && Insert(n, path, val).Ok?
    ensures ListOrder(Insert(n, path, val).value, p, name) == Noted(ListOrder(n, p, name), Mentioned(path, p, name))
    decreases |path|
  {
    if path != [] {
      var (e, c) := (path[0], ChildOf(n, path[0]));
      var done := Insert(c, path[1..], val).value;
      if p == [] {
        assert Canon(path)[..0] == [] && Canon(path)[0] == StepOf(e);
      } else {
        SubAfter(n, e, done, p[0]);
        MentionedBelow(path, p, name);
        if p[0] == StepOf(e) {
          ChildListed(n, e);
          assert !c.List?;
          InsertOrder(c, path[1..], val, p[1..], name);
          if Sub(n, p[0]).None? { FreshOrder(e.keys, p[1..], name); }
        }
      }
    }
  }

  /** In every folded value the entries of every list stand in the order the updates first mention them. */
  lemma {:induction false} FoldOrder(us: seq<Update>, p: seq<Step>, name: string)
    requires Fold(us).Ok?
    ensures ListOrder(Fold(us).value, p, name) == FirstMentions(us, p, name)
  {
    hide Mentioned, Insert, Listed;
    if us == [] {
      FreshOrder([], p, name);
    } else {
      FoldOrder(us[..|us| - 1], p, name);
      FoldListed(us[..|us| - 1]);
      InsertOrder(Fold(us[..|us| - 1]).value, us[|us| - 1].path, us[|us| - 1].val, p, name);
    }
  }

  /** The leaf that should stand at `p`: the update for that path, else a key some update's path implies. */
  function Wanted(us: seq<Update>, p: seq<Step>): (r: Option<Node>)
    ensures r.Some? ==> r.value.Leaf?
  {
    if us == [] then None
    else
      var (before, u) := (Wanted(us[..|us| - 1], p), us[|us| - 1]);
      if p == Canon(u.path) then Some(Leaf(u.val, false))
      else if before.Some? then before
      else if KeyAt(u.path, p).Some? then Some(Leaf(KeyAt(u.path, p).value, true))
      else None
  }

  /** Reading a successful fold back gives exactly the updates and the keys not restated. */
  lemma {:induction false} FoldReadsBack(us: seq<Update>, dict: (string, string) -> Keys, p: seq<Step>)
    requires Fold(us).Ok? && forall i | 0 <= i < |us| :: Faithful(us[i].path, dict)
    ensures LeafAt(Fold(us).value, p) == Wanted(us, p)
  {
    if us != [] {
      var (front, u) := (us[..|us| - 1], us[|us| - 1]);
      FoldReadsBack(front, dict, p);
      FoldSound(front, dict);
      KeyedPresent(Fold(front).value, u.path, dict);
      InsertLeaf(Fold(front).value, u.path, u.val, p);
    }
  }

  /** An update meets an earlier leaf, or one of its own keys, that it cannot stand beside. */
  ghost predicate Clash(us: seq<Update>, u: Update) {
    exists l ::
      || ((Wanted(us, l).Some? || KeyAt(u.path, l).Some?) && Conflicts(l, Canon(u.path)))
      || (l == Canon(u.path) && exists i :: 0 <= i < |us| && Canon(us[i].path) == l)
  }

  /** A leaf that is not a key is some update's. */
  lemma {:induction false} WantedUpdates(us: seq<Update>, p: seq<Step>)
    ensures (exists i :: 0 <= i < |us| && Canon(us[i].path) == p) <==> Wanted(us, p).Some? && !Wanted(us, p).value.key
  {
    if us != [] {
      var front := us[..|us| - 1];
      WantedUpdates(front, p);
      if i :| 0 <= i < |front| && Canon(front[i].path) == p { assert us[i] == front[i]; }
      if i :| 0 <= i < |us| && Canon(us[i].path) == p && i < |front| { assert us[i] == front[i]; }
    }
  }

  lemma {:induction false} OneMoreFails(us: seq<Update>, u: Update, dict: (string, string) -> Keys)
    requires Fold(us).Ok? && Faithful(u.path, dict) && forall i | 0 <= i < |us| :: Faithful(us[i].path, dict)
    ensures Insert(Fold(us).value, u.path, u.val).Err? <==> Clash(us, u)
  {
    hide Fold, Wanted, LeafAt, KeyAt, Canon, Conflicts, Insert, Faithful, Keyed, Alive;
    var n := Fold(us).value;
    FoldSound(us, dict);
    KeyedPresent(n, u.path, dict);
    InsertFails(n, u.path, u.val);
    forall l
      ensures Blocks(n, u.path, l) <==>
              || ((Wanted(us, l).Some? || KeyAt(u.path, l).Some?) && Conflicts(l, Canon(u.path)))
              || (l == Canon(u.path) && exists i :: 0 <= i < |us| && Canon(us[i].path) == l)
    {
      FoldReadsBack(us, dict, l);
      WantedUpdates(us, l);
    }
  }

  /** The fold fails exactly when some update clashes with what came before it. */
  lemma {:induction false} FoldFails(us: seq<Update>, dict: (string, string) -> Keys)
    requires forall i | 0 <= i < |us| :: Faithful(us[i].path, dict)
    ensures Fold(us).Err? <==> exists i :: 0 <= i < |us| && Clash(us[..i], us[i])
  {
    if us != [] {
      var (front, u) := (us[..|us| - 1], us[|us| - 1]);
      FoldFails(front, dict);
      assert forall i | 0 <= i < |front| :: us[..i] == front[..i] && us[i] == front[i];
      if Fold(front).Ok? { OneMoreFails(front, u, dict); }
    }
  }

  // ---------------------------------------------------------------------------------------------
  // Faithful ids.

  predicate NulFree(v: string) { forall i | 0 <= i < |v| :: v[i] != '\0' }

  function Names(keys: Keys): seq<string> { seq(|keys|, i requires 0 <= i < |keys| => keys[i].0) }

  /** The keys one list takes: these names, with values free of the separator. */
  predicate KeysFor(names: seq<string>, keys: Keys) {
    Names(keys) == names && forall i | 0 <= i < |keys| :: NulFree(keys[i].1)
  }

  lemma {:induction false} LastField(x: string, v: string, y: string, w: string)
    requires x + "\0" + v == y + "\0" + w && NulFree(v) && NulFree(w)
    ensures x == y && v == w
  {
    var (a, b) := (x + "\0" + v, y + "\0" + w);
    assert a[|x|] == '\0' && b[|y|] == '\0';
    assert forall j | |x| < j < |a| :: a[j] == v[j - |x| - 1];
    assert forall j | |y| < j < |b| :: b[j] == w[j - |y| - 1];
    assert |x| == |y|;
    assert a[..|x|] == x && b[..|y|] == y && a[|x| + 1..] == v && b[|y| + 1..] == w;
  }

  lemma {:induction false} Strip(x: string, n: string, y: string)
    requires x + n == y + n
    ensures x == y
  {
    assert (x + n)[..|x|] == x && (y + n)[..|y|] == y;
  }

  lemma {:induction false} JoinedInjective(a: Keys, b: Keys)
    requires KeysFor(Names(a), a) && KeysFor(Names(a), b) && Joined(a) == Joined(b)
    ensures a == b
  {
    if a != [] {
      var n := |a| - 1;
      assert |b| == |Names(b)| == |a| && Names(a)[n] == Names(b)[n];
      var (fa, fb, name) := (a[..n], b[..n], a[n].0);
      Strip(Joined(fa) + name + "\0" + a[n].1, "\0", Joined(fb) + name + "\0" + b[n].1);
      LastField(Joined(fa) + name, a[n].1, Joined(fb) + name, b[n].1);
      Strip(Joined(fa), name, Joined(fb));
      assert Names(fa) == Names(a)[..n] && Names(fb) == Names(b)[..n];
      JoinedInjective(fa, fb);
      assert a == fa + [a[n]] && b == fb + [b[n]];
    }
  }

  /** Within one list, equal ids mean equal keys. */
  lemma {:induction false} EntryIdInjective(names: seq<string>, a: Keys, b: Keys)
    requires KeysFor(names, a) && KeysFor(names, b) && EntryId(a) == EntryId(b)
    ensures a == b
  {
    assert |a| == |Names(a)| && |b| == |Names(b)|;
    if |a| == 1 {
      assert Names(a)[0] == Names(b)[0];
      assert a == [a[0]] && b == [b[0]];
    } else {
      JoinedInjective(a, b);
    }
  }

  ghost function KeysOf(names: seq<string>, id: string): Keys {
    if keys :| KeysFor(names, keys) && EntryId(keys) == id then keys else []
  }

  /** Paths drawn from one schema, each list with its own key names, have faithful ids. */
  lemma {:induction false} SchemaIsFaithful(path: Path, schema: string -> seq<string>)
    requires forall i | 0 <= i < |path| && path[i].keys != [] :: KeysFor(schema(path[i].name), path[i].keys)
    ensures Faithful(path, (name, id) => KeysOf(schema(name), id))
  {
    forall i | 0 <= i < |path| && path[i].keys != []
      ensures KeysOf(schema(path[i].name), EntryId(path[i].keys)) == path[i].keys
    {
      var (names, keys) := (schema(path[i].name), path[i].keys);
      EntryIdInjective(names, keys, KeysOf(names, EntryId(keys)));
    }
  }

  // ---------------------------------------------------------------------------------------------
  // A Get: one value per concrete instance of the request path.

  datatype Notification = Notification(origin: string, prefix: Path, updates: seq<Update>)

  /** A concrete instance: origin and steps. */
  datatype Instance = Instance(origin: string, steps: seq<Step>)

  datatype Item = Item(at: Instance, below: Update)

  /** A key's value, empty when the element does not carry it. */
  function ValueOf(keys: Keys, k: string): string {
    if keys == [] then "" else if keys[0].0 == k then keys[0].1 else ValueOf(keys[1..], k)
  }

  predicate ElemMatches(q: Elem, c: Elem) {
    && q.name == c.name
    && forall i | 0 <= i < |q.keys| :: q.keys[i].1 == "*" || ValueOf(c.keys, q.keys[i].0) in {"*", q.keys[i].1}
  }

  predicate Covers(q: Path, full: Path) {
    |q| <= |full| && forall i | 0 <= i < |q| :: ElemMatches(q[i], full[i])
  }

  /** Where one leaf goes: not at all when it lies outside the request. */
  function Place(q: Path, n: Notification, u: Update): Option<Item> {
    var full := n.prefix + u.path;
    if |q| <= |n.prefix| || Covers(q, full) then
      Some(Item(Instance(n.origin, Canon(full[..|q|])), Update(full[|q|..], u.val)))
    else None
  }

  function PlaceAll(q: Path, n: Notification, us: seq<Update>): seq<Item> {
    if us == [] then []
    else
      var (front, item) := (PlaceAll(q, n, us[..|us| - 1]), Place(q, n, us[|us| - 1]));
      if item.Some? then front + [item.value] else front
  }

  function Items(q: Path, ns: seq<Notification>): seq<Item> {
    if ns == [] then []
    else Items(q, ns[..|ns| - 1]) + PlaceAll(q, ns[|ns| - 1], ns[|ns| - 1].updates)
  }

  /** The updates of one instance, in order. */
  function Of(items: seq<Item>, at: Instance): seq<Update> {
    if items == [] then []
    else
      var (front, last) := (Of(items[..|items| - 1], at), items[|items| - 1]);
      if last.at == at then front + [last.below] else front
  }

  /** The instances, by first appearance. */
  function Firsts(items: seq<Item>): seq<Instance> {
    if items == [] then []
    else
      var (front, at) := (Firsts(items[..|items| - 1]), items[|items| - 1].at);
      if at in front then front else front + [at]
  }

  /** Every instance so far holds the fold of its own updates, and of nothing else. */
  ghost predicate Grouped(items: seq<Item>, roots: map<Instance, Node>, order: seq<Instance>) {
    && order == Firsts(items)
    && (forall at :: at in roots <==> at in order)
    && (forall at :: at !in roots ==> Of(items, at) == [])
    && (forall at | at in roots :: Fold(Of(items, at)) == Ok(roots[at]))
  }

  lemma {:induction false} OfSnoc(items: seq<Item>, i: Item, at: Instance)
    ensures Of(items + [i], at) == if i.at == at then Of(items, at) + [i.below] else Of(items, at)
    ensures Firsts(items + [i]) == if i.at in Firsts(items) then Firsts(items) else Firsts(items) + [i.at]
  {
    assert (items + [i])[..|items|] == items;
  }

  lemma {:induction false} FoldSnoc(us: seq<Update>, u: Update)
    ensures Fold(us + [u]) == if Fold(us).Err? then Fold(us) else Insert(Fold(us).value, u.path, u.val)
  {
    assert (us + [u])[..|us|] == us;
  }

  lemma {:induction false} ErrStays(a: seq<Item>, b: seq<Item>, at: Instance)
    requires Fold(Of(a, at)).Err?
    ensures Fold(Of(a + b, at)).Err?
    decreases |b|
  {
    if b == [] {
      assert a + b == a;
    } else {
      ErrStays(a, b[..|b| - 1], at);
      assert a + b == (a + b[..|b| - 1]) + [b[|b| - 1]];
      OfSnoc(a + b[..|b| - 1], b[|b| - 1], at);
      FoldSnoc(Of(a + b[..|b| - 1], at), b[|b| - 1].below);
    }
  }

  lemma {:induction false} Regroup(items: seq<Item>, i: Item, roots: map<Instance, Node>, order: seq<Instance>)
    requires Grouped(items, roots, order)
    ensures var root := if i.at in roots then roots[i.at] else EMPTY;
            var r := Insert(root, i.below.path, i.below.val);
            && Fold(Of(items + [i], i.at)) == r
            && (r.Ok? ==> Grouped(items + [i], roots[i.at := r.value], if i.at in roots then order else order + [i.at]))
  {
    hide Insert, Fold, Of, Firsts;
    var root := if i.at in roots then roots[i.at] else EMPTY;
    FoldNothing();
    FoldSnoc(Of(items, i.at), i.below);
    OfSnoc(items, i, i.at);
    var r := Insert(root, i.below.path, i.below.val);
    if r.Ok? {
      forall at ensures Of(items + [i], at) == if i.at == at then Of(items, at) + [i.below] else Of(items, at) {
        OfSnoc(items, i, at);
      }
    }
  }

  lemma {:induction false} FoldNothing()
    ensures Fold([]) == Ok(EMPTY)
  {
  }

  function Placed(q: Path, n: Notification, u: Update): seq<Item> {
    var item := Place(q, n, u);
    if item.Some? then [item.value] else []
  }

  lemma {:induction false} PlacePrefix(q: Path, n: Notification, us: seq<Update>, k: nat)
    requires k < |us|
    ensures PlaceAll(q, n, us[..k + 1]) == PlaceAll(q, n, us[..k]) + Placed(q, n, us[k])
    ensures PlaceAll(q, n, us[..k + 1]) <= PlaceAll(q, n, us)
    decreases |us|
  {
    assert us[..k + 1][..k] == us[..k];
    if k + 1 == |us| {
      assert us[..k + 1] == us;
    } else {
      var front := us[..|us| - 1];
      PlacePrefix(q, n, front, k);
      assert front[..k + 1] == us[..k + 1] && front[..k] == us[..k];
    }
  }

  lemma {:induction false} ItemsPrefix(q: Path, ns: seq<Notification>, k: nat)
    requires k < |ns|
    ensures Items(q, ns[..k + 1]) == Items(q, ns[..k]) + PlaceAll(q, ns[k], ns[k].updates)
    ensures Items(q, ns[..k + 1]) <= Items(q, ns)
    decreases |ns|
  {
    assert ns[..k + 1][..k] == ns[..k];
    if k + 1 == |ns| {
      assert ns[..k + 1] == ns;
    } else {
      var front := ns[..|ns| - 1];
      ItemsPrefix(q, front, k);
      assert front[..k + 1] == ns[..k + 1] && front[..k] == ns[..k];
    }
  }

  lemma {:induction false} ErrSpreads(a: seq<Item>, whole: seq<Item>, at: Instance)
    requires a <= whole && Fold(Of(a, at)).Err?
    ensures Fold(Of(whole, at)).Err?
  {
    assert whole == a + whole[|a|..];
    ErrStays(a, whole[|a|..], at);
  }

  /** One leaf into its instance. */
  method FoldOne(q: Path, n: Notification, u: Update, roots0: map<Instance, Node>, order0: seq<Instance>,
                 ghost before: seq<Item>)
    returns (ok: bool, roots: map<Instance, Node>, order: seq<Instance>, ghost bad: Instance)
    requires Grouped(before, roots0, order0)
    ensures ok ==> Grouped(before + Placed(q, n, u), roots, order)
    ensures !ok ==> Fold(Of(before + Placed(q, n, u), bad)).Err?
  {
    hide Insert, Fold, Of, Firsts, Place;
    ok, roots, order, bad := true, roots0, order0, Instance("", []);
    var placed := Place(q, n, u);
    if placed.None? {
      assert before + Placed(q, n, u) == before;
      return;
    }
    var i := placed.value;
    Regroup(before, i, roots, order);
    var r := Insert(if i.at in roots then roots[i.at] else EMPTY, i.below.path, i.below.val);
    if r.Err? {
      ok, bad := false, i.at;
      return;
    }
    order := if i.at in roots then order else order + [i.at];
    roots := roots[i.at := r.value];
  }

  /** Adds one notification's leaves to the instances they belong to. */
  method FoldNotification(q: Path, n: Notification, roots0: map<Instance, Node>, order0: seq<Instance>,
                          ghost before: seq<Item>)
    returns (ok: bool, roots: map<Instance, Node>, order: seq<Instance>, ghost bad: Instance)
    requires Grouped(before, roots0, order0)
    ensures ok ==> Grouped(before + PlaceAll(q, n, n.updates), roots, order)
    ensures !ok ==> Fold(Of(before + PlaceAll(q, n, n.updates), bad)).Err?
  {
    hide Fold, Of, Firsts, Placed, Grouped, Place;
    ok, roots, order, bad := true, roots0, order0, Instance("", []);
    ghost var items := before;
    for k := 0 to |n.updates|
      invariant items == before + PlaceAll(q, n, n.updates[..k])
      invariant ok && Grouped(items, roots, order)
    {
      PlacePrefix(q, n, n.updates, k);
      ok, roots, order, bad := FoldOne(q, n, n.updates[k], roots, order, items);
      items := items + Placed(q, n, n.updates[k]);
      if !ok {
        ErrSpreads(items, before + PlaceAll(q, n, n.updates), bad);
        return;
      }
    }
    assert n.updates[..|n.updates|] == n.updates;
  }

  type Answer = seq<(Instance, Node)>

  /** Each instance, by first appearance, with the fold of its own leaves. */
  ghost predicate Answers(q: Path, ns: seq<Notification>, out: Answer) {
    var (items, order) := (Items(q, ns), Firsts(Items(q, ns)));
    && |out| == |order|
    && forall i | 0 <= i < |order| :: out[i].0 == order[i] && Fold(Of(items, order[i])) == Ok(out[i].1)
  }

  /**
   The answer to a Get: each instance, in resolver order, with the fold of exactly the leaves it covers; or an error.
   */
  method FoldGet(q: Path, ns: seq<Notification>) returns (out: Result<Answer>)
    ensures out.Err? <==> exists at :: Fold(Of(Items(q, ns), at)).Err?
    ensures out.Ok? ==> Answers(q, ns, out.value)
  {
    var roots: map<Instance, Node>, order: seq<Instance> := map[], [];
    for k := 0 to |ns|
      invariant Grouped(Items(q, ns[..k]), roots, order)
    {
      hide Fold, Of, Firsts, PlaceAll;
      ItemsPrefix(q, ns, k);
      var ok, nextRoots, nextOrder, bad := FoldNotification(q, ns[k], roots, order, Items(q, ns[..k]));
      if !ok {
        ErrSpreads(Items(q, ns[..k + 1]), Items(q, ns), bad);
        return Err("JSON_IETF fold");
      }
      roots, order := nextRoots, nextOrder;
    }
    assert ns[..|ns|] == ns;
    return Ok(seq(|order|, i requires 0 <= i < |order| && order[i] in roots => (order[i], roots[order[i]])));
  }

  // ---------------------------------------------------------------------------------------------
  // End to end: what a client reads in the answer.

  /** The leaf an answer holds at a path below an instance. */
  function LeafIn(out: Answer, at: Instance, p: seq<Step>): (r: Option<Node>)
    ensures r.Some? ==> r.value.Leaf?
  {
    if out == [] then None else if out[0].0 == at then LeafAt(out[0].1, p) else LeafIn(out[1..], at, p)
  }

  /** The element carries this key with this value, or the request leaves out a value the element leaves out too. */
  ghost predicate Carries(keys: Keys, k: string, v: string) {
    || (exists j :: 0 <= j < |keys| && keys[j] == (k, v) && forall l | 0 <= l < j :: keys[l].0 != k)
    || (v == "" && forall l | 0 <= l < |keys| :: keys[l].0 != k)
  }

  /** Same name, and every key the request gives is a wildcard on either side or carried with that value. */
  ghost predicate Fits(want: Elem, have: Elem) {
    && want.name == have.name
    && forall i | 0 <= i < |want.keys| ::
         || want.keys[i].1 == "*"
         || Carries(have.keys, want.keys[i].0, "*")
         || Carries(have.keys, want.keys[i].0, want.keys[i].1)
  }

  /**
   The request covers this update of this notification: it is no deeper than the prefix, or it fits the leaf's full
   path element by element. The update lies below the instance its first elements name, with its own value.
   */
  ghost predicate Tells(q: Path, n: Notification, u: Update, at: Instance, below: Update) {
    var full := n.prefix + u.path;
    && |q| <= |full|
    && (|q| <= |n.prefix| || forall i | 0 <= i < |q| :: Fits(q[i], full[i]))
    && at.origin == n.origin
    && |at.steps| == |q| && (forall i | 0 <= i < |q| :: at.steps[i] == StepOf(full[i]))
    && full == full[..|q|] + below.path && below.val == u.val
  }

  ghost predicate Told(q: Path, ns: seq<Notification>, at: Instance, below: Update) {
    exists k, i :: 0 <= k < |ns| && 0 <= i < |ns[k].updates| && Tells(q, ns[k], ns[k].updates[i], at, below)
  }

  lemma {:induction false} ValueOfCarries(keys: Keys, k: string, v: string)
    ensures Carries(keys, k, v) <==> ValueOf(keys, k) == v
  {
    if keys != [] {
      var rest := keys[1..];
      ValueOfCarries(rest, k, v);
      assert forall l | 0 <= l < |rest| :: rest[l] == keys[l + 1];
      if keys[0].0 != k {
        if j :| 0 <= j < |rest| && rest[j] == (k, v) && forall l | 0 <= l < j :: rest[l].0 != k {
          assert keys[j + 1] == (k, v);
        }
        if j :| 0 <= j < |keys| && keys[j] == (k, v) && forall l | 0 <= l < j :: keys[l].0 != k {
          assert rest[j - 1] == (k, v);
        }
      }
    }
  }

  lemma {:induction false} FitsMatches(want: Elem, have: Elem)
    ensures Fits(want, have) <==> ElemMatches(want, have)
  {
    hide Carries, ValueOf;
    forall i | 0 <= i < |want.keys|
      ensures Carries(have.keys, want.keys[i].0, "*") <==> ValueOf(have.keys, want.keys[i].0) == "*"
      ensures Carries(have.keys, want.keys[i].0, want.keys[i].1)
              <==> ValueOf(have.keys, want.keys[i].0) == want.keys[i].1
    {
      ValueOfCarries(have.keys, want.keys[i].0, "*");
      ValueOfCarries(have.keys, want.keys[i].0, want.keys[i].1);
    }
  }

  lemma {:induction false} CanonSteps(path: Path)
    ensures |Canon(path)| == |path| && forall i | 0 <= i < |path| :: Canon(path)[i] == StepOf(path[i])
  {
    if path != [] { CanonSteps(path[1..]); }
  }

  /** Placement puts an update exactly where the request and the two paths say. */
  lemma {:induction false} PlaceTells(q: Path, n: Notification, u: Update, item: Item)
    ensures Place(q, n, u) == Some(item) <==> Tells(q, n, u, item.at, item.below)
  {
    hide Fits, ElemMatches, Canon, StepOf;
    var full := n.prefix + u.path;
    if |q| <= |full| {
      forall i | 0 <= i < |q| ensures Fits(q[i], full[i]) <==> ElemMatches(q[i], full[i]) {
        FitsMatches(q[i], full[i]);
      }
      var head := full[..|q|];
      CanonSteps(head);
      assert full == head + full[|q|..];
      assert full == head + item.below.path <==> item.below.path == full[|q|..] by {
        if full == head + item.below.path { assert full[|q|..] == item.below.path; }
      }
      assert (|item.at.steps| == |q| && forall i | 0 <= i < |q| :: item.at.steps[i] == StepOf(full[i]))
        <==> item.at.steps == Canon(head);
    }
  }

  lemma {:induction false} PlacedFrom(q: Path, n: Notification, us: seq<Update>, item: Item)
    ensures item in PlaceAll(q, n, us) <==> exists i :: 0 <= i < |us| && Place(q, n, us[i]) == Some(item)
  {
    hide Place;
    if us != [] {
      var (front, last) := (us[..|us| - 1], us[|us| - 1]);
      PlacedFrom(q, n, front, item);
      assert forall i | 0 <= i < |front| :: front[i] == us[i];
      assert item in PlaceAll(q, n, us) <==> item in PlaceAll(q, n, front) || Place(q, n, last) == Some(item);
      if Place(q, n, last) == Some(item) { assert Place(q, n, us[|us| - 1]) == Some(item); }
    }
  }

  lemma {:induction false} ItemsTold(q: Path, ns: seq<Notification>, item: Item)
    ensures item in Items(q, ns) <==> Told(q, ns, item.at, item.below)
  {
    hide Place, PlaceAll, Tells;
    if ns != [] {
      var (front, last) := (ns[..|ns| - 1], ns[|ns| - 1]);
      ItemsTold(q, front, item);
      PlacedFrom(q, last, last.updates, item);
      forall i | 0 <= i < |last.updates|
        ensures Place(q, last, last.updates[i]) == Some(item) <==> Tells(q, last, last.updates[i], item.at, item.below)
      {
        PlaceTells(q, last, last.updates[i], item);
      }
      assert forall k | 0 <= k < |front| :: front[k] == ns[k];
      if i :| 0 <= i < |last.updates| && Place(q, last, last.updates[i]) == Some(item) {
        assert Tells(q, ns[|ns| - 1], ns[|ns| - 1].updates[i], item.at, item.below);
      }
      if Told(q, front, item.at, item.below) {
        var k, i :| 0 <= k < |front| && 0 <= i < |front[k].updates|
          && Tells(q, front[k], front[k].updates[i], item.at, item.below);
        assert Tells(q, ns[k], ns[k].updates[i], item.at, item.below);
      }
      if Told(q, ns, item.at, item.below) {
        var k, i :| 0 <= k < |ns| && 0 <= i < |ns[k].updates|
          && Tells(q, ns[k], ns[k].updates[i], item.at, item.below);
        if k < |front| { assert Tells(q, front[k], front[k].updates[i], item.at, item.below); }
      }
    }
  }

  lemma {:induction false} OfHolds(items: seq<Item>, at: Instance, u: Update)
    ensures u in Of(items, at) <==> Item(at, u) in items
  {
    if items != [] {
      OfHolds(items[..|items| - 1], at, u);
      assert items == items[..|items| - 1] + [items[|items| - 1]];
    }
  }

  lemma {:induction false} FirstsHold(items: seq<Item>, at: Instance)
    ensures at in Firsts(items) <==> Of(items, at) != []
    ensures forall i, j | 0 <= i < j < |Firsts(items)| :: Firsts(items)[i] != Firsts(items)[j]
  {
    if items != [] {
      FirstsHold(items[..|items| - 1], at);
      FirstsHold(items[..|items| - 1], items[|items| - 1].at);
    }
  }

  lemma {:induction false} LeafInAt(out: Answer, at: Instance, p: seq<Step>, k: nat)
    requires k < |out| && out[k].0 == at && forall i | 0 <= i < k :: out[i].0 != at
    ensures LeafIn(out, at, p) == LeafAt(out[k].1, p)
  {
    if k > 0 {
      assert forall i | 0 <= i < |out[1..]| :: out[1..][i] == out[i + 1];
      LeafInAt(out[1..], at, p, k - 1);
    }
  }

  lemma {:induction false} LeafNotIn(out: Answer, at: Instance, p: seq<Step>)
    requires forall i | 0 <= i < |out| :: out[i].0 != at
    ensures LeafIn(out, at, p) == None
  {
    if out != [] { LeafNotIn(out[1..], at, p); }
  }

  /** The ids of every path told are faithful. */
  ghost predicate FaithfulTold(q: Path, ns: seq<Notification>, at: Instance, dict: (string, string) -> Keys) {
    forall below | Told(q, ns, at, below) :: Faithful(below.path, dict)
  }

  lemma {:induction false} ToldFaithful(q: Path, ns: seq<Notification>, at: Instance, dict: (string, string) -> Keys)
    requires FaithfulTold(q, ns, at, dict)
    ensures forall i | 0 <= i < |Of(Items(q, ns), at)| :: Faithful(Of(Items(q, ns), at)[i].path, dict)
  {
    hide Told, Faithful;
    var us := Of(Items(q, ns), at);
    forall i | 0 <= i < |us| ensures Faithful(us[i].path, dict) {
      OfHolds(Items(q, ns), at, us[i]);
      ItemsTold(q, ns, Item(at, us[i]));
    }
  }

  /** In a successful fold no two updates share a path, so an update's value stands. */
  lemma {:induction false} WantedValue(us: seq<Update>, dict: (string, string) -> Keys, u: Update)
    requires Fold(us).Ok? && u in us && forall i | 0 <= i < |us| :: Faithful(us[i].path, dict)
    ensures Wanted(us, Canon(u.path)) == Some(Leaf(u.val, false))
  {
    hide Canon, Faithful, KeyAt;
    var (front, last) := (us[..|us| - 1], us[|us| - 1]);
    assert us == front + [last];
    if u != last {
      WantedValue(front, dict, u);
      var i :| 0 <= i < |front| && front[i] == u;
      OneMoreFails(front, last, dict);
      assert Canon(last.path) != Canon(front[i].path);
    }
  }

  /** A key stands where some path implies it and no update restates it, with a value such a path gives it. */
  lemma {:induction false} WantedKeys(us: seq<Update>, p: seq<Step>)
    ensures Wanted(us, p).Some? && Wanted(us, p).value.key <==>
            (exists u :: u in us && KeyAt(u.path, p).Some?) && forall u | u in us :: Canon(u.path) != p
    ensures Wanted(us, p).Some? && Wanted(us, p).value.key ==>
            exists u :: u in us && KeyAt(u.path, p) == Some(Wanted(us, p).value.val)
  {
    hide Canon, KeyAt;
    if us != [] {
      var (front, last) := (us[..|us| - 1], us[|us| - 1]);
      WantedKeys(front, p);
      WantedUpdates(front, p);
      assert us == front + [last];
      assert forall u :: u in us <==> u in front || u == last;
      if i :| 0 <= i < |front| && Canon(front[i].path) == p { assert front[i] in us; }
      if u :| u in front && Canon(u.path) == p {
        var i :| 0 <= i < |front| && front[i] == u;
      }
    }
  }

  /** A client reads, at any path below any instance, what the updates of that instance ask for. */
  lemma {:induction false} AnswerReadsBack(q: Path, ns: seq<Notification>, out: Answer, dict: (string, string) -> Keys,
                                           at: Instance, p: seq<Step>)
    requires Answers(q, ns, out) && FaithfulTold(q, ns, at, dict)
    ensures LeafIn(out, at, p) == Wanted(Of(Items(q, ns), at), p)
    ensures Fold(Of(Items(q, ns), at)).Ok?
  {
    hide Items, Fold, Wanted, LeafAt, LeafIn, Of, Firsts, Told;
    var (items, order) := (Items(q, ns), Firsts(Items(q, ns)));
    FirstsHold(items, at);
    if at in order {
      var k :| 0 <= k < |order| && order[k] == at;
      LeafInAt(out, at, p, k);
      ToldFaithful(q, ns, at, dict);
      FoldReadsBack(Of(items, at), dict, p);
    } else {
      LeafNotIn(out, at, p);
      NothingWanted(p);
      FoldNothing();
    }
  }

  lemma {:induction false} NothingWanted(p: seq<Step>)
    ensures Wanted([], p) == None
  {
  }

  /**
   End to end: the leaves of an answer are exactly the updates the request covers, each with its value, and the keys
   their paths imply where no covered update restates them.
   */
  lemma {:induction false} GetReadsBack(q: Path, ns: seq<Notification>, out: Answer, dict: (string, string) -> Keys,
                                        at: Instance, p: seq<Step>)
    requires Answers(q, ns, out) && FaithfulTold(q, ns, at, dict)
    ensures forall v :: LeafIn(out, at, p) == Some(Leaf(v, false)) <==>
                        exists u :: Told(q, ns, at, u) && Canon(u.path) == p && u.val == v
    ensures LeafIn(out, at, p).Some? && LeafIn(out, at, p).value.key <==>
            (exists u :: Told(q, ns, at, u) && KeyAt(u.path, p).Some?)
              && forall u | Told(q, ns, at, u) :: Canon(u.path) != p
    ensures LeafIn(out, at, p).Some? && LeafIn(out, at, p).value.key ==>
            exists u :: Told(q, ns, at, u) && KeyAt(u.path, p) == Some(LeafIn(out, at, p).value.val)
  {
    hide Items, Fold, Wanted, LeafAt, LeafIn, Of, Firsts, Told, Canon, KeyAt, Answers, FaithfulTold, Faithful;
    var us := Of(Items(q, ns), at);
    AnswerReadsBack(q, ns, out, dict, at, p);
    ToldFaithful(q, ns, at, dict);
    WantedKeys(us, p);
    WantedUpdates(us, p);
    forall u ensures u in us <==> Told(q, ns, at, u) {
      OfHolds(Items(q, ns), at, u);
      ItemsTold(q, ns, Item(at, u));
    }
    forall u | u in us && Canon(u.path) == p ensures Wanted(us, p) == Some(Leaf(u.val, false)) {
      WantedValue(us, dict, u);
    }
    forall v | Wanted(us, p) == Some(Leaf(v, false))
      ensures exists u :: Told(q, ns, at, u) && Canon(u.path) == p && u.val == v
    {
      var i :| 0 <= i < |us| && Canon(us[i].path) == p;
      assert us[i] in us;
    }
  }
}
