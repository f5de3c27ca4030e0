/**
 Byte-level building blocks of the flow exporters: big-endian integers, and layouts. A layout is an ordered list
 of (information element, content) pairs; its bytes are the contents in order, and its template is the list of
 (information element, content length). A template alone is enough to take the bytes apart again.
 */
module Wire {
  type U8 = n: nat | n < 0x100
  type U16 = n: nat | n < 0x1_0000
  type U32 = n: nat | n < 0x1_0000_0000
  type U64 = n: nat | n < 0x1_0000_0000_0000_0000
  type Bytes = seq<U8>

  function Pow256(w: nat): nat { if w == 0 then 1 else 256 * Pow256(w - 1) }

  /** The low `w` bytes of `n`, most significant first. */
  function BigEndian(n: nat, w: nat): (b: Bytes)
    ensures |b| == w
  {
    if w == 0 then [] else BigEndian(n / 256, w - 1) + [n % 256]
  }

  function FromBigEndian(b: Bytes): nat {
    if b == [] then 0 else 256 * FromBigEndian(b[..|b| - 1]) + b[|b| - 1]
  }

  lemma {:induction false} ReadBack(n: nat, w: nat)
    requires n < Pow256(w)
    ensures FromBigEndian(BigEndian(n, w)) == n
  {
    if w > 0 {
      ReadBack(n / 256, w - 1);
      assert BigEndian(n, w)[..w - 1] == BigEndian(n / 256, w - 1);
    }
  }

  lemma Widths()
    ensures Pow256(1) == 0x100 && Pow256(2) == 0x1_0000 && Pow256(4) == 0x1_0000_0000
    ensures Pow256(8) == 0x1_0000_0000_0000_0000
  {
    assert Pow256(3) == 0x100_0000;
    assert Pow256(6) == 0x1_0000_0000_0000;
  }

  function Get16(b: Bytes, at: nat): U16
    requires at + 2 <= |b|
  {
    256 * (b[at] as nat) + (b[at + 1] as nat)
  }

  function Get32(b: Bytes, at: nat): U32
    requires at + 4 <= |b|
  {
    0x1_0000 * (Get16(b, at) as nat) + (Get16(b, at + 2) as nat)
  }

  /** A number found at the place it was written. */
  lemma Got16(b: Bytes, at: nat, n: U16)
    requires at + 2 <= |b| && b[at..at + 2] == BigEndian(n, 2)
    ensures Get16(b, at) == n
  {
    assert b[at] == b[at..at + 2][0] && b[at + 1] == b[at..at + 2][1];
  }

  lemma Got32(b: Bytes, at: nat, n: U32)
    requires at + 4 <= |b| && b[at..at + 4] == BigEndian(n, 4)
    ensures Get32(b, at) == n
  {
    assert b[at..at + 2] == b[at..at + 4][..2] && b[at + 2..at + 4] == b[at..at + 4][2..];
    Got16(b, at, n / 0x1_0000);
    Got16(b, at + 2, n % 0x1_0000);
  }

  /** A slice of a prefix is a slice of the whole. */
  lemma SubSlice(b: Bytes, n: nat, lo: nat, hi: nat)
    requires lo <= hi <= n <= |b|
    ensures b[..n][lo..hi] == b[lo..hi]
  {
  }

  // ---------------------------------------------------------------------------------------------
  // Layouts and templates.

  datatype Field = Field(ie: U16, width: U16)

  datatype Content = Content(ie: U16, bytes: Bytes)

  type Layout = seq<Content>

  function Flatten(l: Layout): Bytes {
    if l == [] then [] else Flatten(l[..|l| - 1]) + l[|l| - 1].bytes
  }

  function Total(t: seq<Field>): nat {
    if t == [] then 0 else Total(t[..|t| - 1]) + t[|t| - 1].width
  }

  /** Each element is named, and sized, as the template says. */
  ghost predicate Matches(l: Layout, t: seq<Field>) {
    |l| == |t| && forall i | 0 <= i < |l| :: l[i].ie == t[i].ie && |l[i].bytes| == t[i].width
  }

  /** A template-driven reader: it knows nothing but the field list. */
  function Take(t: seq<Field>, b: Bytes): Layout
    requires Total(t) <= |b|
  {
    if t == [] then []
    else
      var front := t[..|t| - 1];
      Take(front, b) + [Content(t[|t| - 1].ie, b[Total(front)..Total(t)])]
  }

  lemma {:induction false} FlattenSize(l: Layout, t: seq<Field>)
    requires Matches(l, t)
    ensures |Flatten(l)| == Total(t)
  {
    if l != [] { FlattenSize(l[..|l| - 1], t[..|t| - 1]); }
  }

  /** Whatever follows, a template reads back the layout that was written under it. */
  lemma {:induction false} TakeFlatten(l: Layout, t: seq<Field>, b: Bytes)
    requires Matches(l, t) && Total(t) <= |b| && b[..Total(t)] == Flatten(l)
    ensures Take(t, b) == l
  {
    if l != [] {
      var (lf, tf) := (l[..|l| - 1], t[..|t| - 1]);
      FlattenSize(lf, tf);
      FlattenSize(l, t);
      assert b[..Total(tf)] == b[..Total(t)][..Total(tf)];
      assert b[Total(tf)..Total(t)] == b[..Total(t)][Total(tf)..];
      TakeFlatten(lf, tf, b);
      assert l == lf + [l[|l| - 1]];
    }
  }

  // ---------------------------------------------------------------------------------------------
  // Records of one template, back to back.

  function FlattenAll(ls: seq<Layout>): Bytes {
    if ls == [] then [] else FlattenAll(ls[..|ls| - 1]) + Flatten(ls[|ls| - 1])
  }

  ghost predicate AllMatch(ls: seq<Layout>, t: seq<Field>) {
    forall i | 0 <= i < |ls| :: Matches(ls[i], t)
  }

  lemma OneMore(n: nat, w: nat)
    ensures (n + 1) * w == n * w + w
  {
  }

  lemma {:induction false} FlattenAllSize(ls: seq<Layout>, t: seq<Field>)
    requires AllMatch(ls, t)
    ensures |FlattenAll(ls)| == |ls| * Total(t)
  {
    if ls != [] {
      var front := ls[..|ls| - 1];
      FlattenAllSize(front, t);
      FlattenSize(ls[|ls| - 1], t);
      OneMore(|front|, Total(t));
    }
  }

  /** As many whole records as fit, front to back. */
  function TakeAll(t: seq<Field>, b: Bytes): seq<Layout>
    requires Total(t) > 0
    decreases |b|
  {
    if |b| < Total(t) then [] else [Take(t, b)] + TakeAll(t, b[Total(t)..])
  }

  /** What is left over is the tail too short to be a record. */
  function Tail(t: seq<Field>, b: Bytes): Bytes
    requires Total(t) > 0
    decreases |b|
  {
    if |b| < Total(t) then b else Tail(t, b[Total(t)..])
  }

  lemma FlattenSnoc(ls: seq<Layout>, l: Layout)
    ensures FlattenAll(ls + [l]) == FlattenAll(ls) + Flatten(l)
  {
    assert (ls + [l])[..|ls|] == ls;
  }

  lemma {:induction false} FlattenFirst(ls: seq<Layout>)
    requires ls != []
    ensures FlattenAll(ls) == Flatten(ls[0]) + FlattenAll(ls[1..])
    decreases |ls|
  {
    if |ls| == 1 {
      assert ls[..0] == [] && ls[1..] == [];
    } else {
      hide Flatten, FlattenAll;
      var (front, last) := (ls[..|ls| - 1], ls[|ls| - 1]);
      FlattenFirst(front);
      assert ls == front + [last] && ls[1..] == front[1..] + [last];
      FlattenSnoc(front, last);
      FlattenSnoc(front[1..], last);
    }
  }

  lemma TakeFirst(l: Layout, t: seq<Field>, rest: Bytes)
    requires Matches(l, t) && Total(t) > 0
    ensures TakeAll(t, Flatten(l) + rest) == [l] + TakeAll(t, rest)
    ensures Tail(t, Flatten(l) + rest) == Tail(t, rest)
  {
    var b := Flatten(l) + rest;
    FlattenSize(l, t);
    TakeFlatten(l, t, b);
  }

  /** The records come back in order, and the pad comes back as the tail. */
  lemma {:induction false} TakeAllFlatten(ls: seq<Layout>, t: seq<Field>, pad: Bytes)
    requires AllMatch(ls, t) && |pad| < Total(t)
    ensures TakeAll(t, FlattenAll(ls) + pad) == ls && Tail(t, FlattenAll(ls) + pad) == pad
    decreases |ls|
  {
    var b := FlattenAll(ls) + pad;
    if ls == [] {
      assert b == pad;
    } else {
      hide Flatten, FlattenAll, Matches;
      FlattenFirst(ls);
      assert b == Flatten(ls[0]) + (FlattenAll(ls[1..]) + pad);
      TakeFirst(ls[0], t, FlattenAll(ls[1..]) + pad);
      TakeAllFlatten(ls[1..], t, pad);
      assert ls == [ls[0]] + ls[1..];
    }
  }

  // ---------------------------------------------------------------------------------------------
  // Writing into a buffer.

  method PutBytes(buf: array<U8>, pos: nat, s: Bytes)
    requires pos + |s| <= buf.Length
    modifies buf
    ensures buf[pos..pos + |s|] == s
    ensures buf[..pos] == old(buf[..pos])
    ensures buf[pos + |s|..] == old(buf[pos + |s|..])
  {
    for i := 0 to |s|
      invariant buf[pos..pos + i] == s[..i]
      invariant buf[..pos] == old(buf[..pos])
      invariant buf[pos + i..] == old(buf[pos + i..])
    {
      buf[pos + i] := s[i];
    }
  }

  /** Appends the next content of a layout that started at `base`. */
  method PutContent(buf: array<U8>, pos: nat, s: Bytes, ghost base: nat, ghost l: Layout, ghost i: nat)
    returns (next: nat)
    requires base <= pos && pos + |s| <= buf.Length
    requires i < |l| && l[i].bytes == s && buf[base..pos] == Flatten(l[..i])
    modifies buf
    ensures next == pos + |s| && buf[base..next] == Flatten(l[..i + 1])
    ensures buf[..base] == old(buf[..base])
  {
    PutBytes(buf, pos, s);
    next := pos + |s|;
    assert l[..i + 1][..i] == l[..i];
    assert buf[base..pos] == buf[..pos][base..] == old(buf[..pos])[base..];
    assert buf[base..next] == buf[base..pos] + s;
    assert buf[..base] == buf[..pos][..base] == old(buf[..pos])[..base];
  }
}
