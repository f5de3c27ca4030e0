/** DNS labels made from device names (section 2.3.4 of RFC 1035), and the suffixes that keep them apart. */
module DnsLabel {
  import opened Decimal

  const LABEL_MAX: nat := 63

  predicate Alnum(c: char) { 'a' <= c <= 'z' || '0' <= c <= '9' }

  predicate LabelChar(c: char) { Alnum(c) || c == '-' }

  predicate LabelChars(s: string) { forall i | 0 <= i < |s| :: LabelChar(s[i]) }

  /** At most 63 octets, at least one, of letters, digits and inner hyphens. */
  predicate ValidLabel(s: string) {
    1 <= |s| <= LABEL_MAX && LabelChars(s) && s[0] != '-' && s[|s| - 1] != '-'
  }

  // ---------------------------------------------------------------------------------------------
  // Sanitising.

  function TrimRight(s: string): (r: string)
    ensures r <= s && (r == "" || r[|r| - 1] != '-')
    ensures forall i | |r| <= i < |s| :: s[i] == '-'
  {
    if s != "" && s[|s| - 1] == '-' then TrimRight(s[..|s| - 1]) else s
  }

  function TrimLeft(s: string): (r: string)
    ensures |r| <= |s| && r == s[|s| - |r|..] && (r == "" || r[0] != '-')
    ensures forall i | 0 <= i < |s| - |r| :: s[i] == '-'
  {
    if s != "" && s[0] == '-' then TrimLeft(s[1..]) else s
  }

  predicate HasPair(s: string) { exists i :: 0 < i < |s| && s[i - 1] == '-' && s[i] == '-' }

  /** Every pair of hyphens made one, left to right without overlap. */
  function ReplacePairs(s: string): string {
    if |s| < 2 then s
    else if s[0] == '-' && s[1] == '-' then "-" + ReplacePairs(s[2..])
    else [s[0]] + ReplacePairs(s[1..])
  }

  /** Every run of hyphens made one. */
  function Collapse(s: string): string {
    if |s| < 2 then s
    else if s[0] == '-' && s[1] == '-' then Collapse(s[1..])
    else [s[0]] + Collapse(s[1..])
  }

  lemma {:induction false} ReplaceShrinks(s: string)
    ensures |ReplacePairs(s)| <= |s| && (HasPair(s) ==> |ReplacePairs(s)| < |s|)
  {
    if |s| >= 2 {
      if s[0] == '-' && s[1] == '-' {
        ReplaceShrinks(s[2..]);
      } else {
        ReplaceShrinks(s[1..]);
        if HasPair(s) {
          var i :| 0 < i < |s| && s[i - 1] == '-' && s[i] == '-';
          assert s[1..][i - 2] == '-' && s[1..][i - 1] == '-';
        }
      }
    }
  }

  /** One pass of replacement leaves the same runs. */
  lemma {:induction false} ReplaceKeepsRuns(s: string)
    ensures Collapse(ReplacePairs(s)) == Collapse(s)
    ensures s != "" ==> ReplacePairs(s) != "" && ReplacePairs(s)[0] == s[0]
  {
    if |s| >= 2 {
      if s[0] == '-' && s[1] == '-' {
        ReplaceKeepsRuns(s[2..]);
        assert s[1..] == ['-'] + s[2..];
      } else {
        ReplaceKeepsRuns(s[1..]);
        assert s == [s[0]] + s[1..];
      }
    }
  }

  lemma {:induction false} NoPairCollapsed(s: string)
    requires !HasPair(s)
    ensures Collapse(s) == s
  {
    if |s| >= 2 {
      assert !(s[1 - 1] == '-' && s[1] == '-');
      forall i | 0 < i < |s[1..]| ensures !(s[1..][i - 1] == '-' && s[1..][i] == '-') {
        assert !(s[i + 1 - 1] == '-' && s[i + 1] == '-');
      }
      NoPairCollapsed(s[1..]);
      assert s == [s[0]] + s[1..];
    }
  }

  /** The replacement loop: it ends, and every run of hyphens is one. */
  method CollapseRuns(s: string) returns (out: string)
    ensures out == Collapse(s) && !HasPair(out)
  {
    out := s;
    while HasPair(out)
      invariant Collapse(out) == Collapse(s)
      decreases |out|
    {
      ReplaceShrinks(out);
      ReplaceKeepsRuns(out);
      out := ReplacePairs(out);
    }
    NoPairCollapsed(out);
  }

  predicate HasAlnum(s: string) { exists i :: 0 <= i < |s| && Alnum(s[i]) }

  lemma HasAlnumCons(c: char, t: string)
    ensures HasAlnum([c] + t) <==> Alnum(c) || HasAlnum(t)
    ensures LabelChars([c] + t) <==> LabelChar(c) && LabelChars(t)
  {
    var s := [c] + t;
    assert s[0] == c;
    assert forall i | 0 <= i < |t| :: t[i] == s[i + 1];
    if i :| 0 <= i < |s| && Alnum(s[i]) && i > 0 { assert Alnum(t[i - 1]); }
    if i :| 0 <= i < |t| && Alnum(t[i]) { assert Alnum(s[i + 1]); }
  }

  lemma {:induction false} CollapseChars(s: string)
    ensures LabelChars(s) ==> LabelChars(Collapse(s))
    ensures HasAlnum(Collapse(s)) <==> HasAlnum(s)
  {
    if |s| >= 2 {
      CollapseChars(s[1..]);
      assert s == [s[0]] + s[1..];
      HasAlnumCons(s[0], s[1..]);
      HasAlnumCons(s[0], Collapse(s[1..]));
    }
  }

  /** Hyphens off both ends. */
  function Trim(s: string): string { TrimRight(TrimLeft(s)) }

  lemma TrimValid(s: string)
    requires LabelChars(s)
    ensures Trim(s) == "" <==> !HasAlnum(s)
    ensures Trim(s) != "" ==> LabelChars(Trim(s)) && Trim(s)[0] != '-' && Trim(s)[|Trim(s)| - 1] != '-'
  {
    var l := TrimLeft(s);
    var r := Trim(s);
    if r != "" {
      assert r[0] == l[0] == s[|s| - |l|];
      assert Alnum(s[|s| - |l|]);
    } else {
      assert l == "";
    }
  }

  lemma TrimKeeps(s: string)
    requires s != "" && s[0] != '-' && s[|s| - 1] != '-'
    ensures Trim(s) == s
  {
  }

  function Clean(c: char): char { if LabelChar(c) then c else '-' }

  function Cleaned(s: string, lower: char -> char): string {
    seq(|s|, i requires 0 <= i < |s| => Clean(lower(s[i])))
  }

  /** The label of a name: lower case, other characters made hyphens, runs made one, ends trimmed, at most 63 octets. */
  function LabelOf(s: string, lower: char -> char): string {
    var t := Trim(Collapse(Cleaned(s, lower)));
    if |t| > LABEL_MAX then TrimRight(t[..LABEL_MAX]) else t
  }

  /**
   A name made into one label: valid, or empty when no letter or digit survives; a label that was already lower case
   without double hyphens stays as it is. Lower-casing is whatever the runtime's tables make it.
   */
  method SanitiseLabel(s: string, lower: char -> char) returns (out: string)
    ensures out == LabelOf(s, lower)
    ensures out == "" || ValidLabel(out)
    ensures |out| <= 63
    ensures out == "" <==> forall i | 0 <= i < |s| :: !('a' <= lower(s[i]) <= 'z' || '0' <= lower(s[i]) <= '9')
    ensures 1 <= |s| <= 63 && s[0] != '-' && s[|s| - 1] != '-' && !HasPair(s)
            && (forall i | 0 <= i < |s| :: lower(s[i]) == s[i])
            && (forall i | 0 <= i < |s| :: 'a' <= s[i] <= 'z' || '0' <= s[i] <= '9' || s[i] == '-')
            ==> out == s
  {
    hide Collapse, HasPair, HasAlnum, LabelChars, Cleaned, Trim, TrimRight;
    var clean := Cleaned(s, lower);
    CleanedFacts(s, lower);
    var runs := CollapseRuns(clean);
    RunsFacts(clean);
    out := Trim(runs);
    TrimValid(runs);
    if runs != "" && runs[0] != '-' && runs[|runs| - 1] != '-' { TrimKeeps(runs); }
    if |out| > LABEL_MAX {
      CutValid(out);
      out := TrimRight(out[..LABEL_MAX]);
    }
  }

  lemma CleanedFacts(s: string, lower: char -> char)
    ensures LabelChars(Cleaned(s, lower))
    ensures HasAlnum(Cleaned(s, lower)) <==> exists i :: 0 <= i < |s| && Alnum(lower(s[i]))
    ensures (forall i | 0 <= i < |s| :: lower(s[i]) == s[i])
            && (forall i | 0 <= i < |s| :: 'a' <= s[i] <= 'z' || '0' <= s[i] <= '9' || s[i] == '-')
            ==> Cleaned(s, lower) == s
  {
    var clean := Cleaned(s, lower);
    if i :| 0 <= i < |s| && Alnum(lower(s[i])) { assert Alnum(clean[i]); }
  }

  lemma RunsFacts(clean: string)
    requires LabelChars(clean)
    ensures LabelChars(Collapse(clean)) && (HasAlnum(Collapse(clean)) <==> HasAlnum(clean))
    ensures !HasPair(clean) ==> Collapse(clean) == clean
  {
    CollapseChars(clean);
    if !HasPair(clean) { NoPairCollapsed(clean); }
  }

  lemma CutValid(s: string)
    requires |s| > LABEL_MAX && LabelChars(s) && s[0] != '-'
    ensures ValidLabel(TrimRight(s[..LABEL_MAX]))
  {
    assert s[..LABEL_MAX][0] != '-';
  }

  // ---------------------------------------------------------------------------------------------
  // Telling devices apart.

  /** The base gives way to the suffix, so the suffix always survives whole. */
  function JoinLabel(base: string, suffix: string): string {
    if |suffix| + 1 >= LABEL_MAX then TrimRight(if |suffix| < LABEL_MAX then suffix else suffix[..LABEL_MAX])
    else
      var room := LABEL_MAX - |suffix| - 1;
      (if |base| > room then TrimRight(base[..room]) else base) + "-" + suffix
  }

  function Stem(base: string, suffix: string): string {
    var room := LABEL_MAX - |suffix| - 1;
    if room < 0 then "" else if |base| > room then TrimRight(base[..room]) else base
  }

  lemma JoinValid(base: string, suffix: string)
    requires ValidLabel(base) && LabelChars(suffix) && suffix != "" && suffix[|suffix| - 1] != '-'
             && |suffix| + 1 < LABEL_MAX
    ensures ValidLabel(JoinLabel(base, suffix)) && JoinLabel(base, suffix) == Stem(base, suffix) + "-" + suffix
  {
    var (stem, room) := (Stem(base, suffix), LABEL_MAX - |suffix| - 1);
    if |base| > room { assert base[..room][0] != '-'; }
    assert stem != "" && stem[0] == base[0] && LabelChars(stem);
    var j := JoinLabel(base, suffix);
    assert j[0] == stem[0] && j[|j| - 1] == suffix[|suffix| - 1];
  }

  /** Whatever the suffix costs: a label, and one that ends in as much of the suffix as a label can hold. */
  lemma JoinAlwaysValid(base: string, suffix: string)
    requires ValidLabel(base) && LabelChars(suffix) && suffix != "" && suffix[0] != '-' && suffix[|suffix| - 1] != '-'
    ensures var j := JoinLabel(base, suffix);
            && ValidLabel(j) && |j| <= 63
            && (|suffix| <= 63 ==> |suffix| <= |j| && j[|j| - |suffix|..] == suffix)
            && (|base| + |suffix| < 63 ==> j == base + "-" + suffix)
  {
    if |suffix| + 1 < LABEL_MAX {
      JoinValid(base, suffix);
    } else {
      var cut := if |suffix| < LABEL_MAX then suffix else suffix[..LABEL_MAX];
      assert cut[0] == suffix[0];
      if |suffix| <= 63 { assert cut == suffix; }
    }
  }

  lemma NumericSuffix(base: string, n: nat)
    requires ValidLabel(base) && n < Pow10(60)
    ensures ValidLabel(JoinLabel(base, Itoa(n))) && JoinLabel(base, Itoa(n)) == Stem(base, Itoa(n)) + "-" + Itoa(n)
  {
    ItoaLength(n, 60);
    JoinValid(base, Itoa(n));
  }

  lemma AfterLastHyphen(a: string, x: string, b: string, y: string)
    requires a + "-" + x == b + "-" + y && '-' !in x && '-' !in y
    ensures x == y
  {
    var (s, t) := (a + "-" + x, b + "-" + y);
    assert s[|a|] == '-' && t[|b|] == '-';
    assert forall i | |a| < i < |s| :: s[i] == x[i - |a| - 1];
    assert forall i | |b| < i < |t| :: t[i] == y[i - |b| - 1];
    assert |a| == |b|;
    assert s[|a| + 1..] == x && t[|b| + 1..] == y;
  }

  /** Different numbers give different labels, however much of the base they cost. */
  lemma NumericApart(base: string, m: nat, n: nat)
    requires ValidLabel(base) && m < Pow10(60) && n < Pow10(60) && m != n
    ensures JoinLabel(base, Itoa(m)) != JoinLabel(base, Itoa(n))
  {
    NumericSuffix(base, m);
    NumericSuffix(base, n);
    if JoinLabel(base, Itoa(m)) == JoinLabel(base, Itoa(n)) {
      AfterLastHyphen(Stem(base, Itoa(m)), Itoa(m), Stem(base, Itoa(n)), Itoa(n));
      ItoaInjective(m, n);
    }
  }
}
