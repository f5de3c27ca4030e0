/** Numbers spelled in decimal, as the runtime formats and parses them. */
module Decimal {

  function Digit(n: nat): char
    requires n < 10
  {
    ('0' as int + n) as char
  }

  function Itoa(n: nat): (s: string)
    ensures s != "" && forall i | 0 <= i < |s| :: '0' <= s[i] <= '9'
  {
    if n < 10 then [Digit(n)] else Itoa(n / 10) + [Digit(n % 10)]
  }

  function Value(s: string): int {
    if s == "" then 0 else 10 * Value(s[..|s| - 1]) + (s[|s| - 1] as int - '0' as int)
  }

  lemma {:induction false} ItoaReadsBack(n: nat)
    ensures Value(Itoa(n)) == n
  {
    if n >= 10 {
      ItoaReadsBack(n / 10);
      assert Itoa(n)[..|Itoa(n)| - 1] == Itoa(n / 10);
    } else {
      assert [Digit(n)][..0] == "";
      assert Value("") == 0;
    }
  }

  lemma ItoaInjective(a: nat, b: nat)
    requires Itoa(a) == Itoa(b)
    ensures a == b
  {
    ItoaReadsBack(a);
    ItoaReadsBack(b);
  }

  function Pow10(k: nat): nat { if k == 0 then 1 else 10 * Pow10(k - 1) }

  lemma {:induction false} ItoaLength(n: nat, k: nat)
    requires n < Pow10(k) && k > 0
    ensures |Itoa(n)| <= k
    decreases k
  {
    if n >= 10 { ItoaLength(n / 10, k - 1); }
  }

  predicate Digits(s: string) {
    s != "" && forall i | 0 <= i < |s| :: '0' <= s[i] <= '9'
  }

  /** Digits without a leading zero are the spelling of the number they read as, so there is one per number. */
  lemma {:induction false} SpelledBack(s: string)
    requires Digits(s) && (s[0] == '0' ==> |s| == 1)
    ensures Value(s) >= 0 && Itoa(Value(s)) == s
    ensures s[0] != '0' ==> Value(s) > 0
    decreases |s|
  {
    var (front, last) := (s[..|s| - 1], s[|s| - 1]);
    assert s == front + [last];
    if front == "" {
      assert Value(front) == 0;
    } else {
      SpelledBack(front);
      assert Value(s) / 10 == Value(front) && Value(s) % 10 == last as int - '0' as int;
    }
  }

  lemma {:induction false} NoLeadingZero(n: nat)
    ensures Itoa(n)[0] == '0' ==> n == 0
    ensures n < 10 ==> |Itoa(n)| == 1
  {
    if n >= 10 { NoLeadingZero(n / 10); }
  }
}
