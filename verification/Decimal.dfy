/** Canonical decimal numerals, and what LogStream's convert prints. */
module Decimal {

  function Digit(d: nat): char
    requires d < 10
  {
    ['0', '1', '2', '3', '4', '5', '6', '7', '8', '9'][d]
  }

  // The numeral of a natural number, without leading zeros.
  function Numeral(n: nat): string {
    if n < 10 then [Digit(n)] else Numeral(n / 10) + [Digit(n % 10)]
  }

  function Signed(v: int): string {
    if v < 0 then "-" + Numeral(-v) else Numeral(v)
  }

  // ---------- an independent reading of numerals ----------

  predicate IsDigit(c: char) { '0' <= c <= '9' }

  function DigitValue(c: char): nat
    requires IsDigit(c)
  {
    c as int - '0' as int
  }

  predicate Digits(s: string) {
    forall k | 0 <= k < |s| :: IsDigit(s[k])
  }

  // A numeral no shorter one of which has the same value.
  predicate Canonical(s: string) {
    && Digits(s) && s != []
    && (|s| > 1 ==> s[0] != '0')
  }

  function Value(s: string): nat
    requires Digits(s)
  {
    if s == [] then 0 else 10 * Value(s[..|s| - 1]) + DigitValue(s[|s| - 1])
  }

  predicate CanonicalSigned(s: string) {
    if s != [] && s[0] == '-' then Canonical(s[1..]) && s[1] != '0' else Canonical(s)
  }

  function SignedValue(s: string): int
    requires CanonicalSigned(s)
  {
    if s[0] == '-' then 0 - Value(s[1..]) else Value(s)
  }

  lemma {:induction false} NumeralCanonical(n: nat)
    ensures Canonical(Numeral(n)) && Value(Numeral(n)) == n
    ensures n > 0 ==> Numeral(n)[0] != '0'
  {
    var s := Numeral(n);
    if n >= 10 {
      NumeralCanonical(n / 10);
      assert s[..|s| - 1] == Numeral(n / 10);
    } else {
      assert s[..|s| - 1] == [];
    }
  }

  lemma {:induction false} NumeralOfValue(s: string)
    requires Canonical(s)
    ensures Numeral(Value(s)) == s
    ensures s[0] != '0' ==> Value(s) > 0
  {
    var front, last := s[..|s| - 1], DigitValue(s[|s| - 1]);
    assert Digit(last) == s[|s| - 1];
    assert Value(s) == 10 * Value(front) + last;
    if |s| > 1 {
      NumeralOfValue(front);
      DivTen(Value(front), last);
      assert s == front + [s[|s| - 1]];
    } else {
      assert Value(front) == 0;
    }
  }

  lemma DivTen(a: nat, b: nat)
    requires b < 10
    ensures (10 * a + b) / 10 == a && (10 * a + b) % 10 == b
  {
  }

  /** Printing and reading are inverse: every integer is printed as the canonical numeral
      with its value. */
  lemma SignedRoundTrip(v: int)
    ensures CanonicalSigned(Signed(v)) && SignedValue(Signed(v)) == v
  {
    NumeralCanonical(if v < 0 then -v else v);
    if v < 0 {
      assert Signed(v)[1..] == Numeral(-v);
    }
  }

  lemma SignedUnique(s: string)
    requires CanonicalSigned(s)
    ensures Signed(SignedValue(s)) == s
  {
    if s[0] == '-' {
      NumeralOfValue(s[1..]);
      assert s == "-" + s[1..];
    } else {
      NumeralOfValue(s);
    }
  }

  lemma {:induction false} NumeralLength(n: nat, k: nat)
    requires k > 0
    ensures |Numeral(n)| <= k <==> n < Pow10(k)
  {
    if k > 1 && n >= 10 {
      NumeralLength(n / 10, k - 1);
      assert Pow10(k) == 10 * Pow10(k - 1);
    } else {
      Pow10Positive(k - 1);
    }
  }

  function Pow10(k: nat): nat {
    if k == 0 then 1 else 10 * Pow10(k - 1)
  }

  lemma Pow10Positive(k: nat)
    ensures Pow10(k) > 0
  {
  }
}
