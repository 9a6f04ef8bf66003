/** Canonical decimal text of a 64-bit sequence: `CAST(n AS TEXT)` and back. */
module Decimals {
  const MAX_SEQUENCE := 9_223_372_036_854_775_807

  predicate IsDigit(c: char) { '0' <= c <= '9' }

  predicate AllDigits(text: string) { forall i :: 0 <= i < |text| ==> IsDigit(text[i]) }

  function Decimal(n: nat): string {
    var digit := '0' + (n % 10) as char;
    if n < 10 then [digit] else Decimal(n / 10) + [digit]
  }

  function Value(text: string): nat
    requires AllDigits(text)
  {
    if text == [] then 0
    else 10 * Value(text[..|text| - 1]) + (text[|text| - 1] - '0') as nat
  }

  /** The accepted text: no sign, no leading zero, at most 19 digits, at most 2^63 - 1. */
  predicate IsSequenceText(text: string, allowZero: bool) {
    if text == "0" then allowZero
    else 1 <= |text| <= 19 && AllDigits(text) && text[0] != '0' && Value(text) <= MAX_SEQUENCE
  }

  function Pow10(k: nat): nat { if k == 0 then 1 else 10 * Pow10(k - 1) }

  lemma {:induction false} DecimalRoundTrip(n: nat)
    ensures AllDigits(Decimal(n)) && Value(Decimal(n)) == n
    ensures |Decimal(n)| >= 1 && (n > 0 ==> Decimal(n)[0] != '0')
  {
    if n >= 10 {
      DecimalRoundTrip(n / 10);
      var front := Decimal(n / 10);
      assert Decimal(n)[..|front|] == front;
    } else {
      assert Decimal(n)[..0] == [];
    }
  }

  lemma {:induction false} DecimalLength(n: nat, k: nat)
    requires 1 <= k && n < Pow10(k)
    ensures |Decimal(n)| <= k
  {
    if n >= 10 {
      assert k > 1;
      DecimalLength(n / 10, k - 1);
    }
  }

  /** Every sequence number prints to text the boundary accepts, and the text names that number. */
  lemma DecimalIsSequenceText(n: nat)
    requires n <= MAX_SEQUENCE
    ensures IsSequenceText(Decimal(n), true) && (n > 0 ==> IsSequenceText(Decimal(n), false))
    ensures Value(Decimal(n)) == n
  {
    DecimalRoundTrip(n);
    assert Pow10(5) == 100000;
    assert Pow10(10) == 10_000_000_000;
    assert Pow10(15) == 1_000_000_000_000_000;
    assert Pow10(19) == 10_000_000_000_000_000_000;
    DecimalLength(n, 19);
    if n == 0 {
      assert Decimal(0) == "0";
    } else if Decimal(n) == "0" {
      assert false;
    }
  }

  /** Canonical text is the only accepted text of its value. */
  lemma {:induction false} DecimalOfValue(text: string)
    requires AllDigits(text) && |text| >= 1 && (|text| > 1 ==> text[0] != '0')
    ensures Decimal(Value(text)) == text
  {
    var n := |text| - 1;
    var last := text[n];
    var front := text[..n];
    assert text == front + [last];
    assert 0 <= (last - '0') as nat <= 9;
    if n == 0 {
      assert front == [];
    } else {
      DecimalOfValue(front);
      PositiveValue(front);
    }
  }

  lemma {:induction false} PositiveValue(text: string)
    requires AllDigits(text) && |text| >= 1 && text[0] != '0'
    ensures Value(text) >= 1
  {
    if |text| > 1 {
      PositiveValue(text[..|text| - 1]);
    }
  }

  /** Digits stand most significant first. */
  lemma DecimalOrder(n: nat, digit: nat)
    requires n > 0 && digit < 10
    ensures Decimal(10 * n + digit) == Decimal(n) + [digit as char + '0']
    ensures Decimal(120) == "120"
  {
    assert Decimal(1) == "1" && Decimal(12) == "12";
  }
}
