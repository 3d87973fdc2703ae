/** Decimal numerals: the text a program prints for a natural number, and what it reads back. */
module Decimal {
  import opened Wrappers
  import opened Bits

  predicate IsDigit(c: char) {
    '0' <= c <= '9'
  }

  predicate AllDigits(s: string) {
    forall i :: 0 <= i < |s| ==> IsDigit(s[i])
  }

  function DigitChar(d: nat): (c: char)
    requires d < 10
    ensures IsDigit(c) && DigitValue(c) == d
  {
    (d + '0' as int) as char
  }

  function DigitValue(c: char): (d: nat)
    requires IsDigit(c)
    ensures d < 10
  {
    c as int - '0' as int
  }

  /** The shortest decimal numeral of `n`. */
  function Print(n: nat): (s: string)
    ensures s != [] && AllDigits(s)
  {
    if n < 10 then [DigitChar(n)] else Print(n / 10) + [DigitChar(n % 10)]
  }

  /** The number a string of digits denotes, leading zeros allowed. */
  function Value(s: string): nat
    requires AllDigits(s)
  {
    if s == [] then 0 else Value(s[..|s| - 1]) * 10 + DigitValue(s[|s| - 1])
  }

  function Pow10(k: nat): (p: nat)
    ensures p > 0
  {
    if k == 0 then 1 else 10 * Pow10(k - 1)
  }

  lemma DivideByTen(v: nat, d: nat, p: nat)
    requires d < 10 && p > 0
    ensures (v * 10 + d) / (10 * p) == v / p
  {
    var q, r := v / p, v % p;
    assert v * 10 + d == q * (10 * p) + (10 * r + d);
    RemainderIsUnique(v * 10 + d, 10 * p, q, 10 * r + d);
  }

  lemma LastDigit(v: nat, d: nat)
    requires d < 10
    ensures (v * 10 + d) / 1 % 10 == d
  {}

  /** Each digit has the weight of the digits after it, and stands for its distance from `0`. */
  lemma {:induction false} DigitOfValue(s: string, i: nat)
    requires AllDigits(s) && i < |s|
    ensures Value(s) / Pow10(|s| - 1 - i) % 10 == s[i] as int - '0' as int
  {
    var k := |s| - 1;
    var front, last := s[..k], DigitValue(s[k]);
    assert Value(s) == Value(front) * 10 + last;
    if i < k {
      DigitOfValue(front, i);
      assert front[i] == s[i] && Pow10(k - i) == 10 * Pow10(k - 1 - i);
      DivideByTen(Value(front), last, Pow10(k - 1 - i));
    } else {
      LastDigit(Value(front), last);
    }
  }

  /** A numeral with no redundant leading zero: exactly what `Print` produces. */
  predicate Canonical(s: string) {
    s != [] && AllDigits(s) && (|s| == 1 || s[0] != '0')
  }

  lemma {:induction false} ValueOfPrint(n: nat)
    ensures Value(Print(n)) == n
  {
    if n >= 10 {
      ValueOfPrint(n / 10);
      var s := Print(n);
      assert s[..|s| - 1] == Print(n / 10);
    }
  }

  lemma {:induction false} PrintIsCanonical(n: nat)
    ensures Canonical(Print(n))
    ensures n > 0 ==> Print(n)[0] != '0'
  {
    if n >= 10 {
      PrintIsCanonical(n / 10);
    }
  }

  lemma {:induction false} PrintOfValue(s: string)
    requires Canonical(s)
    ensures Print(Value(s)) == s
    ensures s[0] != '0' ==> Value(s) > 0
  {
    if |s| == 1 {
      assert s[..0] == [];
    } else {
      var front := s[..|s| - 1];
      PrintOfValue(front);
      assert s == front + [s[|s| - 1]];
    }
  }

  /** Rust's `str::parse` for an unsigned integer with the given maximum: an optional
      leading `+`, then at least one digit, and no overflow. */
  function ParseUnsigned(s: string, max: nat): (r: Option<nat>)
    ensures r.Some? ==> r.value <= max
  {
    var digits := if |s| > 1 && s[0] == '+' then s[1..] else s;
    if digits == [] || !AllDigits(digits) || Value(digits) > max then None else Some(Value(digits))
  }

  /** A text that writes `n`: its digits, with or without a plus sign and leading zeros. */
  predicate Writes(s: string, n: nat) {
    (s != [] && AllDigits(s) && Value(s) == n)
    || (|s| > 1 && s[0] == '+' && AllDigits(s[1..]) && Value(s[1..]) == n)
  }

  lemma ParsedIff(s: string, max: nat, n: nat)
    ensures ParseUnsigned(s, max) == Some(n) <==> Writes(s, n) && n <= max
  {
    if |s| > 1 && s[0] == '+' {
      assert !IsDigit(s[0]);
    }
  }

  lemma ParseOfPrint(n: nat, max: nat)
    requires n <= max
    ensures ParseUnsigned(Print(n), max) == Some(n)
  {
    ValueOfPrint(n);
    assert IsDigit(Print(n)[0]);
  }

  /** Reading and printing again gives back the text exactly when the numeral is canonical. */
  lemma PrintOfParse(s: string, max: nat)
    requires ParseUnsigned(s, max).Some?
    ensures Print(ParseUnsigned(s, max).value) == s <==> Canonical(s)
  {
    PrintIsCanonical(ParseUnsigned(s, max).value);
    if Canonical(s) {
      assert IsDigit(s[0]);
      PrintOfValue(s);
    }
  }
}
