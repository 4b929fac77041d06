/** Decimal numbers as text: how they are printed, and what `parse` accepts. */
module Decimal {
  import opened Wrappers

  const U64_MAX: nat := 0xFFFF_FFFF_FFFF_FFFF
  const I64_MAX: nat := 0x7FFF_FFFF_FFFF_FFFF
  const I64_MIN: int := -0x8000_0000_0000_0000

  predicate IsDigit(c: char) {
    '0' <= c <= '9'
  }

  predicate AllDigits(s: string) {
    forall i | 0 <= i < |s| :: IsDigit(s[i])
  }

  function DigitValue(c: char): (d: nat)
    requires IsDigit(c)
    ensures d < 10
  {
    c as int - '0' as int
  }

  function DigitChar(d: nat): (c: char)
    requires d < 10
    ensures IsDigit(c) && DigitValue(c) == d
  {
    ('0' as int + d) as char
  }

  function Value(s: string): nat
    requires AllDigits(s)
  {
    if s == [] then 0 else 10 * Value(s[..|s| - 1]) + DigitValue(s[|s| - 1])
  }

  function Print(n: nat): (s: string)
    ensures s != [] && AllDigits(s) && Value(s) == n
  {
    if n < 10 then [DigitChar(n)]
    else
      var s := Print(n / 10) + [DigitChar(n % 10)];
      assert s[..|s| - 1] == Print(n / 10);
      s
  }

  function Pow10(k: nat): (r: nat)
    ensures r > 0
  {
    if k == 0 then 1 else 10 * Pow10(k - 1)
  }

  lemma Regroup(v: nat, p: nat, w: nat, d: nat)
    ensures 10 * (v * p + w) + d == v * (10 * p) + (10 * w + d)
  {
  }

  lemma {:induction false} ValueOfConcat(a: string, b: string)
    requires AllDigits(a) && AllDigits(b)
    ensures AllDigits(a + b) && Value(a + b) == Value(a) * Pow10(|b|) + Value(b)
    decreases |b|
  {
    if b == [] {
      assert a + b == a;
    } else {
      var front := b[..|b| - 1];
      ValueOfConcat(a, front);
      assert (a + b)[..|a + b| - 1] == a + front;
      Regroup(Value(a), Pow10(|front|), Value(front), DigitValue(b[|b| - 1]));
    }
  }

  lemma {:induction false} ValueBelow(s: string)
    requires AllDigits(s)
    ensures Value(s) < Pow10(|s|)
    decreases |s|
  {
    if s == [] {
    } else {
      ValueBelow(s[..|s| - 1]);
    }
  }

  lemma SameLastDigit(v: nat, w: nat, d: nat, e: nat)
    requires d < 10 && e < 10 && 10 * v + d == 10 * w + e
    ensures v == w && d == e
  {}

  /** Equally long numerals of the same value are the same text. */
  lemma {:induction false} ValueIsInjective(s: string, t: string)
    requires AllDigits(s) && AllDigits(t) && |s| == |t| && Value(s) == Value(t)
    ensures s == t
    decreases |s|
  {
    if s == [] {
    } else {
      var n := |s| - 1;
      SameLastDigit(Value(s[..n]), Value(t[..n]), DigitValue(s[n]), DigitValue(t[n]));
      hide Value;
      ValueIsInjective(s[..n], t[..n]);
      assert s == s[..n] + [s[n]] && t == t[..n] + [t[n]];
    }
  }

  /** What follows an optional sign must be one or more digits. */
  function ParseDigits(s: string): Option<nat> {
    if s != [] && AllDigits(s) then Some(Value(s)) else None
  }

  function ParseU64(s: string): Option<nat> {
    var magnitude := ParseDigits(if s != [] && s[0] == '+' then s[1..] else s);
    if magnitude.Some? && magnitude.value <= U64_MAX then magnitude else None
  }

  function ParseI64(s: string): Option<int> {
    if s != [] && s[0] == '-' then
      var magnitude := ParseDigits(s[1..]);
      if magnitude.Some? && magnitude.value <= -I64_MIN then Some(0 - magnitude.value) else None
    else
      var magnitude := ParseDigits(if s != [] && s[0] == '+' then s[1..] else s);
      if magnitude.Some? && magnitude.value <= I64_MAX then Some(magnitude.value) else None
  }

  /** Digits alone parse exactly when their value fits. */
  lemma ParseOfDigits(s: string)
    requires s != [] && AllDigits(s)
    ensures ParseU64(s) == if Value(s) <= U64_MAX then Some(Value(s)) else None
    ensures ParseI64(s) == if Value(s) <= I64_MAX then Some(Value(s)) else None
  {
    assert IsDigit(s[0]);
  }

  lemma InnerNonDigit(s: string, i: nat)
    requires 0 < i < |s| && !IsDigit(s[i])
    ensures ParseI64(s).None? && ParseU64(s).None?
  {
    assert s[1..][i - 1] == s[i];
  }
}
