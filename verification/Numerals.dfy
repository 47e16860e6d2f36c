/** Positional notation, least significant digit first. */
module Numerals {

  predicate IsNumeral(digits: seq<nat>, radix: nat) {
    forall i | 0 <= i < |digits| :: digits[i] < radix
  }

  /** The number a digit sequence stands for. */
  function Value(digits: seq<nat>, radix: nat): nat {
    if digits == [] then 0 else digits[0] + radix * Value(digits[1..], radix)
  }

  /** The shortest digit sequence for a number; zero has none. */
  function Digits(n: nat, radix: nat): (digits: seq<nat>)
    requires radix > 1
    ensures IsNumeral(digits, radix)
    ensures digits != [] ==> digits[|digits| - 1] != 0
    ensures digits == [] <==> n == 0
    decreases n
  {
    if n == 0 then [] else
      DivisionFacts(n, radix);
      var rest := Digits(n / radix, radix);
      [n % radix] + rest
  }

  function Power(radix: nat, exponent: nat): (p: nat)
    ensures radix > 0 ==> p > 0
  {
    if exponent == 0 then 1 else radix * Power(radix, exponent - 1)
  }

  function PowerOfTwo(exponent: nat): (p: nat)
    ensures p > 0
  {
    if exponent == 0 then 1 else 2 * PowerOfTwo(exponent - 1)
  }

  lemma MultiplyOrder(a: nat, x: int, y: int)
    requires x <= y
    ensures a * x <= a * y
    ensures x < y ==> a * x + a <= a * y
  {
    var d := y - x;
    assert a * y == a * x + a * d;
    if d > 0 { assert a * d == a * (d - 1) + a; }
  }

  lemma QuotientUnique(d: nat, q: int, r: int, q': int, r': int)
    requires d * q + r == d * q' + r' && 0 <= r < d && 0 <= r' < d
    ensures q == q' && r == r'
  {
    if q < q' {
      MultiplyOrder(d, q, q');
    } else {
      MultiplyOrder(d, q', q);
    }
  }

  lemma DivisionFacts(n: nat, radix: nat)
    requires radix > 1
    ensures n == radix * (n / radix) + n % radix
    ensures 0 <= n % radix < radix
    ensures n > 0 ==> n / radix < n
    ensures n / radix == 0 ==> n % radix == n
  {
    var q, r := n / radix, n % radix;
    assert n == radix * q + r;
    MultiplyOrder(q, 2, radix);
    assert q * radix == radix * q;
  }

  lemma DivModUnique(q: nat, r: nat, radix: nat)
    requires r < radix && radix > 1
    ensures (r + radix * q) / radix == q && (r + radix * q) % radix == r
  {
    var n := r + radix * q;
    DivisionFacts(n, radix);
    QuotientUnique(radix, q, r, n / radix, n % radix);
  }

  lemma SumPositive(digit: nat, q: nat, radix: nat)
    requires radix > 0 && (digit > 0 || q > 0)
    ensures digit + radix * q > 0
  {
    MultiplyOrder(radix, 0, q);
  }

  lemma DigitsStep(n: nat, radix: nat)
    requires radix > 1 && n > 0
    ensures Digits(n, radix) == [n % radix] + Digits(n / radix, radix)
  {
  }

  lemma ValueStep(digit: nat, rest: seq<nat>, radix: nat)
    ensures Value([digit] + rest, radix) == digit + radix * Value(rest, radix)
  {
    assert ([digit] + rest)[1..] == rest;
  }

  lemma {:induction false} ValueOfDigits(n: nat, radix: nat)
    requires radix > 1
    ensures Value(Digits(n, radix), radix) == n
    decreases n
  {
    if n > 0 {
      hide Value;
      hide Digits;
      var q, d := n / radix, n % radix;
      DivisionFacts(n, radix);
      DigitsStep(n, radix);
      ValueOfDigits(q, radix);
      ValueStep(d, Digits(q, radix), radix);
      assert Value([d] + Digits(q, radix), radix) == d + radix * q;
    }
  }

  /** Digit sequences without a leading (most significant) zero are the canonical ones. */
  lemma {:induction false} DigitsOfValue(digits: seq<nat>, radix: nat)
    requires radix > 1 && IsNumeral(digits, radix)
    requires digits == [] || digits[|digits| - 1] != 0
    ensures Digits(Value(digits, radix), radix) == digits
  {
    if digits != [] {
      hide Value;
      hide Digits;
      var q := Value(digits[1..], radix);
      DigitsOfValue(digits[1..], radix);
      assert digits == [digits[0]] + digits[1..];
      ValueStep(digits[0], digits[1..], radix);
      DivModUnique(q, digits[0], radix);
      SumPositive(digits[0], q, radix);
      DigitsStep(Value(digits, radix), radix);
    }
  }

  lemma {:induction false} PowerGrows(a: nat, b: nat)
    requires a <= b
    ensures Power(256, a) <= Power(256, b)
  {
    if a < b { PowerGrows(a, b - 1); }
  }

  lemma {:induction false} ValueBound(digits: seq<nat>, radix: nat)
    requires IsNumeral(digits, radix)
    ensures Value(digits, radix) < Power(radix, |digits|)
  {
    if digits != [] {
      ValueBound(digits[1..], radix);
      MultiplyOrder(radix, Value(digits[1..], radix), Power(radix, |digits| - 1));
    }
  }

  lemma {:induction false} ValueAppend(low: seq<nat>, high: seq<nat>, radix: nat)
    ensures Value(low + high, radix) == Value(low, radix) + Power(radix, |low|) * Value(high, radix)
  {
    if low == [] {
      assert low + high == high;
    } else {
      ValueAppend(low[1..], high, radix);
      assert (low + high)[1..] == low[1..] + high;
      DistributeOver(radix, Value(low[1..], radix), Power(radix, |low| - 1), Value(high, radix));
    }
  }

  lemma DistributeOver(r: nat, v: nat, p: nat, w: nat)
    ensures r * (v + p * w) == r * v + (r * p) * w
  {
    var pw := p * w;
    assert r * (v + pw) == r * v + r * pw;
  }
}
