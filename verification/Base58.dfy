/** `encode_base58` and `decode_base58`: two instances of one change of radix that keeps leading zeros. */
module Base58 {
  import opened Types
  import opened Numerals
  import opened BigNumber

  function LeadingZeros(digits: seq<nat>): (n: nat)
    ensures n <= |digits|
    ensures forall i | 0 <= i < n :: digits[i] == 0
    ensures n < |digits| ==> digits[n] != 0
  {
    if digits == [] || digits[0] != 0 then 0 else 1 + LeadingZeros(digits[1..])
  }

  /** Digits are written most significant first, and every leading zero is kept. */
  function Convert(digits: seq<nat>, from: nat, to: nat): seq<nat>
    requires to > 1
  {
    Zeros(LeadingZeros(digits)) + Reversed(Digits(Value(Reversed(digits), from), to))
  }

  lemma {:induction false} ValueOfZeros(z: nat, radix: nat)
    ensures Value(Zeros(z), radix) == 0
  {
    if z > 0 {
      ValueOfZeros(z - 1, radix);
      assert Zeros(z)[1..] == Zeros(z - 1);
      assert radix * 0 == 0;
    }
  }

  lemma ValueWithZeros(core: seq<nat>, z: nat, radix: nat)
    ensures Value(Reversed(Zeros(z) + core), radix) == Value(Reversed(core), radix)
  {
    assert Reversed(Zeros(z) + core) == Reversed(core) + Zeros(z);
    ValueAppend(Reversed(core), Zeros(z), radix);
    ValueOfZeros(z, radix);
    assert Power(radix, |core|) * 0 == 0;
  }

  /** Changing the radix and changing it back restores the digits, leading zeros included. */
  lemma ConvertBack(digits: seq<nat>, a: nat, b: nat)
    requires a > 1 && b > 1 && IsNumeral(digits, a)
    ensures Convert(Convert(digits, a, b), b, a) == digits
  {
    var z := LeadingZeros(digits);
    var core := digits[z..];
    assert digits == Zeros(z) + core;
    ValueWithZeros(core, z, a);
    var v := Value(Reversed(core), a);
    var d := Digits(v, b);
    var out := Convert(digits, a, b);
    assert out == Zeros(z) + Reversed(d);
    LeadingZerosOf(z, Reversed(d), out);
    ValueWithZeros(Reversed(d), z, b);
    ReversedTwice(d);
    ValueOfDigits(v, b);
    DigitsOfValue(Reversed(core), a);
    ReversedTwice(core);
  }

  lemma LeadingZerosOf(z: nat, core: seq<nat>, out: seq<nat>)
    requires out == Zeros(z) + core && (core == [] || core[0] != 0)
    ensures LeadingZeros(out) == z
  {
    assert out[..z] == Zeros(z);
    assert forall i | 0 <= i < z :: out[i] == out[..z][i] == 0;
  }

  // ---- the alphabet

  /** Digits, then capitals without I and O, then small letters without l; no zero. */
  function DigitChar(d: nat): char
    requires d < 58
  {
    if d < 9 then '1' + d as char
    else if d < 17 then 'A' + (d - 9) as char
    else if d < 22 then 'J' + (d - 17) as char
    else if d < 33 then 'P' + (d - 22) as char
    else if d < 44 then 'a' + (d - 33) as char
    else 'm' + (d - 44) as char
  }

  /** `find`: the position in the alphabet, or the not-found value cut to 32 bits. */
  function CharValue(c: char): nat {
    if '1' <= c <= '9' then (c - '1') as nat
    else if 'A' <= c <= 'H' then (c - 'A') as nat + 9
    else if 'J' <= c <= 'N' then (c - 'J') as nat + 17
    else if 'P' <= c <= 'Z' then (c - 'P') as nat + 22
    else if 'a' <= c <= 'k' then (c - 'a') as nat + 33
    else if 'm' <= c <= 'z' then (c - 'm') as nat + 44
    else 0xffff_ffff
  }

  predicate OverAlphabet(s: string) {
    forall i | 0 <= i < |s| :: CharValue(s[i]) < 58
  }

  lemma CharOfDigit(d: nat)
    requires d < 58
    ensures CharValue(DigitChar(d)) == d
  {
  }

  lemma DigitOfChar(c: char)
    requires CharValue(c) < 58
    ensures DigitChar(CharValue(c)) == c
  {
  }

  function Values(s: string): (r: seq<nat>)
    ensures |r| == |s| && forall i | 0 <= i < |s| :: r[i] == CharValue(s[i])
  {
    seq(|s|, i requires 0 <= i < |s| => CharValue(s[i]))
  }

  function Chars(digits: seq<nat>): (r: string)
    requires IsNumeral(digits, 58)
    ensures |r| == |digits|
    ensures forall i | 0 <= i < |r| :: r[i] == DigitChar(digits[i])
  {
    seq(|digits|, i requires 0 <= i < |digits| => DigitChar(digits[i]))
  }

  lemma ValuesOfChars(digits: seq<nat>)
    requires IsNumeral(digits, 58)
    ensures Values(Chars(digits)) == digits
    ensures OverAlphabet(Chars(digits))
  {
    forall i | 0 <= i < |digits|
      ensures CharValue(Chars(digits)[i]) == digits[i]
    {
      CharOfDigit(digits[i]);
    }
  }

  lemma CharsOfValues(s: string)
    requires OverAlphabet(s)
    ensures IsNumeral(Values(s), 58)
    ensures Chars(Values(s)) == s
  {
    forall i | 0 <= i < |s|
      ensures DigitChar(CharValue(s[i])) == s[i]
    {
      DigitOfChar(s[i]);
    }
  }

  lemma ConvertIsNumeral(digits: seq<nat>, from: nat, to: nat)
    requires to > 1
    ensures IsNumeral(Convert(digits, from, to), to)
  {
  }

  // ---- the two loops

  function Encode(data: Bytes): string {
    ConvertIsNumeral(data, 256, 58);
    Chars(Convert(data, 256, 58))
  }

  function Decode(s: string): Bytes {
    ConvertIsNumeral(Values(s), 58, 256);
    Convert(Values(s), 58, 256)
  }

  /** The division loop writes the digits least significant first. */
  method DivideOut(number: nat) returns (encoded: string)
    ensures encoded == Chars(Digits(number, 58))
  {
    var value := number;
    ghost var all := Digits(number, 58);
    ghost var done: seq<nat> := [];
    encoded := "";
    while value > 0
      invariant done + Digits(value, 58) == all
      invariant IsNumeral(done, 58) && encoded == Chars(done)
    {
      DivisionFacts(value, 58);
      assert Digits(value, 58) == [value % 58] + Digits(value / 58, 58);
      done := done + [value % 58];
      encoded := encoded + [DigitChar(value % 58)];
      value := value / 58;
    }
    assert done == all;
  }

  method EncodeBase58(data: Bytes) returns (encoded: string)
    requires data != []
    ensures encoded == Encode(data)
  {
    hide Digits;
    PositiveValue(data);
    encoded := DivideOut(SetData(Reversed(data) + [0]));
    ghost var all := Digits(Value(Reversed(data), 256), 58);
    var i := 0;
    while i < |data| && data[i] == 0
      invariant i <= |data| && forall j | 0 <= j < i :: data[j] == 0
      invariant encoded == Chars(all + Zeros(i))
    {
      encoded := encoded + [DigitChar(0)];
      i := i + 1;
    }
    LeadingZerosAt(data, i);
    EncodeAssembled(data, i);
    encoded := Reversed(encoded);
  }

  lemma EncodeAssembled(data: Bytes, z: nat)
    requires z == LeadingZeros(data)
    ensures var all := Digits(Value(Reversed(data), 256), 58);
            Reversed(Chars(all + Zeros(z))) == Encode(data)
  {
    hide Digits;
    var digits: seq<nat> := data;
    assert Reversed(digits) == Reversed(data);
    var all := Digits(Value(Reversed(data), 256), 58);
    ConvertIsNumeral(data, 256, 58);
    ReverseJoin(all, Zeros(z));
    assert Convert(data, 256, 58) == Reversed(all + Zeros(z));
  }

  lemma ReverseJoin(low: seq<nat>, high: seq<nat>)
    ensures Reversed(low + high) == Reversed(high) + Reversed(low)
  {
  }

  lemma PositiveValue(data: Bytes)
    ensures SetData(Reversed(data) + [0]) == Value(Reversed(data), 256)
  {
    assert Magnitude(Reversed(data) + [0]) == Reversed(data) + [0];
    ValueDropTopZero(Reversed(data));
  }

  /** Dropping the sign byte of a non-negative number leaves its shortest digits. */
  lemma TrimmedData(n: nat, d: Bytes)
    requires d == Data(n)
    ensures var k := |d| - 1;
            Digits(n, 256) == if |d| >= 2 && d[k] == 0 && d[k - 1] >= 0x80 then d[..k] else d
  {
    var digits := Digits(n, 256);
    if n > 0 {
      var k := |digits| - 1;
      assert digits[..k] + [digits[k]] == digits;
    }
  }

  method TrimSign(number: nat) returns (temp: Bytes)
    ensures temp == Digits(number, 256)
  {
    temp := Data(number);
    TrimmedData(number, temp);
    if |temp| >= 2 && temp[|temp| - 1] == 0 && temp[|temp| - 2] >= 0x80 {
      temp := temp[..|temp| - 1];
    }
  }

  method ToNumber(s: string) returns (number: nat)
    ensures number == Value(Reversed(Values(s)), 58)
  {
    number := 0;
    ghost var values := Values(s);
    for i := 0 to |s|
      invariant number == Value(Reversed(values[..i]), 58)
    {
      assert Reversed(values[..i + 1]) == [values[i]] + Reversed(values[..i]);
      number := number * 58 + CharValue(s[i]);
    }
    assert values[..|s|] == values;
  }

  method CountOnes(s: string) returns (zeros: nat)
    ensures zeros == LeadingZeros(Values(s))
  {
    zeros := 0;
    while zeros < |s| && s[zeros] == DigitChar(0)
      invariant zeros <= |s| && forall j | 0 <= j < zeros :: Values(s)[j] == 0
    {
      zeros := zeros + 1;
    }
    LeadingZerosAt(Values(s), zeros);
  }

  method DecodeBase58(s: string) returns (data: Bytes)
    ensures data == Decode(s)
  {
    hide Digits;
    hide Value;
    var number := ToNumber(s);
    var temp := TrimSign(number);
    var zeros := CountOnes(s);
    data := Zeros(zeros) + Reversed(temp);
    ghost var digits: seq<nat> := temp;
    assert Reversed(digits) == Reversed(temp);
  }

  lemma LeadingZerosAt(values: seq<nat>, z: nat)
    requires z <= |values| && forall j | 0 <= j < z :: values[j] == 0
    requires z < |values| ==> values[z] != 0
    ensures LeadingZeros(values) == z
  {
    assert values == Zeros(z) + values[z..];
    LeadingZerosOf(z, values[z..], values);
  }

  /** Decoding undoes encoding on every byte string, encoding undoes decoding on every string over
      the alphabet. */
  lemma Base58RoundTrips(data: Bytes, s: string)
    requires OverAlphabet(s)
    ensures Decode(Encode(data)) == data && OverAlphabet(Encode(data))
    ensures Encode(Decode(s)) == s
  {
    ConvertIsNumeral(data, 256, 58);
    ValuesOfChars(Convert(data, 256, 58));
    ConvertBack(data, 256, 58);
    CharsOfValues(s);
    ConvertBack(Values(s), 58, 256);
  }

  /** The alphabet in order. */
  lemma AlphabetIs(d: nat)
    requires d < 58
    ensures d < 9 ==> DigitChar(d) == "123456789"[d]
    ensures 9 <= d < 17 ==> DigitChar(d) == "ABCDEFGH"[d - 9]
    ensures 17 <= d < 22 ==> DigitChar(d) == "JKLMN"[d - 17]
    ensures 22 <= d < 33 ==> DigitChar(d) == "PQRSTUVWXYZ"[d - 22]
    ensures 33 <= d < 44 ==> DigitChar(d) == "abcdefghijk"[d - 33]
    ensures 44 <= d ==> DigitChar(d) == "mnopqrstuvwxyz"[d - 44]
  {
  }

  /** The text stands for the same number as the bytes, both most significant first, and starts with a one
      for every leading zero byte. */
  lemma EncodedValue(data: Bytes)
    ensures Value(Reversed(Values(Encode(data))), 58) == Value(Reversed(AsDigits(data)), 256)
    ensures LeadingZeros(Values(Encode(data))) == LeadingZeros(data)
  {
    ConvertIsNumeral(data, 256, 58);
    ValuesOfChars(Convert(data, 256, 58));
    ConvertedValue(data, 256, 58);
  }

  function AsDigits(data: Bytes): seq<nat> { data }

  lemma ConvertedValue(data: seq<nat>, from: nat, to: nat)
    requires from > 1 && to > 1
    ensures Value(Reversed(Convert(data, from, to)), to) == Value(Reversed(data), from)
    ensures LeadingZeros(Convert(data, from, to)) == LeadingZeros(data)
  {
    var z, core := LeadingZeros(data), Reversed(Digits(Value(Reversed(data), from), to));
    ValueWithZeros(core, z, to);
    ReversedTwice(Digits(Value(Reversed(data), from), to));
    ValueOfDigits(Value(Reversed(data), from), to);
    hide Digits;
    hide Value;
    assert core != [] ==> core[0] != 0;
    LeadingZerosOf(z, core, Convert(data, from, to));
  }
}
