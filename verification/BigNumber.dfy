/** `big_number` over OpenSSL's MPI form: sign-magnitude bytes, the sign in the top bit. The script
    form (`data`) is that body with the least significant byte first; `compact` keeps its top three bytes. */
module BigNumber {
  import opened Types
  import opened Numerals

  function Abs(n: int): nat { if n < 0 then -n else n }

  /** A magnitude and a sign bit; one more byte when the top bit of the magnitude is taken. */
  function SignMagnitude(digits: Bytes, negative: bool): Bytes
    requires digits != []
  {
    var k, sign := |digits| - 1, if negative then 128 else 0;
    if digits[k] >= 128 then digits + [sign] else digits[..k] + [digits[k] + sign]
  }

  /** `data`: the shortest sign-magnitude form; zero has no bytes. */
  function Data(n: int): Bytes {
    if n == 0 then [] else SignMagnitude(Digits(Abs(n), 256), n < 0)
  }

  /** The bytes without the sign bit. */
  function Magnitude(bytes: Bytes): Bytes
    requires bytes != []
  {
    bytes[..|bytes| - 1] + [bytes[|bytes| - 1] % 128]
  }

  /** `set_data`: the top bit of the last byte is the sign, everything else the magnitude. */
  function SetData(bytes: Bytes): int {
    if bytes == [] then 0
    else if bytes[|bytes| - 1] >= 128 then -(Value(Magnitude(bytes), 256) as int)
    else Value(Magnitude(bytes), 256)
  }

  /** No shorter byte string stands for the same number, and zero is the empty one. */
  predicate Canonical(bytes: Bytes) {
    var k := |bytes| - 1;
    bytes == [] || bytes[k] % 128 != 0 || (k > 0 && bytes[k - 1] >= 128)
  }

  lemma {:induction false} ValueIsZero(digits: seq<nat>)
    ensures Value(digits, 256) == 0 <==> forall i | 0 <= i < |digits| :: digits[i] == 0
  {
    if digits != [] {
      ValueIsZero(digits[1..]);
      assert digits == [digits[0]] + digits[1..];
      assert Value(digits, 256) == 0 <==> digits[0] == 0 && Value(digits[1..], 256) == 0;
      assert forall i | 0 <= i < |digits[1..]| :: digits[1..][i] == digits[i + 1];
    }
  }

  lemma ValueDropTopZero(digits: seq<nat>)
    ensures Value(digits + [0], 256) == Value(digits, 256)
  {
    ValueAppend(digits, [0], 256);
    assert Value([0], 256) == 0;
  }

  lemma SignMagnitudeParts(digits: Bytes, negative: bool)
    requires digits != [] && digits[|digits| - 1] != 0
    ensures var bytes := SignMagnitude(digits, negative);
            && bytes != [] && (bytes[|bytes| - 1] >= 128) == negative
            && Magnitude(bytes) == (if digits[|digits| - 1] >= 128 then digits + [0] else digits)
            && Canonical(bytes)
  {
    var bytes, k := SignMagnitude(digits, negative), |digits| - 1;
    if digits[k] >= 128 {
      assert bytes[..k + 1] == digits;
    } else {
      assert bytes[..k] == digits[..k] && digits[..k] + [digits[k]] == digits;
    }
  }

  /** Every integer survives its byte form, and that form is canonical. */
  lemma DataRoundTrip(n: int)
    ensures SetData(Data(n)) == n && Canonical(Data(n))
    ensures n > 0 ==> Data(n)[|Data(n)| - 1] < 128
  {
    if n != 0 {
      var digits := Digits(Abs(n), 256);
      ValueOfDigits(Abs(n), 256);
      SignMagnitudeParts(digits, n < 0);
      ValueDropTopZero(digits);
    }
  }

  lemma SignMagnitudeOfParts(bytes: Bytes, digits: Bytes)
    requires Canonical(bytes) && bytes != []
    requires digits == if bytes[|bytes| - 1] % 128 == 0 then bytes[..|bytes| - 1] else Magnitude(bytes)
    ensures digits != [] && digits[|digits| - 1] != 0
    ensures SignMagnitude(digits, bytes[|bytes| - 1] >= 128) == bytes
  {
    var k := |bytes| - 1;
    assert bytes == bytes[..k] + [bytes[k]];
    if bytes[k] % 128 != 0 {
      assert digits[..k] == bytes[..k];
    }
  }

  /** The byte form is reproduced exactly from canonical bytes. */
  lemma DataOfSetData(bytes: Bytes)
    ensures Data(SetData(bytes)) == bytes <==> Canonical(bytes)
  {
    DataRoundTrip(SetData(bytes));
    if Canonical(bytes) && bytes != [] {
      var k := |bytes| - 1;
      var digits := if bytes[k] % 128 == 0 then bytes[..k] else Magnitude(bytes);
      SignMagnitudeOfParts(bytes, digits);
      ValueDropTopZero(bytes[..k]);
      DigitsOfValue(digits, 256);
      assert Abs(SetData(bytes)) == Value(digits, 256);
      assert Value(digits, 256) > 0 by { ValueIsZero(digits); }
    }
  }

  /** A shorter or equal canonical form exists for every positive number. */
  lemma {:induction false} DataIsShortest(bytes: Bytes)
    requires SetData(bytes) > 0
    ensures |Data(SetData(bytes))| <= |bytes|
    decreases |bytes|
  {
    var k := |bytes| - 1;
    if Canonical(bytes) {
      DataOfSetData(bytes);
    } else {
      ValueDropTopZero(bytes[..k]);
      var shorter := bytes[..k];
      assert shorter != [] by { ValueIsZero(bytes[..k]); }
      assert Magnitude(shorter) == shorter && Magnitude(bytes) == shorter + [0];
      DataIsShortest(shorter);
    }
  }

  /** `cast_to_bool`: a byte string is true exactly when it stands for a non-zero number;
      the loop lets the sign bit alone through as negative zero. */
  method CastToBool(values: Bytes) returns (b: bool)
    ensures b == (SetData(values) != 0)
  {
    var k := |values| - 1;
    ghost var magnitude: seq<nat> := if values == [] then [] else Magnitude(values);
    ValueIsZero(magnitude);
    for i := 0 to |values|
      invariant forall j | 0 <= j < i :: values[j] == 0
    {
      if values[i] != 0 {
        if i == |values| - 1 && values[i] == 0x80 { return false; }
        assert magnitude[i] != 0;
        return true;
      }
    }
    return false;
  }

  // ---- the compact form

  /** The exponent byte and the three mantissa bytes, most significant first. */
  datatype CompactParts = CompactParts(size: byte, m0: byte, m1: byte, m2: byte)

  function Unpack(c: uint32): CompactParts {
    CompactParts(c / 256 / 256 / 256, c / 256 / 256 % 256, c / 256 % 256, c % 256)
  }

  function Pack(p: CompactParts): uint32 {
    ((p.size * 256 + p.m0) * 256 + p.m1) * 256 + p.m2
  }

  lemma PackUnpack(c: uint32)
    ensures Pack(Unpack(c)) == c
  {
  }

  lemma UnpackPack(p: CompactParts)
    ensures Unpack(Pack(p)) == p
  {
    var c2 := p.size * 256 + p.m0;
    var c1 := c2 * 256 + p.m1;
    assert Pack(p) / 256 == c1 && Pack(p) % 256 == p.m2;
    assert c1 / 256 == c2 && c1 % 256 == p.m1;
    assert c2 / 256 == p.size && c2 % 256 == p.m0;
  }

  /** The body `set_compact` hands to OpenSSL, least significant byte first. */
  function Body(p: CompactParts): (body: Bytes)
    ensures |body| == p.size
  {
    if p.size == 0 then []
    else if p.size == 1 then [p.m0]
    else if p.size == 2 then [p.m1, p.m0]
    else Zeros(p.size - 3) + [p.m2, p.m1, p.m0]
  }

  function Zeros(n: nat): (z: Bytes)
    ensures |z| == n && forall i | 0 <= i < n :: z[i] == 0
  {
    seq(n, _ => 0)
  }

  function SetCompact(c: uint32): int {
    SetData(Body(Unpack(c)))
  }

  function TopByte(body: Bytes, below: nat): byte {
    if below < |body| then body[|body| - 1 - below] else 0
  }

  function PartsOf(body: Bytes): CompactParts {
    CompactParts(|body| % 256, TopByte(body, 0), TopByte(body, 1), TopByte(body, 2))
  }

  /** `compact`: the size and the three most significant bytes. */
  function Compact(n: int): uint32 {
    Pack(PartsOf(Data(n)))
  }

  lemma ThreeBytes(a: nat, b: nat, c: nat)
    ensures Value([a, b, c], 256) == a + 256 * (b + 256 * c)
  {
    assert [a, b, c][1..] == [b, c] && [b, c][1..] == [c] && [c][1..] == [];
    assert Value([c], 256) == c;
  }

  /** The mantissa of an encoding without its sign bit. */
  lemma MantissaParts(c: uint32)
    ensures var p, m := Unpack(c), c % 0x100_0000;
            && p.size == c / 0x100_0000 && m == (p.m0 * 256 + p.m1) * 256 + p.m2
            && (p.m0 >= 128 <==> m >= 0x80_0000)
            && m % 0x80_0000 == (p.m0 % 128 * 256 + p.m1) * 256 + p.m2
  {
    var p := Unpack(c);
    PackUnpack(c);
    var m := (p.m0 * 256 + p.m1) * 256 + p.m2;
    assert c == p.size * 0x100_0000 + m && m < 0x100_0000;
    assert p.m0 == p.m0 / 128 * 128 + p.m0 % 128;
  }

  lemma LongBody(p: CompactParts)
    requires p.size >= 3
    ensures var magnitude := Power(256, p.size - 3) * ((p.m0 % 128 * 256 + p.m1) * 256 + p.m2);
            SetData(Body(p)) == if p.m0 >= 128 then -magnitude else magnitude
  {
    var k: nat := p.size - 3;
    var top: seq<nat> := [p.m2, p.m1, p.m0 % 128];
    var body := Body(p);
    assert body[p.size - 1] == p.m0;
    assert Magnitude(body) == Zeros(k) + top;
    hide Power;
    hide Value;
    ValueAppend(Zeros(k), top, 256);
    ValueIsZero(Zeros(k));
    ThreeBytes(p.m2, p.m1, p.m0 % 128);
  }

  lemma ShortBody(p: CompactParts)
    requires p.size < 3
    ensures var m := (p.m0 % 128 * 256 + p.m1) * 256 + p.m2;
            var magnitude := if p.size == 0 then 0 else if p.size == 1 then m / 0x1_0000 else m / 0x100;
            SetData(Body(p)) == if p.m0 >= 128 then -magnitude else magnitude
  {
    var low := p.m0 % 128;
    if p.size == 1 {
      assert Magnitude([p.m0]) == [low];
      assert Value([low], 256) == low;
    } else if p.size == 2 {
      assert Magnitude([p.m1, p.m0]) == [p.m1, low];
      assert [p.m1, low][1..] == [low] && Value([low], 256) == low;
      assert Value([p.m1, low], 256) == p.m1 + 256 * low;
    }
  }

  /** The usual reading of the compact form: a signed 23-bit mantissa times 256 to the size less three,
      and for smaller sizes the mantissa with its low bytes cut off. */
  lemma CompactFormula(c: uint32)
    ensures var size, mantissa := c / 0x100_0000, c % 0x100_0000;
            var m := mantissa % 0x80_0000;
            var magnitude := if size >= 3 then Power(256, size - 3) * m
                             else if size == 2 then m / 0x100 else if size == 1 then m / 0x1_0000 else 0;
            SetCompact(c) == if mantissa >= 0x80_0000 then -magnitude else magnitude
  {
    hide Power;
    hide SetData;
    hide Body;
    MantissaParts(c);
    hide Unpack;
    if c / 0x100_0000 >= 3 { LongBody(Unpack(c)); } else { ShortBody(Unpack(c)); }
  }

  lemma BodyOfParts(body: Bytes)
    requires |body| < 256
    ensures Body(PartsOf(body)) ==
            if |body| <= 3 then body else Zeros(|body| - 3) + body[|body| - 3..]
  {
  }

  /** The number a three-byte top stands for, and its least value in a canonical body. */
  lemma TopThree(n: nat, body: Bytes, k: nat)
    requires body == Data(n) && k == |body| - 3 && k > 0
    ensures body[|body| - 1] < 128
    ensures Value(body[k..], 256) >= 0x8000
  {
    DataRoundTrip(n);
    var top: seq<nat> := body[k..];
    assert Value(top[3..], 256) == 0;
    assert Value(top[2..], 256) == top[2] + 256 * Value(top[2..][1..], 256);
    assert top[2..][1..] == top[3..];
    assert Value(top[1..], 256) == top[1] + 256 * Value(top[1..][1..], 256);
    assert top[1..][1..] == top[2..];
    assert Value(top, 256) == top[0] + 256 * (top[1] + 256 * top[2]);
  }

  lemma SplitValue(n: nat, body: Bytes, k: nat)
    requires body == Data(n) && k == |body| - 3 && k > 0
    ensures n == Value(body[..k], 256) + Power(256, k) * Value(body[k..], 256)
    ensures SetData(Zeros(k) + body[k..]) == Power(256, k) * Value(body[k..], 256)
  {
    TopThree(n, body, k);
    DataRoundTrip(n);
    var last := |body| - 1;
    assert Magnitude(body) == body;
    assert body == body[..k] + body[k..];
    ValueAppend(body[..k], body[k..], 256);
    var cut := Zeros(k) + body[k..];
    assert cut[last] == body[last];
    assert Magnitude(cut) == cut;
    ValueAppend(Zeros(k), body[k..], 256);
    ValueIsZero(Zeros(k));
  }

  /** Decoding a compact form loses less than one part in 2^15 and never gains. */
  lemma CompactTruncates(n: nat)
    requires |Data(n)| < 256
    ensures 0 <= SetCompact(Compact(n)) <= n
    ensures n > 0 ==> (n - SetCompact(Compact(n))) * 0x8000 < n
  {
    var body := Data(n);
    UnpackPack(PartsOf(body));
    BodyOfParts(body);
    DataRoundTrip(n);
    if |body| > 3 {
      var k := |body| - 3;
      SplitValue(n, body, k);
      TopThree(n, body, k);
      ValueBound(body[..k], 256);
      MultiplyOrder(Power(256, k), 0x8000, Value(body[k..], 256));
    }
  }

  lemma TopDigitBound(digits: seq<nat>)
    requires digits != []
    ensures Value(digits, 256) >= Power(256, |digits| - 1) * digits[|digits| - 1]
  {
    var k := |digits| - 1;
    ValueAppend(digits[..k], [digits[k]], 256);
    assert digits == digits[..k] + [digits[k]];
    assert Value([digits[k]], 256) == digits[k];
  }

  lemma DataLowerBound(n: nat)
    requires |Data(n)| >= 2
    ensures n >= 128 * Power(256, |Data(n)| - 2)
  {
    var digits := Digits(n, 256);
    var k := |digits| - 1;
    ValueOfDigits(n, 256);
    TopDigitBound(digits);
    MultiplyOrder(Power(256, k), if digits[k] >= 128 then 128 else 1, digits[k]);
    hide Value;
    hide Digits;
    if |Data(n)| == |digits| {
      assert Power(256, k) == 256 * Power(256, k - 1);
    }
  }

  /** Where `CompactTruncates` stops: a size that does not fit its byte loses almost everything. */
  lemma CompactOverflows(n: nat)
    requires |Data(n)| >= 256
    ensures SetCompact(Compact(n)) * 2 <= n
    ensures !((n - SetCompact(Compact(n))) * 0x8000 < n)
  {
    var body := Data(n);
    UnpackPack(PartsOf(body));
    var cut := Body(PartsOf(body));
    assert |cut| == |body| % 256 <= |body| - 2;
    DataLowerBound(n);
    PowerGrows(|cut|, |body| - 2);
    if cut != [] { ValueBound(Magnitude(cut), 256); }
    hide Data;
    hide Body;
  }

  /** Whatever the number, the bound holds exactly when the size of its byte form fits one byte. */
  lemma CompactExact(n: nat)
    requires n > 0
    ensures (n - SetCompact(Compact(n))) * 0x8000 < n <==> |Data(n)| < 256
  {
    hide *;
    if |Data(n)| < 256 { CompactTruncates(n); } else { CompactOverflows(n); }
  }

  lemma {:induction false} PowerDigits(k: nat)
    ensures var digits := Digits(Power(256, k), 256);
            |digits| == k + 1 && digits[k] == 1
  {
    if k > 0 {
      PowerDigits(k - 1);
      var p := Power(256, k - 1);
      assert Power(256, k) == 256 * p;
      assert (256 * p) % 256 == 0 && (256 * p) / 256 == p;
    } else {
      assert Digits(0, 256) == [];
    }
  }

  lemma PowerData(k: nat)
    ensures |Data(Power(256, k))| == k + 1
  {
    PowerDigits(k);
    hide Digits;
    hide Power;
  }

  /** A number at which the bound fails. */
  lemma CompactOverflowWitness()
    ensures var n := Power(256, 255);
            |Data(n)| == 256 && !((n - SetCompact(Compact(n))) * 0x8000 < n)
  {
    hide *;
    PowerData(255);
    CompactOverflows(Power(256, 255));
  }

  /** Compact encodings whose mantissa is positive, shifted as far as the sign bit allows, and has
      no byte outside the number. */
  predicate CanonicalParts(p: CompactParts) {
    && p.size >= 1 && p.m0 < 128 && (p.m0 > 0 || p.m1 >= 128)
    && (p.size == 1 ==> p.m1 == 0 && p.m2 == 0)
    && (p.size == 2 ==> p.m2 == 0)
  }

  lemma PartsAreCanonical(body: Bytes)
    requires Canonical(body) && 0 < |body| < 256 && body[|body| - 1] < 128
    ensures CanonicalParts(PartsOf(body))
  {
  }

  lemma CanonicalBody(p: CompactParts)
    requires CanonicalParts(p)
    ensures Canonical(Body(p)) && SetData(Body(p)) > 0 && PartsOf(Body(p)) == p
  {
    var body := Body(p);
    var last := |body| - 1;
    assert body[last] == p.m0;
    ValueIsZero(Magnitude(body));
    assert Magnitude(body)[last] != 0 || Magnitude(body)[last - 1] != 0;
  }

  /** Among encodings of positive numbers, exactly the canonical ones are reproduced. */
  lemma CompactInverse(c: uint32)
    requires SetCompact(c) > 0
    ensures Compact(SetCompact(c)) == c <==> CanonicalParts(Unpack(c))
  {
    var n, body := SetCompact(c), Body(Unpack(c));
    DataIsShortest(body);
    DataRoundTrip(n);
    hide Data;
    hide SetData;
    PackUnpack(c);
    if CanonicalParts(Unpack(c)) {
      CanonicalBody(Unpack(c));
      DataOfSetData(body);
    } else {
      PartsAreCanonical(Data(n));
      UnpackPack(PartsOf(Data(n)));
    }
  }

  /** `block_work`. */
  function BlockWork(bits: uint32): nat {
    var target := SetCompact(bits);
    if target <= 0 then 0 else Quotient(PowerOfTwo(256), target + 1)
  }

  function Quotient(a: nat, b: nat): nat
    requires b > 0
  {
    a / b
  }

  lemma QuotientFacts(a: nat, b: nat)
    requires b > 0
    ensures Quotient(a, b) * b <= a < (Quotient(a, b) + 1) * b
  {
    assert a == b * (a / b) + a % b;
  }

  lemma QuotientOrder(a: nat, b: nat, c: nat)
    requires 0 < b <= c
    ensures Quotient(a, b) >= Quotient(a, c)
  {
    QuotientFacts(a, b);
    QuotientFacts(a, c);
    hide Quotient;
    var q, p := Quotient(a, b), Quotient(a, c);
    if q < p {
      MultiplyOrder(b, q + 1, p);
      MultiplyOrder(p, b, c);
    }
  }

  /** Work is how often the target and one go into 2^256: what is hoped to be hashed for one block. */
  lemma BlockWorkMeans(bits: uint32)
    ensures var target, work := SetCompact(bits), BlockWork(bits);
            if target <= 0 then work == 0
            else work * (target + 1) <= PowerOfTwo(256) < (work + 1) * (target + 1)
  {
    var target := SetCompact(bits);
    hide SetCompact;
    hide PowerOfTwo;
    if target > 0 { QuotientFacts(PowerOfTwo(256), target + 1); }
  }

  /** A smaller target never counts as less work. */
  lemma HarderIsMoreWork(a: uint32, b: uint32)
    requires 0 < SetCompact(a) <= SetCompact(b)
    ensures BlockWork(a) >= BlockWork(b)
  {
    hide SetCompact;
    hide PowerOfTwo;
    QuotientOrder(PowerOfTwo(256), SetCompact(a) + 1, SetCompact(b) + 1);
  }
}
