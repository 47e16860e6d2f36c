/** `work_required`: the difficulty rule. */
module Retarget {
  import opened Types
  import opened Numerals
  import opened BigNumber

  /** Two weeks in seconds, and the ten-minute blocks in them. */
  const TARGET_TIMESPAN: nat := 1_209_600
  const READJUSTMENT_INTERVAL: nat := 2016
  const MAX_BITS: uint32 := 0x1d00_ffff

  function MaxTarget(): int { SetCompact(MAX_BITS) }

  lemma MaxTargetBody()
    ensures Body(Unpack(MAX_BITS)) == Zeros(26) + [0xff, 0xff, 0]
  {
    assert Unpack(MAX_BITS) == CompactParts(29, 0, 0xff, 0xff);
  }

  lemma MaxTargetValue()
    ensures MaxTarget() == Power(256, 26) * 0xffff
  {
    hide Power;
    hide Value;
    MaxTargetBody();
    var body: Bytes := Zeros(26) + [0xff, 0xff, 0];
    assert Magnitude(body) == body;
    var top: seq<nat> := [0xff, 0xff, 0];
    ValueAppend(Zeros(26), top, 256);
    ValueIsZero(Zeros(26));
    ThreeBytes(0xff, 0xff, 0);
  }

  function RangeConstraint(value: nat, minimum: nat, maximum: nat): nat
    requires minimum <= maximum
  {
    if value < minimum then minimum else if value > maximum then maximum else value
  }

  /** OpenSSL division drops the remainder toward zero. */
  function TruncatedQuotient(a: int, b: nat): int
    requires b > 0
  {
    if a < 0 then -((-a) / b) else a / b
  }

  /** The uncut new target: the old one scaled by the clamped time the last interval took. */
  function ScaledTarget(previous: int, actual: uint32): int {
    var clamped := RangeConstraint(actual, TARGET_TIMESPAN / 4, TARGET_TIMESPAN * 4);
    var scaled := TruncatedQuotient(previous * clamped, TARGET_TIMESPAN);
    if scaled > MaxTarget() then MaxTarget() else scaled
  }

  function Readjust(previousBits: uint32, actual: uint32): uint32 {
    Compact(ScaledTarget(SetCompact(previousBits), actual))
  }

  /** Unsigned 32-bit subtraction, as the two timestamps are subtracted. */
  function Timespan(last: uint32, first: uint32): uint32 {
    (last - first) % 0x1_0000_0000
  }

  function WorkRequired(below: seq<Block>): uint32 {
    var depth := |below|;
    if depth == 0 then MAX_BITS
    else if depth % READJUSTMENT_INTERVAL != 0 then below[depth - 1].bits
    else Readjust(below[depth - 1].bits,
                  Timespan(below[depth - 1].timestamp, below[depth - READJUSTMENT_INTERVAL].timestamp))
  }

  lemma WorkCases(below: seq<Block>)
    requires below != []
    ensures var depth := |below|;
            WorkRequired(below) ==
            if depth % READJUSTMENT_INTERVAL != 0 then below[depth - 1].bits
            else Readjust(below[depth - 1].bits,
                          Timespan(below[depth - 1].timestamp, below[depth - READJUSTMENT_INTERVAL].timestamp))
  {
    hide Readjust;
    hide Timespan;
  }

  lemma IntervalFits(depth: nat)
    ensures 0 < READJUSTMENT_INTERVAL && TARGET_TIMESPAN > 0 && TARGET_TIMESPAN / 4 <= TARGET_TIMESPAN * 4
    ensures depth > 0 && depth % READJUSTMENT_INTERVAL == 0 ==> READJUSTMENT_INTERVAL <= depth
  {
  }

  lemma ReadjustSteps(previousBits: uint32, actual: uint32)
    ensures var clamped := RangeConstraint(actual, TARGET_TIMESPAN / 4, TARGET_TIMESPAN * 4);
            var scaled := TruncatedQuotient(SetCompact(previousBits) * clamped, TARGET_TIMESPAN);
            Readjust(previousBits, actual) == Compact(if scaled > MaxTarget() then MaxTarget() else scaled)
  {
    hide RangeConstraint;
    hide TruncatedQuotient;
    hide SetCompact;
    hide Compact;
    hide MaxTarget;
  }

  lemma ScaledTargetBounds(previous: nat, actual: uint32)
    requires 0 < previous <= MaxTarget()
    ensures previous / 4 <= ScaledTarget(previous, actual) <= MaxTarget()
    ensures ScaledTarget(previous, actual) <= 4 * previous
  {
    hide MaxTarget;
    var clamped := RangeConstraint(actual, TARGET_TIMESPAN / 4, TARGET_TIMESPAN * 4);
    var product := previous * clamped;
    MultiplyOrder(previous, TARGET_TIMESPAN / 4, clamped);
    MultiplyOrder(previous, clamped, TARGET_TIMESPAN * 4);
    assert previous * (TARGET_TIMESPAN / 4) <= product <= previous * (TARGET_TIMESPAN * 4);
  }

  lemma SmallData(n: nat)
    requires n <= MaxTarget()
    ensures |Data(n)| < 256
  {
    hide Data;
    hide MaxTarget;
    MaxTargetValue();
    assert Power(256, 28) == 256 * Power(256, 27) == 256 * (256 * Power(256, 26));
    hide Power;
    if |Data(n)| >= 256 {
      DataLowerBound(n);
      PowerGrows(28, |Data(n)| - 2);
      assert false;
    }
  }

  /** A readjusted target never exceeds the easiest one, is at most four times the old one, and at
      least a quarter of it, up to the bits that the compact form drops. */
  lemma ReadjustBounds(previousBits: uint32, actual: uint32)
    requires 0 < SetCompact(previousBits) <= MaxTarget()
    ensures var previous, next := SetCompact(previousBits), SetCompact(Readjust(previousBits, actual));
            && 0 <= next <= MaxTarget() && next <= 4 * previous
            && next * 0x8000 >= previous / 4 * 0x7fff
  {
    hide MaxTarget;
    hide SetCompact;
    hide ScaledTarget;
    var previous := SetCompact(previousBits);
    ScaledTargetBounds(previous, actual);
    var scaled := ScaledTarget(previous, actual);
    SmallData(scaled);
    CompactTruncates(scaled);
  }

  // ---- which way difficulty moves

  /** The old target times the time taken, clamped to a factor of four, over two weeks in seconds. */
  function ScaledBySpan(target: nat, span: nat): nat {
    target * (if span < 302_400 then 302_400 else if span > 4_838_400 then 4_838_400 else span) / 1_209_600
  }

  lemma ScaledIs(previous: nat, actual: uint32)
    ensures var q := ScaledBySpan(previous, actual);
            ScaledTarget(previous, actual) == if q > MaxTarget() then MaxTarget() else q
  {
    hide MaxTarget;
    assert TARGET_TIMESPAN / 4 == 302_400 && TARGET_TIMESPAN * 4 == 4_838_400;
    var clamped := RangeConstraint(actual, 302_400, 4_838_400);
    assert previous * clamped >= 0;
  }

  lemma ScaledOrder(p: nat, span: nat)
    ensures span >= 1_209_600 ==> ScaledBySpan(p, span) >= p
    ensures span <= 1_209_600 ==> ScaledBySpan(p, span) <= p
  {
    var clamped := if span < 302_400 then 302_400 else if span > 4_838_400 then 4_838_400 else span;
    var product := p * clamped;
    if span >= 1_209_600 { MultiplyOrder(p, 1_209_600, clamped); }
    if span <= 1_209_600 { MultiplyOrder(p, clamped, 1_209_600); }
  }

  lemma MaxBitsParts()
    ensures CanonicalParts(Unpack(MAX_BITS)) && MaxTarget() == SetCompact(MAX_BITS)
  {
    hide SetCompact;
    assert Unpack(MAX_BITS) == CompactParts(29, 0, 0xff, 0xff);
  }

  lemma MaxBitsCanonical()
    ensures Compact(MaxTarget()) == MAX_BITS && MaxTarget() > 0
  {
    hide *;
    MaxTargetValue();
    MaxBitsParts();
    CompactInverse(MAX_BITS);
  }

  /** What decoding a readjusted target gives, in terms of the quotient alone. */
  lemma ReadjustIs(previousBits: uint32, actual: uint32)
    requires 0 < SetCompact(previousBits) <= MaxTarget()
    ensures var q := ScaledBySpan(SetCompact(previousBits), actual);
            var next := SetCompact(Readjust(previousBits, actual));
            if q > MaxTarget() then next == MaxTarget()
            else next <= q && (q > 0 ==> (q - next) * 0x8000 < q)
  {
    var previous := SetCompact(previousBits);
    var scaled := ScaledTarget(previous, actual);
    ScaledIs(previous, actual);
    ScaledTargetBounds(previous, actual);
    MaxBitsCanonical();
    assert SetCompact(MAX_BITS) == MaxTarget();
    hide ScaledBySpan;
    hide ScaledTarget;
    hide MaxTarget;
    hide SetCompact;
    hide Compact;
    SmallData(scaled);
    CompactTruncates(scaled);
  }

  /** A clock that ran backwards wraps around. */
  lemma SpanBetween(last: uint32, first: uint32)
    ensures Timespan(last, first) == if last >= first then last - first else last + 0x1_0000_0000 - first
  {
  }

  /** The target after an interval that took `span` seconds: the old one scaled by that time, clamped to
      a factor of four and capped, less what the division and the compact form drop. An interval on
      schedule keeps canonical bits, a slow one eases the target, a fast one does not. */
  predicate Retargeted(bits: uint32, span: nat, required: uint32)
    requires SetCompact(bits) > 0
  {
    var p, n := SetCompact(bits), SetCompact(required);
    var q := ScaledBySpan(p, span);
    && (if q > MaxTarget() then n == MaxTarget() else n <= q && (q > 0 ==> (q - n) * 0x8000 < q))
    && (span == 1_209_600 && CanonicalParts(Unpack(bits)) ==> required == bits)
    && (span >= 1_209_600 ==> n * 0x8000 >= p * 0x7fff)
    && (span <= 1_209_600 ==> n <= p)
  }

  lemma WorkAtInterval(below: seq<Block>)
    requires below != [] && |below| % 2016 == 0
    ensures |below| >= 2016
    ensures var last, first := below[|below| - 1], below[|below| - 2016];
            WorkRequired(below) == Readjust(last.bits, Timespan(last.timestamp, first.timestamp))
  {
    hide Readjust;
    hide Timespan;
  }

  /** At a readjustment the required target follows from two timestamps and the old bits. */
  lemma RetargetMoves(below: seq<Block>)
    requires |below| >= 2016 && |below| % 2016 == 0
    requires 0 < SetCompact(below[|below| - 1].bits) <= MaxTarget()
    ensures var last, first := below[|below| - 1], below[|below| - 2016];
            var span := if last.timestamp >= first.timestamp then last.timestamp - first.timestamp
                        else last.timestamp + 0x1_0000_0000 - first.timestamp;
            Retargeted(last.bits, span, WorkRequired(below))
  {
    hide *;
    WorkAtInterval(below);
    var last, first := below[|below| - 1], below[|below| - 2016];
    SpanBetween(last.timestamp, first.timestamp);
    RetargetDirection(last.bits, Timespan(last.timestamp, first.timestamp));
  }

  lemma RetargetDirection(bits: uint32, span: uint32)
    requires 0 < SetCompact(bits) <= MaxTarget()
    ensures Retargeted(bits, span, Readjust(bits, span))
  {
    hide ScaledBySpan;
    hide Readjust;
    hide SetCompact;
    hide MaxTarget;
    hide CanonicalParts;
    ReadjustIs(bits, span);
    ScaledOrder(SetCompact(bits), span);
    if span == 1_209_600 && CanonicalParts(Unpack(bits)) { OnSchedule(bits); }
  }

  lemma OnSchedule(bits: uint32)
    requires 0 < SetCompact(bits) <= MaxTarget() && CanonicalParts(Unpack(bits))
    ensures Readjust(bits, 1_209_600) == bits
  {
    hide *;
    ScaledIs(SetCompact(bits), 1_209_600);
    Cancel(SetCompact(bits));
    ReadjustUnfolds(bits, 1_209_600);
    CompactInverse(bits);
  }

  lemma Cancel(p: nat)
    ensures ScaledBySpan(p, 1_209_600) == p
  {
  }

  lemma ReadjustUnfolds(bits: uint32, span: uint32)
    ensures Readjust(bits, span) == Compact(ScaledTarget(SetCompact(bits), span))
  {
    hide Compact;
    hide ScaledTarget;
    hide SetCompact;
  }
}
