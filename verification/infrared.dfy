/** Decoding of infrared frames sent with pulse-duration modulation: a header
 * mark and space, one mark/space pair per data bit, and a stop mark, given
 * as the measured durations of the pulses in microseconds.
 *
 * `IsDurationWithinTolerance` computes the acceptance window of an expected
 * duration from a tolerance with single-precision floats; the model computes
 * it with exact reals (`ToleranceWindow`). The decoder is stated over the
 * windows themselves, so a configuration holds one window per expected
 * duration. */
module Infrared {
  import opened Wrappers
  import Bits

  /** A measured pulse duration (`uint16_t`). */
  type Duration = x: nat | x < 0x1_0000

  /** Bound of the 32-bit decoded data. */
  const DataLimit: nat := 0x1_0000_0000

  /** The smallest and the largest duration accepted for an expected one. */
  datatype Window = Window(min: Duration, max: Duration)

  /** The duration lies in the window, both bounds included. */
  predicate InWindow(d: Duration, w: Window)
  {
    w.min <= d <= w.max
  }

  /** A tolerance the window computation is defined for: a fraction in
   * [0, 1] whose upper bound still fits a `uint16_t` (a negative lower
   * bound or an upper one past 65535 makes the cast undefined). */
  predicate ValidTolerance(expected: Duration, tolerance: real)
  {
    0.0 <= tolerance <= 1.0 && (expected as real) * (1.0 + tolerance) < 65536.0
  }

  /** The window `IsDurationWithinTolerance` accepts: `expected * (1 -
   * tolerance)` and `expected * (1 + tolerance)`, each truncated to a
   * whole `uint16_t`. It always holds the expected duration. */
  function ToleranceWindow(expected: Duration, tolerance: real): (w: Window)
    requires ValidTolerance(expected, tolerance)
    ensures w.min <= expected <= w.max
    ensures w.min as real <= (expected as real) * (1.0 - tolerance) < w.min as real + 1.0
    ensures w.max as real <= (expected as real) * (1.0 + tolerance) < w.max as real + 1.0
  {
    var e := expected as real;
    ScaleAround(e, tolerance);
    Window((e * (1.0 - tolerance)).Floor, (e * (1.0 + tolerance)).Floor)
  }

  /** `e * (1 - t) <= e <= e * (1 + t)` for non-negative `e` and `t`. */
  lemma ScaleAround(e: real, t: real)
    requires e >= 0.0 && t >= 0.0
    ensures 0.0 <= e * t && e * (1.0 - t) == e - e * t && e * (1.0 + t) == e + e * t
  {
  }

  /** `IsDurationWithinTolerance`: the duration lies within the tolerance
   * of the expected one. The expected duration itself always passes, and a
   * duration that passes is at most `expected * tolerance` above it and
   * less than that plus one below it. */
  function IsDurationWithinTolerance(d: Duration, expected: Duration, tolerance: real): (r: bool)
    requires ValidTolerance(expected, tolerance)
    ensures r <==> InWindow(d, ToleranceWindow(expected, tolerance))
    ensures d == expected ==> r
    ensures r ==> (expected as real) * (1.0 - tolerance) - 1.0 < d as real <= (expected as real) * (1.0 + tolerance)
  {
    var w := ToleranceWindow(expected, tolerance);
    w.min <= d && d <= w.max
  }

  /** Whether the mark (`Length`) or the space (`Distance`) carries the
   * logic level of a bit; the other one has a fixed duration. */
  datatype PulseDurationType = Length | Distance

  /** `PulseDurationConfiguration_t`, with a window for each duration. */
  datatype Configuration = Configuration(
    headerMark: Window,
    headerSpace: Window,
    data: Window,
    logicHigh: Window,
    logicLow: Window,
    encoding: PulseDurationType,
    usesRepeatFrames: bool,
    headerRepeatSpace: Window)

  /** `DecodedFrame_t`. */
  datatype DecodedFrame = DecodedFrame(data: nat, isValid: bool, isRepeat: bool)

  const InvalidFrame := DecodedFrame(0, false, false)

  /** Header mark, header space and stop mark. */
  const MinimumPulseCount: nat := 3

  /** The bit a mark/space pair carries: `None` when the fixed part is out
   * of its window or the level part is in neither the high nor the low
   * window; a level part in both windows reads as high. */
  function PairBit(c: Configuration, mark: Duration, space: Duration): (r: Option<nat>)
    ensures r.Some? ==> r.value < 2
  {
    var fixed := if c.encoding == Distance then mark else space;
    var level := if c.encoding == Distance then space else mark;
    if !InWindow(fixed, c.data) then None
    else if InWindow(level, c.logicHigh) then Some(1)
    else if InWindow(level, c.logicLow) then Some(0)
    else None
  }

  /** `decoded_data <<= 1` on a `uint32_t`, then bit 0 set for a high bit:
   * the top bit falls off. */
  function ShiftIn(data: nat, bit: nat): (r: nat)
    requires bit < 2
    ensures r < DataLimit && r % 2 == bit
  {
    data % 0x8000_0000 * 2 + bit
  }

  /** The data pairs from pulse `i` on, while a pair fits before the last
   * pulse: the data with their bits shifted in, or `None` at the first pair
   * that is not a bit. */
  function DecodePairs(pulses: seq<Duration>, c: Configuration, i: nat, data: nat): (r: Option<nat>)
    requires data < DataLimit
    ensures r.Some? ==> r.value < DataLimit
    decreases |pulses| - i
  {
    if i + 1 >= |pulses| then Some(data)
    else match PairBit(c, pulses[i], pulses[i + 1])
      case None => None
      case Some(b) => DecodePairs(pulses, c, i + 2, ShiftIn(data, b))
  }

  /** The frame `Decode` returns for a series of pulses. */
  function Decoded(pulses: seq<Duration>, c: Configuration): (r: DecodedFrame)
    ensures r.data < DataLimit
    ensures r.isRepeat ==> r.isValid && r.data == 0 && |pulses| == MinimumPulseCount
    ensures !r.isValid ==> r == InvalidFrame
  {
    if |pulses| < MinimumPulseCount then InvalidFrame
    else if !InWindow(pulses[0], c.headerMark) then InvalidFrame
    else if |pulses| == MinimumPulseCount && c.usesRepeatFrames
      && InWindow(pulses[1], c.headerRepeatSpace)
      && InWindow(pulses[2], c.data)
    then DecodedFrame(0, true, true)
    else if !InWindow(pulses[1], c.headerSpace) then InvalidFrame
    else match DecodePairs(pulses, c, 2, 0)
      case None => InvalidFrame
      case Some(d) => DecodedFrame(d, true, false)
  }

  /** `Decode`: check the header, recognise a repeat frame, then decode the
   * data pairs one by one. */
  method Decode(pulses: seq<Duration>, c: Configuration) returns (r: DecodedFrame)
    ensures r == Decoded(pulses, c)
  {
    if |pulses| < MinimumPulseCount {
      return InvalidFrame;
    }
    var headerMark := pulses[0];
    var headerSpace := pulses[1];
    if !InWindow(headerMark, c.headerMark) {
      return InvalidFrame;
    }
    if |pulses| == MinimumPulseCount && c.usesRepeatFrames {
      var stopMark := pulses[2];
      var repeatSpaceValid := InWindow(headerSpace, c.headerRepeatSpace);
      var stopMarkValid := InWindow(stopMark, c.data);
      if repeatSpaceValid && stopMarkValid {
        return DecodedFrame(0, true, true);
      }
    }
    if !InWindow(headerSpace, c.headerSpace) {
      return InvalidFrame;
    }
    var decoded: nat := 0;
    var i: nat := 2;
    while i < |pulses| - 1
      invariant 2 <= i && decoded < DataLimit
      invariant DecodePairs(pulses, c, i, decoded) == DecodePairs(pulses, c, 2, 0)
      decreases |pulses| - i
    {
      var mark := pulses[i];
      var space := pulses[i + 1];
      var fixed, level;
      match c.encoding {
        case Distance =>
          fixed, level := mark, space;
        case Length =>
          fixed, level := space, mark;
      }
      if !InWindow(fixed, c.data) {
        return InvalidFrame;
      }
      decoded := decoded % 0x8000_0000 * 2;
      if InWindow(level, c.logicHigh) {
        decoded := decoded + 1;
      } else if !InWindow(level, c.logicLow) {
        return InvalidFrame;
      }
      i := i + 2;
    }
    return DecodedFrame(decoded, true, false);
  }

  // --------------------------------------------------------------- encoding

  /** The durations a transmitter produces. */
  datatype Timing = Timing(
    headerMark: Duration,
    headerSpace: Duration,
    data: Duration,
    logicHigh: Duration,
    logicLow: Duration,
    repeatSpace: Duration)

  /** A transmitter whose every duration lies in the receiver's window for
   * it, and whose low level is not in the high window. */
  predicate Fits(t: Timing, c: Configuration)
  {
    && InWindow(t.headerMark, c.headerMark)
    && InWindow(t.headerSpace, c.headerSpace)
    && InWindow(t.data, c.data)
    && InWindow(t.logicHigh, c.logicHigh)
    && InWindow(t.logicLow, c.logicLow)
    && !InWindow(t.logicLow, c.logicHigh)
    && InWindow(t.repeatSpace, c.headerRepeatSpace)
  }

  /** The mark and space of one bit. */
  function Pair(t: Timing, encoding: PulseDurationType, bit: bool): seq<Duration>
  {
    var level := if bit then t.logicHigh else t.logicLow;
    match encoding
    case Distance => [t.data, level]
    case Length => [level, t.data]
  }

  /** The pairs of a series of bits, first bit first. */
  function EncodePairs(t: Timing, encoding: PulseDurationType, bits: seq<bool>): (r: seq<Duration>)
    ensures |r| == 2 * |bits|
  {
    if |bits| == 0 then [] else Pair(t, encoding, bits[0]) + EncodePairs(t, encoding, bits[1..])
  }

  /** A whole frame: header mark and space, the bits, the stop mark. */
  function Encode(t: Timing, encoding: PulseDurationType, bits: seq<bool>): seq<Duration>
  {
    [t.headerMark, t.headerSpace] + EncodePairs(t, encoding, bits) + [t.data]
  }

  /** A repeat frame: header mark, repeat space, stop mark. */
  function EncodeRepeat(t: Timing): seq<Duration>
  {
    [t.headerMark, t.repeatSpace, t.data]
  }

  function BitValue(b: bool): nat
  {
    if b then 1 else 0
  }

  /** The 32-bit register after shifting in a series of bits, first bit
   * first. */
  function Shifted(bits: seq<bool>): (r: nat)
    ensures r < DataLimit
  {
    if |bits| == 0 then 0 else ShiftIn(Shifted(bits[..|bits| - 1]), BitValue(bits[|bits| - 1]))
  }

  /** The binary number a series of bits spells, most significant first. */
  function Number(bits: seq<bool>): (r: nat)
    ensures r < Bits.Pow2(|bits|)
  {
    if |bits| == 0 then 0 else 2 * Number(bits[..|bits| - 1]) + BitValue(bits[|bits| - 1])
  }

  /** Up to 32 bits nothing is shifted out: the register holds the number
   * the bits spell. */
  lemma {:induction false} ShiftedIsNumber(bits: seq<bool>)
    requires |bits| <= 32
    ensures Shifted(bits) == Number(bits)
  {
    if |bits| > 0 {
      var init := bits[..|bits| - 1];
      ShiftedIsNumber(init);
      Bits.Pow2Monotone(|init|, 31);
      Pow2ThirtyOne();
      ShiftInSmall(Number(init), BitValue(bits[|bits| - 1]));
    }
  }

  lemma Pow2ThirtyOne()
    ensures Bits.Pow2(31) == 0x8000_0000
  {
    Bits.Pow2Values();
    assert Bits.Pow2(32) == 2 * Bits.Pow2(31);
  }

  /** A register below 2^31 loses nothing when shifted. */
  lemma ShiftInSmall(data: nat, bit: nat)
    requires data < 0x8000_0000 && bit < 2
    ensures ShiftIn(data, bit) == 2 * data + bit
  {
  }

  /** The pair a transmitter sends for a bit reads as that bit. */
  lemma PairDecodes(t: Timing, c: Configuration, bit: bool)
    requires Fits(t, c)
    ensures var p := Pair(t, c.encoding, bit); PairBit(c, p[0], p[1]) == Some(BitValue(bit))
  {
  }

  /** The pairs of a non-empty series at pulse `i`: the first reads as the
   * first bit, the pairs of the others follow. */
  lemma EncodePairsFirst(t: Timing, c: Configuration, bits: seq<bool>, pulses: seq<Duration>, i: nat)
    requires Fits(t, c)
    requires |bits| > 0 && i + 2 * |bits| <= |pulses|
    requires pulses[i..i + 2 * |bits|] == EncodePairs(t, c.encoding, bits)
    ensures PairBit(c, pulses[i], pulses[i + 1]) == Some(BitValue(bits[0]))
    ensures pulses[i + 2..i + 2 + 2 * |bits[1..]|] == EncodePairs(t, c.encoding, bits[1..])
  {
    var segment := pulses[i..i + 2 * |bits|];
    assert segment[0] == pulses[i] && segment[1] == pulses[i + 1];
    assert pulses[i + 2..i + 2 + 2 * (|bits| - 1)] == segment[2..];
    PairDecodes(t, c, bits[0]);
  }

  /** Shifting in one more bit. */
  lemma ShiftedSnoc(before: seq<bool>, bit: bool)
    ensures Shifted(before + [bit]) == ShiftIn(Shifted(before), BitValue(bit))
  {
    assert (before + [bit])[..|before|] == before;
  }

  /** A pair that reads as a bit is shifted in and decoding goes on two
   * pulses later. */
  lemma DecodeStep(pulses: seq<Duration>, c: Configuration, i: nat, data: nat, bit: nat)
    requires data < DataLimit && i + 1 < |pulses|
    requires PairBit(c, pulses[i], pulses[i + 1]) == Some(bit)
    ensures DecodePairs(pulses, c, i, data) == DecodePairs(pulses, c, i + 2, ShiftIn(data, bit))
  {
  }

  /** Moving the first bit of a series over to the ones before it. */
  lemma AppendFirst(before: seq<bool>, bits: seq<bool>)
    requires |bits| > 0
    ensures before + [bits[0]] + bits[1..] == before + bits
  {
  }

  /** Decoding the pairs of `bits` that start at pulse `i`, with the bits of
   * `before` already shifted in. */
  lemma {:induction false} DecodeEncodedPairs(
    t: Timing, c: Configuration, pulses: seq<Duration>, i: nat, before: seq<bool>, bits: seq<bool>)
    requires Fits(t, c)
    requires i + 2 * |bits| < |pulses|
    requires pulses[i..i + 2 * |bits|] == EncodePairs(t, c.encoding, bits)
    requires i + 2 * |bits| + 1 == |pulses|
    ensures DecodePairs(pulses, c, i, Shifted(before)) == Some(Shifted(before + bits))
    decreases |bits|
  {
    if |bits| == 0 {
      assert before + bits == before;
    } else {
      var rest := bits[1..];
      EncodePairsFirst(t, c, bits, pulses, i);
      var next := before + [bits[0]];
      ShiftedSnoc(before, bits[0]);
      DecodeStep(pulses, c, i, Shifted(before), BitValue(bits[0]));
      DecodeEncodedPairs(t, c, pulses, i + 2, next, rest);
      AppendFirst(before, bits);
    }
  }

  /** A frame sent with durations in the receiver's windows decodes to the
   * bits it carries. */
  lemma EncodeThenDecode(t: Timing, c: Configuration, bits: seq<bool>)
    requires Fits(t, c) && |bits| > 0
    ensures Decoded(Encode(t, c.encoding, bits), c) == DecodedFrame(Shifted(bits), true, false)
  {
    var pulses := Encode(t, c.encoding, bits);
    assert pulses[2..2 + 2 * |bits|] == EncodePairs(t, c.encoding, bits);
    DecodeEncodedPairs(t, c, pulses, 2, [], bits);
    assert [] + bits == bits;
  }

  /** With at most 32 bits, the decoded data is the number they spell. */
  lemma EncodeThenDecodeNumber(t: Timing, c: Configuration, bits: seq<bool>)
    requires Fits(t, c) && 0 < |bits| <= 32
    ensures Decoded(Encode(t, c.encoding, bits), c) == DecodedFrame(Number(bits), true, false)
  {
    EncodeThenDecode(t, c, bits);
    ShiftedIsNumber(bits);
  }

  /** A repeat frame is recognised when the configuration uses repeat
   * frames. */
  lemma EncodeRepeatThenDecode(t: Timing, c: Configuration)
    requires Fits(t, c) && c.usesRepeatFrames
    ensures Decoded(EncodeRepeat(t), c) == DecodedFrame(0, true, true)
  {
  }

  /** Fewer than three pulses, or a header mark out of its window, never
   * decode. */
  lemma ShortOrBadHeaderIsInvalid(pulses: seq<Duration>, c: Configuration)
    requires |pulses| < MinimumPulseCount || !InWindow(pulses[0], c.headerMark)
    ensures Decoded(pulses, c) == InvalidFrame
  {
  }

  /** Any three pulses decode as a repeat frame exactly when the
   * configuration uses repeat frames, the header mark is in its window, the
   * space is in the repeat window and the stop mark is in the data window. */
  lemma RepeatFrameIff(pulses: seq<Duration>, c: Configuration)
    ensures Decoded(pulses, c).isRepeat <==>
      && |pulses| == MinimumPulseCount && c.usesRepeatFrames
      && InWindow(pulses[0], c.headerMark)
      && InWindow(pulses[1], c.headerRepeatSpace)
      && InWindow(pulses[2], c.data)
    ensures Decoded(pulses, c).isRepeat ==> Decoded(pulses, c) == DecodedFrame(0, true, true)
  {
  }

  /** A header mark in its window followed by a header space out of its
   * window never decodes, unless the three pulses form a repeat frame. */
  lemma BadHeaderSpaceIsInvalid(pulses: seq<Duration>, c: Configuration)
    requires |pulses| >= MinimumPulseCount && InWindow(pulses[0], c.headerMark)
    requires !InWindow(pulses[1], c.headerSpace)
    requires |pulses| == MinimumPulseCount && c.usesRepeatFrames ==>
      !InWindow(pulses[1], c.headerRepeatSpace) || !InWindow(pulses[2], c.data)
    ensures Decoded(pulses, c) == InvalidFrame
  {
  }

  /** One pair that is not a bit makes the whole frame invalid. */
  lemma {:induction false} BadPairIsInvalid(pulses: seq<Duration>, c: Configuration, i: nat, data: nat, k: nat)
    requires data < DataLimit && i <= k && (k - i) % 2 == 0 && k + 1 < |pulses|
    requires PairBit(c, pulses[k], pulses[k + 1]).None?
    ensures DecodePairs(pulses, c, i, data) == None
    decreases k - i
  {
    if i < k {
      match PairBit(c, pulses[i], pulses[i + 1])
      case None =>
      case Some(b) => BadPairIsInvalid(pulses, c, i + 2, ShiftIn(data, b), k);
    }
  }
}
