/** Bit-field algebra on unsigned register values: masks, Extract, Insert,
 * Set, Clear, Toggle, Read, SignedExtract and StreamExtract.
 *
 * Register values are natural numbers below `Pow2(size)`, where `size` is the
 * bit width of the register type (8, 16, 32 or 64). The shifts and the
 * low-bit mask are defined one bit at a time (`Shr`, `Shl`, `Low`), so every
 * proof about them is linear arithmetic; `ShrIsDiv`, `ShlIsMul` and
 * `LowIsMod` connect them to division, multiplication and remainder by powers
 * of two. `Bit(v, j)` is the bit view every property is stated in;
 * `BitsEqual` turns agreement on every bit back into equality. */
module Bits {
  import opened Wrappers

  /** 2 raised to `n`. */
  function Pow2(n: nat): (r: nat)
    ensures r >= 1
  {
    if n == 0 then 1 else 2 * Pow2(n - 1)
  }

  lemma {:induction false} Pow2Add(a: nat, b: nat)
    ensures Pow2(a + b) == Pow2(a) * Pow2(b)
  {
    if a > 0 {
      Pow2Add(a - 1, b);
      assert Pow2(a + b) == 2 * Pow2(a - 1 + b);
    }
  }

  lemma {:induction false} Pow2Monotone(a: nat, b: nat)
    requires a <= b
    ensures Pow2(a) <= Pow2(b)
  {
    if a < b {
      Pow2Monotone(a, b - 1);
    }
  }

  lemma MulMonotone(a: int, b: int, d: int)
    requires d > 0 && a <= b
    ensures a * d <= b * d
  {
  }

  /** Quotient and remainder are determined by the division equation. */
  lemma DivModUnique(x: int, d: int, q: int, r: int)
    requires d > 0 && 0 <= r < d && x == q * d + r
    ensures x / d == q && x % d == r
  {
    var q', r' := x / d, x % d;
    if q' > q {
      MulMonotone(q + 1, q', d);
    } else if q' < q {
      MulMonotone(q' + 1, q, d);
    }
  }

  /** `v >> k` on an unbounded value. */
  function Shr(v: nat, k: nat): nat
  {
    if k == 0 then v else Shr(v / 2, k - 1)
  }

  /** `v << k` on an unbounded value (no truncation). */
  function Shl(v: nat, k: nat): nat
  {
    if k == 0 then v else 2 * Shl(v, k - 1)
  }

  /** The low `w` bits of `v`, that is `v & ((1 << w) - 1)`. A negative `v`
   * (a signed source value) gives its two's-complement bits. */
  function Low(v: int, w: nat): (r: nat)
    ensures r < Pow2(w)
    decreases w
  {
    if w == 0 then 0 else 2 * Low(v / 2, w - 1) + v % 2
  }

  /** Bit `j` of `v` is set. This is `bit::Read`. */
  predicate Bit(v: nat, j: nat)
  {
    Shr(v, j) % 2 == 1
  }

  /** Shifting right by `k` is division by `2^k`. */
  lemma {:induction false} ShrIsDiv(v: nat, k: nat)
    ensures Shr(v, k) == v / Pow2(k)
  {
    if k > 0 {
      ShrIsDiv(v / 2, k - 1);
      var p := Pow2(k - 1);
      var q, r := (v / 2) / p, (v / 2) % p;
      assert v == 2 * (v / 2) + v % 2;
      assert v == (2 * p) * q + (2 * r + v % 2);
      DivModUnique(v, 2 * p, q, 2 * r + v % 2);
    }
  }

  /** Shifting left by `k` is multiplication by `2^k`. */
  lemma {:induction false} ShlIsMul(v: nat, k: nat)
    ensures Shl(v, k) == v * Pow2(k)
  {
    if k > 0 {
      ShlIsMul(v, k - 1);
    }
  }

  /** Keeping the low `w` bits is the remainder modulo `2^w`. */
  lemma {:induction false} LowIsMod(v: int, w: nat)
    ensures Low(v, w) == v % Pow2(w)
    decreases w
  {
    if w > 0 {
      LowIsMod(v / 2, w - 1);
      var p := Pow2(w - 1);
      var q, r := (v / 2) / p, (v / 2) % p;
      assert v == 2 * (v / 2) + v % 2;
      assert v == (2 * p) * q + (2 * r + v % 2);
      DivModUnique(v, 2 * p, q, 2 * r + v % 2);
    }
  }

  lemma {:induction false} ShrShr(v: nat, k: nat, j: nat)
    ensures Shr(Shr(v, k), j) == Shr(v, k + j)
  {
    if k > 0 {
      ShrShr(v / 2, k - 1, j);
    }
  }

  /** Shifting right by `k` moves bit `k + j` to bit `j`. */
  lemma ShiftBit(v: nat, k: nat, j: nat)
    ensures Bit(Shr(v, k), j) == Bit(v, k + j)
  {
    ShrShr(v, k, j);
  }

  lemma {:induction false} ZeroShr(k: nat)
    ensures Shr(0, k) == 0
  {
    if k > 0 {
      ZeroShr(k - 1);
    }
  }

  lemma ZeroBits(j: nat)
    ensures !Bit(0, j)
  {
    ZeroShr(j);
  }

  lemma OneBits(j: nat)
    ensures Bit(1, j) == (j == 0)
  {
    if j > 0 {
      ZeroShr(j - 1);
    }
  }

  /** Keeping the low `w` bits keeps bits below `w` and clears the rest. */
  lemma {:induction false} LowBit(v: nat, w: nat, j: nat)
    ensures Bit(Low(v, w), j) == (j < w && Bit(v, j))
  {
    if w == 0 {
      ZeroBits(j);
    } else if j > 0 {
      LowBit(v / 2, w - 1, j - 1);
      var l := Low(v / 2, w - 1);
      assert (2 * l + v % 2) / 2 == l;
    }
  }

  /** Bits of `(a << k) + b` when `b` fits in `k` bits: the low `k` come from
   * `b`, the rest from `a`. */
  lemma {:induction false} ShlBit(a: nat, k: nat, b: nat, j: nat)
    requires b < Pow2(k)
    ensures Bit(Shl(a, k) + b, j) == if j < k then Bit(b, j) else Bit(a, j - k)
  {
    if k > 0 && j > 0 {
      var s := Shl(a, k - 1);
      assert (2 * s + b) / 2 == s + b / 2;
      assert b / 2 < Pow2(k - 1);
      ShlBit(a, k - 1, b / 2, j - 1);
      assert Bit(2 * s + b, j) == Bit(s + b / 2, j - 1);
      assert Bit(b, j) == Bit(b / 2, j - 1);
    } else if k > 0 {
      assert (2 * Shl(a, k - 1) + b) % 2 == b % 2;
    }
  }

  /** Two values of `n` bits that agree on every bit are equal. */
  lemma {:induction false} BitsEqual(a: nat, b: nat, n: nat)
    requires a < Pow2(n) && b < Pow2(n)
    requires forall j: nat :: j < n ==> Bit(a, j) == Bit(b, j)
    ensures a == b
  {
    if n > 0 {
      assert Bit(a, 0) == Bit(b, 0);
      forall j: nat | j < n - 1
        ensures Bit(a / 2, j) == Bit(b / 2, j)
      {
        assert Bit(a, j + 1) == Bit(b, j + 1);
      }
      BitsEqual(a / 2, b / 2, n - 1);
    }
  }

  /** A value that fits in `w` bits is its own low `w` bits. */
  lemma {:induction false} LowOfSmall(v: nat, w: nat)
    requires v < Pow2(w)
    ensures Low(v, w) == v
  {
    if w > 0 {
      LowOfSmall(v / 2, w - 1);
    }
  }

  /** Low bits are unchanged by subtracting `2^w`. */
  lemma {:induction false} LowMinusPow2(v: int, w: nat)
    ensures Low(v - Pow2(w), w) == Low(v, w)
    decreases w
  {
    if w > 0 {
      var p := Pow2(w - 1);
      assert (v - 2 * p) / 2 == v / 2 - p;
      LowMinusPow2(v / 2, w - 1);
    }
  }

  /** Keeping `a` low bits of the low `b` bits keeps the low `a` bits. */
  lemma {:induction false} LowLow(v: int, a: nat, b: nat)
    requires a <= b
    ensures Low(Low(v, b), a) == Low(v, a)
    decreases a
  {
    if a > 0 {
      var l := Low(v / 2, b - 1);
      assert (2 * l + v % 2) / 2 == l;
      LowLow(v / 2, a - 1, b - 1);
    }
  }

  /** A value of `size` bits has no bit set at or above `size`. */
  lemma NoBitsAbove(v: nat, size: nat, j: nat)
    requires v < Pow2(size) && j >= size
    ensures !Bit(v, j)
  {
    LowOfSmall(v, size);
    LowBit(v, size, j);
  }

  /** Read(v, b) is the binary digit of `v` at place `2^b`. */
  lemma BitIsDigit(v: nat, b: nat)
    ensures Bit(v, b) == ((v / Pow2(b)) % 2 == 1)
  {
    ShrIsDiv(v, b);
  }

  /** A bit field: `width` bits starting at bit `position`. */
  datatype Mask = Mask(position: nat, width: nat)

  /** Bit `j` lies inside the field `m`. */
  predicate InMask(m: Mask, j: nat)
  {
    m.position <= j < m.position + m.width
  }

  /** The field covering bits `low` to `high`, both inclusive. */
  function MaskFromRange(low: nat, high: nat): (m: Mask)
    requires low <= high
    ensures m.position == low && m.width >= 1
    ensures forall j: nat :: InMask(m, j) <==> low <= j <= high
  {
    Mask(low, high - low + 1)
  }

  /** The one-bit field at `bit` (the single-argument `MaskFromRange`). */
  function MaskFromBit(bit: nat): (m: Mask)
    ensures m.width == 1
    ensures forall j: nat :: InMask(m, j) <==> j == bit
  {
    Mask(bit, 1)
  }

  /** The field `m` of `v`, moved down to bit 0. */
  function Extract(v: nat, m: Mask): (r: nat)
    ensures r < Pow2(m.width)
  {
    Low(Shr(v, m.position), m.width)
  }

  /** Bit `j` of an extracted field is bit `position + j` of the source, and
   * every bit at or above the field width is 0. */
  lemma ExtractBit(v: nat, position: nat, width: nat, j: nat)
    ensures Bit(Extract(v, Mask(position, width)), j) == (j < width && Bit(v, position + j))
  {
    LowBit(Shr(v, position), width, j);
    ShiftBit(v, position, j);
  }

  /** Extract is `(v >> position) mod 2^width`. */
  lemma ExtractIsDivMod(v: nat, position: nat, width: nat)
    ensures Extract(v, Mask(position, width)) == (v / Pow2(position)) % Pow2(width)
  {
    ShrIsDiv(v, position);
    LowIsMod(Shr(v, position), width);
  }

  /** `target` with the field `m` replaced by the low `m.width` bits of
   * `value`, truncated to a register of `size` bits. A negative `value` (a
   * signed source type) contributes its two's-complement bits. */
  function Insert(target: nat, value: int, m: Mask, size: nat): (r: nat)
    ensures r < Pow2(size)
  {
    var high := Shr(target, m.position + m.width);
    var field := Low(value, m.width);
    Low(Shl(Shl(high, m.width) + field, m.position) + Low(target, m.position), size)
  }

  /** Insert as shift-and-mask arithmetic on the register value. */
  lemma InsertIsArith(target: nat, value: int, position: nat, width: nat, size: nat)
    ensures Insert(target, value, Mask(position, width), size) ==
            ((target / Pow2(position + width) * Pow2(width) + value % Pow2(width)) * Pow2(position)
             + target % Pow2(position)) % Pow2(size)
  {
    var high := Shr(target, position + width);
    ShrIsDiv(target, position + width);
    LowIsMod(value, width);
    var upper := Shl(high, width) + Low(value, width);
    ShlIsMul(high, width);
    ShlIsMul(upper, position);
    LowIsMod(target, position);
    LowIsMod(Shl(upper, position) + Low(target, position), size);
  }

  /** Insert writes the field and leaves every bit outside it unchanged. */
  lemma InsertBit(target: nat, value: int, m: Mask, size: nat, j: nat)
    ensures Bit(Insert(target, value, m, size), j) ==
            (j < size && if InMask(m, j) then Bit(Low(value, m.width), j - m.position) else Bit(target, j))
  {
    var p, w := m.position, m.width;
    var high := Shr(target, p + w);
    var field := Low(value, w);
    var upper := Shl(high, w) + field;
    LowBit(Shl(upper, p) + Low(target, p), size, j);
    ShlBit(upper, p, Low(target, p), j);
    if j < p {
      LowBit(target, p, j);
    } else {
      ShlBit(high, w, field, j - p);
      if j - p >= w {
        ShiftBit(target, p + w, j - p - w);
      }
    }
  }

  /** Extracting a field just inserted gives back the inserted value,
   * truncated to the field width. */
  lemma InsertThenExtract(target: nat, value: int, m: Mask, size: nat)
    requires m.position + m.width <= size
    ensures Extract(Insert(target, value, m, size), m) == Low(value, m.width)
  {
    var r := Insert(target, value, m, size);
    forall j: nat | j < m.width
      ensures Bit(Extract(r, m), j) == Bit(Low(value, m.width), j)
    {
      ExtractBit(r, m.position, m.width, j);
      InsertBit(target, value, m, size, m.position + j);
    }
    BitsEqual(Extract(r, m), Low(value, m.width), m.width);
  }

  /** Inserting a field leaves the contents of every field beside it
   * unchanged. */
  lemma InsertKeepsOtherField(target: nat, value: int, m: Mask, other: Mask, size: nat)
    requires other.position + other.width <= m.position || m.position + m.width <= other.position
    requires other.position + other.width <= size
    ensures Extract(Insert(target, value, m, size), other) == Extract(target, other)
  {
    var r := Insert(target, value, m, size);
    forall j: nat | j < other.width
      ensures Bit(Extract(r, other), j) == Bit(Extract(target, other), j)
    {
      ExtractBit(r, other.position, other.width, j);
      ExtractBit(target, other.position, other.width, j);
      InsertBit(target, value, m, size, other.position + j);
    }
    BitsEqual(Extract(r, other), Extract(target, other), other.width);
  }

  lemma ExtractThenInsertBit(target: nat, m: Mask, size: nat, j: nat)
    requires j < size
    ensures Bit(Insert(target, Extract(target, m), m, size), j) == Bit(target, j)
  {
    var e := Extract(target, m);
    LowOfSmall(e, m.width);
    InsertBit(target, e, m, size, j);
    if InMask(m, j) {
      ExtractBit(target, m.position, m.width, j - m.position);
    }
  }

  /** Writing a field back with its own contents changes nothing. */
  lemma ExtractThenInsert(target: nat, m: Mask, size: nat)
    requires target < Pow2(size)
    ensures Insert(target, Extract(target, m), m, size) == target
  {
    forall j: nat | j < size
      ensures Bit(Insert(target, Extract(target, m), m, size), j) == Bit(target, j)
    {
      ExtractThenInsertBit(target, m, size, j);
    }
    BitsEqual(Insert(target, Extract(target, m), m, size), target, size);
  }

  /** `target` with bit `bit` set. */
  function Set(target: nat, bit: nat, size: nat): (r: nat)
    requires bit < size
    ensures r < Pow2(size) && Bit(r, bit)
  {
    InsertBit(target, 1, MaskFromBit(bit), size, bit);
    OneBits(0);
    Insert(target, 1, MaskFromBit(bit), size)
  }

  /** `target` with bit `bit` cleared. */
  function Clear(target: nat, bit: nat, size: nat): (r: nat)
    requires bit < size
    ensures r < Pow2(size) && !Bit(r, bit)
  {
    InsertBit(target, 0, MaskFromBit(bit), size, bit);
    ZeroBits(0);
    Insert(target, 0, MaskFromBit(bit), size)
  }

  /** `target` with bit `bit` inverted. */
  function Toggle(target: nat, bit: nat, size: nat): (r: nat)
    requires bit < size
    ensures r < Pow2(size) && Bit(r, bit) == !Bit(target, bit)
  {
    InsertBit(target, if Bit(target, bit) then 0 else 1, MaskFromBit(bit), size, bit);
    ZeroBits(0);
    OneBits(0);
    Insert(target, if Bit(target, bit) then 0 else 1, MaskFromBit(bit), size)
  }

  /** Set changes exactly bit `bit`, to 1. */
  lemma SetBit(target: nat, bit: nat, size: nat, j: nat)
    requires bit < size && target < Pow2(size)
    ensures Set(target, bit, size) < Pow2(size)
    ensures Bit(Set(target, bit, size), j) == (j == bit || Bit(target, j))
  {
    InsertBit(target, 1, MaskFromBit(bit), size, j);
    OneBits(0);
    if j >= size {
      NoBitsAbove(target, size, j);
    }
  }

  /** Clear changes exactly bit `bit`, to 0. */
  lemma ClearBit(target: nat, bit: nat, size: nat, j: nat)
    requires bit < size && target < Pow2(size)
    ensures Clear(target, bit, size) < Pow2(size)
    ensures Bit(Clear(target, bit, size), j) == (j != bit && Bit(target, j))
  {
    InsertBit(target, 0, MaskFromBit(bit), size, j);
    ZeroBits(0);
    if j >= size {
      NoBitsAbove(target, size, j);
    }
  }

  /** Toggle inverts exactly bit `bit`. */
  lemma ToggleBit(target: nat, bit: nat, size: nat, j: nat)
    requires bit < size && target < Pow2(size)
    ensures Toggle(target, bit, size) < Pow2(size)
    ensures Bit(Toggle(target, bit, size), j) == if j == bit then !Bit(target, j) else Bit(target, j)
  {
    InsertBit(target, if Bit(target, bit) then 0 else 1, MaskFromBit(bit), size, j);
    ZeroBits(0);
    OneBits(0);
    if j >= size {
      NoBitsAbove(target, size, j);
    }
  }

  /** Toggling the same bit twice restores the value. */
  lemma ToggleTwice(target: nat, bit: nat, size: nat)
    requires bit < size && target < Pow2(size)
    ensures Toggle(Toggle(target, bit, size), bit, size) == target
  {
    var once := Toggle(target, bit, size);
    ToggleBit(target, bit, size, bit);
    forall j: nat | j < size
      ensures Bit(Toggle(once, bit, size), j) == Bit(target, j)
    {
      ToggleBit(target, bit, size, j);
      ToggleBit(once, bit, size, j);
    }
    BitsEqual(Toggle(once, bit, size), target, size);
  }

  /** Pow2 at the small exponents the register examples use. */
  lemma Pow2Small()
    ensures Pow2(1) == 2 && Pow2(2) == 4 && Pow2(3) == 8 && Pow2(4) == 0x10
    ensures Pow2(5) == 0x20 && Pow2(7) == 0x80 && Pow2(8) == 0x100
  {
    assert Pow2(5) == 0x20;
    assert Pow2(8) == 0x100;
  }

  /** Pow2 at the exponents the register examples use. */
  lemma Pow2Values()
    ensures Pow2(1) == 2 && Pow2(2) == 4 && Pow2(3) == 8 && Pow2(5) == 0x20
    ensures Pow2(4) == 0x10 && Pow2(7) == 0x80 && Pow2(8) == 0x100
    ensures Pow2(11) == 0x800 && Pow2(12) == 0x1000 && Pow2(15) == 0x8000
    ensures Pow2(16) == 0x1_0000 && Pow2(20) == 0x10_0000 && Pow2(24) == 0x100_0000
    ensures Pow2(32) == 0x1_0000_0000 && Pow2(48) == 0x1_0000_0000_0000
    ensures Pow2(64) == 0x1_0000_0000_0000_0000
  {
    Pow2Small();
    Pow2Add(8, 3);
    Pow2Add(8, 4);
    Pow2Add(8, 7);
    Pow2Add(8, 8);
    Pow2Add(16, 4);
    Pow2Add(16, 8);
    Pow2Add(16, 16);
    Pow2Add(32, 16);
    Pow2Add(32, 32);
  }

  /** The field's low `width - 1` bits read as a two's-complement number:
   * `bit::SignedExtract`. Bit `width - 2` is the sign; the top bit of the
   * field is not part of the result. The two ensures determine `r`. */
  function SignedExtract(v: nat, m: Mask): (r: int)
    requires m.width >= 2
    ensures -(Pow2(m.width - 2) as int) <= r < Pow2(m.width - 2)
    ensures Low(r, m.width - 1) == Low(Extract(v, m), m.width - 1)
  {
    ExtractNarrower(v, m.position, m.width);
    var field := Extract(v, Mask(m.position, m.width - 1));
    LowOfSmall(field, m.width - 1);
    LowMinusPow2(field, m.width - 1);
    var half := Pow2(m.width - 2);
    assert Pow2(m.width - 1) == 2 * half;
    if field >= half then field - 2 * half else field
  }

  /** Dropping the top bit of a field keeps its low `width - 1` bits. */
  lemma ExtractNarrower(v: nat, position: nat, width: nat)
    requires width >= 1
    ensures Extract(v, Mask(position, width - 1)) == Low(Extract(v, Mask(position, width)), width - 1)
  {
    LowLow(Shr(v, position), width - 1, width);
  }

  /** Byte order of a stream handed to StreamExtract. With `Little` (the
   * default) the last byte of the stream holds bits 0-7; with `Big` the
   * first byte does. */
  datatype Endian = Little | Big

  /** The stream as a number whose last byte is least significant. */
  function ValueLastByteLow(s: seq<Byte>): nat
  {
    if |s| == 0 then 0 else Shl(ValueLastByteLow(s[..|s| - 1]), 8) + s[|s| - 1]
  }

  /** The stream as a number whose first byte is least significant. */
  function ValueFirstByteLow(s: seq<Byte>): nat
  {
    if |s| == 0 then 0 else Shl(ValueFirstByteLow(s[1..]), 8) + s[0]
  }

  function StreamValue(s: seq<Byte>, endian: Endian): nat
  {
    match endian
    case Little => ValueLastByteLow(s)
    case Big => ValueFirstByteLow(s)
  }

  /** Index of the byte holding bit `k` of a stream of `n` bytes. */
  function StreamByteIndex(n: nat, k: nat, endian: Endian): int
  {
    match endian
    case Little => n - 1 - k / 8
    case Big => k / 8
  }

  /** The field `m` of the stream read as one long number:
   * `bit::StreamExtract`. */
  function StreamExtract(s: seq<Byte>, m: Mask, endian: Endian): (r: nat)
    ensures r < Pow2(m.width)
  {
    Extract(StreamValue(s, endian), m)
  }

  lemma Pow2Byte()
    ensures Pow2(8) == 256
  {
    Pow2Small();
  }

  /** A two-byte stream as a number, in either byte order. */
  lemma StreamValueTwo(a: Byte, b: Byte)
    ensures StreamValue([a, b], Little) == 256 * a + b
    ensures StreamValue([a, b], Big) == 256 * b + a
  {
    Pow2Byte();
    ShlIsMul(0, 8);
    ShlIsMul(a, 8);
    ShlIsMul(b, 8);
    assert [a][..0] == [] && [b][1..] == [];
    assert ValueLastByteLow([a]) == a;
    assert ValueFirstByteLow([b]) == b;
    assert [a, b][..1] == [a] && [a, b][1..] == [b];
    assert ValueLastByteLow([a, b]) == Shl(a, 8) + b;
    assert ValueFirstByteLow([a, b]) == Shl(b, 8) + a;
  }

  lemma {:induction false} LastByteLowBit(s: seq<Byte>, k: nat)
    ensures Bit(ValueLastByteLow(s), k) ==
            (k < 8 * |s| && Bit(s[|s| - 1 - k / 8], k % 8))
  {
    if |s| == 0 {
      ZeroBits(k);
    } else {
      var init := s[..|s| - 1];
      Pow2Byte();
      ShlBit(ValueLastByteLow(init), 8, s[|s| - 1], k);
      if k >= 8 {
        LastByteLowBit(init, k - 8);
        assert (k - 8) / 8 == k / 8 - 1 && (k - 8) % 8 == k % 8;
      }
    }
  }

  lemma {:induction false} FirstByteLowBit(s: seq<Byte>, k: nat)
    ensures Bit(ValueFirstByteLow(s), k) == (k < 8 * |s| && Bit(s[k / 8], k % 8))
  {
    if |s| == 0 {
      ZeroBits(k);
    } else {
      Pow2Byte();
      ShlBit(ValueFirstByteLow(s[1..]), 8, s[0], k);
      if k >= 8 {
        FirstByteLowBit(s[1..], k - 8);
        assert (k - 8) / 8 == k / 8 - 1 && (k - 8) % 8 == k % 8;
      }
    }
  }

  /** Bit `j` of a stream field is bit `(position + j) mod 8` of the byte that
   * holds stream bit `position + j`; bits past the field or the stream read
   * as 0. */
  lemma StreamExtractBit(s: seq<Byte>, position: nat, width: nat, endian: Endian, j: nat)
    ensures Bit(StreamExtract(s, Mask(position, width), endian), j) ==
            (j < width && position + j < 8 * |s| &&
             Bit(s[StreamByteIndex(|s|, position + j, endian)], (position + j) % 8))
  {
    ExtractBit(StreamValue(s, endian), position, width, j);
    match endian
    case Little => LastByteLowBit(s, position + j);
    case Big => FirstByteLowBit(s, position + j);
  }
}
