/** The SD card driver of the firmware tree: its CRC-7 and CRC-16 lookup
 * tables, the table-driven CRC routines, the command codes, the six-word
 * command frame `SendCmd` sends and the length of the response it reads.
 *
 * Both CRCs are the ones of section 4.5 of the SD Physical Layer Simplified
 * Specification v6.00: CRC-7 with generator x^7 + x^3 + 1, and CRC-16 with
 * generator x^16 + x^12 + x^5 + 1 (CCITT), both starting from 0, message bits
 * taken most significant first, no final XOR. Register arithmetic on the
 * driver's `uint8_t`/`uint16_t`/`uint64_t` values is done on the bit-vector
 * types of the same width, so wrap-around is the type's own. */
module FirmwareSd {
  import opened Wrappers

  /** `kPoly8bit`: x^7 + x^3 + 1 with the x^7 term kept in bit 7. */
  const Crc7Polynomial: bv8 := 0x89

  /** `kPoly16bit`, the 17-bit value 0x11021 (x^16 + x^12 + x^5 + 1). */
  const Crc16PolynomialWord: nat := 0x11021

  /** What the generator XORs in: `kPoly16bit` cast to `uint16_t`. */
  const Crc16Polynomial: bv16 := 0x1021

  lemma Crc16PolynomialCast()
    ensures Crc16PolynomialWord % 0x1_0000 == Crc16Polynomial as nat
  {
  }

  // ---------------------------------------------------------------- CRC-7

  /** The value a CRC-7 table entry starts from: the index, reduced once by
   * the polynomial when its bit 7 is set. */
  function Crc7Start(i: bv8): bv8
  {
    if i & 0x80 != 0 then i ^ Crc7Polynomial else i
  }

  /** One pass of the inner generator loop: shift left within the byte, then
   * reduce when bit 7 comes out set. The result never has bit 7 set. */
  function Crc7Shift(t: bv8): (r: bv8)
    ensures r < 0x80
  {
    var s := t << 1;
    if s & 0x80 != 0 then s ^ Crc7Polynomial else s
  }

  /** `n` passes of the inner loop. */
  function Crc7Shifts(t: bv8, n: nat): bv8
  {
    if n == 0 then t else Crc7Shift(Crc7Shifts(t, n - 1))
  }

  /** Table entry `i`: the start value after the seven passes of the inner
   * loop (`j` from 1 to 7). Every entry is below 0x80. */
  function Crc7Entry(i: bv8): (r: bv8)
    ensures r < 0x80
  {
    Crc7Shift(Crc7Shift(Crc7Shift(Crc7Shift(Crc7Shift(Crc7Shift(Crc7Shift(Crc7Start(i))))))))
  }

  lemma Crc7ShiftsSeven(i: bv8)
    ensures Crc7Shifts(Crc7Start(i), 7) == Crc7Entry(i)
  {
    var t := Crc7Start(i);
    assert Crc7Shifts(t, 1) == Crc7Shift(t);
    assert Crc7Shifts(t, 2) == Crc7Shift(Crc7Shifts(t, 1));
    assert Crc7Shifts(t, 3) == Crc7Shift(Crc7Shifts(t, 2));
    assert Crc7Shifts(t, 4) == Crc7Shift(Crc7Shifts(t, 3));
    assert Crc7Shifts(t, 5) == Crc7Shift(Crc7Shifts(t, 4));
    assert Crc7Shifts(t, 6) == Crc7Shift(Crc7Shifts(t, 5));
  }

  /** The body of the generator's outer loop: the start value, then the
   * inner loop for `j` from 1 to 7. */
  method Crc7TableEntry(i: bv8) returns (entry: bv8)
    ensures entry == Crc7Entry(i)
  {
    entry := if i & 0x80 != 0 then i ^ Crc7Polynomial else i;
    var j := 1;
    while j < 8
      invariant 1 <= j <= 8
      invariant entry == Crc7Shifts(Crc7Start(i), j - 1)
    {
      entry := entry << 1;
      if entry & 0x80 != 0 {
        entry := entry ^ Crc7Polynomial;
      }
      j := j + 1;
    }
    Crc7ShiftsSeven(i);
  }

  /** `GenerateCrc7Table` as written: the outer loop stops at `i < 0xFF`, so
   * entries 0 to 254 are computed and entry 255 keeps the table's initial
   * 0. */
  method GenerateCrc7Table() returns (table: array<bv8>)
    ensures fresh(table) && table.Length == 256
    ensures forall i :: 0 <= i < 0xFF ==> table[i] == Crc7Entry(i as bv8)
    ensures table[0xFF] == 0
  {
    table := new bv8[256](_ => 0);
    var i := 0;
    while i < 0xFF
      invariant 0 <= i <= 0xFF
      invariant forall k :: 0 <= k < i ==> table[k] == Crc7Entry(k as bv8)
      invariant forall k :: i <= k < 256 ==> table[k] == 0
    {
      table[i] := Crc7TableEntry(i as bv8);
      i := i + 1;
    }
  }

  /** The generator with the outer loop over all 256 indices, which is what
   * its own comment asks for. */
  method GenerateCrc7TableCorrected() returns (table: array<bv8>)
    ensures fresh(table) && table.Length == 256
    ensures forall i :: 0 <= i < 256 ==> table[i] == Crc7Entry(i as bv8)
  {
    table := new bv8[256](_ => 0);
    var i := 0;
    while i < 256
      invariant 0 <= i <= 256
      invariant forall k :: 0 <= k < i ==> table[k] == Crc7Entry(k as bv8)
    {
      table[i] := Crc7TableEntry(i as bv8);
      i := i + 1;
    }
  }

  /** The table index `Crc7Add` reads, `(crc << 1) ^ message_byte`, is
   * computed in `int`; because every CRC-7 value is below 0x80 it is below
   * 256 and equals the same computation in eight bits. */
  lemma Crc7IndexInRange(crc: bv8, b: bv8)
    requires crc < 0x80
    ensures ((crc as bv16) << 1) ^ (b as bv16) < 0x100
    ensures ((crc as bv16) << 1) ^ (b as bv16) == ((crc << 1) ^ b) as bv16
  {
  }

  /** `Crc7Add` over the full table. */
  function Crc7Add(crc: bv8, b: bv8): (r: bv8)
    requires crc < 0x80
    ensures r < 0x80
  {
    Crc7Entry((crc << 1) ^ b)
  }

  /** The table `GenerateCrc7Table` builds, entry by entry. */
  function Crc7TableAsWritten(i: bv8): (r: bv8)
    ensures i != 0xFF ==> r == Crc7Entry(i)
    ensures i == 0xFF ==> r == 0
  {
    if i == 0xFF then 0 else Crc7Entry(i)
  }

  /** `Crc7Add` over the table as generated. */
  function Crc7AddAsWritten(crc: bv8, b: bv8): (r: bv8)
    requires crc < 0x80
    ensures r < 0x80
    ensures (crc << 1) ^ b != 0xFF ==> r == Crc7Add(crc, b)
  {
    Crc7TableAsWritten((crc << 1) ^ b)
  }

  /** `GetCrc7` as a fold: `Crc7Add` over the message from a CRC of 0. */
  function Crc7(message: seq<bv8>): (r: bv8)
    ensures r < 0x80
  {
    if |message| == 0 then 0
    else Crc7Add(Crc7(message[..|message| - 1]), message[|message| - 1])
  }

  /** The same fold over the table as generated. */
  function Crc7AsWritten(message: seq<bv8>): (r: bv8)
    ensures r < 0x80
  {
    if |message| == 0 then 0
    else Crc7AddAsWritten(Crc7AsWritten(message[..|message| - 1]), message[|message| - 1])
  }

  /** `GetCrc7`: the loop over the message, whose length is a `uint8_t`. */
  method GetCrc7(message: seq<bv8>) returns (crc: bv8)
    requires |message| < 0x100
    ensures crc == Crc7(message)
  {
    crc := 0;
    for i := 0 to |message|
      invariant crc == Crc7(message[..i])
    {
      assert message[..i + 1][..i] == message[..i];
      crc := Crc7Add(crc, message[i]);
    }
    assert message[..|message|] == message;
  }

  /** One message bit through the CRC-7 shift register of section 4.5 of the
   * SD Physical Layer Simplified Specification: the register's top bit is
   * XORed with the message bit, the register shifts left and, when that
   * feedback is 1, x^3 + 1 is added. */
  function Crc7Bit(crc: bv8, bit: bool): (r: bv8)
    ensures r < 0x80
  {
    var feedback := ((crc >> 6) & 1 == 1) != bit;
    var shifted := (crc << 1) & 0x7F;
    if feedback then shifted ^ 0x09 else shifted
  }

  /** One message byte through the shift register, most significant bit
   * first. */
  function Crc7Byte(crc: bv8, b: bv8): bv8
  {
    var c1 := Crc7Bit(crc, b & 0x80 != 0);
    var c2 := Crc7Bit(c1, b & 0x40 != 0);
    var c3 := Crc7Bit(c2, b & 0x20 != 0);
    var c4 := Crc7Bit(c3, b & 0x10 != 0);
    var c5 := Crc7Bit(c4, b & 0x08 != 0);
    var c6 := Crc7Bit(c5, b & 0x04 != 0);
    var c7 := Crc7Bit(c6, b & 0x02 != 0);
    Crc7Bit(c7, b & 0x01 != 0)
  }

  /** The bit-serial CRC-7 of a message. */
  function Crc7Reference(message: seq<bv8>): bv8
  {
    if |message| == 0 then 0
    else Crc7Byte(Crc7Reference(message[..|message| - 1]), message[|message| - 1])
  }

  /** Table entry `i` is the register after byte `i` went through the
   * shift register of the standard from 0: the table holds the CRC-7 of
   * every one-byte message. */
  lemma Crc7EntryIsBitSerial(i: bv8)
    ensures Crc7Entry(i) == Crc7Byte(0, i)
  {
  }

  /** On a one-byte message the table-driven CRC-7 is the CRC-7 of the
   * standard. */
  lemma Crc7OneByteIsReference(b: bv8)
    ensures Crc7([b]) == Crc7Reference([b])
  {
    assert [b][..0] == [];
    assert (0 as bv8 << 1) ^ b == b;
    Crc7EntryIsBitSerial(b);
  }

  /** One table step is the shift register of the standard run over one
   * byte: the table-driven and bit-serial CRC-7 agree step by step. */
  lemma Crc7AddIsByte(crc: bv8, b: bv8)
    requires crc < 0x80
    ensures Crc7Add(crc, b) == Crc7Byte(crc, b)
  {
    Crc7ByteIsAugmented(crc, b);
    Crc7EntryIsBitSerial((crc << 1) ^ b);
  }

  /* The proof of `Crc7AddIsByte` follows the register together with the
   * message bits still to come, packed in 16 bits: the register in bits 8 to
   * 14 and the unread message bits from bit 7 down. The register shifted up
   * one place and XORed with the unread bits is the index `Crc7Add` looks
   * up; one clock of the shift register is one step of that 8-bit value, so
   * two packed states with the same index end with the same register. */

  /** One clock of the packed shift register. */
  function Crc7Clock(s: bv16): bv16
  {
    var next := (s << 1) & 0x7EFE;
    if (s & 0x4000 != 0) != (s & 0x80 != 0) then next ^ 0x0900 else next
  }

  /** `n` clocks of the packed shift register. */
  function Crc7Clocks(s: bv16, n: nat): bv16
  {
    if n == 0 then s else Crc7Clock(Crc7Clocks(s, n - 1))
  }

  function Crc7Pack(crc: bv8, b: bv8): bv16
  {
    ((crc as bv16) << 8) | (b as bv16)
  }

  function Crc7Register(s: bv16): bv8
  {
    ((s >> 8) & 0x7F) as bv8
  }

  function Crc7Unread(s: bv16): bv8
  {
    (s & 0xFF) as bv8
  }

  /** The register shifted up one place with the unread bits XORed in. */
  function Crc7Augmented(s: bv16): bv8
  {
    (Crc7Register(s) << 1) ^ Crc7Unread(s)
  }

  /** One step of the augmented value: the step of `Crc7Shift`, with the
   * polynomial aligned one place up. */
  function Crc7Widened(t: bv8): bv8
  {
    if t & 0x80 != 0 then (t << 1) ^ 0x12 else t << 1
  }

  lemma Crc7ClocksEight(s: bv16)
    ensures Crc7Clocks(s, 8)
         == Crc7Clock(Crc7Clock(Crc7Clock(Crc7Clock(Crc7Clock(Crc7Clock(Crc7Clock(Crc7Clock(s))))))))
  {
    assert Crc7Clocks(s, 1) == Crc7Clock(s);
    assert Crc7Clocks(s, 2) == Crc7Clock(Crc7Clocks(s, 1));
    assert Crc7Clocks(s, 3) == Crc7Clock(Crc7Clocks(s, 2));
    assert Crc7Clocks(s, 4) == Crc7Clock(Crc7Clocks(s, 3));
    assert Crc7Clocks(s, 5) == Crc7Clock(Crc7Clocks(s, 4));
    assert Crc7Clocks(s, 6) == Crc7Clock(Crc7Clocks(s, 5));
    assert Crc7Clocks(s, 7) == Crc7Clock(Crc7Clocks(s, 6));
  }

  lemma Crc7ClockRegister(c: bv8, m: bv8)
    requires c < 0x80
    ensures Crc7Register(Crc7Clock(Crc7Pack(c, m))) == Crc7Bit(c, m & 0x80 != 0)
  {
  }

  lemma Crc7ClockUnread(c: bv8, m: bv8)
    requires c < 0x80
    ensures Crc7Unread(Crc7Clock(Crc7Pack(c, m))) == m << 1
  {
  }

  lemma Crc7Unpack(s: bv16)
    requires s < 0x8000
    ensures s == Crc7Pack(Crc7Register(s), Crc7Unread(s))
    ensures Crc7Register(s) < 0x80
  {
  }

  lemma Crc7ClockBelow(s: bv16)
    ensures Crc7Clock(s) < 0x8000
  {
  }

  /** One clock of a packed state is one `Crc7Bit` step on its register. */
  lemma Crc7ClockPack(c: bv8, m: bv8)
    requires c < 0x80
    ensures Crc7Clock(Crc7Pack(c, m)) == Crc7Pack(Crc7Bit(c, m & 0x80 != 0), m << 1)
  {
    Crc7ClockRegister(c, m);
    Crc7ClockUnread(c, m);
    Crc7ClockBelow(Crc7Pack(c, m));
    Crc7Unpack(Crc7Clock(Crc7Pack(c, m)));
  }

  lemma Crc7ShiftedTop(b: bv8)
    ensures (b << 1) & 0x80 != 0 <==> b & 0x40 != 0
    ensures (b << 2) & 0x80 != 0 <==> b & 0x20 != 0
    ensures (b << 3) & 0x80 != 0 <==> b & 0x10 != 0
    ensures (b << 4) & 0x80 != 0 <==> b & 0x08 != 0
    ensures (b << 5) & 0x80 != 0 <==> b & 0x04 != 0
    ensures (b << 6) & 0x80 != 0 <==> b & 0x02 != 0
    ensures (b << 7) & 0x80 != 0 <==> b & 0x01 != 0
    ensures (b << 1) << 1 == b << 2
    ensures (b << 2) << 1 == b << 3
    ensures (b << 3) << 1 == b << 4
    ensures (b << 4) << 1 == b << 5
    ensures (b << 5) << 1 == b << 6
    ensures (b << 6) << 1 == b << 7
    ensures (b << 7) << 1 == 0
  {
  }

  lemma Crc7RegisterPack(c: bv8, m: bv8)
    requires c < 0x80
    ensures Crc7Register(Crc7Pack(c, m)) == c
  {
  }

  /** Eight clocks of the packed register compute `Crc7Byte`. */
  lemma Crc7ClocksAreByte(crc: bv8, b: bv8)
    requires crc < 0x80
    ensures Crc7Register(Crc7Clocks(Crc7Pack(crc, b), 8)) == Crc7Byte(crc, b)
  {
    Crc7ShiftedTop(b);
    var c1 := Crc7Bit(crc, b & 0x80 != 0);
    var c2 := Crc7Bit(c1, b & 0x40 != 0);
    var c3 := Crc7Bit(c2, b & 0x20 != 0);
    var c4 := Crc7Bit(c3, b & 0x10 != 0);
    var c5 := Crc7Bit(c4, b & 0x08 != 0);
    var c6 := Crc7Bit(c5, b & 0x04 != 0);
    var c7 := Crc7Bit(c6, b & 0x02 != 0);
    var c8 := Crc7Bit(c7, b & 0x01 != 0);
    Crc7ClockPack(crc, b);
    Crc7ClockPack(c1, b << 1);
    Crc7ClockPack(c2, b << 2);
    Crc7ClockPack(c3, b << 3);
    Crc7ClockPack(c4, b << 4);
    Crc7ClockPack(c5, b << 5);
    Crc7ClockPack(c6, b << 6);
    Crc7ClockPack(c7, b << 7);
    Crc7ClocksEight(Crc7Pack(crc, b));
    Crc7RegisterPack(c8, 0);
  }

  lemma Crc7WidenedPackFeed(c: bv8, m: bv8)
    requires c < 0x80
    requires ((c >> 6) & 1 == 1) != (m & 0x80 != 0)
    ensures Crc7Widened(Crc7Augmented(Crc7Pack(c, m)))
         == Crc7Augmented(Crc7Pack(Crc7Bit(c, m & 0x80 != 0), m << 1))
  {
  }

  lemma Crc7WidenedPackNoFeed(c: bv8, m: bv8)
    requires c < 0x80
    requires ((c >> 6) & 1 == 1) == (m & 0x80 != 0)
    ensures Crc7Widened(Crc7Augmented(Crc7Pack(c, m)))
         == Crc7Augmented(Crc7Pack(Crc7Bit(c, m & 0x80 != 0), m << 1))
  {
  }

  lemma Crc7WidenedPack(c: bv8, m: bv8)
    requires c < 0x80
    ensures Crc7Widened(Crc7Augmented(Crc7Pack(c, m)))
         == Crc7Augmented(Crc7Pack(Crc7Bit(c, m & 0x80 != 0), m << 1))
  {
    if ((c >> 6) & 1 == 1) != (m & 0x80 != 0) {
      Crc7WidenedPackFeed(c, m);
    } else {
      Crc7WidenedPackNoFeed(c, m);
    }
  }

  /** A clock takes the augmented value one `Crc7Widened` step on. */
  lemma Crc7AugmentedClock(s: bv16)
    requires s < 0x8000
    ensures Crc7Augmented(Crc7Clock(s)) == Crc7Widened(Crc7Augmented(s))
  {
    var c, m := Crc7Register(s), Crc7Unread(s);
    Crc7Unpack(s);
    Crc7ClockPack(c, m);
    Crc7WidenedPack(c, m);
  }

  /** Packed states with the same augmented value keep it equal clock by
   * clock. */
  lemma {:induction false} Crc7AugmentedClocks(s: bv16, u: bv16, n: nat)
    requires s < 0x8000 && u < 0x8000
    requires Crc7Augmented(s) == Crc7Augmented(u)
    ensures Crc7Augmented(Crc7Clocks(s, n)) == Crc7Augmented(Crc7Clocks(u, n))
    ensures Crc7Clocks(s, n) < 0x8000 && Crc7Clocks(u, n) < 0x8000
  {
    if n > 0 {
      Crc7AugmentedClocks(s, u, n - 1);
      Crc7AugmentedClock(Crc7Clocks(s, n - 1));
      Crc7AugmentedClock(Crc7Clocks(u, n - 1));
      Crc7ClockBelow(Crc7Clocks(s, n - 1));
      Crc7ClockBelow(Crc7Clocks(u, n - 1));
    }
  }

  lemma Crc7UnreadClock(s: bv16)
    ensures Crc7Unread(Crc7Clock(s)) == Crc7Unread(s) << 1
  {
  }

  /** After eight clocks every message bit has been read. */
  lemma Crc7UnreadEight(s: bv16)
    ensures Crc7Unread(Crc7Clocks(s, 8)) == 0
  {
    Crc7ClocksEight(s);
    var s1 := Crc7Clock(s);
    var s2 := Crc7Clock(s1);
    var s3 := Crc7Clock(s2);
    var s4 := Crc7Clock(s3);
    var s5 := Crc7Clock(s4);
    var s6 := Crc7Clock(s5);
    var s7 := Crc7Clock(s6);
    Crc7UnreadClock(s);
    Crc7UnreadClock(s1);
    Crc7UnreadClock(s2);
    Crc7UnreadClock(s3);
    Crc7UnreadClock(s4);
    Crc7UnreadClock(s5);
    Crc7UnreadClock(s6);
    Crc7UnreadClock(s7);
    Crc7ShiftedTop(Crc7Unread(s));
  }

  lemma Crc7RegisterOfAugmented(s: bv16)
    requires s < 0x8000 && Crc7Unread(s) == 0
    ensures Crc7Register(s) == Crc7Augmented(s) >> 1
  {
  }

  lemma Crc7AugmentedPack(c: bv8, m: bv8)
    requires c < 0x80
    ensures Crc7Augmented(Crc7Pack(c, m)) == (c << 1) ^ m
    ensures Crc7Pack(c, m) < 0x8000
  {
  }

  /** A register of `crc` run over byte `b` ends where a register of 0 run
   * over `(crc << 1) ^ b` ends: the index `Crc7Add` reads. */
  lemma Crc7ByteIsAugmented(crc: bv8, b: bv8)
    requires crc < 0x80
    ensures Crc7Byte(crc, b) == Crc7Byte(0, (crc << 1) ^ b)
  {
    var s, u := Crc7Pack(crc, b), Crc7Pack(0, (crc << 1) ^ b);
    Crc7AugmentedPack(crc, b);
    Crc7AugmentedPack(0, (crc << 1) ^ b);
    assert ((0 as bv8) << 1) ^ ((crc << 1) ^ b) == (crc << 1) ^ b;
    Crc7AugmentedClocks(s, u, 8);
    Crc7UnreadEight(s);
    Crc7UnreadEight(u);
    Crc7RegisterOfAugmented(Crc7Clocks(s, 8));
    Crc7RegisterOfAugmented(Crc7Clocks(u, 8));
    Crc7ClocksAreByte(crc, b);
    Crc7ClocksAreByte(0, (crc << 1) ^ b);
  }

  /** The table-driven CRC-7 of every message is the bit-serial CRC-7 of
   * section 4.5 of the SD Physical Layer Simplified Specification. */
  lemma {:induction false} Crc7IsReference(message: seq<bv8>)
    ensures Crc7(message) == Crc7Reference(message)
    decreases |message|
  {
    if |message| > 0 {
      var front := message[..|message| - 1];
      Crc7IsReference(front);
      Crc7AddIsByte(Crc7(front), message[|message| - 1]);
    }
  }

  /** The CRC-7 of a five-byte command message, one byte at a time. */
  lemma Crc7OfFive(a: bv8, b: bv8, c: bv8, d: bv8, e: bv8)
    ensures Crc7([a, b, c, d, e])
         == Crc7Add(Crc7Add(Crc7Add(Crc7Add(Crc7Add(0, a), b), c), d), e)
  {
    assert Crc7([a]) == Crc7Add(0, a) by { assert [a][..0] == []; }
    assert Crc7([a, b]) == Crc7Add(Crc7([a]), b) by { assert [a, b][..1] == [a]; }
    assert Crc7([a, b, c]) == Crc7Add(Crc7([a, b]), c) by { assert [a, b, c][..2] == [a, b]; }
    assert Crc7([a, b, c, d]) == Crc7Add(Crc7([a, b, c]), d) by { assert [a, b, c, d][..3] == [a, b, c]; }
    assert [a, b, c, d, e][..4] == [a, b, c, d];
  }

  /** The CRC-7 of the frames section 4.5 of the SD Physical Layer
   * Simplified Specification works out: CMD0 with argument 0, CMD17 with
   * argument 0, and CMD8 with argument 0x1AA. */
  lemma Crc7Examples()
    ensures Crc7([0x40, 0, 0, 0, 0]) == 0x4A
    ensures Crc7([0x51, 0, 0, 0, 0]) == 0x2A
    ensures Crc7([0x48, 0, 0, 0x01, 0xAA]) == 0x43
  {
    Crc7OfFive(0x40, 0, 0, 0, 0);
    Crc7OfFive(0x51, 0, 0, 0, 0);
    Crc7OfFive(0x48, 0, 0, 0x01, 0xAA);
  }

  /** One step of the bit-serial CRC-7 on a known prefix. */
  lemma Crc7ReferenceExtend(message: seq<bv8>, b: bv8, before: bv8, after: bv8)
    requires Crc7Reference(message) == before
    requires Crc7Byte(before, b) == after
    ensures Crc7Reference(message + [b]) == after
  {
    assert (message + [b])[..|message|] == message;
  }

  /** The shift register of the standard gives the same three frame CRCs. */
  lemma Crc7ReferenceExamples()
    ensures Crc7Reference([0x40, 0, 0, 0, 0]) == 0x4A
    ensures Crc7Reference([0x51, 0, 0, 0, 0]) == 0x2A
    ensures Crc7Reference([0x48, 0, 0, 0x01, 0xAA]) == 0x43
  {
    Crc7ReferenceGoIdle();
    Crc7ReferenceReadBlock();
    Crc7ReferenceSendIfCond();
  }

  /** The bit-serial CRC-7 of CMD0 with argument 0, byte by byte. */
  lemma Crc7ReferenceGoIdle()
    ensures Crc7Reference([0x40, 0, 0, 0, 0]) == 0x4A
  {
    var m: seq<bv8> := [];
    Crc7ReferenceExtend(m, 0x40, 0, 0x64);
    m := m + [0x40];
    Crc7ReferenceExtend(m, 0, 0x64, 0x6D);
    m := m + [0];
    Crc7ReferenceExtend(m, 0, 0x6D, 0x66);
    m := m + [0];
    Crc7ReferenceExtend(m, 0, 0x66, 0x49);
    m := m + [0];
    Crc7ReferenceExtend(m, 0, 0x49, 0x4A);
    m := m + [0];
    assert m == [0x40, 0, 0, 0, 0];
  }

  /** The bit-serial CRC-7 of CMD17 with argument 0, byte by byte. */
  lemma Crc7ReferenceReadBlock()
    ensures Crc7Reference([0x51, 0, 0, 0, 0]) == 0x2A
  {
    var m: seq<bv8> := [];
    Crc7ReferenceExtend(m, 0x51, 0, 0x74);
    m := m + [0x51];
    Crc7ReferenceExtend(m, 0, 0x74, 0x5F);
    m := m + [0];
    Crc7ReferenceExtend(m, 0, 0x5F, 0x14);
    m := m + [0];
    Crc7ReferenceExtend(m, 0, 0x14, 0x7A);
    m := m + [0];
    Crc7ReferenceExtend(m, 0, 0x7A, 0x2A);
    m := m + [0];
    assert m == [0x51, 0, 0, 0, 0];
  }

  /** The bit-serial CRC-7 of CMD8 with argument 0x1AA, byte by byte. */
  lemma Crc7ReferenceSendIfCond()
    ensures Crc7Reference([0x48, 0, 0, 0x01, 0xAA]) == 0x43
  {
    var m: seq<bv8> := [];
    Crc7ReferenceExtend(m, 0x48, 0, 0x2C);
    m := m + [0x48];
    Crc7ReferenceExtend(m, 0, 0x2C, 0x35);
    m := m + [0];
    Crc7ReferenceExtend(m, 0, 0x35, 0x0C);
    m := m + [0];
    Crc7ReferenceExtend(m, 1, 0x0C, 0x58);
    m := m + [1];
    Crc7ReferenceExtend(m, 0xAA, 0x58, 0x43);
    m := m + [0xAA];
    assert m == [0x48, 0, 0, 1, 0xAA];
  }

  /** The same fold over the table as generated. */
  lemma Crc7AsWrittenOfFive(a: bv8, b: bv8, c: bv8, d: bv8, e: bv8)
    ensures Crc7AsWritten([a, b, c, d, e])
         == Crc7AddAsWritten(Crc7AddAsWritten(Crc7AddAsWritten(Crc7AddAsWritten(Crc7AddAsWritten(0, a), b), c), d), e)
  {
    assert Crc7AsWritten([a]) == Crc7AddAsWritten(0, a) by { assert [a][..0] == []; }
    assert Crc7AsWritten([a, b]) == Crc7AddAsWritten(Crc7AsWritten([a]), b) by { assert [a, b][..1] == [a]; }
    assert Crc7AsWritten([a, b, c]) == Crc7AddAsWritten(Crc7AsWritten([a, b]), c) by { assert [a, b, c][..2] == [a, b]; }
    assert Crc7AsWritten([a, b, c, d]) == Crc7AddAsWritten(Crc7AsWritten([a, b, c]), d) by { assert [a, b, c, d][..3] == [a, b, c]; }
    assert [a, b, c, d, e][..4] == [a, b, c, d];
  }

  /** Entry 255 of the generated table is 0, where the CRC-7 table has 0x79;
   * a CMD17 frame whose first argument byte is 0x17 goes through that entry
   * and gets CRC 0 instead of 0x13. */
  lemma Crc7TableLastEntry()
    ensures Crc7TableAsWritten(0xFF) == 0 && Crc7Entry(0xFF) == 0x79
    ensures Crc7AsWritten([0x51, 0x17, 0, 0, 0]) == 0
    ensures Crc7([0x51, 0x17, 0, 0, 0]) == 0x13
  {
    Crc7OfFive(0x51, 0x17, 0, 0, 0);
    Crc7AsWrittenOfFive(0x51, 0x17, 0, 0, 0);
    assert Crc7Add(0, 0x51) == 0x74;
    assert Crc7AddAsWritten(0x74, 0x17) == 0;
    assert Crc7Add(0x74, 0x17) == 0x79;
  }

  // --------------------------------------------------------------- CRC-16

  /** One pass of the CRC-16 generator's inner loop: shift left and add the
   * polynomial when bit 15 was set before the shift. */
  function Crc16Shift(crc: bv16): bv16
  {
    if crc & 0x8000 != 0 then (crc << 1) ^ Crc16Polynomial else crc << 1
  }

  /** `n` passes of the inner loop. */
  function Crc16Shifts(crc: bv16, n: nat): bv16
  {
    if n == 0 then crc else Crc16Shift(Crc16Shifts(crc, n - 1))
  }

  /** Eight passes, written out. */
  function Crc16Shift8(crc: bv16): bv16
  {
    Crc16Shift(Crc16Shift(Crc16Shift(Crc16Shift(Crc16Shift(Crc16Shift(Crc16Shift(Crc16Shift(crc))))))))
  }

  lemma Crc16ShiftsEight(crc: bv16)
    ensures Crc16Shifts(crc, 8) == Crc16Shift8(crc)
  {
    assert Crc16Shifts(crc, 1) == Crc16Shift(crc);
    assert Crc16Shifts(crc, 2) == Crc16Shift(Crc16Shifts(crc, 1));
    assert Crc16Shifts(crc, 3) == Crc16Shift(Crc16Shifts(crc, 2));
    assert Crc16Shifts(crc, 4) == Crc16Shift(Crc16Shifts(crc, 3));
    assert Crc16Shifts(crc, 5) == Crc16Shift(Crc16Shifts(crc, 4));
    assert Crc16Shifts(crc, 6) == Crc16Shift(Crc16Shifts(crc, 5));
    assert Crc16Shifts(crc, 7) == Crc16Shift(Crc16Shifts(crc, 6));
  }

  /** The number of shift passes one byte takes. Proofs about a whole
   * byte refer to it by name, which keeps the solver from unrolling the
   * passes one by one. */
  const ShiftsPerByte: nat := 8

  /** Table entry `i`: `i << 8` after eight passes. */
  function Crc16Entry(i: bv8): bv16
  {
    Crc16Shifts((i as bv16) << 8, ShiftsPerByte)
  }

  /** The body of the generator's outer loop: `i << 8`, then the inner loop
   * for `j` from 0 to 7. */
  method Crc16TableEntry(i: bv8) returns (crc: bv16)
    ensures crc == Crc16Entry(i)
  {
    var start := (i as bv16) << 8;
    crc := start;
    var j := 0;
    while j < 8
      invariant 0 <= j <= 8
      invariant crc == Crc16Shifts(start, j)
    {
      crc := Crc16Shift(crc);
      j := j + 1;
    }
  }

  /** `GenerateCrc16Table`: every one of the 256 entries is computed. */
  method GenerateCrc16Table() returns (table: array<bv16>)
    ensures fresh(table) && table.Length == 256
    ensures forall i :: 0 <= i < 256 ==> table[i] == Crc16Entry(i as bv8)
  {
    table := new bv16[256](_ => 0);
    var i := 0;
    while i < 256
      invariant 0 <= i <= 256
      invariant forall k :: 0 <= k < i ==> table[k] == Crc16Entry(k as bv8)
    {
      table[i] := Crc16TableEntry(i as bv8);
      i := i + 1;
    }
  }

  /** One message byte through the table, in 16 bits: the entry for the
   * byte XORed with the register's top byte, XORed with the register
   * shifted up a byte. */
  function Crc16Add(crc: bv16, b: bv8): bv16
  {
    Crc16Entry(((b as bv16 ^ (crc >> 8)) & 0xFF) as bv8) ^ (crc << 8)
  }

  lemma Crc16AddUnrolled(crc: bv16, b: bv8)
    ensures Crc16Add(crc, b) == Crc16Shift8(((b as bv16 ^ (crc >> 8)) & 0xFF) << 8) ^ (crc << 8)
  {
    Crc16ShiftsEight(((b as bv16 ^ (crc >> 8)) & 0xFF) << 8);
  }

  /** The CRC-16 of a message by the table, from 0 and without a final XOR. */
  function Crc16(message: seq<bv8>): bv16
  {
    if |message| == 0 then 0
    else Crc16Add(Crc16(message[..|message| - 1]), message[|message| - 1])
  }

  /** The step `GetCrc16` takes on its 64-bit register: `temp` is the byte
   * XORed with the register shifted down a byte, cut to eight bits, and
   * the register becomes the entry for `temp` XORed with itself shifted up
   * a byte. */
  function Crc16WideStep(crc: bv64, b: bv8): bv64
  {
    var temp := ((b as bv64) ^ (crc >> 8)) & 0xFF;
    (Crc16Entry(temp as bv8) as bv64) ^ (crc << 8)
  }

  /** The 64-bit register is never truncated, but its low 16 bits follow the
   * 16-bit CRC exactly: bits above 15 never reach the table index. */
  lemma Crc16WideStepLow(crc: bv64, b: bv8)
    ensures (Crc16WideStep(crc, b) & 0xFFFF) as bv16 == Crc16Add((crc & 0xFFFF) as bv16, b)
  {
  }

  /** `GetCrc16`: the loop on a `uint64_t` register, whose low 16 bits are
   * returned. The length parameter is a `uint16_t`. */
  method GetCrc16(message: seq<bv8>) returns (r: bv16)
    requires |message| < 0x1_0000
    ensures r == Crc16(message)
  {
    var crc: bv64 := 0;
    for count := 0 to |message|
      invariant (crc & 0xFFFF) as bv16 == Crc16(message[..count])
    {
      assert message[..count + 1][..count] == message[..count];
      Crc16WideStepLow(crc, message[count]);
      crc := Crc16WideStep(crc, message[count]);
    }
    assert message[..|message|] == message;
    r := (crc & 0xFFFF) as bv16;
  }

  /** One message byte by the bit-at-a-time algorithm of section 4.5 of the
   * SD Physical Layer Simplified Specification: the byte is XORed into the
   * top of the register, and each of the eight shifts that follow adds the
   * generator when a 1 leaves the top. */
  function Crc16Byte(crc: bv16, b: bv8): bv16
  {
    Crc16Shifts(crc ^ ((b as bv16) << 8), ShiftsPerByte)
  }

  /** The bit-at-a-time CRC-16 of a message. */
  function Crc16Reference(message: seq<bv8>): bv16
  {
    if |message| == 0 then 0
    else Crc16Byte(Crc16Reference(message[..|message| - 1]), message[|message| - 1])
  }

  /** Table entry `i` is the register after byte `i` went through the
   * bit-at-a-time algorithm from 0. */
  lemma Crc16EntryIsBitwise(i: bv8)
    ensures Crc16Entry(i) == Crc16Byte(0, i)
  {
    assert 0 ^ ((i as bv16) << 8) == (i as bv16) << 8;
  }

  /** On a one-byte message the table-driven CRC-16 is the CRC-16 of the
   * standard. */
  lemma Crc16OneByteIsReference(b: bv8)
    ensures Crc16([b]) == Crc16Reference([b])
  {
    assert [b][..0] == [];
    Crc16AddFromZero(b);
    Crc16EntryIsBitwise(b);
  }

  /** One table step is the bit-at-a-time algorithm run over one byte: both
   * are the passes over the table index XORed with the register shifted up
   * a byte. */
  lemma Crc16AddIsByte(crc: bv16, b: bv8)
    ensures Crc16Add(crc, b) == Crc16Byte(crc, b)
  {
    Crc16AddShifts(crc, b);
    Crc16ByteShifts(crc, b);
  }

  /** The table index of a step, in the high byte of a 16-bit word. */
  function Crc16Top(crc: bv16, b: bv8): bv16
  {
    ((b as bv16 ^ (crc >> 8)) & 0xFF) << 8
  }

  lemma Crc16AddShifts(crc: bv16, b: bv8)
    ensures Crc16Add(crc, b) == Crc16Shifts(Crc16Top(crc, b), ShiftsPerByte) ^ (crc << 8)
  {
    assert (((b as bv16 ^ (crc >> 8)) & 0xFF) as bv8) as bv16 << 8 == Crc16Top(crc, b);
  }

  lemma Crc16ShiftsRegister(crc: bv16, b: bv8, n: nat)
    ensures Crc16Shifts(crc ^ ((b as bv16) << 8), n) == Crc16Shifts(Crc16Top(crc, b) ^ (crc & 0xFF), n)
  {
    Crc16SplitRegister(crc, b);
  }

  /** Any number of passes over the register with a byte added is linear
   * over the table index and the low byte. */
  lemma Crc16ShiftsSplit(crc: bv16, b: bv8, n: nat)
    ensures Crc16Shifts(crc ^ ((b as bv16) << 8), n)
         == Crc16Shifts(Crc16Top(crc, b), n) ^ Crc16Shifts(crc & 0xFF, n)
  {
    Crc16ShiftsRegister(crc, b, n);
    Crc16ShiftsXor(Crc16Top(crc, b), crc & 0xFF, n);
  }

  lemma Crc16ByteSplit(crc: bv16, b: bv8)
    ensures Crc16Byte(crc, b)
         == Crc16Shifts(Crc16Top(crc, b), ShiftsPerByte) ^ Crc16Shifts(crc & 0xFF, ShiftsPerByte)
  {
    Crc16ShiftsSplit(crc, b, ShiftsPerByte);
  }

  lemma Crc16ByteShifts(crc: bv16, b: bv8)
    ensures Crc16Byte(crc, b) == Crc16Shifts(Crc16Top(crc, b), ShiftsPerByte) ^ (crc << 8)
  {
    Crc16ByteSplit(crc, b);
    Crc16LowShifts(crc);
  }

  /** The low byte alone comes out of the eight passes shifted up a byte. */
  lemma Crc16LowShifts(crc: bv16)
    ensures Crc16Shifts(crc & 0xFF, ShiftsPerByte) == crc << 8
  {
    Crc16SplitRegister(crc, 0);
    Crc16Shift8Low(crc & 0xFF);
    Crc16ShiftsEight(crc & 0xFF);
  }

  /** The register with a byte added at the top is the table index in the
   * high byte and the register's low byte below it. */
  lemma Crc16SplitRegister(crc: bv16, b: bv8)
    ensures crc ^ ((b as bv16) << 8)
         == (((b as bv16 ^ (crc >> 8)) & 0xFF) << 8) ^ (crc & 0xFF)
    ensures (crc & 0xFF) << 8 == crc << 8
    ensures crc & 0xFF < 0x100
  {
  }

  lemma Crc16ShiftXorNoFeed(a: bv16, c: bv16)
    requires a & 0x8000 == 0 && c & 0x8000 == 0
    ensures Crc16Shift(a ^ c) == Crc16Shift(a) ^ Crc16Shift(c)
  {
  }

  lemma Crc16ShiftXorOneFeed(a: bv16, c: bv16)
    requires a & 0x8000 != 0 && c & 0x8000 == 0
    ensures Crc16Shift(a ^ c) == Crc16Shift(a) ^ Crc16Shift(c)
  {
  }

  lemma Crc16ShiftXorBothFeed(a: bv16, c: bv16)
    requires a & 0x8000 != 0 && c & 0x8000 != 0
    ensures Crc16Shift(a ^ c) == Crc16Shift(a) ^ Crc16Shift(c)
  {
  }

  /** One pass of the CRC-16 register is linear. */
  lemma Crc16ShiftXor(a: bv16, c: bv16)
    ensures Crc16Shift(a ^ c) == Crc16Shift(a) ^ Crc16Shift(c)
  {
    if a & 0x8000 == 0 && c & 0x8000 == 0 {
      Crc16ShiftXorNoFeed(a, c);
    } else if a & 0x8000 != 0 && c & 0x8000 == 0 {
      Crc16ShiftXorOneFeed(a, c);
    } else if a & 0x8000 == 0 {
      Crc16ShiftXorOneFeed(c, a);
      assert c ^ a == a ^ c;
    } else {
      Crc16ShiftXorBothFeed(a, c);
    }
  }

  /** Any number of passes is linear. */
  lemma {:induction false} Crc16ShiftsXor(a: bv16, c: bv16, n: nat)
    ensures Crc16Shifts(a ^ c, n) == Crc16Shifts(a, n) ^ Crc16Shifts(c, n)
  {
    if n > 0 {
      Crc16ShiftsXor(a, c, n - 1);
      Crc16ShiftXor(Crc16Shifts(a, n - 1), Crc16Shifts(c, n - 1));
    }
  }

  /** A register holding only a low byte is shifted up a byte by eight
   * passes, without reaching the feedback. */
  lemma Crc16Shift8Low(low: bv16)
    requires low < 0x100
    ensures Crc16Shift8(low) == low << 8
  {
  }

  /** The table-driven CRC-16 of every message is the bit-at-a-time CRC-16
   * of section 4.5 of the SD Physical Layer Simplified Specification. */
  lemma {:induction false} Crc16IsReference(message: seq<bv8>)
    ensures Crc16(message) == Crc16Reference(message)
    decreases |message|
  {
    if |message| > 0 {
      var front := message[..|message| - 1];
      Crc16IsReference(front);
      Crc16AddIsByte(Crc16(front), message[|message| - 1]);
    }
  }

  /** From a zero register the table step is the entry of the byte. */
  lemma Crc16AddFromZero(b: bv8)
    ensures Crc16Add(0, b) == Crc16Entry(b)
  {
    Crc16ZeroRegister(b, Crc16Entry(b));
  }

  lemma Crc16ZeroRegister(b: bv8, entry: bv16)
    ensures ((b as bv16 ^ (0 as bv16 >> 8)) & 0xFF) as bv8 == b
    ensures entry ^ (0 as bv16 << 8) == entry
  {
  }

  /** CRC-16 of a message one byte longer. */
  lemma Crc16Snoc(message: seq<bv8>, b: bv8)
    ensures Crc16(message + [b]) == Crc16Add(Crc16(message), b)
  {
    assert (message + [b])[..|message|] == message;
  }

  /** One step of a worked example: a known CRC of `message` and the value
   * of one more table step give the CRC of the longer message. */
  lemma Crc16Extend(message: seq<bv8>, b: bv8, before: bv16, after: bv16)
    requires Crc16(message) == before
    requires Crc16Add(before, b) == after
    ensures Crc16(message + [b]) == after
  {
    Crc16Snoc(message, b);
  }

  /** The check value of this CRC-16 (the XMODEM parameters): the nine ASCII
   * digits "123456789" give 0x31C3. */
  lemma Crc16CheckValue()
    ensures Crc16([0x31, 0x32, 0x33, 0x34, 0x35, 0x36, 0x37, 0x38, 0x39]) == 0x31C3
  {
    var m: seq<bv8> := [];
    Crc16AddUnrolled(0x0000, 0x31);
    Crc16Extend(m, 0x31, 0x0000, 0x2672);
    m := m + [0x31];
    Crc16AddUnrolled(0x2672, 0x32);
    Crc16Extend(m, 0x32, 0x2672, 0x20B5);
    m := m + [0x32];
    Crc16AddUnrolled(0x20B5, 0x33);
    Crc16Extend(m, 0x33, 0x20B5, 0x9752);
    m := m + [0x33];
    Crc16AddUnrolled(0x9752, 0x34);
    Crc16Extend(m, 0x34, 0x9752, 0xD789);
    m := m + [0x34];
    Crc16AddUnrolled(0xD789, 0x35);
    Crc16Extend(m, 0x35, 0xD789, 0x546C);
    m := m + [0x35];
    Crc16AddUnrolled(0x546C, 0x36);
    Crc16Extend(m, 0x36, 0x546C, 0x20E4);
    m := m + [0x36];
    Crc16AddUnrolled(0x20E4, 0x37);
    Crc16Extend(m, 0x37, 0x20E4, 0x86D6);
    m := m + [0x37];
    Crc16AddUnrolled(0x86D6, 0x38);
    Crc16Extend(m, 0x38, 0x86D6, 0x9015);
    m := m + [0x38];
    Crc16AddUnrolled(0x9015, 0x39);
    Crc16Extend(m, 0x39, 0x9015, 0x31C3);
    m := m + [0x39];
    assert m == [0x31, 0x32, 0x33, 0x34, 0x35, 0x36, 0x37, 0x38, 0x39];
  }

  /** One step of the bit-at-a-time CRC-16 on a known prefix. */
  lemma Crc16ReferenceExtend(message: seq<bv8>, b: bv8, before: bv16, after: bv16)
    requires Crc16Reference(message) == before
    requires Crc16Shift8(before ^ ((b as bv16) << 8)) == after
    ensures Crc16Reference(message + [b]) == after
  {
    Crc16ShiftsEight(before ^ ((b as bv16) << 8));
    assert (message + [b])[..|message|] == message;
  }

  /** The bit-at-a-time algorithm reaches the same check value through the
   * same intermediate registers. */
  lemma Crc16ReferenceCheckValue()
    ensures Crc16Reference([0x31, 0x32, 0x33, 0x34, 0x35, 0x36, 0x37, 0x38, 0x39]) == 0x31C3
  {
    var m: seq<bv8> := [];
    Crc16ReferenceExtend(m, 0x31, 0x0000, 0x2672);
    m := m + [0x31];
    Crc16ReferenceExtend(m, 0x32, 0x2672, 0x20B5);
    m := m + [0x32];
    Crc16ReferenceExtend(m, 0x33, 0x20B5, 0x9752);
    m := m + [0x33];
    Crc16ReferenceExtend(m, 0x34, 0x9752, 0xD789);
    m := m + [0x34];
    Crc16ReferenceExtend(m, 0x35, 0xD789, 0x546C);
    m := m + [0x35];
    Crc16ReferenceExtend(m, 0x36, 0x546C, 0x20E4);
    m := m + [0x36];
    Crc16ReferenceExtend(m, 0x37, 0x20E4, 0x86D6);
    m := m + [0x37];
    Crc16ReferenceExtend(m, 0x38, 0x86D6, 0x9015);
    m := m + [0x38];
    Crc16ReferenceExtend(m, 0x39, 0x9015, 0x31C3);
    m := m + [0x39];
    assert m == [0x31, 0x32, 0x33, 0x34, 0x35, 0x36, 0x37, 0x38, 0x39];
  }

  // ------------------------------------------------------------- commands

  /** The commands the driver sends. */
  datatype Command =
    | Garbage | Reset | Init | GetOp | GetCsd | StopTrans | GetStatus
    | ChgBlkLen | ReadSingle | ReadMulti | WriteSingle | WriteMulti
    | DelFrom | DelTo | Del | AcBegin | GetOcr | AcInit

  /** The command index (CMDn) of each command other than `Garbage`. */
  function CommandIndex(c: Command): (r: bv8)
    requires c != Garbage
    ensures r < 64
  {
    match c
    case Reset => 0
    case Init => 1
    case GetOp => 8
    case GetCsd => 9
    case StopTrans => 12
    case GetStatus => 13
    case ChgBlkLen => 16
    case ReadSingle => 17
    case ReadMulti => 18
    case WriteSingle => 24
    case WriteMulti => 25
    case DelFrom => 32
    case DelTo => 33
    case Del => 38
    case AcBegin => 55
    case GetOcr => 58
    case AcInit => 41
  }

  /** The enumerator values as written: `0x40 | n` for every command but
   * `kGetStatus`, which is `0x04 | 13`. */
  function CommandCodeAsWritten(c: Command): (r: bv8)
    ensures c != GetStatus ==> r == CommandCode(c)
  {
    match c
    case Garbage => 0xFF
    case GetStatus => 0x04 | 13
    case _ => 0x40 | CommandIndex(c)
  }

  /** The first byte of a command frame as the standard has it: start bit 0,
   * transmission bit 1, then the six-bit command index. */
  function CommandCode(c: Command): (r: bv8)
    ensures c == Garbage ==> r == 0xFF
    ensures c != Garbage ==> r >> 6 == 1 && r & 0x3F == CommandIndex(c)
  {
    if c == Garbage then 0xFF else 0x40 | CommandIndex(c)
  }

  /** Every code but `Garbage` starts with the bits 01 and carries the
   * command index below them. */
  lemma CommandCodeFields(c: Command)
    requires c != Garbage
    ensures CommandCode(c) >> 6 == 1
    ensures CommandCode(c) & 0x3F == CommandIndex(c)
  {
  }

  /** `kGetStatus` as written starts with the bits 00, so its frame is not a
   * command frame at all, although its low six bits still hold 13. */
  lemma GetStatusCodeAsWritten()
    ensures CommandCodeAsWritten(GetStatus) == 0x0D
    ensures CommandCodeAsWritten(GetStatus) >> 6 == 0
    ensures CommandCodeAsWritten(GetStatus) & 0x3F == CommandIndex(GetStatus)
    ensures CommandCodeAsWritten(GetStatus) != CommandCode(GetStatus)
  {
  }

  /** The four argument bytes, most significant first. */
  function ArgumentBytes(arg: bv32): (r: seq<bv8>)
    ensures |r| == 4
    ensures ((r[0] as bv32) << 24) | ((r[1] as bv32) << 16) | ((r[2] as bv32) << 8) | (r[3] as bv32) == arg
  {
    [(arg >> 24) as bv8, ((arg >> 16) & 0xFF) as bv8, ((arg >> 8) & 0xFF) as bv8, (arg & 0xFF) as bv8]
  }

  /** The five bytes the CRC-7 of a frame covers: the command code and the
   * argument. */
  function CommandMessage(c: Command, arg: bv32): (r: seq<bv8>)
    ensures |r| == 5 && r[0] == CommandCode(c) && r[1..] == ArgumentBytes(arg)
  {
    [CommandCode(c)] + ArgumentBytes(arg)
  }

  /** The CRC word of a frame: the CRC-7 shifted up past the end bit 1, or,
   * for `Garbage`, 0xFF in its place. The transfer is 16 bits wide, so the
   * `Garbage` word is 0x1FF. */
  function CrcWord(c: Command, crc: bv8): (r: bv16)
    requires crc < 0x80
    ensures c == Garbage ==> r == 0x1FF
    ensures c != Garbage ==> r < 0x100 && r & 1 == 1 && (r >> 1) as bv8 == crc
  {
    var sent: bv8 := if c == Garbage then 0xFF else crc;
    ((sent as bv16) << 1) | 1
  }

  /** The six words `SendCmd` transfers: the five message bytes, then the
   * CRC word. */
  function CommandFrame(c: Command, arg: bv32): (r: seq<bv16>)
    ensures |r| == 6
  {
    var message := CommandMessage(c, arg);
    [message[0] as bv16, message[1] as bv16, message[2] as bv16, message[3] as bv16, message[4] as bv16,
     CrcWord(c, Crc7(message))]
  }

  /** The card's side of a frame, first part: words 0 to 4 are the five
   * message bytes, so the first is the command code and the argument is
   * reassembled from the next four, most significant first. */
  lemma CommandFrameWords(c: Command, arg: bv32)
    ensures var r := CommandFrame(c, arg);
      && var m := CommandMessage(c, arg);
      && r[0] == m[0] as bv16 && r[1] == m[1] as bv16 && r[2] == m[2] as bv16
      && r[3] == m[3] as bv16 && r[4] == m[4] as bv16
      && r[0] == CommandCode(c) as bv16
      && ((r[1] as bv32) << 24) | ((r[2] as bv32) << 16) | ((r[3] as bv32) << 8) | (r[4] as bv32) == arg
  {
  }

  /** Second part: the sixth word ends in the stop bit with the CRC-7 of the
   * message above it, and is 0x1FF for `Garbage`. */
  lemma CommandFrameCrc(c: Command, arg: bv32)
    ensures var r := CommandFrame(c, arg);
      && (c == Garbage ==> r[5] == 0x1FF)
      && (c != Garbage ==> r[5] & 1 == 1 && (r[5] >> 1) as bv8 == Crc7(CommandMessage(c, arg)))
  {
  }

  /** The response formats of the SPI mode the driver reads. */
  datatype ResponseType = R1 | R1b | R2 | R3 | R7

  /** The response type `SendCmd` expects for each command; `GetCsd` falls
   * to the default case, where `SendCmd` gives up. */
  function ResponseTypeOf(c: Command): (r: Option<ResponseType>)
    ensures r.None? <==> c == GetCsd
  {
    match c
    case GetOp => Some(R7)
    case GetStatus => Some(R2)
    case GetOcr => Some(R3)
    case Del => Some(R1b)
    case GetCsd => None
    case _ => Some(R1)
  }

  /** Response bytes per type. */
  function ResponseBytes(t: ResponseType): nat
  {
    match t
    case R1 => 1
    case R1b => 1
    case R2 => 2
    case R3 => 5
    case R7 => 5
  }

  /** The length `SendCmd` returns, or `None` where it returns -1 without
   * sending anything. */
  function SendCmdLength(c: Command): (r: Option<nat>)
  {
    match ResponseTypeOf(c)
    case Some(t) => Some(ResponseBytes(t))
    case None => None
  }

  /** Only `GetCsd` is refused; every other command reads one, two or five
   * bytes: five for the R3/R7 commands that carry a 32-bit register, two
   * for the status command, one for the rest. */
  lemma SendCmdLengths(c: Command)
    ensures SendCmdLength(c).None? <==> c == GetCsd
    ensures SendCmdLength(c) == Some(5) <==> c == GetOp || c == GetOcr
    ensures SendCmdLength(c) == Some(2) <==> c == GetStatus
    ensures SendCmdLength(c) == Some(1) <==> !(c in {GetCsd, GetOp, GetOcr, GetStatus})
  {
  }

  // ------------------------------------------------------------ block read

  /** Some block of a multi-block read arrived with a CRC-16 other than the
   * one computed over its 512 bytes. */
  predicate AnyBadCrc(blocks: seq<seq<bv8>>, crcs: seq<bv16>)
    requires |blocks| == |crcs|
  {
    exists k :: 0 <= k < |blocks| && Crc16(blocks[k]) != crcs[k]
  }

  /** A response byte with the CRC error bit 3 forced on when some block
   * failed its CRC check. The read ORs the flag into the response of its
   * last command: the read command's R1 for one block, the stop command's
   * response for several. */
  function BlockReadStatus(r1: bv8, blocks: seq<seq<bv8>>, crcs: seq<bv16>): (r: bv8)
    requires |blocks| == |crcs|
    ensures (r & 0x08 != 0) <==> (r1 & 0x08 != 0 || AnyBadCrc(blocks, crcs))
    ensures r & 0xF7 == r1 & 0xF7
  {
    if AnyBadCrc(blocks, crcs) then r1 | 0x08 else r1
  }

  /** Where the wait for the card to leave the idle state stops: the first
   * CMD13 status, from `i` on, whose idle bit 0 is clear. */
  function FirstReady(polls: seq<bv8>, i: nat): (k: nat)
    requires i <= |polls|
    requires exists j :: i <= j < |polls| && polls[j] & 0x01 == 0
    ensures i <= k < |polls| && polls[k] & 0x01 == 0
    ensures forall j :: i <= j < k ==> polls[j] & 0x01 != 0
    decreases |polls| - i
  {
    if polls[i] & 0x01 == 0 then i else FirstReady(polls, i + 1)
  }

  /** The wait that ends every read: CMD13 is sent until the first byte of
   * its response has the idle bit clear. `polls` are the first bytes the
   * card answers with, in order; the last one read is returned. */
  method AwaitReady(polls: seq<bv8>) returns (status: bv8)
    requires exists j :: 0 <= j < |polls| && polls[j] & 0x01 == 0
    ensures status == polls[FirstReady(polls, 0)]
    ensures status & 0x01 == 0
  {
    ghost var k := FirstReady(polls, 0);
    var i := 0;
    status := polls[0];
    while status & 0x01 != 0
      invariant 0 <= i <= k
      invariant status == polls[i]
      decreases k - i
    {
      i := i + 1;
      status := polls[i];
    }
  }

  /** The byte a block read returns as written. The CRC flag goes into the
   * response byte, and then the idle wait overwrites that byte with each
   * CMD13 status, so what comes back is the last status alone, whatever
   * the read's response and the blocks' CRCs were. */
  function ReadStatusAsWritten(r1: bv8, blocks: seq<seq<bv8>>, crcs: seq<bv16>,
                               polls: seq<bv8>): (r: bv8)
    requires |blocks| == |crcs|
    requires exists j :: 0 <= j < |polls| && polls[j] & 0x01 == 0
    ensures r & 0x01 == 0
    ensures r == polls[FirstReady(polls, 0)]
  {
    var flagged := BlockReadStatus(r1, blocks, crcs);
    polls[FirstReady(polls, 0)]
  }

  /** The byte a block read is meant to return: the status the idle wait
   * ends on, with the CRC error bit 3 set when some block failed its CRC
   * check. */
  function ReadStatus(blocks: seq<seq<bv8>>, crcs: seq<bv16>, polls: seq<bv8>): (r: bv8)
    requires |blocks| == |crcs|
    requires exists j :: 0 <= j < |polls| && polls[j] & 0x01 == 0
    ensures r & 0x01 == 0
    ensures (r & 0x08 != 0) <==> (polls[FirstReady(polls, 0)] & 0x08 != 0 || AnyBadCrc(blocks, crcs))
    ensures r & 0xF7 == polls[FirstReady(polls, 0)] & 0xF7
  {
    BlockReadStatus(polls[FirstReady(polls, 0)], blocks, crcs)
  }

  /** As written, a block that fails its CRC check is not reported: when the
   * last CMD13 status has bit 3 clear, so does the byte returned, although
   * the flag was set before the wait and the intended status carries it. */
  lemma CrcFlagLostAsWritten(r1: bv8, blocks: seq<seq<bv8>>, crcs: seq<bv16>,
                             polls: seq<bv8>)
    requires |blocks| == |crcs| && AnyBadCrc(blocks, crcs)
    requires exists j :: 0 <= j < |polls| && polls[j] & 0x01 == 0
    requires polls[FirstReady(polls, 0)] & 0x08 == 0
    ensures BlockReadStatus(r1, blocks, crcs) & 0x08 != 0
    ensures ReadStatusAsWritten(r1, blocks, crcs, polls) & 0x08 == 0
    ensures ReadStatus(blocks, crcs, polls) & 0x08 != 0
  {
  }

  /** One block of a single zero byte sent with CRC 0xFFFF (its CRC-16 is
   * 0), and a card that answers CMD13 once idle and then with 0x00: the
   * read returns 0x00 as written, and 0x08 as intended. */
  lemma CrcFlagLostExample()
    ensures var polls: seq<bv8> := [0x01, 0x00];
            assert polls[1] & 0x01 == 0;
            ReadStatusAsWritten(0x00, [[0]], [0xFFFF], polls) == 0x00
            && ReadStatus([[0]], [0xFFFF], polls) == 0x08
  {
    var polls: seq<bv8> := [0x01, 0x00];
    assert polls[1] & 0x01 == 0;
    assert [0 as bv8][..0] == [];
    assert Crc16([0]) == 0;
    var blocks: seq<seq<bv8>>, crcs: seq<bv16> := [[0]], [0xFFFF];
    assert Crc16(blocks[0]) != crcs[0];
    assert AnyBadCrc(blocks, crcs);
    assert FirstReady(polls, 0) == 1;
  }
}