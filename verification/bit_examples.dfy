/** The worked examples of the bit-manipulation unit tests, checked against
 * the model in `Bits`. Each example is reduced to constant arithmetic by one
 * of the `...Case` lemmas, which restate an operation through division and
 * remainder by the given powers of two. */
module BitExamples {
  import opened Bits

  lemma ExtractCase(v: nat, position: nat, width: nat, pp: nat, pw: nat, expected: nat)
    requires pp == Pow2(position) && pw == Pow2(width)
    requires (v / pp) % pw == expected
    ensures Extract(v, Mask(position, width)) == expected
  {
    ExtractIsDivMod(v, position, width);
  }

  lemma InsertCase(target: nat, value: int, position: nat, width: nat, size: nat,
                   pp: nat, pw: nat, ppw: nat, ps: nat, expected: nat)
    requires pp == Pow2(position) && pw == Pow2(width)
    requires ppw == Pow2(position + width) && ps == Pow2(size)
    requires ((target / ppw * pw + value % pw) * pp + target % pp) % ps == expected
    ensures Insert(target, value, Mask(position, width), size) == expected
  {
    InsertIsArith(target, value, position, width, size);
  }

  lemma ReadCase(v: nat, j: nat, pj: nat, expected: bool)
    requires pj == Pow2(j)
    requires ((v / pj) % 2 == 1) == expected
    ensures Bit(v, j) == expected
  {
    BitIsDigit(v, j);
  }

  lemma SignedCase(v: nat, position: nat, width: nat, half: nat, field: nat, expected: int)
    requires width >= 2 && half == Pow2(width - 2)
    requires Extract(v, Mask(position, width - 1)) == field
    requires expected == if field >= half then field - 2 * half else field
    ensures SignedExtract(v, Mask(position, width)) == expected
  {
  }

  lemma ExtractLowNibbleExample()
    ensures Extract(0xF, Mask(2, 4)) == 0x3
  {
    assert Pow2(2) == 0x4 by { Pow2Values(); }
    assert Pow2(4) == 0x10 by { Pow2Values(); }
    ExtractCase(0xF, 2, 4, 0x4, 0x10, 0x3);
  }

  lemma ExtractAboveNibbleExample()
    ensures Extract(0xF, Mask(4, 4)) == 0x0
  {
    assert Pow2(4) == 0x10 by { Pow2Values(); }
    ExtractCase(0xF, 4, 4, 0x10, 0x10, 0x0);
  }

  lemma ExtractBitZeroExample()
    ensures Extract(0xF, Mask(0, 1)) == 0x1
  {
    assert Pow2(1) == 0x2 by { Pow2Values(); }
    ExtractCase(0xF, 0, 1, 0x1, 0x2, 0x1);
  }

  lemma ExtractTopByteExample()
    ensures Extract(0xAA00_0000, Mask(24, 8)) == 0xAA
  {
    assert Pow2(8) == 0x100 by { Pow2Values(); }
    assert Pow2(24) == 0x100_0000 by { Pow2Values(); }
    ExtractCase(0xAA00_0000, 24, 8, 0x100_0000, 0x100, 0xAA);
  }

  lemma ExtractMiddleExample()
    ensures Extract(0xFFFF_FFFF, Mask(15, 16)) == 0xFFFF
  {
    assert Pow2(15) == 0x8000 by { Pow2Values(); }
    assert Pow2(16) == 0x1_0000 by { Pow2Values(); }
    ExtractCase(0xFFFF_FFFF, 15, 16, 0x8000, 0x1_0000, 0xFFFF);
  }

  /** Bits past the top of a 32-bit register read as 0. */
  lemma ExtractPastTopExample()
    ensures Extract(0xFFFF_FFFF, Mask(31, 16)) == 0x1
  {
    assert Pow2(16) == 0x1_0000 by { Pow2Values(); }
    assert Pow2(31) == 0x8000_0000 by { Pow2Values(); Pow2Add(24, 7); }
    ExtractCase(0xFFFF_FFFF, 31, 16, 0x8000_0000, 0x1_0000, 0x1);
  }

  lemma ExtractLowHalfExample()
    ensures Extract(0xDEAD_BEEF, Mask(0, 16)) == 0xBEEF
  {
    assert Pow2(16) == 0x1_0000 by { Pow2Values(); }
    ExtractCase(0xDEAD_BEEF, 0, 16, 0x1, 0x1_0000, 0xBEEF);
  }

  lemma ExtractHighHalfExample()
    ensures Extract(0xDEAD_BEEF, Mask(16, 16)) == 0xDEAD
  {
    assert Pow2(16) == 0x1_0000 by { Pow2Values(); }
    ExtractCase(0xDEAD_BEEF, 16, 16, 0x1_0000, 0x1_0000, 0xDEAD);
  }

  lemma ExtractByteExample()
    ensures Extract(0xDEAD_BEEF, Mask(16, 8)) == 0xAD
  {
    assert Pow2(8) == 0x100 by { Pow2Values(); }
    assert Pow2(16) == 0x1_0000 by { Pow2Values(); }
    ExtractCase(0xDEAD_BEEF, 16, 8, 0x1_0000, 0x100, 0xAD);
  }

  lemma Extract64Example()
    ensures Extract(0x1001_0000_0000_0000, Mask(48, 16)) == 0x1001
  {
    assert Pow2(16) == 0x1_0000 by { Pow2Values(); }
    assert Pow2(48) == 0x1_0000_0000_0000 by { Pow2Values(); }
    ExtractCase(0x1001_0000_0000_0000, 48, 16, 0x1_0000_0000_0000, 0x1_0000, 0x1001);
  }

  lemma InsertTwoBitsExample()
    ensures Insert(0x0, 0x3, Mask(5, 2), 32) == 0x60
  {
    assert Pow2(2) == 0x4 by { Pow2Values(); }
    assert Pow2(5) == 0x20 by { Pow2Values(); }
    assert Pow2(7) == 0x80 by { Pow2Values(); }
    assert Pow2(32) == 0x1_0000_0000 by { Pow2Values(); }
    InsertCase(0x0, 0x3, 5, 2, 32, 0x20, 0x4, 0x80, 0x1_0000_0000, 0x60);
  }

  lemma InsertThreeBitsExample()
    ensures Insert(0x0, 0x7, Mask(1, 3), 32) == 0xE
  {
    assert Pow2(1) == 0x2 by { Pow2Values(); }
    assert Pow2(3) == 0x8 by { Pow2Values(); }
    assert Pow2(4) == 0x10 by { Pow2Values(); }
    assert Pow2(32) == 0x1_0000_0000 by { Pow2Values(); }
    InsertCase(0x0, 0x7, 1, 3, 32, 0x2, 0x8, 0x10, 0x1_0000_0000, 0xE);
  }

  lemma InsertNibbleExample()
    ensures Insert(0x0, 0xF, Mask(0, 4), 32) == 0xF
  {
    assert Pow2(4) == 0x10 by { Pow2Values(); }
    assert Pow2(32) == 0x1_0000_0000 by { Pow2Values(); }
    InsertCase(0x0, 0xF, 0, 4, 32, 0x1, 0x10, 0x10, 0x1_0000_0000, 0xF);
  }

  lemma InsertTopByteExample()
    ensures Insert(0x0, 0xAB, Mask(24, 8), 32) == 0xAB00_0000
  {
    assert Pow2(8) == 0x100 by { Pow2Values(); }
    assert Pow2(24) == 0x100_0000 by { Pow2Values(); }
    assert Pow2(32) == 0x1_0000_0000 by { Pow2Values(); }
    InsertCase(0x0, 0xAB, 24, 8, 32, 0x100_0000, 0x100, 0x1_0000_0000, 0x1_0000_0000, 0xAB00_0000);
  }

  /** Only the field changes: 0xD00DBEEF becomes 0xDEADBEEF. */
  lemma InsertMiddleExample()
    ensures Insert(0xD00D_BEEF, 0xEA, Mask(20, 8), 32) == 0xDEAD_BEEF
  {
    assert Pow2(8) == 0x100 by { Pow2Values(); }
    assert Pow2(20) == 0x10_0000 by { Pow2Values(); }
    assert Pow2(28) == 0x1000_0000 by { Pow2Values(); Pow2Add(24, 4); }
    assert Pow2(32) == 0x1_0000_0000 by { Pow2Values(); }
    InsertCase(0xD00D_BEEF, 0xEA, 20, 8, 32, 0x10_0000, 0x100, 0x1000_0000, 0x1_0000_0000, 0xDEAD_BEEF);
  }

  lemma InsertLowHalfExample()
    ensures Insert(0xDEAD_DEAD, 0xBEEF, Mask(0, 16), 32) == 0xDEAD_BEEF
  {
    assert Pow2(16) == 0x1_0000 by { Pow2Values(); }
    assert Pow2(32) == 0x1_0000_0000 by { Pow2Values(); }
    InsertCase(0xDEAD_DEAD, 0xBEEF, 0, 16, 32, 0x1, 0x1_0000, 0x1_0000, 0x1_0000_0000, 0xDEAD_BEEF);
  }

  lemma InsertMidByteExample()
    ensures Insert(0xA5, 0xF, Mask(2, 4), 32) == 0xBD
  {
    assert Pow2(2) == 0x4 by { Pow2Values(); }
    assert Pow2(4) == 0x10 by { Pow2Values(); }
    assert Pow2(6) == 0x40 by { Pow2Values(); Pow2Add(5, 1); }
    assert Pow2(32) == 0x1_0000_0000 by { Pow2Values(); }
    InsertCase(0xA5, 0xF, 2, 4, 32, 0x4, 0x10, 0x40, 0x1_0000_0000, 0xBD);
  }

  /** A signed 8-bit value (0xCD is -51) contributes its low 8 bits. */
  lemma InsertSignedExample()
    ensures Insert(0xAAAA_BBBB, -51, Mask(4, 8), 32) == 0xAAAA_BCDB
  {
    assert Pow2(4) == 0x10 by { Pow2Values(); }
    assert Pow2(8) == 0x100 by { Pow2Values(); }
    assert Pow2(12) == 0x1000 by { Pow2Values(); }
    assert Pow2(32) == 0x1_0000_0000 by { Pow2Values(); }
    InsertCase(0xAAAA_BBBB, -51, 4, 8, 32, 0x10, 0x100, 0x1000, 0x1_0000_0000, 0xAAAA_BCDB);
  }

  lemma Insert64Example()
    ensures Insert(0x1001_0000_0000_0000, 0xABCD, Mask(32, 16), 64) == 0x1001_ABCD_0000_0000
  {
    assert Pow2(16) == 0x1_0000 by { Pow2Values(); }
    assert Pow2(32) == 0x1_0000_0000 by { Pow2Values(); }
    assert Pow2(48) == 0x1_0000_0000_0000 by { Pow2Values(); }
    assert Pow2(64) == 0x1_0000_0000_0000_0000 by { Pow2Values(); }
    InsertCase(0x1001_0000_0000_0000, 0xABCD, 32, 16, 64, 0x1_0000_0000, 0x1_0000, 0x1_0000_0000_0000, 0x1_0000_0000_0000_0000, 0x1001_ABCD_0000_0000);
  }

  lemma SetBitFourExample()
    ensures Set(0xF, 4, 32) == 0x1F
  {
    assert Pow2(1) == 0x2 by { Pow2Values(); }
    assert Pow2(4) == 0x10 by { Pow2Values(); }
    assert Pow2(5) == 0x20 by { Pow2Values(); }
    assert Pow2(32) == 0x1_0000_0000 by { Pow2Values(); }
    InsertCase(0xF, 0x1, 4, 1, 32, 0x10, 0x2, 0x20, 0x1_0000_0000, 0x1F);
  }

  lemma SetBitZeroExample()
    ensures Set(0x0, 0, 32) == 0x1
  {
    assert Pow2(1) == 0x2 by { Pow2Values(); }
    assert Pow2(32) == 0x1_0000_0000 by { Pow2Values(); }
    InsertCase(0x0, 0x1, 0, 1, 32, 0x1, 0x2, 0x2, 0x1_0000_0000, 0x1);
  }

  lemma SetBitThreeExample()
    ensures Set(0x81, 3, 32) == 0x89
  {
    assert Pow2(1) == 0x2 by { Pow2Values(); }
    assert Pow2(3) == 0x8 by { Pow2Values(); }
    assert Pow2(4) == 0x10 by { Pow2Values(); }
    assert Pow2(32) == 0x1_0000_0000 by { Pow2Values(); }
    InsertCase(0x81, 0x1, 3, 1, 32, 0x8, 0x2, 0x10, 0x1_0000_0000, 0x89);
  }

  lemma SetTopBitExample()
    ensures Set(0x7FFF_FFFF, 31, 32) == 0xFFFF_FFFF
  {
    assert Pow2(1) == 0x2 by { Pow2Values(); }
    assert Pow2(31) == 0x8000_0000 by { Pow2Values(); Pow2Add(24, 7); }
    assert Pow2(32) == 0x1_0000_0000 by { Pow2Values(); }
    InsertCase(0x7FFF_FFFF, 0x1, 31, 1, 32, 0x8000_0000, 0x2, 0x1_0000_0000, 0x1_0000_0000, 0xFFFF_FFFF);
  }

  lemma Set64Example()
    ensures Set(0x1000_0000_0000_0000, 48, 64) == 0x1001_0000_0000_0000
  {
    assert Pow2(1) == 0x2 by { Pow2Values(); }
    assert Pow2(48) == 0x1_0000_0000_0000 by { Pow2Values(); }
    assert Pow2(49) == 0x2_0000_0000_0000 by { Pow2Values(); Pow2Add(48, 1); }
    assert Pow2(64) == 0x1_0000_0000_0000_0000 by { Pow2Values(); }
    InsertCase(0x1000_0000_0000_0000, 0x1, 48, 1, 64, 0x1_0000_0000_0000, 0x2, 0x2_0000_0000_0000, 0x1_0000_0000_0000_0000, 0x1001_0000_0000_0000);
  }

  lemma ClearBitFourExample()
    ensures Clear(0x1F, 4, 32) == 0xF
  {
    assert Pow2(1) == 0x2 by { Pow2Values(); }
    assert Pow2(4) == 0x10 by { Pow2Values(); }
    assert Pow2(5) == 0x20 by { Pow2Values(); }
    assert Pow2(32) == 0x1_0000_0000 by { Pow2Values(); }
    InsertCase(0x1F, 0x0, 4, 1, 32, 0x10, 0x2, 0x20, 0x1_0000_0000, 0xF);
  }

  lemma ClearBitZeroExample()
    ensures Clear(0x1, 0, 32) == 0x0
  {
    assert Pow2(1) == 0x2 by { Pow2Values(); }
    assert Pow2(32) == 0x1_0000_0000 by { Pow2Values(); }
    InsertCase(0x1, 0x0, 0, 1, 32, 0x1, 0x2, 0x2, 0x1_0000_0000, 0x0);
  }

  lemma ClearBitThreeExample()
    ensures Clear(0x89, 3, 32) == 0x81
  {
    assert Pow2(1) == 0x2 by { Pow2Values(); }
    assert Pow2(3) == 0x8 by { Pow2Values(); }
    assert Pow2(4) == 0x10 by { Pow2Values(); }
    assert Pow2(32) == 0x1_0000_0000 by { Pow2Values(); }
    InsertCase(0x89, 0x0, 3, 1, 32, 0x8, 0x2, 0x10, 0x1_0000_0000, 0x81);
  }

  lemma ClearNibbleTopExample()
    ensures Clear(0xF, 3, 32) == 0x7
  {
    assert Pow2(1) == 0x2 by { Pow2Values(); }
    assert Pow2(3) == 0x8 by { Pow2Values(); }
    assert Pow2(4) == 0x10 by { Pow2Values(); }
    assert Pow2(32) == 0x1_0000_0000 by { Pow2Values(); }
    InsertCase(0xF, 0x0, 3, 1, 32, 0x8, 0x2, 0x10, 0x1_0000_0000, 0x7);
  }

  lemma ClearWordBitZeroExample()
    ensures Clear(0xFFFF_FFFF, 0, 32) == 0xFFFF_FFFE
  {
    assert Pow2(1) == 0x2 by { Pow2Values(); }
    assert Pow2(32) == 0x1_0000_0000 by { Pow2Values(); }
    InsertCase(0xFFFF_FFFF, 0x0, 0, 1, 32, 0x1, 0x2, 0x2, 0x1_0000_0000, 0xFFFF_FFFE);
  }

  lemma ClearTopBitExample()
    ensures Clear(0xFFFF_FFFF, 31, 32) == 0x7FFF_FFFF
  {
    assert Pow2(1) == 0x2 by { Pow2Values(); }
    assert Pow2(31) == 0x8000_0000 by { Pow2Values(); Pow2Add(24, 7); }
    assert Pow2(32) == 0x1_0000_0000 by { Pow2Values(); }
    InsertCase(0xFFFF_FFFF, 0x0, 31, 1, 32, 0x8000_0000, 0x2, 0x1_0000_0000, 0x1_0000_0000, 0x7FFF_FFFF);
  }

  lemma Clear64Example()
    ensures Clear(0x1001_0000_0000_0000, 48, 64) == 0x1000_0000_0000_0000
  {
    assert Pow2(1) == 0x2 by { Pow2Values(); }
    assert Pow2(48) == 0x1_0000_0000_0000 by { Pow2Values(); }
    assert Pow2(49) == 0x2_0000_0000_0000 by { Pow2Values(); Pow2Add(48, 1); }
    assert Pow2(64) == 0x1_0000_0000_0000_0000 by { Pow2Values(); }
    InsertCase(0x1001_0000_0000_0000, 0x0, 48, 1, 64, 0x1_0000_0000_0000, 0x2, 0x2_0000_0000_0000, 0x1_0000_0000_0000_0000, 0x1000_0000_0000_0000);
  }

  lemma ToggleExample()
    ensures Toggle(0x1001_0000_0000_0000, 49, 64) == 0x1003_0000_0000_0000
  {
    assert Pow2(49) == 0x2_0000_0000_0000 by { Pow2Values(); Pow2Add(48, 1); }
    assert Pow2(50) == 0x4_0000_0000_0000 by { Pow2Values(); Pow2Add(48, 2); }
    assert Pow2(64) == 0x1_0000_0000_0000_0000 by { Pow2Values(); }
    ReadCase(0x1001_0000_0000_0000, 49, 0x2_0000_0000_0000, false);
    InsertCase(0x1001_0000_0000_0000, 1, 49, 1, 64, 0x2_0000_0000_0000, 2, 0x4_0000_0000_0000, 0x1_0000_0000_0000_0000, 0x1003_0000_0000_0000);
  }

  lemma ReadNibbleExamples()
    ensures Bit(0xF, 3) && !Bit(0xF, 4) && Bit(0x1, 0) && !Bit(0x0, 0)
  {
    assert Pow2(3) == 0x8 by { Pow2Values(); }
    assert Pow2(4) == 0x10 by { Pow2Values(); }
    ReadCase(0xF, 3, 0x8, true);
    ReadCase(0xF, 4, 0x10, false);
    ReadCase(0x1, 0, 0x1, true);
    ReadCase(0x0, 0, 0x1, false);
  }

  lemma ReadWordExamples()
    ensures Bit(0x8000_0000, 31) && !Bit(0x8000_0000, 5) && !Bit(0x0, 31)
  {
    assert Pow2(5) == 0x20 by { Pow2Values(); }
    assert Pow2(31) == 0x8000_0000 by { Pow2Values(); Pow2Add(24, 7); }
    ReadCase(0x8000_0000, 31, 0x8000_0000, true);
    ReadCase(0x8000_0000, 5, 0x20, false);
    ReadCase(0x0, 31, 0x8000_0000, false);
  }

  lemma Read64Examples()
    ensures Bit(0x1_0000_0000_0000, 48) && !Bit(0x1_0000_0000_0000, 49)
  {
    assert Pow2(48) == 0x1_0000_0000_0000 by { Pow2Values(); }
    assert Pow2(49) == 0x2_0000_0000_0000 by { Pow2Values(); Pow2Add(48, 1); }
    ReadCase(0x1_0000_0000_0000, 48, 0x1_0000_0000_0000, true);
    ReadCase(0x1_0000_0000_0000, 49, 0x2_0000_0000_0000, false);
  }

  lemma SignedExtractNegativeExample()
    ensures SignedExtract(0xFC_9000, MaskFromRange(12, 24)) == -55
  {
    assert Pow2(11) == 0x800 by { Pow2Values(); }
    assert Pow2(12) == 0x1000 by { Pow2Values(); }
    ExtractCase(0xFC_9000, 12, 12, 0x1000, 0x1000, 0xFC9);
    SignedCase(0xFC_9000, 12, 13, 0x800, 0xFC9, -55);
  }

  lemma SignedExtractWideExample()
    ensures SignedExtract(0xFB_2E00, MaskFromRange(8, 24)) == -1234
  {
    assert Pow2(8) == 0x100 by { Pow2Values(); }
    assert Pow2(15) == 0x8000 by { Pow2Values(); }
    assert Pow2(16) == 0x1_0000 by { Pow2Values(); }
    ExtractCase(0xFB_2E00, 8, 16, 0x100, 0x1_0000, 0xFB2E);
    SignedCase(0xFB_2E00, 8, 17, 0x8000, 0xFB2E, -1234);
  }

  lemma SignedExtractShiftedExample()
    ensures SignedExtract(0x1F_65C0, Mask(5, 17)) == -1234
  {
    assert Pow2(5) == 0x20 by { Pow2Values(); }
    assert Pow2(15) == 0x8000 by { Pow2Values(); }
    assert Pow2(16) == 0x1_0000 by { Pow2Values(); }
    ExtractCase(0x1F_65C0, 5, 16, 0x20, 0x1_0000, 0xFB2E);
    SignedCase(0x1F_65C0, 5, 17, 0x8000, 0xFB2E, -1234);
  }

  lemma SignedExtractPositiveExample()
    ensures SignedExtract(0x4D0_0000, MaskFromRange(20, 28)) == 77
  {
    assert Pow2(7) == 0x80 by { Pow2Values(); }
    assert Pow2(8) == 0x100 by { Pow2Values(); }
    assert Pow2(20) == 0x10_0000 by { Pow2Values(); }
    ExtractCase(0x4D0_0000, 20, 8, 0x10_0000, 0x100, 0x4D);
    SignedCase(0x4D0_0000, 20, 9, 0x80, 0x4D, 77);
  }

  lemma StreamExtractExamples()
    ensures StreamExtract([0x3C], MaskFromRange(2, 5), Little) == 0xF
    ensures StreamExtract([0x3C], MaskFromRange(2, 5), Big) == 0xF
    ensures StreamExtract([0x07, 0xE0], Mask(4, 8), Little) == 0x7E
    ensures StreamExtract([0xE0, 0x07], Mask(4, 8), Big) == 0x7E
  {
    Pow2Small();
    Pow2Byte();
    ShlIsMul(0, 8);
    assert StreamValue([0x3C], Little) == 0x3C && StreamValue([0x3C], Big) == 0x3C;
    StreamValueTwo(0x07, 0xE0);
    StreamValueTwo(0xE0, 0x07);
    ExtractCase(0x3C, 2, 4, 4, 0x10, 0xF);
    ExtractCase(0x07E0, 4, 8, 0x10, 0x100, 0x7E);
  }
}
