/** The STM32F10x UART driver. The controller has no receive FIFO: a DMA
 * channel in circular mode copies every received byte into a ring buffer
 * (`queue`) and counts its remaining transfers down in `CNDTR`; the driver
 * reads the ring from its own `readPointer`.
 *
 * The DMA is not modelled as running concurrently: a call sees the ring and
 * `CNDTR` as they were when it started. */
module Stm32f10xUart {
  import opened Wrappers
  import Bits

  /** `size_t` arithmetic is modulo 2^64. */
  const SizeLimit: nat := 0x1_0000_0000_0000_0000

  /** The largest transfer count the DMA channel accepts. */
  const DmaTransferLimit: nat := 65535

  lemma ModSmall(x: int, n: int)
    requires 0 <= x < n
    ensures x % n == x
  {
    Bits.DivModUnique(x, n, 0, x);
  }

  lemma ModWrap(x: int, n: int)
    requires 0 < n <= x < 2 * n
    ensures x % n == x - n
  {
    Bits.DivModUnique(x, n, 1, x - n);
  }

  lemma ModNegative(x: int, n: int)
    requires 0 < n && -n <= x < 0
    ensures x % n == x + n
  {
    Bits.DivModUnique(x, n, -1, x + n);
  }

  /** `DmaWritePosition`: where the DMA will store the next byte, from the
   * transfer count it has left, computed in `size_t`. */
  function WritePosition(queueSize: nat, remaining: nat): (r: nat)
    requires 0 < queueSize < SizeLimit
    ensures r < queueSize
    ensures 0 < remaining <= queueSize ==> r == queueSize - remaining
    ensures remaining == 0 ==> r == 0
  {
    WritePositionCases(queueSize, remaining);
    ((queueSize - remaining) % SizeLimit) % queueSize
  }

  lemma WritePositionCases(queueSize: nat, remaining: nat)
    requires 0 < queueSize < SizeLimit
    ensures 0 < remaining <= queueSize ==> ((queueSize - remaining) % SizeLimit) % queueSize == queueSize - remaining
    ensures remaining == 0 ==> ((queueSize - remaining) % SizeLimit) % queueSize == 0
  {
    if 0 < remaining <= queueSize {
      ModSmall(queueSize - remaining, SizeLimit);
      ModSmall(queueSize - remaining, queueSize);
    } else if remaining == 0 {
      ModSmall(queueSize, SizeLimit);
      Bits.DivModUnique(queueSize, queueSize, 1, 0);
    }
  }

  /** The number of bytes waiting in a ring of `size` bytes between the read
   * and the write position. */
  function Available(write: nat, read: nat, size: nat): (r: nat)
    requires write < size && read < size
    ensures r < size
    ensures write >= read ==> r == write - read
    ensures write < read ==> r == write - read + size
  {
    AvailableCases(write, read, size);
    (write - read) % size
  }

  lemma AvailableCases(write: nat, read: nat, size: nat)
    requires write < size && read < size
    ensures write >= read ==> (write - read) % size == write - read
    ensures write < read ==> (write - read) % size == write - read + size
  {
    if write >= read {
      ModSmall(write - read, size);
    } else {
      ModNegative(write - read, size);
    }
  }

  /** Position `k` bytes after `read` in the ring. */
  lemma RingAdvance(read: nat, k: nat, size: nat)
    requires read < size && k < size
    ensures (read + k) % size == if read + k < size then read + k else read + k - size
  {
    if read + k < size {
      ModSmall(read + k, size);
    } else {
      ModWrap(read + k, size);
    }
  }

  /** Moving through the ring from the read position, the write position is
   * first met after exactly the waiting bytes. */
  lemma RingMeetsWrite(write: nat, read: nat, size: nat, k: nat)
    requires write < size && read < size && k <= Available(write, read, size)
    ensures (read + k) % size == write <==> k == Available(write, read, size)
  {
    RingAdvance(read, k, size);
  }

  /** Reading `k` of the waiting bytes leaves the rest waiting. */
  lemma RingConsume(write: nat, read: nat, size: nat, k: nat)
    requires write < size && read < size && k <= Available(write, read, size)
    ensures (read + k) % size < size
    ensures Available(write, (read + k) % size, size) == Available(write, read, size) - k
  {
    RingAdvance(read, k, size);
  }

  lemma RingStep(read: nat, k: nat, size: nat)
    requires read < size && k < size
    ensures ((read + k) % size + 1) % size == (read + k + 1) % size
  {
    var x := read + k;
    if x < size {
      ModSmall(x, size);
    } else {
      ModWrap(x, size);
    }
    if x + 1 < size {
      ModSmall(x + 1, size);
    } else if x + 1 < 2 * size {
      ModWrap(x + 1, size);
    }
    if (x % size) + 1 < size {
      ModSmall(x % size + 1, size);
    } else {
      ModWrap(x % size + 1, size);
    }
  }

  /** The stop-bit, parity and word-length setting (`UartSettings_t`); the
   * frame size is given in bits. */
  datatype StopBits = Single | Double
  datatype Parity = NoParity | Odd | Even
  datatype Settings = Settings(frameBits: nat, stop: StopBits, parity: Parity)

  /** The format fields `ConfigureFormat` computes: parity control, parity
   * selection, word length (set for 9-bit frames) and the stop code. */
  datatype FormatFields = FormatFields(parityEnable: bool, parityOdd: bool, nineBits: bool, stopCode: nat)

  /** `ConfigureFormat`: frames under eight bits are not supported; two
   * stop bits are code 2 (binary 10), one is 0. */
  function Format(s: Settings): (r: Result<FormatFields>)
    ensures r.Err? <==> s.frameBits < 8
    ensures r.Err? ==> r.error == NotSupported
    ensures r.Ok? ==> && (r.value.parityEnable <==> s.parity != NoParity)
                      && (r.value.parityOdd <==> s.parity == Odd)
                      && (r.value.nineBits <==> s.frameBits == 9)
                      && r.value.stopCode == (if s.stop == Double then 2 else 0)
  {
    if s.frameBits < 8 then Err(NotSupported)
    else Ok(FormatFields(s.parity != NoParity, s.parity == Odd, s.frameBits == 9,
                         (if s.stop == Double then 2 else 0)))
  }

  function BoolBit(b: bool): nat
  {
    if b then 1 else 0
  }

  /** Bit positions in `CR1`, `CR2` and `CR3`. */
  const UsartEnableBit: nat := 13
  const TransmitterEnableBit: nat := 3
  const ReceiveEnableBit: nat := 2
  const DmaReceiverEnableBit: nat := 6
  const ParityControlBit: nat := 10
  const ParitySelectionBit: nat := 9
  const WordLengthBit: nat := 12

  /** USART, receiver and transmitter enabled (`kControlSettings1`). */
  const ControlSettings1: nat := 0x200C

  /** DMA receive enabled (`kControlSettings3`). */
  const ControlSettings3: nat := 0x0040

  /** The format fields written into `CR1` (32-bit register). */
  function FormatControl1(cr1: nat, f: FormatFields): (r: nat)
  {
    var a := Bits.Insert(cr1, BoolBit(f.parityEnable), Bits.MaskFromBit(ParityControlBit), 32);
    var b := Bits.Insert(a, BoolBit(f.parityOdd), Bits.MaskFromBit(ParitySelectionBit), 32);
    Bits.Insert(b, BoolBit(f.nineBits), Bits.MaskFromBit(WordLengthBit), 32)
  }

  /** The three format bits read back from `CR1` as they were written, and
   * every other bit of `CR1` is kept. */
  lemma FormatControl1Bits(cr1: nat, f: FormatFields, j: nat)
    requires j < 32
    ensures Bits.Bit(FormatControl1(cr1, f), j) ==
            if j == ParityControlBit then f.parityEnable
            else if j == ParitySelectionBit then f.parityOdd
            else if j == WordLengthBit then f.nineBits
            else Bits.Bit(cr1, j)
  {
    var a := Bits.Insert(cr1, BoolBit(f.parityEnable), Bits.MaskFromBit(ParityControlBit), 32);
    var b := Bits.Insert(a, BoolBit(f.parityOdd), Bits.MaskFromBit(ParitySelectionBit), 32);
    Bits.InsertBit(cr1, BoolBit(f.parityEnable), Bits.MaskFromBit(ParityControlBit), 32, j);
    Bits.InsertBit(a, BoolBit(f.parityOdd), Bits.MaskFromBit(ParitySelectionBit), 32, j);
    Bits.InsertBit(b, BoolBit(f.nineBits), Bits.MaskFromBit(WordLengthBit), 32, j);
    BoolBitLow(f.parityEnable);
    BoolBitLow(f.parityOdd);
    BoolBitLow(f.nineBits);
  }

  lemma BoolBitLow(b: bool)
    ensures Bits.Bit(Bits.Low(BoolBit(b), 1), 0) == b
  {
    Bits.LowOfSmall(BoolBit(b), 1);
    Bits.ZeroBits(0);
    Bits.OneBits(0);
  }

  /** The stop code written into bits 12-13 of `CR2`. */
  function FormatControl2(cr2: nat, f: FormatFields): nat
  {
    Bits.Insert(cr2, f.stopCode, Bits.MaskFromRange(12, 13), 32)
  }

  /** `ConfigureBaudRate` after the floating-point division: `mantissa` is
   * the truncated divider and `fraction` its remainder rounded to
   * sixteenths. A fraction that rounds up to 16 carries into the mantissa
   * (in 16 bits) and leaves 0. */
  function BaudParts(mantissa: nat, fraction: nat): (r: (nat, nat))
    ensures fraction >= 16 ==> r == ((mantissa + 1) % 0x1_0000, 0)
    ensures fraction < 16 ==> r == (mantissa, fraction)
  {
    if fraction >= 16 then ((mantissa + 1) % 0x1_0000, 0) else (mantissa, fraction)
  }

  /** `BRR`: the mantissa in bits 4-15 and the fraction in bits 0-3 of a
   * 16-bit value. */
  function BaudRegister(mantissa: nat, fraction: nat): (r: nat)
    ensures r < 0x1_0000
  {
    var (m, f) := BaudParts(mantissa, fraction);
    Bits.Pow2Values();
    Bits.Insert(Bits.Insert(0, m, Bits.MaskFromRange(4, 15), 16), f, Bits.MaskFromRange(0, 3), 16)
  }

  /** The fraction field of `BRR` is below 16 whatever the divider, so a
   * carried fraction is never written into the mantissa bits. */
  lemma BaudRegisterFields(mantissa: nat, fraction: nat)
    ensures var (m, f) := BaudParts(mantissa, fraction);
      && Bits.Extract(BaudRegister(mantissa, fraction), Bits.MaskFromRange(0, 3)) == Bits.Low(f, 4)
      && (fraction >= 16 ==> Bits.Extract(BaudRegister(mantissa, fraction), Bits.MaskFromRange(0, 3)) == 0)
  {
    var (m, f) := BaudParts(mantissa, fraction);
    var low := Bits.Insert(0, m, Bits.MaskFromRange(4, 15), 16);
    Bits.InsertThenExtract(low, f, Bits.MaskFromRange(0, 3), 16);
    if fraction >= 16 {
      Bits.LowOfSmall(0, 4);
    }
  }

  /** The UART's `CR1`, `CR2`, `CR3` and `BRR`. */
  datatype Registers = Registers(control1: nat, control2: nat, control3: nat, baudRate: nat)

  /** The registers after `ModuleInitialize` from `before`: `CR1` and `CR3`
   * get their enable settings and `BRR` the divider; then, only when the
   * frame format is supported, the format bits go into `CR1` and the stop
   * code into `CR2`. An unsupported format leaves the enable settings and
   * the baud rate written and `CR2` as it was. */
  function Configured(before: Registers, s: Settings, mantissa: nat, fraction: nat): (r: Registers)
    ensures r.control3 == ControlSettings3 && r.baudRate == BaudRegister(mantissa, fraction)
    ensures Format(s).Err? ==> r.control1 == ControlSettings1 && r.control2 == before.control2
    ensures Format(s).Ok? ==> (r.control1 == FormatControl1(ControlSettings1, Format(s).value)
                               && r.control2 == FormatControl2(before.control2, Format(s).value))
  {
    var base := Registers(ControlSettings1, before.control2, ControlSettings3, BaudRegister(mantissa, fraction));
    match Format(s)
    case Err(_) => base
    case Ok(f) => base.(control1 := FormatControl1(base.control1, f), control2 := FormatControl2(base.control2, f))
  }

  /** The mantissa field of `BRR` holds the (carried) mantissa, kept to
   * its 12 bits. */
  lemma BaudRegisterMantissa(mantissa: nat, fraction: nat)
    ensures Bits.Extract(BaudRegister(mantissa, fraction), Bits.MaskFromRange(4, 15)) == Bits.Low(BaudParts(mantissa, fraction).0, 12)
  {
    var (m, f) := BaudParts(mantissa, fraction);
    var low := Bits.Insert(0, m, Bits.MaskFromRange(4, 15), 16);
    Bits.InsertKeepsOtherField(low, f, Bits.MaskFromRange(0, 3), Bits.MaskFromRange(4, 15), 16);
    Bits.InsertThenExtract(0, m, Bits.MaskFromRange(4, 15), 16);
  }

  /** The enable bits of the two control settings. */
  lemma ControlSettingsBits()
    ensures Bits.Bit(ControlSettings1, UsartEnableBit)
    ensures Bits.Bit(ControlSettings1, ReceiveEnableBit)
    ensures Bits.Bit(ControlSettings1, TransmitterEnableBit)
    ensures Bits.Bit(ControlSettings3, DmaReceiverEnableBit)
  {
  }

  /** `CR1` after the format is written: the parity, parity selection and
   * word-length bits as the settings ask. */
  lemma FormatControl1ReadBack(cr1: nat, s: Settings)
    requires s.frameBits >= 8
    ensures var r := FormatControl1(cr1, Format(s).value);
      && (Bits.Bit(r, ParityControlBit) <==> s.parity != NoParity)
      && (Bits.Bit(r, ParitySelectionBit) <==> s.parity == Odd)
      && (Bits.Bit(r, WordLengthBit) <==> s.frameBits == 9)
  {
    var f := Format(s).value;
    FormatControl1Bits(cr1, f, ParityControlBit);
    FormatControl1Bits(cr1, f, ParitySelectionBit);
    FormatControl1Bits(cr1, f, WordLengthBit);
  }

  /** Writing the format over the enable settings leaves the USART, the
   * receiver and the transmitter enabled. */
  lemma FormatKeepsEnables(f: FormatFields)
    ensures var r := FormatControl1(ControlSettings1, f);
      Bits.Bit(r, UsartEnableBit) && Bits.Bit(r, ReceiveEnableBit) && Bits.Bit(r, TransmitterEnableBit)
  {
    ControlSettingsBits();
    FormatControl1Bits(ControlSettings1, f, UsartEnableBit);
    FormatControl1Bits(ControlSettings1, f, ReceiveEnableBit);
    FormatControl1Bits(ControlSettings1, f, TransmitterEnableBit);
  }

  /** The stop field of `CR2` reads back the stop code. */
  lemma FormatControl2ReadBack(cr2: nat, s: Settings)
    requires s.frameBits >= 8
    ensures Bits.Extract(FormatControl2(cr2, Format(s).value), Bits.MaskFromRange(12, 13)) == (if s.stop == Double then 2 else 0)
  {
    var f := Format(s).value;
    Bits.InsertThenExtract(cr2, f.stopCode, Bits.MaskFromRange(12, 13), 32);
    assert Bits.Pow2(2) == 4 by { Bits.Pow2Small(); }
    Bits.LowOfSmall(f.stopCode, 2);
  }

  /** Clearing one bit of a 32-bit register. */
  lemma ClearedBit(target: nat, bit: nat, j: nat)
    requires bit < 32
    ensures Bits.Bit(Bits.Clear(target, bit, 32), j) == (j < 32 && j != bit && Bits.Bit(target, j))
  {
    Bits.InsertBit(target, 0, Bits.MaskFromBit(bit), 32, j);
    Bits.ZeroBits(0);
    Bits.LowOfSmall(0, 1);
  }

  /** An STM32F10x UART with its DMA receive ring. */
  class DmaUart {
    /** The receive ring the DMA fills. */
    const queue: array<Byte>
    /** Where the driver reads next. */
    var readPointer: nat
    /** The DMA channel's `CNDTR`: transfers left before it wraps. */
    var remaining: nat
    /** `CR1`, `CR2`, `CR3` and `BRR`. */
    var registers: Registers
    /** The enable bit of the DMA channel's `CCR`. */
    var dmaEnabled: bool
    /** Every byte written to `DR`, in order. */
    var transmitted: seq<Byte>

    predicate Valid()
      reads this
    {
      0 < queue.Length < SizeLimit && readPointer < queue.Length
    }

    constructor(queue: array<Byte>, remaining: nat)
      requires 0 < queue.Length < SizeLimit
      ensures Valid() && this.queue == queue && readPointer == 0 && this.remaining == remaining
      ensures transmitted == []
    {
      registers := Registers(0, 0, 0, 0);
      dmaEnabled := false;
      this.queue := queue;
      readPointer := 0;
      this.remaining := remaining;
      transmitted := [];
    }

    function WritePos(): (r: nat)
      requires Valid()
      reads this
      ensures r < queue.Length
    {
      WritePosition(queue.Length, remaining)
    }

    /** `HasData`: the DMA has written past the read position. */
    predicate HasData()
      requires Valid()
      reads this
      ensures HasData() <==> Available(WritePos(), readPointer, queue.Length) > 0
    {
      WritePos() != readPointer
    }

    /** The bytes waiting to be read. */
    function Waiting(): (r: nat)
      requires Valid()
      reads this
      ensures r == 0 <==> !HasData()
    {
      Available(WritePos(), readPointer, queue.Length)
    }

    /** `ModuleInitialize` (register part): a ring the DMA count cannot
     * cover is rejected before anything is touched; otherwise the DMA count
     * is loaded with the ring size, the control registers and `BRR` are
     * written, and the format check runs last, after the baud rate. */
    method Initialize(s: Settings, mantissa: nat, fraction: nat) returns (outcome: Outcome)
      requires Valid()
      modifies this
      ensures Valid() && readPointer == old(readPointer) && transmitted == old(transmitted)
      ensures queue.Length > DmaTransferLimit ==>
        outcome == Fail(InvalidArgument) && remaining == old(remaining) && registers == old(registers)
      ensures queue.Length <= DmaTransferLimit ==>
        && remaining == queue.Length && dmaEnabled
        && registers == Configured(old(registers), s, mantissa, fraction)
        && (s.frameBits < 8 <==> outcome == Fail(NotSupported))
        && (s.frameBits >= 8 <==> outcome == Pass)
    {
      if queue.Length > DmaTransferLimit {
        return Fail(InvalidArgument);
      }
      remaining, dmaEnabled := queue.Length, true;
      registers := Configured(registers, s, mantissa, fraction);
      outcome := if s.frameBits < 8 then Fail(NotSupported) else Pass;
    }

    /** The destructor: the DMA channel is disabled, then DMA receive in
     * `CR3`, then the USART in `CR1`; every other bit of the 32-bit
     * registers is kept. */
    method Deinitialize()
      modifies this
      ensures !dmaEnabled
      ensures registers == old(registers).(control1 := Bits.Clear(old(registers).control1, UsartEnableBit, 32),
                                           control3 := Bits.Clear(old(registers).control3, DmaReceiverEnableBit, 32))
      ensures !Bits.Bit(registers.control1, UsartEnableBit) && !Bits.Bit(registers.control3, DmaReceiverEnableBit)
      ensures forall j: nat :: j < 32 && j != UsartEnableBit ==> Bits.Bit(registers.control1, j) == Bits.Bit(old(registers).control1, j)
      ensures forall j: nat :: j < 32 && j != DmaReceiverEnableBit ==> Bits.Bit(registers.control3, j) == Bits.Bit(old(registers).control3, j)
      ensures readPointer == old(readPointer) && remaining == old(remaining) && transmitted == old(transmitted)
    {
      dmaEnabled := false;
      var r := registers;
      var cr1 := Bits.Clear(r.control1, UsartEnableBit, 32);
      var cr3 := Bits.Clear(r.control3, DmaReceiverEnableBit, 32);
      forall j: nat
        ensures Bits.Bit(cr1, j) == (j < 32 && j != UsartEnableBit && Bits.Bit(r.control1, j))
        ensures Bits.Bit(cr3, j) == (j < 32 && j != DmaReceiverEnableBit && Bits.Bit(r.control3, j))
      {
        ClearedBit(r.control1, UsartEnableBit, j);
        ClearedBit(r.control3, DmaReceiverEnableBit, j);
      }
      registers := r.(control1 := cr1, control3 := cr3);
    }

    /** After initialization the ring is empty: the DMA count equals the ring
     * size, so the write position is 0, as is the read position of a new
     * driver. */
    lemma InitializedRingEmpty()
      requires Valid() && remaining == queue.Length && readPointer == 0
      ensures !HasData()
    {
    }

    /** `Write`: every byte goes to `DR`, in order (the wait for the
     * transmit register to empty is not modelled). */
    method Write(data: seq<Byte>)
      modifies this
      ensures transmitted == old(transmitted) + data
      ensures readPointer == old(readPointer) && remaining == old(remaining)
    {
      for i := 0 to |data|
        invariant transmitted == old(transmitted) + data[..i]
        invariant readPointer == old(readPointer) && remaining == old(remaining)
      {
        transmitted := transmitted + [data[i]];
      }
      assert data[..|data|] == data;
    }

    /** `Read`: copy waiting bytes from the ring, starting at the read
     * position and wrapping at the end of the ring, until `data` is full or
     * the ring is empty; return how many were copied. */
    method Read(data: array<Byte>) returns (count: nat)
      requires Valid() && data != queue
      modifies this, data
      ensures Valid()
      ensures count == Min(data.Length, old(Waiting()))
      ensures readPointer == (old(readPointer) + count) % queue.Length
      ensures forall i :: 0 <= i < count ==> data[i] == queue[(old(readPointer) + i) % queue.Length]
      ensures forall i :: count <= i < data.Length ==> data[i] == old(data[i])
      ensures Waiting() == old(Waiting()) - count
      ensures remaining == old(remaining) && transmitted == old(transmitted)
    {
      ghost var start := readPointer;
      ghost var waiting := Waiting();
      var size := queue.Length;
      count := 0;
      ModSmall(start, size);
      while count < data.Length
        invariant Valid() && remaining == old(remaining) && transmitted == old(transmitted)
        invariant count <= data.Length && count <= waiting
        invariant readPointer == (start + count) % size
        invariant forall i :: 0 <= i < count ==> data[i] == queue[(start + i) % size]
        invariant forall i :: count <= i < data.Length ==> data[i] == old(data[i])
        decreases data.Length - count
      {
        RingMeetsWrite(WritePos(), start, size, count);
        if !HasData() {
          break;
        }
        data[count] := queue[readPointer];
        RingStep(start, count, size);
        readPointer := (readPointer + 1) % size;
        count := count + 1;
      }
      RingMeetsWrite(WritePos(), start, size, count);
      RingConsume(WritePos(), start, size, count);
    }

    /** `Flush`: drop everything waiting by moving the read position to the
     * write position. */
    method Flush()
      requires Valid()
      modifies this
      ensures Valid() && !HasData() && Waiting() == 0
      ensures readPointer == WritePosition(queue.Length, remaining)
      ensures remaining == old(remaining) && transmitted == old(transmitted)
    {
      readPointer := WritePos();
    }
  }

  function Min(a: nat, b: nat): nat
  {
    if a <= b then a else b
  }
}
