/** The SD card driver of the library tree: the response length of each
 * command, the acknowledgement test on an R1 byte, the command frame it
 * sends, the voltage check of card identification, the capacity read from
 * the CSD register, and the block splitting of `Write` and `Read` with the
 * CRC-16 each 512-byte block carries.
 *
 * `WaitToReadBlock` polls for the token that precedes a data block. As
 * written it logs the start token without returning, so every read fails;
 * both that wait (`TokenWaitAsWritten`) and the intended one (`TokenWait`)
 * are modelled, and `ReadBlock`, `Read` and the round trip of written data
 * describe the intended driver, once the wait has passed.
 *
 * The SPI bus and the card are outside the model: what the card answers is a
 * parameter (`Medium` for reads, `WriteResponse` for writes), and what the
 * driver sends is returned as the list of blocks handed to `WriteBlock`.
 * The CRC tables come from a header that is not part of this model; the
 * table-driven CRCs of the firmware tree (`FirmwareSd`) stand for them,
 * with the CRC-7 table complete. */
module Sd {
  import opened Wrappers
  import opened FirmwareSd
  import Bits

  // ------------------------------------------------------------ responses

  /** The response type `GetResponseLength` assigns to each command; every
   * command has one, `GetCsd` included. */
  function ResponseTypeFor(c: Command): ResponseType
  {
    match c
    case GetOp => R7
    case GetStatus => R2
    case GetOcr => R3
    case Del => R1b
    case _ => R1
  }

  /** `GetResponseLength`: the number of response bytes `SendCommand` reads
   * for a command. The `-1` default cases are unreachable, since every
   * command and every type it maps to is listed. */
  function GetResponseLength(c: Command): (r: nat)
    ensures 1 <= r <= 5
  {
    ResponseBytes(ResponseTypeFor(c))
  }

  /** Five bytes for the R3/R7 commands that carry a 32-bit register, two for
   * the status command, one for every other command. */
  lemma ResponseLengths(c: Command)
    ensures GetResponseLength(c) == 5 <==> c == GetOp || c == GetOcr
    ensures GetResponseLength(c) == 2 <==> c == GetStatus
    ensures GetResponseLength(c) == 1 <==> !(c in {GetOp, GetOcr, GetStatus})
  {
  }

  /** The two drivers agree on every command the firmware driver accepts;
   * the library driver also reads the one-byte R1 of `GetCsd`, which the
   * firmware driver refuses. */
  lemma ResponseLengthAgreesWithFirmware(c: Command)
    ensures c != GetCsd ==> SendCmdLength(c) == Some(GetResponseLength(c))
    ensures SendCmdLength(GetCsd).None? && GetResponseLength(GetCsd) == 1
  {
  }

  // ------------------------------------------------------- R1 and frames

  /** The error flags of an R1 byte, bits 6 down to 0, as the driver reports
   * them when a command is not acknowledged. */
  datatype R1Flag =
    | ParameterError | AddressError | EraseSequenceError | CommandCrcError
    | IllegalCommand | EraseReset | InIdleState

  /** The flags set in an R1 byte. */
  function R1Flags(r1: bv8): (r: set<R1Flag>)
  {
    (if r1 & 0x40 != 0 then {ParameterError} else {})
    + (if r1 & 0x20 != 0 then {AddressError} else {})
    + (if r1 & 0x10 != 0 then {EraseSequenceError} else {})
    + (if r1 & 0x08 != 0 then {CommandCrcError} else {})
    + (if r1 & 0x04 != 0 then {IllegalCommand} else {})
    + (if r1 & 0x02 != 0 then {EraseReset} else {})
    + (if r1 & 0x01 != 0 then {InIdleState} else {})
  }

  /** `CommandWasAcknowledged`: the R1 byte is 0, so it has the leading 0
   * bit of an R1 response and reports none of the seven flags. */
  function CommandWasAcknowledged(r1: bv8): (r: bool)
    ensures r <==> r1 & 0x80 == 0 && R1Flags(r1) == {}
  {
    if r1 == 0 then true
    else if r1 & 0x80 != 0 then false
    else LowBitsOfR1(r1); false
  }

  /** An R1 byte starts with a 0 bit, so a command is acknowledged exactly
   * when the card reports none of the seven flags. */
  lemma AcknowledgedIffNoFlags(r1: bv8)
    requires r1 & 0x80 == 0
    ensures CommandWasAcknowledged(r1) <==> R1Flags(r1) == {}
  {
    if r1 != 0 {
      LowBitsOfR1(r1);
    }
  }

  lemma LowBitsOfR1(r1: bv8)
    requires r1 & 0x80 == 0 && r1 != 0
    ensures r1 & 0x40 != 0 || r1 & 0x20 != 0 || r1 & 0x10 != 0 || r1 & 0x08 != 0
         || r1 & 0x04 != 0 || r1 & 0x02 != 0 || r1 & 0x01 != 0
  {
  }

  /** The six bytes `SendCommandParameters` transfers: the command code, the
   * argument most significant byte first, and the CRC-7 shifted up past the
   * stop bit 1. For `Garbage` the CRC is replaced by 0xFF, and the shift
   * done in `uint8_t` makes that last byte 0xFF. */
  function SpiCommandFrame(c: Command, arg: bv32): (r: seq<bv8>)
    ensures |r| == 6 && r[..5] == CommandMessage(c, arg)
  {
    var message := CommandMessage(c, arg);
    var crc: bv8 := if c == Garbage then 0xFF else Crc7(message);
    message + [(crc << 1) | 1]
  }

  /** The last byte of a frame ends in the stop bit and carries the whole
   * CRC-7 of the five bytes before it; for `Garbage` it is 0xFF. */
  lemma SpiCommandFrameCrc(c: Command, arg: bv32)
    ensures c == Garbage ==> SpiCommandFrame(c, arg)[5] == 0xFF
    ensures c != Garbage ==> SpiCommandFrame(c, arg)[5] & 1 == 1
    ensures c != Garbage ==> SpiCommandFrame(c, arg)[5] >> 1 == Crc7(SpiCommandFrame(c, arg)[..5])
  {
    var message := CommandMessage(c, arg);
    if c != Garbage {
      CrcByteCarriesCrc(Crc7(message));
    }
  }

  lemma CrcByteCarriesCrc(crc: bv8)
    requires crc < 0x80
    ensures ((crc << 1) | 1) & 1 == 1 && ((crc << 1) | 1) >> 1 == crc
  {
  }

  // -------------------------------------------------------- identification

  /** The argument of the voltage check (CMD8): voltage code 1 (2.7 V to
   * 3.6 V) in bits 8 to 11 and the check pattern 0xAB in bits 0 to 7. */
  const VoltageCode: bv8 := 0x01
  const CheckPattern: bv8 := 0xAB
  const VoltagePattern: bv32 := 0x1AB

  /** `CheckSupportedVoltages` on the five response bytes of CMD8: the
   * illegal-command flag means the card predates version 2.00, a voltage
   * code other than the one sent means the card cannot run at 3.3 V, and an
   * echo other than the check pattern means the response is corrupt. The
   * field mask `MaskFromRange(8, 11) >> 8` is read as bits 0 to 3. */
  function CheckSupportedVoltages(response: seq<bv8>): (r: Outcome)
    requires |response| == 5
    ensures r.Fail? ==> r.error == NotSupported || r.error == IoError
    ensures response[0] & 0x04 != 0 ==> r == Fail(NotSupported)
  {
    if response[0] & 0x04 != 0 then Fail(NotSupported)
    else if response[3] & 0x0F != VoltageCode then Fail(NotSupported)
    else if response[4] != CheckPattern then Fail(IoError)
    else Pass
  }

  /** The check passes exactly when the card knows the command and echoes the
   * low twelve bits of the argument it was sent; a wrong voltage code is
   * reported before a wrong pattern. */
  lemma VoltageCheckIsEcho(response: seq<bv8>)
    requires |response| == 5
    ensures CheckSupportedVoltages(response) == Pass <==>
      && response[0] & 0x04 == 0
      && response[3] & 0x0F == ArgumentBytes(VoltagePattern)[2]
      && response[4] == ArgumentBytes(VoltagePattern)[3]
    ensures CheckSupportedVoltages(response) == Fail(IoError) <==>
      && response[0] & 0x04 == 0
      && response[3] & 0x0F == ArgumentBytes(VoltagePattern)[2]
      && response[4] != ArgumentBytes(VoltagePattern)[3]
  {
    assert ArgumentBytes(VoltagePattern)[2] == VoltageCode;
    assert ArgumentBytes(VoltagePattern)[3] == CheckPattern;
  }

  // -------------------------------------------------------------- capacity

  /** The C_SIZE field of a version 2.0 CSD register: bits 48 to 69 of the
   * 16-byte register, the last byte holding bits 0 to 7. */
  function CSize(csd: seq<Byte>): (r: nat)
    ensures r < Bits.Pow2(22)
  {
    Bits.StreamExtract(csd, Bits.MaskFromRange(48, 69), Bits.Little)
  }

  /** `GetCapacity`: (C_SIZE + 1) times 512 KiB, in bytes. */
  function GetCapacity(csd: seq<Byte>): (r: nat)
    ensures r % 524288 == 0 && r / 524288 == CSize(csd) + 1
  {
    var units := CSize(csd) + 1;
    Bits.DivModUnique(units * 524288, 524288, units, 0);
    units * 524288
  }

  /** Bits 0 to 7 of C_SIZE come from byte 9 of the register, bits 8 to 15
   * from byte 8 and bits 16 to 21 from the low six bits of byte 7, as
   * section 5.3.3 of the SD Physical Layer Simplified Specification lays
   * out C_SIZE at register bits 69 to 48 with byte 0 holding bits 127 to
   * 120. */
  lemma CSizeBits(csd: seq<Byte>, j: nat)
    requires |csd| == 16
    ensures Bits.Bit(CSize(csd), j) == (j < 22 && Bits.Bit(csd[9 - j / 8], j % 8))
  {
    Bits.StreamExtractBit(csd, 48, 22, Bits.Little, j);
    assert (48 + j) / 8 == 6 + j / 8 && (48 + j) % 8 == j % 8;
  }

  /** Every capacity is a whole number of 512 KiB units, from 512 KiB up to
   * 2 TiB. */
  lemma CapacityRange(csd: seq<Byte>)
    ensures 524288 <= GetCapacity(csd) <= 0x200_0000_0000
    ensures GetCapacity(csd) % 524288 == 0
  {
    CSizeBound();
    UnitsRange(CSize(csd), GetCapacity(csd));
  }

  lemma UnitsRange(c: nat, capacity: nat)
    requires c < 0x40_0000 && capacity == (c + 1) * 524288
    ensures 524288 <= capacity <= 0x200_0000_0000
    ensures capacity % 524288 == 0
  {
  }

  lemma CSizeBound()
    ensures Bits.Pow2(22) == 0x40_0000
  {
    Bits.Pow2Values();
    Bits.Pow2Add(20, 2);
  }

  // ---------------------------------------------------------------- blocks

  /** `kBlockSize`: the data bytes of a block. */
  const BlockSize: nat := 512

  /** A `Block_t` buffer: the block's data and its two CRC bytes. */
  const BlockBufferSize: nat := 514

  /** A 32-bit block address. */
  type Address = x: nat | x < 0x1_0000_0000

  /** `block_address + block_offset` in `uint32_t`: the sum itself while it
   * fits, and otherwise wrapped round, a whole multiple of 2^32 below it. */
  function BlockAddress(start: Address, offset: nat): (r: Address)
    ensures start + offset < 0x1_0000_0000 ==> r == start + offset
    ensures r <= start + offset && (start + offset - r) % 0x1_0000_0000 == 0
  {
    (start + offset) % 0x1_0000_0000
  }

  /** The two CRC bytes `SetCrcBytes` appends: the CRC-16 of the data, high
   * byte first. */
  function CrcBytes(payload: seq<bv8>): (r: seq<bv8>)
    ensures |r| == 2
  {
    var crc := Crc16(payload);
    [(crc >> 8) as bv8, (crc & 0xFF) as bv8]
  }

  /** The CRC `ReadBlock` reads back from the last two bytes of a block:
   * byte 512 shifted up, ORed with byte 513. */
  function ReceivedCrc(block: seq<bv8>): bv16
    requires |block| == BlockBufferSize
  {
    ((block[512] as bv16) << 8) | (block[513] as bv16)
  }

  /** Splitting a CRC into its two bytes and reading them back loses
   * nothing. */
  lemma CrcSplitJoin(crc: bv16)
    ensures ((((crc >> 8) as bv8) as bv16) << 8) | (((crc & 0xFF) as bv8) as bv16) == crc
  {
  }

  /** A block with the bytes `SetCrcBytes` appends passes the CRC check of
   * `ReadBlock`. */
  lemma CrcBytesRoundTrip(payload: seq<bv8>)
    requires |payload| == BlockSize
    ensures ReceivedCrc(payload + CrcBytes(payload)) == Crc16(payload)
    ensures (payload + CrcBytes(payload))[..BlockSize] == payload
  {
    CrcSplitJoin(Crc16(payload));
  }

  /** `Block_t::SetCrcBytes`: the CRC-16 of bytes 0 to 511 goes to bytes 512
   * (high) and 513 (low); the data is kept. */
  method SetCrcBytes(block: array<bv8>)
    requires block.Length == BlockBufferSize
    modifies block
    ensures block[..BlockSize] == old(block[..BlockSize])
    ensures block[BlockSize..] == CrcBytes(old(block[..BlockSize]))
  {
    var crc := GetCrc16(block[..BlockSize]);
    block[BlockBufferSize - 1] := (crc & 0xFF) as bv8;
    block[BlockBufferSize - 2] := (crc >> 8) as bv8;
    assert block[BlockSize..] == [block[512], block[513]];
  }

  // ----------------------------------------------------------------- write

  /** `n` erased bytes: flash reads an erased cell as all ones. */
  function Erased(n: nat): (r: seq<bv8>)
    ensures |r| == n && forall i :: 0 <= i < n ==> r[i] == 0xFF
  {
    seq(n, _ => 0xFF)
  }

  /** The smaller of two lengths. */
  function Min(a: nat, b: nat): nat
  {
    if a <= b then a else b
  }

  /** How many bytes of a `size`-byte span the block starting at byte `from`
   * carries: 512, or fewer for the last block. */
  function ChunkLength(size: nat, from: nat): (r: nat)
    requires from < size
    ensures 0 < r <= BlockSize && from + r <= size
    ensures r < BlockSize ==> from + r == size
  {
    Min(BlockSize, size - from)
  }

  /** The 512 data bytes of the block that starts at byte `from` of `data`:
   * the next 512 bytes, or the rest of `data` padded with erased bytes. */
  function Chunk(data: seq<bv8>, from: nat): (r: seq<bv8>)
    requires from < |data|
    ensures |r| == BlockSize
    ensures var k := ChunkLength(|data|, from);
      r[..k] == data[from..from + k] && forall i :: k <= i < BlockSize ==> r[i] == 0xFF
  {
    var k := ChunkLength(|data|, from);
    var r := data[from..from + k] + Erased(BlockSize - k);
    assert r[..k] == data[from..from + k];
    r
  }

  /** One block handed to `WriteBlock`: its address and its 514 bytes. */
  datatype BlockWrite = BlockWrite(address: Address, bytes: seq<bv8>)

  /** The blocks `Write` produces for the bytes of `data` from `from` on,
   * the first of them at block `offset` past `start`: each carries a chunk
   * of the data and the chunk's CRC bytes. */
  function WriteFrames(start: Address, data: seq<bv8>, from: nat, offset: nat): (r: seq<BlockWrite>)
    ensures forall i :: 0 <= i < |r| ==> |r[i].bytes| == BlockBufferSize
    ensures forall i :: 0 <= i < |r| ==> r[i].address == BlockAddress(start, offset + i)
    decreases |data| - from
  {
    if from >= |data| then []
    else
      var chunk := Chunk(data, from);
      [BlockWrite(BlockAddress(start, offset), chunk + CrcBytes(chunk))]
        + WriteFrames(start, data, from + BlockSize, offset + 1)
  }

  /** `Write` sends one block per started 512 bytes of data. */
  lemma {:induction false} WriteFramesCount(start: Address, data: seq<bv8>, from: nat, offset: nat)
    requires from <= |data|
    ensures |WriteFrames(start, data, from, offset)| == (|data| - from + BlockSize - 1) / BlockSize
    decreases |data| - from
  {
    if from < |data| {
      if from + BlockSize <= |data| {
        WriteFramesCount(start, data, from + BlockSize, offset + 1);
      }
    }
  }

  /** A buffer holding a chunk and its CRC bytes is the first frame; the
   * frames after it start where the chunk ends. */
  lemma FrameOfBlock(start: Address, data: seq<bv8>, from: nat, next: nat, offset: nat, block: seq<bv8>)
    requires from < |data| && next == from + ChunkLength(|data|, from)
    requires |block| == BlockBufferSize
    requires block[..BlockSize] == Chunk(data, from)
    requires block[BlockSize..] == CrcBytes(Chunk(data, from))
    ensures WriteFrames(start, data, from, offset)
         == [BlockWrite(BlockAddress(start, offset), block)] + WriteFrames(start, data, next, offset + 1)
  {
    assert block == block[..BlockSize] + block[BlockSize..];
  }

  /** What the card answers to the write command for each block address: an
   * R1 byte, 0 when the block is accepted. */
  type WriteResponse = Address -> bv8

  /** The frames up to, and not including, the first one the card rejects:
   * `WriteBlock` throws before sending a rejected block, and the exception
   * ends `Write`. */
  function AcceptedPrefix(frames: seq<BlockWrite>, response: WriteResponse): (r: seq<BlockWrite>)
    ensures |r| <= |frames| && r == frames[..|r|]
    ensures forall i :: 0 <= i < |r| ==> response(r[i].address) == 0
    ensures |r| < |frames| ==> response(frames[|r|].address) != 0
  {
    if |frames| == 0 || response(frames[0].address) != 0 then []
    else [frames[0]] + AcceptedPrefix(frames[1..], response)
  }

  /** The accepted prefix of frames behind a first one. */
  lemma AcceptedPrefixCons(frame: BlockWrite, rest: seq<BlockWrite>, response: WriteResponse)
    ensures AcceptedPrefix([frame] + rest, response)
         == if response(frame.address) != 0 then [] else [frame] + AcceptedPrefix(rest, response)
  {
    assert ([frame] + rest)[1..] == rest;
  }

  /** One block of `Write` against the blocks it will have sent: a rejected
   * block ends the accepted ones, an accepted block joins them. */
  lemma AcceptedStep(sent: seq<BlockWrite>, frame: BlockWrite, rest: seq<BlockWrite>, response: WriteResponse, target: seq<BlockWrite>)
    requires sent + AcceptedPrefix([frame] + rest, response) == target
    ensures response(frame.address) != 0 ==> sent == target
    ensures response(frame.address) == 0 ==> (sent + [frame]) + AcceptedPrefix(rest, response) == target
  {
    AcceptedPrefixCons(frame, rest, response);
    if response(frame.address) != 0 {
      assert sent + [] == sent;
    } else {
      assert sent + ([frame] + AcceptedPrefix(rest, response)) == (sent + [frame]) + AcceptedPrefix(rest, response);
    }
  }

  /** The inner loop of `Write`: copy bytes of `data` from `from` on into a
   * block filled with 0xFF, stopping after 512 bytes or at the end of the
   * data, whichever comes first. */
  method FillBlock(block: array<bv8>, data: seq<bv8>, from: nat) returns (next: nat, finished: bool)
    requires block.Length == BlockBufferSize && from < |data|
    requires forall i :: 0 <= i < BlockBufferSize ==> block[i] == 0xFF
    modifies block
    ensures block[..BlockSize] == Chunk(data, from)
    ensures block[BlockSize..] == old(block[BlockSize..])
    ensures next == from + ChunkLength(|data|, from)
    ensures finished <==> next >= |data|
  {
    ghost var k := ChunkLength(|data|, from);
    next := from;
    finished := false;
    var index := 0;
    while index < BlockSize
      invariant 0 <= index <= k && next == from + index && next < |data|
      invariant block[..index] == data[from..next]
      invariant forall i :: index <= i < BlockBufferSize ==> block[i] == 0xFF
    {
      block[index] := data[next];
      assert block[..index + 1] == block[..index] + [data[next]];
      assert data[from..next + 1] == data[from..next] + [data[next]];
      next := next + 1;
      if next >= |data| {
        finished := true;
        break;
      }
      index := index + 1;
    }
    assert forall i :: 0 <= i < BlockSize ==> block[i] == Chunk(data, from)[i];
  }

  /** One pass of the outer loop of `Write` up to the send: a fresh block
   * filled with 0xFF, the next chunk of data copied in and the CRC bytes set.
   * The frame built is the first of the frames still to send. */
  method BuildBlock(start: Address, data: seq<bv8>, from: nat, offset: nat) returns (frame: BlockWrite, next: nat, finished: bool)
    requires from < |data|
    ensures frame.address == BlockAddress(start, offset)
    ensures next == from + ChunkLength(|data|, from)
    ensures finished <==> next >= |data|
    ensures WriteFrames(start, data, from, offset) == [frame] + WriteFrames(start, data, next, offset + 1)
  {
    var block := new bv8[BlockBufferSize](_ => 0xFF);
    next, finished := FillBlock(block, data, from);
    SetCrcBytes(block);
    frame := BlockWrite(BlockAddress(start, offset), block[..]);
    FrameOfBlock(start, data, from, next, offset, block[..]);
  }

  /** `Write`: the data in 512-byte blocks at consecutive block addresses,
   * the last block padded with 0xFF, each block with its CRC bytes. The
   * blocks the card accepts are returned in the order they are sent; the
   * first rejected block fails the call with `IoError`. */
  method Write(start: Address, data: seq<bv8>, response: WriteResponse) returns (sent: seq<BlockWrite>, outcome: Outcome)
    requires |data| > 0
    ensures sent == AcceptedPrefix(WriteFrames(start, data, 0, 0), response)
    ensures outcome == (if |sent| == |WriteFrames(start, data, 0, 0)| then Pass else Fail(IoError))
  {
    ghost var all := WriteFrames(start, data, 0, 0);
    ghost var target := AcceptedPrefix(all, response);
    var bytesWritten := 0;
    var finished := false;
    var blockOffset := 0;
    sent := [];
    while !finished
      invariant bytesWritten <= |data| && (finished <==> bytesWritten == |data|)
      invariant |sent| + |WriteFrames(start, data, bytesWritten, blockOffset)| == |all|
      invariant sent + AcceptedPrefix(WriteFrames(start, data, bytesWritten, blockOffset), response) == target
      decreases |data| - bytesWritten
    {
      var frame;
      ghost var from := bytesWritten;
      frame, bytesWritten, finished := BuildBlock(start, data, bytesWritten, blockOffset);
      ghost var rest := WriteFrames(start, data, bytesWritten, blockOffset + 1);
      AcceptedStep(sent, frame, rest, response, target);
      if response(frame.address) != 0 {
        outcome := Fail(IoError);
        return;
      }
      sent := sent + [frame];
      blockOffset := blockOffset + 1;
    }
    outcome := Pass;
  }

  // ------------------------------------------------------------------ read

  /** What the card returns for a single-block read at an address: its R1
   * byte and the 514 bytes that follow the start token. */
  datatype CardBlock = CardBlock(r1: bv8, bytes: seq<bv8>)

  /** The card, block address by block address. */
  type Medium = Address -> CardBlock

  /** `ReadBlock`: the block, unless the card did not acknowledge the read
   * or the received CRC differs from the CRC-16 of the 512 data bytes;
   * either failure is `IoError`. */
  function ReadBlock(cb: CardBlock): (r: Result<seq<bv8>>)
    requires |cb.bytes| == BlockBufferSize
    ensures r.Ok? <==> cb.r1 == 0 && ReceivedCrc(cb.bytes) == Crc16(cb.bytes[..BlockSize])
    ensures r.Ok? ==> r.value == cb.bytes
    ensures r.Err? ==> r.error == IoError
  {
    if !CommandWasAcknowledged(cb.r1) then Err(IoError)
    else if Crc16(cb.bytes[..BlockSize]) != ReceivedCrc(cb.bytes) then Err(IoError)
    else Ok(cb.bytes)
  }

  // ------------------------------------------------------------ token wait

  /** The number of bytes `WaitToReadBlock` polls: `kRetryLimit * 100`. */
  const TokenPolls: nat := 25_000

  /** The token that precedes the bytes of a data block. */
  const StartToken: bv8 := 0xFE

  /** An error token: a byte whose top four bits (`MaskFromRange(4, 7)`)
   * are 0. */
  predicate IsErrorToken(b: bv8)
  {
    b & 0xF0 == 0
  }

  /** No error token among polls `i` to `j - 1`. */
  predicate NoErrorToken(card: nat -> bv8, i: nat, j: nat)
  {
    forall k :: i <= k < j ==> !IsErrorToken(card(k))
  }

  /** No start token and no error token among polls `i` to `j - 1`. */
  predicate NoToken(card: nat -> bv8, i: nat, j: nat)
  {
    forall k :: i <= k < j ==> !IsErrorToken(card(k)) && card(k) != StartToken
  }

  /** `WaitToReadBlock` as written, from poll `i` on; `card(k)` is the byte
   * the `k`-th transfer returns. An error token fails the wait with
   * `IoError`; the start token is only logged and polling goes on, so a
   * wait that meets no error token times out. It never passes. */
  function TokenWaitAsWritten(card: nat -> bv8, i: nat): (r: Outcome)
    ensures r == Fail(IoError) || r == Fail(TimedOut)
    ensures r == Fail(TimedOut) <==> NoErrorToken(card, i, TokenPolls)
    decreases TokenPolls - i
  {
    if i >= TokenPolls then Fail(TimedOut)
    else if IsErrorToken(card(i)) then Fail(IoError)
    else TokenWaitAsWritten(card, i + 1)
  }

  /** The wait as intended, from poll `i` on: the first token decides, the
   * start token passes and an error token fails with `IoError`; with no
   * token in `TokenPolls` bytes the wait times out. */
  function TokenWait(card: nat -> bv8, i: nat): (r: Outcome)
    ensures r == Pass || r == Fail(IoError) || r == Fail(TimedOut)
    ensures r == Fail(TimedOut) <==> NoToken(card, i, TokenPolls)
    ensures r == Pass <==> exists j :: i <= j < TokenPolls && card(j) == StartToken && NoToken(card, i, j)
    decreases TokenPolls - i
  {
    if i >= TokenPolls then Fail(TimedOut)
    else if card(i) == StartToken then Pass
    else if IsErrorToken(card(i)) then Fail(IoError)
    else
      var r := TokenWait(card, i + 1);
      TokenWaitStep(card, i);
      r
  }

  /** A token-free poll `i` leaves the remaining wait's tokens to the polls
   * after it. */
  lemma TokenWaitStep(card: nat -> bv8, i: nat)
    requires i < TokenPolls && card(i) != StartToken && !IsErrorToken(card(i))
    ensures NoToken(card, i, TokenPolls) <==> NoToken(card, i + 1, TokenPolls)
    ensures forall j :: NoToken(card, i, j) && i < j ==> NoToken(card, i + 1, j)
    ensures forall j :: NoToken(card, i + 1, j) && i < j ==> NoToken(card, i, j)
  {
  }

  /** `WaitToReadBlock` as written: the polling loop, which has no exit on
   * the start token. */
  method WaitToReadBlockAsWritten(card: nat -> bv8) returns (outcome: Outcome)
    ensures outcome == TokenWaitAsWritten(card, 0)
    ensures outcome != Pass
  {
    var i := 0;
    while i < TokenPolls
      invariant i <= TokenPolls
      invariant TokenWaitAsWritten(card, i) == TokenWaitAsWritten(card, 0)
    {
      var waitByte := card(i);
      if IsErrorToken(waitByte) {
        return Fail(IoError);
      }
      i := i + 1;
    }
    return Fail(TimedOut);
  }

  /** The card behaves: it sends the start token at the first poll. The wait
   * as written still times out, where the intended wait passes. */
  lemma StartTokenIgnoredAsWritten(card: nat -> bv8)
    requires forall k :: card(k) == StartToken
    ensures TokenWaitAsWritten(card, 0) == Fail(TimedOut)
    ensures TokenWait(card, 0) == Pass
  {
  }

  /** `WaitToReadBlock` as intended: the polling loop returns on the start
   * token. */
  method WaitToReadBlock(card: nat -> bv8) returns (outcome: Outcome)
    ensures outcome == TokenWait(card, 0)
  {
    var i := 0;
    while i < TokenPolls
      invariant i <= TokenPolls
      invariant TokenWait(card, i) == TokenWait(card, 0)
    {
      var waitByte := card(i);
      if waitByte == StartToken {
        return Pass;
      }
      if IsErrorToken(waitByte) {
        return Fail(IoError);
      }
      i := i + 1;
    }
    return Fail(TimedOut);
  }

  /** `ReadBlock` as written: an unacknowledged read fails with `IoError`,
   * and an acknowledged one fails in the token wait, so no read returns a
   * block whatever the card sends. */
  function ReadBlockAsWritten(cb: CardBlock, card: nat -> bv8): (r: Result<seq<bv8>>)
    ensures r.Err? && (r.error == IoError || r.error == TimedOut)
    ensures cb.r1 == 0 && NoErrorToken(card, 0, TokenPolls) ==> r == Err(TimedOut)
  {
    if !CommandWasAcknowledged(cb.r1) then Err(IoError)
    else Err(TokenWaitAsWritten(card, 0).error)
  }

  /** A card that acknowledges the read, sends the start token and then a
   * block with a correct CRC: the intended driver returns the block, the
   * driver as written times out. */
  lemma GoodBlockFailsAsWritten(cb: CardBlock, card: nat -> bv8)
    requires |cb.bytes| == BlockBufferSize && cb.r1 == 0
    requires ReceivedCrc(cb.bytes) == Crc16(cb.bytes[..BlockSize])
    requires forall k :: card(k) == StartToken
    ensures ReadBlockWaiting(cb, card) == Ok(cb.bytes)
    ensures ReadBlockAsWritten(cb, card) == Err(TimedOut)
  {
    StartTokenIgnoredAsWritten(card);
  }

  /** `ReadBlock` as intended, with its token wait: acknowledgement first,
   * then the wait, then the block's CRC. Once the wait passes it is
   * `ReadBlock`. */
  function ReadBlockWaiting(cb: CardBlock, card: nat -> bv8): (r: Result<seq<bv8>>)
    requires |cb.bytes| == BlockBufferSize
    ensures TokenWait(card, 0) == Pass ==> r == ReadBlock(cb)
    ensures r.Ok? <==> TokenWait(card, 0) == Pass && ReadBlock(cb).Ok?
    ensures cb.r1 == 0 && TokenWait(card, 0).Fail? ==> r == Err(TokenWait(card, 0).error)
  {
    if !CommandWasAcknowledged(cb.r1) then Err(IoError)
    else match TokenWait(card, 0)
      case Fail(e) => Err(e)
      case Pass => ReadBlock(cb)
  }

  /** Every block the card returns has the size of a block buffer. */
  predicate WellFormedMedium(medium: Medium)
  {
    forall a: Address :: |medium(a).bytes| == BlockBufferSize
  }

  /** The bytes `Read` copies into a span of `n` bytes from position `from`
   * on, and whether every block it needed read without error. */
  datatype ReadResult = ReadResult(bytes: seq<bv8>, ok: bool)

  /** What `Read` does to an `n`-byte span from position `from` on, reading
   * block `offset` past `start` first: each block's bytes up to the end of
   * the span, until a block fails. */
  function ReadSpan(medium: Medium, start: Address, n: nat, from: nat, offset: nat): (r: ReadResult)
    requires WellFormedMedium(medium)
    ensures from + |r.bytes| <= n || r.bytes == []
    ensures r.ok && from < n ==> from + |r.bytes| == n
    decreases n - from
  {
    if from >= n then ReadResult([], true)
    else match ReadBlock(medium(BlockAddress(start, offset)))
      case Err(_) => ReadResult([], false)
      case Ok(block) =>
        var rest := ReadSpan(medium, start, n, from + BlockSize, offset + 1);
        ReadResult(block[..ChunkLength(n, from)] + rest.bytes, rest.ok)
  }

  /** One step of `ReadSpan`: a good block contributes its bytes up to the
   * end of the span, and reading goes on where they end. */
  lemma ReadStep(medium: Medium, start: Address, n: nat, from: nat, next: nat, offset: nat, block: seq<bv8>)
    requires WellFormedMedium(medium) && from < n && next == from + ChunkLength(n, from)
    requires ReadBlock(medium(BlockAddress(start, offset))) == Ok(block)
    ensures var rest := ReadSpan(medium, start, n, next, offset + 1);
      ReadSpan(medium, start, n, from, offset) == ReadResult(block[..next - from] + rest.bytes, rest.ok)
  {
  }

  /** The inner loop of `Read`: copy block bytes into `data` from `from` on,
   * stopping after 512 bytes or at the end of `data`. */
  method CopyBlock(data: array<bv8>, block: seq<bv8>, from: nat) returns (next: nat, finished: bool)
    requires |block| == BlockBufferSize && from < data.Length
    modifies data
    ensures next == from + ChunkLength(data.Length, from)
    ensures data[..from] == old(data[..from]) && data[next..] == old(data[next..])
    ensures data[from..next] == block[..next - from]
    ensures finished <==> next >= data.Length
  {
    ghost var k := ChunkLength(data.Length, from);
    next := from;
    finished := false;
    var index := 0;
    while index < BlockSize
      invariant 0 <= index <= k && next == from + index && next < data.Length
      invariant data[..from] == old(data[..from]) && data[next..] == old(data[next..])
      invariant data[from..next] == block[..index]
    {
      data[next] := block[index];
      next := next + 1;
      if next >= data.Length {
        finished := true;
        assert data[from..next] == block[..index + 1];
        break;
      }
      index := index + 1;
    }
  }

  /** A prefix is the shorter prefix followed by the slice between. */
  lemma SliceSplit(s: seq<bv8>, i: nat, j: nat)
    requires i <= j <= |s|
    ensures s[..j] == s[..i] + s[i..j]
  {
  }

  lemma ConcatAssociates(a: seq<bv8>, b: seq<bv8>, c: seq<bv8>)
    ensures a + (b + c) == (a + b) + c
  {
  }

  /** `Read`: fill `data` from consecutive blocks starting at `start`. On a
   * failed block the call ends with `IoError`; the bytes of the blocks read
   * before it are already in `data`, the rest of `data` is untouched. */
  method Read(start: Address, data: array<bv8>, medium: Medium) returns (outcome: Outcome)
    requires data.Length > 0 && WellFormedMedium(medium)
    modifies data
    ensures var r := ReadSpan(medium, start, data.Length, 0, 0);
      && data[..|r.bytes|] == r.bytes
      && data[|r.bytes|..] == old(data[|r.bytes|..])
      && outcome == (if r.ok then Pass else Fail(IoError))
  {
    ghost var r := ReadSpan(medium, start, data.Length, 0, 0);
    ghost var copied: seq<bv8> := [];
    var bytesRead := 0;
    var finished := false;
    var blockOffset := 0;
    while !finished
      invariant bytesRead <= data.Length && (finished <==> bytesRead == data.Length)
      invariant copied == data[..bytesRead]
      invariant r.bytes == copied + ReadSpan(medium, start, data.Length, bytesRead, blockOffset).bytes
      invariant r.ok == ReadSpan(medium, start, data.Length, bytesRead, blockOffset).ok
      invariant data[bytesRead..] == old(data[bytesRead..])
      decreases data.Length - bytesRead
    {
      var result := ReadBlock(medium(BlockAddress(start, blockOffset)));
      if result.Err? {
        outcome := Fail(IoError);
        return;
      }
      var from := bytesRead;
      bytesRead, finished := CopyBlock(data, result.value, from);
      ReadStep(medium, start, data.Length, from, bytesRead, blockOffset, result.value);
      ghost var piece := result.value[..bytesRead - from];
      ghost var rest := ReadSpan(medium, start, data.Length, bytesRead, blockOffset + 1).bytes;
      SliceSplit(data[..], from, bytesRead);
      ConcatAssociates(copied, piece, rest);
      copied := copied + piece;
      blockOffset := blockOffset + 1;
    }
    outcome := Pass;
  }

  /** Reading back what `Write` sent: when the card returns every block
   * `Write` sent, acknowledged and unchanged, `Read` succeeds and returns
   * exactly the data written, without the padding. */
  lemma {:induction false} WriteThenRead(start: Address, data: seq<bv8>, medium: Medium, from: nat, offset: nat)
    requires WellFormedMedium(medium)
    requires var frames := WriteFrames(start, data, from, offset);
      forall i :: 0 <= i < |frames| ==> medium(frames[i].address) == CardBlock(0, frames[i].bytes)
    ensures from < |data| ==> ReadSpan(medium, start, |data|, from, offset) == ReadResult(data[from..], true)
    decreases |data| - from
  {
    if from < |data| {
      var chunk := Chunk(data, from);
      var block := chunk + CrcBytes(chunk);
      var k := ChunkLength(|data|, from);
      WrittenBlockReads(start, data, medium, from, offset, block);
      ReadStep(medium, start, |data|, from, from + k, offset, block);
      WriteThenRead(start, data, medium, from + k, offset + 1);
      ChunkJoin(data, from, block);
    }
  }

  /** The first block `Write` sent from byte `from` reads back as sent, and
   * the card holds every later block as sent too. */
  lemma WrittenBlockReads(start: Address, data: seq<bv8>, medium: Medium, from: nat, offset: nat, block: seq<bv8>)
    requires WellFormedMedium(medium) && from < |data|
    requires block == Chunk(data, from) + CrcBytes(Chunk(data, from))
    requires var frames := WriteFrames(start, data, from, offset);
      forall i :: 0 <= i < |frames| ==> medium(frames[i].address) == CardBlock(0, frames[i].bytes)
    ensures ReadBlock(medium(BlockAddress(start, offset))) == Ok(block)
    ensures var tail := WriteFrames(start, data, from + ChunkLength(|data|, from), offset + 1);
      forall i :: 0 <= i < |tail| ==> medium(tail[i].address) == CardBlock(0, tail[i].bytes)
  {
    var chunk := Chunk(data, from);
    var k := ChunkLength(|data|, from);
    CrcBytesRoundTrip(chunk);
    FrameOfBlock(start, data, from, from + k, offset, block);
    var frames := WriteFrames(start, data, from, offset);
    var tail := WriteFrames(start, data, from + k, offset + 1);
    assert frames[0] == BlockWrite(BlockAddress(start, offset), block);
    assert forall i :: 0 <= i < |tail| ==> tail[i] == frames[i + 1];
  }

  /** The bytes of a block read back, then the rest of the data. */
  lemma ChunkJoin(data: seq<bv8>, from: nat, block: seq<bv8>)
    requires from < |data| && block == Chunk(data, from) + CrcBytes(Chunk(data, from))
    ensures var k := ChunkLength(|data|, from); block[..k] + data[from + k..] == data[from..]
  {
    var k := ChunkLength(|data|, from);
    assert block[..k] == data[from..from + k];
    assert data[from..] == data[from..from + k] + data[from + k..];
  }

  /** The whole round trip: `Read` of a span the size of the data written
   * returns the data and succeeds. */
  lemma WrittenDataReadsBack(start: Address, data: seq<bv8>, medium: Medium)
    requires |data| > 0 && WellFormedMedium(medium)
    requires var frames := WriteFrames(start, data, 0, 0);
      forall i :: 0 <= i < |frames| ==> medium(frames[i].address) == CardBlock(0, frames[i].bytes)
    ensures ReadSpan(medium, start, |data|, 0, 0) == ReadResult(data, true)
  {
    WriteThenRead(start, data, medium, 0, 0);
    assert data[0..] == data;
  }
}
