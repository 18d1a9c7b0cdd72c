# SJSU-Dev2 hardware abstraction core, modelled in Dafny

This project models the register-access and driver-logic layer that the
SJSU-Dev2 embedded framework's peripheral drivers share, and proves properties
of that model. Each Dafny module follows one C++ header:

- `Lifecycle` (`lifecycle.dfy`): the `sjsu::Module` life cycle. It has five
  states, and `Initialize` and `Enable` move between them only when a guard
  allows it, calling the driver's `ModuleInitialize` / `ModuleEnable` hooks.
- `Bits` and `BitExamples` (`bits.dfy`, `bit_examples.dfy`): the bit-field
  algebra (`MaskFromRange`, `Extract`, `Insert`, `Set`, `Clear`, `Toggle`,
  `Read`, `SignedExtract`, `StreamExtract`). It is stated on unbounded naturals
  kept below `2^size`, and it is checked against the worked examples of the
  bit unit tests.
- `MemoryAccess` (`memory_access.dfy`): register address encoding and
  endian-aware integer and array reads and writes. It also covers the
  one-byte-address mock backed by a 256-byte array, the I2C transport's
  buffer bound, and the register overlap check.
- `I2c` (`i2c.dfy`): the transaction record, the address/direction byte
  (section 3.1.10 of the NXP I2C-bus specification UM10204), and the
  transaction builders.
- `Lpc40xxI2c` (`lpc40xx_i2c.dfy`): the LPC40xx interrupt handler as a step
  function over the transaction and the controller's control register and
  `DAT` writes. It includes runs of interrupts, full write and read
  transactions, and the error rules of `BlockUntilFinished`.
- `Can` (`can.dfy`): `Message_t` and its payload copy, the send helpers, the
  inactive peripheral, and `CanNetwork`'s table of captured ids, each holding
  the latest message.
- `Stm32f10xUart` (`stm32f10x_uart.dfy`): the DMA receive ring (write
  position, `HasData`, `Read`, `Flush`), the frame-format and baud-rate
  register encodings, and the driver's set-up checks.
- `Stm32f10xSystemController` (`stm32f10x_system_controller.dfy`):
  peripheral power bits, the clock-tree rates and flash wait states that
  `Initialize` computes, and `GetClockRate`. Rates are `hertz_t`, a
  floating-point quantity, so they are modelled as exact non-negative reals
  and the divisions by 3 and 6 keep their fractions.
- `FirmwareSd` (`firmware_sd.dfy`): the SD card driver of the firmware tree.
  It covers the CRC-7 and CRC-16 table generators and the table-driven CRCs,
  which are related to the bit-serial registers of section 4.5 of the SD
  Physical Layer Simplified Specification. It also covers command framing,
  response lengths and the status a block read returns. The CRC-error flag
  that status should carry is lost as written (Findings row 9).
- `Sd` (`sd.dfy`): the SD card driver of the library tree. It covers response
  lengths, the R1 acknowledgement, the SPI command frame, the voltage check,
  the capacity from the CSD, the CRC-16 trailer of a block, and the splitting
  of `Write` and `Read` into 512-byte blocks. The token wait before a data
  block never returns on the start token as written, so every read fails
  (Findings row 8). The model keeps that wait and the intended one, and it
  proves that written data reads back through the intended driver.
- `St7066u` (`st7066u.dfy`): the ST7066U character LCD driver. Every call is
  modelled as the trace of pin and bus writes it makes, and a reference
  receiver shows that the controller gets the intended command and data
  bytes in 4-bit and in 8-bit mode.
- `Commandline` (`commandline.dfy`): the command list with its fixed
  capacity, exact-name dispatch and prefix tab completion into the 32-entry
  completion array.
- `Infrared` (`infrared.dfy`): the pulse-duration frame decoder. It is
  proved against a transmitter model, so an encoded frame decodes to its
  bits.

Shared definitions live in `Wrappers` (`wrappers.dfy`): `Option`, `Result`,
`Outcome` and the `std::errc` codes the drivers report.

Where the specification of the system and its code differ, the model follows
the code. Examples:
- the module states are the code's `kReset`, `kInitialized`, `kEnabled`,
  `kDisabled` and `kCritical`;
- the internal-oscillator clock preset's comment says the ADC runs at
  12 MHz, but the code's divider by 6 gives 32/3 MHz (about 10.67 MHz), and
  `MaximumClockSpeedInternalRates` states the latter.

Where the code itself is evidently wrong ("## Findings"), the model keeps the
code as written in a member named for it (`...AsWritten`, or a lemma showing
the failing input) and builds the rest of the driver on the corrected
definition. These members therefore compute the intended behaviour, not the
code's:
- `FirmwareSd.Crc7`, `FirmwareSd.GetCrc7` and the CRCs built on them use the
  complete CRC-7 table (row 1); the table as generated, with entry 255 left
  0, is `FirmwareSd.GenerateCrc7Table` and `FirmwareSd.Crc7AsWritten`;
- `FirmwareSd.CommandCode`, `FirmwareSd.CommandMessage` and
  `FirmwareSd.CommandFrame` send 0x4D for kGetStatus (row 2); the enumerator
  as written is `FirmwareSd.CommandCodeAsWritten`;
- `MemoryAccess.I2cWrite` refuses only what does not fit and sends the
  address and value alone (rows 3 and 4); the code as written is
  `MemoryAccess.I2cWriteAsWritten`;
- `St7066u` requires cursor lines below 4 (`ValidPosition`, row 5); the
  guard as written is `St7066u.CursorGuardAsWritten`;
- `St7066u.Display.DisplayText` writes `DisplayedLength` characters (row 6);
  the `uint8_t` length is `St7066u.DisplayedLengthAsWritten`;
- `Commandline.CommandLine.CollectMatches` and `Commandline.Completions`
  store at most 31 names (row 7); the unbounded loop is
  `Commandline.TerminatorIndexAsWritten`;
- `Sd.ReadBlock`, `Sd.Read` and the read-back lemmas assume the intended
  token wait (row 8); the wait as written is `Sd.WaitToReadBlockAsWritten`.
- `FirmwareSd.ReadStatus` keeps the CRC-error flag in the status a block
  read returns (row 9); the read as written, which returns the last CMD13
  status instead, is `FirmwareSd.ReadStatusAsWritten`.

## Model

| member | source | states |
|---|---|---|
| Lifecycle.InitializeStep | library/module.hpp:95-102 | only a module in Reset calls ModuleInitialize; a normal return moves it to Initialized, an exception leaves it in Reset and is the outcome; any other state is a no-op |
| Lifecycle.EnableStep | library/module.hpp:136-164 | Enable(true) from Initialized or Disabled and Enable(false) from Enabled call ModuleEnable; the state changes iff the transition is allowed and the hook returns, to Enabled or Disabled; every other call makes no hook call |
| Lifecycle.Module.constructor | library/module.hpp:296-298 | a new module is in Reset and has made no hook call |
| Lifecycle.Module.SetState | library/module.hpp:184-187 | the state becomes the given one, nothing else changes |
| Lifecycle.Module.GetState | library/module.hpp:166-170 | the state returned is the one the predicates test: each IsX holds exactly when it is state X, and RequiresConfiguration exactly when it comes before kEnabled |
| Lifecycle.Module.Initialize | library/module.hpp:95-102 | the new state, the hook trace and the outcome are those of InitializeStep |
| Lifecycle.Module.Enable | library/module.hpp:136-164 | the new state, the hook trace and the outcome are those of EnableStep |
| Lifecycle.InitializeConsistent | library/module.hpp:95-102 | Initialize keeps a trace from Reset consistent (never Critical, at most one successful ModuleInitialize, enables after it, alternating) |
| Lifecycle.EnableConsistent | library/module.hpp:136-164 | Enable keeps a trace from Reset consistent |
| Lifecycle.ApplyConsistent | library/module.hpp:95-164 | either call keeps a trace consistent |
| Lifecycle.RunConsistent | library/module.hpp:95-164 | every sequence of calls from Reset ends in a consistent state and trace |
| Lifecycle.RunOrder | library/module.hpp:86-102 | from Reset, Initialize and Enable never reach Critical, ModuleInitialize succeeds at most once, and every ModuleEnable call comes after a successful ModuleInitialize |
| Lifecycle.EnableAfterInitializeAt | library/module.hpp:136-139 | in a trace where enables follow initialization, each enable hook at index i has a successful ModuleInitialize before it |
| Lifecycle.RunEnablesAlternate | library/module.hpp:138-142 | successful enables and disables alternate starting with enable, and the module is Enabled iff their number is odd |
| Lifecycle.InitializeIdempotent | library/module.hpp:86-88 | after a successful Initialize a second one calls no hook and changes nothing |
| Lifecycle.EnableIdempotent | library/module.hpp:138-144 | repeating a successful Enable or Enable(false) calls no hook and changes nothing |
| Lifecycle.FailedHookKeepsState | library/module.hpp:146-152 | a hook that throws leaves the state unchanged, for both calls |
| Lifecycle.Module.IsReset | library/module.hpp:192-195 | true exactly in state kReset (enumeration value 0), a state that requires configuration |
| Lifecycle.Module.RequiresConfiguration | library/module.hpp:204-207 | true exactly when the state comes before kEnabled in the enumeration, that is before the state is enabled or beyond |
| Lifecycle.Module.IsInitialized | library/module.hpp:212-215 | true exactly in state kInitialized (value 1), a state that requires configuration |
| Lifecycle.Module.IsEnabled | library/module.hpp:220-223 | true exactly in state kEnabled (value 2), which no longer requires configuration |
| Lifecycle.Module.IsDisabled | library/module.hpp:228-231 | true exactly in state kDisabled (value 3), which no longer requires configuration |
| Lifecycle.Module.IsCritical | library/module.hpp:236-239 | true exactly in state kCritical (value 4), which no longer requires configuration |
| Lifecycle.RequiresConfigurationUntilEnabled | library/module.hpp:204-207 | RequiresConfiguration (Reset or Initialized) holds exactly until the first successful ModuleEnable |
| Lifecycle.AppendOne | library/module.hpp:95-164 | extending a hook trace by one call updates the enable list, the initialization count and the ordering predicate by that call alone |
| Lifecycle.AlternatingAppend | library/module.hpp:138-142 | appending the flag of the right parity keeps enables alternating |
| Bits.MaskFromRange | library/utility/math/test/bit_test.cpp:12-32 | the field of MaskFromRange(low, high) starts at `low` and covers exactly the bits low..high, so its width is high - low + 1 |
| Bits.MaskFromBit | library/utility/math/test/bit_test.cpp:34-50 | the single-bit form covers exactly that one bit (width 1) |
| Bits.Extract | library/utility/math/test/bit_test.cpp:54-112 | the extracted field is below 2^width |
| Bits.ExtractBit | library/utility/math/test/bit_test.cpp:54-112 | bit j of Extract(v, position, width) is bit position + j of v when j < width and 0 otherwise, so bits past the register read as 0 |
| Bits.ExtractIsDivMod | library/utility/math/test/bit_test.cpp:54-112 | Extract(v, position, width) is (v >> position) mod 2^width |
| Bits.Insert | library/utility/math/test/bit_test.cpp:115-147 | the result fits in the register width |
| Bits.InsertIsArith | library/utility/math/test/bit_test.cpp:115-147 | Insert is the shift-and-mask arithmetic: the high part of the target, the value mod 2^width, then the low part of the target, truncated to the register |
| Bits.InsertBit | library/utility/math/test/bit_test.cpp:129-137 | every bit inside the field is the corresponding bit of the value truncated to the field width, every bit outside it is the target's |
| Bits.InsertThenExtract | library/utility/math/test/bit_test.cpp:115-147 | extracting a field just inserted gives the value truncated to the field width |
| Bits.InsertKeepsOtherField | library/utility/math/test/bit_test.cpp:129-137 | inserting a field leaves every disjoint field unchanged |
| Bits.ExtractThenInsert | library/utility/math/test/bit_test.cpp:115-147 | writing a field back with its own contents leaves the register unchanged |
| Bits.Set | library/utility/math/test/bit_test.cpp:275-291 | the result fits the register and has bit b set |
| Bits.Clear | library/utility/math/test/bit_test.cpp:294-310 | the result fits the register and has bit b clear |
| Bits.Toggle | library/utility/math/test/bit_test.cpp:313-326 | the result fits the register and bit b is the inverse of the target's |
| Bits.SetBit | library/utility/math/test/bit_test.cpp:275-291 | Set makes bit b 1 and leaves every other bit unchanged |
| Bits.ClearBit | library/utility/math/test/bit_test.cpp:294-310 | Clear makes bit b 0 and leaves every other bit unchanged |
| Bits.ToggleBit | library/utility/math/test/bit_test.cpp:313-326 | Toggle inverts bit b and leaves every other bit unchanged |
| Bits.ToggleTwice | library/utility/math/test/bit_test.cpp:313-326 | toggling the same bit twice restores the register |
| Bits.BitIsDigit | library/utility/math/test/bit_test.cpp:329-358 | Read(v, b) is true iff the binary digit of v at place 2^b is 1 |
| Bits.SignedExtract | library/utility/math/test/bit_test.cpp:150-177 | the result lies in the two's-complement range of width - 1 bits and agrees with the field on those bits, which determines it |
| Bits.ExtractNarrower | library/utility/math/test/bit_test.cpp:150-177 | dropping the top bit of a field keeps its low width - 1 bits |
| Bits.StreamExtract | library/utility/math/test/bit_test.cpp:361-493 | the field extracted from a byte stream is below 2^width |
| Bits.StreamExtractBit | library/utility/math/test/bit_test.cpp:361-493 | bit j of the field is bit (position + j) mod 8 of the byte holding stream bit position + j (the last byte holds bits 0-7 in little endian, the first in big endian); bits past the field or the stream are 0 |
| Bits.StreamValueTwo | library/utility/math/test/bit_test.cpp:405-490 | a two-byte stream reads as 256·first + second in little endian and 256·second + first in big endian |
| BitExamples.ExtractLowNibbleExample | library/utility/math/test/bit_test.cpp:58 | Extract(0b1111, 2, 4) == 0b0011 |
| BitExamples.ExtractAboveNibbleExample | library/utility/math/test/bit_test.cpp:61 | Extract(0b1111, 4, 4) == 0 |
| BitExamples.ExtractBitZeroExample | library/utility/math/test/bit_test.cpp:64 | Extract(0b1111, 0, 1) == 1 |
| BitExamples.ExtractTopByteExample | library/utility/math/test/bit_test.cpp:67 | Extract(0xAA000000, 24, 8) == 0xAA |
| BitExamples.ExtractMiddleExample | library/utility/math/test/bit_test.cpp:70 | Extract(0xFFFFFFFF, 15, 16) == 0xFFFF |
| BitExamples.ExtractPastTopExample | library/utility/math/test/bit_test.cpp:73 | Extract(0xFFFFFFFF, 31, 16) == 1: bits past bit 31 read as 0 |
| BitExamples.ExtractLowHalfExample | library/utility/math/test/bit_test.cpp:76 | Extract(0xDEADBEEF, 0, 16) == 0xBEEF |
| BitExamples.ExtractHighHalfExample | library/utility/math/test/bit_test.cpp:79 | Extract(0xDEADBEEF, 16, 16) == 0xDEAD |
| BitExamples.ExtractByteExample | library/utility/math/test/bit_test.cpp:82 | Extract(0xDEADBEEF, 16, 8) == 0xAD |
| BitExamples.Extract64Example | library/utility/math/test/bit_test.cpp:145-147 | the 64-bit register 0x1001000000000000 has 0x1001 in bits 48-63 |
| BitExamples.InsertTwoBitsExample | library/utility/math/test/bit_test.cpp:117 | Insert(0, 0b11, 5, 2) == 0b01100000 |
| BitExamples.InsertThreeBitsExample | library/utility/math/test/bit_test.cpp:120 | Insert(0, 0b111, 1, 3) == 0b1110 |
| BitExamples.InsertNibbleExample | library/utility/math/test/bit_test.cpp:123 | Insert(0, 0b1111, 0, 4) == 0b1111 |
| BitExamples.InsertTopByteExample | library/utility/math/test/bit_test.cpp:126 | Insert(0, 0xAB, 24, 8) == 0xAB000000 |
| BitExamples.InsertMiddleExample | library/utility/math/test/bit_test.cpp:129 | Insert(0xD00DBEEF, 0xEA, 20, 8) == 0xDEADBEEF |
| BitExamples.InsertLowHalfExample | library/utility/math/test/bit_test.cpp:133 | Insert(0xDEADDEAD, 0xBEEF, 0, 16) == 0xDEADBEEF |
| BitExamples.InsertMidByteExample | library/utility/math/test/bit_test.cpp:137 | Insert(0b10100101, 0b1111, 2, 4) == 0b10111101 |
| BitExamples.InsertSignedExample | library/utility/math/test/bit_test.cpp:140-143 | inserting the int8_t 0xCD (-51) into bits 4-11 of 0xAAAABBBB gives 0xAAAABCDB |
| BitExamples.Insert64Example | library/utility/math/test/bit_test.cpp:269-272 | Insert(0x1001000000000000, 0xABCD, 32, 16) == 0x1001ABCD00000000 |
| BitExamples.SetBitFourExample | library/utility/math/test/bit_test.cpp:277 | Set(0b1111, 4) == 0b11111 |
| BitExamples.SetTopBitExample | library/utility/math/test/bit_test.cpp:280 | Set(0x7FFFFFFF, 31) == 0xFFFFFFFF |
| BitExamples.SetBitZeroExample | library/utility/math/test/bit_test.cpp:283 | Set(0, 0) == 1 |
| BitExamples.SetBitThreeExample | library/utility/math/test/bit_test.cpp:286 | Set(0b10000001, 3) == 0b10001001 |
| BitExamples.Set64Example | library/utility/math/test/bit_test.cpp:289-290 | Set(0x1000000000000000, 48) == 0x1001000000000000 |
| BitExamples.ClearBitFourExample | library/utility/math/test/bit_test.cpp:296 | Clear(0b11111, 4) == 0b1111 |
| BitExamples.ClearTopBitExample | library/utility/math/test/bit_test.cpp:299 | Clear(0xFFFFFFFF, 31) == 0x7FFFFFFF |
| BitExamples.ClearBitZeroExample | library/utility/math/test/bit_test.cpp:302 | Clear(1, 0) == 0 |
| BitExamples.ClearBitThreeExample | library/utility/math/test/bit_test.cpp:305 | Clear(0b10001001, 3) == 0b10000001 |
| BitExamples.Clear64Example | library/utility/math/test/bit_test.cpp:308-309 | Clear(0x1001000000000000, 48) == 0x1000000000000000 |
| BitExamples.ClearNibbleTopExample | library/utility/math/test/bit_test.cpp:315 | Clear(0b1111, 3) == 0b111 |
| BitExamples.ClearWordBitZeroExample | library/utility/math/test/bit_test.cpp:318 | Clear(0xFFFFFFFF, 0) == 0xFFFFFFFE |
| BitExamples.ToggleExample | library/utility/math/test/bit_test.cpp:324-325 | Toggle(0x1001000000000000, 49) == 0x1003000000000000 |
| BitExamples.ReadNibbleExamples | library/utility/math/test/bit_test.cpp:331-340 | Read(0b1111, 3), not Read(0b01111, 4), Read(1, 0), not Read(0, 0) |
| BitExamples.ReadWordExamples | library/utility/math/test/bit_test.cpp:343-349 | Read(0x80000000, 31), not Read(0x80000000, 5), not Read(0, 31) |
| BitExamples.Read64Examples | library/utility/math/test/bit_test.cpp:352-357 | bit 48 of 0x1000000000000 is set and bit 49 is not |
| BitExamples.SignedExtractNegativeExample | library/utility/math/test/bit_test.cpp:152-160 | SignedExtract(0x00FC9000, MaskFromRange(12, 24)) == -55 |
| BitExamples.SignedExtractWideExample | library/utility/math/test/bit_test.cpp:162-165 | SignedExtract(0x00FB2E00, MaskFromRange(8, 24)) == -1234 |
| BitExamples.SignedExtractShiftedExample | library/utility/math/test/bit_test.cpp:167-171 | the same value and mask shifted right by 3 still give -1234 |
| BitExamples.SignedExtractPositiveExample | library/utility/math/test/bit_test.cpp:173-176 | SignedExtract(0x04D00000, MaskFromRange(20, 28)) == 77 |
| BitExamples.StreamExtractExamples | library/utility/math/test/bit_test.cpp:398-490 | bits 2-5 of the byte 0b00111100 are 0b1111 in either byte order; the 8-bit field at bit 4 of a two-byte stream crossing the byte boundary is 0b01111110 in either byte order |
| MemoryAccess.ToBytesRoundTrip | library/devices/memory_access_protocol.hpp:131-137 | converting the low n bytes of a value to a byte array in either byte order and back gives the value mod 256^n |
| MemoryAccess.FromBytesRoundTrip | library/devices/memory_access_protocol.hpp:266-278 | decoding bytes to an integer and re-encoding to the same length gives the bytes back, in either byte order |
| MemoryAccess.LittleRoundTrip | library/devices/memory_access_protocol.hpp:135-136 | least-significant-first encoding of n bytes decodes to the value mod 256^n |
| MemoryAccess.LittleValueRoundTrip | library/devices/memory_access_protocol.hpp:277 | a byte sequence decoded least-significant-first re-encodes to itself |
| MemoryAccess.ReverseReverse | library/devices/memory_access_protocol.hpp:135-136 | reversing a byte sequence twice gives it back, so the two byte orders convert into each other |
| MemoryAccess.MakeAddress | library/devices/memory_access_protocol.hpp:131-137 | the Address keeps the register width and the low address-width bytes of the 32-bit location, decoding back to location mod 256^width, with the low byte first (little endian) or last (big endian) |
| MemoryAccess.RegisterSize | library/devices/memory_access_protocol.hpp:193-272 | an access moves min(width, 8) bytes |
| MemoryAccess.IntegerPayload | library/devices/memory_access_protocol.hpp:187-199 | an integer assignment sends exactly min(width, 8) bytes, which decode in the device's byte order to the value (two's complement in 64 bits) mod 256^min(width, 8) |
| MemoryAccess.AsType | library/devices/memory_access_protocol.hpp:264-278 | a value converted to an integer type is congruent to it modulo 256^size and lies in the type's range: 0 to 256^size - 1 unsigned, -256^size/2 to 256^size/2 - 1 (two's complement) signed |
| MemoryAccess.IntegerValue | library/devices/memory_access_protocol.hpp:266-278 | an integer read returns the received bytes decoded in the device's byte order and converted to the integer type: unsigned in 0..256^size - 1, signed in its two's-complement range, congruent to the received value either way |
| MemoryAccess.SignedByteExample | library/devices/memory_access_protocol.hpp:266-278 | the byte 0xFF reads as -1 for int8_t, 255 for uint8_t and 255 for int16_t |
| MemoryAccess.IntegerRoundTrip | library/devices/memory_access_protocol.hpp:187-278 | reading back an integer write gives a value congruent to the written one modulo 256^min(register size, type size), and for an unsigned type exactly the written value kept to that many bytes |
| MemoryAccess.SignedRoundTrip | library/devices/memory_access_protocol.hpp:187-278 | a value in the range of a signed type no wider than the register reads back unchanged, negative values included |
| MemoryAccess.ModOfNarrower | library/devices/memory_access_protocol.hpp:191-196 | keeping n bytes and then t bytes keeps min(n, t) bytes |
| MemoryAccess.ArrayPayload | library/devices/memory_access_protocol.hpp:232-246 | an array assignment sends |values| · sizeof(T) bytes |
| MemoryAccess.ArrayPayloadAppend | library/devices/memory_access_protocol.hpp:237-243 | one more element appends its own endian-converted bytes |
| MemoryAccess.EncodeArray | library/devices/memory_access_protocol.hpp:235-245 | the element loop builds exactly ArrayPayload: each element converted in the device's byte order, in order |
| MemoryAccess.ArrayValues | library/devices/memory_access_protocol.hpp:290-295 | an array read yields |bytes| / size elements, each decoded from its own group of bytes and below 256^size |
| MemoryAccess.ArrayValuesCons | library/devices/memory_access_protocol.hpp:290-295 | the first group of bytes decodes to the first element |
| MemoryAccess.FitsRoundTrip | library/devices/memory_access_protocol.hpp:239-294 | a value that fits in n bytes survives encoding and decoding |
| MemoryAccess.ArrayRoundTrip | library/devices/memory_access_protocol.hpp:232-295 | reading back an array write returns every element that fits its type |
| MemoryAccess.Splice | library/devices/memory_access_protocol.hpp:415-421 | copying a payload into memory from index a puts the payload at a..a+n and leaves every other byte unchanged |
| MemoryAccess.SpliceOverwrite | library/devices/memory_access_protocol.hpp:415-421 | a later write over the same bytes replaces an earlier one |
| MemoryAccess.SpliceCommute | library/devices/memory_access_protocol.hpp:415-421 | writes to disjoint byte ranges commute |
| MemoryAccess.MockProtocol.constructor | library/devices/memory_access_protocol.hpp:406-413 | the mock's memory map is a fresh 256-byte array holding the configured contents |
| MemoryAccess.MockProtocol.Write | library/devices/memory_access_protocol.hpp:415-421 | the memory map becomes the old map with the payload copied in from address[0]; no other byte changes |
| MemoryAccess.MockProtocol.Read | library/devices/memory_access_protocol.hpp:423-429 | the result is the n bytes of the memory map from address[0] on |
| MemoryAccess.WriteThenRead | library/devices/memory_access_protocol.hpp:415-429 | a read after a write at the same address and length returns the written payload |
| MemoryAccess.AccessHandler.constructor | library/devices/memory_access_protocol.hpp:153-157 | the handler is bound to the given memory map and register |
| MemoryAccess.AccessHandler.WriteInteger | library/devices/memory_access_protocol.hpp:187-199 | the memory map gets IntegerPayload spliced in at the register's address |
| MemoryAccess.AccessHandler.ReadInteger | library/devices/memory_access_protocol.hpp:266-278 | the result is IntegerValue, for the requested signed or unsigned type, of the min(width, 8) bytes at the register's address |
| MemoryAccess.AccessHandler.WriteThenReadInteger | library/devices/memory_access_protocol.hpp:187-278 | writing an integer to a register and reading it back gives a value congruent to it modulo 256^min(register size, type size): the value kept to that many bytes for an unsigned type, and the value itself for a signed type the register holds whole when the value is in its range |
| MemoryAccess.I2cWriteAsWritten | library/devices/memory_access_protocol.hpp:458-478 | as written: refused with not_enough_memory iff address + value sizes reach the buffer size (4 + MaximumPayloadSize); otherwise the whole buffer is sent, address then value then leftover bytes |
| MemoryAccess.I2cWriteRejectsExactFit | library/devices/memory_access_protocol.hpp:464 | a 4-byte address with a 1-byte value fits the 5-byte buffer exactly and is still refused |
| MemoryAccess.I2cWriteSendsStaleBytes | library/devices/memory_access_protocol.hpp:472-477 | a 1-byte address with a 1-byte value sends 5 bytes, 3 of them uninitialised |
| MemoryAccess.I2cWrite | library/devices/memory_access_protocol.hpp:458-478 | corrected: refused iff the bytes do not fit the buffer, and otherwise exactly address followed by value is sent |
| MemoryAccess.I2cWriteAcceptsWhatFits | library/devices/memory_access_protocol.hpp:461-462 | any address up to the 4-byte limit with a value up to MaximumPayloadSize is sent unchanged |
| MemoryAccess.NoRegistersOverlap | library/devices/memory_access_protocol.hpp:499-517 | true iff each register's address is at least the previous address plus its width (the running end kept in 32 bits) |
| MemoryAccess.InOrderExtend | library/devices/memory_access_protocol.hpp:507-515 | one more register that starts after the previous end keeps the list in order |
| MemoryAccess.InOrderStop | library/devices/memory_access_protocol.hpp:510-513 | a register that starts before the previous end breaks the order |
| MemoryAccess.InOrderDisjoint | library/devices/memory_access_protocol.hpp:499-517 | when no register crosses the end of the 32-bit space, a list that passes is sorted and pairwise disjoint |
| I2c.DefaultTransaction | library/peripherals/i2c.hpp:103-140 | a default Transaction_t is a write to address 0xFF with no buffers, position 0, not busy, not repeated, a 100 ms timeout and a zero status |
| I2c.ProperAddress | library/peripherals/i2c.hpp:86-94 | the byte after START carries the low 7 address bits above bit 0, and bit 0 is set iff the operation is a read (section 3.1.10 of UM10204) |
| I2c.ShiftedAddress | library/peripherals/i2c.hpp:88 | `address << 1` kept to 8 bits is twice the low 7 address bits |
| I2c.ProperAddressInjective | library/peripherals/i2c.hpp:86-94 | two 7-bit transactions that send the same address byte have the same address and direction |
| I2c.Timeout | library/peripherals/i2c.hpp:44 | an omitted timeout is 100 ms, a given one is passed on |
| I2c.ReadTransaction | library/peripherals/i2c.hpp:163-180 | Read builds a kRead transaction with no output, in_length = length, position 0, not repeated, busy |
| I2c.WriteTransaction | library/peripherals/i2c.hpp:203-220 | Write builds a kWrite transaction with out_length = length, no input, position 0, not repeated, busy |
| I2c.WriteThenReadTransaction | library/peripherals/i2c.hpp:272-291 | WriteThenRead builds a kWrite transaction with both buffers and lengths, repeated, busy |
| I2c.ReadSpan | library/peripherals/i2c.hpp:188-193 | the span overload passes the span's contents and size through |
| I2c.WriteSpan | library/peripherals/i2c.hpp:232-255 | the initializer-list and span overloads pass the contents and size through |
| I2c.WriteThenReadList | library/peripherals/i2c.hpp:306-318 | the initializer-list overload passes the list's size as out_length and the receive buffer through |
| I2c.WriteThenReadSpan | library/peripherals/i2c.hpp:332-343 | the span overload passes both spans' sizes through |
| Can.EmptyMessage | library/peripherals/can.hpp:65-83 | a value-initialised Message_t has id 0, no remote request, length 0, standard format, an all-zero payload and the uptime it was built at |
| Can.SetPayload | library/peripherals/can.hpp:89-93 | length becomes min(8, data size), exactly that many bytes are copied to the front of the payload, and the other payload bytes and every other field are kept |
| Can.SetPayloadContents | library/peripherals/can.hpp:89-93 | data of at most 8 bytes is carried whole; longer data keeps only its first 8 bytes |
| Can.SendMessage | library/peripherals/can.hpp:133-157 | both Send(id, payload) helpers send one standard data message with that id, the payload truncated to 8 bytes, and zeros after it |
| Can.InactiveCan.Send | library/peripherals/can.hpp:168 | sending on the inactive Can has no effect |
| Can.InactiveCan.Receive | library/peripherals/can.hpp:169-172 | the inactive Can receives an empty message |
| Can.InactiveCan.HasData | library/peripherals/can.hpp:173-176 | the inactive Can never has data |
| Can.InactiveCan.SelfTest | library/peripherals/can.hpp:177-180 | the inactive Can's self test passes |
| Can.InactiveCan.IsBusOff | library/peripherals/can.hpp:181-184 | the inactive Can's bus is never off |
| Can.Store | library/peripherals/can.hpp:394-401 | a received message overwrites the node of its id when that id was captured; otherwise it is dropped; the set of ids and every other node are unchanged |
| Can.Deliver | library/peripherals/can.hpp:374-401 | a sequence of received messages never adds or removes an id |
| Can.DeliverKeepsLatest | library/peripherals/can.hpp:394-401 | after any sequence of received messages, a captured id's node holds the latest message with that id, or what it held before when none came |
| Can.QueuedCan.constructor | library/peripherals/can.hpp:104-109 | the peripheral's receive queue holds the given messages |
| Can.QueuedCan.Receive | library/peripherals/can.hpp:104 | Receive pops the front of the receive queue |
| Can.CanNetwork.constructor | library/peripherals/can.hpp:294-297 | a new network has an empty id table and listens to the given peripheral |
| Can.CanNetwork.Latest | library/peripherals/can.hpp:230-257 | SecureGet returns the node's message, which in a consistent table (every node holds a message with its own id or its initial empty message; kept by the constructor, CaptureMessage and ReceiveHandler) has the requested id or is empty |
| Can.CanNetwork.CaptureMessage | library/peripherals/can.hpp:322-345 | an id not yet captured gets a node holding an empty message, a captured id keeps its node and message; when a new node is needed and the memory resource is exhausted, bad_alloc is raised and the table is unchanged |
| Can.CanNetwork.ReceiveHandler | library/peripherals/can.hpp:374-401 | with no data nothing is received and the table is unchanged; otherwise one message is popped and stored as Store says |
| Lpc40xxI2c.ControlBit | library/peripherals/lpc40xx/i2c.hpp:91-250 | each control flag the handler sets or clears occupies its own bit, 2 to 6 |
| Lpc40xxI2c.ControlBitsDistinct | library/peripherals/lpc40xx/i2c.hpp:91-250 | distinct flags have distinct bits |
| Lpc40xxI2c.StateOf | library/peripherals/lpc40xx/i2c.hpp:93-96 | the state named for a STAT value has that value as its code |
| Lpc40xxI2c.Step | library/peripherals/lpc40xx/i2c.hpp:91-250 | every handler call clears the SI interrupt flag, never changes the request fields (address, buffers, lengths, repeated, timeout), advances the position by at most one, and is fatal exactly for a status code without a case |
| Lpc40xxI2c.Dispatch | library/peripherals/lpc40xx/i2c.hpp:96-244 | the per-status switch keeps the request fields and is fatal exactly for an unknown status |
| Lpc40xxI2c.BusErrorStep | library/peripherals/lpc40xx/i2c.hpp:98-103 | a bus error records io_error and sets AA and STO |
| Lpc40xxI2c.StartSendsAddress | library/peripherals/lpc40xx/i2c.hpp:104-114 | START writes GetProperAddress to DAT; a repeated START first switches the operation to kRead, so the byte has the read bit |
| Lpc40xxI2c.AddressWriteAckStep | library/peripherals/lpc40xx/i2c.hpp:115-129 | after an acknowledged write address, with no output busy is cleared and STO set; otherwise DAT = data_out[position] and position is incremented; STA is cleared either way |
| Lpc40xxI2c.LastByteWrittenStep | library/peripherals/lpc40xx/i2c.hpp:138-154 | after the last written byte, a repeated transaction switches to kRead with position 0 and sets STA; otherwise busy is cleared and STO set |
| Lpc40xxI2c.AddressNackStep | library/peripherals/lpc40xx/i2c.hpp:130-199 | an address NACK (0x20 or 0x48) clears busy, records no_such_device_or_address and sets STO |
| Lpc40xxI2c.DataReadAckStep | library/peripherals/lpc40xx/i2c.hpp:200-221 | an acknowledged data byte is stored only while position < in_length, and AA and busy are cleared once position + 1 >= in_length |
| Lpc40xxI2c.Apply | library/peripherals/lpc40xx/i2c.hpp:91-250 | one handler call on the bus is defined exactly when it indexes inside the buffers |
| Lpc40xxI2c.RunAppend | library/peripherals/lpc40xx/i2c.hpp:91-250 | handling two runs of interrupts in turn is handling their concatenation |
| Lpc40xxI2c.RunPrefix | library/peripherals/lpc40xx/i2c.hpp:91-250 | a run that stays inside the buffers does so at every prefix |
| Lpc40xxI2c.SendBytes | library/peripherals/lpc40xx/i2c.hpp:155-159 | k data-ACK interrupts while bytes remain send the next k bytes of data_out, in order |
| Lpc40xxI2c.WriteRun | library/peripherals/lpc40xx/i2c.hpp:104-161 | a fully acknowledged write sends the address byte then the out_length bytes in order; a plain write ends not busy with STO, a write-then-read switches to kRead at position 0 with STA pending |
| Lpc40xxI2c.ReceiveBytes | library/peripherals/lpc40xx/i2c.hpp:200-221 | acknowledged bytes are stored in order from the current position |
| Lpc40xxI2c.ReadRun | library/peripherals/lpc40xx/i2c.hpp:104-233 | a read of n bytes sends only the address byte (read bit set), fills the first n bytes of the buffer with the received bytes in order, and ends with STO and busy cleared |
| Lpc40xxI2c.WriteThenReadRun | library/peripherals/lpc40xx/i2c.hpp:104-233 | a fully acknowledged write-then-read sends the address byte, the out_length bytes and the address byte again with the read bit, fills the first in_length bytes of the receive buffer in order, and ends in kRead with STO and busy cleared |
| Lpc40xxI2c.ReadBusyClearsBeforeLastByte | library/peripherals/lpc40xx/i2c.hpp:211-215 | busy is already cleared when the second-to-last byte of a read has been stored, before the last byte arrives |
| Lpc40xxI2c.Finish | library/peripherals/lpc40xx/i2c.hpp:347-385 | BlockUntilFinished fails with operation_not_permitted on a disabled bus, then with a recorded io_error or no_such_device_or_address, then with timed_out for a still-busy transaction lacking output or input; otherwise it passes |
| Lpc40xxI2c.WriteThenReadTimeoutPasses | library/peripherals/lpc40xx/i2c.hpp:371-380 | a write-then-read still busy when the wait ends is not reported as a timeout |
| Lpc40xxI2c.WriteTransactionPasses | library/peripherals/i2c.hpp:250-255 | a write built by the span helper and fully acknowledged sends the address byte and the data and passes |
| Lpc40xxI2c.Controller.constructor | library/peripherals/lpc40xx/i2c.hpp:256 | a new bus has no control flag set, the default transaction and no DAT writes |
| Lpc40xxI2c.Controller.Initialize | library/peripherals/lpc40xx/i2c.hpp:275-279 | ModuleInitialize clears AA, STA, STO and SI and then sets I2EN; the transaction is untouched |
| Lpc40xxI2c.Controller.PowerDown | library/peripherals/lpc40xx/i2c.hpp:288-295 | ModulePowerDown clears I2EN only |
| Lpc40xxI2c.Controller.Handler | library/peripherals/lpc40xx/i2c.hpp:91-250 | the transaction, DAT writes and control register become those Step computes, CONSET applied before CONCLR |
| Lpc40xxI2c.Controller.Serve | library/peripherals/lpc40xx/i2c.hpp:357-361 | the interrupts during the wait leave the bus in the state Run computes |
| Lpc40xxI2c.Controller.Conclude | library/peripherals/lpc40xx/i2c.hpp:363-385 | the outcome is Finish on an enabled bus; a still-busy transaction not reported as an error gets AA and STO; STA is cleared when it passes |
| Lpc40xxI2c.Controller.Transact | library/peripherals/lpc40xx/i2c.hpp:297-385 | Transaction stores the transaction and sets STA; on a disabled bus it fails with operation_not_permitted, otherwise the result is the run's transaction and Finish of it |
| Stm32f10xUart.WritePosition | library/peripherals/stm32f10x/uart.hpp:326-330 | the DMA write position, computed in size_t, is always inside the ring; it is size - CNDTR while the count is in 1..size and 0 when the count is 0 |
| Stm32f10xUart.Available | library/peripherals/stm32f10x/uart.hpp:251-256 | the number of waiting bytes is below the ring size, write - read when the write position is ahead and write - read + size when it has wrapped |
| Stm32f10xUart.RingMeetsWrite | library/peripherals/stm32f10x/uart.hpp:237-245 | stepping through the ring from the read position, the write position is reached exactly after the waiting bytes and not before, so the read loop stops where HasData turns false |
| Stm32f10xUart.RingConsume | library/peripherals/stm32f10x/uart.hpp:243-244 | after reading k of the waiting bytes, with wrap-around at the ring size, the waiting count drops by exactly k |
| Stm32f10xUart.Format | library/peripherals/stm32f10x/uart.hpp:274-285 | frames under 8 bits fail with not_supported (and only they); otherwise parity is enabled unless none, odd parity selects 1, 9-bit frames set the word length and two stop bits give code 0b10, one gives 0 |
| Stm32f10xUart.FormatControl1Bits | library/peripherals/stm32f10x/uart.hpp:264-293 | CR1 after ConfigureFormat holds parity enable in bit 10, odd parity in bit 9 and the word length in bit 12, and every other bit of the 32-bit register as it was |
| Stm32f10xUart.FormatControl1ReadBack | library/peripherals/stm32f10x/uart.hpp:280-293 | the three CR1 format bits read back as the settings ask: parity bit iff parity is not none, selection bit iff odd, word-length bit iff 9-bit frames |
| Stm32f10xUart.FormatKeepsEnables | library/peripherals/stm32f10x/uart.hpp:290-293 | writing the format into CR1 after kControlSettings1 leaves the USART, receiver and transmitter enable bits set |
| Stm32f10xUart.FormatControl2ReadBack | library/peripherals/stm32f10x/uart.hpp:271-295 | the stop field (bits 12-13) of CR2 reads back 2 for two stop bits and 0 for one |
| Stm32f10xUart.ControlSettingsBits | library/peripherals/stm32f10x/uart.hpp:71-91 | kControlSettings1 has the USART, receiver and transmitter enable bits (13, 2, 3) set and kControlSettings3 the DMA receiver bit (6) |
| Stm32f10xUart.BaudParts | library/peripherals/stm32f10x/uart.hpp:313-319 | a rounded fraction of 16 or more carries into the 16-bit mantissa and becomes 0; a smaller one is kept with the mantissa unchanged |
| Stm32f10xUart.BaudRegister | library/peripherals/stm32f10x/uart.hpp:321-323 | BRR is a 16-bit value |
| Stm32f10xUart.BaudRegisterFields | library/peripherals/stm32f10x/uart.hpp:313-323 | the fraction field (bits 0-3) of BRR holds the low 4 bits of the carried fraction, which is 0 whenever the rounded fraction reached 16 |
| Stm32f10xUart.BaudRegisterMantissa | library/peripherals/stm32f10x/uart.hpp:317-322 | the mantissa field (bits 4-15) of BRR holds the carried mantissa kept to 12 bits |
| Stm32f10xUart.Configured | library/peripherals/stm32f10x/uart.hpp:189-207 | after ModuleInitialize CR3 is kControlSettings3 and BRR the divider; with a supported format CR1 gets the format bits over kControlSettings1 and CR2 the stop code, with an unsupported one CR1 stays kControlSettings1 and CR2 is untouched |
| Stm32f10xUart.DmaUart.constructor | library/peripherals/stm32f10x/uart.hpp:124-148 | a new driver reads from position 0 of its ring and has transmitted nothing |
| Stm32f10xUart.DmaUart.HasData | library/peripherals/stm32f10x/uart.hpp:251-256 | data is waiting exactly when the count of bytes between the read position and the DMA write position is not zero |
| Stm32f10xUart.DmaUart.Waiting | library/peripherals/stm32f10x/uart.hpp:251-256 | no bytes wait exactly when HasData is false |
| Stm32f10xUart.DmaUart.Initialize | library/peripherals/stm32f10x/uart.hpp:169-207 | a ring larger than 65535 fails with invalid_argument before any register or the DMA count is touched; otherwise CNDTR is the ring size, the DMA channel is enabled, the registers are as Configured, and the result is not_supported exactly for frames under 8 bits |
| Stm32f10xUart.DmaUart.Deinitialize | library/peripherals/stm32f10x/uart.hpp:151-167 | the destructor disables the DMA channel and clears only the DMA receive bit of CR3 and the USART enable bit of CR1, keeping every other bit |
| Stm32f10xUart.DmaUart.InitializedRingEmpty | library/peripherals/stm32f10x/uart.hpp:189-256 | right after initialization (CNDTR equal to the ring size, read position 0) no data is reported |
| Stm32f10xUart.DmaUart.Write | library/peripherals/stm32f10x/uart.hpp:219-231 | every byte of data goes to DR, in order, and the receive side is unchanged |
| Stm32f10xUart.DmaUart.Read | library/peripherals/stm32f10x/uart.hpp:233-249 | copies min(span size, waiting bytes) bytes from the ring starting at the read position with wrap-around, returns that count, advances the read position by it modulo the ring size, leaves the rest of the span alone, and the waiting count drops by exactly that much |
| Stm32f10xUart.DmaUart.Flush | library/peripherals/stm32f10x/uart.hpp:258-261 | the read position becomes the DMA write position, so nothing is waiting afterwards |
| Stm32f10xSystemController.EnableRegister | library/peripherals/stm32f10x/system_controller.hpp:773-776 | the enable register of an id is the one whose 32-id range holds it |
| Stm32f10xSystemController.EnableBitPosition | library/peripherals/stm32f10x/system_controller.hpp:778-781 | the bit position is below 32 and is the id's offset inside the range of its enable register |
| Stm32f10xSystemController.EnableIndexing | library/peripherals/stm32f10x/system_controller.hpp:773-781 | an id is 32 times its enable-register index plus its bit position, the bit is below 32, and (register, bit) determine the id |
| Stm32f10xSystemController.EnableIndexInjective | library/peripherals/stm32f10x/system_controller.hpp:773-781 | two ids with the same enable register and bit position are the same id |
| Stm32f10xSystemController.PllInput | library/peripherals/stm32f10x/system_controller.hpp:475-486 | the PLL input is 4 MHz from the halved internal oscillator, the external oscillator, or half of it |
| Stm32f10xSystemController.PllRate | library/peripherals/stm32f10x/system_controller.hpp:489 | the PLL output, its input times (multiply code + 2), is between 2 and 16 times the input, so 8 to 64 MHz from the halved internal oscillator |
| Stm32f10xSystemController.RtcRate | library/peripherals/stm32f10x/system_controller.hpp:637-649 | the RTC clock is 0 with no source, the internal or external low-speed oscillator's rate, or 1/128 of the high-speed external oscillator |
| Stm32f10xSystemController.FlashLatency | library/peripherals/stm32f10x/system_controller.hpp:522-542 | the PLL rate, a real number of hertz, gets 0 wait states exactly up to 24 MHz, 2 exactly above 48 MHz, 1 in between, and never more than 2 |
| Stm32f10xSystemController.FlashLatencyMonotone | library/peripherals/stm32f10x/system_controller.hpp:522-542 | a faster PLL clock never gets fewer flash wait states |
| Stm32f10xSystemController.FlashAccessReadBack | library/peripherals/stm32f10x/system_controller.hpp:527-540 | the low three bits of ACR read back the chosen wait states |
| Stm32f10xSystemController.TimerRate | library/peripherals/stm32f10x/system_controller.hpp:659-673 | a timer runs at its APB rate when the bus is undivided and at twice it otherwise |
| Stm32f10xSystemController.SystemClockRate | library/peripherals/stm32f10x/system_controller.hpp:559-568 | the system clock is 8 MHz from the internal oscillator, the external oscillator rate, or the PLL rate, as selected |
| Stm32f10xSystemController.Divide | library/peripherals/stm32f10x/system_controller.hpp:580-657 | dividing a rate by a prescaler of at least 1 is the exact quotient, never above the rate |
| Stm32f10xSystemController.InitialRates | library/peripherals/stm32f10x/system_controller.hpp:458-689 | the stored rates, as exact real quotients with no rounding: PLL recomputed only when enabled, AHB the system clock over its divider, APB1 and APB2 AHB over theirs, timers by TimerRate, ADC APB2 over its divider, USB the PLL or two thirds of it, RTC by its source |
| Stm32f10xSystemController.RatesOrdered | library/peripherals/stm32f10x/system_controller.hpp:580-689 | dividing never speeds a clock up: AHB at most the system clock, each APB at most AHB, timers at most twice their bus, the ADC at most half of APB2 |
| Stm32f10xSystemController.BusOf | library/peripherals/stm32f10x/system_controller.hpp:737-751 | an id belongs to AHB, APB1 or APB2 exactly when its enable-register index is 0, 1 or 2 |
| Stm32f10xSystemController.ClockRate | library/peripherals/stm32f10x/system_controller.hpp:700-735 | I2S reports the PLL rate, USB the USB rate, the flash interface 8 MHz, CPU and system timer AHB, timers 2-14 the APB1 timer rate, timers 1, 8-11 the APB2 timer rate, ADC1-3 the ADC rate |
| Stm32f10xSystemController.ClockRateByBus | library/peripherals/stm32f10x/system_controller.hpp:737-753 | every other id reports the rate of the bus its range falls in, and 0 Hz past the buses |
| Stm32f10xSystemController.TimerClock | library/peripherals/stm32f10x/system_controller.hpp:659-723 | the APB1 timers report the APB1 rate when the bus is undivided and twice it otherwise |
| Stm32f10xSystemController.MaximumClockSpeedRates | library/peripherals/stm32f10x/system_controller.hpp:810-843 | the SetMaximumClockSpeed configuration gives 72 MHz PLL, AHB, APB2 and timers, 36 MHz APB1, 48 MHz USB, 12 MHz ADC and 2 flash wait states |
| Stm32f10xSystemController.MaximumClockSpeedInternalRates | library/peripherals/stm32f10x/system_controller.hpp:861-894 | the internal-oscillator preset gives 64 MHz PLL, AHB and APB2, 32 MHz APB1, 128/3 MHz USB, 32/3 MHz ADC (about 10.67 MHz, below the 12 MHz its comment names), 64 MHz timers and 2 flash wait states |
| Stm32f10xSystemController.SystemController.constructor | library/peripherals/stm32f10x/system_controller.hpp:784-792 | a new controller holds all rates at 0 Hz |
| Stm32f10xSystemController.SystemController.IsPoweredUp | library/peripherals/stm32f10x/system_controller.hpp:756-759 | a peripheral is powered up exactly when the bit at its position in its enable register is 1 |
| Stm32f10xSystemController.SystemController.PowerUp | library/peripherals/stm32f10x/system_controller.hpp:761-764 | sets the peripheral's bit so it reads powered up, changes no other peripheral's power state and no other enable register |
| Stm32f10xSystemController.SystemController.PowerDown | library/peripherals/stm32f10x/system_controller.hpp:766-770 | clears the peripheral's bit so it reads powered down, changes no other peripheral's power state and no other enable register |
| Stm32f10xSystemController.SystemController.Initialize | library/peripherals/stm32f10x/system_controller.hpp:458-689 | the rates become InitialRates of the configuration and the previous PLL rate; with the PLL as system clock ACR gets the wait states for the PLL rate, otherwise ACR is unchanged |
| Stm32f10xSystemController.SystemController.GetClockRate | library/peripherals/stm32f10x/system_controller.hpp:700-754 | reports ClockRate of the current rates |
| FirmwareSd.Crc16PolynomialCast | firmware/library/L2_HAL/memory/sd.hpp:139-223 | kPoly16bit (0x11021) cast to uint16_t is the CCITT generator 0x1021 that the generator XORs in |
| FirmwareSd.Crc7Shift | firmware/library/L2_HAL/memory/sd.hpp:183-188 | one pass of the CRC-7 inner loop never leaves bit 7 set |
| FirmwareSd.Crc7Entry | firmware/library/L2_HAL/memory/sd.hpp:174-189 | every CRC-7 table entry is a 7-bit value |
| FirmwareSd.Crc7TableEntry | firmware/library/L2_HAL/memory/sd.hpp:174-189 | the outer loop body (start value, then seven shift-and-reduce passes) computes Crc7Entry of its index |
| FirmwareSd.GenerateCrc7Table | firmware/library/L2_HAL/memory/sd.hpp:167-192 | as written, the loop stops at i < 0xFF: entries 0-254 are Crc7Entry and entry 255 keeps its initial 0 |
| FirmwareSd.GenerateCrc7TableCorrected | firmware/library/L2_HAL/memory/sd.hpp:171-173 | the generator over all 256 byte values its comment asks for fills every entry with Crc7Entry |
| FirmwareSd.Crc7IndexInRange | firmware/library/L2_HAL/memory/sd.hpp:1123-1126 | for every 7-bit CRC the table index (crc << 1) ^ byte, computed in int, is below 256 and equals the 8-bit computation |
| FirmwareSd.Crc7Add | firmware/library/L2_HAL/memory/sd.hpp:1123-1126 | one table step keeps the CRC a 7-bit value |
| FirmwareSd.Crc7TableAsWritten | firmware/library/L2_HAL/memory/sd.hpp:171-192 | the generated table agrees with Crc7Entry everywhere except entry 255, which is 0 |
| FirmwareSd.Crc7AddAsWritten | firmware/library/L2_HAL/memory/sd.hpp:1123-1126 | the step over the generated table agrees with the full-table step unless the index is 255 |
| FirmwareSd.Crc7AsWritten | firmware/library/L2_HAL/memory/sd.hpp:1129-1137 | the fold of a message over the table as generated also stays a 7-bit value |
| FirmwareSd.Crc7 | firmware/library/L2_HAL/memory/sd.hpp:1129-1137 | the CRC-7 over the complete table (the intended generator of Findings row 1) of any message is a 7-bit value |
| FirmwareSd.GetCrc7 | firmware/library/L2_HAL/memory/sd.hpp:1129-1137 | the loop over a message shorter than 256 bytes returns the CRC-7 fold of the message over the complete table, the intended behaviour of Findings row 1; Crc7AsWritten is the fold over the table as generated |
| FirmwareSd.Crc7EntryIsBitSerial | firmware/library/L2_HAL/memory/sd.hpp:167-192 | table entry i equals byte i sent through the CRC-7 shift register (x^7 + x^3 + 1) of section 4.5 of the SD Physical Layer Simplified Specification from 0 |
| FirmwareSd.Crc7OneByteIsReference | firmware/library/L2_HAL/memory/sd.hpp:1123-1137 | on a one-byte message the table-driven CRC-7 equals the bit-serial CRC-7 of the standard |
| FirmwareSd.Crc7AddIsByte | firmware/library/L2_HAL/memory/sd.hpp:1123-1126 | for every 7-bit register and byte, one table step is the byte clocked bit by bit through the standard's CRC-7 register |
| FirmwareSd.Crc7IsReference | firmware/library/L2_HAL/memory/sd.hpp:1129-1137 | for every message, the table-driven CRC-7 (over the complete table) equals the bit-serial CRC-7 of section 4.5 of the SD Physical Layer Simplified Specification |
| FirmwareSd.Crc7OfFive | firmware/library/L2_HAL/memory/sd.hpp:1018-1024 | the CRC-7 of a five-byte command message is five table steps from 0 |
| FirmwareSd.Crc7Examples | firmware/library/L2_HAL/memory/sd.hpp:1018-1137 | the table-driven CRC-7 gives 0x4A for CMD0(0), 0x2A for CMD17(0) and 0x43 for CMD8(0x1AA) |
| FirmwareSd.Crc7ReferenceExamples | firmware/library/L2_HAL/memory/sd.hpp:1018-1024 | the bit-serial CRC-7 of the standard gives the same 0x4A, 0x2A and 0x43 |
| FirmwareSd.Crc7TableLastEntry | firmware/library/L2_HAL/memory/sd.hpp:171 | entry 255 of the generated table is 0 where the CRC-7 table has 0x79, so CMD17 with argument 0x17000000 gets CRC 0 instead of 0x13 |
| FirmwareSd.Crc16TableEntry | firmware/library/L2_HAL/memory/sd.hpp:203-228 | the outer loop body (i << 8, then eight shift-and-XOR passes) computes Crc16Entry of its index |
| FirmwareSd.GenerateCrc16Table | firmware/library/L2_HAL/memory/sd.hpp:199-232 | all 256 entries of the CRC-16 table are Crc16Entry of their index |
| FirmwareSd.Crc16AddUnrolled | firmware/library/L2_HAL/memory/sd.hpp:1147-1148 | one table step equals the eight shift passes applied to the indexed byte, XORed with the register shifted up a byte |
| FirmwareSd.Crc16WideStepLow | firmware/library/L2_HAL/memory/sd.hpp:1142-1149 | the uint64_t register of GetCrc16 is never truncated, yet its low 16 bits after a step are the 16-bit table step of its low 16 bits |
| FirmwareSd.GetCrc16 | firmware/library/L2_HAL/memory/sd.hpp:1140-1153 | the loop on the 64-bit register returns, cast to uint16_t, the CRC-16 fold of the message |
| FirmwareSd.Crc16EntryIsBitwise | firmware/library/L2_HAL/memory/sd.hpp:199-232 | table entry i equals byte i sent through the bit-at-a-time CRC-16 (x^16 + x^12 + x^5 + 1) of section 4.5 of the SD Physical Layer Simplified Specification from 0 |
| FirmwareSd.Crc16OneByteIsReference | firmware/library/L2_HAL/memory/sd.hpp:1140-1153 | on a one-byte message the table-driven CRC-16 equals the bit-at-a-time CRC-16 of the standard |
| FirmwareSd.Crc16AddIsByte | firmware/library/L2_HAL/memory/sd.hpp:1145-1149 | for every register and byte, one table step (Crc16Add) is the byte fed bit by bit through the standard's CRC-16 register |
| FirmwareSd.Crc16IsReference | firmware/library/L2_HAL/memory/sd.hpp:1140-1153 | for every message, the table-driven CRC-16 (Crc16) equals the bit-at-a-time CRC-16 of section 4.5 of the SD Physical Layer Simplified Specification |
| FirmwareSd.Crc16AddFromZero | firmware/library/L2_HAL/memory/sd.hpp:1147-1148 | from a zero register one table step yields the entry of the byte |
| FirmwareSd.Crc16Snoc | firmware/library/L2_HAL/memory/sd.hpp:1145-1149 | the CRC-16 of a message one byte longer is one more table step |
| FirmwareSd.Crc16CheckValue | firmware/library/L2_HAL/memory/sd.hpp:1140-1153 | the table-driven CRC-16 of the ASCII digits "123456789" is 0x31C3, the check value of this CRC |
| FirmwareSd.Crc16ReferenceCheckValue | firmware/library/L2_HAL/memory/sd.hpp:199-232 | the bit-at-a-time CRC-16 of "123456789" is the same 0x31C3 |
| FirmwareSd.CommandIndex | firmware/library/L2_HAL/memory/sd.hpp:91-122 | every command index fits the six bits of the command field |
| FirmwareSd.CommandCodeAsWritten | firmware/library/L2_HAL/memory/sd.hpp:86-123 | every enumerator but kGetStatus is 0x40 with the command index, as the standard's frame start requires |
| FirmwareSd.CommandCode | firmware/library/L2_HAL/memory/sd.hpp:86-123 | the intended enumerator values of Findings row 2: kGarbage is 0xFF, every other code starts with the bits 01 and holds the command index in its low six bits |
| FirmwareSd.CommandCodeFields | firmware/library/L2_HAL/memory/sd.hpp:91-122 | a command code starts with the bits 01 and carries the command index in its low six bits |
| FirmwareSd.GetStatusCodeAsWritten | firmware/library/L2_HAL/memory/sd.hpp:100 | kGetStatus is written 0x04 OR 13 = 0x0D, which starts with the bits 00 and so is not a command frame, though its low six bits are 13 |
| FirmwareSd.ArgumentBytes | firmware/library/L2_HAL/memory/sd.hpp:1018-1052 | the four argument bytes, most significant first, reassemble into the argument |
| FirmwareSd.CommandMessage | firmware/library/L2_HAL/memory/sd.hpp:1018-1022 | the CRC-7 covers the command code (the intended one of Findings row 2) followed by the four argument bytes |
| FirmwareSd.CrcWord | firmware/library/L2_HAL/memory/sd.hpp:1024-1054 | the sixth word is the CRC-7 above the stop bit 1, and 0x1FF for kGarbage |
| FirmwareSd.CommandFrame | firmware/library/L2_HAL/memory/sd.hpp:1018-1054 | SendCmd transfers six words, built from the intended command code of Findings row 2; CommandFrameWords and CommandFrameCrc state their contents |
| FirmwareSd.CommandFrameWords | firmware/library/L2_HAL/memory/sd.hpp:1043-1052 | SendCmd's first five words are the intended command code of Findings row 2 and the argument bytes, from which the argument reassembles |
| FirmwareSd.CommandFrameCrc | firmware/library/L2_HAL/memory/sd.hpp:1024-1054 | the sixth word carries the CRC-7 of the five message bytes and the stop bit, or 0x1FF for kGarbage |
| FirmwareSd.ResponseTypeOf | firmware/library/L2_HAL/memory/sd.hpp:991-1014 | only kGetCsd has no response type, so SendCmd aborts for it |
| FirmwareSd.SendCmdLengths | firmware/library/L2_HAL/memory/sd.hpp:991-1081 | SendCmd refuses only kGetCsd, reads 5 bytes for the R7 and R3 commands (kGetOp, kGetOcr), 2 for kGetStatus and 1 for every other command |
| FirmwareSd.BlockReadStatus | firmware/library/L2_HAL/memory/sd.hpp:735-773 | the response byte of the read's last command (the read's R1 for one block, the stop command's for several) with the CRC-error bit 3 ORed in: bit 3 is set exactly when the card set it or some block's CRC-16 mismatched, and its other bits are the card's |
| FirmwareSd.FirstReady | firmware/library/L2_HAL/memory/sd.hpp:789-794 | the first CMD13 status at or after a position whose idle bit 0 is clear, with every earlier one idle |
| FirmwareSd.AwaitReady | firmware/library/L2_HAL/memory/sd.hpp:787-794 | the do-while loop polls CMD13 until the idle bit is clear and leaves the first such status in the response byte |
| FirmwareSd.ReadStatusAsWritten | firmware/library/L2_HAL/memory/sd.hpp:735-799 | as written the read returns the first non-idle CMD13 status, which overwrote the byte that carried the CRC flag |
| FirmwareSd.ReadStatus | firmware/library/L2_HAL/memory/sd.hpp:735-799 | the intended status of Findings row 9: the final CMD13 status, not idle, with bit 3 set exactly when that status has it or some block's CRC-16 mismatched, other bits unchanged |
| FirmwareSd.CrcFlagLostAsWritten | firmware/library/L2_HAL/memory/sd.hpp:772-799 | whenever a block's CRC-16 mismatched and the final CMD13 status has bit 3 clear, the flag was set at line 772 but the returned byte lacks it, while ReadStatus carries it |
| FirmwareSd.CrcFlagLostExample | firmware/library/L2_HAL/memory/sd.hpp:772-799 | one block with a wrong CRC and CMD13 answering 0x01 then 0x00: the read as written returns 0x00, the intended one 0x08 |
| Sd.GetResponseLength | library/L2_HAL/memory/sd.hpp:716-760 | every command gets a response length of 1 to 5 bytes; the -1 defaults cannot be reached |
| Sd.ResponseLengths | library/L2_HAL/memory/sd.hpp:716-760 | 5 bytes exactly for kGetOp and kGetOcr, 2 exactly for kGetStatus, 1 for every other command |
| Sd.ResponseLengthAgreesWithFirmware | library/L2_HAL/memory/sd.hpp:720-741 | the library driver reads the same length as the firmware driver for every command the firmware driver accepts, and one byte for kGetCsd, which the firmware driver refuses |
| Sd.CommandWasAcknowledged | library/L2_HAL/memory/sd.hpp:416-433 | a command is acknowledged exactly when the R1 byte has its leading 0 bit and reports none of the seven flags |
| Sd.AcknowledgedIffNoFlags | library/L2_HAL/memory/sd.hpp:416-433 | for an R1 byte (top bit 0) a command is acknowledged exactly when none of the seven error flags the driver reports is set |
| Sd.SpiCommandFrame | library/L2_HAL/memory/sd.hpp:693-714 | the six bytes sent are the command code (0x40 with the index, kGetStatus included) and the argument most significant byte first, then the CRC byte |
| Sd.SpiCommandFrameCrc | library/L2_HAL/memory/sd.hpp:705-713 | the last frame byte ends in the stop bit 1 and carries the CRC-7 of the five bytes before it; for kGarbage it is 0xFF |
| Sd.CheckSupportedVoltages | library/L2_HAL/memory/sd.hpp:910-948 | the voltage check fails only with not_supported or io_error, and always with not_supported when the card flags the command illegal |
| Sd.VoltageCheckIsEcho | library/L2_HAL/memory/sd.hpp:910-948 | the check passes exactly when the card knows CMD8 and echoes the voltage code and the check pattern 0xAB of the argument 0x1AB it was sent; io_error exactly when only the pattern is wrong |
| Sd.CSize | library/L2_HAL/memory/sd.hpp:289-291 | C_SIZE is a 22-bit value |
| Sd.CSizeBits | library/L2_HAL/memory/sd.hpp:289-291 | bit j of C_SIZE is bit j mod 8 of CSD byte 9 - j/8, for bits 0-21, matching register bits 48-69 with the last byte holding bits 0-7 |
| Sd.GetCapacity | library/L2_HAL/memory/sd.hpp:287-299 | the capacity is a whole number of 512 KiB units, C_SIZE + 1 of them |
| Sd.BlockAddress | library/L2_HAL/memory/sd.hpp:344 | block_address + block_offset in uint32_t is the sum while it fits below 2^32, and otherwise the sum less a whole multiple of 2^32 |
| Sd.CapacityRange | library/L2_HAL/memory/sd.hpp:287-299 | the capacity (C_SIZE + 1) x 512 KiB is a multiple of 512 KiB between 512 KiB and 2 TiB |
| Sd.CrcBytesRoundTrip | library/L2_HAL/memory/sd.hpp:400-527 | a block with the CRC bytes SetCrcBytes appends passes the CRC check ReadBlock makes, and keeps its 512 data bytes |
| Sd.SetCrcBytes | library/L2_HAL/memory/sd.hpp:400-407 | the CRC-16 of bytes 0-511 goes to bytes 512 (high) and 513 (low), and the data bytes are kept |
| Sd.ChunkLength | library/L2_HAL/memory/sd.hpp:330-338 | a block carries between 1 and 512 bytes of the span, fewer than 512 only when it reaches the end |
| Sd.Chunk | library/L2_HAL/memory/sd.hpp:322-338 | a block's 512 data bytes are the next bytes of the data, padded with erased 0xFF bytes after the end of the data |
| Sd.WriteFrames | library/L2_HAL/memory/sd.hpp:306-347 | every block Write sends is 514 bytes long and goes to consecutive block addresses (in uint32_t) from the starting one |
| Sd.WriteFramesCount | library/L2_HAL/memory/sd.hpp:306-347 | Write sends one block per started 512 bytes of data |
| Sd.AcceptedPrefix | library/L2_HAL/memory/sd.hpp:533-558 | the blocks sent before the first rejection are a prefix of all blocks, each acknowledged with R1 0, and the next one (if any) rejected |
| Sd.FillBlock | library/L2_HAL/memory/sd.hpp:322-338 | the copy loop fills the block's first 512 bytes with the next chunk of data (0xFF after the end), leaves the CRC bytes alone, and reports the end of the data exactly when it reached it |
| Sd.BuildBlock | library/L2_HAL/memory/sd.hpp:318-345 | one outer-loop pass builds exactly the next block of WriteFrames at the next block address |
| Sd.Write | library/L2_HAL/memory/sd.hpp:306-347 | Write sends the blocks of WriteFrames in order up to the first one the card rejects, and fails with io_error exactly when some block was rejected |
| Sd.ReadBlock | library/L2_HAL/memory/sd.hpp:492-529 | once the token wait has passed (the intended driver of Findings row 8), a block read succeeds exactly when the card acknowledges it and the received CRC equals the CRC-16 of the 512 data bytes, giving the 514 bytes; every failure is io_error |
| Sd.TokenWaitAsWritten | library/L2_HAL/memory/sd.hpp:644-668 | as written, the token wait never passes: it fails with io_error at the first error token and times out exactly when none of the 25 000 polls is an error token, start tokens included |
| Sd.TokenWait | library/L2_HAL/memory/sd.hpp:644-668 | the intended wait passes exactly when a start token 0xFE comes before any error token within 25 000 polls, fails with io_error on an earlier error token, and times out exactly when neither arrives |
| Sd.WaitToReadBlockAsWritten | library/L2_HAL/memory/sd.hpp:627-668 | the polling loop as written returns the as-written wait's outcome, which is never a pass |
| Sd.WaitToReadBlock | library/L2_HAL/memory/sd.hpp:627-668 | the polling loop with a return on the start token returns the intended wait's outcome |
| Sd.StartTokenIgnoredAsWritten | library/L2_HAL/memory/sd.hpp:648-652 | a card that sends 0xFE at once makes the as-written wait time out, where the intended wait passes |
| Sd.ReadBlockAsWritten | library/L2_HAL/memory/sd.hpp:492-529 | as written every block read fails, with io_error or timed_out; an acknowledged read with no error token times out |
| Sd.GoodBlockFailsAsWritten | library/L2_HAL/memory/sd.hpp:492-529 | an acknowledged block with a correct CRC, preceded by the start token, is returned by the intended driver and times out as written |
| Sd.ReadBlockWaiting | library/L2_HAL/memory/sd.hpp:492-529 | the intended block read with its token wait: it returns a block exactly when the wait passes and ReadBlock succeeds, is ReadBlock once the wait passes, and fails with the wait's error otherwise |
| Sd.ReadSpan | library/L2_HAL/memory/sd.hpp:349-375 | the bytes a read delivers never exceed the span, and fill it when every block read succeeds |
| Sd.ReadStep | library/L2_HAL/memory/sd.hpp:360-373 | a good block contributes its bytes up to the end of the span, and reading continues at the next block address |
| Sd.CopyBlock | library/L2_HAL/memory/sd.hpp:365-373 | the copy loop puts the block's bytes into the span from the read position up to 512 bytes or the end of the span, and touches nothing else |
| Sd.Read | library/L2_HAL/memory/sd.hpp:349-375 | with the intended token wait, Read fills the span with ReadSpan's bytes; on a failed block it fails with io_error, with earlier blocks' bytes in place and the rest of the span untouched |
| Sd.WriteThenRead | library/L2_HAL/memory/sd.hpp:306-375 | for the intended driver, when the card holds every block Write sent, acknowledged and unchanged, reading from any block boundary returns the rest of the data and succeeds |
| Sd.WrittenDataReadsBack | library/L2_HAL/memory/sd.hpp:306-375 | for the intended driver, reading a span the size of the written data returns exactly the data, without the padding, and succeeds |
| St7066u.ConfigurationCommand | library/L2_HAL/displays/lcd/st7066u.hpp:73-137 | the function-set command is 0x20 ORed with the three fields: it lies in 0x20-0x3F with its two low bits clear |
| St7066u.ConfigurationFields | library/L2_HAL/displays/lcd/st7066u.hpp:73-137 | the controller reads bit 4 as the 8-bit bus, bit 3 as multi-line and bit 2 as the 5x11 font, each exactly when configured |
| St7066u.CursorCommand | library/L2_HAL/displays/lcd/st7066u.hpp:243-251 | the cursor command of a position on one of four lines is a set-address instruction (bit 7 set) at the line's base address plus the column |
| St7066u.CursorCommandInjective | library/L2_HAL/displays/lcd/st7066u.hpp:243-251 | two valid positions give the same cursor command only if they are the same position: the line ranges of display memory do not overlap |
| St7066u.CursorCommandAsWritten | library/L2_HAL/displays/lcd/st7066u.hpp:236-251 | among positions the line < 5 guard lets through, a line-table entry exists exactly for valid positions, and then the command is CursorCommand |
| St7066u.CursorGuardAsWritten | library/L2_HAL/displays/lcd/st7066u.hpp:236 | the guard as written admits exactly the valid positions plus line 4 at any column within the display width |
| St7066u.LineFourPassesGuard | library/L2_HAL/displays/lcd/st7066u.hpp:236-250 | line 4 passes the guard and reads past the four-entry line table |
| St7066u.Strlen | library/L2_HAL/displays/lcd/st7066u.hpp:270 | strlen counts the characters before the first NUL, or all of them when there is none |
| St7066u.DisplayedLengthAsWritten | library/L2_HAL/displays/lcd/st7066u.hpp:268-280 | the number of characters written as the code has it is DisplayedLength of strlen taken modulo 256 (the uint8_t cast) |
| St7066u.DisplayedLength | library/L2_HAL/displays/lcd/st7066u.hpp:268-280 | at most the text's length is written, never past column 20, and the whole text unless the line ends first |
| St7066u.LongTextTruncatedAsWritten | library/L2_HAL/displays/lcd/st7066u.hpp:270 | a 256-character text shows no characters, where the intended count is the 20 of a full line |
| St7066u.Events | library/L2_HAL/displays/lcd/st7066u.hpp:144-156 | each Write call produces six pin and bus events |
| St7066u.Nibbles | library/L2_HAL/displays/lcd/st7066u.hpp:167-192 | on a 4-bit bus a byte is sent as two 4-bit values, on an 8-bit bus as itself, all with the byte's RS level |
| St7066u.LatchedSnoc | library/L2_HAL/displays/lcd/st7066u.hpp:146-155 | one more pin event updates the RS level and bus value the controller sees, and a falling edge of E latches them |
| St7066u.LatchedWrite | library/L2_HAL/displays/lcd/st7066u.hpp:144-156 | one Write call makes the controller latch exactly its RS level and value, whatever came before |
| St7066u.LatchedEvents | library/L2_HAL/displays/lcd/st7066u.hpp:144-156 | the controller latches exactly the Write calls made, in order |
| St7066u.SplitEightBit | library/L2_HAL/displays/lcd/st7066u.hpp:175-190 | on an 8-bit bus every byte is one Write call |
| St7066u.AssembleNibbles | library/L2_HAL/displays/lcd/st7066u.hpp:171-188 | on a 4-bit bus the controller joins a byte's high and low nibble back into the byte |
| St7066u.AssembleSplit | library/L2_HAL/displays/lcd/st7066u.hpp:167-192 | splitting bytes into Write calls and joining them again gives the bytes back, in either bus mode |
| St7066u.ReceivesSent | library/L2_HAL/displays/lcd/st7066u.hpp:144-192 | the display receives exactly the bytes the driver sent, each with the RS level it was sent with |
| St7066u.SentAppend | library/L2_HAL/displays/lcd/st7066u.hpp:167-192 | sending two series of bytes in turn produces the events of sending them as one series |
| St7066u.Display.constructor | library/L2_HAL/displays/lcd/st7066u.hpp:109-124 | the display keeps its bus mode, line mode and font, and nothing has been sent |
| St7066u.Display.Write | library/L2_HAL/displays/lcd/st7066u.hpp:144-156 | E high, RS to the operation, RW low, the value on the bus, then E low and high again |
| St7066u.Display.WriteCommand | library/L2_HAL/displays/lcd/st7066u.hpp:167-177 | the command byte is sent with RS low, split by the bus mode |
| St7066u.Display.WriteData | library/L2_HAL/displays/lcd/st7066u.hpp:182-192 | the data byte is sent with RS high, split by the bus mode |
| St7066u.Display.Initialize | library/L2_HAL/displays/lcd/st7066u.hpp:127-140 | E goes high, then the function-set command for the configuration, display on and clear display are sent |
| St7066u.Display.ClearDisplay | library/L2_HAL/displays/lcd/st7066u.hpp:196-200 | sends the clear-display command 0x01 |
| St7066u.Display.SetDisplayOn | library/L2_HAL/displays/lcd/st7066u.hpp:203-206 | sends display on (0x0C) or display off (0x08) |
| St7066u.Display.SetCursorHidden | library/L2_HAL/displays/lcd/st7066u.hpp:211-214 | sends display on with the cursor hidden (0x0C) or with the cursor shown and blinking (0x0F) |
| St7066u.Display.SetCursorDirection | library/L2_HAL/displays/lcd/st7066u.hpp:217-228 | sends 0x04 for backward and 0x06 for forward |
| St7066u.Display.SetCursorPosition | library/L2_HAL/displays/lcd/st7066u.hpp:234-252 | sends the cursor command of the position |
| St7066u.Display.ResetCursorPosition | library/L2_HAL/displays/lcd/st7066u.hpp:255-259 | sends the reset-cursor command 0x02 |
| St7066u.Display.DisplayText | library/L2_HAL/displays/lcd/st7066u.hpp:265-287 | sends the cursor command, then as data the characters of the text that fit on the line from the starting column: the intended length of Findings row 6, not the uint8_t length of DisplayedLengthAsWritten |
| St7066u.DisplayTextReceived | library/L2_HAL/displays/lcd/st7066u.hpp:265-287 | the display receives the cursor command followed by exactly the characters that fit, each with RS high |
| Commandline.FirstNamed | library/L3_Application/commandline.hpp:324-332 | the index found names a command with exactly that name and no earlier command has it; none is found exactly when no command has the name |
| Commandline.Matches | library/L3_Application/commandline.hpp:282-290 | the names offered all start with the typed prefix, no more of them than there are commands |
| Commandline.MatchesComplete | library/L3_Application/commandline.hpp:282-290 | every command whose name starts with the prefix is offered |
| Commandline.AllMatch | library/L3_Application/commandline.hpp:282-290 | when every name starts with the prefix, every command is offered |
| Commandline.Take | library/L3_Application/commandline.hpp:48-57 | at most n options are kept, the first ones, and all of them when they fit |
| Commandline.Completions | library/L3_Application/commandline.hpp:274-309 | the options offered for an entered line, with the intended bound of Findings row 7, always leave room for the terminating null in the 32-entry array |
| Commandline.TerminatorIndexAsWritten | library/L3_Application/commandline.hpp:276-307 | as written, with only the command name typed, the terminating null goes after every matching name, however many there are |
| Commandline.TerminatorOverflowsAsWritten | library/L3_Application/commandline.hpp:282-307 | with 32 commands named "a", typing "a" and tab stores the terminating null at index 32, one past the end of the 32-entry array |
| Commandline.CommandLine.constructor | library/L3_Application/commandline.hpp:211-218 | a new command line has an empty command list reserved for kNumberOfCommands commands, is not running and not initialized, and has a 32-entry completion array |
| Commandline.CommandLine.Initialize | library/L3_Application/commandline.hpp:220-233 | with room for two more commands, list, then quit, are appended to the command list, which stays within its capacity, and the command line is marked initialized |
| Commandline.CommandLine.AddCommand | library/L3_Application/commandline.hpp:238-241 | with room in the list, the command is appended to its end, the list stays within its capacity, and nothing else changes |
| Commandline.CommandLine.Quit | library/L3_Application/commandline.hpp:341-346 | the command line stops running and the result is 0 |
| Commandline.CommandLine.Find | library/L3_Application/commandline.hpp:324-332 | the scan finds FirstNamed of the name |
| Commandline.CommandLine.ExecuteCommand | library/L3_Application/commandline.hpp:319-338 | with no command named argv[0] the result is 0x7F and nothing changes; otherwise the first command with that name runs and its result is returned, and running stops exactly when it is quit |
| Commandline.CommandLine.AutoCompleteHandler | library/L3_Application/commandline.hpp:274-309 | the completion array holds the Completions of the entered line, in order, followed by a null |
| Commandline.CommandLine.CollectMatches | library/L3_Application/commandline.hpp:282-290 | the names that start with the prefix are stored in list order, at most 31 so that the terminating null fits (the intended bound of Findings row 7; TerminatorIndexAsWritten is the unbounded code), and their count is returned |
| Commandline.CommandLine.StoreOptions | library/L3_Application/commandline.hpp:293-306 | a command's own options are stored in order, as many as fit before the terminating null, and their count is returned |
| Commandline.FirstNamedAt | library/L3_Application/commandline.hpp:324-332 | a command with the name, with none before it, is the one FirstNamed finds |
| Infrared.ToleranceWindow | library/utility/infrared_algorithms.hpp:59-65 | the window of an expected duration: its bounds are expected x (1 - tolerance) and expected x (1 + tolerance) truncated to whole microseconds, and it holds the expected duration |
| Infrared.IsDurationWithinTolerance | library/utility/infrared_algorithms.hpp:54-67 | a duration passes exactly when it lies in the tolerance window; the expected duration always passes, and a passing one is at most expected x tolerance above it and less than that plus one below it |
| Infrared.PairBit | library/utility/infrared_algorithms.hpp:214-255 | a data mark/space pair reads as a single bit, 0 or 1, or as no bit at all |
| Infrared.ShiftIn | library/utility/infrared_algorithms.hpp:241-247 | shifting a bit into the uint32_t register stays below 2^32 and leaves the new bit in bit 0 |
| Infrared.DecodePairs | library/utility/infrared_algorithms.hpp:214-255 | decoding the data pairs, pair by pair to the last pulse, keeps the data a 32-bit value |
| Infrared.Decoded | library/utility/infrared_algorithms.hpp:137-260 | the decoded data is 32-bit; a repeat frame is valid, carries 0 and has exactly three pulses; an invalid frame is kInvalidFrame |
| Infrared.Decode | library/utility/infrared_algorithms.hpp:137-260 | the decoding loop returns the Decoded frame of the pulses |
| Infrared.EncodePairs | library/utility/infrared_algorithms.hpp:214-232 | a transmitter sends two pulses per bit |
| Infrared.Number | library/utility/infrared_algorithms.hpp:241-247 | the number a series of bits spells, most significant first, is below 2 to the number of bits |
| Infrared.Shifted | library/utility/infrared_algorithms.hpp:241-247 | the register after shifting in any number of bits is 32-bit |
| Infrared.ShiftedIsNumber | library/utility/infrared_algorithms.hpp:203-247 | with at most 32 bits nothing is shifted out: the register holds exactly the number the bits spell |
| Infrared.DecodeEncodedPairs | library/utility/infrared_algorithms.hpp:214-255 | the pairs of a series of bits, sent with durations in the receiver's windows, decode to those bits shifted in after the ones before |
| Infrared.EncodeThenDecode | library/utility/infrared_algorithms.hpp:137-260 | a frame (header, data pairs, stop mark) sent with durations in the receiver's windows decodes as valid, not a repeat, with its bits shifted into the 32-bit register |
| Infrared.EncodeThenDecodeNumber | library/utility/infrared_algorithms.hpp:137-260 | a frame of 1 to 32 bits decodes to exactly the number the bits spell |
| Infrared.EncodeRepeatThenDecode | library/utility/infrared_algorithms.hpp:169-191 | with repeat frames in use, a header mark, repeat space and stop mark decode as a valid repeat frame with data 0 |
| Infrared.RepeatFrameIff | library/utility/infrared_algorithms.hpp:173-190 | any pulses decode as a repeat frame exactly when there are three of them, the configuration uses repeat frames and the header mark, repeat space and stop mark are in their windows; a repeat frame is valid and carries 0 |
| Infrared.BadHeaderSpaceIsInvalid | library/utility/infrared_algorithms.hpp:191-199 | a header mark in its window followed by a header space out of its window gives kInvalidFrame, unless the three pulses form a repeat frame |
| Infrared.ShortOrBadHeaderIsInvalid | library/utility/infrared_algorithms.hpp:150-168 | fewer than three pulses, or a header mark out of its window, always give kInvalidFrame |
| Infrared.BadPairIsInvalid | library/utility/infrared_algorithms.hpp:214-255 | a single data pair that is not a bit makes the whole frame invalid, whatever the pairs before it |

## Left out

- Hardware I/O and timing are outside the model: register addresses, pin and peripheral set-up, delays, busy-waits and timeouts (`Wait`, `WaitWhileBusy`, SD card `Mount`, whose CSD read waits on the same token loop as a block read). What the hardware answers is a parameter of each operation.
- Concurrency is not modelled. This covers the `CanNetwork` node seqlock, the DMA channel running while the UART driver reads, and interrupts arriving during a call. Each call sees a fixed snapshot.
- Floating-point rounding is not modelled. The infrared tolerance windows are computed with exact reals instead of single-precision floats, and a configuration holds the resulting integer windows. The clock rates (`hertz_t`) are exact non-negative reals, so the rounding of the divisions by 3 and 6 is not modelled. The UART mantissa and fraction are parameters of `BaudParts`, and the I2C clock duty-cycle values are not modelled.
- `bit.hpp` is not part of this model. The bit operations follow the unit tests and are stated for unsigned register values of 8, 16, 32 or 64 bits.
- Bits.SignedExtract: the unit tests' vectors agree only with sign extension from bit `width - 2` of the field, one bit below the top of the mask `MaskFromRange` builds, and the model follows the vectors. Fields of width 1 (`requires m.width >= 2`) are not covered.
- MemoryAccess.MockProtocol.Write, MemoryAccess.MockProtocol.Read: require the access to fit inside the 256-byte map. The source copies without a bounds check, so an access past the end is undefined behaviour there.
- MemoryAccess.IntegerValue: the `ToInteger` helper is not part of this model. The conversion of the decoded register value to the requested type is taken to be a `static_cast`, which keeps the low bytes and reads them as two's complement for a signed type.
- Lpc40xxI2c.Step: requires (`InBounds`) that every buffer index the handler uses lies inside the caller's buffer, because the source indexes without a check.
- Sd.Write, Sd.Read: require a non-empty span, because the source reads the first element before its loop.
- The CRC tables of the library tree's CRC header are not part of this model. `Sd` uses the table-driven CRCs of `FirmwareSd` with the complete CRC-7 table.
- FirmwareSd.AwaitReady, FirmwareSd.ReadStatus: require one of the modelled CMD13 answers to have the idle bit clear. The source polls forever on a card that stays idle.
- FirmwareSd.GetCrc16: the source's accumulator is 64 bits wide and is not truncated between steps. The model keeps the low 16 bits, which are all that the result uses.
- Commandline.CommandLine.StoreOptions: a command's own completion handler is modelled as filling at most 31 entries. The source passes it a length of 32, so it too could overwrite the terminating null.
- Commandline.CommandLine.AddCommand, Commandline.CommandLine.Initialize: require room in the command list for the commands they add. The list's memory comes from a fixed buffer of kNumberOfCommands entries; what its allocator does when a full list grows is not part of this model.
- Commandline: the `list` command's printing, the line editor that calls the two handlers (`WaitForInput`), and all output are not modelled. The editor always passes at least one argument, so `ExecuteCommand` and `AutoCompleteHandler` require `argv` to be non-empty.
- Stm32f10xUart.DmaUart.Write: waiting for the transmit register to empty is not modelled. The transmitted bytes are appended to a trace.
- Stm32f10xSystemController.SystemController.Initialize: the oscillator start-up waits and the clock-tree register writes other than the flash wait states are not modelled. Only the rates and the flash latency are.
- The schedulers, interrupt registration, vendor register headers, older duplicate drivers, other clock trees (LPC17xx, LPC40xx, MSP432) and I/O-bound applications are not part of this model.

## Findings

| source | as written | input that shows it | evidently intended | confidence | as-written member | corrected member |
|---|---|---|---|---|---|---|
| firmware/library/L2_HAL/memory/sd.hpp:171 | the CRC-7 table loop stops before index 255, so entry 255 stays 0 | CMD17 with argument 0x17000000 (message 51 17 00 00 00) gets CRC 0 | every entry is filled; entry 255 is 0x79 and that message's CRC is 0x13 | not executed | FirmwareSd.Crc7TableLastEntry | FirmwareSd.GenerateCrc7TableCorrected |
| firmware/library/L2_HAL/memory/sd.hpp:100 | the CMD13 code is 0x04 OR 13 = 0x0D, whose transmission bit is 0 | sending kGetStatus sends 0x0D as the first byte of the frame | 0x40 OR 13 = 0x4D, as in the library tree's copy (library/L2_HAL/memory/sd.hpp:118) | not executed | FirmwareSd.GetStatusCodeAsWritten | FirmwareSd.CommandCodeFields |
| library/devices/memory_access_protocol.hpp:464 | a write is refused when the address and value sizes reach the buffer size | a 4-byte address and a 1-byte value with a 1-byte maximum payload fit the 5-byte buffer exactly and are refused | refuse only what does not fit | not executed | MemoryAccess.I2cWriteRejectsExactFit | MemoryAccess.I2cWriteAcceptsWhatFits |
| library/devices/memory_access_protocol.hpp:472-477 | the whole buffer is sent, whatever the address and value sizes | a 1-byte address with a 1-byte value sends 5 bytes, 3 of them uninitialised | send the address followed by the value only | not executed | MemoryAccess.I2cWriteSendsStaleBytes | MemoryAccess.I2cWrite |
| library/L2_HAL/displays/lcd/st7066u.hpp:236 | the line guard accepts line numbers below 5, but the address table has 4 entries | line 4, position 0 passes the guard and reads past the table | line numbers below 4 | not executed | St7066u.LineFourPassesGuard | St7066u.CursorCommandInjective |
| library/L2_HAL/displays/lcd/st7066u.hpp:270 | the text length is kept in a uint8_t | a 256-character text has length 0 and nothing is shown | 20 characters are shown | not executed | St7066u.LongTextTruncatedAsWritten | St7066u.DisplayedLength |
| library/L3_Application/commandline.hpp:282-290,307 | every matching name is stored with no bound, then the terminating null after them | 32 commands named "a" and the line "a" put the null at index 32 of the 32-entry array | stop at 31 names so that the null fits | not executed | Commandline.TerminatorOverflowsAsWritten | Commandline.CollectMatches |
| library/L2_HAL/memory/sd.hpp:644-668 | the start token 0xFE is only logged and the loop polls on, so the wait ends only on an error token (io_error) or after 25 000 polls (timed_out); every block read, and the CSD read of Mount, throws | a card that acknowledges the read and sends 0xFE followed by a block with a correct CRC-16 times out | return when 0xFE arrives, so the block is read | not executed | Sd.GoodBlockFailsAsWritten | Sd.ReadBlockWaiting |
| firmware/library/L2_HAL/memory/sd.hpp:789-799 | the CRC-error flag ORed into the response byte at line 772 is overwritten by the CMD13 poll that follows, and the last CMD13 status is returned | a read whose block fails its CRC-16 check and whose final CMD13 status has bit 3 clear returns a status without bit 3 | the returned status carries bit 3 | not executed | FirmwareSd.CrcFlagLostAsWritten | FirmwareSd.ReadStatus |
