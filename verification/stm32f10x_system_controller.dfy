/** The STM32F10x system controller: peripheral power bits, the clock tree
 * rates `Initialize` computes, the flash wait states it chooses, and the
 * clock rate it reports per peripheral.
 *
 * Frequencies are `units::frequency::hertz_t`, a floating-point quantity,
 * modelled as exact non-negative reals: a division by 3 or 6 keeps its
 * fraction. The oscillator start-up waits and the clock-tree register
 * writes other than the flash wait states are not modelled. */
module Stm32f10xSystemController {
  import Bits

  /** Number of peripheral ids per enable register. */
  const BusBits: nat := 32

  /** First id of each bus (`Peripherals::kAHB` … `kBeyond`). */
  const AhbBase: nat := 0
  const Apb1Base: nat := 32
  const Apb2Base: nat := 64
  const BeyondBase: nat := 96

  /** The ids `GetClockRate` treats specially. */
  const Flitf: nat := AhbBase + 4
  const Usb: nat := Apb1Base + 23
  const Timer2: nat := Apb1Base + 0
  const Timer14: nat := Apb1Base + 8
  const Adc1: nat := Apb2Base + 9
  const Adc2: nat := Apb2Base + 10
  const Timer1: nat := Apb2Base + 11
  const Timer8: nat := Apb2Base + 13
  const Adc3: nat := Apb2Base + 15
  const Timer9: nat := Apb2Base + 19
  const Timer10: nat := Apb2Base + 20
  const Timer11: nat := Apb2Base + 21
  const Cpu: nat := BeyondBase + 0
  const SystemTimer: nat := BeyondBase + 1
  const I2s: nat := BeyondBase + 2

  /** A frequency in hertz. */
  type Hertz = r: real | r >= 0.0

  /** The internal oscillators, in hertz. */
  const HighSpeedInternal: Hertz := 8_000_000.0
  const LowSpeedInternal: Hertz := 20_000.0

  /** `EnableRegister`: which enable word holds the peripheral's bit; the
   * ids of one bus all share a word. */
  function EnableRegister(id: nat): (r: nat)
    ensures BusBits * r <= id < BusBits * (r + 1)
  {
    id / BusBits
  }

  /** `EnableBitPosition`: the peripheral's bit in its enable word, its
   * offset from the first id of that word. */
  function EnableBitPosition(id: nat): (r: nat)
    ensures r < BusBits && r == id - BusBits * EnableRegister(id)
  {
    id % BusBits
  }

  /** An id is its bus's first id plus its bit: the pair (register, bit) and
   * the id determine each other. */
  lemma EnableIndexing(id: nat, register: nat, bit: nat)
    requires bit < BusBits
    ensures EnableBitPosition(id) < BusBits
    ensures id == BusBits * EnableRegister(id) + EnableBitPosition(id)
    ensures id == BusBits * register + bit <==> EnableRegister(id) == register && EnableBitPosition(id) == bit
  {
    if id == BusBits * register + bit {
      Bits.DivModUnique(id, BusBits, register, bit);
    }
  }

  /** Two ids share a bit of the same enable word only if they are the
   * same id. */
  lemma EnableIndexInjective(a: nat, b: nat)
    requires EnableRegister(a) == EnableRegister(b) && EnableBitPosition(a) == EnableBitPosition(b)
    ensures a == b
  {
    EnableIndexing(a, 0, 0);
    EnableIndexing(b, 0, 0);
  }

  /** Clock dividers and selectors of `ClockConfiguration`. */
  datatype AhbDivider = AhbBy1 | AhbBy2 | AhbBy4 | AhbBy8 | AhbBy16 | AhbBy64 | AhbBy128 | AhbBy256 | AhbBy512
  datatype ApbDivider = ApbBy1 | ApbBy2 | ApbBy4 | ApbBy8 | ApbBy16
  datatype AdcDivider = AdcBy2 | AdcBy4 | AdcBy6 | AdcBy8
  datatype SystemClockSelect = SelectHighSpeedInternal | SelectHighSpeedExternal | SelectPll
  datatype RtcSource = NoClock | RtcLowSpeedInternal | RtcLowSpeedExternal | RtcHighSpeedExternalBy128
  datatype PllSource = PllHighSpeedInternal | PllHighSpeedExternal | PllHighSpeedExternalBy2
  datatype UsbDivider = UsbBy1 | UsbBy1Point5

  /** A `PllMultiply` code: 0 multiplies by 2, up to 14 for 16. */
  type PllMultiply = code: nat | code <= 14

  datatype Config = Config(
    highSpeedExternal: Hertz,
    lowSpeedExternal: Hertz,
    pllEnable: bool,
    pllSource: PllSource,
    pllMultiply: PllMultiply,
    usbDivider: UsbDivider,
    systemClock: SystemClockSelect,
    rtcEnable: bool,
    rtcSource: RtcSource,
    ahbDivider: AhbDivider,
    apb1Divider: ApbDivider,
    apb2Divider: ApbDivider,
    adcDivider: AdcDivider)

  function AhbDivisor(d: AhbDivider): (r: real)
    ensures r >= 1.0
  {
    match d
    case AhbBy1 => 1.0
    case AhbBy2 => 2.0
    case AhbBy4 => 4.0
    case AhbBy8 => 8.0
    case AhbBy16 => 16.0
    case AhbBy64 => 64.0
    case AhbBy128 => 128.0
    case AhbBy256 => 256.0
    case AhbBy512 => 512.0
  }

  function ApbDivisor(d: ApbDivider): (r: real)
    ensures r >= 1.0
  {
    match d
    case ApbBy1 => 1.0
    case ApbBy2 => 2.0
    case ApbBy4 => 4.0
    case ApbBy8 => 8.0
    case ApbBy16 => 16.0
  }

  function AdcDivisor(d: AdcDivider): (r: real)
    ensures r >= 2.0
  {
    match d
    case AdcBy2 => 2.0
    case AdcBy4 => 4.0
    case AdcBy6 => 6.0
    case AdcBy8 => 8.0
  }

  /** The clock fed into the PLL: half the internal oscillator, the external
   * oscillator, or half of it. */
  function PllInput(c: Config): (r: Hertz)
    ensures c.pllSource == PllHighSpeedInternal ==> r == 4_000_000.0
    ensures c.pllSource == PllHighSpeedExternal ==> r == c.highSpeedExternal
    ensures c.pllSource == PllHighSpeedExternalBy2 ==> 2.0 * r == c.highSpeedExternal
  {
    match c.pllSource
    case PllHighSpeedInternal => HighSpeedInternal / 2.0
    case PllHighSpeedExternal => c.highSpeedExternal
    case PllHighSpeedExternalBy2 => c.highSpeedExternal / 2.0
  }

  /** The PLL output when enabled: its input times `code + 2`, so 2 to 16
   * times the input, and 8 to 64 MHz from the internal oscillator. */
  function PllRate(c: Config): (r: Hertz)
    ensures PllInput(c) * 2.0 <= r <= PllInput(c) * 16.0
    ensures c.pllSource == PllHighSpeedInternal ==> 8_000_000.0 <= r <= 64_000_000.0
  {
    var input, factor := PllInput(c), (c.pllMultiply + 2) as real;
    ScaledBetween(input * factor, input, factor, 2.0, 16.0);
    input * factor
  }

  /** `x * f` lies between `x * lo` and `x * hi` for a non-negative `x`
   * and `lo <= f <= hi`. */
  lemma ScaledBetween(r: real, x: real, f: real, lo: real, hi: real)
    requires r == x * f && x >= 0.0 && lo <= f <= hi
    ensures x * lo <= r <= x * hi
  {
  }

  /** The flash wait states for a PLL system clock: none up to 24 MHz, one
   * up to 48 MHz, two above. */
  function FlashLatency(pllRate: Hertz): (r: nat)
    ensures r <= 2
    ensures r == 0 <==> pllRate <= 24_000_000.0
    ensures r == 2 <==> pllRate > 48_000_000.0
  {
    if pllRate <= 24_000_000.0 then 0
    else if 24_000_000.0 <= pllRate <= 48_000_000.0 then 1
    else 2
  }

  /** More wait states for a faster clock, never fewer. */
  lemma FlashLatencyMonotone(a: Hertz, b: Hertz)
    requires a <= b
    ensures FlashLatency(a) <= FlashLatency(b)
  {
  }

  /** The rates `Initialize` stores (`*_clock_rate_`). */
  datatype Rates = Rates(
    rtc: Hertz, usb: Hertz, pll: Hertz, ahb: Hertz, apb1: Hertz, apb2: Hertz,
    timerApb1: Hertz, timerApb2: Hertz, adc: Hertz)

  /** A timer on an APB bus runs at the bus rate when the bus is not
   * divided, otherwise at twice it. */
  function TimerRate(apb: Hertz, d: ApbDivider): (r: Hertz)
    ensures d == ApbBy1 ==> r == apb
    ensures d != ApbBy1 ==> r == 2.0 * apb
  {
    if d == ApbBy1 then apb else apb * 2.0
  }

  function SystemClockRate(c: Config, pll: Hertz): (r: Hertz)
    ensures c.systemClock == SelectHighSpeedInternal ==> r == HighSpeedInternal
    ensures c.systemClock == SelectHighSpeedExternal ==> r == c.highSpeedExternal
    ensures c.systemClock == SelectPll ==> r == pll
  {
    match c.systemClock
    case SelectHighSpeedInternal => HighSpeedInternal
    case SelectHighSpeedExternal => c.highSpeedExternal
    case SelectPll => pll
  }

  /** The RTC clock: stopped without a source, otherwise the chosen
   * oscillator, the external one divided by 128. */
  function RtcRate(c: Config): (r: Hertz)
    ensures c.rtcSource == NoClock ==> r == 0.0
    ensures c.rtcSource == RtcLowSpeedInternal ==> r == LowSpeedInternal
    ensures c.rtcSource == RtcLowSpeedExternal ==> r == c.lowSpeedExternal
    ensures c.rtcSource == RtcHighSpeedExternalBy128 ==> 128.0 * r == c.highSpeedExternal
  {
    match c.rtcSource
    case NoClock => 0.0
    case RtcLowSpeedInternal => LowSpeedInternal
    case RtcLowSpeedExternal => c.lowSpeedExternal
    case RtcHighSpeedExternalBy128 => c.highSpeedExternal / 128.0
  }

  /** `x` divided by `d >= 1`: a frequency again, and no faster than `x`. */
  function Divide(x: Hertz, d: real): (r: Hertz)
    requires d >= 1.0
    ensures r == x / d && r <= x
  {
    DivideAtMost(x, d);
    x / d
  }

  lemma DivideAtMost(x: Hertz, d: real)
    requires d >= 1.0
    ensures 0.0 <= x / d <= x
  {
  }

  /** The rates after `Initialize` with configuration `c`. The PLL rate is
   * only recomputed when the PLL is enabled; otherwise the previous one
   * (`oldPll`) stays and still feeds the PLL system clock and USB. Every
   * division is exact: the USB clock of a 64 MHz PLL is 128/3 MHz. */
  function InitialRates(c: Config, oldPll: Hertz): (r: Rates)
    ensures r.pll == if c.pllEnable then PllRate(c) else oldPll
    ensures r.ahb == SystemClockRate(c, r.pll) / AhbDivisor(c.ahbDivider)
    ensures r.apb1 == r.ahb / ApbDivisor(c.apb1Divider)
    ensures r.apb2 == r.ahb / ApbDivisor(c.apb2Divider)
    ensures r.timerApb1 == TimerRate(r.apb1, c.apb1Divider)
    ensures r.timerApb2 == TimerRate(r.apb2, c.apb2Divider)
    ensures r.adc == r.apb2 / AdcDivisor(c.adcDivider)
    ensures r.usb == if c.usbDivider == UsbBy1 then r.pll else (r.pll * 2.0) / 3.0
    ensures r.rtc == RtcRate(c)
  {
    var pll := if c.pllEnable then PllRate(c) else oldPll;
    var ahb := Divide(SystemClockRate(c, pll), AhbDivisor(c.ahbDivider));
    var apb1 := Divide(ahb, ApbDivisor(c.apb1Divider));
    var apb2 := Divide(ahb, ApbDivisor(c.apb2Divider));
    var usb := if c.usbDivider == UsbBy1 then pll else Divide(pll * 2.0, 3.0);
    Rates(RtcRate(c), usb, pll, ahb, apb1, apb2,
          TimerRate(apb1, c.apb1Divider), TimerRate(apb2, c.apb2Divider), Divide(apb2, AdcDivisor(c.adcDivider)))
  }

  /** Dividing never speeds a clock up: each bus runs no faster than the
   * clock feeding it, and the ADC at most at half its bus. */
  lemma RatesOrdered(c: Config, oldPll: Hertz)
    ensures var r := InitialRates(c, oldPll);
      && r.ahb <= SystemClockRate(c, r.pll)
      && r.apb1 <= r.ahb && r.apb2 <= r.ahb
      && r.timerApb1 <= 2.0 * r.apb1 && r.timerApb2 <= 2.0 * r.apb2
      && 2.0 * r.adc <= r.apb2
  {
    var r := InitialRates(c, oldPll);
    DivideAtMost(SystemClockRate(c, r.pll), AhbDivisor(c.ahbDivider));
    DivideAtMost(r.ahb, ApbDivisor(c.apb1Divider));
    DivideAtMost(r.ahb, ApbDivisor(c.apb2Divider));
    HalvedAtMost(r.apb2, AdcDivisor(c.adcDivider));
  }

  lemma HalvedAtMost(x: Hertz, d: real)
    requires d >= 2.0
    ensures 2.0 * (x / d) <= x
  {
  }

  /** The bus an id belongs to by its range. */
  datatype Bus = Ahb | Apb1 | Apb2 | Beyond

  function BusOf(id: nat): (b: Bus)
    ensures b == Ahb <==> EnableRegister(id) == 0
    ensures b == Apb1 <==> EnableRegister(id) == 1
    ensures b == Apb2 <==> EnableRegister(id) == 2
  {
    if id < Apb1Base then Ahb
    else if id < Apb2Base then Apb1
    else if id < BeyondBase then Apb2
    else Beyond
  }

  /** The ids with a clock of their own rather than their bus's. */
  predicate IsSpecial(id: nat)
  {
    id == I2s || id == Usb || id == Flitf || id == SystemTimer || id == Cpu
    || Timer2 <= id <= Timer14
    || id == Timer1 || id == Timer8 || id == Timer9 || id == Timer10 || id == Timer11
    || id == Adc1 || id == Adc2 || id == Adc3
  }

  /** `GetClockRate`: the special ids first (I2S on the PLL, USB, the flash
   * interface on the internal oscillator, the CPU and system timer on AHB,
   * the timers on their timer clocks, the ADCs), then the bus by range,
   * and 0 Hz beyond the buses. */
  function ClockRate(r: Rates, id: nat): (rate: Hertz)
    ensures id == I2s ==> rate == r.pll
    ensures id == Usb ==> rate == r.usb
    ensures id == Flitf ==> rate == HighSpeedInternal
    ensures id == Cpu || id == SystemTimer ==> rate == r.ahb
    ensures Timer2 <= id <= Timer14 ==> rate == r.timerApb1
    ensures id in {Timer1, Timer8, Timer9, Timer10, Timer11} ==> rate == r.timerApb2
    ensures id in {Adc1, Adc2, Adc3} ==> rate == r.adc
  {
    if id == I2s then r.pll
    else if id == Usb then r.usb
    else if id == Flitf then HighSpeedInternal
    else if id == SystemTimer || id == Cpu then r.ahb
    else if Timer2 <= id <= Timer14 then r.timerApb1
    else if id == Timer1 || id == Timer8 || id == Timer9 || id == Timer10 || id == Timer11 then r.timerApb2
    else if id == Adc1 || id == Adc2 || id == Adc3 then r.adc
    else if id < Apb1Base then r.ahb
    else if Apb1Base <= id < Apb2Base then r.apb1
    else if Apb2Base <= id < BeyondBase then r.apb2
    else 0.0
  }

  /** Every other peripheral runs at the rate of the bus whose enable
   * register holds its power bit; ids past the buses report 0 Hz. */
  lemma ClockRateByBus(r: Rates, id: nat)
    requires !IsSpecial(id)
    ensures BusOf(id) == Ahb ==> ClockRate(r, id) == r.ahb
    ensures BusOf(id) == Apb1 ==> ClockRate(r, id) == r.apb1
    ensures BusOf(id) == Apb2 ==> ClockRate(r, id) == r.apb2
    ensures BusOf(id) == Beyond ==> ClockRate(r, id) == 0.0
  {
  }

  /** The APB1 timers run at their bus rate or twice it, depending on the
   * bus divider chosen in `c`. */
  lemma TimerClock(c: Config, oldPll: Hertz, id: nat)
    requires Timer2 <= id <= Timer14
    ensures var r := InitialRates(c, oldPll);
      ClockRate(r, id) == if c.apb1Divider == ApbBy1 then r.apb1 else 2.0 * r.apb1
  {
  }

  /** The configuration `SetMaximumClockSpeed` asks for: an 8 MHz external
   * oscillator into the PLL times 9, the PLL as system clock, APB1 halved,
   * the ADC at a sixth of APB2 and USB at two thirds of the PLL; every other
   * setting keeps its default. */
  predicate MaximumClockSpeed(c: Config)
  {
    && c.highSpeedExternal == 8_000_000.0 && c.pllEnable && c.pllSource == PllHighSpeedExternal
    && c.pllMultiply == 7 && c.systemClock == SelectPll && c.usbDivider == UsbBy1Point5
    && c.ahbDivider == AhbBy1 && c.apb1Divider == ApbBy2 && c.apb2Divider == ApbBy1 && c.adcDivider == AdcBy6
  }

  /** That configuration runs the CPU and APB2 at 72 MHz, APB1 at 36 MHz,
   * USB at 48 MHz and the ADC at 12 MHz, with two flash wait states. */
  lemma MaximumClockSpeedRates(c: Config, oldPll: Hertz)
    requires MaximumClockSpeed(c)
    ensures var r := InitialRates(c, oldPll);
      && r.pll == 72_000_000.0 && r.ahb == 72_000_000.0 && r.apb1 == 36_000_000.0 && r.apb2 == 72_000_000.0
      && r.timerApb1 == 72_000_000.0 && r.timerApb2 == 72_000_000.0
      && r.usb == 48_000_000.0 && r.adc == 12_000_000.0
      && FlashLatency(r.pll) == 2
  {
  }

  /** The configuration `SetMaximumClockSpeedUsingInternalOscillator` asks
   * for: the halved internal oscillator into the PLL times 16, otherwise as
   * `MaximumClockSpeed`. */
  predicate MaximumClockSpeedInternal(c: Config)
  {
    && c.pllEnable && c.pllSource == PllHighSpeedInternal
    && c.pllMultiply == 14 && c.systemClock == SelectPll && c.usbDivider == UsbBy1Point5
    && c.ahbDivider == AhbBy1 && c.apb1Divider == ApbBy2 && c.apb2Divider == ApbBy1 && c.adcDivider == AdcBy6
  }

  /** That configuration runs the CPU and APB2 at 64 MHz and APB1 at
   * 32 MHz; USB gets 128/3 MHz and the ADC 32/3 MHz, which is below the
   * 12 MHz the preset's comment gives it. */
  lemma MaximumClockSpeedInternalRates(c: Config, oldPll: Hertz)
    requires MaximumClockSpeedInternal(c)
    ensures var r := InitialRates(c, oldPll);
      && r.pll == 64_000_000.0 && r.ahb == 64_000_000.0 && r.apb1 == 32_000_000.0 && r.apb2 == 64_000_000.0
      && r.timerApb1 == 64_000_000.0 && r.timerApb2 == 64_000_000.0
      && 3.0 * r.usb == 128_000_000.0 && 3.0 * r.adc == 32_000_000.0
      && 10_666_666.0 < r.adc < 12_000_000.0
      && FlashLatency(r.pll) == 2
  {
  }

  /** The flash access control register with the wait states written into
   * its low three bits. */
  function FlashAccess(acr: nat, latency: nat): nat
  {
    Bits.Insert(acr, latency, Bits.MaskFromRange(0, 2), 32)
  }

  lemma FlashAccessReadBack(acr: nat, pllRate: Hertz)
    ensures Bits.Extract(FlashAccess(acr, FlashLatency(pllRate)), Bits.MaskFromRange(0, 2)) == FlashLatency(pllRate)
  {
    Bits.InsertThenExtract(acr, FlashLatency(pllRate), Bits.MaskFromRange(0, 2), 32);
    assert Bits.Pow2(3) == 8 by { Bits.Pow2Small(); }
    Bits.LowOfSmall(FlashLatency(pllRate), 3);
  }

  /** The STM32F10x system controller: the three enable words (`AHBENR`,
   * `APB1ENR`, `APB2ENR`), the flash access control register and the
   * rates. */
  class SystemController {
    const enable: array<nat>
    var flashAccess: nat
    var rates: Rates

    constructor(enable: array<nat>)
      requires enable.Length == 3
      ensures this.enable == enable && rates == Rates(0.0, 0.0, 0.0, 0.0, 0.0, 0.0, 0.0, 0.0, 0.0)
    {
      this.enable := enable;
      flashAccess := 0;
      rates := Rates(0.0, 0.0, 0.0, 0.0, 0.0, 0.0, 0.0, 0.0, 0.0);
    }

    /** `IsPeripheralPoweredUp`: the peripheral's bit in its enable word,
     * the binary digit of place `2^(id mod 32)` of word `id / 32`. */
    predicate IsPoweredUp(id: nat)
      requires enable.Length == 3 && id < BeyondBase
      reads this, enable
      ensures IsPoweredUp(id) <==> (enable[id / BusBits] / Bits.Pow2(id % BusBits)) % 2 == 1
    {
      Bits.BitIsDigit(enable[EnableRegister(id)], EnableBitPosition(id));
      Bits.Bit(enable[EnableRegister(id)], EnableBitPosition(id))
    }

    /** `PowerUpPeripheral`: sets exactly the peripheral's bit; every other
     * peripheral keeps its power state. */
    method PowerUp(id: nat)
      requires enable.Length == 3 && id < BeyondBase
      modifies enable
      ensures IsPoweredUp(id)
      ensures forall other: nat :: other < BeyondBase && other != id ==> IsPoweredUp(other) == old(IsPoweredUp(other))
      ensures forall k :: 0 <= k < 3 && k != EnableRegister(id) ==> enable[k] == old(enable[k])
    {
      var register := EnableRegister(id);
      var before := enable[register];
      enable[register] := Bits.Set(before, EnableBitPosition(id), BusBits);
      forall other: nat | other < BeyondBase && other != id
        ensures IsPoweredUp(other) == old(IsPoweredUp(other))
      {
        if EnableRegister(other) == register {
          WriteOneBit(before, 1, id, other);
        }
      }
      WriteOneBit(before, 1, id, id);
    }

    /** `PowerDownPeripheral`: clears exactly the peripheral's bit. */
    method PowerDown(id: nat)
      requires enable.Length == 3 && id < BeyondBase
      modifies enable
      ensures !IsPoweredUp(id)
      ensures forall other: nat :: other < BeyondBase && other != id ==> IsPoweredUp(other) == old(IsPoweredUp(other))
      ensures forall k :: 0 <= k < 3 && k != EnableRegister(id) ==> enable[k] == old(enable[k])
    {
      var register := EnableRegister(id);
      var before := enable[register];
      enable[register] := Bits.Clear(before, EnableBitPosition(id), BusBits);
      forall other: nat | other < BeyondBase && other != id
        ensures IsPoweredUp(other) == old(IsPoweredUp(other))
      {
        if EnableRegister(other) == register {
          WriteOneBit(before, 0, id, other);
        }
      }
      WriteOneBit(before, 0, id, id);
    }

    /** `Initialize` (rates and flash wait states): with the PLL selected as
     * system clock the wait states for the PLL rate are written first;
     * then every rate is set from the configuration. */
    method Initialize(c: Config)
      modifies this
      ensures rates == InitialRates(c, old(rates).pll)
      ensures c.systemClock == SelectPll ==> flashAccess == FlashAccess(old(flashAccess), FlashLatency(rates.pll))
      ensures c.systemClock != SelectPll ==> flashAccess == old(flashAccess)
    {
      var pll := rates.pll;
      if c.pllEnable {
        pll := PllRate(c);
      }
      if c.systemClock == SelectPll {
        flashAccess := FlashAccess(flashAccess, FlashLatency(pll));
      }
      rates := InitialRates(c, rates.pll);
    }

    /** `GetClockRate` on the current rates. */
    function GetClockRate(id: nat): (rate: Hertz)
      reads this
      ensures rate == ClockRate(rates, id)
    {
      ClockRate(rates, id)
    }
  }

  /** Writing bit `EnableBitPosition(id)` of `id`'s enable word: `id` reads
   * back the written bit, every other id in that word keeps its bit. */
  lemma WriteOneBit(word: nat, value: nat, id: nat, other: nat)
    requires value <= 1 && EnableRegister(id) == EnableRegister(other)
    ensures var written := Bits.Insert(word, value, Bits.MaskFromBit(EnableBitPosition(id)), BusBits);
      Bits.Bit(written, EnableBitPosition(other)) ==
        if other == id then value == 1 else Bits.Bit(word, EnableBitPosition(other))
  {
    EnableIndexing(other, 0, 0);
    EnableIndexing(id, 0, 0);
    Bits.InsertBit(word, value, Bits.MaskFromBit(EnableBitPosition(id)), BusBits, EnableBitPosition(other));
    if other != id {
      if EnableBitPosition(other) == EnableBitPosition(id) {
        EnableIndexInjective(id, other);
      }
    } else {
      Bits.LowOfSmall(value, 1);
      Bits.ZeroBits(0);
      Bits.OneBits(0);
    }
  }
}
