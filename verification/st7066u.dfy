/** The ST7066U character LCD driver: how each call turns into writes on the
 * enable (E), register-select (RS) and read/write (RW) pins and on the
 * parallel data bus, and what the controller receives from those writes.
 *
 * The driver's pins and bus are modelled by the trace of output events they
 * are given, appended to in call order. Pin direction setup, the bus's own
 * initialisation and the delays between writes are not recorded. */
module St7066u {
  import opened Wrappers

  /** `WriteOperation`: the level RS is driven to. */
  datatype Operation = Command | Data

  datatype BusMode = FourBit | EightBit
  datatype DisplayMode = SingleLine | MultiLine
  datatype FontStyle = Font5x8 | Font5x11
  datatype CursorDirection = Forward | Backward

  /** Command bytes. */
  const ClearDisplayCode: Byte := 0x01
  const ResetCursorCode: Byte := 0x02
  const CursorDirectionBackwardCode: Byte := 0x04
  const CursorDirectionForwardCode: Byte := 0x06
  const TurnDisplayOffCode: Byte := 0x08
  const TurnDisplayOnCode: Byte := 0x0C
  const TurnCursorOnCode: Byte := 0x0F
  const DefaultDisplayConfigurationCode: Byte := 0x20

  /** Base cursor command of each display line. */
  const LineAddresses: seq<Byte> := [0x80, 0xC0, 0x94, 0xD4]

  /** Characters per line. */
  const MaxDisplayWidth: nat := 20

  /** The enum values of the configuration fields: bit 4, bit 3 and bit 2
   * of the function-set command. */
  function BusModeBits(m: BusMode): Byte
  {
    match m
    case FourBit => 0x00
    case EightBit => 0x10
  }

  function DisplayModeBits(m: DisplayMode): Byte
  {
    match m
    case SingleLine => 0x00
    case MultiLine => 0x08
  }

  function FontStyleBits(f: FontStyle): Byte
  {
    match f
    case Font5x8 => 0x00
    case Font5x11 => 0x04
  }

  /** The function-set command `Initialize` sends first: 0x20 ORed with the
   * three configuration fields. The fields occupy disjoint bits, so the OR
   * is their sum. */
  function ConfigurationCommand(bus: BusMode, display: DisplayMode, font: FontStyle): (r: Byte)
    ensures 0x20 <= r < 0x40 && r % 4 == 0
  {
    DefaultDisplayConfigurationCode + BusModeBits(bus) + DisplayModeBits(display) + FontStyleBits(font)
  }

  /** The controller reads the configuration back from the command's bits:
   * bit 4 is the bus width, bit 3 the line count and bit 2 the font. */
  lemma ConfigurationFields(bus: BusMode, display: DisplayMode, font: FontStyle)
    ensures var c := ConfigurationCommand(bus, display, font);
      && (c / 16 % 2 == 1 <==> bus == EightBit)
      && (c / 8 % 2 == 1 <==> display == MultiLine)
      && (c / 4 % 2 == 1 <==> font == Font5x11)
  {
  }

  /** `CursorPosition_t`. */
  datatype CursorPosition = CursorPosition(line: Byte, position: Byte)

  /** A cursor position the display has: one of the four lines and one of
   * the 20 columns. */
  predicate ValidPosition(p: CursorPosition)
  {
    p.line < |LineAddresses| && p.position < MaxDisplayWidth
  }

  /** The cursor command of `SetCursorPosition`: the line's base address
   * plus the column. It is a set-address instruction (bit 7 set) whose
   * address lies in the line's range of display memory. */
  function CursorCommand(p: CursorPosition): (r: Byte)
    requires ValidPosition(p)
    ensures r >= 0x80 && r - 0x80 == LineAddresses[p.line] - 0x80 + p.position
  {
    LineAddresses[p.line] + p.position
  }

  /** No two positions share a cursor command: the four lines' ranges of
   * display memory do not overlap. */
  lemma CursorCommandInjective(p: CursorPosition, q: CursorPosition)
    requires ValidPosition(p) && ValidPosition(q)
    ensures CursorCommand(p) == CursorCommand(q) <==> p == q
  {
  }

  /** The guard of `SetCursorPosition` as written: line numbers up to 4 pass
   * it, although the line table has four entries. */
  predicate CursorGuardAsWritten(p: CursorPosition)
    ensures CursorGuardAsWritten(p) <==> ValidPosition(p) || (p.line == 4 && p.position < MaxDisplayWidth)
  {
    p.line < 5 && p.position < MaxDisplayWidth
  }

  /** The line-table read of `SetCursorPosition` as written, for positions
   * its guard lets through: `None` where it reads past the table. */
  function CursorCommandAsWritten(p: CursorPosition): (r: Option<Byte>)
    requires CursorGuardAsWritten(p)
    ensures r.Some? <==> ValidPosition(p)
    ensures r.Some? ==> r.value == CursorCommand(p)
  {
    if p.line < |LineAddresses| then Some(LineAddresses[p.line] + p.position) else None
  }

  /** Line 4 passes the guard and reads past the four-entry line table. */
  lemma LineFourPassesGuard()
    ensures CursorGuardAsWritten(CursorPosition(4, 0))
    ensures CursorCommandAsWritten(CursorPosition(4, 0)) == None
  {
  }

  /** `strlen`: the characters before the first NUL, or all of them when
   * there is none. */
  function Strlen(text: seq<Byte>): (r: nat)
    ensures r <= |text|
    ensures forall i :: 0 <= i < r ==> text[i] != 0
    ensures r < |text| ==> text[r] == 0
  {
    if |text| == 0 || text[0] == 0 then 0 else 1 + Strlen(text[1..])
  }

  /** The number of characters `DisplayText` writes as written: `strlen` is
   * stored in a `uint8_t` first, so it is taken modulo 256 before it is
   * capped at the display width and at the room left on the line. */
  function DisplayedLengthAsWritten(length: nat, start: Byte): (r: nat)
    requires start < MaxDisplayWidth
    ensures r == DisplayedLength(length % 256, start)
  {
    var n := length % 256;
    var n := if n > MaxDisplayWidth then MaxDisplayWidth else n;
    if n > MaxDisplayWidth - start then MaxDisplayWidth - start else n
  }

  /** The number of characters `DisplayText` writes: the whole text when it
   * fits on the line from `start` on, otherwise as many as reach the end of
   * the line. */
  function DisplayedLength(length: nat, start: Byte): (r: nat)
    requires start < MaxDisplayWidth
    ensures r <= length && start + r <= MaxDisplayWidth
    ensures r == length || start + r == MaxDisplayWidth
  {
    var n := if length > MaxDisplayWidth then MaxDisplayWidth else length;
    if n > MaxDisplayWidth - start then MaxDisplayWidth - start else n
  }

  /** A 256-character text is displayed as no text at all, where the whole
   * first line was meant. */
  lemma LongTextTruncatedAsWritten()
    ensures DisplayedLengthAsWritten(256, 0) == 0
    ensures DisplayedLength(256, 0) == MaxDisplayWidth
  {
  }

  // ------------------------------------------------------- pins and bus

  /** One output event on the display's pins or bus. */
  datatype Event =
    | EnableHigh
    | EnableLow
    | RegisterSelect(op: Operation)
    | ReadWriteLow
    | BusWrite(value: Byte)

  /** One call of `Write`: the RS level and the value put on the bus. */
  datatype Transfer = Transfer(op: Operation, value: Byte)

  /** The events of one `Write`: E high, RS set, RW low, the data on the
   * bus, then E low and high again, so the controller latches the data on
   * the falling edge. */
  function WriteEvents(t: Transfer): seq<Event>
  {
    [EnableHigh, RegisterSelect(t.op), ReadWriteLow, BusWrite(t.value), EnableLow, EnableHigh]
  }

  /** The events of a series of `Write` calls, in order. */
  function Events(ts: seq<Transfer>): (r: seq<Event>)
    ensures |r| == 6 * |ts|
  {
    if |ts| == 0 then [] else Events(ts[..|ts| - 1]) + WriteEvents(ts[|ts| - 1])
  }

  /** The `Write` calls that send one byte: in 4-bit mode its high nibble
   * then its low nibble, in 8-bit mode the byte itself, all with the same
   * RS level. */
  function Nibbles(mode: BusMode, t: Transfer): (r: seq<Transfer>)
    ensures forall i :: 0 <= i < |r| ==> r[i].op == t.op
    ensures mode == FourBit ==> |r| == 2 && r[0].value < 16 && r[1].value < 16
    ensures mode == EightBit ==> r == [t]
  {
    match mode
    case FourBit => [Transfer(t.op, t.value / 16), Transfer(t.op, t.value % 16)]
    case EightBit => [t]
  }

  /** The `Write` calls that send a series of bytes. */
  function Split(mode: BusMode, ts: seq<Transfer>): seq<Transfer>
  {
    if |ts| == 0 then [] else Split(mode, ts[..|ts| - 1]) + Nibbles(mode, ts[|ts| - 1])
  }

  /** The pin and bus events that send a series of bytes. */
  function Sent(mode: BusMode, ts: seq<Transfer>): seq<Event>
  {
    Events(Split(mode, ts))
  }

  // ------------------------------------------------- what the controller sees

  /** The RS level after a series of events, starting from `rs`. */
  function RegisterSelectAfter(events: seq<Event>, rs: Operation): Operation
  {
    if |events| == 0 then rs
    else match events[|events| - 1]
      case RegisterSelect(op) => op
      case _ => RegisterSelectAfter(events[..|events| - 1], rs)
  }

  /** The bus value after a series of events, starting from `bus`. */
  function BusAfter(events: seq<Event>, bus: Byte): Byte
  {
    if |events| == 0 then bus
    else match events[|events| - 1]
      case BusWrite(v) => v
      case _ => BusAfter(events[..|events| - 1], bus)
  }

  /** What the controller latches: on every falling edge of E, the RS level
   * and the bus value at that moment. */
  function Latched(events: seq<Event>, rs: Operation, bus: Byte): seq<Transfer>
  {
    if |events| == 0 then []
    else
      var before := events[..|events| - 1];
      Latched(before, rs, bus)
        + if events[|events| - 1] == EnableLow
          then [Transfer(RegisterSelectAfter(before, rs), BusAfter(before, bus))]
          else []
  }

  /** The bytes the controller assembles from what it latched: in 8-bit mode
   * each latched value, in 4-bit mode each pair of nibbles, high first (the
   * controller reads only the four upper data lines). */
  function Assemble(mode: BusMode, latched: seq<Transfer>): seq<Transfer>
  {
    match mode
    case EightBit => latched
    case FourBit =>
      if |latched| < 2 then []
      else
        var high := latched[|latched| - 2];
        var low := latched[|latched| - 1];
        Assemble(mode, latched[..|latched| - 2])
          + [Transfer(high.op, high.value % 16 * 16 + low.value % 16)]
  }

  /** What the controller receives from a series of events. */
  function Received(mode: BusMode, events: seq<Event>, rs: Operation, bus: Byte): seq<Transfer>
  {
    Assemble(mode, Latched(events, rs, bus))
  }

  /** One more event: what the controller's state and latches become. */
  lemma LatchedSnoc(events: seq<Event>, x: Event, rs: Operation, bus: Byte)
    ensures RegisterSelectAfter(events + [x], rs)
         == if x.RegisterSelect? then x.op else RegisterSelectAfter(events, rs)
    ensures BusAfter(events + [x], bus) == if x.BusWrite? then x.value else BusAfter(events, bus)
    ensures Latched(events + [x], rs, bus)
         == Latched(events, rs, bus)
            + if x == EnableLow then [Transfer(RegisterSelectAfter(events, rs), BusAfter(events, bus))] else []
  {
    assert (events + [x])[..|events|] == events;
  }

  /** One `Write` adds exactly its transfer to what is latched, whatever came
   * before it. */
  lemma LatchedWrite(events: seq<Event>, t: Transfer, rs: Operation, bus: Byte)
    ensures Latched(events + WriteEvents(t), rs, bus) == Latched(events, rs, bus) + [t]
  {
    var e1 := events + [EnableHigh];
    var e2 := e1 + [RegisterSelect(t.op)];
    var e3 := e2 + [ReadWriteLow];
    var e4 := e3 + [BusWrite(t.value)];
    var e5 := e4 + [EnableLow];
    var e6 := e5 + [EnableHigh];
    assert e6 == events + WriteEvents(t);
    LatchedSnoc(events, EnableHigh, rs, bus);
    LatchedSnoc(e1, RegisterSelect(t.op), rs, bus);
    LatchedSnoc(e2, ReadWriteLow, rs, bus);
    LatchedSnoc(e3, BusWrite(t.value), rs, bus);
    LatchedSnoc(e4, EnableLow, rs, bus);
    LatchedSnoc(e5, EnableHigh, rs, bus);
  }

  /** The controller latches exactly the `Write` calls made, in order. */
  lemma {:induction false} LatchedEvents(ts: seq<Transfer>, rs: Operation, bus: Byte)
    ensures Latched(Events(ts), rs, bus) == ts
  {
    if |ts| > 0 {
      var init := ts[..|ts| - 1];
      LatchedEvents(init, rs, bus);
      LatchedWrite(Events(init), ts[|ts| - 1], rs, bus);
      assert init + [ts[|ts| - 1]] == ts;
    }
  }

  /** On an 8-bit bus every byte is one `Write`. */
  lemma {:induction false} SplitEightBit(ts: seq<Transfer>)
    ensures Split(EightBit, ts) == ts
  {
    if |ts| > 0 {
      SplitEightBit(ts[..|ts| - 1]);
      assert ts[..|ts| - 1] + [ts[|ts| - 1]] == ts;
    }
  }

  /** On a 4-bit bus the controller joins a byte's two nibbles into the
   * byte. */
  lemma AssembleNibbles(s: seq<Transfer>, t: Transfer)
    ensures Assemble(FourBit, s + Nibbles(FourBit, t)) == Assemble(FourBit, s) + [t]
  {
    var x := s + Nibbles(FourBit, t);
    assert x[..|x| - 2] == s;
    assert t.value / 16 % 16 * 16 + t.value % 16 % 16 == t.value;
  }

  /** Splitting bytes into `Write` calls and assembling them again gives the
   * bytes back, in either bus mode. */
  lemma {:induction false} AssembleSplit(mode: BusMode, ts: seq<Transfer>)
    ensures Assemble(mode, Split(mode, ts)) == ts
  {
    match mode
    case EightBit =>
      SplitEightBit(ts);
    case FourBit =>
      if |ts| > 0 {
        var init := ts[..|ts| - 1];
        AssembleSplit(mode, init);
        AssembleNibbles(Split(mode, init), ts[|ts| - 1]);
        assert init + [ts[|ts| - 1]] == ts;
      }
  }

  /** The display receives exactly the bytes the driver sent, with the RS
   * level each was sent with. */
  lemma ReceivesSent(mode: BusMode, ts: seq<Transfer>, rs: Operation, bus: Byte)
    ensures Received(mode, Sent(mode, ts), rs, bus) == ts
  {
    LatchedEvents(Split(mode, ts), rs, bus);
    AssembleSplit(mode, ts);
  }

  lemma {:induction false} EventsAppend(a: seq<Transfer>, b: seq<Transfer>)
    ensures Events(a + b) == Events(a) + Events(b)
    decreases |b|
  {
    if |b| > 0 {
      var init := b[..|b| - 1];
      assert (a + b)[..|a + b| - 1] == a + init;
      EventsAppend(a, init);
    } else {
      assert a + b == a;
    }
  }

  lemma {:induction false} SplitAppend(mode: BusMode, a: seq<Transfer>, b: seq<Transfer>)
    ensures Split(mode, a + b) == Split(mode, a) + Split(mode, b)
    decreases |b|
  {
    if |b| > 0 {
      var init := b[..|b| - 1];
      assert (a + b)[..|a + b| - 1] == a + init;
      SplitAppend(mode, a, init);
    } else {
      assert a + b == a;
    }
  }

  /** Sending two series of bytes one after the other produces the events of
   * sending them as one series. */
  lemma SentAppend(mode: BusMode, a: seq<Transfer>, b: seq<Transfer>)
    ensures Sent(mode, a + b) == Sent(mode, a) + Sent(mode, b)
  {
    SplitAppend(mode, a, b);
    EventsAppend(Split(mode, a), Split(mode, b));
  }

  /** Sending one byte is its one or two `Write` calls. */
  lemma SentOne(mode: BusMode, t: Transfer)
    ensures Sent(mode, [t]) == Events(Nibbles(mode, t))
  {
    assert [t][..0] == [];
    assert Split(mode, [t]) == [] + Nibbles(mode, t);
    assert [] + Nibbles(mode, t) == Nibbles(mode, t);
  }

  /** The data transfers of a series of characters. */
  function DataTransfers(text: seq<Byte>): (r: seq<Transfer>)
    ensures |r| == |text|
    ensures forall i :: 0 <= i < |r| ==> r[i] == Transfer(Data, text[i])
  {
    seq(|text|, i requires 0 <= i < |text| => Transfer(Data, text[i]))
  }

  // ------------------------------------------------------------- driver

  /** `St7066u`: the configuration it was built with and the trace of
   * events on its pins and bus. */
  class Display {
    const busMode: BusMode
    const displayMode: DisplayMode
    const fontStyle: FontStyle
    var trace: seq<Event>

    constructor(busMode: BusMode, displayMode: DisplayMode, fontStyle: FontStyle)
      ensures this.busMode == busMode && this.displayMode == displayMode
      ensures this.fontStyle == fontStyle && trace == []
    {
      this.busMode := busMode;
      this.displayMode := displayMode;
      this.fontStyle := fontStyle;
      trace := [];
    }

    /** `Write`: one value on the bus, latched by a falling edge of E. */
    method Write(op: Operation, data: Byte)
      modifies this
      ensures trace == old(trace) + WriteEvents(Transfer(op, data))
    {
      trace := trace + [EnableHigh];
      trace := trace + [RegisterSelect(op)];
      trace := trace + [ReadWriteLow];
      trace := trace + [BusWrite(data)];
      trace := trace + [EnableLow];
      trace := trace + [EnableHigh];
    }

    /** `WriteCommand`: the byte with RS low, as two nibbles on a 4-bit bus
     * (`(command >> 4) & 0xF`, then `command & 0xF`) or whole on an 8-bit
     * bus. */
    method WriteCommand(command: Byte)
      modifies this
      ensures trace == old(trace) + Sent(busMode, [Transfer(Command, command)])
    {
      SentOne(busMode, Transfer(Command, command));
      match busMode
      case FourBit =>
        Write(Command, command / 16);
        Write(Command, command % 16);
        assert Events(Nibbles(busMode, Transfer(Command, command)))
            == WriteEvents(Transfer(Command, command / 16)) + WriteEvents(Transfer(Command, command % 16));
      case EightBit =>
        Write(Command, command);
        assert Events(Nibbles(busMode, Transfer(Command, command))) == WriteEvents(Transfer(Command, command));
    }

    /** `WriteData`: the same split as `WriteCommand`, with RS high. */
    method WriteData(data: Byte)
      modifies this
      ensures trace == old(trace) + Sent(busMode, [Transfer(Data, data)])
    {
      SentOne(busMode, Transfer(Data, data));
      match busMode
      case FourBit =>
        Write(Data, data / 16);
        Write(Data, data % 16);
        assert Events(Nibbles(busMode, Transfer(Data, data)))
            == WriteEvents(Transfer(Data, data / 16)) + WriteEvents(Transfer(Data, data % 16));
      case EightBit =>
        Write(Data, data);
        assert Events(Nibbles(busMode, Transfer(Data, data))) == WriteEvents(Transfer(Data, data));
    }

    /** `Initialize`: E high, then the function-set command with the bus,
     * line and font configuration, display on, and clear. */
    method Initialize()
      modifies this
      ensures trace == old(trace) + [EnableHigh] + Sent(busMode, [
        Transfer(Command, ConfigurationCommand(busMode, displayMode, fontStyle)),
        Transfer(Command, TurnDisplayOnCode),
        Transfer(Command, ClearDisplayCode)])
    {
      var configuration := ConfigurationCommand(busMode, displayMode, fontStyle);
      ghost var c1 := Transfer(Command, configuration);
      ghost var c2 := Transfer(Command, TurnDisplayOnCode);
      ghost var c3 := Transfer(Command, ClearDisplayCode);
      trace := trace + [EnableHigh];
      WriteCommand(configuration);
      SetDisplayOn(true);
      ClearDisplay();
      SentThree(busMode, old(trace) + [EnableHigh], c1, c2, c3);
    }

    /** `ClearDisplay`. */
    method ClearDisplay()
      modifies this
      ensures trace == old(trace) + Sent(busMode, [Transfer(Command, ClearDisplayCode)])
    {
      WriteCommand(ClearDisplayCode);
    }

    /** `SetDisplayOn`: display on (cursor off) or display off. */
    method SetDisplayOn(on: bool)
      modifies this
      ensures trace == old(trace) + Sent(busMode, [Transfer(Command, if on then TurnDisplayOnCode else TurnDisplayOffCode)])
    {
      WriteCommand(if on then TurnDisplayOnCode else TurnDisplayOffCode);
    }

    /** `SetCursorHidden`: display on with the cursor hidden, or with the
     * cursor shown and blinking. */
    method SetCursorHidden(hidden: bool)
      modifies this
      ensures trace == old(trace) + Sent(busMode, [Transfer(Command, if hidden then TurnDisplayOnCode else TurnCursorOnCode)])
    {
      WriteCommand(if hidden then TurnDisplayOnCode else TurnCursorOnCode);
    }

    /** `SetCursorDirection`. */
    method SetCursorDirection(direction: CursorDirection)
      modifies this
      ensures trace == old(trace) + Sent(busMode, [Transfer(Command,
        if direction == Backward then CursorDirectionBackwardCode else CursorDirectionForwardCode)])
    {
      match direction
      case Backward => WriteCommand(CursorDirectionBackwardCode);
      case Forward => WriteCommand(CursorDirectionForwardCode);
    }

    /** `SetCursorPosition`: the cursor command of a position on one of the
     * four lines. */
    method SetCursorPosition(p: CursorPosition)
      requires ValidPosition(p)
      modifies this
      ensures trace == old(trace) + Sent(busMode, [Transfer(Command, CursorCommand(p))])
    {
      WriteCommand(LineAddresses[p.line] + p.position);
    }

    /** `ResetCursorPosition`. */
    method ResetCursorPosition()
      modifies this
      ensures trace == old(trace) + Sent(busMode, [Transfer(Command, ResetCursorCode)])
    {
      WriteCommand(ResetCursorCode);
    }

    /** `DisplayText`: one cursor command, then the text's characters as
     * data, as many as fit on the line from the starting column. */
    method DisplayText(text: seq<Byte>, p: CursorPosition)
      requires ValidPosition(p)
      modifies this
      ensures trace == old(trace) + Sent(busMode,
        [Transfer(Command, CursorCommand(p))] + DataTransfers(text[..DisplayedLength(Strlen(text), p.position)]))
    {
      var terminationIndex := DisplayedLength(Strlen(text), p.position);
      SetCursorPosition(p);
      ghost var cursor := [Transfer(Command, CursorCommand(p))];
      var i := 0;
      while i < terminationIndex
        invariant 0 <= i <= terminationIndex <= |text|
        invariant trace == old(trace) + Sent(busMode, cursor + DataTransfers(text[..i]))
      {
        WriteData(text[i]);
        SentNextCharacter(busMode, cursor, text, i, old(trace));
        i := i + 1;
      }
    }
  }

  /** Three commands sent one by one leave the trace of sending them as one
   * series. */
  lemma SentThree(mode: BusMode, before: seq<Event>, c1: Transfer, c2: Transfer, c3: Transfer)
    ensures before + Sent(mode, [c1]) + Sent(mode, [c2]) + Sent(mode, [c3])
         == before + Sent(mode, [c1, c2, c3])
  {
    SentAppend(mode, [c1], [c2]);
    assert [c1] + [c2] == [c1, c2];
    SentAppend(mode, [c1, c2], [c3]);
    assert [c1, c2] + [c3] == [c1, c2, c3];
  }

  /** The trace after one more character of `DisplayText`. */
  lemma SentNextCharacter(mode: BusMode, cursor: seq<Transfer>, text: seq<Byte>, i: nat, before: seq<Event>)
    requires i < |text|
    ensures before + Sent(mode, cursor + DataTransfers(text[..i])) + Sent(mode, [Transfer(Data, text[i])])
         == before + Sent(mode, cursor + DataTransfers(text[..i + 1]))
  {
    assert DataTransfers(text[..i + 1]) == DataTransfers(text[..i]) + [Transfer(Data, text[i])];
    assert cursor + DataTransfers(text[..i + 1]) == (cursor + DataTransfers(text[..i])) + [Transfer(Data, text[i])];
    SentAppend(mode, cursor + DataTransfers(text[..i]), [Transfer(Data, text[i])]);
  }

  /** What the display receives from `DisplayText`: the cursor command, then
   * the characters that fit, each with RS high. */
  lemma DisplayTextReceived(mode: BusMode, text: seq<Byte>, p: CursorPosition, rs: Operation, bus: Byte)
    requires ValidPosition(p)
    ensures var n := DisplayedLength(Strlen(text), p.position);
      var r := Received(mode, Sent(mode, [Transfer(Command, CursorCommand(p))] + DataTransfers(text[..n])), rs, bus);
      && |r| == n + 1
      && r[0] == Transfer(Command, CursorCommand(p))
      && forall i :: 0 < i <= n ==> r[i] == Transfer(Data, text[i - 1])
  {
    var n := DisplayedLength(Strlen(text), p.position);
    ReceivesSent(mode, [Transfer(Command, CursorCommand(p))] + DataTransfers(text[..n]), rs, bus);
  }
}
