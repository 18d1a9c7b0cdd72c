/** The LPC40xx I2C controller driver: the interrupt handler that advances
 * the current transaction from the controller's status code, and the
 * blocking wrapper that starts a transaction and turns its final state into
 * an error.
 *
 * The controller's registers are modelled as follows: `control` is the
 * control register that `CONSET` sets bits of and `CONCLR` clears bits of;
 * `datWrites` lists, in order, every byte the driver wrote to `DAT`; the
 * byte the driver reads from `DAT` comes with the status code in an
 * `Event`. */
module Lpc40xxI2c {
  import opened Wrappers
  import opened I2c

  /** Flags of the control register. */
  datatype Control = AssertAcknowledge | Interrupt | Stop | Start | InterfaceEnable

  /** The bit each flag occupies in the control register. */
  function ControlBit(c: Control): (r: nat)
    ensures 2 <= r <= 6
  {
    match c
    case AssertAcknowledge => 2
    case Interrupt => 3
    case Stop => 4
    case Start => 5
    case InterfaceEnable => 6
  }

  lemma ControlBitsDistinct(a: Control, b: Control)
    requires ControlBit(a) == ControlBit(b)
    ensures a == b
  {
  }

  /** The controller's status codes (the `STAT` register); `Unlisted`
   * stands for any code the driver has no name for. */
  datatype MasterState =
    | BusError
    | StartCondition
    | RepeatedStart
    | AddressWriteAck
    | AddressWriteNack
    | DataWriteAck
    | DataWriteNack
    | ArbitrationLost
    | AddressReadAck
    | AddressReadNack
    | DataReadAck
    | DataReadNack
    | OwnAddressReceived
    | DoNothing
    | Unlisted(code: nat)

  /** The value of each named status code. */
  function StatusCode(s: MasterState): nat
  {
    match s
    case BusError => 0x00
    case StartCondition => 0x08
    case RepeatedStart => 0x10
    case AddressWriteAck => 0x18
    case AddressWriteNack => 0x20
    case DataWriteAck => 0x28
    case DataWriteNack => 0x30
    case ArbitrationLost => 0x38
    case AddressReadAck => 0x40
    case AddressReadNack => 0x48
    case DataReadAck => 0x50
    case DataReadNack => 0x58
    case OwnAddressReceived => 0xA0
    case DoNothing => 0xF8
    case Unlisted(code) => code
  }

  /** The status a `STAT` value names. */
  function StateOf(code: nat): (s: MasterState)
    ensures StatusCode(s) == code
  {
    if code == 0x00 then BusError
    else if code == 0x08 then StartCondition
    else if code == 0x10 then RepeatedStart
    else if code == 0x18 then AddressWriteAck
    else if code == 0x20 then AddressWriteNack
    else if code == 0x28 then DataWriteAck
    else if code == 0x30 then DataWriteNack
    else if code == 0x38 then ArbitrationLost
    else if code == 0x40 then AddressReadAck
    else if code == 0x48 then AddressReadNack
    else if code == 0x50 then DataReadAck
    else if code == 0x58 then DataReadNack
    else if code == 0xA0 then OwnAddressReceived
    else if code == 0xF8 then DoNothing
    else Unlisted(code)
  }

  /** The states the handler has a case for; any other is fatal. */
  predicate KnownStatus(s: MasterState)
  {
    !s.OwnAddressReceived? && !s.Unlisted?
  }

  /** What one call of the handler does: the updated transaction, the byte
   * written to `DAT` if any, the masks written to `CONSET` and `CONCLR`,
   * and whether the status code hit the fatal assertion. */
  datatype Effect = Effect(transaction: Transaction, dat: Option<Byte>, setMask: set<Control>, clearMask: set<Control>, fatal: bool)

  /** The handler indexes the caller's buffers without a bounds check; the
   * model requires every index it uses to be inside the buffer. */
  predicate InBounds(t: Transaction, status: MasterState)
  {
    && (status == AddressWriteAck && t.outLength != 0 ==> t.position < |t.dataOut|)
    && (status == DataWriteAck && t.position < t.outLength ==> t.position < |t.dataOut|)
    && (status == DataReadAck && t.position < t.inLength ==> t.position < |t.dataIn|)
    && (status == DataReadNack && t.inLength != 0 ==> t.position < |t.dataIn|)
  }

  /** The fields a handler call never changes. */
  predicate SameRequest(t: Transaction, u: Transaction)
  {
    && u.address == t.address && u.dataOut == t.dataOut && u.outLength == t.outLength
    && |u.dataIn| == |t.dataIn| && u.inLength == t.inLength
    && u.repeated == t.repeated && u.timeoutMs == t.timeoutMs
  }

  /** `I2cHandler` for one status code. `received` is the byte in `DAT`. */
  function Step(t: Transaction, status: MasterState, received: Byte): (e: Effect)
    requires InBounds(t, status)
    ensures Interrupt in e.clearMask
    ensures SameRequest(t, e.transaction)
    ensures e.fatal <==> !KnownStatus(status)
    ensures e.transaction.position <= t.position + 1
  {
    var e := Dispatch(t, status, received);
    e.(clearMask := e.clearMask + {Interrupt})
  }

  function Dispatch(t: Transaction, status: MasterState, received: Byte): (e: Effect)
    requires InBounds(t, status)
    ensures SameRequest(t, e.transaction)
    ensures e.fatal <==> !KnownStatus(status)
    ensures e.transaction.position <= t.position + 1
  {
    match status
    case BusError =>
      Effect(t.(status := Some(IoError)), None, {AssertAcknowledge, Stop}, {}, false)
    case StartCondition =>
      Effect(t, Some(ProperAddress(t)), {}, {}, false)
    case RepeatedStart =>
      var u := t.(operation := Read);
      Effect(u, Some(ProperAddress(u)), {}, {}, false)
    case AddressWriteAck =>
      if t.outLength == 0 then Effect(t.(busy := false), None, {Stop}, {Start}, false)
      else Effect(t.(position := t.position + 1), Some(t.dataOut[t.position]), {}, {Start}, false)
    case AddressWriteNack =>
      Effect(t.(busy := false, status := Some(NoSuchDeviceOrAddress)), None, {Stop}, {Start}, false)
    case DataWriteAck =>
      if t.position >= t.outLength then
        if t.repeated then Effect(t.(operation := Read, position := 0), None, {Start}, {}, false)
        else Effect(t.(busy := false), None, {Stop}, {}, false)
      else Effect(t.(position := t.position + 1), Some(t.dataOut[t.position]), {}, {}, false)
    case DataWriteNack =>
      Effect(t.(busy := false), None, {Stop}, {}, false)
    case ArbitrationLost =>
      Effect(t, None, {Start}, {}, false)
    case AddressReadAck =>
      if t.inLength == 0 then Effect(t, None, {Stop}, {Start}, false)
      else if t.inLength == 1 then Effect(t, None, {}, {Start, AssertAcknowledge}, false)
      else Effect(t, None, {AssertAcknowledge}, {Start}, false)
    case AddressReadNack =>
      Effect(t.(status := Some(NoSuchDeviceOrAddress), busy := false), None, {Stop}, {Start}, false)
    case DataReadAck =>
      var u := if t.position < t.inLength
               then t.(dataIn := t.dataIn[t.position := received], position := t.position + 1)
               else t;
      if u.position + 1 >= u.inLength then Effect(u.(busy := false), None, {}, {AssertAcknowledge}, false)
      else Effect(u, None, {AssertAcknowledge}, {}, false)
    case DataReadNack =>
      var u := t.(busy := false);
      var v := if t.inLength != 0
               then u.(dataIn := u.dataIn[u.position := received], position := u.position + 1)
               else u;
      Effect(v, None, {Stop}, {}, false)
    case DoNothing =>
      Effect(t, None, {}, {}, false)
    case _ =>
      Effect(t, None, {}, {Stop}, true)
  }

  function DatBytes(dat: Option<Byte>): seq<Byte>
  {
    match dat
    case None => []
    case Some(b) => [b]
  }

  /** A bus error records an I/O error and asks for acknowledge and STOP. */
  lemma BusErrorStep(t: Transaction, received: Byte)
    ensures var e := Step(t, BusError, received);
      e.transaction.status == Some(IoError) && e.setMask == {AssertAcknowledge, Stop}
      && e.transaction.busy == t.busy
  {
  }

  /** A START sends the address byte; a repeated START first turns the
   * transaction into a read, so the byte sent has the read bit set. */
  lemma StartSendsAddress(t: Transaction, received: Byte)
    ensures Step(t, StartCondition, received).dat == Some(ProperAddress(t))
    ensures Step(t, StartCondition, received).transaction == t
    ensures var e := Step(t, RepeatedStart, received);
      e.transaction.operation == Read && e.dat.Some? && e.dat.value % 2 == 1
      && e.dat.value / 2 == t.address % 128
  {
  }

  /** After the address of a write is acknowledged the first data byte is
   * sent, or, with nothing to send, the transaction ends with STOP. */
  lemma AddressWriteAckStep(t: Transaction, received: Byte)
    requires InBounds(t, AddressWriteAck)
    ensures var e := Step(t, AddressWriteAck, received);
      && Start in e.clearMask
      && (t.outLength == 0 ==> !e.transaction.busy && Stop in e.setMask && e.dat.None?)
      && (t.outLength != 0 ==> e.dat == Some(t.dataOut[t.position])
                               && e.transaction.position == t.position + 1
                               && e.transaction.busy == t.busy)
  {
  }

  /** After the last data byte, a write-then-read switches to reading from
   * position 0 with a repeated START; a plain write ends with STOP. */
  lemma LastByteWrittenStep(t: Transaction, received: Byte)
    requires t.position >= t.outLength
    ensures var e := Step(t, DataWriteAck, received);
      && e.dat.None?
      && (t.repeated ==> e.transaction.operation == Read && e.transaction.position == 0
                         && Start in e.setMask && e.transaction.busy == t.busy)
      && (!t.repeated ==> !e.transaction.busy && Stop in e.setMask)
  {
  }

  /** A device that does not acknowledge its address ends the transaction
   * with a no-such-device error and STOP. */
  lemma AddressNackStep(t: Transaction, status: MasterState, received: Byte)
    requires status == AddressWriteNack || status == AddressReadNack
    ensures var e := Step(t, status, received);
      && !e.transaction.busy && e.transaction.status == Some(NoSuchDeviceOrAddress)
      && Stop in e.setMask && Start in e.clearMask
  {
  }

  /** A received byte is stored only while there is room, and the
   * acknowledge is withdrawn, ending the transaction, once at most one byte
   * is left to come. */
  lemma DataReadAckStep(t: Transaction, received: Byte)
    requires InBounds(t, DataReadAck)
    ensures var e := Step(t, DataReadAck, received);
      && (t.position < t.inLength ==> e.transaction.dataIn == t.dataIn[t.position := received]
                                       && e.transaction.position == t.position + 1)
      && (t.position >= t.inLength ==> e.transaction.dataIn == t.dataIn
                                        && e.transaction.position == t.position)
      && (e.transaction.position + 1 >= t.inLength <==> AssertAcknowledge in e.clearMask)
      && (e.transaction.position + 1 >= t.inLength ==> !e.transaction.busy)
      && (e.transaction.position + 1 < t.inLength ==> AssertAcknowledge in e.setMask)
  {
  }

  /** The state of the bus the handler drives. */
  datatype Bus = Bus(transaction: Transaction, datWrites: seq<Byte>, control: set<Control>)

  /** One interrupt: the status code and the byte in `DAT` at that time. */
  datatype Event = Event(status: MasterState, received: Byte)

  /** One handler call on the bus; `None` if it would index past a buffer. */
  function Apply(b: Bus, ev: Event): (r: Option<Bus>)
    ensures r.Some? <==> InBounds(b.transaction, ev.status)
  {
    if !InBounds(b.transaction, ev.status) then None
    else
      var e := Step(b.transaction, ev.status, ev.received);
      Some(Bus(e.transaction, b.datWrites + DatBytes(e.dat), b.control + e.setMask - e.clearMask))
  }

  /** The handler calls for a sequence of interrupts, in order. */
  function Run(b: Bus, events: seq<Event>): Option<Bus>
  {
    if |events| == 0 then Some(b)
    else
      match Run(b, events[..|events| - 1])
      case None => None
      case Some(r) => Apply(r, events[|events| - 1])
  }

  lemma {:induction false} RunAppend(b: Bus, a: seq<Event>, c: seq<Event>)
    ensures Run(b, a + c) == if Run(b, a).None? then None else Run(Run(b, a).value, c)
    decreases |c|
  {
    if |c| == 0 {
      assert a + c == a;
    } else {
      var c' := c[..|c| - 1];
      assert (a + c)[..|a + c| - 1] == a + c';
      RunAppend(b, a, c');
    }
  }

  lemma RunSnoc(b: Bus, es: seq<Event>, ev: Event)
    ensures Run(b, es + [ev]) == if Run(b, es).None? then None else Apply(Run(b, es).value, ev)
  {
    assert (es + [ev])[..|es|] == es;
  }

  /** A run that stays within the buffers does so at every point. */
  lemma {:induction false} RunPrefix(b: Bus, es: seq<Event>, j: nat)
    requires j <= |es| && Run(b, es).Some?
    ensures Run(b, es[..j]).Some?
    decreases |es|
  {
    if j == |es| {
      assert es[..j] == es;
    } else {
      var front := es[..|es| - 1];
      assert front[..j] == es[..j];
      RunPrefix(b, front, j);
    }
  }

  lemma RunOne(b: Bus, ev: Event)
    ensures Run(b, [ev]) == Apply(b, ev)
  {
    assert [ev][..0] == [];
  }

  function Repeat(ev: Event, k: nat): (r: seq<Event>)
    ensures |r| == k
  {
    if k == 0 then [] else Repeat(ev, k - 1) + [ev]
  }

  // One lemma per interrupt of an acknowledged transaction, each stating
  // the bus after that handler call.

  lemma ApplyStart(r: Bus, x: Byte)
    ensures Apply(r, Event(StartCondition, x))
         == Some(Bus(r.transaction, r.datWrites + [ProperAddress(r.transaction)], r.control - {Interrupt}))
  {
    assert r.control + {} - ({} + {Interrupt}) == r.control - {Interrupt};
  }

  lemma ApplyAddressWriteAckEmpty(r: Bus, x: Byte)
    requires r.transaction.outLength == 0
    ensures Apply(r, Event(AddressWriteAck, x))
         == Some(Bus(r.transaction.(busy := false), r.datWrites, r.control + {Stop} - {Start, Interrupt}))
  {
    var e := Step(r.transaction, AddressWriteAck, x);
    assert e.setMask == {Stop};
    assert e.clearMask == {Start} + {Interrupt};
    assert e.transaction == r.transaction.(busy := false);
    assert e.dat == None;
    assert Apply(r, Event(AddressWriteAck, x)) == Some(Bus(e.transaction, r.datWrites + DatBytes(e.dat), r.control + e.setMask - e.clearMask));
    assert r.datWrites + DatBytes(e.dat) == r.datWrites;
    assert r.control + {Stop} - ({Start} + {Interrupt}) == r.control + {Stop} - {Start, Interrupt};
  }

  lemma ApplyAddressWriteAckFirst(r: Bus, x: Byte)
    requires r.transaction.position == 0 < r.transaction.outLength <= |r.transaction.dataOut|
    ensures Apply(r, Event(AddressWriteAck, x))
         == Some(Bus(r.transaction.(position := 1), r.datWrites + [r.transaction.dataOut[0]],
                     r.control - {Start, Interrupt}))
  {
    assert r.control + {} - ({Start} + {Interrupt}) == r.control - {Start, Interrupt};
  }

  lemma ApplySend(r: Bus, x: Byte)
    requires r.transaction.position < r.transaction.outLength <= |r.transaction.dataOut|
    ensures Apply(r, Event(DataWriteAck, x))
         == Some(Bus(r.transaction.(position := r.transaction.position + 1),
                     r.datWrites + [r.transaction.dataOut[r.transaction.position]],
                     r.control - {Interrupt}))
  {
    assert r.control + {} - ({} + {Interrupt}) == r.control - {Interrupt};
  }

  lemma ApplyWriteDoneRepeated(r: Bus, x: Byte)
    requires r.transaction.position >= r.transaction.outLength && r.transaction.repeated
    ensures Apply(r, Event(DataWriteAck, x))
         == Some(Bus(r.transaction.(operation := Read, position := 0), r.datWrites, r.control + {Start} - {Interrupt}))
  {
    var e := Step(r.transaction, DataWriteAck, x);
    assert e.dat == None && e.setMask == {Start} && e.clearMask == {} + {Interrupt};
    assert Apply(r, Event(DataWriteAck, x)) == Some(Bus(e.transaction, r.datWrites + DatBytes(e.dat), r.control + e.setMask - e.clearMask));
    assert r.datWrites + DatBytes(e.dat) == r.datWrites;
    assert r.control + {Start} - ({} + {Interrupt}) == r.control + {Start} - {Interrupt};
  }

  lemma ApplyWriteDone(r: Bus, x: Byte)
    requires r.transaction.position >= r.transaction.outLength && !r.transaction.repeated
    ensures Apply(r, Event(DataWriteAck, x))
         == Some(Bus(r.transaction.(busy := false), r.datWrites, r.control + {Stop} - {Interrupt}))
  {
    var e := Step(r.transaction, DataWriteAck, x);
    assert e.dat == None && e.setMask == {Stop} && e.clearMask == {} + {Interrupt};
    assert Apply(r, Event(DataWriteAck, x)) == Some(Bus(e.transaction, r.datWrites + DatBytes(e.dat), r.control + e.setMask - e.clearMask));
    assert r.datWrites + DatBytes(e.dat) == r.datWrites;
    assert r.control + {Stop} - ({} + {Interrupt}) == r.control + {Stop} - {Interrupt};
  }

  lemma ApplyAddressReadAck(r: Bus, x: Byte)
    ensures var a := Apply(r, Event(AddressReadAck, x));
      a.Some? && a.value.transaction == r.transaction && a.value.datWrites == r.datWrites
  {
  }

  lemma ApplyReceive(r: Bus, x: Byte)
    requires r.transaction.position < r.transaction.inLength <= |r.transaction.dataIn|
    ensures var t, p := r.transaction, r.transaction.position;
      Apply(r, Event(DataReadAck, x))
      == Some(Bus(t.(dataIn := t.dataIn[p := x], position := p + 1, busy := if p + 2 >= t.inLength then false else t.busy),
                  r.datWrites,
                  if p + 2 >= t.inLength then r.control - {AssertAcknowledge, Interrupt}
                  else r.control + {AssertAcknowledge} - {Interrupt}))
  {
    var e := Step(r.transaction, DataReadAck, x);
    assert e.dat == None;
    assert Apply(r, Event(DataReadAck, x)) == Some(Bus(e.transaction, r.datWrites + DatBytes(e.dat), r.control + e.setMask - e.clearMask));
    assert r.datWrites + DatBytes(e.dat) == r.datWrites;
    if r.transaction.position + 2 >= r.transaction.inLength {
      assert e.setMask == {} && e.clearMask == {AssertAcknowledge} + {Interrupt};
      assert r.control + {} - ({AssertAcknowledge} + {Interrupt}) == r.control - {AssertAcknowledge, Interrupt};
    } else {
      assert e.setMask == {AssertAcknowledge} && e.clearMask == {} + {Interrupt};
      assert r.control + {AssertAcknowledge} - ({} + {Interrupt}) == r.control + {AssertAcknowledge} - {Interrupt};
    }
  }

  lemma ApplyLastByte(r: Bus, x: Byte)
    requires 0 < r.transaction.inLength && r.transaction.position < |r.transaction.dataIn|
    ensures var t, p := r.transaction, r.transaction.position;
      var a := Apply(r, Event(DataReadNack, x));
      && a.Some? && a.value.datWrites == r.datWrites && Stop in a.value.control
      && a.value.transaction == t.(busy := false, dataIn := t.dataIn[p := x], position := p + 1)
  {
  }

  /** The bus after `k` bytes of the output buffer have been sent from the
   * current position. */
  function Sent(b: Bus, k: nat): (r: Bus)
    requires b.transaction.position + k <= |b.transaction.dataOut|
    ensures r.transaction.position == b.transaction.position + k
  {
    var p := b.transaction.position;
    Bus(b.transaction.(position := p + k), b.datWrites + b.transaction.dataOut[p..p + k],
        if k == 0 then b.control else b.control - {Interrupt})
  }

  lemma SentStep(b: Bus, k: nat)
    requires 0 < k && b.transaction.position + k <= |b.transaction.dataOut|
    ensures var r := Sent(b, k - 1);
      Bus(r.transaction.(position := r.transaction.position + 1),
          r.datWrites + [r.transaction.dataOut[r.transaction.position]],
          r.control - {Interrupt})
      == Sent(b, k)
  {
    var p, r := b.transaction.position, Sent(b, k - 1);
    assert r.transaction.(position := r.transaction.position + 1) == Sent(b, k).transaction;
    assert r.datWrites + [r.transaction.dataOut[p + k - 1]] == Sent(b, k).datWrites by {
      assert b.transaction.dataOut[p..p + k] == b.transaction.dataOut[p..p + k - 1] + [b.transaction.dataOut[p + k - 1]];
    }
    assert r.control - {Interrupt} == Sent(b, k).control;
  }

  /** One more acknowledged data byte sends the next byte of the buffer. */
  lemma SendNext(b: Bus, k: nat)
    requires 0 < k && b.transaction.position + k <= b.transaction.outLength <= |b.transaction.dataOut|
    ensures Apply(Sent(b, k - 1), Event(DataWriteAck, 0)) == Some(Sent(b, k))
  {
    ApplySend(Sent(b, k - 1), 0);
    SentStep(b, k);
  }

  /** `k` data-acknowledge interrupts while bytes remain send the next `k`
   * bytes of the output buffer. */
  lemma {:induction false} SendBytes(b: Bus, k: nat)
    requires b.transaction.position + k <= b.transaction.outLength <= |b.transaction.dataOut|
    ensures Run(b, Repeat(Event(DataWriteAck, 0), k)) == Some(Sent(b, k))
  {
    var p, ev := b.transaction.position, Event(DataWriteAck, 0);
    if k == 0 {
      assert b.datWrites + b.transaction.dataOut[p..p] == b.datWrites;
      assert Sent(b, 0) == b;
    } else {
      SendBytes(b, k - 1);
      RunSnoc(b, Repeat(ev, k - 1), ev);
      SendNext(b, k);
    }
  }

  /** The interrupts of a write of `n` bytes that every device acknowledges. */
  function WriteEvents(n: nat): seq<Event>
  {
    [Event(StartCondition, 0), Event(AddressWriteAck, 0)] + Repeat(Event(DataWriteAck, 0), n)
  }

  /** The bus after the first two interrupts of a write: the address has
   * gone out, then the first byte if there is one. */
  function Opened(b: Bus): (r: Bus)
    requires b.transaction.outLength <= |b.transaction.dataOut|
  {
    var t, sent := b.transaction, b.datWrites + [ProperAddress(b.transaction)];
    if t.outLength == 0 then Bus(t.(busy := false), sent, b.control - {Interrupt} + {Stop} - {Start, Interrupt})
    else Bus(t.(position := 1), sent + [t.dataOut[0]], b.control - {Interrupt} - {Start, Interrupt})
  }

  lemma WriteOpening(b: Bus)
    requires b.transaction.position == 0 && b.transaction.outLength <= |b.transaction.dataOut|
    ensures Run(b, [Event(StartCondition, 0), Event(AddressWriteAck, 0)]) == Some(Opened(b))
  {
    var e0, e1 := Event(StartCondition, 0), Event(AddressWriteAck, 0);
    RunOne(b, e0);
    ApplyStart(b, 0);
    RunSnoc(b, [e0], e1);
    assert [e0] + [e1] == [e0, e1];
    var b1 := Apply(b, e0).value;
    if b.transaction.outLength == 0 {
      ApplyAddressWriteAckEmpty(b1, 0);
    } else {
      ApplyAddressWriteAckFirst(b1, 0);
    }
  }

  /** The last data-acknowledge interrupt of a write, once every byte has
   * gone out. */
  lemma WriteClose(b: Bus)
    requires b.transaction.position == 0 < b.transaction.outLength <= |b.transaction.dataOut|
    ensures var t, n := b.transaction, b.transaction.outLength;
      var a := Apply(Sent(Opened(b), n - 1), Event(DataWriteAck, 0));
      && a.Some?
      && a.value.datWrites == b.datWrites + [ProperAddress(t)] + t.dataOut[..n]
      && (!t.repeated ==> a.value.transaction == t.(busy := false, position := n) && Stop in a.value.control)
      && (t.repeated ==> a.value.transaction == t.(operation := Read, position := 0) && Start in a.value.control)
  {
    var t, n := b.transaction, b.transaction.outLength;
    var r := Sent(Opened(b), n - 1);
    assert r.transaction == t.(position := n);
    assert r.datWrites == b.datWrites + [ProperAddress(t)] + t.dataOut[..n] by {
      assert t.dataOut[..n] == [t.dataOut[0]] + t.dataOut[1..n];
    }
    if t.repeated {
      ApplyWriteDoneRepeated(r, 0);
    } else {
      ApplyWriteDone(r, 0);
    }
  }

  /** The address and the `n` bytes of data go on the bus, in order, when
   * every byte is acknowledged; the transaction is then either finished
   * with STOP (a plain write) or turned into a read with a repeated START
   * pending (a write-then-read). */
  lemma WriteRun(b: Bus)
    requires b.transaction.operation == Write && b.transaction.position == 0
    requires b.transaction.outLength <= |b.transaction.dataOut|
    ensures var t, n := b.transaction, b.transaction.outLength;
      var r := Run(b, WriteEvents(n));
      && r.Some?
      && r.value.datWrites == b.datWrites + [ProperAddress(t)] + t.dataOut[..n]
      && (!t.repeated ==> r.value.transaction == t.(busy := false, position := n) && Stop in r.value.control)
      && (t.repeated && n > 0 ==> r.value.transaction == t.(operation := Read, position := 0)
                                  && Start in r.value.control)
  {
    var n := b.transaction.outLength;
    if n == 0 {
      WriteRunEmpty(b);
    } else {
      WriteRunEvents(b);
      WriteClose(b);
    }
  }

  lemma WriteRunEmpty(b: Bus)
    requires b.transaction.position == 0 && b.transaction.outLength == 0
    ensures var t := b.transaction;
      var r := Run(b, WriteEvents(0));
      && r.Some?
      && r.value.datWrites == b.datWrites + [ProperAddress(t)] + t.dataOut[..0]
      && r.value.transaction == t.(busy := false, position := 0) && Stop in r.value.control
  {
    var t := b.transaction;
    WriteOpening(b);
    assert WriteEvents(0) == [Event(StartCondition, 0), Event(AddressWriteAck, 0)];
    assert b.datWrites + [ProperAddress(t)] + t.dataOut[..0] == b.datWrites + [ProperAddress(t)];
  }

  lemma WriteRunEvents(b: Bus)
    requires b.transaction.position == 0 < b.transaction.outLength <= |b.transaction.dataOut|
    ensures var n := b.transaction.outLength;
      Run(b, WriteEvents(n)) == Apply(Sent(Opened(b), n - 1), Event(DataWriteAck, 0))
  {
    var n, ev := b.transaction.outLength, Event(DataWriteAck, 0);
    var body := [Event(StartCondition, 0), Event(AddressWriteAck, 0)] + Repeat(ev, n - 1);
    WriteBody(b);
    RunSnoc(b, body, ev);
    assert WriteEvents(n) == body + [ev];
  }

  /** Every interrupt of an acknowledged write but the last. */
  lemma WriteBody(b: Bus)
    requires b.transaction.position == 0 < b.transaction.outLength <= |b.transaction.dataOut|
    ensures var n := b.transaction.outLength;
      Run(b, [Event(StartCondition, 0), Event(AddressWriteAck, 0)] + Repeat(Event(DataWriteAck, 0), n - 1))
      == Some(Sent(Opened(b), n - 1))
  {
    var n := b.transaction.outLength;
    WriteOpening(b);
    RunAppend(b, [Event(StartCondition, 0), Event(AddressWriteAck, 0)], Repeat(Event(DataWriteAck, 0), n - 1));
    SendBytes(Opened(b), n - 1);
  }

  /** The interrupts of a read of `received` (at least one byte): the
   * address is acknowledged, every byte but the last is acknowledged, the
   * last is not. */
  function ReadEvents(received: seq<Byte>): seq<Event>
    requires |received| >= 1
  {
    [Event(StartCondition, 0), Event(AddressReadAck, 0)] + DataEvents(received[..|received| - 1])
    + [Event(DataReadNack, received[|received| - 1])]
  }

  function DataEvents(received: seq<Byte>): (r: seq<Event>)
    ensures |r| == |received|
  {
    if |received| == 0 then [] else DataEvents(received[..|received| - 1]) + [Event(DataReadAck, received[|received| - 1])]
  }

  /** The bus after the acknowledged bytes `received` have been stored from
   * the current position: `busy` and the acknowledge flag follow the last
   * of them. */
  function Received(b: Bus, received: seq<Byte>): (r: Bus)
    requires b.transaction.position + |received| <= |b.transaction.dataIn|
    ensures |r.transaction.dataIn| == |b.transaction.dataIn|
  {
    var t, p, k := b.transaction, b.transaction.position, |received|;
    if k == 0 then b
    else
      Bus(t.(dataIn := t.dataIn[..p] + received + t.dataIn[p + k..], position := p + k,
             busy := if p + k + 1 >= t.inLength then false else t.busy),
          b.datWrites,
          if p + k + 1 >= t.inLength then b.control - {AssertAcknowledge, Interrupt}
          else b.control + {AssertAcknowledge} - {Interrupt})
  }

  lemma StoreNext(buffer: seq<Byte>, p: nat, received: seq<Byte>)
    requires |received| > 0 && p + |received| <= |buffer|
    ensures var k := |received|;
      var before := if k == 1 then buffer else buffer[..p] + received[..k - 1] + buffer[p + k - 1..];
      before[p + k - 1 := received[k - 1]] == buffer[..p] + received + buffer[p + k..]
  {
  }

  /** One more acknowledged byte is stored after the ones before it. */
  lemma ReceiveNext(b: Bus, received: seq<Byte>)
    requires |received| > 0 && b.transaction.position + |received| < b.transaction.inLength <= |b.transaction.dataIn|
    ensures var k := |received|;
      Apply(Received(b, received[..k - 1]), Event(DataReadAck, received[k - 1])) == Some(Received(b, received))
  {
    var k := |received|;
    ApplyReceive(Received(b, received[..k - 1]), received[k - 1]);
    ReceivedStep(b, received);
  }

  lemma ReceivedStep(b: Bus, received: seq<Byte>)
    requires |received| > 0 && b.transaction.position + |received| < b.transaction.inLength <= |b.transaction.dataIn|
    ensures var k := |received|;
      var r := Received(b, received[..k - 1]);
      var t, p := r.transaction, r.transaction.position;
      Bus(t.(dataIn := t.dataIn[p := received[k - 1]], position := p + 1, busy := if p + 2 >= t.inLength then false else t.busy),
          r.datWrites,
          if p + 2 >= t.inLength then r.control - {AssertAcknowledge, Interrupt}
          else r.control + {AssertAcknowledge} - {Interrupt})
      == Received(b, received)
  {
    var t, p, k := b.transaction, b.transaction.position, |received|;
    var r := Received(b, received[..k - 1]);
    StoreNext(t.dataIn, p, received);
    if k == 1 {
      assert r == b;
    } else {
      assert r.control - {AssertAcknowledge, Interrupt} == b.control - {AssertAcknowledge, Interrupt};
      assert r.control + {AssertAcknowledge} - {Interrupt} == b.control + {AssertAcknowledge} - {Interrupt};
    }
  }

  /** Acknowledged bytes are stored in order from the current position;
   * `busy` stays set until the second-to-last byte of the buffer has been
   * stored. */
  lemma {:induction false} ReceiveBytes(b: Bus, received: seq<Byte>)
    requires b.transaction.position + |received| < b.transaction.inLength <= |b.transaction.dataIn|
    ensures Run(b, DataEvents(received)) == Some(Received(b, received))
  {
    var k := |received|;
    if k > 0 {
      var front := received[..k - 1];
      ReceiveBytes(b, front);
      RunSnoc(b, DataEvents(front), Event(DataReadAck, received[k - 1]));
      ReceiveNext(b, received);
    }
  }

  /** The first two interrupts of a read: only the address goes out. */
  lemma ReadOpening(b: Bus)
    ensures var r := Run(b, [Event(StartCondition, 0), Event(AddressReadAck, 0)]);
      && r.Some? && r.value.transaction == b.transaction
      && r.value.datWrites == b.datWrites + [ProperAddress(b.transaction)]
  {
    var e0, e1 := Event(StartCondition, 0), Event(AddressReadAck, 0);
    RunOne(b, e0);
    ApplyStart(b, 0);
    RunSnoc(b, [e0], e1);
    assert [e0] + [e1] == [e0, e1];
    ApplyAddressReadAck(Apply(b, e0).value, 0);
  }

  /** The bus before the last byte of a read: the address has gone out and
   * every byte but the last has been stored. */
  lemma ReadBody(b: Bus, received: seq<Byte>)
    requires b.transaction.position == 0 && 1 <= |received| == b.transaction.inLength <= |b.transaction.dataIn|
    ensures var opening := [Event(StartCondition, 0), Event(AddressReadAck, 0)];
      var r := Run(b, opening);
      && r.Some? && r.value.transaction == b.transaction
      && r.value.datWrites == b.datWrites + [ProperAddress(b.transaction)]
      && Run(b, opening + DataEvents(received[..|received| - 1])) == Some(Received(r.value, received[..|received| - 1]))
  {
    var opening := [Event(StartCondition, 0), Event(AddressReadAck, 0)];
    var front := received[..|received| - 1];
    ReadOpening(b);
    RunAppend(b, opening, DataEvents(front));
    ReceiveBytes(Run(b, opening).value, front);
  }

  /** The not-acknowledged last byte of a read completes the buffer. */
  lemma ReadLast(b: Bus, received: seq<Byte>)
    requires b.transaction.position == 0 && b.transaction.busy
    requires 1 <= |received| == b.transaction.inLength <= |b.transaction.dataIn|
    ensures var t, n := b.transaction, |received|;
      var a := Apply(Received(b, received[..n - 1]), Event(DataReadNack, received[n - 1]));
      && a.Some?
      && a.value.transaction == t.(dataIn := received + t.dataIn[n..], position := n, busy := false)
      && a.value.datWrites == b.datWrites
      && Stop in a.value.control
  {
    var t, n := b.transaction, |received|;
    var r := Received(b, received[..n - 1]);
    var before := if n == 1 then t.dataIn else t.dataIn[..0] + received[..n - 1] + t.dataIn[n - 1..];
    assert r.transaction == t.(dataIn := before, position := n - 1, busy := n == 1) by {
      if n == 1 {
        assert r == b;
      }
    }
    ApplyLastByte(r, received[n - 1]);
    StoreNext(t.dataIn, 0, received);
    assert t.dataIn[..0] + received + t.dataIn[n..] == received + t.dataIn[n..];
  }

  /** A read of `n` bytes fills the buffer with the received bytes, in
   * order, sends only the address byte (with the read bit), and ends with
   * STOP and `busy` cleared. */
  lemma ReadRun(b: Bus, received: seq<Byte>)
    requires b.transaction.operation == Read && b.transaction.position == 0 && b.transaction.busy
    requires |received| >= 1 && b.transaction.inLength == |received| <= |b.transaction.dataIn|
    ensures var t, n := b.transaction, |received|;
      var r := Run(b, ReadEvents(received));
      && r.Some?
      && r.value.transaction == t.(dataIn := received + t.dataIn[n..], position := n, busy := false)
      && r.value.datWrites == b.datWrites + [ProperAddress(t)]
      && Stop in r.value.control
  {
    var n := |received|;
    var opening := [Event(StartCondition, 0), Event(AddressReadAck, 0)];
    var body := opening + DataEvents(received[..n - 1]);
    var last := Event(DataReadNack, received[n - 1]);
    assert ReadEvents(received) == body + [last];
    ReadBody(b, received);
    RunSnoc(b, body, last);
    ReadLast(Run(b, opening).value, received);
  }

  /** `busy` is cleared when the second-to-last byte of a read arrives, so a
   * caller waiting on `busy` can resume before the last byte is stored. */
  lemma ReadBusyClearsBeforeLastByte(b: Bus, received: seq<Byte>)
    requires b.transaction.operation == Read && b.transaction.position == 0 && b.transaction.busy
    requires |received| >= 2 && b.transaction.inLength == |received| <= |b.transaction.dataIn|
    ensures var r := Run(b, [Event(StartCondition, 0), Event(AddressReadAck, 0)] + DataEvents(received[..|received| - 1]));
      && r.Some? && !r.value.transaction.busy
      && r.value.transaction.position == |received| - 1
  {
    ReadBody(b, received);
  }

  /** A write-then-read: the repeated start after the last written byte
   * turns the transaction into a read of the same device, which then
   * stores the received bytes and ends with a stop. */
  lemma WriteThenReadRun(b: Bus, received: seq<Byte>)
    requires b.transaction.operation == Write && b.transaction.position == 0 && b.transaction.busy
    requires b.transaction.repeated && 0 < b.transaction.outLength <= |b.transaction.dataOut|
    requires |received| >= 1 && b.transaction.inLength == |received| <= |b.transaction.dataIn|
    ensures var t, n := b.transaction, b.transaction.outLength;
      var r := Run(b, WriteEvents(n) + ReadEvents(received));
      && r.Some?
      && r.value.transaction == t.(operation := Read, dataIn := received + t.dataIn[|received|..],
                                   position := |received|, busy := false)
      && r.value.datWrites == b.datWrites + [ProperAddress(t)] + t.dataOut[..n]
                              + [ProperAddress(t.(operation := Read))]
      && Stop in r.value.control
  {
    var t, n := b.transaction, b.transaction.outLength;
    RunAppend(b, WriteEvents(n), ReadEvents(received));
    WriteRun(b);
    var middle := Run(b, WriteEvents(n)).value;
    ReadRun(middle, received);
    assert middle.transaction.(dataIn := received + t.dataIn[|received|..], position := |received|, busy := false)
        == t.(operation := Read, dataIn := received + t.dataIn[|received|..], position := |received|, busy := false);
  }

  /** `BlockUntilFinished`, given whether the bus is enabled and the
   * transaction's state when the wait ended. */
  function Finish(enabled: bool, t: Transaction): (o: Outcome)
    ensures !enabled ==> o == Fail(OperationNotPermitted)
    ensures enabled && t.status == Some(IoError) ==> o == Fail(IoError)
    ensures enabled && t.status == Some(NoSuchDeviceOrAddress) ==> o == Fail(NoSuchDeviceOrAddress)
    ensures o == Pass <==> enabled && t.status !in {Some(IoError), Some(NoSuchDeviceOrAddress)}
                           && (!t.busy || (t.outLength != 0 && t.inLength != 0))
  {
    if !enabled then Fail(OperationNotPermitted)
    else if t.status == Some(IoError) then Fail(IoError)
    else if t.status == Some(NoSuchDeviceOrAddress) then Fail(NoSuchDeviceOrAddress)
    else if t.busy && (t.outLength == 0 || t.inLength == 0) then Fail(TimedOut)
    else Pass
  }

  /** A write-then-read that is still busy when the wait ends is not
   * reported as a timeout. */
  lemma WriteThenReadTimeoutPasses(t: Transaction)
    requires t.busy && t.outLength > 0 && t.inLength > 0 && t.status == None
    ensures Finish(true, t) == Pass
  {
  }

  /** An acknowledged write, run to completion on an enabled bus, passes. */
  lemma WriteTransactionPasses(address: Byte, transmit: seq<Byte>, timeoutMs: Option<nat>, control: set<Control>, datWrites: seq<Byte>)
    ensures var t := WriteSpan(address, transmit, timeoutMs);
      var r := Run(Bus(t, datWrites, control), WriteEvents(|transmit|));
      && r.Some?
      && r.value.datWrites == datWrites + [ProperAddress(t)] + transmit
      && Finish(true, r.value.transaction) == Pass
  {
    var t := WriteSpan(address, transmit, timeoutMs);
    WriteRun(Bus(t, datWrites, control));
    assert transmit[..|transmit|] == transmit;
  }

  /** An LPC40xx I2C bus with its current transaction. */
  class Controller {
    var transaction: Transaction
    var datWrites: seq<Byte>
    var control: set<Control>

    function State(): Bus
      reads this
    {
      Bus(transaction, datWrites, control)
    }

    /** A bus before `Initialize`: no flag set, the default transaction. */
    constructor()
      ensures transaction == DefaultTransaction() && datWrites == [] && control == {}
    {
      transaction := DefaultTransaction();
      datWrites := [];
      control := {};
    }

    /** `IsEnabled`: the interface-enable flag. */
    predicate IsEnabled()
      reads this
    {
      InterfaceEnable in control
    }

    /** The register part of `ModuleInitialize`: clear the transmission
     * flags, then enable the interface. */
    method Initialize()
      modifies this
      ensures control == old(control) - {AssertAcknowledge, Start, Stop, Interrupt} + {InterfaceEnable}
      ensures transaction == old(transaction) && datWrites == old(datWrites)
      ensures IsEnabled()
    {
      control := control - {AssertAcknowledge, Start, Stop, Interrupt};
      control := control + {InterfaceEnable};
    }

    /** `ModulePowerDown`: disable the interface. */
    method PowerDown()
      modifies this
      ensures control == old(control) - {InterfaceEnable}
      ensures transaction == old(transaction) && datWrites == old(datWrites)
      ensures !IsEnabled()
    {
      control := control - {InterfaceEnable};
    }

    /** `I2cHandler`: advance the transaction for the status code in `STAT`;
     * `received` is the byte in `DAT`. Returns whether the fatal assertion
     * for an unknown status code was hit. */
    method Handler(status: MasterState, received: Byte) returns (fatal: bool)
      requires InBounds(transaction, status)
      modifies this
      ensures var e := Step(old(transaction), status, received);
        && transaction == e.transaction
        && datWrites == old(datWrites) + DatBytes(e.dat)
        && control == old(control) + e.setMask - e.clearMask
        && fatal == e.fatal
    {
      // The transaction the handler works on, the byte it writes to `DAT`
      // and the masks it writes to `CONSET` and `CONCLR`.
      var t := transaction;
      var dat: Option<Byte> := None;
      var setMask: set<Control> := {};
      var clearMask: set<Control> := {};
      fatal := false;
      match status {
      case BusError =>
        t := t.(status := Some(IoError));
        setMask := {AssertAcknowledge, Stop};
      case StartCondition =>
        dat := Some(ProperAddress(t));
      case RepeatedStart =>
        t := t.(operation := Read);
        dat := Some(ProperAddress(t));
      case AddressWriteAck =>
        clearMask := {Start};
        if t.outLength == 0 {
          t := t.(busy := false);
          setMask := {Stop};
        } else {
          var position := t.position;
          t := t.(position := position + 1);
          dat := Some(t.dataOut[position]);
        }
      case AddressWriteNack =>
        clearMask := {Start};
        t := t.(busy := false);
        t := t.(status := Some(NoSuchDeviceOrAddress));
        setMask := {Stop};
      case DataWriteAck =>
        if t.position >= t.outLength {
          if t.repeated {
            t := t.(operation := Read);
            t := t.(position := 0);
            setMask := {Start};
          } else {
            t := t.(busy := false);
            setMask := {Stop};
          }
        } else {
          var position := t.position;
          t := t.(position := position + 1);
          dat := Some(t.dataOut[position]);
        }
      case DataWriteNack =>
        t := t.(busy := false);
        setMask := {Stop};
      case ArbitrationLost =>
        setMask := {Start};
      case AddressReadAck =>
        clearMask := {Start};
        if t.inLength == 0 {
          setMask := {Stop};
        } else if t.inLength == 1 {
          clearMask := clearMask + {AssertAcknowledge};
        } else {
          setMask := {AssertAcknowledge};
        }
      case AddressReadNack =>
        clearMask := {Start};
        t := t.(status := Some(NoSuchDeviceOrAddress));
        t := t.(busy := false);
        setMask := {Stop};
      case DataReadAck =>
        var bufferEnd := t.inLength;
        if t.position < bufferEnd {
          var position := t.position;
          t := t.(dataIn := t.dataIn[position := received]);
          t := t.(position := position + 1);
        }
        if t.position + 1 >= bufferEnd {
          clearMask := {AssertAcknowledge};
          t := t.(busy := false);
        } else {
          setMask := {AssertAcknowledge};
        }
      case DataReadNack =>
        t := t.(busy := false);
        if t.inLength != 0 {
          var position := t.position;
          t := t.(position := position + 1);
          t := t.(dataIn := t.dataIn[position := received]);
        }
        setMask := {Stop};
      case DoNothing =>
      case _ =>
        clearMask := {Stop};
        fatal := true;
      }
      clearMask := clearMask + {Interrupt};
      transaction := t;
      datWrites := datWrites + DatBytes(dat);
      control := control + setMask - clearMask;
    }

    /** The interrupts that arrive while `BlockUntilFinished` waits: one
     * handler call each, in order. */
    method Serve(events: seq<Event>)
      requires Run(State(), events).Some?
      modifies this
      ensures State() == Run(old(State()), events).value
    {
      var start := State();
      for i := 0 to |events|
        invariant Run(start, events[..i]).Some? && State() == Run(start, events[..i]).value
      {
        RunPrefix(start, events, i + 1);
        assert events[..i + 1] == events[..i] + [events[i]];
        RunSnoc(start, events[..i], events[i]);
        var _ := Handler(events[i].status, events[i].received);
      }
      assert events[..|events|] == events;
    }

    /** The part of `BlockUntilFinished` after the wait on an enabled bus:
     * report a recorded error, or abort a transaction still busy with
     * acknowledge and STOP, and clear START when no error is reported. */
    method Conclude() returns (outcome: Outcome)
      modifies this
      ensures outcome == Finish(true, transaction)
      ensures transaction == old(transaction) && datWrites == old(datWrites)
      ensures outcome.Fail? && outcome.error != TimedOut ==> control == old(control)
      ensures transaction.busy && outcome != Fail(IoError) && outcome != Fail(NoSuchDeviceOrAddress)
              ==> AssertAcknowledge in control && Stop in control
      ensures outcome == Pass ==> Start !in control
    {
      var waitSucceeded := !transaction.busy;
      if transaction.status == Some(IoError) {
        return Fail(IoError);
      } else if transaction.status == Some(NoSuchDeviceOrAddress) {
        return Fail(NoSuchDeviceOrAddress);
      } else if !waitSucceeded {
        control := control + {AssertAcknowledge, Stop};
        if transaction.outLength == 0 || transaction.inLength == 0 {
          return Fail(TimedOut);
        }
      }
      control := control - {Start};
      return Pass;
    }

    /** `Transaction` followed by `BlockUntilFinished`: store the
     * transaction and set START; on an enabled bus, let the handler run for
     * each interrupt that arrives before the wait ends, then report the
     * outcome. */
    method Transact(t: Transaction, events: seq<Event>) returns (outcome: Outcome)
      requires Run(Bus(t, datWrites, control + {Start}), events).Some?
      modifies this
      ensures !old(IsEnabled()) ==> outcome == Fail(OperationNotPermitted) && transaction == t
      ensures old(IsEnabled()) ==>
        var r := Run(Bus(t, old(datWrites), old(control) + {Start}), events).value;
        && transaction == r.transaction && datWrites == r.datWrites
        && outcome == Finish(true, r.transaction)
      ensures outcome == Pass ==> Start !in control
    {
      transaction := t;
      control := control + {Start};
      if !IsEnabled() {
        return Fail(OperationNotPermitted);
      }
      Serve(events);
      outcome := Conclude();
    }
  }
}
