/** The I2C peripheral interface: the transaction record every I2C driver
 * works from, the first byte a controller sends for it, and the helpers that
 * build a read, a write or a write-then-read transaction.
 *
 * Buffers the source passes as a pointer and a length are modelled by their
 * contents (`dataOut`, `dataIn`) and the length; a null pointer is the empty
 * sequence. */
module I2c {
  import opened Wrappers
  import Bits

  datatype Operation = Write | Read

  /** The timeout a helper uses when the caller gives none, in milliseconds. */
  const DefaultTimeoutMs: nat := 100

  /** `Transaction_t`. A `status` of `None` is the zero error code. */
  datatype Transaction = Transaction(
    operation: Operation,
    address: Byte,
    dataOut: seq<Byte>,
    outLength: nat,
    dataIn: seq<Byte>,
    inLength: nat,
    position: nat,
    repeated: bool,
    busy: bool,
    timeoutMs: nat,
    status: Option<Errc>)

  /** A default-constructed `Transaction_t`. */
  function DefaultTransaction(): (t: Transaction)
    ensures t.operation == Write && t.address == 0xFF
    ensures t.dataOut == [] && t.outLength == 0 && t.dataIn == [] && t.inLength == 0
    ensures t.position == 0 && !t.busy && !t.repeated
    ensures t.timeoutMs == DefaultTimeoutMs && t.status == None
  {
    Transaction(Write, 0xFF, [], 0, [], 0, 0, false, false, DefaultTimeoutMs, None)
  }

  /** `GetProperAddress`: the 7-bit address shifted up one bit, kept to 8
   * bits, with bit 0 set for a read. This is the first byte after a START
   * (section 3.1.10 of the NXP I2C-bus specification UM10204: seven address
   * bits, then the direction bit, 1 for read). */
  function ProperAddress(t: Transaction): (r: Byte)
    ensures r / 2 == t.address % 128
    ensures r % 2 == 1 <==> t.operation == Read
  {
    var shifted := (t.address * 2) % 256;
    ShiftedAddress(t.address);
    var r := shifted + (if t.operation == Read then 1 else 0);
    Bits.DivModUnique(r, 2, t.address % 128, r - 2 * (t.address % 128));
    r
  }

  lemma ShiftedAddress(a: Byte)
    ensures (a * 2) % 256 == 2 * (a % 128)
  {
    Bits.DivModUnique(a * 2, 256, a / 128, 2 * (a % 128));
  }

  /** The byte sent on the bus determines the direction and the 7-bit
   * address: transactions that differ in either send different bytes. */
  lemma ProperAddressInjective(t: Transaction, u: Transaction)
    requires t.address < 128 && u.address < 128
    requires ProperAddress(t) == ProperAddress(u)
    ensures t.address == u.address && t.operation == u.operation
  {
  }

  /** The timeout a helper passes on: the caller's, or the default. */
  function Timeout(timeoutMs: Option<nat>): (r: nat)
    ensures timeoutMs.None? ==> r == DefaultTimeoutMs
    ensures timeoutMs.Some? ==> r == timeoutMs.value
  {
    match timeoutMs
    case None => DefaultTimeoutMs
    case Some(ms) => ms
  }

  /** `Read(address, receive_buffer, length, timeout)`. */
  function ReadTransaction(address: Byte, receive: seq<Byte>, length: nat, timeoutMs: Option<nat>): (t: Transaction)
    ensures t.operation == Read && t.address == address
    ensures t.dataOut == [] && t.outLength == 0
    ensures t.dataIn == receive && t.inLength == length
    ensures t.position == 0 && !t.repeated && t.busy
    ensures t.timeoutMs == Timeout(timeoutMs) && t.status == None
  {
    Transaction(Read, address, [], 0, receive, length, 0, false, true, Timeout(timeoutMs), None)
  }

  /** `Write(address, transmit_buffer, length, timeout)`. */
  function WriteTransaction(address: Byte, transmit: seq<Byte>, length: nat, timeoutMs: Option<nat>): (t: Transaction)
    ensures t.operation == Write && t.address == address
    ensures t.dataOut == transmit && t.outLength == length
    ensures t.dataIn == [] && t.inLength == 0
    ensures t.position == 0 && !t.repeated && t.busy
    ensures t.timeoutMs == Timeout(timeoutMs) && t.status == None
  {
    Transaction(Write, address, transmit, length, [], 0, 0, false, true, Timeout(timeoutMs), None)
  }

  /** `WriteThenRead(address, transmit, transmit_length, receive,
   * receive_length, timeout)`: starts as a write and asks for a repeated
   * START before the read. */
  function WriteThenReadTransaction(address: Byte, transmit: seq<Byte>, outLength: nat,
                                    receive: seq<Byte>, inLength: nat, timeoutMs: Option<nat>): (t: Transaction)
    ensures t.operation == Write && t.address == address
    ensures t.dataOut == transmit && t.outLength == outLength
    ensures t.dataIn == receive && t.inLength == inLength
    ensures t.position == 0 && t.repeated && t.busy
    ensures t.timeoutMs == Timeout(timeoutMs) && t.status == None
  {
    Transaction(Write, address, transmit, outLength, receive, inLength, 0, true, true, Timeout(timeoutMs), None)
  }

  /** The span overload of `Read`: the length is the span's size. */
  function ReadSpan(address: Byte, receive: seq<Byte>, timeoutMs: Option<nat>): (t: Transaction)
    ensures t.dataIn == receive && t.inLength == |receive|
    ensures t.operation == Read && t.address == address && t.outLength == 0 && t.busy && !t.repeated
  {
    ReadTransaction(address, receive, |receive|, timeoutMs)
  }

  /** The span and initializer-list overloads of `Write`. */
  function WriteSpan(address: Byte, transmit: seq<Byte>, timeoutMs: Option<nat>): (t: Transaction)
    ensures t.dataOut == transmit && t.outLength == |transmit|
    ensures t.operation == Write && t.address == address && t.inLength == 0 && t.busy && !t.repeated
  {
    WriteTransaction(address, transmit, |transmit|, timeoutMs)
  }

  /** The initializer-list overload of `WriteThenRead`: the transmit length
   * is the list's size, the receive buffer is passed through. */
  function WriteThenReadList(address: Byte, transmit: seq<Byte>, receive: seq<Byte>, inLength: nat,
                             timeoutMs: Option<nat>): (t: Transaction)
    ensures t.dataOut == transmit && t.outLength == |transmit|
    ensures t.dataIn == receive && t.inLength == inLength
    ensures t.operation == Write && t.repeated && t.busy
  {
    WriteThenReadTransaction(address, transmit, |transmit|, receive, inLength, timeoutMs)
  }

  /** The span overload of `WriteThenRead`: both lengths are the spans'
   * sizes. */
  function WriteThenReadSpan(address: Byte, transmit: seq<Byte>, receive: seq<Byte>,
                             timeoutMs: Option<nat>): (t: Transaction)
    ensures t.dataOut == transmit && t.outLength == |transmit|
    ensures t.dataIn == receive && t.inLength == |receive|
    ensures t.operation == Write && t.repeated && t.busy
  {
    WriteThenReadTransaction(address, transmit, |transmit|, receive, |receive|, timeoutMs)
  }
}
