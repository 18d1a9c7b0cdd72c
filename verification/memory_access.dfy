/** The memory access protocol: how a device register address and the values
 * written to or read from it become byte sequences, the one-byte-address mock
 * backed by a 256-byte memory map, the bound on the I2C transport's write
 * buffer, and the check that a list of registers does not overlap.
 *
 * Bytes are ordered by `ByteOrder`: with `LittleEndian` the least significant
 * byte comes first, with `BigEndian` it comes last. */
module MemoryAccess {
  import opened Wrappers
  import Bits

  datatype ByteOrder = LittleEndian | BigEndian

  /** 256 to the power `n`: the number of values `n` bytes can hold. */
  function Pow256(n: nat): (r: nat)
    ensures r >= 1
  {
    if n == 0 then 1 else 256 * Pow256(n - 1)
  }

  lemma {:induction false} Pow256Add(a: nat, b: nat)
    ensures Pow256(a + b) == Pow256(a) * Pow256(b)
    decreases a
  {
    if a > 0 {
      Pow256Add(a - 1, b);
      calc {
        Pow256(a + b);
        256 * Pow256(a - 1 + b);
        256 * (Pow256(a - 1) * Pow256(b));
        (256 * Pow256(a - 1)) * Pow256(b);
      }
    }
  }

  /** `(v mod a*b) mod a` is `v mod a`. */
  lemma ModOfMod(v: int, a: nat, b: nat)
    requires a >= 1 && b >= 1
    ensures (v % (a * b)) % a == v % a
  {
    var q, r := v / (a * b), v % (a * b);
    assert v == (q * b) * a + r;
    var qr, rr := r / a, r % a;
    assert r == qr * a + rr;
    assert v == (q * b + qr) * a + rr;
    Bits.DivModUnique(v, a, q * b + qr, rr);
  }

  /** The first `n` bytes of `value`, least significant first. */
  function LittleBytes(value: nat, n: nat): (r: seq<Byte>)
    ensures |r| == n
  {
    if n == 0 then [] else [value % 256] + LittleBytes(value / 256, n - 1)
  }

  /** The value of a byte sequence whose first byte is the least significant. */
  function LittleValue(bytes: seq<Byte>): (r: nat)
    ensures r < Pow256(|bytes|)
  {
    if |bytes| == 0 then 0 else bytes[0] + 256 * LittleValue(bytes[1..])
  }

  function Reverse(s: seq<Byte>): (r: seq<Byte>)
    ensures |r| == |s|
    ensures forall i :: 0 <= i < |s| ==> r[i] == s[|s| - 1 - i]
  {
    if |s| == 0 then [] else Reverse(s[1..]) + [s[0]]
  }

  lemma ReverseReverse(s: seq<Byte>)
    ensures Reverse(Reverse(s)) == s
  {
    assert forall i :: 0 <= i < |s| ==> Reverse(Reverse(s))[i] == s[i];
  }

  /** `ToByteArray`: the low `n` bytes of `value` in the given order. */
  function ToBytes(order: ByteOrder, value: nat, n: nat): (r: seq<Byte>)
    ensures |r| == n
  {
    match order
    case LittleEndian => LittleBytes(value, n)
    case BigEndian => Reverse(LittleBytes(value, n))
  }

  /** `ToInteger`: the value of a byte sequence in the given order. */
  function FromBytes(order: ByteOrder, bytes: seq<Byte>): (r: nat)
    ensures r < Pow256(|bytes|)
  {
    match order
    case LittleEndian => LittleValue(bytes)
    case BigEndian => LittleValue(Reverse(bytes))
  }

  /** One byte step of the modulus: `v mod 256p` is the low byte plus 256
   * times the rest modulo `p`. */
  lemma ModByteStep(v: nat, p: nat)
    requires p >= 1
    ensures v % (256 * p) == v % 256 + 256 * ((v / 256) % p)
  {
    var q := v / 256;
    var qq, qr := q / p, q % p;
    assert q == qq * p + qr;
    assert v == qq * (256 * p) + (256 * qr + v % 256);
    Bits.DivModUnique(v, 256 * p, qq, 256 * qr + v % 256);
  }

  lemma {:induction false} LittleRoundTrip(value: nat, n: nat)
    ensures LittleValue(LittleBytes(value, n)) == value % Pow256(n)
  {
    if n > 0 {
      LittleRoundTrip(value / 256, n - 1);
      var bytes := LittleBytes(value, n);
      assert bytes[0] == value % 256 && bytes[1..] == LittleBytes(value / 256, n - 1);
      ModByteStep(value, Pow256(n - 1));
    }
  }

  lemma {:induction false} LittleValueRoundTrip(bytes: seq<Byte>)
    ensures LittleBytes(LittleValue(bytes), |bytes|) == bytes
  {
    if |bytes| > 0 {
      var rest := LittleValue(bytes[1..]);
      Bits.DivModUnique(LittleValue(bytes), 256, rest, bytes[0]);
      LittleValueRoundTrip(bytes[1..]);
      assert bytes == [bytes[0]] + bytes[1..];
    }
  }

  /** Encoding then decoding keeps the value modulo the encoded width. */
  lemma ToBytesRoundTrip(order: ByteOrder, value: nat, n: nat)
    ensures FromBytes(order, ToBytes(order, value, n)) == value % Pow256(n)
  {
    LittleRoundTrip(value, n);
    if order == BigEndian {
      ReverseReverse(LittleBytes(value, n));
    }
  }

  /** Decoding then encoding gives back the bytes. */
  lemma FromBytesRoundTrip(order: ByteOrder, bytes: seq<Byte>)
    ensures ToBytes(order, FromBytes(order, bytes), |bytes|) == bytes
  {
    match order
    case LittleEndian =>
      LittleValueRoundTrip(bytes);
    case BigEndian =>
      LittleValueRoundTrip(Reverse(bytes));
      ReverseReverse(bytes);
  }

  /** Number of bytes a register address occupies on the wire (`kByte1` to
   * `kByte4`; `kAddressSizeLimit` is 4). */
  type AddressWidth = w: nat | 1 <= w <= 4 witness 1

  const AddressSizeLimit: nat := 4

  type Uint32 = x: nat | x < 0x1_0000_0000

  /** A register: its address bytes and its width in bytes. */
  datatype Address = Address(bytes: seq<Byte>, width: Byte)

  /** The `Address` constructor: the 32-bit location is stored as its low
   * `addressWidth` bytes in the device's byte order. */
  function MakeAddress(order: ByteOrder, addressWidth: AddressWidth, location: Uint32, width: Byte): (r: Address)
    ensures |r.bytes| == addressWidth && r.width == width
    ensures FromBytes(order, r.bytes) == location % Pow256(addressWidth)
    ensures order == LittleEndian ==> r.bytes[0] == location % 256
    ensures order == BigEndian ==> r.bytes[addressWidth - 1] == location % 256
  {
    ToBytesRoundTrip(order, location, addressWidth);
    Address(ToBytes(order, location, addressWidth), width)
  }

  /** Bytes of the widest integer an access handler moves (`uint64_t`). */
  const ContainerSize: nat := 8

  /** Bytes moved for a register of `width` bytes. */
  function RegisterSize(width: nat): (r: nat)
    ensures r <= width && r <= ContainerSize
    ensures r == width || r == ContainerSize
  {
    if width < ContainerSize then width else ContainerSize
  }

  /** The bytes an integer assignment writes: the value converted to 64 bits
   * (two's complement for a negative value), of which the low
   * `RegisterSize(width)` bytes are sent in the device's byte order. */
  function IntegerPayload(order: ByteOrder, value: int, width: nat): (r: seq<Byte>)
    ensures |r| == RegisterSize(width)
    ensures FromBytes(order, r) == value % Pow256(RegisterSize(width))
  {
    var n := RegisterSize(width);
    var container := value % Pow256(ContainerSize);
    ToBytesRoundTrip(order, container, n);
    ModOfNarrower(value, ContainerSize, n);
    ToBytes(order, container, n)
  }

  /** The integer type a register is converted into: its size in bytes and
   * whether it is signed. */
  datatype IntegerType = IntegerType(size: nat, signed: bool)

  /** `u` converted to type `t`: its low `t.size` bytes, read as two's
   * complement when `t` is signed. The result is the one value of the
   * type's range congruent to `u`. */
  function AsType(u: int, t: IntegerType): (r: int)
    ensures r % Pow256(t.size) == u % Pow256(t.size)
    ensures !t.signed ==> 0 <= r < Pow256(t.size)
    ensures t.signed && t.size > 0 ==> InSignedRange(r, t.size)
  {
    var p := Pow256(t.size);
    var low := u % p;
    Bits.DivModUnique(low, p, 0, low);
    Pow256Even(t.size);
    if t.signed && 2 * low >= p then
      Bits.DivModUnique(low - p, p, -1, low);
      low - p
    else
      low
  }

  /** Half the values of `n` bytes: the bound of a signed type. */
  function Half(n: nat): nat
  {
    Pow256(n) / 2
  }

  /** `v` lies in the range of a signed type of `n` bytes. */
  predicate InSignedRange(v: int, n: nat)
  {
    -(Half(n) as int) <= v < Half(n)
  }

  /** A non-empty byte count gives an even power. */
  lemma Pow256Even(n: nat)
    ensures n > 0 ==> 2 * Half(n) == Pow256(n)
  {
    if n > 0 {
      Bits.DivModUnique(Pow256(n), 2, 128 * Pow256(n - 1), 0);
    }
  }

  /** The value an integer read returns from the `RegisterSize(width)` bytes
   * it received, converted to the integer type `t`: the received value
   * taken modulo the type's range, negative for a signed type whose top bit
   * is set. */
  function IntegerValue(order: ByteOrder, received: seq<Byte>, t: IntegerType): (r: int)
    ensures r % Pow256(t.size) == FromBytes(order, received) % Pow256(t.size)
    ensures !t.signed ==> 0 <= r < Pow256(t.size)
    ensures t.signed && t.size > 0 ==> InSignedRange(r, t.size)
  {
    AsType(FromBytes(order, received), t)
  }

  /** The byte 0xFF read as an `int8_t` is -1, as a `uint8_t` 255, and as
   * an `int16_t` 255, since the one byte received does not reach its sign
   * bit. */
  lemma SignedByteExample(order: ByteOrder)
    ensures IntegerValue(order, [0xFF], IntegerType(1, true)) == -1
    ensures IntegerValue(order, [0xFF], IntegerType(1, false)) == 255
    ensures IntegerValue(order, [0xFF], IntegerType(2, true)) == 255
  {
    assert FromBytes(order, [0xFF]) == 255;
  }

  /** Two values congruent modulo `p` that lie in one range of `p`
   * consecutive values are equal. */
  lemma CongruentInRange(a: int, b: int, lo: int, p: nat)
    requires p >= 1 && a % p == b % p && lo <= a < lo + p && lo <= b < lo + p
    ensures a == b
  {
    var qa, qb := a / p, b / p;
    assert a - b == (qa - qb) * p;
    if qa > qb {
      Bits.MulMonotone(1, qa - qb, p);
    } else if qa < qb {
      Bits.MulMonotone(1, qb - qa, p);
    }
  }

  function Min(a: nat, b: nat): nat
  {
    if a < b then a else b
  }

  /** Keeping `n` bytes and then `t` bytes keeps the fewer of the two. */
  lemma ModOfNarrower(value: int, n: nat, t: nat)
    ensures (value % Pow256(n)) % Pow256(t) == value % Pow256(Min(n, t))
  {
    if t <= n {
      Pow256Add(t, n - t);
      ModOfMod(value, Pow256(t), Pow256(n - t));
    } else {
      Pow256Add(n, t - n);
      Bits.MulMonotone(1, Pow256(t - n), Pow256(n));
      var x := value % Pow256(n);
      Bits.DivModUnique(x, Pow256(t), 0, x);
    }
  }

  /** Reading back what an integer write sent gives a value congruent to the
   * written one modulo the narrower of the register and the integer type;
   * an unsigned type gets the written value kept to that many bytes. */
  lemma IntegerRoundTrip(order: ByteOrder, value: int, width: nat, t: IntegerType)
    ensures var m := Min(RegisterSize(width), t.size);
      IntegerValue(order, IntegerPayload(order, value, width), t) % Pow256(m) == value % Pow256(m)
    ensures !t.signed ==>
      IntegerValue(order, IntegerPayload(order, value, width), t) == value % Pow256(Min(RegisterSize(width), t.size))
  {
    var n := RegisterSize(width);
    var r := IntegerValue(order, IntegerPayload(order, value, width), t);
    ModOfNarrower(value, n, t.size);
    if n < t.size {
      ModOfNarrower(r, t.size, n);
      ModOfNarrower(value, n, n);
    }
    if !t.signed {
      Bits.DivModUnique(r, Pow256(t.size), 0, r);
    }
  }

  /** A value inside the range of a signed type no wider than the register
   * reads back unchanged, negative values included. */
  lemma SignedRoundTrip(order: ByteOrder, value: int, width: nat, t: IntegerType)
    requires t.signed && 0 < t.size <= RegisterSize(width)
    requires InSignedRange(value, t.size)
    ensures IntegerValue(order, IntegerPayload(order, value, width), t) == value
  {
    IntegerRoundTrip(order, value, width, t);
    CongruentInRange(IntegerValue(order, IntegerPayload(order, value, width), t), value,
                     -(Half(t.size) as int), Pow256(t.size));
  }

  /** The bytes an array-of-integers assignment writes: each element as
   * `size` bytes in the device's byte order, one after the other. */
  function ArrayPayload(order: ByteOrder, values: seq<nat>, size: nat): (r: seq<Byte>)
    ensures |r| == |values| * size
  {
    if |values| == 0 then [] else ToBytes(order, values[0], size) + ArrayPayload(order, values[1..], size)
  }

  lemma {:induction false} ArrayPayloadAppend(order: ByteOrder, values: seq<nat>, v: nat, size: nat)
    ensures ArrayPayload(order, values + [v], size) == ArrayPayload(order, values, size) + ToBytes(order, v, size)
  {
    if |values| > 0 {
      assert (values + [v])[1..] == values[1..] + [v];
      ArrayPayloadAppend(order, values[1..], v, size);
    } else {
      assert values + [v] == [v];
    }
  }

  /** The element loop of the array assignment, filling the payload element by
   * element. */
  method EncodeArray(order: ByteOrder, values: seq<nat>, size: nat) returns (payload: seq<Byte>)
    ensures payload == ArrayPayload(order, values, size)
  {
    payload := [];
    for i := 0 to |values|
      invariant payload == ArrayPayload(order, values[..i], size)
    {
      ArrayPayloadAppend(order, values[..i], values[i], size);
      assert values[..i + 1] == values[..i] + [values[i]];
      payload := payload + ToBytes(order, values[i], size);
    }
    assert values[..|values|] == values;
  }

  /** `ToIntegerArray`: consecutive groups of `size` bytes, each decoded in the
   * device's byte order. */
  function ArrayValues(order: ByteOrder, bytes: seq<Byte>, size: nat): (r: seq<nat>)
    requires size >= 1
    ensures |r| == |bytes| / size
    ensures forall i :: 0 <= i < |r| ==> r[i] < Pow256(size)
    decreases |bytes|
  {
    if |bytes| < size then []
    else
      Bits.DivModUnique(|bytes| - size, size, |bytes| / size - 1, |bytes| % size);
      [FromBytes(order, bytes[..size])] + ArrayValues(order, bytes[size..], size)
  }

  lemma ArrayValuesCons(order: ByteOrder, head: seq<Byte>, tail: seq<Byte>, size: nat)
    requires size >= 1 && |head| == size
    ensures ArrayValues(order, head + tail, size) == [FromBytes(order, head)] + ArrayValues(order, tail, size)
  {
    assert (head + tail)[..size] == head && (head + tail)[size..] == tail;
  }

  /** A value that fits in `n` bytes survives encoding and decoding. */
  lemma FitsRoundTrip(order: ByteOrder, value: nat, n: nat)
    requires value < Pow256(n)
    ensures FromBytes(order, ToBytes(order, value, n)) == value
  {
    ToBytesRoundTrip(order, value, n);
    Bits.DivModUnique(value, Pow256(n), 0, value);
  }

  /** Reading back an array write gives back every element that fits its type. */
  lemma {:induction false} ArrayRoundTrip(order: ByteOrder, values: seq<nat>, size: nat)
    requires size >= 1
    requires forall i :: 0 <= i < |values| ==> values[i] < Pow256(size)
    ensures ArrayValues(order, ArrayPayload(order, values, size), size) == values
  {
    if |values| > 0 {
      ArrayValuesCons(order, ToBytes(order, values[0], size), ArrayPayload(order, values[1..], size), size);
      FitsRoundTrip(order, values[0], size);
      ArrayRoundTrip(order, values[1..], size);
      assert values == [values[0]] + values[1..];
    }
  }

  /** `m` with `p` copied over it from index `a`. */
  function Splice(m: seq<Byte>, a: nat, p: seq<Byte>): (r: seq<Byte>)
    requires a + |p| <= |m|
    ensures |r| == |m|
    ensures r[a..a + |p|] == p
    ensures forall k :: 0 <= k < |m| && !(a <= k < a + |p|) ==> r[k] == m[k]
  {
    m[..a] + p + m[a + |p|..]
  }

  /** A later write over the same bytes replaces an earlier one. */
  lemma SpliceOverwrite(m: seq<Byte>, a: nat, p: seq<Byte>, q: seq<Byte>)
    requires a + |p| <= |m| && |q| == |p|
    ensures Splice(Splice(m, a, p), a, q) == Splice(m, a, q)
  {
    var x, y := Splice(Splice(m, a, p), a, q), Splice(m, a, q);
    assert forall k :: 0 <= k < |m| ==> x[k] == y[k] by {
      forall k | 0 <= k < |m|
        ensures x[k] == y[k]
      {
        if a <= k < a + |q| {
          assert x[k] == x[a..a + |q|][k - a];
          assert y[k] == y[a..a + |q|][k - a];
        }
      }
    }
  }

  /** Writes to disjoint byte ranges commute. */
  lemma SpliceCommute(m: seq<Byte>, a: nat, p: seq<Byte>, b: nat, q: seq<Byte>)
    requires a + |p| <= b && b + |q| <= |m|
    ensures Splice(Splice(m, a, p), b, q) == Splice(Splice(m, b, q), a, p)
  {
    var x, y := Splice(Splice(m, a, p), b, q), Splice(Splice(m, b, q), a, p);
    forall k | 0 <= k < |m|
      ensures x[k] == y[k]
    {
      if a <= k < a + |p| {
        assert x[k] == Splice(m, a, p)[k] == Splice(m, a, p)[a..a + |p|][k - a];
        assert y[k] == y[a..a + |p|][k - a];
      } else if b <= k < b + |q| {
        assert x[k] == x[b..b + |q|][k - b];
        assert y[k] == Splice(m, b, q)[k] == Splice(m, b, q)[b..b + |q|][k - b];
      }
    }
  }

  /** `MockProtocol<kByte1>`: a device whose registers are a 256-byte memory
   * map, addressed by the first address byte. */
  class MockProtocol {
    const memoryMap: array<Byte>

    /** The memory map starts with the contents a test configured. */
    constructor(contents: seq<Byte>)
      requires |contents| == 256
      ensures memoryMap.Length == 256 && memoryMap[..] == contents
      ensures fresh(memoryMap)
    {
      memoryMap := new Byte[256](i requires 0 <= i < 256 => contents[i]);
    }

    /** Copies the payload into the memory map from `address[0]` on; the copy
     * is not bounds-checked, so the payload must end inside the map. */
    method Write(address: seq<Byte>, payload: seq<Byte>)
      requires |address| >= 1 && address[0] + |payload| <= memoryMap.Length
      modifies memoryMap
      ensures memoryMap[..] == Splice(old(memoryMap[..]), address[0], payload)
    {
      var start := address[0];
      for i := 0 to |payload|
        invariant forall k :: 0 <= k < memoryMap.Length ==>
          memoryMap[k] == (if start <= k < start + i then payload[k - start] else old(memoryMap[k]))
      {
        memoryMap[start + i] := payload[i];
      }
      var r := Splice(old(memoryMap[..]), start, payload);
      forall k | 0 <= k < memoryMap.Length
        ensures memoryMap[k] == r[k]
      {
        if start <= k < start + |payload| {
          assert r[k] == r[start..start + |payload|][k - start];
        }
      }
    }

    /** Copies `n` bytes of the memory map from `address[0]` on. */
    method Read(address: seq<Byte>, n: nat) returns (payload: seq<Byte>)
      requires |address| >= 1 && address[0] + n <= memoryMap.Length
      ensures payload == memoryMap[address[0]..address[0] + n]
    {
      var start := address[0];
      var buffer := new Byte[n];
      for i := 0 to n
        invariant forall k :: 0 <= k < i ==> buffer[k] == memoryMap[start + k]
      {
        buffer[i] := memoryMap[start + i];
      }
      payload := buffer[..];
    }
  }

  /** A read of the bytes just written at the same address gives back the
   * payload. */
  method WriteThenRead(mock: MockProtocol, address: seq<Byte>, payload: seq<Byte>) returns (readBack: seq<Byte>)
    requires |address| >= 1 && address[0] + |payload| <= mock.memoryMap.Length
    modifies mock.memoryMap
    ensures readBack == payload
    ensures mock.memoryMap[..] == Splice(old(mock.memoryMap[..]), address[0], payload)
  {
    mock.Write(address, payload);
    readBack := mock.Read(address, |payload|);
    assert readBack == mock.memoryMap[..][address[0]..address[0] + |payload|];
  }

  /** An access handler bound to a mock memory map and one register. */
  class AccessHandler {
    const memory: MockProtocol
    const order: ByteOrder
    const address: Address

    constructor(memory: MockProtocol, order: ByteOrder, address: Address)
      ensures this.memory == memory && this.order == order && this.address == address
    {
      this.memory := memory;
      this.order := order;
      this.address := address;
    }

    /** Assigning an integer writes `IntegerPayload` to the register. */
    method WriteInteger(value: int)
      requires |address.bytes| >= 1
      requires address.bytes[0] + RegisterSize(address.width) <= memory.memoryMap.Length
      modifies memory.memoryMap
      ensures memory.memoryMap[..]
           == Splice(old(memory.memoryMap[..]), address.bytes[0], IntegerPayload(order, value, address.width))
    {
      var payload := IntegerPayload(order, value, address.width);
      memory.Write(address.bytes, payload);
    }

    /** Converting the register to an integer type `t` reads
     * `RegisterSize(width)` bytes and converts them to `t`. */
    method ReadInteger(t: IntegerType) returns (value: int)
      requires |address.bytes| >= 1
      requires address.bytes[0] + RegisterSize(address.width) <= memory.memoryMap.Length
      ensures value == IntegerValue(order, memory.memoryMap[address.bytes[0]..address.bytes[0] + RegisterSize(address.width)], t)
    {
      var received := memory.Read(address.bytes, RegisterSize(address.width));
      value := IntegerValue(order, received, t);
    }

    /** An integer written and then read back through the same register
     * comes back congruent modulo the narrower of the register and the
     * type: kept to that many bytes for an unsigned type, and unchanged for
     * a value in the range of a signed type the register holds whole. */
    method WriteThenReadInteger(value: int, t: IntegerType) returns (readBack: int)
      requires |address.bytes| >= 1
      requires address.bytes[0] + RegisterSize(address.width) <= memory.memoryMap.Length
      modifies memory.memoryMap
      ensures var m := Min(RegisterSize(address.width), t.size); readBack % Pow256(m) == value % Pow256(m)
      ensures !t.signed ==> readBack == value % Pow256(Min(RegisterSize(address.width), t.size))
      ensures t.signed && 0 < t.size <= RegisterSize(address.width) && InSignedRange(value, t.size)
              ==> readBack == value
    {
      WriteInteger(value);
      readBack := ReadInteger(t);
      IntegerRoundTrip(order, value, address.width, t);
      if t.signed && 0 < t.size <= RegisterSize(address.width) && InSignedRange(value, t.size) {
        SignedRoundTrip(order, value, address.width, t);
      }
    }
  }

  /** The `I2cProtocol` write buffer: the address limit plus the largest
   * payload the protocol was declared with. */
  function I2cBufferSize(maximumPayloadSize: nat): nat
  {
    AddressSizeLimit + maximumPayloadSize
  }

  /** `I2cProtocol::Write` as written: a write whose address and value
   * together reach the buffer size is refused with not-enough-memory;
   * otherwise the whole buffer is sent, so the bytes after the value are
   * whatever the uninitialised buffer held (`stale`). */
  function I2cWriteAsWritten(address: seq<Byte>, value: seq<Byte>, maximumPayloadSize: nat, stale: seq<Byte>): (r: Result<seq<Byte>>)
    requires |stale| == I2cBufferSize(maximumPayloadSize)
    ensures r.Err? <==> |address| + |value| >= I2cBufferSize(maximumPayloadSize)
    ensures r.Err? ==> r.error == NotEnoughMemory
    ensures r.Ok? ==> |r.value| == I2cBufferSize(maximumPayloadSize)
    ensures r.Ok? ==> r.value[..|address|] == address && r.value[|address|..|address| + |value|] == value
  {
    if |address| + |value| >= I2cBufferSize(maximumPayloadSize) then Err(NotEnoughMemory)
    else
      var sent := address + value + stale[|address| + |value|..];
      assert sent[..|address|] == address;
      assert sent[|address|..|address| + |value|] == value;
      Ok(sent)
  }

  /** A four-byte address with a one-byte value fills the buffer of a
   * protocol declared for one-byte payloads exactly, yet is refused. */
  lemma I2cWriteRejectsExactFit(stale: seq<Byte>)
    requires |stale| == I2cBufferSize(1)
    ensures I2cWriteAsWritten([0x12, 0x34, 0x56, 0x78], [0xAB], 1, stale) == Err(NotEnoughMemory)
  {
  }

  /** A one-byte address with a one-byte value sends five bytes, three of
   * them taken from the uninitialised buffer. */
  lemma I2cWriteSendsStaleBytes(stale: seq<Byte>)
    requires |stale| == I2cBufferSize(1)
    ensures I2cWriteAsWritten([0x10], [0xAB], 1, stale) == Ok([0x10, 0xAB] + stale[2..])
    ensures |I2cWriteAsWritten([0x10], [0xAB], 1, stale).value| == 5
  {
    assert [0x10] + [0xAB] == [0x10, 0xAB];
  }

  /** `I2cProtocol::Write` corrected: any write that fits the buffer is sent,
   * and exactly the address followed by the value goes on the bus. */
  function I2cWrite(address: seq<Byte>, value: seq<Byte>, maximumPayloadSize: nat): (r: Result<seq<Byte>>)
    ensures r.Err? <==> |address| + |value| > I2cBufferSize(maximumPayloadSize)
    ensures r.Err? ==> r.error == NotEnoughMemory
    ensures r.Ok? ==> |r.value| == |address| + |value| <= I2cBufferSize(maximumPayloadSize)
    ensures r.Ok? ==> r.value[..|address|] == address && r.value[|address|..] == value
  {
    if |address| + |value| > I2cBufferSize(maximumPayloadSize) then Err(NotEnoughMemory)
    else Ok(address + value)
  }

  /** Every address up to the limit with a value up to the declared payload
   * size is accepted by the corrected write. */
  lemma I2cWriteAcceptsWhatFits(address: seq<Byte>, value: seq<Byte>, maximumPayloadSize: nat)
    requires |address| <= AddressSizeLimit && |value| <= maximumPayloadSize
    ensures I2cWrite(address, value, maximumPayloadSize) == Ok(address + value)
  {
  }

  /** The location a register address decodes to (`ToInteger<uint32_t>`). */
  function Location(order: ByteOrder, a: Address): nat
  {
    FromBytes(order, a.bytes)
  }

  /** The running location after a register: its end, wrapped to 32 bits. */
  function EndLocation(order: ByteOrder, a: Address): nat
  {
    (Location(order, a) + a.width) % 0x1_0000_0000
  }

  /** Each register starts at or after the (32-bit) end of the one before. */
  predicate InOrder(order: ByteOrder, registers: seq<Address>)
  {
    forall i :: 1 <= i < |registers| ==> Location(order, registers[i]) >= EndLocation(order, registers[i - 1])
  }

  lemma InOrderExtend(order: ByteOrder, registers: seq<Address>, i: nat)
    requires i < |registers| && InOrder(order, registers[..i])
    requires i > 0 ==> Location(order, registers[i]) >= EndLocation(order, registers[i - 1])
    ensures InOrder(order, registers[..i + 1])
  {
    var prefix := registers[..i + 1];
    forall j | 1 <= j < i + 1
      ensures Location(order, prefix[j]) >= EndLocation(order, prefix[j - 1])
    {
      if j < i {
        assert prefix[j] == registers[..i][j];
        assert prefix[j - 1] == registers[..i][j - 1];
      }
    }
  }

  lemma InOrderStop(order: ByteOrder, registers: seq<Address>, i: nat)
    requires 0 < i < |registers|
    requires Location(order, registers[i]) < EndLocation(order, registers[i - 1])
    ensures !InOrder(order, registers[..i + 1])
  {
    assert registers[..i + 1][i] == registers[i];
    assert registers[..i + 1][i - 1] == registers[i - 1];
  }

  /** `NoRegistersOverlap`: walks the list keeping the end of the previous
   * register and fails at the first register that starts before it. */
  method NoRegistersOverlap(order: ByteOrder, registers: seq<Address>) returns (r: bool)
    requires forall i :: 0 <= i < |registers| ==> |registers[i].bytes| <= 4
    ensures r <==> InOrder(order, registers)
  {
    var current: Uint32 := 0;
    for i := 0 to |registers|
      invariant InOrder(order, registers[..i])
      invariant i == 0 ==> current == 0
      invariant i > 0 ==> current == EndLocation(order, registers[i - 1])
    {
      var location := Location(order, registers[i]);
      if location < current {
        InOrderStop(order, registers, i);
        return false;
      }
      InOrderExtend(order, registers, i);
      current := EndLocation(order, registers[i]);
    }
    assert registers[..|registers|] == registers;
    return true;
  }

  /** When no register reaches past the 32-bit address space, passing the
   * check means the registers are sorted and pairwise disjoint. */
  lemma {:induction false} InOrderDisjoint(order: ByteOrder, registers: seq<Address>, i: nat, j: nat)
    requires InOrder(order, registers)
    requires forall k :: 0 <= k < |registers| ==> Location(order, registers[k]) + registers[k].width < 0x1_0000_0000
    requires i < j < |registers|
    ensures Location(order, registers[i]) + registers[i].width <= Location(order, registers[j])
    decreases j - i
  {
    var a := registers[j - 1];
    assert Location(order, registers[j]) >= EndLocation(order, a);
    assert Location(order, a) + a.width < 0x1_0000_0000;
    assert EndLocation(order, a) == Location(order, a) + a.width;
    if i < j - 1 {
      InOrderDisjoint(order, registers, i, j - 1);
    }
  }
}
