/** The CAN peripheral interface: the message record and its payload copy,
 * the send helpers, the inactive placeholder peripheral, and `CanNetwork`,
 * which keeps the latest message for every id it was told to capture.
 *
 * The time a message is stamped with when it is built (`Uptime()`) is a
 * parameter. The peripheral behind `CanNetwork` is modelled by its receive
 * queue. */
module Can {
  import opened Wrappers

  /** A 32-bit message id (`uint32_t`). */
  type Id = x: nat | x < 0x1_0000_0000

  datatype Format = Standard | Extended

  /** Size of the payload array of a message. */
  const PayloadCapacity: nat := 8

  /** `Message_t`. `payload` always holds the whole 8-byte array; only its
   * first `length` bytes are the message's contents. */
  datatype Message = Message(
    id: Id,
    isRemoteRequest: bool,
    length: Byte,
    format: Format,
    uptime: nat,
    payload: seq<Byte>)

  predicate WellFormed(m: Message)
  {
    |m.payload| == PayloadCapacity && m.length <= PayloadCapacity
  }

  /** A value-initialized `Message_t{}` built at time `now`. */
  function EmptyMessage(now: nat): (m: Message)
    ensures WellFormed(m) && m.id == 0 && m.length == 0 && !m.isRemoteRequest
    ensures m.format == Standard && m.uptime == now
    ensures forall i :: 0 <= i < |m.payload| ==> m.payload[i] == 0
  {
    Message(0, false, 0, Standard, now, [0, 0, 0, 0, 0, 0, 0, 0])
  }

  function Min(a: nat, b: nat): nat
  {
    if a <= b then a else b
  }

  /** `SetPayload`: the length becomes the data's size, capped at the
   * payload's 8 bytes, and that many bytes are copied to the front of the
   * payload; the rest of the payload and every other field are kept. */
  function SetPayload(m: Message, data: seq<Byte>): (r: Message)
    requires WellFormed(m)
    ensures WellFormed(r)
    ensures r.length == Min(PayloadCapacity, |data|)
    ensures r.payload[..r.length] == data[..r.length]
    ensures r.payload[r.length..] == m.payload[r.length..]
    ensures r.id == m.id && r.isRemoteRequest == m.isRemoteRequest
    ensures r.format == m.format && r.uptime == m.uptime
  {
    var n := Min(PayloadCapacity, |data|);
    var r := m.(length := n, payload := data[..n] + m.payload[n..]);
    assert r.payload[..n] == data[..n];
    r
  }

  /** The contents of a message: its first `length` payload bytes. */
  function Contents(m: Message): seq<Byte>
    requires WellFormed(m)
  {
    m.payload[..m.length]
  }

  /** Data that fits is carried whole; longer data loses everything after
   * its first 8 bytes. */
  lemma SetPayloadContents(m: Message, data: seq<Byte>)
    requires WellFormed(m)
    ensures |data| <= PayloadCapacity ==> Contents(SetPayload(m, data)) == data
    ensures |data| > PayloadCapacity ==> Contents(SetPayload(m, data)) == data[..PayloadCapacity]
  {
  }

  /** The message both `Send(id, payload)` helpers hand to `Send`: a fresh
   * message with that id and the payload copied in. */
  function SendMessage(id: Id, data: seq<Byte>, now: nat): (m: Message)
    ensures WellFormed(m) && m.id == id && m.format == Standard && !m.isRemoteRequest
    ensures m.length == Min(PayloadCapacity, |data|)
    ensures Contents(m) == data[..m.length]
    ensures forall i :: m.length <= i < PayloadCapacity ==> m.payload[i] == 0
  {
    var m := SetPayload(EmptyMessage(now).(id := id), data);
    assert forall i :: m.length <= i < PayloadCapacity ==> m.payload[i] == m.payload[m.length..][i - m.length];
    m
  }

  /** The placeholder peripheral returned by `GetInactive<Can>()`: sending
   * does nothing, nothing is ever received, the self test passes and the
   * bus is never off. */
  class InactiveCan {
    constructor()
    {
    }

    /** Sending on the placeholder has no effect at all. */
    method Send(message: Message)
      ensures unchanged(this)
    {
    }

    method Receive(now: nat) returns (m: Message)
      ensures m == EmptyMessage(now)
    {
      m := EmptyMessage(now);
    }

    method HasData() returns (r: bool)
      ensures !r
    {
      r := false;
    }

    method SelfTest(id: Id) returns (r: bool)
      ensures r
    {
      r := true;
    }

    method IsBusOff() returns (r: bool)
      ensures !r
    {
      r := false;
    }
  }

  /** The effect of one received message on the id table: the node of a
   * captured id is overwritten, a message with any other id is dropped. */
  function Store(messages: map<Id, Message>, m: Message): (r: map<Id, Message>)
    ensures r.Keys == messages.Keys
    ensures m.id in messages ==> r[m.id] == m
    ensures forall id :: id in messages && id != m.id ==> r[id] == messages[id]
  {
    if m.id in messages then messages[m.id := m] else messages
  }

  /** The id table after a sequence of received messages, in order. */
  function Deliver(messages: map<Id, Message>, received: seq<Message>): (r: map<Id, Message>)
    ensures r.Keys == messages.Keys
  {
    if |received| == 0 then messages
    else Store(Deliver(messages, received[..|received| - 1]), received[|received| - 1])
  }

  /** The last message in `received` with the given id, if any. */
  function LastWithId(received: seq<Message>, id: Id): Option<Message>
  {
    if |received| == 0 then None
    else if received[|received| - 1].id == id then Some(received[|received| - 1])
    else LastWithId(received[..|received| - 1], id)
  }

  /** A captured id's node holds the latest message that carried its id, or
   * what it held before if none did; messages for other ids never touch
   * it. */
  lemma {:induction false} DeliverKeepsLatest(messages: map<Id, Message>, received: seq<Message>, id: Id)
    requires id in messages
    ensures Deliver(messages, received)[id]
            == match LastWithId(received, id) case Some(m) => m case None => messages[id]
    decreases |received|
  {
    if |received| > 0 {
      DeliverKeepsLatest(messages, received[..|received| - 1], id);
    }
  }

  /** The peripheral a `CanNetwork` manages, seen through its receive queue:
   * `HasData` says whether the queue is non-empty and `Receive` pops its
   * front. */
  class QueuedCan {
    var pending: seq<Message>

    constructor(pending: seq<Message>)
      ensures this.pending == pending
    {
      this.pending := pending;
    }

    predicate HasData()
      reads this
    {
      |pending| > 0
    }

    method Receive() returns (m: Message)
      requires HasData()
      modifies this
      ensures m == old(pending)[0] && pending == old(pending)[1..]
    {
      m := pending[0];
      pending := pending[1..];
    }
  }

  /** `CanNetwork`: the id table and the peripheral it listens to. The
   * memory resource the table allocates from is modelled as room for
   * `capacity` ids. */
  class CanNetwork {
    var messages: map<Id, Message>
    const capacity: nat
    const can: QueuedCan

    constructor(can: QueuedCan, capacity: nat)
      ensures messages == map[] && this.can == can && this.capacity == capacity
      ensures Consistent()
    {
      messages := map[];
      this.can := can;
      this.capacity := capacity;
    }

    /** `CaptureMessage(id)`: make sure the table has a node for `id`. A new
     * node starts out as an empty message; an id already captured keeps its
     * node and message. Fails with `BadAlloc`, changing nothing, when a new
     * node is needed and the memory resource is exhausted. */
    method CaptureMessage(id: Id, now: nat) returns (r: Result<Id>)
      modifies this
      ensures r.Err? <==> id !in old(messages) && |old(messages)| >= capacity
      ensures r.Err? ==> r.error == BadAlloc && messages == old(messages)
      ensures r.Ok? ==> r.value == id && messages.Keys == old(messages).Keys + {id}
      ensures r.Ok? && id in old(messages) ==> messages == old(messages)
      ensures r.Ok? && id !in old(messages) ==> messages == old(messages)[id := EmptyMessage(now)]
      ensures old(Consistent()) ==> Consistent()
    {
      if id in messages {
        return Ok(id);
      }
      if |messages| >= capacity {
        return Err(BadAlloc);
      }
      messages := messages[id := EmptyMessage(now)];
      return Ok(id);
    }

    /** Every node holds either a message received with its id or the empty
     * message it was created with. */
    predicate Consistent()
      reads this
    {
      forall id :: id in messages ==>
        messages[id].id == id || messages[id] == EmptyMessage(messages[id].uptime)
    }

    /** The message a captured id's node holds (`Node_t::SecureGet`): in a
     * consistent table, a message with that id or an empty one. */
    function Latest(id: Id): (m: Message)
      requires id in messages
      reads this
      ensures Consistent() ==> m.id == id || m == EmptyMessage(m.uptime)
    {
      messages[id]
    }

    /** `ReceiveHandler` (and `ManuallyCallReceiveHandler`): with a message
     * waiting, pop it and store it if its id was captured; with none, do
     * nothing. */
    method ReceiveHandler()
      modifies this, can
      ensures !old(can.HasData()) ==> messages == old(messages) && can.pending == old(can.pending)
      ensures old(can.HasData()) ==>
        && can.pending == old(can.pending)[1..]
        && messages == Store(old(messages), old(can.pending)[0])
      ensures old(Consistent()) ==> Consistent()
    {
      if !can.HasData() {
        return;
      }
      var message := can.Receive();
      if message.id in messages {
        messages := messages[message.id := message];
      }
    }
  }
}
