/** The byte image of a spatial mailbox (`zdx_spatial_mailbox.py`): header, slots, and the four
    operations as functions on the bytes of the region. */
module Mailbox {
  import opened Basics
  import Ring
  import Utf8

  type Text = Utf8.Text

  const MAGIC: Bytes := [90, 68, 88, 77, 66, 88, 49, 0]
  const DOMAIN: Bytes :=
    [122, 100, 120, 45, 115, 112, 97, 116, 105, 97, 108, 45, 109, 97, 105, 108, 98, 111, 120, 45, 118, 49, 0]
  const HEADER_SIZE := 36
  const SLOT_HEADER_SIZE := 51

  datatype MailboxError =
    BadText | MissingParty | FieldTooLarge | BodyTooLarge | BadHeader | Full | Exhausted | BadSlot

  /** The region's capacity and the slot size agreed on. */
  datatype Geometry = Geometry(capacity: nat, slotSize: nat) {
    /** What the constructor demands; a frame holds fewer than 2**32 bytes. */
    predicate Usable() {
      SLOT_HEADER_SIZE < slotSize && HEADER_SIZE + slotSize <= capacity < U32
    }
  }

  function SlotCount(g: Geometry): (n: int)
    requires g.Usable()
  {
    (g.capacity - HEADER_SIZE) / g.slotSize
  }

  datatype Message = Message(sequence: nat, sender: Text, recipient: Text, topic: Text, payload: Bytes)

  /** A message with its text already encoded, which is what a slot holds. */
  datatype Packet = Packet(sequence: nat, sender: Bytes, recipient: Bytes, topic: Bytes, payload: Bytes)

  // ---------------------------------------------------------------- layout

  function HeaderBytes(g: Geometry, next: nat, read: nat): (h: Bytes)
    requires g.Usable()
    ensures |h| == HEADER_SIZE
  {
    var n := SlotCount(g);
    QuotientShrinks(g.capacity - HEADER_SIZE, g.slotSize);
    MAGIC + [1, 0, 0, 0] + ToBytes(g.slotSize, 4) + ToBytes(n, 4) + ToBytes(next, 8) + ToBytes(read, 8)
  }

  /** `_header`: the two counters of a header that belongs to this geometry. */
  function ReadHeader(g: Geometry, raw: Bytes): (r: Result<(nat, nat), MailboxError>)
    requires g.Usable() && |raw| == g.capacity
    ensures r.Ok? ==> 1 <= r.value.1 <= r.value.0
  {
    var next, read := Field(raw, 20, 8), Field(raw, 28, 8);
    if raw[..8] != MAGIC || raw[8..12] != [1, 0, 0, 0] then Err(BadHeader)
    else if Field(raw, 12, 4) != g.slotSize || Field(raw, 16, 4) != SlotCount(g) then Err(BadHeader)
    else if read < 1 || next < read || next - read > SlotCount(g) then Err(BadHeader)
    else Ok((next, read))
  }

  function SlotIndex(g: Geometry, sequence: nat): (i: nat)
    requires g.Usable() && sequence >= 1
    ensures i < SlotCount(g)
  {
    SlotsExist(g);
    Ring.At(SlotCount(g), sequence)
  }

  function SlotAt(g: Geometry, i: nat): (off: nat)
    requires g.Usable() && i < SlotCount(g)
    ensures HEADER_SIZE <= off && off + g.slotSize <= g.capacity
  {
    SlotFits(g, i);
    HEADER_SIZE + i * g.slotSize
  }

  /** The bytes of slot `i`. */
  function Slot(g: Geometry, raw: Bytes, i: nat): (s: Bytes)
    requires g.Usable() && |raw| == g.capacity && i < SlotCount(g)
    ensures |s| == g.slotSize
  {
    raw[SlotAt(g, i)..SlotAt(g, i) + g.slotSize]
  }

  function SlotOffset(g: Geometry, sequence: nat): (off: nat)
    requires g.Usable() && sequence >= 1
    ensures HEADER_SIZE <= off && off + g.slotSize <= g.capacity
  {
    SlotAt(g, SlotIndex(g, sequence))
  }

  lemma SlotsExist(g: Geometry)
    requires g.Usable()
    ensures SlotCount(g) >= 1
  {
    var d := g.capacity - HEADER_SIZE;
    assert d == g.slotSize * (d / g.slotSize) + d % g.slotSize;
    if d / g.slotSize < 1 {
      MulKeepsOrder(g.slotSize, d / g.slotSize, 0);
    }
  }

  lemma SlotFits(g: Geometry, i: nat)
    requires g.Usable() && i < SlotCount(g)
    ensures 0 <= i * g.slotSize && i * g.slotSize + g.slotSize <= g.capacity - HEADER_SIZE
  {
    var d := g.capacity - HEADER_SIZE;
    assert d == g.slotSize * (d / g.slotSize) + d % g.slotSize;
    MulKeepsOrder(g.slotSize, i + 1, d / g.slotSize);
    MulKeepsOrder(g.slotSize, 0, i);
  }

  lemma SlotsApart(g: Geometry, i: nat, j: nat)
    requires g.Usable() && i < SlotCount(g) && j < SlotCount(g) && i != j
    ensures SlotAt(g, i) + g.slotSize <= SlotAt(g, j) || SlotAt(g, j) + g.slotSize <= SlotAt(g, i)
  {
    hide SlotCount;
    if i < j {
      MulKeepsOrder(g.slotSize, i + 1, j);
    } else {
      MulKeepsOrder(g.slotSize, j + 1, i);
    }
  }

  // ---------------------------------------------------------------- messages in slots

  function BodyLength(p: Packet): (n: nat) {
    |p.sender| + |p.recipient| + |p.topic| + |p.payload|
  }

  /** The checks `enqueue` makes on the encoded fields. */
  function CheckPacket(g: Geometry, p: Packet): (e: Option<MailboxError>) {
    if |p.sender| == 0 || |p.recipient| == 0 then Some(MissingParty)
    else if |p.sender| >= U16 || |p.recipient| >= U16 || |p.topic| >= U16 then Some(FieldTooLarge)
    else if BodyLength(p) > g.slotSize - SLOT_HEADER_SIZE then Some(BodyTooLarge)
    else None
  }

  /** The number of a packet does not matter to its check, which never reports a full mailbox. */
  lemma SameCheck(g: Geometry, p: Packet, n: nat)
    ensures CheckPacket(g, p.(sequence := n)) == CheckPacket(g, p)
    ensures CheckPacket(g, p) != Some(Full)
  {
  }

  function Digest(sha: Hash, p: Packet): (d: Bytes)
    ensures |d| == 32
  {
    sha(DOMAIN + ToBytes(p.sequence, 8) + ToBytes(|p.sender|, 4) + p.sender + ToBytes(|p.recipient|, 4) + p.recipient
        + ToBytes(|p.topic|, 4) + p.topic + ToBytes(|p.payload|, 4) + p.payload)
  }

  function SlotHeader(sha: Hash, p: Packet): (h: Bytes)
    ensures |h| == SLOT_HEADER_SIZE
  {
    ToBytes(p.sequence, 8) + [1] + ToBytes(|p.payload|, 4) + ToBytes(|p.sender|, 2) + ToBytes(|p.recipient|, 2)
      + ToBytes(|p.topic|, 2) + Digest(sha, p)
  }

  function Body(p: Packet): (b: Bytes)
    ensures |b| == BodyLength(p)
  {
    p.sender + p.recipient + p.topic + p.payload
  }

  /** The whole slot a packet occupies. */
  function SlotImage(g: Geometry, sha: Hash, p: Packet): (s: Bytes)
    requires g.Usable() && CheckPacket(g, p).None?
    ensures |s| == g.slotSize
  {
    SlotHeader(sha, p) + Body(p) + Zeros(g.slotSize - SLOT_HEADER_SIZE - BodyLength(p))
  }

  /** `_decode_slot` on the bytes of one slot, up to the text. */
  function DecodeSlot(g: Geometry, sha: Hash, slot: Bytes, expected: nat): (r: Result<Packet, MailboxError>)
    requires g.Usable() && |slot| == g.slotSize
  {
    var sequence, payloadLen := Field(slot, 0, 8), Field(slot, 9, 4);
    var sLen, rLen, tLen := Field(slot, 13, 2), Field(slot, 15, 2), Field(slot, 17, 2);
    var total := sLen + rLen + tLen + payloadLen;
    if slot[8] != 1 || sequence != expected then Err(BadSlot)
    else if total > g.slotSize - SLOT_HEADER_SIZE then Err(BadSlot)
    else
      var p := CutBody(sequence, slot[SLOT_HEADER_SIZE..SLOT_HEADER_SIZE + total], sLen, rLen, tLen);
      if slot[19..51] != Digest(sha, p) then Err(BadSlot) else Ok(p)
  }

  function CutBody(sequence: nat, body: Bytes, sLen: nat, rLen: nat, tLen: nat): (p: Packet)
    requires sLen + rLen + tLen <= |body|
  {
    var rest := body[sLen..];
    Packet(sequence, body[..sLen], rest[..rLen], rest[rLen..rLen + tLen], rest[rLen + tLen..])
  }

  // ---------------------------------------------------------------- text

  function Pack(m: Message): (r: Result<Packet, MailboxError>) {
    if Utf8.Encodable(m.sender) && Utf8.Encodable(m.recipient) && Utf8.Encodable(m.topic) then
      Ok(Packet(m.sequence, Utf8.Encode(m.sender), Utf8.Encode(m.recipient), Utf8.Encode(m.topic), m.payload))
    else Err(BadText)
  }

  function Unpack(p: Packet): (r: Result<Message, MailboxError>) {
    var sender, recipient, topic := Utf8.Decode(p.sender), Utf8.Decode(p.recipient), Utf8.Decode(p.topic);
    if sender.None? || recipient.None? || topic.None? then Err(BadText)
    else Ok(Message(p.sequence, sender.value, recipient.value, topic.value, p.payload))
  }

  lemma UnpackPack(m: Message)
    requires Pack(m).Ok?
    ensures Unpack(Pack(m).value) == Ok(m)
  {
    Utf8.DecodeEncoded(m.sender);
    Utf8.DecodeEncoded(m.recipient);
    Utf8.DecodeEncoded(m.topic);
  }

  // ---------------------------------------------------------------- operations on the region

  /** One slot and the header rewritten in place. */
  function Rewrite(g: Geometry, raw: Bytes, sequence: nat, slot: Bytes, next: nat, read: nat): (r: Bytes)
    requires g.Usable() && |raw| == g.capacity && sequence >= 1 && |slot| == g.slotSize
    ensures |r| == g.capacity
  {
    Splice(Splice(raw, SlotOffset(g, sequence), slot), 0, HeaderBytes(g, next, read))
  }

  /** `_ensure_header`: a blank region gets a header, any other must already have the right one. */
  function Open(g: Geometry, raw: Bytes): (r: Result<Bytes, MailboxError>)
    requires g.Usable() && |raw| == g.capacity
    ensures r.Ok? ==> |r.value| == g.capacity
  {
    if raw[..HEADER_SIZE] == Zeros(HEADER_SIZE) then Ok(Splice(raw, 0, HeaderBytes(g, 1, 1)))
    else
      var h := ReadHeader(g, raw);
      if h.Err? then Err(h.error) else Ok(raw)
  }

  /** `pending_count`. */
  function PendingCount(g: Geometry, raw: Bytes): (r: Result<nat, MailboxError>)
    requires g.Usable() && |raw| == g.capacity
  {
    var h := ReadHeader(g, raw);
    if h.Err? then Err(h.error) else Ok(h.value.0 - h.value.1)
  }

  /** The counters, if there is room for one more message. */
  function Reserve(g: Geometry, raw: Bytes): (r: Result<(nat, nat), MailboxError>)
    requires g.Usable() && |raw| == g.capacity
    ensures r.Ok? ==> r.value.0 >= 1
  {
    var h :- ReadHeader(g, raw);
    if h.0 - h.1 >= SlotCount(g) then Err(Full)
    else if h.0 + 1 >= U64 then Err(Exhausted)
    else Ok(h)
  }

  /** `enqueue` of encoded fields; the packet is given the next free sequence number. */
  function EnqueuePacket(g: Geometry, sha: Hash, raw: Bytes, p: Packet): (r: Result<(Packet, Bytes), MailboxError>)
    requires g.Usable() && |raw| == g.capacity
    ensures r.Ok? ==> |r.value.1| == g.capacity
  {
    var check := CheckPacket(g, p);
    if check.Some? then Err(check.value) else
      var h :- Reserve(g, raw);
      var sent := p.(sequence := h.0);
      Ok((sent, Rewrite(g, raw, h.0, SlotImage(g, sha, sent), h.0 + 1, h.1)))
  }

  function PeekPacket(g: Geometry, sha: Hash, raw: Bytes): (r: Result<Option<Packet>, MailboxError>)
    requires g.Usable() && |raw| == g.capacity
  {
    var h := ReadHeader(g, raw);
    if h.Err? then Err(h.error) else
      var (next, read) := h.value;
      if read >= next then Ok(None) else
        var p := DecodeSlot(g, sha, Slot(g, raw, SlotIndex(g, read)), read);
        if p.Err? then Err(p.error) else Ok(Some(p.value))
  }

  /** The region after the oldest slot is cleared and the read counter advanced. */
  function Advance(g: Geometry, raw: Bytes): (r: Result<Bytes, MailboxError>)
    requires g.Usable() && |raw| == g.capacity
    ensures r.Ok? ==> |r.value| == g.capacity
  {
    var h := ReadHeader(g, raw);
    if h.Err? then Err(h.error) else
      var (next, read) := h.value;
      Ok(Rewrite(g, raw, read, Zeros(g.slotSize), next, read + 1))
  }

  // ---------------------------------------------------------------- the public operations

  function Enqueue(g: Geometry, sha: Hash, raw: Bytes, m: Message): (r: Result<(Message, Bytes), MailboxError>)
    requires g.Usable() && |raw| == g.capacity
    ensures r.Ok? ==> |r.value.1| == g.capacity
  {
    var p :- Pack(m);
    var done :- EnqueuePacket(g, sha, raw, p);
    Ok((m.(sequence := done.0.sequence), done.1))
  }

  function Peek(g: Geometry, sha: Hash, raw: Bytes): (r: Result<Option<Message>, MailboxError>)
    requires g.Usable() && |raw| == g.capacity
  {
    var p :- PeekPacket(g, sha, raw);
    if p.None? then Ok(None) else
      var m :- Unpack(p.value);
      Ok(Some(m))
  }

  function Dequeue(g: Geometry, sha: Hash, raw: Bytes): (r: Result<(Option<Message>, Bytes), MailboxError>)
    requires g.Usable() && |raw| == g.capacity
    ensures r.Ok? ==> |r.value.1| == g.capacity
  {
    var first :- Peek(g, sha, raw);
    if first.None? then Ok((None, raw)) else
      var rest :- Advance(g, raw);
      Ok((first, rest))
  }
}
