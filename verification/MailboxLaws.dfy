/** The mailbox bytes refine a bounded first-in first-out queue. */
module MailboxLaws {
  import opened Basics
  import opened Mailbox
  import Ring
  import Utf8

  // ---------------------------------------------------------------- fields of packed records

  lemma FieldOf(raw: Bytes, before: Bytes, n: nat, w: nat, after: Bytes)
    requires n < Pow256(w) && raw == before + ToBytes(n, w) + after
    ensures |before| + w <= |raw| && Field(raw, |before|, w) == n
  {
    hide ToBytes, FromBytes, Pow256;
    UnpackPacked(n, w);
    assert raw[|before|..|before| + w] == ToBytes(n, w);
  }

  /** A record read back from a longer buffer that starts with it. */
  lemma PrefixField(raw: Bytes, head: Bytes, off: nat, w: nat)
    requires |head| <= |raw| && raw[..|head|] == head && off + w <= |head|
    ensures Field(raw, off, w) == Field(head, off, w)
  {
    forall i | off <= i < off + w ensures raw[i] == head[i] {
      assert raw[..|head|][i] == raw[i];
    }
    assert raw[off..off + w] == head[off..off + w];
  }

  lemma HeaderFields(g: Geometry, next: nat, read: nat)
    requires g.Usable() && next < U64 && read < U64
    ensures var h := HeaderBytes(g, next, read);
      && h[..8] == MAGIC && h[8..12] == [1, 0, 0, 0]
      && Field(h, 12, 4) == g.slotSize && Field(h, 16, 4) == SlotCount(g)
      && Field(h, 20, 8) == next && Field(h, 28, 8) == read
  {
    WordSizes();
    hide ToBytes, FromBytes, Pow256, Field;
    QuotientShrinks(g.capacity - HEADER_SIZE, g.slotSize);
    var n := SlotCount(g);
    var a, b, c, d, e := MAGIC + [1, 0, 0, 0], ToBytes(g.slotSize, 4), ToBytes(n, 4), ToBytes(next, 8),
      ToBytes(read, 8);
    var h := HeaderBytes(g, next, read);
    assert h == a + b + (c + d + e);
    FieldOf(h, a, g.slotSize, 4, c + d + e);
    assert h == (a + b) + c + (d + e);
    FieldOf(h, a + b, n, 4, d + e);
    assert h == (a + b + c) + d + e;
    FieldOf(h, a + b + c, next, 8, e);
    assert h == (a + b + c + d) + e + [];
    FieldOf(h, a + b + c + d, read, 8, []);
  }

  lemma HeaderReads(g: Geometry, raw: Bytes, next: nat, read: nat)
    requires g.Usable() && |raw| == g.capacity && raw[..HEADER_SIZE] == HeaderBytes(g, next, read)
    requires 1 <= read <= next < U64 && next - read <= SlotCount(g)
    ensures ReadHeader(g, raw) == Ok((next, read))
  {
    hide Field, HeaderBytes;
    var h := HeaderBytes(g, next, read);
    HeaderFields(g, next, read);
    assert raw[..8] == h[..8] && raw[8..12] == h[8..12];
    PrefixField(raw, h, 12, 4);
    PrefixField(raw, h, 16, 4);
    PrefixField(raw, h, 20, 8);
    PrefixField(raw, h, 28, 8);
  }

  lemma HeaderStarts(g: Geometry, next: nat, read: nat)
    requires g.Usable()
    ensures HeaderBytes(g, next, read)[0] == 90
  {
    hide ToBytes;
  }

  // ---------------------------------------------------------------- a slot decodes to its packet

  lemma SlotHeaderSlices(a: Bytes, b: Bytes, c: Bytes, d: Bytes, e: Bytes, f: Bytes, z: Bytes)
    requires |a| == 8 && |b| == 1 && |c| == 4 && |d| == |e| == |f| == 2 && |z| == 32
    ensures var h := a + b + c + d + e + f + z;
      && h[0..8] == a && h[8] == b[0] && h[9..13] == c && h[13..15] == d && h[15..17] == e && h[17..19] == f
      && h[19..51] == z
  {
  }

  lemma SlotHeaderFields(sha: Hash, p: Packet)
    requires p.sequence < U64 && |p.payload| < U32 && |p.sender| < U16 && |p.recipient| < U16 && |p.topic| < U16
    ensures var h := SlotHeader(sha, p);
      && Field(h, 0, 8) == p.sequence && h[8] == 1 && Field(h, 9, 4) == |p.payload|
      && Field(h, 13, 2) == |p.sender| && Field(h, 15, 2) == |p.recipient| && Field(h, 17, 2) == |p.topic|
      && h[19..51] == Digest(sha, p)
  {
    WordSizes();
    hide ToBytes, FromBytes, Pow256, Digest;
    SlotHeaderSlices(ToBytes(p.sequence, 8), [1], ToBytes(|p.payload|, 4), ToBytes(|p.sender|, 2),
                     ToBytes(|p.recipient|, 2), ToBytes(|p.topic|, 2), Digest(sha, p));
    UnpackPacked(p.sequence, 8);
    UnpackPacked(|p.payload|, 4);
    UnpackPacked(|p.sender|, 2);
    UnpackPacked(|p.recipient|, 2);
    UnpackPacked(|p.topic|, 2);
  }

  lemma CutWhole(p: Packet)
    ensures CutBody(p.sequence, Body(p), |p.sender|, |p.recipient|, |p.topic|) == p
  {
    assert Body(p)[|p.sender|..] == p.recipient + p.topic + p.payload;
  }

  lemma SlotImageSlices(h: Bytes, body: Bytes, pad: Bytes)
    requires |h| == SLOT_HEADER_SIZE
    ensures var slot := h + body + pad;
      && slot[..SLOT_HEADER_SIZE] == h && slot[8] == h[8] && slot[19..51] == h[19..51]
      && slot[SLOT_HEADER_SIZE..SLOT_HEADER_SIZE + |body|] == body
  {
  }

  lemma DecodeSlotImage(g: Geometry, sha: Hash, p: Packet)
    requires g.Usable() && CheckPacket(g, p).None? && p.sequence < U64
    ensures DecodeSlot(g, sha, SlotImage(g, sha, p), p.sequence) == Ok(p)
  {
    hide Field, Digest, SlotHeader, CutBody, Body;
    var h, slot := SlotHeader(sha, p), SlotImage(g, sha, p);
    SlotImageSlices(h, Body(p), Zeros(g.slotSize - SLOT_HEADER_SIZE - BodyLength(p)));
    hide SlotImage;
    SlotHeaderFields(sha, p);
    PrefixField(slot, h, 0, 8);
    PrefixField(slot, h, 9, 4);
    PrefixField(slot, h, 13, 2);
    PrefixField(slot, h, 15, 2);
    PrefixField(slot, h, 17, 2);
    CutWhole(p);
  }

  /** A packet is sendable exactly when it has a sender and a recipient, no name is longer than 65535 bytes,
      and everything together fits a slot behind its header. */
  lemma SendableExactlyWhen(g: Geometry, p: Packet)
    ensures CheckPacket(g, p).None? <==>
      && p.sender != [] && p.recipient != []
      && |p.sender| <= 65535 && |p.recipient| <= 65535 && |p.topic| <= 65535
      && 51 + |p.sender| + |p.recipient| + |p.topic| + |p.payload| <= g.slotSize
  {
  }

  // ---------------------------------------------------------------- what the digest covers

  /** No two byte strings have the same digest. */
  ghost predicate Injective(sha: Hash) {
    forall a, b :: sha(a) == sha(b) ==> a == b
  }

  predicate Bounded(p: Packet) {
    p.sequence < U64 && |p.sender| < U32 && |p.recipient| < U32 && |p.topic| < U32 && |p.payload| < U32
  }

  lemma SameHead(a: Bytes, b: Bytes, c: Bytes, d: Bytes)
    requires a + b == c + d && |a| == |c|
    ensures a == c && b == d
  {
    assert a == (a + b)[..|a|] && b == (a + b)[|a|..] && c == (c + d)[..|c|] && d == (c + d)[|c|..];
  }

  lemma SameWord(m: nat, n: nat, w: nat, b: Bytes, d: Bytes)
    requires m < Pow256(w) && n < Pow256(w) && ToBytes(m, w) + b == ToBytes(n, w) + d
    ensures m == n && b == d
  {
    SameHead(ToBytes(m, w), b, ToBytes(n, w), d);
    UnpackPacked(m, w);
    UnpackPacked(n, w);
  }

  /** A length-prefixed field and what follows are told apart. */
  lemma SameField(a: Bytes, b: Bytes, c: Bytes, d: Bytes)
    requires |a| < U32 && |c| < U32 && ToBytes(|a|, 4) + (a + b) == ToBytes(|c|, 4) + (c + d)
    ensures a == c && b == d
  {
    WordSizes();
    hide ToBytes;
    SameWord(|a|, |c|, 4, a + b, c + d);
    SameHead(a, b, c, d);
  }

  function Field32(a: Bytes, rest: Bytes): (s: Bytes) {
    ToBytes(|a|, 4) + (a + rest)
  }

  /** What is hashed, field by field. */
  function Hashed(p: Packet): (s: Bytes) {
    ToBytes(p.sequence, 8) + Field32(p.sender, Field32(p.recipient, Field32(p.topic, Field32(p.payload, []))))
  }

  lemma Associates(a: Bytes, b: Bytes, c: Bytes)
    ensures a + b + c == a + (b + c)
  {
  }

  lemma Regroup(front: Bytes, x: Bytes, rest: Bytes)
    ensures front + ToBytes(|x|, 4) + x + rest == front + Field32(x, rest)
  {
    hide ToBytes;
    Associates(front + ToBytes(|x|, 4), x, rest);
    Associates(front, ToBytes(|x|, 4), x + rest);
  }

  /** The same fields appended to what comes before them. */
  lemma RegroupAll(a: Bytes, p: Packet)
    ensures a + ToBytes(|p.sender|, 4) + p.sender + ToBytes(|p.recipient|, 4) + p.recipient
        + ToBytes(|p.topic|, 4) + p.topic + ToBytes(|p.payload|, 4) + p.payload
      == a + Field32(p.sender, Field32(p.recipient, Field32(p.topic, Field32(p.payload, []))))
  {
    hide *;
    var b := a + ToBytes(|p.sender|, 4) + p.sender;
    var c := b + ToBytes(|p.recipient|, 4) + p.recipient;
    var d := c + ToBytes(|p.topic|, 4) + p.topic;
    var e := d + ToBytes(|p.payload|, 4) + p.payload;
    var payload := Field32(p.payload, []);
    var topic := Field32(p.topic, payload);
    var recipient := Field32(p.recipient, topic);
    assert e == e + [];
    Regroup(d, p.payload, []);
    Regroup(c, p.topic, payload);
    Regroup(b, p.recipient, topic);
    Regroup(a, p.sender, recipient);
  }

  lemma DigestOfHashed(sha: Hash, p: Packet)
    ensures Digest(sha, p) == sha(DOMAIN + Hashed(p))
  {
    hide ToBytes, Field32;
    RegroupAll(DOMAIN + ToBytes(p.sequence, 8), p);
    Associates(DOMAIN, ToBytes(p.sequence, 8),
      Field32(p.sender, Field32(p.recipient, Field32(p.topic, Field32(p.payload, [])))));
  }

  lemma HashedDetermines(p: Packet, q: Packet)
    requires Bounded(p) && Bounded(q) && Hashed(p) == Hashed(q)
    ensures p == q
  {
    WordSizes();
    hide ToBytes, Pow256;
    var payload, payload' := Field32(p.payload, []), Field32(q.payload, []);
    var topic, topic' := Field32(p.topic, payload), Field32(q.topic, payload');
    var recipient, recipient' := Field32(p.recipient, topic), Field32(q.recipient, topic');
    SameWord(p.sequence, q.sequence, 8, Field32(p.sender, recipient), Field32(q.sender, recipient'));
    SameField(p.sender, recipient, q.sender, recipient');
    SameField(p.recipient, topic, q.recipient, topic');
    SameField(p.topic, payload, q.topic, payload');
    SameField(p.payload, [], q.payload, []);
  }

  /** The digest covers the number, the sender, the recipient, the topic and the payload, and keeps them
      apart: if the hash has no collisions, a slot that decodes at all decodes to the packet its digest was
      made for. */
  lemma TamperingDetected(g: Geometry, sha: Hash, slot: Bytes, expected: nat, p: Packet)
    requires g.Usable() && |slot| == g.slotSize && Injective(sha) && Bounded(p)
    requires slot[19..51] == Digest(sha, p) && DecodeSlot(g, sha, slot, expected).Ok?
    ensures DecodeSlot(g, sha, slot, expected).value == p
  {
    DecodedBounded(g, sha, slot, expected);
    hide DecodeSlot, Digest, Injective;
    DigestDetermines(sha, p, DecodeSlot(g, sha, slot, expected).value);
  }

  lemma DigestDetermines(sha: Hash, p: Packet, q: Packet)
    requires Injective(sha) && Bounded(p) && Bounded(q) && Digest(sha, p) == Digest(sha, q)
    ensures p == q
  {
    hide *;
    DigestOfHashed(sha, p);
    DigestOfHashed(sha, q);
    NoCollision(sha, DOMAIN, Hashed(p), Hashed(q));
    HashedDetermines(p, q);
  }

  lemma NoCollision(sha: Hash, front: Bytes, a: Bytes, b: Bytes)
    requires Injective(sha) && sha(front + a) == sha(front + b)
    ensures a == b
  {
    var x, y := front + a, front + b;
    SameInput(sha, x, y);
    hide Injective;
    SameHead(front, a, front, b);
  }

  lemma SameInput(sha: Hash, x: Bytes, y: Bytes)
    requires Injective(sha) && sha(x) == sha(y)
    ensures x == y
  {
  }

  lemma DecodedBounded(g: Geometry, sha: Hash, slot: Bytes, expected: nat)
    requires g.Usable() && |slot| == g.slotSize && DecodeSlot(g, sha, slot, expected).Ok?
    ensures var q := DecodeSlot(g, sha, slot, expected).value; Bounded(q) && slot[19..51] == Digest(sha, q)
  {
    FieldBounded(slot, 0, 8);
    hide Digest, Field;
  }

  lemma FieldBounded(raw: Bytes, off: nat, w: nat)
    requires off + w <= |raw| && w == 8
    ensures Field(raw, off, w) < U64
  {
    WordSizes();
    hide Pow256, ToBytes;
    PackUnpacked(raw[off..off + w]);
  }

  // ---------------------------------------------------------------- the region as a ring

  function Slots(g: Geometry, raw: Bytes): (cells: seq<Bytes>)
    requires g.Usable() && |raw| == g.capacity
    ensures |cells| == SlotCount(g)
  {
    SlotsExist(g);
    seq(SlotCount(g), i requires 0 <= i < SlotCount(g) => Slot(g, raw, i))
  }

  lemma SlotRewritten(g: Geometry, raw: Bytes, sequence: nat, slot: Bytes, next: nat, read: nat, j: nat)
    requires g.Usable() && |raw| == g.capacity && sequence >= 1 && |slot| == g.slotSize && j < SlotCount(g)
    ensures Slot(g, Rewrite(g, raw, sequence, slot, next, read), j)
      == if SlotIndex(g, sequence) == j then slot else Slot(g, raw, j)
  {
    hide Splice, SlotAt, SlotCount, HeaderBytes, SlotIndex;
    var h := HeaderBytes(g, next, read);
    var i := SlotIndex(g, sequence);
    var a, b := SlotAt(g, i), SlotAt(g, j);
    var filled := Splice(raw, a, slot);
    SpliceKeeps(filled, 0, h, b, b + g.slotSize);
    if i == j {
      SpliceSets(raw, a, slot);
    } else {
      SlotsApart(g, i, j);
      SpliceKeeps(raw, a, slot, b, b + g.slotSize);
    }
  }

  lemma SlotsRewritten(g: Geometry, raw: Bytes, sequence: nat, slot: Bytes, next: nat, read: nat)
    requires g.Usable() && |raw| == g.capacity && sequence >= 1 && |slot| == g.slotSize
    ensures Slots(g, Rewrite(g, raw, sequence, slot, next, read)) == Slots(g, raw)[SlotIndex(g, sequence) := slot]
  {
    hide Rewrite, Slot, SlotCount, SlotIndex;
    var raw' := Rewrite(g, raw, sequence, slot, next, read);
    forall j | 0 <= j < SlotCount(g) ensures Slots(g, raw')[j] == Slots(g, raw)[SlotIndex(g, sequence) := slot][j] {
      SlotRewritten(g, raw, sequence, slot, next, read, j);
    }
  }

  lemma HeaderRewritten(g: Geometry, raw: Bytes, sequence: nat, slot: Bytes, next: nat, read: nat)
    requires g.Usable() && |raw| == g.capacity && sequence >= 1 && |slot| == g.slotSize
    requires 1 <= read <= next < U64 && next - read <= SlotCount(g)
    ensures var raw' := Rewrite(g, raw, sequence, slot, next, read);
      raw'[0] != 0 && ReadHeader(g, raw') == Ok((next, read))
  {
    hide Splice, SlotOffset, SlotCount, HeaderBytes, ReadHeader;
    var h := HeaderBytes(g, next, read);
    var raw' := Rewrite(g, raw, sequence, slot, next, read);
    SpliceSets(Splice(raw, SlotOffset(g, sequence), slot), 0, h);
    HeaderReads(g, raw', next, read);
    HeaderStarts(g, next, read);
    assert raw'[0] == raw'[0..HEADER_SIZE][0];
  }

  type Reader = (Bytes, nat) -> Option<Packet>

  /** What a slot holds for a reader expecting a given sequence number. */
  function View(g: Geometry, sha: Hash): (view: Reader)
    requires g.Usable()
  {
    (cell: Bytes, n: nat) =>
      if |cell| != g.slotSize then None else
        var r := DecodeSlot(g, sha, cell, n);
        if r.Ok? then Some(r.value) else None
  }

  /** The region has a header with these counters, and its live slots hold the waiting packets. */
  ghost predicate Represents(g: Geometry, view: Reader, raw: Bytes, next: nat, waiting: seq<Packet>) {
    && g.Usable() && |raw| == g.capacity && |waiting| < next < U64
    && raw[0] != 0 && ReadHeader(g, raw) == Ok((next, (next - |waiting|) as nat))
    && Ring.Models(Ring.Ring(next, next - |waiting|, Slots(g, raw)), view, waiting)
  }

  // ---------------------------------------------------------------- each operation

  /** Writing a packet into the next slot appends it to the queue. */
  lemma Sent(g: Geometry, view: Reader, raw: Bytes, next: nat, read: nat, waiting: seq<Packet>, p: Packet, slot: Bytes)
    requires Represents(g, view, raw, next, waiting) && |waiting| < SlotCount(g) && next + 1 < U64
    requires |slot| == g.slotSize && view(slot, next) == Some(p) && read == next - |waiting|
    ensures Represents(g, view, Rewrite(g, raw, next, slot, next + 1, read), next + 1, waiting + [p])
  {
    hide SlotCount, Slots, ReadHeader, Rewrite, Ring.Models, Ring.At;
    var ring := Ring.Ring(next, read, Slots(g, raw));
    HeaderRewritten(g, raw, next, slot, next + 1, read);
    SlotsRewritten(g, raw, next, slot, next + 1, read);
    ModelsShaped(ring, view, waiting);
    Ring.PushModels(ring, view, waiting, slot, p);
  }

  lemma ModelsShaped<C, P>(r: Ring.Ring<C>, view: (C, nat) -> Option<P>, waiting: seq<P>)
    requires Ring.Models(r, view, waiting)
    ensures Ring.Shaped(r)
  {
  }

  /** Clearing the oldest slot removes the oldest packet. */
  lemma Taken(g: Geometry, view: Reader, raw: Bytes, next: nat, read: nat, waiting: seq<Packet>, slot: Bytes)
    requires Represents(g, view, raw, next, waiting) && waiting != [] && |slot| == g.slotSize
    requires read == next - |waiting|
    ensures Represents(g, view, Rewrite(g, raw, read, slot, next, read + 1), next, waiting[1..])
  {
    hide SlotCount, Slots, ReadHeader, Rewrite, Ring.Models, Ring.At;
    var ring := Ring.Ring(next, read, Slots(g, raw));
    ModelsShaped(ring, view, waiting);
    HeaderRewritten(g, raw, read, slot, next, read + 1);
    SlotsRewritten(g, raw, read, slot, next, read + 1);
    Ring.PopModels(ring, view, waiting, slot);
  }

  /** `enqueue` fails for exactly the reasons a bounded queue has. */
  lemma EnqueueWhen(g: Geometry, view: Reader, sha: Hash, raw: Bytes, next: nat, waiting: seq<Packet>, p: Packet,
                    r: Result<(Packet, Bytes), MailboxError>)
    requires Represents(g, view, raw, next, waiting) && r == EnqueuePacket(g, sha, raw, p)
    ensures r.Ok? <==> CheckPacket(g, p).None? && |waiting| < SlotCount(g) && next + 1 < U64
    ensures r == Err(Full) <==> CheckPacket(g, p).None? && |waiting| >= SlotCount(g)
    ensures r.Ok? ==> r.value.0 == p.(sequence := next)
  {
    SameCheck(g, p, next);
    ReserveIs(g, view, raw, next, waiting);
    hide SlotImage, Reserve, Rewrite, CheckPacket, Represents;
  }

  /** A successful `enqueue` rewrites the next slot and the header. */
  lemma EnqueueWrites(g: Geometry, sha: Hash, raw: Bytes, next: nat, read: nat, p: Packet)
    requires g.Usable() && |raw| == g.capacity && Reserve(g, raw) == Ok((next, read)) && CheckPacket(g, p).None?
    requires CheckPacket(g, p.(sequence := next)).None?
    ensures EnqueuePacket(g, sha, raw, p) ==
      Ok((p.(sequence := next), Rewrite(g, raw, next, SlotImage(g, sha, p.(sequence := next)), next + 1, read)))
  {
    hide SlotImage, Reserve, Rewrite, CheckPacket;
  }

  /** After the 51 bytes of its header the slot has these fields, in this order. */
  predicate Carries(slot: Bytes, s: Bytes, r: Bytes, t: Bytes, payload: Bytes) {
    var a := SLOT_HEADER_SIZE + |s|;
    var b := a + |r|;
    var c := b + |t|;
    && c + |payload| <= |slot|
    && slot[SLOT_HEADER_SIZE..a] == s && slot[a..b] == r && slot[b..c] == t && slot[c..c + |payload|] == payload
  }

  lemma BodyInSlot(g: Geometry, sha: Hash, p: Packet)
    requires g.Usable() && CheckPacket(g, p).None?
    ensures Carries(SlotImage(g, sha, p), p.sender, p.recipient, p.topic, p.payload)
  {
    hide SlotHeader;
    FourParts(SlotHeader(sha, p), p.sender, p.recipient, p.topic, p.payload,
      Zeros(g.slotSize - SLOT_HEADER_SIZE - BodyLength(p)));
  }

  lemma FourParts(h: Bytes, s: Bytes, r: Bytes, t: Bytes, p: Bytes, z: Bytes)
    ensures var slot := h + (s + r + t + p) + z;
      var a := |h| + |s|; var b := a + |r|; var c := b + |t|;
      slot[|h|..a] == s && slot[a..b] == r && slot[b..c] == t && slot[c..c + |p|] == p
  {
  }

  lemma PacketInSlot(g: Geometry, sha: Hash, raw: Bytes, p: Packet)
    requires g.Usable() && |raw| == g.capacity && EnqueuePacket(g, sha, raw, p).Ok?
    ensures var (sent, after) := EnqueuePacket(g, sha, raw, p).value;
      && sent == p.(sequence := sent.sequence) && sent.sequence >= 1 && CheckPacket(g, sent).None?
      && Slot(g, after, SlotIndex(g, sent.sequence)) == SlotImage(g, sha, sent)
  {
    hide SlotImage, Rewrite, Slot, SlotIndex, ReadHeader, Reserve;
    var h := Reserve(g, raw).value;
    SameCheck(g, p, h.0);
    hide CheckPacket;
    SlotRewritten(g, raw, h.0, SlotImage(g, sha, p.(sequence := h.0)), h.0 + 1, h.1, SlotIndex(g, h.0));
  }

  /** An enqueued message lies in the slot of its number as the encoded sender, recipient, topic and payload
      it was sent with. */
  lemma EnqueuedInSlot(g: Geometry, sha: Hash, raw: Bytes, m: Message)
    requires g.Usable() && |raw| == g.capacity && Enqueue(g, sha, raw, m).Ok?
    requires Utf8.Encodable(m.sender) && Utf8.Encodable(m.recipient) && Utf8.Encodable(m.topic)
    ensures var (sent, after) := Enqueue(g, sha, raw, m).value;
      && sent == m.(sequence := sent.sequence) && sent.sequence >= 1
      && Carries(Slot(g, after, SlotIndex(g, sent.sequence)), Utf8.Encode(m.sender), Utf8.Encode(m.recipient),
                 Utf8.Encode(m.topic), m.payload)
  {
    hide SlotImage, EnqueuePacket, Slot, SlotIndex, Utf8.Encode, Carries, CheckPacket;
    PacketInSlot(g, sha, raw, Pack(m).value);
    BodyInSlot(g, sha, EnqueuePacket(g, sha, raw, Pack(m).value).value.0);
  }

  lemma ReserveIs(g: Geometry, view: Reader, raw: Bytes, next: nat, waiting: seq<Packet>)
    requires Represents(g, view, raw, next, waiting)
    ensures |waiting| < next
    ensures Reserve(g, raw) ==
      if |waiting| >= SlotCount(g) then Err(Full)
      else if next + 1 >= U64 then Err(Exhausted)
      else Ok((next, (next - |waiting|) as nat))
  {
    hide ReadHeader, Slots, Ring.Models;
  }

  lemma EnqueueAppends(g: Geometry, sha: Hash, raw: Bytes, next: nat, read: nat, waiting: seq<Packet>, p: Packet,
                       sent: Packet)
    requires g.Usable() && |raw| == g.capacity && Represents(g, View(g, sha), raw, next, waiting)
    requires read == next - |waiting|
    requires Reserve(g, raw) == Ok((next, read)) && CheckPacket(g, p).None? && |waiting| < SlotCount(g)
    requires next + 1 < U64
    requires sent == p.(sequence := next) && CheckPacket(g, sent).None?
    ensures EnqueuePacket(g, sha, raw, p).Ok?
    ensures Represents(g, View(g, sha), EnqueuePacket(g, sha, raw, p).value.1, next + 1, waiting + [sent])
  {
    hide *;
    EnqueueWrites(g, sha, raw, next, read, p);
    ViewImage(g, sha, sent);
    Sent(g, View(g, sha), raw, next, read, waiting, sent, SlotImage(g, sha, sent));
  }

  lemma EnqueueRefines(g: Geometry, sha: Hash, raw: Bytes, next: nat, waiting: seq<Packet>, p: Packet, sent: Packet)
    requires g.Usable() && Represents(g, View(g, sha), raw, next, waiting) && |raw| == g.capacity
    requires EnqueuePacket(g, sha, raw, p).Ok? && sent == p.(sequence := next)
    ensures Represents(g, View(g, sha), EnqueuePacket(g, sha, raw, p).value.1, next + 1, waiting + [sent])
  {
    hide *;
    SameCheck(g, p, next);
    EnqueueWhen(g, View(g, sha), sha, raw, next, waiting, p, EnqueuePacket(g, sha, raw, p));
    ReserveIs(g, View(g, sha), raw, next, waiting);
    EnqueueAppends(g, sha, raw, next, next - |waiting|, waiting, p, sent);
  }

  lemma ViewImage(g: Geometry, sha: Hash, p: Packet)
    requires g.Usable() && CheckPacket(g, p).None? && p.sequence < U64
    ensures View(g, sha)(SlotImage(g, sha, p), p.sequence) == Some(p)
  {
    hide SlotImage, DecodeSlot, CheckPacket;
    DecodeSlotImage(g, sha, p);
  }

  lemma ViewMeans(g: Geometry, sha: Hash, cell: Bytes, n: nat, p: Packet)
    requires g.Usable() && |cell| == g.slotSize && View(g, sha)(cell, n) == Some(p)
    ensures DecodeSlot(g, sha, cell, n) == Ok(p)
  {
    hide DecodeSlot;
  }

  /** The slot `peek` looks at. */
  lemma FrontSlot(g: Geometry, view: Reader, raw: Bytes, next: nat, read: nat, waiting: seq<Packet>)
    requires Represents(g, view, raw, next, waiting) && waiting != [] && read == next - |waiting|
    ensures ReadHeader(g, raw) == Ok((next, read)) && read < next
    ensures view(Slot(g, raw, SlotIndex(g, read)), read) == Some(waiting[0])
  {
    hide ReadHeader, Slot, SlotCount, Ring.At, Ring.Models;
    Ring.FrontModels(Ring.Ring(next, read, Slots(g, raw)), view, waiting);
  }

  lemma PeekEmpty(g: Geometry, view: Reader, sha: Hash, raw: Bytes, next: nat)
    requires Represents(g, view, raw, next, [])
    ensures PeekPacket(g, sha, raw) == Ok(None)
  {
    hide ReadHeader, Slots, Ring.Models, DecodeSlot;
  }

  lemma PeekSlot(g: Geometry, sha: Hash, raw: Bytes, next: nat, read: nat, p: Packet)
    requires g.Usable() && |raw| == g.capacity && ReadHeader(g, raw) == Ok((next, read)) && 1 <= read < next
    requires DecodeSlot(g, sha, Slot(g, raw, SlotIndex(g, read)), read) == Ok(p)
    ensures PeekPacket(g, sha, raw) == Ok(Some(p))
  {
    hide ReadHeader, SlotIndex, Slot, SlotCount, DecodeSlot;
  }

  /** `peek` finds the oldest waiting packet. */
  lemma PeekRefines(g: Geometry, sha: Hash, raw: Bytes, next: nat, waiting: seq<Packet>)
    requires g.Usable() && |raw| == g.capacity && |waiting| < next && Represents(g, View(g, sha), raw, next, waiting)
    ensures PeekPacket(g, sha, raw) == Ok(if waiting == [] then None else Some(waiting[0]))
  {
    hide *;
    if waiting == [] {
      PeekEmpty(g, View(g, sha), sha, raw, next);
    } else {
      var read := next - |waiting|;
      FrontSlot(g, View(g, sha), raw, next, read, waiting);
      ViewMeans(g, sha, Slot(g, raw, SlotIndex(g, read)), read, waiting[0]);
      PeekSlot(g, sha, raw, next, read, waiting[0]);
    }
  }

  lemma AdvanceRefines(g: Geometry, view: Reader, raw: Bytes, next: nat, waiting: seq<Packet>,
                       r: Result<Bytes, MailboxError>)
    requires Represents(g, view, raw, next, waiting) && waiting != [] && r == Advance(g, raw)
    ensures r.Ok? && Represents(g, view, r.value, next, waiting[1..])
  {
    hide ReadHeader, SlotCount, Slots, Rewrite, Ring.Models;
    Taken(g, view, raw, next, next - |waiting|, waiting, Zeros(g.slotSize));
  }

  /** Opening a blank region makes an empty queue; reopening with the same geometry changes nothing. */
  lemma OpenRefines(g: Geometry, view: Reader, raw: Bytes, next: nat, waiting: seq<Packet>)
    requires g.Usable() && |raw| == g.capacity
    ensures raw[..HEADER_SIZE] == Zeros(HEADER_SIZE) ==>
      Open(g, raw).Ok? && Represents(g, view, Open(g, raw).value, 1, [])
    ensures Represents(g, view, raw, next, waiting) ==> Open(g, raw) == Ok(raw)
  {
    hide ReadHeader, HeaderBytes, Splice, Slots, Ring.At;
    var h := HeaderBytes(g, 1, 1);
    SlotsExist(g);
    SpliceSets(raw, 0, h);
    HeaderReads(g, Splice(raw, 0, h), 1, 1);
    HeaderStarts(g, 1, 1);
    assert Splice(raw, 0, h)[0] == Splice(raw, 0, h)[0..HEADER_SIZE][0];
    assert raw[..HEADER_SIZE][0] == raw[0];
  }

  // ---------------------------------------------------------------- whole histories

  datatype Op = Send(m: Message) | Receive | Look | Reopen

  /** The region after a history, with the messages accepted and the messages delivered. */
  datatype History = History(raw: Bytes, sent: seq<Message>, received: seq<Message>)

  function Apply(g: Geometry, sha: Hash, s: History, op: Op): (t: History)
    requires g.Usable() && |s.raw| == g.capacity
    ensures |t.raw| == g.capacity
  {
    match op
    case Send(m) =>
      var r := Enqueue(g, sha, s.raw, m);
      if r.Ok? then History(r.value.1, s.sent + [r.value.0], s.received) else s
    case Receive =>
      var r := Dequeue(g, sha, s.raw);
      if r.Err? then s
      else History(r.value.1, s.sent, if r.value.0.Some? then s.received + [r.value.0.value] else s.received)
    case Look => s
    case Reopen =>
      var r := Open(g, s.raw);
      if r.Ok? then s.(raw := r.value) else s
  }

  function After(g: Geometry, sha: Hash, blank: Bytes, ops: seq<Op>): (s: History)
    requires g.Usable() && |blank| == g.capacity
    ensures |s.raw| == g.capacity
  {
    if ops == [] then
      var r := Open(g, blank);
      History(if r.Ok? then r.value else blank, [], [])
    else Apply(g, sha, After(g, sha, blank, ops[..|ops| - 1]), ops[|ops| - 1])
  }

  /** The encoded forms of a list of messages. */
  ghost predicate Packed(ms: seq<Message>, ps: seq<Packet>) {
    |ms| == |ps| && forall i :: 0 <= i < |ms| ==> Pack(ms[i]) == Ok(ps[i])
  }

  /** What was received is what was sent first, message `i` has number `i + 1`, and `rest` is the
      encoded remainder. */
  ghost predicate Sequenced(s: History, rest: seq<Packet>) {
    && |s.received| <= |s.sent| && s.received == s.sent[..|s.received|]
    && (forall i :: 0 <= i < |s.sent| ==> s.sent[i].sequence == i + 1)
    && Packed(s.sent[|s.received|..], rest)
  }

  ghost predicate InOrder(g: Geometry, sha: Hash, s: History, rest: seq<Packet>) {
    g.Usable() && Sequenced(s, rest) && Represents(g, View(g, sha), s.raw, |s.sent| + 1, rest)
  }

  lemma PackedSend(s: History, rest: seq<Packet>, m: Message, p: Packet)
    requires |s.received| <= |s.sent| && Packed(s.sent[|s.received|..], rest) && Pack(m) == Ok(p)
    ensures Packed(s.sent[|s.received|..] + [m], rest + [p])
  {
    hide Pack;
  }

  lemma SequencedSend(s: History, rest: seq<Packet>, raw: Bytes, m: Message, p: Packet)
    requires Sequenced(s, rest) && m.sequence == |s.sent| + 1 && Pack(m) == Ok(p)
    ensures Sequenced(History(raw, s.sent + [m], s.received), rest + [p])
  {
    hide Pack, Packed;
    PackedSend(s, rest, m, p);
    var t := History(raw, s.sent + [m], s.received);
    assert t.sent[|t.received|..] == s.sent[|s.received|..] + [m];
    assert t.sent[..|t.received|] == s.sent[..|s.received|];
  }

  lemma SequencedReceive(s: History, rest: seq<Packet>, raw: Bytes)
    requires Sequenced(s, rest) && rest != []
    ensures |s.received| < |s.sent| && Pack(s.sent[|s.received|]) == Ok(rest[0])
    ensures Sequenced(History(raw, s.sent, s.received + [s.sent[|s.received|]]), rest[1..])
  {
    hide Pack;
    var t := History(raw, s.sent, s.received + [s.sent[|s.received|]]);
    assert s.sent[|s.received|..][0] == s.sent[|s.received|];
    assert t.sent[|t.received|..] == s.sent[|s.received|..][1..];
    assert t.received == t.sent[..|t.received|];
  }

  lemma SendStep(g: Geometry, sha: Hash, s: History, rest: seq<Packet>, m: Message,
                 t: History) returns (rest': seq<Packet>)
    requires g.Usable() && |s.raw| == g.capacity && InOrder(g, sha, s, rest) && t == Apply(g, sha, s, Send(m))
    ensures InOrder(g, sha, t, rest')
  {
    hide EnqueuePacket, Represents, Pack, SlotCount, CheckPacket, Sequenced;
    rest' := rest;
    if Pack(m).Ok? {
      var p := Pack(m).value;
      var r := EnqueuePacket(g, sha, s.raw, p);
      EnqueueWhen(g, View(g, sha), sha, s.raw, |s.sent| + 1, rest, p, r);
      if r.Ok? {
        EnqueueRefines(g, sha, s.raw, |s.sent| + 1, rest, p, r.value.0);
        PackRenumbers(m, |s.sent| + 1);
        SequencedSend(s, rest, r.value.1, m.(sequence := |s.sent| + 1), r.value.0);
        rest' := rest + [r.value.0];
      }
    }
  }

  /** The message can be sent at all: its fields encode and fit a slot. */
  predicate Sendable(g: Geometry, m: Message)
    requires g.Usable()
  {
    var p := Pack(m);
    p.Ok? && CheckPacket(g, p.value).None?
  }

  /** `enqueue` of a message goes the way of its packet. */
  lemma EnqueueFollows(g: Geometry, sha: Hash, raw: Bytes, m: Message)
    requires g.Usable() && |raw| == g.capacity
    ensures Pack(m).Err? ==> Enqueue(g, sha, raw, m).Err? && Enqueue(g, sha, raw, m) != Err(Full)
    ensures Pack(m).Ok? ==> var r, q := Enqueue(g, sha, raw, m), EnqueuePacket(g, sha, raw, Pack(m).value);
      (r.Ok? <==> q.Ok?) && (r == Err(Full) <==> q == Err(Full))
  {
    hide EnqueuePacket, Utf8.Encode;
  }

  lemma SendWhen(g: Geometry, sha: Hash, s: History, rest: seq<Packet>, m: Message)
    requires g.Usable() && |s.raw| == g.capacity && InOrder(g, sha, s, rest)
    ensures var r, waiting := Enqueue(g, sha, s.raw, m), |s.sent| - |s.received|;
      && (r.Ok? <==> Sendable(g, m) && waiting < SlotCount(g) && |s.sent| + 2 < U64)
      && (r == Err(Full) <==> Sendable(g, m) && waiting == SlotCount(g))
  {
    hide InOrder, Represents, Sequenced, Enqueue, EnqueuePacket, Pack, CheckPacket, SlotCount;
    InOrderMeans(g, sha, s, rest);
    Lengths(s, rest);
    EnqueueFollows(g, sha, s.raw, m);
    AtMostFull(g, View(g, sha), s.raw, |s.sent| + 1, rest);
    if Pack(m).Ok? {
      EnqueueWhen(g, View(g, sha), sha, s.raw, |s.sent| + 1, rest, Pack(m).value,
        EnqueuePacket(g, sha, s.raw, Pack(m).value));
    }
  }

  lemma PendingIs(g: Geometry, view: Reader, raw: Bytes, next: nat, waiting: seq<Packet>)
    requires Represents(g, view, raw, next, waiting)
    ensures PendingCount(g, raw) == Ok(|waiting|)
  {
    hide ReadHeader, Slots, Ring.Models;
  }

  /** The message that is due next. */
  function Due(s: History): (m: Option<Message>) {
    if |s.received| < |s.sent| then Some(s.sent[|s.received|]) else None
  }

  lemma DequeueGivesDue(g: Geometry, sha: Hash, s: History, rest: seq<Packet>)
    requires g.Usable() && |s.raw| == g.capacity && InOrder(g, sha, s, rest)
    ensures var d := Dequeue(g, sha, s.raw); d.Ok? && d.value.0 == Due(s)
    ensures Peek(g, sha, s.raw) == Ok(Due(s))
  {
    hide InOrder, Represents, Sequenced, Peek, Advance;
    InOrderMeans(g, sha, s, rest);
    Lengths(s, rest);
    PeekShowsNext(g, sha, s, rest);
    if rest != [] {
      Advanced(g, sha, s, rest);
    }
  }

  lemma AtMostFull(g: Geometry, view: Reader, raw: Bytes, next: nat, waiting: seq<Packet>)
    requires Represents(g, view, raw, next, waiting)
    ensures g.Usable() && |waiting| <= SlotCount(g)
  {
  }

  lemma PackRenumbers(m: Message, n: nat)
    requires Pack(m).Ok?
    ensures Pack(m.(sequence := n)) == Ok(Pack(m).value.(sequence := n))
  {
    hide Utf8.Encode;
  }

  lemma Lengths(s: History, rest: seq<Packet>)
    requires Sequenced(s, rest)
    ensures |rest| == |s.sent| - |s.received|
  {
  }

  /** The next message to be received is the one a peek shows. */
  lemma PeekShowsNext(g: Geometry, sha: Hash, s: History, rest: seq<Packet>)
    requires g.Usable() && |s.raw| == g.capacity && InOrder(g, sha, s, rest)
    ensures rest == [] ==> Peek(g, sha, s.raw) == Ok(None)
    ensures rest != [] ==> |s.received| < |s.sent| && Peek(g, sha, s.raw) == Ok(Some(s.sent[|s.received|]))
  {
    hide *;
    InOrderMeans(g, sha, s, rest);
    Lengths(s, rest);
    PeekRefines(g, sha, s.raw, |s.sent| + 1, rest);
    if rest == [] {
      PeekUnpacks(g, sha, s.raw, None);
    } else {
      SequencedReceive(s, rest, s.raw);
      PeekUnpacks(g, sha, s.raw, Some(s.sent[|s.received|]));
    }
  }

  lemma InOrderMeans(g: Geometry, sha: Hash, s: History, rest: seq<Packet>)
    requires InOrder(g, sha, s, rest)
    ensures g.Usable() && Sequenced(s, rest) && Represents(g, View(g, sha), s.raw, |s.sent| + 1, rest)
  {
    hide Sequenced, Represents;
  }

  lemma PeekUnpacks(g: Geometry, sha: Hash, raw: Bytes, m: Option<Message>)
    requires g.Usable() && |raw| == g.capacity && (m.Some? ==> Pack(m.value).Ok?)
    requires PeekPacket(g, sha, raw) == Ok(if m.None? then None else Some(Pack(m.value).value))
    ensures Peek(g, sha, raw) == Ok(m)
  {
    hide PeekPacket, Pack, Unpack;
    if m.Some? {
      UnpackPack(m.value);
    }
  }

  lemma ReceiveNothing(g: Geometry, sha: Hash, s: History)
    requires g.Usable() && |s.raw| == g.capacity && Peek(g, sha, s.raw) == Ok(None)
    ensures Apply(g, sha, s, Receive) == s
  {
    hide Peek, Advance;
  }

  lemma ReceiveOne(g: Geometry, sha: Hash, s: History, m: Message)
    requires g.Usable() && |s.raw| == g.capacity && Peek(g, sha, s.raw) == Ok(Some(m)) && Advance(g, s.raw).Ok?
    ensures Apply(g, sha, s, Receive) == History(Advance(g, s.raw).value, s.sent, s.received + [m])
  {
    hide Peek, Advance;
  }

  lemma ReceiveStep(g: Geometry, sha: Hash, s: History, rest: seq<Packet>) returns (rest': seq<Packet>)
    requires g.Usable() && |s.raw| == g.capacity && InOrder(g, sha, s, rest)
    ensures InOrder(g, sha, Apply(g, sha, s, Receive), rest')
  {
    hide *;
    PeekShowsNext(g, sha, s, rest);
    if rest == [] {
      ReceiveNothing(g, sha, s);
      rest' := rest;
    } else {
      Advanced(g, sha, s, rest);
      ReceiveOne(g, sha, s, s.sent[|s.received|]);
      rest' := rest[1..];
    }
  }

  lemma Advanced(g: Geometry, sha: Hash, s: History, rest: seq<Packet>)
    requires g.Usable() && |s.raw| == g.capacity && InOrder(g, sha, s, rest) && rest != []
    ensures Advance(g, s.raw).Ok? && |s.received| < |s.sent|
    ensures InOrder(g, sha, History(Advance(g, s.raw).value, s.sent, s.received + [s.sent[|s.received|]]), rest[1..])
  {
    hide Advance, Represents, Sequenced;
    AdvanceRefines(g, View(g, sha), s.raw, |s.sent| + 1, rest, Advance(g, s.raw));
    SequencedReceive(s, rest, Advance(g, s.raw).value);
  }

  lemma {:induction false} StaysInOrder(g: Geometry, sha: Hash, blank: Bytes, ops: seq<Op>) returns (rest: seq<Packet>)
    requires g.Usable() && |blank| == g.capacity && blank[..HEADER_SIZE] == Zeros(HEADER_SIZE)
    ensures InOrder(g, sha, After(g, sha, blank, ops), rest)
  {
    hide Apply, Open, Represents;
    if ops == [] {
      OpenRefines(g, View(g, sha), blank, 1, []);
      rest := [];
      assert InOrder(g, sha, After(g, sha, blank, ops), rest);
    } else {
      var before := After(g, sha, blank, ops[..|ops| - 1]);
      var op := ops[|ops| - 1];
      rest := StaysInOrder(g, sha, blank, ops[..|ops| - 1]);
      if op.Send? {
        rest := SendStep(g, sha, before, rest, op.m, Apply(g, sha, before, op));
      } else if op.Receive? {
        rest := ReceiveStep(g, sha, before, rest);
      } else {
        IdleStep(g, sha, before, rest, op);
      }
    }
  }

  lemma IdleStep(g: Geometry, sha: Hash, s: History, rest: seq<Packet>, op: Op)
    requires g.Usable() && |s.raw| == g.capacity && InOrder(g, sha, s, rest) && (op.Look? || op.Reopen?)
    ensures Apply(g, sha, s, op) == s
  {
    hide Open, Represents;
    OpenRefines(g, View(g, sha), s.raw, |s.sent| + 1, rest);
  }

  /** The region behaves as a bounded queue: the messages received are exactly the first ones sent,
      in order and intact; message `i` carries sequence number `i + 1`; a peek shows, and a dequeue
      gives, the first one not yet received; the pending count is right and never above `SlotCount`;
      a sendable message is refused as full exactly when that many are waiting, and otherwise
      accepted until the numbers run out. */
  ghost predicate BoundedQueue(g: Geometry, sha: Hash, s: History, m: Message)
    requires g.Usable() && |s.raw| == g.capacity
  {
    var waiting := |s.sent| - |s.received|;
    && 0 <= waiting <= SlotCount(g) && s.received == s.sent[..|s.received|]
    && (forall i :: 0 <= i < |s.sent| ==> s.sent[i].sequence == i + 1)
    && PendingCount(g, s.raw) == Ok(waiting)
    && Peek(g, sha, s.raw) == Ok(Due(s)) && Dequeue(g, sha, s.raw).Ok? && Dequeue(g, sha, s.raw).value.0 == Due(s)
    && (Enqueue(g, sha, s.raw, m) == Err(Full) <==> Sendable(g, m) && waiting == SlotCount(g))
    && (Enqueue(g, sha, s.raw, m).Ok? <==> Sendable(g, m) && waiting < SlotCount(g) && |s.sent| + 2 < U64)
  }

  lemma SequencedMeans(s: History, rest: seq<Packet>)
    requires Sequenced(s, rest)
    ensures |rest| == |s.sent| - |s.received| >= 0 && s.received == s.sent[..|s.received|]
    ensures forall i :: 0 <= i < |s.sent| ==> s.sent[i].sequence == i + 1
  {
    hide Pack;
  }

  lemma QueueCounts(g: Geometry, sha: Hash, s: History, rest: seq<Packet>)
    requires g.Usable() && |s.raw| == g.capacity && InOrder(g, sha, s, rest)
    ensures |s.sent| - |s.received| <= SlotCount(g)
    ensures PendingCount(g, s.raw) == Ok(|rest|) && Sequenced(s, rest)
  {
    hide *;
    InOrderMeans(g, sha, s, rest);
    AtMostFull(g, View(g, sha), s.raw, |s.sent| + 1, rest);
    PendingIs(g, View(g, sha), s.raw, |s.sent| + 1, rest);
    Lengths(s, rest);
  }

  lemma InOrderIsQueue(g: Geometry, sha: Hash, s: History, rest: seq<Packet>, m: Message)
    requires g.Usable() && |s.raw| == g.capacity && InOrder(g, sha, s, rest)
    ensures BoundedQueue(g, sha, s, m)
  {
    hide InOrder, Sequenced, Peek, Enqueue, Dequeue, PendingCount, Sendable, SlotCount, Due, Pack, Unpack;
    QueueCounts(g, sha, s, rest);
    SequencedMeans(s, rest);
    DequeueGivesDue(g, sha, s, rest);
    SendWhen(g, sha, s, rest, m);
  }

  /** Every history of sends, receives, looks and reopenings that starts from a blank region leaves
      a bounded first-in-first-out queue. */
  lemma FifoForever(g: Geometry, sha: Hash, blank: Bytes, ops: seq<Op>, m: Message)
    requires g.Usable() && |blank| == g.capacity && blank[..HEADER_SIZE] == Zeros(HEADER_SIZE)
    ensures BoundedQueue(g, sha, After(g, sha, blank, ops), m)
  {
    hide *;
    var rest := StaysInOrder(g, sha, blank, ops);
    InOrderIsQueue(g, sha, After(g, sha, blank, ops), rest, m);
  }
}
