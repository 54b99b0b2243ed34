/** The mailbox object: a region of a spatial frame patched in place. */
module SpatialMailboxes {
  import opened Basics
  import opened Frame
  import opened Mailbox
  import Raster

  /** Packing the slot header, blanking the body and copying the body in writes the slot image. */
  lemma PatchedSlot(g: Geometry, sha: Hash, raw: Bytes, off: nat, p: Packet)
    requires g.Usable() && CheckPacket(g, p).None? && off + g.slotSize <= |raw|
    ensures var start, room := off + SLOT_HEADER_SIZE, g.slotSize - SLOT_HEADER_SIZE;
      Splice(Splice(Splice(raw, off, SlotHeader(sha, p)), start, Zeros(room)), start, Body(p))
        == Splice(raw, off, SlotImage(g, sha, p))
  {
    hide SlotHeader, Body;
    ThreeSplices(raw, off, SlotHeader(sha, p), g.slotSize - SLOT_HEADER_SIZE, Body(p));
  }

  lemma ThreeSplices(raw: Bytes, off: nat, h: Bytes, room: nat, body: Bytes)
    requires |body| <= room && off + |h| + room <= |raw|
    ensures Splice(Splice(Splice(raw, off, h), off + |h|, Zeros(room)), off + |h|, body)
      == Splice(raw, off, h + body + Zeros(room - |body|))
  {
    var a := Splice(raw, off, h);
    var b := Splice(a, off + |h|, Zeros(room));
    var c := Splice(b, off + |h|, body);
    var d := Splice(raw, off, h + body + Zeros(room - |body|));
    forall i | 0 <= i < |raw| ensures c[i] == d[i] {
    }
  }

  class SpatialMailbox {
    const frame: SpatialFrame
    const region: string
    const g: Geometry
    const sha: Hash
    const target: Raster.Region

    ghost predicate Valid()
      reads this, frame
    {
      && frame.Valid() && g.Usable() && Raster.Find(frame.layout, Some(region)) == Ok(target)
      && g.capacity == Raster.Capacity(target)
    }

    /** The bytes of the region. */
    ghost function Raw(): (raw: Bytes)
      requires Valid()
      reads this, frame
      ensures |raw| == g.capacity
    {
      Raster.ReadSpan(frame.image, target, 0, g.capacity)
    }

    constructor (frame: SpatialFrame, region: string, target: Raster.Region, slotSize: nat, sha: Hash)
      requires frame.Valid() && Raster.Find(frame.layout, Some(region)) == Ok(target)
      requires SLOT_HEADER_SIZE < slotSize && HEADER_SIZE + slotSize <= Raster.Capacity(target)
      ensures Valid() && this.frame == frame && this.region == region && this.target == target && this.sha == sha
      ensures g == Geometry(Raster.Capacity(target), slotSize)
    {
      Raster.CapacityBounded(frame.layout, Some(region));
      this.frame, this.region, this.target, this.sha := frame, region, target, sha;
      this.g := Geometry(Raster.Capacity(target), slotSize);
    }

    method ReadRegion() returns (raw: Bytes)
      requires Valid()
      ensures raw == Raw()
    {
      var r := frame.ReadBytes(g.capacity, Some(region), 0);
      raw := r.value;
    }

    /** Writing the region back stores exactly these bytes and leaves the rest of the frame alone. */
    method WriteRegion(raw: Bytes)
      requires Valid() && |raw| == g.capacity
      modifies frame`image, frame`dirty
      ensures Valid() && Raw() == raw
      ensures frame.image == Raster.WriteSpan(old(frame.image), target, 0, raw)
    {
      var _ := frame.WriteBytes(raw, Some(region), 0);
      Raster.ReadAfterWrite(old(frame.image), target, 0, raw);
    }

    /** `_ensure_header`, the last step of opening a mailbox. */
    method EnsureHeader() returns (e: Option<MailboxError>)
      requires Valid()
      modifies frame`image, frame`dirty
      ensures Valid()
      ensures var ready := Open(g, old(Raw()));
        && (ready.Err? ==> e == Some(ready.error) && frame.image == old(frame.image))
        && (ready.Ok? ==> e == None && Raw() == ready.value)
    {
      hide ReadHeader, HeaderBytes;
      var raw := ReadRegion();
      if raw[..HEADER_SIZE] == Zeros(HEADER_SIZE) {
        WriteRegion(Splice(raw, 0, HeaderBytes(g, 1, 1)));
        return None;
      }
      var h := ReadHeader(g, raw);
      return if h.Err? then Some(h.error) else None;
    }

    method Enqueue(m: Message) returns (r: Result<Message, MailboxError>)
      requires Valid()
      modifies frame`image, frame`dirty
      ensures Valid()
      ensures var e := Mailbox.Enqueue(g, sha, old(Raw()), m);
        && (e.Err? ==> r == Err(e.error) && frame.image == old(frame.image))
        && (e.Ok? ==> r == Ok(e.value.0) && Raw() == e.value.1)
        && (e.Ok? ==> frame.image == Raster.WriteSpan(old(frame.image), target, 0, e.value.1))
    {
      hide Mailbox.Enqueue;
      var raw := ReadRegion();
      var e := PatchEnqueue(raw, m);
      if e.Err? {
        return Err(e.error);
      }
      WriteRegion(e.value.1);
      r := Ok(e.value.0);
    }

    /** `enqueue` on a copy of the region: checks, slot edits, header edit. */
    method PatchEnqueue(region: Bytes, m: Message) returns (r: Result<(Message, Bytes), MailboxError>)
      requires g.Usable() && |region| == g.capacity
      ensures r == Mailbox.Enqueue(g, sha, region, m)
    {
      hide CheckPacket, Reserve, SlotImage, Rewrite, Pack;
      var packed := Pack(m);
      if packed.Err? {
        return Err(packed.error);
      }
      var check := CheckPacket(g, packed.value);
      if check.Some? {
        return Err(check.value);
      }
      var h := Reserve(g, region);
      if h.Err? {
        return Err(h.error);
      }
      var (next, read) := h.value;
      SameCheck(g, packed.value, next);
      var raw := PatchRegion(region, packed.value.(sequence := next), next + 1, read);
      r := Ok((m.(sequence := next), raw));
    }

    method PatchRegion(region: Bytes, p: Packet, next: nat, read: nat) returns (raw: Bytes)
      requires g.Usable() && |region| == g.capacity && p.sequence >= 1 && CheckPacket(g, p).None?
      ensures raw == Rewrite(g, region, p.sequence, SlotImage(g, sha, p), next, read)
    {
      hide SlotImage, HeaderBytes, SlotOffset;
      raw := PatchSlot(region, SlotOffset(g, p.sequence), p);
      raw := Splice(raw, 0, HeaderBytes(g, next, read));
    }

    /** The three in-place edits of one slot. */
    method PatchSlot(raw: Bytes, off: nat, p: Packet) returns (patched: Bytes)
      requires g.Usable() && CheckPacket(g, p).None? && off + g.slotSize <= |raw|
      ensures patched == Splice(raw, off, SlotImage(g, sha, p))
    {
      PatchedSlot(g, sha, raw, off, p);
      patched := Splice(raw, off, SlotHeader(sha, p));
      patched := Splice(patched, off + SLOT_HEADER_SIZE, Zeros(g.slotSize - SLOT_HEADER_SIZE));
      patched := Splice(patched, off + SLOT_HEADER_SIZE, Body(p));
    }

    method Peek() returns (r: Result<Option<Message>, MailboxError>)
      requires Valid()
      ensures r == Mailbox.Peek(g, sha, Raw())
    {
      var raw := ReadRegion();
      r := Mailbox.Peek(g, sha, raw);
    }

    method Dequeue() returns (r: Result<Option<Message>, MailboxError>)
      requires Valid()
      modifies frame`image, frame`dirty
      ensures Valid()
      ensures var e := Mailbox.Dequeue(g, sha, old(Raw()));
        && (e.Err? ==> r == Err(e.error) && frame.image == old(frame.image))
        && (e.Ok? ==> r == Ok(e.value.0) && Raw() == e.value.1)
        && (e.Ok? && e.value.0.Some? ==> frame.image == Raster.WriteSpan(old(frame.image), target, 0, e.value.1))
    {
      hide Mailbox.Peek, Advance;
      var raw := ReadRegion();
      var first := Mailbox.Peek(g, sha, raw);
      if first.Err? {
        return Err(first.error);
      }
      if first.value.None? {
        return Ok(None);
      }
      var rest := PatchAdvance(raw);
      if rest.Err? {
        return Err(rest.error);
      }
      WriteRegion(rest.value);
      r := Ok(first.value);
    }

    /** Clear the oldest slot and advance the read counter on a copy of the region. */
    method PatchAdvance(region: Bytes) returns (r: Result<Bytes, MailboxError>)
      requires g.Usable() && |region| == g.capacity
      ensures r == Advance(g, region)
    {
      hide ReadHeader, HeaderBytes, SlotOffset;
      var h := ReadHeader(g, region);
      if h.Err? {
        return Err(h.error);
      }
      var (next, read) := h.value;
      var raw := Splice(region, SlotOffset(g, read), Zeros(g.slotSize));
      raw := Splice(raw, 0, HeaderBytes(g, next, read + 1));
      r := Ok(raw);
    }
  }
}
