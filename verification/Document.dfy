/** The headered, checksummed memory document that fills a storage region
    (`zdx_pixel_memory/spatial_store.py`). */
module Document {
  import opened Basics
  import opened Codec

  type Memory = map<Text, Value>

  const MAGIC: Bytes := [90, 68, 88, 83, 80, 77, 49, 0]
  const HEADER_SIZE := 64

  datatype StoreError =
    | BadKey
    | Unencodable(why: CodecError)
    | TooLarge
    | Exhausted
    | Corrupt
    | ParentChanged
    | Cancelled

  /** The header: magic, version 1, flags, reserved, generation, payload length, digest, record
      count and a zero tail. */
  function HeaderBytes(sha: Hash, generation: nat, payload: Bytes, count: nat): (h: Bytes)
    ensures |h| == HEADER_SIZE
  {
    (MAGIC + [1, 0, 0, 0]) + ToBytes(generation, 8) + ToBytes(|payload|, 4) + sha(payload) + ToBytes(count, 4)
      + [0, 0, 0, 0]
  }

  /** `_encode_document`. */
  function EncodeDocument(capacity: nat, sha: Hash, m: Memory, generation: nat): (r: Result<Bytes, StoreError>)
    ensures r.Ok? ==> |r.value| <= capacity
  {
    var payload := Encode(Dict(m));
    if payload.Err? then Err(Unencodable(payload.error))
    else if HEADER_SIZE + |payload.value| > capacity then Err(TooLarge)
    else if generation >= U64 then Err(Exhausted)
    else Ok(HeaderBytes(sha, generation, payload.value, |m|) + payload.value)
  }

  /** `_decode_document` of the bytes of a region; a blank header is an empty memory. */
  function DecodeDocument(sha: Hash, raw: Bytes): (r: Result<(Memory, nat), StoreError>)
    requires |raw| >= HEADER_SIZE
  {
    if raw[..HEADER_SIZE] == Zeros(HEADER_SIZE) then Ok((map[], 0))
    else if raw[..8] != MAGIC || raw[8..12] != [1, 0, 0, 0] || raw[60..64] != [0, 0, 0, 0] then Err(Corrupt)
    else
      var generation, length, count := Field(raw, 12, 8), Field(raw, 20, 4), Field(raw, 56, 4);
      if length > |raw| - HEADER_SIZE then Err(Corrupt)
      else DecodePayload(sha, raw[HEADER_SIZE..HEADER_SIZE + length], raw[24..56], generation, count)
  }

  function DecodePayload(sha: Hash, payload: Bytes, digest: Bytes, generation: nat, count: nat)
    : (r: Result<(Memory, nat), StoreError>)
  {
    if sha(payload) != digest then Err(Corrupt)
    else
      var v := Decode(payload, 0, false);
      if v.Err? || v.value.1 != |payload| || !v.value.0.Dict? then Err(Corrupt)
      else if |v.value.0.entries| != count then Err(Corrupt)
      else Ok((v.value.0.entries, generation))
  }

  /** `_write_frame_unlocked` on the bytes of the region: blank it, then write the document of the
      next generation. */
  function Commit(sha: Hash, raw: Bytes, m: Memory, generation: nat): (r: Result<Bytes, StoreError>)
    ensures r.Ok? ==> |r.value| == |raw|
  {
    var doc :- EncodeDocument(|raw|, sha, m, generation + 1);
    Ok(Splice(Zeros(|raw|), 0, doc))
  }
}
