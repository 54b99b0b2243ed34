/** The document store behaves as a bounded map. */
module DocumentLaws {
  import opened Basics
  import opened Codec
  import opened Document
  import CodecLaws

  lemma HeaderSlices(a: Bytes, g: Bytes, n: Bytes, d: Bytes, c: Bytes, z: Bytes)
    requires |a| == 12 && |g| == 8 && |n| == 4 && |d| == 32 && |c| == 4 && |z| == 4
    ensures var h := a + g + n + d + c + z;
      h[..12] == a && h[12..20] == g && h[20..24] == n && h[24..56] == d && h[56..60] == c && h[60..64] == z
  {
  }

  /** Reading the fields of a document that starts a region. */
  lemma HeaderFields(sha: Hash, raw: Bytes, generation: nat, payload: Bytes, count: nat)
    requires |raw| >= HEADER_SIZE && raw[..HEADER_SIZE] == HeaderBytes(sha, generation, payload, count)
    requires generation < U64 && |payload| < U32 && count < U32
    ensures raw[..8] == MAGIC && raw[8..12] == [1, 0, 0, 0] && raw[60..64] == [0, 0, 0, 0]
    ensures raw[24..56] == sha(payload)
    ensures Field(raw, 12, 8) == generation && Field(raw, 20, 4) == |payload| && Field(raw, 56, 4) == count
  {
    WordSizes();
    hide ToBytes, FromBytes, Pow256;
    var a := MAGIC + [1, 0, 0, 0];
    var h := HeaderBytes(sha, generation, payload, count);
    HeaderSlices(a, ToBytes(generation, 8), ToBytes(|payload|, 4), sha(payload), ToBytes(count, 4), [0, 0, 0, 0]);
    SubSlice(raw, HEADER_SIZE, 12, 20);
    SubSlice(raw, HEADER_SIZE, 20, 24);
    SubSlice(raw, HEADER_SIZE, 24, 56);
    SubSlice(raw, HEADER_SIZE, 56, 60);
    SubSlice(raw, HEADER_SIZE, 60, 64);
    SubSlice(raw, HEADER_SIZE, 0, 12);
    SubSlice(raw, 12, 0, 8);
    SubSlice(raw, 12, 8, 12);
    assert a[0..8] == MAGIC && a[8..12] == [1, 0, 0, 0];
    UnpackPacked(generation, 8);
    UnpackPacked(|payload|, 4);
    UnpackPacked(count, 4);
  }

  lemma SubSlice(raw: Bytes, n: nat, a: nat, b: nat)
    requires a <= b <= n <= |raw|
    ensures raw[..n][a..b] == raw[a..b]
  {
  }

  /** The encoding of a dictionary starts with its entry count, so it is not empty and the count
      fits its field. */
  lemma DictCount(m: Memory)
    requires Encode(Dict(m)).Ok?
    ensures |m| < U32
  {
    hide EncodeEntries;
  }

  /** A committed document is read back as the memory and generation it was written for. */
  lemma CommitReads(sha: Hash, raw: Bytes, m: Memory, generation: nat)
    requires HEADER_SIZE <= |raw| < U32 && Commit(sha, raw, m, generation).Ok?
    ensures DecodeDocument(sha, Commit(sha, raw, m, generation).value) == Ok((m, generation + 1))
  {
    hide Encode, Decode, HeaderBytes, DecodeDocument, Field, Splice;
    var payload := Encode(Dict(m)).value;
    var raw' := Commit(sha, raw, m, generation).value;
    DocumentSlices(|raw|, HeaderBytes(sha, generation + 1, payload, |m|), payload);
    DictCount(m);
    HeaderFields(sha, raw', generation + 1, payload, |m|);
    PayloadReads(sha, m, payload, generation + 1);
    DocumentReads(sha, raw', m, generation + 1, payload);
  }

  /** A region whose fields and payload are right reads as the memory. */
  lemma DocumentReads(sha: Hash, raw: Bytes, m: Memory, generation: nat, payload: Bytes)
    requires |raw| >= HEADER_SIZE + |payload| && raw[HEADER_SIZE..HEADER_SIZE + |payload|] == payload
    requires raw[..8] == MAGIC && raw[8..12] == [1, 0, 0, 0] && raw[60..64] == [0, 0, 0, 0]
    requires raw[24..56] == sha(payload)
    requires Field(raw, 12, 8) == generation && Field(raw, 20, 4) == |payload| && Field(raw, 56, 4) == |m|
    requires DecodePayload(sha, payload, sha(payload), generation, |m|) == Ok((m, generation))
    ensures DecodeDocument(sha, raw) == Ok((m, generation))
  {
    hide DecodePayload, Field;
    assert raw[..HEADER_SIZE][0] == raw[..8][0] == 90;
  }

  lemma DocumentSlices(n: nat, h: Bytes, payload: Bytes)
    requires |h| == HEADER_SIZE && |h| + |payload| <= n
    ensures var raw := Splice(Zeros(n), 0, h + payload);
      raw[..HEADER_SIZE] == h && raw[HEADER_SIZE..HEADER_SIZE + |payload|] == payload
  {
  }

  lemma PayloadReads(sha: Hash, m: Memory, payload: Bytes, generation: nat)
    requires Encode(Dict(m)) == Ok(payload)
    ensures DecodePayload(sha, payload, sha(payload), generation, |m|) == Ok((m, generation))
  {
    hide Encode, Decode;
    assert payload[0..|payload|] == payload;
    CodecLaws.DecodeEncoded(Dict(m), payload, payload, 0, false);
  }

  /** When a commit goes through: the memory encodes, fits, and the generation has not run out. */
  lemma CommitWhen(sha: Hash, raw: Bytes, m: Memory, generation: nat)
    ensures Commit(sha, raw, m, generation).Ok? <==>
      Encode(Dict(m)).Ok? && HEADER_SIZE + |Encode(Dict(m)).value| <= |raw| && generation + 1 < U64
  {
    hide Encode, HeaderBytes;
  }

  // ---------------------------------------------------------------- whole histories

  datatype Op = Write(key: Text, value: Value) | Update(data: Memory) | Delete(key: Text) | Clear

  predicate GoodKeys(data: Memory) {
    [] !in data
  }

  /** What an operation asks a plain map to become, or nothing if it asks for no change. */
  function Wanted(m: Memory, op: Op): (r: Option<Memory>) {
    match op
    case Write(key, value) => if key == [] then None else Some(m[key := value])
    case Update(data) => if GoodKeys(data) then Some(m + data) else None
    case Delete(key) => if key in m then Some(m - {key}) else None
    case Clear => Some(map[])
  }

  predicate Room(capacity: nat, m: Memory, generation: nat) {
    Encode(Dict(m)).Ok? && HEADER_SIZE + |Encode(Dict(m)).value| <= capacity && generation + 1 < U64
  }

  /** A plain map with a generation counter and a size limit. */
  function OnMap(capacity: nat, s: (Memory, nat), op: Op): (t: (Memory, nat)) {
    var wanted := Wanted(s.0, op);
    if wanted.Some? && Room(capacity, wanted.value, s.1) then (wanted.value, s.1 + 1) else s
  }

  function MapAfter(capacity: nat, ops: seq<Op>): (s: (Memory, nat)) {
    if ops == [] then (map[], 0) else OnMap(capacity, MapAfter(capacity, ops[..|ops| - 1]), ops[|ops| - 1])
  }

  /** The same operation on the bytes of the region; a refused operation leaves them alone. */
  function OnBytes(sha: Hash, raw: Bytes, op: Op): (t: Bytes)
    requires |raw| >= HEADER_SIZE
    ensures |t| == |raw|
  {
    var now := DecodeDocument(sha, raw);
    if now.Err? then raw else
      var wanted := Wanted(now.value.0, op);
      if wanted.None? then raw else
        var next := Commit(sha, raw, wanted.value, now.value.1);
        if next.Ok? then next.value else raw
  }

  function BytesAfter(sha: Hash, blank: Bytes, ops: seq<Op>): (t: Bytes)
    requires |blank| >= HEADER_SIZE
    ensures |t| == |blank|
  {
    if ops == [] then blank else OnBytes(sha, BytesAfter(sha, blank, ops[..|ops| - 1]), ops[|ops| - 1])
  }

  lemma StepRefines(sha: Hash, raw: Bytes, s: (Memory, nat), op: Op)
    requires HEADER_SIZE <= |raw| < U32 && DecodeDocument(sha, raw) == Ok(s)
    ensures DecodeDocument(sha, OnBytes(sha, raw, op)) == Ok(OnMap(|raw|, s, op))
  {
    hide DecodeDocument, Commit, Encode, Wanted;
    var wanted := Wanted(s.0, op);
    if wanted.Some? {
      CommitWhen(sha, raw, wanted.value, s.1);
      if Commit(sha, raw, wanted.value, s.1).Ok? {
        CommitReads(sha, raw, wanted.value, s.1);
      }
    }
  }

  /** For every sequence of operations on a blank region, the document read back is the plain map
      that the same operations give, and the generation counts the committed changes. */
  lemma {:induction false} StoreRefinesMap(sha: Hash, blank: Bytes, ops: seq<Op>)
    requires HEADER_SIZE <= |blank| < U32 && blank[..HEADER_SIZE] == Zeros(HEADER_SIZE)
    ensures DecodeDocument(sha, BytesAfter(sha, blank, ops)) == Ok(MapAfter(|blank|, ops))
  {
    hide OnBytes, OnMap;
    if ops != [] {
      StoreRefinesMap(sha, blank, ops[..|ops| - 1]);
      StepRefines(sha, BytesAfter(sha, blank, ops[..|ops| - 1]), MapAfter(|blank|, ops[..|ops| - 1]), ops[|ops| - 1]);
    }
  }
}
