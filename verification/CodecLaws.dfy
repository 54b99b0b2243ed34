/** Round trip, prefix freedom, and the exact shape of re-encoding for `Codec`. */
module CodecLaws {
  import opened Basics
  import opened Codec
  import Lex
  import Utf8

  /** `e` sits in `data` at `off`. */
  predicate At(data: Bytes, off: nat, e: Bytes) {
    off + |e| <= |data| && data[off..off + |e|] == e
  }

  lemma AtSplit(data: Bytes, off: nat, a: Bytes, b: Bytes)
    ensures At(data, off, a + b) <==> At(data, off, a) && At(data, off + |a|, b)
  {
    var e := a + b;
    if At(data, off, e) {
      assert e[..|a|] == a && e[|a|..] == b;
      assert data[off..off + |a|] == data[off..off + |e|][..|a|];
      assert data[off + |a|..off + |a| + |b|] == data[off..off + |e|][|a|..];
    }
    if At(data, off, a) && At(data, off + |a|, b) {
      assert data[off..off + |e|] == data[off..off + |a|] + data[off + |a|..off + |a| + |b|];
    }
  }

  lemma WordAt(data: Bytes, off: nat, n: nat, w: nat)
    requires At(data, off, ToBytes(n, w)) && n < Pow256(w)
    ensures ReadWord(data, off, w) == Ok((n, off + w))
  {
    UnpackPacked(n, w);
  }

  lemma Framed32At(data: Bytes, off: nat, raw: Bytes)
    requires Framed32(raw).Ok? && At(data, off, Framed32(raw).value)
    ensures |Framed32(raw).value| == 4 + |raw|
    ensures ReadWord(data, off, 4) == Ok((|raw|, off + 4)) && Take(data, off + 4, |raw|) == Ok((raw, off + 4 + |raw|))
  {
    AtSplit(data, off, ToBytes(|raw|, 4), raw);
    WordSizes();
    WordAt(data, off, |raw|, 4);
  }

  lemma Framed16At(data: Bytes, off: nat, raw: Bytes)
    requires Framed16(raw).Ok? && At(data, off, Framed16(raw).value)
    ensures |Framed16(raw).value| == 2 + |raw|
    ensures ReadWord(data, off, 2) == Ok((|raw|, off + 2)) && Take(data, off + 2, |raw|) == Ok((raw, off + 2 + |raw|))
  {
    AtSplit(data, off, ToBytes(|raw|, 2), raw);
    WordSizes();
    WordAt(data, off, |raw|, 2);
  }

  // ---------------------------------------------------------------- round trip

  /** An encoding met anywhere in a byte string decodes to its value and stops exactly at its
      end, whatever follows, under the strict reading as well. */
  lemma {:induction false} DecodeEncoded(v: Value, e: Bytes, data: Bytes, off: nat, strict: bool)
    requires Encode(v) == Ok(e) && At(data, off, e)
    ensures Decode(data, off, strict) == Ok((v, off + |e|))
    decreases v, 2, 0
  {
    match v
    case Null => assert data[off] == data[off..off + 1][0];
    case Bool(_) => assert data[off] == data[off..off + 1][0];
    case Int(_) => DecodeEncodedInt(v, e, data, off, strict);
    case Float(_) => DecodeEncodedFlat(v, e, data, off, strict);
    case Str(_) => DecodeEncodedFlat(v, e, data, off, strict);
    case Blob(_) => DecodeEncodedFlat(v, e, data, off, strict);
    case List(items) => DecodeEncodedList(v, e, data, off, strict);
    case Dict(m) => DecodeEncodedDict(v, e, data, off, strict);
  }

  lemma DecodeEncodedFlat(v: Value, e: Bytes, data: Bytes, off: nat, strict: bool)
    requires v.Float? || v.Str? || v.Blob?
    requires Encode(v) == Ok(e) && At(data, off, e)
    ensures Decode(data, off, strict) == Ok((v, off + |e|))
  {
    hide ToBytes, FromBytes, Pow256, Utf8.Encode, Utf8.Decode;
    AtSplit(data, off, [e[0]], e[1..]);
    assert [e[0]] + e[1..] == e;
    assert data[off] == data[off..off + 1][0];
    if v.Str? {
      Framed32At(data, off + 1, Utf8.Encode(v.text));
      Utf8.DecodeEncoded(v.text);
    } else if v.Blob? {
      Framed32At(data, off + 1, v.raw);
    }
  }

  lemma {:induction false} DecodeEncodedList(v: Value, e: Bytes, data: Bytes, off: nat, strict: bool)
    requires v.List? && Encode(v) == Ok(e) && At(data, off, e)
    ensures Decode(data, off, strict) == Ok((v, off + |e|))
    decreases v, 1, 0
  {
    hide ToBytes, FromBytes, EncodeItems, DecodeItems;
    var body := EncodeItems(v.items).value;
    CountedAt(data, off, TAG_LIST, |v.items|, body);
    DecodeEncodedItems(v.items, body, data, off + 5, strict);
  }

  lemma {:induction false} DecodeEncodedDict(v: Value, e: Bytes, data: Bytes, off: nat, strict: bool)
    requires v.Dict? && Encode(v) == Ok(e) && At(data, off, e)
    ensures Decode(data, off, strict) == Ok((v, off + |e|))
    decreases v, 1, 0
  {
    hide ToBytes, FromBytes, EncodeEntries, DecodeEntries, Lex.Less, Lex.Sorted, Pow256;
    var keys := Lex.Sorted(v.entries.Keys);
    var body := EncodeEntries(v, keys).value;
    CountedAt(data, off, TAG_DICT, |v.entries|, body);
    Lex.SortedAscends(v.entries.Keys);
    DecodeEncodedEntries(v, keys, body, data, off + 5, None, strict);
    assert Restricted(v.entries, keys) == v.entries;
  }

  lemma CountedAt(data: Bytes, off: nat, tag: Byte, n: nat, body: Bytes)
    requires n < U32 && At(data, off, [tag] + ToBytes(n, 4) + body)
    ensures data[off] == tag && ReadWord(data, off + 1, 4) == Ok((n, off + 5)) && At(data, off + 5, body)
  {
    AtSplit(data, off, [tag] + ToBytes(n, 4), body);
    AtSplit(data, off, [tag], ToBytes(n, 4));
    assert data[off] == data[off..off + 1][0];
    WordSizes();
    WordAt(data, off + 1, n, 4);
  }

  lemma DecodeEncodedInt(v: Value, e: Bytes, data: Bytes, off: nat, strict: bool)
    requires v.Int? && Encode(v) == Ok(e) && At(data, off, e)
    ensures Decode(data, off, strict) == Ok((v, off + |e|))
  {
    hide ToBytes, FromBytes, Shortest;
    var sign: Byte := if v.number < 0 then 1 else 0;
    var raw := Shortest(Magnitude(v.number));
    ShortestReads(Magnitude(v.number));
    var body := Framed16(raw).value;
    AtSplit(data, off, [TAG_INT, sign], body);
    assert data[off] == data[off..off + 2][0] && data[off + 1] == data[off..off + 2][1];
    Framed16At(data, off + 2, raw);
  }

  lemma {:induction false} DecodeEncodedFramed(v: Value, e: Bytes, data: Bytes, off: nat, strict: bool)
    requires Encode(v) == Ok(e) && Framed32(e).Ok? && At(data, off, Framed32(e).value)
    ensures |Framed32(e).value| == 4 + |e|
    ensures DecodeFramed(data, off, strict) == Ok((v, off + 4 + |e|))
    decreases v, 3, 0
  {
    Framed32At(data, off, e);
    DecodeEncoded(v, e, e, 0, strict);
  }

  lemma {:induction false} DecodeEncodedItems(items: seq<Value>, e: Bytes, data: Bytes, off: nat, strict: bool)
    requires EncodeItems(items) == Ok(e) && At(data, off, e)
    ensures DecodeItems(data, off, |items|, strict) == Ok((items, off + |e|))
    decreases items, 0, 0
  {
    hide *;
    if items == [] {
      NothingEncoded(Null);
      NoItems(data, off, strict);
    } else {
      EncodedItemsStep(items);
      var item, tail := Encode(items[0]).value, EncodeItems(items[1..]).value;
      AtSplit(data, off, Framed32(item).value, tail);
      DecodeEncodedFramed(items[0], item, data, off, strict);
      DecodeEncodedItems(items[1..], tail, data, off + 4 + |item|, strict);
      DecodedItemsStep(data, off, |items|, strict);
      assert items == [items[0]] + items[1..];
    }
  }

  lemma NoItems(data: Bytes, off: nat, strict: bool)
    requires At(data, off, [])
    ensures DecodeItems(data, off, 0, strict) == Ok(([], off))
  {
  }

  lemma EncodedItemsStep(items: seq<Value>)
    requires items != [] && EncodeItems(items).Ok?
    ensures Encode(items[0]).Ok? && Framed32(Encode(items[0]).value).Ok? && EncodeItems(items[1..]).Ok?
    ensures EncodeItems(items).value == Framed32(Encode(items[0]).value).value + EncodeItems(items[1..]).value
  {
    hide Encode, Framed32;
  }

  lemma DecodedItemsStep(data: Bytes, off: nat, count: nat, strict: bool)
    requires count > 0 && off <= |data| && DecodeFramed(data, off, strict).Ok?
    ensures var (item, next) := DecodeFramed(data, off, strict).value;
      var r := DecodeItems(data, next, count - 1, strict);
      r.Ok? ==> DecodeItems(data, off, count, strict) == Ok(([item] + r.value.0, r.value.1))
  {
    hide DecodeFramed;
  }

  function Restricted(m: map<Text, Value>, keys: seq<Text>): (r: map<Text, Value>) {
    map k | k in m && k in keys :: m[k]
  }

  lemma {:induction false} DecodeEncodedEntries(v: Value, keys: seq<Text>, e: Bytes, data: Bytes, off: nat,
                                                previous: Option<Text>, strict: bool)
    requires v.Dict? && forall k :: k in keys ==> k in v.entries
    requires Lex.Ascending(keys)
    requires previous.Some? && keys != [] ==> Lex.Less(previous.value, keys[0])
    requires EncodeEntries(v, keys) == Ok(e) && At(data, off, e)
    ensures DecodeEntries(data, off, |keys|, previous, strict) == Ok((Restricted(v.entries, keys), off + |e|))
    decreases v, 0, |keys|
  {
    hide *;
    if keys == [] {
      NothingEncoded(v);
      NoEntries(v, data, off, previous, strict);
    } else {
      var key, rest := keys[0], keys[1..];
      EncodedEntriesStep(v, keys);
      AscendingTail(keys);
      var head, tail := EncodeEntry(v, key).value, EncodeEntries(v, rest).value;
      AtSplit(data, off, head, tail);
      DecodeEncodedEntry(v, key, head, data, off, strict);
      DecodeEncodedEntries(v, rest, tail, data, off + |head|, Some(key), strict);
      DecodedEntriesStep(data, off, |keys|, previous, strict);
      RestrictedStep(v.entries, keys);
    }
  }

  lemma NothingEncoded(v: Value)
    ensures EncodeItems([]) == Ok([]) && (v.Dict? ==> EncodeEntries(v, []) == Ok([]))
  {
  }

  lemma NoEntries(v: Value, data: Bytes, off: nat, previous: Option<Text>, strict: bool)
    requires v.Dict? && At(data, off, [])
    ensures Restricted(v.entries, []) == map[]
    ensures DecodeEntries(data, off, 0, previous, strict) == Ok((map[], off))
  {
  }

  lemma AscendingTail(keys: seq<Text>)
    requires Lex.Ascending(keys) && keys != []
    ensures Lex.Ascending(keys[1..]) && (keys[1..] != [] ==> Lex.Less(keys[0], keys[1..][0]))
  {
    hide Lex.Less;
  }

  lemma EncodedEntriesStep(v: Value, keys: seq<Text>)
    requires v.Dict? && forall k :: k in keys ==> k in v.entries
    requires keys != [] && EncodeEntries(v, keys).Ok?
    ensures EncodeEntry(v, keys[0]).Ok? && EncodeEntries(v, keys[1..]).Ok?
    ensures EncodeEntries(v, keys).value == EncodeEntry(v, keys[0]).value + EncodeEntries(v, keys[1..]).value
  {
    hide EncodeEntry;
  }

  lemma DecodedEntriesStep(data: Bytes, off: nat, count: nat, previous: Option<Text>, strict: bool)
    requires count > 0 && off <= |data| && DecodeKey(data, off).Ok?
    requires previous.Some? ==> Lex.Less(previous.value, DecodeKey(data, off).value.0)
    requires DecodeFramed(data, DecodeKey(data, off).value.1, strict).Ok?
    ensures var (key, mid) := DecodeKey(data, off).value;
      var (value, next) := DecodeFramed(data, mid, strict).value;
      var r := DecodeEntries(data, next, count - 1, Some(key), strict);
      r.Ok? ==> DecodeEntries(data, off, count, previous, strict) == Ok((r.value.0[key := value], r.value.1))
  {
    hide DecodeKey, DecodeFramed, Lex.Less;
  }

  lemma RestrictedStep(m: map<Text, Value>, keys: seq<Text>)
    requires keys != [] && keys[0] in m
    ensures Restricted(m, keys[1..])[keys[0] := m[keys[0]]] == Restricted(m, keys)
  {
    assert keys == [keys[0]] + keys[1..];
  }

  lemma {:induction false} DecodeEncodedEntry(v: Value, key: Text, e: Bytes, data: Bytes, off: nat, strict: bool)
    requires v.Dict? && key in v.entries
    requires EncodeEntry(v, key) == Ok(e) && At(data, off, e)
    ensures DecodeKey(data, off).Ok? && DecodeKey(data, off).value.0 == key
    ensures DecodeFramed(data, DecodeKey(data, off).value.1, strict) == Ok((v.entries[key], off + |e|))
    decreases v, 0, 0
  {
    hide ToBytes, FromBytes, Encode, DecodeFramed, Utf8.Encode, Utf8.Decode;
    var raw := Utf8.Encode(key);
    var item := Encode(v.entries[key]).value;
    AtSplit(data, off, Framed16(raw).value, Framed32(item).value);
    Framed16At(data, off, raw);
    Utf8.DecodeEncoded(key);
    DecodeEncodedFramed(v.entries[key], item, data, off + 2 + |raw|, strict);
  }

  /** No encoding is a prefix of another value's encoding; in particular `Encode` is injective. */
  lemma PrefixFree(v: Value, w: Value, suffix: Bytes)
    requires Encode(v).Ok? && Encode(w).Ok?
    requires Encode(w).value == Encode(v).value + suffix
    ensures v == w && suffix == []
  {
    var e, f := Encode(v).value, Encode(w).value;
    assert f[0..|e|] == e && f[0..|f|] == f;
    DecodeEncoded(v, e, f, 0, false);
    DecodeEncoded(w, f, f, 0, false);
  }

  // ---------------------------------------------------------------- accepted bytes

  /** What re-encoding a decoded value yields: never longer, and the very bytes if read strictly. */
  ghost predicate Reencodes(r: Result<Bytes, CodecError>, source: Bytes, strict: bool) {
    r.Ok? && |r.value| <= |source| && (strict ==> r.value == source)
  }

  lemma {:induction false} ReencodeValue(data: Bytes, off: nat, strict: bool)
    requires Decode(data, off, strict).Ok?
    ensures var (v, end) := Decode(data, off, strict).value;
      Reencodes(Encode(v), data[off..end], strict)
    decreases |data|, 1, 0
  {
    var tag := data[off];
    if tag == TAG_INT {
      ReencodeInt(data, off, strict);
    } else if tag == TAG_STR || tag == TAG_BLOB {
      ReencodeFlat(data, off, strict);
    } else if tag == TAG_LIST {
      ReencodeList(data, off, strict);
    } else if tag == TAG_DICT {
      ReencodeDict(data, off, strict);
    } else {
      var end := Decode(data, off, strict).value.1;
      assert data[off..end] == [tag] + data[off + 1..end];
    }
  }

  lemma ReencodeFlat(data: Bytes, off: nat, strict: bool)
    requires off < |data| && (data[off] == TAG_STR || data[off] == TAG_BLOB) && Decode(data, off, strict).Ok?
    ensures var (v, end) := Decode(data, off, strict).value;
      Reencodes(Encode(v), data[off..end], strict)
  {
    hide ToBytes, FromBytes, Pow256, Utf8.Encode, Utf8.Decode;
    var end := Decode(data, off, strict).value.1;
    var raw := data[off + 5..end];
    Reframed32(data, off + 1, raw);
    if data[off] == TAG_STR {
      Utf8.EncodeDecoded(raw);
    }
    assert data[off..end] == [data[off]] + data[off + 1..end];
  }

  lemma {:induction false} ReencodeList(data: Bytes, off: nat, strict: bool)
    requires off < |data| && data[off] == TAG_LIST && Decode(data, off, strict).Ok?
    ensures var (v, end) := Decode(data, off, strict).value;
      Reencodes(Encode(v), data[off..end], strict)
    decreases |data|, 0, U32
  {
    hide ToBytes, FromBytes, Pow256, EncodeItems, DecodeItems;
    var end := Decode(data, off, strict).value.1;
    var count := ReadWord(data, off + 1, 4).value.0;
    Recounted(data, off, end, count);
    ReencodeItems(data, off + 5, count, strict);
  }

  lemma {:induction false} ReencodeDict(data: Bytes, off: nat, strict: bool)
    requires off < |data| && data[off] == TAG_DICT && Decode(data, off, strict).Ok?
    ensures var (v, end) := Decode(data, off, strict).value;
      Reencodes(Encode(v), data[off..end], strict)
    decreases |data|, 0, U32
  {
    hide ToBytes, FromBytes, Pow256, EncodeEntries, DecodeEntries, Lex.Sorted, Lex.Less;
    var (v, end) := Decode(data, off, strict).value;
    var count := ReadWord(data, off + 1, 4).value.0;
    Recounted(data, off, end, count);
    ReencodeEntries(data, off + 5, count, None, strict, v.entries);
  }

  lemma Recounted(data: Bytes, off: nat, end: nat, count: nat)
    requires off + 5 <= end <= |data| && FromBytes(data[off + 1..off + 5]) == count
    ensures count < U32
    ensures data[off..end] == [data[off]] + ToBytes(count, 4) + data[off + 5..end]
  {
    WordSizes();
    PackUnpacked(data[off + 1..off + 5]);
    assert data[off..end] == [data[off]] + data[off + 1..off + 5] + data[off + 5..end];
  }

  lemma Glued(data: Bytes, off: nat, w: nat, raw: Bytes)
    requires off + w + |raw| <= |data| && data[off + w..off + w + |raw|] == raw
    ensures data[off..off + w + |raw|] == data[off..off + w] + raw
  {
  }

  lemma Reframed16(data: Bytes, off: nat, raw: Bytes)
    requires off + 2 + |raw| <= |data| && data[off + 2..off + 2 + |raw|] == raw
    requires FromBytes(data[off..off + 2]) == |raw|
    ensures Framed16(raw) == Ok(data[off..off + 2 + |raw|])
  {
    WordSizes();
    hide ToBytes, FromBytes, Pow256;
    Glued(data, off, 2, raw);
    PackUnpacked(data[off..off + 2]);
  }

  lemma Reframed32(data: Bytes, off: nat, raw: Bytes)
    requires off + 4 + |raw| <= |data| && data[off + 4..off + 4 + |raw|] == raw
    requires FromBytes(data[off..off + 4]) == |raw|
    ensures Framed32(raw) == Ok(data[off..off + 4 + |raw|])
  {
    WordSizes();
    hide ToBytes, FromBytes, Pow256;
    Glued(data, off, 4, raw);
    PackUnpacked(data[off..off + 4]);
  }

  lemma ReencodeInt(data: Bytes, off: nat, strict: bool)
    requires off < |data| && data[off] == TAG_INT && Decode(data, off, strict).Ok?
    ensures var (v, end) := Decode(data, off, strict).value;
      Reencodes(Encode(v), data[off..end], strict)
  {
    hide ToBytes, FromBytes, Pow256, Shortest;
    var (v, end) := Decode(data, off, strict).value;
    var sign, raw := data[off + 1], data[off + 4..end];
    assert data[off + 1..off + 2][0] == sign;
    Reframed16(data, off + 2, raw);
    ShortestIsLeast(raw);
    assert Magnitude(v.number) == FromBytes(raw);
    assert data[off..end] == [TAG_INT, sign] + data[off + 2..end];
  }

  lemma {:induction false} ReencodeFramed(data: Bytes, off: nat, strict: bool)
    requires DecodeFramed(data, off, strict).Ok?
    ensures var (v, end) := DecodeFramed(data, off, strict).value;
      && Encode(v).Ok? && Framed32(Encode(v).value).Ok?
      && Reencodes(Framed32(Encode(v).value), data[off..end], strict)
    decreases |data|, 0, 0
  {
    var (v, end) := DecodeFramed(data, off, strict).value;
    var raw := data[off + 4..end];
    Reframed32(data, off, raw);
    ReencodeValue(raw, 0, strict);
    assert raw[0..|raw|] == raw;
  }

  lemma {:induction false} ReencodeItems(data: Bytes, off: nat, count: nat, strict: bool)
    requires off <= |data| && DecodeItems(data, off, count, strict).Ok?
    ensures var (items, end) := DecodeItems(data, off, count, strict).value;
      EncodeItems(items).Ok? && Reencodes(EncodeItems(items), data[off..end], strict)
    decreases |data|, 0, count
  {
    hide *;
    if count == 0 {
      JustEmpty(data, off, strict);
      NothingEncoded(Null);
      NoItems(data, off, strict);
    } else {
      DecodedItemsSplit(data, off, count, strict);
      var (item, mid) := DecodeFramed(data, off, strict).value;
      var (rest, end) := DecodeItems(data, mid, count - 1, strict).value;
      ReencodeFramed(data, off, strict);
      ReencodeItems(data, mid, count - 1, strict);
      ReencodeItem(item, rest);
      JustEmpty(data, off, strict);
      Joined(Ok([]), Framed32(Encode(item).value), EncodeItems(rest), data, off, off, mid, end, strict);
      assert [] + Framed32(Encode(item).value).value == Framed32(Encode(item).value).value;
    }
  }

  lemma DecodedItemsSplit(data: Bytes, off: nat, count: nat, strict: bool)
    requires count > 0 && off <= |data| && DecodeItems(data, off, count, strict).Ok?
    ensures DecodeFramed(data, off, strict).Ok?
    ensures var (item, next) := DecodeFramed(data, off, strict).value;
      var r := DecodeItems(data, next, count - 1, strict);
      r.Ok? && DecodeItems(data, off, count, strict) == Ok(([item] + r.value.0, r.value.1))
  {
    hide DecodeFramed;
  }

  lemma ReencodeItem(item: Value, rest: seq<Value>)
    requires Encode(item).Ok? && Framed32(Encode(item).value).Ok? && EncodeItems(rest).Ok?
    ensures EncodeItems([item] + rest) == Ok(Framed32(Encode(item).value).value + EncodeItems(rest).value)
  {
    hide Encode, Framed32;
    assert ([item] + rest)[1..] == rest;
  }

  /** Stated for any dictionary `m` that agrees with the decoded entries, so that the induction
      can shrink the entry list while the dictionary stays the one being re-encoded. */
  lemma {:induction false} ReencodeEntries(data: Bytes, off: nat, count: nat, previous: Option<Text>, strict: bool,
                                           m: map<Text, Value>)
    requires off <= |data| && DecodeEntries(data, off, count, previous, strict).Ok?
    requires var part := DecodeEntries(data, off, count, previous, strict).value.0;
      forall k :: k in part ==> k in m && m[k] == part[k]
    ensures var (part, end) := DecodeEntries(data, off, count, previous, strict).value;
      var e := EncodeEntries(Dict(m), Lex.Sorted(part.Keys));
      e.Ok? && Reencodes(e, data[off..end], strict)
    decreases |data|, 0, count
  {
    hide *;
    var (part, end) := DecodeEntries(data, off, count, previous, strict).value;
    if count == 0 {
      JustEmpty(data, off, strict);
      NothingEncoded(Dict(m));
      NoEntries(Dict(m), data, off, previous, strict);
      Lex.NothingSorted();
    } else {
      DecodedEntriesSplit(data, off, count, previous, strict);
      var (key, mid) := DecodeKey(data, off).value;
      var (value, next) := DecodeFramed(data, mid, strict).value;
      var rest := DecodeEntries(data, next, count - 1, Some(key), strict).value.0;
      ReencodeKey(data, off);
      ReencodeFramed(data, mid, strict);
      ReencodeEntries(data, next, count - 1, Some(key), strict, m);
      ReencodeEntry(m, key, Lex.Sorted(rest.Keys));
      Joined(Framed16(Utf8.Encode(key)), Framed32(Encode(value).value), EncodeEntries(Dict(m), Lex.Sorted(rest.Keys)),
             data, off, mid, next, end, strict);
    }
  }

  lemma JustEmpty(data: Bytes, off: nat, strict: bool)
    requires off <= |data|
    ensures Reencodes(Ok([]), data[off..off], strict) && At(data, off, [])
  {
  }

  lemma Joined(a: Result<Bytes, CodecError>, b: Result<Bytes, CodecError>, c: Result<Bytes, CodecError>,
               data: Bytes, i: nat, j: nat, k: nat, l: nat, strict: bool)
    requires i <= j <= k <= l <= |data|
    requires a == Ok(data[i..j]) && Reencodes(b, data[j..k], strict) && Reencodes(c, data[k..l], strict)
    ensures Reencodes(Ok(a.value + b.value + c.value), data[i..l], strict)
  {
    assert data[i..l] == data[i..j] + data[j..k] + data[k..l];
  }

  lemma DecodedEntriesSplit(data: Bytes, off: nat, count: nat, previous: Option<Text>, strict: bool)
    requires count > 0 && off <= |data| && DecodeEntries(data, off, count, previous, strict).Ok?
    ensures DecodeKey(data, off).Ok? && DecodeFramed(data, DecodeKey(data, off).value.1, strict).Ok?
    ensures var (key, mid) := DecodeKey(data, off).value;
      var (value, next) := DecodeFramed(data, mid, strict).value;
      var r := DecodeEntries(data, next, count - 1, Some(key), strict);
      var whole := DecodeEntries(data, off, count, previous, strict).value;
      && r.Ok? && whole == (r.value.0[key := value], r.value.1) && key !in r.value.0
      && Lex.Sorted(whole.0.Keys) == [key] + Lex.Sorted(r.value.0.Keys)
  {
    hide DecodeKey, DecodeFramed, Lex.Less, Lex.Sorted;
    var (key, mid) := DecodeKey(data, off).value;
    var (value, next) := DecodeFramed(data, mid, strict).value;
    var rest := DecodeEntries(data, next, count - 1, Some(key), strict).value.0;
    Lex.Irreflexive(key);
    SortedAfter(key, rest.Keys);
    assert rest[key := value].Keys == {key} + rest.Keys;
  }

  lemma ReencodeEntry(m: map<Text, Value>, key: Text, rest: seq<Text>)
    requires key in m && forall k :: k in rest ==> k in m
    requires Utf8.Encodable(key) && Framed16(Utf8.Encode(key)).Ok?
    requires Encode(m[key]).Ok? && Framed32(Encode(m[key]).value).Ok?
    requires EncodeEntries(Dict(m), rest).Ok?
    ensures EncodeEntries(Dict(m), [key] + rest) ==
      Ok(Framed16(Utf8.Encode(key)).value + Framed32(Encode(m[key]).value).value + EncodeEntries(Dict(m), rest).value)
  {
    hide Encode, Utf8.Encode, Framed16, Framed32;
    assert ([key] + rest)[1..] == rest;
  }

  lemma ReencodeKey(data: Bytes, off: nat)
    requires DecodeKey(data, off).Ok?
    ensures var (key, end) := DecodeKey(data, off).value;
      Utf8.Encodable(key) && Framed16(Utf8.Encode(key)) == Ok(data[off..end])
  {
    hide Utf8.Decode, Utf8.Encode, Utf8.Encodable, Framed16, FromBytes;
    var (key, end) := DecodeKey(data, off).value;
    var raw := data[off + 2..end];
    assert Utf8.Decode(raw) == Some(key);
    Utf8.EncodeDecoded(raw);
    Reframed16(data, off, raw);
  }

  lemma SortedAfter(key: Text, rest: set<Text>)
    requires forall k :: k in rest ==> Lex.Less(key, k)
    ensures Lex.Sorted({key} + rest) == [key] + Lex.Sorted(rest)
  {
    var s := {key} + rest;
    Lex.Irreflexive(key);
    assert Lex.IsLeast(key, s);
    Lex.LeastUnique(key, Lex.Least(s), s);
    assert s - {key} == rest;
  }

  /** Any accepted bytes re-encode to a form that is never longer and decodes to the same value;
      that form is the very same bytes exactly when every integer in them is spelled minimally. */
  lemma ReencodeAccepted(data: Bytes, off: nat)
    requires Decode(data, off, false).Ok?
    ensures var (v, end) := Decode(data, off, false).value;
      && Encode(v).Ok? && |Encode(v).value| <= end - off
      && Decode(Encode(v).value, 0, false) == Ok((v, |Encode(v).value|))
      && (Encode(v).value == data[off..end] <==> Decode(data, off, true).Ok?)
  {
    var (v, end) := Decode(data, off, false).value;
    ReencodeValue(data, off, false);
    var e := Encode(v).value;
    assert e[0..|e|] == e;
    DecodeEncoded(v, e, e, 0, false);
    if e == data[off..end] {
      DecodeEncoded(v, e, data, off, true);
    }
    if Decode(data, off, true).Ok? {
      StrictAgrees(data, off);
      ReencodeValue(data, off, true);
    }
  }

  /** The encoder writes zero in one way. */
  lemma ZeroEncodes()
    ensures Encode(Int(0)) == Ok([TAG_INT, 0, 0, 0])
  {
    assert ToBytes(0, 1) == [0] && ToBytes(0, 2) == ToBytes(0, 1) + [0];
    assert ToBytes(|Shortest(0)|, 2) + Shortest(0) == [0, 0];
    assert Encode(Int(0)) == Ok([TAG_INT, 0] + [0, 0]);
    assert [TAG_INT, 0] + [0, 0] == [TAG_INT, 0, 0, 0];
  }

  /** The reader also accepts zero with a leading zero byte, which the strict reader refuses. */
  lemma PaddedZeroAccepted()
    ensures var data := [TAG_INT, 0, 0, 1, 0]; Decode(data, 0, false) == Ok((Int(0), 5)) && Decode(data, 0, true).Err?
  {
    var data: Bytes := [TAG_INT, 0, 0, 1, 0];
    assert data[1..2] == [0] && data[2..4] == [0, 1] && data[4..5] == [0];
    assert FromBytes([0, 1]) == 1 && FromBytes([0]) == 0;
  }

  /** It also accepts zero with a minus sign. */
  lemma SignedZeroAccepted()
    ensures var data := [TAG_INT, 1, 0, 0]; Decode(data, 0, false) == Ok((Int(0), 4)) && Decode(data, 0, true).Err?
  {
    var data: Bytes := [TAG_INT, 1, 0, 0];
    assert data[1..2] == [1] && data[2..4] == [0, 0] && data[4..4] == [];
    assert FromBytes([0, 0]) == 0 && FromBytes([]) == 0;
  }

  // ---------------------------------------------------------------- the strict reader is a restriction

  lemma {:induction false} StrictAgrees(data: Bytes, off: nat)
    requires Decode(data, off, true).Ok?
    ensures Decode(data, off, false) == Decode(data, off, true)
    decreases |data|, 1, 0
  {
    if data[off] == TAG_LIST {
      StrictAgreesItems(data, off + 5, ReadWord(data, off + 1, 4).value.0);
    } else if data[off] == TAG_DICT {
      StrictAgreesEntries(data, off + 5, ReadWord(data, off + 1, 4).value.0, None);
    }
  }

  lemma {:induction false} StrictAgreesItems(data: Bytes, off: nat, count: nat)
    requires off <= |data| && DecodeItems(data, off, count, true).Ok?
    ensures DecodeItems(data, off, count, false) == DecodeItems(data, off, count, true)
    decreases |data|, 0, count
  {
    if count > 0 {
      StrictAgreesFramed(data, off);
      StrictAgreesItems(data, DecodeFramed(data, off, true).value.1, count - 1);
    }
  }

  lemma {:induction false} StrictAgreesFramed(data: Bytes, off: nat)
    requires DecodeFramed(data, off, true).Ok?
    ensures DecodeFramed(data, off, false) == DecodeFramed(data, off, true)
    decreases |data|, 0, 0
  {
    var len := ReadWord(data, off, 4).value.0;
    StrictAgrees(data[off + 4..off + 4 + len], 0);
  }

  lemma {:induction false} StrictAgreesEntries(data: Bytes, off: nat, count: nat, previous: Option<Text>)
    requires off <= |data| && DecodeEntries(data, off, count, previous, true).Ok?
    ensures DecodeEntries(data, off, count, previous, false) == DecodeEntries(data, off, count, previous, true)
    decreases |data|, 0, count
  {
    if count > 0 {
      var (key, mid) := DecodeKey(data, off).value;
      StrictAgreesFramed(data, mid);
      StrictAgreesEntries(data, DecodeFramed(data, mid, true).value.1, count - 1, Some(key));
    }
  }
}
