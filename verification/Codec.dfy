/** The typed tag-length-value encoding of agent memory
    (`zdx_pixel_memory/spatial_store.py`, `_encode_value` and `_decode_value`). */
module Codec {
  import opened Basics
  import Lex
  import Utf8

  type Text = Utf8.Text

  /** A string literal as text. */
  function Word(s: string): (t: Text) {
    seq(|s|, i requires 0 <= i < |s| => s[i] as int)
  }

  /** The eight bytes of an IEEE 754 double in big-endian order. */
  type Double = b: Bytes | |b| == 8 witness [0, 0, 0, 0, 0, 0, 0, 0]

  /** `List` stands for lists and tuples, `Blob` for every bytes-like object, and `Other` for
      any object the encoder rejects by type. */
  datatype Value =
    | Null
    | Bool(flag: bool)
    | Int(number: int)
    | Float(bits: Double)
    | Str(text: Text)
    | Blob(raw: Bytes)
    | List(items: seq<Value>)
    | Dict(entries: map<Text, Value>)
    | Other

  datatype CodecError = TooLong | NonFinite | BadText | Unsupported | Malformed

  const TAG_NULL: Byte := 0
  const TAG_FALSE: Byte := 1
  const TAG_TRUE: Byte := 2
  const TAG_INT: Byte := 3
  const TAG_FLOAT: Byte := 4
  const TAG_STR: Byte := 5
  const TAG_BLOB: Byte := 6
  const TAG_LIST: Byte := 7
  const TAG_DICT: Byte := 8

  /** A double is finite unless its eleven exponent bits are all ones. */
  predicate Finite(d: Double) {
    d[0] as int % 128 * 16 + d[1] as int / 16 != 2047
  }

  function Magnitude(i: int): (n: nat) {
    if i < 0 then -i else i
  }

  // ---------------------------------------------------------------- encoding

  function Framed16(raw: Bytes): (r: Result<Bytes, CodecError>) {
    if |raw| < U16 then Ok(ToBytes(|raw|, 2) + raw) else Err(TooLong)
  }

  function Framed32(raw: Bytes): (r: Result<Bytes, CodecError>) {
    if |raw| < U32 then Ok(ToBytes(|raw|, 4) + raw) else Err(TooLong)
  }

  function EncodeText(t: Text): (r: Result<Bytes, CodecError>) {
    if Utf8.Encodable(t) then Ok(Utf8.Encode(t)) else Err(BadText)
  }

  function Encode(v: Value): (r: Result<Bytes, CodecError>)
    ensures r.Ok? ==> |r.value| > 0
    decreases v, 1, 0
  {
    match v
    case Null => Ok([TAG_NULL])
    case Bool(flag) => Ok([if flag then TAG_TRUE else TAG_FALSE])
    case Int(i) =>
      var raw :- Framed16(Shortest(Magnitude(i)));
      Ok([TAG_INT, if i < 0 then 1 else 0] + raw)
    case Float(bits) => if Finite(bits) then Ok([TAG_FLOAT] + bits) else Err(NonFinite)
    case Str(t) =>
      var raw :- EncodeText(t);
      var framed :- Framed32(raw);
      Ok([TAG_STR] + framed)
    case Blob(raw) =>
      var framed :- Framed32(raw);
      Ok([TAG_BLOB] + framed)
    case List(items) =>
      var body :- EncodeItems(items);
      if |items| < U32 then Ok([TAG_LIST] + ToBytes(|items|, 4) + body) else Err(TooLong)
    case Dict(entries) =>
      var body :- EncodeEntries(v, Lex.Sorted(entries.Keys));
      if |entries| < U32 then Ok([TAG_DICT] + ToBytes(|entries|, 4) + body) else Err(TooLong)
    case Other => Err(Unsupported)
  }

  function EncodeItems(items: seq<Value>): (r: Result<Bytes, CodecError>)
    decreases items, 0, 0
  {
    if items == [] then Ok([]) else
      var item :- Encode(items[0]);
      var head :- Framed32(item);
      var tail :- EncodeItems(items[1..]);
      Ok(head + tail)
  }

  function EncodeEntry(v: Value, key: Text): (r: Result<Bytes, CodecError>)
    requires v.Dict? && key in v.entries
    decreases v, 0, 0
  {
    var raw :- EncodeText(key);
    var name :- Framed16(raw);
    var item :- Encode(v.entries[key]);
    var value :- Framed32(item);
    Ok(name + value)
  }

  function EncodeEntries(v: Value, keys: seq<Text>): (r: Result<Bytes, CodecError>)
    requires v.Dict? && forall k :: k in keys ==> k in v.entries
    decreases v, 0, |keys|
  {
    if keys == [] then Ok([]) else
      var head :- EncodeEntry(v, keys[0]);
      var tail :- EncodeEntries(v, keys[1..]);
      Ok(head + tail)
  }

  // ---------------------------------------------------------------- decoding

  function ReadWord(data: Bytes, off: nat, w: nat): (r: Result<(nat, nat), CodecError>)
    ensures r.Ok? ==> r.value.1 == off + w <= |data|
  {
    if off + w > |data| then Err(Malformed) else Ok((FromBytes(data[off..off + w]), off + w))
  }

  function Take(data: Bytes, off: nat, n: nat): (r: Result<(Bytes, nat), CodecError>)
    ensures r.Ok? ==> r.value.1 == off + n <= |data| && r.value.0 == data[off..off + n]
  {
    if off + n > |data| then Err(Malformed) else Ok((data[off..off + n], off + n))
  }

  function DecodeText(raw: Bytes): (r: Result<Text, CodecError>) {
    var t := Utf8.Decode(raw);
    if t.Some? then Ok(t.value) else Err(BadText)
  }

  /** An integer spelled as the encoder would spell it: no leading zero byte and no signed zero. */
  predicate Minimal(sign: Byte, raw: Bytes) {
    NoLeadingZero(raw) && (sign == 1 ==> FromBytes(raw) != 0)
  }

  /** Decode the value at `off`, returning it with the offset just past it.  The source decoder
      is the one with `strict == false`; `strict` additionally refuses non-minimal integers. */
  function Decode(data: Bytes, off: nat, strict: bool): (r: Result<(Value, nat), CodecError>)
    ensures r.Ok? ==> off < r.value.1 <= |data|
    decreases |data|, 1, 0
  {
    if off >= |data| then Err(Malformed) else
      var tag := data[off];
      if tag == TAG_NULL then Ok((Null, off + 1))
      else if tag == TAG_FALSE then Ok((Bool(false), off + 1))
      else if tag == TAG_TRUE then Ok((Bool(true), off + 1))
      else if tag == TAG_INT then DecodeInt(data, off + 1, strict)
      else if tag == TAG_FLOAT then
        var raw :- Take(data, off + 1, 8);
        if Finite(raw.0) then Ok((Float(raw.0), raw.1)) else Err(NonFinite)
      else if tag == TAG_STR then
        var len :- ReadWord(data, off + 1, 4);
        var raw :- Take(data, len.1, len.0);
        var text :- DecodeText(raw.0);
        Ok((Str(text), raw.1))
      else if tag == TAG_BLOB then
        var len :- ReadWord(data, off + 1, 4);
        var raw :- Take(data, len.1, len.0);
        Ok((Blob(raw.0), raw.1))
      else if tag == TAG_LIST then
        var count :- ReadWord(data, off + 1, 4);
        var items :- DecodeItems(data, count.1, count.0, strict);
        Ok((List(items.0), items.1))
      else if tag == TAG_DICT then
        var count :- ReadWord(data, off + 1, 4);
        var entries :- DecodeEntries(data, count.1, count.0, None, strict);
        Ok((Dict(entries.0), entries.1))
      else Err(Malformed)
  }

  function DecodeInt(data: Bytes, off: nat, strict: bool): (r: Result<(Value, nat), CodecError>)
    ensures r.Ok? ==> off < r.value.1 <= |data|
  {
    var sign :- Take(data, off, 1);
    if sign.0[0] > 1 then Err(Malformed) else
      var len :- ReadWord(data, sign.1, 2);
      var raw :- Take(data, len.1, len.0);
      if strict && !Minimal(sign.0[0], raw.0) then Err(Malformed) else
        var n: int := FromBytes(raw.0);
        Ok((Int(if sign.0[0] == 1 then -n else n), raw.1))
  }

  /** A length-prefixed value that must fill its frame exactly. */
  function DecodeFramed(data: Bytes, off: nat, strict: bool): (r: Result<(Value, nat), CodecError>)
    ensures r.Ok? ==> off < r.value.1 <= |data|
    decreases |data|, 0, 0
  {
    var len :- ReadWord(data, off, 4);
    var raw :- Take(data, len.1, len.0);
    var item :- Decode(raw.0, 0, strict);
    if item.1 != |raw.0| then Err(Malformed) else Ok((item.0, raw.1))
  }

  function DecodeItems(data: Bytes, off: nat, count: nat, strict: bool): (r: Result<(seq<Value>, nat), CodecError>)
    requires off <= |data|
    ensures r.Ok? ==> off <= r.value.1 <= |data| && |r.value.0| == count
    decreases |data|, 0, count
  {
    if count == 0 then Ok(([], off)) else
      var head :- DecodeFramed(data, off, strict);
      var tail :- DecodeItems(data, head.1, count - 1, strict);
      Ok(([head.0] + tail.0, tail.1))
  }

  function DecodeKey(data: Bytes, off: nat): (r: Result<(Text, nat), CodecError>)
    ensures r.Ok? ==> off < r.value.1 <= |data|
  {
    var len :- ReadWord(data, off, 2);
    var raw :- Take(data, len.1, len.0);
    var key :- DecodeText(raw.0);
    Ok((key, raw.1))
  }

  ghost predicate After(previous: Option<Text>, m: map<Text, Value>) {
    previous.Some? ==> forall k :: k in m ==> Lex.Less(previous.value, k)
  }

  /** Entries must come in strictly increasing key order, starting after `previous`. */
  function DecodeEntries(data: Bytes, off: nat, count: nat, previous: Option<Text>, strict: bool)
    : (r: Result<(map<Text, Value>, nat), CodecError>)
    requires off <= |data|
    ensures r.Ok? ==> off <= r.value.1 <= |data| && |r.value.0| == count && After(previous, r.value.0)
    decreases |data|, 0, count
  {
    if count == 0 then Ok((map[], off)) else
      var key :- DecodeKey(data, off);
      if previous.Some? && !Lex.Less(previous.value, key.0) then Err(Malformed) else
        var value :- DecodeFramed(data, key.1, strict);
        var rest :- DecodeEntries(data, value.1, count - 1, Some(key.0), strict);
        assert key.0 !in rest.0 by { Lex.Irreflexive(key.0); }
        assert previous.Some? ==> forall k :: k in rest.0 ==> Lex.Less(previous.value, k) by {
          forall k | previous.Some? && k in rest.0 ensures Lex.Less(previous.value, k) {
            Lex.Transitive(previous.value, key.0, k);
          }
        }
        Ok((rest.0[key.0 := value.0], rest.1))
  }
}
