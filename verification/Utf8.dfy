/** Strings as sequences of code points, and the strict UTF-8 codec of section 3 of RFC 3629
    that `str.encode("utf-8")` and `bytes.decode("utf-8")` apply. */
module Utf8 {
  import opened Basics

  /** A string is the sequence of its code points, so string order is `Lex.Less`. */
  type Text = seq<int>

  /** A Unicode scalar value: a code point that is not a surrogate. */
  predicate IsScalar(c: int) {
    0 <= c < 0x11_0000 && !(0xD800 <= c < 0xE000)
  }

  /** A string `encode` accepts: one without lone surrogates. */
  predicate Encodable(t: Text) {
    forall i :: 0 <= i < |t| ==> IsScalar(t[i])
  }

  function Trail(c: int): (b: Byte)
    ensures Continuation(b)
  {
    (0x80 + c % 64) as Byte
  }

  function EncodeOne(c: int): (s: Bytes)
    requires IsScalar(c)
    ensures 1 <= |s| <= 4
  {
    if c < 0x80 then [c as Byte]
    else if c < 0x800 then [(0xC0 + c / 64) as Byte, Trail(c)]
    else if c < 0x1_0000 then [(0xE0 + c / 64 / 64) as Byte, Trail(c / 64), Trail(c)]
    else [(0xF0 + c / 64 / 64 / 64) as Byte, Trail(c / 64 / 64), Trail(c / 64), Trail(c)]
  }

  predicate Continuation(b: Byte) {
    0x80 <= b < 0xC0
  }

  function Join(high: int, b: Byte): (c: int) {
    high * 64 + (b as int - 0x80)
  }

  lemma JoinSplits(high: int, b: Byte)
    requires Continuation(b)
    ensures Join(high, b) / 64 == high && Join(high, b) % 64 == b as int - 0x80
  {
  }

  /** The code point a lead byte and its continuation bytes spell, overlong or not. */
  function Scalar(s: Bytes): (c: int)
    requires 1 <= |s| <= 4
  {
    var lead := s[0] as int;
    if |s| == 1 then lead
    else if |s| == 2 then Join(lead - 0xC0, s[1])
    else if |s| == 3 then Join(Join(lead - 0xE0, s[1]), s[2])
    else Join(Join(Join(lead - 0xF0, s[1]), s[2]), s[3])
  }

  function LeadLength(b: Byte): (n: nat)
    ensures n <= 4
  {
    if b < 0x80 then 1
    else if b < 0xC0 then 0
    else if b < 0xE0 then 2
    else if b < 0xF0 then 3
    else if b < 0xF8 then 4
    else 0
  }

  function LeastOfLength(n: nat): (c: nat) {
    if n == 2 then 0x80 else if n == 3 then 0x800 else if n == 4 then 0x1_0000 else 0
  }

  /** One strictly decoded code point with its length: overlong forms, surrogates and values
      above 0x10FFFF are refused. */
  function DecodeOne(s: Bytes): (r: Option<(int, nat)>)
    requires |s| > 0
    ensures r.Some? ==> 1 <= r.value.1 <= |s| && IsScalar(r.value.0)
  {
    var n := LeadLength(s[0]);
    if n == 0 || n > |s| then None
    else if exists i :: 1 <= i < n && !Continuation(s[i]) then None
    else
      var c := Scalar(s[..n]);
      if c < LeastOfLength(n) || !IsScalar(c) then None else Some((c, n))
  }

  function Encode(t: Text): (s: Bytes)
    requires Encodable(t)
  {
    if t == [] then [] else EncodeOne(t[0]) + Encode(t[1..])
  }

  function Decode(s: Bytes): (r: Option<Text>)
    decreases |s|
  {
    if s == [] then Some([]) else
      var one := DecodeOne(s);
      if one.None? then None else
        var rest := Decode(s[one.value.1..]);
        if rest.None? then None else Some([one.value.0] + rest.value)
  }

  lemma {:induction false} DecodeEncodedOne(c: int, tail: Bytes)
    requires IsScalar(c)
    ensures DecodeOne(EncodeOne(c) + tail) == Some((c, |EncodeOne(c)|))
  {
    var e := EncodeOne(c);
    var s := e + tail;
    assert s[0] == e[0] && LeadLength(s[0]) == |e| && s[..|e|] == e;
    assert forall i :: 1 <= i < |e| ==> s[i] == e[i] && Continuation(e[i]);
    assert Scalar(e) == c;
  }

  lemma {:induction false} EncodeDecodedOne(s: Bytes)
    requires |s| > 0 && DecodeOne(s).Some?
    ensures EncodeOne(DecodeOne(s).value.0) == s[..DecodeOne(s).value.1]
  {
    var n := DecodeOne(s).value.1;
    assert forall i :: 1 <= i < n ==> Continuation(s[i]);
    var lead := s[0] as int;
    if n == 2 {
      JoinSplits(lead - 0xC0, s[1]);
    } else if n == 3 {
      JoinSplits(lead - 0xE0, s[1]);
      JoinSplits(Join(lead - 0xE0, s[1]), s[2]);
    } else if n == 4 {
      JoinSplits(lead - 0xF0, s[1]);
      JoinSplits(Join(lead - 0xF0, s[1]), s[2]);
      JoinSplits(Join(Join(lead - 0xF0, s[1]), s[2]), s[3]);
    }
  }

  /** Every encodable string survives a round trip. */
  lemma {:induction false} DecodeEncoded(t: Text)
    requires Encodable(t)
    ensures Decode(Encode(t)) == Some(t)
  {
    if t != [] {
      var e, rest := EncodeOne(t[0]), Encode(t[1..]);
      DecodeEncodedOne(t[0], rest);
      DecodeEncoded(t[1..]);
      assert (e + rest)[|e|..] == rest;
      assert t == [t[0]] + t[1..];
    }
  }

  /** Every accepted byte string is the encoding of the string it decodes to. */
  lemma {:induction false} EncodeDecoded(s: Bytes)
    requires Decode(s).Some?
    ensures Encodable(Decode(s).value) && Encode(Decode(s).value) == s
    decreases |s|
  {
    if s != [] {
      var one := DecodeOne(s).value;
      var rest := s[one.1..];
      EncodeDecodedOne(s);
      EncodeDecoded(rest);
      var t := Decode(s).value;
      assert t == [one.0] + Decode(rest).value && t[1..] == Decode(rest).value;
      forall i | 0 <= i < |t| ensures IsScalar(t[i]) {
        if i > 0 {
          assert t[i] == t[1..][i - 1];
        }
      }
      assert s == s[..one.1] + rest;
    }
  }
}
