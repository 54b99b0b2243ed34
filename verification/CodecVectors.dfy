/** The bytes themselves: samples of every kind of value, which fix tags, field widths and byte order. */
module CodecVectors {
  import opened Basics
  import opened Codec
  import Lex
  import Utf8

  /** Words are big-endian. */
  lemma WordBytes(n: nat)
    requires n < 256
    ensures ToBytes(n, 1) == [n as Byte] && ToBytes(n, 2) == [0, n as Byte] && ToBytes(n, 4) == [0, 0, 0, n as Byte]
    ensures ToBytes(258, 2) == [1, 2] && Shortest(258) == [1, 2]
  {
    assert ToBytes(0, 1) == [0] && ToBytes(1, 1) == [1];
    assert ToBytes(0, 2) == ToBytes(0, 1) + [0] && ToBytes(0, 3) == ToBytes(0, 2) + [0];
    assert ToBytes(n, 1) == ToBytes(0, 0) + [n as Byte];
    assert ToBytes(n, 2) == ToBytes(0, 1) + [n as Byte];
    assert ToBytes(n, 4) == ToBytes(0, 3) + [n as Byte];
    assert ToBytes(258, 2) == ToBytes(1, 1) + [2];
    assert Shortest(1) == Shortest(0) + [1] && Shortest(258) == Shortest(1) + [2];
  }

  lemma ScalarBytes(d: Double)
    requires Finite(d)
    ensures Encode(Null) == Ok([0]) && Encode(Bool(false)) == Ok([1]) && Encode(Bool(true)) == Ok([2])
    ensures Encode(Int(-258)) == Ok([3, 1, 0, 2, 1, 2]) && Encode(Int(258)) == Ok([3, 0, 0, 2, 1, 2])
    ensures Encode(Float(d)) == Ok([4] + d)
    ensures Encode(Blob([7, 9])) == Ok([6, 0, 0, 0, 2, 7, 9])
  {
    WordBytes(2);
    hide ToBytes, Shortest;
    assert Framed16(Shortest(258)) == Ok([0, 2] + [1, 2]);
    assert [TAG_INT, 1] + ([0, 2] + [1, 2]) == [3, 1, 0, 2, 1, 2];
    assert [TAG_INT, 0] + ([0, 2] + [1, 2]) == [3, 0, 0, 2, 1, 2];
    assert Framed32([7, 9]) == Ok([0, 0, 0, 2] + [7, 9]);
    assert [TAG_BLOB] + ([0, 0, 0, 2] + [7, 9]) == [6, 0, 0, 0, 2, 7, 9];
  }

  lemma OneMore(c: int, rest: Text, head: Bytes, tail: Bytes)
    requires Utf8.IsScalar(c) && Utf8.Encodable(rest) && Utf8.EncodeOne(c) == head && Utf8.Encode(rest) == tail
    ensures Utf8.Encodable([c] + rest) && Utf8.Encode([c] + rest) == head + tail
  {
    assert ([c] + rest)[1..] == rest;
  }

  /** One character of each length: A, e with an acute accent, the euro sign, and a code point above the
      first plane. */
  lemma TextBytes()
    ensures Utf8.Encodable([65, 233, 8364, 128512])
    ensures Utf8.Encode([65, 233, 8364, 128512]) == [65, 195, 169, 226, 130, 172, 240, 159, 152, 128]
  {
    CharacterBytes();
    hide Utf8.Encode, Utf8.EncodeOne;
    OneMore(128512, [], [240, 159, 152, 128], []);
    var a: Text, b: Text, c: Text := [128512], [8364, 128512], [233, 8364, 128512];
    assert [128512] + [] == a && [8364] + a == b && [233] + b == c && [65] + c == [65, 233, 8364, 128512];
    var p: Bytes, q: Bytes, r: Bytes := [240, 159, 152, 128], [226, 130, 172], [195, 169];
    assert p + [] == p;
    OneMore(8364, a, q, p);
    OneMore(233, b, r, q + p);
    OneMore(65, c, [65], r + (q + p));
    assert [65] + (r + (q + p)) == [65, 195, 169, 226, 130, 172, 240, 159, 152, 128];
  }

  lemma CharacterBytes()
    ensures Utf8.EncodeOne(128512) == [240, 159, 152, 128] && Utf8.EncodeOne(8364) == [226, 130, 172]
    ensures Utf8.EncodeOne(233) == [195, 169] && Utf8.EncodeOne(65) == [65] && Utf8.Encode([]) == []
  {
  }

  lemma StringBytes()
    ensures Encode(Str([65])) == Ok([5, 0, 0, 0, 1, 65])
  {
    CharacterBytes();
    WordBytes(1);
    hide Utf8.Encode, Utf8.EncodeOne, ToBytes;
    OneMore(65, [], [65], []);
    var t: Text, raw: Bytes := [65], [65];
    assert [65] + [] == t && raw + [] == raw;
    assert EncodeText(t) == Ok(raw) && Framed32(raw) == Ok([0, 0, 0, 1] + raw);
    assert [TAG_STR] + ([0, 0, 0, 1] + raw) == [5, 0, 0, 0, 1, 65];
  }

  lemma OneMoreItem(v: Value, rest: seq<Value>, e: Bytes, tail: Bytes)
    requires Encode(v) == Ok(e) && |e| < 256 && EncodeItems(rest) == Ok(tail)
    ensures EncodeItems([v] + rest) == Ok([0, 0, 0, |e| as Byte] + e + tail)
  {
    WordBytes(|e|);
    hide ToBytes, Encode;
    assert ([v] + rest)[1..] == rest;
    assert Framed32(e) == Ok([0, 0, 0, |e| as Byte] + e);
  }

  lemma ListOf(v: Value, body: Bytes)
    requires v.List? && |v.items| == 2 && EncodeItems(v.items) == Ok(body)
    ensures Encode(v) == Ok([TAG_LIST] + [0, 0, 0, 2] + body)
  {
    WordBytes(2);
    hide ToBytes, EncodeItems;
  }

  /** Each item of a list is preceded by its length. */
  lemma ListBytes()
    ensures Encode(List([Bool(true), Null])) == Ok([7, 0, 0, 0, 2, 0, 0, 0, 1, 2, 0, 0, 0, 1, 0])
  {
    ListLiteral();
    var items, one: Bytes := [Bool(true), Null], [0, 0, 0, 1, 0];
    assert EncodeItems([]) == Ok([]) && Encode(Null) == Ok([0]) && Encode(Bool(true)) == Ok([2]);
    hide ToBytes, Encode, EncodeItems;
    assert [Null] + [] == [Null] && [Bool(true)] + [Null] == items;
    OneMoreItem(Null, [], [0], []);
    OneMoreItem(Bool(true), [Null], [2], one);
    ListOf(List(items), [0, 0, 0, 1] + [2] + one);
  }

  lemma ListLiteral()
    ensures var one: Bytes := [0, 0, 0, 1, 0];
      && [0, 0, 0, 1] + [0] + [] == one
      && [TAG_LIST] + [0, 0, 0, 2] + ([0, 0, 0, 1] + [2] + one) == [7, 0, 0, 0, 2, 0, 0, 0, 1, 2, 0, 0, 0, 1, 0]
  {
  }

  lemma EntryBytes(m: map<Text, Value>, k: int)
    requires [k] in m && m[[k]] == Null && 0 <= k < 128
    ensures EncodeEntry(Dict(m), [k]) == Ok([0, 1, k as Byte, 0, 0, 0, 1, 0])
  {
    WordBytes(1);
    assert [k][1..] == [] && Utf8.Encode([k]) == [k as Byte];
    hide ToBytes;
    assert Framed16([k as Byte]) == Ok([0, 1] + [k as Byte]) && Framed32([TAG_NULL]) == Ok([0, 0, 0, 1] + [0]);
    assert ([0, 1] + [k as Byte]) + ([0, 0, 0, 1] + [0]) == [0, 1, k as Byte, 0, 0, 0, 1, 0];
  }

  lemma OneMoreEntry(m: map<Text, Value>, key: Text, rest: seq<Text>, e: Bytes, tail: Bytes)
    requires key in m && forall k :: k in rest ==> k in m
    requires EncodeEntry(Dict(m), key) == Ok(e) && EncodeEntries(Dict(m), rest) == Ok(tail)
    ensures EncodeEntries(Dict(m), [key] + rest) == Ok(e + tail)
  {
    hide EncodeEntry;
    assert ([key] + rest)[1..] == rest;
  }

  /** The entries of a dictionary come in the order of their keys, each key and each value preceded by
      its length. */
  lemma DictBytes()
    ensures Encode(Dict(map[[98] := Null, [97] := Null]))
      == Ok([8, 0, 0, 0, 2, 0, 1, 97, 0, 0, 0, 1, 0, 0, 1, 98, 0, 0, 0, 1, 0])
  {
    var m: map<Text, Value> := map[[98] := Null, [97] := Null];
    DictLiteral();
    hide *;
    TwoKeys(m);
    EntriesBytes(m);
    DictOf(m, [[97], [98]], [0, 1, 97, 0, 0, 0, 1, 0, 0, 1, 98, 0, 0, 0, 1, 0]);
  }

  lemma DictLiteral()
    ensures [TAG_DICT] + [0, 0, 0, 2] + [0, 1, 97, 0, 0, 0, 1, 0, 0, 1, 98, 0, 0, 0, 1, 0]
      == [8, 0, 0, 0, 2, 0, 1, 97, 0, 0, 0, 1, 0, 0, 1, 98, 0, 0, 0, 1, 0]
  {
  }

  lemma TwoKeys(m: map<Text, Value>)
    requires m.Keys == {[97], [98]}
    ensures Lex.Sorted(m.Keys) == [[97], [98]] && |m| == 2
  {
    var keys: seq<Text> := [[97], [98]];
    Lex.SortedIsOnlyAscending(keys) by {
      assert Lex.Less([97], [98]);
    }
    hide Lex.Sorted, Lex.Less;
    assert Lex.Elements(keys) == m.Keys && |{[97], [98]}| == 2;
  }

  lemma DictOf(m: map<Text, Value>, keys: seq<Text>, body: Bytes)
    requires keys == Lex.Sorted(m.Keys) && EncodeEntries(Dict(m), keys) == Ok(body) && |m| == 2
    ensures Encode(Dict(m)) == Ok([TAG_DICT] + [0, 0, 0, 2] + body)
  {
    WordBytes(2);
    hide ToBytes, EncodeEntries, Lex.Sorted;
  }

  lemma EntriesBytes(m: map<Text, Value>)
    requires [97] in m && [98] in m && m[[97]] == Null && m[[98]] == Null
    ensures EncodeEntries(Dict(m), [[97], [98]]) == Ok([0, 1, 97, 0, 0, 0, 1, 0, 0, 1, 98, 0, 0, 0, 1, 0])
  {
    EntryBytes(m, 97);
    EntryBytes(m, 98);
    assert EncodeEntries(Dict(m), []) == Ok([]);
    hide EncodeEntry, EncodeEntries;
    var a: Bytes, b: Bytes := [0, 1, 97, 0, 0, 0, 1, 0], [0, 1, 98, 0, 0, 0, 1, 0];
    OneMoreEntry(m, [98], [], b, []);
    assert [[98]] + [] == [[98]] && [[97]] + [[98]] == [[97], [98]] && b + [] == b;
    OneMoreEntry(m, [97], [[98]], a, b);
    assert a + b == [0, 1, 97, 0, 0, 0, 1, 0, 0, 1, 98, 0, 0, 0, 1, 0];
  }
}
