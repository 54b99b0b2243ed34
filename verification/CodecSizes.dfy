/** How the encoded size of a dictionary depends on its entries. */
module CodecSizes {
  import opened Basics
  import opened Codec
  import Lex
  import Utf8

  /** The encoded size of a value that encodes. */
  function Size(v: Value): (n: nat)
    requires Encode(v).Ok?
  {
    |Encode(v).value|
  }

  lemma {:induction false} EntriesAgree(m: map<Text, Value>, n: map<Text, Value>, keys: seq<Text>)
    requires forall k :: k in keys ==> k in m && k in n && m[k] == n[k]
    ensures EncodeEntries(Dict(m), keys) == EncodeEntries(Dict(n), keys)
  {
    hide Encode;
    if keys != [] {
      EntriesAgree(m, n, keys[1..]);
    }
  }

  lemma EntriesCons(m: map<Text, Value>, k: Text, rest: seq<Text>)
    requires k in m && forall j :: j in rest ==> j in m
    ensures EncodeEntries(Dict(m), [k] + rest).Ok? <==> EncodeEntry(Dict(m), k).Ok? && EncodeEntries(Dict(m), rest).Ok?
    ensures EncodeEntries(Dict(m), [k] + rest).Ok? ==>
      EncodeEntries(Dict(m), [k] + rest).value == EncodeEntry(Dict(m), k).value + EncodeEntries(Dict(m), rest).value
  {
    hide EncodeEntry;
    assert ([k] + rest)[1..] == rest;
  }

  lemma LeastKept(s: set<Text>, k: Text)
    requires k in s && k != Lex.Least(s)
    ensures Lex.Least(s) in s - {k} && Lex.Least(s - {k}) == Lex.Least(s)
  {
    hide Lex.Less;
    Lex.LeastUnique(Lex.Least(s - {k}), Lex.Least(s), s - {k});
  }

  /** The entries of a dictionary encode independently of each other, each at its own cost. */
  lemma {:induction false} EntrySplits(m: map<Text, Value>, s: set<Text>, k: Text)
    requires s <= m.Keys && k in s
    ensures EncodeEntries(Dict(m), Lex.Sorted(s)).Ok? <==>
      EncodeEntry(Dict(m), k).Ok? && EncodeEntries(Dict(m), Lex.Sorted(s - {k})).Ok?
    ensures EncodeEntries(Dict(m), Lex.Sorted(s)).Ok? ==>
      |EncodeEntries(Dict(m), Lex.Sorted(s)).value| ==
        |EncodeEntry(Dict(m), k).value| + |EncodeEntries(Dict(m), Lex.Sorted(s - {k})).value|
    decreases |s|
  {
    hide EncodeEntry, EncodeEntries, Lex.Sorted, Lex.Less;
    var l := Lex.Least(s);
    Lex.SortedStep(s);
    EntriesCons(m, l, Lex.Sorted(s - {l}));
    if k != l {
      LeastKept(s, k);
      Lex.SortedStep(s - {k});
      EntriesCons(m, l, Lex.Sorted(s - {k} - {l}));
      EntrySplits(m, s - {l}, k);
      assert s - {k} - {l} == s - {l} - {k};
    }
  }

  /** An entry costs its key, its value and six bytes of lengths. */
  lemma EntryCost(m: map<Text, Value>, k: Text)
    requires k in m && EncodeEntry(Dict(m), k).Ok?
    ensures Encode(m[k]).Ok? && EncodeText(k).Ok?
    ensures |EncodeEntry(Dict(m), k).value| == 6 + |EncodeText(k).value| + Size(m[k])
  {
    hide Encode, EncodeText;
  }

  lemma DictBody(m: map<Text, Value>)
    ensures Encode(Dict(m)).Ok? <==> EncodeEntries(Dict(m), Lex.Sorted(m.Keys)).Ok? && |m| < U32
    ensures Encode(Dict(m)).Ok? ==> Size(Dict(m)) == 5 + |EncodeEntries(Dict(m), Lex.Sorted(m.Keys)).value|
  {
    hide EncodeEntries, Lex.Sorted;
  }

  /** Removing an entry keeps a dictionary encodable and makes it smaller. */
  lemma RemoveShrinks(m: map<Text, Value>, k: Text)
    requires Encode(Dict(m)).Ok? && k in m
    ensures Encode(Dict(m - {k})).Ok? && Size(Dict(m - {k})) < Size(Dict(m))
  {
    hide Encode, EncodeEntry, EncodeEntries, Lex.Sorted;
    var n := m - {k};
    DictBody(m);
    DictBody(n);
    EntrySplits(m, m.Keys, k);
    EntryCost(m, k);
    EntriesAgree(m, n, Lex.Sorted(m.Keys - {k}));
    assert n.Keys == m.Keys - {k};
    RemovedSmaller(m, k);
  }

  lemma EntryReplaced(m: map<Text, Value>, k: Text, v: Value)
    requires k in m && EncodeEntry(Dict(m), k).Ok? && Encode(v).Ok? && Encode(m[k]).Ok? && Size(v) <= Size(m[k])
    ensures EncodeEntry(Dict(m[k := v]), k).Ok?
    ensures |EncodeEntry(Dict(m[k := v]), k).value| <= |EncodeEntry(Dict(m), k).value|
  {
    hide Encode, EncodeText;
  }

  /** Replacing a value by one that encodes no longer keeps a dictionary encodable and no larger. */
  lemma ReplaceShrinks(m: map<Text, Value>, k: Text, v: Value)
    requires Encode(Dict(m)).Ok? && k in m && Encode(v).Ok?
    requires Encode(m[k]).Ok? ==> Size(v) <= Size(m[k])
    ensures Encode(Dict(m[k := v])).Ok? && Size(Dict(m[k := v])) <= Size(Dict(m))
  {
    hide Encode, EncodeEntry, EncodeEntries, Lex.Sorted;
    var n := m[k := v];
    assert n.Keys == m.Keys;
    DictBody(m);
    DictBody(n);
    EntrySplits(m, m.Keys, k);
    EntryCost(m, k);
    EntryReplaced(m, k, v);
    EntrySplits(n, m.Keys, k);
    EntriesAgree(m, n, Lex.Sorted(m.Keys - {k}));
  }

  // ---------------------------------------------------------------- bounds

  /** The value encodes, to at most this many bytes. */
  ghost predicate Small(v: Value, bound: int) {
    Encode(v).Ok? && |Encode(v).value| <= bound
  }

  lemma NullIsSmall()
    ensures Small(Null, 1)
  {
  }

  predicate Ascii(t: Text) {
    forall i :: 0 <= i < |t| ==> 0 <= t[i] < 128
  }

  lemma {:induction false} AsciiEncodes(t: Text)
    requires Ascii(t)
    ensures Utf8.Encodable(t) && |Utf8.Encode(t)| == |t|
  {
    if t != [] {
      AsciiEncodes(t[1..]);
    }
  }

  /** Plain keys of bounded length over bounded values. */
  ghost predicate SmallEntries(m: map<Text, Value>, length: nat, bound: nat) {
    length < U16 && bound < U32 && forall k :: k in m ==> Ascii(k) && |k| <= length && Small(m[k], bound)
  }

  lemma SmallEntry(m: map<Text, Value>, k: Text, length: nat, bound: nat)
    requires SmallEntries(m, length, bound) && k in m
    ensures EncodeEntry(Dict(m), k).Ok? && |EncodeEntry(Dict(m), k).value| <= 6 + length + bound
  {
    hide Encode, Utf8.Encode, Utf8.Encodable, ToBytes;
    AsciiEncodes(k);
  }

  lemma NoEntries(m: map<Text, Value>)
    ensures EncodeEntries(Dict(m), []) == Ok([])
  {
  }

  lemma {:induction false} SmallBody(m: map<Text, Value>, keys: seq<Text>, length: nat, bound: nat)
    requires SmallEntries(m, length, bound) && forall k :: k in keys ==> k in m
    ensures EncodeEntries(Dict(m), keys).Ok? && |EncodeEntries(Dict(m), keys).value| <= |keys| * (6 + length + bound)
  {
    hide EncodeEntries, EncodeEntry, SmallEntries;
    if keys == [] {
      NoEntries(m);
    } else {
      var rest := keys[1..];
      SmallEntry(m, keys[0], length, bound);
      SmallBody(m, rest, length, bound);
      assert keys == [keys[0]] + rest;
      EntriesCons(m, keys[0], rest);
      assert |keys| * (6 + length + bound) == (6 + length + bound) + |rest| * (6 + length + bound) by {
        assert |keys| == 1 + |rest|;
      }
    }
  }

  /** A dictionary of such entries encodes, in five bytes and at most so many for each entry. */
  lemma SmallDict(m: map<Text, Value>, length: nat, bound: nat)
    requires SmallEntries(m, length, bound) && |m| < U32
    ensures Small(Dict(m), 5 + |m| * (6 + length + bound))
  {
    hide Encode, EncodeEntries, SmallEntries, Lex.Sorted;
    DictBody(m);
    SmallBody(m, Lex.Sorted(m.Keys), length, bound);
  }
}
