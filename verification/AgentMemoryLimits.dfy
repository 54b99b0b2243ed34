/** A root on which the numbers of generated keys run out. */
module AgentMemoryLimits {
  import opened Basics
  import opened Codec
  import opened AgentMemory
  import opened AgentMemoryLaws
  import opened AgentMemoryRuns
  import opened AgentMemoryRoots
  import CodecSizes
  import Utf8

  // ---------------------------------------------------------------- a root that runs out of digits

  lemma {:induction false} PowersAgree(n: nat)
    ensures Pow16(2 * n) == Pow256(n)
  {
    if n > 0 {
      PowersAgree(n - 1);
      assert Pow16(2 * n) == 16 * Pow16(2 * n - 1) == 16 * (16 * Pow16(2 * n - 2));
    }
  }

  lemma {:induction false} ShortestFits(n: nat, k: nat)
    requires n < Pow256(k)
    ensures |Shortest(n)| <= k
  {
    if n > 0 && k > 0 {
      ShortestFits(n / 256, k - 1);
    }
  }

  /** The numbers around the last one that fits are spelled in 77 bytes. */
  lemma NumberSmall(i: nat)
    requires i <= Pow16(KEY_DIGITS) + 1
    ensures CodecSizes.Small(Int(i), 81)
  {
    hide Pow16, Shortest, ToBytes;
    PowersAgree(76);
    NextPower();
    hide Pow256;
    ShortestFits(i, 77);
    IntSmall(i, 77);
  }

  lemma NextPower()
    ensures Pow256(77) == 256 * Pow256(76)
  {
  }

  lemma IntSmall(i: nat, k: nat)
    requires |Shortest(i)| <= k <= 77
    ensures CodecSizes.Small(Int(i), 81)
  {
    hide Shortest, ToBytes;
  }

  lemma SmallNumberSmall(i: nat)
    requires i <= 10_000
    ensures CodecSizes.Small(Int(i), 81)
  {
    assert Pow256(2) == 256 * (256 * Pow256(0));
    hide Pow256, Shortest, ToBytes;
    ShortestFits(i, 2);
    IntSmall(i, 2);
  }

  /** A literal key is plain. */
  lemma Plain(s: string)
    requires forall i :: 0 <= i < |s| ==> s[i] as int < 128
    ensures CodecSizes.Ascii(Word(s)) && |Word(s)| == |s|
  {
  }

  lemma KeyIsAscii(n: nat)
    requires n < Pow16(KEY_DIGITS + 1)
    ensures CodecSizes.Ascii(AppendKey(n)) && |AppendKey(n)| <= 161
  {
    hide Hex, Pow16, KeyCharacter, Word;
    HexFits(n, 16, KEY_DIGITS + 1);
    PrefixLength();
    forall i | 0 <= i < |AppendKey(n)| ensures 0 <= AppendKey(n)[i] < 128 {
      if i < 8 {
        PrefixCharacters(i);
      } else {
        HexCharacters(n, 16, i - 8);
      }
      CharacterIsAscii(AppendKey(n)[i]);
    }
  }

  lemma CharacterIsAscii(c: int)
    requires KeyCharacter(c)
    ensures 0 <= c < 128
  {
    assert c in Word("_.:/-") ==> c == 95 || c == 46 || c == 58 || c == 47 || c == 45;
  }

  /** At most one small entry. */
  ghost predicate Tiny(es: Entries) {
    es == map[] || exists n: nat :: n <= Pow16(KEY_DIGITS) && es == map[AppendKey(n) := Entry(n, Null)]
  }

  lemma EntryIsSmall(n: nat)
    requires n <= Pow16(KEY_DIGITS)
    ensures CodecSizes.Small(EntryValue(Entry(n, Null)), 195)
  {
    hide Encode, Pow16, Word;
    var m := map[Word("sequence") := Int(n), Word("value") := Null];
    NumberSmall(n);
    CodecSizes.NullIsSmall();
    Plain("sequence");
    Plain("value");
    assert m.Keys == {Word("sequence"), Word("value")} && |m| == 2;
    CodecSizes.SmallDict(m, 8, 81);
  }

  lemma TinyIsSmall(es: Entries)
    requires Tiny(es)
    ensures |es| <= 1 && CodecSizes.Small(SpaceValue(es), 385)
  {
    hide Encode, Pow16, AppendKey, Word, EntryValues, Tiny;
    TinyEntries(es);
    Plain("entries");
    SingleSmall(Word("entries"), Dict(EntryValues(es)), 7, 367);
  }

  lemma TinyEntries(es: Entries)
    requires Tiny(es)
    ensures |es| <= 1 && CodecSizes.Small(Dict(EntryValues(es)), 367)
  {
    hide Encode, Pow16, AppendKey, Word, EntryValue;
    var m := EntryValues(es);
    if es == map[] {
      assert m == map[];
      CodecSizes.SmallDict(m, 161, 195);
    } else {
      var n: nat :| n <= Pow16(KEY_DIGITS) && es == map[AppendKey(n) := Entry(n, Null)];
      LastNumbers(n);
      EntryIsSmall(n);
      KeyIsAscii(n);
      assert m == map[AppendKey(n) := EntryValue(Entry(n, Null))];
      SingleSmall(AppendKey(n), EntryValue(Entry(n, Null)), 161, 195);
    }
  }

  lemma LastNumbers(n: nat)
    requires n <= Pow16(KEY_DIGITS)
    ensures n < Pow16(KEY_DIGITS + 1)
  {
    assert Pow16(KEY_DIGITS + 1) == 16 * Pow16(KEY_DIGITS);
  }

  lemma SingleSmall(k: Text, v: Value, length: nat, bound: nat)
    requires CodecSizes.Ascii(k) && |k| <= length < U16 && CodecSizes.Small(v, bound) && bound < U32
    ensures CodecSizes.Small(Dict(map[k := v]), 11 + length + bound)
  {
    hide Encode;
    assert |map[k := v]| == 1;
    CodecSizes.SmallDict(map[k := v], length, bound);
  }

  const SPACE: Text := Word("n")
  const ROOMY: Policy := Policy(10_000, 10, Reject)

  lemma PolicyIsSmall()
    ensures CodecSizes.Small(PolicyValue(ROOMY), 299)
  {
    hide Encode, Pow16, Word;
    var a, b, c := Word("max_bytes"), Word("max_entries"), Word("eviction");
    var m := map[a := Int(10_000), b := Int(10), c := Str(Word("reject"))];
    SmallNumberSmall(10_000);
    SmallNumberSmall(10);
    RejectIsSmall();
    Plain("max_bytes");
    Plain("max_entries");
    Plain("eviction");
    assert m.Keys == {a, b, c} && |m| == 3;
    CodecSizes.SmallDict(m, 11, 81);
  }

  lemma RejectIsSmall()
    ensures CodecSizes.Small(Str(Word("reject")), 81)
  {
    CodecSizes.AsciiEncodes(Word("reject"));
    hide Utf8.Encode, Utf8.Encodable;
  }

  lemma PoliciesAreSmall()
    ensures var ps: Policies := map[SPACE := ROOMY];
      CodecSizes.Small(Dict(map n | n in ps :: PolicyValue(ps[n])), 397)
  {
    hide Encode, PolicyValue, Word;
    var ps: Policies := map[SPACE := ROOMY];
    assert (map n | n in ps :: PolicyValue(ps[n])) == map[SPACE := PolicyValue(ROOMY)];
    PolicyIsSmall();
    Plain("n");
    SingleSmall(SPACE, PolicyValue(ROOMY), 1, 299);
  }

  lemma SpacesAreSmall(es: Entries)
    requires Tiny(es)
    ensures CodecSizes.Small(Dict(SpaceValues(map[SPACE := es])), 397)
  {
    hide Encode, SpaceValue, Word, Tiny;
    assert SpaceValues(map[SPACE := es]) == map[SPACE := SpaceValue(es)];
    TinyIsSmall(es);
    Plain("n");
    SingleSmall(SPACE, SpaceValue(es), 1, 385);
  }

  lemma RootIsSmall(root: map<Text, Value>, next: Value, policies: Value, spaces: Value)
    requires root == map[Word("version") := Int(1), Word("next_sequence") := next,
                         Word("policies") := policies, Word("namespaces") := spaces]
    requires CodecSizes.Small(Int(1), 397) && CodecSizes.Small(next, 397)
    requires CodecSizes.Small(policies, 397) && CodecSizes.Small(spaces, 397)
    ensures CodecSizes.Small(Dict(root), 1669)
  {
    hide Encode, Word, CodecSizes.Ascii, CodecSizes.Small;
    var a, b, c, d := Word("version"), Word("next_sequence"), Word("policies"), Word("namespaces");
    Plain("version");
    Plain("next_sequence");
    Plain("policies");
    Plain("namespaces");
    FourSmall(root, a, b, c, d);
  }

  /** A dictionary with four plain keys and small values. */
  lemma FourSmall(root: map<Text, Value>, a: Text, b: Text, c: Text, d: Text)
    requires root.Keys == {a, b, c, d} && |a| < |c| < |d| < |b| <= 13
    requires CodecSizes.Ascii(a) && CodecSizes.Ascii(b) && CodecSizes.Ascii(c) && CodecSizes.Ascii(d)
    requires CodecSizes.Small(root[a], 397) && CodecSizes.Small(root[b], 397)
    requires CodecSizes.Small(root[c], 397) && CodecSizes.Small(root[d], 397)
    ensures CodecSizes.Small(Dict(root), 1669)
  {
    hide CodecSizes.Ascii, CodecSizes.Small;
    assert {a, b, c, d} == {a} + {b} + {c} + {d};
    assert |root.Keys| == 4;
    CodecSizes.SmallDict(root, 13, 397);
  }

  /** A document with one roomy namespace and one tiny entry is small. */
  lemma DocumentIsSmall(next: nat, es: Entries)
    requires next <= Pow16(KEY_DIGITS) + 1 && Tiny(es)
    ensures DocumentWithin(map[SPACE := ROOMY], 10_000, Session(next, map[SPACE := es], map[]))
  {
    hide Encode, Pow16, PolicyValue, SpaceValues, Word, Tiny;
    var ps: Policies, spaces := map[SPACE := ROOMY], map[SPACE := es];
    var policies := map n | n in ps :: PolicyValue(ps[n]);
    PoliciesAreSmall();
    SpacesAreSmall(es);
    NumberSmall(next);
    SmallNumberSmall(1);
    RootIsSmall(RootEntries(ps, next, spaces), Int(next), Dict(policies), Dict(SpaceValues(spaces)));
    Plain("agent_memory_namespaces");
    SingleSmall(ROOT_KEY, Dict(RootEntries(ps, next, spaces)), 23, 1669);
    RootAlone(ps, next, spaces);
  }

  lemma RootAlone(ps: Policies, next: nat, spaces: map<Text, Entries>)
    ensures DocumentOf(ps, Session(next, spaces, map[])) == map[ROOT_KEY := Dict(RootEntries(ps, next, spaces))]
  {
    hide RootEntries, Word;
  }

  /** An accepted root within its quotas whose next append succeeds and leaves a root that the next
      validation refuses. */
  lemma LastAppendIsTooWide()
    ensures var ps: Policies, s := map[SPACE := ROOMY], Session(Pow16(KEY_DIGITS), map[SPACE := map[]], map[]);
      && RootAccepted(ps, s) && Sound(ps, 10_000, s)
      && TooWide(ps, 10_000, s, AppendOp(SPACE, Null)) && !GoodRoot(Apply(ps, 10_000, s, AppendOp(SPACE, Null)))
  {
    hide Encode, Pow16, AppendKey, SpaceValue, KeyAllowed, DocumentSize, Word;
    var ps: Policies, s := map[SPACE := ROOMY], Session(Pow16(KEY_DIGITS), map[SPACE := map[]], map[]);
    var n := Pow16(KEY_DIGITS);
    EmptyWithin(ROOMY);
    DocumentIsSmall(n, map[]);
    var es := map[AppendKey(n) := Entry(n, Null)];
    TinyIsSmall(es);
    DocumentIsSmall(n + 1, es);
    assert Added(s, SPACE, AppendKey(n), Null) == es;
    LastFits(ps, s, es);
    SetSucceedsWhen(ps, 10_000, s, SPACE, AppendKey(n), Null);
    ApplyGood(ps, 10_000, s, AppendOp(SPACE, Null));
  }

  lemma LastFits(ps: Policies, s: Session, es: Entries)
    requires ps == map[SPACE := ROOMY] && s.spaces == map[SPACE := map[]] && s.others == map[]
    requires |es| <= 1 && CodecSizes.Small(SpaceValue(es), 385)
    requires DocumentWithin(ps, 10_000, Session(s.next + 1, map[SPACE := es], map[]))
    ensures Acceptable(ps, 10_000, s, SPACE, es) && Encodes(ps, s.(next := s.next + 1), SPACE, es)
  {
    hide Encode, SpaceValue, DocumentSize;
    var t := s.(next := s.next + 1);
    assert t.(spaces := t.spaces[SPACE := es]) == Session(s.next + 1, map[SPACE := es], map[]);
  }
}
