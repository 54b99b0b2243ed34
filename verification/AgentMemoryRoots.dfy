/** Generated keys never collide, and roots that a run produces are accepted by the next call. */
module AgentMemoryRoots {
  import opened Basics
  import opened Codec
  import opened AgentMemory
  import opened AgentMemoryLaws
  import opened AgentMemoryRuns

  // ---------------------------------------------------------------- generated keys

  function HexValue(t: Text): (n: int) {
    if t == [] then 0 else
      var c := t[|t| - 1];
      16 * HexValue(t[..|t| - 1]) + if c < 'a' as int then c - '0' as int else c - 'a' as int + 10
  }

  lemma {:induction false} HexReads(n: nat, width: nat)
    ensures HexValue(Hex(n, width)) == n
    decreases n, width
  {
    if n != 0 || width != 0 {
      var front := Hex(n / 16, if width == 0 then 0 else width - 1);
      HexReads(n / 16, if width == 0 then 0 else width - 1);
      assert Hex(n, width) == front + [HexDigit(n % 16)];
      assert Hex(n, width)[..|front|] == front;
    }
  }

  lemma AppendKeysDiffer(a: nat, b: nat)
    requires AppendKey(a) == AppendKey(b)
    ensures a == b
  {
    HexReads(a, 16);
    HexReads(b, 16);
    assert AppendKey(a)[|APPEND_PREFIX|..] == Hex(a, 16) && AppendKey(b)[|APPEND_PREFIX|..] == Hex(b, 16);
  }

  /** The entry was there when the manager was opened. */
  predicate Persisted(s0: Session, n: Text, k: Text, e: Entry) {
    n in s0.spaces && k in s0.spaces[n] && s0.spaces[n][k] == e
  }

  /** Every key with the reserved prefix was generated from its entry's number, or was persisted. */
  ghost predicate Accounted(s0: Session, s: Session) {
    forall n, k :: n in s.spaces && k in s.spaces[n] && APPEND_PREFIX <= k ==>
      k == AppendKey(s.spaces[n][k].sequence) || Persisted(s0, n, k, s.spaces[n][k])
  }

  lemma SetAccounted(ps: Policies, capacity: nat, s0: Session, s: Session, ns: Text, key: Text, value: Value,
                     t: Session)
    requires Orderly(ps, s) && Accounted(s0, s) && ns in ps && Set(ps, capacity, s, ns, key, value) == Ok(t)
    requires APPEND_PREFIX <= key ==> key == AppendKey(s.next)
    ensures Accounted(s0, t)
  {
    hide Set, Numbered, AppendKey, KeepsLongest, Persisted;
    SetKeepsLongestRun(ps, capacity, s, ns, key, value, t);
    LongestWithin(ps, capacity, s, ns, key, Added(s, ns, key, value), t.spaces[ns]);
  }

  lemma ApplyAccounted(ps: Policies, capacity: nat, s0: Session, s: Session, op: Op)
    requires Orderly(ps, s) && Accounted(s0, s)
    ensures Accounted(s0, Apply(ps, capacity, s, op))
  {
    hide Set, Numbered, AppendKey, Persisted;
    match op
    case SetOp(ns, key, value) =>
      var r := SetChecked(ps, capacity, s, ns, key, value);
      if r.Ok? {
        SetAccounted(ps, capacity, s0, s, ns, key, value, r.value);
      }
    case AppendOp(ns, value) =>
      var r := AppendChecked(ps, capacity, s, ns, value);
      if r.Ok? {
        SetAccounted(ps, capacity, s0, s, ns, AppendKey(s.next), value, r.value);
      }
    case DeleteOp(ns, key) =>
    case ClearOp(ns) =>
  }

  lemma {:induction false} RunAccounted(ps: Policies, capacity: nat, s: Session, ops: seq<Op>)
    requires Orderly(ps, s)
    ensures Accounted(s, Run(ps, capacity, s, ops))
  {
    if ops != [] {
      hide Orderly, Apply, Accounted;
      OrderlySpaces(ps, s);
      RunAccounted(ps, capacity, s, ops[..|ops| - 1]);
      RunStaysOrderly(ps, capacity, s, ops[..|ops| - 1]);
      ApplyAccounted(ps, capacity, s, Run(ps, capacity, s, ops[..|ops| - 1]), ops[|ops| - 1]);
    }
  }

  lemma OrderlySpaces(ps: Policies, s: Session)
    requires Orderly(ps, s)
    ensures ps.Keys == s.spaces.Keys
  {
    hide Numbered;
  }

  /** Over every run from any root that passed its checks, the key that `append` generates can only
      collide with one that was already persisted, under a number that is not its own. */
  lemma OnlyPersistedKeysCollide(ps: Policies, capacity: nat, s: Session, ops: seq<Op>, ns: Text)
    requires Orderly(ps, s) && ns in ps
    ensures var t := Run(ps, capacity, s, ops); var k := AppendKey(t.next);
      k in t.spaces[ns] ==> Persisted(s, ns, k, t.spaces[ns][k]) && t.spaces[ns][k].sequence != t.next
  {
    RunAccounted(ps, capacity, s, ops);
    RunStaysOrderly(ps, capacity, s, ops);
    var t := Run(ps, capacity, s, ops);
    hide Run, Hex, Persisted;
    var k := AppendKey(t.next);
    if k in t.spaces[ns] && k == AppendKey(t.spaces[ns][k].sequence) {
      AppendKeysDiffer(t.next, t.spaces[ns][k].sequence);
    }
    assert k in t.spaces[ns] ==> APPEND_PREFIX <= k;
  }

  /** So in a manager that installed its own root it never does. */
  lemma FreshAppendNeverCollides(ps: Policies, capacity: nat, others: map<Text, Value>, ops: seq<Op>, ns: Text)
    requires ns in ps
    ensures FreshSession(ps, others).spaces.Keys == ps.Keys
    ensures var t := Run(ps, capacity, FreshSession(ps, others), ops); AppendKey(t.next) !in t.spaces[ns]
  {
    var s := FreshSession(ps, others);
    assert s.spaces.Keys == ps.Keys;
    OnlyPersistedKeysCollide(ps, capacity, s, ops, ns);
    hide Run, AppendKey;
  }

  /** In one that was opened with a key of that form it can: the validation of a root lets it through. */
  lemma PersistedKeyCollides(p: Policy, e: Entry, value: Value, capacity: nat, ns: Text)
    requires e.sequence == 1
    ensures var ps: Policies, s := map[ns := p], Session(2, map[ns := map[AppendKey(2) := e]], map[]);
      && RootAccepted(ps, s) && AppendChecked(ps, capacity, s, ns, value) == Err(BadKey)
  {
    hide AppendKey, KeyAllowed, Pow16, Word;
    GeneratedKeyAllowed(2);
    WideEnough(2);
  }

  lemma WideEnough(n: nat)
    requires n < 16
    ensures n < Pow16(KEY_DIGITS)
  {
    assert Pow16(KEY_DIGITS) == 16 * Pow16(KEY_DIGITS - 1);
  }

  // ---------------------------------------------------------------- roots that will be accepted again

  function Pow16(n: nat): (p: nat)
    ensures p >= 1
  {
    if n == 0 then 1 else 16 * Pow16(n - 1)
  }

  /** A number has at most `length` digits exactly when it is below that power. */
  lemma {:induction false} HexFits(n: nat, width: nat, length: nat)
    requires width <= length
    ensures |Hex(n, width)| <= length <==> n < Pow16(length)
    decreases n, width
  {
    if (n != 0 || width != 0) && length > 0 {
      HexFits(n / 16, if width == 0 then 0 else width - 1, length - 1);
    }
  }

  lemma {:induction false} HexCharacters(n: nat, width: nat, i: nat)
    requires i < |Hex(n, width)|
    ensures KeyCharacter(Hex(n, width)[i])
    decreases n, width
  {
    var front := Hex(n / 16, if width == 0 then 0 else width - 1);
    assert Hex(n, width) == front + [HexDigit(n % 16)];
    if i < |front| {
      HexCharacters(n / 16, if width == 0 then 0 else width - 1, i);
    }
  }

  /** How many digits a generated key has room for. */
  const KEY_DIGITS := 152

  /** A generated key is an allowed key exactly while its number fits the digits left by the prefix. */
  lemma GeneratedKeyAllowed(n: nat)
    ensures KeyAllowed(AppendKey(n)) <==> n < Pow16(KEY_DIGITS)
  {
    hide Hex, Pow16, KeyCharacter, HexDigit, Word;
    HexFits(n, 16, KEY_DIGITS);
    PrefixLength();
    forall i | 0 <= i < |AppendKey(n)| ensures KeyCharacter(AppendKey(n)[i]) {
      if i < |APPEND_PREFIX| {
        PrefixCharacters(i);
      } else {
        HexCharacters(n, 16, i - |APPEND_PREFIX|);
      }
    }
  }

  lemma PrefixLength()
    ensures |APPEND_PREFIX| == 8
  {
  }

  lemma PrefixCharacters(i: nat)
    requires i < |APPEND_PREFIX|
    ensures KeyCharacter(APPEND_PREFIX[i])
  {
    assert Word("_.:/-")[0] == '_' as int && Word("_.:/-")[3] == '/' as int;
  }

  ghost predicate GoodEntries(es: Entries) {
    forall k :: k in es ==> KeyAllowed(k) && es[k].sequence >= 1
  }

  /** What `_validate_root` asks of the counter and of every entry, beside what `Numbered` says. */
  ghost predicate GoodRoot(s: Session) {
    s.next >= 1 && forall n :: n in s.spaces ==> GoodEntries(s.spaces[n])
  }

  /** The root passes `_validate_root`. */
  ghost predicate RootAccepted(ps: Policies, s: Session) {
    Orderly(ps, s) && GoodRoot(s)
  }

  /** An append that succeeds with a number too wide for an allowed key. */
  predicate TooWide(ps: Policies, capacity: nat, s: Session, op: Op)
    requires ps.Keys == s.spaces.Keys
  {
    op.AppendOp? && AppendChecked(ps, capacity, s, op.ns, op.value).Ok? && s.next >= Pow16(KEY_DIGITS)
  }

  lemma SetGood(ps: Policies, capacity: nat, s: Session, ns: Text, key: Text, value: Value, t: Session)
    requires Orderly(ps, s) && GoodRoot(s) && ns in ps && Set(ps, capacity, s, ns, key, value) == Ok(t)
    ensures GoodRoot(t) <==> KeyAllowed(key)
  {
    hide Set, Numbered, KeyAllowed, KeepsLongest;
    SetKeepsLongestRun(ps, capacity, s, ns, key, value, t);
    LongestWithin(ps, capacity, s, ns, key, Added(s, ns, key, value), t.spaces[ns]);
    assert KeyAllowed(key) ==> GoodEntries(t.spaces[ns]);
  }

  /** A step leaves a root that will be accepted again unless it is an append that ran out of digits. */
  lemma ApplyGood(ps: Policies, capacity: nat, s: Session, op: Op)
    requires Orderly(ps, s) && GoodRoot(s)
    ensures GoodRoot(Apply(ps, capacity, s, op)) <==> !TooWide(ps, capacity, s, op)
  {
    hide Set, Numbered, AppendKey, KeyAllowed, Pow16;
    match op
    case SetOp(ns, key, value) =>
      var r := SetChecked(ps, capacity, s, ns, key, value);
      if r.Ok? {
        SetGood(ps, capacity, s, ns, key, value, r.value);
      }
    case AppendOp(ns, value) =>
      var r := AppendChecked(ps, capacity, s, ns, value);
      if r.Ok? {
        SetGood(ps, capacity, s, ns, AppendKey(s.next), value, r.value);
        GeneratedKeyAllowed(s.next);
      }
    case DeleteOp(ns, key) =>
    case ClearOp(ns) =>
  }

  /** No append of the run is too wide. */
  ghost predicate NoneTooWide(ps: Policies, capacity: nat, s: Session, ops: seq<Op>)
    requires ps.Keys == s.spaces.Keys
  {
    ops == [] || (
      && NoneTooWide(ps, capacity, s, ops[..|ops| - 1])
      && !TooWide(ps, capacity, Run(ps, capacity, s, ops[..|ops| - 1]), ops[|ops| - 1]))
  }

  /** Every root the run passes through will be accepted again. */
  ghost predicate AcceptedThroughout(ps: Policies, capacity: nat, s: Session, ops: seq<Op>)
    requires ps.Keys == s.spaces.Keys
  {
    RootAccepted(ps, Run(ps, capacity, s, ops)) && (ops == [] || AcceptedThroughout(ps, capacity, s, ops[..|ops| - 1]))
  }

  /** Over every run from an accepted root, all roots stay acceptable exactly when no
      append generates a key with more digits than fit. */
  lemma {:induction false} RootsAcceptedExactlyWhen(ps: Policies, capacity: nat, s: Session, ops: seq<Op>)
    requires RootAccepted(ps, s)
    ensures AcceptedThroughout(ps, capacity, s, ops) <==> NoneTooWide(ps, capacity, s, ops)
  {
    hide Numbered, GoodRoot, Apply, TooWide;
    RunStaysOrderly(ps, capacity, s, ops);
    if ops != [] {
      var before := ops[..|ops| - 1];
      RootsAcceptedExactlyWhen(ps, capacity, s, before);
      RunStaysOrderly(ps, capacity, s, before);
      if NoneTooWide(ps, capacity, s, before) {
        AcceptedLast(ps, capacity, s, before);
        ApplyGood(ps, capacity, Run(ps, capacity, s, before), ops[|ops| - 1]);
      }
    }
  }

  lemma AcceptedLast(ps: Policies, capacity: nat, s: Session, ops: seq<Op>)
    requires ps.Keys == s.spaces.Keys && AcceptedThroughout(ps, capacity, s, ops)
    ensures RootAccepted(ps, Run(ps, capacity, s, ops))
  {
    hide RootAccepted;
  }

  lemma {:induction false} CounterGrowsSlowly(ps: Policies, capacity: nat, s: Session, ops: seq<Op>)
    requires ps.Keys == s.spaces.Keys
    ensures Run(ps, capacity, s, ops).next <= s.next + |ops|
  {
    if ops != [] {
      CounterGrowsSlowly(ps, capacity, s, ops[..|ops| - 1]);
      CounterStep(ps, capacity, Run(ps, capacity, s, ops[..|ops| - 1]), ops[|ops| - 1]);
      hide Apply;
    }
  }

  lemma CounterStep(ps: Policies, capacity: nat, s: Session, op: Op)
    requires ps.Keys == s.spaces.Keys
    ensures Apply(ps, capacity, s, op).next <= s.next + 1
  {
    hide Evict, SpaceGauge, DocumentGauge, KeyAllowed, AppendKey;
  }

  /** So no run of fewer operations than there are numbers left ever produces a refused root. */
  lemma {:induction false} ShortRunsAccepted(ps: Policies, capacity: nat, s: Session, ops: seq<Op>)
    requires RootAccepted(ps, s) && s.next + |ops| <= Pow16(KEY_DIGITS)
    ensures NoneTooWide(ps, capacity, s, ops) && AcceptedThroughout(ps, capacity, s, ops)
  {
    hide RootAccepted, Run, Pow16;
    AcceptedSpaces(ps, s);
    if ops != [] {
      ShortRunsAccepted(ps, capacity, s, ops[..|ops| - 1]);
      CounterGrowsSlowly(ps, capacity, s, ops[..|ops| - 1]);
    }
    RootsAcceptedExactlyWhen(ps, capacity, s, ops);
  }

  lemma AcceptedSpaces(ps: Policies, s: Session)
    requires RootAccepted(ps, s)
    ensures ps.Keys == s.spaces.Keys
  {
    hide Numbered, GoodRoot;
  }

  /** A newly installed root is accepted. */
  lemma FreshIsAccepted(ps: Policies, others: map<Text, Value>)
    ensures RootAccepted(ps, FreshSession(ps, others))
  {
    assert FreshSession(ps, others).spaces.Keys == ps.Keys;
  }
}
