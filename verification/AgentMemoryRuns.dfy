/** What every run of a memory manager keeps, from whatever root it was opened with. */
module AgentMemoryRuns {
  import opened Basics
  import opened Codec
  import opened AgentMemory
  import opened AgentMemoryLaws
  import CodecSizes

  // ---------------------------------------------------------------- quotas, one by one

  /** The namespace is within its entry count and byte quota. */
  ghost predicate SpaceWithin(ps: Policies, s: Session, n: Text) {
    n in ps && n in s.spaces && SpaceGauge(ps[n])(s.spaces[n]) == Ok(false)
  }

  /** The document fits its region. */
  ghost predicate DocumentWithin(ps: Policies, capacity: nat, s: Session) {
    var size := DocumentSize(ps, s);
    size.Ok? && size.value <= capacity
  }

  /** What the document holds at the end of a path of keys. */
  function Follow(v: Value, path: seq<Text>): (r: Option<Value>) {
    if path == [] then Some(v)
    else if !v.Dict? || path[0] !in v.entries then None
    else Follow(v.entries[path[0]], path[1..])
  }

  /** Every entry, and every policy, is found in the document under its own path. */
  lemma EntryInDocument(ps: Policies, s: Session, n: Text, k: Text)
    requires n in s.spaces && k in s.spaces[n] && n in ps
    ensures var root, entry := Follow(Dict(DocumentOf(ps, s)), [ROOT_KEY]), [Word("namespaces"), n, Word("entries"), k];
      && root.Some? && Follow(root.value, [Word("next_sequence")]) == Some(Int(s.next))
      && Follow(root.value, entry + [Word("value")]) == Some(s.spaces[n][k].value)
      && Follow(root.value, entry + [Word("sequence")]) == Some(Int(s.spaces[n][k].sequence))
      && Follow(root.value, [Word("policies"), n, Word("max_bytes")]) == Some(Int(ps[n].maxBytes))
      && Follow(root.value, [Word("policies"), n, Word("max_entries")]) == Some(Int(ps[n].maxEntries))
  {
    var root := Dict(RootEntries(ps, s.next, s.spaces));
    FollowOne(Dict(DocumentOf(ps, s)), ROOT_KEY, [], root);
    RootPaths(ps, s, n);
    var space := SpaceValue(s.spaces[n]);
    EntryPath(s.spaces[n], k);
    var inner := [Word("entries"), k];
    FollowTwo(root, Word("namespaces"), n, inner + [Word("value")], Dict(SpaceValues(s.spaces)), space);
    FollowTwo(root, Word("namespaces"), n, inner + [Word("sequence")], Dict(SpaceValues(s.spaces)), space);
    assert [Word("namespaces"), n] + (inner + [Word("value")])
      == [Word("namespaces"), n, Word("entries"), k] + [Word("value")];
    assert [Word("namespaces"), n] + (inner + [Word("sequence")])
      == [Word("namespaces"), n, Word("entries"), k] + [Word("sequence")];
  }

  lemma FollowOne(v: Value, key: Text, rest: seq<Text>, w: Value)
    requires v.Dict? && key in v.entries && v.entries[key] == w
    ensures Follow(v, [key] + rest) == Follow(w, rest)
  {
    assert ([key] + rest)[1..] == rest;
  }

  lemma FollowTwo(v: Value, a: Text, b: Text, rest: seq<Text>, w: Value, x: Value)
    requires v.Dict? && a in v.entries && v.entries[a] == w && w.Dict? && b in w.entries && w.entries[b] == x
    ensures Follow(v, [a, b] + rest) == Follow(x, rest)
  {
    FollowOne(v, a, [b] + rest, w);
    FollowOne(w, b, rest, x);
    assert [a] + ([b] + rest) == [a, b] + rest;
  }

  lemma EntryPath(es: Entries, k: Text)
    requires k in es
    ensures var entry := [Word("entries"), k];
      && Follow(SpaceValue(es), entry + [Word("value")]) == Some(es[k].value)
      && Follow(SpaceValue(es), entry + [Word("sequence")]) == Some(Int(es[k].sequence))
  {
    var entry := EntryValue(es[k]);
    assert |Word("sequence")| == 8 && |Word("value")| == 5;
    FollowTwo(SpaceValue(es), Word("entries"), k, [Word("value")], Dict(EntryValues(es)), entry);
    FollowTwo(SpaceValue(es), Word("entries"), k, [Word("sequence")], Dict(EntryValues(es)), entry);
    FollowOne(entry, Word("value"), [], es[k].value);
    FollowOne(entry, Word("sequence"), [], Int(es[k].sequence));
  }

  lemma RootPaths(ps: Policies, s: Session, n: Text)
    requires n in ps
    ensures var root := Dict(RootEntries(ps, s.next, s.spaces));
      && Word("namespaces") in root.entries && root.entries[Word("namespaces")] == Dict(SpaceValues(s.spaces))
      && Follow(root, [Word("next_sequence")]) == Some(Int(s.next))
      && Follow(root, [Word("policies"), n, Word("max_bytes")]) == Some(Int(ps[n].maxBytes))
      && Follow(root, [Word("policies"), n, Word("max_entries")]) == Some(Int(ps[n].maxEntries))
  {
    var root, policy := Dict(RootEntries(ps, s.next, s.spaces)), PolicyValue(ps[n]);
    var policies := Dict(map n | n in ps :: PolicyValue(ps[n]));
    RootKeys(ps, s.next, s.spaces);
    PolicyPaths(ps[n]);
    hide PolicyValue, RootEntries, SpaceValues, Word;
    FollowOne(root, Word("next_sequence"), [], Int(s.next));
    FollowTwo(root, Word("policies"), n, [Word("max_bytes")], policies, policy);
    FollowTwo(root, Word("policies"), n, [Word("max_entries")], policies, policy);
    assert [Word("next_sequence")] + [] == [Word("next_sequence")];
    assert [Word("policies"), n] + [Word("max_bytes")] == [Word("policies"), n, Word("max_bytes")];
    assert [Word("policies"), n] + [Word("max_entries")] == [Word("policies"), n, Word("max_entries")];
  }

  lemma RootKeys(ps: Policies, next: nat, spaces: map<Text, Entries>)
    ensures var root := RootEntries(ps, next, spaces);
      && Lookup(root, Word("namespaces")) == Some(Dict(SpaceValues(spaces)))
      && Lookup(root, Word("next_sequence")) == Some(Int(next))
      && Lookup(root, Word("policies")) == Some(Dict(map n | n in ps :: PolicyValue(ps[n])))
  {
    assert |Word("version")| == 7 && |Word("next_sequence")| == 13 && |Word("policies")| == 8
      && |Word("namespaces")| == 10;
    hide PolicyValue, SpaceValues;
  }

  lemma PolicyPaths(p: Policy)
    ensures Follow(PolicyValue(p), [Word("max_bytes")]) == Some(Int(p.maxBytes))
    ensures Follow(PolicyValue(p), [Word("max_entries")]) == Some(Int(p.maxEntries))
  {
    assert |Word("max_bytes")| == 9 && |Word("max_entries")| == 11 && |Word("eviction")| == 8;
    FollowOne(PolicyValue(p), Word("max_bytes"), [], Int(p.maxBytes));
    FollowOne(PolicyValue(p), Word("max_entries"), [], Int(p.maxEntries));
  }

  /** What `_validate_root` establishes about namespaces and numbers; it does not look at quotas. */
  ghost predicate Orderly(ps: Policies, s: Session) {
    ps.Keys == s.spaces.Keys && Numbered(s)
  }

  lemma DocumentLightens(ps: Policies, capacity: nat, s: Session, ns: Text, es: Entries)
    requires DocumentWithin(ps, capacity, s) && ns in s.spaces && Lighter(SpaceValue(es), SpaceValue(s.spaces[ns]))
    ensures DocumentWithin(ps, capacity, s.(spaces := s.spaces[ns := es]))
  {
    hide Encode, SpaceValue, DocumentOf;
    DocumentFromSpace(ps, s, ns, es, s.spaces[ns]);
    assert s.spaces[ns := s.spaces[ns]] == s.spaces;
  }

  lemma {:induction false} EmptyLighter(es: Entries)
    ensures Lighter(SpaceValue(map[]), SpaceValue(es))
    decreases |es|
  {
    hide Encode, SpaceValue;
    if k :| k in es {
      RemovedSmaller(es, k);
      EntriesLighter(es, k);
      SpaceFromEntries(es - {k}, es);
      EmptyLighter(es - {k});
    } else {
      assert es == map[];
    }
  }

  lemma EmptySpaceSmall()
    ensures CodecSizes.Small(SpaceValue(map[]), 23)
  {
    hide Encode;
    var entries, m := EntryValues(map[]), map[Word("entries") := Dict(EntryValues(map[]))];
    assert entries == map[];
    CodecSizes.SmallDict(entries, 0, 0);
    assert |m| == 1;
    CodecSizes.SmallDict(m, 7, 5);
  }

  /** An empty namespace is within any quota a policy may have. */
  lemma EmptyWithin(p: Policy)
    requires PolicyAllowed(p)
    ensures SpaceGauge(p)(map[]) == Ok(false)
  {
    hide Encode, SpaceValue;
    EmptySpaceSmall();
  }

  // ---------------------------------------------------------------- operations

  lemma LongestWithin(ps: Policies, capacity: nat, s: Session, ns: Text, key: Text, all: Entries, run: Entries)
    requires ns in ps && KeepsLongest(ps, capacity, s, ns, key, all, run)
    ensures Within(run, all)
  {
    hide Acceptable;
  }

  /** What a set keeps is within the quota of its namespace, and the document within its region. */
  lemma LongestFits(ps: Policies, capacity: nat, s: Session, ns: Text, key: Text, all: Entries, run: Entries)
    requires ns in ps && KeepsLongest(ps, capacity, s, ns, key, all, run)
    ensures SpaceGauge(ps[ns])(run) == Ok(false)
    ensures var size := DocumentSize(ps, s.(next := s.next + 1, spaces := s.spaces[ns := run]));
      size.Ok? && size.value <= capacity
  {
    hide DocumentSize, SpaceGauge, NewestRun;
    var t1 := s.(next := s.next + 1);
    assert OverDocument(ps, t1, ns, capacity, run) == Ok(false);
  }

  lemma SessionRebuilt(s: Session, t: Session, ns: Text)
    requires OnlySpaceChanged(s, t, ns) && t.next == s.next + 1 && ns in t.spaces && ns in s.spaces
    ensures t == s.(next := s.next + 1, spaces := s.spaces[ns := t.spaces[ns]])
  {
    assert t.spaces == s.spaces[ns := t.spaces[ns]];
  }

  lemma ChangedNumbered(s: Session, t: Session, ns: Text, key: Text, value: Value)
    requires Numbered(s) && OnlySpaceChanged(s, t, ns) && t.next == s.next + 1 && ns in t.spaces
    requires Within(t.spaces[ns], Added(s, ns, key, value))
    ensures Numbered(t)
  {
    forall n, k | n in t.spaces && k in t.spaces[n]
      ensures t.spaces[n][k].sequence <= s.next
      ensures (n, k) == (ns, key) || (k in s.spaces[n] && t.spaces[n][k] == s.spaces[n][k])
    {
      if n == ns {
        assert k in Added(s, ns, key, value);
      }
    }
  }

  /** Taking entries away keeps sequences unique and below the counter. */
  lemma RemovalNumbered(s: Session, ns: Text, es: Entries)
    requires Numbered(s) && ns in s.spaces && Within(es, s.spaces[ns])
    ensures Numbered(s.(spaces := s.spaces[ns := es]))
  {
    var t := s.(spaces := s.spaces[ns := es]);
    forall n, k | n in t.spaces && k in t.spaces[n] ensures k in s.spaces[n] && t.spaces[n][k] == s.spaces[n][k] {
    }
  }

  datatype Op =
    | SetOp(ns: Text, key: Text, value: Value)
    | AppendOp(ns: Text, value: Value)
    | DeleteOp(ns: Text, key: Text)
    | ClearOp(ns: Text)

  /** What an operation leaves behind, failed or not. */
  function Apply(ps: Policies, capacity: nat, s: Session, op: Op): (t: Session)
    requires ps.Keys == s.spaces.Keys
  {
    match op
    case SetOp(ns, key, value) => OrElse(s, SetChecked(ps, capacity, s, ns, key, value))
    case AppendOp(ns, value) => OrElse(s, AppendChecked(ps, capacity, s, ns, value))
    case DeleteOp(ns, key) =>
      if ns in ps && KeyAllowed(key) && key in s.spaces[ns] then Delete(s, ns, key) else s
    case ClearOp(ns) => if ns in ps then Clear(s, ns) else s
  }

  /** The states a run goes through, whatever fails on the way. */
  function Run(ps: Policies, capacity: nat, s: Session, ops: seq<Op>): (t: Session)
    requires ps.Keys == s.spaces.Keys
    ensures ps.Keys == t.spaces.Keys
  {
    if ops == [] then s else
      var before := Run(ps, capacity, s, ops[..|ops| - 1]);
      ApplyKeepsSpaces(ps, capacity, before, ops[|ops| - 1]);
      Apply(ps, capacity, before, ops[|ops| - 1])
  }

  lemma ApplyKeepsSpaces(ps: Policies, capacity: nat, s: Session, op: Op)
    requires ps.Keys == s.spaces.Keys
    ensures Apply(ps, capacity, s, op).spaces.Keys == ps.Keys
  {
    hide Set;
    match op
    case SetOp(ns, key, value) =>
      if ns in ps {
        SetKeepsSpaces(ps, capacity, s, ns, key, value);
      }
    case AppendOp(ns, value) =>
      if ns in ps {
        SetKeepsSpaces(ps, capacity, s, ns, AppendKey(s.next), value);
      }
    case DeleteOp(ns, key) =>
    case ClearOp(ns) =>
  }

  /** The operation stores something. */
  predicate Stores(ps: Policies, capacity: nat, s: Session, op: Op)
    requires ps.Keys == s.spaces.Keys
  {
    || (op.SetOp? && SetChecked(ps, capacity, s, op.ns, op.key, op.value).Ok?)
    || (op.AppendOp? && AppendChecked(ps, capacity, s, op.ns, op.value).Ok?)
  }

  /** How a step changes the numbers and the quotas: it keeps each, and storing establishes them. */
  ghost predicate Keeps(ps: Policies, capacity: nat, s: Session, t: Session, n: Text, stores: bool, here: bool) {
    && Orderly(ps, t)
    && (SpaceWithin(ps, s, n) || here ==> SpaceWithin(ps, t, n))
    && (DocumentWithin(ps, capacity, s) || stores ==> DocumentWithin(ps, capacity, t))
  }

  lemma SetStep(ps: Policies, capacity: nat, s: Session, ns: Text, key: Text, value: Value, t: Session, n: Text)
    requires Orderly(ps, s) && ns in ps && n in ps && Set(ps, capacity, s, ns, key, value) == Ok(t)
    ensures Keeps(ps, capacity, s, t, n, true, n == ns)
  {
    hide Set, SpaceGauge, Numbered, DocumentSize, KeepsLongest;
    SetKeepsLongestRun(ps, capacity, s, ns, key, value, t);
    LongestFits(ps, capacity, s, ns, key, Added(s, ns, key, value), t.spaces[ns]);
    LongestWithin(ps, capacity, s, ns, key, Added(s, ns, key, value), t.spaces[ns]);
    SessionRebuilt(s, t, ns);
    ChangedNumbered(s, t, ns, key, value);
  }

  lemma DeleteStep(ps: Policies, capacity: nat, s: Session, ns: Text, key: Text, n: Text)
    requires Orderly(ps, s) && ns in ps && key in s.spaces[ns]
    ensures Keeps(ps, capacity, s, Delete(s, ns, key), n, false, false)
  {
    hide SpaceGauge, Lighter, SpaceValue, DocumentOf, DocumentSize, Numbered;
    var es := s.spaces[ns];
    RemovalNumbered(s, ns, es - {key});
    RemovalLightens(ps, s, ns, es, key);
    if SpaceWithin(ps, s, ns) {
      SpaceGaugeShrinks(ps[ns], es, key);
    }
    if DocumentWithin(ps, capacity, s) {
      DocumentLightens(ps, capacity, s, ns, es - {key});
    }
  }

  /** Clearing brings the namespace within its quotas, whatever was there. */
  lemma ClearStep(ps: Policies, capacity: nat, s: Session, ns: Text, n: Text)
    requires Orderly(ps, s) && ns in ps && PolicyAllowed(ps[ns])
    ensures Keeps(ps, capacity, s, Clear(s, ns), n, false, n == ns)
  {
    hide SpaceGauge, Lighter, SpaceValue, DocumentSize, Numbered;
    RemovalNumbered(s, ns, map[]);
    EmptyWithin(ps[ns]);
    EmptyLighter(s.spaces[ns]);
    if DocumentWithin(ps, capacity, s) {
      DocumentLightens(ps, capacity, s, ns, map[]);
    }
  }

  ghost predicate AllAllowed(ps: Policies) {
    forall n :: n in ps ==> PolicyAllowed(ps[n])
  }

  lemma ApplyStep(ps: Policies, capacity: nat, s: Session, op: Op, n: Text)
    requires Orderly(ps, s) && AllAllowed(ps) && n in ps
    ensures var stores := Stores(ps, capacity, s, op);
      Keeps(ps, capacity, s, Apply(ps, capacity, s, op), n, stores, stores && op.ns == n)
  {
    hide Set, SpaceGauge, Numbered, DocumentSize;
    match op
    case SetOp(ns, key, value) =>
      var r := SetChecked(ps, capacity, s, ns, key, value);
      if r.Ok? {
        SetStep(ps, capacity, s, ns, key, value, r.value, n);
      }
    case AppendOp(ns, value) =>
      var r := AppendChecked(ps, capacity, s, ns, value);
      if r.Ok? {
        SetStep(ps, capacity, s, ns, AppendKey(s.next), value, r.value, n);
      }
    case DeleteOp(ns, key) =>
      if ns in ps && key in s.spaces[ns] {
        DeleteStep(ps, capacity, s, ns, key, n);
      }
    case ClearOp(ns) =>
      if ns in ps {
        ClearStep(ps, capacity, s, ns, n);
      }
  }

  // ---------------------------------------------------------------- runs

  /** Something was stored in the run, in this namespace if one is named. */
  function Stored(ps: Policies, capacity: nat, s: Session, ops: seq<Op>, n: Option<Text>): (b: bool)
    requires ps.Keys == s.spaces.Keys
  {
    ops != [] && (
      || Stored(ps, capacity, s, ops[..|ops| - 1], n)
      || (var op := ops[|ops| - 1];
          Stores(ps, capacity, Run(ps, capacity, s, ops[..|ops| - 1]), op) && (n.None? || n.value == op.ns)))
  }

  /** Over every run from any root that passed its checks: numbers stay unique and below the counter;
      a namespace that is within its quotas stays so, and one that was persisted over them is within
      them from the first value it takes; and likewise the document and its region. */
  lemma {:induction false} RunKeepsQuotas(ps: Policies, capacity: nat, s: Session, ops: seq<Op>, n: Text)
    requires Orderly(ps, s) && AllAllowed(ps) && n in ps
    ensures Keeps(ps, capacity, s, Run(ps, capacity, s, ops), n, Stored(ps, capacity, s, ops, None),
      Stored(ps, capacity, s, ops, Some(n)))
  {
    hide SpaceWithin, DocumentWithin, Numbered, Apply, AllAllowed, Stores;
    if ops != [] {
      RunKeepsQuotas(ps, capacity, s, ops[..|ops| - 1], n);
      ApplyStep(ps, capacity, Run(ps, capacity, s, ops[..|ops| - 1]), ops[|ops| - 1], n);
    }
  }

  lemma {:induction false} RunStaysOrderly(ps: Policies, capacity: nat, s: Session, ops: seq<Op>)
    requires Orderly(ps, s)
    ensures Orderly(ps, Run(ps, capacity, s, ops))
  {
    hide Numbered, Apply;
    if ops != [] {
      RunStaysOrderly(ps, capacity, s, ops[..|ops| - 1]);
      ApplyOrderly(ps, capacity, Run(ps, capacity, s, ops[..|ops| - 1]), ops[|ops| - 1]);
    }
  }

  lemma ApplyOrderly(ps: Policies, capacity: nat, s: Session, op: Op)
    requires Orderly(ps, s)
    ensures Orderly(ps, Apply(ps, capacity, s, op))
  {
    hide Set, SpaceWithin, DocumentWithin, Numbered;
    ApplyKeepsSpaces(ps, capacity, s, op);
    match op
    case SetOp(ns, key, value) =>
      var r := SetChecked(ps, capacity, s, ns, key, value);
      if r.Ok? {
        SetStep(ps, capacity, s, ns, key, value, r.value, ns);
      }
    case AppendOp(ns, value) =>
      var r := AppendChecked(ps, capacity, s, ns, value);
      if r.Ok? {
        SetStep(ps, capacity, s, ns, AppendKey(s.next), value, r.value, ns);
      }
    case DeleteOp(ns, key) =>
      if ns in ps && key in s.spaces[ns] {
        RemovalNumbered(s, ns, s.spaces[ns] - {key});
      }
    case ClearOp(ns) =>
      if ns in ps {
        RemovalNumbered(s, ns, map[]);
      }
  }

  /** Every namespace within its quotas, the document within its region, numbers in order. */
  ghost predicate Sound(ps: Policies, capacity: nat, s: Session) {
    Orderly(ps, s) && DocumentWithin(ps, capacity, s) && forall n :: n in ps ==> SpaceWithin(ps, s, n)
  }

  /** A newly installed root is sound. */
  lemma FreshIsSound(ps: Policies, capacity: nat, others: map<Text, Value>)
    requires AllAllowed(ps) && Install(ps, capacity, others).Ok?
    ensures Sound(ps, capacity, Install(ps, capacity, others).value)
  {
    hide SpaceGauge, DocumentSize;
    var s := FreshSession(ps, others);
    assert s.spaces.Keys == ps.Keys;
    forall n | n in ps ensures SpaceWithin(ps, s, n) {
      EmptyWithin(ps[n]);
    }
  }

  lemma RunStaysSound(ps: Policies, capacity: nat, s: Session, ops: seq<Op>)
    requires AllAllowed(ps) && Sound(ps, capacity, s)
    ensures Sound(ps, capacity, Run(ps, capacity, s, ops))
  {
    hide SpaceWithin, DocumentWithin, Numbered, Run, Stored, AllAllowed;
    RunStaysOrderly(ps, capacity, s, ops);
    var t := Run(ps, capacity, s, ops);
    forall n | n in ps ensures SpaceWithin(ps, t, n) && DocumentWithin(ps, capacity, t) {
      RunKeepsQuotas(ps, capacity, s, ops, n);
    }
    if ps.Keys == {} {
      NothingHappens(ps, capacity, s, ops);
    } else {
      var n :| n in ps.Keys;
      assert n in ps;
    }
  }

  /** Over every run of a newly installed manager, each namespace is within its quotas, the document
      within its region, and numbers unique and below the counter. */
  lemma FreshRunsStaySound(ps: Policies, capacity: nat, others: map<Text, Value>, ops: seq<Op>)
    requires AllAllowed(ps) && Install(ps, capacity, others).Ok?
    ensures var s := FreshSession(ps, others);
      ps.Keys == s.spaces.Keys && Sound(ps, capacity, Run(ps, capacity, s, ops))
  {
    hide Run, Sound, AllAllowed, DocumentSize;
    FreshIsSound(ps, capacity, others);
    assert FreshSession(ps, others).spaces.Keys == ps.Keys;
    RunStaysSound(ps, capacity, FreshSession(ps, others), ops);
  }

  /** Without namespaces no operation does anything. */
  lemma {:induction false} NothingHappens(ps: Policies, capacity: nat, s: Session, ops: seq<Op>)
    requires ps.Keys == s.spaces.Keys && forall n :: n !in ps
    ensures Run(ps, capacity, s, ops) == s
  {
    if ops != [] {
      NothingHappens(ps, capacity, s, ops[..|ops| - 1]);
    }
  }
}
