/** What a quota-limited set keeps, and what every operation preserves. */
module AgentMemoryLaws {
  import opened Basics
  import opened Codec
  import opened AgentMemory
  import CodecSizes
  import Document
  import Lex

  // ---------------------------------------------------------------- runs of newest entries

  ghost predicate Distinct(es: Entries) {
    forall a, b :: a in es && b in es && a != b ==> es[a].sequence != es[b].sequence
  }

  ghost predicate Within(run: Entries, all: Entries) {
    forall k :: k in run ==> k in all && run[k] == all[k]
  }

  /** `run` is `kept` together with the newest others: nothing left out is newer than anything else in it. */
  ghost predicate NewestRun(all: Entries, kept: Text, run: Entries) {
    && kept in run && Within(run, all)
    && forall a, b :: a in run && a != kept && b in all && b !in run ==> all[b].sequence < all[a].sequence
  }

  lemma OldestIsFirst(es: Entries, kept: Text)
    requires Distinct(es) && Oldest(es, kept).Some?
    ensures First(es, kept, Oldest(es, kept).value)
  {
    var v, ages := Oldest(es, kept).value, Sequences(es, kept);
    Lex.PlacesNamed(ages);
    var least := Lex.Least(Lex.Places(ages));
    assert Lex.Place(ages[v], v) == least;
    forall k | k in es && k != kept && k != v ensures es[v].sequence < es[k].sequence {
      assert Lex.Place(ages[k], k) in Lex.Places(ages) && Lex.Name(Lex.Place(ages[k], k)) == k;
      assert Lex.Less(least, Lex.Place(ages[k], k));
    }
  }

  /** `run` is an acceptable run of newest entries, and every longer run is over the limit. */
  ghost predicate Longest(over: Gauge, all: Entries, kept: Text, run: Entries) {
    && NewestRun(all, kept, run) && over(run) == Ok(false)
    && forall longer :: NewestRun(all, kept, longer) && run.Keys < longer.Keys ==> over(longer) == Ok(true)
  }

  ghost predicate First(all: Entries, kept: Text, v: Text) {
    && v in all && v != kept
    && forall k :: k in all && k != kept && k != v ==> all[v].sequence < all[k].sequence
  }

  /** What is longest without the oldest entry is longest with it, if everything together is too much. */
  lemma LongestOfRest(over: Gauge, all: Entries, kept: Text, v: Text, run: Entries)
    requires First(all, kept, v) && Longest(over, all - {v}, kept, run) && over(all) == Ok(true)
    ensures Longest(over, all, kept, run)
  {
    assert NewestRun(all, kept, run) by {
      RestIsRun(all, kept, v);
      hide First;
      RunOfRun(all, kept, all - {v}, run);
    }
    forall longer | NewestRun(all, kept, longer) && run.Keys < longer.Keys ensures over(longer) == Ok(true) {
      if v in longer {
        WholeRun(all, kept, longer, v);
      } else {
        assert NewestRun(all - {v}, kept, longer);
      }
    }
  }

  lemma RestIsRun(all: Entries, kept: Text, v: Text)
    requires First(all, kept, v) && kept in all
    ensures NewestRun(all, kept, all - {v})
  {
  }

  /** Eviction stops at the longest acceptable run. */
  lemma {:induction false} EvictKeepsLongest(over: Gauge, eviction: Eviction, all: Entries, kept: Text)
    requires Distinct(all) && kept in all && Evict(over, eviction, all, kept).Ok?
    ensures Longest(over, all, kept, Evict(over, eviction, all, kept).value)
    decreases |all|
  {
    hide First, Longest;
    if over(all) == Ok(false) {
      EverythingLongest(over, all, kept);
    } else {
      var v := Oldest(all, kept).value;
      RemovedSmaller(all, v);
      OldestIsFirst(all, kept);
      EvictKeepsLongest(over, eviction, all - {v}, kept);
      LongestOfRest(over, all, kept, v, Evict(over, eviction, all - {v}, kept).value);
    }
  }

  lemma EverythingLongest(over: Gauge, all: Entries, kept: Text)
    requires kept in all && over(all) == Ok(false)
    ensures Longest(over, all, kept, all)
  {
  }

  /** A run that still has the oldest entry is everything. */
  lemma WholeRun(all: Entries, kept: Text, run: Entries, v: Text)
    requires NewestRun(all, kept, run) && v in run && First(all, kept, v)
    ensures run == all
  {
    forall k | k in all ensures k in run {
    }
    assert run.Keys == all.Keys;
  }

  /** Whatever survives the removal of entries survives eviction. */
  lemma {:induction false} EvictPreserves(over: Gauge, eviction: Eviction, all: Entries, kept: Text, good: Gauge)
    requires Evict(over, eviction, all, kept).Ok? && good(all) == Ok(false)
    requires forall es: Entries, k :: k in es && good(es) == Ok(false) ==> good(es - {k}) == Ok(false)
    ensures good(Evict(over, eviction, all, kept).value) == Ok(false)
    decreases |all|
  {
    if over(all) != Ok(false) {
      var v := Oldest(all, kept).value;
      RemovedSmaller(all, v);
      EvictPreserves(over, eviction, all - {v}, kept, good);
    }
  }

  /** Of two runs of the same entries, one contains the other. */
  lemma RunsNest(all: Entries, kept: Text, p: Entries, q: Entries)
    requires NewestRun(all, kept, p) && NewestRun(all, kept, q)
    ensures p.Keys <= q.Keys || q.Keys <= p.Keys
  {
    forall a, b | a in p && b in q ensures a in q || b in p {
    }
  }

  lemma RunOfRun(all: Entries, kept: Text, outer: Entries, inner: Entries)
    requires NewestRun(all, kept, outer) && NewestRun(outer, kept, inner)
    ensures NewestRun(all, kept, inner)
  {
    forall a, b | a in inner && a != kept && b in all && b !in inner ensures all[b].sequence < all[a].sequence {
      if b in outer {
        assert outer[b].sequence < outer[a].sequence;
      }
    }
  }

  lemma RunWithin(all: Entries, kept: Text, outer: Entries, inner: Entries)
    requires NewestRun(all, kept, outer) && NewestRun(all, kept, inner) && inner.Keys <= outer.Keys
    ensures NewestRun(outer, kept, inner)
  {
    forall k | k in inner ensures k in outer && inner[k] == outer[k] {
    }
    forall a, b | a in inner && a != kept && b in outer && b !in inner ensures outer[b].sequence < outer[a].sequence {
      assert all[b].sequence < all[a].sequence;
    }
  }

  // ---------------------------------------------------------------- sizes shrink

  /** A parent that encodes has children that encode. */
  lemma ChildEncodes(m: map<Text, Value>, k: Text)
    requires Encode(Dict(m)).Ok? && k in m
    ensures Encode(m[k]).Ok?
  {
    hide Encode, EncodeEntry, EncodeEntries, Lex.Sorted;
    CodecSizes.DictBody(m);
    CodecSizes.EntrySplits(m, m.Keys, k);
    CodecSizes.EntryCost(m, k);
  }

  /** `small` encodes whenever `large` does, and never to more bytes. */
  ghost predicate Lighter(small: Value, large: Value) {
    Encode(large).Ok? ==> Encode(small).Ok? && |Encode(small).value| <= |Encode(large).value|
  }

  /** Making one value of a dictionary lighter makes the dictionary lighter. */
  lemma LighterInside(m: map<Text, Value>, k: Text, v: Value)
    requires k in m && Lighter(v, m[k])
    ensures Lighter(Dict(m[k := v]), Dict(m))
  {
    hide Encode;
    if Encode(Dict(m)).Ok? {
      ChildEncodes(m, k);
      CodecSizes.ReplaceShrinks(m, k, v);
    }
  }

  lemma EntriesLighter(es: Entries, k: Text)
    requires k in es
    ensures Lighter(Dict(EntryValues(es - {k})), Dict(EntryValues(es)))
  {
    hide Encode, EntryValue;
    var m := EntryValues(es);
    assert EntryValues(es - {k}) == m - {k};
    if Encode(Dict(m)).Ok? {
      CodecSizes.RemoveShrinks(m, k);
    }
  }

  lemma SpaceFromEntries(a: Entries, b: Entries)
    requires Lighter(Dict(EntryValues(a)), Dict(EntryValues(b)))
    ensures Lighter(SpaceValue(a), SpaceValue(b))
  {
    hide Encode, EntryValues, Lighter;
    var m := map[Word("entries") := Dict(EntryValues(b))];
    LighterInside(m, Word("entries"), Dict(EntryValues(a)));
    assert m[Word("entries") := Dict(EntryValues(a))] == map[Word("entries") := Dict(EntryValues(a))];
  }

  /** Two sessions that differ in one namespace, lighter in the first, have documents to match. */
  lemma DocumentFromSpace(ps: Policies, s: Session, ns: Text, a: Entries, b: Entries)
    requires Lighter(SpaceValue(a), SpaceValue(b))
    ensures Lighter(Dict(DocumentOf(ps, s.(spaces := s.spaces[ns := a]))),
      Dict(DocumentOf(ps, s.(spaces := s.spaces[ns := b]))))
  {
    hide Encode, SpaceValue, Lighter;
    var p, q := s.spaces[ns := a], s.spaces[ns := b];
    LighterInside(SpaceValues(q), ns, SpaceValue(a));
    assert SpaceValues(q)[ns := SpaceValue(a)] == SpaceValues(p);
    var root, key := RootEntries(ps, s.next, q), Word("namespaces");
    NamespacesEntry(ps, s.next, p, q);
    LighterInside(root, key, Dict(SpaceValues(p)));
    var doc := DocumentOf(ps, s.(spaces := q));
    LighterInside(doc, ROOT_KEY, Dict(RootEntries(ps, s.next, p)));
    assert doc[ROOT_KEY := Dict(RootEntries(ps, s.next, p))] == DocumentOf(ps, s.(spaces := p));
  }

  lemma NamespacesEntry(ps: Policies, next: nat, p: map<Text, Entries>, q: map<Text, Entries>)
    ensures var root := RootEntries(ps, next, q);
      && Word("namespaces") in root && root[Word("namespaces")] == Dict(SpaceValues(q))
      && root[Word("namespaces") := Dict(SpaceValues(p))] == RootEntries(ps, next, p)
  {
    hide SpaceValues, PolicyValue;
    var n := Word("namespaces");
    assert |n| == 10 && |Word("version")| == 7 && |Word("next_sequence")| == 13 && |Word("policies")| == 8;
  }

  /** Staying within the namespace quota survives the removal of any entry. */
  lemma SpaceGaugeShrinks(p: Policy, es: Entries, k: Text)
    requires k in es && SpaceGauge(p)(es) == Ok(false)
    ensures SpaceGauge(p)(es - {k}) == Ok(false)
  {
    hide Encode, SpaceValue;
    RemovedSmaller(es, k);
    EntriesLighter(es, k);
    SpaceFromEntries(es - {k}, es);
  }

  // ---------------------------------------------------------------- what a set keeps

  /** The entries the namespace would have with no limits. */
  function Added(s: Session, ns: Text, key: Text, value: Value): (es: Entries)
    requires ns in s.spaces
  {
    s.spaces[ns][key := Entry(s.next, value)]
  }

  /** All limits at once: entry count, namespace bytes, and document bytes. */
  ghost predicate Acceptable(ps: Policies, capacity: nat, s: Session, ns: Text, es: Entries)
    requires ns in ps
  {
    SpaceGauge(ps[ns])(es) == Ok(false) && DocumentGauge(ps, s.(next := s.next + 1), ns, capacity)(es) == Ok(false)
  }

  /** That is: no more entries than the policy says, no more encoded bytes, and a document that can be
      written into the region, header and all, under any generation. */
  lemma AcceptableExactlyWhen(ps: Policies, capacity: nat, s: Session, ns: Text, es: Entries, sha: Hash, g: nat)
    requires ns in ps && g < U64
    ensures var document := DocumentOf(ps, Session(s.next + 1, s.spaces[ns := es], s.others));
      Acceptable(ps, capacity, s, ns, es) <==>
        && |es| <= ps[ns].maxEntries
        && Encode(SpaceValue(es)).Ok? && |Encode(SpaceValue(es)).value| <= ps[ns].maxBytes
        && Document.EncodeDocument(capacity, sha, document, g).Ok?
  {
    hide *;
    AcceptableMeans(ps, capacity, s, ns, es);
    SpaceFitsExactlyWhen(ps[ns], es);
    DocumentFitsExactlyWhen(ps, capacity, Session(s.next + 1, s.spaces[ns := es], s.others), sha, g);
  }

  lemma AcceptableMeans(ps: Policies, capacity: nat, s: Session, ns: Text, es: Entries)
    requires ns in ps
    ensures var size := DocumentSize(ps, Session(s.next + 1, s.spaces[ns := es], s.others));
      Acceptable(ps, capacity, s, ns, es) <==> OverSpace(ps[ns], es) == Ok(false) && size.Ok? && size.value <= capacity
  {
    hide OverSpace, DocumentSize;
  }

  lemma SpaceFitsExactlyWhen(p: Policy, es: Entries)
    ensures OverSpace(p, es) == Ok(false) <==>
      |es| <= p.maxEntries && Encode(SpaceValue(es)).Ok? && |Encode(SpaceValue(es)).value| <= p.maxBytes
  {
    hide Encode, SpaceValue;
  }

  lemma DocumentFitsExactlyWhen(ps: Policies, capacity: nat, s: Session, sha: Hash, g: nat)
    requires g < U64
    ensures var size := DocumentSize(ps, s);
      size.Ok? && size.value <= capacity <==> Document.EncodeDocument(capacity, sha, DocumentOf(ps, s), g).Ok?
  {
    hide Encode, DocumentOf, Document.HeaderBytes;
  }

  ghost predicate Numbered(s: Session) {
    && (forall n, k :: n in s.spaces && k in s.spaces[n] ==> s.spaces[n][k].sequence < s.next)
    && (forall n, k, n', k' ::
          n in s.spaces && k in s.spaces[n] && n' in s.spaces && k' in s.spaces[n'] && (n, k) != (n', k') ==>
          s.spaces[n][k].sequence != s.spaces[n'][k'].sequence)
  }

  lemma AddedDistinct(s: Session, ns: Text, key: Text, value: Value)
    requires ns in s.spaces && Numbered(s)
    ensures Distinct(Added(s, ns, key, value))
  {
    var es, all := s.spaces[ns], Added(s, ns, key, value);
    forall a, b | a in all && b in all && a != b ensures all[a].sequence != all[b].sequence {
      assert a != key ==> es[a].sequence < s.next;
      assert b != key ==> es[b].sequence < s.next;
      assert a != key && b != key ==> (ns, a) != (ns, b) && es[a].sequence != es[b].sequence;
    }
  }

  /** The most that all limits allow: the new entry and the longest acceptable run of newest others. */
  ghost predicate KeepsLongest(ps: Policies, capacity: nat, s: Session, ns: Text, key: Text, all: Entries, run: Entries)
    requires ns in ps
  {
    && NewestRun(all, key, run) && Acceptable(ps, capacity, s, ns, run)
    && forall longer :: NewestRun(all, key, longer) && run.Keys < longer.Keys ==>
         !Acceptable(ps, capacity, s, ns, longer)
  }

  /** Only the one namespace, and the sequence counter, have changed. */
  ghost predicate OnlySpaceChanged(s: Session, t: Session, ns: Text) {
    && t.others == s.others && t.spaces.Keys == s.spaces.Keys
    && forall n :: n in s.spaces && n != ns ==> t.spaces[n] == s.spaces[n]
  }

  /** A successful set keeps the new entry and the longest run of newest others that meets the
      entry count, the namespace bytes and the document bytes at once, numbers the new entry with
      the next sequence, and leaves every other namespace and everything beside them alone. */
  lemma SetKeepsLongestRun(ps: Policies, capacity: nat, s: Session, ns: Text, key: Text, value: Value, t: Session)
    requires ns in ps && ns in s.spaces && Numbered(s) && Set(ps, capacity, s, ns, key, value) == Ok(t)
    ensures OnlySpaceChanged(s, t, ns) && t.next == s.next + 1 && ns in t.spaces
    ensures key in t.spaces[ns] && t.spaces[ns][key] == Entry(s.next, value)
    ensures KeepsLongest(ps, capacity, s, ns, key, Added(s, ns, key, value), t.spaces[ns])
  {
    hide Evict, SpaceGauge, DocumentGauge, Numbered, Distinct, KeepsLongest, Longest;
    var all := Added(s, ns, key, value);
    var t1 := s.(next := s.next + 1);
    var d, ev := DocumentGauge(ps, t1, ns, capacity), ps[ns].eviction;
    AddedDistinct(s, ns, key, value);
    var trimmed := Evict(SpaceGauge(ps[ns]), ev, all, key).value;
    TwoEvictions(SpaceGauge(ps[ns]), d, ev, ps[ns], all, key);
    BothLongest(ps, capacity, s, ns, key, all, trimmed, t.spaces[ns]);
    hide *;
    LongestKeepsNew(ps, capacity, s, ns, key, all, t.spaces[ns]);
  }

  lemma LongestKeepsNew(ps: Policies, capacity: nat, s: Session, ns: Text, key: Text, all: Entries, run: Entries)
    requires ns in ps && KeepsLongest(ps, capacity, s, ns, key, all, run)
    ensures key in run && key in all && run[key] == all[key]
  {
    hide Acceptable;
  }

  /** The two passes of a set, in order. */
  lemma TwoEvictions(g: Gauge, d: Gauge, ev: Eviction, p: Policy, all: Entries, key: Text)
    requires g == SpaceGauge(p) && Distinct(all) && key in all && Evict(g, ev, all, key).Ok?
    requires Evict(d, ev, Evict(g, ev, all, key).value, key).Ok?
    ensures var trimmed := Evict(g, ev, all, key).value; var fitted := Evict(d, ev, trimmed, key).value;
      Longest(g, all, key, trimmed) && Longest(d, trimmed, key, fitted) && g(fitted) == Ok(false)
  {
    hide Evict, SpaceGauge, Distinct, NewestRun;
    var trimmed := Evict(g, ev, all, key).value;
    EvictKeepsLongest(g, ev, all, key);
    RunDistinct(all, key, trimmed);
    EvictKeepsLongest(d, ev, trimmed, key);
    forall es: Entries, k | k in es && g(es) == Ok(false) ensures g(es - {k}) == Ok(false) {
      SpaceGaugeShrinks(p, es, k);
    }
    EvictPreserves(d, ev, trimmed, key, g);
  }

  lemma BothLongest(ps: Policies, capacity: nat, s: Session, ns: Text, key: Text, all: Entries, trimmed: Entries,
                    fitted: Entries)
    requires ns in ps && Longest(SpaceGauge(ps[ns]), all, key, trimmed)
    requires Longest(DocumentGauge(ps, s.(next := s.next + 1), ns, capacity), trimmed, key, fitted)
    requires SpaceGauge(ps[ns])(fitted) == Ok(false)
    ensures KeepsLongest(ps, capacity, s, ns, key, all, fitted)
  {
    hide NewestRun, SpaceGauge, DocumentGauge;
    RunOfRun(all, key, trimmed, fitted);
    forall longer | NewestRun(all, key, longer) && fitted.Keys < longer.Keys
      ensures !Acceptable(ps, capacity, s, ns, longer) {
      RunsNest(all, key, trimmed, longer);
      if longer.Keys <= trimmed.Keys {
        RunWithin(all, key, trimmed, longer);
      } else {
        assert trimmed.Keys < longer.Keys;
      }
    }
  }

  lemma RunDistinct(all: Entries, kept: Text, run: Entries)
    requires Distinct(all) && NewestRun(all, kept, run)
    ensures Distinct(run) && kept in run && run[kept] == all[kept]
  {
  }

  // ---------------------------------------------------------------- when a set succeeds

  /** `over` is defined on `fine` entries, and both it and `fine` survive the removal of entries. */
  ghost predicate Shrinking(over: Gauge, fine: Entries -> bool) {
    && (forall es: Entries :: fine(es) ==> over(es).Ok?)
    && (forall es: Entries, k :: k in es && fine(es) ==> fine(es - {k}))
    && (forall es: Entries, k :: k in es && fine(es) && over(es) == Ok(false) ==> over(es - {k}) == Ok(false))
  }

  lemma {:induction false} EvictSucceeds(over: Gauge, fine: Entries -> bool, es: Entries, kept: Text)
    requires Shrinking(over, fine) && fine(es) && kept in es
    ensures Evict(over, Fifo, es, kept).Ok? <==> over(map[kept := es[kept]]) == Ok(false)
    ensures var r := Evict(over, Fifo, es, kept);
      r.Ok? ==> fine(r.value) && kept in r.value && r.value[kept] == es[kept]
    decreases |es|
  {
    if over(es) == Ok(false) {
      AloneFits(over, fine, es, kept);
    } else if Oldest(es, kept).Some? {
      var v := Oldest(es, kept).value;
      RemovedSmaller(es, v);
      EvictSucceeds(over, fine, es - {v}, kept);
    } else {
      assert es == map[kept := es[kept]];
    }
  }

  lemma {:induction false} AloneFits(over: Gauge, fine: Entries -> bool, es: Entries, kept: Text)
    requires Shrinking(over, fine) && fine(es) && kept in es && over(es) == Ok(false)
    ensures over(map[kept := es[kept]]) == Ok(false)
    decreases |es|
  {
    if k :| k in es && k != kept {
      RemovedSmaller(es, k);
      AloneFits(over, fine, es - {k}, kept);
    } else {
      assert es == map[kept := es[kept]];
    }
  }

  /** The document encodes with these entries in the namespace. */
  ghost predicate Encodes(ps: Policies, s: Session, ns: Text, es: Entries) {
    DocumentSize(ps, s.(spaces := s.spaces[ns := es])).Ok?
  }

  ghost function Encoding(ps: Policies, s: Session, ns: Text): (fine: Entries -> bool) {
    es => Encodes(ps, s, ns, es)
  }

  lemma SpaceEncodes(ps: Policies, s: Session, ns: Text, es: Entries)
    requires Encodes(ps, s, ns, es)
    ensures SpaceSize(es).Ok?
  {
    hide Encode, SpaceValue, PolicyValue;
    var q := s.spaces[ns := es];
    NamespacesEntry(ps, s.next, q, q);
    ChildEncodes(DocumentOf(ps, s.(spaces := q)), ROOT_KEY);
    ChildEncodes(RootEntries(ps, s.next, q), Word("namespaces"));
    ChildEncodes(SpaceValues(q), ns);
  }

  lemma RemovalLightens(ps: Policies, s: Session, ns: Text, es: Entries, k: Text)
    requires k in es
    ensures Lighter(SpaceValue(es - {k}), SpaceValue(es))
    ensures Lighter(Dict(DocumentOf(ps, s.(spaces := s.spaces[ns := es - {k}]))),
      Dict(DocumentOf(ps, s.(spaces := s.spaces[ns := es]))))
  {
    hide Encode, SpaceValue, Lighter, DocumentOf;
    EntriesLighter(es, k);
    SpaceFromEntries(es - {k}, es);
    DocumentFromSpace(ps, s, ns, es - {k}, es);
  }

  lemma SpaceShrinking(ps: Policies, s: Session, ns: Text)
    requires ns in ps
    ensures Shrinking(SpaceGauge(ps[ns]), Encoding(ps, s, ns))
  {
    hide Encode, SpaceValue, DocumentOf;
    forall es: Entries | Encodes(ps, s, ns, es) ensures OverSpace(ps[ns], es).Ok? {
      SpaceEncodes(ps, s, ns, es);
    }
    forall es: Entries, k | k in es ensures Encodes(ps, s, ns, es) ==> Encodes(ps, s, ns, es - {k}) {
      RemovalLightens(ps, s, ns, es, k);
    }
    forall es: Entries, k | k in es && SpaceGauge(ps[ns])(es) == Ok(false)
      ensures SpaceGauge(ps[ns])(es - {k}) == Ok(false) {
      SpaceGaugeShrinks(ps[ns], es, k);
    }
  }

  lemma DocumentShrinking(ps: Policies, s: Session, ns: Text, capacity: nat)
    ensures Shrinking(DocumentGauge(ps, s, ns, capacity), Encoding(ps, s, ns))
  {
    hide Encode, SpaceValue, DocumentOf;
    forall es: Entries, k | k in es
      ensures Encodes(ps, s, ns, es) ==> Encodes(ps, s, ns, es - {k})
      ensures OverDocument(ps, s, ns, capacity, es) == Ok(false) ==>
        OverDocument(ps, s, ns, capacity, es - {k}) == Ok(false)
    {
      RemovalLightens(ps, s, ns, es, k);
    }
  }

  /** With everything encodable, a first-in-first-out namespace takes a value exactly when that
      value would be acceptable as its only entry; a rejecting one, exactly when nothing has to go. */
  lemma SetSucceedsWhen(ps: Policies, capacity: nat, s: Session, ns: Text, key: Text, value: Value)
    requires ns in ps && ns in s.spaces && Encodes(ps, s.(next := s.next + 1), ns, Added(s, ns, key, value))
    ensures Set(ps, capacity, s, ns, key, value).Ok? <==>
      Acceptable(ps, capacity, s, ns,
                 if ps[ns].eviction.Fifo? then map[key := Entry(s.next, value)] else Added(s, ns, key, value))
  {
    hide Evict, Set, SpaceGauge, DocumentGauge, Shrinking, Encodes, Encoding, BothPass;
    var all, t := Added(s, ns, key, value), s.(next := s.next + 1);
    var g, d := SpaceGauge(ps[ns]), DocumentGauge(ps, t, ns, capacity);
    SetPasses(ps, capacity, s, ns, key, value);
    if ps[ns].eviction.Fifo? {
      SpaceShrinking(ps, t, ns);
      DocumentShrinking(ps, t, ns, capacity);
      EncodingMeans(ps, t, ns, all);
      FifoSucceeds(g, d, Encoding(ps, t, ns), all, key);
    } else {
      RejectSucceeds(g, d, all, key);
    }
  }

  lemma EncodingMeans(ps: Policies, s: Session, ns: Text, es: Entries)
    ensures Encoding(ps, s, ns)(es) == Encodes(ps, s, ns, es)
  {
  }

  lemma SetPasses(ps: Policies, capacity: nat, s: Session, ns: Text, key: Text, value: Value)
    requires ns in ps && ns in s.spaces
    ensures Set(ps, capacity, s, ns, key, value).Ok? <==>
      BothPass(SpaceGauge(ps[ns]), DocumentGauge(ps, s.(next := s.next + 1), ns, capacity), ps[ns].eviction,
        Added(s, ns, key, value), key)
  {
    hide Evict, SpaceGauge, DocumentGauge;
  }

  /** Both passes succeed. */
  ghost predicate BothPass(g: Gauge, d: Gauge, eviction: Eviction, all: Entries, key: Text) {
    Evict(g, eviction, all, key).Ok? && Evict(d, eviction, Evict(g, eviction, all, key).value, key).Ok?
  }

  lemma FifoSucceeds(g: Gauge, d: Gauge, fine: Entries -> bool, all: Entries, key: Text)
    requires Shrinking(g, fine) && Shrinking(d, fine) && fine(all) && key in all
    ensures var alone := map[key := all[key]];
      BothPass(g, d, Fifo, all, key) <==> g(alone) == Ok(false) && d(alone) == Ok(false)
  {
    hide Evict, Shrinking;
    EvictSucceeds(g, fine, all, key);
    if Evict(g, Fifo, all, key).Ok? {
      EvictSucceeds(d, fine, Evict(g, Fifo, all, key).value, key);
    }
  }

  lemma RejectSucceeds(g: Gauge, d: Gauge, all: Entries, key: Text)
    ensures BothPass(g, d, Reject, all, key) <==> g(all) == Ok(false) && d(all) == Ok(false)
  {
  }

  /** A rejecting namespace never loses an entry to a set: this is why the tool gateway insists on
      one for its intents and results. */
  lemma RejectNeverEvicts(ps: Policies, capacity: nat, s: Session, ns: Text, key: Text, value: Value, t: Session)
    requires ns in ps && ns in s.spaces && ps[ns].eviction.Reject? && Set(ps, capacity, s, ns, key, value) == Ok(t)
    ensures ns in t.spaces && t.spaces[ns] == Added(s, ns, key, value)
  {
    hide SpaceGauge, DocumentGauge;
    var g, d := SpaceGauge(ps[ns]), DocumentGauge(ps, s.(next := s.next + 1), ns, capacity);
    NothingEvicted(g, Added(s, ns, key, value), key);
    NothingEvicted(d, Added(s, ns, key, value), key);
    hide Evict;
  }

  lemma NothingEvicted(over: Gauge, es: Entries, kept: Text)
    ensures var r := Evict(over, Reject, es, kept); r.Ok? ==> r.value == es
  {
  }
}
