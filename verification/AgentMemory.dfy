/** Namespaced agent memory with quotas (`zdx_agent_memory_manager.py`): what each operation does to
    the session document. */
module AgentMemory {
  import opened Basics
  import opened Codec
  import Document
  import Lex

  datatype Eviction = Reject | Fifo

  datatype Policy = Policy(maxBytes: int, maxEntries: int, eviction: Eviction)

  /** What the constructor of a policy asks for. */
  predicate PolicyAllowed(p: Policy) {
    p.maxBytes >= 64 && p.maxEntries >= 1
  }

  datatype Entry = Entry(sequence: nat, value: Value)

  type Entries = map<Text, Entry>
  type Policies = map<Text, Policy>

  /** The session document: the namespaced memory and everything stored beside it. */
  datatype Session = Session(next: nat, spaces: map<Text, Entries>, others: map<Text, Value>)

  datatype MemoryError = UnknownNamespace | BadKey | QuotaExceeded | Unencodable(why: CodecError)

  // ---------------------------------------------------------------- encoded sizes

  function EntryValue(e: Entry): (v: Value) {
    Dict(map[Word("sequence") := Int(e.sequence), Word("value") := e.value])
  }

  function EntryValues(es: Entries): (m: map<Text, Value>) {
    map k | k in es :: EntryValue(es[k])
  }

  function SpaceValue(es: Entries): (v: Value) {
    Dict(map[Word("entries") := Dict(EntryValues(es))])
  }

  function PolicyValue(p: Policy): (v: Value) {
    Dict(map[Word("max_bytes") := Int(p.maxBytes), Word("max_entries") := Int(p.maxEntries),
             Word("eviction") := Str(Word(if p.eviction.Fifo? then "fifo" else "reject"))])
  }

  function SpaceValues(spaces: map<Text, Entries>): (m: map<Text, Value>) {
    map n | n in spaces :: SpaceValue(spaces[n])
  }

  function RootEntries(ps: Policies, next: nat, spaces: map<Text, Entries>): (m: map<Text, Value>) {
    map[Word("version") := Int(1), Word("next_sequence") := Int(next),
        Word("policies") := Dict(map n | n in ps :: PolicyValue(ps[n])),
        Word("namespaces") := Dict(SpaceValues(spaces))]
  }

  const ROOT_KEY: Text := Word("agent_memory_namespaces")

  function DocumentOf(ps: Policies, s: Session): (m: map<Text, Value>) {
    s.others[ROOT_KEY := Dict(RootEntries(ps, s.next, s.spaces))]
  }

  function SizeOf(v: Value): (r: Result<nat, MemoryError>) {
    var e := Encode(v);
    if e.Err? then Err(Unencodable(e.error)) else Ok(|e.value|)
  }

  function SpaceSize(es: Entries): (r: Result<nat, MemoryError>) {
    SizeOf(SpaceValue(es))
  }

  /** `estimate_document_size`. */
  function DocumentSize(ps: Policies, s: Session): (r: Result<nat, MemoryError>) {
    var n :- SizeOf(Dict(DocumentOf(ps, s)));
    Ok(Document.HEADER_SIZE + n)
  }

  // ---------------------------------------------------------------- eviction

  /** The sequence numbers of the entries other than `kept`. */
  function Sequences(es: Entries, kept: Text): (ages: map<Text, int>) {
    map k | k in es && k != kept :: es[k].sequence
  }

  /** `_oldest_key`. */
  function Oldest(es: Entries, kept: Text): (r: Option<Text>)
    ensures r.Some? ==> r.value in es && r.value != kept
    ensures r.None? <==> forall k :: k in es ==> k == kept
  {
    var ages := Sequences(es, kept);
    Lex.PlacesNamed(ages);
    if ages == map[] then assert forall k :: k in es && k != kept ==> k in ages; None
    else Some(Lex.Name(Lex.Least(Lex.Places(ages))))
  }

  /** The namespace is over its entry count or byte quota. */
  function OverSpace(p: Policy, es: Entries): (r: Result<bool, MemoryError>) {
    if |es| > p.maxEntries then Ok(true) else
      var n :- SpaceSize(es);
      Ok(n > p.maxBytes)
  }

  /** The document with this namespace would not fit its region. */
  function OverDocument(ps: Policies, s: Session, ns: Text, capacity: nat,
                        es: Entries): (r: Result<bool, MemoryError>) {
    var n :- DocumentSize(ps, s.(spaces := s.spaces[ns := es]));
    Ok(n > capacity)
  }

  /** A test that says whether some entries are still too much. */
  type Gauge = Entries -> Result<bool, MemoryError>

  function SpaceGauge(p: Policy): (g: Gauge) {
    es => OverSpace(p, es)
  }

  function DocumentGauge(ps: Policies, s: Session, ns: Text, capacity: nat): (g: Gauge) {
    es => OverDocument(ps, s, ns, capacity, es)
  }

  /** Evict the oldest other entries while `over` says so. */
  function Evict(over: Gauge, eviction: Eviction, es: Entries, kept: Text)
    : (r: Result<Entries, MemoryError>)
    decreases |es|
  {
    var excess :- over(es);
    if !excess then Ok(es)
    else if eviction.Reject? then Err(QuotaExceeded)
    else
      var victim := Oldest(es, kept);
      if victim.None? then Err(QuotaExceeded) else
        RemovedSmaller(es, victim.value);
        Evict(over, eviction, es - {victim.value}, kept)
  }

  // ---------------------------------------------------------------- operations

  /** The root a new manager installs: every namespace empty, numbers from one. */
  function FreshSession(ps: Policies, others: map<Text, Value>): (s: Session) {
    Session(1, map n | n in ps :: map[], others)
  }

  /** Installing it fails if the document would not fit. */
  function Install(ps: Policies, capacity: nat, others: map<Text, Value>): (r: Result<Session, MemoryError>) {
    var size :- DocumentSize(ps, FreshSession(ps, others));
    if size > capacity then Err(QuotaExceeded) else Ok(FreshSession(ps, others))
  }

  /** `_set_locked`: a failure is reported without a new session, so nothing changes. */
  function Set(ps: Policies, capacity: nat, s: Session, ns: Text, key: Text,
               value: Value): (r: Result<Session, MemoryError>)
    requires ns in ps && ns in s.spaces
  {
    var added := s.spaces[ns][key := Entry(s.next, value)];
    var t := s.(next := s.next + 1);
    var trimmed :- Evict(SpaceGauge(ps[ns]), ps[ns].eviction, added, key);
    var fitted :- Evict(DocumentGauge(ps, t, ns, capacity), ps[ns].eviction, trimmed, key);
    Ok(t.(spaces := t.spaces[ns := fitted]))
  }

  lemma SetKeepsSpaces(ps: Policies, capacity: nat, s: Session, ns: Text, key: Text, value: Value)
    requires ns in ps && ns in s.spaces
    ensures var r := Set(ps, capacity, s, ns, key, value); r.Ok? ==> r.value.spaces.Keys == s.spaces.Keys
  {
    hide Evict, SpaceGauge, DocumentGauge;
  }

  const APPEND_PREFIX: Text := Word("_append/")

  /** `[A-Za-z0-9_.:/-]{1,160}`. */
  predicate KeyAllowed(key: Text) {
    1 <= |key| <= 160 && forall i :: 0 <= i < |key| ==> KeyCharacter(key[i])
  }

  predicate KeyCharacter(c: int) {
    || 'A' as int <= c <= 'Z' as int || 'a' as int <= c <= 'z' as int || '0' as int <= c <= '9' as int
    || c in Word("_.:/-")
  }

  function HexDigit(d: nat): (c: int)
    requires d < 16
  {
    if d < 10 then '0' as int + d else 'a' as int + d - 10
  }

  /** `{n:016x}`: at least `width` lower-case hexadecimal digits. */
  function Hex(n: nat, width: nat): (t: Text)
    decreases n, width
  {
    if n == 0 && width == 0 then [] else Hex(n / 16, if width == 0 then 0 else width - 1) + [HexDigit(n % 16)]
  }

  function AppendKey(sequence: nat): (key: Text) {
    APPEND_PREFIX + Hex(sequence, 16)
  }

  /** A `set` from outside: the namespace and the key are checked first. */
  function SetChecked(ps: Policies, capacity: nat, s: Session, ns: Text, key: Text,
                      value: Value): (r: Result<Session, MemoryError>)
    requires ps.Keys == s.spaces.Keys
  {
    if ns !in ps then Err(UnknownNamespace)
    else if !KeyAllowed(key) || APPEND_PREFIX <= key then Err(BadKey)
    else Set(ps, capacity, s, ns, key, value)
  }

  function AppendChecked(ps: Policies, capacity: nat, s: Session, ns: Text,
                         value: Value): (r: Result<Session, MemoryError>)
    requires ps.Keys == s.spaces.Keys
  {
    if ns !in ps then Err(UnknownNamespace)
    else if AppendKey(s.next) in s.spaces[ns] then Err(BadKey)
    else Set(ps, capacity, s, ns, AppendKey(s.next), value)
  }

  function Delete(s: Session, ns: Text, key: Text): (t: Session)
    requires ns in s.spaces
  {
    s.(spaces := s.spaces[ns := s.spaces[ns] - {key}])
  }

  function Clear(s: Session, ns: Text): (t: Session)
    requires ns in s.spaces
  {
    s.(spaces := s.spaces[ns := map[]])
  }

  /** The entries `gone` of one namespace, and nothing else, have been removed. */
  ghost predicate Without(s: Session, t: Session, ns: Text, gone: Text -> bool) {
    && ns in s.spaces && t.spaces.Keys == s.spaces.Keys && t.next == s.next && t.others == s.others
    && (forall k :: k in t.spaces[ns] <==> k in s.spaces[ns] && !gone(k))
    && (forall k :: k in t.spaces[ns] ==> t.spaces[ns][k] == s.spaces[ns][k])
    && forall n :: n in s.spaces && n != ns ==> t.spaces[n] == s.spaces[n]
  }

  // ---------------------------------------------------------------- the manager

  class Manager {
    const policies: Policies
    const capacity: nat
    var session: Session

    ghost predicate Valid()
      reads this
    {
      policies.Keys == session.spaces.Keys
    }

    constructor (policies: Policies, capacity: nat, session: Session)
      requires policies.Keys == session.spaces.Keys
      ensures Valid() && this.policies == policies && this.capacity == capacity && this.session == session
    {
      this.policies, this.capacity, this.session := policies, capacity, session;
    }

    /** `_enforce_namespace` on a candidate's entries. */
    method EnforceNamespace(ns: Text, start: Entries, kept: Text) returns (r: Result<Entries, MemoryError>)
      requires ns in policies
      ensures r == Evict(SpaceGauge(policies[ns]), policies[ns].eviction, start, kept)
    {
      var p := policies[ns];
      var entries := start;
      var over := OverSpace(p, entries);
      while over == Ok(true)
        invariant over == OverSpace(p, entries)
        invariant Evict(SpaceGauge(policies[ns]), p.eviction, start, kept)
          == Evict(SpaceGauge(policies[ns]), p.eviction, entries, kept)
        decreases |entries|
      {
        if p.eviction.Reject? {
          return Err(QuotaExceeded);
        }
        var victim := Oldest(entries, kept);
        if victim.None? {
          return Err(QuotaExceeded);
        }
        RemovedSmaller(entries, victim.value);
        entries := entries - {victim.value};
        over := OverSpace(p, entries);
      }
      return if over.Err? then Err(over.error) else Ok(entries);
    }

    /** `_ensure_global_capacity_with_fifo` on a candidate session. */
    method EnforceDocument(t: Session, ns: Text, start: Entries, kept: Text) returns (r: Result<Entries, MemoryError>)
      requires ns in policies
      ensures r == Evict(DocumentGauge(policies, t, ns, capacity), policies[ns].eviction, start, kept)
    {
      var p := policies[ns];
      var entries := start;
      var over := OverDocument(policies, t, ns, capacity, entries);
      while over == Ok(true)
        invariant over == OverDocument(policies, t, ns, capacity, entries)
        invariant Evict(DocumentGauge(policies, t, ns, capacity), p.eviction, start, kept)
          == Evict(DocumentGauge(policies, t, ns, capacity), p.eviction, entries, kept)
        decreases |entries|
      {
        if p.eviction.Reject? {
          return Err(QuotaExceeded);
        }
        var victim := Oldest(entries, kept);
        if victim.None? {
          return Err(QuotaExceeded);
        }
        RemovedSmaller(entries, victim.value);
        entries := entries - {victim.value};
        over := OverDocument(policies, t, ns, capacity, entries);
      }
      return if over.Err? then Err(over.error) else Ok(entries);
    }

    /** `_set_locked` on a copy of the session. */
    method SetCandidate(ns: Text, key: Text, value: Value) returns (r: Result<Session, MemoryError>)
      requires Valid() && ns in policies
      ensures r == Set(policies, capacity, session, ns, key, value)
    {
      hide Evict, SpaceGauge, DocumentGauge;
      var added := session.spaces[ns][key := Entry(session.next, value)];
      var t := session.(next := session.next + 1);
      var trimmed := EnforceNamespace(ns, added, key);
      if trimmed.Err? {
        return Err(trimmed.error);
      }
      var fitted := EnforceDocument(t, ns, trimmed.value, key);
      if fitted.Err? {
        return Err(fitted.error);
      }
      return Ok(t.(spaces := t.spaces[ns := fitted.value]));
    }

    /** The session after `r`, and the error it reports. */
    ghost function Outcome(before: Session, r: Result<Session, MemoryError>): (after: (Session, Option<MemoryError>)) {
      match r
      case Ok(next) => (next, None)
      case Err(why) => (before, Some(why))
    }

    /** `set`. */
    method SetEntry(ns: Text, key: Text, value: Value) returns (e: Option<MemoryError>)
      requires Valid()
      modifies this`session
      ensures Valid()
      ensures (session, e) == Outcome(old(session), SetChecked(policies, capacity, old(session), ns, key, value))
    {
      if ns !in policies {
        return Some(UnknownNamespace);
      }
      if !KeyAllowed(key) || APPEND_PREFIX <= key {
        return Some(BadKey);
      }
      var r := SetCandidate(ns, key, value);
      SetKeepsSpaces(policies, capacity, session, ns, key, value);
      hide Set;
      if r.Err? {
        return Some(r.error);
      }
      session := r.value;
      e := None;
    }

    /** `append`: the key is generated from the sequence number. */
    method Append(ns: Text, value: Value) returns (r: Result<Text, MemoryError>)
      requires Valid()
      modifies this`session
      ensures Valid()
      ensures r.Ok? ==> r.value == AppendKey(old(session).next)
      ensures (session, if r.Ok? then None else Some(r.error))
        == Outcome(old(session), AppendChecked(policies, capacity, old(session), ns, value))
    {
      if ns !in policies {
        return Err(UnknownNamespace);
      }
      var key := AppendKey(session.next);
      if key in session.spaces[ns] {
        return Err(BadKey);
      }
      var s := SetCandidate(ns, key, value);
      SetKeepsSpaces(policies, capacity, session, ns, key, value);
      hide Set;
      if s.Err? {
        return Err(s.error);
      }
      session := s.value;
      r := Ok(key);
    }

    /** `delete`. */
    method DeleteEntry(ns: Text, key: Text) returns (r: Result<bool, MemoryError>)
      requires Valid()
      modifies this`session
      ensures Valid()
      ensures r == if ns !in policies then Err(UnknownNamespace) else if !KeyAllowed(key) then Err(BadKey)
                   else Ok(key in old(session).spaces[ns])
      ensures session == if r == Ok(true) then Delete(old(session), ns, key) else old(session)
      ensures r == Ok(true) ==> Without(old(session), session, ns, k => k == key)
    {
      if ns !in policies {
        return Err(UnknownNamespace);
      }
      if !KeyAllowed(key) {
        return Err(BadKey);
      }
      if key !in session.spaces[ns] {
        return Ok(false);
      }
      session := session.(spaces := session.spaces[ns := session.spaces[ns] - {key}]);
      r := Ok(true);
    }

    /** `clear`. */
    method ClearNamespace(ns: Text) returns (e: Option<MemoryError>)
      requires Valid()
      modifies this`session
      ensures Valid() && (e == if ns in policies then None else Some(UnknownNamespace))
      ensures session == if ns in policies then Clear(old(session), ns) else old(session)
      ensures ns in policies ==> Without(old(session), session, ns, k => true)
    {
      if ns !in policies {
        return Some(UnknownNamespace);
      }
      session := session.(spaces := session.spaces[ns := map[]]);
      e := None;
    }
  }
}
