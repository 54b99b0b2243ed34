/** Session establishment and replay protection on the coordinator's side
    (`zdx_session.py`, `zdx_network.py`). */
module Handshake {
  import opened Basics
  import Utf8

  type Text = Utf8.Text

  datatype Kind = Hello | Confirm | OtherKind

  /** A received message. `wellFormed` stands for the checks of its envelope, `genuine` for a matching
      checksum and a signature that verifies under a pinned key of the sender. */
  datatype Message = Message(
    kind: Kind, sender: Text, keyId: Text, sessionId: Text, sequence: int, nonce: Text, timestamp: real,
    clientChallenge: Option<Text>, serverChallenge: Option<Text>, wellFormed: bool, genuine: bool)

  datatype Session = Session(
    peer: Text, keyId: Text, expires: real, active: bool, lastSequence: nat, nextOutbound: nat, nonces: map<Text, real>)

  datatype Challenge = Challenge(peer: Text, challenge: Text, expires: real)

  datatype ProtocolError =
    | NotAuthentic | TimestampError | SessionError | IdentityError | SequenceError | NonceError | ChallengeError

  /** The registry's two tables and the coordinator's open challenges. */
  datatype State = State(sessions: map<Text, Session>, peers: map<Text, Text>, challenges: map<Text, Challenge>)

  const MAX_AGE: real := 60.0

  function Distance(a: real, b: real): (d: real) {
    if a < b then b - a else a - b
  }

  /** Everything checked before any session state is looked at. */
  function Inspect(m: Message, now: real): (e: Option<ProtocolError>) {
    if !m.wellFormed then Some(NotAuthentic)
    else if Distance(now, m.timestamp) > MAX_AGE then Some(TimestampError)
    else if !m.genuine then Some(NotAuthentic)
    else None
  }

  // ---------------------------------------------------------------- the registry

  function Establish(s: State, peer: Text, keyId: Text, expires: real, id: Text): (t: State) {
    var kept := if peer in s.peers then s.sessions - {s.peers[peer]} else s.sessions;
    s.(sessions := kept[id := Session(peer, keyId, expires, false, 0, 1, map[])], peers := s.peers[peer := id])
  }

  function Close(s: State, id: Text): (t: State) {
    if id !in s.sessions then s
    else
      var peer := s.sessions[id].peer;
      s.(sessions := s.sessions - {id}, peers := if peer in s.peers && s.peers[peer] == id then s.peers - {peer}
        else s.peers)
  }

  /** Whether closing the sessions `ids` takes this peer out of the peer table. */
  predicate Leaves(s: State, ids: set<Text>, peer: Text)
    requires peer in s.peers
  {
    var id := s.peers[peer];
    id in ids && id in s.sessions && s.sessions[id].peer == peer
  }

  /** Close all these sessions at once. */
  function CloseAll(s: State, ids: set<Text>): (t: State) {
    s.(sessions := s.sessions - ids, peers := map p | p in s.peers && !Leaves(s, ids, p) :: s.peers[p])
  }

  function Outdated(s: State, now: real): (ids: set<Text>) {
    set id | id in s.sessions && s.sessions[id].expires <= now
  }

  lemma CloseNone(s: State)
    ensures CloseAll(s, {}) == s
  {
    assert s.sessions - {} == s.sessions;
  }

  /** Closing one by one, in any order, comes to the same. */
  lemma CloseOneMore(s: State, ids: set<Text>, id: Text)
    requires id in s.sessions && id !in ids
    ensures Close(CloseAll(s, ids), id) == CloseAll(s, ids + {id})
  {
    assert s.sessions - ids - {id} == s.sessions - (ids + {id});
    assert Close(CloseAll(s, ids), id).peers == CloseAll(s, ids + {id}).peers;
  }

  function Get(s: State, id: Text, peer: Option<Text>, now: real,
               requireActive: bool): (r: (State, Result<Session, ProtocolError>)) {
    if id !in s.sessions then (s, Err(SessionError))
    else
      var session := s.sessions[id];
      if session.expires <= now then (Close(s, id), Err(SessionError))
      else if peer.Some? && session.peer != peer.value then (s, Err(IdentityError))
      else if requireActive && !session.active then (s, Err(SessionError))
      else (s, Ok(session))
  }

  function Activate(s: State, id: Text, peer: Text, now: real): (r: (State, Option<ProtocolError>)) {
    var (t, got) := Get(s, id, Some(peer), now, false);
    if got.Err? then (t, Some(got.error)) else (t.(sessions := t.sessions[id := got.value.(active := true)]), None)
  }

  function Recent(nonces: map<Text, real>, now: real): (m: map<Text, real>) {
    map n | n in nonces && nonces[n] >= now - MAX_AGE :: nonces[n]
  }

  /** `validate_replay`. */
  function ValidateReplay(s: State, m: Message, now: real): (r: (State, Option<ProtocolError>)) {
    var (t, got) := Get(s, m.sessionId, Some(m.sender), now, true);
    if got.Err? then (t, Some(got.error))
    else
      var session := got.value.(nonces := Recent(got.value.nonces, now));
      var pruned := t.(sessions := t.sessions[m.sessionId := session]);
      if m.nonce in session.nonces then (pruned, Some(NonceError))
      else if m.sequence != session.lastSequence + 1 then (pruned, Some(SequenceError))
      else
        var used := session.(nonces := session.nonces[m.nonce := m.timestamp], lastSequence := m.sequence);
        (pruned.(sessions := pruned.sessions[m.sessionId := used]), None)
  }

  /** A packet that must belong to a session. */
  function Accept(s: State, m: Message, now: real): (r: (State, Option<ProtocolError>)) {
    var e := Inspect(m, now);
    if e.Some? then (s, e) else ValidateReplay(s, m, now)
  }

  function NextSequence(s: State, id: Text, now: real): (r: (State, Result<nat, ProtocolError>)) {
    var (t, got) := Get(s, id, None, now, true);
    if got.Err? then (t, Err(got.error))
    else (t.(sessions := t.sessions[id := got.value.(nextOutbound := got.value.nextOutbound + 1)]),
      Ok(got.value.nextOutbound))
  }

  // ---------------------------------------------------------------- the coordinator

  function AcceptHello(s: State, m: Message, now: real, expires: real, id: Text,
                       challenge: Text): (r: (State, Option<ProtocolError>)) {
    if m.kind != Hello then (s, Some(NotAuthentic))
    else if Inspect(m, now).Some? then (s, Inspect(m, now))
    else if m.sessionId != [] || m.sequence != 0 then (s, Some(SessionError))
    else if m.clientChallenge.None? || |m.clientChallenge.value| < 32 then (s, Some(NotAuthentic))
    else
      var t := Establish(s, m.sender, m.keyId, expires, id);
      (t.(challenges := t.challenges[id := Challenge(m.sender, challenge, expires)]), None)
  }

  /** `accept_confirmation`; the clock is read again at each check. */
  function AcceptConfirmation(s: State, m: Message, now: real, later: real,
                              last: real): (r: (State, Option<ProtocolError>)) {
    if m.kind != Confirm then (s, Some(NotAuthentic))
    else if Inspect(m, now).Some? then (s, Inspect(m, now))
    else if m.sessionId !in s.challenges then (s, Some(SessionError))
    else
      var open := s.challenges[m.sessionId];
      if open.peer != m.sender then (s, Some(IdentityError))
      else if open.expires <= later then (Close(s.(challenges := s.challenges - {m.sessionId}), m.sessionId),
        Some(SessionError))
      else if m.sequence != 0 then (s, Some(SequenceError))
      else if m.serverChallenge != Some(open.challenge) then (s, Some(ChallengeError))
      else
        var (t, e) := Activate(s, m.sessionId, m.sender, last);
        if e.Some? then (t, e) else (t.(challenges := t.challenges - {m.sessionId}), None)
  }

  // ---------------------------------------------------------------- the tables

  /** The two tables are inverse to each other: one live session per peer. */
  ghost predicate Inverse(sessions: map<Text, Session>, peers: map<Text, Text>) {
    && (forall id :: id in sessions ==> sessions[id].peer in peers && peers[sessions[id].peer] == id)
    && (forall p :: p in peers ==> peers[p] in sessions && sessions[peers[p]].peer == p)
  }

  ghost predicate Inverted(s: State) {
    Inverse(s.sessions, s.peers)
  }

  lemma CloseInverse(s: State, id: Text)
    requires Inverted(s)
    ensures Inverted(Close(s, id))
  {
  }

  lemma EstablishInverse(s: State, peer: Text, keyId: Text, expires: real, id: Text)
    requires Inverted(s) && id !in s.sessions
    ensures Inverted(Establish(s, peer, keyId, expires, id))
  {
  }

  lemma CloseAllInverse(s: State, ids: set<Text>)
    requires Inverted(s)
    ensures Inverted(CloseAll(s, ids))
  {
  }

  /** Changing a session without its peer changes nothing here. */
  lemma UpdateInverse(s: State, id: Text, session: Session)
    requires Inverted(s) && id in s.sessions && session.peer == s.sessions[id].peer
    ensures Inverted(s.(sessions := s.sessions[id := session]))
  {
  }

  lemma GetInverse(s: State, id: Text, peer: Option<Text>, now: real, requireActive: bool)
    requires Inverted(s)
    ensures Inverted(Get(s, id, peer, now, requireActive).0)
  {
    CloseInverse(s, id);
    hide Inverse, Close;
  }

  lemma ActivateInverse(s: State, id: Text, peer: Text, now: real)
    requires Inverted(s)
    ensures Inverted(Activate(s, id, peer, now).0)
  {
    hide Inverted, Close;
    GetInverse(s, id, Some(peer), now, false);
    var (t, got) := Get(s, id, Some(peer), now, false);
    if got.Ok? {
      UpdateInverse(t, id, got.value.(active := true));
    }
  }

  lemma ReplayInverse(s: State, m: Message, now: real)
    requires Inverted(s)
    ensures Inverted(ValidateReplay(s, m, now).0)
  {
    hide Inverted, Close, Recent;
    GetInverse(s, m.sessionId, Some(m.sender), now, true);
    var (t, got) := Get(s, m.sessionId, Some(m.sender), now, true);
    if got.Ok? {
      var session := got.value.(nonces := Recent(got.value.nonces, now));
      UpdateInverse(t, m.sessionId, session);
      var pruned := t.(sessions := t.sessions[m.sessionId := session]);
      if m.sequence == session.lastSequence + 1 {
        UpdateInverse(pruned, m.sessionId,
          session.(nonces := session.nonces[m.nonce := m.timestamp], lastSequence := m.sequence));
      }
    }
  }

  lemma DrawInverse(s: State, id: Text, now: real)
    requires Inverted(s)
    ensures Inverted(NextSequence(s, id, now).0)
  {
    hide Inverted, Close;
    GetInverse(s, id, None, now, true);
    var (t, got) := Get(s, id, None, now, true);
    if got.Ok? {
      UpdateInverse(t, id, got.value.(nextOutbound := got.value.nextOutbound + 1));
    }
  }

  // ---------------------------------------------------------------- the objects

  class SessionRegistry {
    var sessions: map<Text, Session>
    var peers: map<Text, Text>

    constructor ()
      ensures sessions == map[] && peers == map[] && Valid()
    {
      sessions, peers := map[], map[];
    }

    ghost function View(challenges: map<Text, Challenge>): (s: State)
      reads this
    {
      State(sessions, peers, challenges)
    }

    /** One live session per peer. */
    ghost predicate Valid()
      reads this
    {
      Inverse(sessions, peers)
    }

    method EstablishSession(peer: Text, keyId: Text, expires: real, id: Text, ghost cs: map<Text, Challenge>)
      modifies this
      ensures View(cs) == Establish(old(View(cs)), peer, keyId, expires, id)
      ensures old(Valid()) && id !in old(sessions) ==> Valid()
    {
      if Valid() && id !in sessions {
        EstablishInverse(View(cs), peer, keyId, expires, id);
      }
      hide Inverse;
      if peer in peers {
        sessions := sessions - {peers[peer]};
      }
      sessions := sessions[id := Session(peer, keyId, expires, false, 0, 1, map[])];
      peers := peers[peer := id];
    }

    method CloseSession(id: Text, ghost cs: map<Text, Challenge>)
      modifies this
      ensures View(cs) == Close(old(View(cs)), id) && (old(Valid()) ==> Valid())
    {
      if Valid() {
        CloseInverse(View(cs), id);
      }
      hide Inverse;
      if id !in sessions {
        return;
      }
      var peer := sessions[id].peer;
      sessions := sessions - {id};
      if peer in peers && peers[peer] == id {
        peers := peers - {peer};
      }
    }

    /** `cleanup`: close what has expired, one session after another. */
    method Cleanup(now: real, ghost cs: map<Text, Challenge>) returns (n: nat)
      modifies this
      ensures View(cs) == CloseAll(old(View(cs)), Outdated(old(View(cs)), now)) && n == |Outdated(old(View(cs)), now)|
      ensures old(Valid()) ==> Valid()
    {
      if Valid() {
        CloseAllInverse(View(cs), Outdated(View(cs), now));
      }
      hide Close, CloseAll, Inverse;
      var todo := set id | id in sessions && sessions[id].expires <= now;
      ghost var all := Outdated(View(cs), now);
      n := |todo|;
      CloseNone(View(cs));
      assert todo == all && all - todo == {};
      while todo != {}
        invariant todo <= all && View(cs) == CloseAll(old(View(cs)), all - todo)
        decreases |todo|
      {
        var id :| id in todo;
        CloseOneMore(old(View(cs)), all - todo, id);
        CloseSession(id, cs);
        assert all - (todo - {id}) == (all - todo) + {id};
        todo := todo - {id};
      }
      assert all - todo == all;
    }

    method GetSession(id: Text, peer: Option<Text>, now: real, requireActive: bool, ghost cs: map<Text, Challenge>)
      returns (r: Result<Session, ProtocolError>)
      modifies this
      ensures (View(cs), r) == Get(old(View(cs)), id, peer, now, requireActive) && (old(Valid()) ==> Valid())
    {
      if Valid() {
        GetInverse(View(cs), id, peer, now, requireActive);
      }
      hide Inverse;
      if id !in sessions {
        return Err(SessionError);
      }
      var session := sessions[id];
      if session.expires <= now {
        CloseSession(id, cs);
        return Err(SessionError);
      }
      if peer.Some? && session.peer != peer.value {
        return Err(IdentityError);
      }
      if requireActive && !session.active {
        return Err(SessionError);
      }
      return Ok(session);
    }

    method ActivateSession(id: Text, peer: Text, now: real,
                           ghost cs: map<Text, Challenge>) returns (e: Option<ProtocolError>)
      modifies this
      ensures (View(cs), e) == Activate(old(View(cs)), id, peer, now) && (old(Valid()) ==> Valid())
    {
      if Valid() {
        ActivateInverse(View(cs), id, peer, now);
      }
      hide Inverse;
      var got := GetSession(id, Some(peer), now, false, cs);
      if got.Err? {
        return Some(got.error);
      }
      sessions := sessions[id := got.value.(active := true)];
      e := None;
    }

    method CheckReplay(m: Message, now: real, ghost cs: map<Text, Challenge>) returns (e: Option<ProtocolError>)
      modifies this
      ensures (View(cs), e) == ValidateReplay(old(View(cs)), m, now) && (old(Valid()) ==> Valid())
    {
      if Valid() {
        ReplayInverse(View(cs), m, now);
      }
      hide Inverse;
      var got := GetSession(m.sessionId, Some(m.sender), now, true, cs);
      if got.Err? {
        return Some(got.error);
      }
      var session := got.value.(nonces := Recent(got.value.nonces, now));
      sessions := sessions[m.sessionId := session];
      if m.nonce in session.nonces {
        return Some(NonceError);
      }
      if m.sequence != session.lastSequence + 1 {
        return Some(SequenceError);
      }
      sessions := sessions[m.sessionId := session.(nonces := session.nonces[m.nonce := m.timestamp],
        lastSequence := m.sequence)];
      e := None;
    }

    method DrawSequence(id: Text, now: real, ghost cs: map<Text, Challenge>) returns (r: Result<nat, ProtocolError>)
      modifies this
      ensures (View(cs), r) == NextSequence(old(View(cs)), id, now) && (old(Valid()) ==> Valid())
    {
      if Valid() {
        DrawInverse(View(cs), id, now);
      }
      hide Inverse;
      var got := GetSession(id, None, now, true, cs);
      if got.Err? {
        return Err(got.error);
      }
      sessions := sessions[id := got.value.(nextOutbound := got.value.nextOutbound + 1)];
      return Ok(got.value.nextOutbound);
    }
  }

  class SessionCoordinator {
    const registry: SessionRegistry
    var challenges: map<Text, Challenge>

    ghost function View(): (s: State)
      reads this, registry
    {
      registry.View(challenges)
    }

    constructor ()
      ensures fresh(registry) && View() == State(map[], map[], map[])
    {
      registry := new SessionRegistry();
      challenges := map[];
    }

    method ReceiveHello(m: Message, now: real, expires: real, id: Text,
                        challenge: Text) returns (e: Option<ProtocolError>)
      modifies this, registry
      ensures (View(), e) == AcceptHello(old(View()), m, now, expires, id, challenge)
    {
      if m.kind != Hello {
        return Some(NotAuthentic);
      }
      e := Inspect(m, now);
      if e.Some? {
        return;
      }
      if m.sessionId != [] || m.sequence != 0 {
        return Some(SessionError);
      }
      if m.clientChallenge.None? || |m.clientChallenge.value| < 32 {
        return Some(NotAuthentic);
      }
      registry.EstablishSession(m.sender, m.keyId, expires, id, challenges);
      challenges := challenges[id := Challenge(m.sender, challenge, expires)];
    }

    method ReceiveConfirmation(m: Message, now: real, later: real, last: real) returns (e: Option<ProtocolError>)
      modifies this, registry
      ensures (View(), e) == AcceptConfirmation(old(View()), m, now, later, last)
    {
      if m.kind != Confirm {
        return Some(NotAuthentic);
      }
      e := Inspect(m, now);
      if e.Some? {
        return;
      }
      if m.sessionId !in challenges {
        return Some(SessionError);
      }
      var open := challenges[m.sessionId];
      if open.peer != m.sender {
        return Some(IdentityError);
      }
      if open.expires <= later {
        challenges := challenges - {m.sessionId};
        registry.CloseSession(m.sessionId, challenges);
        return Some(SessionError);
      }
      if m.sequence != 0 {
        return Some(SequenceError);
      }
      if m.serverChallenge != Some(open.challenge) {
        return Some(ChallengeError);
      }
      e := registry.ActivateSession(m.sessionId, m.sender, last, challenges);
      if e.Some? {
        return;
      }
      challenges := challenges - {m.sessionId};
    }

    method ReceivePacket(m: Message, now: real) returns (e: Option<ProtocolError>)
      modifies this, registry
      ensures (View(), e) == Accept(old(View()), m, now)
    {
      e := Inspect(m, now);
      if e.None? {
        e := registry.CheckReplay(m, now, challenges);
      }
    }
  }
}
