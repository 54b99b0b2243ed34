/** Exactly when each message of the handshake and each packet is let through, and the numbers a session
    hands out. */
module HandshakeRules {
  import opened Basics
  import opened Handshake
  import opened HandshakeLaws

  // ---------------------------------------------------------------- what is let through

  /** Well formed, authentic, and within sixty seconds of its timestamp either way. */
  predicate Fresh(m: Message, now: real) {
    m.wellFormed && m.genuine && m.timestamp - 60.0 <= now <= m.timestamp + 60.0
  }

  /** No session but this one has changed. */
  ghost predicate OnlySession(s: State, t: State, id: Text) {
    t.sessions - {id} == s.sessions - {id} && t.peers == s.peers && t.challenges == s.challenges
  }

  /** A packet is accepted exactly when it is fresh, belongs to an active unexpired session of its sender,
      carries the next number, and carries no nonce used with a timestamp of the last sixty seconds; the
      session then remembers its number and its nonce. */
  lemma AcceptedExactlyWhen(s: State, m: Message, now: real)
    ensures var (t, e) := Accept(s, m, now); var id := m.sessionId;
      && (e.None? <==>
           && Fresh(m, now) && id in s.sessions
           && var session := s.sessions[id];
              && now < session.expires && session.active && session.peer == m.sender
              && m.sequence == session.lastSequence + 1
              && !(m.nonce in session.nonces && session.nonces[m.nonce] >= now - 60.0))
      && (e.None? ==>
           && OnlySession(s, t, id) && id in t.sessions && t.sessions[id].lastSequence == m.sequence
           && m.nonce in t.sessions[id].nonces && t.sessions[id].nonces[m.nonce] == m.timestamp
           && t.sessions[id].expires == s.sessions[id].expires && t.sessions[id].active
           && forall n :: n in s.sessions[id].nonces && s.sessions[id].nonces[n] >= now - 60.0 ==>
                n in t.sessions[id].nonces)
  {
  }

  /** A refused packet moves no session's number, and costs an expired session. */
  lemma RefusedChangesLittle(s: State, m: Message, now: real, id: Text)
    requires Accept(s, m, now).1.Some?
    ensures var t := Accept(s, m, now).0;
      && t.challenges == s.challenges
      && (id in t.sessions ==>
           && id in s.sessions && t.sessions[id].lastSequence == s.sessions[id].lastSequence
           && t.sessions[id].active == s.sessions[id].active)
      && (id in s.sessions && id !in t.sessions ==> id == m.sessionId && s.sessions[id].expires <= now)
  {
  }

  /** A hello is taken exactly when it is a fresh one outside any session with a challenge of at least 32
      characters; it opens an inactive session for its sender, under its key and with nothing counted yet,
      in place of any other the sender had, and an open challenge. */
  lemma HelloExactlyWhen(s: State, m: Message, now: real, expires: real, id: Text, challenge: Text)
    ensures var (t, e) := AcceptHello(s, m, now, expires, id, challenge);
      && (e.None? <==>
           && m.kind == Hello && Fresh(m, now) && m.sessionId == [] && m.sequence == 0
           && m.clientChallenge.Some? && |m.clientChallenge.value| >= 32)
      && (e.Some? ==> t == s)
      && (e.None? ==>
           && id in t.sessions && !t.sessions[id].active && t.sessions[id].peer == m.sender
           && t.sessions[id].keyId == m.keyId && t.sessions[id].expires == expires && t.sessions[id].nonces == map[]
           && t.sessions[id].lastSequence == 0 && t.sessions[id].nextOutbound == 1
           && id in t.challenges && t.challenges[id] == Challenge(m.sender, challenge, expires)
           && m.sender in t.peers && t.peers[m.sender] == id
           && (m.sender in s.peers && s.peers[m.sender] != id ==> s.peers[m.sender] !in t.sessions)
           && forall k :: k in s.sessions && k != id && !(m.sender in s.peers && s.peers[m.sender] == k) ==>
                k in t.sessions && t.sessions[k] == s.sessions[k])
  {
  }

  /** A confirmation is taken exactly when it is fresh, answers an open unexpired challenge of its own
      sender under number zero, and the session is still there; the session then is active, otherwise
      unchanged, and the challenge is closed. */
  lemma ConfirmedExactlyWhen(s: State, m: Message, now: real, later: real, last: real)
    ensures var (t, e) := AcceptConfirmation(s, m, now, later, last); var id := m.sessionId;
      && (e.None? <==>
           && m.kind == Confirm && Fresh(m, now) && m.sequence == 0
           && id in s.challenges && s.challenges[id].peer == m.sender && later < s.challenges[id].expires
           && m.serverChallenge == Some(s.challenges[id].challenge)
           && id in s.sessions && last < s.sessions[id].expires && s.sessions[id].peer == m.sender)
      && (e.None? ==>
           && id in t.sessions && t.sessions == s.sessions[id := s.sessions[id].(active := true)]
           && t.peers == s.peers && t.challenges == s.challenges - {id})
  {
  }

  /** A cleanup closes exactly the sessions that have expired. */
  lemma CleanedExactlyWhen(s: State, now: real, id: Text)
    requires Inverted(s)
    ensures var t := CloseAll(s, Outdated(s, now));
      && (id in t.sessions <==> id in s.sessions && now < s.sessions[id].expires)
      && (id in t.sessions ==>
           && t.sessions[id] == s.sessions[id]
           && s.sessions[id].peer in t.peers && t.peers[s.sessions[id].peer] == id)
      && t.challenges == s.challenges
  {
  }

  // ---------------------------------------------------------------- numbers handed out

  /** A number is handed out exactly in an active unexpired session, which then counts one further. */
  lemma DrawnExactlyWhen(s: State, id: Text, now: real)
    ensures var (t, r) := NextSequence(s, id, now);
      && (r.Ok? <==> id in s.sessions && now < s.sessions[id].expires && s.sessions[id].active)
      && (r.Ok? ==>
           && OnlySession(s, t, id) && id in t.sessions && r.value == s.sessions[id].nextOutbound
           && t.sessions[id] == s.sessions[id].(nextOutbound := r.value + 1))
  {
  }

  /** The numbers a run hands out for a session. */
  function Drawn(steps: seq<Step>, id: Text): (ns: seq<nat>) {
    if steps == [] then [] else
      var before, step := steps[..|steps| - 1], steps[|steps| - 1];
      Drawn(before, id) + match step
        case Draws(k, now) =>
          var r := NextSequence(Run(before).0, id, now).1;
          if k == id && r.Ok? then [r.value] else []
        case _ => []
  }

  ghost predicate CountsOn(s: State, log: Events, ns: seq<nat>, id: Text) {
    && (forall i :: 0 <= i < |ns| ==> ns[i] == i + 1)
    && (id in s.sessions ==> s.sessions[id].nextOutbound == |ns| + 1)
    && (Unopened(log, id) ==> ns == [])
  }

  /** Only a draw moves the count of a session that stays. */
  lemma OthersKeepCount(s: State, step: Step, id: Text)
    requires !(step.Hellos? && step.id == id) && !(step.Draws? && step.id == id)
    ensures var t := Next(s, step);
      id in t.sessions ==> id in s.sessions && t.sessions[id].nextOutbound == s.sessions[id].nextOutbound
  {
  }

  lemma DrawCounts(s: State, log: Events, ns: seq<nat>, id: Text, now: real)
    requires CountsOn(s, log, ns, id) && (id in s.sessions ==> !Unopened(log, id))
    ensures var (t, r) := NextSequence(s, id, now); CountsOn(t, log, if r.Ok? then ns + [r.value] else ns, id)
  {
    DrawnExactlyWhen(s, id, now);
    hide Unopened;
  }

  lemma HelloCounts(s: State, log: Events, ns: seq<nat>, step: Step)
    requires step.Hellos? && CountsOn(s, log, ns, step.id) && Unopened(log, step.id)
    ensures CountsOn(Next(s, step), Extended(log, Granted(s, step)), ns, step.id)
  {
    var e := Granted(s, step);
    if e.Some? {
      assert e.value in Extended(log, e);
    }
  }

  lemma StillUnopened(log: Events, e: Option<Event>, id: Text)
    ensures Unopened(Extended(log, e), id) ==> Unopened(log, id)
  {
  }

  /** Over every run the numbers a session hands out are 1, 2, 3, and so on. */
  lemma {:induction false} OutboundConsecutive(steps: seq<Step>, id: Text)
    requires Random(steps)
    ensures CountsOn(Run(steps).0, Run(steps).1, Drawn(steps, id), id)
  {
    if steps != [] {
      var before, step := steps[..|steps| - 1], steps[|steps| - 1];
      OutboundConsecutive(before, id);
      RunSound(before);
      var (s, log) := Run(before);
      assert Recorded(s, log, id);
      StillUnopened(log, Granted(s, step), id);
      hide Next, Granted, Unopened, Inverted, Lawful, NextSequence;
      if step.Hellos? && step.id == id {
        HelloCounts(s, log, Drawn(before, id), step);
      } else if step.Draws? && step.id == id {
        DrawCounts(s, log, Drawn(before, id), id, step.now);
        DrawStep(s, step);
      } else {
        OthersKeepCount(s, step, id);
      }
    }
  }

  lemma DrawStep(s: State, step: Step)
    requires step.Draws?
    ensures Next(s, step) == NextSequence(s, step.id, step.now).0 && Granted(s, step).None?
  {
  }
}
