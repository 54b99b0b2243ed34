/** What holds over every run of the handshake and the session registry. */
module HandshakeLaws {
  import opened Basics
  import opened Handshake

  // ---------------------------------------------------------------- runs

  datatype Step =
    | Hellos(message: Message, now: real, expires: real, id: Text, challenge: Text)
    | Confirms(message: Message, now: real, later: real, last: real)
    | Packet(message: Message, now: real)
    | Draws(id: Text, now: real)
    | Closes(id: Text)
    | Cleans(now: real)

  function Next(s: State, step: Step): (t: State) {
    match step
    case Hellos(m, now, expires, id, challenge) => AcceptHello(s, m, now, expires, id, challenge).0
    case Confirms(m, now, later, last) => AcceptConfirmation(s, m, now, later, last).0
    case Packet(m, now) => Accept(s, m, now).0
    case Draws(id, now) => NextSequence(s, id, now).0
    case Closes(id) => Close(s, id)
    case Cleans(now) => CloseAll(s, Outdated(s, now))
  }

  /** What was granted: a session opened for a peer with a challenge, a confirmation by a sender
      carrying a challenge, and a packet accepted. */
  datatype Event =
    | Opened(id: Text, peer: Text, challenge: Text)
    | Confirmed(id: Text, sender: Text, carried: Text)
    | Accepted(message: Message)

  function Granted(s: State, step: Step): (e: Option<Event>) {
    match step
    case Hellos(m, now, expires, id, challenge) =>
      if AcceptHello(s, m, now, expires, id, challenge).1.None? then Some(Opened(id, m.sender, challenge)) else None
    case Confirms(m, now, later, last) =>
      if AcceptConfirmation(s, m, now, later, last).1.None? && m.serverChallenge.Some? then
        Some(Confirmed(m.sessionId, m.sender, m.serverChallenge.value))
      else None
    case Packet(m, now) => if Accept(s, m, now).1.None? then Some(Accepted(m)) else None
    case _ => None
  }

  type Events = seq<Event>

  function Extended(log: Events, e: Option<Event>): (longer: Events) {
    if e.Some? then log + [e.value] else log
  }

  function Run(steps: seq<Step>): (r: (State, Events)) {
    if steps == [] then (State(map[], map[], map[]), []) else
      var (s, log) := Run(steps[..|steps| - 1]);
      (Next(s, steps[|steps| - 1]), Extended(log, Granted(s, steps[|steps| - 1])))
  }

  /** Session ids are random and never repeat. */
  ghost predicate Unopened(log: Events, id: Text) {
    forall e :: e in log && e.Opened? ==> e.id != id
  }

  ghost predicate Random(steps: seq<Step>) {
    steps == [] || (
      && Random(steps[..|steps| - 1])
      && (steps[|steps| - 1].Hellos? ==> Unopened(Run(steps[..|steps| - 1]).1, steps[|steps| - 1].id)))
  }

  // ---------------------------------------------------------------- the tables

  lemma NextInverse(s: State, step: Step)
    requires Inverted(s) && (step.Hellos? ==> step.id !in s.sessions)
    ensures Inverted(Next(s, step))
  {
    hide Inverse, Close, Establish, CloseAll, Activate, ValidateReplay, NextSequence;
    match step
    case Hellos(m, now, expires, id, challenge) => EstablishInverse(s, m.sender, m.keyId, expires, id);
    case Confirms(m, now, later, last) =>
      CloseInverse(s.(challenges := s.challenges - {m.sessionId}), m.sessionId);
      ActivateInverse(s, m.sessionId, m.sender, last);
    case Packet(m, now) => ReplayInverse(s, m, now);
    case Draws(id, now) => DrawInverse(s, id, now);
    case Closes(id) => CloseInverse(s, id);
    case Cleans(now) => CloseAllInverse(s, Outdated(s, now));
  }

  // ---------------------------------------------------------------- the log

  /** How many packets a session has accepted. */
  function Count(log: Events, id: Text): (n: nat) {
    if log == [] then 0 else
      var e := log[|log| - 1];
      Count(log[..|log| - 1], id) + if e.Accepted? && e.message.sessionId == id then 1 else 0
  }

  ghost predicate HasConfirmed(log: Events, id: Text, sender: Text) {
    exists c :: Confirmed(id, sender, c) in log
  }

  /** Event `e` may follow `log`: a session is opened once; a confirmation comes from the peer the
      session was opened for and carries its challenge; a packet comes after such a confirmation by
      its own sender, and carries the next number. */
  ghost predicate MayFollow(log: Events, e: Event) {
    match e
    case Opened(id, peer, challenge) => Unopened(log, id) && Count(log, id) == 0
    case Confirmed(id, sender, carried) => Opened(id, sender, carried) in log
    case Accepted(m) => HasConfirmed(log, m.sessionId, m.sender) && m.sequence == Count(log, m.sessionId) + 1
  }

  ghost predicate Lawful(log: Events) {
    log == [] || (Lawful(log[..|log| - 1]) && MayFollow(log[..|log| - 1], log[|log| - 1]))
  }

  /** How the state of one session stands to the log. */
  ghost predicate Recorded(s: State, log: Events, id: Text) {
    && (id in s.challenges ==> Opened(id, s.challenges[id].peer, s.challenges[id].challenge) in log)
    && (id in s.sessions ==>
          && !Unopened(log, id)
          && s.sessions[id].lastSequence == Count(log, id)
          && (s.sessions[id].active ==> HasConfirmed(log, id, s.sessions[id].peer)))
    && (Unopened(log, id) ==> Count(log, id) == 0)
  }

  lemma CountExtends(log: Events, e: Event, id: Text)
    ensures Count(log + [e], id) == Count(log, id) + if e.Accepted? && e.message.sessionId == id then 1 else 0
  {
    assert (log + [e])[..|log|] == log;
  }

  /** Events that open no session and accept no packet under this id leave its standing alone. */
  lemma RecordedExtends(s: State, log: Events, e: Event, id: Text)
    requires Recorded(s, log, id) && !(e.Opened? && e.id == id) && !(e.Accepted? && e.message.sessionId == id)
    ensures Recorded(s, log + [e], id)
  {
    CountExtends(log, e, id);
    hide Count;
    assert Unopened(log + [e], id) <==> Unopened(log, id);
    if HasConfirmed(log, id, if id in s.sessions then s.sessions[id].peer else []) {
      var c :| Confirmed(id, if id in s.sessions then s.sessions[id].peer else [], c) in log;
      assert Confirmed(id, if id in s.sessions then s.sessions[id].peer else [], c) in log + [e];
    }
  }

  /** What an operation may do to a session without being granted anything. */
  ghost predicate Tame(s: State, t: State, id: Text) {
    && (id in t.challenges ==> id in s.challenges && t.challenges[id] == s.challenges[id])
    && (id in t.sessions ==>
          && id in s.sessions && t.sessions[id].peer == s.sessions[id].peer
          && t.sessions[id].active == s.sessions[id].active
          && t.sessions[id].lastSequence == s.sessions[id].lastSequence)
  }

  lemma TameRecorded(s: State, t: State, log: Events, id: Text)
    requires Recorded(s, log, id) && Tame(s, t, id)
    ensures Recorded(t, log, id)
  {
    hide Unopened, HasConfirmed, Count;
  }

  /** The session a step is about. */
  function Subject(step: Step): (id: Text) {
    match step
    case Hellos(_, _, _, id, _) => id
    case Confirms(m, _, _, _) => m.sessionId
    case Packet(m, _) => m.sessionId
    case Draws(id, _) => id
    case Closes(id) => id
    case Cleans(_) => []
  }

  lemma UngrantedIsTame(s: State, step: Step, id: Text)
    requires Granted(s, step).None? || id != Subject(step)
    ensures Tame(s, Next(s, step), id)
  {
    hide Recent, Outdated;
  }

  lemma HelloRecorded(s: State, log: Events, step: Step)
    requires step.Hellos? && Granted(s, step).Some? && Recorded(s, log, step.id) && Unopened(log, step.id)
    ensures MayFollow(log, Granted(s, step).value) && Recorded(Next(s, step), log + [Granted(s, step).value], step.id)
  {
    var e := Granted(s, step).value;
    CountExtends(log, e, step.id);
    hide Count;
    assert e in log + [e];
  }

  lemma ConfirmRecorded(s: State, log: Events, step: Step)
    requires step.Confirms? && Granted(s, step).Some? && Recorded(s, log, step.message.sessionId)
    ensures MayFollow(log, Granted(s, step).value)
    ensures Recorded(Next(s, step), log + [Granted(s, step).value], step.message.sessionId)
  {
    var e, id := Granted(s, step).value, step.message.sessionId;
    RecordedExtends(s, log, e, id);
    hide Count, Unopened;
    assert e in log + [e];
    assert HasConfirmed(log + [e], id, step.message.sender);
  }

  lemma PacketRecorded(s: State, log: Events, step: Step)
    requires step.Packet? && Granted(s, step).Some? && Recorded(s, log, step.message.sessionId)
    ensures MayFollow(log, Granted(s, step).value)
    ensures Recorded(Next(s, step), log + [Granted(s, step).value], step.message.sessionId)
  {
    var e, id := Granted(s, step).value, step.message.sessionId;
    CountExtends(log, e, id);
    hide Count, Recent;
    var c :| Confirmed(id, step.message.sender, c) in log;
    assert Confirmed(id, step.message.sender, c) in log + [e];
    var o :| o in log && o.Opened? && o.id == id;
    assert o in log + [e];
  }

  lemma StepRecorded(s: State, log: Events, step: Step, id: Text)
    requires Recorded(s, log, id) && Recorded(s, log, Subject(step)) && (step.Hellos? ==> Unopened(log, step.id))
    ensures Recorded(Next(s, step), Extended(log, Granted(s, step)), id)
    ensures Granted(s, step).Some? ==> MayFollow(log, Granted(s, step).value)
  {
    hide Recorded, MayFollow, Next, Unopened;
    var e := Granted(s, step);
    if e.Some? {
      match step
      case Hellos(_, _, _, _, _) => HelloRecorded(s, log, step);
      case Confirms(_, _, _, _) => ConfirmRecorded(s, log, step);
      case Packet(_, _) => PacketRecorded(s, log, step);
      case _ =>
    }
    if e.None? || id != Subject(step) {
      UngrantedIsTame(s, step, id);
      TameRecorded(s, Next(s, step), log, id);
      if e.Some? {
        RecordedExtends(Next(s, step), log, e.value, id);
      }
    }
  }

  ghost predicate Sound(s: State, log: Events) {
    Inverted(s) && Lawful(log) && forall id :: Recorded(s, log, id)
  }

  lemma StepSound(s: State, log: Events, step: Step)
    requires Sound(s, log) && (step.Hellos? ==> Unopened(log, step.id))
    ensures Sound(Next(s, step), Extended(log, Granted(s, step)))
  {
    hide Inverted, Recorded, MayFollow, Next, Unopened, Granted;
    var t, longer := Next(s, step), Extended(log, Granted(s, step));
    OpenedElsewhere(s, log, step);
    NextInverse(s, step);
    forall id ensures Recorded(t, longer, id) {
      StepRecorded(s, log, step, id);
    }
    StepRecorded(s, log, step, []);
    assert Granted(s, step).Some? ==> longer[..|log|] == log;
  }

  lemma OpenedElsewhere(s: State, log: Events, step: Step)
    requires Recorded(s, log, Subject(step)) && (step.Hellos? ==> Unopened(log, step.id))
    ensures step.Hellos? ==> step.id !in s.sessions
  {
  }

  lemma {:induction false} RunSound(steps: seq<Step>)
    requires Random(steps)
    ensures Sound(Run(steps).0, Run(steps).1)
  {
    if steps != [] {
      hide Sound, Next, Granted, Unopened;
      RunSound(steps[..|steps| - 1]);
      var (s, log) := Run(steps[..|steps| - 1]);
      StepSound(s, log, steps[|steps| - 1]);
    }
  }

  // ---------------------------------------------------------------- the promises

  /** Over every run the session table and the peer table are inverse to each other. */
  lemma TablesStayInverse(steps: seq<Step>)
    requires Random(steps)
    ensures Inverted(Run(steps).0)
  {
    RunSound(steps);
  }

  lemma {:induction false} LawfulAt(log: Events, i: nat)
    requires Lawful(log) && i < |log|
    ensures Lawful(log[..i]) && MayFollow(log[..i], log[i])
    decreases |log|
  {
    hide MayFollow;
    var n := |log| - 1;
    if i < n {
      LawfulAt(log[..n], i);
      assert log[..n][..i] == log[..i];
    }
  }

  /** A packet is accepted only after a confirmation by its own sender, which carried the challenge
      that the session was opened with for that very sender. */
  lemma AcceptedAfterConfirmation(steps: seq<Step>, i: nat) returns (j: nat, k: nat)
    requires Random(steps) && i < |Run(steps).1| && Run(steps).1[i].Accepted?
    ensures var log := Run(steps).1; var m := log[i].message;
      && k < j < i && log[j].Confirmed? && log[j].id == m.sessionId && log[j].sender == m.sender
      && log[k] == Opened(m.sessionId, m.sender, log[j].carried)
  {
    RunSound(steps);
    var log := Run(steps).1;
    hide Run, Random, Count, Lawful;
    var m := log[i].message;
    LawfulAt(log, i);
    var c :| Confirmed(m.sessionId, m.sender, c) in log[..i];
    j :| 0 <= j < i && log[j] == Confirmed(m.sessionId, m.sender, c);
    LawfulAt(log, j);
    assert Opened(m.sessionId, m.sender, c) in log[..j];
    k :| 0 <= k < j && log[k] == Opened(m.sessionId, m.sender, c);
  }

  /** The numbers of the packets a session accepted, in order. */
  function Numbers(log: Events, id: Text): (ns: seq<int>) {
    if log == [] then [] else
      var e := log[|log| - 1];
      Numbers(log[..|log| - 1], id) + if e.Accepted? && e.message.sessionId == id then [e.message.sequence] else []
  }

  lemma {:induction false} LawfulNumbers(log: Events, id: Text)
    requires Lawful(log)
    ensures |Numbers(log, id)| == Count(log, id) && forall i :: 0 <= i < |Numbers(log, id)| ==>
      Numbers(log, id)[i] == i + 1
  {
    hide HasConfirmed, Unopened;
    if log != [] {
      LawfulNumbers(log[..|log| - 1], id);
    }
  }

  /** Accepted numbers of every session are exactly 1, 2, 3, and so on. */
  lemma NumbersAreConsecutive(steps: seq<Step>, id: Text)
    requires Random(steps)
    ensures var ns := Numbers(Run(steps).1, id); forall i :: 0 <= i < |ns| ==> ns[i] == i + 1
  {
    RunSound(steps);
    LawfulNumbers(Run(steps).1, id);
  }

  lemma {:induction false} CountGrows(log: Events, i: nat, id: Text)
    requires i <= |log|
    ensures Count(log[..i], id) <= Count(log, id)
    decreases |log|
  {
    if i == |log| {
      assert log[..i] == log;
    } else {
      CountGrows(log[..|log| - 1], i, id);
      assert log[..|log| - 1][..i] == log[..i];
    }
  }

  /** A later packet of the same session has a higher number. */
  lemma LaterIsHigher(log: Events, i: nat, j: nat)
    requires Lawful(log) && i < j < |log| && log[i].Accepted? && log[j].Accepted?
    requires log[i].message.sessionId == log[j].message.sessionId
    ensures log[i].message.sequence < log[j].message.sequence
  {
    var id := log[i].message.sessionId;
    LawfulAt(log, i);
    LawfulAt(log, j);
    hide Lawful, HasConfirmed, Count;
    CountAt(log, i, j, id);
  }

  lemma CountAt(log: Events, i: nat, j: nat, id: Text)
    requires i < j < |log| && log[i].Accepted? && log[i].message.sessionId == id
    ensures Count(log[..i], id) < Count(log[..j], id)
  {
    hide Count;
    CountExtends(log[..i], log[i], id);
    assert log[..i] + [log[i]] == log[..j][..i + 1];
    CountGrows(log[..j], i + 1, id);
  }

  /** No packet is accepted twice. */
  lemma NoPacketTwice(steps: seq<Step>, i: nat, j: nat)
    requires Random(steps) && i < j < |Run(steps).1| && Run(steps).1[i].Accepted? && Run(steps).1[j].Accepted?
    ensures Run(steps).1[i].message != Run(steps).1[j].message
  {
    RunSound(steps);
    var log := Run(steps).1;
    hide Run, Random, Lawful, Recorded, Inverted;
    if log[i].message.sessionId == log[j].message.sessionId {
      LaterIsHigher(log, i, j);
    }
  }

  // ---------------------------------------------------------------- an honest peer gets through

  /** Packets of one session, numbered on from `last`, genuine, with nonces of their own. */
  ghost predicate InLine(ms: seq<Message>, id: Text, peer: Text, last: nat) {
    && (forall i :: 0 <= i < |ms| ==>
          && ms[i].wellFormed && ms[i].genuine && ms[i].sessionId == id && ms[i].sender == peer
          && ms[i].sequence == last + i + 1)
    && (forall i, j :: 0 <= i < j < |ms| ==> ms[i].nonce != ms[j].nonce)
  }

  /** Each packet arrives close to its timestamp and before the session expires. */
  ghost predicate OnTime(ms: seq<Message>, times: seq<real>, expires: real) {
    |times| == |ms| && forall i :: 0 <= i < |ms| ==>
      Distance(times[i], ms[i].timestamp) <= MAX_AGE && times[i] < expires
  }

  ghost predicate Unspent(ms: seq<Message>, nonces: map<Text, real>) {
    forall i :: 0 <= i < |ms| ==> ms[i].nonce !in nonces
  }

  ghost predicate AllAccepted(s: State, ms: seq<Message>, times: seq<real>)
    requires |times| == |ms|
    decreases |ms|
  {
    ms == [] || (Accept(s, ms[0], times[0]).1.None? && AllAccepted(Accept(s, ms[0], times[0]).0, ms[1..], times[1..]))
  }

  /** The session can take this packet now. */
  predicate Takes(session: Session, m: Message, now: real) {
    && session.active && session.peer == m.sender && now < session.expires
    && m.sequence == session.lastSequence + 1 && m.nonce !in session.nonces
  }

  /** What accepting a packet does to its session. */
  ghost predicate Moved(was: Session, now: Session, nonce: Text) {
    && now.active && now.peer == was.peer && now.expires == was.expires && now.lastSequence == was.lastSequence + 1
    && forall n :: n in now.nonces ==> n in was.nonces || n == nonce
  }

  lemma FirstAccepted(s: State, m: Message, now: real)
    requires m.sessionId in s.sessions && m.wellFormed && m.genuine && Distance(now, m.timestamp) <= MAX_AGE
    requires Takes(s.sessions[m.sessionId], m, now)
    ensures Accept(s, m, now).1.None?
    ensures var t := Accept(s, m, now).0;
      m.sessionId in t.sessions && Moved(s.sessions[m.sessionId], t.sessions[m.sessionId], m.nonce)
  {
  }

  /** Packets numbered in order that arrive in order and in time are all accepted. */
  lemma {:induction false} InOrderDelivery(s: State, ms: seq<Message>, times: seq<real>, id: Text)
    requires id in s.sessions && s.sessions[id].active
    requires InLine(ms, id, s.sessions[id].peer, s.sessions[id].lastSequence)
    requires OnTime(ms, times, s.sessions[id].expires) && Unspent(ms, s.sessions[id].nonces)
    ensures AllAccepted(s, ms, times)
    decreases |ms|
  {
    hide Accept, Distance;
    if ms != [] {
      FirstAccepted(s, ms[0], times[0]);
      var t := Accept(s, ms[0], times[0]).0;
      assert Unspent(ms[1..], t.sessions[id].nonces);
      InOrderDelivery(t, ms[1..], times[1..], id);
    }
  }

  /** A peer that says hello, answers the challenge it was given in time, and numbers its packets from
      one gets every one of them accepted. */
  lemma HonestPeerGetsThrough(s: State, hello: Message, now: real, expires: real, id: Text, challenge: Text,
                              confirm: Message, at: real, later: real, last: real, ms: seq<Message>, times: seq<real>)
    requires AcceptHello(s, hello, now, expires, id, challenge).1.None?
    requires confirm.kind == Confirm && confirm.wellFormed && confirm.genuine && confirm.sender == hello.sender
    requires confirm.sessionId == id && confirm.sequence == 0 && confirm.serverChallenge == Some(challenge)
    requires Distance(at, confirm.timestamp) <= MAX_AGE
    requires later < expires && last < expires && InLine(ms, id, hello.sender, 0) && OnTime(ms, times, expires)
    ensures var t := AcceptHello(s, hello, now, expires, id, challenge).0;
      var (u, e) := AcceptConfirmation(t, confirm, at, later, last);
      e.None? && AllAccepted(u, ms, times)
  {
    hide AllAccepted, InLine, Distance;
    var t := AcceptHello(s, hello, now, expires, id, challenge).0;
    var (u, e) := AcceptConfirmation(t, confirm, at, later, last);
    assert u.sessions[id] == Session(hello.sender, hello.keyId, expires, true, 0, 1, map[]);
    InOrderDelivery(u, ms, times, id);
  }
}
