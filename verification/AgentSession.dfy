/** The resident agent session (`zdx_spatial_agent_session.py`): one lock, a dirty flag, and the
    checkpoint manager behind it. */
module AgentSession {
  import opened Basics
  import opened Checkpoint
  import opened Codec
  import CheckpointLaws

  /** Which call, if any, holds the session lock: nobody, a checkpoint blocked inside `submit`, or
      one waiting for its barrier. */
  datatype Call = Free | InSubmit(request: Request) | Awaiting(id: nat)

  datatype Session = Session(manager: State, resident: Snapshot, dirty: bool, call: Call)

  datatype SessionStep =
    | Change(resident: Snapshot)
    | Begin(generation: int, hash: Digest, barrier: bool)
    | GoOn
    | Return
    | Background(step: Step)

  /** The submit went through: a barrier waits, anything else is done. */
  function Submitted(s: Session, m: State, id: nat, barrier: bool): (t: Session) {
    if barrier then s.(manager := m, call := Awaiting(id)) else s.(manager := m, call := Free, dirty := false)
  }

  function NextSession(d: Digests, s: Session, step: SessionStep): (t: Session) {
    match step
    case Change(resident) =>
      if s.call.Free? then s.(resident := resident, dirty := true) else s
    case Begin(generation, hash, barrier) =>
      if !s.call.Free? then s else
        var (m, o) := SubmitNext(d, s.manager, s.resident, generation, hash, barrier);
        (match o
         case Accepted(id) => Submitted(s, m, id, barrier)
         case Blocked(r) => s.(manager := m, call := InSubmit(r))
         case Rejected => s.(manager := m))
    case GoOn =>
      if !s.call.InSubmit? then s else
        var r := s.call.request;
        var m := ResumeNext(s.manager, r);
        if r in m.blocked then s
        else if s.manager.failed || s.manager.closed then s.(manager := m, call := Free)
        else Submitted(s, m, r.id, r.barrier)
    case Return =>
      if !s.call.Awaiting? then s
      else if s.manager.failed then s.(call := Free)
      else if s.manager.committedId >= s.call.id then s.(call := Free, dirty := false)
      else s
    case Background(step) =>
      if step.Submit? || step.Resume? || (step.Close? && !s.call.Free?) then s
      else s.(manager := Next(d, s.manager, step))
  }

  function RunSession(d: Digests, s: Session, steps: seq<SessionStep>): (t: Session) {
    if steps == [] then s else NextSession(d, RunSession(d, s, steps[..|steps| - 1]), steps[|steps| - 1])
  }

  // ---------------------------------------------------------------- opening a session

  type Document = map<Text, Value>

  const ABI_KEY: Text := Word("agent_abi")
  const CHECKPOINT_KEY: Text := Word("vm_checkpoint")
  const LAYOUT_KEY: Text := Word("spatial_layout")
  const SOURCE_KEY: Text := Word("source_frame")

  /** What `open` brings with it: the interface, how a persisted interface is read into its normal form,
      the captured machine state that seeds a document without one, and the metadata of this layout and
      file. */
  datatype Surroundings = Surroundings(
    abi: Value, normal: Value -> Option<Value>, seed: Document, layout: Value, source: Value)

  /** The key is there; `None` under a key counts as missing. */
  predicate Has(values: Document, key: Text) {
    key in values && values[key] != Null
  }

  /** The interface is in normal form, and the machine state has a checkpoint. */
  predicate Captured(e: Surroundings) {
    e.abi != Null && e.normal(e.abi) == Some(e.abi) && Has(e.seed, CHECKPOINT_KEY)
  }

  function Seeded(loaded: Document, e: Surroundings): (values: Document) {
    var bound := loaded[ABI_KEY := e.abi];
    if Has(loaded, CHECKPOINT_KEY) then bound else bound + e.seed
  }

  predicate MetadataCurrent(values: Document, e: Surroundings) {
    LAYOUT_KEY in values && values[LAYOUT_KEY] == e.layout && SOURCE_KEY in values && values[SOURCE_KEY] == e.source
  }

  /** The document a session starts with and whether it is dirty, or nothing if another interface was
      persisted. */
  function OpenDocument(loaded: Document, e: Surroundings): (r: Option<(Document, bool)>) {
    if Has(loaded, ABI_KEY) && e.normal(loaded[ABI_KEY]) != Some(e.abi) then None
    else
      var values := Seeded(loaded, e);
      var dirty := !Has(loaded, ABI_KEY) || !MetadataCurrent(values, e);
      Some((values[LAYOUT_KEY := e.layout][SOURCE_KEY := e.source], dirty))
  }

  /** The document was loaded with a checkpoint and with its interface in normal form. */
  predicate Complete(loaded: Document, e: Surroundings) {
    Has(loaded, CHECKPOINT_KEY) && ABI_KEY in loaded && loaded[ABI_KEY] == e.abi
  }

  /** A session that is not dirty starts with what was loaded, exactly when that was complete. */
  lemma CleanExactlyWhen(loaded: Document, e: Surroundings)
    requires Captured(e) && OpenDocument(loaded, e).Some?
    ensures var (values, dirty) := OpenDocument(loaded, e).value;
      dirty || values == loaded <==> dirty || Complete(loaded, e)
  {
    assert |ABI_KEY| == 9 && |CHECKPOINT_KEY| == 13 && |LAYOUT_KEY| == 14 && |SOURCE_KEY| == 12;
    var (values, dirty) := OpenDocument(loaded, e).value;
    if !dirty && Complete(loaded, e) {
      assert values == loaded;
    }
  }

  /** The session `open` makes of a loaded file, if it accepts it. */
  function Start(d: Digests, frame: Bytes, loaded: Document, generation: nat, e: Surroundings): (s: Option<Session>) {
    var document := OpenDocument(loaded, e);
    if document.None? then None
    else
      var disk := Image(Snapshot(frame, loaded), generation);
      Some(Session(Initial(Some(disk), Some(d.file(disk))), Snapshot(frame, document.value.0), document.value.1, Free))
  }

  /** Nothing is missing on disk at the start, or the session knows that it is. */
  predicate Clean(s: Session) {
    s.dirty || (s.manager.disk.Some? && s.manager.disk.value.Image? && s.manager.disk.value.snapshot == s.resident)
  }

  // ---------------------------------------------------------------- the invariant

  /** The snapshot that will be on disk when everything submitted is: the last one submitted, or the
      one loaded if there is none. */
  ghost predicate Latest(m: State, snapshot: Snapshot) {
    if m.submitted == [] then !m.foreign ==> m.disk.Some? && m.disk.value.Image? && m.disk.value.snapshot == snapshot
    else m.submitted[|m.submitted| - 1].snapshot == snapshot
  }

  ghost predicate Held(s: Session, clean: bool) {
    && s.manager.blocked == (if s.call.InSubmit? then {s.call.request} else {})
    && (s.call.InSubmit? ==> s.call.request.snapshot == s.resident)
    && (s.call.Awaiting? ==>
         s.manager.submitted != [] && s.call.id == s.manager.lastSubmitted && Latest(s.manager, s.resident))
    && (!s.dirty && (clean || s.manager.submitted != []) ==> Latest(s.manager, s.resident))
  }

  ghost predicate Inv(d: Digests, s: Session, clean: bool) {
    CheckpointLaws.Inv(d, s.manager) && Held(s, clean)
  }

  lemma StartHolds(d: Digests, frame: Bytes, loaded: Document, generation: nat, e: Surroundings)
    requires Start(d, frame, loaded, generation, e).Some?
    ensures var s := Start(d, frame, loaded, generation, e).value; Inv(d, s, Clean(s))
  {
    hide CheckpointLaws.Inv, OpenDocument;
    var disk := Image(Snapshot(frame, loaded), generation);
    CheckpointLaws.InitialHolds(d, Some(disk), Some(d.file(disk)));
  }

  /** A background step neither blocks nor submits, and with nothing submitted only a stranger touches the file. */
  lemma BackgroundHolds(d: Digests, s: Session, step: Step, clean: bool)
    requires Inv(d, s, clean) && !step.Submit? && !step.Resume?
    ensures Held(s.(manager := Next(d, s.manager, step)), clean)
  {
    var m, n := s.manager, Next(d, s.manager, step);
    assert n.submitted == m.submitted && n.blocked == m.blocked;
    if step.Write? && m.worker.Working? {
      assert m.worker.request in m.submitted;
    }
  }

  lemma BeginHolds(d: Digests, s: Session, generation: int, hash: Digest, barrier: bool, clean: bool)
    requires Held(s, clean) && s.call.Free?
    ensures Held(NextSession(d, s, Begin(generation, hash, barrier)), clean)
  {
    CheckpointLaws.SubmitAnswers(d, s.manager, s.resident, generation, hash, barrier);
    RejectedKeeps(d, s.manager, s.resident, generation, hash, barrier);
    hide SubmitNext;
    var (m, o) := SubmitNext(d, s.manager, s.resident, generation, hash, barrier);
    assert s.manager.blocked == {};
    if o.Accepted? {
      assert m.submitted[|m.submitted| - 1].snapshot == s.resident && Latest(m, s.resident);
    } else if o.Blocked? {
      assert m.blocked == {o.request};
    }
  }

  lemma RejectedKeeps(d: Digests, m: State, snapshot: Snapshot, generation: int, hash: Digest, barrier: bool)
    ensures var (n, o) := SubmitNext(d, m, snapshot, generation, hash, barrier);
      && n.foreign == m.foreign && (!o.Accepted? ==> n.submitted == m.submitted)
      && (o.Rejected? ==> n.blocked == m.blocked)
  {
  }

  lemma GoOnHolds(d: Digests, s: Session, clean: bool)
    requires Held(s, clean)
    ensures Held(NextSession(d, s, GoOn), clean)
  {
    if s.call.InSubmit? {
      assert {s.call.request} - {s.call.request} == {};
    }
  }

  /** What a session step does to the manager is one of the manager's own steps, with at most one
      submitter at a time. */
  lemma ManagerStep(d: Digests, s: Session, step: SessionStep, clean: bool)
    requires Inv(d, s, clean)
    ensures CheckpointLaws.Inv(d, NextSession(d, s, step).manager)
  {
    hide CheckpointLaws.Inv, Next, SubmitNext, ResumeNext;
    match step
    case Change(_) =>
    case Begin(generation, hash, barrier) =>
      if s.call.Free? {
        CheckpointLaws.SubmitKeeps(d, s.manager, s.resident, generation, hash, barrier);
      }
    case GoOn =>
      if s.call.InSubmit? {
        CheckpointLaws.ResumeKeeps(d, s.manager, s.call.request);
      }
    case Return =>
    case Background(b) =>
      if !b.Submit? {
        CheckpointLaws.StepKeeps(d, s.manager, b);
      }
  }

  lemma SessionStepKeeps(d: Digests, s: Session, step: SessionStep, clean: bool)
    requires Inv(d, s, clean)
    ensures Inv(d, NextSession(d, s, step), clean)
  {
    ManagerStep(d, s, step, clean);
    assert Held(NextSession(d, s, step), clean) by {
      match step
      case Change(_) =>
      case Begin(generation, hash, barrier) =>
        if s.call.Free? {
          BeginHolds(d, s, generation, hash, barrier, clean);
        }
      case GoOn => GoOnHolds(d, s, clean);
      case Return =>
      case Background(b) =>
        if !b.Submit? && !b.Resume? {
          BackgroundHolds(d, s, b, clean);
        }
    }
  }

  lemma {:induction false} SessionRunKeeps(d: Digests, s: Session, steps: seq<SessionStep>, clean: bool)
    requires Inv(d, s, clean)
    ensures Inv(d, RunSession(d, s, steps), clean)
  {
    hide Inv, NextSession;
    if steps != [] {
      SessionRunKeeps(d, s, steps[..|steps| - 1], clean);
      SessionStepKeeps(d, RunSession(d, s, steps[..|steps| - 1]), steps[|steps| - 1], clean);
    }
  }

  /** The file holds exactly the resident state. */
  ghost predicate OnDisk(s: Session) {
    s.manager.disk.Some? && s.manager.disk.value.Image? && s.manager.disk.value.snapshot == s.resident
  }

  /** When the session is not dirty and the last submission is durable, which is what a `flush` that
      returns true has established, the file holds exactly the resident state, unless someone else has
      written it. */
  ghost predicate FlushKept(t: Session) {
    !t.dirty && CheckpointLaws.Durable(t.manager, t.manager.lastSubmitted) && !t.manager.foreign ==> OnDisk(t)
  }

  lemma FlushedIsOnDisk(d: Digests, t: Session, clean: bool)
    requires Inv(d, t, clean) && (clean || t.manager.submitted != [])
    ensures FlushKept(t)
  {
    hide CheckpointLaws.Inv;
    if t.manager.submitted != [] && CheckpointLaws.Durable(t.manager, t.manager.lastSubmitted) {
      CheckpointLaws.InvDurable(d, t.manager);
    }
  }

  /** Over every run of an opened session, a flush that returns true keeps its promise once anything has
      been submitted, and from the start if what was loaded was complete or the session knew it was dirty. */
  lemma FlushedIsResident(d: Digests, frame: Bytes, loaded: Document, generation: nat, e: Surroundings,
                          steps: seq<SessionStep>)
    requires Captured(e) && Start(d, frame, loaded, generation, e).Some?
    ensures var s := Start(d, frame, loaded, generation, e).value; var t := RunSession(d, s, steps);
      t.manager.submitted != [] || s.dirty || Complete(loaded, e) ==> FlushKept(t)
  {
    var s := Start(d, frame, loaded, generation, e).value;
    StartHolds(d, frame, loaded, generation, e);
    StartClean(d, frame, loaded, generation, e);
    hide Inv, Start, Clean, RunSession, FlushKept;
    SessionRunKeeps(d, s, steps, Clean(s));
    var t := RunSession(d, s, steps);
    if t.manager.submitted != [] || Clean(s) {
      FlushedIsOnDisk(d, t, Clean(s));
    }
  }

  lemma StartClean(d: Digests, frame: Bytes, loaded: Document, generation: nat, e: Surroundings)
    requires Captured(e) && Start(d, frame, loaded, generation, e).Some?
    ensures var s := Start(d, frame, loaded, generation, e).value; Clean(s) <==> s.dirty || Complete(loaded, e)
  {
    hide OpenDocument;
    CleanExactlyWhen(loaded, e);
  }

  /** Flushes keep their promise over all runs of an opened session, exactly when it started dirty or
      from a complete document. */
  lemma FlushKeptExactlyWhen(d: Digests, frame: Bytes, loaded: Document, generation: nat, e: Surroundings)
    requires Captured(e) && Start(d, frame, loaded, generation, e).Some?
    ensures var s := Start(d, frame, loaded, generation, e).value;
      (forall steps :: FlushKept(RunSession(d, s, steps))) <==> s.dirty || Complete(loaded, e)
  {
    var s := Start(d, frame, loaded, generation, e).value;
    StartClean(d, frame, loaded, generation, e);
    assert RunSession(d, s, []) == s;
    if !Clean(s) {
      UncleanFlush(d, frame, loaded, generation, e);
    }
    hide RunSession, FlushKept, Start, Clean;
    if Clean(s) {
      forall steps ensures FlushKept(RunSession(d, s, steps)) {
        FlushedIsResident(d, frame, loaded, generation, e, steps);
      }
    } else {
      assert !FlushKept(RunSession(d, s, []));
    }
  }

  lemma UncleanFlush(d: Digests, frame: Bytes, loaded: Document, generation: nat, e: Surroundings)
    requires Start(d, frame, loaded, generation, e).Some? && !Clean(Start(d, frame, loaded, generation, e).value)
    ensures !FlushKept(Start(d, frame, loaded, generation, e).value)
  {
    hide OpenDocument;
  }

  /** A document with the interface and the metadata but no checkpoint, seeded with a machine state that has
      no metadata, starts a session whose very first flush is wrong. */
  lemma SeedIsNotFlushed(d: Digests, frame: Bytes, generation: nat, e: Surroundings)
    requires Captured(e) && LAYOUT_KEY !in e.seed && SOURCE_KEY !in e.seed
    ensures var loaded := map[ABI_KEY := e.abi, LAYOUT_KEY := e.layout, SOURCE_KEY := e.source];
      var s := Start(d, frame, loaded, generation, e);
      s.Some? && !s.value.dirty && CheckpointLaws.Durable(s.value.manager, s.value.manager.lastSubmitted)
        && !OnDisk(s.value)
  {
    var loaded := map[ABI_KEY := e.abi, LAYOUT_KEY := e.layout, SOURCE_KEY := e.source];
    assert |ABI_KEY| == 9 && |CHECKPOINT_KEY| == 13 && |LAYOUT_KEY| == 14 && |SOURCE_KEY| == 12;
    CleanExactlyWhen(loaded, e);
  }

  /** A checkpoint that returns from its barrier has put the resident state on disk, however the session
      was opened. */
  lemma BarrierReturnsResident(d: Digests, frame: Bytes, loaded: Document, generation: nat, e: Surroundings,
                               steps: seq<SessionStep>)
    requires Start(d, frame, loaded, generation, e).Some?
    ensures var s := Start(d, frame, loaded, generation, e).value;
      var t := RunSession(d, s, steps); var u := NextSession(d, t, Return);
      t.call.Awaiting? && !t.manager.failed && u.call.Free? && !u.manager.foreign ==> !u.dirty && OnDisk(u)
  {
    var s := Start(d, frame, loaded, generation, e).value;
    StartHolds(d, frame, loaded, generation, e);
    SessionRunKeeps(d, s, steps, Clean(s));
    hide RunSession, CheckpointLaws.Inv, Start;
    var t := RunSession(d, s, steps);
    if t.call.Awaiting? && CheckpointLaws.Durable(t.manager, t.call.id) {
      CheckpointLaws.InvDurable(d, t.manager);
    }
  }

  /** The dirty flag changes only so: a change of the resident state sets it, and it is cleared only when
      that state has just been submitted without a barrier, or when the barrier that submitted it has been
      committed and the worker has not failed. A refused or failed checkpoint leaves the session dirty. */
  lemma DirtyUntilSubmitted(d: Digests, s: Session, step: SessionStep, clean: bool)
    requires Inv(d, s, clean)
    ensures var t := NextSession(d, s, step);
      && (step.Change? && s.call.Free? ==> t.dirty && t.resident == step.resident)
      && (!step.Change? || !s.call.Free? ==> t.resident == s.resident && (t.dirty ==> s.dirty))
      && (s.dirty && !t.dirty ==>
           || (step.Return? && s.call.Awaiting? && !s.manager.failed && s.manager.committedId >= s.call.id)
           || ((step.Begin? || step.GoOn?) && |t.manager.submitted| == |s.manager.submitted| + 1))
  {
    hide CheckpointLaws.Inv;
  }
}
