/** The coalescing checkpoint writer (`zdx_checkpoint.py`), its compare-and-swap commit
    (`zdx_pixel_memory/spatial_store.py`), and every way their steps can interleave. */
module Checkpoint {
  import opened Basics
  import Codec

  type Digest = Bytes

  /** A frozen frame and memory document. */
  datatype Snapshot = Snapshot(frame: Bytes, values: map<Codec.Text, Codec.Value>)

  /** The artifact file: a committed snapshot under a store generation, or anything else. */
  datatype Artifact = Image(snapshot: Snapshot, generation: nat) | Foreign(bytes: Bytes)

  /** The digests in use: of an artifact file, and of the machine state in a snapshot (absent when
      the snapshot has no machine state). */
  datatype Digests = Digests(file: Artifact -> Digest, state: Snapshot -> Option<Digest>)

  datatype Request = Request(id: nat, snapshot: Snapshot, generation: int, hash: Digest, barrier: bool)

  /** Where the worker thread is: waiting, holding a request, between the commit and the record, or gone. */
  datatype Worker = Idle | Working(request: Request) | Written(request: Request, artifact: Artifact) | Stopped

  /** One commit: the file it replaced and the file it wrote. */
  datatype Commit = Commit(request: Request, parent: Option<Artifact>, artifact: Artifact)

  /** The manager, the file, the submitters blocked inside `submit`, and the history: requests in the
      order they became pending, commits, and whether someone else wrote the file since the last one. */
  datatype State = State(
    disk: Option<Artifact>, foreign: bool,
    pending: Option<Request>, worker: Worker, blocked: set<Request>,
    closed: bool, failed: bool,
    nextId: nat, lastSubmitted: nat,
    committedId: nat, committedGeneration: int, current: Option<Digest>,
    submitted: seq<Request>, commits: seq<Commit>)

  function Initial(disk: Option<Artifact>, current: Option<Digest>): (s: State) {
    State(disk, false, None, Idle, {}, false, false, 1, 0, 0, 0, current, [], [])
  }

  /** What any thread does in one critical section. */
  datatype Step =
    | Submit(snapshot: Snapshot, generation: int, hash: Digest, barrier: bool)
    | Resume(request: Request)
    | Take
    | Write
    | WriteFails
    | Record
    | RecordFails
    | Overwrite(artifact: Option<Artifact>)
    | Close

  datatype Outcome = Accepted(id: nat) | Blocked(request: Request) | Rejected

  function Accept(s: State, r: Request): (t: State) {
    s.(pending := Some(r), lastSubmitted := r.id, submitted := s.submitted + [r])
  }

  /** The checks at the head of `submit`. */
  predicate Admissible(d: Digests, s: State, snapshot: Snapshot, generation: int, hash: Digest) {
    d.state(snapshot) == Some(hash) && !s.closed && !s.failed && generation >= s.committedGeneration
  }

  /** `submit` up to its first wait. */
  function SubmitNext(d: Digests, s: State, snapshot: Snapshot, generation: int, hash: Digest,
                      barrier: bool): (o: (State, Outcome)) {
    if !Admissible(d, s, snapshot, generation, hash) then (s, Rejected)
    else
      var r := Request(s.nextId, snapshot, generation, hash, barrier);
      var t := s.(nextId := s.nextId + 1);
      match s.pending
      case None => (Accept(t, r), Accepted(r.id))
      case Some(p) =>
        if p.barrier then (t.(blocked := t.blocked + {r}), Blocked(r))
        else if !barrier && generation < p.generation then (t, Rejected)
        else (Accept(t, r), Accepted(r.id))
  }

  /** A submitter that waited behind a pending barrier goes on. */
  function ResumeNext(s: State, r: Request): (t: State) {
    if r !in s.blocked || (s.pending.Some? && !s.failed && !s.closed) then s
    else
      var t := s.(blocked := s.blocked - {r});
      if s.failed || s.closed then t else Accept(t, r)
  }

  function TakeNext(s: State): (t: State) {
    if !s.worker.Idle? then s
    else if s.pending.Some? then s.(worker := Working(s.pending.value), pending := None)
    else if s.closed then s.(worker := Stopped)
    else s
  }

  function Fail(s: State): (t: State) {
    s.(failed := true, worker := Stopped)
  }

  /** The compare-and-swap test of `commit_snapshot`. */
  predicate ParentMatches(d: Digests, current: Option<Digest>, disk: Option<Artifact>) {
    current.None? || (disk.Some? && d.file(disk.value) == current.value)
  }

  function StoreGeneration(disk: Option<Artifact>): (g: nat) {
    if disk.Some? && disk.value.Image? then disk.value.generation else 0
  }

  function WriteNext(d: Digests, s: State): (t: State) {
    if !s.worker.Working? then s
    else
      var r := s.worker.request;
      if d.state(r.snapshot) != Some(r.hash) || !ParentMatches(d, s.current, s.disk) then Fail(s)
      else
        var a := Image(r.snapshot, StoreGeneration(s.disk) + 1);
        s.(disk := Some(a), foreign := false, worker := Written(r, a), commits := s.commits + [Commit(r, s.disk, a)])
  }

  function RecordNext(d: Digests, s: State): (t: State) {
    if !s.worker.Written? then s
    else
      var r := s.worker.request;
      s.(worker := Idle, committedId := r.id, committedGeneration := r.generation,
        current := Some(d.file(s.worker.artifact)))
  }

  function Next(d: Digests, s: State, step: Step): (t: State) {
    match step
    case Submit(snapshot, generation, hash, barrier) => SubmitNext(d, s, snapshot, generation, hash, barrier).0
    case Resume(r) => ResumeNext(s, r)
    case Take => TakeNext(s)
    case Write => WriteNext(d, s)
    case WriteFails => if s.worker.Working? then Fail(s) else s
    case Record => RecordNext(d, s)
    case RecordFails => if s.worker.Written? then Fail(s) else s
    case Overwrite(a) => s.(disk := a, foreign := true)
    case Close => s.(closed := true)
  }

  function Run(d: Digests, s: State, steps: seq<Step>): (t: State) {
    if steps == [] then s else Next(d, Run(d, s, steps[..|steps| - 1]), steps[|steps| - 1])
  }

  /** A submission that passes its checks while another call is blocked in `submit`. */
  predicate Late(d: Digests, s: State, step: Step) {
    step.Submit? && s.blocked != {} && Admissible(d, s, step.snapshot, step.generation, step.hash)
  }

  /** Submissions come one at a time: none is late. */
  ghost predicate Serial(d: Digests, s: State, steps: seq<Step>) {
    steps == [] || (Serial(d, s, steps[..|steps| - 1]) && !Late(d, Run(d, s, steps[..|steps| - 1]), steps[|steps| - 1]))
  }

  // ---------------------------------------------------------------- the manager object

  class Manager {
    const digests: Digests
    var disk: Option<Artifact>
    var pending: Option<Request>
    var worker: Worker
    var blocked: set<Request>
    var closed: bool
    var failed: bool
    var nextId: nat
    var lastSubmitted: nat
    var committedId: nat
    var committedGeneration: int
    var current: Option<Digest>
    ghost var foreign: bool
    ghost var submitted: seq<Request>
    ghost var commits: seq<Commit>

    ghost function View(): (s: State)
      reads this
    {
      State(disk, foreign, pending, worker, blocked, closed, failed, nextId, lastSubmitted,
            committedId, committedGeneration, current, submitted, commits)
    }

    constructor (digests: Digests, disk: Option<Artifact>, current: Option<Digest>)
      ensures this.digests == digests && View() == Initial(disk, current)
    {
      this.digests, this.disk, this.current := digests, disk, current;
      pending, worker, blocked := None, Idle, {};
      closed, failed, nextId, lastSubmitted := false, false, 1, 0;
      committedId, committedGeneration := 0, 0;
      foreign, submitted, commits := false, [], [];
    }

    method Enter(r: Request)
      modifies this
      ensures View() == Accept(old(View()), r)
    {
      pending, lastSubmitted, submitted := Some(r), r.id, submitted + [r];
    }

    method SubmitRequest(snapshot: Snapshot, generation: int, hash: Digest, barrier: bool) returns (o: Outcome)
      modifies this
      ensures (View(), o) == SubmitNext(digests, old(View()), snapshot, generation, hash, barrier)
      ensures old(pending).Some? && old(pending).value.barrier ==> pending == old(pending)
      ensures o.Accepted? ==> pending.Some? && pending.value.id == o.id == lastSubmitted == old(nextId)
      ensures o.Accepted? ==> pending.value.snapshot == snapshot
    {
      if digests.state(snapshot) != Some(hash) || closed || failed || generation < committedGeneration {
        return Rejected;
      }
      var r := Request(nextId, snapshot, generation, hash, barrier);
      nextId := nextId + 1;
      if pending.Some? && pending.value.barrier {
        blocked := blocked + {r};
        return Blocked(r);
      }
      if pending.Some? && !barrier && generation < pending.value.generation {
        return Rejected;
      }
      Enter(r);
      o := Accepted(r.id);
    }

    method ResumeSubmit(r: Request)
      requires r in blocked && (pending.None? || failed || closed)
      modifies this
      ensures View() == Next(digests, old(View()), Resume(r))
    {
      blocked := blocked - {r};
      if !failed && !closed {
        Enter(r);
      }
    }

    method TakePending()
      requires worker.Idle? && (pending.Some? || closed)
      modifies this
      ensures View() == Next(digests, old(View()), Take)
      ensures old(pending).Some? ==> worker == Working(old(pending).value)
    {
      if pending.None? && closed {
        worker := Stopped;
        return;
      }
      worker, pending := Working(pending.value), None;
    }

    method CommitSnapshot()
      requires worker.Working?
      modifies this
      ensures View() == Next(digests, old(View()), Write)
      ensures disk != old(disk) ==> ParentMatches(digests, old(current), old(disk))
      ensures worker.Written? ==> disk == Some(Image(worker.request.snapshot, StoreGeneration(old(disk)) + 1))
      ensures worker.Stopped? ==> failed && disk == old(disk)
    {
      var r := worker.request;
      if digests.state(r.snapshot) != Some(r.hash) || !ParentMatches(digests, current, disk) {
        failed, worker := true, Stopped;
        return;
      }
      var a := Image(r.snapshot, StoreGeneration(disk) + 1);
      commits := commits + [Commit(r, disk, a)];
      disk, foreign, worker := Some(a), false, Written(r, a);
    }

    method RecordCommit()
      requires worker.Written?
      modifies this
      ensures View() == Next(digests, old(View()), Record)
      ensures disk == Some(old(worker).artifact) ==> ParentMatches(digests, current, disk)
    {
      committedId, committedGeneration := worker.request.id, worker.request.generation;
      current := Some(digests.file(worker.artifact));
      worker := Idle;
    }
  }
}
