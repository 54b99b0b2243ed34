/** What the checkpoint protocol guarantees over every run, whatever the interleaving. */
module CheckpointLaws {
  import opened Basics
  import opened Checkpoint

  // ---------------------------------------------------------------- the invariant

  ghost predicate Ascending(rs: seq<Request>) {
    forall i, j :: 0 <= i < j < |rs| ==> rs[i].id < rs[j].id
  }

  function LastId(rs: seq<Request>): (id: nat) {
    if rs == [] then 0 else rs[|rs| - 1].id
  }

  /** Requests become pending in the order of their ids, and at most one submitter is blocked. */
  ghost predicate Queued(submitted: seq<Request>, last: nat, next: nat, pending: Option<Request>,
                         blocked: set<Request>) {
    && Ascending(submitted) && last == LastId(submitted) < next
    && (forall r :: r in submitted ==> 1 <= r.id <= last)
    && (pending.Some? ==> submitted != [] && submitted[|submitted| - 1] == pending.value)
    && (forall w :: w in blocked ==> last < w.id < next)
    && (forall w, w' :: w in blocked && w' in blocked ==> w == w')
  }

  ghost predicate CommitsAscend(commits: seq<Commit>) {
    forall i, j :: 0 <= i < j < |commits| ==> commits[i].request.id < commits[j].request.id
  }

  function LastCommitted(commits: seq<Commit>): (id: nat) {
    if commits == [] then 0 else commits[|commits| - 1].request.id
  }

  /** Commits go up in id, are of submitted requests, and hold their snapshots. */
  ghost predicate InOrder(submitted: seq<Request>, commits: seq<Commit>) {
    && CommitsAscend(commits)
    && forall c :: c in commits ==>
         c.request in submitted && c.artifact.Image? && c.artifact.snapshot == c.request.snapshot
  }

  /** The id of the request the worker holds, or else of the last one it recorded. */
  function InHand(worker: Worker, committed: nat): (id: nat) {
    if worker.Working? || worker.Written? then worker.request.id else committed
  }

  /** The worker holds the newest request unless a newer one is pending. */
  ghost predicate HoldsNewest(worker: Worker, committed: nat, pending: Option<Request>, last: nat, failed: bool,
                              closed: bool) {
    && (failed ==> worker.Stopped?) && (worker.Stopped? ==> failed || (closed && pending.None?))
    && (!failed ==> if pending.Some? then InHand(worker, committed) < pending.value.id
         else InHand(worker, committed) == last)
    && (worker.Working? || worker.Written? ==> committed < worker.request.id)
  }

  /** What the worker has recorded is the last commit. */
  ghost predicate Recorded(worker: Worker, committed: nat, failed: bool, submitted: seq<Request>,
                           commits: seq<Commit>) {
    && (worker.Working? ==> worker.request in submitted)
    && (worker.Written? ==>
          && commits != [] && commits[|commits| - 1].request == worker.request
          && commits[|commits| - 1].artifact == worker.artifact)
    && (!failed && !worker.Written? ==> committed == LastCommitted(commits))
  }

  /** Each commit's parent has the digest of the commit before it. */
  ghost predicate Chained(d: Digests, commits: seq<Commit>) {
    forall i :: 0 < i < |commits| ==>
      commits[i].parent.Some? && d.file(commits[i].parent.value) == d.file(commits[i - 1].artifact)
  }

  /** The file is the last commit's unless someone else has written it, and so is the expected parent. */
  ghost predicate Following(d: Digests, commits: seq<Commit>, worker: Worker, failed: bool, foreign: bool,
                            current: Option<Digest>, disk: Option<Artifact>)
  {
    commits != [] ==>
      var last := commits[|commits| - 1].artifact;
      && (!failed && !worker.Written? ==> current == Some(d.file(last)))
      && (!foreign ==> disk == Some(last))
  }

  ghost predicate IsCommitted(commits: seq<Commit>, r: Request) {
    exists c :: c in commits && c.request == r
  }

  /** No barrier is ever coalesced away. */
  ghost predicate BarriersKept(submitted: seq<Request>, pending: Option<Request>, worker: Worker, failed: bool,
                               commits: seq<Commit>) {
    forall r :: r in submitted && r.barrier ==>
      failed || pending == Some(r) || worker == Working(r) || IsCommitted(commits, r)
  }

  ghost predicate Inv(d: Digests, s: State) {
    && Queued(s.submitted, s.lastSubmitted, s.nextId, s.pending, s.blocked)
    && InOrder(s.submitted, s.commits)
    && HoldsNewest(s.worker, s.committedId, s.pending, s.lastSubmitted, s.failed, s.closed)
    && Recorded(s.worker, s.committedId, s.failed, s.submitted, s.commits)
    && Chained(d, s.commits)
    && Following(d, s.commits, s.worker, s.failed, s.foreign, s.current, s.disk)
    && BarriersKept(s.submitted, s.pending, s.worker, s.failed, s.commits)
  }

  // ---------------------------------------------------------------- every step keeps it

  lemma AcceptKeeps(d: Digests, s: State, r: Request)
    requires Inv(d, s) && s.lastSubmitted < r.id < s.nextId && s.blocked == {} && !s.failed && !s.closed
    requires s.pending.None? || !s.pending.value.barrier
    ensures Inv(d, Accept(s, r))
  {
  }

  /** Drawing an id, and possibly waiting with it. */
  lemma DrawKeeps(d: Digests, s: State, waiting: set<Request>)
    requires Inv(d, s) && s.blocked == {} && forall w, w' :: w in waiting && w' in waiting ==>
      w == w' && w.id == s.nextId
    ensures Inv(d, s.(nextId := s.nextId + 1, blocked := waiting))
  {
  }

  lemma SubmitKeeps(d: Digests, s: State, snapshot: Snapshot, generation: int, hash: Digest, barrier: bool)
    requires Inv(d, s) && s.blocked == {}
    ensures Inv(d, SubmitNext(d, s, snapshot, generation, hash, barrier).0)
  {
    hide Inv, Accept;
    var r := Request(s.nextId, snapshot, generation, hash, barrier);
    DrawKeeps(d, s, {});
    DrawKeeps(d, s, {r});
    LastBelowNext(d, s);
    if !s.failed && !s.closed && (s.pending.None? || !s.pending.value.barrier) {
      AcceptKeeps(d, s.(nextId := s.nextId + 1, blocked := {}), r);
    }
    assert s.(nextId := s.nextId + 1, blocked := {}) == s.(nextId := s.nextId + 1);
    assert {} + {r} == {r};
  }

  lemma LastBelowNext(d: Digests, s: State)
    requires Inv(d, s)
    ensures s.lastSubmitted < s.nextId && forall w :: w in s.blocked ==>
      s.lastSubmitted < w.id < s.nextId && s.blocked == {w}
  {
  }

  /** A blocked submitter leaving, whether it goes on or gives up. */
  lemma UnblockKeeps(d: Digests, s: State)
    requires Inv(d, s)
    ensures Inv(d, s.(blocked := {}))
  {
  }

  lemma ResumeKeeps(d: Digests, s: State, r: Request)
    requires Inv(d, s)
    ensures Inv(d, ResumeNext(s, r))
  {
    LastBelowNext(d, s);
    UnblockKeeps(d, s);
    hide Inv;
    if r in s.blocked && s.pending.None? && !s.failed && !s.closed {
      AcceptKeeps(d, s.(blocked := {}), r);
    }
    assert r in s.blocked ==> s.blocked - {r} == {};
  }

  lemma TakeKeeps(d: Digests, s: State)
    requires Inv(d, s)
    ensures Inv(d, TakeNext(s))
  {
    hide InOrder, Chained, Following, BarriersKept, Ascending;
    TakeFollows(d, s);
    PendingIsSubmitted(s);
  }

  lemma PendingIsSubmitted(s: State)
    requires Queued(s.submitted, s.lastSubmitted, s.nextId, s.pending, s.blocked)
    ensures s.pending.Some? ==> s.pending.value in s.submitted && s.pending.value.id == s.lastSubmitted
  {
  }

  lemma TakeFollows(d: Digests, s: State)
    requires Inv(d, s)
    ensures var t := TakeNext(s);
      && Following(d, t.commits, t.worker, t.failed, t.foreign, t.current, t.disk)
      && BarriersKept(t.submitted, t.pending, t.worker, t.failed, t.commits)
  {
    hide InOrder, Chained, Queued;
  }

  lemma FailKeeps(d: Digests, s: State)
    requires Inv(d, s)
    ensures Inv(d, Fail(s))
  {
  }

  lemma WriteKeeps(d: Digests, s: State)
    requires Inv(d, s)
    ensures Inv(d, WriteNext(d, s))
  {
    hide InOrder, Chained, Queued, BarriersKept;
    FailKeeps(d, s);
    if s.worker.Working? {
      var r := s.worker.request;
      var c := Commit(r, s.disk, Image(r.snapshot, StoreGeneration(s.disk) + 1));
      assert LastCommitted(s.commits) < r.id;
      WriteOrders(s.submitted, s.commits, c);
      if ParentMatches(d, s.current, s.disk) {
        WriteChains(d, s, c);
      }
      WriteKeepsBarriers(s, c);
    }
  }

  lemma WriteOrders(submitted: seq<Request>, commits: seq<Commit>, c: Commit)
    requires InOrder(submitted, commits) && LastCommitted(commits) < c.request.id && c.request in submitted
    requires c.artifact.Image? && c.artifact.snapshot == c.request.snapshot
    ensures InOrder(submitted, commits + [c])
  {
  }

  lemma WriteChains(d: Digests, s: State, c: Commit)
    requires Chained(d, s.commits) && Following(d, s.commits, s.worker, s.failed, s.foreign, s.current, s.disk)
    requires s.worker.Working? && !s.failed && ParentMatches(d, s.current, s.disk) && c.parent == s.disk
    ensures Chained(d, s.commits + [c])
  {
  }

  lemma WriteKeepsBarriers(s: State, c: Commit)
    requires BarriersKept(s.submitted, s.pending, s.worker, s.failed, s.commits) && s.worker == Working(c.request)
    ensures BarriersKept(s.submitted, s.pending, Written(c.request, c.artifact), s.failed, s.commits + [c])
  {
    forall r | IsCommitted(s.commits, r) ensures IsCommitted(s.commits + [c], r) {
      var b :| b in s.commits && b.request == r;
      assert b in s.commits + [c];
    }
    assert c in s.commits + [c];
  }

  lemma RecordKeeps(d: Digests, s: State)
    requires Inv(d, s)
    ensures Inv(d, RecordNext(d, s))
  {
  }

  lemma OutsideKeeps(d: Digests, s: State, step: Step)
    requires Inv(d, s) && (step.Overwrite? || step.Close?)
    ensures Inv(d, Next(d, s, step))
  {
  }

  lemma StepKeeps(d: Digests, s: State, step: Step)
    requires Inv(d, s) && !Late(d, s, step)
    ensures Inv(d, Next(d, s, step))
  {
    hide Inv;
    match step
    case Submit(snapshot, generation, hash, barrier) =>
      if Admissible(d, s, snapshot, generation, hash) {
        SubmitKeeps(d, s, snapshot, generation, hash, barrier);
      }
    case Resume(r) => ResumeKeeps(d, s, r);
    case Take => TakeKeeps(d, s);
    case Write => WriteKeeps(d, s);
    case WriteFails => FailKeeps(d, s);
    case Record => RecordKeeps(d, s);
    case RecordFails => FailKeeps(d, s);
    case Overwrite(a) => OutsideKeeps(d, s, step);
    case Close => OutsideKeeps(d, s, step);
  }

  lemma {:induction false} RunKeeps(d: Digests, s: State, steps: seq<Step>)
    requires Inv(d, s) && Serial(d, s, steps)
    ensures Inv(d, Run(d, s, steps))
  {
    hide Inv, Next, Late;
    if steps != [] {
      RunKeeps(d, s, steps[..|steps| - 1]);
      StepKeeps(d, Run(d, s, steps[..|steps| - 1]), steps[|steps| - 1]);
    }
  }

  lemma InitialHolds(d: Digests, disk: Option<Artifact>, current: Option<Digest>)
    ensures Inv(d, Initial(disk, current))
  {
  }

  /** A state the manager can be in with one submitter at a time. */
  ghost predicate Reachable(d: Digests, s: State) {
    exists disk, current, steps :: Serial(d, Initial(disk, current), steps)
      && s == Run(d, Initial(disk, current), steps)
  }

  lemma ReachableHolds(d: Digests, s: State)
    requires Reachable(d, s)
    ensures Inv(d, s)
  {
    var disk, current, steps :| Serial(d, Initial(disk, current), steps) && s == Run(d, Initial(disk, current), steps);
    InitialHolds(d, disk, current);
    RunKeeps(d, Initial(disk, current), steps);
  }

  // ---------------------------------------------------------------- what the protocol promises

  function Requests(commits: seq<Commit>): (rs: seq<Request>)
    ensures |rs| == |commits| && forall i :: 0 <= i < |rs| ==> rs[i] == commits[i].request
  {
    seq(|commits|, i requires 0 <= i < |commits| => commits[i].request)
  }

  /** `part` picks requests of `whole` at strictly increasing positions. */
  ghost predicate Picks(positions: seq<nat>, part: seq<Request>, whole: seq<Request>) {
    && |positions| == |part|
    && (forall i :: 0 <= i < |part| ==> positions[i] < |whole| && part[i] == whole[positions[i]])
    && (forall i, j :: 0 <= i < j < |part| ==> positions[i] < positions[j])
  }

  lemma {:induction false} AscendingPicks(part: seq<Request>, whole: seq<Request>) returns (positions: seq<nat>)
    requires Ascending(part) && Ascending(whole) && forall r :: r in part ==> r in whole
    ensures Picks(positions, part, whole)
  {
    if part == [] {
      return [];
    }
    var n := |part| - 1;
    var before := AscendingPicks(part[..n], whole);
    assert part[n] in part;
    var k :| 0 <= k < |whole| && whole[k] == part[n];
    positions := before + [k];
    forall i | 0 <= i < n ensures positions[i] < k {
      assert part[i] == part[..n][i] == whole[before[i]];
    }
  }

  /** Commits are a subsequence of submissions with strictly increasing ids, and each one replaced
      the file that the commit before it wrote. */
  lemma CommitsFollowSubmissions(d: Digests, s: State) returns (positions: seq<nat>)
    requires Reachable(d, s)
    ensures Picks(positions, Requests(s.commits), s.submitted) && CommitsAscend(s.commits)
    ensures forall c :: c in s.commits ==> c.artifact.Image? && c.artifact.snapshot == c.request.snapshot
    ensures forall i :: 0 < i < |s.commits| ==>
      s.commits[i].parent.Some? && d.file(s.commits[i].parent.value) == d.file(s.commits[i - 1].artifact)
  {
    ReachableHolds(d, s);
    assert forall r :: r in Requests(s.commits) ==> r in s.submitted;
    positions := AscendingPicks(Requests(s.commits), s.submitted);
  }

  /** What a waiter sees when `wait_for_request` or `flush` comes back true. */
  predicate Durable(s: State, id: nat) {
    !s.failed && s.committedId >= id
  }

  /** When a barrier submit returns, or `flush` says true, the file holds exactly the last submitted
      snapshot, unless someone else has written the file since. */
  lemma DurableMeansOnDisk(d: Digests, s: State)
    requires Reachable(d, s) && s.submitted != [] && Durable(s, s.lastSubmitted)
    ensures LastOnDisk(s)
  {
    ReachableHolds(d, s);
    InvDurable(d, s);
  }

  /** The last submission is the last commit, and on disk unless someone else has written there. */
  ghost predicate LastOnDisk(s: State)
    requires s.submitted != []
  {
    var last := s.submitted[|s.submitted| - 1];
    && s.commits != [] && s.commits[|s.commits| - 1].request == last
    && (!s.foreign ==> s.disk.Some? && s.disk.value.Image? && s.disk.value.snapshot == last.snapshot)
  }

  lemma InvDurable(d: Digests, s: State)
    requires Inv(d, s) && s.submitted != [] && Durable(s, s.lastSubmitted)
    ensures LastOnDisk(s)
  {
    var c := s.commits[|s.commits| - 1];
    assert c in s.commits;
    SameId(s.submitted, c.request, s.submitted[|s.submitted| - 1]);
  }

  lemma SameId(rs: seq<Request>, a: Request, b: Request)
    requires Ascending(rs) && a in rs && b in rs && a.id == b.id
    ensures a == b
  {
  }

  /** A worker that stops without an error has left nothing behind. */
  lemma CleanStopIsDurable(d: Digests, s: State)
    requires Reachable(d, s) && s.worker.Stopped? && !s.failed
    ensures s.pending.None? && Durable(s, s.lastSubmitted)
  {
    ReachableHolds(d, s);
  }

  /** Every barrier submitted is committed, still on its way, or the worker has failed. */
  lemma BarriersAreNotSkipped(d: Digests, s: State, r: Request)
    requires Reachable(d, s) && r in s.submitted && r.barrier
    ensures s.failed || s.pending == Some(r) || s.worker == Working(r) || IsCommitted(s.commits, r)
  {
    ReachableHolds(d, s);
  }

  // ---------------------------------------------------------------- writes by others

  /** The digest the next commit will ask for. */
  function Expected(d: Digests, s: State): (e: Option<Digest>) {
    if s.worker.Written? then Some(d.file(s.worker.artifact)) else s.current
  }

  /** The file is not the one the worker left. */
  ghost predicate Diverged(d: Digests, s: State) {
    Expected(d, s).Some? && (s.disk.None? || d.file(s.disk.value) != Expected(d, s).value)
  }

  lemma DivergedStep(d: Digests, s: State, step: Step)
    requires Diverged(d, s) && !step.Overwrite?
    ensures var t := Next(d, s, step);
      t.disk == s.disk && t.commits == s.commits && ((t.failed && t.worker.Stopped?) || Diverged(d, t))
    ensures step.Write? && s.worker.Working? ==> Next(d, s, step).failed && Next(d, s, step).worker.Stopped?
  {
  }

  /** Once someone else has written the file, nothing the manager does overwrites it: no commit
      happens until that writer puts back a file with the expected digest. */
  lemma {:induction false} ForeignWriteSurvives(d: Digests, s: State, steps: seq<Step>)
    requires Diverged(d, s) && forall step :: step in steps ==> !step.Overwrite?
    ensures var t := Run(d, s, steps); t.disk == s.disk && t.commits == s.commits
  {
    DivergedRun(d, s, steps);
  }

  lemma {:induction false} DivergedRun(d: Digests, s: State, steps: seq<Step>)
    requires (Diverged(d, s) || (s.failed && s.worker.Stopped?)) && forall step :: step in steps ==> !step.Overwrite?
    ensures var t := Run(d, s, steps);
      t.disk == s.disk && t.commits == s.commits && (Diverged(d, t) || (t.failed && t.worker.Stopped?))
  {
    hide Next, Diverged;
    if steps != [] {
      var before, step := steps[..|steps| - 1], steps[|steps| - 1];
      DivergedRun(d, s, before);
      var m := Run(d, s, before);
      if Diverged(d, m) {
        DivergedStep(d, m, step);
      } else {
        StoppedStep(d, m, step);
      }
    }
  }

  lemma StoppedStep(d: Digests, s: State, step: Step)
    requires s.failed && s.worker.Stopped? && !step.Overwrite?
    ensures var t := Next(d, s, step); t.disk == s.disk && t.commits == s.commits && t.failed && t.worker.Stopped?
  {
  }

  // ---------------------------------------------------------------- undisturbed runs

  /** Nobody else writes the file: it is always the one the next commit expects, every commit
      replaced exactly the file before it, and frozen snapshots keep their hashes. */
  ghost predicate Undisturbed(d: Digests, s: State) {
    && !s.foreign
    && (s.worker.Written? ==> s.disk == Some(s.worker.artifact))
    && (!s.worker.Written? && !s.failed ==> ParentMatches(d, s.current, s.disk))
    && (s.commits != [] ==> s.disk == Some(s.commits[|s.commits| - 1].artifact))
    && (forall i :: 0 < i < |s.commits| ==> s.commits[i].parent == Some(s.commits[i - 1].artifact))
    && (forall i :: 0 <= i < |s.commits| ==>
          s.commits[i].artifact.Image? && s.commits[i].artifact.generation == StoreGeneration(s.commits[i].parent) + 1)
  }

  ghost predicate Verified(d: Digests, s: State) {
    && (forall r :: r in s.blocked ==> d.state(r.snapshot) == Some(r.hash))
    && (s.pending.Some? ==> d.state(s.pending.value.snapshot) == Some(s.pending.value.hash))
    && (s.worker.Working? ==> d.state(s.worker.request.snapshot) == Some(s.worker.request.hash))
  }

  lemma VerifiedStep(d: Digests, s: State, step: Step)
    requires Verified(d, s)
    ensures Verified(d, Next(d, s, step))
  {
  }

  lemma UndisturbedStep(d: Digests, s: State, step: Step)
    requires Undisturbed(d, s) && !step.Overwrite?
    ensures Undisturbed(d, Next(d, s, step))
  {
    if step.Write? {
      UndisturbedWrite(d, s);
      hide Undisturbed;
    }
  }

  lemma UndisturbedWrite(d: Digests, s: State)
    requires Undisturbed(d, s)
    ensures Undisturbed(d, WriteNext(d, s))
  {
  }

  /** In a run without other writers every write succeeds: only an input or output error stops the worker. */
  lemma {:induction false} UndisturbedRun(d: Digests, disk: Option<Artifact>, current: Option<Digest>, steps: seq<Step>)
    requires ParentMatches(d, current, disk) && forall step :: step in steps ==> !step.Overwrite?
    ensures var s := Run(d, Initial(disk, current), steps);
      && Undisturbed(d, s) && Verified(d, s)
      && (s.worker.Working? && !s.failed ==> Next(d, s, Write).worker.Written?)
  {
    var s := Run(d, Initial(disk, current), steps);
    assert Undisturbed(d, s) && Verified(d, s) by {
      hide Undisturbed, Verified, Next;
      if steps == [] {
        InitialUndisturbed(d, disk, current);
      } else {
        UndisturbedRun(d, disk, current, steps[..|steps| - 1]);
        var m := Run(d, Initial(disk, current), steps[..|steps| - 1]);
        UndisturbedStep(d, m, steps[|steps| - 1]);
        VerifiedStep(d, m, steps[|steps| - 1]);
      }
    }
  }

  lemma InitialUndisturbed(d: Digests, disk: Option<Artifact>, current: Option<Digest>)
    requires ParentMatches(d, current, disk)
    ensures Undisturbed(d, Initial(disk, current)) && Verified(d, Initial(disk, current))
  {
  }

  /** The worker finishes what it holds, then what is pending. */
  function Drained(d: Digests, s: State): (t: State) {
    Next(d, Next(d, WorkerRound(d, s), Write), Record)
  }

  /** The worker commits what it holds and takes what is pending. */
  function WorkerRound(d: Digests, s: State): (t: State) {
    Next(d, Next(d, Next(d, s, Write), Record), Take)
  }

  /** After one round the worker holds the last submission, or it is committed. */
  lemma RoundReachesLast(d: Digests, s: State)
    requires Inv(d, s) && Undisturbed(d, s) && Verified(d, s) && !s.failed
    ensures var t := WorkerRound(d, s);
      && !t.failed && t.lastSubmitted == s.lastSubmitted
      && (if t.worker.Working? then t.worker.request.id == s.lastSubmitted && WriteSucceeds(d, t)
          else t.committedId == s.lastSubmitted && !t.worker.Written?)
  {
    hide Queued, InOrder, Chained, BarriersKept, Recorded;
    PendingIsSubmitted(s);
  }

  ghost predicate WriteSucceeds(d: Digests, s: State)
    requires s.worker.Working?
  {
    d.state(s.worker.request.snapshot) == Some(s.worker.request.hash) && ParentMatches(d, s.current, s.disk)
  }

  /** Nothing blocks a flush for good: in a run without other writers and without input or output
      errors, five worker steps make the last submission durable. */
  lemma WorkerCatchesUp(d: Digests, disk: Option<Artifact>, current: Option<Digest>, steps: seq<Step>)
    requires ParentMatches(d, current, disk) && Serial(d, Initial(disk, current), steps)
    requires forall step :: step in steps ==> !step.Overwrite?
    ensures var s := Run(d, Initial(disk, current), steps);
      !s.failed ==> Durable(Drained(d, s), s.lastSubmitted) && Drained(d, s).lastSubmitted == s.lastSubmitted
  {
    InitialHolds(d, disk, current);
    RunKeeps(d, Initial(disk, current), steps);
    UndisturbedRun(d, disk, current, steps);
    hide Inv, Undisturbed, Verified, Run, Serial, Initial, WorkerRound;
    var s := Run(d, Initial(disk, current), steps);
    if !s.failed {
      RoundReachesLast(d, s);
    }
  }

  // ---------------------------------------------------------------- several submitters

  /** Three requests from three threads: the second draws its id, waits behind the first, and the
      third becomes pending before the second wakes up. */
  function Overtaking(d: Digests, x: Snapshot, h: Digest): (s: State) {
    var s1 := Next(d, Initial(None, None), Submit(x, 0, h, true));
    var s2 := Next(d, s1, Submit(x, 0, h, false));
    var s3 := Next(d, s2, Take);
    Next(d, s3, Submit(x, 0, h, false))
  }

  lemma RoundCommits(d: Digests, s: State)
    requires s.worker.Working? && s.pending.Some? && ParentMatches(d, s.current, s.disk)
    requires d.state(s.worker.request.snapshot) == Some(s.worker.request.hash)
    ensures var t := WorkerRound(d, s);
      && t.worker == Working(s.pending.value) && t.pending.None? && t.blocked == s.blocked && t.failed == s.failed
      && t.closed == s.closed
      && |t.commits| == |s.commits| + 1 && t.commits[..|s.commits|] == s.commits
      && t.commits[|s.commits|].request == s.worker.request
      && ParentMatches(d, t.current, t.disk)
  {
  }

  /** With several submitters ids can be committed out of order: here 1, 3, 2. */
  lemma OvertakingCommits(d: Digests, x: Snapshot, h: Digest)
    requires d.state(x) == Some(h)
    ensures var r2 := Request(2, x, 0, h, false);
      var c := Next(d, WorkerRound(d, Next(d, WorkerRound(d, Overtaking(d, x, h)), Resume(r2))), Write).commits;
      |c| == 3 && c[0].request.id == 1 && c[1].request.id == 3 && c[2].request == r2
  {
    var r2 := Request(2, x, 0, h, false);
    var s := Overtaking(d, x, h);
    assert s.blocked == {r2} && s.pending == Some(Request(3, x, 0, h, false));
    assert s.worker == Working(Request(1, x, 0, h, true)) && s.commits == [];
    hide WorkerRound, Overtaking;
    RoundCommits(d, s);
    var t := Next(d, WorkerRound(d, s), Resume(r2));
    RoundCommits(d, t);
    var u := WorkerRound(d, t);
    assert u.commits[0] == u.commits[..1][0];
    assert Next(d, u, Write).commits == u.commits + [Commit(r2, u.disk, Image(x, StoreGeneration(u.disk) + 1))];
  }

  // ---------------------------------------------------------------- what is let in, and what it becomes

  /** A submission is refused exactly when its hash is wrong, the manager is closed or broken, or its
      generation is behind the last recorded one or, unless it is a barrier, behind the pending one;
      otherwise it waits exactly when a barrier is pending, and else becomes the pending request as it
      was submitted, under the next number. */
  lemma SubmitAnswers(d: Digests, s: State, snapshot: Snapshot, generation: int, hash: Digest, barrier: bool)
    ensures var (t, o) := SubmitNext(d, s, snapshot, generation, hash, barrier);
      var behindBarrier := s.pending.Some? && s.pending.value.barrier;
      var r := Request(s.nextId, snapshot, generation, hash, barrier);
      && (o.Rejected? <==>
           || d.state(snapshot) != Some(hash) || s.closed || s.failed || generation < s.committedGeneration
           || (s.pending.Some? && !behindBarrier && !barrier && generation < s.pending.value.generation))
      && (o.Blocked? <==> !o.Rejected? && behindBarrier)
      && (o.Blocked? ==> o.request == r && t.blocked == s.blocked + {r} && t.pending == s.pending)
      && (o.Accepted? ==>
           && o.id == s.nextId == t.lastSubmitted && t.pending == Some(r)
           && t.submitted == s.submitted + [r] && t.blocked == s.blocked)
      && t.disk == s.disk && t.worker == s.worker && t.commits == s.commits && t.current == s.current
      && t.committedId == s.committedId && t.committedGeneration == s.committedGeneration
  {
  }

  /** This commit was of a snapshot with the hash it was submitted with. */
  ghost predicate Sound(d: Digests, c: Commit) {
    d.state(c.request.snapshot) == Some(c.request.hash) && c.artifact.Image?
    && c.artifact.snapshot == c.request.snapshot
    && c.artifact.generation == (if c.parent.Some? && c.parent.value.Image? then c.parent.value.generation else 0) + 1
  }

  ghost predicate RecordedAs(commits: seq<Commit>, id: nat, generation: int) {
    exists c :: c in commits && c.request.id == id && c.request.generation == generation
  }

  ghost predicate RecordedSound(d: Digests, s: State) {
    && (forall c :: c in s.commits ==> Sound(d, c))
    && (s.worker.Written? ==> RecordedAs(s.commits, s.worker.request.id, s.worker.request.generation))
    && ((s.committedId == 0 && s.committedGeneration == 0)
        || RecordedAs(s.commits, s.committedId, s.committedGeneration))
  }

  lemma StillRecorded(commits: seq<Commit>, c: Commit, id: nat, generation: int)
    ensures RecordedAs(commits, id, generation) ==> RecordedAs(commits + [c], id, generation)
    ensures RecordedAs(commits + [c], c.request.id, c.request.generation)
  {
    assert c in commits + [c];
    if RecordedAs(commits, id, generation) {
      var b :| b in commits && b.request.id == id && b.request.generation == generation;
      assert b in commits + [c];
    }
  }

  lemma RecordedSoundWrite(d: Digests, s: State)
    requires RecordedSound(d, s)
    ensures RecordedSound(d, WriteNext(d, s))
  {
    hide RecordedAs;
    if s.worker.Working? {
      var r := s.worker.request;
      var c := Commit(r, s.disk, Image(r.snapshot, StoreGeneration(s.disk) + 1));
      StillRecorded(s.commits, c, s.committedId, s.committedGeneration);
    }
  }

  lemma RecordedSoundStep(d: Digests, s: State, step: Step)
    requires RecordedSound(d, s)
    ensures RecordedSound(d, Next(d, s, step))
  {
    hide RecordedAs, Sound, WriteNext;
    if step.Write? {
      RecordedSoundWrite(d, s);
      hide RecordedSound;
    }
  }

  /** Over every run, with any interleaving and any strangers: each commit holds a snapshot with its own
      hash, one store generation above what it replaced; and the number and the generation the manager
      reports as committed are those of one and the same commit, or nothing was recorded yet. */
  lemma {:induction false} CommitsAreSound(d: Digests, disk: Option<Artifact>, current: Option<Digest>,
                                           steps: seq<Step>)
    ensures RecordedSound(d, Run(d, Initial(disk, current), steps))
  {
    if steps != [] {
      hide Next, RecordedSound;
      CommitsAreSound(d, disk, current, steps[..|steps| - 1]);
      RecordedSoundStep(d, Run(d, Initial(disk, current), steps[..|steps| - 1]), steps[|steps| - 1]);
    }
  }
}
