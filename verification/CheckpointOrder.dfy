/** Exactly which submissions let the checkpoint worker commit request ids out of order. */
module CheckpointOrder {
  import opened Basics
  import opened Checkpoint
  import opened CheckpointLaws

  // ---------------------------------------------------------------- runs in pieces

  lemma {:induction false} RunJoins(d: Digests, s: State, front: seq<Step>, back: seq<Step>)
    ensures Run(d, s, front + back) == Run(d, Run(d, s, front), back)
    decreases |back|
  {
    hide Next;
    if back == [] {
      assert front + back == front;
    } else {
      var n := |back| - 1;
      assert (front + back)[..|front| + n] == front + back[..n];
      RunJoins(d, s, front, back[..n]);
    }
  }

  lemma RunOne(d: Digests, s: State, step: Step)
    ensures Run(d, s, [step]) == Next(d, s, step)
  {
    assert [step][..0] == [];
  }

  const ROUND: seq<Step> := [Write, Record, Take]

  lemma RunRound(d: Digests, s: State)
    ensures Run(d, s, ROUND) == WorkerRound(d, s)
  {
    hide Next;
    RunOne(d, s, Write);
    RunOne(d, Next(d, s, Write), Record);
    RunOne(d, Next(d, Next(d, s, Write), Record), Take);
    RunJoins(d, s, [Write], [Record]);
    RunJoins(d, s, [Write] + [Record], [Take]);
    assert ROUND == [Write] + [Record] + [Take];
  }

  /** Runs without submissions are serial. */
  lemma {:induction false} QuietIsSerial(d: Digests, s: State, steps: seq<Step>)
    requires forall step :: step in steps ==> !step.Submit?
    ensures Serial(d, s, steps)
  {
    if steps != [] {
      QuietIsSerial(d, s, steps[..|steps| - 1]);
      assert steps[|steps| - 1] in steps;
    }
  }

  // ---------------------------------------------------------------- where a submitter waits

  /** Whoever is blocked waits behind a barrier, or has been let through and not woken yet. */
  ghost predicate Behind(s: State) {
    s.blocked != {} ==> s.pending.None? || s.pending.value.barrier
  }

  /** A worker that nothing outside disturbs, with its submitters one at a time. */
  ghost predicate Orderly(d: Digests, s: State) {
    Inv(d, s) && Undisturbed(d, s) && Verified(d, s) && Behind(s)
  }

  lemma BehindStep(d: Digests, s: State, step: Step)
    requires Inv(d, s) && Behind(s) && !Late(d, s, step)
    ensures Behind(Next(d, s, step))
  {
    LastBelowNext(d, s);
    hide Inv;
  }

  lemma OrderlyStep(d: Digests, s: State, step: Step)
    requires Orderly(d, s) && !Late(d, s, step) && !step.Overwrite?
    ensures Orderly(d, Next(d, s, step))
  {
    hide Inv, Undisturbed, Verified, Behind, Late, Next;
    StepKeeps(d, s, step);
    UndisturbedStep(d, s, step);
    VerifiedStep(d, s, step);
    BehindStep(d, s, step);
  }

  lemma {:induction false} OrderlyRun(d: Digests, disk: Option<Artifact>, current: Option<Digest>, steps: seq<Step>)
    requires ParentMatches(d, current, disk) && Serial(d, Initial(disk, current), steps)
    requires forall step :: step in steps ==> !step.Overwrite?
    ensures Orderly(d, Run(d, Initial(disk, current), steps))
  {
    if steps == [] {
      hide Inv, Undisturbed, Verified;
      InitialHolds(d, disk, current);
      InitialUndisturbed(d, disk, current);
    } else {
      hide Orderly, Late, Next;
      var n := |steps| - 1;
      assert steps[n] in steps;
      OrderlyRun(d, disk, current, steps[..n]);
      OrderlyStep(d, Run(d, Initial(disk, current), steps[..n]), steps[n]);
    }
  }

  // ---------------------------------------------------------------- overtaking

  /** Request `r` is pending, nothing stops the worker, and `w` still waits. */
  ghost predicate Poised(d: Digests, s: State, r: Request, w: Request) {
    && Undisturbed(d, s) && Verified(d, s) && !s.failed && !s.closed && !s.worker.Stopped?
    && s.pending == Some(r) && w in s.blocked
  }

  /** A worker round ends with the pending request in hand, whatever was in hand before. */
  lemma RoundTakes(d: Digests, s: State)
    requires Undisturbed(d, s) && Verified(d, s) && !s.failed && !s.closed && !s.worker.Stopped? && s.pending.Some?
    ensures var t := WorkerRound(d, s);
      && t.worker == Working(s.pending.value) && t.pending.None? && t.blocked == s.blocked && !t.failed && !t.closed
      && (s.worker.Working? ==> |t.commits| > 0 && t.commits[|t.commits| - 1].request == s.worker.request)
  {
  }

  lemma RoundUndisturbed(d: Digests, s: State)
    requires Undisturbed(d, s) && Verified(d, s)
    ensures Undisturbed(d, WorkerRound(d, s)) && Verified(d, WorkerRound(d, s))
  {
    hide Undisturbed, Verified, Next;
    var s1 := Next(d, s, Write);
    var s2 := Next(d, s1, Record);
    UndisturbedStep(d, s, Write);
    UndisturbedStep(d, s1, Record);
    UndisturbedStep(d, s2, Take);
    VerifiedStep(d, s, Write);
    VerifiedStep(d, s1, Record);
    VerifiedStep(d, s2, Take);
  }

  /** The worker takes the pending request, `w` becomes pending, and both are committed in that order. */
  function Overtaken(d: Digests, s: State, w: Request): (t: State) {
    Next(d, WorkerRound(d, Next(d, WorkerRound(d, s), Resume(w))), Write)
  }

  lemma PoisedOvertakes(d: Digests, s: State, r: Request, w: Request)
    requires Poised(d, s, r, w)
    ensures var c := Overtaken(d, s, w).commits;
      |c| >= 2 && c[|c| - 2].request == r && c[|c| - 1].request == w
  {
    hide Undisturbed, Verified, WorkerRound, Next;
    RoundTakes(d, s);
    RoundUndisturbed(d, s);
    var t := WorkerRound(d, s);
    var u := Next(d, t, Resume(w));
    UndisturbedStep(d, t, Resume(w));
    VerifiedStep(d, t, Resume(w));
    Resumed(d, t, w);
    RoundTakes(d, u);
    RoundUndisturbed(d, u);
    WriteAppends(d, WorkerRound(d, u));
  }

  lemma Resumed(d: Digests, s: State, w: Request)
    requires w in s.blocked && s.pending.None? && !s.failed && !s.closed
    ensures var t := Next(d, s, Resume(w));
      t.pending == Some(w) && t.worker == s.worker && !t.failed && !t.closed && t.blocked == s.blocked - {w}
  {
  }

  lemma WriteAppends(d: Digests, s: State)
    requires Undisturbed(d, s) && Verified(d, s) && !s.failed && s.worker.Working?
    ensures var c := Next(d, s, Write).commits;
      |c| == |s.commits| + 1 && c[..|s.commits|] == s.commits && c[|c| - 1].request == s.worker.request
  {
  }

  /** The steps behind `Overtaken`. */
  function Overtake(w: Request): (steps: seq<Step>) {
    ROUND + [Resume(w)] + ROUND + [Write]
  }

  lemma OvertakeRuns(d: Digests, s: State, w: Request)
    ensures Run(d, s, Overtake(w)) == Overtaken(d, s, w)
  {
    hide Next, WorkerRound, Run;
    var t := WorkerRound(d, s);
    var u := Next(d, t, Resume(w));
    RunRound(d, s);
    RunOne(d, t, Resume(w));
    RunRound(d, u);
    RunOne(d, WorkerRound(d, u), Write);
    RunJoins(d, s, ROUND, [Resume(w)]);
    RunJoins(d, s, ROUND + [Resume(w)], ROUND);
    RunJoins(d, s, ROUND + [Resume(w)] + ROUND, [Write]);
  }

  /** A run without submissions after which commits are out of order. */
  ghost predicate LosesOrder(d: Digests, s: State, more: seq<Step>) {
    Serial(d, s, more) && !CommitsAscend(Run(d, s, more).commits)
  }

  lemma PoisedLoses(d: Digests, s: State, r: Request, w: Request)
    requires Poised(d, s, r, w) && w.id < r.id
    ensures LosesOrder(d, s, Overtake(w))
  {
    hide Poised, Overtaken, Run, Serial, Next;
    PoisedOvertakes(d, s, r, w);
    OvertakeRuns(d, s, w);
    QuietIsSerial(d, s, Overtake(w));
  }

  /** A late submission can always be committed before the call that was blocked first. */
  lemma LateLoses(d: Digests, s: State, step: Step) returns (more: seq<Step>)
    requires Orderly(d, s) && Late(d, s, step)
    ensures LosesOrder(d, Next(d, s, step), more)
  {
    hide Orderly, Next, WorkerRound, Poised, LosesOrder;
    var w :| w in s.blocked;
    var r := Request(s.nextId, step.snapshot, step.generation, step.hash, step.barrier);
    var t := Next(d, s, step);
    LateEnters(d, s, step, w, r);
    if s.pending.None? {
      more := Overtake(w);
      PoisedLoses(d, t, r, w);
    } else {
      var u := Next(d, WorkerRound(d, t), Resume(r));
      more := ROUND + [Resume(r)] + Overtake(w);
      LetThrough(d, t, s.pending.value, r, w);
      PoisedLoses(d, u, r, w);
      LongerLoses(d, t, r, Overtake(w), more);
    }
  }

  lemma LateEnters(d: Digests, s: State, step: Step, w: Request, r: Request)
    requires Orderly(d, s) && Late(d, s, step) && w in s.blocked
    requires r == Request(s.nextId, step.snapshot, step.generation, step.hash, step.barrier)
    ensures w.id < r.id
    ensures s.pending.None? ==> Poised(d, Next(d, s, step), r, w)
    ensures s.pending.Some? ==>
      Poised(d, Next(d, s, step), s.pending.value, w) && r in Next(d, s, step).blocked && r != w
  {
    LastBelowNext(d, s);
    RunsOn(d, s);
    UndisturbedStep(d, s, step);
    VerifiedStep(d, s, step);
    hide Inv, Undisturbed, Verified;
  }

  lemma RunsOn(d: Digests, s: State)
    requires Inv(d, s) && !s.failed && !s.closed
    ensures !s.worker.Stopped?
  {
  }

  /** The barrier goes to the worker, and the later of the two blocked calls wakes first. */
  lemma LetThrough(d: Digests, s: State, barrier: Request, r: Request, w: Request)
    requires Poised(d, s, barrier, w) && r in s.blocked && r != w
    ensures Poised(d, Next(d, WorkerRound(d, s), Resume(r)), r, w)
  {
    hide Undisturbed, Verified, WorkerRound, Next;
    RoundTakes(d, s);
    RoundUndisturbed(d, s);
    var t := WorkerRound(d, s);
    UndisturbedStep(d, t, Resume(r));
    VerifiedStep(d, t, Resume(r));
    Resumed(d, t, r);
  }

  lemma LongerLoses(d: Digests, s: State, r: Request, rest: seq<Step>, more: seq<Step>)
    requires more == ROUND + [Resume(r)] + rest && forall step :: step in rest ==> !step.Submit?
    requires LosesOrder(d, Next(d, WorkerRound(d, s), Resume(r)), rest)
    ensures LosesOrder(d, s, more)
  {
    hide Run, Serial, Next, WorkerRound, CommitsAscend;
    RunRound(d, s);
    RunOne(d, WorkerRound(d, s), Resume(r));
    RunJoins(d, s, ROUND, [Resume(r)]);
    RunJoins(d, s, ROUND + [Resume(r)], rest);
    QuietIsSerial(d, s, more);
  }

  // ---------------------------------------------------------------- the exact line

  /** Whatever serial steps follow, commits go up in id. */
  ghost predicate SafeOrder(d: Digests, s: State) {
    forall more :: Serial(d, s, more) ==> CommitsAscend(Run(d, s, more).commits)
  }

  lemma SerialIsSafe(d: Digests, s: State)
    requires Inv(d, s)
    ensures SafeOrder(d, s)
  {
    forall more | Serial(d, s, more) ensures CommitsAscend(Run(d, s, more).commits) {
      RunKeeps(d, s, more);
    }
  }

  /** After any serial and undisturbed run, a next step puts the order of commits at risk exactly when
      it is a late submission. */
  lemma OnlyLateStepsLoseOrder(d: Digests, disk: Option<Artifact>, current: Option<Digest>, steps: seq<Step>,
                               step: Step)
    requires ParentMatches(d, current, disk) && Serial(d, Initial(disk, current), steps)
    requires forall step :: step in steps ==> !step.Overwrite?
    ensures var s := Run(d, Initial(disk, current), steps); SafeOrder(d, Next(d, s, step)) <==> !Late(d, s, step)
  {
    OrderlyRun(d, disk, current, steps);
    hide Run, Inv, Undisturbed, Verified, Next, Late, Initial;
    var s := Run(d, Initial(disk, current), steps);
    if Late(d, s, step) {
      var more := LateLoses(d, s, step);
      assert LosesOrder(d, Next(d, s, step), more);
    } else {
      StepKeeps(d, s, step);
      SerialIsSafe(d, Next(d, s, step));
    }
  }

  /** Every state the run passes through is safe. */
  ghost predicate SafeThroughout(d: Digests, s: State, steps: seq<Step>) {
    SafeOrder(d, Run(d, s, steps)) && (steps == [] || SafeThroughout(d, s, steps[..|steps| - 1]))
  }

  /** Over whole undisturbed runs: commits are safe from overtaking throughout, exactly when no
      submission passes its checks while another call is blocked in `submit`. */
  lemma {:induction false} OrderKeptExactlyWhen(d: Digests, disk: Option<Artifact>, current: Option<Digest>,
                                                steps: seq<Step>)
    requires ParentMatches(d, current, disk) && forall step :: step in steps ==> !step.Overwrite?
    ensures SafeThroughout(d, Initial(disk, current), steps) <==> Serial(d, Initial(disk, current), steps)
  {
    hide SafeOrder, Late, Next, Initial;
    if steps == [] {
      InitialHolds(d, disk, current);
      SerialIsSafe(d, Initial(disk, current));
    } else {
      var n := |steps| - 1;
      OrderKeptExactlyWhen(d, disk, current, steps[..n]);
      if Serial(d, Initial(disk, current), steps[..n]) {
        OnlyLateStepsLoseOrder(d, disk, current, steps[..n], steps[n]);
      }
    }
  }
}
