/** Why a task is where it is in the replayed table, and with what record. */
module ClusterEndings {
  import opened Basics
  import opened Cluster
  import opened ClusterLaws

  // ---------------------------------------------------------------- one operation

  /** The operation is about a running task and presents its lease. */
  predicate Presents(t: Table, task: Text, held: Option<Text>) {
    task != [] && task in t.running && LeaseMatches(t.running[task].lease, held)
  }

  /** A lease id is presented exactly when it is the running one, and none or an empty one exactly when the
      running one is empty. */
  lemma PresentedExactlyWhen(t: Table, task: Text, held: Option<Text>)
    requires task != [] && task in t.running
    ensures held.Some? && held.value != [] ==> (Presents(t, task, held) <==> held.value == t.running[task].lease)
    ensures held.None? || held.value == [] ==> (Presents(t, task, held) <==> t.running[task].lease == [])
  {
  }

  /** A completion with the running lease files the task as completed, with the run and the completion's
      own body, and nowhere else. */
  lemma CompletionFiles(ops: seq<Operation>, op: Operation, task: Text, held: Option<Text>, body: Bytes)
    requires op.Action() == Complete(task, held, body) && Presents(ReplayAll(ops), task, held)
    ensures var t, u := ReplayAll(ops), ReplayAll(ops + [op]);
      && task in u.completed && u.completed[task] == Ended(t.running[task], body)
      && task !in u.running && task !in u.queued && u.failed == t.failed
      && forall k :: k != task ==> SameStanding(t, u, k)
  {
    ReplayExtends(ops, op);
  }

  /** A failure with the running lease files it as failed. */
  lemma FailureFiles(ops: seq<Operation>, op: Operation, task: Text, held: Option<Text>, body: Bytes)
    requires op.Action() == Fail(task, held, body) && Presents(ReplayAll(ops), task, held)
    ensures var t, u := ReplayAll(ops), ReplayAll(ops + [op]);
      && task in u.failed && u.failed[task] == Ended(t.running[task], body)
      && task !in u.running && task !in u.queued && u.completed == t.completed
      && forall k :: k != task ==> SameStanding(t, u, k)
  {
    ReplayExtends(ops, op);
  }

  /** A release with the running lease puts the task back as it was taken. */
  lemma ReleaseReturns(ops: seq<Operation>, op: Operation, task: Text, held: Option<Text>)
    requires op.Action() == Release(task, held) && Presents(ReplayAll(ops), task, held)
    ensures var t, u := ReplayAll(ops), ReplayAll(ops + [op]);
      && task in u.queued && u.queued[task] == t.running[task].body
      && task !in u.running && u.completed == t.completed && u.failed == t.failed
      && forall k :: k != task ==> SameStanding(t, u, k)
  {
    ReplayExtends(ops, op);
  }

  /** A claim takes a waiting task with its body, and records who took it, under what lease and until when. */
  lemma ClaimTakes(ops: seq<Operation>, op: Operation, task: Text, worker: Text, lease: Text, until: int)
    requires op.Action() == Claim(task, worker, lease, until) && task != [] && task in ReplayAll(ops).queued
    ensures var t, u := ReplayAll(ops), ReplayAll(ops + [op]);
      && task in u.running && task !in u.queued && u.running[task].body == t.queued[task]
      && (u.running[task].worker, u.running[task].lease, u.running[task].until) == (worker, lease, until)
      && u.completed == t.completed && u.failed == t.failed
      && forall k :: k != task ==> SameStanding(t, u, k)
  {
    ReplayExtends(ops, op);
  }

  /** A claim of a task that is not waiting, and an ending or a release without the running lease, is ignored. */
  lemma OutOfPlaceIgnored(ops: seq<Operation>, op: Operation, task: Text)
    requires var a := op.Action();
      || (a.Claim? && a.task == task && task !in ReplayAll(ops).queued)
      || ((a.Complete? || a.Fail? || a.Release?) && a.task == task && !Presents(ReplayAll(ops), task, a.held))
    ensures ReplayAll(ops + [op]) == ReplayAll(ops)
  {
    ReplayExtends(ops, op);
  }

  // ---------------------------------------------------------------- where every record comes from

  /** The task was submitted with this body. */
  ghost predicate SubmittedWith(ops: seq<Operation>, task: Text, body: Bytes) {
    exists k :: 0 <= k < |ops| && ops[k].Action() == Submit(task, body)
  }

  /** A claim wrote this run, for a body submitted before it. */
  ghost predicate ClaimedAs(ops: seq<Operation>, task: Text, run: Running) {
    exists i :: 0 <= i < |ops| && ops[i].Action() == Claim(task, run.worker, run.lease, run.until)
      && SubmittedWith(ops[..i], task, run.body)
  }

  predicate CompletesAs(op: Operation, task: Text, e: Ended) {
    var a := op.Action();
    a.Complete? && a.task == task && a.body == e.body && LeaseMatches(e.run.lease, a.held)
  }

  predicate FailsAs(op: Operation, task: Text, e: Ended) {
    var a := op.Action();
    a.Fail? && a.task == task && a.body == e.body && LeaseMatches(e.run.lease, a.held)
  }

  /** A completion with that run's lease wrote this record, for a claim made before it. */
  ghost predicate CompletedAs(ops: seq<Operation>, task: Text, e: Ended) {
    exists j :: 0 <= j < |ops| && CompletesAs(ops[j], task, e) && ClaimedAs(ops[..j], task, e.run)
  }

  ghost predicate FailedAs(ops: seq<Operation>, task: Text, e: Ended) {
    exists j :: 0 <= j < |ops| && FailsAs(ops[j], task, e) && ClaimedAs(ops[..j], task, e.run)
  }

  ghost predicate Explained(ops: seq<Operation>, t: Table, task: Text) {
    && (task in t.queued ==> SubmittedWith(ops, task, t.queued[task]))
    && (task in t.running ==> ClaimedAs(ops, task, t.running[task]))
    && (task in t.completed ==> CompletedAs(ops, task, t.completed[task]))
    && (task in t.failed ==> FailedAs(ops, task, t.failed[task]))
  }

  lemma StillSubmitted(ops: seq<Operation>, op: Operation, task: Text, body: Bytes)
    ensures SubmittedWith(ops, task, body) ==> SubmittedWith(ops + [op], task, body)
    ensures op.Action() == Submit(task, body) ==> SubmittedWith(ops + [op], task, body)
  {
    var more := ops + [op];
    if op.Action() == Submit(task, body) {
      assert more[|ops|] == op;
    } else if SubmittedWith(ops, task, body) {
      var k :| 0 <= k < |ops| && ops[k].Action() == Submit(task, body);
      assert more[k] == ops[k];
    }
  }

  lemma StillClaimed(ops: seq<Operation>, op: Operation, task: Text, run: Running)
    ensures ClaimedAs(ops, task, run) ==> ClaimedAs(ops + [op], task, run)
    ensures op.Action() == Claim(task, run.worker, run.lease, run.until) && SubmittedWith(ops, task, run.body) ==>
      ClaimedAs(ops + [op], task, run)
  {
    hide SubmittedWith;
    var more := ops + [op];
    if ClaimedAs(ops, task, run) {
      var i :| 0 <= i < |ops| && ops[i].Action() == Claim(task, run.worker, run.lease, run.until)
        && SubmittedWith(ops[..i], task, run.body);
      assert more[i] == ops[i] && more[..i] == ops[..i];
    }
    assert more[|ops|] == op && more[..|ops|] == ops;
  }

  lemma StillCompleted(ops: seq<Operation>, op: Operation, task: Text, e: Ended)
    ensures CompletedAs(ops, task, e) ==> CompletedAs(ops + [op], task, e)
    ensures CompletesAs(op, task, e) && ClaimedAs(ops, task, e.run) ==> CompletedAs(ops + [op], task, e)
  {
    hide ClaimedAs, CompletesAs;
    var more := ops + [op];
    if CompletedAs(ops, task, e) {
      var j :| 0 <= j < |ops| && CompletesAs(ops[j], task, e) && ClaimedAs(ops[..j], task, e.run);
      assert more[j] == ops[j] && more[..j] == ops[..j];
    }
    assert more[|ops|] == op && more[..|ops|] == ops;
  }

  lemma StillFailed(ops: seq<Operation>, op: Operation, task: Text, e: Ended)
    ensures FailedAs(ops, task, e) ==> FailedAs(ops + [op], task, e)
    ensures FailsAs(op, task, e) && ClaimedAs(ops, task, e.run) ==> FailedAs(ops + [op], task, e)
  {
    hide ClaimedAs, FailsAs;
    var more := ops + [op];
    if FailedAs(ops, task, e) {
      var j :| 0 <= j < |ops| && FailsAs(ops[j], task, e) && ClaimedAs(ops[..j], task, e.run);
      assert more[j] == ops[j] && more[..j] == ops[..j];
    }
    assert more[|ops|] == op && more[..|ops|] == ops;
  }

  /** What a run's claim took was submitted. */
  lemma ClaimedWasSubmitted(ops: seq<Operation>, task: Text, run: Running)
    requires ClaimedAs(ops, task, run)
    ensures SubmittedWith(ops, task, run.body)
  {
    var i :| 0 <= i < |ops| && ops[i].Action() == Claim(task, run.worker, run.lease, run.until)
      && SubmittedWith(ops[..i], task, run.body);
    var k :| 0 <= k < i && ops[..i][k].Action() == Submit(task, run.body);
    assert ops[k].Action() == Submit(task, run.body);
  }

  /** A body gets into the queue by its submission, or back into it by a release. */
  lemma QueuedBody(t: Table, op: Operation, task: Text)
    requires task in Replay(t, op).queued
    ensures var body := Replay(t, op).queued[task];
      || op.Action() == Submit(task, body)
      || (task in t.queued && t.queued[task] == body) || (task in t.running && t.running[task].body == body)
  {
  }

  lemma QueueStep(ops: seq<Operation>, t: Table, op: Operation, task: Text)
    requires Explained(ops, t, task) && task in Replay(t, op).queued
    ensures SubmittedWith(ops + [op], task, Replay(t, op).queued[task])
  {
    hide SubmittedWith, ClaimedAs, CompletedAs, FailedAs;
    QueuedBody(t, op, task);
    var body := Replay(t, op).queued[task];
    hide Replay;
    if task in t.running {
      ClaimedWasSubmitted(ops, task, t.running[task]);
    }
    StillSubmitted(ops, op, task, body);
  }

  lemma RunningStep(ops: seq<Operation>, t: Table, op: Operation, task: Text)
    requires Explained(ops, t, task) && task in Replay(t, op).running
    ensures ClaimedAs(ops + [op], task, Replay(t, op).running[task])
  {
    hide SubmittedWith, ClaimedAs, CompletedAs, FailedAs;
    StillClaimed(ops, op, task, Replay(t, op).running[task]);
  }

  lemma CompletedStep(ops: seq<Operation>, t: Table, op: Operation, task: Text)
    requires Explained(ops, t, task) && task in Replay(t, op).completed
    ensures CompletedAs(ops + [op], task, Replay(t, op).completed[task])
  {
    hide SubmittedWith, ClaimedAs, CompletedAs, FailedAs;
    StillCompleted(ops, op, task, Replay(t, op).completed[task]);
  }

  lemma FailedStep(ops: seq<Operation>, t: Table, op: Operation, task: Text)
    requires Explained(ops, t, task) && task in Replay(t, op).failed
    ensures FailedAs(ops + [op], task, Replay(t, op).failed[task])
  {
    hide SubmittedWith, ClaimedAs, CompletedAs, FailedAs;
    StillFailed(ops, op, task, Replay(t, op).failed[task]);
  }

  lemma ExplainedStep(ops: seq<Operation>, t: Table, op: Operation, task: Text)
    requires Explained(ops, t, task)
    ensures Explained(ops + [op], Replay(t, op), task)
  {
    hide SubmittedWith, ClaimedAs, CompletedAs, FailedAs, Replay;
    var u := Replay(t, op);
    if task in u.queued {
      QueueStep(ops, t, op, task);
    }
    if task in u.running {
      RunningStep(ops, t, op, task);
    }
    if task in u.completed {
      CompletedStep(ops, t, op, task);
    }
    if task in u.failed {
      FailedStep(ops, t, op, task);
    }
  }

  /** Every entry of the table has its whole history in the operations, in order: a waiting task was
      submitted with its body; a running one was then claimed by that worker under that lease until then;
      a completed one was then completed, and a failed one failed, with that run's lease and that body. */
  lemma {:induction false} EveryEntryExplained(ops: seq<Operation>, task: Text)
    ensures Explained(ops, ReplayAll(ops), task)
  {
    if ops != [] {
      var before, op := ops[..|ops| - 1], ops[|ops| - 1];
      EveryEntryExplained(before, task);
      ExplainedStep(before, ReplayAll(before), op, task);
      assert ops == before + [op];
    }
  }

  // ---------------------------------------------------------------- the last word

  function CompletionBy(t: Table, op: Operation, task: Text): (e: Option<Ended>) {
    match op.Action()
    case Complete(k, held, body) =>
      if k == task && Presents(t, task, held) then Some(Ended(t.running[task], body)) else None
    case _ => None
  }

  function FailureBy(t: Table, op: Operation, task: Text): (e: Option<Ended>) {
    match op.Action()
    case Fail(k, held, body) =>
      if k == task && Presents(t, task, held) then Some(Ended(t.running[task], body)) else None
    case _ => None
  }

  /** What a contribution is filed under: its own name, or the operation's id if it has none. */
  predicate ContributesAs(op: Operation, name: Text) {
    var a := op.Action();
    a.Contribute? && if a.name.None? || a.name == Some([]) then op.Id() == name else a.name == Some(name)
  }

  /** The last completion, failure and contribution the operations make. */
  function LastCompletion(ops: seq<Operation>, task: Text): (e: Option<Ended>) {
    if ops == [] then None else
      var before := ops[..|ops| - 1];
      var now := CompletionBy(ReplayAll(before), ops[|ops| - 1], task);
      if now.Some? then now else LastCompletion(before, task)
  }

  function LastFailure(ops: seq<Operation>, task: Text): (e: Option<Ended>) {
    if ops == [] then None else
      var before := ops[..|ops| - 1];
      var now := FailureBy(ReplayAll(before), ops[|ops| - 1], task);
      if now.Some? then now else LastFailure(before, task)
  }

  function LastContribution(ops: seq<Operation>, name: Text): (b: Option<Bytes>) {
    if ops == [] then None
    else if ContributesAs(ops[|ops| - 1], name) then Some(ops[|ops| - 1].Action().body)
    else LastContribution(ops[..|ops| - 1], name)
  }

  lemma CompletionStands(t: Table, op: Operation, task: Text)
    ensures var c := CompletionBy(t, op, task);
      Lookup(Replay(t, op).completed, task) == if c.Some? then c else Lookup(t.completed, task)
  {
  }

  lemma FailureStands(t: Table, op: Operation, task: Text)
    ensures var f := FailureBy(t, op, task);
      Lookup(Replay(t, op).failed, task) == if f.Some? then f else Lookup(t.failed, task)
  {
  }

  lemma ContributionStands(t: Table, op: Operation, name: Text)
    ensures Lookup(Replay(t, op).contributions, name)
      == if ContributesAs(op, name) then Some(op.Action().body) else Lookup(t.contributions, name)
  {
  }

  /** A task is among the completed exactly when an operation completed it with the lease running then,
      and its record is the last one; so for the failed, and for contributions. */
  lemma {:induction false} LastWordStands(ops: seq<Operation>, task: Text)
    ensures var t := ReplayAll(ops);
      && Lookup(t.completed, task) == LastCompletion(ops, task) && Lookup(t.failed, task) == LastFailure(ops, task)
      && Lookup(t.contributions, task) == LastContribution(ops, task)
  {
    if ops != [] {
      var before, op := ops[..|ops| - 1], ops[|ops| - 1];
      LastWordStands(before, task);
      CompletionStands(ReplayAll(before), op, task);
      FailureStands(ReplayAll(before), op, task);
      ContributionStands(ReplayAll(before), op, task);
      hide Replay, CompletionBy, FailureBy, ContributesAs;
    }
  }

  /** The whole life of a task, from the log: submitted, claimed and completed in that order of time, it is
      among the completed with that worker's run, and nowhere else. */
  lemma SubmitClaimComplete(submit: Operation, claim: Operation, complete: Operation, task: Text, worker: Text,
                            lease: Text, until: int, body: Bytes, result: Bytes)
    requires task != [] && lease != [] && submit.Action() == Submit(task, body)
    requires claim.Action() == Claim(task, worker, lease, until)
    requires complete.Action() == Complete(task, Some(lease), result)
    ensures var t := ReplayAll([submit, claim, complete]);
      && t.completed == map[task := Ended(Running(body, worker, lease, until), result)]
      && t.queued == map[] && t.running == map[] && t.failed == map[]
  {
    ReplayExtends([], submit);
    ReplayExtends([submit], claim);
    ReplayExtends([submit, claim], complete);
    assert [] + [submit] == [submit] && [submit] + [claim] == [submit, claim]
      && [submit, claim] + [complete] == [submit, claim, complete];
  }
}
