/** Why a task is where it is: what put it into the bucket it is in, over every run. */
module CoordinatorEndings {
  import opened Basics
  import opened ComputeTask
  import opened Coordinator
  import opened CoordinatorLaws
  import Lex

  // ---------------------------------------------------------------- one call

  /** The call is a completion by the holder of the task's lease, with a result of a legal size. */
  predicate CompletesNow(s: State, op: Op, id: Text) {
    op.Completes? && op.id == id && HeldBy(s.running, op.worker, id, op.held) && |op.result| <= MAX_RESULT_BYTES
  }

  /** The task's lease has been granted as often as it may be. */
  predicate NoAttemptsLeft(l: Limits, s: State, id: Text) {
    id in s.attempts && s.attempts[id] >= l.maxAttempts
  }

  /** What the call says went wrong with the task, if it ends it as failed: its holder's own report, or,
      when its attempts are spent, the reason of its release or the expiry of its lease. */
  function FailsNow(l: Limits, s: State, op: Op, id: Text): (why: Option<Text>) {
    match op
    case Fails(w, k, error, held) => if k == id && HeldBy(s.running, w, id, held) then Some(error) else None
    case Releases(w, k, why, held) =>
      if k == id && HeldBy(s.running, w, id, held) && NoAttemptsLeft(l, s, id) then Some(why) else None
    case Claims(_, _, _, now, _, _) => ExpiresNow(l, s, id, now)
    case Asks(now) => ExpiresNow(l, s, id, now)
    case _ => None
  }

  function ExpiresNow(l: Limits, s: State, id: Text, now: int): (why: Option<Text>) {
    if id in s.running && s.running[id].until <= now && NoAttemptsLeft(l, s, id) then Some(LEASE_EXPIRED) else None
  }

  lemma CompletionStep(l: Limits, s: State, op: Op, id: Text)
    ensures var t := Apply(l, s, op);
      && (id in t.completed <==> id in s.completed || CompletesNow(s, op, id))
      && (CompletesNow(s, op, id) ==>
            t.completed[id] == Completion(s.running[id].task, s.running[id].worker, op.result))
      && (id in s.completed && !CompletesNow(s, op, id) ==> t.completed[id] == s.completed[id])
  {
    hide GiveUpAll, Validate, Grant, Chosen, RoomFor, ExpiredIds;
    match op
    case Claims(_, _, _, now, _, _) => GiveUpAllCompletes(l, s, ExpiredIds(s, now)); ClaimCompletes(l, s, op);
    case Asks(now) => GiveUpAllCompletes(l, s, ExpiredIds(s, now));
    case _ =>
  }

  lemma GiveUpAllCompletes(l: Limits, s: State, ids: set<Text>)
    ensures GiveUpAll(l, s, ids).completed == s.completed
  {
    hide Requeued, GivenUp, SpentIds;
  }

  lemma ClaimCompletes(l: Limits, s: State, op: Op)
    requires op.Claims?
    ensures var e := Expire(l, s, op.now); var t := Apply(l, s, op); t.completed == e.completed && t.failed == e.failed
  {
    hide GiveUpAll, Chosen, RoomFor, ExpiredIds;
  }

  lemma FailureStep(l: Limits, s: State, h: History, op: Op, id: Text)
    requires Well(l, s, h, id)
    ensures var t, why := Apply(l, s, op), FailsNow(l, s, op, id);
      && (id in t.failed <==> id in s.failed || why.Some?)
      && (why.Some? ==>
           && id in s.running
           && t.failed[id] == Failure(s.running[id].task, s.running[id].worker, why.value, s.attempts[id]))
      && (id in s.failed && why.None? ==> t.failed[id] == s.failed[id])
  {
    hide GiveUpAll, GiveUp, Validate, Grant, Chosen, RoomFor, ExpiredIds;
    match op
    case Releases(_, gone, why, _) =>
      if gone in s.running {
        ReleaseFails(l, s, h, gone, why, id);
      }
    case Claims(_, _, _, now, _, _) => ExpiryFails(l, s, h, now, id); ClaimCompletes(l, s, op);
    case Asks(now) => ExpiryFails(l, s, h, now, id);
    case _ =>
  }

  lemma ReleaseFails(l: Limits, s: State, h: History, gone: Text, why: Text, id: Text)
    requires Well(l, s, h, id) && gone in s.running
    ensures var t := GiveUp(l, s, gone, why);
      if gone == id && NoAttemptsLeft(l, s, id) then
        t.failed == s.failed[id := Failure(s.running[id].task, s.running[id].worker, why, s.attempts[id])]
      else Lookup(t.failed, id) == Lookup(s.failed, id)
  {
    hide Validate;
  }

  lemma ExpiryFails(l: Limits, s: State, h: History, now: int, id: Text)
    requires Well(l, s, h, id)
    ensures var t, why := Expire(l, s, now), ExpiresNow(l, s, id, now);
      && (id in t.failed <==> id in s.failed || why.Some?)
      && (why.Some? ==> t.failed[id] == Failure(s.running[id].task, s.running[id].worker, why.value, s.attempts[id]))
      && (id in s.failed && why.None? ==> t.failed[id] == s.failed[id])
  {
    hide Validate;
  }

  /** Expiry takes back exactly the leases that have run out: each of those tasks waits again, or has
      failed if its attempts are spent, and every other lease goes on as it was. */
  lemma ExpiryTakesBack(l: Limits, s: State, h: History, now: int, id: Text)
    requires Well(l, s, h, id) && id in s.running
    ensures var t, lease := Expire(l, s, now), s.running[id];
      && (lease.until > now ==> id in t.running && t.running[id] == lease)
      && (lease.until <= now ==> id !in t.running)
      && (lease.until <= now && s.attempts[id] < l.maxAttempts ==> id in t.queued && t.queued[id] == lease.task)
      && (lease.until <= now && s.attempts[id] >= l.maxAttempts ==> id in t.failed && t.failed[id].task == lease.task)
  {
    hide Validate;
  }

  // ---------------------------------------------------------------- whole runs

  /** The completion a call makes of a task, if it makes one. */
  function CompletionBy(s: State, op: Op, id: Text): (c: Option<Completion>) {
    if CompletesNow(s, op, id) then Some(Completion(s.running[id].task, s.running[id].worker, op.result)) else None
  }

  /** The failure a call makes of a task, if it makes one. */
  function FailureBy(l: Limits, s: State, op: Op, id: Text): (f: Option<Failure>) {
    var why := FailsNow(l, s, op, id);
    if why.Some? && id in s.running && id in s.attempts then
      Some(Failure(s.running[id].task, s.running[id].worker, why.value, s.attempts[id]))
    else None
  }

  /** What each call of the run completed of this task, and what it failed. */
  ghost function Endings(l: Limits, ops: seq<Op>, id: Text): (made: seq<(Option<Completion>, Option<Failure>)>)
    ensures |made| == |ops|
  {
    if ops == [] then [] else
      var before, op := ops[..|ops| - 1], ops[|ops| - 1];
      var s := Run(l, EMPTY, map[], before).0;
      Endings(l, before, id) + [(CompletionBy(s, op, id), FailureBy(l, s, op, id))]
  }

  /** The record is there exactly when some call made one, and is the one that was made. */
  ghost predicate MadeBy<T>(record: Option<T>, made: seq<Option<T>>) {
    && (record.Some? <==> exists i :: 0 <= i < |made| && made[i].Some?)
    && forall i :: 0 <= i < |made| && made[i].Some? ==> record == made[i]
  }

  function Firsts<S, T>(pairs: seq<(S, T)>): (s: seq<S>) {
    seq(|pairs|, i requires 0 <= i < |pairs| => pairs[i].0)
  }

  function Seconds<S, T>(pairs: seq<(S, T)>): (s: seq<T>) {
    seq(|pairs|, i requires 0 <= i < |pairs| => pairs[i].1)
  }

  /** One more call makes a record where there was none, or leaves it. */
  lemma MadeByOneMore<T>(record: Option<T>, made: seq<Option<T>>, next: Option<T>)
    requires MadeBy(record, made) && (next.Some? ==> record.None?)
    ensures MadeBy(if next.Some? then next else record, made + [next])
  {
    var more := made + [next];
    if next.Some? {
      assert more[|made|].Some?;
    } else if record.Some? {
      var i :| 0 <= i < |made| && made[i].Some?;
      assert more[i].Some?;
    }
  }

  /** A task is completed exactly when some call of the run completed it as its lease holder, and then
      its record holds the leased task, that worker and that call's result. It has failed exactly when
      some call failed it: its lease holder's report, or a release or an expiry with its attempts spent;
      the record says which, and how often it was leased. */
  lemma {:induction false} EndedExactlyBy(l: Limits, ops: seq<Op>, id: Text)
    requires l.maxAttempts >= 1 && Random(l, EMPTY, map[], ops)
    ensures var s, made := Run(l, EMPTY, map[], ops).0, Endings(l, ops, id);
      MadeBy(Lookup(s.completed, id), Firsts(made)) && MadeBy(Lookup(s.failed, id), Seconds(made))
  {
    if ops != [] {
      var n := |ops| - 1;
      EndedExactlyBy(l, ops[..n], id);
      RunKeeps(l, ops[..n]);
      var (s, h) := Run(l, EMPTY, map[], ops[..n]);
      var made, op := Endings(l, ops[..n], id), ops[n];
      assert Well(l, s, h, id);
      EndingStep(l, s, h, op, id);
      hide Apply, Inv, Random, Well, MadeBy, Lookup, CompletionBy, FailureBy;
      var c, f := CompletionBy(s, op, id), FailureBy(l, s, op, id);
      MadeByOneMore(Lookup(s.completed, id), Firsts(made), c);
      MadeByOneMore(Lookup(s.failed, id), Seconds(made), f);
      assert Firsts(made + [(c, f)]) == Firsts(made) + [c] && Seconds(made + [(c, f)]) == Seconds(made) + [f];
    }
  }

  lemma EndingStep(l: Limits, s: State, h: History, op: Op, id: Text)
    requires Well(l, s, h, id)
    ensures var t, c, f := Apply(l, s, op), CompletionBy(s, op, id), FailureBy(l, s, op, id);
      && Lookup(t.completed, id) == (if c.Some? then c else Lookup(s.completed, id))
      && Lookup(t.failed, id) == (if f.Some? then f else Lookup(s.failed, id))
      && (c.Some? ==> Lookup(s.completed, id).None?) && (f.Some? ==> Lookup(s.failed, id).None?)
  {
    hide Apply, Well;
    CompletionStep(l, s, op, id);
    FailureStep(l, s, h, op, id);
    if id in s.running {
      RunningIsNotOver(l, s, h, id);
    }
  }

  lemma RunningIsNotOver(l: Limits, s: State, h: History, id: Text)
    requires Well(l, s, h, id) && id in s.running
    ensures id !in s.completed && id !in s.failed && id !in s.queued && id in s.attempts
  {
  }

  // ---------------------------------------------------------------- the task itself

  /** The task under this id, whichever bucket it is in. */
  function TaskOf(s: State, id: Text): (t: Option<Task>) {
    if id in s.queued then Some(s.queued[id])
    else if id in s.running then Some(s.running[id].task)
    else if id in s.completed then Some(s.completed[id].task)
    else if id in s.failed then Some(s.failed[id].task)
    else None
  }

  lemma GiveUpKeepsTask(l: Limits, s: State, h: History, ids: set<Text>, id: Text)
    requires Well(l, s, h, id)
    ensures TaskOf(GiveUpAll(l, s, ids), id) == TaskOf(s, id)
  {
    hide Validate;
  }

  lemma ClaimKeepsTask(l: Limits, s: State, h: History, op: Op, id: Text)
    requires Well(l, s, h, id) && op.Claims?
    ensures TaskOf(Apply(l, s, op), id) == TaskOf(s, id)
  {
    hide Validate, GiveUpAll, Chosen, RoomFor, ExpiredIds, Well;
    var e := Expire(l, s, op.now);
    GiveUpWell(l, s, h, ExpiredIds(s, op.now), id);
    GiveUpKeepsTask(l, s, h, ExpiredIds(s, op.now), id);
    if op.worker in e.workers {
      var room := RoomFor(e, op.worker, op.available, op.cpuCount);
      var taken := Chosen(e, room.0, room.1, e.workers[op.worker].features);
      if taken.Some? {
        GrantKeepsTask(l, e, h, taken.value, op, id);
      }
    }
  }

  lemma GrantKeepsTask(l: Limits, s: State, h: History, taken: Text, op: Op, id: Text)
    requires Well(l, s, h, id) && taken in s.queued && op.Claims?
    ensures TaskOf(Grant(l, s, taken, op.worker, op.later, op.leaseId), id) == TaskOf(s, id)
  {
    hide Validate;
  }

  /** No call changes a task; only an accepted submission brings one in, in normal form. */
  lemma TaskStep(l: Limits, s: State, h: History, op: Op, id: Text)
    requires Well(l, s, h, id)
    ensures TaskOf(Apply(l, s, op), id)
      == if id !in h && op.Submits? && op.task.id == id then Validate(op.task) else TaskOf(s, id)
  {
    match op
    case Claims(_, _, _, _, _, _) => ClaimKeepsTask(l, s, h, op, id);
    case Asks(now) => GiveUpKeepsTask(l, s, h, ExpiredIds(s, now), id);
    case _ => OtherKeepsTask(l, s, h, op, id);
  }

  lemma OtherKeepsTask(l: Limits, s: State, h: History, op: Op, id: Text)
    requires Well(l, s, h, id) && !op.Claims? && !op.Asks?
    ensures TaskOf(Apply(l, s, op), id)
      == if id !in h && op.Submits? && op.task.id == id then Validate(op.task) else TaskOf(s, id)
  {
    hide Validate, GiveUp;
    if op.Releases? && op.id in s.running {
      ReleaseKeepsTask(l, s, h, op.id, op.why, id);
    } else if op.Submits? {
      SubmitKeepsTask(l, s, h, op.task, id);
    }
  }

  lemma ReleaseKeepsTask(l: Limits, s: State, h: History, gone: Text, why: Text, id: Text)
    requires Well(l, s, h, id) && gone in s.running
    ensures TaskOf(GiveUp(l, s, gone, why), id) == TaskOf(s, id)
  {
    hide Validate;
  }

  lemma SubmitKeepsTask(l: Limits, s: State, h: History, t: Task, id: Text)
    requires Well(l, s, h, id)
    ensures TaskOf(OrElse(s, Submit(s, t)), id) == if id !in h && t.id == id then Validate(t) else TaskOf(s, id)
  {
    hide Validate;
  }

  ghost predicate SubmittedAs(op: Op, id: Text, t: Option<Task>) {
    op.Submits? && op.task.id == id && Validate(op.task) == t && t.Some?
  }

  lemma SubmissionNoted(l: Limits, s: State, h: History, op: Op, id: Text)
    requires Well(l, s, h, id) && forall k :: Well(l, s, h, k)
    ensures id in Noted(l, s, h, op) && id !in h ==> op.Submits? && op.task.id == id && Validate(op.task).Some?
  {
    hide Validate, Well, Claim;
    if op.Claims? {
      var r := Claim(l, s, op.worker, op.available, op.cpuCount, op.now, op.later, op.leaseId).1;
      if r.Ok? && r.value.Some? {
        ClaimedWasSubmitted(l, s, h, op);
      }
    }
  }

  lemma ClaimedWasSubmitted(l: Limits, s: State, h: History, op: Op)
    requires op.Claims? && forall k :: Well(l, s, h, k)
    ensures var r := Claim(l, s, op.worker, op.available, op.cpuCount, op.now, op.later, op.leaseId).1;
      r.Ok? && r.value.Some? ==> r.value.value in h
  {
    hide Validate, Well, GiveUpAll, Chosen, RoomFor, ExpiredIds, Grant;
    var r := Claim(l, s, op.worker, op.available, op.cpuCount, op.now, op.later, op.leaseId).1;
    if r.Ok? && r.value.Some? {
      GiveUpWell(l, s, h, ExpiredIds(s, op.now), r.value.value);
      QueuedSubmitted(l, Expire(l, s, op.now), h, r.value.value);
    }
  }

  /** Whatever happened to it, the task under an id is the normal form of the one that was submitted. */
  lemma {:induction false} TaskIsSubmitted(l: Limits, ops: seq<Op>, id: Text)
    requires l.maxAttempts >= 1 && Random(l, EMPTY, map[], ops)
    ensures var (s, h) := Run(l, EMPTY, map[], ops);
      id in h ==> exists i :: 0 <= i < |ops| && SubmittedAs(ops[i], id, TaskOf(s, id))
  {
    if ops != [] {
      var n := |ops| - 1;
      TaskIsSubmitted(l, ops[..n], id);
      RunKeeps(l, ops[..n]);
      var (s, h) := Run(l, EMPTY, map[], ops[..n]);
      assert forall k :: Well(l, s, h, k);
      TaskStep(l, s, h, ops[n], id);
      SubmissionNoted(l, s, h, ops[n], id);
      NotedOnce(l, s, h, ops[n], id);
      hide Apply, Noted, Inv, Random, Well, TaskOf, Validate;
      if id in h {
        var i :| 0 <= i < n && SubmittedAs(ops[..n][i], id, TaskOf(s, id));
        assert SubmittedAs(ops[i], id, TaskOf(s, id));
      }
    }
  }

  lemma NotedOnce(l: Limits, s: State, h: History, op: Op, id: Text)
    ensures id in h ==> id in Noted(l, s, h, op)
  {
    hide Claim, Submit;
  }

  // ---------------------------------------------------------------- claiming

  /** With what it holds already, the worker can take the task: inside its offer and inside each of its
      positive registered limits, and it has every feature the task needs. */
  ghost predicate Admissible(s: State, worker: Text, t: Task, available: int, cpuCount: int)
    requires worker in s.workers
  {
    var c := s.workers[worker];
    var memory := t.memory + Reserved(MemoryMb, s.running, worker);
    var threads := t.threads + Reserved(Threads, s.running, worker);
    && memory <= available && UnderLimit(memory, c.memory) && UnderLimit(memory, c.safeMemory)
    && (threads <= cpuCount || threads <= 1) && UnderLimit(threads, c.cpus)
    && t.features <= c.features
  }

  /** Memory reserved is never negative. */
  lemma {:induction false} ReservedNonNegative(m: Measure, running: map<Text, Lease>, worker: Text)
    requires AllSized(running)
    ensures Reserved(m, running, worker) >= 0
  {
    ReservedGrows(m, map[], running, worker);
  }

  lemma FitsExactlyWhen(s: State, worker: Text, t: Task, available: int, cpuCount: int)
    requires worker in s.workers && Sized(t) && AllSized(s.running)
    ensures var room := RoomFor(s, worker, available, cpuCount);
      Fits(t, room.0, room.1, s.workers[worker].features) <==> Admissible(s, worker, t, available, cpuCount)
  {
    ReservedNonNegative(MemoryMb, s.running, worker);
    ReservedNonNegative(Threads, s.running, worker);
  }

  /** A registered worker gets a task exactly when some waiting task is admissible once expired leases
      are taken back; it is the admissible one submitted first, and it becomes the worker's own. */
  lemma ClaimExactlyWhen(l: Limits, s: State, h: History, worker: Text, available: int, cpuCount: int, now: int,
                         later: int, leaseId: Text)
    requires Inv(l, s, h) && worker in s.workers
    ensures var e := Expire(l, s, now);
      var (t, r) := Claim(l, s, worker, available, cpuCount, now, later, leaseId);
      && worker in e.workers && r.Ok?
      && (r.value.None? <==> forall id :: id in e.queued ==> !Admissible(e, worker, e.queued[id], available, cpuCount))
      && (r.value.Some? ==>
           var id := r.value.value;
           && id in e.queued && Admissible(e, worker, e.queued[id], available, cpuCount)
           && id !in t.queued && id in t.running && t.running[id].task == e.queued[id]
           && (t.running[id].worker, t.running[id].leaseId) == (worker, leaseId)
           && forall k :: k in e.queued && k != id && Admissible(e, worker, e.queued[k], available, cpuCount) ==>
                Lex.Less(Lex.Place(e.queued[id].created, id), Lex.Place(e.queued[k].created, k)))
  {
    hide Well, RoomFor, Admissible, Fits, GiveUpAll, ExpiredIds, Chosen, Lex.Less, Unrepeated;
    var e := Expire(l, s, now);
    GiveUpAllShrinks(l, s, ExpiredIds(s, now));
    SizedInv(l, s, h);
    var room := RoomFor(e, worker, available, cpuCount);
    forall id | id in e.queued
      ensures Fits(e.queued[id], room.0, room.1, e.workers[worker].features)
        <==> Admissible(e, worker, e.queued[id], available, cpuCount)
    {
      GiveUpWell(l, s, h, ExpiredIds(s, now), id);
      WellQueued(l, e, h, id);
      FitsExactlyWhen(e, worker, e.queued[id], available, cpuCount);
    }
    ChosenIsFirst(e, room.0, room.1, e.workers[worker].features);
  }
}
