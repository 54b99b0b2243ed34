/** What holds in every state a coordinator can reach. */
module CoordinatorLaws {
  import opened Basics
  import opened Coordinator
  import opened ComputeTask
  import Lex

  // ---------------------------------------------------------------- runs

  datatype Op =
    | Submits(task: Task)
    | Registers(worker: Text, capabilities: Capabilities)
    | Claims(worker: Text, available: int, cpuCount: int, now: int, later: int, leaseId: Text)
    | Completes(worker: Text, id: Text, result: Bytes, held: Option<Text>)
    | Releases(worker: Text, id: Text, why: Text, held: Option<Text>)
    | Fails(worker: Text, id: Text, error: Text, held: Option<Text>)
    | Asks(now: int)

  /** What any call leaves behind, refused or not. */
  ghost function Apply(l: Limits, s: State, op: Op): (t: State) {
    match op
    case Submits(t) => OrElse(s, Submit(s, t))
    case Registers(w, c) => OrElse(s, Register(s, w, c))
    case Claims(w, available, cpuCount, now, later, leaseId) =>
      Claim(l, s, w, available, cpuCount, now, later, leaseId).0
    case Completes(w, id, result, lease) => OrElse(s, Complete(s, w, id, result, lease))
    case Releases(w, id, why, lease) => OrElse(s, Release(l, s, w, id, why, lease))
    case Fails(w, id, error, lease) => OrElse(s, Fail(s, w, id, error, lease))
    case Asks(now) => Expire(l, s, now)
  }

  /** Every lease ever granted for each submitted task, oldest first. */
  type History = map<Text, seq<Text>>

  ghost function Noted(l: Limits, s: State, h: History, op: Op): (g: History) {
    match op
    case Submits(t) => if Submit(s, t).Ok? then h[t.id := []] else h
    case Claims(w, available, cpuCount, now, later, leaseId) =>
      (match Claim(l, s, w, available, cpuCount, now, later, leaseId).1
       case Ok(Some(id)) => h[id := (if id in h then h[id] else []) + [leaseId]]
       case _ => h)
    case _ => h
  }

  /** Lease ids are random and never repeat. */
  ghost predicate Unused(h: History, leaseId: Text) {
    forall id :: id in h ==> leaseId !in h[id]
  }

  ghost predicate Draws(h: History, op: Op) {
    op.Claims? ==> Unused(h, op.leaseId)
  }

  // ---------------------------------------------------------------- the invariant

  /** In how many buckets a task is. */
  function Places(s: State, id: Text): (n: nat) {
    One(id in s.queued) + One(id in s.running) + One(id in s.completed) + One(id in s.failed)
  }

  /** Everything there is to say about one task: it is in one bucket if it was ever submitted and in
      none otherwise; while waiting it has attempts to spare; while running it holds the lease
      granted last. */
  ghost predicate Well(l: Limits, s: State, h: History, id: Text) {
    && Places(s, id) == One(id in h)
    && (id in h ==> |h[id]| <= l.maxAttempts)
    && (id in s.attempts <==> id in s.queued || id in s.running)
    && (id in s.queued ==>
          && ValidTask(s.queued[id]) && s.queued[id].id == id
          && s.attempts[id] == |h[id]| < l.maxAttempts)
    && (id in s.running ==>
          && ValidTask(s.running[id].task) && s.running[id].task.id == id
          && s.attempts[id] == s.running[id].attempts == |h[id]|
          && 1 <= |h[id]| && s.running[id].leaseId == h[id][|h[id]| - 1])
  }

  /** No two leases ever granted are the same. */
  ghost predicate Unrepeated(h: History) {
    forall id, i, id', i' :: id in h && id' in h && 0 <= i < |h[id]| && 0 <= i' < |h[id']| && h[id][i] == h[id'][i'] ==>
      id == id' && i == i'
  }

  ghost predicate Inv(l: Limits, s: State, h: History) {
    (forall id :: Well(l, s, h, id)) && Unrepeated(h)
  }

  // ---------------------------------------------------------------- every operation keeps it

  lemma SubmitWell(l: Limits, s: State, h: History, t: Task, id: Text)
    requires Well(l, s, h, id) && Well(l, s, h, t.id) && l.maxAttempts >= 1 && Submit(s, t).Ok?
    ensures Well(l, Submit(s, t).value, h[t.id := []], id)
  {
    ValidationSettles(t);
    hide Validate;
  }

  lemma GiveUpWell(l: Limits, s: State, h: History, ids: set<Text>, id: Text)
    requires Well(l, s, h, id)
    ensures Well(l, GiveUpAll(l, s, ids), h, id)
  {
  }

  lemma GiveUpOneWell(l: Limits, s: State, h: History, gone: Text, why: Text, id: Text)
    requires Well(l, s, h, id) && gone in s.running
    ensures Well(l, GiveUp(l, s, gone, why), h, id)
  {
    hide Validate;
  }

  lemma CompleteWell(l: Limits, s: State, h: History, worker: Text, gone: Text, result: Bytes, lease: Option<Text>,
                     id: Text)
    requires Well(l, s, h, id) && Complete(s, worker, gone, result, lease).Ok?
    ensures Well(l, Complete(s, worker, gone, result, lease).value, h, id)
  {
  }

  lemma FailWell(l: Limits, s: State, h: History, worker: Text, gone: Text, error: Text, lease: Option<Text>,
                 id: Text)
    requires Well(l, s, h, id) && Fail(s, worker, gone, error, lease).Ok?
    ensures Well(l, Fail(s, worker, gone, error, lease).value, h, id)
  {
  }

  lemma GrantWell(l: Limits, s: State, h: History, taken: Text, worker: Text, now: int, leaseId: Text, id: Text)
    requires taken in s.queued && taken in h && Well(l, s, h, id) && Well(l, s, h, taken)
    ensures Well(l, Grant(l, s, taken, worker, now, leaseId), h[taken := h[taken] + [leaseId]], id)
  {
  }

  lemma GrantUnrepeated(h: History, id: Text, leaseId: Text)
    requires id in h && Unrepeated(h) && Unused(h, leaseId)
    ensures Unrepeated(h[id := h[id] + [leaseId]])
  {
  }

  lemma ClaimKeeps(l: Limits, s: State, h: History, w: Text, available: int, cpuCount: int, now: int, later: int,
                   leaseId: Text)
    requires Inv(l, s, h) && Unused(h, leaseId)
    ensures Inv(l, Claim(l, s, w, available, cpuCount, now, later, leaseId).0,
                Noted(l, s, h, Claims(w, available, cpuCount, now, later, leaseId)))
  {
    hide Well, Grant, GiveUpAll, Unrepeated, Unused, Chosen, RoomFor, ExpiredIds;
    var e := Expire(l, s, now);
    forall id ensures Well(l, e, h, id) {
      GiveUpWell(l, s, h, ExpiredIds(s, now), id);
    }
    var r := Claim(l, s, w, available, cpuCount, now, later, leaseId).1;
    if r.Ok? && r.value.Some? {
      var taken := r.value.value;
      QueuedSubmitted(l, e, h, taken);
      var t, g := Grant(l, e, taken, w, later, leaseId), h[taken := h[taken] + [leaseId]];
      forall id ensures Well(l, t, g, id) {
        GrantWell(l, e, h, taken, w, later, leaseId, id);
      }
      GrantUnrepeated(h, taken, leaseId);
    }
  }

  lemma QueuedSubmitted(l: Limits, s: State, h: History, id: Text)
    requires Well(l, s, h, id) && id in s.queued
    ensures id in h
  {
  }

  /** Any call keeps the invariant, provided a claim draws a lease id that was never used. */
  lemma ApplyKeeps(l: Limits, s: State, h: History, op: Op)
    requires Inv(l, s, h) && Draws(h, op) && l.maxAttempts >= 1
    ensures Inv(l, Apply(l, s, op), Noted(l, s, h, op))
  {
    match op
    case Claims(w, available, cpuCount, now, later, leaseId) =>
      ClaimKeeps(l, s, h, w, available, cpuCount, now, later, leaseId);
    case Submits(t) =>
      if Submit(s, t).Ok? {
        SubmitKeeps(l, s, h, t);
      }
    case _ => OtherKeeps(l, s, h, op);
  }

  lemma SubmitKeeps(l: Limits, s: State, h: History, t: Task)
    requires Inv(l, s, h) && l.maxAttempts >= 1 && Submit(s, t).Ok?
    ensures Inv(l, Submit(s, t).value, h[t.id := []])
  {
    var r, g := Submit(s, t).value, h[t.id := []];
    forall id ensures Well(l, r, g, id) {
      SubmitWell(l, s, h, t, id);
    }
  }

  lemma OtherKeeps(l: Limits, s: State, h: History, op: Op)
    requires Inv(l, s, h) && !op.Claims? && !op.Submits?
    ensures Inv(l, Apply(l, s, op), h)
  {
    hide Unrepeated;
    forall id ensures Well(l, Apply(l, s, op), h, id) {
      assert Well(l, s, h, id);
      match op
      case Registers(w, c) =>
      case Completes(w, gone, result, lease) =>
        if Complete(s, w, gone, result, lease).Ok? {
          CompleteWell(l, s, h, w, gone, result, lease, id);
        }
      case Releases(w, gone, why, lease) =>
        if Release(l, s, w, gone, why, lease).Ok? {
          GiveUpOneWell(l, s, h, gone, why, id);
        }
      case Fails(w, gone, error, lease) =>
        if Fail(s, w, gone, error, lease).Ok? {
          FailWell(l, s, h, w, gone, error, lease, id);
        }
      case Asks(now) => GiveUpWell(l, s, h, ExpiredIds(s, now), id);
    }
  }

  // ---------------------------------------------------------------- whole runs

  ghost function Run(l: Limits, s: State, h: History, ops: seq<Op>): (r: (State, History)) {
    if ops == [] then (s, h) else
      var (t, g) := Run(l, s, h, ops[..|ops| - 1]);
      (Apply(l, t, ops[|ops| - 1]), Noted(l, t, g, ops[|ops| - 1]))
  }

  /** Every claim of the run draws a lease id that was never used. */
  ghost predicate Random(l: Limits, s: State, h: History, ops: seq<Op>) {
    ops == [] || (
      && Random(l, s, h, ops[..|ops| - 1])
      && Draws(Run(l, s, h, ops[..|ops| - 1]).1, ops[|ops| - 1]))
  }

  const EMPTY: State := State(map[], map[], map[], map[], map[], map[])

  lemma {:induction false} RunKeeps(l: Limits, ops: seq<Op>)
    requires l.maxAttempts >= 1 && Random(l, EMPTY, map[], ops)
    ensures var (s, h) := Run(l, EMPTY, map[], ops); Inv(l, s, h)
  {
    hide Apply, Noted, Draws, Well;
    if ops == [] {
      EmptyHolds(l);
    } else {
      RunKeeps(l, ops[..|ops| - 1]);
      var (s, h) := Run(l, EMPTY, map[], ops[..|ops| - 1]);
      ApplyKeeps(l, s, h, ops[|ops| - 1]);
    }
  }

  lemma EmptyHolds(l: Limits)
    ensures Inv(l, EMPTY, map[])
  {
    assert forall id :: Well(l, EMPTY, map[], id);
  }

  /** In every reachable state a task that was ever accepted is in exactly one bucket, any other is in
      none; it has attempts to spare while it waits, between one and all of them while it runs; and
      over the whole run it has been leased at most `maxAttempts` times. */
  lemma EveryTaskInOneBucket(l: Limits, ops: seq<Op>, id: Text)
    requires l.maxAttempts >= 1 && Random(l, EMPTY, map[], ops)
    ensures var (s, h) := Run(l, EMPTY, map[], ops);
      && Places(s, id) == One(id in h)
      && (id in s.queued ==> id in s.attempts && s.attempts[id] < l.maxAttempts)
      && (id in s.running ==> id in s.attempts && 1 <= s.attempts[id] <= l.maxAttempts)
      && (id in h ==> |h[id]| <= l.maxAttempts)
  {
    RunKeeps(l, ops);
    var (s, h) := Run(l, EMPTY, map[], ops);
    hide Run, Validate;
    assert Well(l, s, h, id);
  }

  /** Reading a queued task back never fails: every stored task is in normal form. */
  lemma QueuedTasksRevalidate(l: Limits, ops: seq<Op>, id: Text)
    requires l.maxAttempts >= 1 && Random(l, EMPTY, map[], ops)
    ensures var (s, h) := Run(l, EMPTY, map[], ops); id in s.queued ==> s.queued[id].id == id && ValidTask(s.queued[id])
  {
    RunKeeps(l, ops);
    var (s, h) := Run(l, EMPTY, map[], ops);
    hide Run, Validate;
    assert Well(l, s, h, id);
  }

  /** What has been submitted stays submitted, and leases once granted stay granted. */
  lemma {:induction false} NeverLost(l: Limits, s: State, h: History, ops: seq<Op>, id: Text)
    requires id in h
    ensures var g := Run(l, s, h, ops).1; Inv(l, s, h) && Random(l, s, h, ops) && l.maxAttempts >= 1 ==>
      Inv(l, Run(l, s, h, ops).0, g) && id in g && h[id] <= g[id]
  {
    hide Apply, Noted, Draws, Inv;
    if ops != [] && Inv(l, s, h) && Random(l, s, h, ops) && l.maxAttempts >= 1 {
      NeverLost(l, s, h, ops[..|ops| - 1], id);
      var (t, g) := Run(l, s, h, ops[..|ops| - 1]);
      ApplyKeeps(l, t, g, ops[|ops| - 1]);
      NotedKeeps(l, t, g, ops[|ops| - 1], id);
    }
  }

  lemma NotedKeeps(l: Limits, s: State, h: History, op: Op, id: Text)
    requires Inv(l, s, h) && id in h
    ensures id in Noted(l, s, h, op) && h[id] <= Noted(l, s, h, op)[id]
  {
    hide Claim, Unrepeated;
    assert Well(l, s, h, id);
  }

  /** The lease was granted for another task, or for this one before its last lease. */
  ghost predicate Superseded(h: History, id: Text, lease: Text) {
    exists id', i :: id' in h && 0 <= i < |h[id']| && h[id'][i] == lease && (id' != id || i < |h[id']| - 1)
  }

  /** Nothing can be done to the task with this lease. */
  ghost predicate Refused(l: Limits, s: State, worker: Text, id: Text, lease: Text) {
    && (forall result :: Complete(s, worker, id, result, Some(lease)).Err?)
    && (forall why :: Release(l, s, worker, id, why, Some(lease)).Err?)
    && (forall error :: Fail(s, worker, id, error, Some(lease)).Err?)
  }

  /** Whoever presents a lease id ends the task only with the lease granted last; an older lease of
      the same task, or one of another task, is refused by complete, release and fail alike. */
  lemma OnlyLastLeaseCounts(l: Limits, ops: seq<Op>, worker: Text, id: Text, lease: Text)
    requires l.maxAttempts >= 1 && Random(l, EMPTY, map[], ops)
    ensures var (s, h) := Run(l, EMPTY, map[], ops);
      && (Held(s, worker, id, Some(lease)).Ok? ==> id in h && |h[id]| > 0 && lease == h[id][|h[id]| - 1])
      && (Superseded(h, id, lease) ==> Refused(l, s, worker, id, lease))
  {
    RunKeeps(l, ops);
    hide Run, Inv, Held, Superseded, Refused, Random;
    var (s, h) := Run(l, EMPTY, map[], ops);
    if Held(s, worker, id, Some(lease)).Ok? {
      HeldIsLast(l, s, h, worker, id, lease);
    }
    if Superseded(h, id, lease) {
      SupersededRefused(l, s, h, worker, id, lease);
    }
  }

  lemma SupersededRefused(l: Limits, s: State, h: History, worker: Text, id: Text, lease: Text)
    requires Inv(l, s, h) && Superseded(h, id, lease)
    ensures Refused(l, s, worker, id, lease)
  {
    hide Well, Unrepeated, GiveUp;
    var id', i :| id' in h && 0 <= i < |h[id']| && h[id'][i] == lease && (id' != id || i < |h[id']| - 1);
    if Held(s, worker, id, Some(lease)).Ok? {
      HeldIsLast(l, s, h, worker, id, lease);
      NeverAgain(h, id, id', i);
    }
  }

  lemma HeldIsLast(l: Limits, s: State, h: History, worker: Text, id: Text, lease: Text)
    requires Inv(l, s, h) && Held(s, worker, id, Some(lease)).Ok?
    ensures id in h && |h[id]| > 0 && lease == h[id][|h[id]| - 1]
  {
    hide Validate, Unrepeated;
    assert Well(l, s, h, id);
  }

  lemma NeverAgain(h: History, id: Text, id': Text, i: nat)
    requires Unrepeated(h) && id in h && |h[id]| > 0 && id' in h && i < |h[id']| && (id' != id || i < |h[id]| - 1)
    ensures h[id'][i] != h[id][|h[id]| - 1]
  {
  }

  // ---------------------------------------------------------------- reservations

  ghost predicate AllSized(running: map<Text, Lease>) {
    forall id :: id in running ==> Sized(running[id].task)
  }

  ghost predicate Part(small: map<Text, Lease>, large: map<Text, Lease>) {
    forall id :: id in small ==> id in large && small[id] == large[id]
  }

  /** Fewer leases reserve no more. */
  lemma {:induction false} ReservedGrows(m: Measure, small: map<Text, Lease>, large: map<Text, Lease>, worker: Text)
    requires Part(small, large) && AllSized(large)
    ensures Reserved(m, small, worker) <= Reserved(m, large, worker)
    decreases |large|
  {
    if large == map[] {
      assert small == large;
    } else {
      var id :| id in large;
      ReservedSplits(m, large, worker, id);
      RemovedSmaller(large, id);
      ReservedGrows(m, small - {id}, large - {id}, worker);
      if id in small {
        ReservedSplits(m, small, worker, id);
      } else {
        assert small - {id} == small;
      }
    }
  }

  lemma ReservedAdds(m: Measure, running: map<Text, Lease>, id: Text, lease: Lease, worker: Text)
    requires id !in running
    ensures Reserved(m, running[id := lease], worker) == Share(m, lease, worker) + Reserved(m, running, worker)
  {
    ReservedSplits(m, running[id := lease], worker, id);
    assert running[id := lease] - {id} == running;
  }

  /** The sum is within the registered cap, if there is one. */
  ghost predicate Under(reserved: int, cap: Option<int>) {
    cap.Some? ==> reserved <= cap.value
  }

  /** The worker is registered with these capabilities and its leases fit them, or it has none. */
  ghost predicate Fitting(s: State, worker: Text, c: Capabilities) {
    var memory, threads := Reserved(MemoryMb, s.running, worker), Reserved(Threads, s.running, worker);
    if worker in s.workers then s.workers[worker] == c && Under(memory, MemoryCap(c)) && Under(threads, CpuCap(c))
    else memory <= 0 && threads <= 0
  }

  lemma FewerFit(s: State, t: State, worker: Text, c: Capabilities)
    requires Fitting(s, worker, c) && AllSized(s.running) && Part(t.running, s.running) && t.workers == s.workers
    ensures Fitting(t, worker, c)
  {
    ReservedGrows(MemoryMb, t.running, s.running, worker);
    ReservedGrows(Threads, t.running, s.running, worker);
  }

  lemma GrantFits(l: Limits, s: State, id: Text, owner: Text, now: int, leaseId: Text, room: (int, int),
                  available: int, cpuCount: int, worker: Text, c: Capabilities)
    requires Fitting(s, worker, c) && id in s.queued && id !in s.running && Sized(s.queued[id])
    requires owner in s.workers && room == RoomFor(s, owner, available, cpuCount)
    requires s.queued[id].memory <= room.0 && s.queued[id].threads <= room.1
    ensures Fitting(Grant(l, s, id, owner, now, leaseId), worker, c)
  {
    hide MemoryCap, CpuCap;
    var t := Grant(l, s, id, owner, now, leaseId);
    ReservedAdds(MemoryMb, s.running, id, t.running[id], worker);
    ReservedAdds(Threads, s.running, id, t.running[id], worker);
  }

  lemma ClaimFits(l: Limits, s: State, h: History, op: Op, worker: Text, c: Capabilities)
    requires Inv(l, s, h) && Fitting(s, worker, c) && op.Claims?
    ensures Fitting(Apply(l, s, op), worker, c)
  {
    hide Well, Fitting, Grant, RoomFor, Unrepeated, Requeued, GivenUp, SpentIds;
    var e := Expire(l, s, op.now);
    SizedInv(l, s, h);
    FewerFit(s, e, worker, c);
    if op.worker in e.workers {
      var room := RoomFor(e, op.worker, op.available, op.cpuCount);
      var id := Chosen(e, room.0, room.1, e.workers[op.worker].features);
      if id.Some? {
        GiveUpWell(l, s, h, ExpiredIds(s, op.now), id.value);
        WellQueued(l, e, h, id.value);
        GrantFits(l, e, id.value, op.worker, op.later, op.leaseId, room, op.available, op.cpuCount, worker, c);
      }
    }
  }

  lemma WellQueued(l: Limits, s: State, h: History, id: Text)
    requires Well(l, s, h, id) && id in s.queued
    ensures id !in s.running && Sized(s.queued[id])
  {
  }

  lemma SizedInv(l: Limits, s: State, h: History)
    requires Inv(l, s, h)
    ensures AllSized(s.running)
  {
    forall id | id in s.running ensures Sized(s.running[id].task) {
      assert Well(l, s, h, id);
    }
  }

  /** The worker is never registered with anything else. */
  ghost predicate SameCapabilities(op: Op, worker: Text, c: Capabilities) {
    op.Registers? && op.worker == worker ==> op.capabilities == c
  }

  lemma ApplyFits(l: Limits, s: State, h: History, op: Op, worker: Text, c: Capabilities)
    requires Inv(l, s, h) && Fitting(s, worker, c) && SameCapabilities(op, worker, c)
    ensures Fitting(Apply(l, s, op), worker, c)
  {
    hide Apply, Inv, Fitting, SameCapabilities;
    if op.Claims? {
      ClaimFits(l, s, h, op, worker, c);
    } else if op.Registers? {
      RegisterFits(l, s, op, worker, c);
    } else {
      SizedInv(l, s, h);
      OthersShrink(l, s, op);
      FewerFit(s, Apply(l, s, op), worker, c);
    }
  }

  lemma RegisterFits(l: Limits, s: State, op: Op, worker: Text, c: Capabilities)
    requires Fitting(s, worker, c) && op.Registers? && SameCapabilities(op, worker, c)
    ensures Fitting(Apply(l, s, op), worker, c)
  {
    PositiveCaps(c);
    hide MemoryCap, CpuCap;
  }

  lemma PositiveCaps(c: Capabilities)
    ensures MemoryCap(c).Some? ==> MemoryCap(c).value > 0
    ensures CpuCap(c).Some? ==> CpuCap(c).value > 0
  {
  }

  lemma OthersShrink(l: Limits, s: State, op: Op)
    requires !op.Claims? && !op.Registers?
    ensures var t := Apply(l, s, op); Part(t.running, s.running) && t.workers == s.workers
  {
    hide GiveUp, GiveUpAll, ExpiredIds, Validate;
    match op
    case Completes(_, _, _, _) =>
    case Releases(_, id, why, _) =>
      if id in s.running {
        GiveUpShrinks(l, s, id, why);
      }
    case Fails(_, _, _, _) =>
    case Submits(_) =>
    case Asks(now) => GiveUpAllShrinks(l, s, ExpiredIds(s, now));
  }

  lemma GiveUpShrinks(l: Limits, s: State, id: Text, why: Text)
    requires id in s.running
    ensures Part(GiveUp(l, s, id, why).running, s.running) && GiveUp(l, s, id, why).workers == s.workers
  {
  }

  lemma GiveUpAllShrinks(l: Limits, s: State, ids: set<Text>)
    ensures Part(GiveUpAll(l, s, ids).running, s.running) && GiveUpAll(l, s, ids).workers == s.workers
  {
    hide Requeued, GivenUp, SpentIds;
  }

  lemma {:induction false} RunFits(l: Limits, ops: seq<Op>, worker: Text, c: Capabilities)
    requires l.maxAttempts >= 1 && Random(l, EMPTY, map[], ops) && forall op :: op in ops ==>
      SameCapabilities(op, worker, c)
    ensures Fitting(Run(l, EMPTY, map[], ops).0, worker, c)
  {
    hide Apply, Noted, Draws, Inv, SameCapabilities;
    if ops != [] {
      hide Fitting;
      var (s, h) := Run(l, EMPTY, map[], ops[..|ops| - 1]);
      RunFits(l, ops[..|ops| - 1], worker, c);
      RunKeeps(l, ops[..|ops| - 1]);
      assert ops[|ops| - 1] in ops;
      ApplyFits(l, s, h, ops[|ops| - 1], worker, c);
    }
  }

  /** A limit that is missing or not positive limits nothing. */
  predicate UnderLimit(n: int, limit: Option<int>) {
    limit.Some? && limit.value > 0 ==> n <= limit.value
  }

  /** While a worker's registered capabilities stay the same, the memory and the threads of its
      running leases never add up to more than any of its positive limits, whatever is claimed,
      released, expired or completed. */
  lemma ReservationsStayWithinCaps(l: Limits, ops: seq<Op>, worker: Text, c: Capabilities)
    requires l.maxAttempts >= 1 && Random(l, EMPTY, map[], ops) && forall op :: op in ops ==>
      SameCapabilities(op, worker, c)
    ensures var s := Run(l, EMPTY, map[], ops).0; worker in s.workers ==>
      var memory := Reserved(MemoryMb, s.running, worker);
      && UnderLimit(memory, c.memory) && UnderLimit(memory, c.safeMemory)
      && UnderLimit(Reserved(Threads, s.running, worker), c.cpus)
  {
    RunFits(l, ops, worker, c);
    hide Run;
  }
}
