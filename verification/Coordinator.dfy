/** The compute coordinator (`zdx_compute_core.py`): a task queue with leases, attempts and
    per-worker reservations. */
module Coordinator {
  import opened Basics
  import opened ComputeTask
  import Lex

  datatype Lease = Lease(task: Task, worker: Text, until: int, leaseId: Text, attempts: nat)

  /** A worker's registered capabilities; a missing limit is `None`. */
  datatype Capabilities = Capabilities(
    memory: Option<int>, safeMemory: Option<int>, cpus: Option<int>, features: set<Text>)

  /** The result is kept as its JSON bytes. */
  datatype Completion = Completion(task: Task, worker: Text, result: Bytes)

  datatype Failure = Failure(task: Task, worker: Text, error: Text, attempts: nat)

  datatype State = State(
    queued: map<Text, Task>, running: map<Text, Lease>, completed: map<Text, Completion>, failed: map<Text, Failure>,
    workers: map<Text, Capabilities>, attempts: map<Text, nat>)

  datatype Limits = Limits(leaseSeconds: int, maxAttempts: int)

  /** Both limits are raised to at least one. */
  function MakeLimits(leaseSeconds: int, maxAttempts: int): (l: Limits)
    ensures l.leaseSeconds >= 1 && l.maxAttempts >= 1
  {
    Limits(Max(1, leaseSeconds), Max(1, maxAttempts))
  }

  datatype ComputeError =
    | InvalidTask | TaskExists | InvalidWorker | UnknownWorker | NotLeased | StaleLease | ResultTooLarge

  const MAX_RESULT_BYTES := 1024 * 1024

  function Max(a: int, b: int): (m: int) {
    if a < b then b else a
  }

  function Min(a: int, b: int): (m: int) {
    if a < b then a else b
  }

  // ---------------------------------------------------------------- submitting and registering

  predicate Known(s: State, id: Text) {
    id in s.queued || id in s.running || id in s.completed || id in s.failed
  }

  function Submit(s: State, t: Task): (r: Result<State, ComputeError>) {
    var task := Validate(t);
    if task.None? then Err(InvalidTask)
    else if Known(s, t.id) then Err(TaskExists)
    else Ok(s.(queued := s.queued[t.id := task.value], attempts := s.attempts[t.id := 0]))
  }

  function Register(s: State, worker: Text, c: Capabilities): (r: Result<State, ComputeError>) {
    if worker == [] then Err(InvalidWorker) else Ok(s.(workers := s.workers[worker := c]))
  }

  // ---------------------------------------------------------------- leases

  function AttemptsOf(s: State, id: Text, lease: Lease): (n: nat) {
    if id in s.attempts then s.attempts[id] else lease.attempts
  }

  /** The record of a lease that failed. */
  function FailureOf(s: State, id: Text, error: Text): (f: Failure)
    requires id in s.running
  {
    var lease := s.running[id];
    Failure(lease.task, lease.worker, error, AttemptsOf(s, id, lease))
  }

  /** A lease that was given up: back to the queue, or failed when its attempts are spent. */
  function GiveUp(l: Limits, s: State, id: Text, why: Text): (t: State)
    requires id in s.running
  {
    var lease := s.running[id];
    var t := s.(running := s.running - {id});
    if AttemptsOf(s, id, lease) >= l.maxAttempts then
      t.(failed := t.failed[id := FailureOf(s, id, why)], attempts := t.attempts - {id})
    else t.(queued := t.queued[id := lease.task])
  }

  /** The lease this caller holds, if its claim to it stands up. */
  function Held(s: State, worker: Text, id: Text, leaseId: Option<Text>): (r: Result<Lease, ComputeError>) {
    if id !in s.running || s.running[id].worker != worker then Err(NotLeased)
    else if leaseId.Some? && s.running[id].leaseId != leaseId.value then Err(StaleLease)
    else Ok(s.running[id])
  }

  function Complete(s: State, worker: Text, id: Text, result: Bytes,
                    leaseId: Option<Text>): (r: Result<State, ComputeError>) {
    if |result| > MAX_RESULT_BYTES then Err(ResultTooLarge) else
      var lease :- Held(s, worker, id, leaseId);
      Ok(s.(running := s.running - {id}, attempts := s.attempts - {id},
        completed := s.completed[id := Completion(lease.task, worker, result)]))
  }

  function Release(l: Limits, s: State, worker: Text, id: Text, why: Text,
                   leaseId: Option<Text>): (r: Result<State, ComputeError>) {
    var lease :- Held(s, worker, id, leaseId);
    Ok(GiveUp(l, s, id, why))
  }

  function Fail(s: State, worker: Text, id: Text, error: Text,
                leaseId: Option<Text>): (r: Result<State, ComputeError>) {
    var lease :- Held(s, worker, id, leaseId);
    Ok(s.(running := s.running - {id}, attempts := s.attempts - {id},
      failed := s.failed[id := FailureOf(s, id, error)]))
  }

  // ---------------------------------------------------------------- expiry

  predicate Expired(s: State, id: Text, now: int) {
    id in s.running && s.running[id].until <= now
  }

  predicate Spent(l: Limits, s: State, id: Text)
    requires id in s.running
  {
    AttemptsOf(s, id, s.running[id]) >= l.maxAttempts
  }

  function Requeued(l: Limits, s: State, ids: set<Text>): (m: map<Text, Task>) {
    s.queued + map id | id in ids && id in s.running && !Spent(l, s, id) :: s.running[id].task
  }

  /** `lease expired`. */
  const LEASE_EXPIRED: Text := [108, 101, 97, 115, 101, 32, 101, 120, 112, 105, 114, 101, 100]

  function GivenUp(l: Limits, s: State, ids: set<Text>): (m: map<Text, Failure>) {
    s.failed + map id | id in ids && id in s.running && Spent(l, s, id) :: FailureOf(s, id, LEASE_EXPIRED)
  }

  function SpentIds(l: Limits, s: State, ids: set<Text>): (gone: set<Text>) {
    set id | id in ids && id in s.running && Spent(l, s, id)
  }

  /** These leases are all given up at once. */
  function GiveUpAll(l: Limits, s: State, ids: set<Text>): (t: State) {
    s.(running := s.running - ids, queued := Requeued(l, s, ids), failed := GivenUp(l, s, ids),
       attempts := s.attempts - SpentIds(l, s, ids))
  }

  function ExpiredIds(s: State, now: int): (ids: set<Text>) {
    set id | id in s.running && Expired(s, id, now)
  }

  /** Every lease that has run out is given up. */
  function Expire(l: Limits, s: State, now: int): (t: State) {
    GiveUpAll(l, s, ExpiredIds(s, now))
  }

  lemma GiveUpNone(l: Limits, s: State)
    ensures GiveUpAll(l, s, {}) == s
  {
    assert s.running - {} == s.running;
  }

  /** What one more lease adds. */
  lemma OneMore(l: Limits, s: State, ids: set<Text>, id: Text)
    requires id in s.running && id !in ids
    ensures Requeued(l, s, ids + {id}) == if Spent(l, s, id) then Requeued(l, s, ids)
      else Requeued(l, s, ids)[id := s.running[id].task]
    ensures SpentIds(l, s, ids + {id}) == if Spent(l, s, id) then SpentIds(l, s, ids) + {id} else SpentIds(l, s, ids)
  {
    hide Spent;
  }

  lemma OneMoreFailure(l: Limits, s: State, ids: set<Text>, id: Text)
    requires id in s.running && id !in ids
    ensures GivenUp(l, s, ids + {id})
      == if Spent(l, s, id) then GivenUp(l, s, ids)[id := FailureOf(s, id, LEASE_EXPIRED)]
        else GivenUp(l, s, ids)
  {
    hide Spent;
  }

  lemma StillUnspent(l: Limits, s: State, ids: set<Text>, id: Text)
    requires id in s.running && id !in ids
    ensures var t := GiveUpAll(l, s, ids);
      id in t.running && t.running[id] == s.running[id] && Spent(l, t, id) == Spent(l, s, id)
        && FailureOf(t, id, LEASE_EXPIRED) == FailureOf(s, id, LEASE_EXPIRED)
  {
    hide Requeued, GivenUp;
  }

  /** Giving leases up one by one, in any order, comes to the same. */
  lemma GiveUpOneMore(l: Limits, s: State, ids: set<Text>, id: Text)
    requires id in s.running && id !in ids
    ensures id in GiveUpAll(l, s, ids).running
    ensures GiveUp(l, GiveUpAll(l, s, ids), id, LEASE_EXPIRED) == GiveUpAll(l, s, ids + {id})
  {
    hide Requeued, GivenUp, SpentIds;
    StillUnspent(l, s, ids, id);
    OneMore(l, s, ids, id);
    OneMoreFailure(l, s, ids, id);
    assert s.running - ids - {id} == s.running - (ids + {id});
    if Spent(l, s, id) {
      assert s.attempts - SpentIds(l, s, ids) - {id} == s.attempts - (SpentIds(l, s, ids) + {id});
    }
  }

  // ---------------------------------------------------------------- claiming

  datatype Measure = MemoryMb | Threads

  function Amount(m: Measure, t: Task): (n: int) {
    if m.MemoryMb? then t.memory else t.threads
  }

  function Share(m: Measure, lease: Lease, worker: Text): (n: int) {
    if lease.worker == worker then Amount(m, lease.task) else 0
  }

  /** What a worker's running leases add up to. */
  ghost function Reserved(m: Measure, running: map<Text, Lease>, worker: Text): (n: int)
    decreases |running|
  {
    if running == map[] then 0 else
      var id :| id in running;
      RemovedSmaller(running, id);
      Share(m, running[id], worker) + Reserved(m, running - {id}, worker)
  }

  /** The order in which the leases are summed does not matter: each of the worker's own counts with its
      task's memory or threads, any other not at all. */
  lemma {:induction false} ReservedSplits(m: Measure, running: map<Text, Lease>, worker: Text, id: Text)
    requires id in running
    ensures Reserved(m, running, worker) == Share(m, running[id], worker) + Reserved(m, running - {id}, worker)
    ensures Share(m, running[id], worker)
      == if running[id].worker != worker then 0
         else if m == MemoryMb then running[id].task.memory
         else running[id].task.threads
    decreases |running|
  {
    var k :| k in running
      && Reserved(m, running, worker) == Share(m, running[k], worker) + Reserved(m, running - {k}, worker);
    if k != id {
      RemovedSmaller(running, k);
      RemovedSmaller(running, id);
      ReservedSplits(m, running - {k}, worker, id);
      ReservedSplits(m, running - {id}, worker, k);
      assert running - {k} - {id} == running - {id} - {k};
    }
  }

  function Positive(limit: Option<int>): (p: bool) {
    limit.Some? && limit.value > 0
  }

  /** The smallest positive registered memory limit. */
  function MemoryCap(c: Capabilities): (cap: Option<int>) {
    if Positive(c.memory) && Positive(c.safeMemory) then Some(Min(c.memory.value, c.safeMemory.value))
    else if Positive(c.memory) then c.memory
    else if Positive(c.safeMemory) then c.safeMemory
    else None
  }

  function CpuCap(c: Capabilities): (cap: Option<int>) {
    if Positive(c.cpus) then c.cpus else None
  }

  function Capped(offered: int, cap: Option<int>): (n: int) {
    if cap.Some? then Min(offered, cap.value) else offered
  }

  /** What is left of an offer, under a registered cap, after `reserved` is taken. */
  function Room(offered: int, cap: Option<int>, reserved: int): (n: int) {
    Max(0, Capped(offered, cap) - reserved)
  }

  predicate Fits(t: Task, memory: int, cpus: int, features: set<Text>) {
    t.memory <= memory && t.threads <= cpus && t.features <= features
  }

  /** When each task was created. */
  function Created(tasks: map<Text, Task>): (times: map<Text, int>) {
    map id | id in tasks :: tasks[id].created
  }

  function FittingTasks(s: State, memory: int, cpus: int, features: set<Text>): (tasks: map<Text, Task>) {
    map id | id in s.queued && Fits(s.queued[id], memory, cpus, features) :: s.queued[id]
  }

  lemma QueuePlaces(tasks: map<Text, Task>)
    ensures forall k :: k in Lex.Places(Created(tasks)) ==>
      Lex.Name(k) in tasks && Lex.Place(tasks[Lex.Name(k)].created, Lex.Name(k)) == k
    ensures forall id :: id in tasks ==> Lex.Place(tasks[id].created, id) in Lex.Places(Created(tasks))
    ensures Lex.Places(Created(tasks)) == {} <==> tasks == map[]
  {
    Lex.PlacesNamed(Created(tasks));
    forall id | id in tasks ensures Lex.Place(tasks[id].created, id) in Lex.Places(Created(tasks)) {
      assert Created(tasks)[id] == tasks[id].created;
    }
    assert tasks == map[] <==> Created(tasks) == map[] by {
      assert forall id :: id in tasks <==> id in Created(tasks);
    }
  }

  /** The queued task to lease: of those that fit, the one submitted first. */
  function Chosen(s: State, memory: int, cpus: int, features: set<Text>): (r: Option<Text>)
    ensures r.Some? ==> r.value in s.queued && Fits(s.queued[r.value], memory, cpus, features)
  {
    var fitting := FittingTasks(s, memory, cpus, features);
    QueuePlaces(fitting);
    if fitting == map[] then None else Some(Lex.Name(Lex.Least(Lex.Places(Created(fitting)))))
  }

  /** Something is chosen exactly when something fits, and everything else that fits was submitted
      later, ties going to the smaller id. */
  lemma ChosenIsFirst(s: State, memory: int, cpus: int, features: set<Text>)
    ensures Chosen(s, memory, cpus, features).None? <==> forall id :: id in s.queued ==>
      !Fits(s.queued[id], memory, cpus, features)
    ensures var r := Chosen(s, memory, cpus, features); r.Some? ==>
      forall id :: id in s.queued && id != r.value && Fits(s.queued[id], memory, cpus, features) ==>
        Lex.Less(Lex.Place(s.queued[r.value].created, r.value), Lex.Place(s.queued[id].created, id))
  {
    hide Fits, Lex.Less, Lex.Name, Lex.Places;
    var fitting := FittingTasks(s, memory, cpus, features);
    QueuePlaces(fitting);
    forall id | id in s.queued && Fits(s.queued[id], memory, cpus, features)
      ensures id in fitting && fitting[id] == s.queued[id] {
    }
  }

  function Grant(l: Limits, s: State, id: Text, worker: Text, now: int, leaseId: Text): (t: State)
    requires id in s.queued
  {
    var task := s.queued[id];
    var attempts := (if id in s.attempts then s.attempts[id] else 0) + 1;
    s.(queued := s.queued - {id},
       attempts := s.attempts[id := attempts],
       running := s.running[id := Lease(task, worker, now + Min(l.leaseSeconds, task.maxSeconds), leaseId, attempts)])
  }

  /** How much memory and how many threads a registered worker may still take. */
  ghost function RoomFor(s: State, worker: Text, available: int, cpuCount: int): (room: (int, int))
    requires worker in s.workers
  {
    var c := s.workers[worker];
    (Room(Max(0, available), MemoryCap(c), Reserved(MemoryMb, s.running, worker)),
     Room(Max(1, cpuCount), CpuCap(c), Reserved(Threads, s.running, worker)))
  }

  /** `claim` once expired leases are gone. */
  ghost function ClaimFrom(l: Limits, s: State, worker: Text, available: int, cpuCount: int, now: int, leaseId: Text)
    : (r: (State, Result<Option<Text>, ComputeError>))
  {
    if worker !in s.workers then (s, Err(UnknownWorker))
    else
      var room := RoomFor(s, worker, available, cpuCount);
      match Chosen(s, room.0, room.1, s.workers[worker].features)
      case None => (s, Ok(None))
      case Some(id) => (Grant(l, s, id, worker, now, leaseId), Ok(Some(id)))
  }

  /** `claim`: leases that ran out are given up first, whether or not the worker is known; the clock
      is read again for the new lease. */
  ghost function Claim(l: Limits, s: State, worker: Text, available: int, cpuCount: int, now: int, later: int,
                       leaseId: Text)
    : (r: (State, Result<Option<Text>, ComputeError>))
  {
    ClaimFrom(l, Expire(l, s, now), worker, available, cpuCount, later, leaseId)
  }

  predicate Misfit(queued: map<Text, Task>, k: Lex.Key, memory: int, cpus: int, features: set<Text>) {
    Lex.Name(k) in queued && !Fits(queued[Lex.Name(k)], memory, cpus, features)
  }

  /** The first that fits, in the order of submission, is the least of those that fit. */
  lemma FirstFitIsChosen(s: State, order: seq<Lex.Key>, i: nat, memory: int, cpus: int, features: set<Text>)
    requires order == Lex.Sorted(Lex.Places(Created(s.queued))) && i < |order| && Lex.Name(order[i]) in s.queued
    requires Fits(s.queued[Lex.Name(order[i])], memory, cpus, features)
    requires forall j :: 0 <= j < i ==> Misfit(s.queued, order[j], memory, cpus, features)
    ensures Chosen(s, memory, cpus, features) == Some(Lex.Name(order[i]))
  {
    hide Fits, Lex.Sorted, Lex.Less, Lex.Name, Lex.Places;
    var fitting := FittingTasks(s, memory, cpus, features);
    QueuePlaces(s.queued);
    QueuePlaces(fitting);
    assert order[i] in order;
    forall k | k in Lex.Places(Created(fitting)) ensures k in Lex.Places(Created(s.queued)) {
      assert Lex.Place(s.queued[Lex.Name(k)].created, Lex.Name(k)) == k;
    }
    assert Lex.Name(order[i]) in fitting
      && Lex.Place(fitting[Lex.Name(order[i])].created, Lex.Name(order[i])) == order[i];
    Lex.FirstIsLeast(Lex.Places(Created(s.queued)), Lex.Places(Created(fitting)), i);
  }

  lemma NoFitNoChoice(s: State, order: seq<Lex.Key>, memory: int, cpus: int, features: set<Text>)
    requires order == Lex.Sorted(Lex.Places(Created(s.queued)))
    requires forall j :: 0 <= j < |order| ==> Misfit(s.queued, order[j], memory, cpus, features)
    ensures Chosen(s, memory, cpus, features) == None
  {
    var fitting := FittingTasks(s, memory, cpus, features);
    QueuePlaces(s.queued);
    forall id | id in s.queued ensures !Fits(s.queued[id], memory, cpus, features) {
      var j :| 0 <= j < |order| && order[j] == Lex.Place(s.queued[id].created, id);
    }
    assert fitting == map[];
  }

  /** No other task changes its bucket. */
  ghost predicate OthersStay(s: State, t: State, id: Text) {
    forall k :: k != id ==>
      && (k in t.queued <==> k in s.queued) && (k in t.running <==> k in s.running)
      && (k in t.completed <==> k in s.completed) && (k in t.failed <==> k in s.failed)
  }

  /** The worker has the task's lease, and a lease id it presents is the right one. */
  predicate HeldBy(running: map<Text, Lease>, worker: Text, id: Text, leaseId: Option<Text>) {
    id in running && running[id].worker == worker && (leaseId == None || leaseId == Some(running[id].leaseId))
  }

  // ---------------------------------------------------------------- the coordinator

  class ComputeCoordinator {
    const limits: Limits
    var queued: map<Text, Task>
    var running: map<Text, Lease>
    var completed: map<Text, Completion>
    var failed: map<Text, Failure>
    var workers: map<Text, Capabilities>
    var attempts: map<Text, nat>

    function View(): (s: State)
      reads this
    {
      State(queued, running, completed, failed, workers, attempts)
    }

    constructor (leaseSeconds: int, maxAttempts: int)
      ensures limits == MakeLimits(leaseSeconds, maxAttempts)
      ensures View() == State(map[], map[], map[], map[], map[], map[])
    {
      limits := MakeLimits(leaseSeconds, maxAttempts);
      queued, running, completed, failed, workers, attempts := map[], map[], map[], map[], map[], map[];
    }

    method SubmitTask(t: Task) returns (e: Option<ComputeError>)
      modifies this
      ensures match Submit(old(View()), t)
        case Ok(s) => e == None && View() == s && OthersStay(old(View()), s, t.id) && ValidTask(queued[t.id])
        case Err(why) => e == Some(why) && View() == old(View())
    {
      var task := Validate(t);
      if task.None? {
        return Some(InvalidTask);
      }
      ValidationSettles(t);
      hide Validate;
      if t.id in queued || t.id in running || t.id in completed || t.id in failed {
        return Some(TaskExists);
      }
      queued := queued[t.id := task.value];
      attempts := attempts[t.id := 0];
      e := None;
    }

    method RegisterWorker(worker: Text, c: Capabilities) returns (e: Option<ComputeError>)
      modifies this`workers
      ensures match Register(old(View()), worker, c)
        case Ok(s) => e == None && View() == s
        case Err(why) => e == Some(why) && View() == old(View())
      ensures e == None ==> worker in workers && workers[worker] == c
      ensures e == None ==> workers == old(workers)[worker := workers[worker]]
    {
      if worker == [] {
        return Some(InvalidWorker);
      }
      workers := workers[worker := c];
      e := None;
    }

    /** One lease given up, as `release` and expiry do it. */
    method GiveUpLease(id: Text, why: Text)
      requires id in running
      modifies this
      ensures View() == GiveUp(limits, old(View()), id, why) && OthersStay(old(View()), View(), id)
      ensures id !in running && completed == old(completed)
      ensures if Spent(limits, old(View()), id) then queued == old(queued) && id in failed && failed[id].error == why
                && (failed[id].task, failed[id].worker) == (old(running)[id].task, old(running)[id].worker)
              else failed == old(failed) && id in queued && queued[id] == old(running)[id].task
    {
      var lease := running[id];
      var n := if id in attempts then attempts[id] else lease.attempts;
      running := running - {id};
      if n >= limits.maxAttempts {
        failed := failed[id := Failure(lease.task, lease.worker, why, n)];
        attempts := attempts - {id};
      } else {
        queued := queued[id := lease.task];
      }
    }

    /** Sum a worker's reservations by going through the running leases. */
    method Reservation(m: Measure, worker: Text) returns (n: int)
      ensures n == Reserved(m, running, worker)
    {
      n := 0;
      var rest := running;
      while rest != map[]
        invariant n + Reserved(m, rest, worker) == Reserved(m, running, worker)
        decreases |rest|
      {
        var id :| id in rest;
        ReservedSplits(m, rest, worker, id);
        RemovedSmaller(rest, id);
        n := n + Share(m, rest[id], worker);
        rest := rest - {id};
      }
    }

    /** Give leases up one after another. */
    method GiveUpEach(ids: set<Text>)
      requires ids <= running.Keys
      modifies this
      ensures View() == GiveUpAll(limits, old(View()), ids)
    {
      hide GiveUp, GiveUpAll;
      var todo := ids;
      GiveUpNone(limits, View());
      assert ids - todo == {};
      while todo != {}
        invariant todo <= ids && View() == GiveUpAll(limits, old(View()), ids - todo)
        decreases |todo|
      {
        var id :| id in todo;
        GiveUpOneMore(limits, old(View()), ids - todo, id);
        GiveUpLease(id, LEASE_EXPIRED);
        OneFewer(ids, todo, id);
        todo := todo - {id};
      }
      assert ids - todo == ids;
    }

    /** `_requeue_expired_locked`. */
    method RequeueExpired(now: int) returns (changed: bool)
      modifies this
      ensures View() == Expire(limits, old(View()), now) && (changed <==> ExpiredIds(old(View()), now) != {})
    {
      hide GiveUpAll, ExpiredIds;
      var ids := ExpiredIds(View(), now);
      ExpiredRunning(View(), now);
      GiveUpEach(ids);
      changed := ids != {};
    }

    /** Go through the queue in order of submission until something fits. */
    method FirstFit(memory: int, cpus: int, features: set<Text>) returns (r: Option<Text>)
      ensures r == Chosen(View(), memory, cpus, features)
    {
      hide Fits, Chosen, Lex.Name, Lex.Places, Lex.Sorted;
      var order := Lex.Sorted(Lex.Places(Created(queued)));
      QueuePlaces(queued);
      var i := 0;
      while i < |order|
        invariant 0 <= i <= |order|
        invariant forall j :: 0 <= j < i ==> Misfit(queued, order[j], memory, cpus, features)
      {
        assert order[i] in order;
        var id := Lex.Name(order[i]);
        if Fits(queued[id], memory, cpus, features) {
          FirstFitIsChosen(View(), order, i, memory, cpus, features);
          return Some(id);
        }
        i := i + 1;
      }
      NoFitNoChoice(View(), order, memory, cpus, features);
      return None;
    }

    method ClaimTask(worker: Text, available: int, cpuCount: int, now: int, later: int, leaseId: Text)
      returns (r: Result<Option<Text>, ComputeError>)
      modifies this
      ensures (View(), r) == Claim(limits, old(View()), worker, available, cpuCount, now, later, leaseId)
    {
      hide Expire, Grant, Chosen, Room;
      var _ := RequeueExpired(now);
      if worker !in workers {
        return Err(UnknownWorker);
      }
      var c := workers[worker];
      var memory := Reservation(MemoryMb, worker);
      memory := Room(Max(0, available), MemoryCap(c), memory);
      var cpus := Reservation(Threads, worker);
      cpus := Room(Max(1, cpuCount), CpuCap(c), cpus);
      var id := FirstFit(memory, cpus, c.features);
      if id.Some? {
        GrantLease(id.value, worker, later, leaseId);
      }
      return Ok(id);
    }

    method GrantLease(id: Text, worker: Text, now: int, leaseId: Text)
      requires id in queued
      modifies this
      ensures View() == Grant(limits, old(View()), id, worker, now, leaseId) && OthersStay(old(View()), View(), id)
      ensures id !in queued && id in running && running[id].leaseId == leaseId && running[id].attempts == attempts[id]
      ensures running[id].task == old(queued)[id] && running[id].worker == worker
      ensures running[id].until <= now + limits.leaseSeconds && running[id].until <= now + running[id].task.maxSeconds
      ensures running[id].until == now + limits.leaseSeconds || running[id].until == now + running[id].task.maxSeconds
    {
      var task := queued[id];
      queued := queued - {id};
      var n := (if id in attempts then attempts[id] else 0) + 1;
      attempts := attempts[id := n];
      running := running[id := Lease(task, worker, now + Min(limits.leaseSeconds, task.maxSeconds), leaseId, n)];
    }

    method CompleteTask(worker: Text, id: Text, result: Bytes,
                        leaseId: Option<Text>) returns (e: Option<ComputeError>)
      modifies this
      ensures match Complete(old(View()), worker, id, result, leaseId)
        case Ok(s) => e == None && View() == s && OthersStay(old(View()), s, id)
        case Err(why) => e == Some(why) && View() == old(View())
      ensures e == None ==>
        && HeldBy(old(running), worker, id, leaseId) && |result| <= MAX_RESULT_BYTES
        && id !in running && completed == old(completed)[id := Completion(old(running)[id].task, worker, result)]
        && queued == old(queued) && failed == old(failed)
      ensures HeldBy(old(running), worker, id, leaseId) && |result| <= MAX_RESULT_BYTES ==> e == None
    {
      if |result| > MAX_RESULT_BYTES {
        return Some(ResultTooLarge);
      }
      var held := Held(View(), worker, id, leaseId);
      if held.Err? {
        return Some(held.error);
      }
      running, attempts := running - {id}, attempts - {id};
      completed := completed[id := Completion(held.value.task, worker, result)];
      e := None;
    }

    method ReleaseTask(worker: Text, id: Text, why: Text, leaseId: Option<Text>) returns (e: Option<ComputeError>)
      modifies this
      ensures match Release(limits, old(View()), worker, id, why, leaseId)
        case Ok(s) => e == None && View() == s && OthersStay(old(View()), s, id)
        case Err(why) => e == Some(why) && View() == old(View())
      ensures e == None <==> HeldBy(old(running), worker, id, leaseId)
      ensures e == None ==> id !in running && completed == old(completed) && (id in queued || id in failed)
    {
      var held := Held(View(), worker, id, leaseId);
      if held.Err? {
        return Some(held.error);
      }
      GiveUpLease(id, why);
      e := None;
    }

    method FailTask(worker: Text, id: Text, error: Text, leaseId: Option<Text>) returns (e: Option<ComputeError>)
      modifies this
      ensures match Fail(old(View()), worker, id, error, leaseId)
        case Ok(s) => e == None && View() == s && OthersStay(old(View()), s, id)
        case Err(why) => e == Some(why) && View() == old(View())
      ensures e == None <==> HeldBy(old(running), worker, id, leaseId)
      ensures e == None ==>
        && id !in running && id in failed && failed == old(failed)[id := failed[id]]
        && (failed[id].task, failed[id].worker, failed[id].error) == (old(running)[id].task, worker, error)
        && queued == old(queued) && completed == old(completed)
    {
      var held := Held(View(), worker, id, leaseId);
      if held.Err? {
        return Some(held.error);
      }
      var n := if id in attempts then attempts[id] else held.value.attempts;
      running, attempts := running - {id}, attempts - {id};
      failed := failed[id := Failure(held.value.task, worker, error, n)];
      e := None;
    }
  }

  lemma OneFewer(ids: set<Text>, todo: set<Text>, id: Text)
    requires todo <= ids && id in todo
    ensures ids - (todo - {id}) == (ids - todo) + {id}
  {
  }

  lemma ExpiredRunning(s: State, now: int)
    ensures ExpiredIds(s, now) <= s.running.Keys
  {
  }
}
