/** Replicas that hold the same operations agree, and what the replayed task table guarantees. */
module ClusterLaws {
  import opened Basics
  import opened Cluster
  import Lex

  // ---------------------------------------------------------------- merging

  /** Every operation of the log is the one the cluster knows under that id. */
  ghost predicate Agreed(log: Log, universe: Log) {
    forall id :: id in log ==> id in universe && log[id] == universe[id]
  }

  /** An honest snapshot: intact operations of the cluster. */
  ghost predicate Honest(d: Digest, universe: Log, items: seq<(Text, Item)>) {
    forall i :: 0 <= i < |items| ==>
      var (id, item) := items[i];
      Refused(d, id, item).None? && id in universe && item.op == universe[id]
  }

  function Ids(items: seq<(Text, Item)>): (ids: set<Text>)
    decreases |items|
  {
    if items == [] then {} else {items[0].0} + Ids(items[1..])
  }

  /** Merging an honest snapshot, in whatever order it lists its operations, is set union. */
  lemma {:induction false} MergeIsUnion(d: Digest, universe: Log, log: Log, items: seq<(Text, Item)>, id: Text)
    requires Agreed(log, universe) && Honest(d, universe, items)
    ensures var merged := MergeItems(d, log, items).0;
      && (id in merged <==> id in log || id in Ids(items))
      && (id in merged ==> id in universe && merged[id] == universe[id])
    decreases |items|
  {
    if items != [] {
      var k := items[0].0;
      MergeIsUnion(d, universe, if k in log then log else log[k := items[0].1.op], items[1..], id);
    }
  }

  /** An honest snapshot is accepted, and the answer is how many operations were new. */
  lemma {:induction false} MergeCounts(d: Digest, universe: Log, log: Log, items: seq<(Text, Item)>)
    requires Honest(d, universe, items)
    ensures var (merged, added) := MergeItems(d, log, items); |merged| >= |log| && added == Ok(|merged| - |log|)
    decreases |items|
  {
    if items != [] {
      var k := items[0].0;
      MergeCounts(d, universe, if k in log then log else log[k := items[0].1.op], items[1..]);
    }
  }

  /** However a merge ends, nothing in the log changes or goes, and everything new is an intact
      operation of the snapshot under its own id. */
  lemma {:induction false} MergeOnlyAdds(d: Digest, log: Log, items: seq<(Text, Item)>, id: Text)
    ensures var merged := MergeItems(d, log, items).0;
      && (id in log ==> id in merged && merged[id] == log[id])
      && (id in merged && id !in log ==>
           merged[id].Id() == id && merged[id].hash == d(merged[id].unsigned) && id in Ids(items))
    decreases |items|
  {
    if items != [] {
      var k := items[0].0;
      if k in log {
        MergeOnlyAdds(d, log, items[1..], id);
      } else if Refused(d, k, items[0].1).None? {
        MergeOnlyAdds(d, log[k := items[0].1.op], items[1..], id);
      }
    }
  }

  /** A merge that fails has kept exactly the operations before the offending one. */
  lemma {:induction false} FailedMergeKeepsPrefix(d: Digest, log: Log, items: seq<(Text, Item)>) returns (k: nat)
    requires MergeItems(d, log, items).1.Err?
    ensures k < |items| && Refused(d, items[k].0, items[k].1).Some?
    ensures MergeItems(d, log, items[..k]).1.Ok? && MergeItems(d, log, items[..k]).0 == MergeItems(d, log, items).0
    decreases |items|
  {
    var (id, item) := items[0];
    if id !in log && Refused(d, id, item).Some? {
      return 0;
    }
    var n := FailedMergeKeepsPrefix(d, if id in log then log else log[id := item.op], items[1..]);
    k := n + 1;
    assert items[..k][0] == items[0] && items[..k][1..] == items[1..][..n];
  }

  /** A snapshot of another cluster or version, without operations or with too many, is refused and changes
      nothing; any other is gone through item by item. */
  lemma MergeRefused(d: Digest, cluster: Text, log: Log, s: Snapshot)
    ensures s.version != 1 || s.cluster != cluster ==> Merge(d, cluster, log, s) == (log, Err(WrongCluster))
    ensures s.version == 1 && s.cluster == cluster && (s.operations.None? || |s.operations.value| > 200_000) ==>
      Merge(d, cluster, log, s) == (log, Err(InvalidSnapshot))
    ensures s.version == 1 && s.cluster == cluster && s.operations.Some? && |s.operations.value| <= 200_000 ==>
      Merge(d, cluster, log, s) == MergeItems(d, log, s.operations.value)
  {
  }

  /** An unknown operation is refused for what is wrong with it, in this order: its identity, its hash, its
      payload. */
  lemma RefusedExactlyWhen(d: Digest, id: Text, item: Item)
    ensures Refused(d, id, item) == Some(IdentityMismatch) <==> item.NotAnObject? || item.op.Id() != id
    ensures Refused(d, id, item) == Some(IntegrityFailure) <==>
      item.Item? && item.op.Id() == id && item.op.hash != d(item.op.unsigned)
    ensures Refused(d, id, item) == Some(PayloadNotObject) <==>
      item.Item? && item.op.Id() == id && item.op.hash == d(item.op.unsigned) && !item.objectPayload
    ensures Refused(d, id, item) == None <==>
      item.Item? && item.op.Id() == id && item.op.hash == d(item.op.unsigned) && item.objectPayload
  {
  }

  /** A node's log after it received these snapshots. */
  function Receive(d: Digest, cluster: Text, log: Log, snapshots: seq<Snapshot>): (merged: Log) {
    if snapshots == [] then log else
      Merge(d, cluster, Receive(d, cluster, log, snapshots[..|snapshots| - 1]), snapshots[|snapshots| - 1]).0
  }

  ghost predicate HonestSnapshot(d: Digest, cluster: Text, universe: Log, s: Snapshot) {
    s.version == 1 && s.cluster == cluster && s.operations.Some? && |s.operations.value| <= MAX_OPERATIONS
    && Honest(d, universe, s.operations.value)
  }

  function Received(snapshots: seq<Snapshot>): (ids: set<Text>) {
    if snapshots == [] then {} else
      var last := snapshots[|snapshots| - 1].operations;
      Received(snapshots[..|snapshots| - 1]) + if last.Some? then Ids(last.value) else {}
  }

  lemma {:induction false} ReceiveIsUnion(d: Digest, cluster: Text, universe: Log, log: Log, snapshots: seq<Snapshot>)
    requires Agreed(log, universe) && forall s :: s in snapshots ==> HonestSnapshot(d, cluster, universe, s)
    ensures var merged := Receive(d, cluster, log, snapshots);
      Agreed(merged, universe) && forall id :: id in merged <==> id in log || id in Received(snapshots)
  {
    if snapshots != [] {
      hide Honest, Ids, MergeItems;
      var before, last := snapshots[..|snapshots| - 1], snapshots[|snapshots| - 1];
      ReceiveIsUnion(d, cluster, universe, log, before);
      assert last in snapshots;
      forall id {
        MergeIsUnion(d, universe, Receive(d, cluster, log, before), last.operations.value, id);
      }
    }
  }

  /** Two nodes that start with and receive the same operations in all, in any merge order, listed in
      any order, with any repeats, hold the same log and so see the same tasks. */
  lemma ReplicasConverge(d: Digest, cluster: Text, universe: Log, a: Log, fromA: seq<Snapshot>, b: Log,
                         fromB: seq<Snapshot>)
    requires Agreed(a, universe) && forall s :: s in fromA ==> HonestSnapshot(d, cluster, universe, s)
    requires Agreed(b, universe) && forall s :: s in fromB ==> HonestSnapshot(d, cluster, universe, s)
    requires forall id :: id in a || id in Received(fromA) <==> id in b || id in Received(fromB)
    ensures Receive(d, cluster, a, fromA) == Receive(d, cluster, b, fromB)
    ensures Materialized(Receive(d, cluster, a, fromA)) == Materialized(Receive(d, cluster, b, fromB))
  {
    hide Receive, Received, HonestSnapshot, Materialized;
    ReceiveIsUnion(d, cluster, universe, a, fromA);
    ReceiveIsUnion(d, cluster, universe, b, fromB);
    assert Receive(d, cluster, a, fromA) == Receive(d, cluster, b, fromB);
  }

  /** There is only one way to put a log's operations in order. */
  lemma OrderIsUnique(log: Log, ks: seq<Lex.Key>)
    requires Lex.Ascending(ks) && Lex.Elements(ks) == Lex.Places(Times(log))
    ensures PickAll(log, ks) == Ordered(log)
  {
    Lex.SortedIsOnlyAscending(ks);
  }

  // ---------------------------------------------------------------- an operation that comes last

  /** Every operation is filed under its own id. */
  ghost predicate Keyed(log: Log) {
    forall id :: id in log ==> log[id].Id() == id
  }

  /** The operation sorts after everything in the log: later, or at the same time with a greater id. */
  ghost predicate SortsLast(log: Log, id: Text, op: Operation) {
    forall k :: k in log ==> Lex.Less(Lex.Place(log[k].unsigned.timestamp, k), Lex.Place(op.unsigned.timestamp, id))
  }

  /** An operation that sorts after everything in the log is replayed last. */
  lemma AppendActsLast(log: Log, id: Text, op: Operation)
    requires id !in log && SortsLast(log, id, op)
    ensures Materialized(log[id := op]) == Replay(Materialized(log), op)
  {
    hide *;
    OrderedExtends(log, id, op);
    ReplayExtends(Ordered(log), op);
    MaterializedMeans(log);
    MaterializedMeans(log[id := op]);
  }

  /** An appended operation comes last in the replay exactly when it sorts after everything in the log. */
  lemma LastExactlyWhen(log: Log, id: Text, op: Operation)
    requires id !in log && Keyed(log) && op.Id() == id
    ensures Ordered(log[id := op]) == Ordered(log) + [op] <==> SortsLast(log, id, op)
  {
    if SortsLast(log, id, op) {
      OrderedExtends(log, id, op);
    } else if Ordered(log[id := op]) == Ordered(log) + [op] {
      LastSortsLast(log, id, op);
    }
  }

  lemma LastSortsLast(log: Log, id: Text, op: Operation)
    requires id !in log && Keyed(log) && op.Id() == id && Ordered(log[id := op]) == Ordered(log) + [op]
    ensures SortsLast(log, id, op)
  {
    hide Lex.Sorted, Lex.Less, Lex.Places, Lex.Name;
    var longer := log[id := op];
    var ks := Lex.Sorted(Lex.Places(Times(longer)));
    var last := |ks| - 1;
    assert Ordered(longer)[last] == op == Pick(longer, ks[last]);
    LogPlaces(longer);
    Lex.SortedAscends(Lex.Places(Times(longer)));
    assert ks[last] in ks;
    assert ks[last] == Lex.Place(op.unsigned.timestamp, id);
    forall k | k in log ensures Lex.Less(Lex.Place(log[k].unsigned.timestamp, k), ks[last]) {
      assert Times(longer)[k] == log[k].unsigned.timestamp;
      var j :| 0 <= j < |ks| && ks[j] == Lex.Place(log[k].unsigned.timestamp, k);
      assert Lex.Name(ks[j]) == k && Lex.Name(ks[last]) == id;
    }
  }

  lemma OrderedExtends(log: Log, id: Text, op: Operation)
    requires id !in log && SortsLast(log, id, op)
    ensures Ordered(log[id := op]) == Ordered(log) + [op]
  {
    hide Lex.Sorted, Lex.Less, Lex.Places, Lex.Place, SortsLast, Times, Lex.Name;
    var all, k := Lex.Places(Times(log)), Lex.Place(op.unsigned.timestamp, id);
    LastPlace(log, id, op);
    Lex.GreatestSortsLast(all, k);
    PicksKept(log, id, op, Lex.Sorted(all));
  }

  /** The operations already there are picked as before. */
  lemma PicksKept(log: Log, id: Text, op: Operation, ks: seq<Lex.Key>)
    requires id !in log && forall k :: k in ks ==> k in Lex.Places(Times(log))
    ensures PickAll(log[id := op], ks + [Lex.Place(op.unsigned.timestamp, id)]) == PickAll(log, ks) + [op]
  {
    hide Lex.Places, Lex.Place, Times, Lex.Name;
    LogPlaces(log);
    forall i | 0 <= i < |ks| ensures Pick(log[id := op], ks[i]) == Pick(log, ks[i]) {
      assert ks[i] in ks;
    }
  }

  lemma LastPlace(log: Log, id: Text, op: Operation)
    requires id !in log && SortsLast(log, id, op)
    ensures var k := Lex.Place(op.unsigned.timestamp, id); var all := Lex.Places(Times(log));
      && Lex.Places(Times(log[id := op])) == all + {k} && k !in all
      && forall j :: j in all ==> Lex.Less(j, k)
  {
    hide Lex.Less, Lex.Name, Lex.Place, Lex.Places, Times;
    var longer, k, all := log[id := op], Lex.Place(op.unsigned.timestamp, id), Lex.Places(Times(log));
    LogPlaces(log);
    LogPlaces(longer);
    forall j ensures j in Lex.Places(Times(longer)) <==> j in all + {k} {
      if j in Lex.Places(Times(longer)) && Lex.Name(j) != id {
        assert longer[Lex.Name(j)] == log[Lex.Name(j)];
      }
      if j in all {
        assert longer[Lex.Name(j)] == log[Lex.Name(j)];
      }
      assert longer[id] == op;
    }
  }

  lemma LogPlaces(log: Log)
    ensures forall k :: k in Lex.Places(Times(log)) ==>
      Lex.Name(k) in log && Lex.Place(log[Lex.Name(k)].unsigned.timestamp, Lex.Name(k)) == k
    ensures forall id :: id in log ==> Lex.Place(log[id].unsigned.timestamp, id) in Lex.Places(Times(log))
  {
    Lex.PlacesNamed(Times(log));
    forall id | id in log ensures Lex.Place(log[id].unsigned.timestamp, id) in Lex.Places(Times(log)) {
      assert Times(log)[id] == log[id].unsigned.timestamp;
    }
  }

  lemma MaterializedMeans(log: Log)
    ensures Materialized(log) == ReplayAll(Ordered(log))
  {
  }

  lemma ReplayExtends(ops: seq<Operation>, op: Operation)
    ensures ReplayAll(ops + [op]) == Replay(ReplayAll(ops), op)
  {
    assert (ops + [op])[..|ops|] == ops;
  }

  /** A claim appended with an earlier time than the submission of its task is replayed before it and
      has no effect, although it would have if it were replayed last. */
  lemma EarlierClaimIgnored(submit: Operation, claim: Operation, task: Text)
    requires Submits(submit, task) && claim.Action().Claim? && claim.Action().task == task
    requires submit.Id() != claim.Id() && claim.unsigned.timestamp < submit.unsigned.timestamp
    ensures var log := map[submit.Id() := submit];
      && task in Materialized(log[claim.Id() := claim]).queued
      && task in Replay(Materialized(log), claim).running
      && Materialized(log[claim.Id() := claim]) != Replay(Materialized(log), claim)
  {
    hide Lex.Sorted, Lex.Places, Times, Materialized, ReplayAll;
    var log: Log := map[submit.Id() := submit];
    OneOrdered(submit);
    TwoOrdered(submit, claim);
    MaterializedMeans(log);
    MaterializedMeans(log[claim.Id() := claim]);
    ReplayOne(submit);
    ReplayOne(claim);
    ReplayExtends([claim], submit);
    assert [claim] + [submit] == [claim, submit];
  }

  lemma ReplayOne(op: Operation)
    ensures ReplayAll([op]) == Replay(NO_TASKS, op)
  {
    assert [op][..0] == [];
  }

  lemma OneOrdered(op: Operation)
    ensures Ordered(map[op.Id() := op]) == [op]
  {
    hide Lex.Sorted, Lex.Places, Lex.Less;
    var log: Log, k := map[op.Id() := op], Lex.Place(op.unsigned.timestamp, op.Id());
    LogPlaces(log);
    assert Lex.Elements([k]) == Lex.Places(Times(log)) by {
      assert log[op.Id()] == op;
      forall j ensures j in Lex.Elements([k]) <==> j in Lex.Places(Times(log)) {
        assert j in Lex.Elements([k]) <==> j == k;
      }
    }
    OrderIsUnique(log, [k]);
  }

  lemma TwoOrdered(later: Operation, earlier: Operation)
    requires later.Id() != earlier.Id() && earlier.unsigned.timestamp < later.unsigned.timestamp
    ensures Ordered(map[later.Id() := later][earlier.Id() := earlier]) == [earlier, later]
  {
    hide Lex.Sorted, Lex.Places;
    var log: Log := map[later.Id() := later][earlier.Id() := earlier];
    var a, b := Lex.Place(earlier.unsigned.timestamp, earlier.Id()), Lex.Place(later.unsigned.timestamp, later.Id());
    LogPlaces(log);
    assert Lex.Ascending([a, b]);
    hide Lex.Less;
    assert Lex.Elements([a, b]) == Lex.Places(Times(log)) by {
      assert log[earlier.Id()] == earlier && log[later.Id()] == later;
      forall j ensures j in Lex.Elements([a, b]) <==> j in Lex.Places(Times(log)) {
        assert j in Lex.Elements([a, b]) <==> j in [a, b];
      }
    }
    OrderIsUnique(log, [a, b]);
  }

  // ---------------------------------------------------------------- one bucket per task

  function Buckets(t: Table, task: Text): (n: nat) {
    One(task in t.queued) + One(task in t.running) + One(task in t.completed) + One(task in t.failed)
  }

  predicate Submits(op: Operation, task: Text) {
    op.Action().Submit? && op.Action().task == task && task != []
  }

  function Submitted(ops: seq<Operation>, task: Text): (b: bool) {
    ops != [] && (Submitted(ops[..|ops| - 1], task) || Submits(ops[|ops| - 1], task))
  }

  /** A submission of a task that has already left the queue. */
  predicate Late(t: Table, op: Operation) {
    op.Action().Submit? && op.Action().task != []
    && (var task := op.Action().task; task in t.running || task in t.completed || task in t.failed)
  }

  /** Every submitted task is in exactly one bucket, any other in none. */
  ghost predicate Sorted(ops: seq<Operation>) {
    forall task :: Buckets(ReplayAll(ops), task) == One(Submitted(ops, task))
  }

  predicate Concerns(op: Operation, task: Text) {
    var a := op.Action();
    !a.Contribute? && !a.Other? && a.task == task && task != []
  }

  /** Same place in both tables. */
  ghost predicate SamePlace(t: Table, u: Table, task: Text) {
    && (task in u.queued <==> task in t.queued) && (task in u.running <==> task in t.running)
    && (task in u.completed <==> task in t.completed) && (task in u.failed <==> task in t.failed)
  }

  /** Same place and same record in both tables. */
  ghost predicate SameStanding(t: Table, u: Table, task: Text) {
    && SamePlace(t, u, task)
    && (task in t.queued && task in u.queued ==> u.queued[task] == t.queued[task])
    && (task in t.running && task in u.running ==> u.running[task] == t.running[task])
    && (task in t.completed && task in u.completed ==> u.completed[task] == t.completed[task])
    && (task in t.failed && task in u.failed ==> u.failed[task] == t.failed[task])
  }

  lemma OthersStayPut(t: Table, op: Operation, task: Text)
    requires !Concerns(op, task)
    ensures SamePlace(t, Replay(t, op), task)
  {
    OthersLive(t, op, task);
    OthersEnded(t, op, task);
    hide Replay;
  }

  lemma OthersLive(t: Table, op: Operation, task: Text)
    requires !Concerns(op, task)
    ensures var u := Replay(t, op);
      (task in u.queued <==> task in t.queued) && (task in u.running <==> task in t.running)
  {
    hide LeaseMatches;
    match op.Action()
    case Submit(_, _) =>
    case Claim(_, _, _, _) =>
    case Release(_, _) =>
    case Complete(_, _, _) =>
    case Fail(_, _, _) =>
    case Contribute(_, _) =>
    case Other =>
  }

  lemma OthersEnded(t: Table, op: Operation, task: Text)
    requires !Concerns(op, task)
    ensures var u := Replay(t, op);
      (task in u.completed <==> task in t.completed) && (task in u.failed <==> task in t.failed)
  {
    hide LeaseMatches;
    match op.Action()
    case Complete(_, _, _) =>
    case Fail(_, _, _) =>
    case _ =>
  }

  lemma OthersUntouched(t: Table, op: Operation, task: Text)
    requires !Concerns(op, task)
    ensures SameStanding(t, Replay(t, op), task)
  {
    hide LeaseMatches, SamePlace;
    OthersStayPut(t, op, task);
  }

  /** What an operation about a task does to it. */
  lemma StepStanding(t: Table, op: Operation, task: Text)
    requires Concerns(op, task)
    ensures Submits(op, task) ==> SameStanding(t.(queued := t.queued[task := op.Action().body]), Replay(t, op), task)
    ensures !Submits(op, task) && task !in t.queued && task !in t.running ==> Replay(t, op) == t
    ensures !Submits(op, task) && Buckets(t, task) == 1 ==> Buckets(Replay(t, op), task) == 1
  {
  }

  lemma StepBuckets(t: Table, op: Operation, task: Text)
    requires Buckets(t, task) <= 1
    ensures !(Late(t, op) && op.Action().task == task) ==>
      Buckets(Replay(t, op), task) == One(Buckets(t, task) == 1 || Submits(op, task))
    ensures Late(t, op) && op.Action().task == task ==> Buckets(Replay(t, op), task) == 2
  {
    hide Replay;
    if Concerns(op, task) {
      StepStanding(t, op, task);
    } else {
      OthersUntouched(t, op, task);
    }
  }

  lemma {:induction false} SortedExtends(ops: seq<Operation>)
    requires ops != [] && Sorted(ops[..|ops| - 1])
    ensures Sorted(ops) <==> !Late(ReplayAll(ops[..|ops| - 1]), ops[|ops| - 1])
  {
    hide Replay, Late, Buckets;
    var before, op := ops[..|ops| - 1], ops[|ops| - 1];
    forall task ensures Buckets(ReplayAll(before), task) <= 1 {
      assert Buckets(ReplayAll(before), task) == One(Submitted(before, task));
    }
    assert ReplayAll(ops) == Replay(ReplayAll(before), op);
    if Late(ReplayAll(before), op) {
      assert Sorted(ops) ==> Buckets(ReplayAll(ops), LateTask(ReplayAll(before), op)) <= 1;
      StepBuckets(ReplayAll(before), op, LateTask(ReplayAll(before), op));
    } else {
      forall task {
        StepBuckets(ReplayAll(before), op, task);
      }
    }
  }

  function LateTask(t: Table, op: Operation): (task: Text)
    requires Late(t, op)
  {
    op.Action().task
  }

  /** No submission in the sequence comes after its task left the queue. */
  ghost predicate NoneLate(ops: seq<Operation>) {
    ops == [] || (NoneLate(ops[..|ops| - 1]) && !Late(ReplayAll(ops[..|ops| - 1]), ops[|ops| - 1]))
  }

  ghost predicate SortedThroughout(ops: seq<Operation>) {
    Sorted(ops) && (ops == [] || SortedThroughout(ops[..|ops| - 1]))
  }

  /** Throughout the replay every submitted task is in exactly one of the four buckets, exactly when
      no submission comes after its task left the queue. */
  lemma {:induction false} OneBucketExactlyWhen(ops: seq<Operation>)
    ensures SortedThroughout(ops) <==> NoneLate(ops)
  {
    hide ReplayAll, Late, Sorted;
    if ops == [] {
      NothingSorted();
    } else {
      OneBucketExactlyWhen(ops[..|ops| - 1]);
      if NoneLate(ops[..|ops| - 1]) {
        SortedLast(ops[..|ops| - 1]);
        SortedExtends(ops);
      }
    }
  }

  lemma SortedLast(ops: seq<Operation>)
    requires SortedThroughout(ops)
    ensures Sorted(ops)
  {
    hide Sorted;
  }

  lemma NothingSorted()
    ensures Sorted([])
  {
  }

  /** No two operations submit the same task. */
  ghost predicate SubmittedOnce(ops: seq<Operation>) {
    forall i, j, task :: 0 <= i < j < |ops| && Submits(ops[i], task) ==> !Submits(ops[j], task)
  }

  lemma {:induction false} NotYetSubmitted(ops: seq<Operation>, task: Text)
    requires forall i :: 0 <= i < |ops| ==> !Submits(ops[i], task)
    ensures Buckets(ReplayAll(ops), task) == 0
  {
    if ops != [] {
      hide Replay, Submits;
      NotYetSubmitted(ops[..|ops| - 1], task);
      assert Submits(ops[|ops| - 1], task) || Buckets(ReplayAll(ops), task) == 0 by {
        AbsentStays(ReplayAll(ops[..|ops| - 1]), ops[|ops| - 1], task);
      }
    }
  }

  lemma AbsentStays(t: Table, op: Operation, task: Text)
    requires Buckets(t, task) == 0 && !Submits(op, task)
    ensures Buckets(Replay(t, op), task) == 0
  {
    StepBuckets(t, op, task);
    hide Replay, Buckets;
  }

  /** With one submission per task, every submitted task is in exactly one bucket. */
  lemma {:induction false} OneSubmissionOneBucket(ops: seq<Operation>)
    requires SubmittedOnce(ops)
    ensures NoneLate(ops) && Sorted(ops)
  {
    hide ReplayAll, Sorted;
    OneBucketExactlyWhen(ops);
    if ops != [] {
      var n := |ops| - 1;
      assert SubmittedOnce(ops[..n]);
      OneSubmissionOneBucket(ops[..n]);
      if Late(ReplayAll(ops[..n]), ops[n]) {
        NotYetSubmitted(ops[..n], ops[n].Action().task);
      }
    }
    SortedLast(ops);
  }

  /** The same for a log: whatever merges built it. */
  lemma OneBucketPerTask(log: Log, task: Text)
    requires SubmittedOnce(Ordered(log))
    ensures Buckets(Materialized(log), task) == One(Submitted(Ordered(log), task))
  {
    hide ReplayAll, Ordered, Buckets, Submitted, SubmittedOnce;
    OneSubmissionOneBucket(Ordered(log));
    SortedMeans(Ordered(log), task);
  }

  lemma SortedMeans(ops: seq<Operation>, task: Text)
    requires Sorted(ops)
    ensures Buckets(ReplayAll(ops), task) == One(Submitted(ops, task))
  {
  }

  /** A second submission while the task runs leaves it both waiting and running. */
  lemma ResubmissionSplits(first: Operation, claim: Operation, again: Operation, task: Text)
    requires Submits(first, task) && Submits(again, task) && claim.Action().Claim? && claim.Action().task == task
    ensures Buckets(ReplayAll([first, claim, again]), task) == 2
  {
    ReplayExtends([], first);
    ReplayExtends([first], claim);
    ReplayExtends([first, claim], again);
    assert [] + [first] == [first] && [first] + [claim] == [first, claim]
      && [first, claim] + [again] == [first, claim, again];
  }

  // ---------------------------------------------------------------- who may end a task

  /** The lease that took the task from the queue last. */
  function Taker(ops: seq<Operation>, task: Text): (lease: Option<Text>) {
    if ops == [] then None else
      var before, a := ops[..|ops| - 1], ops[|ops| - 1].Action();
      if a.Claim? && a.task == task && task != [] && task in ReplayAll(before).queued then Some(a.lease)
        else Taker(before, task)
  }

  lemma {:induction false} RunningByTaker(ops: seq<Operation>, task: Text)
    ensures var t := ReplayAll(ops); task in t.running ==> Taker(ops, task) == Some(t.running[task].lease)
  {
    if ops != [] {
      RunningByTaker(ops[..|ops| - 1], task);
    }
  }

  /** The operation ends or gives back this task, with this lease in hand. */
  predicate Ends(op: Operation, task: Text, held: Option<Text>) {
    var a := op.Action();
    (a.Complete? || a.Fail? || a.Release?) && a.task == task && a.held == held
  }

  /** Only the lease that took a task from the queue last can end it or give it back. */
  lemma OnlyTheTakerEnds(ops: seq<Operation>, op: Operation, task: Text)
    ensures var t := ReplayAll(ops);
      task in t.running && task !in Replay(t, op).running ==>
      && Taker(ops, task).Some?
      && exists held :: Ends(op, task, held) && LeaseMatches(Taker(ops, task).value, held)
  {
    RunningByTaker(ops, task);
    hide ReplayAll, Taker;
    var t := ReplayAll(ops);
    if task in t.running && task !in Replay(t, op).running {
      assert Ends(op, task, op.Action().held);
    }
  }

  /** A finished task stays finished, with the same record, unless it is submitted again. */
  lemma {:induction false} FinishedStays(ops: seq<Operation>, more: seq<Operation>, task: Text)
    requires Buckets(ReplayAll(ops), task) == 1 && (task in ReplayAll(ops).completed || task in ReplayAll(ops).failed)
    requires forall i :: 0 <= i < |more| ==> !Submits(more[i], task)
    ensures SameEnding(ReplayAll(ops), ReplayAll(ops + more), task)
    decreases |more|
  {
    if more == [] {
      assert ops + more == ops;
    } else {
      hide Replay, Submits, Buckets;
      var n := |more| - 1;
      FinishedStays(ops, more[..n], task);
      assert ops + more == (ops + more[..n]) + [more[n]];
      ReplayExtends(ops + more[..n], more[n]);
      EndingStep(ReplayAll(ops), ReplayAll(ops + more[..n]), more[n], task);
    }
  }

  ghost predicate SameEnding(t: Table, u: Table, task: Text) {
    && task !in u.queued && task !in u.running
    && (task in u.completed <==> task in t.completed)
    && (task in t.completed && task in u.completed ==> u.completed[task] == t.completed[task])
    && (task in u.failed <==> task in t.failed)
    && (task in t.failed && task in u.failed ==> u.failed[task] == t.failed[task])
  }

  lemma EndingStep(t: Table, u: Table, op: Operation, task: Text)
    requires SameEnding(t, u, task) && !Submits(op, task)
    ensures SameEnding(t, Replay(u, op), task)
  {
    hide Replay;
    if Concerns(op, task) {
      StepStanding(u, op, task);
    } else {
      OthersUntouched(u, op, task);
    }
  }
}
