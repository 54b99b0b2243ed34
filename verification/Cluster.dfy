/** The replicated cluster log (`zdx_cluster.py`): operations merged between nodes and replayed in
    order of time into a task table. */
module Cluster {
  import opened Basics
  import Lex
  import Utf8

  type Text = Utf8.Text

  /** A log entry's kind with what its payload says; a task id or a lease id may be empty. */
  datatype Action =
    | Submit(task: Text, body: Bytes)
    | Claim(task: Text, worker: Text, lease: Text, until: int)
    | Release(task: Text, held: Option<Text>)
    | Complete(task: Text, held: Option<Text>, body: Bytes)
    | Fail(task: Text, held: Option<Text>, body: Bytes)
    | Contribute(name: Option<Text>, body: Bytes)
    | Other

  datatype Unsigned = Unsigned(id: Text, timestamp: int, origin: Text, action: Action)

  datatype Operation = Operation(unsigned: Unsigned, hash: Bytes) {
    function Id(): (id: Text) {
      unsigned.id
    }
    function Action(): (a: Action) {
      unsigned.action
    }
  }

  type Digest = Unsigned -> Bytes
  type Log = map<Text, Operation>

  const MAX_OPERATIONS := 200_000

  // ---------------------------------------------------------------- replaying

  datatype Running = Running(body: Bytes, worker: Text, lease: Text, until: int)

  datatype Ended = Ended(run: Running, body: Bytes)

  datatype Table = Table(
    queued: map<Text, Bytes>, running: map<Text, Running>, completed: map<Text, Ended>, failed: map<Text, Ended>,
    contributions: map<Text, Bytes>)

  const NO_TASKS: Table := Table(map[], map[], map[], map[], map[])

  /** `_lease_matches`. */
  predicate LeaseMatches(expected: Text, held: Option<Text>) {
    if expected != [] then held == Some(expected) else held == None || held == Some([])
  }

  function Replay(t: Table, op: Operation): (u: Table) {
    match op.Action()
    case Submit(task, body) =>
      if task == [] then t else t.(queued := t.queued[task := body])
    case Claim(task, worker, lease, until) =>
      if task == [] || task !in t.queued then t
      else t.(running := t.running[task := Running(t.queued[task], worker, lease, until)], queued := t.queued - {task})
    case Release(task, held) =>
      if task == [] || task !in t.running || !LeaseMatches(t.running[task].lease, held) then t
      else t.(queued := t.queued[task := t.running[task].body], running := t.running - {task})
    case Complete(task, held, body) =>
      if task == [] || task !in t.running || !LeaseMatches(t.running[task].lease, held) then t
      else t.(completed := t.completed[task := Ended(t.running[task], body)], running := t.running - {task},
        queued := t.queued - {task})
    case Fail(task, held, body) =>
      if task == [] || task !in t.running || !LeaseMatches(t.running[task].lease, held) then t
      else t.(failed := t.failed[task := Ended(t.running[task], body)], running := t.running - {task},
        queued := t.queued - {task})
    case Contribute(name, body) =>
      t.(contributions := t.contributions[(if name.Some? && name.value != [] then name.value else op.Id()) := body])
    case Other => t
  }

  function ReplayAll(ops: seq<Operation>): (t: Table) {
    if ops == [] then NO_TASKS else Replay(ReplayAll(ops[..|ops| - 1]), ops[|ops| - 1])
  }

  /** When each operation happened; operations sort by time, then by id. */
  function Times(log: Log): (times: map<Text, int>) {
    map id | id in log :: log[id].unsigned.timestamp
  }

  function Pick(log: Log, k: Lex.Key): (op: Operation) {
    if Lex.Name(k) in log then log[Lex.Name(k)] else Operation(Unsigned([], 0, [], Other), [])
  }

  function PickAll(log: Log, ks: seq<Lex.Key>): (ops: seq<Operation>)
    ensures |ops| == |ks| && forall i :: 0 <= i < |ks| ==> ops[i] == Pick(log, ks[i])
  {
    seq(|ks|, i requires 0 <= i < |ks| => Pick(log, ks[i]))
  }

  /** `_ordered_operations`. */
  function Ordered(log: Log): (ops: seq<Operation>) {
    PickAll(log, Lex.Sorted(Lex.Places(Times(log))))
  }

  /** `materialized`. */
  function Materialized(log: Log): (t: Table) {
    ReplayAll(Ordered(log))
  }

  // ---------------------------------------------------------------- merging

  /** What a snapshot may hold under an id. */
  datatype Item = NotAnObject | Item(op: Operation, objectPayload: bool)

  datatype Snapshot = Snapshot(version: int, cluster: Text, operations: Option<seq<(Text, Item)>>)

  datatype ClusterError =
    | WrongCluster | InvalidSnapshot | IdentityMismatch | IntegrityFailure | PayloadNotObject | LimitReached
    | MissingFields

  function Refused(d: Digest, id: Text, item: Item): (e: Option<ClusterError>) {
    if item.NotAnObject? || item.op.Id() != id then Some(IdentityMismatch)
    else if item.op.hash != d(item.op.unsigned) then Some(IntegrityFailure)
    else if !item.objectPayload then Some(PayloadNotObject)
    else None
  }

  /** Take the items one by one; a bad one stops the merge, and what came before it stays. */
  function MergeItems(d: Digest, log: Log, items: seq<(Text, Item)>): (r: (Log, Result<nat, ClusterError>))
    decreases |items|
  {
    if items == [] then (log, Ok(0))
    else
      var (id, item) := items[0];
      if id in log then MergeItems(d, log, items[1..])
      else
        var e := Refused(d, id, item);
        if e.Some? then (log, Err(e.value))
        else
          var (merged, added) := MergeItems(d, log[id := item.op], items[1..]);
          (merged, if added.Ok? then Ok(added.value + 1) else added)
  }

  /** `merge`. */
  function Merge(d: Digest, cluster: Text, log: Log, s: Snapshot): (r: (Log, Result<nat, ClusterError>)) {
    if s.version != 1 || s.cluster != cluster then (log, Err(WrongCluster))
    else if s.operations.None? || |s.operations.value| > MAX_OPERATIONS then (log, Err(InvalidSnapshot))
    else MergeItems(d, log, s.operations.value)
  }

  class ReplicatedClusterState {
    const digest: Digest
    const cluster: Text
    var operations: Log

    constructor (digest: Digest, cluster: Text)
      ensures this.digest == digest && this.cluster == cluster && operations == map[]
    {
      this.digest, this.cluster, operations := digest, cluster, map[];
    }

    /** `append`; the id and the time come from outside. */
    method Append(hasKind: bool, action: Action, origin: Text, id: Text,
                  now: int) returns (r: Result<Text, ClusterError>)
      modifies this`operations
      ensures r == if !hasKind || origin == [] then Err(MissingFields)
                   else if |old(operations)| >= MAX_OPERATIONS then Err(LimitReached) else Ok(id)
      ensures operations == if r.Err? then old(operations) else
                old(operations)[id := var u := Unsigned(id, now, origin, action); Operation(u, digest(u))]
      ensures r.Ok? ==> Refused(digest, id, Item(operations[id], true)).None?
    {
      if !hasKind || origin == [] {
        return Err(MissingFields);
      }
      var u := Unsigned(id, now, origin, action);
      var op := Operation(u, digest(u));
      if |operations| >= MAX_OPERATIONS {
        return Err(LimitReached);
      }
      operations := operations[id := op];
      return Ok(id);
    }

    method MergeSnapshot(s: Snapshot) returns (r: Result<nat, ClusterError>)
      modifies this`operations
      ensures (operations, r) == Merge(digest, cluster, old(operations), s)
    {
      if s.version != 1 || s.cluster != cluster {
        return Err(WrongCluster);
      }
      if s.operations.None? || |s.operations.value| > MAX_OPERATIONS {
        return Err(InvalidSnapshot);
      }
      var items := s.operations.value;
      var added: nat := 0;
      var i := 0;
      ghost var all := MergeItems(digest, operations, items);
      assert items[0..] == items;
      while i < |items|
        invariant 0 <= i <= |items|
        invariant var (log, rest) := MergeItems(digest, operations, items[i..]);
          all == (log, if rest.Ok? then Ok(added + rest.value) else rest)
      {
        var (id, item) := items[i];
        assert items[i..][1..] == items[i + 1..];
        i := i + 1;
        if id in operations {
          continue;
        }
        var e := Refused(digest, id, item);
        if e.Some? {
          return Err(e.value);
        }
        operations := operations[id := item.op];
        added := added + 1;
      }
      return Ok(added);
    }

    method Materialize() returns (t: Table)
      ensures t == Materialized(operations)
    {
      var ops := Ordered(operations);
      t := NO_TASKS;
      var i := 0;
      assert ops[..0] == [];
      while i < |ops|
        invariant 0 <= i <= |ops| && t == ReplayAll(ops[..i])
      {
        assert ops[..i + 1][..i] == ops[..i];
        t := Replay(t, ops[i]);
        i := i + 1;
      }
      assert ops[..i] == ops;
    }
  }
}
