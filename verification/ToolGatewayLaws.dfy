/** A tool runs at most once, and its durable result is final, whatever crashes happen. */
module ToolGatewayLaws {
  import opened Basics
  import opened Codec
  import opened ToolGateway

  // ---------------------------------------------------------------- who may call

  /** A call is allowed exactly when the proposal is genuine and current, a local rule grants it, and
      the external authorizer, if there is one, allowed this very action under this very policy. */
  lemma AllowedExactlyWhen(c: Config, m: Memory, p: Proposal, response: Response)
    requires OneRulePerTool(c.rules)
    ensures Authorize(c, m, p, response) == Some(Allow) <==>
      Valid(c, m, p) && Granted(c, p.action.tool, p.action.operation, p.action.resource)
      && (c.external ==> response == Bound(Some(Allow), Some(p.hash), Some(c.policyHash)))
  {
    GrantedIsAllowed(c, p.action);
    hide Granted, LocalDecision;
  }

  // ---------------------------------------------------------------- at most once

  function Count(calls: seq<Proposal>, h: Bytes): (n: nat) {
    if calls == [] then 0 else Count(calls[..|calls| - 1], h) + if calls[|calls| - 1].hash == h then 1 else 0
  }

  lemma CountExtends(calls: seq<Proposal>, p: Proposal, h: Bytes)
    ensures Count(calls + [p], h) == Count(calls, h) + if p.hash == h then 1 else 0
  {
    assert (calls + [p])[..|calls|] == calls;
  }

  /** The gateway would run this action, given the chance. */
  predicate Runnable(c: Config, a: Action) {
    c.legal(a) && a.policyHash == c.policyHash && LocalDecision(c, a) == Allow && a.tool in c.handlers
  }

  /** Every runnable action with this hash is under a rule that asks for barriers. */
  ghost predicate BarrierHash(c: Config, h: Bytes) {
    forall a: Action :: c.hash(a) == h && Runnable(c, a) ==> NeedsBarrier(c, a)
  }

  /** Something in this memory keeps the handler from being called again. */
  predicate Blocks(m: Memory, h: Bytes) {
    h in m.intents || h in m.results
  }

  ghost predicate AllBlock(possible: set<Memory>, h: Bytes) {
    forall m :: m in possible ==> Blocks(m, h)
  }

  ghost predicate PhaseSafe(c: Config, phase: Phase, memory: Memory, n: nat, durable: bool, h: Bytes) {
    !phase.Ready? && phase.proposal.hash == h ==>
      && c.hash(phase.proposal.action) == h
      && (phase.Recorded? ==> n == 0 && h in memory.intents)
      && (phase.Cleared? ==> n == 0 && durable)
      && (phase.Stored? ==> h in memory.results)
  }

  /** The handler has been called at most once, and if it has, every memory a crash may leave says so. */
  ghost predicate Once(c: Config, s: State, h: Bytes) {
    && s.memory in s.possible
    && Count(s.calls, h) <= 1
    && (Count(s.calls, h) == 1 ==> AllBlock(s.possible, h))
    && PhaseSafe(c, s.phase, s.memory, Count(s.calls, h), AllBlock(s.possible, h), h)
  }

  lemma OnceStep(c: Config, s: State, step: Step, h: Bytes)
    requires BarrierHash(c, h) && Once(c, s, h)
    ensures Once(c, Next(c, s, step), h)
  {
    hide Count;
    if step.Call? && s.phase.Cleared? {
      CountExtends(s.calls, s.phase.proposal, h);
    }
  }

  lemma {:induction false} OnceRun(c: Config, s: State, steps: seq<Step>, h: Bytes)
    requires BarrierHash(c, h) && Once(c, s, h)
    ensures Once(c, Run(c, s, steps), h)
  {
    hide Next, Once, BarrierHash;
    if steps != [] {
      OnceRun(c, s, steps[..|steps| - 1], h);
      OnceStep(c, Run(c, s, steps[..|steps| - 1]), steps[|steps| - 1], h);
    }
  }

  /** A freshly opened gateway: whatever was loaded is what a crash would load again. */
  function Opened(memory: Memory): (s: State) {
    State(memory, {memory}, Ready, [])
  }

  /** Over every run of calls, handler failures, failed writes, other people's checkpoints, machine
      steps and crashes, an action under a barrier rule reaches its handler at most once. */
  lemma AtMostOnce(c: Config, memory: Memory, steps: seq<Step>, h: Bytes)
    requires BarrierHash(c, h)
    ensures Count(Run(c, Opened(memory), steps).calls, h) <= 1
  {
    OnceRun(c, Opened(memory), steps, h);
  }

  /** Nothing is under way for this action, and every memory a crash may leave refuses it. */
  ghost predicate Quiet(s: State, h: Bytes) {
    && s.memory in s.possible && AllBlock(s.possible, h)
    && (s.phase.Ready? || s.phase.proposal.hash != h)
  }

  lemma QuietStep(c: Config, s: State, step: Step, h: Bytes)
    requires Quiet(s, h)
    ensures Quiet(Next(c, s, step), h) && Count(Next(c, s, step).calls, h) == Count(s.calls, h)
  {
    hide Count;
    if step.Call? && s.phase.Cleared? {
      CountExtends(s.calls, s.phase.proposal, h);
    }
  }

  /** An action whose intent or result was loaded never reaches its handler, under any rule. */
  lemma {:induction false} RecordedActionsNeverRun(c: Config, memory: Memory, steps: seq<Step>, h: Bytes)
    requires Blocks(memory, h)
    ensures Quiet(Run(c, Opened(memory), steps), h) && Count(Run(c, Opened(memory), steps).calls, h) == 0
  {
    if steps != [] {
      hide Next, Quiet, Blocks;
      RecordedActionsNeverRun(c, memory, steps[..|steps| - 1], h);
      QuietStep(c, Run(c, Opened(memory), steps[..|steps| - 1]), steps[|steps| - 1], h);
    }
  }

  /** The proposal was genuine and a local rule granted it. */
  ghost predicate Approved(c: Config, p: Proposal) {
    p.hash == c.hash(p.action) && Runnable(c, p.action)
  }

  ghost predicate OnlyApproved(c: Config, s: State) {
    && (!s.phase.Ready? ==> Approved(c, s.phase.proposal))
    && forall p :: p in s.calls ==> Approved(c, p)
  }

  /** Only registered tools are ever called, and only with genuine, granted proposals. */
  lemma {:induction false} OnlyApprovedCalls(c: Config, memory: Memory, steps: seq<Step>)
    ensures OnlyApproved(c, Run(c, Opened(memory), steps))
  {
    if steps != [] {
      OnlyApprovedCalls(c, memory, steps[..|steps| - 1]);
    }
  }

  // ---------------------------------------------------------------- durable results

  /** Every memory a crash may leave holds this result. */
  ghost predicate Durable(s: State, h: Bytes, r: Record) {
    s.memory in s.possible && forall m :: m in s.possible ==> h in m.results && m.results[h] == r
  }

  /** A call in progress has no result yet, or has stored the one it got. */
  ghost predicate Current(s: State) {
    && s.memory in s.possible
    && (s.phase.Recorded? || s.phase.Cleared? || s.phase.Called? ==> s.phase.proposal.hash !in s.memory.results)
    && (s.phase.Stored? || s.phase.Forgotten? ==>
          s.phase.proposal.hash in s.memory.results
            && s.memory.results[s.phase.proposal.hash] == Record(s.phase.proposal, s.phase.result))
  }

  lemma CurrentStep(c: Config, s: State, step: Step)
    requires Current(s)
    ensures Current(Next(c, s, step))
  {
  }

  lemma DurableStep(c: Config, s: State, step: Step, h: Bytes, r: Record)
    requires Current(s) && Durable(s, h, r)
    ensures Durable(Next(c, s, step), h, r)
  {
  }

  lemma {:induction false} DurableRun(c: Config, s: State, steps: seq<Step>, h: Bytes, r: Record)
    requires Current(s) && Durable(s, h, r)
    ensures Current(Run(c, s, steps)) && Durable(Run(c, s, steps), h, r)
  {
    hide Next, Current, Durable;
    if steps != [] {
      var before := Run(c, s, steps[..|steps| - 1]);
      DurableRun(c, s, steps[..|steps| - 1], h, r);
      CurrentStep(c, before, steps[|steps| - 1]);
      DurableStep(c, before, steps[|steps| - 1], h, r);
    }
  }

  lemma {:induction false} CurrentRun(c: Config, s: State, steps: seq<Step>)
    requires Current(s)
    ensures Current(Run(c, s, steps))
  {
    hide Next, Current;
    if steps != [] {
      CurrentRun(c, s, steps[..|steps| - 1]);
      CurrentStep(c, Run(c, s, steps[..|steps| - 1]), steps[|steps| - 1]);
    }
  }

  /** The last barrier of a call makes its result durable. */
  lemma FinalBarrierSettles(c: Config, memory: Memory, steps: seq<Step>)
    ensures var s := Run(c, Opened(memory), steps);
      s.phase.Forgotten? ==>
        Durable(Next(c, s, Barrier(true)), s.phase.proposal.hash, Record(s.phase.proposal, s.phase.result))
  {
    CurrentRun(c, Opened(memory), steps);
  }

  /** Once its result is durable, every later authorised call for the same proposal returns that
      result, across any number of crashes, without reaching the handler. */
  lemma DurableResultIsFinal(c: Config, memory: Memory, before: seq<Step>, after: seq<Step>, p: Proposal,
                             result: Value, response: Response)
    requires Durable(Run(c, Opened(memory), before), p.hash, Record(p, result))
    ensures var s := Run(c, Run(c, Opened(memory), before), after);
      && (Authorize(c, s.memory, p, response) == Some(Allow) ==> Answer(c, s.memory, p, response) == Reused(result))
      && (forall fits :: Next(c, s, Begin(p, response, fits)) == s)
  {
    CurrentRun(c, Opened(memory), before);
    DurableRun(c, Run(c, Opened(memory), before), after, p.hash, Record(p, result));
  }

  // ---------------------------------------------------------------- without barriers

  /** Under a rule without barriers a crash can forget the intent, and the handler runs again. */
  lemma WithoutBarriersTwice(c: Config, memory: Memory, p: Proposal, response: Response)
    requires Answer(c, memory, p, response) == Proceeds && !NeedsBarrier(c, p.action)
    ensures var attempt := [Begin(p, response, true), Call];
      Count(Run(c, Opened(memory), attempt + [Crash(memory)] + attempt).calls, p.hash) == 2
  {
    var attempt, s := [Begin(p, response, true), Call], Opened(memory);
    var s1 := Next(c, s, attempt[0]);
    var s2 := Next(c, s1, Call);
    var s3 := Next(c, s2, Crash(memory));
    var s4 := Next(c, s3, attempt[0]);
    assert s3 == State(memory, {memory}, Ready, [p]);
    assert Next(c, s4, Call).calls == [p] + [p];
    RunExtends(c, s, [], attempt[0]);
    RunExtends(c, s, [attempt[0]], Call);
    RunExtends(c, s, attempt, Crash(memory));
    RunExtends(c, s, attempt + [Crash(memory)], attempt[0]);
    RunExtends(c, s, attempt + [Crash(memory)] + [attempt[0]], Call);
    assert attempt + [Crash(memory)] + [attempt[0]] + [Call] == attempt + [Crash(memory)] + attempt;
    CountExtends([p], p, p.hash);
    CountExtends([], p, p.hash);
    assert [] + [p] == [p];
  }

  ghost predicate NeverTwice(c: Config, h: Bytes) {
    forall memory, steps :: Count(Run(c, Opened(memory), steps).calls, h) <= 1
  }

  /** An action hash reaches its handler at most once over all runs exactly when every runnable action
      with that hash is under a rule that asks for barriers. */
  lemma OnceExactlyWhen(c: Config, h: Bytes)
    ensures NeverTwice(c, h) <==> BarrierHash(c, h)
  {
    hide Run, Count, Runnable;
    if BarrierHash(c, h) {
      forall memory, steps ensures Count(Run(c, Opened(memory), steps).calls, h) <= 1 {
        AtMostOnce(c, memory, steps, h);
      }
    } else {
      var a: Action :| c.hash(a) == h && Runnable(c, a) && !NeedsBarrier(c, a);
      var memory := Memory(a.generation, a.checkpointHash, map[], map[]);
      var p, response := Proposal(a, h), Bound(Some(Allow), Some(h), Some(c.policyHash));
      RunnableProceeds(c, memory, p, response);
      WithoutBarriersTwice(c, memory, p, response);
    }
  }

  lemma RunnableProceeds(c: Config, m: Memory, p: Proposal, response: Response)
    requires Runnable(c, p.action) && p.hash == c.hash(p.action) && m.intents == map[] && m.results == map[]
    requires m.generation == p.action.generation && m.checkpointHash == p.action.checkpointHash
    requires response == Bound(Some(Allow), Some(p.hash), Some(c.policyHash))
    ensures Answer(c, m, p, response) == Proceeds
  {
    hide LocalDecision;
  }
}
