/** The tool gateway (`zdx_agent_tool_gateway.py`): authorization, and the intent and result records
    written around a handler call, one step at a time, with crashes between any two steps. */
module ToolGateway {
  import opened Basics
  import opened Codec

  datatype Rule = Rule(tool: Text, operations: set<Text>, prefixes: set<Text>, requireBarrier: bool)

  /** What is hashed into an action. */
  datatype Action = Action(
    tool: Text, operation: Text, resource: Text, arguments: Value, idempotencyKey: Text,
    generation: int, checkpointHash: Bytes, policyHash: Bytes)

  datatype Proposal = Proposal(action: Action, hash: Bytes)

  /** The gateway's fixed surroundings: its policy, which actions have legal names, canonical
      arguments and a legal size, the action digest, the registered handlers, and whether there is an
      external authorizer. */
  datatype Config = Config(
    rules: seq<Rule>, policyHash: Bytes, legal: Action -> bool, hash: Action -> Bytes, handlers: set<Text>,
    external: bool)

  /** What a caller of `execute` asks for. */
  datatype Request = Request(tool: Text, operation: Text, resource: Text, arguments: Value, idempotencyKey: Text)

  /** The action is what was asked for. */
  predicate Carries(a: Action, q: Request) {
    && a.tool == q.tool && a.operation == q.operation && a.resource == q.resource
    && a.arguments == q.arguments && a.idempotencyKey == q.idempotencyKey
  }

  /** The action was proposed in this machine state under this policy. */
  predicate BoundTo(a: Action, c: Config, m: Memory) {
    a.generation == m.generation && a.checkpointHash == m.checkpointHash && a.policyHash == c.policyHash
  }

  /** `propose`: the request bound to the resident machine state and the policy, or nothing if that is
      not legal. */
  function Propose(c: Config, m: Memory, q: Request): (p: Option<Proposal>)
    ensures p.Some? ==> Valid(c, m, p.value) && Carries(p.value.action, q)
    ensures p.None? ==> forall a: Action :: Carries(a, q) && BoundTo(a, c, m) ==> !c.legal(a)
  {
    var a := Action(q.tool, q.operation, q.resource, q.arguments, q.idempotencyKey, m.generation, m.checkpointHash,
      c.policyHash);
    if c.legal(a) then Some(Proposal(a, c.hash(a))) else None
  }

  // ---------------------------------------------------------------- authorization

  datatype Verdict = Allow | Deny | ApprovalRequired

  /** What the external authorizer does: raise, return something that is not an object, or return
      an object whose decision may be unknown and whose hashes may be missing. */
  datatype Response = Raises | NotAnObject
    | Bound(decision: Option<Verdict>, actionHash: Option<Bytes>, policyHash: Option<Bytes>)

  /** `rule_for`. */
  function RuleFor(rules: seq<Rule>, tool: Text): (r: Option<Rule>)
    ensures r.Some? ==> r.value in rules && r.value.tool == tool
    ensures r.None? ==> forall rule :: rule in rules ==> rule.tool != tool
  {
    if rules == [] then None else if rules[0].tool == tool then Some(rules[0]) else RuleFor(rules[1..], tool)
  }

  function LocalDecision(c: Config, a: Action): (v: Verdict) {
    match RuleFor(c.rules, a.tool)
    case None => Deny
    case Some(rule) =>
      if a.operation !in rule.operations then Deny
      else if rule.prefixes != {} then
        if exists prefix :: prefix in rule.prefixes && prefix <= a.resource then Allow else Deny
      else if a.resource != [] then Deny
      else Allow
  }

  /** A local rule for the tool names the operation and covers the resource. */
  ghost predicate Granted(c: Config, tool: Text, operation: Text, resource: Text) {
    exists rule :: rule in c.rules && rule.tool == tool && operation in rule.operations
      && (if rule.prefixes == {} then resource == []
           else exists prefix :: prefix in rule.prefixes && prefix <= resource)
  }

  /** No two rules are for the same tool. */
  ghost predicate OneRulePerTool(rules: seq<Rule>) {
    forall a, b :: a in rules && b in rules && a.tool == b.tool ==> a == b
  }

  /** The local decision allows an action exactly when some rule grants it. */
  lemma GrantedIsAllowed(c: Config, a: Action)
    requires OneRulePerTool(c.rules)
    ensures Granted(c, a.tool, a.operation, a.resource) <==> LocalDecision(c, a) == Allow
  {
    var found := RuleFor(c.rules, a.tool);
    if LocalDecision(c, a) == Allow {
      assert found.value in c.rules;
    }
  }

  /** The external authorizer, if there is one, allowed this very request under this very policy. */
  ghost predicate Approves(c: Config, m: Memory, q: Request, response: Response) {
    c.external ==> forall a: Action :: Carries(a, q) && BoundTo(a, c, m) ==>
      response == Bound(Some(Allow), Some(c.hash(a)), Some(c.policyHash))
  }

  /** A legal request is denied exactly when no rule grants it or the authorizer did not approve it. */
  lemma DeniedExactlyWhen(c: Config, m: Memory, q: Request, response: Response)
    requires OneRulePerTool(c.rules) && Propose(c, m, q).Some?
    ensures Answer(c, m, Propose(c, m, q).value, response) == Denied <==>
      !(Granted(c, q.tool, q.operation, q.resource) && Approves(c, m, q, response))
  {
    var p := Propose(c, m, q).value;
    GrantedIsAllowed(c, p.action);
    hide Granted, LocalDecision;
    assert forall a: Action :: Carries(a, q) && BoundTo(a, c, m) ==> a == p.action;
  }

  function NormalizeExternal(response: Response, p: Proposal): (v: Verdict) {
    match response
    case Raises => Deny
    case NotAnObject => Deny
    case Bound(decision, actionHash, policyHash) =>
      if decision.None? then Deny
      else if actionHash != Some(p.hash) then Deny
      else if policyHash != Some(p.action.policyHash) then Deny
      else decision.value
  }

  /** `_validate_proposal` against the resident machine state. */
  predicate Valid(c: Config, m: Memory, p: Proposal) {
    && BoundTo(p.action, c, m)
    && c.legal(p.action) && p.hash == c.hash(p.action)
  }

  function Authorize(c: Config, m: Memory, p: Proposal, response: Response): (v: Option<Verdict>) {
    if !Valid(c, m, p) then None
    else if LocalDecision(c, p.action) != Allow then Some(LocalDecision(c, p.action))
    else if !c.external then Some(Allow)
    else Some(NormalizeExternal(response, p))
  }

  // ---------------------------------------------------------------- records

  datatype Intent = Intent(proposal: Proposal, ambiguous: bool)

  datatype Record = Record(proposal: Proposal, result: Value)

  /** The part of the session document the gateway reads and writes. */
  datatype Memory = Memory(
    generation: int, checkpointHash: Bytes, intents: map<Bytes, Intent>, results: map<Bytes, Record>)

  /** Where an `execute` call is: not running, the intent recorded, cleared to call the handler, in
      the handler, its result stored, its intent forgotten, or its failure noted. */
  datatype Phase =
    | Ready
    | Recorded(proposal: Proposal)
    | Cleared(proposal: Proposal)
    | Called(proposal: Proposal)
    | Stored(proposal: Proposal, result: Value)
    | Forgotten(proposal: Proposal, result: Value)
    | Reviewing(proposal: Proposal)

  /** `possible` are the memories a crash may leave: every one since the last barrier. `calls` are the
      handler calls so far. */
  datatype State = State(memory: Memory, possible: set<Memory>, phase: Phase, calls: seq<Proposal>)

  datatype Reply = Returned(result: Value) | Raised

  datatype Step =
    | Begin(proposal: Proposal, response: Response, fits: bool)
    | Barrier(done: bool)
    | Call
    | Finish(reply: Reply, fits: bool)
    | Forget
    | Advance(generation: int, checkpointHash: Bytes)
    | OtherBarrier
    | Crash(memory: Memory)

  datatype Outcome = Denied | Reused(result: Value) | Ambiguous | Unregistered | Proceeds

  /** What `execute` decides before it writes anything. */
  function Answer(c: Config, m: Memory, p: Proposal, response: Response): (o: Outcome) {
    if Authorize(c, m, p, response) != Some(Allow) then Denied
    else if p.hash in m.results then
      if m.results[p.hash].proposal != p then Ambiguous else Reused(m.results[p.hash].result)
    else if p.hash in m.intents then Ambiguous
    else if p.action.tool !in c.handlers then Unregistered
    else Proceeds
  }

  predicate NeedsBarrier(c: Config, a: Action) {
    var rule := RuleFor(c.rules, a.tool);
    rule.Some? && rule.value.requireBarrier
  }

  function Remember(s: State, m: Memory): (t: State) {
    s.(memory := m, possible := s.possible + {m})
  }

  function Settle(s: State): (t: State) {
    s.(possible := {s.memory})
  }

  function BeginNext(c: Config, s: State, p: Proposal, response: Response, fits: bool): (t: State) {
    if !s.phase.Ready? || Answer(c, s.memory, p, response) != Proceeds || !fits then s
    else
      var t := Remember(s, s.memory.(intents := s.memory.intents[p.hash := Intent(p, false)]));
      t.(phase := if NeedsBarrier(c, p.action) then Recorded(p) else Cleared(p))
  }

  function BarrierNext(s: State, done: bool): (t: State) {
    if s.phase.Recorded? then
      if done then Settle(s).(phase := Cleared(s.phase.proposal)) else s.(phase := Ready)
    else if s.phase.Forgotten? || s.phase.Reviewing? then
      if done then Settle(s).(phase := Ready) else s.(phase := Ready)
    else s
  }

  function FinishNext(c: Config, s: State, reply: Reply, fits: bool): (t: State) {
    if !s.phase.Called? then s
    else if !fits then s.(phase := Ready)
    else
      var p := s.phase.proposal;
      match reply
      case Raised =>
        var t := Remember(s, s.memory.(intents := s.memory.intents[p.hash := Intent(p, true)]));
        t.(phase := if NeedsBarrier(c, p.action) then Reviewing(p) else Ready)
      case Returned(result) =>
        Remember(s, s.memory.(results := s.memory.results[p.hash := Record(p, result)])).(phase := Stored(p, result))
  }

  function ForgetNext(c: Config, s: State): (t: State) {
    if !s.phase.Stored? then s
    else
      var p := s.phase.proposal;
      if p.hash !in s.memory.intents then s.(phase := Ready)
      else
        var t := Remember(s, s.memory.(intents := s.memory.intents - {p.hash}));
        t.(phase := if NeedsBarrier(c, p.action) then Forgotten(p, s.phase.result) else Ready)
  }

  function Next(c: Config, s: State, step: Step): (t: State) {
    match step
    case Begin(p, response, fits) => BeginNext(c, s, p, response, fits)
    case Barrier(done) => BarrierNext(s, done)
    case Call =>
      if !s.phase.Cleared? then s
      else s.(phase := Called(s.phase.proposal), calls := s.calls + [s.phase.proposal])
    case Finish(reply, fits) => FinishNext(c, s, reply, fits)
    case Forget => ForgetNext(c, s)
    case Advance(generation, hash) => Remember(s, s.memory.(generation := generation, checkpointHash := hash))
    case OtherBarrier => Settle(s)
    case Crash(m) => if m in s.possible then State(m, {m}, Ready, s.calls) else s
  }

  function Run(c: Config, s: State, steps: seq<Step>): (t: State) {
    if steps == [] then s else Next(c, Run(c, s, steps[..|steps| - 1]), steps[|steps| - 1])
  }

  lemma RunExtends(c: Config, s: State, steps: seq<Step>, step: Step)
    ensures Run(c, s, steps + [step]) == Next(c, Run(c, s, steps), step)
  {
    assert (steps + [step])[..|steps|] == steps;
  }

  // ---------------------------------------------------------------- one undisturbed call

  /** What goes wrong, if anything, during one call. */
  datatype Fate = Fate(intentFits: bool, intentDurable: bool, reply: Reply, recordFits: bool, recordDurable: bool)

  datatype Answered = Gives(result: Value) | Illegal | Refuses | NeedsReview | HandlerFailed | NoHandler | NotStarted

  /** The handler is reached: the intent was stored and, where required, made durable. */
  predicate Begun(c: Config, p: Proposal, fate: Fate) {
    fate.intentFits && (NeedsBarrier(c, p.action) ==> fate.intentDurable)
  }

  /** What became of the call was stored and, where required, made durable. */
  predicate Kept(c: Config, p: Proposal, fate: Fate) {
    fate.recordFits && (NeedsBarrier(c, p.action) ==> fate.recordDurable)
  }

  /** No record of any other action changes, and the machine state does not. */
  ghost predicate OnlyAbout(m: Memory, n: Memory, h: Bytes) {
    && n.intents - {h} == m.intents - {h} && n.results - {h} == m.results - {h}
    && n.generation == m.generation && n.checkpointHash == m.checkpointHash
  }

  /** The result is recorded, the intent is gone, and where required every crash would find it so. */
  ghost predicate Concluded(c: Config, m: Memory, possible: set<Memory>, p: Proposal, result: Value) {
    && p.hash in m.results && m.results[p.hash] == Record(p, result) && p.hash !in m.intents
    && (NeedsBarrier(c, p.action) ==> possible == {m})
  }

  /** The intent says that the outcome is unknown. */
  ghost predicate Reviewable(m: Memory, p: Proposal) {
    p.hash in m.intents && m.intents[p.hash] == Intent(p, true)
  }

  /** One more call was made, with what the request asks for in the machine state it was made in. */
  ghost predicate CalledFor(c: Config, m: Memory, q: Request, before: seq<Proposal>, after: seq<Proposal>) {
    && |after| == |before| + 1 && after[..|before|] == before
    && var p := after[|before|];
       Carries(p.action, q) && BoundTo(p.action, c, m) && c.legal(p.action) && p.hash == c.hash(p.action)
  }

  class Gateway {
    const config: Config
    var memory: Memory
    ghost var possible: set<Memory>
    ghost var calls: seq<Proposal>

    ghost function View(phase: Phase): (s: State)
      reads this
    {
      State(memory, possible, phase, calls)
    }

    constructor (config: Config, memory: Memory)
      ensures this.config == config && View(Ready) == State(memory, {memory}, Ready, [])
    {
      this.config, this.memory, possible, calls := config, memory, {memory}, [];
    }

    method Store(m: Memory, ghost phase: Phase, ghost next: Phase)
      modifies this
      ensures View(next) == Remember(old(View(phase)), m).(phase := next)
    {
      memory, possible := m, possible + {m};
    }

    /** `checkpoint(barrier=True)`. */
    method Checkpoint(done: bool)
      modifies this
      ensures memory == old(memory) && calls == old(calls)
      ensures possible == if done then {memory} else old(possible)
    {
      possible := if done then {memory} else possible;
    }

    /** From the handler's reply to the end of `execute`. */
    method Conclude(p: Proposal, fate: Fate) returns (a: Answered, ghost steps: seq<Step>)
      modifies this
      ensures View(Ready) == Run(config, old(View(Called(p))), steps) && calls == old(calls)
      ensures OnlyAbout(old(memory), memory, p.hash)
      ensures a.Gives? ==> Concluded(config, memory, possible, p, a.result) && fate.reply == Returned(a.result)
      ensures a.HandlerFailed? ==> Reviewable(memory, p)
      ensures p.hash in old(memory).intents ==>
        && (a.Gives? <==> fate.reply.Returned? && Kept(config, p, fate))
        && (a.HandlerFailed? <==> fate.reply.Raised? && Kept(config, p, fate))
        && (a.NeedsReview? <==> !Kept(config, p, fate))
    {
      ghost var s := View(Called(p));
      ghost var finish := Finish(fate.reply, fate.recordFits);
      steps := [finish];
      RunExtends(config, s, [], finish);
      var barrier := NeedsBarrier(config, p.action);
      if !fate.recordFits {
        return NeedsReview, steps;
      }
      if fate.reply.Raised? {
        Store(memory.(intents := memory.intents[p.hash := Intent(p, true)]), Called(p),
              if barrier then Reviewing(p) else Ready);
        if barrier {
          Checkpoint(fate.recordDurable);
          RunExtends(config, s, steps, Barrier(fate.recordDurable));
          steps := steps + [Barrier(fate.recordDurable)];
          return if fate.recordDurable then HandlerFailed else NeedsReview, steps;
        }
        return HandlerFailed, steps;
      }
      var result := fate.reply.result;
      Store(memory.(results := memory.results[p.hash := Record(p, result)]), Called(p), Stored(p, result));
      RunExtends(config, s, steps, Forget);
      steps := steps + [Forget];
      if p.hash !in memory.intents {
        return NeedsReview, steps;
      }
      Store(memory.(intents := memory.intents - {p.hash}), Stored(p, result),
            if barrier then Forgotten(p, result) else Ready);
      if barrier {
        Checkpoint(fate.recordDurable);
        RunExtends(config, s, steps, Barrier(fate.recordDurable));
        steps := steps + [Barrier(fate.recordDurable)];
        if !fate.recordDurable {
          return NeedsReview, steps;
        }
      }
      a := Gives(result);
    }

    /** `execute`, with nobody in between: some run of the steps. The handler is called at most once, and
        with exactly what was asked for; a refusal means that the request itself was not granted or not
        approved; without reaching the handler the answer comes from the records alone. */
    method Execute(q: Request, response: Response, fate: Fate) returns (a: Answered, ghost steps: seq<Step>)
      modifies this
      ensures View(Ready) == Run(config, old(View(Ready)), steps)
      ensures calls == old(calls) || CalledFor(config, old(memory), q, old(calls), calls)
      ensures a.Illegal? <==> forall b: Action :: Carries(b, q) && BoundTo(b, config, old(memory)) ==> !config.legal(b)
      ensures OneRulePerTool(config.rules) && !a.Illegal? ==>
        (a.Refuses? <==>
          !(Granted(config, q.tool, q.operation, q.resource) && Approves(config, old(memory), q, response)))
      ensures a.Illegal? || a.Refuses? || a.NoHandler? ==> View(Ready) == old(View(Ready))
      ensures a.NoHandler? ==> q.tool !in config.handlers
      ensures calls == old(calls) && a.Gives? ==> View(Ready) == old(View(Ready))
      ensures Propose(config, old(memory), q).Some? ==>
        var p := Propose(config, old(memory), q).value;
        && OnlyAbout(old(memory), memory, p.hash)
        && (a.Gives? ==> p.hash in memory.results && memory.results[p.hash] == Record(p, a.result))
        && match Answer(config, old(memory), p, response)
           case Reused(result) => a == Gives(result) && calls == old(calls)
           case Ambiguous => a == NeedsReview && View(Ready) == old(View(Ready))
           case Proceeds =>
             && (calls != old(calls) <==> Begun(config, p, fate)) && (a.NotStarted? <==> !Begun(config, p, fate))
             && (a.Gives? <==> fate.reply.Returned? && Begun(config, p, fate) && Kept(config, p, fate))
             && (a.Gives? ==> Concluded(config, memory, possible, p, a.result) && fate.reply == Returned(a.result))
             && (a.HandlerFailed? <==> fate.reply.Raised? && Begun(config, p, fate) && Kept(config, p, fate))
             && (a.HandlerFailed? ==> Reviewable(memory, p))
           case _ => true
    {
      steps := [];
      var proposal := Propose(config, memory, q);
      if proposal.None? {
        return Illegal, steps;
      }
      var p := proposal.value;
      assert Carries(p.action, q) && BoundTo(p.action, config, memory) && config.legal(p.action);
      if OneRulePerTool(config.rules) {
        DeniedExactlyWhen(config, memory, q, response);
      }
      hide Propose, Granted, Approves, OneRulePerTool, Run;
      match Answer(config, memory, p, response)
      case Denied => return Refuses, steps;
      case Reused(result) => return Gives(result), steps;
      case Ambiguous => return NeedsReview, steps;
      case Unregistered => return NoHandler, steps;
      case Proceeds => a, steps := Attempt(p, response, fate);
    }

    /** The rest of `execute`, once nothing stands in the way. */
    method Attempt(p: Proposal, response: Response, fate: Fate) returns (a: Answered, ghost steps: seq<Step>)
      requires Answer(config, memory, p, response) == Proceeds
      modifies this
      ensures View(Ready) == Run(config, old(View(Ready)), steps)
      ensures calls == old(calls) + (if Begun(config, p, fate) then [p] else [])
      ensures OnlyAbout(old(memory), memory, p.hash)
      ensures a.NotStarted? <==> !Begun(config, p, fate)
      ensures a.Gives? <==> fate.reply.Returned? && Begun(config, p, fate) && Kept(config, p, fate)
      ensures a.Gives? ==> Concluded(config, memory, possible, p, a.result) && fate.reply == Returned(a.result)
      ensures a.HandlerFailed? <==> fate.reply.Raised? && Begun(config, p, fate) && Kept(config, p, fate)
      ensures a.HandlerFailed? ==> Reviewable(memory, p)
      ensures a.NotStarted? || a.Gives? || a.HandlerFailed? || a.NeedsReview?
    {
      steps := [];
      ghost var s := View(Ready);
      if !fate.intentFits {
        return NotStarted, steps;
      }
      var barrier := NeedsBarrier(config, p.action);
      ghost var begin := Begin(p, response, true);
      RunExtends(config, s, [], begin);
      steps := [begin];
      Store(memory.(intents := memory.intents[p.hash := Intent(p, false)]), Ready,
            if barrier then Recorded(p) else Cleared(p));
      if barrier {
        Checkpoint(fate.intentDurable);
        RunExtends(config, s, steps, Barrier(fate.intentDurable));
        steps := steps + [Barrier(fate.intentDurable)];
        if !fate.intentDurable {
          return NotStarted, steps;
        }
      }
      calls := calls + [p];
      RunExtends(config, s, steps, Call);
      steps := steps + [Call];
      hide Next;
      ghost var rest;
      a, rest := Conclude(p, fate);
      RunJoins(config, s, steps, rest);
      steps := steps + rest;
    }
  }

  lemma {:induction false} RunJoins(c: Config, s: State, front: seq<Step>, back: seq<Step>)
    ensures Run(c, s, front + back) == Run(c, Run(c, s, front), back)
    decreases |back|
  {
    hide Next;
    if back == [] {
      assert front + back == front;
    } else {
      var before, step := back[..|back| - 1], back[|back| - 1];
      assert front + back == (front + before) + [step] && back == before + [step];
      RunJoins(c, s, front, before);
      RunExtends(c, s, front + before, step);
      RunExtends(c, Run(c, s, front), before, step);
    }
  }
}
