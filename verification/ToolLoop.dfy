/** Tool calls: validation of the requested tools against the registry, and the bounded loop that runs the
    model's tool calls. The registry may answer differently at every lookup; the model and the executor
    answer arbitrarily. */
module ToolLoop {
  import Races = ToolCacheRaces
  import opened ToolRegistry
  import opened Wrappers

  // ---------------------------------------------------------------------------
  // validateTools
  // ---------------------------------------------------------------------------

  /** A tool as the request describes it. */
  datatype Tool = Tool(kind: string, name: string, description: string, parameters: string)

  datatype LookupResult = Found(def: Def) | Absent | RepositoryDown

  /** What the registry answers at one moment. A definition found under a name carries that name. */
  type Lookup = f: string -> LookupResult | forall n :: f(n).Found? ==> f(n).def.key.name == n
    witness n => Absent

  datatype ValidatedTool = ValidatedTool(
    name: string,
    description: string,
    inputSchema: string,
    grants: string,
    timeoutMs: int,
    memoryPages: int,
    hash: string)

  function FromRegistry(d: Def): ValidatedTool {
    ValidatedTool(d.key.name, d.description, d.inputSchema, d.grants, d.timeoutMs, d.memoryPages, d.hash)
  }

  datatype ToolError = ErrRepository | ErrToolNotFound | ErrMismatch

  type Hasher = (string, string, string) -> string

  /** The registry holds the tool, active, with exactly the hash of the requested definition. */
  predicate Endorsed(hash: Hasher, lookup: Lookup, t: Tool) {
    && lookup(t.name).Found?
    && lookup(t.name).def.active
    && lookup(t.name).def.hash == hash(t.name, t.description, t.parameters)
  }

  /** The error owed for a tool that is not endorsed. */
  function Refusal(lookup: Lookup, t: Tool): ToolError {
    match lookup(t.name)
    case RepositoryDown => ErrRepository
    case Absent => ErrToolNotFound
    case Found(d) => if d.active then ErrMismatch else ErrToolNotFound
  }

  datatype Validation = Accepted(tools: seq<ValidatedTool>, origins: seq<nat>) | Rejected(error: ToolError)

  predicate IsFunction(t: Tool) {
    t.kind == "function"
  }

  predicate ValidatedAs(hash: Hasher, lookup: Lookup, t: Tool, v: ValidatedTool) {
    Endorsed(hash, lookup, t) && v == FromRegistry(lookup(t.name).def)
  }

  /** The first n tools were validated: origins lists the positions of all function tools among them, in
      order, and the k-th validated tool is the registry's definition of the tool at origins[k]. */
  ghost predicate IsValidation(hash: Hasher, lookups: nat -> Lookup, tools: seq<Tool>, n: nat,
                               validated: seq<ValidatedTool>, origins: seq<nat>)
    requires n <= |tools|
  {
    && |validated| == |origins|
    && (forall j, k :: 0 <= j < k < |origins| ==> origins[j] < origins[k])
    && (forall i: nat :: i in origins <==> i < n && IsFunction(tools[i]))
    && (forall k :: 0 <= k < |origins| ==>
          origins[k] in origins && ValidatedAs(hash, lookups(origins[k]), tools[origins[k]], validated[k]))
  }

  lemma ValidationGrows(hash: Hasher, lookups: nat -> Lookup, tools: seq<Tool>, n: nat,
                        validated: seq<ValidatedTool>, origins: seq<nat>, v: ValidatedTool)
    requires n < |tools| && IsValidation(hash, lookups, tools, n, validated, origins)
    requires IsFunction(tools[n]) && ValidatedAs(hash, lookups(n), tools[n], v)
    ensures IsValidation(hash, lookups, tools, n + 1, validated + [v], origins + [n])
  {
    hide ValidatedAs;
    var grown := origins + [n];
    forall i: nat
      ensures i in grown <==> i < n + 1 && IsFunction(tools[i])
    {
      assert i in grown <==> i in origins || i == n;
    }
  }

  lemma ValidationStarts(hash: Hasher, lookups: nat -> Lookup, tools: seq<Tool>)
    ensures IsValidation(hash, lookups, tools, 0, [], [])
  {
  }

  lemma ValidationSkips(hash: Hasher, lookups: nat -> Lookup, tools: seq<Tool>, n: nat,
                        validated: seq<ValidatedTool>, origins: seq<nat>)
    requires n < |tools| && IsValidation(hash, lookups, tools, n, validated, origins) && !IsFunction(tools[n])
    ensures IsValidation(hash, lookups, tools, n + 1, validated, origins)
  {
    hide ValidatedAs;
  }

  /** validateTools: the i-th tool is looked up in lookups(i). Every function tool must be endorsed; the
      first one that is not decides the error, and nothing is returned then. */
  method ValidateTools(hash: Hasher, lookups: nat -> Lookup, tools: seq<Tool>) returns (v: Validation)
    ensures v.Accepted? ==> IsValidation(hash, lookups, tools, |tools|, v.tools, v.origins)
    ensures v.Rejected? ==>
              exists i: nat :: (
                && i < |tools| && IsFunction(tools[i]) && !Endorsed(hash, lookups(i), tools[i])
                && v.error == Refusal(lookups(i), tools[i])
                && forall j: nat :: j < i && IsFunction(tools[j]) ==> Endorsed(hash, lookups(j), tools[j]))
  {
    hide IsValidation;
    var validated: seq<ValidatedTool>, origins: seq<nat> := [], [];
    ValidationStarts(hash, lookups, tools);
    for i := 0 to |tools|
      invariant IsValidation(hash, lookups, tools, i, validated, origins)
      invariant forall j: nat :: j < i && IsFunction(tools[j]) ==> Endorsed(hash, lookups(j), tools[j])
    {
      var t := tools[i];
      if t.kind != "function" {
        ValidationSkips(hash, lookups, tools, i, validated, origins);
        continue;
      }
      match lookups(i)(t.name) {
        case RepositoryDown =>
          return Rejected(ErrRepository);
        case Absent =>
          return Rejected(ErrToolNotFound);
        case Found(def) =>
          if !def.active {
            return Rejected(ErrToolNotFound);
          }
          if hash(t.name, t.description, t.parameters) != def.hash {
            return Rejected(ErrMismatch);
          }
          ValidationGrows(hash, lookups, tools, i, validated, origins, FromRegistry(def));
          validated, origins := validated + [FromRegistry(def)], origins + [i];
      }
    }
    v := Accepted(validated, origins);
  }

  /** What validation comes to on the tools' own fields: the k-th validated tool stems from a function tool that
      the registry held, active, with the hash of the requested definition, and carries the registry's name,
      description, schema, grants, limits and hash. */
  lemma ValidatedOnFields(hash: Hasher, lookups: nat -> Lookup, tools: seq<Tool>, validated: seq<ValidatedTool>,
                          origins: seq<nat>, k: nat)
    requires IsValidation(hash, lookups, tools, |tools|, validated, origins) && k < |validated|
    ensures origins[k] < |tools| && tools[origins[k]].kind == "function"
    ensures var t := tools[origins[k]];
            && lookups(origins[k])(t.name).Found?
            && var d := lookups(origins[k])(t.name).def;
            && d.active && d.hash == hash(t.name, t.description, t.parameters)
            && validated[k] == ValidatedTool(t.name, d.description, d.inputSchema, d.grants, d.timeoutMs,
                                             d.memoryPages, d.hash)
  {
    assert origins[k] in origins;
  }

  /** A tool that is not endorsed gives the repository's error if that is down, a mismatch if the registry holds
      it active under another hash, and otherwise that it was not found. */
  lemma RefusalOnFields(hash: Hasher, lookup: Lookup, t: Tool)
    requires !Endorsed(hash, lookup, t)
    ensures Refusal(lookup, t) == ErrRepository <==> lookup(t.name) == RepositoryDown
    ensures Refusal(lookup, t) == ErrMismatch <==>
              && lookup(t.name).Found? && lookup(t.name).def.active
              && lookup(t.name).def.hash != hash(t.name, t.description, t.parameters)
    ensures Refusal(lookup, t) == ErrToolNotFound <==>
              lookup(t.name) == Absent || (lookup(t.name).Found? && !lookup(t.name).def.active)
  {
  }

  // ---------------------------------------------------------------------------
  // One tool call
  // ---------------------------------------------------------------------------

  datatype ToolCall = ToolCall(id: string, name: string, arguments: string)

  datatype ToolResult = ToolResult(callId: string, output: string, error: string)

  datatype Execution = Ran(result: ToolResult) | ExecError(message: string)

  datatype ToolModule = ToolModule(name: string, requiresApproval: bool)

  datatype Message = Message(role: string, content: string, toolCallId: string, name: string)

  /** What is fixed for the duration of one request. */
  datatype Setup = Setup(
    executor: bool,
    repository: bool,
    modules: seq<ToolModule>,
    maxIterations: int,
    validated: seq<ValidatedTool>,
    messages: seq<Message>)
  {
    function Limit(): (n: nat)
      ensures n > 0
    {
      if maxIterations <= 0 then 5 else maxIterations
    }
  }

  /** The surroundings: the registry at the n-th tool call, the executor's answer to it, and the model's
      answer to the n-th recall. */
  datatype World = World(
    registry: nat -> Lookup,
    execute: (nat, ToolCall, ValidatedTool) -> Execution,
    recall: (nat, seq<Message>) -> Recall)

  datatype Recall = Replied(completion: Completion) | RecallFailed

  /** authorizedTools: under each name, the last validated tool. */
  function Authorized(validated: seq<ValidatedTool>): (m: map<string, ValidatedTool>)
    ensures forall n :: n in m ==> m[n] in validated && m[n].name == n
    ensures forall v :: v in validated ==> v.name in m
  {
    if validated == [] then map[]
    else
      var last := validated[|validated| - 1];
      Authorized(validated[..|validated| - 1])[last.name := last]
  }

  /** toolRequiresApproval: the first module under the name decides. */
  function RequiresApproval(modules: seq<ToolModule>, name: string): (r: bool)
    ensures r ==> ToolModule(name, true) in modules
    ensures ToolModule(name, true) in modules && ToolModule(name, false) !in modules ==> r
  {
    if modules == [] then false
    else if modules[0].name == name then modules[0].requiresApproval
    else RequiresApproval(modules[1..], name)
  }

  /** The registry still endorses what was validated. */
  predicate StillEndorsed(lookup: Lookup, tool: ValidatedTool) {
    && lookup(tool.name).Found?
    && lookup(tool.name).def.active
    && lookup(tool.name).def.hash == tool.hash
  }

  /** Everything that must hold for a call to reach the executor, in the registry of that moment. */
  predicate MayRun(setup: Setup, lookup: Lookup, name: string) {
    && name in Authorized(setup.validated)
    && (setup.repository ==> StillEndorsed(lookup, Authorized(setup.validated)[name]))
    && !RequiresApproval(setup.modules, name)
  }

  /** The definition changed since it was validated, whether or not it is still active. */
  predicate Changed(setup: Setup, lookup: Lookup, name: string) {
    && setup.repository
    && name in Authorized(setup.validated)
    && lookup(name).Found?
    && lookup(name).def.hash != Authorized(setup.validated)[name].hash
  }

  const NOT_FOUND := "tool not found"
  const MISMATCH := "tool definition mismatch"
  const UNAPPROVED := "HITL approval failed: HITL approval required for "

  /** Why a call is refused: only a tool that would otherwise run is told that it lacks approval, and any
      other refusal that is not a changed definition reads as a tool not found. */
  function Reason(setup: Setup, lookup: Lookup, name: string): string {
    if Changed(setup, lookup, name) then MISMATCH
    else if MayRun(setup.(modules := []), lookup, name) then UNAPPROVED + name
    else NOT_FOUND
  }

  /** One handled call: its number in the whole request, whether it ran, and the result recorded. */
  datatype Step = Step(call: ToolCall, at: nat, ran: bool, result: ToolResult)

  /** The call ran exactly when it was allowed to at that moment, under the limits of its validated tool.
      A refused call is answered with its own id, the reason and no output. */
  ghost predicate StepOk(setup: Setup, world: World, s: Step) {
    && (s.ran <==> MayRun(setup, world.registry(s.at), s.call.name))
    && if s.ran then
         match world.execute(s.at, s.call, Authorized(setup.validated)[s.call.name])
         case Ran(result) => s.result == result
         case ExecError(message) => s.result == ToolResult(s.call.id, "", message)
       else
         s.result == ToolResult(s.call.id, "", Reason(setup, world.registry(s.at), s.call.name))
  }

  /** The body of the loop over tool calls. Approval is asked for but never given. */
  method HandleCall(setup: Setup, world: World, call: ToolCall, at: nat) returns (step: Step)
    ensures step.call == call && step.at == at && StepOk(setup, world, step)
  {
    var authorized := Authorized(setup.validated);
    if call.name !in authorized {
      return Step(call, at, false, ToolResult(call.id, "", NOT_FOUND));
    }
    var tool := authorized[call.name];
    if setup.repository {
      match world.registry(at)(call.name) {
        case Absent =>
          return Step(call, at, false, ToolResult(call.id, "", NOT_FOUND));
        case RepositoryDown =>
          return Step(call, at, false, ToolResult(call.id, "", NOT_FOUND));
        case Found(def) =>
          if def.hash != tool.hash {
            return Step(call, at, false, ToolResult(call.id, "", MISMATCH));
          }
          if !def.active {
            return Step(call, at, false, ToolResult(call.id, "", NOT_FOUND));
          }
      }
    }
    if RequiresApproval(setup.modules, call.name) {
      return Step(call, at, false, ToolResult(call.id, "", UNAPPROVED + call.name));
    }
    match world.execute(at, call, tool) {
      case Ran(result) =>
        step := Step(call, at, true, result);
      case ExecError(message) =>
        step := Step(call, at, true, ToolResult(call.id, "", message));
    }
  }

  /** Position i is the last under the name; or the name does not occur, for i == |validated|. */
  ghost predicate IsLastNamed(validated: seq<ValidatedTool>, name: string, i: nat) {
    && i <= |validated|
    && (i < |validated| ==> validated[i].name == name)
    && (forall j :: (if i < |validated| then i else -1) < j < |validated| ==> validated[j].name != name)
  }

  lemma LastNamedHere(validated: seq<ValidatedTool>, name: string, i: nat)
    requires IsLastNamed(validated, name, i) && validated != []
    ensures i <= |validated| && (validated[|validated| - 1].name == name ==> i == |validated| - 1)
  {
  }

  lemma LastNamedEarlier(validated: seq<ValidatedTool>, name: string, i: nat)
    requires IsLastNamed(validated, name, i) && validated != [] && validated[|validated| - 1].name != name
    ensures var n := |validated| - 1; IsLastNamed(validated[..n], name, if i < n then i else n)
    ensures i != |validated| - 1
  {
  }

  lemma AuthorizedStep(validated: seq<ValidatedTool>)
    requires validated != []
    ensures var n := |validated| - 1;
            Authorized(validated) == Authorized(validated[..n])[validated[n].name := validated[n]]
  {
  }

  lemma {:induction false} AuthorizedIsLast(validated: seq<ValidatedTool>, name: string, i: nat)
    requires IsLastNamed(validated, name, i)
    ensures name in Authorized(validated) <==> i < |validated|
    ensures i < |validated| ==> Authorized(validated)[name] == validated[i]
    decreases |validated|
  {
    if validated != [] {
      var n := |validated| - 1;
      AuthorizedStep(validated);
      hide Authorized, IsLastNamed;
      LastNamedHere(validated, name, i);
      if validated[n].name != name {
        LastNamedEarlier(validated, name, i);
        AuthorizedIsLast(validated[..n], name, if i < n then i else n);
      }
    }
  }

  /** Position i is the first under the name; or the name does not occur, for i == |modules|. */
  ghost predicate IsFirstNamed(modules: seq<ToolModule>, name: string, i: nat) {
    && i <= |modules|
    && (forall j :: 0 <= j < i ==> modules[j].name != name)
    && (i < |modules| ==> modules[i].name == name)
  }

  lemma {:induction false} ApprovalIsFirst(modules: seq<ToolModule>, name: string, i: nat)
    requires IsFirstNamed(modules, name, i)
    ensures RequiresApproval(modules, name) <==> i < |modules| && modules[i].requiresApproval
    decreases |modules|
  {
    if i > 0 {
      assert modules[0].name != name;
      ApprovalIsFirst(modules[1..], name, i - 1);
    }
  }

  /** One call on the request's own fields: it runs exactly when its name was validated, the registry (if there
      is one) still holds it, active and under the validated hash, and the first module of its name, if any,
      asks for no approval. The executor is then handed the last tool validated under the name. */
  lemma RunsOnFields(setup: Setup, world: World, s: Step, i: nat, m: nat)
    requires StepOk(setup, world, s)
    requires IsLastNamed(setup.validated, s.call.name, i) && IsFirstNamed(setup.modules, s.call.name, m)
    ensures var found := world.registry(s.at)(s.call.name);
            s.ran <==>
              && i < |setup.validated|
              && (setup.repository ==> found.Found? && found.def.active && found.def.hash == setup.validated[i].hash)
              && !(m < |setup.modules| && setup.modules[m].requiresApproval)
    ensures s.ran ==>
              match world.execute(s.at, s.call, setup.validated[i])
              case Ran(result) => s.result == result
              case ExecError(message) => s.result == ToolResult(s.call.id, "", message)
  {
    AuthorizedIsLast(setup.validated, s.call.name, i);
    ApprovalIsFirst(setup.modules, s.call.name, m);
    hide Authorized, RequiresApproval, Reason;
  }

  /** What a call that did not run is told. */
  lemma RefusedBecause(setup: Setup, world: World, s: Step, i: nat)
    requires StepOk(setup, world, s) && !s.ran && IsLastNamed(setup.validated, s.call.name, i)
    ensures s.result.callId == s.call.id && s.result.output == ""
    ensures var found := world.registry(s.at)(s.call.name);
            s.result.error ==
              if i == |setup.validated| || (setup.repository && !found.Found?) then "tool not found"
              else if setup.repository && found.def.hash != setup.validated[i].hash then "tool definition mismatch"
              else if setup.repository && !found.def.active then "tool not found"
              else "HITL approval failed: HITL approval required for " + s.call.name
  {
    AuthorizedIsLast(setup.validated, s.call.name, i);
    hide Authorized;
    assert !RequiresApproval([], s.call.name);
    hide RequiresApproval;
  }

  method HandleCalls(setup: Setup, world: World, calls: seq<ToolCall>, start: nat) returns (steps: seq<Step>)
    ensures |steps| == |calls|
    ensures forall j :: 0 <= j < |calls| ==>
              steps[j].call == calls[j] && steps[j].at == start + j && StepOk(setup, world, steps[j])
  {
    hide StepOk;
    steps := [];
    for j := 0 to |calls|
      invariant |steps| == j
      invariant forall i :: 0 <= i < j ==>
                  steps[i].call == calls[i] && steps[i].at == start + i && StepOk(setup, world, steps[i])
    {
      var step := HandleCall(setup, world, calls[j], start + j);
      steps := steps + [step];
    }
  }

  // ---------------------------------------------------------------------------
  // The loop
  // ---------------------------------------------------------------------------

  datatype Choice = Choice(content: string, toolCalls: seq<ToolCall>, finishReason: string)

  datatype Completion = Completion(choices: seq<Choice>) {
    /** The calls the loop acts on: those of the first choice. */
    function Calls(): seq<ToolCall> {
      if choices == [] then [] else choices[0].toolCalls
    }

    function Stopped(): Completion {
      if choices == [] then this else Completion(choices[0 := choices[0].(finishReason := "max_iterations")])
    }
  }

  /** The messages of a recall: the original ones and one for each result of this round. Neither earlier
      rounds nor the model's own request for the tools is repeated. */
  ghost predicate IsFeed(original: seq<Message>, steps: seq<Step>, messages: seq<Message>) {
    && |messages| == |original| + |steps|
    && messages[..|original|] == original
    && forall i :: 0 <= i < |steps| ==>
         var r := steps[i].result; messages[|original| + i] == Message("tool", r.output, r.callId, r.callId)
  }

  method Feed(original: seq<Message>, steps: seq<Step>) returns (messages: seq<Message>)
    ensures IsFeed(original, steps, messages)
  {
    messages := original;
    for i := 0 to |steps|
      invariant IsFeed(original, steps[..i], messages)
    {
      var r := steps[i].result;
      messages := messages + [Message("tool", r.output, r.callId, r.callId)];
    }
    assert steps[..|steps|] == steps;
  }

  /** One iteration: the completion it started from, the calls it handled, and what the model was sent. */
  datatype Round = Round(from: Completion, steps: seq<Step>, sent: seq<Message>)

  function Handled(rounds: seq<Round>): nat {
    if rounds == [] then 0 else Handled(rounds[..|rounds| - 1]) + |rounds[|rounds| - 1].steps|
  }

  /** The completion in hand after the rounds: the initial one, or the answer to the last recall. */
  ghost predicate IsCurrent(world: World, initial: Completion, rounds: seq<Round>, current: Completion) {
    if rounds == [] then current == initial
    else world.recall(|rounds| - 1, rounds[|rounds| - 1].sent) == Replied(current)
  }

  /** A round that continues earlier ones: it starts from the completion in hand, handles each of its
      calls once, in order, each at its own moment, and feeds back exactly those results. */
  ghost predicate Continues(setup: Setup, world: World, initial: Completion, earlier: seq<Round>, r: Round) {
    && IsCurrent(world, initial, earlier, r.from)
    && |r.steps| == |r.from.Calls()| > 0
    && (forall j :: 0 <= j < |r.steps| ==>
          && r.steps[j].call == r.from.Calls()[j]
          && r.steps[j].at == Handled(earlier) + j
          && StepOk(setup, world, r.steps[j]))
    && IsFeed(setup.messages, r.steps, r.sent)
  }

  ghost predicate IsHistory(setup: Setup, world: World, initial: Completion, rounds: seq<Round>) {
    forall i :: 0 <= i < |rounds| ==> Continues(setup, world, initial, rounds[..i], rounds[i])
  }

  datatype LoopResult = Done(completion: Completion) | FeedFailed

  /** How a request may end: unchanged when no executor is configured; early only on a completion without
      tool calls or on a failed recall; at the limit with the first choice relabelled, whether or not the
      last answer still asks for tools. */
  ghost predicate Ends(setup: Setup, world: World, initial: Completion, rounds: seq<Round>, result: LoopResult) {
    match result
    case FeedFailed =>
      rounds != [] && world.recall(|rounds| - 1, rounds[|rounds| - 1].sent).RecallFailed?
    case Done(completion) =>
      if !setup.executor then rounds == [] && completion == initial
      else if |rounds| < setup.Limit() then
        IsCurrent(world, initial, rounds, completion) && completion.Calls() == []
      else
        exists current :: IsCurrent(world, initial, rounds, current) && completion == current.Stopped()
  }

  /** executeToolLoop. */
  method ExecuteToolLoop(setup: Setup, world: World, initial: Completion)
    returns (result: LoopResult, rounds: seq<Round>)
    ensures |rounds| <= setup.Limit() == if setup.maxIterations > 0 then setup.maxIterations else 5
    ensures IsHistory(setup, world, initial, rounds)
    ensures Ends(setup, world, initial, rounds, result)
  {
    hide StepOk, IsFeed;
    rounds := [];
    if !setup.executor {
      return Done(initial), rounds;
    }
    var current, handled := initial, 0;
    while |rounds| < setup.Limit()
      invariant |rounds| <= setup.Limit() && handled == Handled(rounds)
      invariant IsHistory(setup, world, initial, rounds) && IsCurrent(world, initial, rounds, current)
      decreases setup.Limit() - |rounds|
    {
      if current.Calls() == [] {
        break;
      }
      var steps := HandleCalls(setup, world, current.Calls(), handled);
      var sent := Feed(setup.messages, steps);
      var r := Round(current, steps, sent);
      HistoryGrows(setup, world, initial, rounds, r);
      handled := handled + |steps|;
      rounds := rounds + [r];
      match world.recall(|rounds| - 1, sent) {
        case RecallFailed =>
          return FeedFailed, rounds;
        case Replied(completion) =>
          current := completion;
      }
    }
    result := Done(if |rounds| >= setup.Limit() then current.Stopped() else current);
  }

  lemma HistoryGrows(setup: Setup, world: World, initial: Completion, rounds: seq<Round>, r: Round)
    requires IsHistory(setup, world, initial, rounds) && Continues(setup, world, initial, rounds, r)
    ensures IsHistory(setup, world, initial, rounds + [r])
    ensures Handled(rounds + [r]) == Handled(rounds) + |r.steps|
  {
    hide Continues;
    var grown := rounds + [r];
    assert grown[..|rounds|] == rounds;
    forall i | 0 <= i < |grown|
      ensures Continues(setup, world, initial, grown[..i], grown[i])
    {
      assert i < |rounds| ==> grown[..i] == rounds[..i];
    }
  }

  // ---------------------------------------------------------------------------
  // From request to execution
  // ---------------------------------------------------------------------------

  /** A tool runs in any round of a request only if the request described it, with a definition whose hash
      the registry's lookup gave, active, both when the request was validated and just before the run. The
      executor was handed the limits of a registry definition with that hash. */
  lemma RunMatchesRequest(hash: Hasher, lookups: nat -> Lookup, tools: seq<Tool>, origins: seq<nat>, setup: Setup,
                          world: World, initial: Completion, rounds: seq<Round>, i: nat, j: nat) returns (t: nat)
    requires IsValidation(hash, lookups, tools, |tools|, setup.validated, origins) && setup.repository
    requires IsHistory(setup, world, initial, rounds)
    requires i < |rounds| && j < |rounds[i].steps| && rounds[i].steps[j].ran
    ensures t < |tools| && IsFunction(tools[t]) && tools[t].name == rounds[i].steps[j].call.name
    ensures Endorsed(hash, lookups(t), tools[t])
    ensures Endorsed(hash, world.registry(rounds[i].steps[j].at), tools[t])
    ensures Authorized(setup.validated)[tools[t].name] == FromRegistry(lookups(t)(tools[t].name).def)
    ensures !RequiresApproval(setup.modules, tools[t].name)
  {
    hide IsValidation, Authorized, RequiresApproval, IsFeed, IsCurrent, Handled;
    assert Continues(setup, world, initial, rounds[..i], rounds[i]);
    t := AuthorizedOrigin(hash, lookups, tools, setup.validated, origins, rounds[i].steps[j].call.name);
  }

  /** The same down to the database. Where the lookup before a run is answered by GetByName in some state of a
      run of readers, writers and evictions, the definition it went by, with the hash the request asked for,
      was the database's answer at a version no older than the start of the read behind it; and it is no longer
      the current one exactly when a commit that this read did not see changed it for good. */
  lemma RunWasDatabaseAnswer(hash: Hasher, lookups: nat -> Lookup, tools: seq<Tool>, origins: seq<nat>, setup: Setup,
                             world: World, initial: Completion, rounds: seq<Round>, i: nat, j: nat, tenant: int,
                             states: seq<Races.State>, actions: seq<Races.Action>, n: nat)
    returns (t: nat, e: Races.Cached)
    requires IsValidation(hash, lookups, tools, |tools|, setup.validated, origins) && setup.repository
    requires IsHistory(setup, world, initial, rounds)
    requires i < |rounds| && j < |rounds[i].steps| && rounds[i].steps[j].ran
    requires Races.IsRun(states, actions) && n < |states|
    requires AnsweredIn(states[n], tenant, rounds[i].steps[j].call.name, world.registry(rounds[i].steps[j].at))
    ensures t < |tools| && IsFunction(tools[t]) && tools[t].name == rounds[i].steps[j].call.name
    ensures var s, k := states[n], Key(tenant, tools[t].name);
            && Races.Serves(s, k, e)
            && e.def.active && e.def.hash == hash(tools[t].name, tools[t].description, tools[t].parameters)
            && e.started <= e.readAt < |s.versions| && Races.Lookup(s.versions[e.readAt], k) == Some(e.def)
            && (s.Current(k) != Some(e.def) <==>
                  && (Races.InvalidationPending(s, e.readAt, k) || e.overtaken)
                  && !Races.Restored(s.versions, e.readAt, k, e.def))
  {
    hide IsValidation, IsHistory, Races.IsRun, Races.Serves, Races.Restored, Races.InvalidationPending;
    t := RunMatchesRequest(hash, lookups, tools, origins, setup, world, initial, rounds, i, j);
    var k := Key(tenant, tools[t].name);
    e :| Races.Serves(states[n], k, e) && e.def == world.registry(rounds[i].steps[j].at)(tools[t].name).def;
    Races.ServedIsOk(states, actions, n, k, e);
    Races.StaleAnswerIff(states, actions, n, k, e);
  }

  /** What the lookup finds under the name is what GetByName serves for the tenant in this state. */
  ghost predicate AnsweredIn(s: Races.State, tenant: int, name: string, lookup: Lookup) {
    lookup(name).Found? ==> exists e :: Races.Serves(s, Key(tenant, name), e) && e.def == lookup(name).def
  }

  /** An authorized name goes back to a function tool of the request. */
  lemma AuthorizedOrigin(hash: Hasher, lookups: nat -> Lookup, tools: seq<Tool>, validated: seq<ValidatedTool>,
                         origins: seq<nat>, name: string) returns (t: nat)
    requires IsValidation(hash, lookups, tools, |tools|, validated, origins) && name in Authorized(validated)
    ensures t < |tools| && IsFunction(tools[t]) && tools[t].name == name
    ensures ValidatedAs(hash, lookups(t), tools[t], Authorized(validated)[name])
  {
    hide Authorized, Endorsed;
    var tool := Authorized(validated)[name];
    assert tool in validated && tool.name == name;
    var k :| 0 <= k < |validated| && validated[k] == tool;
    t := origins[k];
    assert t in origins && ValidatedAs(hash, lookups(t), tools[t], tool);
    EndorsedName(hash, lookups(t), tools[t]);
  }

  lemma EndorsedName(hash: Hasher, lookup: Lookup, t: Tool)
    ensures Endorsed(hash, lookup, t) ==> lookup(t.name).def.key.name == t.name
  {
  }

  /** A tool that the registry no longer endorses from the n-th call on is refused in every later round,
      and its result carries no output. */
  lemma RevokedToolStopsRunning(setup: Setup, world: World, initial: Completion, rounds: seq<Round>,
                                name: string, n: nat, i: nat, j: nat)
    requires setup.repository && IsHistory(setup, world, initial, rounds)
    requires forall m: nat, tool :: m >= n && tool in setup.validated && tool.name == name
               ==> !StillEndorsed(world.registry(m), tool)
    requires i < |rounds| && j < |rounds[i].steps| && rounds[i].steps[j].call.name == name
    requires Handled(rounds[..i]) >= n
    ensures !rounds[i].steps[j].ran && rounds[i].steps[j].result.output == ""
  {
    assert Continues(setup, world, initial, rounds[..i], rounds[i]);
    assert StepOk(setup, world, rounds[i].steps[j]);
  }

  /** A model that asks for tools in every answer, and whose recalls never fail, is recalled exactly as often as
      configured, or five times if nothing positive is, and its last answer is returned with the label. */
  lemma RecalledUntilLimit(setup: Setup, world: World, initial: Completion, rounds: seq<Round>, result: LoopResult)
    requires setup.executor && |rounds| <= setup.Limit() && Ends(setup, world, initial, rounds, result)
    requires initial.choices != [] && initial.choices[0].toolCalls != []
    requires forall n: nat, m :: world.recall(n, m).Replied?
               && world.recall(n, m).completion.choices != []
               && world.recall(n, m).completion.choices[0].toolCalls != []
    ensures |rounds| == if setup.maxIterations > 0 then setup.maxIterations else 5
    ensures result.Done? && result.completion.choices != []
    ensures result.completion.choices[0].finishReason == "max_iterations"
  {
  }

  predicate Labelled(c: Completion) {
    c.choices != [] && c.choices[0].finishReason == "max_iterations"
  }

  /** Over every history: an answer that asks for no tools is returned with the label of a loop cut short
      exactly when the limit of recalls was used up and the last of them brought that answer, or when the
      model's answer carried the label itself. */
  lemma FinishedAnswerLabelledIff(setup: Setup, world: World, initial: Completion, rounds: seq<Round>,
                                  result: LoopResult)
    requires |rounds| <= setup.Limit() && Ends(setup, world, initial, rounds, result) && result.Done?
    ensures Labelled(result.completion) && result.completion.Calls() == [] <==>
              exists current :: && IsCurrent(world, initial, rounds, current)
                                && current.choices != [] && current.Calls() == []
                                && ((setup.executor && |rounds| == setup.Limit()) || Labelled(current))
    ensures setup.executor && |rounds| == setup.Limit() ==>
              exists current :: && world.recall(|rounds| - 1, rounds[|rounds| - 1].sent) == Replied(current)
                                && result.completion == current.Stopped()
  {
    if setup.executor && |rounds| == setup.Limit() {
      var current :| IsCurrent(world, initial, rounds, current) && result.completion == current.Stopped();
      assert world.recall(|rounds| - 1, rounds[|rounds| - 1].sent) == Replied(current);
    } else {
      assert IsCurrent(world, initial, rounds, result.completion);
    }
  }

  /** An answer with no tool calls left is still labelled as stopped by the limit when it arrives on the
      last permitted recall. */
  lemma FinishedAnswerMayBeLabelled() returns (setup: Setup, world: World, initial: Completion, round: Round,
                                               result: LoopResult)
    ensures IsHistory(setup, world, initial, [round]) && Ends(setup, world, initial, [round], result)
    ensures result.Done? && result.completion.choices != [] && result.completion.Calls() == []
    ensures result.completion.choices[0].finishReason == "max_iterations"
  {
    var call := ToolCall("1", "t", "{}");
    var answer := Completion([Choice("answer", [], "stop")]);
    setup := Setup(true, false, [], 1, [], []);
    world := World(n => (n => Absent), (n, c, v) => ExecError("no"), (n, m) => Replied(answer));
    initial := Completion([Choice("", [call], "tool_calls")]);
    var r := ToolResult("1", "", NOT_FOUND);
    round := Round(initial, [Step(call, 0, false, r)], [Message("tool", "", "1", "1")]);
    result := Done(answer.Stopped());
    assert IsCurrent(world, initial, [round], answer);
    assert Continues(setup, world, initial, [], round);
  }
}
