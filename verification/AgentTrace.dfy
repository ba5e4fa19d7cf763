/**
 Traces of agent turns. A trace lists, in order, what a turn shows its listeners,
 what it asks of the world around it, and what the world answers. `Watch` is a
 monitor that reads a trace one event at a time and knows, from the answers so far,
 which event must come next.
 */
module AgentTrace {
  import opened Common
  import opened Conversation
  import opened Assembly
  import opened Pruning
  import opened AgentRequests
  import opened FreshResult
  import Compaction

  datatype Autonomy = Manual | Assist | Auto

  /**
   A tool's name, sorted into the three families that the turn treats apart: the
   delegation tool, the four read-only inspection tools, and everything else.
   */
  datatype ToolName = DelegateTool | FileRead | Glob | Grep | KnowledgeSearch | DomainTool(name: string)
  {
    predicate IsInspection() {
      FileRead? || Glob? || Grep? || KnowledgeSearch?
    }
  }

  datatype CompletionRequirement = CompletionRequirement(tool: ToolName, reminder: string)

  datatype AgentDefinition = AgentDefinition(
    id: string,
    name: string,
    allowedTools: set<ToolName>,
    maxIterations: nat,
    autonomy: Autonomy,
    completionRequirement: Option<CompletionRequirement>)

  /** Tool arguments; their structure is left to `Config.validate` and `Config.argument`. */
  datatype Value = Null | Json(text: string)

  /** One decoded step of the model's plan. */
  datatype Step = Step(thought: Option<string>, tool: Option<ToolName>, args: Option<Value>,
                       finalAnswer: Option<string>)

  /** What the loop guard is told of a step. */
  datatype Signature = IncompleteStep | Call(tool: ToolName, args: Value)

  datatype Event =
    | Started
    | Provider(present: bool)
    | Prompted(prompt: Result<string, string>)
    | ShedBranches(before: seq<Message>, after: seq<Message>)
    | Pool(present: bool)
    | SummaryRequest(candidate: Compaction.SummaryReply)
    | Append(messages: seq<Message>)
    | Drained(reminders: seq<string>)
    | Request(messages: seq<Message>, reply: Result<string, string>)
    | Thinking(text: string)
    | Nudge(reminder: string)
    | Guard(signature: Signature, verdict: Option<string>)
    | ToolCall(name: ToolName, args: Value)
    | Approval(tool: ToolName, granted: bool)
    | Dispatch(tool: ToolName, args: Value, project: string, answer: Result<string, string>)
    | Inspect(tool: ToolName, args: Value, project: string, found: string)
    | Lookup(id: string, registered: Option<AgentDefinition>)
    | Delegate(definition: AgentDefinition, task: string, turn: seq<Event>)
    | ToolResult(name: ToolName, summary: string)
    | Saved(tool: ToolName, text: string, hint: Option<string>)
    | Complete(content: string)
    | Failed(message: string)

  /** Why a tool call produced an error instead of a result. */
  datatype Refusal =
    | ApprovalDeclined(agent: string, tool: ToolName)
    | NotPermitted(agent: string, tool: ToolName)
    | InvalidArguments(tool: ToolName, error: string)
    | NoWorkspace
    | NoProject
    | ToolFailed(error: string)
    | DepthExceeded
    | MissingArgument(name: string)
    | UnknownAgent(id: string)
    | SelfDelegation
    | SubTurnFailed(id: string, error: string)

  /** Fixed texts that the loop writes into a conversation or a result. */
  datatype Wording = Wording(
    reminderHeading: string,
    correction: string,
    resultPrefix: ToolName -> string,
    exhausted: string,
    noProvider: string,
    refusal: Refusal -> string)

  /**
   A turn: the agent that runs it, what it is asked, and how replies and arguments read.
   `validate` gives the schemas' objection to a tool call, if they have one.
   */
  datatype Config = Config(
    definition: AgentDefinition,
    project: Option<string>,
    depth: nat,
    history: seq<Message>,
    userMessage: string,
    parse: string -> Option<Step>,
    argument: (Value, string) -> Option<string>,
    validate: (ToolName, Value) -> Option<string>,
    wording: Wording)

  const MAX_DELEGATION_DEPTH := 1
  const MAX_COMPLETION_RECOVERIES := 2
  const SUMMARY_CHARS := 400

  function Iterations(definition: AgentDefinition): (n: nat)
    ensures n > 0
  {
    if definition.maxIterations == 0 then 1 else definition.maxIterations
  }

  function ReminderMessage(wording: Wording, reminder: string): Message {
    Message(User, wording.reminderHeading + reminder)
  }

  function ReminderMessages(wording: Wording, reminders: seq<string>): (ms: seq<Message>)
    ensures |ms| == |reminders| && forall i | 0 <= i < |ms| :: ms[i] == ReminderMessage(wording, reminders[i])
  {
    seq(|reminders|, i requires 0 <= i < |reminders| => ReminderMessage(wording, reminders[i]))
  }

  function Truncated(text: string, max: nat): string {
    if |text| <= max then text else text[..max] + ['\U{2026}']
  }

  /** The turn of a sub-agent that is given `task`. */
  function SubConfig(cfg: Config, definition: AgentDefinition, task: string): Config {
    cfg.(definition := definition, depth := cfg.depth + 1, history := [], userMessage := task)
  }

  // ------------------------------------------------------ what a reply asks for

  datatype Decision = Answer(text: string) | Incomplete | Act(tool: ToolName, args: Value)

  function Decide(cfg: Config, content: string): Decision {
    match cfg.parse(content)
    case None => Answer(content)
    case Some(step) =>
      if step.finalAnswer.Some? then Answer(step.finalAnswer.value)
      else if step.tool.None? then Incomplete
      else Act(step.tool.value, if step.args.Some? then step.args.value else Null)
  }

  /** The thought to show, if the reply has one that is not empty. */
  function ThoughtOf(cfg: Config, content: string): Option<string> {
    match cfg.parse(content)
    case None => None
    case Some(step) => if step.thought == Some("") then None else step.thought
  }

  /** What stands between a call and its tool, before anything outside the agent is asked. */
  function Obstacle(cfg: Config, tool: ToolName, args: Value): Option<Refusal> {
    if tool == DelegateTool then
      if tool !in cfg.definition.allowedTools then Some(NotPermitted(cfg.definition.name, tool))
      else if cfg.depth >= MAX_DELEGATION_DEPTH then Some(DepthExceeded)
      else if cfg.argument(args, "agent").None? then Some(MissingArgument("agent"))
      else if cfg.argument(args, "task").None? then Some(MissingArgument("task"))
      else None
    else if tool.IsInspection() then
      if cfg.project.None? then Some(NoWorkspace) else None
    else if tool !in cfg.definition.allowedTools then Some(NotPermitted(cfg.definition.name, tool))
    else if cfg.validate(tool, args).Some? then Some(InvalidArguments(tool, cfg.validate(tool, args).value))
    else if cfg.project.None? then Some(NoProject)
    else None
  }

  // ------------------------------------------------------------- the monitor

  /** A tool call on its way: the reply that asked for it, the tool and its arguments. */
  datatype Pending = Pending(content: string, tool: ToolName, args: Value)

  datatype Phase =
    | Fresh
    | Begun
    | Prompting
    | OverBudget(messages: seq<Message>)
    | Compacting(messages: seq<Message>)
    | Summarising(messages: seq<Message>, tries: nat)
    | Owing(messages: seq<Message>, primed: bool)
    | Ready
    | Primed
    | Replied(content: string)
    | Thought(content: string)
    | Calling(call: Pending)
    | Cleared(call: Pending)
    | Delegating(call: Pending, definition: AgentDefinition)
    | Acted(call: Pending, result: string)
    | Reported(call: Pending, result: string)
    | Saving(call: Pending, result: string)
    | Stopping(message: string)
    | Done(answer: string)
    | Broken(error: string)

  /**
   Where a turn stands: its phase, its conversation as pruned so far, what it has counted,
   and whether the tool it must call has been called.
   */
  datatype State = State(
    phase: Phase,
    conversation: seq<Message>,
    requests: nat,
    summaries: nat,
    delegations: nat,
    nudges: nat,
    required: bool)

  const INITIAL := State(Fresh, [], 0, 0, 0, 0, false)

  predicate Requires(cfg: Config, tool: ToolName) {
    cfg.definition.completionRequirement.Some? && cfg.definition.completionRequirement.value.tool == tool
  }

  /** The reminder to send back with, when an answer comes before the required tool was called. */
  function CompletionReminder(cfg: Config, toolCalled: bool, recoveries: nat): Option<string> {
    match cfg.definition.completionRequirement
    case None => None
    case Some(requirement) =>
      if !toolCalled && recoveries < MAX_COMPLETION_RECOVERIES then Some(requirement.reminder) else None
  }

  /** The reply that is to be acted on, once its thought has been shown. */
  function Deciding(cfg: Config, p: Phase): Option<string> {
    match p
    case Replied(content) => if ThoughtOf(cfg, content).None? then Some(content) else None
    case Thought(content) => Some(content)
    case _ => None
  }

  function Opening(cfg: Config, prompt: string): seq<Message> {
    [Message(System, prompt)] + cfg.history + [Message(User, cfg.userMessage)]
  }

  function AfterPrompt(cfg: Config, prompt: string): (p: Phase)
    ensures (p.Owing? && !p.primed) || p.OverBudget?
  {
    var opening := Opening(cfg, prompt);
    if TotalTokens(opening) <= DEFAULT_BUDGET_TOKENS then Owing(opening, false) else OverBudget(opening)
  }

  function AfterShedding(messages: seq<Message>): (p: Phase)
    ensures (p.Owing? && !p.primed) || p.Compacting?
  {
    if TotalTokens(messages) <= DEFAULT_BUDGET_TOKENS || |messages| <= Compaction.COMPACTION_RETAIN + 2
    then Owing(messages, false) else Compacting(messages)
  }

  function AfterSummary(messages: seq<Message>, tries: nat, reply: Compaction.SummaryReply): (p: Phase)
    ensures (p.Owing? && !p.primed) || p.Summarising?
  {
    if Compaction.Accepts(reply, Compaction.LabelledAll(Compaction.Middle(messages)))
    then Owing(Compaction.Splice(messages, reply.summary), false)
    else if tries + 1 < Compaction.MAX_RETRIES then Summarising(messages, tries + 1)
    else Owing(messages, false)
  }

  /** Acting on an announced call, granted if it had to be. */
  function Enter(cfg: Config, call: Pending): (p: Phase)
    ensures (p.Acted? || p.Cleared?) && p.call == call
  {
    match Obstacle(cfg, call.tool, call.args)
    case Some(refusal) => Acted(call, cfg.wording.refusal(refusal))
    case None => Cleared(call)
  }

  function AfterLookup(cfg: Config, call: Pending, id: string, registered: Option<AgentDefinition>): (p: Phase)
    ensures (p.Acted? || p.Delegating?) && p.call == call
  {
    match registered
    case None => Acted(call, cfg.wording.refusal(UnknownAgent(id)))
    case Some(definition) =>
      if definition.id == cfg.definition.id then Acted(call, cfg.wording.refusal(SelfDelegation))
      else Delegating(call, definition)
  }

  function SubTurnResult(cfg: Config, id: string, outcome: Result<string, string>): string {
    match outcome
    case Ok(answer) => answer
    case Err(error) => cfg.wording.refusal(SubTurnFailed(id, error))
  }

  /** What the conversation gains from a reported call: what the model said, and the bounded result. */
  function ResultMessages(cfg: Config, call: Pending, bounded: string): seq<Message> {
    [Message(Assistant, call.content), Message(Tool, cfg.wording.resultPrefix(call.tool) + bounded)]
  }

  function AfterReport(cfg: Config, call: Pending, result: string): (p: Phase)
    ensures (p.Owing? && !p.primed) || p.Saving?
  {
    if WantsSaving(call.tool == FileRead, result) then Saving(call, result)
    else Owing(ResultMessages(cfg, call, Bounded(result, None)), false)
  }

  /** How a turn has ended, if it has. */
  function Outcome(p: Phase): Option<Result<string, string>> {
    match p
    case Done(answer) => Some(Ok(answer))
    case Broken(error) => Some(Err(error))
    case _ => None
  }

  predicate InOpening(p: Phase) {
    p.Fresh? || p.Begun? || p.Prompting? || p.OverBudget? || p.Compacting? || p.Summarising?
  }

  predicate InTool(p: Phase) {
    p.Calling? || p.Cleared? || p.Delegating? || p.Acted? || p.Reported? || p.Saving?
  }

  /** The phase that opening events lead to, or nothing when the event is not due. */
  function OpeningPhase(cfg: Config, p: Phase, e: Event): (next: Option<Phase>)
    ensures next.Some? ==>
              InOpening(next.value) || (next.value.Owing? && !next.value.primed) || next.value.Broken?
  {
    match (p, e)
    case (Fresh, Started) => Some(Begun)
    case (Begun, Provider(present)) => Some(if present then Prompting else Broken(cfg.wording.noProvider))
    case (Prompting, Prompted(Ok(prompt))) => Some(AfterPrompt(cfg, prompt))
    case (Prompting, Prompted(Err(error))) => Some(Broken(error))
    case (OverBudget(messages), ShedBranches(before, after)) =>
      if before == messages && |after| <= |before| then Some(AfterShedding(after)) else None
    case (Compacting(messages), Pool(present)) =>
      Some(if present && Compaction.Middle(messages) != [] then Summarising(messages, 0) else Owing(messages, false))
    case (Summarising(messages, tries), SummaryRequest(reply)) => Some(AfterSummary(messages, tries, reply))
    case _ => None
  }

  /** The phase that an event between announcing a tool call and going on leads to. */
  function ToolPhase(cfg: Config, p: Phase, e: Event): (next: Option<Phase>)
    ensures next.Some? ==> var p := next.value;
            InTool(p) || (p.Owing? && !p.primed) || p.Stopping? || p.Done?
  {
    match (p, e)
    case (Calling(call), Approval(tool, granted)) =>
      if tool != call.tool then None
      else if granted then Some(Enter(cfg, call))
      else Some(Acted(call, cfg.wording.refusal(ApprovalDeclined(cfg.definition.name, tool))))
    case (Cleared(call), Dispatch(tool, args, project, answer)) =>
      if tool == call.tool && args == call.args && tool.DomainTool? && cfg.project == Some(project)
      then Some(Acted(call, if answer.Ok? then answer.value else cfg.wording.refusal(ToolFailed(answer.error))))
      else None
    case (Cleared(call), Inspect(tool, args, project, found)) =>
      if tool == call.tool && args == call.args && tool.IsInspection() && cfg.project == Some(project)
      then Some(Acted(call, found)) else None
    case (Cleared(call), Lookup(id, registered)) =>
      if call.tool == DelegateTool && cfg.argument(call.args, "agent") == Some(id)
      then Some(AfterLookup(cfg, call, id, registered)) else None
    case (Acted(call, result), ToolResult(name, summary)) =>
      if name == call.tool && summary == Truncated(result, SUMMARY_CHARS) then Some(Reported(call, result)) else None
    case (Reported(call, result), Guard(signature, verdict)) =>
      if signature != Call(call.tool, call.args) then None
      else if verdict.Some? then Some(Stopping(verdict.value))
      else Some(AfterReport(cfg, call, result))
    case (Saving(call, result), Saved(tool, text, hint)) =>
      if tool == call.tool && text == result
      then Some(Owing(ResultMessages(cfg, call, Bounded(result, hint)), false)) else None
    case (Stopping(due), Failed(message)) => if message == due then Some(Done(message)) else None
    case _ => None
  }

  /** The phase that a delegation leads to, once its turn is over. */
  ghost function DelegatePhase(cfg: Config, call: Pending, due: AgentDefinition, e: Event): (next: Option<Phase>)
    ensures next.Some? ==> e.Delegate? && next.value.Acted? && next.value.call == call
    decreases e, 0
  {
    if e.Delegate? && e.definition == due && cfg.argument(call.args, "task") == Some(e.task) then
      match Ended(SubConfig(cfg, due, e.task), e.turn)
      case None => None
      case Some(outcome) => Some(Acted(call, SubTurnResult(cfg, Named(cfg, call.args), outcome)))
    else None
  }

  /** The agent that a delegation names. */
  function Named(cfg: Config, args: Value): string {
    if cfg.argument(args, "agent").Some? then cfg.argument(args, "agent").value else ""
  }

  /** The phase that acting on the reply `content` leads to, when an answer is to be met with `reminder`, if any. */
  function DecisionPhase(cfg: Config, content: string, reminder: Option<string>, e: Event): (next: Option<Phase>)
    ensures next.Some? ==> var p := next.value;
            (p.Owing? && !p.primed) || p.Stopping? || p.Done? || ((p.Calling? || p.Cleared? || p.Acted?) && e.ToolCall?)
  {
    match (Decide(cfg, content), e)
    case (Answer(text), Complete(shown)) => if shown == text && reminder.None? then Some(Done(text)) else None
    case (Answer(text), Nudge(due)) =>
      if reminder == Some(due)
      then Some(Owing([Message(Assistant, text), ReminderMessage(cfg.wording, due)], false)) else None
    case (Incomplete, Guard(signature, verdict)) =>
      if signature != IncompleteStep then None
      else if verdict.Some? then Some(Stopping(verdict.value))
      else Some(Owing([Message(Assistant, content), Message(User, cfg.wording.correction)], false))
    case (Act(tool, args), ToolCall(name, given)) =>
      if name == tool && given == args then
        var call := Pending(content, tool, args);
        Some(if cfg.definition.autonomy == Manual then Calling(call) else Enter(cfg, call))
      else None
    case _ => None
  }

  /** Between two iterations: the next one begins, or the limit has been reached. */
  function ReadyPhase(cfg: Config, requests: nat, e: Event): (next: Option<Phase>)
    ensures next.Some? ==> (next.value.Owing? && next.value.primed && e.Drained?) || next.value.Done?
  {
    match e
    case Drained(reminders) =>
      if requests < Iterations(cfg.definition)
      then Some(Owing(ReminderMessages(cfg.wording, reminders), true)) else None
    case Complete(content) =>
      if requests >= Iterations(cfg.definition) && content == cfg.wording.exhausted then Some(Done(content)) else None
    case _ => None
  }

  /** The request that is due for the conversation, and its reply. */
  function RequestPhase(conversation: seq<Message>, e: Event): (next: Option<Phase>)
    ensures next.Some? ==> next.value.Replied? || next.value.Broken?
  {
    if e.Request? && e.messages == Sent(conversation)
    then Some(if e.reply.Ok? then Replied(e.reply.value) else Broken(e.reply.error)) else None
  }

  /** The phase that an event leads to, or nothing when it is not due. */
  ghost function NextPhase(cfg: Config, s: State, e: Event): Option<Phase>
    decreases e, 1
  {
    match s.phase
    case Ready => ReadyPhase(cfg, s.requests, e)
    case Primed => RequestPhase(s.conversation, e)
    case Owing(messages, primed) => if e == Append(messages) then Some(if primed then Primed else Ready) else None
    case Replied(content) =>
      if ThoughtOf(cfg, content).None? then
        DecisionPhase(cfg, content, CompletionReminder(cfg, s.required, s.nudges), e)
      else if e == Thinking(ThoughtOf(cfg, content).value) then Some(Thought(content))
      else None
    case Thought(content) => DecisionPhase(cfg, content, CompletionReminder(cfg, s.required, s.nudges), e)
    case Delegating(call, due) => DelegatePhase(cfg, call, due, e)
    case _ => if InOpening(s.phase) then OpeningPhase(cfg, s.phase, e) else ToolPhase(cfg, s.phase, e)
  }

  /** What an event counts as, whatever phase it leads to. */
  function Counted(cfg: Config, s: State, e: Event, next: Phase): State {
    State(
      next,
      if e.Append? then s.conversation + e.messages else if e.Request? then Pruned(s.conversation) else s.conversation,
      s.requests + (if e.Request? then 1 else 0),
      s.summaries + (if e.SummaryRequest? then 1 else 0),
      s.delegations + (if e.Delegate? then 1 else 0),
      s.nudges + (if e.Nudge? then 1 else 0),
      s.required || (e.ToolCall? && Requires(cfg, e.name)))
  }

  /** One event, in the given state: the next state, or nothing when the event is not due there. */
  ghost function Advance(cfg: Config, s: State, e: Event): Option<State>
    decreases e, 2
  {
    match NextPhase(cfg, s, e)
    case None => None
    case Some(next) => Some(Counted(cfg, s, e, next))
  }

  /** The monitor's state after a trace, or nothing if some event was not due. */
  ghost function Watch(cfg: Config, trace: seq<Event>): Option<State>
    decreases trace, 3
  {
    if trace == [] then Some(INITIAL)
    else
      match Watch(cfg, Init(trace))
      case None => None
      case Some(s) => Advance(cfg, s, Last(trace))
  }

  /** How the turn with this trace ended, or nothing when it is not over or was not accepted. */
  ghost function Ended(cfg: Config, trace: seq<Event>): Option<Result<string, string>>
    decreases trace, 4
  {
    match Watch(cfg, trace)
    case None => None
    case Some(s) => Outcome(s.phase)
  }

  // ------------------------------------------------------------- positions

  lemma {:induction false} PrefixAccepted(cfg: Config, trace: seq<Event>, k: nat)
    requires Watch(cfg, trace).Some? && k <= |trace|
    ensures Watch(cfg, trace[..k]).Some?
    decreases |trace|
  {
    hide Advance;
    if k == |trace| {
      assert trace[..k] == trace;
    } else {
      PrefixAccepted(cfg, Init(trace), k);
      assert Init(trace)[..k] == trace[..k];
    }
  }

  /** The monitor's state before the event at `k`. */
  ghost function StateAt(cfg: Config, trace: seq<Event>, k: nat): State
    requires Watch(cfg, trace).Some? && k <= |trace|
  {
    PrefixAccepted(cfg, trace, k);
    Watch(cfg, trace[..k]).value
  }

  lemma StepAt(cfg: Config, trace: seq<Event>, k: nat)
    requires Watch(cfg, trace).Some? && k < |trace|
    ensures Advance(cfg, StateAt(cfg, trace, k), trace[k]) == Some(StateAt(cfg, trace, k + 1))
    ensures NextPhase(cfg, StateAt(cfg, trace, k), trace[k]) == Some(StateAt(cfg, trace, k + 1).phase)
    ensures StateAt(cfg, trace, k + 1) ==
            Counted(cfg, StateAt(cfg, trace, k), trace[k], StateAt(cfg, trace, k + 1).phase)
  {
    hide NextPhase;
    PrefixAccepted(cfg, trace, k + 1);
    assert Init(trace[..k + 1]) == trace[..k] && Last(trace[..k + 1]) == trace[k];
  }

  lemma FirstState(cfg: Config, trace: seq<Event>)
    requires Watch(cfg, trace).Some?
    ensures StateAt(cfg, trace, 0) == INITIAL
    ensures StateAt(cfg, trace, |trace|) == Watch(cfg, trace).value
  {
    hide Advance;
    assert trace[..|trace|] == trace && trace[..0] == [];
  }

  /** A turn that is over goes no further, so every earlier position is followed by an event. */
  lemma OverAtTheEnd(cfg: Config, trace: seq<Event>, k: nat)
    requires Ended(cfg, trace).Some? && k <= |trace|
    ensures Outcome(StateAt(cfg, trace, k).phase).Some? <==> k == |trace|
  {
    FirstState(cfg, trace);
    if k < |trace| {
      StepAt(cfg, trace, k);
      OverMeansOver(cfg, StateAt(cfg, trace, k), trace[k]);
    }
  }

  lemma OverMeansOver(cfg: Config, s: State, e: Event)
    ensures Outcome(s.phase).Some? ==> Advance(cfg, s, e).None?
  {
  }
}
