/**
 The world that a turn runs in: arbitrary answers, indexed by a clock that ticks at
 every question. In one world a turn can go one way only.
 */
module AgentWorld {
  import opened Common
  import opened Conversation
  import opened AgentTrace
  import opened AgentRequests
  import opened FreshResult
  import opened Pruning
  import Compaction

  datatype Env = Env(
    pool: nat -> bool,
    prompt: nat -> Result<string, string>,
    shed: (nat, seq<Message>) -> seq<Message>,
    summarise: nat -> Compaction.SummaryReply,
    reminders: nat -> seq<string>,
    reply: (nat, seq<Message>) -> Result<string, string>,
    guard: (nat, Signature) -> Option<string>,
    approve: (nat, ToolName) -> bool,
    dispatch: (nat, ToolName, Value, string) -> Result<string, string>,
    inspect: (nat, ToolName, Value, string) -> string,
    agent: (nat, string) -> Option<AgentDefinition>,
    save: (nat, ToolName, string) -> Option<string>)

  /** The dead-branch pruner removes messages and adds none. */
  ghost predicate ValidEnv(env: Env) {
    forall t, ms :: |env.shed(t, ms)| <= |ms|
  }

  /** Questions asked by a turn and its sub-turns. */
  function Ticks(trace: seq<Event>): nat
    decreases trace, 1
  {
    if trace == [] then 0 else Ticks(Init(trace)) + TicksOf(Last(trace))
  }

  function TicksOf(e: Event): nat
    decreases e, 0
  {
    match e
    case Started => 0
    case Append(_) => 0
    case Thinking(_) => 0
    case Nudge(_) => 0
    case ToolCall(_, _) => 0
    case ToolResult(_, _) => 0
    case Complete(_) => 0
    case Failed(_) => 0
    case Delegate(_, _, turn) => Ticks(turn)
    case _ => 1
  }

  /** The answers that the event reports are those the world gives at that time. */
  ghost predicate Answers(env: Env, e: Event, now: nat)
    decreases e, 0
  {
    match e
    case Provider(present) => present == env.pool(now)
    case Prompted(prompt) => prompt == env.prompt(now)
    case ShedBranches(before, after) => after == env.shed(now, before)
    case Pool(present) => present == env.pool(now)
    case SummaryRequest(candidate) => candidate == env.summarise(now)
    case Drained(reminders) => reminders == env.reminders(now)
    case Request(messages, reply) => reply == env.reply(now, messages)
    case Guard(signature, verdict) => verdict == env.guard(now, signature)
    case Approval(tool, granted) => granted == env.approve(now, tool)
    case Dispatch(tool, args, project, answer) => answer == env.dispatch(now, tool, args, project)
    case Inspect(tool, args, project, found) => found == env.inspect(now, tool, args, project)
    case Lookup(id, registered) => registered == env.agent(now, id)
    case Saved(tool, text, hint) => hint == env.save(now, tool, text)
    case Delegate(_, _, turn) => Answered(env, turn, now)
    case _ => true
  }

  /** Every answer in the trace of a turn begun at `start` is the world's. */
  ghost predicate Answered(env: Env, trace: seq<Event>, start: nat)
    decreases trace, 1
  {
    trace == [] || (Answered(env, Init(trace), start) && Answers(env, Last(trace), start + Ticks(Init(trace))))
  }

  lemma {:induction false} AnswersAt(env: Env, trace: seq<Event>, start: nat, k: nat)
    requires Answered(env, trace, start) && k < |trace|
    ensures Answers(env, trace[k], start + Ticks(trace[..k]))
    decreases |trace|
  {
    if k == |trace| - 1 {
      assert Init(trace) == trace[..k];
    } else {
      AnswersAt(env, Init(trace), start, k);
      assert Init(trace)[..k] == trace[..k];
    }
  }

  // -------------------------------------------------------------- uniqueness

  lemma OpeningIsUnique(cfg: Config, env: Env, p: Phase, a: Event, b: Event, now: nat)
    requires OpeningPhase(cfg, p, a).Some? && OpeningPhase(cfg, p, b).Some?
    requires Answers(env, a, now) && Answers(env, b, now)
    ensures a == b
  {
    hide AfterPrompt, AfterShedding, AfterSummary;
  }

  lemma DecisionIsUnique(cfg: Config, env: Env, content: string, reminder: Option<string>, a: Event, b: Event, now: nat)
    requires DecisionPhase(cfg, content, reminder, a).Some? && DecisionPhase(cfg, content, reminder, b).Some?
    requires Answers(env, a, now) && Answers(env, b, now)
    ensures a == b
  {
    hide Decide, Enter;
  }

  lemma ToolIsUnique(cfg: Config, env: Env, p: Phase, a: Event, b: Event, now: nat)
    requires ToolPhase(cfg, p, a).Some? && ToolPhase(cfg, p, b).Some?
    requires Answers(env, a, now) && Answers(env, b, now)
    ensures a == b
  {
    hide Enter, AfterLookup, AfterReport, Bounded, ResultMessages, Truncated, Obstacle;
  }

  lemma ReadyIsUnique(cfg: Config, env: Env, requests: nat, a: Event, b: Event, now: nat)
    requires ReadyPhase(cfg, requests, a).Some? && ReadyPhase(cfg, requests, b).Some?
    requires Answers(env, a, now) && Answers(env, b, now)
    ensures a == b
  {
  }

  lemma RequestIsUnique(env: Env, conversation: seq<Message>, a: Event, b: Event, now: nat)
    requires RequestPhase(conversation, a).Some? && RequestPhase(conversation, b).Some?
    requires Answers(env, a, now) && Answers(env, b, now)
    ensures a == b
  {
    hide Sent;
  }

  lemma DelegateIsUnique(cfg: Config, env: Env, call: Pending, due: AgentDefinition, a: Event, b: Event, now: nat)
    requires DelegatePhase(cfg, call, due, a).Some? && DelegatePhase(cfg, call, due, b).Some?
    requires Answers(env, a, now) && Answers(env, b, now)
    ensures a == b
    decreases a, 0
  {
    TurnIsUnique(SubConfig(cfg, due, a.task), env, a.turn, b.turn, now);
  }

  lemma NextIsUnique(cfg: Config, env: Env, s: State, a: Event, b: Event, now: nat)
    requires NextPhase(cfg, s, a).Some? && NextPhase(cfg, s, b).Some?
    requires Answers(env, a, now) && Answers(env, b, now)
    ensures a == b
    decreases a, 1
  {
    hide OpeningPhase, DecisionPhase, ToolPhase, DelegatePhase, ReadyPhase, RequestPhase, Answers;
    match s.phase {
      case Ready => ReadyIsUnique(cfg, env, s.requests, a, b, now);
      case Primed => RequestIsUnique(env, s.conversation, a, b, now);
      case Owing(_, _) =>
      case Replied(content) =>
        if ThoughtOf(cfg, content).None? {
          DecisionIsUnique(cfg, env, content, CompletionReminder(cfg, s.required, s.nudges), a, b, now);
        }
      case Thought(content) =>
        DecisionIsUnique(cfg, env, content, CompletionReminder(cfg, s.required, s.nudges), a, b, now);
      case Delegating(call, definition) => DelegateIsUnique(cfg, env, call, definition, a, b, now);
      case _ =>
        if InOpening(s.phase) {
          OpeningIsUnique(cfg, env, s.phase, a, b, now);
        } else {
          ToolIsUnique(cfg, env, s.phase, a, b, now);
        }
    }
  }

  lemma {:induction false} SamePrefix(cfg: Config, env: Env, a: seq<Event>, b: seq<Event>, start: nat, n: nat)
    requires Watch(cfg, a).Some? && Watch(cfg, b).Some? && Answered(env, a, start) && Answered(env, b, start)
    requires n <= |a| && n <= |b|
    ensures a[..n] == b[..n]
    decreases a, n
  {
    hide NextPhase, Answers, Answered, Watch;
    if n > 0 {
      SamePrefix(cfg, env, a, b, start, n - 1);
      StepAt(cfg, a, n - 1);
      StepAt(cfg, b, n - 1);
      AnswersAt(env, a, start, n - 1);
      AnswersAt(env, b, start, n - 1);
      NextIsUnique(cfg, env, StateAt(cfg, a, n - 1), a[n - 1], b[n - 1], start + Ticks(a[..n - 1]));
      assert a[..n] == a[..n - 1] + [a[n - 1]] && b[..n] == b[..n - 1] + [b[n - 1]];
    }
  }

  /** Two finished turns of one agent, on one request, begun at one time in one world, are the same, event by event. */
  lemma TurnIsUnique(cfg: Config, env: Env, a: seq<Event>, b: seq<Event>, start: nat)
    requires Ended(cfg, a).Some? && Ended(cfg, b).Some? && Answered(env, a, start) && Answered(env, b, start)
    ensures a == b
    decreases a, |a| + 1
  {
    hide Advance, Answers, Answered, Watch;
    var n: nat := if |a| < |b| then |a| else |b|;
    SamePrefix(cfg, env, a, b, start, n);
    OverAtTheEnd(cfg, a, n);
    OverAtTheEnd(cfg, b, n);
    assert a[..|a|] == a && b[..|b|] == b;
  }
}
