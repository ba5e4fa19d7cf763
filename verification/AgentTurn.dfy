/**
 One turn of the agent: reason, call tools, delegate, and answer. The turn is run
 against an arbitrary world; its trace is one the monitor accepts to the end, with
 the world's own answers in it, so it is the only such trace.
 */
module AgentTurn {
  import opened Common
  import opened Conversation
  import opened Assembly
  import opened Pruning
  import opened FreshResult
  import opened AgentRequests
  import opened AgentTrace
  import opened AgentWorld
  import opened AgentRuns
  import AgentSafety
  import Compaction

  // ------------------------------------------------------------------ pieces

  method Truncate(text: string, max: nat) returns (r: string)
    ensures r == Truncated(text, max)
  {
    if |text| <= max {
      return text;
    }
    return text[..max] + ['\U{2026}'];
  }

  /** Bound a result; only an oversized one, and never the read tool's, is offered to the store. */
  method BoundFreshResult(env: Env, tool: ToolName, result: string, now: nat)
    returns (bounded: string, saved: Option<Event>)
    ensures WantsSaving(tool == FileRead, result) ==>
              saved == Some(Saved(tool, result, env.save(now, tool, result))) &&
              bounded == Bounded(result, env.save(now, tool, result))
    ensures !WantsSaving(tool == FileRead, result) ==> saved == None && bounded == Bounded(result, None)
  {
    hide Utf8Length, PreviewAround, PreviewNotice;
    saved := None;
    var capped := Capped(result);
    if capped.None? {
      return result, saved;
    }
    if tool == FileRead {
      return capped.value, saved;
    }
    var hint := env.save(now, tool, result);
    saved := Some(Saved(tool, result, hint));
    if hint.None? {
      return capped.value, saved;
    }
    var preview := PreviewReplacing(result, MAX_FRESH_TOOL_RESULT_CHARS, hint.value);
    if preview.None? {
      return capped.value, saved;
    }
    return preview.value, saved;
  }

  method RemindersToMessages(wording: Wording, reminders: seq<string>) returns (ms: seq<Message>)
    ensures ms == ReminderMessages(wording, reminders)
  {
    ms := [];
    for i := 0 to |reminders|
      invariant |ms| == i && forall j | 0 <= j < i :: ms[j] == ReminderMessage(wording, reminders[j])
    {
      ms := ms + [ReminderMessage(wording, reminders[i])];
    }
  }

  /** Prune and trim the conversation, and convert the copy that is sent. */
  method BuildRequest(messages: seq<Message>) returns (pruned: seq<Message>, request: seq<Message>)
    ensures pruned == Pruned(messages) && request == Sent(messages)
  {
    var a := new Message[|messages|](i requires 0 <= i < |messages| => messages[i]);
    assert a[..] == messages;
    PruneToolResultsByAge(a);
    pruned := a[..];
    var trimmed := Assemble(pruned, DEFAULT_BUDGET_TOKENS);
    request := ConvertForProvider(trimmed);
  }

  method ConvertForProvider(messages: seq<Message>) returns (view: seq<Message>)
    ensures view == ProviderView(messages)
  {
    view := [];
    for i := |messages| downto 0
      invariant view == ProviderView(messages[i..])
    {
      var m := messages[i];
      if m.role == Tool {
        m := m.(role := User);
      }
      view := [m] + view;
      assert messages[i..][1..] == messages[i + 1..];
    }
    assert messages[0..] == messages;
  }

  // -------------------------------------------------------- growing a trace

  /** The trace leads to `s`, its answers are the world's, and it is now `now`. */
  ghost predicate Leads(cfg: Config, env: Env, start: nat, trace: seq<Event>, s: State, now: nat) {
    Watch(cfg, trace) == Some(s) && Answered(env, trace, start) && now == start + Ticks(trace)
  }

  /** An event that is due, with the world's answer in it, may be appended. */
  lemma Grow(cfg: Config, env: Env, start: nat, trace: seq<Event>, s: State, now: nat, e: Event, p: Phase)
    requires Leads(cfg, env, start, trace, s, now) && NextPhase(cfg, s, e) == Some(p) && Answers(env, e, now)
    ensures Leads(cfg, env, start, trace + [e], Counted(cfg, s, e, p), now + TicksOf(e))
  {
    hide NextPhase, Answers, TicksOf;
    assert Init(trace + [e]) == trace && Last(trace + [e]) == e;
    assert Advance(cfg, s, e) == Some(Counted(cfg, s, e, p));
  }

  lemma GrowOpening(cfg: Config, env: Env, start: nat, trace: seq<Event>, s: State, now: nat, e: Event, p: Phase)
    requires Leads(cfg, env, start, trace, s, now) && Answers(env, e, now)
    requires InOpening(s.phase) && OpeningPhase(cfg, s.phase, e) == Some(p)
    ensures Leads(cfg, env, start, trace + [e], Counted(cfg, s, e, p), now + TicksOf(e))
  {
    hide Leads, OpeningPhase, Answers, TicksOf, Counted;
    Grow(cfg, env, start, trace, s, now, e, p);
  }

  lemma GrowTool(cfg: Config, env: Env, start: nat, trace: seq<Event>, s: State, now: nat, e: Event, p: Phase)
    requires Leads(cfg, env, start, trace, s, now) && Answers(env, e, now)
    requires (InTool(s.phase) || s.phase.Stopping?) && !s.phase.Delegating? && ToolPhase(cfg, s.phase, e) == Some(p)
    ensures Leads(cfg, env, start, trace + [e], Counted(cfg, s, e, p), now + TicksOf(e))
  {
    hide Leads, ToolPhase, Answers, TicksOf, Counted;
    Grow(cfg, env, start, trace, s, now, e, p);
  }

  lemma GrowDecision(cfg: Config, env: Env, start: nat, trace: seq<Event>, s: State, now: nat, e: Event, p: Phase)
    requires Leads(cfg, env, start, trace, s, now) && Answers(env, e, now) && Deciding(cfg, s.phase).Some?
    requires Some(p) ==
             DecisionPhase(cfg, Deciding(cfg, s.phase).value, CompletionReminder(cfg, s.required, s.nudges), e)
    ensures Leads(cfg, env, start, trace + [e], Counted(cfg, s, e, p), now + TicksOf(e))
  {
    hide Leads, DecisionPhase, ThoughtOf, CompletionReminder, Answers, TicksOf, Counted;
    Grow(cfg, env, start, trace, s, now, e, p);
  }

  lemma GrowThinking(cfg: Config, env: Env, start: nat, trace: seq<Event>, s: State, now: nat, content: string)
    requires Leads(cfg, env, start, trace, s, now) && s.phase == Replied(content) && ThoughtOf(cfg, content).Some?
    ensures var e := Thinking(ThoughtOf(cfg, content).value);
            Leads(cfg, env, start, trace + [e], Counted(cfg, s, e, Thought(content)), now)
  {
    hide Leads, ThoughtOf, Counted, DecisionPhase;
    Grow(cfg, env, start, trace, s, now, Thinking(ThoughtOf(cfg, content).value), Thought(content));
  }

  /** Local state of the loop. */
  datatype Loop = Loop(messages: seq<Message>, trace: seq<Event>, requiredToolCalled: bool, recoveries: nat, now: nat)

  /** The loop's variables are where its trace leads. */
  ghost predicate On(cfg: Config, env: Env, start: nat, l: Loop, s: State) {
    && Leads(cfg, env, start, l.trace, s, l.now)
    && l.messages == s.conversation && l.requiredToolCalled == s.required && l.recoveries == s.nudges
  }

  /** Append what is due to the conversation. */
  method Extend(cfg: Config, env: Env, ghost start: nat, l: Loop, due: seq<Message>, ghost s: State)
    returns (l': Loop)
    requires On(cfg, env, start, l, s) && s.phase.Owing? && s.phase.messages == due
    ensures On(cfg, env, start, l', s.(phase := if s.phase.primed then Primed else Ready,
                                       conversation := s.conversation + due))
  {
    hide Leads, Watch, Answered;
    Grow(cfg, env, start, l.trace, s, l.now, Append(due), if s.phase.primed then Primed else Ready);
    l' := l.(messages := l.messages + due, trace := l.trace + [Append(due)]);
  }

  // ------------------------------------------------------------------- tools

  /** Run one announced tool call: ask for approval if manual, then act or explain why not. */
  method Perform(cfg: Config, env: Env, ghost start: nat, call: Pending, before: seq<Event>, now: nat, ghost s: State)
    returns (result: string, trace: seq<Event>, later: nat, ghost s': State)
    requires ValidEnv(env) && Leads(cfg, env, start, before, s, now)
    requires s.phase == if cfg.definition.autonomy == Manual then Calling(call) else Enter(cfg, call)
    ensures Leads(cfg, env, start, trace, s', later)
    ensures s' == s.(phase := Acted(call, result), delegations := s'.delegations)
    decreases MAX_DELEGATION_DEPTH - cfg.depth, 1
  {
    hide Leads, Enter, Obstacle;
    trace, later, s' := before, now, s;
    if cfg.definition.autonomy == Manual {
      var e := Approval(call.tool, env.approve(later, call.tool));
      ghost var refused := Acted(call, cfg.wording.refusal(ApprovalDeclined(cfg.definition.name, call.tool)));
      ghost var p := if e.granted then Enter(cfg, call) else refused;
      GrowTool(cfg, env, start, trace, s, later, e, p);
      trace, later, s' := trace + [e], later + 1, Counted(cfg, s, e, p);
      if !e.granted {
        result := cfg.wording.refusal(ApprovalDeclined(cfg.definition.name, call.tool));
        return;
      }
    }
    result, trace, later, s' := PerformGranted(cfg, env, start, call, trace, later, s');
  }

  /** Run a granted call, or explain why not. */
  method PerformGranted(cfg: Config, env: Env, ghost start: nat, call: Pending, before: seq<Event>, now: nat,
                        ghost s: State)
    returns (result: string, trace: seq<Event>, later: nat, ghost s': State)
    requires ValidEnv(env) && Leads(cfg, env, start, before, s, now) && s.phase == Enter(cfg, call)
    ensures Leads(cfg, env, start, trace, s', later)
    ensures s' == s.(phase := Acted(call, result), delegations := s'.delegations)
    decreases MAX_DELEGATION_DEPTH - cfg.depth, 0, 1
  {
    hide Leads, NextPhase, OpeningPhase, DecisionPhase;
    trace, later, s' := before, now, s;
    var tool, args := call.tool, call.args;
    if tool == DelegateTool {
      if tool !in cfg.definition.allowedTools {
        result := cfg.wording.refusal(NotPermitted(cfg.definition.name, tool));
        return;
      }
      result, trace, later, s' := HandleDelegate(cfg, env, start, call, trace, later, s');
    } else if tool.IsInspection() {
      match cfg.project {
        case Some(project) =>
          result := env.inspect(later, tool, args, project);
          trace, later, s' := Consult(cfg, env, start, trace, s', later, Inspect(tool, args, project, result), result);
        case None =>
          result := cfg.wording.refusal(NoWorkspace);
      }
    } else if tool !in cfg.definition.allowedTools {
      result := cfg.wording.refusal(NotPermitted(cfg.definition.name, tool));
    } else if cfg.validate(tool, args).Some? {
      result := cfg.wording.refusal(InvalidArguments(tool, cfg.validate(tool, args).value));
    } else {
      match cfg.project {
        case Some(project) =>
          var answer := env.dispatch(later, tool, args, project);
          match answer {
            case Ok(response) => result := response;
            case Err(error) => result := cfg.wording.refusal(ToolFailed(error));
          }
          trace, later, s' := Consult(cfg, env, start, trace, s', later, Dispatch(tool, args, project, answer), result);
        case None =>
          result := cfg.wording.refusal(NoProject);
      }
    }
  }

  /** Note the world's answer to a call that was cleared. */
  method Consult(cfg: Config, env: Env, ghost start: nat, before: seq<Event>, ghost s: State, now: nat, e: Event,
                 ghost result: string)
    returns (trace: seq<Event>, later: nat, ghost s': State)
    requires Leads(cfg, env, start, before, s, now) && s.phase.Cleared? && (e.Dispatch? || e.Inspect?)
    requires Answers(env, e, now) && ToolPhase(cfg, s.phase, e) == Some(Acted(s.phase.call, result))
    ensures Leads(cfg, env, start, trace, s', later) && s' == s.(phase := Acted(s.phase.call, result))
  {
    hide Leads, ToolPhase;
    GrowTool(cfg, env, start, before, s, now, e, Acted(s.phase.call, result));
    return before + [e], now + 1, Counted(cfg, s, e, Acted(s.phase.call, result));
  }

  /** Run a scoped task on another agent; any problem becomes the tool's result. */
  method HandleDelegate(cfg: Config, env: Env, ghost start: nat, call: Pending, before: seq<Event>, now: nat,
                        ghost s: State)
    returns (result: string, trace: seq<Event>, later: nat, ghost s': State)
    requires ValidEnv(env) && Leads(cfg, env, start, before, s, now) && s.phase == Enter(cfg, call)
    requires call.tool == DelegateTool && call.tool in cfg.definition.allowedTools
    ensures Leads(cfg, env, start, trace, s', later)
    ensures s' == s.(phase := Acted(call, result), delegations := s'.delegations)
    decreases MAX_DELEGATION_DEPTH - cfg.depth, 0, 0
  {
    hide Leads, NextPhase, OpeningPhase, DecisionPhase, Ended, Answered, Ticks;
    trace, later, s' := before, now, s;
    if cfg.depth >= MAX_DELEGATION_DEPTH {
      result := cfg.wording.refusal(DepthExceeded);
      return;
    }
    var id, task := cfg.argument(call.args, "agent"), cfg.argument(call.args, "task");
    if id.None? {
      result := cfg.wording.refusal(MissingArgument("agent"));
      return;
    }
    if task.None? {
      result := cfg.wording.refusal(MissingArgument("task"));
      return;
    }
    var e := Lookup(id.value, env.agent(later, id.value));
    ghost var p := AfterLookup(cfg, call, id.value, e.registered);
    GrowTool(cfg, env, start, trace, s, later, e, p);
    trace, later, s' := trace + [e], later + 1, Counted(cfg, s, e, p);
    if e.registered.None? {
      result := cfg.wording.refusal(UnknownAgent(id.value));
      return;
    }
    var definition := e.registered.value;
    if definition.id == cfg.definition.id {
      result := cfg.wording.refusal(SelfDelegation);
      return;
    }
    var outcome, turn, end := RunTurn(SubConfig(cfg, definition, task.value), env, later);
    var d := Delegate(definition, task.value, turn);
    match outcome {
      case Ok(answer) => result := answer;
      case Err(error) => result := cfg.wording.refusal(SubTurnFailed(id.value, error));
    }
    GrowDelegate(cfg, env, start, trace, s', later, call, d, outcome);
    trace, later, s' := trace + [d], end, Counted(cfg, s', d, Acted(call, result));
  }

  /** A finished sub-turn is what a delegation waits for. */
  lemma GrowDelegate(cfg: Config, env: Env, start: nat, trace: seq<Event>, s: State, now: nat, call: Pending, e: Event,
                     outcome: Result<string, string>)
    requires Leads(cfg, env, start, trace, s, now)
    requires e.Delegate? && s.phase == Delegating(call, e.definition) && cfg.argument(call.args, "task") == Some(e.task)
    requires Ended(SubConfig(cfg, e.definition, e.task), e.turn) == Some(outcome) && Answered(env, e.turn, now)
    ensures var p := Acted(call, SubTurnResult(cfg, Named(cfg, call.args), outcome));
            Leads(cfg, env, start, trace + [e], Counted(cfg, s, e, p), now + Ticks(e.turn))
  {
    hide Leads, Ended, Counted, SubTurnResult, Named;
    var p := Acted(call, SubTurnResult(cfg, Named(cfg, call.args), outcome));
    assert DelegatePhase(cfg, call, e.definition, e) == Some(p);
    Grow(cfg, env, start, trace, s, now, e, p);
  }

  // -------------------------------------------------------------------- loop

  /** The loop goes on to the next iteration, or the turn has ended. */
  ghost predicate Continues(cfg: Config, env: Env, start: nat, l: Loop, ending: Option<Result<string, string>>,
                            s: State, requests: nat) {
    && On(cfg, env, start, l, s)
    && match ending
       case None => s.phase == Ready && s.requests == requests
       case Some(r) => Outcome(s.phase) == Some(r)
  }

  /** Accept `text` as the answer, or send the model back to the tool it must call. */
  method Finish(cfg: Config, env: Env, ghost start: nat, l: Loop, text: string, ghost content: string, ghost s: State)
    returns (l': Loop, ending: Option<Result<string, string>>, ghost s': State)
    requires On(cfg, env, start, l, s) && Deciding(cfg, s.phase) == Some(content)
    requires Decide(cfg, content) == Answer(text)
    ensures Continues(cfg, env, start, l', ending, s', s.requests)
  {
    hide Leads;
    match CompletionReminder(cfg, l.requiredToolCalled, l.recoveries) {
      case Some(reminder) =>
        var due := [Message(Assistant, text), ReminderMessage(cfg.wording, reminder)];
        GrowDecision(cfg, env, start, l.trace, s, l.now, Nudge(reminder), Owing(due, false));
        s' := Counted(cfg, s, Nudge(reminder), Owing(due, false));
        l' := l.(trace := l.trace + [Nudge(reminder)], recoveries := l.recoveries + 1);
        l' := Extend(cfg, env, start, l', due, s');
        return l', None, s'.(phase := Ready, conversation := s'.conversation + due);
      case None =>
        GrowDecision(cfg, env, start, l.trace, s, l.now, Complete(text), Done(text));
        return l.(trace := l.trace + [Complete(text)]), Some(Ok(text)), Counted(cfg, s, Complete(text), Done(text));
    }
  }

  /** Stop the turn on the guard's verdict. */
  method Stop(cfg: Config, env: Env, ghost start: nat, l: Loop, message: string, ghost s: State)
    returns (l': Loop, ghost s': State)
    requires On(cfg, env, start, l, s) && s.phase == Stopping(message)
    ensures On(cfg, env, start, l', s') && s'.phase == Done(message)
  {
    hide Leads, NextPhase, OpeningPhase, DecisionPhase;
    GrowTool(cfg, env, start, l.trace, s, l.now, Failed(message), Done(message));
    s' := Counted(cfg, s, Failed(message), Done(message));
    l' := l.(trace := l.trace + [Failed(message)]);
  }

  /** A step with neither a tool nor an answer is corrected, unless the guard stops the turn. */
  method Correct(cfg: Config, env: Env, ghost start: nat, l: Loop, content: string, ghost s: State)
    returns (l': Loop, ending: Option<Result<string, string>>, ghost s': State)
    requires On(cfg, env, start, l, s) && Deciding(cfg, s.phase) == Some(content) && Decide(cfg, content) == Incomplete
    ensures Continues(cfg, env, start, l', ending, s', s.requests)
  {
    hide Leads;
    var e := Guard(IncompleteStep, env.guard(l.now, IncompleteStep));
    var due := [Message(Assistant, content), Message(User, cfg.wording.correction)];
    ghost var p := if e.verdict.Some? then Stopping(e.verdict.value) else Owing(due, false);
    GrowDecision(cfg, env, start, l.trace, s, l.now, e, p);
    s' := Counted(cfg, s, e, p);
    l' := l.(trace := l.trace + [e], now := l.now + 1);
    match e.verdict {
      case Some(message) =>
        l', s' := Stop(cfg, env, start, l', message, s');
        ending := Some(Ok(message));
      case None =>
        l' := Extend(cfg, env, start, l', due, s');
        s' := s'.(phase := Ready, conversation := s'.conversation + due);
        ending := None;
    }
  }

  /** Announce and run a tool call, report it, and go on unless the guard stops the turn. */
  method UseTool(cfg: Config, env: Env, ghost start: nat, l: Loop, call: Pending, ghost s: State)
    returns (l': Loop, ending: Option<Result<string, string>>, ghost s': State)
    requires ValidEnv(env) && On(cfg, env, start, l, s) && Deciding(cfg, s.phase) == Some(call.content)
    requires Decide(cfg, call.content) == Act(call.tool, call.args)
    ensures Continues(cfg, env, start, l', ending, s', s.requests)
    decreases MAX_DELEGATION_DEPTH - cfg.depth, 2
  {
    hide Leads;
    var required := l.requiredToolCalled || Requires(cfg, call.tool);
    var announced := ToolCall(call.tool, call.args);
    ghost var p := if cfg.definition.autonomy == Manual then Calling(call) else Enter(cfg, call);
    GrowDecision(cfg, env, start, l.trace, s, l.now, announced, p);
    s' := Counted(cfg, s, announced, p);
    var result, trace, now;
    result, trace, now, s' := Perform(cfg, env, start, call, l.trace + [announced], l.now, s');
    l', ending, s' := Report(cfg, env, start, l.(trace := trace, requiredToolCalled := required, now := now), call,
                             result, s');
  }

  method Show(cfg: Config, env: Env, ghost start: nat, l: Loop, call: Pending, result: string, ghost s: State)
    returns (l': Loop, ghost s': State)
    requires On(cfg, env, start, l, s) && s.phase == Acted(call, result)
    ensures On(cfg, env, start, l', s') && s'.phase == Reported(call, result) && s'.requests == s.requests
  {
    hide Leads, NextPhase, OpeningPhase, DecisionPhase, Truncated;
    var summary := Truncate(result, SUMMARY_CHARS);
    var e := ToolResult(call.tool, summary);
    GrowTool(cfg, env, start, l.trace, s, l.now, e, Reported(call, result));
    s' := Counted(cfg, s, e, Reported(call, result));
    l' := l.(trace := l.trace + [e]);
  }

  /** Show a result, ask the guard, and take the bounded result into the conversation. */
  method Report(cfg: Config, env: Env, ghost start: nat, l: Loop, call: Pending, result: string, ghost s: State)
    returns (l': Loop, ending: Option<Result<string, string>>, ghost s': State)
    requires On(cfg, env, start, l, s) && s.phase == Acted(call, result)
    ensures Continues(cfg, env, start, l', ending, s', s.requests)
  {
    hide Leads, NextPhase, OpeningPhase, DecisionPhase, ToolPhase, AfterReport, Counted;
    l', s' := Show(cfg, env, start, l, call, result, s);
    var verdict;
    l', verdict, s' := Judge(cfg, env, start, l', call, result, s');
    if verdict.Some? {
      l', s' := Stop(cfg, env, start, l', verdict.value, s');
      return l', Some(Ok(verdict.value)), s';
    }
    l', s' := TakeIn(cfg, env, start, l', call, result, s');
    ending := None;
  }

  /** Ask the guard about a reported call. */
  method Judge(cfg: Config, env: Env, ghost start: nat, l: Loop, call: Pending, result: string, ghost s: State)
    returns (l': Loop, verdict: Option<string>, ghost s': State)
    requires On(cfg, env, start, l, s) && s.phase == Reported(call, result)
    ensures On(cfg, env, start, l', s') && s'.requests == s.requests
    ensures s'.phase == if verdict.Some? then Stopping(verdict.value) else AfterReport(cfg, call, result)
  {
    hide Leads, NextPhase, OpeningPhase, DecisionPhase, AfterReport;
    var signature := Call(call.tool, call.args);
    verdict := env.guard(l.now, signature);
    ghost var p := if verdict.Some? then Stopping(verdict.value) else AfterReport(cfg, call, result);
    GrowTool(cfg, env, start, l.trace, s, l.now, Guard(signature, verdict), p);
    s' := Counted(cfg, s, Guard(signature, verdict), p);
    l' := l.(trace := l.trace + [Guard(signature, verdict)], now := l.now + 1);
  }

  /** Take the bounded result into the conversation. */
  method TakeIn(cfg: Config, env: Env, ghost start: nat, l: Loop, call: Pending, result: string, ghost s: State)
    returns (l': Loop, ghost s': State)
    requires On(cfg, env, start, l, s) && s.phase == AfterReport(cfg, call, result)
    ensures On(cfg, env, start, l', s') && s'.phase == Ready && s'.requests == s.requests
  {
    hide Leads, Bounded, WantsSaving;
    l', s' := l, s;
    var bounded, saved := BoundFreshResult(env, call.tool, result, l.now);
    var due := [Message(Assistant, call.content), Message(Tool, cfg.wording.resultPrefix(call.tool) + bounded)];
    if saved.Some? {
      GrowTool(cfg, env, start, l.trace, s, l.now, saved.value, Owing(due, false));
      s' := Counted(cfg, s, saved.value, Owing(due, false));
      l' := l.(trace := l.trace + [saved.value], now := l.now + 1);
    }
    l' := Extend(cfg, env, start, l', due, s');
    s' := s'.(phase := Ready, conversation := s'.conversation + due);
  }

  /** Take in reminders, prune, trim, and ask the model. */
  method Ask(cfg: Config, env: Env, ghost start: nat, l: Loop, ghost s: State)
    returns (l': Loop, reply: Result<string, string>, ghost s': State)
    requires On(cfg, env, start, l, s) && s.phase == Ready && s.requests < Iterations(cfg.definition)
    ensures On(cfg, env, start, l', s') && s'.requests == s.requests + 1
    ensures s'.phase == if reply.Ok? then Replied(reply.value) else Broken(reply.error)
  {
    hide Leads, Sent, Pruned;
    var reminders := env.reminders(l.now);
    var drained := Drained(reminders);
    var due := RemindersToMessages(cfg.wording, reminders);
    Grow(cfg, env, start, l.trace, s, l.now, drained, Owing(due, true));
    s' := Counted(cfg, s, drained, Owing(due, true));
    l' := Extend(cfg, env, start, l.(trace := l.trace + [drained], now := l.now + 1), due, s');
    s' := s'.(phase := Primed, conversation := s'.conversation + due);
    var messages, request := BuildRequest(l'.messages);
    reply := env.reply(l'.now, request);
    var e := Request(request, reply);
    ghost var p := if reply.Ok? then Replied(reply.value) else Broken(reply.error);
    Grow(cfg, env, start, l'.trace, s', l'.now, e, p);
    s' := Counted(cfg, s', e, p);
    l' := l'.(messages := messages, trace := l'.trace + [e], now := l'.now + 1);
  }

  /** One iteration of the loop. */
  method Iterate(cfg: Config, env: Env, ghost start: nat, l: Loop, ghost s: State)
    returns (l': Loop, ending: Option<Result<string, string>>, ghost s': State)
    requires ValidEnv(env) && On(cfg, env, start, l, s) && s.phase == Ready && s.requests < Iterations(cfg.definition)
    ensures Continues(cfg, env, start, l', ending, s', s.requests + 1)
    decreases MAX_DELEGATION_DEPTH - cfg.depth, 3
  {
    hide Leads, NextPhase, OpeningPhase, ToolPhase, DecisionPhase;
    var reply;
    l', reply, s' := Ask(cfg, env, start, l, s);
    if reply.Err? {
      return l', Some(Err(reply.error)), s';
    }
    var content := reply.value;
    var parsed := cfg.parse(content);
    if parsed.None? {
      l', ending, s' := Finish(cfg, env, start, l', content, content, s');
      return;
    }
    var step := parsed.value;
    if step.thought.Some? && step.thought.value != "" {
      var e := Thinking(step.thought.value);
      GrowThinking(cfg, env, start, l'.trace, s', l'.now, content);
      s' := Counted(cfg, s', e, Thought(content));
      l' := l'.(trace := l'.trace + [e]);
    }
    if step.finalAnswer.Some? {
      l', ending, s' := Finish(cfg, env, start, l', step.finalAnswer.value, content, s');
    } else if step.tool.None? {
      l', ending, s' := Correct(cfg, env, start, l', content, s');
    } else {
      var args := match step.args case Some(args) => args case None => Null;
      l', ending, s' := UseTool(cfg, env, start, l', Pending(content, step.tool.value, args), s');
    }
  }

  // ----------------------------------------------------------------- opening

  /** The replies to `calls` summary requests in a row leave `due` as the opening conversation. */
  ghost predicate Yields(messages: seq<Message>, llm: nat -> Compaction.SummaryReply, calls: nat, due: seq<Message>) {
    && calls > 0
    && (forall i: nat | i < calls - 1 :: AfterSummary(messages, i, llm(i)) == Summarising(messages, i + 1))
    && AfterSummary(messages, calls - 1, llm(calls - 1)) == Owing(due, false)
  }

  /** Compaction asks as often as the monitor expects, and keeps what the monitor expects. */
  method CompactOnce(messages: seq<Message>, pool: bool, llm: nat -> Compaction.SummaryReply)
    returns (due: seq<Message>, calls: nat)
    ensures if pool && Compaction.Middle(messages) != [] then calls > 0 && Yields(messages, llm, calls, due)
            else due == messages && calls == 0
  {
    hide TotalTokens, Compaction.IsBlank, Compaction.SourceTokens, Compaction.EstimateU32;
    due, calls := Compaction.MaybeCompact(messages, pool, llm);
  }

  method RecordSummaries(cfg: Config, env: Env, ghost start: nat, messages: seq<Message>,
                         llm: nat -> Compaction.SummaryReply, calls: nat, ghost due: seq<Message>, l: Loop,
                         ghost s: State)
    returns (l': Loop, ghost s': State)
    requires On(cfg, env, start, l, s) && s.phase == Summarising(messages, 0)
    requires (forall i: nat :: llm(i) == env.summarise(l.now + i)) && Yields(messages, llm, calls, due)
    ensures On(cfg, env, start, l', s') && s'.conversation == s.conversation && s'.requests == s.requests
    ensures s'.phase == Owing(due, false)
  {
    hide Leads, AfterSummary, NextPhase, ToolPhase, DecisionPhase;
    l', s' := l, s;
    for i := 0 to calls
      invariant On(cfg, env, start, l', s') && l'.now == l.now + i
      invariant s'.requests == s.requests && s'.conversation == s.conversation
      invariant s'.phase == if i < calls then Summarising(messages, i) else Owing(due, false)
    {
      var e := SummaryRequest(llm(i));
      assert i < calls - 1 ==> AfterSummary(messages, i, llm(i)) == Summarising(messages, i + 1);
      GrowOpening(cfg, env, start, l'.trace, s', l'.now, e, AfterSummary(messages, i, llm(i)));
      s' := Counted(cfg, s', e, AfterSummary(messages, i, llm(i)));
      l' := l'.(trace := l'.trace + [e], now := l'.now + 1);
    }
  }

  /** Compact the opening conversation if it is over budget and long, and take what is left into the turn. */
  method Compact(cfg: Config, env: Env, ghost start: nat, messages: seq<Message>, l: Loop, ghost s: State)
    returns (l': Loop, ghost s': State)
    requires On(cfg, env, start, l, s) && s.phase == AfterShedding(messages)
    ensures On(cfg, env, start, l', s') && s'.phase == Ready && s'.requests == s.requests
  {
    hide Leads, TotalTokens, Yields, Compaction.SafeTailStart;
    l', s' := l, s;
    var present := false;
    if TotalTokens(messages) > DEFAULT_BUDGET_TOKENS && |messages| > Compaction.COMPACTION_RETAIN + 2 {
      present := env.pool(l.now);
      ghost var p := OpeningPhase(cfg, s.phase, Pool(present)).value;
      GrowOpening(cfg, env, start, l.trace, s, l.now, Pool(present), p);
      s' := Counted(cfg, s, Pool(present), p);
      l' := l.(trace := l.trace + [Pool(present)], now := l.now + 1);
    }
    var now := l'.now;
    var llm := (i: nat) => env.summarise(now + i);
    var due, calls := CompactOnce(messages, present, llm);
    if calls > 0 {
      l', s' := RecordSummaries(cfg, env, start, messages, llm, calls, due, l', s');
    }
    l' := Extend(cfg, env, start, l', due, s');
    s' := s'.(phase := Ready, conversation := s'.conversation + due);
  }

  /** The opening conversation, shed of dead branches and compacted when it is over budget. */
  method Open(cfg: Config, env: Env, ghost start: nat, prompt: string, before: seq<Event>, now: nat, ghost s: State)
    returns (l: Loop, ghost s': State)
    requires ValidEnv(env) && Leads(cfg, env, start, before, s, now)
    requires s == INITIAL.(phase := AfterPrompt(cfg, prompt))
    ensures On(cfg, env, start, l, s') && s'.phase == Ready && s'.requests == 0
  {
    hide Leads, TotalTokens;
    var messages := [Message(System, prompt)] + cfg.history + [Message(User, cfg.userMessage)];
    l, s' := Loop([], before, false, 0, now), s;
    if TotalTokens(messages) > DEFAULT_BUDGET_TOKENS {
      var e := ShedBranches(messages, env.shed(now, messages));
      GrowOpening(cfg, env, start, before, s, now, e, AfterShedding(e.after));
      s' := Counted(cfg, s, e, AfterShedding(e.after));
      messages := e.after;
      l := l.(trace := before + [e], now := now + 1);
    }
    l, s' := Compact(cfg, env, start, messages, l, s');
  }

  /** What comes before the opening conversation: a provider, and the prompt. */
  method Prepare(cfg: Config, env: Env, now: nat)
    returns (prompt: Result<string, string>, trace: seq<Event>, later: nat, ghost s: State)
    ensures Leads(cfg, env, now, trace, s, later)
    ensures s == INITIAL.(phase := if prompt.Ok? then AfterPrompt(cfg, prompt.value) else Broken(prompt.error))
  {
    hide Leads;
    s := Begin(cfg, env, now);
    var present := env.pool(now);
    ghost var p := if present then Prompting else Broken(cfg.wording.noProvider);
    GrowOpening(cfg, env, now, [Started], s, now, Provider(present), p);
    trace, later, s := [Started] + [Provider(present)], now + 1, Counted(cfg, s, Provider(present), p);
    if !present {
      return Err(cfg.wording.noProvider), trace, later, s;
    }
    prompt := env.prompt(later);
    p := if prompt.Ok? then AfterPrompt(cfg, prompt.value) else Broken(prompt.error);
    GrowOpening(cfg, env, now, trace, s, later, Prompted(prompt), p);
    trace, later, s := trace + [Prompted(prompt)], later + 1, Counted(cfg, s, Prompted(prompt), p);
  }

  lemma Begin(cfg: Config, env: Env, now: nat) returns (s: State)
    ensures s == INITIAL.(phase := Begun) && Leads(cfg, env, now, [Started], s, now)
  {
    s := INITIAL.(phase := Begun);
    assert Init([Started]) == [] && Last([Started]) == Started;
  }

  lemma TurnEnds(cfg: Config, env: Env, start: nat, trace: seq<Event>, s: State, now: nat)
    requires Leads(cfg, env, start, trace, s, now) && Outcome(s.phase).Some?
    ensures Ended(cfg, trace) == Outcome(s.phase) && Answered(env, trace, start) && now == start + Ticks(trace)
    ensures forall most: nat | AgentsWithin(env, most) :: Calls(trace) <= 3 + Iterations(cfg.definition) * (1 + most)
  {
    hide Watch, Answered, Ticks, Calls, NextPhase;
    forall most: nat | AgentsWithin(env, most) ensures Calls(trace) <= 3 + Iterations(cfg.definition) * (1 + most) {
      TurnCalls(cfg, env, start, trace, most);
    }
  }

  /** No agent that may be delegated to has more than `most` iterations. */
  ghost predicate AgentsWithin(env: Env, most: nat) {
    forall t, id :: env.agent(t, id).Some? ==> Iterations(env.agent(t, id).value) <= most
  }

  lemma TurnCalls(cfg: Config, env: Env, start: nat, trace: seq<Event>, most: nat)
    requires Watch(cfg, trace).Some? && Answered(env, trace, start) && AgentsWithin(env, most)
    ensures Calls(trace) <= 3 + Iterations(cfg.definition) * (1 + most)
  {
    hide Watch, Answered, Calls, NextPhase, Answers;
    forall e | e in trace && e.Delegate? ensures Iterations(e.definition) <= most {
      var k :| 0 <= k < |trace| && trace[k] == e;
      var _ := AgentSafety.DelegateIsGuarded(cfg, trace, k);
      AnswersAt(env, trace, start, k - 1);
      LookupIsAnswered(env, trace[k - 1], start + Ticks(trace[..k - 1]));
    }
    CallsBounded(cfg, trace, most);
  }

  lemma LookupIsAnswered(env: Env, e: Event, now: nat)
    requires Answers(env, e, now) && e.Lookup?
    ensures e.registered == env.agent(now, e.id)
  {
  }

  /**
   Run a turn. It always ends; the monitor accepts its trace to the end, and says of it
   what the turn returns; every answer in it is the world's; and it makes at most
   `3 + n * (1 + most)` provider calls when no agent delegated to has more than `most` iterations.
   */
  method RunTurn(cfg: Config, env: Env, now: nat)
    returns (r: Result<string, string>, trace: seq<Event>, later: nat)
    requires ValidEnv(env)
    ensures Ended(cfg, trace) == Some(r) && Answered(env, trace, now) && later == now + Ticks(trace)
    ensures forall most: nat | AgentsWithin(env, most) :: Calls(trace) <= 3 + Iterations(cfg.definition) * (1 + most)
    decreases MAX_DELEGATION_DEPTH - cfg.depth, 4
  {
    hide Leads, NextPhase, AfterPrompt;
    ghost var s;
    var prompt;
    prompt, trace, later, s := Prepare(cfg, env, now);
    if prompt.Err? {
      TurnEnds(cfg, env, now, trace, s, later);
      return Err(prompt.error), trace, later;
    }
    var l;
    l, s := Open(cfg, env, now, prompt.value, trace, later, s);
    var n := Iterations(cfg.definition);
    for i := 0 to n
      invariant On(cfg, env, now, l, s) && s.phase == Ready && s.requests == i
    {
      var ending;
      l, ending, s := Iterate(cfg, env, now, l, s);
      if ending.Some? {
        TurnEnds(cfg, env, now, l.trace, s, l.now);
        return ending.value, l.trace, l.now;
      }
    }
    l, s := Exhaust(cfg, env, now, l, s);
    TurnEnds(cfg, env, now, l.trace, s, l.now);
    return Ok(cfg.wording.exhausted), l.trace, l.now;
  }

  /** The iterations are used up. */
  method Exhaust(cfg: Config, env: Env, ghost start: nat, l: Loop, ghost s: State) returns (l': Loop, ghost s': State)
    requires On(cfg, env, start, l, s) && s.phase == Ready && s.requests == Iterations(cfg.definition)
    ensures On(cfg, env, start, l', s') && s'.phase == Done(cfg.wording.exhausted)
  {
    hide Leads;
    var e := Complete(cfg.wording.exhausted);
    Grow(cfg, env, start, l.trace, s, l.now, e, Done(cfg.wording.exhausted));
    s' := Counted(cfg, s, e, Done(cfg.wording.exhausted));
    l' := l.(trace := l.trace + [e]);
  }
}
