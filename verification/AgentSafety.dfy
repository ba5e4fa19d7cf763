/**
 What every accepted turn does with its replies and its tool calls, said of the events
 themselves: which calls run, on whose authority, what their results are, why others
 are refused, and what the model is told.
 */
module AgentSafety {
  import opened Common
  import opened Conversation
  import opened Pruning
  import opened FreshResult
  import opened AgentRequests
  import opened AgentTrace

  // ------------------------------------------------ who may act, and when

  /** The call at `k` was announced just before, with these arguments, and granted in between if the agent is manual. */
  predicate Announced(cfg: Config, trace: seq<Event>, k: nat, tool: ToolName, args: Value)
    requires k <= |trace|
  {
    if cfg.definition.autonomy == Manual then
      k >= 2 && trace[k - 1] == Approval(tool, true) && trace[k - 2] == ToolCall(tool, args)
    else
      k >= 1 && trace[k - 1] == ToolCall(tool, args)
  }

  lemma DecisionAnnounces(cfg: Config, content: string, reminder: Option<string>, e: Event)
    requires DecisionPhase(cfg, content, reminder, e).Some? && e.ToolCall?
    ensures Decide(cfg, content) == Act(e.name, e.args)
    ensures DecisionPhase(cfg, content, reminder, e) ==
            Some(if cfg.definition.autonomy == Manual then Calling(Pending(content, e.name, e.args))
                 else Enter(cfg, Pending(content, e.name, e.args)))
  {
    hide Decide, Enter;
  }

  lemma CallProceeds(cfg: Config, p: Phase, e: Event)
    requires ToolPhase(cfg, p, e).Some?
    ensures var next := ToolPhase(cfg, p, e).value;
            && !next.Calling?
            && (next.Cleared? ==>
                 p == Calling(next.call) && e == Approval(next.call.tool, true) && Enter(cfg, next.call) == next)
            && (next.Delegating? ==>
                 && p == Cleared(next.call) && e.Lookup? && e.registered == Some(next.definition)
                 && next.definition.id != cfg.definition.id && cfg.argument(next.call.args, "agent") == Some(e.id))
  {
    hide Enter, AfterReport;
  }

  /** Only a decision announces a call. */
  lemma AnnouncedByDecision(cfg: Config, s: State, e: Event)
    requires NextPhase(cfg, s, e).Some? && e.ToolCall?
    ensures Deciding(cfg, s.phase).Some?
    ensures NextPhase(cfg, s, e) ==
            DecisionPhase(cfg, Deciding(cfg, s.phase).value, CompletionReminder(cfg, s.required, s.nudges), e)
  {
    hide ThoughtOf, DecisionPhase, CompletionReminder;
  }

  /** Only a decision that announces a call, a delegation, or another event on its way leads to a phase on its way. */
  lemma IntoToolPhase(cfg: Config, s: State, e: Event)
    requires NextPhase(cfg, s, e).Some? && InTool(NextPhase(cfg, s, e).value) && !e.ToolCall? && !e.Delegate?
    ensures ToolPhase(cfg, s.phase, e) == NextPhase(cfg, s, e)
  {
    hide ThoughtOf, OpeningPhase, ReadyPhase, RequestPhase, DecisionPhase, ToolPhase, DelegatePhase;
  }

  lemma OnlyWhenDelegating(cfg: Config, s: State, e: Event)
    requires NextPhase(cfg, s, e).Some? && e.Delegate?
    ensures s.phase.Delegating? && NextPhase(cfg, s, e) == DelegatePhase(cfg, s.phase.call, s.phase.definition, e)
    ensures NextPhase(cfg, s, e).value.Acted?
  {
    hide ThoughtOf, DelegatePhase;
  }

  /** How a call gets to be announced, cleared, or a delegation. */
  lemma IntoTool(cfg: Config, s: State, e: Event)
    requires NextPhase(cfg, s, e).Some?
    ensures var p := NextPhase(cfg, s, e).value;
            && (p.Calling? ==> e == ToolCall(p.call.tool, p.call.args) && cfg.definition.autonomy == Manual)
            && (p.Cleared? ==>
                 && Obstacle(cfg, p.call.tool, p.call.args).None?
                 && ((s.phase == Calling(p.call) && e == Approval(p.call.tool, true))
                     || (cfg.definition.autonomy != Manual && e == ToolCall(p.call.tool, p.call.args))))
            && (p.Delegating? ==>
                 && s.phase == Cleared(p.call) && e.Lookup? && e.registered == Some(p.definition)
                 && p.definition.id != cfg.definition.id && cfg.argument(p.call.args, "agent") == Some(e.id))
  {
    hide NextPhase, ToolPhase, DecisionPhase, Obstacle;
    if e.ToolCall? {
      AnnouncedByDecision(cfg, s, e);
      DecisionAnnounces(cfg, Deciding(cfg, s.phase).value, CompletionReminder(cfg, s.required, s.nudges), e);
    } else if e.Delegate? {
      OnlyWhenDelegating(cfg, s, e);
    } else if InTool(NextPhase(cfg, s, e).value) {
      IntoToolPhase(cfg, s, e);
      CallProceeds(cfg, s.phase, e);
    }
  }

  lemma ClearedMeansAnnounced(cfg: Config, trace: seq<Event>, k: nat)
    requires Watch(cfg, trace).Some? && k <= |trace| && StateAt(cfg, trace, k).phase.Cleared?
    ensures var call := StateAt(cfg, trace, k).phase.call;
            Announced(cfg, trace, k, call.tool, call.args) && Obstacle(cfg, call.tool, call.args).None?
  {
    hide Watch, NextPhase, Advance, Counted, Obstacle;
    FirstState(cfg, trace);
    if k > 0 {
      StepAt(cfg, trace, k - 1);
      IntoTool(cfg, StateAt(cfg, trace, k - 1), trace[k - 1]);
      if k > 1 && StateAt(cfg, trace, k - 1).phase.Calling? {
        StepAt(cfg, trace, k - 2);
        IntoTool(cfg, StateAt(cfg, trace, k - 2), trace[k - 2]);
      }
    }
  }

  lemma DelegatingMeansLookedUp(cfg: Config, trace: seq<Event>, k: nat)
    requires Watch(cfg, trace).Some? && k <= |trace| && StateAt(cfg, trace, k).phase.Delegating?
    ensures var (call, definition) := (StateAt(cfg, trace, k).phase.call, StateAt(cfg, trace, k).phase.definition);
            && k > 0 && trace[k - 1].Lookup? && trace[k - 1].registered == Some(definition)
            && definition.id != cfg.definition.id && cfg.argument(call.args, "agent") == Some(trace[k - 1].id)
            && Announced(cfg, trace, k - 1, call.tool, call.args) && Obstacle(cfg, call.tool, call.args).None?
  {
    hide Watch, NextPhase, Advance, Counted, Obstacle;
    FirstState(cfg, trace);
    if k > 0 {
      StepAt(cfg, trace, k - 1);
      IntoTool(cfg, StateAt(cfg, trace, k - 1), trace[k - 1]);
      ClearedMeansAnnounced(cfg, trace, k - 1);
    }
  }

  lemma ActsWhenCleared(cfg: Config, s: State, e: Event)
    requires NextPhase(cfg, s, e).Some?
    ensures e.Dispatch? ==> s.phase.Cleared? && e.tool == s.phase.call.tool && e.args == s.phase.call.args
                             && e.tool.DomainTool? && cfg.project == Some(e.project)
    ensures e.Inspect? ==> s.phase.Cleared? && e.tool == s.phase.call.tool && e.args == s.phase.call.args
                            && e.tool.IsInspection() && cfg.project == Some(e.project)
    ensures e.Lookup? ==> s.phase.Cleared? && s.phase.call.tool == DelegateTool
  {
    hide Decide, ThoughtOf, AfterReport, AfterLookup, DelegatePhase;
  }

  /**
   Every domain tool that reaches the backend is on the agent's allow-list, has
   valid arguments, runs in the selected project, was announced, and, under
   manual autonomy, was granted for that very call.
   */
  lemma DispatchIsAuthorised(cfg: Config, trace: seq<Event>, k: nat)
    requires Watch(cfg, trace).Some? && k < |trace| && trace[k].Dispatch?
    ensures var e := trace[k];
            && e.tool in cfg.definition.allowedTools && cfg.validate(e.tool, e.args).None?
            && cfg.project == Some(e.project)
            && Announced(cfg, trace, k, e.tool, e.args)
  {
    hide Watch, NextPhase, Advance, Counted;
    StepAt(cfg, trace, k);
    ActsWhenCleared(cfg, StateAt(cfg, trace, k), trace[k]);
    ClearedMeansAnnounced(cfg, trace, k);
  }

  /** Inspection tools skip the allow-list, but never the approval, and never run without a project to confine them. */
  lemma InspectIsConfined(cfg: Config, trace: seq<Event>, k: nat)
    requires Watch(cfg, trace).Some? && k < |trace| && trace[k].Inspect?
    ensures var e := trace[k];
            e.tool.IsInspection() && cfg.project == Some(e.project) && Announced(cfg, trace, k, e.tool, e.args)
  {
    hide Watch, NextPhase, Advance, Counted;
    StepAt(cfg, trace, k);
    ActsWhenCleared(cfg, StateAt(cfg, trace, k), trace[k]);
    ClearedMeansAnnounced(cfg, trace, k);
  }

  /** The agent was looked up for the delegation tool's call with these arguments, which name it and its task. */
  predicate LookedUp(cfg: Config, trace: seq<Event>, k: nat, args: Value, definition: AgentDefinition, task: string) {
    && k < |trace| && trace[k].Lookup? && trace[k].registered == Some(definition)
    && Announced(cfg, trace, k, DelegateTool, args)
    && cfg.argument(args, "agent") == Some(trace[k].id) && cfg.argument(args, "task") == Some(task)
  }

  /** Delegation is one level deep, to another agent, allowed and announced; and the sub-turn is run to its end. */
  lemma DelegateIsGuarded(cfg: Config, trace: seq<Event>, k: nat) returns (args: Value)
    requires Watch(cfg, trace).Some? && k < |trace| && trace[k].Delegate?
    ensures var e := trace[k];
            && cfg.depth == 0 && DelegateTool in cfg.definition.allowedTools && e.definition.id != cfg.definition.id
            && k > 0 && LookedUp(cfg, trace, k - 1, args, e.definition, e.task)
            && Ended(SubConfig(cfg, e.definition, e.task), e.turn).Some?
  {
    hide Watch, Ended, NextPhase, Advance, Counted;
    StepAt(cfg, trace, k);
    OnlyWhenDelegating(cfg, StateAt(cfg, trace, k), trace[k]);
    DelegatingMeansLookedUp(cfg, trace, k);
    args := StateAt(cfg, trace, k).phase.call.args;
    StepAt(cfg, trace, k - 1);
    ActsWhenCleared(cfg, StateAt(cfg, trace, k - 1), trace[k - 1]);
    IntoTool(cfg, StateAt(cfg, trace, k - 1), trace[k - 1]);
  }

  // --------------------------------------------------- what a call comes to

  /** The turn at `k` of a sub-agent, as `result` reports it. */
  ghost predicate Reports(cfg: Config, e: Event, id: string, result: string)
    requires e.Delegate?
  {
    var sub := cfg.(definition := e.definition, depth := cfg.depth + 1, history := [], userMessage := e.task);
    match Ended(sub, e.turn)
    case Some(Ok(answer)) => result == answer
    case Some(Err(error)) => result == cfg.wording.refusal(SubTurnFailed(id, error))
    case None => false
  }

  /** A granted delegation from event `i` on has `result` before event `j`. */
  ghost predicate DelegationCarriedOut(cfg: Config, trace: seq<Event>, i: nat, j: nat, args: Value, result: string)
    requires i <= j < |trace|
  {
    var (refuse, agent, task) := (cfg.wording.refusal, cfg.argument(args, "agent"), cfg.argument(args, "task"));
    if DelegateTool !in cfg.definition.allowedTools then
      j == i && result == refuse(NotPermitted(cfg.definition.name, DelegateTool))
    else if cfg.depth >= 1 then j == i && result == refuse(DepthExceeded)
    else if agent.None? then j == i && result == refuse(MissingArgument("agent"))
    else if task.None? then j == i && result == refuse(MissingArgument("task"))
    else
      && trace[i].Lookup? && trace[i].id == agent.value
      && match trace[i].registered
         case None => j == i + 1 && result == refuse(UnknownAgent(agent.value))
         case Some(definition) =>
           if definition.id == cfg.definition.id then j == i + 1 && result == refuse(SelfDelegation)
           else
             && j == i + 2 && trace[i + 1].Delegate? && trace[i + 1].definition == definition
             && trace[i + 1].task == task.value && Reports(cfg, trace[i + 1], agent.value, result)
  }

  /**
   A granted call from event `i` on has `result` before event `j`: an allowed, valid domain
   tool is dispatched in the project, an inspection is made in it, a delegation is run, and
   the answer is the result; anything else is refused for the first reason that holds.
   */
  ghost predicate CarriedOut(cfg: Config, trace: seq<Event>, i: nat, j: nat, tool: ToolName, args: Value,
                             result: string)
    requires i <= j < |trace|
  {
    var refuse := cfg.wording.refusal;
    match tool
    case DelegateTool => DelegationCarriedOut(cfg, trace, i, j, args, result)
    case DomainTool(_) =>
      if tool !in cfg.definition.allowedTools then j == i && result == refuse(NotPermitted(cfg.definition.name, tool))
      else if cfg.validate(tool, args).Some? then
        j == i && result == refuse(InvalidArguments(tool, cfg.validate(tool, args).value))
      else if cfg.project.None? then j == i && result == refuse(NoProject)
      else
        && j == i + 1 && trace[i].Dispatch? && trace[i] == Dispatch(tool, args, cfg.project.value, trace[i].answer)
        && result == (if trace[i].answer.Ok? then trace[i].answer.value else refuse(ToolFailed(trace[i].answer.error)))
    case _ =>
      if cfg.project.None? then j == i && result == refuse(NoWorkspace)
      else j == i + 1 && trace[i] == Inspect(tool, args, cfg.project.value, result)
  }

  lemma DelegationReports(cfg: Config, call: Pending, due: AgentDefinition, e: Event)
    requires DelegatePhase(cfg, call, due, e).Some?
    ensures && e.Delegate? && e.definition == due && cfg.argument(call.args, "task") == Some(e.task)
            && Reports(cfg, e, Named(cfg, call.args), DelegatePhase(cfg, call, due, e).value.result)
  {
    hide Ended;
  }

  lemma CarriesOut(cfg: Config, trace: seq<Event>, i: nat, call: Pending) returns (j: nat, result: string)
    requires Ended(cfg, trace).Some? && i <= |trace| && StateAt(cfg, trace, i).phase == Enter(cfg, call)
    ensures i <= j < |trace| && CarriedOut(cfg, trace, i, j, call.tool, call.args, result)
    ensures StateAt(cfg, trace, j).phase == Acted(call, result)
  {
    hide Watch;
    OverAtTheEnd(cfg, trace, i);
    if Obstacle(cfg, call.tool, call.args).Some? {
      return i, StateAt(cfg, trace, i).phase.result;
    }
    StepAt(cfg, trace, i);
    OverAtTheEnd(cfg, trace, i + 1);
    if StateAt(cfg, trace, i + 1).phase.Delegating? {
      StepAt(cfg, trace, i + 1);
      OverAtTheEnd(cfg, trace, i + 2);
      DelegationReports(cfg, call, StateAt(cfg, trace, i + 1).phase.definition, trace[i + 1]);
      return i + 2, StateAt(cfg, trace, i + 2).phase.result;
    }
    return i + 1, StateAt(cfg, trace, i + 1).phase.result;
  }

  /** The reply `content` came just before `k`, or before its thought was shown. */
  predicate Replying(trace: seq<Event>, k: nat, content: string)
    requires k <= |trace|
  {
    || (k >= 1 && trace[k - 1].Request? && trace[k - 1].reply == Ok(content))
    || (k >= 2 && trace[k - 1].Thinking? && trace[k - 2].Request? && trace[k - 2].reply == Ok(content))
  }

  lemma IntoReply(cfg: Config, s: State, e: Event)
    requires NextPhase(cfg, s, e).Some?
    ensures var p := NextPhase(cfg, s, e).value;
            && (p.Replied? ==> e.Request? && e.reply == Ok(p.content))
            && (p.Thought? ==> s.phase == Replied(p.content) && e.Thinking?)
  {
    hide ThoughtOf, OpeningPhase, ReadyPhase, DecisionPhase, ToolPhase, DelegatePhase, Sent;
  }

  lemma DecidingMeansReplying(cfg: Config, trace: seq<Event>, k: nat)
    requires Watch(cfg, trace).Some? && k <= |trace| && Deciding(cfg, StateAt(cfg, trace, k).phase).Some?
    ensures Replying(trace, k, Deciding(cfg, StateAt(cfg, trace, k).phase).value)
  {
    hide Watch, NextPhase, Advance, Counted;
    FirstState(cfg, trace);
    StepAt(cfg, trace, k - 1);
    IntoReply(cfg, StateAt(cfg, trace, k - 1), trace[k - 1]);
    if StateAt(cfg, trace, k).phase.Thought? {
      assert k > 1;
      StepAt(cfg, trace, k - 2);
      IntoReply(cfg, StateAt(cfg, trace, k - 2), trace[k - 2]);
    }
  }

  /** The call announced at `k` has `result` before event `j`: by an operator's refusal, or by being carried out. */
  ghost predicate Results(cfg: Config, trace: seq<Event>, k: nat, j: nat, result: string)
    requires k < j < |trace| && trace[k].ToolCall?
  {
    var (tool, args) := (trace[k].name, trace[k].args);
    if cfg.definition.autonomy != Manual then CarriedOut(cfg, trace, k + 1, j, tool, args, result)
    else
      && trace[k + 1].Approval? && trace[k + 1].tool == tool
      && if trace[k + 1].granted then k + 2 <= j && CarriedOut(cfg, trace, k + 2, j, tool, args, result)
         else j == k + 2 && result == cfg.wording.refusal(ApprovalDeclined(cfg.definition.name, tool))
  }

  lemma ApprovalFollows(cfg: Config, s: State, e: Event)
    requires s.phase.Calling? && NextPhase(cfg, s, e).Some?
    ensures e.Approval? && e.tool == s.phase.call.tool
    ensures NextPhase(cfg, s, e).value ==
            if e.granted then Enter(cfg, s.phase.call)
            else Acted(s.phase.call, cfg.wording.refusal(ApprovalDeclined(cfg.definition.name, e.tool)))
  {
    hide Enter;
  }

  /** From an announced call to the moment its result is there. */
  lemma CallComesTo(cfg: Config, trace: seq<Event>, k: nat) returns (content: string, j: nat, result: string)
    requires Ended(cfg, trace).Some? && k < |trace| && trace[k].ToolCall?
    ensures k < j < |trace| && Replying(trace, k, content) && Results(cfg, trace, k, j, result)
    ensures StateAt(cfg, trace, j).phase == Acted(Pending(content, trace[k].name, trace[k].args), result)
  {
    hide NextPhase, Advance, Counted, Enter, CarriedOut, DecisionPhase, Watch;
    var s, e := StateAt(cfg, trace, k), trace[k];
    StepAt(cfg, trace, k);
    AnnouncedByDecision(cfg, s, e);
    DecidingMeansReplying(cfg, trace, k);
    content := Deciding(cfg, s.phase).value;
    DecisionAnnounces(cfg, content, CompletionReminder(cfg, s.required, s.nudges), e);
    OverAtTheEnd(cfg, trace, k + 1);
    var call := Pending(content, e.name, e.args);
    if cfg.definition.autonomy != Manual {
      j, result := CarriesOut(cfg, trace, k + 1, call);
    } else {
      StepAt(cfg, trace, k + 1);
      ApprovalFollows(cfg, StateAt(cfg, trace, k + 1), trace[k + 1]);
      OverAtTheEnd(cfg, trace, k + 2);
      if trace[k + 1].granted {
        j, result := CarriesOut(cfg, trace, k + 2, call);
      } else {
        j, result := k + 2, cfg.wording.refusal(ApprovalDeclined(cfg.definition.name, e.name));
      }
    }
  }

  // --------------------------------------------- what the model is told of it

  /** The conversation gains what the model said and the bounded result, as its tool's. */
  ghost predicate TakenIn(cfg: Config, e: Event, content: string, tool: ToolName, result: string,
                          saved: Option<string>)
  {
    && e.Append? && |e.messages| == 2 && e.messages[0] == Message(Assistant, content)
    && e.messages[1].role == Tool && cfg.wording.resultPrefix(tool) <= e.messages[1].content
    && EntersAs(result, saved, e.messages[1].content[|cfg.wording.resultPrefix(tool)|..])
  }

  /**
   From event `j` on: the result is shown, cut to 400 characters; the guard judges the call; and, unless it
   stops the turn, the result is taken in, once offered to the store if it is oversized and not a read.
   */
  ghost predicate Delivered(cfg: Config, trace: seq<Event>, j: nat, content: string, tool: ToolName, args: Value,
                            result: string)
  {
    && j + 2 < |trace|
    && trace[j] == ToolResult(tool, if |result| <= 400 then result else result[..400] + ['\U{2026}'])
    && trace[j + 1].Guard? && trace[j + 1].signature == Call(tool, args)
    && match trace[j + 1].verdict
       case Some(message) =>
         j + 3 == |trace| && trace[j + 2] == Failed(message) && Ended(cfg, trace) == Some(Ok(message))
       case None =>
         if |result| > 12_000 && tool != FileRead then
           && j + 3 < |trace| && trace[j + 2].Saved? && trace[j + 2].tool == tool && trace[j + 2].text == result
           && TakenIn(cfg, trace[j + 3], content, tool, result, trace[j + 2].hint)
         else TakenIn(cfg, trace[j + 2], content, tool, result, None)
  }

  lemma ResultMessagesEnter(cfg: Config, call: Pending, result: string, saved: Option<string>)
    ensures TakenIn(cfg, Append(ResultMessages(cfg, call, Bounded(result, saved))), call.content, call.tool, result,
                    saved)
  {
    hide EntersAs, Bounded;
    var prefix := cfg.wording.resultPrefix(call.tool);
    BoundedEnters(result, saved);
    assert (prefix + Bounded(result, saved))[|prefix|..] == Bounded(result, saved);
  }

  /** The phases a result passes through. */
  predicate Proceeds(cfg: Config, p: Phase, e: Event, next: Phase) {
    match p
    case Acted(call, result) => e == ToolResult(call.tool, Truncated(result, 400)) && next == Reported(call, result)
    case Reported(call, result) =>
      && e.Guard? && e.signature == Call(call.tool, call.args)
      && next == if e.verdict.Some? then Stopping(e.verdict.value) else AfterReport(cfg, call, result)
    case Saving(call, result) =>
      && e.Saved? && e.tool == call.tool && e.text == result
      && next == Owing(ResultMessages(cfg, call, Bounded(result, e.hint)), false)
    case Stopping(message) => e == Failed(message) && next == Done(message)
    case Owing(messages, primed) => e == Append(messages) && next == if primed then Primed else Ready
    case _ => true
  }

  lemma ResultProceeds(cfg: Config, s: State, e: Event)
    requires NextPhase(cfg, s, e).Some?
    ensures Proceeds(cfg, s.phase, e, NextPhase(cfg, s, e).value)
  {
    hide AfterReport, Truncated, ResultMessages, Bounded, OpeningPhase, DecisionPhase, ReadyPhase, RequestPhase;
    hide DelegatePhase, ThoughtOf;
  }

  lemma ResultIsDelivered(cfg: Config, trace: seq<Event>, j: nat, call: Pending, result: string)
    requires Ended(cfg, trace).Some? && j < |trace| && StateAt(cfg, trace, j).phase == Acted(call, result)
    ensures Delivered(cfg, trace, j, call.content, call.tool, call.args, result)
  {
    hide NextPhase, Advance, Counted, Watch, TakenIn, ResultMessages, Bounded;
    StepAt(cfg, trace, j);
    ResultProceeds(cfg, StateAt(cfg, trace, j), trace[j]);
    OverAtTheEnd(cfg, trace, j + 1);
    StepAt(cfg, trace, j + 1);
    ResultProceeds(cfg, StateAt(cfg, trace, j + 1), trace[j + 1]);
    OverAtTheEnd(cfg, trace, j + 2);
    StepAt(cfg, trace, j + 2);
    ResultProceeds(cfg, StateAt(cfg, trace, j + 2), trace[j + 2]);
    OverAtTheEnd(cfg, trace, j + 3);
    FirstState(cfg, trace);
    if trace[j + 1].verdict.None? {
      if WantsSaving(call.tool == FileRead, result) {
        StepAt(cfg, trace, j + 3);
        ResultProceeds(cfg, StateAt(cfg, trace, j + 3), trace[j + 3]);
        ResultMessagesEnter(cfg, call, result, trace[j + 2].hint);
      } else {
        ResultMessagesEnter(cfg, call, result, None);
      }
    }
  }

  /**
   Every tool call of a finished turn has its result: from the operator who declined it, from the
   first obstacle in its way, or from the tool itself, which runs whenever there is none. That
   result, and nothing else, is shown, put to the guard, and taken into the conversation.
   */
  lemma CallsAreCarriedOut(cfg: Config, trace: seq<Event>, k: nat) returns (content: string, j: nat, result: string)
    requires Ended(cfg, trace).Some? && k < |trace| && trace[k].ToolCall?
    ensures k < j < |trace| && Replying(trace, k, content) && Results(cfg, trace, k, j, result)
    ensures Delivered(cfg, trace, j, content, trace[k].name, trace[k].args, result)
  {
    hide NextPhase, Advance, Counted, Watch, Delivered, Results, Replying;
    content, j, result := CallComesTo(cfg, trace, k);
    ResultIsDelivered(cfg, trace, j, Pending(content, trace[k].name, trace[k].args), result);
  }

  /** The call at `k` is not held back by an operator, and `i` is where it goes on. */
  predicate GoesOn(cfg: Config, trace: seq<Event>, k: nat, i: nat)
    requires k < |trace| && trace[k].ToolCall?
  {
    if cfg.definition.autonomy == Manual then i == k + 2 <= |trace| && trace[k + 1] == Approval(trace[k].name, true)
    else i == k + 1
  }

  /** In particular an allowed, valid call of a domain tool in a project is dispatched at once, and its answer shown. */
  lemma AllowedCallsAreDispatched(cfg: Config, trace: seq<Event>, k: nat, i: nat, project: string)
    requires Ended(cfg, trace).Some? && k < |trace| && trace[k].ToolCall? && trace[k].name.DomainTool?
    requires trace[k].name in cfg.definition.allowedTools && cfg.validate(trace[k].name, trace[k].args).None?
    requires cfg.project == Some(project) && GoesOn(cfg, trace, k, i)
    ensures i + 1 < |trace| && trace[i].Dispatch?
    ensures trace[i] == Dispatch(trace[k].name, trace[k].args, project, trace[i].answer)
    ensures trace[i].answer.Ok? && |trace[i].answer.value| <= 400 ==>
              trace[i + 1] == ToolResult(trace[k].name, trace[i].answer.value)
  {
    hide Watch, TakenIn;
    var content, j, result := CallsAreCarriedOut(cfg, trace, k);
  }
}
