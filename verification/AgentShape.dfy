/**
 The shape of every accepted turn: how it opens, what each reply leads to, how the
 iterations follow each other, what each request holds, what is shown, and how many
 provider calls it takes.
 */
module AgentShape {
  import opened Common
  import opened Conversation
  import opened Pruning
  import opened AgentRequests
  import opened AgentTrace
  import opened AgentSafety
  import Compaction

  // ------------------------------------------------------- replies and answers

  /** How often the model was sent back. */
  function Nudges(trace: seq<Event>): nat {
    if trace == [] then 0 else Nudges(Init(trace)) + if Last(trace).Nudge? then 1 else 0
  }

  /** The model was asked so often. */
  function Requests(trace: seq<Event>): nat {
    if trace == [] then 0 else Requests(Init(trace)) + if Last(trace).Request? then 1 else 0
  }

  /** The tool that the agent must call has been called. */
  predicate RequiredCalled(cfg: Config, trace: seq<Event>) {
    exists k :: 0 <= k < |trace| && trace[k].ToolCall? && cfg.definition.completionRequirement.Some?
                && trace[k].name == cfg.definition.completionRequirement.value.tool
  }

  lemma {:induction false} CountsTracked(cfg: Config, trace: seq<Event>)
    requires Watch(cfg, trace).Some?
    ensures var s := Watch(cfg, trace).value;
            s.nudges == Nudges(trace) && s.requests == Requests(trace) && (s.required <==> RequiredCalled(cfg, trace))
  {
    hide NextPhase;
    if trace != [] {
      var before, e := Init(trace), Last(trace);
      CountsTracked(cfg, before);
      assert forall k | 0 <= k < |before| :: trace[k] == before[k];
      assert trace[|before|] == e;
    }
  }

  lemma CountsAt(cfg: Config, trace: seq<Event>, k: nat)
    requires Watch(cfg, trace).Some? && k <= |trace|
    ensures var s := StateAt(cfg, trace, k);
            && s.nudges == Nudges(trace[..k]) && s.requests == Requests(trace[..k])
            && (s.required <==> RequiredCalled(cfg, trace[..k]))
  {
    hide NextPhase, RequiredCalled;
    PrefixAccepted(cfg, trace, k);
    CountsTracked(cfg, trace[..k]);
  }

  /**
   The model answers `text` at `n`. It is sent back if a tool it must call has not been called and it
   has been sent back at most once; otherwise that is the end of the turn.
   */
  ghost predicate AnswerMet(cfg: Config, trace: seq<Event>, n: nat, text: string) {
    && n < |trace|
    && var requirement := cfg.definition.completionRequirement;
       if requirement.Some? && !RequiredCalled(cfg, trace[..n]) && Nudges(trace[..n]) < 2 then
         && n + 1 < |trace| && trace[n] == Nudge(requirement.value.reminder)
         && trace[n + 1] == Append([Message(Assistant, text),
                                    Message(User, cfg.wording.reminderHeading + requirement.value.reminder)])
       else n + 1 == |trace| && trace[n] == Complete(text) && Ended(cfg, trace) == Some(Ok(text))
  }

  /** A step without tool or answer is put to the guard, which ends the turn or lets the model be corrected. */
  ghost predicate Corrected(cfg: Config, trace: seq<Event>, n: nat, content: string) {
    && n + 1 < |trace| && trace[n].Guard? && trace[n].signature == IncompleteStep
    && match trace[n].verdict
       case Some(message) =>
         n + 2 == |trace| && trace[n + 1] == Failed(message) && Ended(cfg, trace) == Some(Ok(message))
       case None => trace[n + 1] == Append([Message(Assistant, content), Message(User, cfg.wording.correction)])
  }

  /** What the reply `content`, in at event `k`, leads to. */
  ghost predicate Obeyed(cfg: Config, trace: seq<Event>, k: nat, content: string) {
    match cfg.parse(content)
    case None => AnswerMet(cfg, trace, k + 1, content)
    case Some(step) =>
      var thinks := step.thought.Some? && step.thought.value != "";
      var n := if thinks then k + 2 else k + 1;
      && n < |trace| && (thinks ==> trace[k + 1] == Thinking(step.thought.value))
      && if step.finalAnswer.Some? then AnswerMet(cfg, trace, n, step.finalAnswer.value)
         else if step.tool.Some? then
           trace[n] == ToolCall(step.tool.value, if step.args.Some? then step.args.value else Null)
         else Corrected(cfg, trace, n, content)
  }

  /** The phases a decision passes through. */
  predicate Decides(cfg: Config, content: string, reminder: Option<string>, e: Event, next: Phase) {
    match Decide(cfg, content)
    case Answer(text) =>
      if reminder.None? then e == Complete(text) && next == Done(text)
      else
        && e == Nudge(reminder.value)
        && next == Owing([Message(Assistant, text), ReminderMessage(cfg.wording, reminder.value)], false)
    case Incomplete =>
      && e.Guard? && e.signature == IncompleteStep
      && next == if e.verdict.Some? then Stopping(e.verdict.value)
                 else Owing([Message(Assistant, content), Message(User, cfg.wording.correction)], false)
    case Act(tool, args) => e == ToolCall(tool, args)
  }

  lemma DecisionDecides(cfg: Config, content: string, reminder: Option<string>, e: Event)
    requires DecisionPhase(cfg, content, reminder, e).Some?
    ensures Decides(cfg, content, reminder, e, DecisionPhase(cfg, content, reminder, e).value)
  {
    hide Decide, Enter;
  }

  /** What is decided at `n` follows from the reply `content`. */
  lemma DecidedAt(cfg: Config, trace: seq<Event>, n: nat, content: string)
    requires Ended(cfg, trace).Some? && n <= |trace| && Deciding(cfg, StateAt(cfg, trace, n).phase) == Some(content)
    ensures n < |trace|
    ensures var decision := Decide(cfg, content);
            && (decision.Answer? ==> AnswerMet(cfg, trace, n, decision.text))
            && (decision.Incomplete? ==> Corrected(cfg, trace, n, content))
            && (decision.Act? ==> trace[n] == ToolCall(decision.tool, decision.args))
  {
    hide Decide, ThoughtOf, DecisionPhase, ToolPhase, OpeningPhase, Watch, Advance, RequiredCalled;
    OverAtTheEnd(cfg, trace, n);
    StepAt(cfg, trace, n);
    CountsAt(cfg, trace, n);
    var s := StateAt(cfg, trace, n);
    DecisionDecides(cfg, content, CompletionReminder(cfg, s.required, s.nudges), trace[n]);
    OverAtTheEnd(cfg, trace, n + 1);
    FirstState(cfg, trace);
    if n + 1 < |trace| {
      StepAt(cfg, trace, n + 1);
      ResultProceeds(cfg, StateAt(cfg, trace, n + 1), trace[n + 1]);
      OverAtTheEnd(cfg, trace, n + 2);
    }
  }

  /** After a reply its thought is shown, if it has one, and then it is decided on. */
  lemma ReplyIsDecidedOn(cfg: Config, trace: seq<Event>, k: nat, content: string) returns (n: nat)
    requires Ended(cfg, trace).Some? && k < |trace| && trace[k].Request? && trace[k].reply == Ok(content)
    ensures n == if ThoughtOf(cfg, content).Some? then k + 2 else k + 1
    ensures n <= |trace| && Deciding(cfg, StateAt(cfg, trace, n).phase) == Some(content)
    ensures ThoughtOf(cfg, content).Some? ==> trace[k + 1] == Thinking(ThoughtOf(cfg, content).value)
  {
    hide Watch, Advance, NextPhase, Counted, ThoughtOf;
    StepAt(cfg, trace, k);
    RequestLeads(cfg, StateAt(cfg, trace, k), trace[k]);
    OverAtTheEnd(cfg, trace, k + 1);
    n := k + 1;
    if ThoughtOf(cfg, content).Some? {
      StepAt(cfg, trace, k + 1);
      ThoughtShown(cfg, StateAt(cfg, trace, k + 1), trace[k + 1]);
      n := k + 2;
    }
  }

  lemma ObeyedBecauseDecided(cfg: Config, trace: seq<Event>, k: nat, n: nat, content: string)
    requires n == (if ThoughtOf(cfg, content).Some? then k + 2 else k + 1) && n < |trace|
    requires ThoughtOf(cfg, content).Some? ==> trace[k + 1] == Thinking(ThoughtOf(cfg, content).value)
    requires var decision := Decide(cfg, content);
             && (decision.Answer? ==> AnswerMet(cfg, trace, n, decision.text))
             && (decision.Incomplete? ==> Corrected(cfg, trace, n, content))
             && (decision.Act? ==> trace[n] == ToolCall(decision.tool, decision.args))
    ensures Obeyed(cfg, trace, k, content)
  {
    hide AnswerMet, Corrected;
  }

  /**
   Every request is answered by an error, which ends the turn, or by a reply that is obeyed: its thought
   is shown, its answer met, its tool called, or its lack of either corrected.
   */
  lemma RepliesAreObeyed(cfg: Config, trace: seq<Event>, k: nat)
    requires Ended(cfg, trace).Some? && k < |trace| && trace[k].Request?
    ensures trace[k].reply.Err? ==> k + 1 == |trace| && Ended(cfg, trace) == Some(Err(trace[k].reply.error))
    ensures trace[k].reply.Ok? ==> Obeyed(cfg, trace, k, trace[k].reply.value)
  {
    hide Advance, NextPhase, AnswerMet, Corrected, Obeyed, Counted, Decide, ThoughtOf;
    if trace[k].reply.Ok? {
      var content := trace[k].reply.value;
      var n := ReplyIsDecidedOn(cfg, trace, k, content);
      DecidedAt(cfg, trace, n, content);
      ObeyedBecauseDecided(cfg, trace, k, n, content);
    } else {
      StepAt(cfg, trace, k);
      RequestLeads(cfg, StateAt(cfg, trace, k), trace[k]);
      OverAtTheEnd(cfg, trace, k + 1);
      FirstState(cfg, trace);
    }
  }

  lemma RequestLeads(cfg: Config, s: State, e: Event)
    requires NextPhase(cfg, s, e).Some? && e.Request?
    ensures s.phase == Primed && e.messages == Sent(s.conversation)
    ensures NextPhase(cfg, s, e).value == if e.reply.Ok? then Replied(e.reply.value) else Broken(e.reply.error)
  {
    hide ThoughtOf, Sent, Decide;
  }

  lemma ThoughtShown(cfg: Config, s: State, e: Event)
    requires NextPhase(cfg, s, e).Some? && s.phase.Replied? && ThoughtOf(cfg, s.phase.content).Some?
    ensures e == Thinking(ThoughtOf(cfg, s.phase.content).value)
    ensures NextPhase(cfg, s, e).value == Thought(s.phase.content)
  {
    hide ThoughtOf;
  }

  /**
   A turn that ends on the model's answer, under a completion requirement, has
   called the required tool or has been sent back exactly twice; it is never sent
   back more than twice, nor after the tool was called.
   */
  lemma AnswersMeetTheRequirement(cfg: Config, trace: seq<Event>, k: nat)
    requires Watch(cfg, trace).Some? && k < |trace| && cfg.definition.completionRequirement.Some?
    ensures Nudges(trace) <= 2
    ensures trace[k].Nudge? ==> !RequiredCalled(cfg, trace[..k])
    ensures trace[k].Complete? && k > 0 && (trace[k - 1].Request? || trace[k - 1].Thinking?) ==>
              Nudges(trace[..k]) == 2 || RequiredCalled(cfg, trace[..k])
  {
    hide Watch, Advance, NextPhase, RequiredCalled;
    NudgesAtMostTwo(cfg, trace);
    StepAt(cfg, trace, k);
    CountsAt(cfg, trace, k);
    NudgeNeedsReminder(cfg, StateAt(cfg, trace, k), trace[k]);
    PrefixAccepted(cfg, trace, k);
    NudgesAtMostTwo(cfg, trace[..k]);
    if trace[k].Complete? && StateAt(cfg, trace, k).phase.Ready? {
      FirstState(cfg, trace);
      assert k > 0;
      StepAt(cfg, trace, k - 1);
      AppendedBefore(cfg, StateAt(cfg, trace, k - 1), trace[k - 1]);
    }
  }

  lemma NudgeNeedsReminder(cfg: Config, s: State, e: Event)
    requires NextPhase(cfg, s, e).Some?
    ensures e.Nudge? ==> CompletionReminder(cfg, s.required, s.nudges).Some?
    ensures e.Complete? ==> s.phase == Ready || CompletionReminder(cfg, s.required, s.nudges).None?
  {
    hide ThoughtOf, Decide, CompletionReminder;
  }

  lemma AppendedBefore(cfg: Config, s: State, e: Event)
    requires NextPhase(cfg, s, e).Some?
    ensures NextPhase(cfg, s, e).value.Ready? ==> e.Append? && s.phase == Owing(e.messages, false)
    ensures NextPhase(cfg, s, e).value.Primed? ==> e.Append? && s.phase == Owing(e.messages, true)
  {
    hide ThoughtOf, OpeningPhase, ToolPhase, DecisionPhase, DelegatePhase;
  }

  lemma {:induction false} NudgesAtMostTwo(cfg: Config, trace: seq<Event>)
    requires Watch(cfg, trace).Some?
    ensures Nudges(trace) <= 2
  {
    hide NextPhase, RequiredCalled;
    if trace != [] {
      NudgesAtMostTwo(cfg, Init(trace));
      CountsTracked(cfg, Init(trace));
      NudgeNeedsReminder(cfg, Watch(cfg, Init(trace)).value, Last(trace));
    }
  }

  // ---------------------------------------------------------- opening a turn

  /** Up to `left` summary requests from event `n` on; the first accepted summary replaces the middle. */
  ghost predicate Summarised(trace: seq<Event>, n: nat, messages: seq<Message>, left: nat)
    decreases left
  {
    var middle := Compaction.Middle(messages);
    && n + 1 < |trace| && trace[n].SummaryRequest? && messages != [] && 1 + |middle| <= |messages|
    && if Compaction.Accepts(trace[n].candidate, Compaction.LabelledAll(middle)) then
         trace[n + 1] == Append([messages[0], Compaction.SummaryMessage(trace[n].candidate.summary)] +
                                messages[1 + |middle|..])
       else if left <= 1 then trace[n + 1] == Append(messages)
       else Summarised(trace, n + 1, messages, left - 1)
  }

  /** From event `n` on, the opening conversation is compacted if it is over budget and longer than eight messages. */
  ghost predicate Compacted(trace: seq<Event>, n: nat, messages: seq<Message>) {
    && n < |trace|
    && if TotalTokens(messages) <= 96_000 || |messages| <= 8 then trace[n] == Append(messages)
       else
         && n + 1 < |trace| && trace[n].Pool?
         && if trace[n].present && Compaction.Middle(messages) != [] then Summarised(trace, n + 1, messages, 3)
            else trace[n + 1] == Append(messages)
  }

  /**
   A turn opens with the prompt, the whole history and the user's message, shed of dead branches and
   compacted if need be.
   */
  ghost predicate Opened(cfg: Config, trace: seq<Event>) {
    && |trace| >= 2 && trace[0] == Started && trace[1].Provider?
    && if !trace[1].present then |trace| == 2 && Ended(cfg, trace) == Some(Err(cfg.wording.noProvider))
       else
         && |trace| >= 3 && trace[2].Prompted?
         && match trace[2].prompt
            case Err(error) => |trace| == 3 && Ended(cfg, trace) == Some(Err(error))
            case Ok(prompt) =>
              var opening := [Message(System, prompt)] + cfg.history + [Message(User, cfg.userMessage)];
              && |trace| > 3
              && if TotalTokens(opening) <= 96_000 then trace[3] == Append(opening)
                 else trace[3].ShedBranches? && trace[3].before == opening && Compacted(trace, 4, trace[3].after)
  }

  /** An event of the opening, in terms of the function that judges it. */
  lemma OpeningStep(cfg: Config, trace: seq<Event>, k: nat)
    requires Ended(cfg, trace).Some? && k <= |trace| && InOpening(StateAt(cfg, trace, k).phase)
    ensures k < |trace|
    ensures OpeningPhase(cfg, StateAt(cfg, trace, k).phase, trace[k]) == Some(StateAt(cfg, trace, k + 1).phase)
    ensures Outcome(StateAt(cfg, trace, k + 1).phase).Some? <==> k + 1 == |trace|
  {
    hide Watch, Advance, OpeningPhase, Counted;
    OverAtTheEnd(cfg, trace, k);
    StepAt(cfg, trace, k);
    OverAtTheEnd(cfg, trace, k + 1);
  }

  lemma OwedIsAppended(cfg: Config, trace: seq<Event>, k: nat)
    requires Ended(cfg, trace).Some? && k <= |trace| && StateAt(cfg, trace, k).phase.Owing?
    ensures k < |trace| && trace[k] == Append(StateAt(cfg, trace, k).phase.messages)
    ensures k + 1 < |trace|
    ensures StateAt(cfg, trace, k + 1).phase == if StateAt(cfg, trace, k).phase.primed then Primed else Ready
  {
    hide Watch, Advance, NextPhase, Counted;
    OverAtTheEnd(cfg, trace, k);
    StepAt(cfg, trace, k);
    ResultProceeds(cfg, StateAt(cfg, trace, k), trace[k]);
    OverAtTheEnd(cfg, trace, k + 1);
  }

  lemma {:induction false} SummariesFollow(cfg: Config, trace: seq<Event>, n: nat, messages: seq<Message>, tries: nat)
    requires Ended(cfg, trace).Some? && n <= |trace| && StateAt(cfg, trace, n).phase == Summarising(messages, tries)
    requires tries < 3 && Compaction.Middle(messages) != []
    ensures Summarised(trace, n, messages, 3 - tries)
    decreases 3 - tries
  {
    hide Watch, Advance, NextPhase, Counted, Compaction.Middle, Compaction.Accepts, Compaction.LabelledAll;
    OpeningStep(cfg, trace, n);
    if StateAt(cfg, trace, n + 1).phase.Owing? {
      OwedIsAppended(cfg, trace, n + 1);
    } else {
      SummariesFollow(cfg, trace, n + 1, messages, tries + 1);
    }
  }

  lemma CompactionFollows(cfg: Config, trace: seq<Event>, n: nat, messages: seq<Message>)
    requires Ended(cfg, trace).Some? && n <= |trace| && StateAt(cfg, trace, n).phase == AfterShedding(messages)
    ensures Compacted(trace, n, messages)
  {
    hide Watch, Advance, NextPhase, Counted, Compaction.Middle, TotalTokens, Summarised;
    if StateAt(cfg, trace, n).phase.Owing? {
      OwedIsAppended(cfg, trace, n);
    } else {
      OpeningStep(cfg, trace, n);
      if StateAt(cfg, trace, n + 1).phase.Owing? {
        OwedIsAppended(cfg, trace, n + 1);
      } else {
        SummariesFollow(cfg, trace, n + 1, messages, 0);
      }
    }
  }

  lemma TurnOpens(cfg: Config, trace: seq<Event>)
    requires Ended(cfg, trace).Some?
    ensures Opened(cfg, trace)
  {
    hide Watch, Advance, NextPhase, Counted, TotalTokens, Compacted, AfterShedding;
    FirstState(cfg, trace);
    OpeningStep(cfg, trace, 0);
    OpeningStep(cfg, trace, 1);
    if trace[1].present {
      OpeningStep(cfg, trace, 2);
      if StateAt(cfg, trace, 3).phase.Owing? {
        OwedIsAppended(cfg, trace, 3);
      } else if StateAt(cfg, trace, 3).phase.OverBudget? {
        OpeningStep(cfg, trace, 3);
        CompactionFollows(cfg, trace, 4, trace[3].after);
      }
    }
  }
}
