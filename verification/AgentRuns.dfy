/**
 What holds along every accepted turn as a whole: its iterations, what its requests
 hold, what it shows, and how many provider calls it takes.
 */
module AgentRuns {
  import opened Common
  import opened Conversation
  import opened Pruning
  import opened AgentRequests
  import opened AgentTrace
  import opened AgentSafety
  import opened AgentShape
  import Assembly
  import Compaction

  // ------------------------------------------------------------- iterations

  /** Queued reminders, as user turns under their heading. */
  predicate Reminds(cfg: Config, reminders: seq<string>, e: Event) {
    && e.Append? && |e.messages| == |reminders|
    && forall i | 0 <= i < |reminders| :: e.messages[i] == Message(User, cfg.wording.reminderHeading + reminders[i])
  }

  /**
   Event `k` adds to the conversation: an iteration's reminders are followed by its request, anything
   else by the next iteration, or, once there have been as many as the agent may have, by the end.
   */
  ghost predicate GoesOnAfter(cfg: Config, trace: seq<Event>, k: nat)
    requires k < |trace|
  {
    && k + 1 < |trace|
    && if k > 0 && trace[k - 1].Drained? then Reminds(cfg, trace[k - 1].reminders, trace[k]) && trace[k + 1].Request?
       else if Requests(trace[..k + 1]) < cfg.definition.maxIterations || Requests(trace[..k + 1]) == 0 then
         trace[k + 1].Drained?
       else
         && k + 2 == |trace| && trace[k + 1] == Complete(cfg.wording.exhausted)
         && Ended(cfg, trace) == Some(Ok(cfg.wording.exhausted))
  }

  lemma RemindersAreOwed(cfg: Config, requests: nat, e: Event)
    requires ReadyPhase(cfg, requests, e).Some? && e.Drained?
    ensures var p := ReadyPhase(cfg, requests, e).value;
            p.Owing? && p.primed && Reminds(cfg, e.reminders, Append(p.messages))
  {
  }

  lemma OnlyReadyDrains(cfg: Config, s: State, e: Event)
    requires NextPhase(cfg, s, e).Some? && e.Drained?
    ensures s.phase == Ready
  {
    hide ThoughtOf, Decide, DelegatePhase, AfterReport;
  }

  lemma OwingPrimed(cfg: Config, s: State, e: Event)
    requires NextPhase(cfg, s, e).Some? && NextPhase(cfg, s, e).value.Owing?
    ensures var p := NextPhase(cfg, s, e).value;
            && (p.primed ==> e.Drained? && Reminds(cfg, e.reminders, Append(p.messages)))
            && (e.Drained? ==> p.primed)
  {
    hide ThoughtOf, OpeningPhase, ToolPhase, DecisionPhase, ReadyPhase, RequestPhase, DelegatePhase, Reminds;
    if e.Drained? {
      OnlyReadyDrains(cfg, s, e);
      RemindersAreOwed(cfg, s.requests, e);
    }
  }

  lemma RequestFollows(cfg: Config, s: State, e: Event)
    requires NextPhase(cfg, s, e).Some? && s.phase == Primed
    ensures e.Request?
  {
  }

  lemma ReadyGoesOn(cfg: Config, s: State, e: Event)
    requires NextPhase(cfg, s, e).Some? && s.phase == Ready
    ensures if s.requests < cfg.definition.maxIterations || s.requests == 0 then e.Drained?
            else e == Complete(cfg.wording.exhausted) && NextPhase(cfg, s, e).value == Done(cfg.wording.exhausted)
  {
  }

  lemma OnlyOwedIsAppended(cfg: Config, s: State, e: Event)
    requires NextPhase(cfg, s, e).Some? && e.Append?
    ensures s.phase.Owing? && s.phase.messages == e.messages
  {
    hide ThoughtOf, Decide, AfterReport;
  }

  /**
   The turn goes on in iterations: reminders, one request, what its reply leads to; as many as the agent
   may have, and at least one; and when they are used up it says so and ends.
   */
  lemma IterationsFollow(cfg: Config, trace: seq<Event>, k: nat)
    requires Ended(cfg, trace).Some? && k < |trace| && trace[k].Append?
    ensures GoesOnAfter(cfg, trace, k)
  {
    hide Watch, Advance, NextPhase, Counted;
    StepAt(cfg, trace, k);
    OnlyOwedIsAppended(cfg, StateAt(cfg, trace, k), trace[k]);
    OwedIsAppended(cfg, trace, k);
    CountsAt(cfg, trace, k + 1);
    StepAt(cfg, trace, k + 1);
    FirstState(cfg, trace);
    StepAt(cfg, trace, k - 1);
    OwingPrimed(cfg, StateAt(cfg, trace, k - 1), trace[k - 1]);
    if StateAt(cfg, trace, k).phase.primed {
      RequestFollows(cfg, StateAt(cfg, trace, k + 1), trace[k + 1]);
    } else {
      ReadyGoesOn(cfg, StateAt(cfg, trace, k + 1), trace[k + 1]);
      LastWord(cfg, trace, k + 2);
    }
  }

  lemma LastWord(cfg: Config, trace: seq<Event>, n: nat)
    requires Ended(cfg, trace).Some? && n <= |trace|
    ensures Outcome(StateAt(cfg, trace, n).phase).Some? ==>
              n == |trace| && Ended(cfg, trace) == Outcome(StateAt(cfg, trace, n).phase)
  {
    hide Advance;
    OverAtTheEnd(cfg, trace, n);
    FirstState(cfg, trace);
  }

  // ---------------------------------------------------------------- requests

  /** The whole conversation of a turn, never pruned. */
  function Raw(trace: seq<Event>): seq<Message> {
    if trace == [] then []
    else Raw(Init(trace)) + if Last(trace).Append? then Last(trace).messages else []
  }

  /** The conversation as the turn keeps it: pruned for good by every request. */
  function Kept(trace: seq<Event>): seq<Message> {
    if trace == [] then []
    else
      match Last(trace)
      case Append(messages) => Kept(Init(trace)) + messages
      case Request(_, _) => Pruned(Kept(Init(trace)))
      case _ => Kept(Init(trace))
  }

  lemma {:induction false} KeptTracked(cfg: Config, trace: seq<Event>)
    requires Watch(cfg, trace).Some?
    ensures Watch(cfg, trace).value.conversation == Kept(trace)
  {
    hide NextPhase, Pruned;
    if trace != [] {
      KeptTracked(cfg, Init(trace));
    }
  }

  lemma {:induction false} ConversationTracked(cfg: Config, trace: seq<Event>)
    requires Watch(cfg, trace).Some?
    ensures InStep(Watch(cfg, trace).value.conversation, Raw(trace))
  {
    hide NextPhase, Pruned, InStep;
    if trace == [] {
      InStepEmpty();
    } else {
      var before, e := Init(trace), Last(trace);
      var s := Watch(cfg, before).value;
      ConversationTracked(cfg, before);
      if e.Append? {
        InStepAppend(s.conversation, Raw(before), e.messages);
      } else if e.Request? {
        InStepPrune(s.conversation, Raw(before));
      }
      assert !e.Append? ==> Raw(trace) == Raw(before);
    }
  }

  lemma InStepEmpty()
    ensures InStep([], [])
  {
  }

  /**
   Every request is the conversation so far, pruned, trimmed and converted. It is well formed; and, as long
   as no tool result is absurdly long, it is what pruning and trimming the full conversation once would
   send, although the turn prunes again on every iteration.
   */
  lemma EachRequestIsGood(cfg: Config, trace: seq<Event>, k: nat)
    requires Watch(cfg, trace).Some? && k < |trace| && trace[k].Request?
    ensures WellFormedRequest(trace[k].messages)
    ensures trace[k].messages == ProviderView(Assembly.Assembled(Pruned(Kept(trace[..k])), 96_000))
    ensures AllSettle(Raw(trace[..k])) ==>
              trace[k].messages == ProviderView(Assembly.Assembled(Pruned(Raw(trace[..k])), 96_000))
  {
    hide NextPhase, Advance, Watch, Pruned, InStep, Counted, ProviderView, Kept;
    StepAt(cfg, trace, k);
    var s := StateAt(cfg, trace, k);
    RequestLeads(cfg, s, trace[k]);
    SentIsWellFormed(s.conversation);
    PrefixAccepted(cfg, trace, k);
    KeptTracked(cfg, trace[..k]);
    ConversationTracked(cfg, trace[..k]);
    InStepPrune(s.conversation, Raw(trace[..k]));
  }

  // ------------------------------------------------------ what is shown

  predicate IsShown(e: Event) {
    e.Started? || e.Thinking? || e.ToolCall? || e.ToolResult? || e.Complete? || e.Failed?
  }

  function Shown(trace: seq<Event>): seq<Event> {
    if trace == [] then []
    else
      Shown(Init(trace)) + if IsShown(Last(trace)) then [Last(trace)] else []
  }

  /** Thoughts, and tool calls each directly followed by its own result. */
  predicate ThoughtsAndCalls(events: seq<Event>) {
    || events == []
    || (Last(events).Thinking? && ThoughtsAndCalls(Init(events)))
    || (|events| >= 2 && Last(events).ToolResult? && Last(Init(events)).ToolCall?
        && Last(events).name == Last(Init(events)).name && ThoughtsAndCalls(Init(Init(events))))
  }

  /** Started, then thoughts and calls. */
  predicate Begins(events: seq<Event>) {
    events != [] && events[0] == Started && ThoughtsAndCalls(events[1..])
  }

  /** What has been shown so far, by phase. */
  ghost predicate ShownInPhase(p: Phase, shown: seq<Event>) {
    if p == Fresh then shown == []
    else if p.Done? then
      shown != [] && (Last(shown) == Complete(p.answer) || Last(shown) == Failed(p.answer)) && Begins(Init(shown))
    else if Unresulted(p) then
      shown != [] && Last(shown).ToolCall? && Last(shown).name == p.call.tool && Begins(Init(shown))
    else Begins(shown)
  }

  /** A call has been announced and its result not been shown. */
  predicate Unresulted(p: Phase) {
    p.Calling? || p.Cleared? || p.Delegating? || p.Acted?
  }

  lemma BeginsThinks(shown: seq<Event>, e: Event)
    requires Begins(shown) && e.Thinking?
    ensures Begins(shown + [e])
  {
    assert (shown + [e])[1..] == shown[1..] + [e];
    assert Init(shown[1..] + [e]) == shown[1..];
  }

  lemma BeginsReports(shown: seq<Event>, call: Event, e: Event)
    requires Begins(shown) && call.ToolCall? && e.ToolResult? && e.name == call.name
    ensures Begins(shown + [call] + [e])
  {
    var body := shown[1..] + [call] + [e];
    assert (shown + [call] + [e])[1..] == body;
    assert Init(body) == shown[1..] + [call] && Init(Init(body)) == shown[1..];
  }

  /** How an event that is shown moves the phase. */
  predicate Displays(p: Phase, e: Event, next: Phase) {
    match e
    case Started => p == Fresh && next == Begun
    case Thinking(_) => p.Replied? && next.Thought?
    case ToolCall(name, _) => (p.Replied? || p.Thought?) && Unresulted(next) && next.call.tool == name
    case ToolResult(name, _) => p.Acted? && name == p.call.tool && next.Reported?
    case Complete(content) => (p.Ready? || p.Replied? || p.Thought?) && next == Done(content)
    case Failed(message) => p.Stopping? && next == Done(message)
    case _ =>
      && p != Fresh && !p.Done? && next != Fresh && !next.Done?
      && if Unresulted(p) then Unresulted(next) && next.call == p.call else !Unresulted(next)
  }

  lemma OpeningDisplays(cfg: Config, p: Phase, e: Event)
    requires OpeningPhase(cfg, p, e).Some?
    ensures Displays(p, e, OpeningPhase(cfg, p, e).value)
  {
    hide AfterPrompt, AfterShedding, AfterSummary;
  }

  lemma ToolDisplays(cfg: Config, p: Phase, e: Event)
    requires ToolPhase(cfg, p, e).Some?
    ensures Displays(p, e, ToolPhase(cfg, p, e).value)
  {
    hide Enter, AfterReport, AfterLookup, Truncated;
  }

  lemma DecisionDisplays(cfg: Config, p: Phase, content: string, reminder: Option<string>, e: Event)
    requires DecisionPhase(cfg, content, reminder, e).Some? && (p.Replied? || p.Thought?)
    ensures Displays(p, e, DecisionPhase(cfg, content, reminder, e).value)
  {
    hide Enter, Decide;
  }

  lemma EventDisplays(cfg: Config, s: State, e: Event)
    requires NextPhase(cfg, s, e).Some?
    ensures Displays(s.phase, e, NextPhase(cfg, s, e).value)
  {
    hide ThoughtOf, DecisionPhase, OpeningPhase, ToolPhase, DelegatePhase, CompletionReminder, Displays;
    var reminder := CompletionReminder(cfg, s.required, s.nudges);
    match s.phase {
      case Replied(content) =>
        if ThoughtOf(cfg, content).None? {
          DecisionDisplays(cfg, s.phase, content, reminder, e);
        } else {
          ThoughtDisplays(s.phase, e, content);
        }
      case Thought(content) => DecisionDisplays(cfg, s.phase, content, reminder, e);
      case Delegating(call, due) => DelegateDisplays(call, due, e, NextPhase(cfg, s, e).value);
      case Ready => LoopDisplays(cfg, s, e);
      case Primed => LoopDisplays(cfg, s, e);
      case Owing(_, _) => LoopDisplays(cfg, s, e);
      case _ =>
        if InOpening(s.phase) {
          OpeningDisplays(cfg, s.phase, e);
        } else {
          ToolDisplays(cfg, s.phase, e);
        }
    }
  }

  lemma ThoughtDisplays(p: Phase, e: Event, content: string)
    requires p.Replied? && e.Thinking?
    ensures Displays(p, e, Thought(content))
  {
  }

  lemma DelegateDisplays(call: Pending, due: AgentDefinition, e: Event, next: Phase)
    requires e.Delegate? && next.Acted? && next.call == call
    ensures Displays(Delegating(call, due), e, next)
  {
  }

  lemma LoopDisplays(cfg: Config, s: State, e: Event)
    requires NextPhase(cfg, s, e).Some? && (s.phase.Ready? || s.phase.Primed? || s.phase.Owing?)
    ensures Displays(s.phase, e, NextPhase(cfg, s, e).value)
  {
    hide Sent;
  }

  lemma SilentStep(p: Phase, e: Event, next: Phase, shown: seq<Event>)
    requires Displays(p, e, next) && ShownInPhase(p, shown) && !IsShown(e)
    ensures ShownInPhase(next, shown)
  {
    hide Begins;
  }

  lemma ShownStep(p: Phase, e: Event, next: Phase, shown: seq<Event>)
    requires Displays(p, e, next) && ShownInPhase(p, shown) && IsShown(e)
    ensures ShownInPhase(next, shown + [e])
  {
    hide Begins, ThoughtsAndCalls, ShownInPhase;
    match e {
      case Started => JustStartedBegins(p, e, next, shown);
      case Thinking(_) => ThoughtIsShown(p, e, next, shown);
      case ToolResult(_, _) => ResultIsShown(p, e, next, shown);
      case ToolCall(_, _) => CallIsShown(p, e, next, shown);
      case _ => EndIsShown(p, e, next, shown);
    }
  }

  lemma ThoughtIsShown(p: Phase, e: Event, next: Phase, shown: seq<Event>)
    requires p.Replied? && next.Thought? && e.Thinking? && ShownInPhase(p, shown)
    ensures ShownInPhase(next, shown + [e])
  {
    hide Begins;
    BeginsThinks(shown, e);
  }

  lemma CallIsShown(p: Phase, e: Event, next: Phase, shown: seq<Event>)
    requires (p.Replied? || p.Thought?) && e.ToolCall? && Unresulted(next) && next.call.tool == e.name
    requires ShownInPhase(p, shown)
    ensures ShownInPhase(next, shown + [e])
  {
    hide Begins;
    assert Init(shown + [e]) == shown;
  }

  lemma ResultIsShown(p: Phase, e: Event, next: Phase, shown: seq<Event>)
    requires p.Acted? && next.Reported? && e.ToolResult? && e.name == p.call.tool && ShownInPhase(p, shown)
    ensures ShownInPhase(next, shown + [e])
  {
    hide Begins;
    BeginsReports(Init(shown), Last(shown), e);
    assert Init(shown) + [Last(shown)] == shown;
  }

  lemma EndIsShown(p: Phase, e: Event, next: Phase, shown: seq<Event>)
    requires p.Ready? || p.Replied? || p.Thought? || p.Stopping?
    requires next.Done? && (e == Complete(next.answer) || e == Failed(next.answer)) && ShownInPhase(p, shown)
    ensures ShownInPhase(next, shown + [e])
  {
    hide Begins;
    assert Init(shown + [e]) == shown;
  }

  lemma JustStartedBegins(p: Phase, e: Event, next: Phase, shown: seq<Event>)
    requires p == Fresh && e == Started && next == Begun && ShownInPhase(p, shown)
    ensures ShownInPhase(next, shown + [e])
  {
    assert ([] + [e])[1..] == [];
  }

  lemma {:induction false} ShownTracked(cfg: Config, trace: seq<Event>)
    requires Watch(cfg, trace).Some?
    ensures ShownInPhase(Watch(cfg, trace).value.phase, Shown(trace))
  {
    hide NextPhase, ShownInPhase, Displays, Begins;
    if trace == [] {
      NothingShown();
    } else {
      var before, e := Init(trace), Last(trace);
      var s := Watch(cfg, before).value;
      ShownTracked(cfg, before);
      EventDisplays(cfg, s, e);
      if IsShown(e) {
        ShownStep(s.phase, e, Watch(cfg, trace).value.phase, Shown(before));
      } else {
        SilentStep(s.phase, e, Watch(cfg, trace).value.phase, Shown(before));
        assert Shown(trace) == Shown(before);
      }
    }
  }

  lemma NothingShown()
    ensures ShownInPhase(INITIAL.phase, [])
  {
  }

  /**
   A turn that returns a text has shown its start, thoughts and adjacent call-result pairs,
   and that text last, and nothing after it; one that returns an error has shown no end.
   */
  lemma FinishedTurnShape(cfg: Config, trace: seq<Event>)
    requires Ended(cfg, trace).Some?
    ensures var (shown, outcome) := (Shown(trace), Ended(cfg, trace).value);
            if outcome.Err? then Begins(shown)
            else
              && shown != [] && Begins(Init(shown))
              && (Last(shown) == Complete(outcome.value) || Last(shown) == Failed(outcome.value))
  {
    hide NextPhase, Advance;
    ShownTracked(cfg, trace);
  }

  // -------------------------------------------------------- provider calls

  /** Provider calls made by a turn, its compaction and its delegated sub-turns. */
  function Calls(trace: seq<Event>): nat
    decreases trace, 1
  {
    if trace == [] then 0 else Calls(Init(trace)) + CallsOf(Last(trace))
  }

  /** What one event adds to the calls. */
  function CallsOf(e: Event): nat
    decreases e, 0
  {
    match e
    case Request(_, _) => 1
    case SummaryRequest(_) => 1
    case Delegate(_, _, turn) => Calls(turn)
    case _ => 0
  }

  /** A phase that a reply led to, in which a delegation may still happen. */
  predicate Undelegated(p: Phase) {
    p.Replied? || p.Thought? || p.Calling? || p.Cleared? || p.Delegating?
  }

  /** The counts of a turn, by phase. */
  predicate WithinCounts(cfg: Config, s: State) {
    && s.delegations + (if Undelegated(s.phase) then 1 else 0) <= s.requests <= Iterations(cfg.definition)
    && (s.phase.Primed? || (s.phase.Owing? && s.phase.primed) ==> s.requests < Iterations(cfg.definition))
    && (s.phase.Summarising? ==> s.summaries == s.phase.tries < 3)
    && (InOpening(s.phase) && !s.phase.Summarising? ==> s.summaries == 0)
    && s.summaries <= 3
    && (s.phase.OverBudget? || s.phase.Compacting? || s.phase.Summarising? ==> |s.phase.messages| <= |cfg.history| + 2)
    && (s.phase.Compacting? || s.phase.Summarising? || s.summaries > 0 ==> |cfg.history| > 6)
    && (s.delegations > 0 || s.phase.Delegating? ==> cfg.depth == 0)
    && (s.phase.Cleared? ==> Obstacle(cfg, s.phase.call.tool, s.phase.call.args).None?)
  }

  lemma OpeningCounts(cfg: Config, s: State, e: Event)
    requires WithinCounts(cfg, s) && InOpening(s.phase) && OpeningPhase(cfg, s.phase, e).Some?
    ensures WithinCounts(cfg, Counted(cfg, s, e, OpeningPhase(cfg, s.phase, e).value))
  {
    hide Compaction.Middle, Compaction.Accepts, TotalTokens, Compaction.Splice;
  }

  lemma ToolCounts(cfg: Config, s: State, e: Event)
    requires WithinCounts(cfg, s) && !InOpening(s.phase) && ToolPhase(cfg, s.phase, e).Some?
    ensures WithinCounts(cfg, Counted(cfg, s, e, ToolPhase(cfg, s.phase, e).value))
  {
    hide AfterReport, Truncated;
  }

  lemma DecisionCounts(cfg: Config, s: State, content: string, reminder: Option<string>, e: Event)
    requires WithinCounts(cfg, s) && (s.phase.Replied? || s.phase.Thought?)
    requires DecisionPhase(cfg, content, reminder, e).Some?
    ensures WithinCounts(cfg, Counted(cfg, s, e, DecisionPhase(cfg, content, reminder, e).value))
  {
    hide Decide, Obstacle;
  }

  lemma LoopCounts(cfg: Config, s: State, e: Event)
    requires WithinCounts(cfg, s) && (s.phase.Ready? || s.phase.Primed? || s.phase.Owing?)
    requires NextPhase(cfg, s, e).Some?
    ensures WithinCounts(cfg, Counted(cfg, s, e, NextPhase(cfg, s, e).value))
  {
    hide Sent;
  }

  lemma ThoughtCounts(cfg: Config, s: State, content: string, text: string)
    requires WithinCounts(cfg, s) && s.phase.Replied?
    ensures WithinCounts(cfg, Counted(cfg, s, Thinking(text), Thought(content)))
  {
  }

  lemma DelegateCounts(cfg: Config, s: State, e: Event, result: string)
    requires WithinCounts(cfg, s) && s.phase.Delegating? && e.Delegate?
    ensures WithinCounts(cfg, Counted(cfg, s, e, Acted(s.phase.call, result)))
  {
  }

  lemma EventCounts(cfg: Config, s: State, e: Event)
    requires NextPhase(cfg, s, e).Some? && WithinCounts(cfg, s)
    ensures WithinCounts(cfg, Counted(cfg, s, e, NextPhase(cfg, s, e).value))
  {
    hide ThoughtOf, DecisionPhase, OpeningPhase, ToolPhase, DelegatePhase, CompletionReminder, WithinCounts, Counted;
    var reminder := CompletionReminder(cfg, s.required, s.nudges);
    match s.phase {
      case Replied(content) =>
        if ThoughtOf(cfg, content).None? {
          DecisionCounts(cfg, s, content, reminder, e);
        } else {
          ThoughtCounts(cfg, s, content, ThoughtOf(cfg, content).value);
        }
      case Thought(content) => DecisionCounts(cfg, s, content, reminder, e);
      case Delegating(_, _) => DelegateCounts(cfg, s, e, NextPhase(cfg, s, e).value.result);
      case Ready => LoopCounts(cfg, s, e);
      case Primed => LoopCounts(cfg, s, e);
      case Owing(_, _) => LoopCounts(cfg, s, e);
      case _ =>
        if InOpening(s.phase) {
          OpeningCounts(cfg, s, e);
        } else {
          ToolCounts(cfg, s, e);
        }
    }
  }

  /** Sub-turns of a trace make at most `most` calls each. */
  predicate SubTurnsWithin(trace: seq<Event>, most: nat) {
    forall e | e in trace && e.Delegate? :: Calls(e.turn) <= most
  }

  lemma {:induction false} CallsTracked(cfg: Config, trace: seq<Event>, most: nat)
    requires Watch(cfg, trace).Some? && SubTurnsWithin(trace, most)
    ensures var s := Watch(cfg, trace).value;
            WithinCounts(cfg, s) && Calls(trace) <= s.summaries + s.requests + most * s.delegations
  {
    hide NextPhase, WithinCounts;
    if trace == [] {
      StartsWithin(cfg);
    } else {
      var before, e := Init(trace), Last(trace);
      var s := Watch(cfg, before).value;
      assert e in trace;
      CallsTracked(cfg, before, most);
      EventCounts(cfg, s, e);
      assert most * (s.delegations + 1) == most * s.delegations + most;
    }
  }

  lemma StartsWithin(cfg: Config)
    ensures WithinCounts(cfg, INITIAL)
  {
  }

  /**
   A turn whose agent may have `n` iterations, and whose sub-agents may have `most` each, makes at most
   `3 + n * (1 + most)` provider calls; the summaries come only with more than six messages of history,
   and a sub-agent makes at most `n`.
   */
  lemma CallsBounded(cfg: Config, trace: seq<Event>, most: nat)
    requires Watch(cfg, trace).Some?
    requires forall e | e in trace && e.Delegate? :: Iterations(e.definition) <= most
    ensures Requests(trace) <= Iterations(cfg.definition)
    ensures Calls(trace) <= 3 + Iterations(cfg.definition) * (1 + most)
    ensures |cfg.history| <= 6 ==> Calls(trace) <= Iterations(cfg.definition) * (1 + most)
    ensures |cfg.history| <= 6 && cfg.depth > 0 ==> Calls(trace) <= Iterations(cfg.definition)
    decreases trace
  {
    hide Watch, NextPhase, Advance;
    forall e | e in trace && e.Delegate? ensures Calls(e.turn) <= most {
      var k :| 0 <= k < |trace| && trace[k] == e;
      var _ := DelegateIsGuarded(cfg, trace, k);
      SubTurnCalls(SubConfig(cfg, e.definition, e.task), e.turn);
    }
    CallsTracked(cfg, trace, most);
    CountsTracked(cfg, trace);
    var s, n := Watch(cfg, trace).value, Iterations(cfg.definition);
    MultiplyMonotone(most, s.delegations, n);
    assert n * (1 + most) == n + most * n;
  }

  lemma SubTurnCalls(cfg: Config, trace: seq<Event>)
    requires Watch(cfg, trace).Some? && cfg.depth > 0 && cfg.history == []
    ensures Calls(trace) <= Iterations(cfg.definition)
  {
    hide NextPhase, Advance;
    forall e | e in trace ensures !e.Delegate? {
      var k :| 0 <= k < |trace| && trace[k] == e;
      if e.Delegate? {
        var _ := DelegateIsGuarded(cfg, trace, k);
      }
    }
    CallsTracked(cfg, trace, 0);
  }

  lemma MultiplyMonotone(m: nat, a: nat, b: nat)
    requires a <= b
    ensures m * a <= m * b
  {
  }
}
