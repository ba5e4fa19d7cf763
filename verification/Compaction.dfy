/**
 Replacing old turns by a model-written summary: the bounded retry that accepts
 only a summary cheaper than its source, and the splice into the conversation.
 The model is an arbitrary function from call numbers to replies.
 */
module Compaction {
  import opened Common
  import opened Conversation
  import opened Assembly

  const COMPACTION_RETAIN := 6
  const MAX_RETRIES := 3
  const U32_MAX := 0xFFFF_FFFF

  datatype SummaryReply = Text(summary: string) | Failure(error: string)

  predicate IsBlank(text: string) {
    forall i | 0 <= i < |text| :: IsSpace(text[i])
  }

  /** The engine's own meter: the same estimate, saturating at 32 bits. */
  function EstimateU32(text: string): nat {
    var n := EstimateTokens(text);
    if n <= U32_MAX then n else U32_MAX
  }

  /** The sum of the engine's estimates, in wrapping 32-bit arithmetic. */
  function SourceTokens(source: seq<string>): (n: nat)
    ensures n <= U32_MAX
  {
    if source == [] then 0 else (EstimateU32(source[0]) + SourceTokens(source[1..])) % (U32_MAX + 1)
  }

  /** A reply that is not blank and costs less than what it would replace. */
  predicate Accepts(reply: SummaryReply, source: seq<string>) {
    reply.Text? && !IsBlank(reply.summary) && EstimateU32(reply.summary) < SourceTokens(source)
  }

  /** `k` is the first of calls `0..n` whose reply is accepted. */
  ghost predicate FirstAccepted(llm: nat -> SummaryReply, source: seq<string>, n: nat, k: nat) {
    k < n && Accepts(llm(k), source) && forall i: nat | i < k :: !Accepts(llm(i), source)
  }

  ghost predicate NoneAccepted(llm: nat -> SummaryReply, source: seq<string>, n: nat) {
    forall i: nat | i < n :: !Accepts(llm(i), source)
  }

  /** Ask until a reply is accepted or the retries run out. */
  method CallWithRetry(llm: nat -> SummaryReply, source: seq<string>, maxRetries: nat)
    returns (summary: Option<string>, calls: nat)
    ensures summary.None? ==> NoneAccepted(llm, source, maxRetries) && calls == maxRetries
    ensures summary.Some? ==>
              calls > 0 && FirstAccepted(llm, source, maxRetries, calls - 1) && llm(calls - 1) == Text(summary.value)
  {
    var sourceTokens := SourceTokens(source);
    calls := 0;
    for attempt := 0 to maxRetries
      invariant calls == attempt
      invariant NoneAccepted(llm, source, attempt)
    {
      calls := calls + 1;
      match llm(attempt) {
        case Text(candidate) =>
          if !IsBlank(candidate) {
            var summaryTokens := EstimateU32(candidate);
            if summaryTokens >= sourceTokens {
              continue;
            }
            return Some(candidate), calls;
          }
        case Failure(_) =>
      }
    }
    return None, calls;
  }

  /** Summarise all of `source` with the default configuration; an empty summary means keep the raw messages. */
  method Summarize(llm: nat -> SummaryReply, source: seq<string>) returns (summary: string, calls: nat)
    ensures summary == "" ==>
              NoneAccepted(llm, source, MAX_RETRIES) && calls == (if source == [] then 0 else MAX_RETRIES)
    ensures summary != "" ==>
              calls > 0 && FirstAccepted(llm, source, MAX_RETRIES, calls - 1) && llm(calls - 1) == Text(summary)
  {
    if source == [] {
      return "", 0;
    }
    var accepted;
    accepted, calls := CallWithRetry(llm, source, MAX_RETRIES);
    match accepted {
      case Some(text) => summary := text;
      case None => summary := "";
    }
  }

  // ------------------------------------------------------------ the splice

  function RoleName(role: Role): string {
    match role
    case System => "System"
    case User => "User"
    case Assistant => "Assistant"
    case Tool => "Tool"
  }

  /** How a message is shown to the summariser. */
  function Labelled(m: Message): string {
    RoleName(m.role) + ": " + m.content
  }

  function LabelledAll(messages: seq<Message>): (texts: seq<string>)
    ensures |texts| == |messages|
  {
    if messages == [] then [] else [Labelled(messages[0])] + LabelledAll(messages[1..])
  }

  function SummaryHeading(): (heading: string)
    ensures |heading| == 34 && Ascii(heading)
  {
    "[Summary of earlier" + " conversation]\n"
  }

  function SummaryMessage(summary: string): Message {
    Message(System, SummaryHeading() + summary)
  }

  /** Where the verbatim tail starts: the first user turn within the last `retain` messages. */
  function SafeTailStart(messages: seq<Message>, retain: nat): Option<nat> {
    var nominal := if retain <= |messages| then |messages| - retain else 0;
    var u := NextUser(messages, nominal);
    if u < |messages| then Some(u) else None
  }

  /** The messages to summarise, when the conversation is over budget, long enough, and has an anchor for its tail. */
  function Middle(messages: seq<Message>): (middle: seq<Message>)
    ensures middle != [] ==> 1 + |middle| < |messages|
  {
    if TotalTokens(messages) <= DEFAULT_BUDGET_TOKENS || |messages| <= COMPACTION_RETAIN + 2 then []
    else
      match SafeTailStart(messages, COMPACTION_RETAIN)
      case None => []
      case Some(t) => messages[1..t]
  }

  /** The verbatim tail would start at `t`: a user turn, the first among the last six messages. */
  predicate TailAt(messages: seq<Message>, t: int) {
    && |messages| - 6 <= t < |messages| && 0 <= t && messages[t].role == User
    && forall i | 0 <= i && |messages| - 6 <= i < t :: messages[i].role != User
  }

  /**
   What is summarised is everything between the first message and the first user turn among the last six, of
   a conversation over budget and longer than eight messages; without such a turn nothing is.
   */
  lemma MiddleIff(messages: seq<Message>)
    ensures var eligible := TotalTokens(messages) > 96_000 && |messages| > 8;
            && (Middle(messages) != [] <==> eligible && exists t :: TailAt(messages, t))
            && forall t | eligible && TailAt(messages, t) :: 0 < t && Middle(messages) == messages[1..t]
  {
    hide TotalTokens;
    if |messages| > 8 {
      var u := NextUser(messages, |messages| - 6);
      assert u < |messages| ==> TailAt(messages, u);
    }
  }

  /** `before` with its middle, if it has one, replaced by `summary`. */
  function Splice(before: seq<Message>, summary: string): seq<Message> {
    var middle := Middle(before);
    if middle == [] then before else [before[0], SummaryMessage(summary)] + before[1 + |middle|..]
  }

  /** `after` is `before` with its middle replaced by `summary`. */
  ghost predicate Spliced(before: seq<Message>, summary: string, after: seq<Message>) {
    Middle(before) != [] && after == Splice(before, summary)
  }

  /** Summarise the older messages of an over-budget conversation; any failure leaves it as it is. */
  method MaybeCompact(messages: seq<Message>, pool: bool, llm: nat -> SummaryReply)
    returns (after: seq<Message>, calls: nat)
    ensures var source := LabelledAll(Middle(messages));
            if !pool || source == [] then after == messages && calls == 0
            else if NoneAccepted(llm, source, MAX_RETRIES) then after == messages && calls == MAX_RETRIES
            else
              && 0 < calls <= MAX_RETRIES && FirstAccepted(llm, source, MAX_RETRIES, calls - 1)
              && Spliced(messages, llm(calls - 1).summary, after)
  {
    if TotalTokens(messages) <= DEFAULT_BUDGET_TOKENS {
      return messages, 0;
    }
    if |messages| <= COMPACTION_RETAIN + 2 {
      return messages, 0;
    }
    if !pool {
      return messages, 0;
    }
    var system := messages[0];
    var tailStart := SafeTailStart(messages, COMPACTION_RETAIN);
    if tailStart.None? {
      return messages, 0;
    }
    var middle := LabelledAll(messages[1..tailStart.value]);
    if middle == [] {
      return messages, 0;
    }
    var summary;
    summary, calls := Summarize(llm, middle);
    if IsBlank(summary) {
      return messages, calls;
    }
    after := [system, SummaryMessage(summary)] + messages[tailStart.value..];
  }

  /** The tail kept by a compaction starts at a user turn, so no tool result is cut from its call. */
  lemma SplicedTailStartsWithUser(before: seq<Message>, summary: string, after: seq<Message>)
    requires Spliced(before, summary, after)
    ensures |after| > 2 && after[2].role == User && after[2..] == before[1 + |Middle(before)|..]
  {
  }

  // -------------------------------------------------------------------- cost

  lemma EstimateConcat(a: string, b: string)
    ensures EstimateTokens(a + b) <= (Utf8Length(a) + 3) / 4 + EstimateTokens(b)
  {
    Utf8LengthConcat(a, b);
  }

  lemma LabelLength(role: Role)
    ensures Utf8Length(RoleName(role) + ": ") == |RoleName(role)| + 2
  {
    AsciiLength(RoleName(role));
    AsciiLength(": ");
    Utf8LengthConcat(RoleName(role), ": ");
  }

  lemma LabelCost(m: Message)
    ensures EstimateTokens(Labelled(m)) <= Cost(m) + 3
  {
    LabelLength(m.role);
    EstimateConcat(RoleName(m.role) + ": ", m.content);
  }

  lemma {:induction false} SourceCost(messages: seq<Message>)
    ensures SourceTokens(LabelledAll(messages)) <= TotalTokens(messages) + 3 * |messages|
  {
    if messages != [] {
      SourceCost(messages[1..]);
      LabelCost(messages[0]);
      assert LabelledAll(messages)[1..] == LabelledAll(messages[1..]);
    }
  }

  lemma HeadingCost(summary: string)
    ensures Cost(SummaryMessage(summary)) <= EstimateTokens(summary) + 9
  {
    AsciiLength(SummaryHeading());
    EstimateConcat(SummaryHeading(), summary);
  }

  lemma SplicedCost(before: seq<Message>, summary: string, after: seq<Message>)
    requires Spliced(before, summary, after)
    ensures TotalTokens(after) - Cost(SummaryMessage(summary)) == TotalTokens(before) - TotalTokens(Middle(before))
  {
    hide TotalTokens, EstimateTokens, SummaryHeading;
    var middle := Middle(before);
    var tail := before[1 + |middle|..];
    SplicedParts(before);
    PartsCost(before[0], middle, tail);
    PartsCost(before[0], [SummaryMessage(summary)], tail);
    OneMessage(SummaryMessage(summary));
    assert after == [before[0]] + [SummaryMessage(summary)] + tail;
  }

  lemma SplicedParts(before: seq<Message>)
    requires Middle(before) != []
    ensures 1 + |Middle(before)| <= |before| && before == [before[0]] + Middle(before) + before[1 + |Middle(before)|..]
  {
    hide TotalTokens;
  }

  lemma OneMessage(m: Message)
    ensures TotalTokens([m]) == Cost(m)
  {
    assert [m][1..] == [];
  }

  lemma PartsCost(first: Message, middle: seq<Message>, tail: seq<Message>)
    ensures TotalTokens([first] + middle + tail) == Cost(first) + TotalTokens(middle) + TotalTokens(tail)
  {
    hide TotalTokens, EstimateTokens;
    TotalTokensConcat([first] + middle, tail);
    TotalTokensConcat([first], middle);
    OneMessage(first);
  }

  /**
   An accepted summary is measured against labelled text, and enters the
   conversation under a heading, so compaction may add up to three tokens per
   message replaced and nine for the heading, whatever 32-bit saturation or
   wrap-around did to the comparison.
   */
  lemma CompactionCost(before: seq<Message>, summary: string, after: seq<Message>)
    requires Spliced(before, summary, after) && Accepts(Text(summary), LabelledAll(Middle(before)))
    ensures TotalTokens(after) < TotalTokens(before) + 3 * |Middle(before)| + 9
  {
    SplicedCost(before, summary, after);
    HeadingCost(summary);
    SourceCost(Middle(before));
  }

  /** Whatever summary is accepted, the conversation gets cheaper. */
  ghost predicate AlwaysShrinks(before: seq<Message>) {
    forall summary, after | Spliced(before, summary, after) && Accepts(Text(summary), LabelledAll(Middle(before))) ::
      TotalTokens(after) < TotalTokens(before)
  }

  /**
   Every accepted summary shrinks the conversation if and only if none can be
   accepted, because the labelled middle measures at most one token, or the
   raw middle costs at least nine tokens more than its labelled form measures,
   so that even the dearest accepted summary pays for its heading.
   */
  lemma CompactionShrinksIff(before: seq<Message>)
    requires Middle(before) != []
    ensures var (source, middle) := (SourceTokens(LabelledAll(Middle(before))), TotalTokens(Middle(before)));
            AlwaysShrinks(before) <==> source <= 1 || source + 8 < middle
  {
    hide SourceTokens, EstimateTokens, TotalTokens, IsBlank;
    var source, middle := LabelledAll(Middle(before)), TotalTokens(Middle(before));
    if SourceTokens(source) > 1 {
      var dearest := seq(4 * (SourceTokens(source) - 1), _ => 'a');
      DearestSummary(source, dearest);
      var after := [before[0], SummaryMessage(dearest)] + before[1 + |Middle(before)|..];
      SplicedCost(before, dearest, after);
      assert Spliced(before, dearest, after);
    }
    forall summary, after | Spliced(before, summary, after) && Accepts(Text(summary), source)
      ensures SourceTokens(source) > 1
      ensures TotalTokens(after) <= TotalTokens(before) - middle + SourceTokens(source) + 8
    {
      SplicedCost(before, summary, after);
      HeadingCost(summary);
      NotBlankCosts(summary);
    }
  }

  /** What the labelled messages cost, without the limits of 32 bits. */
  function LabelledTokens(messages: seq<Message>): nat {
    if messages == [] then 0 else EstimateTokens(Labelled(messages[0])) + LabelledTokens(messages[1..])
  }

  /**
   So the summariser's measure never guarantees a shrink: unless 32-bit arithmetic
   overflows, some accepted summary leaves the conversation dearer or no cheaper.
   */
  lemma ShrinkingIsNeverGuaranteed(before: seq<Message>)
    requires Middle(before) != [] && LabelledTokens(Middle(before)) <= U32_MAX
    ensures !AlwaysShrinks(before)
  {
    CompactionShrinksIff(before);
    LabelledCostsMore(Middle(before));
  }

  lemma LabelCostsMore(m: Message)
    ensures EstimateTokens(Labelled(m)) > Cost(m) && EstimateTokens(Labelled(m)) >= 2
  {
    LabelLength(m.role);
    Utf8LengthConcat(RoleName(m.role) + ": ", m.content);
  }

  lemma {:induction false} LabelledCostsMore(messages: seq<Message>)
    requires LabelledTokens(messages) <= U32_MAX
    ensures SourceTokens(LabelledAll(messages)) == LabelledTokens(messages) >= TotalTokens(messages) + |messages|
    ensures messages != [] ==> LabelledTokens(messages) >= 2
  {
    hide EstimateTokens, Labelled;
    if messages != [] {
      LabelledCostsMore(messages[1..]);
      LabelCostsMore(messages[0]);
      assert LabelledAll(messages)[1..] == LabelledAll(messages[1..]);
    }
  }

  /** The dearest summary that is accepted costs eight tokens more than its source measures, heading included. */
  lemma DearestSummary(source: seq<string>, summary: string)
    requires SourceTokens(source) > 1 && summary == seq(4 * (SourceTokens(source) - 1), _ => 'a')
    ensures Accepts(Text(summary), source) && Cost(SummaryMessage(summary)) == SourceTokens(source) + 8
  {
    AsciiLength(summary);
    AsciiLength(SummaryHeading());
    Utf8LengthConcat(SummaryHeading(), summary);
    assert !IsSpace(summary[0]);
  }

  lemma NotBlankCosts(summary: string)
    requires !IsBlank(summary)
    ensures EstimateTokens(summary) >= 1
  {
    Utf8LengthBounds(summary);
  }

  /**
   A conversation over budget whose older turns are short: a question and an
   answer of one token each, before six retained turns.
   */
  function ShortTurns(): seq<Message> {
    [Message(System, "prompt"), GO, OK, Message(User, LongText())] + Retained()
  }

  function LongText(): string {
    seq(4 * DEFAULT_BUDGET_TOKENS, _ => 'x')
  }

  function Retained(): seq<Message> {
    [Message(Assistant, "a"), Message(User, "b"), Message(Assistant, "c"), Message(User, "d"), Message(Assistant, "e")]
  }

  const GO := Message(User, "go")
  const OK := Message(Assistant, "ok")

  /** The loop compacts this conversation, accepts "done" for its two old turns, and ends up with a dearer one. */
  lemma AcceptedSummaryMayCostMore()
    ensures var before := ShortTurns();
            var after := [before[0], SummaryMessage("done")] + before[3..];
            && Middle(before) == [GO, OK]
            && Accepts(Text("done"), LabelledAll(Middle(before))) && Spliced(before, "done", after)
            && TotalTokens(after) > TotalTokens(before)
  {
    hide EstimateTokens, TotalTokens;
    var before := ShortTurns();
    var after := [before[0], SummaryMessage("done")] + before[3..];
    ShortTurnsMiddle();
    ShortMiddleCosts();
    DoneCosts();
    assert !IsSpace("done"[0]);
    SplicedCost(before, "done", after);
  }

  lemma ShortTurnsMiddle()
    ensures Middle(ShortTurns()) == [GO, OK]
  {
    hide EstimateTokens, TotalTokens;
    var before := ShortTurns();
    assert before == before[..3] + ([before[3]] + before[4..]);
    TotalTokensConcat(before[..3], [before[3]] + before[4..]);
    TotalTokensConcat([before[3]], before[4..]);
    LongTextCosts();
    PromptCosts(before[..3]);
    assert |before| == 9 && before[3].role == User;
    assert before[1..3] == [GO, OK];
  }

  lemma PromptCosts(messages: seq<Message>)
    requires messages != [] && messages[0] == Message(System, "prompt")
    ensures TotalTokens(messages) >= 1
  {
    AsciiLength("prompt");
  }

  lemma LongTextCosts()
    ensures TotalTokens([Message(User, LongText())]) == DEFAULT_BUDGET_TOKENS
  {
    AsciiLength(LongText());
    assert [Message(User, LongText())][1..] == [];
  }

  lemma AsciiEstimate(text: string)
    requires Ascii(text)
    ensures EstimateTokens(text) == (|text| + 3) / 4
  {
    AsciiLength(text);
  }

  lemma ShortMiddleCosts()
    ensures TotalTokens([GO, OK]) == 2 && SourceTokens(LabelledAll([GO, OK])) == 6
  {
    hide EstimateTokens;
    AsciiEstimate("go");
    AsciiEstimate("ok");
    assert [GO, OK][1..] == [OK] && [OK][1..] == [];
    assert Cost(GO) == 1 && Cost(OK) == 1 && TotalTokens([OK]) == 1;
    var a, b := Labelled(GO), Labelled(OK);
    assert a == "User: go" && b == "Assistant: ok";
    AsciiEstimate(a);
    AsciiEstimate(b);
    assert LabelledAll([OK]) == [b] && LabelledAll([GO, OK]) == [a] + [b];
    assert [b][1..] == [] && ([a] + [b])[1..] == [b];
    assert SourceTokens([b]) == 4;
  }

  lemma DoneCosts()
    ensures EstimateTokens("done") == 1 && Cost(SummaryMessage("done")) == 10
  {
    hide EstimateTokens;
    AsciiEstimate("done");
    AsciiEstimate(SummaryHeading() + "done");
  }

  /**
   A compacted conversation whose tail fits what its system messages leave of the
   budget is sent whole: trimming it drops nothing.
   */
  lemma CompactedSurvivesTrimming(before: seq<Message>, summary: string, after: seq<Message>, maxTokens: nat)
    requires Spliced(before, summary, after) && before[0].role == System
    requires DialogueTokens(after[2..]) <= Budget(after, maxTokens)
    ensures Assembled(after, maxTokens) == after
  {
    SplicedTailStartsWithUser(before, summary, after);
    WindowIsLongest(after, maxTokens, 2);
    var w := WindowStart(after, maxTokens);
    assert w == 2 by {
      assert after[0].role == System && after[1].role == System;
    }
    AllSystems(after[..2]);
    assert after[..2] + after[2..] == after;
  }
}
