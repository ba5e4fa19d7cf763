/**
 Age-based pruning of tool results: the newest are kept, the next band is cut to
 a head and a tail, and older ones are cleared. The conversation is pruned again
 on every iteration of the agent loop while new messages are appended, so what
 matters is that pruning early and pruning late agree.
 */
module Pruning {
  import opened Numerals
  import opened Conversation

  const KEEP_RECENT_TOOL_RESULTS := 3
  const HARD_CLEAR_TOOL_RESULTS_AFTER := 10
  const SOFT_TRIM_KEEP_CHARS := 500
  const HARD_CLEAR_PLACEHOLDER := "[tool result omitted -- superseded by newer output]"

  /** `10^18`: the first count that needs nineteen decimal digits. */
  const TEN_18: nat := 1_000_000_000_000_000_000

  // ------------------------------------------------------- decimal printing

  /** The printed length passes `d` digits exactly at the `d`-th power of ten. */
  lemma {:induction false} DecimalLength(n: nat, d: nat)
    requires d > 0
    ensures |Decimal(n)| <= d <==> n < Pow(10, d)
    decreases d
  {
    if n >= 10 {
      if d == 1 {
        assert |Decimal(n)| >= 2;
      } else {
        DecimalLength(n / 10, d - 1);
        TimesTen(n, Pow(10, d - 1));
      }
    } else {
      AtLeastTen(d);
    }
  }

  lemma TimesTen(n: nat, p: nat)
    ensures n / 10 < p <==> n < 10 * p
  {
  }

  lemma {:induction false} AtLeastTen(d: nat)
    requires d > 0
    ensures Pow(10, d) >= 10
  {
    if d > 1 {
      AtLeastTen(d - 1);
    }
  }

  lemma {:induction false} DecimalIsShort(n: nat)
    ensures |Decimal(n)| <= n / 10 + 1
  {
    if n >= 10 {
      DecimalIsShort(n / 10);
    }
  }

  // ---------------------------------------------------------- soft trimming

  function TrimMarker(dropped: nat): string {
    "\n[... " + Decimal(dropped) + MarkerTail()
  }

  function MarkerTail(): (tail: string)
    ensures |tail| == 56 && Ascii(tail)
  {
    " chars trimmed to fit" + " context; oldest out" + "put first ...]\n"
  }

  lemma MarkerIsAscii(dropped: nat)
    ensures Utf8Length(TrimMarker(dropped)) == 62 + |Decimal(dropped)|
  {
    AsciiLength("\n[... ");
    AsciiLength(Decimal(dropped));
    AsciiLength(MarkerTail());
    Utf8LengthConcat("\n[... " + Decimal(dropped), MarkerTail());
    Utf8LengthConcat("\n[... ", Decimal(dropped));
  }

  /** The first and the last `n` characters of `whole` begin and end `excerpt`. */
  predicate KeepsEnds(whole: string, excerpt: string, n: nat) {
    n <= |whole| && n <= |excerpt| && excerpt[..n] == whole[..n] && excerpt[|excerpt| - n..] == whole[|whole| - n..]
  }

  function SoftTrimmed(content: string): string {
    var total := |content|;
    if total <= SOFT_TRIM_KEEP_CHARS * 2 + 80 then content
    else
      content[..SOFT_TRIM_KEEP_CHARS] + TrimMarker(total - SOFT_TRIM_KEEP_CHARS * 2) +
        content[total - SOFT_TRIM_KEEP_CHARS..]
  }

  /**
   A result of at most 1080 characters is left alone. Any other keeps its first and last 500
   characters around a marker that says how many are gone.
   */
  predicate SoftForm(content: string, trimmed: string) {
    if |content| <= 1080 then trimmed == content
    else
      && KeepsEnds(content, trimmed, 500) && |trimmed| >= 1000
      && trimmed[500..|trimmed| - 500] == "\n[... " + Decimal(|content| - 1000) + MarkerTail()
  }

  lemma SoftTrimKeepsEnds(content: string)
    ensures SoftForm(content, SoftTrimmed(content))
  {
    if |content| > 1080 {
      var trimmed, marker := SoftTrimmed(content), TrimMarker(|content| - 1000);
      assert trimmed == content[..500] + marker + content[|content| - 500..];
      assert trimmed[..500] == content[..500];
      assert trimmed[|trimmed| - 500..] == content[|content| - 500..];
      assert trimmed[500..|trimmed| - 500] == marker;
    }
  }

  lemma SoftTrimmedLength(content: string)
    requires |content| > 1080
    ensures |SoftTrimmed(content)| == 1062 + |Decimal(|content| - 1000)|
  {
  }

  /** A second trim changes nothing: the excerpt of a long result is itself short, or there was nothing to trim. */
  predicate Settles(content: string) {
    |content| <= 1080 || |content| < TEN_18 + 1000
  }

  lemma TenToThe18()
    ensures Pow(10, 18) == TEN_18
  {
    assert Pow(10, 6) == 1_000_000;
    assert Pow(10, 12) == 1_000_000_000_000;
  }

  /**
   Soft trimming is idempotent exactly on results that drop fewer than 10^18
   characters: with nineteen digits in the marker, the excerpt is itself over
   the threshold and is trimmed again.
   */
  lemma SoftTrimIdempotentIff(content: string)
    ensures SoftTrimmed(SoftTrimmed(content)) == SoftTrimmed(content) <==> Settles(content)
  {
    if |content| > 1080 {
      TenToThe18();
      DecimalLength(|content| - 1000, 18);
      SoftTrimmedLength(content);
      if |Decimal(|content| - 1000)| > 18 {
        LongExcerptShrinksAgain(SoftTrimmed(content), |Decimal(|content| - 1000)|);
      }
    }
  }

  /** One such result, far beyond any memory but not beyond the types. */
  lemma VastResultIsTrimmedTwice()
    ensures var content := seq(TEN_18 + 1000, _ => 'x');
            SoftTrimmed(SoftTrimmed(content)) != SoftTrimmed(content)
  {
    hide SoftTrimmed;
    SoftTrimIdempotentIff(seq(TEN_18 + 1000, _ => 'x'));
  }

  /** An excerpt whose marker prints a count of `d` digits, `d` over eighteen, is shortened by a second trim. */
  lemma LongExcerptShrinksAgain(excerpt: string, d: nat)
    requires d > 18 && |excerpt| == 1062 + d
    ensures |SoftTrimmed(excerpt)| < |excerpt|
  {
    SoftTrimmedLength(excerpt);
    DecimalIsShort(62 + d);
  }

  /** Trimming an over-long result makes it strictly shorter, in characters and in bytes. */
  lemma SoftTrimShrinks(content: string)
    requires |content| > 1080
    ensures |SoftTrimmed(content)| < |content| && Utf8Length(SoftTrimmed(content)) < Utf8Length(content)
  {
    var n := |content|;
    var head, middle, tail := content[..500], content[500..n - 500], content[n - 500..];
    var marker := TrimMarker(n - 1000);
    assert content == head + middle + tail;
    Utf8LengthConcat(head + middle, tail);
    Utf8LengthConcat(head, middle);
    Utf8LengthConcat(head + marker, tail);
    Utf8LengthConcat(head, marker);
    Utf8LengthBounds(middle);
    MarkerIsAscii(n - 1000);
    DecimalIsShort(n - 1000);
  }

  // ------------------------------------------------------------------ ageing

  function ToolCount(messages: seq<Message>): nat {
    if messages == [] then 0
    else (if messages[0].role == Tool then 1 else 0) + ToolCount(messages[1..])
  }

  /** A message with `rank` newer tool results behind it. */
  function Aged(m: Message, rank: nat): Message {
    if m.role != Tool || rank < KEEP_RECENT_TOOL_RESULTS then m
    else if rank < HARD_CLEAR_TOOL_RESULTS_AFTER then m.(content := SoftTrimmed(m.content))
    else m.(content := HARD_CLEAR_PLACEHOLDER)
  }

  /** `messages` pruned, when `newer` tool results follow them. */
  function PrunedBefore(messages: seq<Message>, newer: nat): (r: seq<Message>)
    ensures |r| == |messages| && forall i | 0 <= i < |r| :: r[i].role == messages[i].role
  {
    if messages == [] then []
    else [Aged(messages[0], ToolCount(messages[1..]) + newer)] + PrunedBefore(messages[1..], newer)
  }

  function Pruned(messages: seq<Message>): (r: seq<Message>)
    ensures |r| == |messages| && forall i | 0 <= i < |r| :: r[i].role == messages[i].role
  {
    PrunedBefore(messages, 0)
  }

  method SoftTrim(content: string) returns (r: string)
    ensures r == SoftTrimmed(content)
  {
    var total := |content|;
    if total <= SOFT_TRIM_KEEP_CHARS * 2 + 80 {
      return content;
    }
    var head := content[..SOFT_TRIM_KEEP_CHARS];
    var tail := content[total - SOFT_TRIM_KEEP_CHARS..];
    var dropped := total - SOFT_TRIM_KEEP_CHARS * 2;
    return head + TrimMarker(dropped) + tail;
  }

  /** Prune in place, newest first, counting tool results. */
  method PruneToolResultsByAge(messages: array<Message>)
    modifies messages
    ensures messages[..] == Pruned(old(messages[..]))
  {
    var rank := 0;
    ghost var before := messages[..];
    for i := messages.Length downto 0
      invariant messages[..i] == before[..i]
      invariant rank == ToolCount(before[i..])
      invariant messages[i..] == PrunedBefore(before[i..], 0)
    {
      PruneStep(before, i);
      assert messages[i] == messages[..i + 1][i] == before[i];
      var m := messages[i];
      if m.role == Tool {
        if rank >= HARD_CLEAR_TOOL_RESULTS_AFTER {
          if m.content != HARD_CLEAR_PLACEHOLDER {
            messages[i] := m.(content := HARD_CLEAR_PLACEHOLDER);
          }
        } else if rank >= KEEP_RECENT_TOOL_RESULTS {
          var trimmed := SoftTrim(m.content);
          messages[i] := m.(content := trimmed);
        }
      }
      assert messages[i] == Aged(m, rank);
      assert messages[i..] == [messages[i]] + messages[i + 1..];
      rank := if m.role == Tool then rank + 1 else rank;
    }
    assert before[0..] == before && messages[0..] == messages[..];
  }

  lemma PruneStep(messages: seq<Message>, i: nat)
    requires i < |messages|
    ensures PrunedBefore(messages[i..], 0) == [Aged(messages[i], ToolCount(messages[i + 1..]))] +
            PrunedBefore(messages[i + 1..], 0)
    ensures ToolCount(messages[i..]) == (if messages[i].role == Tool then 1 else 0) + ToolCount(messages[i + 1..])
  {
    assert messages[i..][1..] == messages[i + 1..] && messages[i..][0] == messages[i];
  }

  // -------------------------------------------------------------- confluence

  lemma {:induction false} ToolCountConcat(a: seq<Message>, b: seq<Message>)
    ensures ToolCount(a + b) == ToolCount(a) + ToolCount(b)
  {
    if a == [] {
      assert a + b == b;
    } else {
      assert (a + b)[1..] == a[1..] + b;
      ToolCountConcat(a[1..], b);
    }
  }

  lemma {:induction false} PrunedKeepsToolCount(messages: seq<Message>, newer: nat)
    ensures ToolCount(PrunedBefore(messages, newer)) == ToolCount(messages)
  {
    if messages != [] {
      PrunedKeepsToolCount(messages[1..], newer);
      assert PrunedBefore(messages, newer)[1..] == PrunedBefore(messages[1..], newer);
    }
  }

  lemma {:induction false} PrunedConcat(a: seq<Message>, b: seq<Message>, newer: nat)
    ensures PrunedBefore(a + b, newer) == PrunedBefore(a, ToolCount(b) + newer) + PrunedBefore(b, newer)
  {
    if a == [] {
      assert a + b == b;
    } else {
      assert (a + b)[1..] == a[1..] + b;
      ToolCountConcat(a[1..], b);
      PrunedConcat(a[1..], b, newer);
    }
  }

  /** A tool result that pruning now, when `rank` newer ones follow it, may leave over the threshold. */
  predicate Unsettled(m: Message, rank: nat) {
    m.role == Tool && KEEP_RECENT_TOOL_RESULTS <= rank < HARD_CLEAR_TOOL_RESULTS_AFTER && !Settles(m.content)
  }

  /** No tool result in the soft-trim band is so long that its excerpt is over the threshold. */
  predicate SettledBefore(messages: seq<Message>, newer: nat) {
    messages == [] || (!Unsettled(messages[0], ToolCount(messages[1..]) + newer) && SettledBefore(messages[1..], newer))
  }

  predicate Settled(messages: seq<Message>) {
    SettledBefore(messages, 0)
  }

  lemma AgedTwice(m: Message, rank: nat, later: nat)
    requires rank <= later && !Unsettled(m, rank)
    ensures Aged(Aged(m, rank), later) == Aged(m, later)
  {
    SoftTrimIdempotentIff(m.content);
  }

  lemma {:induction false} PrunedTwice(messages: seq<Message>, newer: nat, later: nat)
    requires newer <= later && SettledBefore(messages, newer)
    ensures PrunedBefore(PrunedBefore(messages, newer), later) == PrunedBefore(messages, later)
  {
    if messages != [] {
      var rest := messages[1..];
      var once := PrunedBefore(messages, newer);
      PrunedTwice(rest, newer, later);
      PrunedKeepsToolCount(rest, newer);
      AgedTwice(messages[0], ToolCount(rest) + newer, ToolCount(rest) + later);
      assert once[1..] == PrunedBefore(rest, newer);
    }
  }

  lemma {:induction false} IdempotentMeansSettled(messages: seq<Message>, newer: nat)
    requires PrunedBefore(PrunedBefore(messages, newer), newer) == PrunedBefore(messages, newer)
    ensures SettledBefore(messages, newer)
  {
    if messages != [] {
      var rest := messages[1..];
      var once := PrunedBefore(messages, newer);
      var twice := PrunedBefore(once, newer);
      assert once[1..] == PrunedBefore(rest, newer);
      PrunedKeepsToolCount(rest, newer);
      assert twice[0] == once[0] && twice[1..] == once[1..];
      SoftTrimIdempotentIff(messages[0].content);
      IdempotentMeansSettled(rest, newer);
    }
  }

  /** Pruning now and again after messages arrive is pruning once after they arrive. */
  lemma PruneConfluent(messages: seq<Message>, more: seq<Message>)
    requires Settled(messages)
    ensures Pruned(Pruned(messages) + more) == Pruned(messages + more)
  {
    PrunedConcat(Pruned(messages), more, 0);
    PrunedConcat(messages, more, 0);
    PrunedTwice(messages, 0, ToolCount(more));
  }

  /**
   Pruning is confluent under appends exactly for settled conversations; the same
   condition decides whether it is idempotent, which the source claims outright.
   */
  lemma PruneConfluentIff(messages: seq<Message>)
    ensures Settled(messages) <==> forall more :: Pruned(Pruned(messages) + more) == Pruned(messages + more)
    ensures Settled(messages) <==> Pruned(Pruned(messages)) == Pruned(messages)
  {
    assert Pruned(messages) + [] == Pruned(messages) && messages + [] == messages;
    if Settled(messages) {
      forall more ensures Pruned(Pruned(messages) + more) == Pruned(messages + more) {
        PruneConfluent(messages, more);
      }
      PruneConfluent(messages, []);
    }
    if Pruned(Pruned(messages)) == Pruned(messages) {
      IdempotentMeansSettled(messages, 0);
    }
  }

  // -------------------------------------------------------------------- cost

  function PlaceholderCost(): nat {
    EstimateTokens(HARD_CLEAR_PLACEHOLDER)
  }

  lemma SoftTrimCostsNoMore(content: string)
    ensures EstimateTokens(SoftTrimmed(content)) <= EstimateTokens(content)
  {
    if |content| > 1080 {
      SoftTrimShrinks(content);
    }
  }

  /** Pruning makes a message dearer exactly when it clears a tool result cheaper than the placeholder. */
  lemma AgedCostsMoreIff(m: Message, rank: nat)
    ensures Cost(Aged(m, rank)) > Cost(m)
            <==> m.role == Tool && rank >= HARD_CLEAR_TOOL_RESULTS_AFTER && Cost(m) < PlaceholderCost()
  {
    if m.role == Tool && rank >= HARD_CLEAR_TOOL_RESULTS_AFTER {
      ClearedCost(m, rank);
    } else {
      UnclearedCost(m, rank);
    }
  }

  lemma ClearedCost(m: Message, rank: nat)
    requires m.role == Tool && rank >= HARD_CLEAR_TOOL_RESULTS_AFTER
    ensures Cost(Aged(m, rank)) == PlaceholderCost()
  {
  }

  lemma UnclearedCost(m: Message, rank: nat)
    requires m.role != Tool || rank < HARD_CLEAR_TOOL_RESULTS_AFTER
    ensures Cost(Aged(m, rank)) <= Cost(m)
  {
    SoftTrimCostsNoMore(m.content);
  }

  lemma AgedCostsNoMore(m: Message, rank: nat)
    requires m.role == Tool ==> Cost(m) >= PlaceholderCost()
    ensures Cost(Aged(m, rank)) <= Cost(m)
  {
    AgedCostsMoreIff(m, rank);
  }

  /** Each message of a pruned conversation is its original, aged by the tool results after it. */
  lemma {:induction false} PrunedAt(messages: seq<Message>, newer: nat, i: nat)
    requires i < |messages|
    ensures PrunedBefore(messages, newer)[i] == Aged(messages[i], ToolCount(messages[i + 1..]) + newer)
    decreases i
  {
    if i > 0 {
      var rest := messages[1..];
      PrunedAt(rest, newer, i - 1);
      assert rest[i - 1 + 1..] == messages[i + 1..];
      assert PrunedBefore(messages, newer)[i] == PrunedBefore(rest, newer)[i - 1];
    }
  }

  /** The tool results that come after message `i`. */
  function NewerResults(messages: seq<Message>, i: int): set<int> {
    set k | i < k < |messages| && 0 <= k && messages[k].role == Tool
  }

  lemma {:induction false} ToolCountIs(messages: seq<Message>, i: nat)
    requires i < |messages|
    ensures ToolCount(messages[i + 1..]) == |NewerResults(messages, i)|
    decreases |messages| - i
  {
    if i + 1 == |messages| {
      assert NewerResults(messages, i) == {};
    } else {
      var next := i + 1;
      ToolCountIs(messages, next);
      assert messages[next..][1..] == messages[next + 1..];
      assert NewerResults(messages, i) ==
             NewerResults(messages, next) + if messages[next].role == Tool then {next} else {};
    }
  }

  /**
   Pruning touches tool results only, and goes by how many newer ones there are: with fewer than three a
   result is kept, with three to nine it is cut to its ends, with ten or more it is cleared.
   */
  lemma PrunedByAge(messages: seq<Message>, i: nat)
    requires i < |messages|
    ensures var (m, pruned, newer) := (messages[i], Pruned(messages)[i], |NewerResults(messages, i)|);
            && pruned.role == m.role
            && (m.role != Tool || newer < 3 ==> pruned == m)
            && (m.role == Tool && 3 <= newer < 10 ==> SoftForm(m.content, pruned.content))
            && (m.role == Tool && newer >= 10 ==> pruned.content == HARD_CLEAR_PLACEHOLDER)
  {
    hide SoftTrimmed, SoftForm, PrunedBefore;
    PrunedAt(messages, 0, i);
    ToolCountIs(messages, i);
    SoftTrimKeepsEnds(messages[i].content);
  }

  lemma {:induction false} TotalMonotone(a: seq<Message>, b: seq<Message>)
    requires |a| == |b| && forall i | 0 <= i < |a| :: Cost(a[i]) <= Cost(b[i])
    ensures TotalTokens(a) <= TotalTokens(b)
  {
    if a != [] {
      TotalMonotone(a[1..], b[1..]);
    }
  }

  lemma PrunedCostAt(messages: seq<Message>, i: nat)
    requires i < |messages| && (messages[i].role == Tool ==> Cost(messages[i]) >= PlaceholderCost())
    ensures Cost(Pruned(messages)[i]) <= Cost(messages[i])
  {
    hide Aged, PrunedBefore, Cost, PlaceholderCost, ToolCount;
    PrunedAt(messages, 0, i);
    AgedCostsNoMore(messages[i], ToolCount(messages[i + 1..]));
  }

  /** Pruning never adds tokens to a conversation whose tool results all cost at least the placeholder. */
  lemma PrunedCostsNoMore(messages: seq<Message>)
    requires forall m | m in messages && m.role == Tool :: Cost(m) >= PlaceholderCost()
    ensures TotalTokens(Pruned(messages)) <= TotalTokens(messages)
  {
    forall i | 0 <= i < |messages| ensures Cost(Pruned(messages)[i]) <= Cost(messages[i]) {
      PrunedCostAt(messages, i);
    }
    TotalMonotone(Pruned(messages), messages);
  }
}
