/**
 Trimming a conversation to a token budget. The source walks the messages
 backwards with a budget and an array of flags; the result is described without
 either: the system messages, and a suffix that starts at a user turn.
 */
module Assembly {
  import opened Conversation

  const DEFAULT_BUDGET_TOKENS: nat := 96_000

  /** The start of the longest suffix, from `c` on, whose dialogue fits the budget. */
  function FirstFit(messages: seq<Message>, budget: nat, c: nat): (r: nat)
    requires c <= |messages|
    ensures c <= r <= |messages|
    decreases |messages| - c
  {
    if DialogueTokens(messages[c..]) <= budget then c
    else
      FirstFit(messages, budget, c + 1)
  }

  /** The first user turn from `c` on, or the end. */
  function NextUser(messages: seq<Message>, c: nat): (r: nat)
    requires c <= |messages|
    ensures c <= r <= |messages|
    ensures r < |messages| ==> messages[r].role == User
    ensures forall i | c <= i < r :: messages[i].role != User
    decreases |messages| - c
  {
    if c == |messages| || messages[c].role == User then c else NextUser(messages, c + 1)
  }

  function Budget(messages: seq<Message>, maxTokens: nat): nat {
    var system := TotalTokens(Systems(messages));
    if system <= maxTokens then maxTokens - system else 0
  }

  /** Where the kept window of dialogue starts. */
  function WindowStart(messages: seq<Message>, maxTokens: nat): (w: nat)
    ensures w <= |messages|
  {
    NextUser(messages, FirstFit(messages, Budget(messages, maxTokens), 0))
  }

  /** What trimming keeps: every system message, and everything from the window's start. */
  function Assembled(messages: seq<Message>, maxTokens: nat): seq<Message> {
    var w := WindowStart(messages, maxTokens);
    Systems(messages[..w]) + messages[w..]
  }

  // ------------------------------------------------------- about the window

  lemma DialogueShrinks(messages: seq<Message>, c: nat, d: nat)
    requires c <= d <= |messages|
    ensures DialogueTokens(messages[d..]) <= DialogueTokens(messages[c..])
  {
    assert messages[c..] == messages[c..d] + messages[d..];
    DialogueTokensConcat(messages[c..d], messages[d..]);
  }

  /** The suffix found fits, and no longer suffix does. */
  lemma {:induction false} FirstFitIsLeast(messages: seq<Message>, budget: nat, c: nat, d: nat)
    requires c <= d <= |messages|
    ensures DialogueTokens(messages[FirstFit(messages, budget, c)..]) <= budget
    ensures DialogueTokens(messages[d..]) <= budget ==> FirstFit(messages, budget, c) <= d
    decreases |messages| - c
  {
    if DialogueTokens(messages[c..]) > budget {
      assert c < |messages|;
      if c < d {
        FirstFitIsLeast(messages, budget, c + 1, d);
      } else {
        FirstFitIsLeast(messages, budget, c + 1, c + 1);
      }
    }
  }

  /**
   The window is exactly the longest admissible one: a suffix that starts at a
   user turn is kept whole if and only if its dialogue fits what the system
   messages leave of the budget, which is nothing when they exceed it.
   */
  lemma WindowIsLongest(messages: seq<Message>, maxTokens: nat, d: nat)
    requires d < |messages| && messages[d].role == User
    ensures WindowStart(messages, maxTokens) <= d <==> DialogueTokens(messages[d..]) <= Budget(messages, maxTokens)
    ensures WindowStart(messages, maxTokens) <= d
            <==> || TotalTokens(Systems(messages)) + DialogueTokens(messages[d..]) <= maxTokens
                 || (TotalTokens(Systems(messages)) > maxTokens && DialogueTokens(messages[d..]) == 0)
  {
    var budget := Budget(messages, maxTokens);
    var c := FirstFit(messages, budget, 0);
    FirstFitIsLeast(messages, budget, 0, d);
    if c <= d {
      DialogueShrinks(messages, c, d);
    }
  }

  /** The trimmed conversation is within budget whenever its system messages are. */
  lemma AssembledFits(messages: seq<Message>, maxTokens: nat)
    ensures TotalTokens(Assembled(messages, maxTokens)) <=
            if TotalTokens(Systems(messages)) <= maxTokens then maxTokens else TotalTokens(Systems(messages))
    ensures Systems(Assembled(messages, maxTokens)) == Systems(messages)
  {
    var budget, w := Budget(messages, maxTokens), WindowStart(messages, maxTokens);
    var out := Assembled(messages, maxTokens);
    var c := FirstFit(messages, budget, 0);
    FirstFitIsLeast(messages, budget, 0, |messages|);
    DialogueShrinks(messages, c, w);
    KeepsSystems(messages, w);
    DialogueTokensConcat(Systems(messages[..w]), messages[w..]);
    SystemsAreSystem(messages[..w]);
    TokensSplit(out);
  }

  lemma KeepsSystems(messages: seq<Message>, w: nat)
    requires w <= |messages|
    ensures Systems(Systems(messages[..w]) + messages[w..]) == Systems(messages)
  {
    hide Systems, DialogueTokens;
    var before, rest := messages[..w], messages[w..];
    SystemsConcat(Systems(before), rest);
    SystemsAreSystem(before);
    SystemsConcat(before, rest);
    assert before + rest == messages;
  }

  /** The first message that is not a system message, if any, is a user turn. */
  predicate StartsWithUser(messages: seq<Message>) {
    messages == [] || (if messages[0].role == System then StartsWithUser(messages[1..]) else messages[0].role == User)
  }

  lemma {:induction false} SystemsThenUser(systems: seq<Message>, rest: seq<Message>)
    requires forall m | m in systems :: m.role == System
    requires rest == [] || rest[0].role == User
    ensures StartsWithUser(systems + rest)
  {
    if systems == [] {
      assert systems + rest == rest;
    } else {
      assert (systems + rest)[1..] == systems[1..] + rest;
      SystemsThenUser(systems[1..], rest);
    }
  }

  lemma AssembledStartsWithUser(messages: seq<Message>, maxTokens: nat)
    ensures StartsWithUser(Assembled(messages, maxTokens))
  {
    var w := WindowStart(messages, maxTokens);
    SystemsAreSystem(messages[..w]);
    SystemsThenUser(Systems(messages[..w]), messages[w..]);
  }

  /** No kept assistant or tool message loses the dialogue message before it. */
  lemma KeepsPredecessor(messages: seq<Message>, maxTokens: nat, i: nat, j: nat)
    requires WindowStart(messages, maxTokens) <= i < |messages|
    requires messages[i].role == Assistant || messages[i].role == Tool
    requires j < i && messages[j].role != System && forall k | j < k < i :: messages[k].role == System
    ensures WindowStart(messages, maxTokens) <= j
  {
  }

  /** `kept` holds the messages at `places`, in order: every system message, and everything from `w` on. */
  predicate Keeps(messages: seq<Message>, w: nat, places: seq<nat>, kept: seq<Message>) {
    && |places| == |kept|
    && (forall i | 0 <= i < |places| :: places[i] < |messages| && kept[i] == messages[places[i]])
    && (forall i, j | 0 <= i < j < |places| :: places[i] < places[j])
    && (forall k: nat | k < |messages| :: k in places <==> messages[k].role == System || k >= w)
  }

  lemma KeepMore(messages: seq<Message>, w: nat, places: seq<nat>, kept: seq<Message>)
    requires messages != [] && Keeps(messages[..|messages| - 1], w, places, kept)
    ensures var n: nat := |messages| - 1;
            if messages[n].role == System || n >= w then Keeps(messages, w, places + [n], kept + [messages[n]])
            else Keeps(messages, w, places, kept)
  {
    var n: nat := |messages| - 1;
    assert forall k: nat | k < n :: messages[..n][k] == messages[k];
    assert n !in places;
    assert forall k: nat :: k in places + [n] <==> k in places || k == n;
  }

  /** The system messages before `w`, and everything from `w` on. */
  function From(messages: seq<Message>, w: nat): seq<Message> {
    if w <= |messages| then Systems(messages[..w]) + messages[w..] else Systems(messages)
  }

  lemma {:induction false} FromKeeps(messages: seq<Message>, w: nat) returns (places: seq<nat>)
    ensures Keeps(messages, w, places, From(messages, w))
    decreases |messages|
  {
    hide Keeps, From;
    if messages == [] {
      places := [];
      KeepNone(w);
    } else {
      var n: nat := |messages| - 1;
      places := FromKeeps(messages[..n], w);
      KeepMore(messages, w, places, From(messages[..n], w));
      OneMore(messages, w);
      if messages[n].role == System || n >= w {
        places := places + [n];
      }
    }
  }

  lemma KeepNone(w: nat)
    ensures Keeps([], w, [], From([], w))
  {
  }

  lemma OneMore(messages: seq<Message>, w: nat)
    requires messages != []
    ensures var n: nat := |messages| - 1;
            From(messages, w) == if messages[n].role == System || n >= w then From(messages[..n], w) + [messages[n]]
                                 else From(messages[..n], w)
  {
    var n: nat := |messages| - 1;
    var before, m := messages[..n], messages[n];
    SystemsConcat(before, [m]);
    assert before + [m] == messages && [m][1..] == [];
    if w <= n {
      assert messages[..w] == before[..w] && messages[w..] == before[w..] + [m];
    } else {
      assert w == |messages| ==> messages[..w] == messages && messages[w..] == [];
    }
  }

  /** Trimming drops exactly the dialogue before its window, and keeps the order of the rest. */
  lemma AssembledKeeps(messages: seq<Message>, maxTokens: nat) returns (places: seq<nat>)
    ensures Keeps(messages, WindowStart(messages, maxTokens), places, Assembled(messages, maxTokens))
  {
    hide Keeps, WindowStart;
    places := FromKeeps(messages, WindowStart(messages, maxTokens));
  }

  /** Trimming a trimmed conversation changes nothing. */
  lemma AssembledIdempotent(messages: seq<Message>, maxTokens: nat)
    ensures Assembled(Assembled(messages, maxTokens), maxTokens) == Assembled(messages, maxTokens)
  {
    var w, out := WindowStart(messages, maxTokens), Assembled(messages, maxTokens);
    var systems, rest := Systems(messages[..w]), messages[w..];
    SystemsAreSystem(messages[..w]);
    KeepsSystems(messages, w);
    assert Budget(out, maxTokens) == Budget(messages, maxTokens);
    var c := FirstFit(messages, Budget(messages, maxTokens), 0);
    FirstFitIsLeast(messages, Budget(messages, maxTokens), 0, |messages|);
    DialogueShrinks(messages, c, w);
    DialogueTokensConcat(systems, rest);
    assert out[0..] == out;
    FitsWhole(systems, rest, Budget(out, maxTokens));
  }

  lemma FitsWhole(systems: seq<Message>, rest: seq<Message>, budget: nat)
    requires forall m | m in systems :: m.role == System
    requires rest == [] || rest[0].role == User
    requires DialogueTokens(systems + rest) <= budget
    ensures var out := systems + rest;
            var w := NextUser(out, FirstFit(out, budget, 0));
            Systems(out[..w]) + out[w..] == out
  {
    var out := systems + rest;
    assert out[0..] == out;
    var w := NextUser(out, 0);
    forall k | 0 <= k < |systems| ensures out[k].role == System {
      assert out[k] == systems[k];
    }
    assert rest != [] ==> out[|systems|] == rest[0];
    assert out[..w] == systems && out[w..] == rest;
    AllSystems(systems);
  }

  lemma {:induction false} AllSystems(systems: seq<Message>)
    requires forall m | m in systems :: m.role == System
    ensures Systems(systems) == systems
  {
    if systems != [] {
      AllSystems(systems[1..]);
    }
  }

  /** A larger budget keeps at least as much: the same system messages and a window that starts no later. */
  lemma AssembledMonotone(messages: seq<Message>, small: nat, large: nat)
    requires small <= large
    ensures WindowStart(messages, large) <= WindowStart(messages, small)
  {
    var w := WindowStart(messages, small);
    if w < |messages| {
      WindowIsLongest(messages, small, w);
      WindowIsLongest(messages, large, w);
    }
  }

  // ------------------------------------------------------------ the algorithm

  /** Trim `messages` to `maxTokens`, in the order and with the flags the source uses. */
  method Assemble(messages: seq<Message>, maxTokens: nat) returns (kept: seq<Message>)
    ensures kept == Assembled(messages, maxTokens)
  {
    var systemTokens := TotalTokens(Systems(messages));
    var budget: nat := if systemTokens <= maxTokens then maxTokens - systemTokens else 0;
    var keep := new bool[|messages|](_ => false);
    var cut := MarkNewest(messages, budget, keep);
    var w := DropLeading(messages, keep, cut);
    kept := CollectKept(messages, keep, w);
  }

  /** Flag every system message, and the newest dialogue messages while they fit. */
  method MarkNewest(messages: seq<Message>, allowance: nat, keep: array<bool>) returns (ghost cut: nat)
    requires keep.Length == |messages| && forall k | 0 <= k < |messages| :: !keep[k]
    modifies keep
    ensures cut == FirstFit(messages, allowance, 0)
    ensures forall k | 0 <= k < |messages| :: keep[k] <==> messages[k].role == System || k >= cut
  {
    var budget: nat := allowance;
    var windowClosed := false;
    cut := 0;
    for i := |messages| downto 0
      invariant forall k | 0 <= k < i :: !keep[k]
      invariant forall k | i <= k < |messages| :: keep[k] <==> messages[k].role == System || (windowClosed ==> k >= cut)
      invariant !windowClosed ==> budget + DialogueTokens(messages[i..]) == allowance
      invariant windowClosed ==> i < cut == FirstFit(messages, allowance, 0)
    {
      DialogueStep(messages, i);
      if messages[i].role == System {
        keep[i] := true;
        continue;
      }
      if windowClosed {
        continue;
      }
      var cost := Cost(messages[i]);
      if cost <= budget {
        budget := budget - cost;
        keep[i] := true;
      } else {
        windowClosed := true;
        cut := i + 1;
        CutHere(messages, allowance, i);
      }
    }
    assert messages[0..] == messages;
    if !windowClosed {
      cut := 0;
      FirstFitIsLeast(messages, allowance, 0, 0);
    }
  }

  lemma DialogueStep(messages: seq<Message>, i: nat)
    requires i < |messages|
    ensures DialogueTokens(messages[i..]) ==
            (if messages[i].role == System then 0 else Cost(messages[i])) + DialogueTokens(messages[i + 1..])
  {
    assert messages[i..][1..] == messages[i + 1..];
  }

  lemma CutHere(messages: seq<Message>, budget: nat, c: nat)
    requires c < |messages|
    requires DialogueTokens(messages[c + 1..]) <= budget < DialogueTokens(messages[c..])
    ensures FirstFit(messages, budget, 0) == c + 1
  {
    FirstFitIsLeast(messages, budget, 0, c + 1);
    var f := FirstFit(messages, budget, 0);
    if f <= c {
      DialogueShrinks(messages, f, c);
    }
  }

  /** Unflag leading dialogue messages until the first user turn. */
  method DropLeading(messages: seq<Message>, keep: array<bool>, ghost cut: nat) returns (ghost w: nat)
    requires keep.Length == |messages| && cut <= |messages|
    requires forall k | 0 <= k < |messages| :: keep[k] <==> messages[k].role == System || k >= cut
    modifies keep
    ensures w == NextUser(messages, cut)
    ensures forall k | 0 <= k < |messages| :: keep[k] <==> messages[k].role == System || k >= w
  {
    w := NextUser(messages, cut);
    var i := 0;
    while i < |messages|
      invariant 0 <= i <= |messages|
      invariant forall k | 0 <= k < i :: keep[k] <==> messages[k].role == System
      invariant forall k | i <= k < |messages| :: keep[k] <==> messages[k].role == System || k >= cut
      invariant i <= w
    {
      if messages[i].role == System || !keep[i] {
        i := i + 1;
        continue;
      }
      if messages[i].role == User {
        break;
      }
      keep[i] := false;
      i := i + 1;
    }
  }

  method CollectKept(messages: seq<Message>, keep: array<bool>, ghost w: nat) returns (kept: seq<Message>)
    requires keep.Length == |messages| && w <= |messages|
    requires forall k | 0 <= k < |messages| :: keep[k] <==> messages[k].role == System || k >= w
    ensures kept == Systems(messages[..w]) + messages[w..]
  {
    kept := [];
    assert messages[..0] == [];
    for i := 0 to |messages|
      invariant kept == if i <= w then Systems(messages[..i]) else Systems(messages[..w]) + messages[w..i]
    {
      if i < w {
        SystemsConcat(messages[..i], [messages[i]]);
        assert messages[..i + 1] == messages[..i] + [messages[i]];
        assert [messages[i]][1..] == [];
      }
      if keep[i] {
        kept := kept + [messages[i]];
      }
    }
    assert messages[w..|messages|] == messages[w..];
  }
}
