/**
 What a turn sends to its provider for a given conversation, and why pruning on
 every iteration sends the same as pruning the whole conversation once.
 */
module AgentRequests {
  import opened Common
  import opened Conversation
  import opened Assembly
  import opened Pruning

  /** The provider sees tool results as user turns. */
  function ProviderView(messages: seq<Message>): (view: seq<Message>)
    ensures |view| == |messages| && forall m | m in view :: m.role != Tool
    ensures TotalTokens(view) == TotalTokens(messages) && Systems(view) == Systems(messages)
  {
    if messages == [] then []
    else
      var m := messages[0];
      var view := [if m.role == Tool then m.(role := User) else m] + ProviderView(messages[1..]);
      assert view[1..] == ProviderView(messages[1..]);
      view
  }

  /** Converting for the provider changes no text and no role but that of a tool result, which becomes a user turn. */
  lemma {:induction false} ViewKeepsContent(messages: seq<Message>, i: nat)
    requires i < |messages|
    ensures ProviderView(messages)[i].content == messages[i].content
    ensures messages[i].role != Tool ==> ProviderView(messages)[i].role == messages[i].role
    ensures messages[i].role == Tool ==> ProviderView(messages)[i].role == User
  {
    if i > 0 {
      ViewKeepsContent(messages[1..], i - 1);
    }
  }

  lemma {:induction false} ViewStartsWithUser(messages: seq<Message>)
    requires StartsWithUser(messages)
    ensures StartsWithUser(ProviderView(messages))
  {
    if messages != [] && messages[0].role == System {
      ViewStartsWithUser(messages[1..]);
      assert ProviderView(messages)[1..] == ProviderView(messages[1..]);
    }
  }

  /** Every tool result is short enough that pruning it twice is pruning it once. */
  predicate AllSettle(messages: seq<Message>) {
    forall m | m in messages && m.role == Tool :: Settles(m.content)
  }

  /** What pruning, trimming and converting a conversation once yields. */
  function Sent(messages: seq<Message>): seq<Message> {
    ProviderView(Assembled(Pruned(messages), DEFAULT_BUDGET_TOKENS))
  }

  /**
   What every provider accepts: no tool role, a user turn first, and no more than the
   budget or the system messages take.
   */
  ghost predicate WellFormedRequest(messages: seq<Message>) {
    && (forall m | m in messages :: m.role != Tool)
    && StartsWithUser(messages)
    && (TotalTokens(messages) <= DEFAULT_BUDGET_TOKENS || TotalTokens(messages) <= TotalTokens(Systems(messages)))
  }

  lemma SentIsWellFormed(messages: seq<Message>)
    ensures WellFormedRequest(Sent(messages))
  {
    var kept := Assembled(Pruned(messages), DEFAULT_BUDGET_TOKENS);
    AssembledStartsWithUser(Pruned(messages), DEFAULT_BUDGET_TOKENS);
    ViewStartsWithUser(kept);
    AssembledFits(Pruned(messages), DEFAULT_BUDGET_TOKENS);
  }

  // --------------------------------------- pruning as the turn goes along

  /** `messages` was obtained from `raw` by pruning along the way: whatever is added, pruning now gives the same. */
  ghost predicate InStep(messages: seq<Message>, raw: seq<Message>) {
    AllSettle(raw) ==> forall more :: Pruned(messages + more) == Pruned(raw + more)
  }

  lemma InStepAppend(messages: seq<Message>, raw: seq<Message>, new': seq<Message>)
    requires InStep(messages, raw)
    ensures InStep(messages + new', raw + new')
  {
    if AllSettle(raw + new') {
      assert forall m | m in raw :: m in raw + new';
      forall more ensures Pruned(messages + new' + more) == Pruned(raw + new' + more) {
        Reassociate(messages, new', more);
        Reassociate(raw, new', more);
      }
    }
  }

  lemma {:induction false} SettledFromAll(messages: seq<Message>, newer: nat)
    requires AllSettle(messages)
    ensures SettledBefore(messages, newer)
  {
    if messages != [] {
      SettledFromAll(messages[1..], newer);
    }
  }

  lemma InStepPrune(messages: seq<Message>, raw: seq<Message>)
    requires InStep(messages, raw)
    ensures InStep(Pruned(messages), raw)
    ensures AllSettle(raw) ==> Pruned(messages) == Pruned(raw)
  {
    if AllSettle(raw) {
      assert messages + [] == messages && raw + [] == raw;
      assert Pruned(messages + []) == Pruned(raw + []);
      SettledFromAll(raw, 0);
      forall more ensures Pruned(Pruned(messages) + more) == Pruned(raw + more) {
        PruneConfluent(raw, more);
      }
    }
  }
}
