/** Conversation messages and the token estimate shared by trimming, pruning and compaction. */
module Conversation {
  import opened Common

  datatype Role = System | User | Assistant | Tool

  datatype Message = Message(role: Role, content: string)

  /** Bytes of a Unicode scalar value in UTF-8. */
  function Utf8Width(c: char): nat {
    if c as int < 0x80 then 1 else if c as int < 0x800 then 2 else if c as int < 0x1_0000 then 3 else 4
  }

  function Utf8Length(text: string): nat {
    if text == "" then 0 else Utf8Width(text[0]) + Utf8Length(text[1..])
  }

  /** About four bytes per token, rounded up. */
  function EstimateTokens(text: string): nat {
    (Utf8Length(text) + 3) / 4
  }

  /** The least number of tokens that, at four bytes each, hold the text. */
  lemma EstimateIsCeiling(text: string)
    ensures 4 * EstimateTokens(text) >= Utf8Length(text)
    ensures forall n: nat | 4 * n >= Utf8Length(text) :: EstimateTokens(text) <= n
  {
  }

  function Cost(m: Message): nat {
    EstimateTokens(m.content)
  }

  function TotalTokens(messages: seq<Message>): nat {
    if messages == [] then 0 else Cost(messages[0]) + TotalTokens(messages[1..])
  }

  lemma {:induction false} TotalTokensConcat(a: seq<Message>, b: seq<Message>)
    ensures TotalTokens(a + b) == TotalTokens(a) + TotalTokens(b)
  {
    if a == [] {
      assert a + b == b;
    } else {
      assert (a + b)[1..] == a[1..] + b;
      TotalTokensConcat(a[1..], b);
    }
  }

  lemma {:induction false} Utf8LengthConcat(a: string, b: string)
    ensures Utf8Length(a + b) == Utf8Length(a) + Utf8Length(b)
  {
    if a == "" {
      assert a + b == b;
    } else {
      assert (a + b)[1..] == a[1..] + b;
      Utf8LengthConcat(a[1..], b);
    }
  }

  /** Every character takes one to four bytes. */
  lemma {:induction false} Utf8LengthBounds(text: string)
    ensures |text| <= Utf8Length(text) <= 4 * |text|
  {
    if text != "" {
      Utf8LengthBounds(text[1..]);
    }
  }

  predicate Ascii(text: string) {
    forall i | 0 <= i < |text| :: text[i] < 128 as char
  }

  lemma {:induction false} AsciiLength(text: string)
    requires Ascii(text)
    ensures Utf8Length(text) == |text|
  {
    if text != "" {
      AsciiLength(text[1..]);
    }
  }

  /** The system messages of a conversation, in order. */
  function Systems(messages: seq<Message>): seq<Message> {
    if messages == [] then []
    else (if messages[0].role == System then [messages[0]] else []) + Systems(messages[1..])
  }

  /** Cost of the messages that are not system messages. */
  function DialogueTokens(messages: seq<Message>): nat {
    if messages == [] then 0
    else (if messages[0].role == System then 0 else Cost(messages[0])) + DialogueTokens(messages[1..])
  }

  lemma {:induction false} SystemsConcat(a: seq<Message>, b: seq<Message>)
    ensures Systems(a + b) == Systems(a) + Systems(b)
  {
    if a == [] {
      assert a + b == b;
    } else {
      assert (a + b)[1..] == a[1..] + b;
      SystemsConcat(a[1..], b);
      Reassociate(if a[0].role == System then [a[0]] else [], Systems(a[1..]), Systems(b));
    }
  }

  lemma {:induction false} DialogueTokensConcat(a: seq<Message>, b: seq<Message>)
    ensures DialogueTokens(a + b) == DialogueTokens(a) + DialogueTokens(b)
  {
    if a == [] {
      assert a + b == b;
    } else {
      assert (a + b)[1..] == a[1..] + b;
      DialogueTokensConcat(a[1..], b);
    }
  }

  lemma {:induction false} TokensSplit(messages: seq<Message>)
    ensures TotalTokens(messages) == TotalTokens(Systems(messages)) + DialogueTokens(messages)
  {
    if messages != [] {
      TokensSplit(messages[1..]);
      if messages[0].role == System {
        assert Systems(messages)[1..] == Systems(messages[1..]);
      } else {
        assert Systems(messages) == Systems(messages[1..]);
      }
    }
  }

  lemma {:induction false} SystemsAreSystem(messages: seq<Message>)
    ensures forall m | m in Systems(messages) :: m.role == System
    ensures Systems(Systems(messages)) == Systems(messages)
    ensures DialogueTokens(Systems(messages)) == 0
  {
    if messages != [] {
      SystemsAreSystem(messages[1..]);
      if messages[0].role == System {
        assert Systems(messages)[1..] == Systems(messages[1..]);
      } else {
        assert Systems(messages) == Systems(messages[1..]);
      }
    }
  }
}
