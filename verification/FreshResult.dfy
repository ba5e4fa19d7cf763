/**
 Bounding one fresh tool result: a head and a tail with a notice of what was left
 out, or a preview of a copy saved elsewhere that is no longer than allowed.
 */
module FreshResult {
  import opened Common
  import opened Numerals
  import opened Conversation
  import opened Pruning

  const MAX_FRESH_TOOL_RESULT_CHARS := 12_000
  const FRESH_TOOL_RESULT_KEEP_CHARS := 4_000

  // ------------------------------------------------------------ inline excerpt

  function OmissionNotice(omitted: nat): string {
    "\n[... " + Decimal(omitted) + OmissionTail()
  }

  function OmissionTail(): (tail: string)
    ensures |tail| == 103
  {
    " chars omitted: this " + "tool produced a large " + "result; only its head " + "and tail are kept to " +
      "fit context ...]\n"
  }

  /** The excerpt of a result that is too long to enter the conversation whole. */
  function Capped(content: string): (r: Option<string>)
    ensures r.Some? <==> |content| > MAX_FRESH_TOOL_RESULT_CHARS
  {
    var total, keep := |content|, FRESH_TOOL_RESULT_KEEP_CHARS;
    if total <= MAX_FRESH_TOOL_RESULT_CHARS then None
    else Some(content[..keep] + OmissionNotice(total - 2 * keep) + content[total - keep..])
  }

  /**
   An excerpt keeps both ends verbatim around a notice of how many characters are missing,
   is shorter than the result, and fits the cap for any length a machine can count.
   */
  lemma CappedKeepsEnds(content: string)
    requires |content| > MAX_FRESH_TOOL_RESULT_CHARS
    ensures KeepsEnds(content, Capped(content).value, 4_000)
    ensures var excerpt := Capped(content).value;
            excerpt[4_000..|excerpt| - 4_000] == "\n[... " + Decimal(|content| - 8_000) + OmissionTail()
    ensures |Capped(content).value| < |content|
    ensures |content| <= U64_MAX ==> |Capped(content).value| <= MAX_FRESH_TOOL_RESULT_CHARS
  {
    var keep := FRESH_TOOL_RESULT_KEEP_CHARS;
    var omitted := |content| - 2 * keep;
    var excerpt := Capped(content).value;
    assert |excerpt| == 2 * keep + 109 + |Decimal(omitted)|;
    assert excerpt[..keep] == content[..keep];
    assert excerpt[keep..|excerpt| - keep] == OmissionNotice(omitted);
    assert excerpt[|excerpt| - keep..] == content[|content| - keep..];
    DecimalIsShort(omitted);
    TwentyDigits();
    DecimalLength(omitted, 20);
  }

  lemma TwentyDigits()
    ensures U64_MAX < Pow(10, 20)
  {
    assert Pow(10, 6) == 1_000_000;
    assert Pow(10, 12) == 1_000_000_000_000;
    assert Pow(10, 18) == 1_000_000_000_000_000_000;
  }

  // ---------------------------------------------------- preview of a saved copy

  /** The longest prefix of at most `max` bytes that splits no character. */
  function HeadWithin(s: string, max: nat): string {
    if s == "" || Utf8Width(s[0]) > max then "" else [s[0]] + HeadWithin(s[1..], max - Utf8Width(s[0]))
  }

  /** The longest suffix of at most `max` bytes that splits no character. */
  function TailWithin(s: string, max: nat): string {
    if s == "" || Utf8Width(Last(s)) > max then "" else TailWithin(Init(s), max - Utf8Width(Last(s))) + [Last(s)]
  }

  lemma {:induction false} HeadWithinIsLongest(s: string, max: nat, k: nat)
    requires k <= |s|
    ensures HeadWithin(s, max) <= s && Utf8Length(HeadWithin(s, max)) <= max
    ensures Utf8Length(s[..k]) <= max ==> k <= |HeadWithin(s, max)|
  {
    if s != "" && Utf8Width(s[0]) <= max {
      var rest := HeadWithin(s[1..], max - Utf8Width(s[0]));
      HeadWithinIsLongest(s[1..], max - Utf8Width(s[0]), if k > 0 then k - 1 else 0);
      assert ([s[0]] + rest)[1..] == rest;
      assert s == [s[0]] + s[1..];
    }
    if k > 0 {
      assert s[..k][1..] == s[1..][..k - 1];
    }
  }

  lemma {:induction false} TailWithinFits(s: string, max: nat)
    ensures |TailWithin(s, max)| <= |s| && TailWithin(s, max) == s[|s| - |TailWithin(s, max)|..]
    ensures Utf8Length(TailWithin(s, max)) <= max
  {
    hide Utf8Length;
    if s != "" && Utf8Width(Last(s)) <= max {
      var w := Utf8Width(Last(s));
      var rest := TailWithin(Init(s), max - w);
      TailWithinFits(Init(s), max - w);
      OneCharacter(Last(s));
      Utf8LengthConcat(rest, [Last(s)]);
      assert s == Init(s) + [Last(s)];
    } else {
      Utf8LengthBounds("");
    }
  }

  lemma {:induction false} TailWithinIsLongest(s: string, max: nat, k: nat)
    requires k <= |s| && Utf8Length(s[|s| - k..]) <= max
    ensures k <= |TailWithin(s, max)|
  {
    hide Utf8Length;
    if k > 0 {
      var w := Utf8Width(Last(s));
      assert s[|s| - k..] == Init(s)[|s| - k..] + [Last(s)];
      Utf8LengthConcat(Init(s)[|s| - k..], [Last(s)]);
      OneCharacter(Last(s));
      TailWithinIsLongest(Init(s), max - w, k - 1);
    }
  }

  lemma OneCharacter(c: char)
    ensures Utf8Length([c]) == Utf8Width(c)
  {
    assert [c][1..] == "";
  }

  function PreviewNotice(bytes: nat, hint: string): string {
    "\n[... " + Decimal(bytes) + " bytes omitted; full " + "output " + hint + " ...]\n"
  }

  /** As much of both ends as fits around the notice, or of the beginning when the notice does not fit. */
  function PreviewAround(content: string, max: nat, notice: string): string {
    if Utf8Length(notice) > max then HeadWithin(content, max)
    else
      var budget := max - Utf8Length(notice);
      HeadWithin(content, budget / 2) + notice + TailWithin(content, budget - budget / 2)
  }

  /** What replaces content of more than `max` bytes that was saved where `hint` says. */
  function PreviewReplacing(content: string, max: nat, hint: string): (r: Option<string>)
    ensures r.Some? <==> Utf8Length(content) > max
  {
    var bytes := Utf8Length(content);
    if bytes <= max then None else Some(PreviewAround(content, max, PreviewNotice(bytes, hint)))
  }

  /** No longer beginning of `content` than its first `i` characters takes at most `max` bytes. */
  ghost predicate IsLongestHead(content: string, i: nat, max: nat) {
    i <= |content| && Utf8Length(content[..i]) <= max && forall k | i < k <= |content| :: Utf8Length(content[..k]) > max
  }

  /** No longer end of `content` than what starts at `j` takes at most `max` bytes. */
  ghost predicate IsLongestTail(content: string, j: nat, max: nat) {
    j <= |content| && Utf8Length(content[j..]) <= max && forall k | 0 <= k < j :: Utf8Length(content[k..]) > max
  }

  /** `preview` is the notice between two ends of `content`, each as long as its half of `budget` bytes allows. */
  ghost predicate Previews(content: string, notice: string, budget: nat, preview: string) {
    exists i: nat, j: nat ::
      && IsLongestHead(content, i, budget / 2) && IsLongestTail(content, j, budget - budget / 2)
      && preview == content[..i] + notice + content[j..]
  }

  /**
   A preview never takes more than it is allowed; it holds the notice between the longest
   ends of the content that fit around it, or, when the notice does not fit, is the
   longest beginning of the content that does.
   */
  lemma PreviewFits(content: string, max: nat, notice: string)
    ensures var preview := PreviewAround(content, max, notice);
            && Utf8Length(preview) <= max
            && if Utf8Length(notice) <= max then Previews(content, notice, max - Utf8Length(notice), preview)
               else IsLongestHead(content, |preview|, max) && preview == content[..|preview|]
  {
    hide Utf8Length, HeadWithin, TailWithin, Previews, IsLongestHead;
    HeadIsLongest(content, max);
    if Utf8Length(notice) <= max {
      EndsFit(content, max - Utf8Length(notice), notice);
    }
  }

  lemma HeadIsLongest(content: string, max: nat)
    ensures var head := HeadWithin(content, max);
            && |head| <= |content| && content[..|head|] == head && Utf8Length(head) <= max
            && IsLongestHead(content, |head|, max)
  {
    hide Utf8Length, HeadWithin;
    HeadWithinIsLongest(content, max, 0);
    var head := HeadWithin(content, max);
    assert content[..|head|] == head;
    forall k | |HeadWithin(content, max)| < k <= |content| ensures Utf8Length(content[..k]) > max {
      HeadWithinIsLongest(content, max, k);
    }
  }

  lemma TailIsLongest(content: string, max: nat)
    ensures var tail := TailWithin(content, max);
            && |tail| <= |content| && Utf8Length(tail) <= max && content[|content| - |tail|..] == tail
            && IsLongestTail(content, |content| - |tail|, max)
  {
    hide Utf8Length, TailWithin;
    TailWithinFits(content, max);
    forall k | 0 <= k < |content| - |TailWithin(content, max)| ensures Utf8Length(content[k..]) > max {
      if Utf8Length(content[k..]) <= max {
        TailWithinIsLongest(content, max, |content| - k);
      }
    }
  }

  lemma EndsFit(content: string, budget: nat, notice: string)
    ensures var preview := HeadWithin(content, budget / 2) + notice + TailWithin(content, budget - budget / 2);
            Utf8Length(preview) <= budget + Utf8Length(notice) && Previews(content, notice, budget, preview)
  {
    hide Utf8Length, HeadWithin, TailWithin, IsLongestHead, IsLongestTail;
    var head, tail := HeadWithin(content, budget / 2), TailWithin(content, budget - budget / 2);
    HeadIsLongest(content, budget / 2);
    TailIsLongest(content, budget - budget / 2);
    Utf8LengthConcat(head + notice, tail);
    Utf8LengthConcat(head, notice);
    assert Previews(content, notice, budget, content[..|head|] + notice + content[|content| - |tail|..]);
  }

  // ------------------------------------------------------ the bounded result

  /** Only an oversized result of a tool other than the read tool is offered to the store. */
  predicate WantsSaving(isRead: bool, result: string) {
    |result| > MAX_FRESH_TOOL_RESULT_CHARS && !isRead
  }

  /** How a result enters the conversation, given where the store saved it, if it did. */
  function Bounded(result: string, saved: Option<string>): string {
    match Capped(result)
    case None => result
    case Some(capped) =>
      if saved.None? then capped
      else
        match PreviewReplacing(result, MAX_FRESH_TOOL_RESULT_CHARS, saved.value)
        case Some(preview) => preview
        case None => capped
  }

  /** The longest ends around a notice that names the copy, or the longest beginning if the notice does not fit. */
  ghost predicate IsPreview(result: string, hint: string, preview: string) {
    && Utf8Length(preview) <= 12_000
    && var notice := PreviewNotice(Utf8Length(result), hint);
       if Utf8Length(notice) <= 12_000 then Previews(result, notice, 12_000 - Utf8Length(notice), preview)
       else IsLongestHead(result, |preview|, 12_000) && preview == result[..|preview|]
  }

  /**
   A result of at most 12000 characters enters whole. Any other enters shorter than it was:
   with 4000 characters of each end verbatim, or, when its full text was saved, as a preview
   of at most 12000 bytes.
   */
  ghost predicate EntersAs(result: string, saved: Option<string>, bounded: string) {
    && (|result| <= 12_000 ==> bounded == result)
    && (|result| > 12_000 ==> |bounded| < |result|)
    && (|result| <= U64_MAX ==> |bounded| <= 12_000)
    && (|result| > 12_000 && saved.None? ==> KeepsEnds(result, bounded, 4_000))
    && (|result| > 12_000 && saved.Some? ==> IsPreview(result, saved.value, bounded))
  }

  lemma BoundedEnters(result: string, saved: Option<string>)
    ensures EntersAs(result, saved, Bounded(result, saved))
  {
    hide Utf8Length, PreviewAround, PreviewNotice, Previews, IsLongestHead;
    if |result| > 12_000 {
      CappedKeepsEnds(result);
      Utf8LengthBounds(result);
      if saved.Some? {
        PreviewFits(result, MAX_FRESH_TOOL_RESULT_CHARS, PreviewNotice(Utf8Length(result), saved.value));
        Utf8LengthBounds(Bounded(result, saved));
      }
    }
  }
}
