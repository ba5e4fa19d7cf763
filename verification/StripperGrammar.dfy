/**
 What comments and literals are, said by printing: a text is a succession of pieces, each
 with its own blanked form. Every text reads as such a succession, and stripping it gives
 the blanked pieces, whichever way it is read.
 */
module StripperGrammar {
  import opened Common
  import opened Stripper

  /** What stands in a literal: a byte by itself, or a backslash with the byte after it. */
  datatype Item = Single(b: byte) | Pair(b: byte)

  /** A literal ends with its quote, is cut short by the end of its line, or by the end of the text. */
  datatype Ending = Closed | CutByLine | CutByEnd

  datatype Piece =
    | Plain(b: byte)
    | ToLineEnd(body: seq<byte>)
    | Enclosed(body: seq<byte>, closed: bool)
    | Quoted(quote: byte, items: seq<Item>, ending: Ending)

  // ---------------------------------------------------------------- printing

  function ItemSource(item: Item): seq<byte> {
    match item
    case Single(b) => [b]
    case Pair(b) => [BACKSLASH, b]
  }

  function ItemsSource(items: seq<Item>): seq<byte> {
    if items == [] then [] else ItemSource(items[0]) + ItemsSource(items[1..])
  }

  function EndingSource(quote: byte, ending: Ending): seq<byte> {
    match ending
    case Closed => [quote]
    case CutByLine => [NEWLINE]
    case CutByEnd => []
  }

  function Source(p: Piece): seq<byte> {
    match p
    case Plain(b) => [b]
    case ToLineEnd(body) => [SLASH, SLASH] + body
    case Enclosed(body, closed) => [SLASH, STAR] + body + if closed then [STAR, SLASH] else []
    case Quoted(quote, items, ending) => [quote] + ItemsSource(items) + EndingSource(quote, ending)
  }

  /** Newlines stay, everything else is blanked. */
  function LinesOf(body: seq<byte>): (lines: seq<byte>)
    ensures |lines| == |body|
  {
    seq(|body|, i requires 0 <= i < |body| => if body[i] == NEWLINE then NEWLINE else SPACE)
  }

  /** Comments become blanks, but for the newlines of an enclosed one; of a literal only its delimiters stay. */
  function Blanked(p: Piece): seq<byte> {
    match p
    case Plain(b) => [b]
    case ToLineEnd(body) => Blanks(2 + |body|)
    case Enclosed(body, closed) => Blanks(2) + LinesOf(body) + if closed then Blanks(2) else []
    case Quoted(quote, items, ending) => [quote] + Blanks(|ItemsSource(items)|) + EndingSource(quote, ending)
  }

  // ----------------------------------------------------------------- reading

  predicate ClosesAt(body: seq<byte>, i: int) {
    0 <= i < |body| - 1 && body[i] == STAR && body[i + 1] == SLASH
  }

  /** Item `i` may stand in a literal: no quote of its own, no newline, a lone backslash only at the end of the text. */
  predicate ItemFits(quote: byte, items: seq<Item>, ending: Ending, i: nat)
    requires i < |items|
  {
    items[i].Single? ==>
      && items[i].b != quote && items[i].b != NEWLINE
      && (items[i].b == BACKSLASH ==> ending == CutByEnd && i == |items| - 1)
  }

  /** The piece may stand before `rest`. */
  ghost predicate Fits(p: Piece, rest: seq<byte>) {
    match p
    case Plain(b) =>
      && b != DOUBLE_QUOTE && b != SINGLE_QUOTE
      && (b == SLASH && rest != [] ==> rest[0] != SLASH && rest[0] != STAR)
    case ToLineEnd(body) => NEWLINE !in body && (rest == [] || rest[0] == NEWLINE)
    case Enclosed(body, closed) => (forall i :: !ClosesAt(body, i)) && (closed || rest == [])
    case Quoted(quote, items, ending) =>
      && (quote == DOUBLE_QUOTE || quote == SINGLE_QUOTE) && (ending == CutByEnd ==> rest == [])
      && forall i: nat | i < |items| :: ItemFits(quote, items, ending, i)
  }

  function SourceAll(pieces: seq<Piece>): seq<byte> {
    if pieces == [] then [] else Source(pieces[0]) + SourceAll(pieces[1..])
  }

  function BlankedAll(pieces: seq<Piece>): seq<byte> {
    if pieces == [] then [] else Blanked(pieces[0]) + BlankedAll(pieces[1..])
  }

  /** Each piece may stand before what follows it. */
  ghost predicate Reading(pieces: seq<Piece>) {
    pieces == [] || (Fits(pieces[0], SourceAll(pieces[1..])) && Reading(pieces[1..]))
  }

  // --------------------------------------------------- stripping one piece

  lemma LexStep(mode: Mode, b: byte, rest: seq<byte>)
    ensures var (next, c) := Step(mode, b, Head(rest));
            Lex(mode, [b] + rest) == [c] + Lex(next, rest)
  {
    assert ([b] + rest)[1..] == rest;
  }

  lemma {:induction false} LineIsBlanked(body: seq<byte>, rest: seq<byte>)
    requires NEWLINE !in body
    ensures Lex(LineComment, body + rest) == Blanks(|body|) + Lex(LineComment, rest)
  {
    if body == [] {
      assert body + rest == rest;
    } else {
      assert body + rest == [body[0]] + (body[1..] + rest);
      LexStep(LineComment, body[0], body[1..] + rest);
      LineIsBlanked(body[1..], rest);
      assert Blanks(|body|) == [SPACE] + Blanks(|body| - 1);
    }
  }

  lemma ToLineEndStrips(body: seq<byte>, rest: seq<byte>)
    requires Fits(ToLineEnd(body), rest)
    ensures Lex(Code, Source(ToLineEnd(body)) + rest) == Blanked(ToLineEnd(body)) + Lex(Code, rest)
  {
    var tail := [SLASH] + body;
    assert Source(ToLineEnd(body)) + rest == [SLASH] + (tail + rest);
    LexStep(Code, SLASH, tail + rest);
    LineIsBlanked(tail, rest);
    if rest != [] {
      assert Step(LineComment, NEWLINE, Head(rest[1..])) == Step(Code, NEWLINE, Head(rest[1..]));
    }
    assert Lex(LineComment, rest) == Lex(Code, rest);
    assert Blanks(2 + |body|) == [SPACE] + Blanks(|tail|);
  }

  lemma InComment(b: byte, after: seq<byte>)
    requires b == STAR ==> after == [] || after[0] != SLASH
    ensures Lex(BlockComment, [b] + after) == LinesOf([b]) + Lex(BlockComment, after)
  {
    LexStep(BlockComment, b, after);
    assert LinesOf([b]) == [if b == NEWLINE then NEWLINE else SPACE];
  }

  lemma LinesConcat(a: seq<byte>, b: seq<byte>)
    ensures LinesOf(a + b) == LinesOf(a) + LinesOf(b)
  {
  }

  lemma TailNeverCloses(body: seq<byte>)
    requires body != [] && forall i :: !ClosesAt(body, i)
    ensures (forall i :: !ClosesAt(body[1..], i)) && (body[0] == STAR && |body| > 1 ==> body[1] != SLASH)
  {
    assert !ClosesAt(body, 0);
    forall i ensures !ClosesAt(body[1..], i) {
      assert !ClosesAt(body, i + 1);
    }
  }

  lemma {:induction false} BodyIsBlanked(body: seq<byte>, rest: seq<byte>)
    requires forall i :: !ClosesAt(body, i)
    requires body != [] && Last(body) == STAR ==> rest == [] || rest[0] != SLASH
    ensures Lex(BlockComment, body + rest) == LinesOf(body) + Lex(BlockComment, rest)
  {
    hide Lex, Step, LinesOf, ClosesAt;
    if body == [] {
      assert body + rest == rest;
    } else {
      var b, tail := body[0], body[1..];
      TailNeverCloses(body);
      BodyIsBlanked(tail, rest);
      InComment(b, tail + rest);
      assert body == [b] + tail;
      LinesConcat([b], tail);
      Reassociate([b], tail, rest);
      Reassociate(LinesOf([b]), LinesOf(tail), Lex(BlockComment, rest));
    }
  }

  lemma CommentOpens(after: seq<byte>)
    ensures Lex(Code, [SLASH, STAR] + after) == Blanks(2) + Lex(BlockComment, after)
  {
    assert [SLASH, STAR] + after == [SLASH] + ([STAR] + after);
    LexStep(Code, SLASH, [STAR] + after);
    LexStep(BlockOpen, STAR, after);
    assert Blanks(2) == [SPACE, SPACE];
  }

  lemma EnclosedStrips(body: seq<byte>, closed: bool, rest: seq<byte>)
    requires Fits(Enclosed(body, closed), rest)
    ensures Lex(Code, Source(Enclosed(body, closed)) + rest) == Blanked(Enclosed(body, closed)) + Lex(Code, rest)
  {
    hide Lex, Step;
    var closing := if closed then [STAR, SLASH] else [];
    assert Source(Enclosed(body, closed)) + rest == [SLASH, STAR] + (body + (closing + rest));
    CommentOpens(body + (closing + rest));
    BodyIsBlanked(body, closing + rest);
    CommentCloses(closed, rest);
  }

  lemma CommentCloses(closed: bool, rest: seq<byte>)
    requires closed || rest == []
    ensures Lex(BlockComment, (if closed then [STAR, SLASH] else []) + rest) ==
            (if closed then Blanks(2) else []) + Lex(Code, rest)
  {
    if closed {
      assert [STAR, SLASH] + rest == [STAR] + ([SLASH] + rest);
      LexStep(BlockComment, STAR, [SLASH] + rest);
      LexStep(BlockClose, SLASH, rest);
      assert Blanks(2) == [SPACE, SPACE];
    }
  }

  lemma BlanksConcat(m: nat, n: nat)
    ensures Blanks(m + n) == Blanks(m) + Blanks(n)
  {
  }

  lemma {:induction false} ItemsAreBlanked(quote: byte, items: seq<Item>, ending: Ending, rest: seq<byte>)
    requires Fits(Quoted(quote, items, ending), rest)
    ensures var after := EndingSource(quote, ending) + rest;
            Lex(Literal(quote), ItemsSource(items) + after) ==
            Blanks(|ItemsSource(items)|) + Lex(Literal(quote), after)
  {
    hide Lex, Step, ItemSource, EndingSource, Blanks;
    var after := EndingSource(quote, ending) + rest;
    if items == [] {
      NothingIsBlanked();
      assert ItemsSource(items) + after == after;
    } else {
      var tail := items[1..];
      var first, others := ItemSource(items[0]), ItemsSource(tail);
      assert ItemFits(quote, items, ending, 0);
      TailFits(quote, items, ending);
      ItemsAreBlanked(quote, tail, ending, rest);
      if items[0] == Single(BACKSLASH) {
        NothingAfterBackslash(quote, items, ending, rest);
      }
      ItemIsBlanked(quote, items[0], others + after);
      Reassociate(first, others, after);
      BlanksConcat(|first|, |others|);
      Reassociate(Blanks(|first|), Blanks(|others|), Lex(Literal(quote), after));
    }
  }

  lemma NothingIsBlanked()
    ensures Blanks(0) == []
  {
  }

  lemma NothingAfterBackslash(quote: byte, items: seq<Item>, ending: Ending, rest: seq<byte>)
    requires items != [] && Fits(Quoted(quote, items, ending), rest) && items[0] == Single(BACKSLASH)
    ensures ItemsSource(items[1..]) + (EndingSource(quote, ending) + rest) == []
  {
    assert ItemFits(quote, items, ending, 0);
  }

  lemma TailFits(quote: byte, items: seq<Item>, ending: Ending)
    requires items != [] && forall i: nat | i < |items| :: ItemFits(quote, items, ending, i)
    ensures forall i: nat | i < |items[1..]| :: ItemFits(quote, items[1..], ending, i)
  {
    forall i: nat | i < |items[1..]| ensures ItemFits(quote, items[1..], ending, i) {
      assert ItemFits(quote, items, ending, i + 1);
    }
  }

  lemma ItemIsBlanked(quote: byte, item: Item, after: seq<byte>)
    requires item.Single? ==> item.b != quote && item.b != NEWLINE && (item.b == BACKSLASH ==> after == [])
    requires quote == DOUBLE_QUOTE || quote == SINGLE_QUOTE
    ensures Lex(Literal(quote), ItemSource(item) + after) == Blanks(|ItemSource(item)|) + Lex(Literal(quote), after)
  {
    match item {
      case Single(b) =>
        LexStep(Literal(quote), b, after);
        assert Blanks(1) == [SPACE];
      case Pair(b) =>
        assert [BACKSLASH, b] + after == [BACKSLASH] + ([b] + after);
        LexStep(Literal(quote), BACKSLASH, [b] + after);
        LexStep(Escaped(quote), b, after);
        assert Blanks(2) == [SPACE, SPACE];
    }
  }

  lemma LiteralCloses(quote: byte, ending: Ending, rest: seq<byte>)
    requires (quote == DOUBLE_QUOTE || quote == SINGLE_QUOTE) && (ending == CutByEnd ==> rest == [])
    ensures Lex(Literal(quote), EndingSource(quote, ending) + rest) == EndingSource(quote, ending) + Lex(Code, rest)
  {
    if ending == CutByEnd {
      assert EndingSource(quote, ending) + rest == [];
    } else {
      LexStep(Literal(quote), EndingSource(quote, ending)[0], rest);
    }
  }

  lemma QuotedStrips(quote: byte, items: seq<Item>, ending: Ending, rest: seq<byte>)
    requires Fits(Quoted(quote, items, ending), rest)
    ensures Lex(Code, Source(Quoted(quote, items, ending)) + rest) ==
            Blanked(Quoted(quote, items, ending)) + Lex(Code, rest)
  {
    hide Lex, Blanks, ItemsSource, EndingSource;
    var source, after := ItemsSource(items), EndingSource(quote, ending) + rest;
    Reassociate([quote] + source, EndingSource(quote, ending), rest);
    Reassociate([quote], source, after);
    LexStep(Code, quote, source + after);
    ItemsAreBlanked(quote, items, ending, rest);
    LiteralCloses(quote, ending, rest);
    Reassociate([quote] + Blanks(|source|), EndingSource(quote, ending), Lex(Code, rest));
    Reassociate([quote], Blanks(|source|), EndingSource(quote, ending) + Lex(Code, rest));
  }

  lemma PieceStrips(p: Piece, rest: seq<byte>)
    requires Fits(p, rest)
    ensures Lex(Code, Source(p) + rest) == Blanked(p) + Lex(Code, rest)
  {
    match p {
      case Plain(b) => LexStep(Code, b, rest);
      case ToLineEnd(body) => ToLineEndStrips(body, rest);
      case Enclosed(body, closed) => EnclosedStrips(body, closed, rest);
      case Quoted(quote, items, ending) => QuotedStrips(quote, items, ending, rest);
    }
  }

  /** However a text reads as pieces, stripping it gives the blanked pieces. */
  lemma {:induction false} StrippedIsBlanked(pieces: seq<Piece>)
    requires Reading(pieces)
    ensures Stripped(SourceAll(pieces)) == BlankedAll(pieces)
  {
    hide Lex, Source, Blanked, Fits;
    if pieces == [] {
      NothingStrips();
    } else {
      PieceStrips(pieces[0], SourceAll(pieces[1..]));
      StrippedIsBlanked(pieces[1..]);
    }
  }

  lemma NothingStrips()
    ensures Stripped([]) == []
  {
  }

  // ------------------------------------------------- every text reads so

  lemma {:induction false} LineBody(s: seq<byte>) returns (n: nat)
    ensures n <= |s| && NEWLINE !in s[..n] && (n == |s| || s[n] == NEWLINE)
  {
    if s == [] || s[0] == NEWLINE {
      n := 0;
    } else {
      var m := LineBody(s[1..]);
      n := m + 1;
      assert s[..n] == [s[0]] + s[1..][..m];
    }
  }

  lemma {:induction false} CommentBody(s: seq<byte>) returns (n: nat)
    ensures n <= |s| && (n < |s| ==> ClosesAt(s, n)) && forall i | 0 <= i < n :: !ClosesAt(s, i)
  {
    if s == [] || ClosesAt(s, 0) {
      n := 0;
    } else {
      var m := CommentBody(s[1..]);
      n := m + 1;
      forall i | 0 <= i < n ensures !ClosesAt(s, i) {
        if i > 0 {
          assert !ClosesAt(s[1..], i - 1);
        }
      }
    }
  }

  /** The rest of a literal after its opening quote: items, and how it ends, in the first `n` bytes. */
  ghost predicate LiteralRest(s: seq<byte>, quote: byte, items: seq<Item>, ending: Ending, n: nat) {
    && n <= |s| && s[..n] == ItemsSource(items) + EndingSource(quote, ending)
    && (ending == CutByEnd ==> n == |s|) && forall i: nat | i < |items| :: ItemFits(quote, items, ending, i)
  }

  lemma {:induction false} LiteralBody(s: seq<byte>, quote: byte) returns (items: seq<Item>, ending: Ending, n: nat)
    ensures LiteralRest(s, quote, items, ending, n)
    decreases |s|
  {
    if s == [] {
      items, ending, n := [], CutByEnd, 0;
    } else if s[0] == quote {
      items, ending, n := [], Closed, 1;
    } else if s[0] == NEWLINE {
      items, ending, n := [], CutByLine, 1;
    } else if s == [BACKSLASH] {
      items, ending, n := [Single(BACKSLASH)], CutByEnd, 1;
      assert items[1..] == [];
    } else {
      var first := if s[0] == BACKSLASH then Pair(s[1]) else Single(s[0]);
      var k := |ItemSource(first)|;
      var others, m;
      others, ending, m := LiteralBody(s[k..], quote);
      items, n := [first] + others, k + m;
      MoreItems(s, quote, first, others, ending, m);
    }
  }

  lemma MoreItems(s: seq<byte>, quote: byte, first: Item, others: seq<Item>, ending: Ending, m: nat)
    requires ItemSource(first) <= s && LiteralRest(s[|ItemSource(first)|..], quote, others, ending, m)
    requires first.Single? ==> first.b != quote && first.b != NEWLINE && first.b != BACKSLASH
    ensures LiteralRest(s, quote, [first] + others, ending, |ItemSource(first)| + m)
  {
    var items, k := [first] + others, |ItemSource(first)|;
    assert items[1..] == others;
    assert s[..k + m] == ItemSource(first) + s[k..][..m];
    Reassociate(ItemSource(first), ItemsSource(others), EndingSource(quote, ending));
    forall i: nat | i < |items| ensures ItemFits(quote, items, ending, i) {
      if i > 0 {
        assert ItemFits(quote, others, ending, i - 1);
      }
    }
  }

  /** A text that is not empty begins with a piece. */
  lemma FirstPiece(text: seq<byte>) returns (p: Piece)
    requires text != []
    ensures 0 < |Source(p)| <= |text| && text == Source(p) + text[|Source(p)|..] && Fits(p, text[|Source(p)|..])
  {
    if |text| > 1 && text[0] == SLASH && text[1] == SLASH {
      var n := LineBody(text[2..]);
      p := ToLineEnd(text[2..][..n]);
      assert text == Source(p) + text[2 + n..];
    } else if |text| > 1 && text[0] == SLASH && text[1] == STAR {
      p := CommentPiece(text);
    } else if text[0] == DOUBLE_QUOTE || text[0] == SINGLE_QUOTE {
      p := LiteralPiece(text);
    } else {
      p := Plain(text[0]);
    }
  }

  lemma CommentPiece(text: seq<byte>) returns (p: Piece)
    requires |text| > 1 && text[0] == SLASH && text[1] == STAR
    ensures 0 < |Source(p)| <= |text| && text == Source(p) + text[|Source(p)|..] && Fits(p, text[|Source(p)|..])
  {
    var s := text[2..];
    var n := CommentBody(s);
    p := Enclosed(s[..n], n < |s|);
    forall i ensures !ClosesAt(s[..n], i) {
      assert 0 <= i < n ==> !ClosesAt(s, i);
    }
    if n < |s| {
      assert s == s[..n] + [STAR, SLASH] + s[n + 2..];
    } else {
      assert s[..n] == s;
    }
    assert text == [SLASH, STAR] + s;
  }

  lemma LiteralPiece(text: seq<byte>) returns (p: Piece)
    requires text != [] && (text[0] == DOUBLE_QUOTE || text[0] == SINGLE_QUOTE)
    ensures 0 < |Source(p)| <= |text| && text == Source(p) + text[|Source(p)|..] && Fits(p, text[|Source(p)|..])
  {
    hide ItemsSource;
    var items, ending, n := LiteralBody(text[1..], text[0]);
    p := Quoted(text[0], items, ending);
    assert Source(p) == [text[0]] + text[1..][..n];
    assert text == Source(p) + text[1 + n..];
  }

  /** Every text reads as a succession of pieces. */
  lemma {:induction false} EveryTextReads(text: seq<byte>) returns (pieces: seq<Piece>)
    ensures Reading(pieces) && SourceAll(pieces) == text
    decreases |text|
  {
    hide Source, Fits;
    if text == [] {
      pieces := [];
    } else {
      var p := FirstPiece(text);
      var others := EveryTextReads(text[|Source(p)|..]);
      pieces := [p] + others;
      assert pieces[1..] == others;
    }
  }

  /** In particular a text that is one comment, whatever is commented out, comes out blank but for its line ends. */
  lemma CommentsComeOutBlank(body: seq<byte>)
    ensures NEWLINE !in body ==> Stripped([SLASH, SLASH] + body) == Blanks(2 + |body|)
    ensures (forall i :: !ClosesAt(body, i)) ==>
              Stripped([SLASH, STAR] + body + [STAR, SLASH]) == Blanks(2) + LinesOf(body) + Blanks(2)
  {
    hide Stripped, Blanks, LinesOf;
    if NEWLINE !in body {
      OnePiece(ToLineEnd(body));
    }
    if forall i :: !ClosesAt(body, i) {
      OnePiece(Enclosed(body, true));
    }
  }

  lemma OnePiece(p: Piece)
    requires Fits(p, [])
    ensures Stripped(Source(p)) == Blanked(p)
  {
    hide Stripped, Source, Blanked, Fits;
    assert [p][1..] == [];
    assert SourceAll([p]) == Source(p) && BlankedAll([p]) == Blanked(p);
    StrippedIsBlanked([p]);
  }
}
