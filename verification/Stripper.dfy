/**
 Stripping comments and literals from a C translation unit. The source's nested
 index loops are proved equal to a lexer that reads one byte at a time with one
 byte of lookahead; the properties are proved about that lexer.
 */
module Stripper {
  import opened Common

  const NEWLINE: byte := 10
  const SPACE: byte := 32
  const DOUBLE_QUOTE: byte := 34
  const SINGLE_QUOTE: byte := 39
  const STAR: byte := 42
  const SLASH: byte := 47
  const BACKSLASH: byte := 92

  /**
   `BlockOpen` and `BlockClose` await the second byte of a comment delimiter,
   `Escaped` the byte after a backslash.
   */
  datatype Mode =
    | Code
    | LineComment
    | BlockOpen
    | BlockComment
    | BlockClose
    | Literal(quote: byte)
    | Escaped(quote: byte)

  predicate IsQuote(b: byte) {
    b == DOUBLE_QUOTE || b == SINGLE_QUOTE
  }

  function Head(s: seq<byte>): Option<byte> {
    if s == [] then None else Some(s[0])
  }

  /** The mode after byte `b`, followed by `next`, and the byte written for it. */
  function Step(mode: Mode, b: byte, next: Option<byte>): (Mode, byte) {
    match mode
    case Code =>
      if b == SLASH && next == Some(SLASH) then (LineComment, SPACE)
      else if b == SLASH && next == Some(STAR) then (BlockOpen, SPACE)
      else if IsQuote(b) then (Literal(b), b)
      else (Code, b)
    case LineComment => if b == NEWLINE then (Code, NEWLINE) else (LineComment, SPACE)
    case BlockOpen => (BlockComment, SPACE)
    case BlockComment =>
      if b == STAR && next == Some(SLASH) then (BlockClose, SPACE)
      else (BlockComment, if b == NEWLINE then NEWLINE else SPACE)
    case BlockClose => (Code, SPACE)
    case Literal(q) =>
      if b == q || b == NEWLINE then (Code, b)
      else if b == BACKSLASH && next.Some? then (Escaped(q), SPACE)
      else (Literal(q), SPACE)
    case Escaped(q) => (Literal(q), SPACE)
  }

  function Lex(mode: Mode, s: seq<byte>): (out: seq<byte>)
    ensures |out| == |s|
    decreases |s|
  {
    if s == [] then []
    else
      var (next, b) := Step(mode, s[0], Head(s[1..]));
      [b] + Lex(next, s[1..])
  }

  /** The stripped text. */
  function Stripped(source: seq<byte>): seq<byte> {
    Lex(Code, source)
  }

  function NextByte(bytes: seq<byte>, i: nat): Option<byte> {
    if i + 1 < |bytes| then Some(bytes[i + 1]) else None
  }

  /** `out` is the part of `target` written before byte `i`, which is about to be read in `mode`. */
  predicate Writing(target: seq<byte>, out: seq<byte>, mode: Mode, bytes: seq<byte>, i: nat)
    requires i <= |bytes|
  {
    out + Lex(mode, bytes[i..]) == target
  }

  lemma Emit(target: seq<byte>, out: seq<byte>, mode: Mode, bytes: seq<byte>, i: nat)
    requires i < |bytes| && Writing(target, out, mode, bytes, i)
    ensures var (next, b) := Step(mode, bytes[i], NextByte(bytes, i));
            Writing(target, out + [b], next, bytes, i + 1)
  {
    var (next, b) := Step(mode, bytes[i], NextByte(bytes, i));
    assert bytes[i..][1..] == bytes[i + 1..];
    assert Head(bytes[i + 1..]) == NextByte(bytes, i);
    assert out + [b] + Lex(next, bytes[i + 1..]) == out + ([b] + Lex(next, bytes[i + 1..]));
  }

  /** What the source computes with nested loops over one index. */
  method StripCommentsAndLiterals(bytes: seq<byte>) returns (out: seq<byte>)
    ensures out == Stripped(bytes)
  {
    ghost var target := Stripped(bytes);
    out := [];
    var i := 0;
    while i < |bytes|
      invariant 0 <= i <= |bytes| && Writing(target, out, Code, bytes, i)
    {
      var b := bytes[i];
      var next := NextByte(bytes, i);
      if b == SLASH && next == Some(SLASH) {
        out, i := SkipLineComment(bytes, i, out, target);
      } else if b == SLASH && next == Some(STAR) {
        out, i := SkipBlockComment(bytes, i, out, target);
      } else if b == DOUBLE_QUOTE || b == SINGLE_QUOTE {
        out, i := SkipLiteral(bytes, i, out, target);
      } else {
        Emit(target, out, Code, bytes, i);
        out := out + [b];
        i := i + 1;
      }
    }
  }

  function Blanks(n: nat): (s: seq<byte>)
    ensures |s| == n
  {
    seq(n, _ => SPACE)
  }

  method SkipLineComment(bytes: seq<byte>, start: nat, before: seq<byte>, ghost target: seq<byte>)
    returns (out: seq<byte>, i: nat)
    requires start + 1 < |bytes| && bytes[start] == SLASH && bytes[start + 1] == SLASH
    requires Writing(target, before, Code, bytes, start)
    ensures start < i <= |bytes| && Writing(target, out, Code, bytes, i)
  {
    out, i := before, start;
    ghost var mode := Code;
    while i < |bytes| && bytes[i] != NEWLINE
      invariant start <= i <= |bytes| && Writing(target, out, mode, bytes, i)
      invariant if i == start then mode == Code else mode == LineComment
    {
      Emit(target, out, mode, bytes, i);
      out := out + [SPACE];
      i := i + 1;
      mode := LineComment;
    }
    if i < |bytes| {
      // The newline is left for the main loop, which copies it.
      assert Step(LineComment, NEWLINE, NextByte(bytes, i)) == Step(Code, NEWLINE, NextByte(bytes, i));
      assert bytes[i..][0] == NEWLINE && Lex(LineComment, bytes[i..]) == Lex(Code, bytes[i..]);
    }
  }

  method SkipBlockComment(bytes: seq<byte>, start: nat, before: seq<byte>, ghost target: seq<byte>)
    returns (out: seq<byte>, i: nat)
    requires start + 1 < |bytes| && bytes[start] == SLASH && bytes[start + 1] == STAR
    requires Writing(target, before, Code, bytes, start)
    ensures start < i <= |bytes| && Writing(target, out, Code, bytes, i)
  {
    OpenComment(bytes, start, before, target);
    out, i := before + Blanks(2), start + 2;
    while i < |bytes| && !(bytes[i] == STAR && i + 1 < |bytes| && bytes[i + 1] == SLASH)
      invariant start < i <= |bytes| && Writing(target, out, BlockComment, bytes, i)
    {
      Emit(target, out, BlockComment, bytes, i);
      out := out + [if bytes[i] == NEWLINE then NEWLINE else SPACE];
      i := i + 1;
    }
    var closing := if |bytes| - i < 2 then |bytes| - i else 2;
    CloseComment(bytes, i, out, target);
    out := out + Blanks(closing);
    i := i + closing;
  }

  lemma OpenComment(bytes: seq<byte>, i: nat, out: seq<byte>, target: seq<byte>)
    requires i + 1 < |bytes| && bytes[i] == SLASH && bytes[i + 1] == STAR
    requires Writing(target, out, Code, bytes, i)
    ensures Writing(target, out + Blanks(2), BlockComment, bytes, i + 2)
  {
    Emit(target, out, Code, bytes, i);
    Emit(target, out + [SPACE], BlockOpen, bytes, i + 1);
    assert out + Blanks(2) == out + [SPACE] + [SPACE];
  }

  /** A comment ends with its two delimiter bytes blanked, or unterminated at the end of the text. */
  lemma CloseComment(bytes: seq<byte>, i: nat, out: seq<byte>, target: seq<byte>)
    requires i <= |bytes| && Writing(target, out, BlockComment, bytes, i)
    requires i < |bytes| ==> bytes[i] == STAR && NextByte(bytes, i) == Some(SLASH)
    ensures var closing := if |bytes| - i < 2 then |bytes| - i else 2;
            Writing(target, out + Blanks(closing), Code, bytes, i + closing)
  {
    if i < |bytes| {
      Emit(target, out, BlockComment, bytes, i);
      Emit(target, out + [SPACE], BlockClose, bytes, i + 1);
      assert out + Blanks(2) == out + [SPACE] + [SPACE];
    }
  }

  /** Inside a literal one byte is blanked, or two when the first is a backslash. */
  lemma EmitInLiteral(bytes: seq<byte>, i: nat, out: seq<byte>, target: seq<byte>, quote: byte)
    requires i < |bytes| && bytes[i] != quote && bytes[i] != NEWLINE
    requires Writing(target, out, Literal(quote), bytes, i)
    ensures if bytes[i] == BACKSLASH && i + 1 < |bytes|
            then Writing(target, out + [SPACE] + [SPACE], Literal(quote), bytes, i + 2)
            else Writing(target, out + [SPACE], Literal(quote), bytes, i + 1)
  {
    Emit(target, out, Literal(quote), bytes, i);
    if bytes[i] == BACKSLASH && i + 1 < |bytes| {
      Emit(target, out + [SPACE], Escaped(quote), bytes, i + 1);
    }
  }

  method SkipLiteral(bytes: seq<byte>, start: nat, before: seq<byte>, ghost target: seq<byte>)
    returns (out: seq<byte>, i: nat)
    requires start < |bytes| && IsQuote(bytes[start])
    requires Writing(target, before, Code, bytes, start)
    ensures start < i <= |bytes| && Writing(target, out, Code, bytes, i)
  {
    var quote := bytes[start];
    Emit(target, before, Code, bytes, start);
    out, i := before + [quote], start + 1;
    while i < |bytes| && bytes[i] != quote && bytes[i] != NEWLINE
      invariant start < i <= |bytes| && Writing(target, out, Literal(quote), bytes, i)
    {
      EmitInLiteral(bytes, i, out, target, quote);
      if bytes[i] == BACKSLASH && i + 1 < |bytes| {
        out := out + [SPACE];
        i := i + 1;
      }
      out := out + [SPACE];
      i := i + 1;
    }
    if i < |bytes| {
      Emit(target, out, Literal(quote), bytes, i);
      out := out + [bytes[i]];
      i := i + 1;
    }
  }

  // ------------------------------------------------------- shape of the output

  /** Every byte is kept or blanked; line structure is kept outside escapes. */
  lemma {:induction false} KeptOrBlanked(mode: Mode, s: seq<byte>, i: nat)
    requires i < |s|
    ensures Lex(mode, s)[i] == s[i] || Lex(mode, s)[i] == SPACE
    decreases |s|
  {
    var (next, b) := Step(mode, s[0], Head(s[1..]));
    if i > 0 {
      KeptOrBlanked(next, s[1..], i - 1);
    }
  }

  /** Nothing but blanks and newlines comes out of a comment or a literal's contents. */
  function Clean(mode: Mode): Mode {
    match mode
    case Literal(q) => Literal(q)
    case Escaped(q) => Literal(q)
    case _ => Code
  }

  /** Facts that hold of every mode reached from `Code`. */
  predicate Reachable(mode: Mode, s: seq<byte>) {
    match mode
    case Literal(q) => IsQuote(q)
    case Escaped(q) => IsQuote(q)
    case BlockOpen => s != [] && s[0] == STAR
    case BlockClose => s != [] && s[0] == SLASH
    case _ => true
  }

  lemma StepReachable(mode: Mode, s: seq<byte>)
    requires s != [] && Reachable(mode, s)
    ensures Reachable(Step(mode, s[0], Head(s[1..])).0, s[1..])
  {
  }

  /** Lexing stripped text again, in the mode that its blanks stand for, changes nothing. */
  lemma {:induction false} LexIdempotent(mode: Mode, s: seq<byte>)
    requires Reachable(mode, s)
    ensures Lex(Clean(mode), Lex(mode, s)) == Lex(mode, s)
    decreases |s|
  {
    if s != [] {
      var (next, b) := Step(mode, s[0], Head(s[1..]));
      var rest := Lex(next, s[1..]);
      StepReachable(mode, s);
      LexIdempotent(next, s[1..]);
      assert Lex(mode, s)[1..] == rest;
    }
  }

  /** Stripping is idempotent. */
  lemma StrippedIdempotent(source: seq<byte>)
    ensures Stripped(Stripped(source)) == Stripped(source)
  {
    LexIdempotent(Code, source);
  }

  // ------------------------------------------------------------------ newlines

  /** The mode in which byte `i` is read. */
  function ModeAt(mode: Mode, s: seq<byte>, i: nat): Mode
    requires i < |s|
    decreases i
  {
    if i == 0 then mode else ModeAt(Step(mode, s[0], Head(s[1..])).0, s[1..], i - 1)
  }

  lemma {:induction false} NewlineKept(mode: Mode, s: seq<byte>, i: nat)
    requires i < |s| && Reachable(mode, s)
    ensures Lex(mode, s)[i] == NEWLINE <==> s[i] == NEWLINE && !ModeAt(mode, s, i).Escaped?
    decreases i
  {
    if i > 0 {
      StepReachable(mode, s);
      NewlineKept(Step(mode, s[0], Head(s[1..])).0, s[1..], i - 1);
    }
  }

  /** Newlines survive stripping exactly where they are not escaped inside a literal. */
  lemma NewlinesKeptUnlessEscaped(source: seq<byte>, i: nat)
    requires i < |source|
    ensures Stripped(source)[i] == NEWLINE <==> source[i] == NEWLINE && !ModeAt(Code, source, i).Escaped?
  {
    NewlineKept(Code, source, i);
  }

  /** A line continuation inside a string literal loses its newline, so line numbers after it shift. */
  lemma ContinuationLosesItsNewline()
    ensures var source := [DOUBLE_QUOTE, BACKSLASH, NEWLINE, DOUBLE_QUOTE];
            Stripped(source) == [DOUBLE_QUOTE, SPACE, SPACE, DOUBLE_QUOTE]
  {
    var source := [DOUBLE_QUOTE, BACKSLASH, NEWLINE, DOUBLE_QUOTE];
    var target := Stripped(source);
    Emit(target, [], Code, source, 0);
    Emit(target, [DOUBLE_QUOTE], Literal(DOUBLE_QUOTE), source, 1);
    Emit(target, [DOUBLE_QUOTE, SPACE], Escaped(DOUBLE_QUOTE), source, 2);
    Emit(target, [DOUBLE_QUOTE, SPACE, SPACE], Literal(DOUBLE_QUOTE), source, 3);
  }
}
