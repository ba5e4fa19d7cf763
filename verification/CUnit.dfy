/**
 How a C translation unit enters a harness link: it is classified by the
 functions it defines and the identifiers it uses outside comments and literals.
 */
module CUnit {
  import opened Common
  import opened Parens
  import opened Stripper
  import opened StripperGrammar

  datatype UnitRole = Library | EntryProgram | FuzzEntry

  const BRACE: byte := 123
  const DOT: byte := 46
  const GREATER: byte := 62

  predicate IsIdentifierByte(b: byte) {
    48 <= b <= 57 || 65 <= b <= 90 || 97 <= b <= 122 || b == 95
  }

  predicate IsName(name: seq<byte>) {
    name != [] && forall i | 0 <= i < |name| :: IsIdentifierByte(name[i])
  }

  predicate IsWhitespace(b: byte) {
    b == 32 || b == 9 || b == 10 || b == 12 || b == 13
  }

  // ----------------------------------------------------- whole identifiers

  predicate OccursAt(code: seq<byte>, name: seq<byte>, at: nat) {
    at + |name| <= |code| && code[at..at + |name|] == name
  }

  /** The bytes on either side of the occurrence do not extend it. */
  predicate Isolated(code: seq<byte>, name: seq<byte>, at: nat)
    requires at + |name| <= |code|
  {
    && (at > 0 ==> !IsIdentifierByte(code[at - 1]))
    && (at + |name| < |code| ==> !IsIdentifierByte(code[at + |name|]))
  }

  predicate WholeIdentifierAt(code: seq<byte>, name: seq<byte>, at: nat) {
    OccursAt(code, name, at) && Isolated(code, name, at)
  }

  /** Leftmost non-overlapping occurrences from `from` on, as the standard library's `match_indices` yields them. */
  function MatchIndices(code: seq<byte>, name: seq<byte>, from: nat): (ats: seq<nat>)
    requires name != []
    ensures forall i | 0 <= i < |ats| :: from <= ats[i] && OccursAt(code, name, ats[i])
    decreases |code| - from
  {
    if from + |name| > |code| then []
    else if OccursAt(code, name, from) then [from] + MatchIndices(code, name, from + |name|)
    else MatchIndices(code, name, from + 1)
  }

  /**
   Overlaps cost nothing: an occurrence that begins inside an earlier one follows
   one of its identifier bytes, so it is not a whole identifier.
   */
  lemma {:induction false} NoWholeIdentifierIsSkipped(code: seq<byte>, name: seq<byte>, from: nat, at: nat)
    requires IsName(name) && from <= at && WholeIdentifierAt(code, name, at)
    ensures at in MatchIndices(code, name, from)
    decreases |code| - from
  {
    if OccursAt(code, name, from) {
      if at != from {
        NoWholeIdentifierIsSkipped(code, name, from + |name|, at);
      }
    } else {
      NoWholeIdentifierIsSkipped(code, name, from + 1, at);
    }
  }

  // ------------------------------------------------------------- whitespace

  /** Bytes of the last character of `s` if it is whitespace (Unicode White_Space in UTF-8), else 0. */
  function TrailingWhitespace(s: seq<byte>): (k: nat)
    ensures k <= |s|
  {
    var n := |s|;
    if n >= 1 && (9 <= s[n - 1] <= 13 || s[n - 1] == 32) then 1
    else if n >= 2 && s[n - 2] == 0xC2 && (s[n - 1] == 0x85 || s[n - 1] == 0xA0) then 2
    else if n >= 3 && s[n - 3] == 0xE1 && s[n - 2] == 0x9A && s[n - 1] == 0x80 then 3
    else if n >= 3 && s[n - 3] == 0xE2 && s[n - 2] == 0x80 &&
            (0x80 <= s[n - 1] <= 0x8A || s[n - 1] == 0xA8 || s[n - 1] == 0xA9 || s[n - 1] == 0xAF) then 3
    else if n >= 3 && s[n - 3] == 0xE2 && s[n - 2] == 0x81 && s[n - 1] == 0x9F then 3
    else if n >= 3 && s[n - 3] == 0xE3 && s[n - 2] == 0x80 && s[n - 1] == 0x80 then 3
    else 0
  }

  /** A character below U+10000 in UTF-8, as section 3 of RFC 3629 encodes it. */
  function Encoded(n: nat): (bytes: seq<byte>)
    requires n < 0x1_0000
    ensures 0 < |bytes| <= 3
  {
    if n < 0x80 then [n]
    else if n < 0x800 then [0xC0 + n / 64, 0x80 + n % 64]
    else [0xE0 + n / 4096, 0x80 + n / 64 % 64, 0x80 + n % 64]
  }

  /** The text ends with the character `c`. */
  predicate EndsWith(s: seq<byte>, c: char)
    requires c as int < 0x1_0000
  {
    |Encoded(c as int)| <= |s| && s[|s| - |Encoded(c as int)|..] == Encoded(c as int)
  }

  /** A text that ends with a white-space character loses exactly that character. */
  lemma WhitespaceIsTrailing(s: seq<byte>, c: char)
    requires IsSpace(c) && EndsWith(s, c)
    ensures TrailingWhitespace(s) == |Encoded(c as int)|
  {
    var n, e := |s|, Encoded(c as int);
    assert forall i | 0 <= i < |e| :: s[n - |e| + i] == e[i];
  }

  /** A text loses nothing but a white-space character that it ends with. */
  lemma TrailingIsWhitespace(s: seq<byte>) returns (c: char)
    requires TrailingWhitespace(s) > 0
    ensures IsSpace(c) && EndsWith(s, c) && |Encoded(c as int)| == TrailingWhitespace(s)
  {
    var n := |s|;
    match TrailingWhitespace(s) {
      case 1 => c := s[n - 1] as char;
      case 2 => c := s[n - 1] as char;
      case _ =>
        var v := (s[n - 3] as int - 0xE0) * 4096 + (s[n - 2] as int - 0x80) * 64 + (s[n - 1] as int - 0x80);
        c := v as char;
    }
    assert s[n - |Encoded(c as int)|..] == Encoded(c as int);
  }

  function TrimEnd(s: seq<byte>): seq<byte> {
    var k := TrailingWhitespace(s);
    if k == 0 then s else TrimEnd(s[..|s| - k])
  }

  predicate Blank(code: seq<byte>, from: nat, to: nat)
    requires from <= to <= |code|
  {
    forall i | from <= i < to :: IsWhitespace(code[i])
  }

  method SkipWhitespace(bytes: seq<byte>, start: nat) returns (i: nat)
    ensures start <= i && (start <= |bytes| ==> i <= |bytes| && Blank(bytes, start, i))
    ensures i < |bytes| ==> !IsWhitespace(bytes[i])
  {
    i := start;
    while i < |bytes| && IsWhitespace(bytes[i])
      invariant start <= i && (start <= |bytes| ==> i <= |bytes| && Blank(bytes, start, i))
      decreases |bytes| - i
    {
      i := i + 1;
    }
  }

  // ------------------------------------------------------------ definitions

  /** The occurrence is reached through a member access: `.name` or `->name`. */
  predicate IsMember(code: seq<byte>, at: nat)
    requires at <= |code|
  {
    var before := TrimEnd(code[..at]);
    before != [] && (before[|before| - 1] == DOT || before[|before| - 1] == GREATER)
  }

  /**
   After byte `end` come whitespace, a balanced parameter list in bytes `i` to `j`,
   whitespace, and a body's brace at `k`.
   */
  ghost predicate ParametersThenBody(code: seq<byte>, end: nat, i: nat, j: nat, k: nat) {
    && end <= i < j < k < |code|
    && Blank(code, end, i) && GroupAt(code, i, j)
    && Blank(code, j + 1, k) && code[k] == BRACE
  }

  ghost predicate DefinitionAt(code: seq<byte>, name: seq<byte>, at: nat) {
    && WholeIdentifierAt(code, name, at)
    && !IsMember(code, at)
    && BodyFollows(code, at + |name|)
  }

  ghost predicate BodyFollows(code: seq<byte>, end: nat) {
    exists i, j, k :: ParametersThenBody(code, end, i, j, k)
  }

  ghost predicate GroupAt(code: seq<byte>, i: nat, j: nat) {
    i <= j < |code| && Group(code[i..j + 1])
  }

  /** The code contains a definition of a function called `name`. */
  ghost predicate Defines(code: seq<byte>, name: seq<byte>) {
    exists at :: DefinitionAt(code, name, at)
  }

  /** Whether the code mentions the identifier `name` at all. */
  ghost predicate Mentions(code: seq<byte>, name: seq<byte>) {
    exists at :: WholeIdentifierAt(code, name, at)
  }

  function DepthTo(bytes: seq<byte>, start: nat, i: nat): int
    requires start <= i <= |bytes|
  {
    Depth(bytes[start..i])
  }

  /** The byte that closes the group opened at `start`, or the end of the text if none does. */
  method FindClose(bytes: seq<byte>, start: nat) returns (i: nat)
    requires start < |bytes| && bytes[start] == OPEN
    ensures start < i <= |bytes|
    ensures forall j: nat :: GroupAt(bytes, start, j) <==> j == i < |bytes|
  {
    i := start;
    var depth: nat := 0;
    while i < |bytes|
      invariant start <= i <= |bytes| && depth == DepthTo(bytes, start, i)
      invariant forall j | start < j <= i :: DepthTo(bytes, start, j) > 0
    {
      DepthGrows(bytes, start, i);
      if bytes[i] == OPEN {
        depth := depth + 1;
      } else if bytes[i] == CLOSE {
        depth := depth - 1;
        if depth == 0 {
          break;
        }
      }
      i := i + 1;
    }
    forall j: nat ensures GroupAt(bytes, start, j) <==> j == i < |bytes| {
      if start <= j < |bytes| {
        CloseIsUnique(bytes, start, i, j);
      }
    }
  }

  lemma DepthGrows(bytes: seq<byte>, start: nat, i: nat)
    requires start <= i < |bytes|
    ensures DepthTo(bytes, start, i + 1) == DepthTo(bytes, start, i) + Weight(bytes[i])
  {
    assert bytes[start..i + 1][..i - start] == bytes[start..i];
  }

  lemma CloseIsUnique(bytes: seq<byte>, start: nat, i: nat, j: nat)
    requires start <= i <= |bytes| && start <= j < |bytes| && bytes[start] == OPEN
    requires forall k | start < k <= i :: DepthTo(bytes, start, k) > 0
    requires i < |bytes| ==> DepthTo(bytes, start, i + 1) == 0
    ensures GroupAt(bytes, start, j) <==> j == i
  {
    var s := bytes[start..j + 1];
    GroupIffClosedAtEnd(s);
    assert Depth(s) == DepthTo(bytes, start, j + 1);
    forall k | 0 < k < |s| ensures Depth(s[..k]) == DepthTo(bytes, start, start + k) {
      assert s[..k] == bytes[start..start + k];
    }
    if i < j {
      assert Depth(s[..i + 1 - start]) == 0;
    }
  }

  method IsDefinition(code: seq<byte>, name: seq<byte>, at: nat) returns (b: bool)
    requires WholeIdentifierAt(code, name, at)
    ensures b <==> DefinitionAt(code, name, at)
  {
    var before := TrimEnd(code[..at]);
    if before != [] && (before[|before| - 1] == DOT || before[|before| - 1] == GREATER) {
      return false;
    }
    var end := at + |name|;
    var i := SkipWhitespace(code, end);
    if i >= |code| || code[i] != OPEN {
      forall i', j, k ensures !ParametersThenBody(code, end, i', j, k) {
        if ParametersThenBody(code, end, i', j, k) {
        }
      }
      return false;
    }
    var j := FindClose(code, i);
    var k := SkipWhitespace(code, j + 1);
    b := k < |code| && code[k] == BRACE;
    if b {
      assert ParametersThenBody(code, end, i, j, k);
    } else {
      forall i', j', k' ensures !ParametersThenBody(code, end, i', j', k') {
        if ParametersThenBody(code, end, i', j', k') {
        }
      }
    }
  }

  method DefinesFunction(code: seq<byte>, name: seq<byte>) returns (b: bool)
    requires IsName(name)
    ensures b <==> Defines(code, name)
  {
    var ats := MatchIndices(code, name, 0);
    for n := 0 to |ats|
      invariant forall m | 0 <= m < n :: !DefinitionAt(code, name, ats[m])
    {
      if Isolated(code, name, ats[n]) {
        b := IsDefinition(code, name, ats[n]);
        if b {
          return;
        }
      }
    }
    forall at ensures !DefinitionAt(code, name, at) {
      if WholeIdentifierAt(code, name, at) {
        NoWholeIdentifierIsSkipped(code, name, 0, at);
      }
    }
    return false;
  }

  method MentionsIdentifier(code: seq<byte>, name: seq<byte>) returns (b: bool)
    requires IsName(name)
    ensures b <==> Mentions(code, name)
  {
    var ats := MatchIndices(code, name, 0);
    for n := 0 to |ats|
      invariant forall m | 0 <= m < n :: !Isolated(code, name, ats[m])
    {
      if Isolated(code, name, ats[n]) {
        assert WholeIdentifierAt(code, name, ats[n]);
        return true;
      }
    }
    forall at ensures !WholeIdentifierAt(code, name, at) {
      if WholeIdentifierAt(code, name, at) {
        NoWholeIdentifierIsSkipped(code, name, 0, at);
      }
    }
    return false;
  }

  // --------------------------------------------------------- classification

  function Bytes(text: string): (bytes: seq<byte>)
    requires forall i | 0 <= i < |text| :: text[i] < 128 as char
    ensures |bytes| == |text| && forall i | 0 <= i < |text| :: bytes[i] == text[i] as int
  {
    seq(|text|, i requires 0 <= i < |text| => text[i] as int)
  }

  const FUZZ_ENTRY := Bytes("LLVMFuzzerTestOneInput")
  const MAIN := Bytes("main")
  const PERSISTENT_LOOP_MARKERS := [Bytes("HF_ITER"), Bytes("__AFL_LOOP"), Bytes("__AFL_FUZZ_INIT")]

  ghost predicate IsFuzzEntry(code: seq<byte>) {
    Defines(code, FUZZ_ENTRY) || exists m :: m in PERSISTENT_LOOP_MARKERS && Mentions(code, m)
  }

  /** The role of code from which comments and literals have been stripped. */
  ghost function Role(code: seq<byte>): UnitRole {
    if IsFuzzEntry(code) then FuzzEntry
    else if Defines(code, MAIN) then EntryProgram
    else Library
  }

  method ClassifyUnit(source: seq<byte>) returns (role: UnitRole)
    ensures role == Role(Stripped(source))
    ensures role == FuzzEntry
            <==> var code := Stripped(source);
                 || Defines(code, Bytes("LLVMFuzzerTestOneInput"))
                 || Mentions(code, Bytes("HF_ITER")) || Mentions(code, Bytes("__AFL_LOOP"))
                 || Mentions(code, Bytes("__AFL_FUZZ_INIT"))
    ensures role == EntryProgram <==> role != FuzzEntry && Defines(Stripped(source), Bytes("main"))
  {
    hide Stripped, Defines, Mentions;
    var code := StripCommentsAndLiterals(source);
    var fuzzEntry := DefinesFunction(code, FUZZ_ENTRY);
    if fuzzEntry {
      return FuzzEntry;
    }
    for i := 0 to |PERSISTENT_LOOP_MARKERS|
      invariant forall j | 0 <= j < i :: !Mentions(code, PERSISTENT_LOOP_MARKERS[j])
    {
      var mentioned := MentionsIdentifier(code, PERSISTENT_LOOP_MARKERS[i]);
      if mentioned {
        assert PERSISTENT_LOOP_MARKERS[i] in PERSISTENT_LOOP_MARKERS;
        return FuzzEntry;
      }
    }
    var main := DefinesFunction(code, MAIN);
    return if main then EntryProgram else Library;
  }

  /** Classification sees only code: stripping a unit first does not change its role. */
  lemma RoleIgnoresCommentsAndLiterals(source: seq<byte>)
    ensures Role(Stripped(Stripped(source))) == Role(Stripped(source))
  {
    StrippedIdempotent(source);
  }

  /** A piece with an identifier byte outside comments and literals. */
  predicate ShowsIdentifier(p: Piece) {
    p.Plain? && IsIdentifierByte(p.b)
  }

  predicate NoIdentifierByte(code: seq<byte>) {
    forall i | 0 <= i < |code| :: !IsIdentifierByte(code[i])
  }

  lemma {:induction false} NothingShows(pieces: seq<Piece>)
    requires Reading(pieces) && forall p | p in pieces :: !ShowsIdentifier(p)
    ensures NoIdentifierByte(BlankedAll(pieces))
  {
    if pieces != [] {
      NothingShows(pieces[1..]);
      assert NoIdentifierByte(Blanked(pieces[0])) by {
        assert pieces[0] in pieces;
      }
    }
  }

  lemma NamesNeedBytes(code: seq<byte>, name: seq<byte>)
    requires NoIdentifierByte(code) && IsName(name)
    ensures !Mentions(code, name) && !Defines(code, name)
  {
    forall at: nat ensures !WholeIdentifierAt(code, name, at) {
      OccurrenceBegins(code, name, at);
    }
  }

  lemma OccurrenceBegins(code: seq<byte>, name: seq<byte>, at: nat)
    requires name != []
    ensures OccursAt(code, name, at) ==> at < |code| && code[at] == name[0]
  {
    if OccursAt(code, name, at) {
      assert code[at] == code[at..at + |name|][0];
    }
  }

  lemma NoIdentifiersNoEntry(code: seq<byte>)
    requires NoIdentifierByte(code)
    ensures Role(code) == Library
  {
    hide NoIdentifierByte, Defines, Mentions;
    NamesNeedBytes(code, FUZZ_ENTRY);
    NamesNeedBytes(code, MAIN);
    forall m | m in PERSISTENT_LOOP_MARKERS ensures !Mentions(code, m) {
      NamesNeedBytes(code, m);
    }
  }

  /** A unit whose identifiers all stand in comments and literals is library code, whatever they say. */
  lemma CommentedOutIsLibrary(pieces: seq<Piece>)
    requires Reading(pieces) && forall p | p in pieces :: !ShowsIdentifier(p)
    ensures Role(Stripped(SourceAll(pieces))) == Library
  {
    hide Stripped, Role, NoIdentifierByte, SourceAll, BlankedAll, Reading;
    StrippedIsBlanked(pieces);
    NothingShows(pieces);
    NoIdentifiersNoEntry(BlankedAll(pieces));
  }
}
