/**
 The `candump` log importer, the lines such a log consists of, and the round trip
 between them.
 */
module Candump {
  import opened Common
  import opened Capture
  import opened Numerals

  datatype Reason = MissingFields | BadTimestamp | BadFrame

  datatype ImportError = ImportError(line: nat, reason: Reason)

  const MICROS := 1_000_000
  const ID_MASK := 0x2000_0000

  // --------------------------------------------------------------- splitting

  /** The text before and after the first occurrence of `c`. */
  function SplitOnce(s: string, c: char): (r: Option<(string, string)>)
    ensures r.Some? ==> s == r.value.0 + [c] + r.value.1
  {
    if s == [] then None
    else if s[0] == c then Some(([], s[1..]))
    else
      match SplitOnce(s[1..], c)
      case None => None
      case Some((before, after)) => Some(([s[0]] + before, after))
  }

  /** Lines end at a line feed; a carriage return before it is white space, which the fields ignore. */
  function Lines(text: string): seq<string>
    decreases |text|
  {
    if text == [] then []
    else
      match SplitOnce(text, '\n')
      case None => [text]
      case Some((line, rest)) => [line] + Lines(rest)
  }

  function WordLength(s: string): (n: nat)
    ensures n <= |s| && (forall i | 0 <= i < n :: !IsSpace(s[i])) && (n < |s| ==> IsSpace(s[n]))
  {
    if s == [] || IsSpace(s[0]) then 0 else 1 + WordLength(s[1..])
  }

  /** The maximal runs of characters other than white space; a blank line has none. */
  function Tokens(s: string): seq<string> {
    if s == [] then []
    else if IsSpace(s[0]) then Tokens(s[1..])
    else [s[..WordLength(s)]] + Tokens(s[WordLength(s)..])
  }

  predicate IsWord(s: string) {
    s != [] && forall i | 0 <= i < |s| :: !IsSpace(s[i])
  }

  lemma {:induction false} SplitOnceFirst(before: string, c: char, after: string)
    requires c !in before
    ensures SplitOnce(before + [c] + after, c) == Some((before, after))
  {
    var s := before + [c] + after;
    if before == [] {
      assert s[1..] == after;
    } else {
      assert s[1..] == before[1..] + [c] + after;
      SplitOnceFirst(before[1..], c, after);
      assert before == [before[0]] + before[1..];
    }
  }

  lemma {:induction false} WordLengthOf(word: string, rest: string)
    requires (forall i | 0 <= i < |word| :: !IsSpace(word[i])) && (rest == [] || IsSpace(rest[0]))
    ensures WordLength(word + rest) == |word|
  {
    if word == [] {
      assert word + rest == rest;
    } else {
      assert (word + rest)[1..] == word[1..] + rest;
      WordLengthOf(word[1..], rest);
    }
  }

  // ----------------------------------------------------------------- parsing

  function HexBytes(s: string): Option<seq<byte>> {
    if s == [] then Some([])
    else if |s| == 1 then None
    else
      match (HexNibble(s[0]), HexNibble(s[1]), HexBytes(s[2..]))
      case (Some(high), Some(low), Some(rest)) => Some([16 * high + low] + rest)
      case _ => None
  }

  /** At most six digits of `s`, filled up with zeros. */
  function SixDigits(s: string): (r: string)
    requires AllDigits(s, 10)
    ensures |r| == 6 && AllDigits(r, 10)
  {
    if |s| >= 6 then s[..6] else s + seq(6 - |s|, _ => '0')
  }

  /** The text before the first point and after it, or all of it and nothing. */
  function SplitSeconds(text: string): (string, string) {
    match SplitOnce(text, '.')
    case None => (text, "")
    case Some(parts) => parts
  }

  /** The whole seconds and the first six decimals, as a 64-bit count of microseconds. */
  function Micros(text: string): Option<nat> {
    var (seconds, fraction) := SplitSeconds(text);
    match ParseUnsigned(seconds, 10, U64_MAX)
    case None => None
    case Some(s) =>
      if !AllDigits(fraction, 10) then None
      else
        var total := s * MICROS + Value(SixDigits(fraction), 10);
        if total <= U64_MAX then Some(total) else None
  }

  method SecondsToMicros(text: string) returns (r: Option<nat>)
    ensures r == Micros(text)
  {
    hide SplitOnce, ParseUnsigned, Value;
    var (seconds, fraction) := SplitSeconds(text);
    var whole := ParseUnsigned(seconds, 10, U64_MAX);
    if whole.None? || !AllDigits(fraction, 10) {
      return None;
    }
    var digits := if |fraction| < 6 then fraction else fraction[..6];
    while |digits| < 6
      invariant |digits| <= 6 && AllDigits(digits, 10) && SixDigits(digits) == SixDigits(fraction)
      decreases 6 - |digits|
    {
      digits := digits + ['0'];
    }
    assert digits == SixDigits(digits);
    var micros: nat := Value(digits, 10);
    var product := whole.value * MICROS;
    if product > U64_MAX || product + micros > U64_MAX {
      return None;
    }
    return Some(product + micros);
  }

  datatype Body = Body(id: nat, extended: bool, fd: bool, kind: FrameKind, data: seq<byte>)

  function ParseFrame(frame: string): Option<Body> {
    match SplitOnce(frame, '#')
    case None => None
    case Some((digits, rest)) =>
      if digits == [] || |digits| > 8 || ParseUnsigned(digits, 16, U32_MAX).None? then None
      else ParseBody(ParseUnsigned(digits, 16, U32_MAX).value, |digits| == 8, rest)
  }

  function ParseBody(raw: nat, extended: bool, rest: string): Option<Body> {
    var id := raw % ID_MASK;
    if rest != [] && rest[0] == '#' then
      if |rest| == 1 || HexNibble(rest[1]).None? then None
      else
        match HexBytes(rest[2..])
        case Some(data) => if |data| <= 64 then Some(Body(id, extended, true, Data, data)) else None
        case None => None
    else if rest != [] && rest[0] == 'R' then
      var dlc := if |rest| == 1 then Some(0) else ParseUnsigned(rest[1..], 10, U8_MAX);
      if dlc.None? || dlc.value > 8 then None else Some(Body(id, extended, false, Remote, []))
    else
      match HexBytes(rest)
      case Some(data) =>
        if |data| > 8 then None
        else Some(Body(id, extended, false, if extended && raw / ID_MASK % 2 == 1 then Error else Data, data))
      case None => None
  }

  /** The text between the parentheses of the first field. */
  function Stamp(token: string): Option<string> {
    if |token| >= 2 && token[0] == '(' && Last(token) == ')' then Some(Init(token)[1..]) else None
  }

  /** What one line gives: nothing when it is blank, a frame, or the reason it is malformed. */
  function ParseLine(line: string): Result<Option<FrameRecord>, Reason> {
    var tokens := Tokens(line);
    if tokens == [] then Ok(None)
    else if |tokens| < 3 then Err(MissingFields)
    else
      match Stamp(tokens[0])
      case None => Err(BadTimestamp)
      case Some(stamp) =>
        if Micros(stamp).None? then Err(BadTimestamp)
        else
          match ParseFrame(tokens[2])
          case None => Err(BadFrame)
          case Some(b) =>
            Ok(Some(FrameRecord(Micros(stamp).value, tokens[1], b.id, b.extended, b.fd, b.kind, b.data, None)))
  }

  /** The frames of the lines that are not blank, in order. */
  function Frames(lines: seq<string>): seq<FrameRecord>
    requires forall i | 0 <= i < |lines| :: ParseLine(lines[i]).Ok?
  {
    if lines == [] then []
    else
      Frames(Init(lines)) +
      match ParseLine(Last(lines)).value
      case None => []
      case Some(f) => [f]
  }

  /** A successful import has a frame for every line that is not blank; a failed one names the first malformed line. */
  ghost predicate IsImport(text: string, r: Result<seq<FrameRecord>, ImportError>) {
    var lines := Lines(text);
    match r
    case Ok(frames) => (forall i | 0 <= i < |lines| :: ParseLine(lines[i]).Ok?) && frames == Frames(lines)
    case Err(e) =>
      && 1 <= e.line <= |lines| && ParseLine(lines[e.line - 1]) == Err(e.reason)
      && forall i | 0 <= i < e.line - 1 :: ParseLine(lines[i]).Ok?
  }

  method ParseCandump(text: string) returns (r: Result<seq<FrameRecord>, ImportError>)
    ensures IsImport(text, r)
  {
    hide Micros, ParseFrame, Tokens, Stamp;
    var lines := Lines(text);
    var frames: seq<FrameRecord> := [];
    for i := 0 to |lines|
      invariant (forall j | 0 <= j < i :: ParseLine(lines[j]).Ok?) && frames == Frames(lines[..i])
    {
      assert Init(lines[..i + 1]) == lines[..i];
      var tokens := Tokens(lines[i]);
      if tokens != [] {
        if |tokens| < 3 {
          return Err(ImportError(i + 1, MissingFields));
        }
        var stamp := Stamp(tokens[0]);
        if stamp.None? {
          return Err(ImportError(i + 1, BadTimestamp));
        }
        var micros := SecondsToMicros(stamp.value);
        if micros.None? {
          return Err(ImportError(i + 1, BadTimestamp));
        }
        var body := ParseFrame(tokens[2]);
        if body.None? {
          return Err(ImportError(i + 1, BadFrame));
        }
        var b := body.value;
        frames := frames + [FrameRecord(micros.value, tokens[1], b.id, b.extended, b.fd, b.kind, b.data, None)];
      }
    }
    assert lines[..|lines|] == lines;
    return Ok(frames);
  }
}
