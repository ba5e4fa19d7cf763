/**
 Which `candump` lines are accepted and what they mean, said by printing: how a text is
 made of lines and words, and how stamps, identifiers and payloads are written.
 */
module CandumpMeaning {
  import opened Common
  import opened Capture
  import opened Numerals
  import opened Candump

  // ------------------------------------------------------------------ stamps

  /** An optional plus sign and digits with the value `n`. */
  ghost predicate Numeral(s: string, radix: nat, n: nat) {
    var digits := if s != [] && s[0] == '+' then s[1..] else s;
    digits != [] && AllDigits(digits, radix) && Value(digits, radix) == n
  }

  lemma NumeralIff(s: string, radix: nat, max: nat, n: nat)
    ensures ParseUnsigned(s, radix, max) == Some(n) <==> Numeral(s, radix, n) && n <= max
  {
  }

  lemma Associate(a: nat, b: nat, c: nat)
    ensures a * b * c == a * (b * c)
  {
  }

  function Zeros(k: nat): (s: string)
    ensures |s| == k && AllDigits(s, 10)
  {
    seq(k, _ => '0')
  }

  lemma {:induction false} ValueOfZeros(s: string, k: nat)
    requires AllDigits(s, 10)
    ensures AllDigits(s + Zeros(k), 10) && Value(s + Zeros(k), 10) == Value(s, 10) * Pow(10, k)
  {
    hide Value;
    if k == 0 {
      assert s + Zeros(k) == s;
    } else {
      ValueOfZeros(s, k - 1);
      assert s + Zeros(k) == (s + Zeros(k - 1)) + ['0'];
      ValueAppend(s + Zeros(k - 1), '0', 10);
      Associate(Value(s, 10), Pow(10, k - 1), 10);
    }
  }

  /** The digits after the first `n` take the value up by less than one in the last place. */
  lemma {:induction false} ValueOfPrefix(s: string, n: nat)
    requires AllDigits(s, 10) && n <= |s|
    ensures AllDigits(s[..n], 10)
    ensures var (p, v) := (Pow(10, |s| - n), Value(s[..n], 10)); v * p <= Value(s, 10) < (v + 1) * p
  {
    if n == |s| {
      assert s[..n] == s;
    } else {
      ValueOfPrefix(Init(s), n);
      assert Init(s)[..n] == s[..n];
      var v, p := Value(s[..n], 10), Pow(10, |s| - 1 - n);
      assert IsDigit(Last(s), 10);
      Associate(v, p, 10);
      Associate(v + 1, p, 10);
    }
  }

  lemma {:induction false} PowSum(a: nat, b: nat)
    ensures Pow(10, a + b) == Pow(10, a) * Pow(10, b)
  {
    if a > 0 {
      PowSum(a - 1, b);
      Associate(10, Pow(10, a - 1), Pow(10, b));
    }
  }

  lemma {:induction false} PowPositive(a: nat)
    ensures Pow(10, a) > 0
  {
    if a > 0 {
      PowPositive(a - 1);
    }
  }

  lemma QuotientIs(a: nat, p: nat, q: nat)
    requires p > 0 && q * p <= a < (q + 1) * p
    ensures a / p == q
  {
    if a / p < q {
      MulMonotone(a / p + 1, q, p);
    }
    if a / p > q {
      MulMonotone(q + 1, a / p, p);
    }
  }

  lemma FewDigits(fraction: string, v: nat)
    requires AllDigits(fraction, 10) && |fraction| < 6 && v == Value(fraction, 10)
    ensures Pow(10, |fraction|) > 0 && Value(SixDigits(fraction), 10) == v * 1_000_000 / Pow(10, |fraction|)
  {
    hide Value, Pow;
    var k := |fraction|;
    assert SixDigits(fraction) == fraction + Zeros(6 - k);
    Widths();
    PowPositive(k);
    ValueOfZeros(fraction, 6 - k);
    PowSum(6 - k, k);
    Associate(v, Pow(10, 6 - k), Pow(10, k));
    QuotientIs(v * 1_000_000, Pow(10, k), v * Pow(10, 6 - k));
  }

  lemma ManyDigits(fraction: string, v: nat)
    requires AllDigits(fraction, 10) && |fraction| >= 6 && v == Value(fraction, 10)
    ensures Pow(10, |fraction|) > 0 && Value(SixDigits(fraction), 10) == v * 1_000_000 / Pow(10, |fraction|)
  {
    hide Value, Pow;
    var k := |fraction|;
    ValueOfPrefix(fraction, 6);
    Widths();
    PowPositive(k);
    PowSum(6, k - 6);
    var w, p := Value(fraction[..6], 10), Pow(10, k - 6);
    ScaledBounds(v, w, p);
    QuotientIs(v * 1_000_000, Pow(10, k), w);
  }

  lemma ScaledBounds(v: nat, w: nat, p: nat)
    requires w * p <= v < (w + 1) * p
    ensures w * (1_000_000 * p) <= v * 1_000_000 < (w + 1) * (1_000_000 * p)
  {
    assert w * (1_000_000 * p) == w * p * 1_000_000;
    assert (w + 1) * (1_000_000 * p) == (w + 1) * p * 1_000_000;
  }

  /** The decimals count as millionths of a second, rounded down, however many there are. */
  lemma SixDigitsValue(fraction: string)
    requires AllDigits(fraction, 10)
    ensures Pow(10, |fraction|) > 0
    ensures Value(SixDigits(fraction), 10) == Value(fraction, 10) * 1_000_000 / Pow(10, |fraction|)
  {
    if |fraction| < 6 {
      FewDigits(fraction, Value(fraction, 10));
    } else {
      ManyDigits(fraction, Value(fraction, 10));
    }
  }

  lemma {:induction false} SplitOnceIs(s: string, c: char)
    ensures SplitOnce(s, c).None? <==> c !in s
    ensures SplitOnce(s, c).Some? ==> c !in SplitOnce(s, c).value.0
  {
    if s != [] && s[0] != c {
      SplitOnceIs(s[1..], c);
    }
  }

  /** `text` is whole seconds, alone or followed by a point and decimals. */
  predicate Timed(text: string, seconds: string, fraction: string) {
    '.' !in seconds && (text == seconds + "." + fraction || (text == seconds && fraction == ""))
  }

  /** A stamp is read as `micros` exactly when it is whole seconds and decimals that make as many microseconds. */
  ghost predicate Stamped(text: string, seconds: string, fraction: string, n: nat, micros: nat) {
    && Timed(text, seconds, fraction) && Numeral(seconds, 10, n) && n <= U64_MAX && AllDigits(fraction, 10)
    && Pow(10, |fraction|) > 0
    && micros == n * 1_000_000 + Value(fraction, 10) * 1_000_000 / Pow(10, |fraction|) <= U64_MAX
  }

  lemma SplitSecondsIff(text: string, seconds: string, fraction: string)
    ensures Timed(text, seconds, fraction) ==> SplitSeconds(text) == (seconds, fraction)
    ensures SplitSeconds(text) == (seconds, fraction) ==> Timed(text, seconds, fraction)
  {
    hide SplitOnce;
    SplitOnceIs(text, '.');
    if '.' !in seconds && text == seconds + "." + fraction {
      SplitOnceFirst(seconds, '.', fraction);
    }
  }

  lemma MicrosIff(text: string, micros: nat)
    ensures Micros(text) == Some(micros)
            <==> exists seconds, fraction, n: nat :: Stamped(text, seconds, fraction, n, micros)
  {
    hide SplitOnce, Value, SplitSeconds, Timed, Numeral, ParseUnsigned;
    if seconds, fraction, n: nat :| Stamped(text, seconds, fraction, n, micros) {
      SplitSecondsIff(text, seconds, fraction);
      NumeralIff(seconds, 10, U64_MAX, n);
      SixDigitsValue(fraction);
    }
    if Micros(text) == Some(micros) {
      var (seconds, fraction) := SplitSeconds(text);
      var n := ParseUnsigned(seconds, 10, U64_MAX).value;
      SplitSecondsIff(text, seconds, fraction);
      NumeralIff(seconds, 10, U64_MAX, n);
      SixDigitsValue(fraction);
      assert Stamped(text, seconds, fraction, n, micros);
    }
  }

  // ------------------------------------------------------------------ frames

  /** Two hexadecimal digits for each byte, high digit first. */
  predicate HexText(s: string, data: seq<byte>) {
    && |s| == 2 * |data|
    && forall i | 0 <= i < |data| ::
         HexNibble(s[2 * i]) == Some(data[i] as int / 16) && HexNibble(s[2 * i + 1]) == Some(data[i] as int % 16)
  }

  lemma HexTextSplits(s: string, data: seq<byte>)
    requires |s| >= 2 && data != []
    ensures HexText(s, data)
            <==> && HexNibble(s[0]) == Some(data[0] as int / 16) && HexNibble(s[1]) == Some(data[0] as int % 16)
                 && HexText(s[2..], data[1..])
  {
    var r, rest := s[2..], data[1..];
    assert |r| == |s| - 2 && |rest| == |data| - 1;
    if HexText(s, data) {
      forall i | 0 <= i < |rest|
        ensures HexNibble(r[2 * i]) == Some(rest[i] as int / 16) && HexNibble(r[2 * i + 1]) == Some(rest[i] as int % 16)
      {
        assert data[i + 1] == rest[i] && s[2 * (i + 1)] == r[2 * i] && s[2 * (i + 1) + 1] == r[2 * i + 1];
      }
      assert HexNibble(s[2 * 0]) == Some(data[0] as int / 16) && HexNibble(s[2 * 0 + 1]) == Some(data[0] as int % 16);
    }
    if && HexNibble(s[0]) == Some(data[0] as int / 16) && HexNibble(s[1]) == Some(data[0] as int % 16)
       && HexText(r, rest)
    {
      forall i | 0 <= i < |data|
        ensures HexNibble(s[2 * i]) == Some(data[i] as int / 16) && HexNibble(s[2 * i + 1]) == Some(data[i] as int % 16)
      {
        if i > 0 {
          var j := i - 1;
          assert data[i] == rest[j] && s[2 * i] == r[2 * j] && s[2 * i + 1] == r[2 * j + 1];
        }
      }
    }
  }

  lemma {:induction false} HexBytesIff(s: string, data: seq<byte>)
    ensures HexBytes(s) == Some(data) <==> HexText(s, data)
  {
    hide HexText, HexNibble;
    if |s| < 2 || data == [] {
      ShortHexText(s, data);
    } else {
      HexBytesIff(s[2..], data[1..]);
      HexTextSplits(s, data);
      assert data == [data[0]] + data[1..];
      NibblesOf(s[0], s[1], data[0]);
    }
  }

  lemma NibblesOf(high: char, low: char, b: byte)
    ensures HexNibble(high) == Some(b as int / 16) && HexNibble(low) == Some(b as int % 16)
            <==> HexNibble(high).Some? && HexNibble(low).Some? && 16 * HexNibble(high).value + HexNibble(low).value == b
  {
  }

  lemma ShortHexText(s: string, data: seq<byte>)
    requires |s| < 2 || data == []
    ensures HexBytes(s) == Some(data) <==> HexText(s, data)
  {
  }

  /**
   The payload after the first `#`: flags and at most 64 bytes, or `R` and a length code of at most 8,
   or at most 8 bytes.
   */
  ghost predicate Payload(rest: string, raw: nat, b: Body) {
    if rest != [] && rest[0] == '#' then
      && b.fd && b.kind == Data && |b.data| <= 64
      && |rest| >= 2 && HexNibble(rest[1]).Some? && HexText(rest[2..], b.data)
    else if rest != [] && rest[0] == 'R' then
      && !b.fd && b.kind == Remote && b.data == []
      && (rest[1..] == [] || exists dlc: nat :: dlc <= 8 && Numeral(rest[1..], 10, dlc))
    else
      && !b.fd && b.kind == (if b.extended && raw / 0x2000_0000 % 2 == 1 then Error else Data) && |b.data| <= 8
      && HexText(rest, b.data)
  }

  /** An identifier of one to eight characters, extended exactly when there are eight, then `#` and a payload. */
  ghost predicate Framed(frame: string, digits: string, rest: string, raw: nat, b: Body) {
    && frame == digits + "#" + rest && '#' !in digits && 1 <= |digits| <= 8
    && Numeral(digits, 16, raw) && raw <= 0xFFFF_FFFF
    && b.extended == (|digits| == 8) && b.id == raw % 0x2000_0000 && Payload(rest, raw, b)
  }

  lemma BodyIff(raw: nat, extended: bool, rest: string, b: Body)
    ensures ParseBody(raw, extended, rest) == Some(b)
            <==> b.extended == extended && b.id == raw % 0x2000_0000 && Payload(rest, raw, b)
  {
    hide HexText, HexNibble, HexBytes, ParseUnsigned, Numeral;
    HexBytesIff(rest, b.data);
    if |rest| >= 2 {
      HexBytesIff(rest[2..], b.data);
    }
    if rest != [] && rest[0] == 'R' {
      LengthCodeIff(rest[1..]);
    }
  }

  lemma LengthCodeIff(s: string)
    ensures (ParseUnsigned(s, 10, U8_MAX).Some? && ParseUnsigned(s, 10, U8_MAX).value <= 8)
            <==> exists dlc: nat :: dlc <= 8 && Numeral(s, 10, dlc)
  {
    hide ParseUnsigned, Numeral;
    forall dlc: nat ensures ParseUnsigned(s, 10, U8_MAX) == Some(dlc) <==> Numeral(s, 10, dlc) && dlc <= U8_MAX {
      NumeralIff(s, 10, U8_MAX, dlc);
    }
  }

  lemma FrameIff(frame: string, b: Body)
    ensures ParseFrame(frame) == Some(b)
            <==> exists digits, rest, raw: nat :: Framed(frame, digits, rest, raw, b)
  {
    hide SplitOnce, ParseUnsigned, Numeral, ParseBody, Payload;
    SplitOnceIs(frame, '#');
    if digits, rest, raw: nat :| Framed(frame, digits, rest, raw, b) {
      SplitOnceFirst(digits, '#', rest);
      NumeralIff(digits, 16, U32_MAX, raw);
      BodyIff(raw, |digits| == 8, rest, b);
    }
    if ParseFrame(frame) == Some(b) {
      var (digits, rest) := SplitOnce(frame, '#').value;
      var raw := ParseUnsigned(digits, 16, U32_MAX).value;
      NumeralIff(digits, 16, U32_MAX, raw);
      BodyIff(raw, |digits| == 8, rest, b);
      assert Framed(frame, digits, rest, raw, b);
    }
  }

  // ---------------------------------------------------------- words and lines

  predicate AllSpace(s: string) {
    forall i | 0 <= i < |s| :: IsSpace(s[i])
  }

  /** Gaps and words in turn, beginning and ending with a gap. */
  function Spread(gaps: seq<string>, words: seq<string>): string
    requires |gaps| == |words| + 1
  {
    if words == [] then gaps[0] else gaps[0] + words[0] + Spread(gaps[1..], words[1..])
  }

  /** The words stand in `s` between gaps of white space, which only at the two ends may be empty. */
  predicate Separates(s: string, gaps: seq<string>, words: seq<string>) {
    && |gaps| == |words| + 1 && s == Spread(gaps, words)
    && (forall i | 0 <= i < |gaps| :: AllSpace(gaps[i])) && (forall i | 0 < i < |words| :: gaps[i] != [])
    && forall i | 0 <= i < |words| :: IsWord(words[i])
  }

  lemma {:induction false} TokensSeparate(s: string) returns (gaps: seq<string>)
    ensures Separates(s, gaps, Tokens(s))
    decreases |s|
  {
    if s == [] {
      gaps := [""];
    } else if IsSpace(s[0]) {
      var g := TokensSeparate(s[1..]);
      gaps := [[s[0]] + g[0]] + g[1..];
      WiderGap(s, g, Tokens(s));
    } else {
      var n := WordLength(s);
      var g := TokensSeparate(s[n..]);
      gaps := [""] + g;
      NewWord(s, n, g, Tokens(s[n..]));
    }
  }

  lemma WiderGap(s: string, g: seq<string>, words: seq<string>)
    requires s != [] && IsSpace(s[0]) && Separates(s[1..], g, words)
    ensures Separates(s, [[s[0]] + g[0]] + g[1..], words)
  {
    var gaps := [[s[0]] + g[0]] + g[1..];
    assert gaps[1..] == g[1..];
    assert forall i | 1 <= i < |gaps| :: gaps[i] == g[i];
    assert s == [s[0]] + s[1..];
  }

  lemma NewWord(s: string, n: nat, g: seq<string>, words: seq<string>)
    requires 0 < n <= |s| && IsWord(s[..n]) && (n < |s| ==> IsSpace(s[n])) && Separates(s[n..], g, words)
    ensures Separates(s, [""] + g, [s[..n]] + words)
  {
    var gaps, all := [""] + g, [s[..n]] + words;
    assert gaps[1..] == g && all[1..] == words && s == s[..n] + s[n..];
    assert forall i | 1 <= i < |gaps| :: gaps[i] == g[i - 1];
    assert forall i | 1 <= i < |all| :: all[i] == words[i - 1];
    assert n < |s| ==> s[n..][0] == s[n];
  }

  /** A line is blank exactly when it holds nothing but white space. */
  lemma BlankIff(line: string)
    ensures Tokens(line) == [] <==> AllSpace(line)
  {
    var gaps := TokensSeparate(line);
    if Tokens(line) != [] {
      var word := Tokens(line)[0];
      assert IsWord(word) && line[|gaps[0]|] == word[0];
    }
  }

  /** Every line with the line feed that ends it. */
  function Ended(lines: seq<string>): string {
    if lines == [] then [] else lines[0] + "\n" + Ended(lines[1..])
  }

  /** A text is its lines, each ended by a line feed, which the last may lack if it is not empty. */
  lemma {:induction false} LinesEnd(text: string)
    ensures forall i | 0 <= i < |Lines(text)| :: '\n' !in Lines(text)[i]
    ensures text == Ended(Lines(text)) || (text + "\n" == Ended(Lines(text)) && text != "" && Last(text) != '\n')
    decreases |text|
  {
    SplitOnceIs(text, '\n');
    if text != [] && SplitOnce(text, '\n').Some? {
      var (line, rest) := SplitOnce(text, '\n').value;
      LinesEnd(rest);
      assert Lines(text)[1..] == Lines(rest);
      assert text + "\n" == line + "\n" + (rest + "\n");
    } else if text != [] {
      assert Lines(text)[1..] == [];
    }
  }

  // ------------------------------------------------------------------- a line

  /** A stamp in parentheses, a channel, a frame, and anything after them. */
  ghost predicate Logged(words: seq<string>, stamp: string, b: Body, f: FrameRecord) {
    && |words| >= 3 && words[0] == "(" + stamp + ")"
    && (exists seconds, fraction, n: nat :: Stamped(stamp, seconds, fraction, n, f.timestampMicros))
    && (exists digits, rest, raw: nat :: Framed(words[2], digits, rest, raw, b))
    && f == FrameRecord(f.timestampMicros, words[1], b.id, b.extended, b.fd, b.kind, b.data, None)
  }

  lemma StampIff(word: string, stamp: string)
    ensures Stamp(word) == Some(stamp) <==> word == "(" + stamp + ")"
  {
    if Stamp(word) == Some(stamp) {
      assert word == ['('] + Init(word)[1..] + [')'];
    }
    if word == "(" + stamp + ")" {
      assert Init(word)[1..] == stamp;
    }
  }

  lemma LoggedParses(line: string, stamp: string, b: Body, f: FrameRecord)
    requires Logged(Tokens(line), stamp, b, f)
    ensures ParseLine(line) == Ok(Some(f))
  {
    hide Tokens, Stamp, Micros, ParseFrame, Stamped, Framed;
    var words := Tokens(line);
    StampIff(words[0], stamp);
    MicrosIff(stamp, f.timestampMicros);
    FrameIff(words[2], b);
    assert Stamp(words[0]) == Some(stamp) && Micros(stamp) == Some(f.timestampMicros);
    assert ParseFrame(words[2]) == Some(b);
  }

  lemma ParsedIsLogged(line: string, f: FrameRecord) returns (stamp: string, b: Body)
    requires ParseLine(line) == Ok(Some(f))
    ensures Logged(Tokens(line), stamp, b, f)
  {
    hide Tokens, Stamp, Micros, ParseFrame, Stamped, Framed;
    var words := Tokens(line);
    stamp, b := Stamp(words[0]).value, ParseFrame(words[2]).value;
    StampIff(words[0], stamp);
    MicrosIff(stamp, f.timestampMicros);
    FrameIff(words[2], b);
  }

  /** A line gives the frame `f` exactly when its words say so. */
  lemma LineIff(line: string, f: FrameRecord)
    ensures ParseLine(line) == Ok(Some(f)) <==> exists stamp, b :: Logged(Tokens(line), stamp, b, f)
  {
    hide Tokens, ParseLine, Logged;
    if stamp, b :| Logged(Tokens(line), stamp, b, f) {
      LoggedParses(line, stamp, b, f);
    }
    if ParseLine(line) == Ok(Some(f)) {
      var stamp, b := ParsedIsLogged(line, f);
    }
  }

  /** The word is a stamp in parentheses. */
  ghost predicate GoodStamp(word: string) {
    exists stamp, seconds, fraction, n: nat, micros: nat ::
      word == "(" + stamp + ")" && Stamped(stamp, seconds, fraction, n, micros)
  }

  lemma RejectedIff(frame: string)
    ensures ParseFrame(frame).None? <==> forall b, digits, rest, raw: nat :: !Framed(frame, digits, rest, raw, b)
  {
    hide ParseFrame, Framed;
    if ParseFrame(frame).Some? {
      FrameIff(frame, ParseFrame(frame).value);
    } else {
      forall b, digits, rest, raw: nat ensures !Framed(frame, digits, rest, raw, b) {
        FrameIff(frame, b);
      }
    }
  }

  /** A line is malformed for the first reason that applies: too few words, a bad stamp, a bad frame. */
  lemma ReasonIff(line: string)
    ensures ParseLine(line) == Err(MissingFields) <==> 0 < |Tokens(line)| < 3
    ensures ParseLine(line) == Err(BadTimestamp) <==> |Tokens(line)| >= 3 && !GoodStamp(Tokens(line)[0])
    ensures ParseLine(line) == Err(BadFrame)
            <==> && |Tokens(line)| >= 3 && GoodStamp(Tokens(line)[0])
                 && forall b, digits, rest, raw: nat :: !Framed(Tokens(line)[2], digits, rest, raw, b)
  {
    hide Tokens, Stamp, Micros, ParseFrame, Stamped, Framed, GoodStamp;
    var words := Tokens(line);
    if |words| >= 3 {
      GoodStampIff(words[0]);
      RejectedIff(words[2]);
    }
  }

  lemma GoodStampIff(word: string)
    ensures GoodStamp(word) <==> Stamp(word).Some? && Micros(Stamp(word).value).Some?
  {
    hide Stamp, Micros, Stamped;
    if stamp, seconds, fraction, n: nat, micros: nat :|
       word == "(" + stamp + ")" && Stamped(stamp, seconds, fraction, n, micros) {
      StampIff(word, stamp);
      MicrosIff(stamp, micros);
    }
    if Stamp(word).Some? && Micros(Stamp(word).value).Some? {
      StampIff(word, Stamp(word).value);
      MicrosIff(Stamp(word).value, Micros(Stamp(word).value).value);
    }
  }
}
