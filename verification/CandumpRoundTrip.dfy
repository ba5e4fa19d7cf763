/** Frames as `candump -l` writes them, and that the importer reads back every list of well-formed frames. */
module CandumpRoundTrip {
  import opened Common
  import opened Capture
  import opened Numerals
  import opened Candump

  /**
   What a writer may choose: letter case, the flexible-data-rate flags, and whether a
   remote frame states a length code.
   */
  datatype Style = Style(upper: bool, flags: nat, dlc: Option<nat>)

  ghost predicate WellStyled(s: Style) {
    s.flags < 16 && (s.dlc.Some? ==> s.dlc.value <= 8)
  }

  /** A frame that can be on the bus, with a 64-bit time stamp and a channel name without spaces. */
  ghost predicate WellFormed(f: FrameRecord) {
    && f.timestampMicros <= U64_MAX && IsWord(f.channel) && f.direction == None
    && f.id < (if f.extended then ID_MASK else 0x800)
    && match f.kind
       case Data => |f.data| <= if f.fd then 64 else 8
       case Remote => f.data == [] && !f.fd
       case Error => f.extended && !f.fd && |f.data| <= 8
  }

  function PrintBytes(data: seq<byte>, upper: bool): (s: string)
    ensures AllDigits(s, 16)
  {
    if data == [] then [] else Fixed(data[0], 16, 2, upper) + PrintBytes(data[1..], upper)
  }

  /** The identifier with the error flag: eight digits when extended, else three. */
  function PrintId(f: FrameRecord, upper: bool): (s: string)
    ensures AllDigits(s, 16)
  {
    var raw: nat := f.id + if f.kind == Error then ID_MASK else 0;
    Fixed(raw, 16, if f.extended then 8 else 3, upper)
  }

  ghost function PrintPayload(f: FrameRecord, style: Style): string
    requires WellStyled(style)
  {
    if f.fd then ['#', DigitChar(style.flags, style.upper)] + PrintBytes(f.data, style.upper)
    else if f.kind == Remote then ['R'] + (match style.dlc case None => [] case Some(d) => Decimal(d))
    else PrintBytes(f.data, style.upper)
  }

  function PrintStamp(micros: nat): string {
    ['('] + (Decimal(micros / MICROS) + ['.'] + Fixed(micros % MICROS, 10, 6, true)) + [')']
  }

  ghost function PrintBody(f: FrameRecord, style: Style): string
    requires WellStyled(style)
  {
    PrintId(f, style.upper) + ['#'] + PrintPayload(f, style)
  }

  ghost function PrintLine(f: FrameRecord, style: Style): string
    requires WellStyled(style)
  {
    PrintStamp(f.timestampMicros) + [' '] + (f.channel + [' '] + PrintBody(f, style))
  }

  // ---------------------------------------------------------------- splitting

  lemma LastToken(word: string)
    requires IsWord(word)
    ensures Tokens(word) == [word]
  {
    WordLengthOf(word, []);
    assert word + [] == word;
    assert word[|word|..] == [];
  }

  lemma NextToken(word: string, rest: string)
    requires IsWord(word)
    ensures Tokens(word + [' '] + rest) == [word] + Tokens(rest)
  {
    var s := word + [' '] + rest;
    assert s == word + ([' '] + rest);
    WordLengthOf(word, [' '] + rest);
    assert s[|word|..] == [' '] + rest && s[..|word|] == word;
    assert ([' '] + rest)[1..] == rest;
    assert Tokens([' '] + rest) == Tokens(rest);
  }

  lemma DigitsAreNotSpace(s: string, radix: nat)
    requires AllDigits(s, radix)
    ensures forall i | 0 <= i < |s| :: !IsSpace(s[i])
  {
    forall i | 0 <= i < |s| ensures !IsSpace(s[i]) {
      assert IsDigit(s[i], radix);
    }
  }

  // ---------------------------------------------------------------- the fields

  lemma MarksAreNotSpace(digit: char)
    requires HexNibble(digit).Some?
    ensures !IsSpace('(') && !IsSpace('.') && !IsSpace(')') && !IsSpace('#') && !IsSpace('R') && !IsSpace(digit)
  {
  }

  lemma StampRoundTrip(micros: nat)
    requires micros <= U64_MAX
    ensures IsWord(PrintStamp(micros)) && Stamp(PrintStamp(micros)).Some? &&
            Micros(Stamp(PrintStamp(micros)).value) == Some(micros)
  {
    hide Decimal, Fixed, Value, SplitOnce, IsSpace, ParseUnsigned;
    var seconds, fraction := Decimal(micros / MICROS), Fixed(micros % MICROS, 10, 6, true);
    var text := seconds + ['.'] + fraction;
    assert Init(PrintStamp(micros))[1..] == text;
    DecimalValue(micros / MICROS);
    SplitOnceFirst(seconds, '.', fraction);
    ParseDigits(seconds, 10, U64_MAX);
    Widths();
    FixedValue(micros % MICROS, 10, 6, true);
    assert SixDigits(fraction) == fraction;
    DigitsAreNotSpace(seconds, 10);
    DigitsAreNotSpace(fraction, 10);
    MarksAreNotSpace('0');
  }

  lemma {:induction false} BytesRoundTrip(data: seq<byte>, upper: bool)
    ensures HexBytes(PrintBytes(data, upper)) == Some(data)
  {
    if data != [] {
      var pair, rest := Fixed(data[0], 16, 2, upper), PrintBytes(data[1..], upper);
      BytesRoundTrip(data[1..], upper);
      ByteDigits(data[0], upper);
      assert (pair + rest)[2..] == rest;
      assert data == [data[0]] + data[1..];
    }
  }

  lemma ByteDigits(b: byte, upper: bool)
    ensures var s := Fixed(b, 16, 2, upper);
            HexNibble(s[0]) == Some(b as int / 16) && HexNibble(s[1]) == Some(b as int % 16)
  {
    var s := Fixed(b, 16, 2, upper);
    assert Fixed(b / 16, 16, 1, upper) == [] + [DigitChar(b / 16 % 16, upper)];
  }

  lemma IdRoundTrip(f: FrameRecord, upper: bool)
    requires WellFormed(f)
    ensures var s := PrintId(f, upper);
            && s != [] && |s| <= 8 && (|s| == 8 <==> f.extended) && '#' !in s
            && ParseUnsigned(s, 16, U32_MAX) == Some(f.id + if f.kind == Error then ID_MASK else 0)
  {
    hide Fixed, Value, ParseUnsigned;
    var s := PrintId(f, upper);
    Widths();
    FixedValue(f.id + if f.kind == Error then ID_MASK else 0, 16, |s|, upper);
    ParseDigits(s, 16, U32_MAX);
  }

  lemma PayloadRoundTrip(f: FrameRecord, style: Style)
    requires WellFormed(f) && WellStyled(style)
    ensures var raw: nat := f.id + if f.kind == Error then ID_MASK else 0;
            ParseBody(raw, f.extended, PrintPayload(f, style)) == Some(Body(f.id, f.extended, f.fd, f.kind, f.data))
  {
    hide HexBytes, PrintBytes, Decimal, Value, ParseUnsigned;
    var payload, bytes := PrintPayload(f, style), PrintBytes(f.data, style.upper);
    BytesRoundTrip(f.data, style.upper);
    if f.fd {
      assert payload[2..] == bytes;
    } else if f.kind == Remote {
      if style.dlc.Some? {
        var d := style.dlc.value;
        assert payload[1..] == Decimal(d);
        DecimalValue(d);
        ParseDigits(Decimal(d), 10, U8_MAX);
      }
    } else {
      assert bytes != [] ==> bytes[0] in bytes;
    }
  }

  lemma FrameRoundTrip(f: FrameRecord, style: Style)
    requires WellFormed(f) && WellStyled(style)
    ensures ParseFrame(PrintBody(f, style)) == Some(Body(f.id, f.extended, f.fd, f.kind, f.data))
  {
    hide PrintId, PrintPayload, ParseBody, ParseUnsigned, SplitOnce;
    IdRoundTrip(f, style.upper);
    SplitOnceFirst(PrintId(f, style.upper), '#', PrintPayload(f, style));
    PayloadRoundTrip(f, style);
  }

  lemma BodyIsWord(f: FrameRecord, style: Style)
    requires WellFormed(f) && WellStyled(style)
    ensures IsWord(PrintBody(f, style))
  {
    hide IsSpace, Fixed, Decimal, PrintBytes, PrintId;
    DigitsAreNotSpace(PrintId(f, style.upper), 16);
    DigitsAreNotSpace(PrintBytes(f.data, style.upper), 16);
    if style.dlc.Some? {
      DecimalValue(style.dlc.value);
      DigitsAreNotSpace(Decimal(style.dlc.value), 10);
    }
    var flag := DigitChar(style.flags, style.upper);
    MarksAreNotSpace(flag);
  }

  lemma LineRoundTrip(f: FrameRecord, style: Style)
    requires WellFormed(f) && WellStyled(style)
    ensures ParseLine(PrintLine(f, style)) == Ok(Some(f)) && '\n' !in PrintLine(f, style)
  {
    hide PrintStamp, PrintBody, Tokens, Micros, Stamp, ParseFrame;
    var body := PrintBody(f, style);
    StampRoundTrip(f.timestampMicros);
    BodyIsWord(f, style);
    FrameRoundTrip(f, style);
    NextToken(PrintStamp(f.timestampMicros), f.channel + [' '] + body);
    NextToken(f.channel, body);
    LastToken(body);
    assert IsSpace('\n');
  }

  // ------------------------------------------------------------------- the log

  /** The log of the frames, each line ended by a line feed. */
  ghost function PrintLog(frames: seq<FrameRecord>, styles: seq<Style>): string
    requires |styles| == |frames| && forall s | s in styles :: WellStyled(s)
  {
    if frames == [] then [] else PrintLine(frames[0], styles[0]) + ['\n'] + PrintLog(frames[1..], styles[1..])
  }

  lemma {:induction false} LogLines(frames: seq<FrameRecord>, styles: seq<Style>)
    requires |styles| == |frames| && forall s | s in styles :: WellStyled(s)
    requires forall f | f in frames :: WellFormed(f)
    ensures var lines := Lines(PrintLog(frames, styles));
            |lines| == |frames| && forall i | 0 <= i < |lines| :: ParseLine(lines[i]) == Ok(Some(frames[i]))
  {
    hide PrintLine, ParseLine, SplitOnce, WellFormed;
    if frames != [] {
      LineRoundTrip(frames[0], styles[0]);
      SplitOnceFirst(PrintLine(frames[0], styles[0]), '\n', PrintLog(frames[1..], styles[1..]));
      LogLines(frames[1..], styles[1..]);
    }
  }

  lemma {:induction false} AllFrames(lines: seq<string>, frames: seq<FrameRecord>)
    requires |lines| == |frames| && forall i | 0 <= i < |lines| :: ParseLine(lines[i]) == Ok(Some(frames[i]))
    ensures Frames(lines) == frames
  {
    hide ParseLine;
    if lines != [] {
      AllFrames(Init(lines), Init(frames));
      assert frames == Init(frames) + [Last(frames)];
    }
  }

  /**
   Importing a printed log gives back exactly its frames: standard and extended,
   classic and flexible data rate, remote and error, at every 64-bit time.
   */
  lemma RoundTrip(frames: seq<FrameRecord>, styles: seq<Style>, r: Result<seq<FrameRecord>, ImportError>)
    requires |styles| == |frames| && forall s | s in styles :: WellStyled(s)
    requires forall f | f in frames :: WellFormed(f)
    requires IsImport(PrintLog(frames, styles), r)
    ensures r == Ok(frames)
  {
    hide ParseLine, WellFormed, Lines, PrintLog;
    LogLines(frames, styles);
    AllFrames(Lines(PrintLog(frames, styles)), frames);
  }
}
