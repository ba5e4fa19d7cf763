/**
 What an ISO-TP transmission looks like on the wire, stated by printing rather
 than by parsing and without any receiver state, and the proof that the receiver
 completes exactly the payloads whose transmissions end at the current frame.
 */
module IsoTpWire {
  import opened Common
  import opened IsoTp

  // ------------------------------------------------------------ frame layouts

  predicate AddressPrefix(addressing: Addressing, prefix: seq<byte>) {
    |prefix| == PrefixLength(addressing)
  }

  function Be32Bytes(n: nat): (bytes: seq<byte>)
    requires n < 0x1_0000_0000
    ensures |bytes| == 4
  {
    [n / 0x100_0000, n / 0x1_0000 % 256, n / 0x100 % 256, n % 256]
  }

  /** Header of a single frame carrying `n` bytes: a length nibble, or the zero-nibble escape and a length byte. */
  predicate SingleHeader(h: seq<byte>, n: nat) {
    (1 <= n < 16 && h == [n]) || (1 <= n < 256 && h == [0, n])
  }

  /** Header of a first frame announcing `n` bytes: twelve bits, or the zero escape and thirty-two bits. */
  predicate FirstHeader(h: seq<byte>, n: nat) {
    || (1 <= n < 4096 && h == [16 + n / 256, n % 256])
    || (1 <= n < 0x1_0000_0000 && h == [16, 0] + Be32Bytes(n))
  }

  predicate Layout(addressing: Addressing, frame: seq<byte>, prefix: seq<byte>, header: seq<byte>, payload: seq<byte>) {
    AddressPrefix(addressing, prefix) && frame == prefix + header + payload
  }

  /** `frame` carries the whole of `data`, possibly followed by padding. */
  ghost predicate SingleFrame(addressing: Addressing, frame: seq<byte>, data: seq<byte>) {
    exists p, h, rest :: Layout(addressing, frame, p, h, rest) && SingleHeader(h, |data|) && data <= rest
  }

  /** `frame` opens a message of `len` bytes with its first bytes, `start`. */
  ghost predicate FirstFrame(addressing: Addressing, frame: seq<byte>, len: nat, start: seq<byte>) {
    exists p, h :: Layout(addressing, frame, p, h, start) && FirstHeader(h, len) && 0 < |start| < len
  }

  /** `frame` is numbered `sn` and carries `chunk`, which may be empty. */
  ghost predicate NumberedFrame(addressing: Addressing, frame: seq<byte>, sn: nat, chunk: seq<byte>) {
    sn < 16 && exists p, h :: Layout(addressing, frame, p, h, chunk) && h == [32 + sn]
  }

  /** `frame` continues a message: sequence number `sn` and a non-empty chunk. */
  ghost predicate ConsecutiveFrame(addressing: Addressing, frame: seq<byte>, sn: nat, chunk: seq<byte>) {
    chunk != [] && NumberedFrame(addressing, frame, sn, chunk)
  }

  /** `frame` is flow control or of a reserved type. */
  ghost predicate OtherFrame(addressing: Addressing, frame: seq<byte>) {
    exists p, h, rest :: Layout(addressing, frame, p, h, rest) && |h| == 1 && h[0] >= 48
  }

  // ------------------------------------------- decoding inverts the layouts

  lemma SplitFrame(addressing: Addressing, frame: seq<byte>, h: nat)
    returns (p: seq<byte>, header: seq<byte>, rest: seq<byte>)
    requires PrefixLength(addressing) + h <= |frame|
    ensures Layout(addressing, frame, p, header, rest)
    ensures |p| == PrefixLength(addressing) && |header| == h
    ensures header == frame[|p|..][..h] && rest == frame[|p|..][h..]
  {
    var k := PrefixLength(addressing);
    p, header, rest := frame[..k], frame[k..][..h], frame[k..][h..];
  }

  lemma JoinFrame(addressing: Addressing, frame: seq<byte>, p: seq<byte>, header: seq<byte>, rest: seq<byte>)
    requires Layout(addressing, frame, p, header, rest)
    ensures frame[PrefixLength(addressing)..] == header + rest
  {
  }

  lemma Be32Inverse(n: nat)
    requires n < 0x1_0000_0000
    ensures Be32(Be32Bytes(n)) == n
  {
    assert n / 0x100 / 256 == n / 0x1_0000 && n / 0x1_0000 / 256 == n / 0x100_0000;
  }

  lemma Be32BytesInverse(bytes: seq<byte>)
    requires |bytes| == 4
    ensures Be32(bytes) < 0x1_0000_0000 && Be32Bytes(Be32(bytes)) == bytes
  {
    var n := Be32(bytes);
    assert n == 0x100_0000 * bytes[0] as int + (0x1_0000 * bytes[1] as int + 0x100 * bytes[2] as int + bytes[3] as int);
    assert n / 0x100_0000 == bytes[0];
    assert n / 0x1_0000 == 256 * bytes[0] as int + bytes[1] as int;
    assert n / 0x100 == 256 * (256 * bytes[0] as int + bytes[1] as int) + bytes[2] as int;
  }

  lemma DecodesSingle(addressing: Addressing, frame: seq<byte>, data: seq<byte>)
    ensures DecodeFrame(addressing, frame) == Single(data) <==> SingleFrame(addressing, frame, data)
  {
    if p, h, rest :| Layout(addressing, frame, p, h, rest) && SingleHeader(h, |data|) && data <= rest {
      PrintedSingleDecodes(addressing, frame, data, p, h, rest);
    }
    if DecodeFrame(addressing, frame) == Single(data) {
      var pci := frame[PrefixLength(addressing)..];
      var p, h, rest := SplitFrame(addressing, frame, if pci[0] % 16 != 0 then 1 else 2);
      assert data == rest[..|data|];
      assert SingleHeader(h, |data|);
    }
  }

  lemma PrintedSingleDecodes(addressing: Addressing, frame: seq<byte>, data: seq<byte>, p: seq<byte>, h: seq<byte>,
                             rest: seq<byte>)
    requires Layout(addressing, frame, p, h, rest) && SingleHeader(h, |data|) && data <= rest
    ensures DecodeFrame(addressing, frame) == Single(data)
  {
    JoinFrame(addressing, frame, p, h, rest);
    var pci := frame[PrefixLength(addressing)..];
    assert pci[|h|..|h| + |data|] == data;
  }

  lemma DecodesFirst(addressing: Addressing, frame: seq<byte>, len: nat, start: seq<byte>)
    ensures DecodeFrame(addressing, frame) == First(len, start) <==> FirstFrame(addressing, frame, len, start)
  {
    if p, h :| Layout(addressing, frame, p, h, start) && FirstHeader(h, len) && 0 < |start| < len {
      PrintedFirstDecodes(addressing, frame, len, start, p, h);
    }
    if DecodeFrame(addressing, frame) == First(len, start) {
      DecodedFirstPrints(addressing, frame, len, start);
    }
  }

  lemma PrintedFirstDecodes(addressing: Addressing, frame: seq<byte>, len: nat, start: seq<byte>, p: seq<byte>,
                            h: seq<byte>)
    requires Layout(addressing, frame, p, h, start) && FirstHeader(h, len) && 0 < |start| < len
    ensures DecodeFrame(addressing, frame) == First(len, start)
  {
    JoinFrame(addressing, frame, p, h, start);
    var pci := frame[PrefixLength(addressing)..];
    assert pci[|h|..] == start;
    if |h| == 6 {
      assert pci[2..6] == Be32Bytes(len);
      Be32Inverse(len);
    }
  }

  lemma DecodedFirstPrints(addressing: Addressing, frame: seq<byte>, len: nat, start: seq<byte>)
    requires DecodeFrame(addressing, frame) == First(len, start)
    ensures FirstFrame(addressing, frame, len, start)
  {
    var pci := frame[PrefixLength(addressing)..];
    if (pci[0] % 16) as int * 256 + pci[1] as int == 0 {
      Be32BytesInverse(pci[2..6]);
      var p, h, rest := SplitFrame(addressing, frame, 6);
      assert h == [16, 0] + Be32Bytes(len);
      assert FirstHeader(h, len);
    } else {
      var p, h, rest := SplitFrame(addressing, frame, 2);
      assert h == [16 + len / 256, len % 256];
      assert FirstHeader(h, len);
    }
  }

  lemma DecodesNumbered(addressing: Addressing, frame: seq<byte>, sn: nat, chunk: seq<byte>)
    ensures DecodeFrame(addressing, frame) == Consecutive(sn, chunk) <==> NumberedFrame(addressing, frame, sn, chunk)
  {
    if NumberedFrame(addressing, frame, sn, chunk) {
      var p, h :| Layout(addressing, frame, p, h, chunk) && h == [32 + sn];
      JoinFrame(addressing, frame, p, h, chunk);
    }
    if DecodeFrame(addressing, frame) == Consecutive(sn, chunk) {
      var p, h, rest := SplitFrame(addressing, frame, 1);
      assert h == [32 + sn] && rest == chunk;
    }
  }

  lemma DecodesConsecutive(addressing: Addressing, frame: seq<byte>, sn: nat, chunk: seq<byte>)
    ensures chunk != [] ==>
              (DecodeFrame(addressing, frame) == Consecutive(sn, chunk) <==>
                ConsecutiveFrame(addressing, frame, sn, chunk))
  {
    DecodesNumbered(addressing, frame, sn, chunk);
  }

  lemma DecodesOther(addressing: Addressing, frame: seq<byte>)
    ensures DecodeFrame(addressing, frame) == Other <==> OtherFrame(addressing, frame)
  {
    if OtherFrame(addressing, frame) {
      var p, h, rest :| Layout(addressing, frame, p, h, rest) && |h| == 1 && h[0] >= 48;
      JoinFrame(addressing, frame, p, h, rest);
    }
    if DecodeFrame(addressing, frame) == Other {
      var p, h, rest := SplitFrame(addressing, frame, 1);
      assert h == [h[0]] && h[0] >= 48;
    }
  }

  // ------------------------------------------------------------- the grammar

  /** Consecutive frames are numbered 1, 2, ..., 15, 0, 1, ... */
  function Preceding(sn: nat): nat
    requires sn < 16
  {
    if sn == 0 then 15 else sn - 1
  }

  /**
   `frames` is a first frame announcing `len` bytes, then consecutive frames in
   order with other frames anywhere in between; together they carry `buf`, which
   is not yet the whole message, and the next consecutive frame is numbered `sn`.
   */
  ghost predicate Collecting(addressing: Addressing, frames: seq<seq<byte>>, len: nat, buf: seq<byte>, sn: nat)
    decreases |frames|
  {
    && frames != []
    && |buf| < len
    && sn < 16
    && if |frames| == 1 then sn == 1 && FirstFrame(addressing, frames[0], len, buf)
       else
         || (OtherFrame(addressing, Last(frames)) && Collecting(addressing, Init(frames), len, buf, sn))
         || exists k :: 0 < k < |buf| && Continues(addressing, frames, len, buf, sn, k)
  }

  ghost predicate Continues(addressing: Addressing, frames: seq<seq<byte>>, len: nat, buf: seq<byte>, sn: nat, k: nat)
    requires |frames| > 1 && sn < 16 && k < |buf|
    decreases |frames|, 0
  {
    && ConsecutiveFrame(addressing, Last(frames), Preceding(sn), buf[k..])
    && Collecting(addressing, Init(frames), len, buf[..k], Preceding(sn))
  }

  /** `frames` transmits `data`, the last frame possibly padded. */
  ghost predicate Message(addressing: Addressing, frames: seq<seq<byte>>, data: seq<byte>) {
    || (|frames| == 1 && SingleFrame(addressing, frames[0], data))
    || (|frames| > 1 && exists k, sn: nat, pad :: 0 < k < |data| && Finishes(addressing, frames, data, k, sn, pad))
  }

  ghost predicate Finishes(addressing: Addressing, frames: seq<seq<byte>>, data: seq<byte>, k: nat, sn: nat,
                           pad: seq<byte>)
    requires |frames| > 1 && k < |data|
  {
    && Collecting(addressing, Init(frames), |data|, data[..k], sn)
    && ConsecutiveFrame(addressing, Last(frames), sn, data[k..] + pad)
  }

  // ------------------------------------------ the receiver meets the grammar

  lemma SuffixInit(frames: seq<seq<byte>>, j: nat)
    requires j < |frames|
    ensures Last(frames[j..]) == Last(frames)
    ensures j < |frames| - 1 ==> Init(frames[j..]) == Init(frames)[j..]
  {
  }

  /** A flow-control or reserved frame changes nothing. */
  lemma OtherExtends(addressing: Addressing, frames: seq<seq<byte>>)
    requires frames != [] && OtherFrame(addressing, Last(frames))
    ensures Run(addressing, frames) == Run(addressing, Init(frames))
    ensures Pdus(addressing, frames) == Pdus(addressing, Init(frames))
    ensures Outcome(addressing, frames) == Ok(None)
  {
    DecodesOther(addressing, Last(frames));
  }

  /** A first frame starts a message afresh, whatever the receiver was doing. */
  lemma FirstOpens(addressing: Addressing, frames: seq<seq<byte>>, len: nat, buf: seq<byte>)
    requires frames != [] && FirstFrame(addressing, Last(frames), len, buf)
    ensures buf != [] && Run(addressing, frames) == Receiver(buf, len, 1, true)
    ensures Pdus(addressing, frames) == Pdus(addressing, Init(frames))
    ensures Outcome(addressing, frames) == Ok(None)
  {
    DecodesFirst(addressing, Last(frames), len, buf);
  }

  /** An in-order chunk that does not finish the message is appended. */
  lemma ChunkExtends(addressing: Addressing, frames: seq<seq<byte>>, len: nat, buf: seq<byte>, sn: nat,
                     chunk: seq<byte>)
    requires sn < 16 && frames != [] && Run(addressing, Init(frames)) == Receiver(buf, len, Preceding(sn), true)
    requires ConsecutiveFrame(addressing, Last(frames), Preceding(sn), chunk) && |buf| + |chunk| < len
    ensures Run(addressing, frames) == Receiver(buf + chunk, len, sn, true)
    ensures Pdus(addressing, frames) == Pdus(addressing, Init(frames))
    ensures Outcome(addressing, frames) == Ok(None)
  {
    DecodesConsecutive(addressing, Last(frames), Preceding(sn), chunk);
  }

  /** Along a collecting suffix the receiver holds exactly the bytes collected, whatever preceded it. */
  lemma {:induction false} CollectingRuns(addressing: Addressing, frames: seq<seq<byte>>, j: nat, len: nat,
                                          buf: seq<byte>, sn: nat)
    requires j < |frames| && Collecting(addressing, frames[j..], len, buf, sn)
    ensures buf != [] && Run(addressing, frames) == Receiver(buf, len, sn, true)
    ensures Pdus(addressing, frames) == Pdus(addressing, frames[..j])
    ensures Outcome(addressing, frames) == Ok(None)
    decreases |frames|
  {
    hide DecodeFrame, Receive, Outcome, Run, Pdus, OtherFrame, FirstFrame, ConsecutiveFrame;
    SuffixInit(frames, j);
    var suffix, before := frames[j..], Init(frames);
    if j == |frames| - 1 {
      FirstOpens(addressing, frames, len, buf);
      assert before == frames[..j];
    } else {
      assert before[..j] == frames[..j];
      if OtherFrame(addressing, Last(suffix)) && Collecting(addressing, Init(suffix), len, buf, sn) {
        CollectingRuns(addressing, before, j, len, buf, sn);
        OtherExtends(addressing, frames);
      } else {
        var k :| 0 < k < |buf| && Continues(addressing, suffix, len, buf, sn, k);
        CollectingRuns(addressing, before, j, len, buf[..k], Preceding(sn));
        ChunkExtends(addressing, frames, len, buf[..k], sn, buf[k..]);
        assert buf[..k] + buf[k..] == buf;
      }
    }
  }

  /** Whenever the receiver is active, some suffix of the stream is the transmission it is collecting. */
  lemma {:induction false} ActiveCollects(addressing: Addressing, frames: seq<seq<byte>>) returns (j: nat)
    requires Run(addressing, frames).active
    ensures j < |frames| && CollectedFrom(addressing, frames, j)
    decreases |frames|
  {
    match DecodeFrame(addressing, Last(frames)) {
      case First(len, start) =>
        j := |frames| - 1;
        DecodesFirst(addressing, Last(frames), len, start);
      case Other =>
        j := ActiveCollects(addressing, Init(frames));
        OtherCollects(addressing, frames, j);
      case Consecutive(sn, chunk) =>
        j := ActiveCollects(addressing, Init(frames));
        ChunkCollects(addressing, frames, j, sn, chunk);
    }
  }

  ghost predicate CollectedFrom(addressing: Addressing, frames: seq<seq<byte>>, j: nat)
    requires j < |frames|
  {
    var st := Run(addressing, frames);
    Collecting(addressing, frames[j..], st.expectedLen, st.buffer, st.nextSn)
  }

  lemma OtherCollects(addressing: Addressing, frames: seq<seq<byte>>, j: nat)
    requires j < |frames| - 1 && DecodeFrame(addressing, Last(frames)) == Other
    requires CollectedFrom(addressing, Init(frames), j)
    ensures CollectedFrom(addressing, frames, j)
  {
    var st := Run(addressing, Init(frames));
    SuffixInit(frames, j);
    DecodesOther(addressing, Last(frames));
    CollectsOther(addressing, frames[j..], st.expectedLen, st.buffer, st.nextSn);
  }

  lemma ChunkCollects(addressing: Addressing, frames: seq<seq<byte>>, j: nat, sn: nat, chunk: seq<byte>)
    requires j < |frames| - 1 && DecodeFrame(addressing, Last(frames)) == Consecutive(sn, chunk)
    requires Run(addressing, frames).active && CollectedFrom(addressing, Init(frames), j)
    ensures CollectedFrom(addressing, frames, j)
  {
    var before, st := Run(addressing, Init(frames)), Run(addressing, frames);
    SuffixInit(frames, j);
    DecodesConsecutive(addressing, Last(frames), sn, chunk);
    assert st == Receiver(before.buffer + chunk, before.expectedLen, (before.nextSn + 1) % 16, true);
    CollectsChunk(addressing, frames[j..], st.expectedLen, before.buffer, st.nextSn, chunk);
  }

  lemma CollectsOther(addressing: Addressing, suffix: seq<seq<byte>>, len: nat, buf: seq<byte>, sn: nat)
    requires |suffix| > 1 && OtherFrame(addressing, Last(suffix)) && Collecting(addressing, Init(suffix), len, buf, sn)
    ensures Collecting(addressing, suffix, len, buf, sn)
  {
  }

  lemma CollectsChunk(addressing: Addressing, suffix: seq<seq<byte>>, len: nat, buf: seq<byte>, sn: nat,
                      chunk: seq<byte>)
    requires |suffix| > 1 && sn < 16 && buf != [] && Collecting(addressing, Init(suffix), len, buf, Preceding(sn))
    requires ConsecutiveFrame(addressing, Last(suffix), Preceding(sn), chunk) && |buf| + |chunk| < len
    ensures Collecting(addressing, suffix, len, buf + chunk, sn)
  {
    var whole := buf + chunk;
    assert whole[..|buf|] == buf && whole[|buf|..] == chunk;
    assert Continues(addressing, suffix, len, whole, sn, |buf|);
  }

  /**
   The receiver is sound and complete for the grammar: on every stream, the last
   frame completes the payload `data` exactly when some suffix of the stream is a
   transmission of `data`.
   */
  lemma CompletesExactlyMessages(addressing: Addressing, frames: seq<seq<byte>>, data: seq<byte>)
    requires frames != []
    ensures Outcome(addressing, frames) == Ok(Some(data))
            <==> exists j :: 0 <= j < |frames| && Message(addressing, frames[j..], data)
  {
    if j :| 0 <= j < |frames| && Message(addressing, frames[j..], data) {
      MessageCompletes(addressing, frames, j, data);
    }
    if Outcome(addressing, frames) == Ok(Some(data)) {
      var j := CompletedIsMessage(addressing, frames, data);
    }
  }

  /** A transmission delivers its payload at its last frame, and delivers nothing before. */
  lemma MessageCompletes(addressing: Addressing, frames: seq<seq<byte>>, j: nat, data: seq<byte>)
    requires j < |frames| && Message(addressing, frames[j..], data)
    ensures Outcome(addressing, frames) == Ok(Some(data)) && Run(addressing, frames) == IDLE
    ensures Pdus(addressing, frames) == Pdus(addressing, frames[..j]) + [data]
  {
    var m := frames[j..];
    if |m| == 1 {
      DecodesSingle(addressing, Last(frames), data);
      assert Init(frames) == frames[..j];
    } else {
      var k, sn: nat, pad :| 0 < k < |data| && Finishes(addressing, m, data, k, sn, pad);
      FinishCompletes(addressing, frames, j, data, k, sn, pad);
    }
  }

  lemma FinishCompletes(addressing: Addressing, frames: seq<seq<byte>>, j: nat, data: seq<byte>, k: nat, sn: nat,
                        pad: seq<byte>)
    requires j < |frames| - 1 && 0 < k < |data| && Finishes(addressing, frames[j..], data, k, sn, pad)
    ensures Outcome(addressing, frames) == Ok(Some(data)) && Run(addressing, frames) == IDLE
    ensures Pdus(addressing, frames) == Pdus(addressing, frames[..j]) + [data]
  {
    SuffixInit(frames, j);
    CollectingRuns(addressing, Init(frames), j, |data|, data[..k], sn);
    assert Init(frames)[..j] == frames[..j];
    DecodesConsecutive(addressing, Last(frames), sn, data[k..] + pad);
    assert (data[k..] + pad)[..|data| - k] == data[k..];
    assert data[..k] + data[k..] == data;
  }

  lemma CompletedIsMessage(addressing: Addressing, frames: seq<seq<byte>>, data: seq<byte>) returns (j: nat)
    requires frames != [] && Outcome(addressing, frames) == Ok(Some(data))
    ensures j < |frames| && Message(addressing, frames[j..], data)
  {
    var before := Run(addressing, Init(frames));
    match DecodeFrame(addressing, Last(frames)) {
      case Single(d) =>
        DecodesSingle(addressing, Last(frames), data);
        j := |frames| - 1;
      case Consecutive(sn, chunk) =>
        j := ActiveCollects(addressing, Init(frames));
        SuffixInit(frames, j);
        DecodesConsecutive(addressing, Last(frames), sn, chunk);
        var k := |before.buffer|;
        var pad := chunk[|data| - k..];
        assert data[k..] + pad == chunk && data[..k] == before.buffer;
        assert Finishes(addressing, frames[j..], data, k, sn, pad);
    }
  }

  // ------------------------------------------------------------------ errors

  /** `frame` is laid out as none of the four types of frame. */
  ghost predicate Malformed(addressing: Addressing, frame: seq<byte>) {
    && (forall data :: !SingleFrame(addressing, frame, data))
    && (forall len, start :: !FirstFrame(addressing, frame, len, start))
    && (forall sn, chunk :: !NumberedFrame(addressing, frame, sn, chunk))
    && !OtherFrame(addressing, frame)
  }

  /** While the chunk numbered `sn` is awaited, the last frame brings another, or an empty one. */
  ghost predicate Interrupts(addressing: Addressing, frames: seq<seq<byte>>, j: nat, len: nat, buf: seq<byte>, sn: nat,
                             got: nat, chunk: seq<byte>, error: IsoTpError)
    requires frames != []
  {
    && j < |frames| - 1 && Collecting(addressing, Init(frames)[j..], len, buf, sn)
    && NumberedFrame(addressing, Last(frames), got, chunk)
    && error == (if got != sn then SequenceError(sn, got) else Truncated) && (got == sn ==> chunk == [])
  }

  lemma MalformedIff(addressing: Addressing, frame: seq<byte>)
    ensures DecodeFrame(addressing, frame) == Broken <==> Malformed(addressing, frame)
  {
    forall data ensures DecodeFrame(addressing, frame) == Single(data) <==> SingleFrame(addressing, frame, data) {
      DecodesSingle(addressing, frame, data);
    }
    forall len, start
      ensures DecodeFrame(addressing, frame) == First(len, start) <==> FirstFrame(addressing, frame, len, start)
    {
      DecodesFirst(addressing, frame, len, start);
    }
    forall sn, chunk
      ensures DecodeFrame(addressing, frame) == Consecutive(sn, chunk) <==> NumberedFrame(addressing, frame, sn, chunk)
    {
      DecodesNumbered(addressing, frame, sn, chunk);
    }
    DecodesOther(addressing, frame);
  }

  /**
   The last frame of a stream is an error exactly when it is laid out as no frame, which is a truncation,
   or when a message is being collected and it is a consecutive frame out of order, or in order and empty.
   A consecutive frame while nothing is collected is never an error.
   */
  lemma ErrorIff(addressing: Addressing, frames: seq<seq<byte>>, error: IsoTpError)
    requires frames != []
    ensures Outcome(addressing, frames) == Err(error)
            <==> || (error == Truncated && Malformed(addressing, Last(frames)))
                 || exists j: nat, len: nat, buf, sn: nat, got: nat, chunk ::
                      Interrupts(addressing, frames, j, len, buf, sn, got, chunk, error)
  {
    hide Malformed;
    MalformedIff(addressing, Last(frames));
    if j: nat, len: nat, buf, sn: nat, got: nat, chunk :|
       Interrupts(addressing, frames, j, len, buf, sn, got, chunk, error) {
      CollectingRuns(addressing, Init(frames), j, len, buf, sn);
      DecodesNumbered(addressing, Last(frames), got, chunk);
    }
    if Outcome(addressing, frames) == Err(error) {
      match DecodeFrame(addressing, Last(frames)) {
        case Consecutive(got, chunk) =>
          var st := Run(addressing, Init(frames));
          var j := ActiveCollects(addressing, Init(frames));
          DecodesNumbered(addressing, Last(frames), got, chunk);
          assert Interrupts(addressing, frames, j, st.expectedLen, st.buffer, st.nextSn, got, chunk, error);
        case _ =>
      }
    }
  }

  // -------------------------------------------------------------- round trip

  /** One thing a sender puts on the bus: a whole message, or a flow-control frame between messages. */
  datatype Item = Transmit(frames: seq<seq<byte>>, data: seq<byte>) | Interlude(frame: seq<byte>)

  ghost predicate ValidItem(addressing: Addressing, item: Item) {
    match item
    case Transmit(frames, data) => Message(addressing, frames, data)
    case Interlude(frame) => OtherFrame(addressing, frame)
  }

  function Stream(items: seq<Item>): seq<seq<byte>> {
    if items == [] then []
    else Stream(Init(items)) + match Last(items) case Transmit(frames, _) => frames case Interlude(frame) => [frame]
  }

  function Sent(items: seq<Item>): seq<seq<byte>> {
    if items == [] then []
    else Sent(Init(items)) + match Last(items) case Transmit(_, data) => [data] case Interlude(_) => []
  }

  /** Everything sent, in order and once each, is what reassembly returns. */
  lemma {:induction false} RoundTrip(addressing: Addressing, items: seq<Item>)
    requires forall item | item in items :: ValidItem(addressing, item)
    ensures Pdus(addressing, Stream(items)) == Sent(items)
  {
    if items != [] {
      var before := Stream(Init(items));
      RoundTrip(addressing, Init(items));
      assert ValidItem(addressing, Last(items));
      match Last(items) {
        case Transmit(frames, data) => AppendMessage(addressing, before, frames, data);
        case Interlude(frame) =>
          assert Init(before + [frame]) == before;
          OtherExtends(addressing, before + [frame]);
      }
    }
  }

  lemma AppendMessage(addressing: Addressing, before: seq<seq<byte>>, frames: seq<seq<byte>>, data: seq<byte>)
    requires Message(addressing, frames, data)
    ensures Pdus(addressing, before + frames) == Pdus(addressing, before) + [data]
  {
    var all := before + frames;
    assert all[..|before|] == before && all[|before|..] == frames;
    MessageCompletes(addressing, all, |before|, data);
  }

  // --------------------------------------------------------------- segmenter

  /**
   Segment a payload into frames of at most `width` bytes, each opening with the
   address prefix; `pad` fills the last frame. With no prefix and eight-byte
   frames this is the splitting the source's tests use; wider frames need the
   length escapes of CAN FD and longer payloads the 32-bit first frame, whose
   header takes six bytes after the prefix.
   */
  function Segment(prefix: seq<byte>, payload: seq<byte>, width: nat, pad: seq<byte>): seq<seq<byte>>
    requires |prefix| <= 1 && 7 + |prefix| <= width <= 64 && 0 < |payload| < 0x1_0000_0000
  {
    var room := width - 1 - |prefix|;
    if |payload| <= room && |payload| < 16 then [prefix + [|payload|] + (payload + pad)]
    else if |payload| <= room - 1 && |payload| < 256 then [prefix + [0, |payload|] + (payload + pad)]
    else
      var header := if |payload| < 4096 then [16 + |payload| / 256, |payload| % 256]
        else [16, 0] + Be32Bytes(|payload|);
      var k := room + 1 - |header|;
      [prefix + header + payload[..k]] + Consecutives(prefix, payload, k, 1, room, pad)
  }

  function Consecutives(prefix: seq<byte>, payload: seq<byte>, sent: nat, sn: nat, room: nat,
                        pad: seq<byte>): seq<seq<byte>>
    requires sent < |payload| && sn < 16 && room > 0
    decreases |payload| - sent
  {
    if |payload| - sent <= room then [prefix + [32 + sn] + (payload[sent..] + pad)]
    else
      [prefix + [32 + sn] + payload[sent..sent + room]] +
      Consecutives(prefix, payload, sent + room, (sn + 1) % 16, room, pad)
  }

  lemma {:induction false} ConsecutivesFinish(addressing: Addressing, prefix: seq<byte>, payload: seq<byte>, sent: nat,
                                              sn: nat, room: nat, pad: seq<byte>, head: seq<seq<byte>>)
    requires AddressPrefix(addressing, prefix) && 0 < sent < |payload| && room > 0
    requires Collecting(addressing, head, |payload|, payload[..sent], sn)
    ensures Message(addressing, head + Consecutives(prefix, payload, sent, sn, room, pad), payload)
    decreases |payload| - sent
  {
    var tail := Consecutives(prefix, payload, sent, sn, room, pad);
    var frame := tail[0];
    var longer := head + [frame];
    assert Init(longer) == head && Last(longer) == frame;
    if |payload| - sent <= room {
      assert Layout(addressing, frame, prefix, [32 + sn], payload[sent..] + pad);
      assert Finishes(addressing, longer, payload, sent, sn, pad);
      assert tail == [frame];
    } else {
      var chunk, next := payload[sent..sent + room], (sn + 1) % 16;
      assert Layout(addressing, frame, prefix, [32 + sn], chunk);
      CollectsChunk(addressing, longer, |payload|, payload[..sent], next, chunk);
      assert payload[..sent] + chunk == payload[..sent + room];
      ConsecutivesFinish(addressing, prefix, payload, sent + room, next, room, pad, longer);
      assert longer + tail[1..] == head + tail;
    }
  }

  /** Segmenting a payload transmits it: single frame, either length escape, and any number of sequence-number wraps. */
  lemma SegmentTransmits(addressing: Addressing, prefix: seq<byte>, payload: seq<byte>, width: nat, pad: seq<byte>)
    requires AddressPrefix(addressing, prefix) && 7 + |prefix| <= width <= 64 && 0 < |payload| < 0x1_0000_0000
    ensures Message(addressing, Segment(prefix, payload, width, pad), payload)
  {
    var room := width - 1 - |prefix|;
    var frames := Segment(prefix, payload, width, pad);
    if |payload| <= room && |payload| < 16 {
      assert Layout(addressing, frames[0], prefix, [|payload|], payload + pad);
    } else if |payload| <= room - 1 && |payload| < 256 {
      assert Layout(addressing, frames[0], prefix, [0, |payload|], payload + pad);
    } else {
      var header := if |payload| < 4096 then [16 + |payload| / 256, |payload| % 256]
        else [16, 0] + Be32Bytes(|payload|);
      var k := room + 1 - |header|;
      var head := [prefix + header + payload[..k]];
      assert FirstHeader(header, |payload|);
      assert Layout(addressing, head[0], prefix, header, payload[..k]);
      ConsecutivesFinish(addressing, prefix, payload, k, 1, room, pad, head);
    }
  }
}
