/**
 ISO-TP receiver reassembly (section 9.6 of ISO 15765-2:2016, protocol control
 information).

 The receiver is a class whose fields are updated frame by frame, as in the
 source. It is proved against a two-layer specification: `DecodeFrame` reads one
 frame, `Receive` is the protocol transition. A third, independent layer is the
 `Message` grammar, which says what a transmission of a payload looks like on
 the wire without mentioning any receiver state.
 */
module IsoTp {
  import opened Common

  datatype Addressing = Normal | Extended

  datatype IsoTpError = Truncated | SequenceError(expected: nat, got: nat)

  /** `Ok(None)`: more frames needed; `Ok(Some(d))`: the payload `d` is complete. */
  type PushResult = Result<Option<seq<byte>>, IsoTpError>

  // ---------------------------------------------------------------- one frame

  /** What one frame says once its protocol control information is decoded. */
  datatype Pci =
    | Single(data: seq<byte>)
    | First(length: nat, start: seq<byte>)
    | Consecutive(sn: nat, chunk: seq<byte>)
    | Other
    | Broken

  function PrefixLength(addressing: Addressing): nat {
    match addressing
    case Normal => 0
    case Extended => 1
  }

  function Be32(bytes: seq<byte>): nat
    requires |bytes| == 4
  {
    bytes[0] as int * 0x100_0000 + bytes[1] as int * 0x1_0000 + bytes[2] as int * 0x100 + bytes[3] as int
  }

  function DecodeSingle(pci: seq<byte>): Pci
    requires |pci| > 0
  {
    var low := pci[0] % 16;
    if low == 0 && |pci| < 2 then Broken
    else
      var (len, start) := if low != 0 then (low, 1) else (pci[1] as int, 2);
      if len == 0 || start + len > |pci| then Broken else Single(pci[start..start + len])
  }

  function DecodeFirst(pci: seq<byte>): Pci
    requires |pci| > 0
  {
    if |pci| < 2 then Broken
    else
      var short := (pci[0] % 16) as int * 256 + pci[1] as int;
      if short == 0 && |pci| < 6 then Broken
      else
        var (len, start) := if short == 0 then (Be32(pci[2..6]), 6) else (short, 2);
        if start < |pci| < start + len then First(len, pci[start..]) else Broken
  }

  function DecodeFrame(addressing: Addressing, frame: seq<byte>): Pci {
    var offset := PrefixLength(addressing);
    if |frame| <= offset then Broken
    else
      var pci := frame[offset..];
      match pci[0] / 16
      case 0 => DecodeSingle(pci)
      case 1 => DecodeFirst(pci)
      case 2 => Consecutive(pci[0] % 16, pci[1..])
      case _ => Other
  }

  // --------------------------------------------------------------- transition

  /** The receiver's fields as a value. */
  datatype Receiver = Receiver(buffer: seq<byte>, expectedLen: nat, nextSn: nat, active: bool)

  const IDLE := Receiver([], 0, 0, false)

  /** An active receiver holds a non-empty, incomplete message; an inactive one is in its initial state. */
  predicate WellFormed(st: Receiver) {
    if st.active then 0 < |st.buffer| < st.expectedLen && st.nextSn < 16 else st == IDLE
  }

  function Receive(st: Receiver, pci: Pci): (Receiver, PushResult)
    requires WellFormed(st)
  {
    match pci
    case Broken => (IDLE, Err(Truncated))
    case Other => (st, Ok(None))
    case Single(data) => (IDLE, Ok(Some(data)))
    case First(len, start) => (Receiver(start, len, 1, true), Ok(None))
    case Consecutive(sn, chunk) =>
      if !st.active then (st, Ok(None))
      else if sn != st.nextSn then (IDLE, Err(SequenceError(st.nextSn, sn)))
      else if chunk == [] then (IDLE, Err(Truncated))
      else if |st.buffer| + |chunk| < st.expectedLen then
        (st.(buffer := st.buffer + chunk, nextSn := (sn + 1) % 16), Ok(None))
      else
        (IDLE, Ok(Some(st.buffer + chunk[..st.expectedLen - |st.buffer|])))
  }

  /** The receiver after a whole stream of frames. */
  function Run(addressing: Addressing, frames: seq<seq<byte>>): (st: Receiver)
    ensures WellFormed(st)
  {
    if frames == [] then IDLE
    else
      var before := Run(addressing, Init(frames));
      ReceiveKeepsInvariant(addressing, before, Last(frames));
      Receive(before, DecodeFrame(addressing, Last(frames))).0
  }

  /** What the last frame of a stream makes `Push` return. */
  function Outcome(addressing: Addressing, frames: seq<seq<byte>>): PushResult
    requires frames != []
  {
    Receive(Run(addressing, Init(frames)), DecodeFrame(addressing, Last(frames))).1
  }

  /** Every payload completed along a stream, in order. */
  function Pdus(addressing: Addressing, frames: seq<seq<byte>>): seq<seq<byte>> {
    if frames == [] then []
    else
      Pdus(addressing, Init(frames)) +
      match Outcome(addressing, frames)
      case Ok(Some(data)) => [data]
      case _ => []
  }

  /** Number of frames of a stream that `Push` rejects. */
  function Errors(addressing: Addressing, frames: seq<seq<byte>>): nat {
    if frames == [] then 0
    else Errors(addressing, Init(frames)) + if Outcome(addressing, frames).Err? then 1 else 0
  }

  /**
   Every step keeps the receiver invariant; an error leaves the receiver in its
   initial state, so an explicit reset after it changes nothing; and a completed
   payload is never empty.
   */
  lemma ReceiveKeepsInvariant(addressing: Addressing, st: Receiver, frame: seq<byte>)
    requires WellFormed(st)
    ensures var (st', r) := Receive(st, DecodeFrame(addressing, frame));
            && WellFormed(st')
            && (r.Err? ==> st' == IDLE)
            && (r.Ok? && r.value.Some? ==> st' == IDLE && r.value.value != [])
  {
  }

  // ------------------------------------------------------------ the receiver

  /** Streaming receiver for one connection. */
  class Reassembler {
    const addressing: Addressing
    var buffer: seq<byte>
    var expectedLen: nat
    var nextSn: nat
    var active: bool

    ghost function State(): Receiver
      reads this
    {
      Receiver(buffer, expectedLen, nextSn, active)
    }

    ghost predicate Valid()
      reads this
    {
      WellFormed(State())
    }

    constructor (addressing: Addressing)
      ensures this.addressing == addressing
      ensures Valid() && State() == IDLE
    {
      this.addressing := addressing;
      buffer, expectedLen, nextSn, active := [], 0, 0, false;
    }

    method Reset()
      modifies this
      ensures State() == IDLE
    {
      buffer := [];
      expectedLen := 0;
      nextSn := 0;
      active := false;
    }

    method Finish() returns (data: seq<byte>)
      modifies this
      ensures data == if old(expectedLen) <= |old(buffer)| then old(buffer)[..old(expectedLen)] else old(buffer)
      ensures State() == IDLE
    {
      if expectedLen < |buffer| {
        buffer := buffer[..expectedLen];
      }
      data := buffer;
      Reset();
    }

    method Push(frame: seq<byte>) returns (r: PushResult)
      requires Valid()
      modifies this
      ensures Valid()
      ensures (State(), r) == Receive(old(State()), DecodeFrame(addressing, frame))
    {
      var offset := match addressing case Normal => 0 case Extended => 1;
      var pci := if offset <= |frame| then frame[offset..] else [];
      if pci == [] {
        Reset();
        return Err(Truncated);
      }
      match pci[0] / 16 {
        case 0 => r := SingleFrame(pci);
        case 1 => r := FirstFrame(pci);
        case 2 => r := ConsecutiveFrame(pci);
        case _ => r := Ok(None);
      }
    }

    method SingleFrame(pci: seq<byte>) returns (r: PushResult)
      requires |pci| > 0
      modifies this
      ensures Valid()
      ensures forall st :: WellFormed(st) ==> (State(), r) == Receive(st, DecodeSingle(pci))
    {
      Reset();
      var low := pci[0] % 16;
      var len: int, start: int;
      if low != 0 {
        len, start := low, 1;
      } else {
        if |pci| <= 1 {
          return Err(Truncated);
        }
        len, start := pci[1], 2;
      }
      if len == 0 {
        return Err(Truncated);
      }
      if start + len > |pci| {
        return Err(Truncated);
      }
      return Ok(Some(pci[start..start + len]));
    }

    method FirstFrame(pci: seq<byte>) returns (r: PushResult)
      requires |pci| > 0
      modifies this
      ensures Valid()
      ensures forall st :: WellFormed(st) ==> (State(), r) == Receive(st, DecodeFirst(pci))
    {
      Reset();
      var high := pci[0] % 16;
      if |pci| <= 1 {
        return Err(Truncated);
      }
      var low := pci[1];
      var len: int, payloadStart: int;
      if high == 0 && low == 0 {
        if |pci| < 6 {
          return Err(Truncated);
        }
        len, payloadStart := Be32(pci[2..6]), 6;
      } else {
        len, payloadStart := high as int * 256 + low as int, 2;
      }
      if len == 0 {
        return Err(Truncated);
      }
      var payload := pci[payloadStart..];
      if payload == [] || len <= |payload| {
        return Err(Truncated);
      }
      buffer := buffer + payload;
      assert buffer == payload;
      expectedLen := len;
      nextSn := 1;
      active := true;
      // The source tests for an already complete message here; the length check
      // above makes that branch unreachable.
      assert |buffer| < expectedLen;
      return Ok(None);
    }

    method ConsecutiveFrame(pci: seq<byte>) returns (r: PushResult)
      requires Valid()
      requires |pci| > 0
      modifies this
      ensures Valid()
      ensures (State(), r) == Receive(old(State()), Consecutive(pci[0] % 16, pci[1..]))
    {
      if !active {
        return Ok(None);
      }
      var sn := pci[0] % 16;
      if sn != nextSn {
        var expected := nextSn;
        Reset();
        return Err(SequenceError(expected, sn));
      }
      if |pci| == 1 {
        Reset();
        return Err(Truncated);
      }
      var remaining: nat := expectedLen - |buffer|;
      var payload := pci[1..];
      var take := if remaining < |payload| then remaining else |payload|;
      buffer := buffer + payload[..take];
      assert take == |payload| ==> payload[..take] == payload;
      nextSn := (nextSn + 1) % 16;
      if |buffer| >= expectedLen {
        assert buffer[..expectedLen] == buffer;
        var data := Finish();
        return Ok(Some(data));
      }
      return Ok(None);
    }
  }

  /** Reassemble every complete payload of one connection's frames. */
  method ReassembleAll(frames: seq<seq<byte>>, addressing: Addressing) returns (pdus: seq<seq<byte>>)
    ensures pdus == Pdus(addressing, frames)
  {
    var reassembler := new Reassembler(addressing);
    pdus := [];
    for i := 0 to |frames|
      invariant fresh(reassembler) && reassembler.addressing == addressing && reassembler.Valid()
      invariant reassembler.State() == Run(addressing, frames[..i])
      invariant pdus == Pdus(addressing, frames[..i])
    {
      assert Init(frames[..i + 1]) == frames[..i] && Last(frames[..i + 1]) == frames[i];
      ReceiveKeepsInvariant(addressing, reassembler.State(), frames[i]);
      var r := reassembler.Push(frames[i]);
      match r {
        case Ok(Some(data)) => pdus := pdus + [data];
        case Ok(None) =>
        case Err(_) => reassembler.Reset();
      }
    }
    assert frames[..|frames|] == frames;
  }
}
