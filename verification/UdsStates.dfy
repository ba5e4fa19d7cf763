/**
 What the reported states and transitions mean on the wire: which payload is reported
 as which state, said by its layout, and which frames of a capture carry it.
 */
module UdsStates {
  import opened Common
  import opened Capture
  import opened IsoTp
  import opened IsoTpWire
  import opened UdsAnalysis
  import opened Tally

  // ------------------------------------------------------------ one payload

  /** `payload` begins with the service byte `first`; its second byte, if any, is the subfunction. */
  predicate Addressed(payload: seq<byte>, first: int, subfunction: Option<byte>) {
    match subfunction
    case None => |payload| == 1 && payload[0] as int == first
    case Some(sub) => |payload| >= 2 && payload[0] as int == first && payload[1] == sub
  }

  /** How each state looks as a payload. */
  predicate LaidOutAs(payload: seq<byte>, state: UdsState) {
    match state
    case Request(service, subfunction) => service < 0x40 && Addressed(payload, service, subfunction)
    case PositiveResponse(service, subfunction) =>
      service <= 0x3e && Addressed(payload, service as int + 0x40, subfunction)
    case NegativeResponse(service, code) => [0x7f, service, code] <= payload
    case OtherPayload(service) =>
      && payload != [] && payload[0] == service
      && (service >= 0x80 || (service == 0x7f && |payload| <= 2))
  }

  /** A payload is classified as exactly the state it is laid out as. */
  lemma ClassifiedIff(payload: seq<byte>, state: UdsState)
    ensures ClassifyUdsState(payload) == Some(state) <==> LaidOutAs(payload, state)
  {
  }

  // --------------------------------------------------------- frames and streams

  /** The frame carries data on the stream: same channel, identifier, identifier width and direction. */
  predicate Belongs(frame: FrameRecord, stream: UdsStream) {
    && frame.kind == Data && |frame.data| > 0
    && frame.channel == stream.channel && frame.direction == stream.direction
    && frame.id == stream.identity.id && frame.extended == stream.identity.extended
  }

  /** `own` holds the data of the frames at `places`, which are, in order, those that belong to the stream. */
  predicate Selects(frames: seq<FrameRecord>, stream: UdsStream, places: seq<nat>, own: seq<seq<byte>>) {
    && |places| == |own|
    && (forall i | 0 <= i < |places| :: places[i] < |frames| && own[i] == frames[places[i]].data)
    && (forall i, j | 0 <= i < j < |places| :: places[i] < places[j])
    && (forall k: nat | k < |frames| :: k in places <==> Belongs(frames[k], stream))
  }

  lemma SelectNext(frames: seq<FrameRecord>, stream: UdsStream, places: seq<nat>, own: seq<seq<byte>>)
    requires frames != [] && Selects(Init(frames), stream, places, own)
    ensures if Belongs(Last(frames), stream) then
              Selects(frames, stream, places + [|frames| - 1], own + [Last(frames).data])
            else Selects(frames, stream, places, own)
  {
    hide Belongs;
    var n: nat := |frames| - 1;
    assert forall k: nat | k < n :: Init(frames)[k] == frames[k];
    assert n !in places;
    assert forall k: nat :: k in places + [n] <==> k in places || k == n;
  }

  /** A stream's own frames are those of the capture that belong to it, in their order. */
  lemma {:induction false} OwnFrames(frames: seq<FrameRecord>, stream: UdsStream) returns (places: seq<nat>)
    ensures Selects(frames, stream, places, Own(frames, stream))
  {
    hide Selects;
    if frames == [] {
      places := [];
      SelectNone(stream);
    } else {
      places := OwnFrames(Init(frames), stream);
      SelectNext(frames, stream, places, Own(Init(frames), stream));
      if Belongs(Last(frames), stream) {
        places := places + [|frames| - 1];
      } else {
        assert Own(frames, stream) == Own(Init(frames), stream);
      }
    }
  }

  lemma SelectNone(stream: UdsStream)
    ensures Selects([], stream, [], [])
  {
  }

  /** Frames `j` to `n` of the stream, taken by themselves, transmit `payload`. */
  ghost predicate Transmits(frames: seq<FrameRecord>, stream: UdsStream, j: nat, n: nat, payload: seq<byte>) {
    j < n <= |Own(frames, stream)| && Message(Normal, Own(frames, stream)[j..n], payload)
  }

  lemma {:induction false} ReportedIsSent(own: seq<seq<byte>>, state: UdsState)
    returns (j: nat, n: nat, payload: seq<byte>)
    requires state in Classified(Pdus(Normal, own))
    ensures j < n <= |own| && Message(Normal, own[j..n], payload) && LaidOutAs(payload, state)
  {
    var before := Pdus(Normal, Init(own));
    if state in Classified(before) {
      j, n, payload := ReportedIsSent(Init(own), state);
      assert Init(own)[j..n] == own[j..n];
    } else {
      assert Pdus(Normal, own) != before;
      payload := Outcome(Normal, own).value.value;
      assert Init(Pdus(Normal, own)) == before;
      ClassifiedIff(payload, state);
      j := CompletedIsMessage(Normal, own, payload);
      n := |own|;
      assert own[j..n] == own[j..];
    }
  }

  lemma {:induction false} SentIsReported(own: seq<seq<byte>>, j: nat, n: nat, payload: seq<byte>, state: UdsState)
    requires j < n <= |own| && Message(Normal, own[j..n], payload) && LaidOutAs(payload, state)
    ensures state in Classified(Pdus(Normal, own))
  {
    if n < |own| {
      assert Init(own)[j..n] == own[j..n];
      SentIsReported(Init(own), j, n, payload, state);
      var pdus := Pdus(Normal, own);
      assert pdus != Pdus(Normal, Init(own)) ==> Init(pdus) == Pdus(Normal, Init(own));
    } else {
      assert own[j..n] == own[j..];
      MessageCompletes(Normal, own, j, payload);
      ClassifiedIff(payload, state);
      var pdus := Pdus(Normal, own);
      assert Init(pdus) == Pdus(Normal, own[..j]) && Last(pdus) == payload;
    }
  }

  /**
   A state is reported for a stream exactly when consecutive frames of that stream transmit a payload
   laid out as that state, whatever other streams do in between.
   */
  lemma StateReportedIff(a: UdsStateAnalysis, frames: seq<FrameRecord>, stream: UdsStream, state: UdsState)
    requires Summarises(a, frames)
    ensures (stream, state) in a.uniqueStates
            <==> exists j, n, payload :: Transmits(frames, stream, j, n, payload) && LaidOutAs(payload, state)
  {
    assert StateAgrees(a, frames, stream, state);
    var own := Own(frames, stream);
    if (stream, state) in a.uniqueStates {
      var j, n, payload := ReportedIsSent(own, state);
      assert Transmits(frames, stream, j, n, payload);
    }
    if j, n, payload :| Transmits(frames, stream, j, n, payload) && LaidOutAs(payload, state) {
      SentIsReported(own, j, n, payload, state);
    }
  }

  lemma SingleFrameCompletes(frame: FrameRecord, payload: seq<byte>, state: UdsState)
    requires frame.kind == Data && frame.data != []
    requires DecodeFrame(Normal, frame.data) == Single(payload) && LaidOutAs(payload, state)
    ensures Completed([frame]) == Some(state)
  {
    hide DecodeFrame, ClassifyUdsState, LaidOutAs;
    var own := [frame.data];
    assert Init([frame]) == [] && Last([frame]) == frame && Init(own) == [];
    assert Own([frame], StreamOf(frame)) == own;
    ClassifiedIff(payload, state);
  }

  /** A capture of one single frame reports the one state its payload is laid out as, on the frame's own stream. */
  lemma SingleFrameCapture(a: UdsStateAnalysis, frame: FrameRecord, payload: seq<byte>, state: UdsState)
    requires Summarises(a, [frame]) && frame.kind == Data
    requires 0 < |payload| <= 7 && frame.data == [|payload| as byte] + payload && LaidOutAs(payload, state)
    ensures var stream := UdsStream(frame.channel, FrameIdentity(frame.id, frame.extended), frame.direction);
            a == UdsStateAnalysis(1, 0, {(stream, state)}, map[])
  {
    hide DecodeFrame, Summarises, LaidOutAs, Completed;
    SummaryIsUnique(a, [frame]);
    assert Layout(Normal, frame.data, [], [|payload| as byte], payload);
    DecodesSingle(Normal, frame.data, payload);
    SingleFrameCompletes(frame, payload, state);
    assert Init([frame]) == [] && Last([frame]) == frame;
  }

  // ------------------------------------------------------------- transitions

  /** At `i`, `h` goes from `x` to `y` at once. */
  predicate StepsAt(h: seq<UdsState>, x: UdsState, y: UdsState, i: int) {
    0 <= i < |h| - 1 && h[i] == x && h[i + 1] == y
  }

  function Steps(h: seq<UdsState>, x: UdsState, y: UdsState): set<int> {
    set i | 0 <= i < |h| && StepsAt(h, x, y, i)
  }

  lemma NoSteps(h: seq<UdsState>, x: UdsState, y: UdsState)
    requires |h| < 2
    ensures Steps(h, x, y) == {}
  {
  }

  lemma StepsAtInit(h: seq<UdsState>, x: UdsState, y: UdsState, i: int)
    requires |h| >= 2
    ensures StepsAt(h, x, y, i) <==> StepsAt(Init(h), x, y, i) || (i == |h| - 2 && StepsAt(h, x, y, |h| - 2))
    ensures !StepsAt(Init(h), x, y, |h| - 2)
  {
  }

  lemma StepsExtend(h: seq<UdsState>, x: UdsState, y: UdsState)
    requires |h| >= 2
    ensures Steps(h, x, y) == Steps(Init(h), x, y) + if StepsAt(h, x, y, |h| - 2) then {|h| - 2} else {}
    ensures |h| - 2 !in Steps(Init(h), x, y)
  {
    hide StepsAt;
    forall i ensures i in Steps(h, x, y) <==> i in Steps(Init(h), x, y) || (i == |h| - 2 && StepsAt(h, x, y, |h| - 2)) {
      StepsAtInit(h, x, y, i);
      InRange(h, x, y, i);
      InRange(Init(h), x, y, i);
    }
    StepsAtInit(h, x, y, |h| - 2);
  }

  lemma InRange(h: seq<UdsState>, x: UdsState, y: UdsState, i: int)
    ensures StepsAt(h, x, y, i) ==> 0 <= i < |h|
  {
  }

  lemma {:induction false} AdjacentCounts(h: seq<UdsState>, x: UdsState, y: UdsState)
    ensures Adjacent(h, x, y) == |Steps(h, x, y)|
  {
    hide Steps;
    if |h| < 2 {
      NoSteps(h, x, y);
    } else {
      AdjacentCounts(Init(h), x, y);
      StepsExtend(h, x, y);
    }
  }

  /** The states of a stream are those of its completed payloads, one each, in the order of completion. */
  lemma {:induction false} HistoryFollowsPayloads(pdus: seq<seq<byte>>, i: nat)
    requires i < |pdus| && forall p | p in pdus :: p != []
    ensures |Classified(pdus)| == |pdus| && LaidOutAs(pdus[i], Classified(pdus)[i])
  {
    assert forall p | p in Init(pdus) :: p in pdus;
    assert Last(pdus) in pdus;
    if |pdus| > 1 {
      HistoryFollowsPayloads(Init(pdus), if i < |pdus| - 1 then i else 0);
    } else {
      assert Classified(Init(pdus)) == [];
    }
    ClassifiedIff(Last(pdus), Last(Classified(pdus)));
  }

  /** A transition is counted exactly as often as the stream's states go from the one to the other at once. */
  lemma TransitionCounted(a: UdsStateAnalysis, frames: seq<FrameRecord>, stream: UdsStream, x: UdsState, y: UdsState)
    requires Summarises(a, frames)
    ensures Get(a.transitions, (stream, x, y)) == |Steps(History(frames, stream), x, y)|
    ensures (stream, x, y) in a.transitions <==> Steps(History(frames, stream), x, y) != {}
  {
    assert TransitionAgrees(a, frames, stream, x, y);
    AdjacentCounts(History(frames, stream), x, y);
  }
}
