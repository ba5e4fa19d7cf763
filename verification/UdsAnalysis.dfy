/**
 Demultiplexed UDS state analysis of a capture: one ISO-TP receiver per stream,
 run over interleaved traffic. The result is specified stream by stream, as if
 each stream had been recorded alone.
 */
module UdsAnalysis {
  import opened Common
  import opened Capture
  import opened IsoTp
  import opened Tally

  datatype FrameIdentity = FrameIdentity(id: nat, extended: bool)

  datatype UdsStream = UdsStream(channel: string, identity: FrameIdentity, direction: Option<Direction>)

  datatype UdsState =
    | Request(service: byte, subfunction: Option<byte>)
    | PositiveResponse(service: byte, subfunction: Option<byte>)
    | NegativeResponse(service: byte, code: byte)
    | OtherPayload(service: byte)

  type Transition = (UdsStream, UdsState, UdsState)

  datatype UdsStateAnalysis = UdsStateAnalysis(
    completedPdus: nat,
    malformedFrames: nat,
    uniqueStates: set<(UdsStream, UdsState)>,
    transitions: map<Transition, nat>)

  // ------------------------------------------------------ per-stream meaning

  function ClassifyUdsState(payload: seq<byte>): (state: Option<UdsState>)
    ensures state.None? <==> payload == []
  {
    if payload == [] then None
    else
      var service, rest := payload[0], payload[1..];
      if service == 0x7f then
        Some(if |rest| >= 2 then NegativeResponse(rest[0], rest[1]) else OtherPayload(service))
      else
        var subfunction := if rest == [] then None else Some(rest[0]);
        if 0x40 <= service < 0x7f then Some(PositiveResponse(service - 0x40, subfunction))
        else if service < 0x40 then Some(Request(service, subfunction))
        else Some(OtherPayload(service))
  }

  predicate Carries(frame: FrameRecord) {
    frame.kind == Data && frame.data != []
  }

  function StreamOf(frame: FrameRecord): UdsStream {
    UdsStream(frame.channel, FrameIdentity(frame.id, frame.extended), frame.direction)
  }

  /** The non-empty data frames of one stream, as if it had been recorded alone. */
  function Own(frames: seq<FrameRecord>, stream: UdsStream): seq<seq<byte>> {
    if frames == [] then []
    else
      Own(Init(frames), stream) +
      if Carries(Last(frames)) && StreamOf(Last(frames)) == stream then [Last(frames).data] else []
  }

  function Classified(pdus: seq<seq<byte>>): seq<UdsState> {
    if pdus == [] then []
    else
      Classified(Init(pdus)) +
      match ClassifyUdsState(Last(pdus))
      case Some(state) => [state]
      case None => []
  }

  /** The states one stream goes through: each payload that reassembling it alone yields, classified. */
  function History(frames: seq<FrameRecord>, stream: UdsStream): seq<UdsState> {
    Classified(Pdus(Normal, Own(frames, stream)))
  }

  /** Streams that carry at least one non-empty data frame. */
  function Streams(frames: seq<FrameRecord>): set<UdsStream> {
    set frame | frame in frames && Carries(frame) :: StreamOf(frame)
  }

  function PduCounts(frames: seq<FrameRecord>): map<UdsStream, nat> {
    map stream | stream in Streams(frames) :: |Pdus(Normal, Own(frames, stream))|
  }

  function ErrorCounts(frames: seq<FrameRecord>): map<UdsStream, nat> {
    map stream | stream in Streams(frames) :: Errors(Normal, Own(frames, stream))
  }

  /** How often `x` is directly followed by `y`. */
  function Adjacent(h: seq<UdsState>, x: UdsState, y: UdsState): nat {
    if |h| < 2 then 0
    else Adjacent(Init(h), x, y) + if h[|h| - 2] == x && h[|h| - 1] == y then 1 else 0
  }

  /** What an analysis of `frames` must say, stated stream by stream. */
  ghost predicate Summarises(a: UdsStateAnalysis, frames: seq<FrameRecord>) {
    && a.completedPdus == Total(PduCounts(frames))
    && a.malformedFrames == Total(ErrorCounts(frames))
    && StatesAgree(a, frames)
    && TransitionsAgree(a, frames)
  }

  ghost predicate StatesAgree(a: UdsStateAnalysis, frames: seq<FrameRecord>) {
    forall s, x :: StateAgrees(a, frames, s, x)
  }

  ghost predicate TransitionsAgree(a: UdsStateAnalysis, frames: seq<FrameRecord>) {
    forall s, x, y :: TransitionAgrees(a, frames, s, x, y)
  }

  ghost predicate StateAgrees(a: UdsStateAnalysis, frames: seq<FrameRecord>, s: UdsStream, x: UdsState) {
    (s, x) in a.uniqueStates <==> x in History(frames, s)
  }

  ghost predicate TransitionAgrees(a: UdsStateAnalysis, frames: seq<FrameRecord>, s: UdsStream, x: UdsState,
                                   y: UdsState) {
    Counted(a.transitions, History(frames, s), (s, x, y))
  }

  /** `m` counts the transition `k` as often as it occurs in `h`, and has no entry for it otherwise. */
  ghost predicate Counted(m: map<Transition, nat>, h: seq<UdsState>, k: Transition) {
    var n := Adjacent(h, k.1, k.2);
    if n == 0 then k !in m else k in m && m[k] == n
  }

  // --------------------------------------------------------- one more frame

  /** The state, if any, that the last frame of a capture completes on its own stream. */
  function Completed(frames: seq<FrameRecord>): Option<UdsState>
    requires frames != []
  {
    var f := Last(frames);
    if !Carries(f) then None
    else
      match Outcome(Normal, Own(frames, StreamOf(f)))
      case Ok(Some(data)) => ClassifyUdsState(data)
      case _ => None
  }

  /** A frame touches the history of its own stream only. */
  lemma HistoryStep(frames: seq<FrameRecord>, stream: UdsStream)
    requires frames != []
    ensures History(frames, stream) == History(Init(frames), stream) +
                                       if Completed(frames).Some? && StreamOf(Last(frames)) == stream
                                       then [Completed(frames).value] else []
    ensures |History(frames, stream)| == |Pdus(Normal, Own(frames, stream))|
            <== |History(Init(frames), stream)| == |Pdus(Normal, Own(Init(frames), stream))|
  {
    var own, before := Own(frames, stream), Own(Init(frames), stream);
    if Carries(Last(frames)) && StreamOf(Last(frames)) == stream {
      assert Init(own) == before && Last(own) == Last(frames).data;
      ReceiveKeepsInvariant(Normal, Run(Normal, before), Last(own));
      var pdus := Pdus(Normal, own);
      if Outcome(Normal, own).Ok? && Outcome(Normal, own).value.Some? {
        assert Init(pdus) == Pdus(Normal, before);
      } else {
        assert pdus == Pdus(Normal, before);
      }
    } else {
      assert own == before;
    }
  }

  /** Completed payloads are never empty, so classification skips none of them. */
  lemma {:induction false} EveryPduHasAState(frames: seq<FrameRecord>, stream: UdsStream)
    ensures |History(frames, stream)| == |Pdus(Normal, Own(frames, stream))|
  {
    if frames != [] {
      EveryPduHasAState(Init(frames), stream);
      HistoryStep(frames, stream);
    }
  }

  // ------------------------------------------------- the summary, frame by frame

  /** The receiver of a stream that has carried no frame yet is idle. */
  lemma UnseenStream(frames: seq<FrameRecord>, stream: UdsStream)
    requires stream !in Streams(frames)
    ensures Own(frames, stream) == []
  {
    if frames != [] {
      assert forall f | f in Init(frames) :: f in frames;
      UnseenStream(Init(frames), stream);
    }
  }

  /** What the last frame does to its own stream: whether it completes a payload or is rejected. */
  function Delivers(frames: seq<FrameRecord>): nat
    requires frames != []
  {
    if Completed(frames).Some? then 1 else 0
  }

  function Rejects(frames: seq<FrameRecord>): nat
    requires frames != []
  {
    var f := Last(frames);
    if Carries(f) && Outcome(Normal, Own(frames, StreamOf(f))).Err? then 1 else 0
  }

  lemma OwnStep(frames: seq<FrameRecord>, stream: UdsStream)
    requires frames != []
    ensures var mine := Carries(Last(frames)) && StreamOf(Last(frames)) == stream;
            && |Pdus(Normal, Own(frames, stream))| ==
              |Pdus(Normal, Own(Init(frames), stream))| + (if mine then Delivers(frames) else 0)
            && Errors(Normal, Own(frames, stream)) ==
              Errors(Normal, Own(Init(frames), stream)) + if mine then Rejects(frames) else 0
  {
    EveryPduHasAState(frames, stream);
    EveryPduHasAState(Init(frames), stream);
    HistoryStep(frames, stream);
    var own, before := Own(frames, stream), Own(Init(frames), stream);
    if Carries(Last(frames)) && StreamOf(Last(frames)) == stream {
      assert Init(own) == before;
    } else {
      assert own == before;
    }
  }

  lemma StreamsStep(frames: seq<FrameRecord>)
    requires frames != []
    ensures Streams(frames) == Streams(Init(frames)) + if Carries(Last(frames)) then {StreamOf(Last(frames))} else {}
  {
    assert frames == Init(frames) + [Last(frames)];
  }

  lemma CountStep(frames: seq<FrameRecord>, s: UdsStream)
    requires frames != [] && s in Streams(frames)
    ensures PduCounts(frames)[s] == Get(PduCounts(Init(frames)), s) + DueTo(frames, s, Delivers(frames))
    ensures ErrorCounts(frames)[s] == Get(ErrorCounts(Init(frames)), s) + DueTo(frames, s, Rejects(frames))
  {
    OwnStep(frames, s);
    if s !in Streams(Init(frames)) {
      UnseenStream(Init(frames), s);
    }
  }

  lemma CountsStep(frames: seq<FrameRecord>)
    requires frames != []
    ensures Total(PduCounts(frames)) == Total(PduCounts(Init(frames))) + Delivers(frames)
    ensures Total(ErrorCounts(frames)) == Total(ErrorCounts(Init(frames))) + Rejects(frames)
  {
    StreamsStep(frames);
    forall s | s in Streams(frames)
      ensures PduCounts(frames)[s] == Get(PduCounts(Init(frames)), s) + DueTo(frames, s, Delivers(frames))
      ensures ErrorCounts(frames)[s] == Get(ErrorCounts(Init(frames)), s) + DueTo(frames, s, Rejects(frames))
    {
      CountStep(frames, s);
    }
    TotalStep(PduCounts(Init(frames)), PduCounts(frames), frames, Delivers(frames));
    TotalStep(ErrorCounts(Init(frames)), ErrorCounts(frames), frames, Rejects(frames));
  }

  /** The part of a count that stream `s` owes to the last frame. */
  function DueTo(frames: seq<FrameRecord>, s: UdsStream, n: nat): nat
    requires frames != []
  {
    if Carries(Last(frames)) && StreamOf(Last(frames)) == s then n else 0
  }

  lemma TotalStep(m: map<UdsStream, nat>, m': map<UdsStream, nat>, frames: seq<FrameRecord>, n: nat)
    requires frames != [] && (!Carries(Last(frames)) ==> n == 0)
    requires m'.Keys == m.Keys + if Carries(Last(frames)) then {StreamOf(Last(frames))} else {}
    requires forall s | s in m' :: m'[s] == Get(m, s) + DueTo(frames, s, n)
    ensures Total(m') == Total(m) + n
  {
    if Carries(Last(frames)) {
      TotalChange(m, m', StreamOf(Last(frames)));
    } else {
      assert m' == m;
    }
  }

  /** Transition counts after stream `s`, with states `past` so far, reaches state `y`. */
  function Advance(m: map<Transition, nat>, s: UdsStream, past: seq<UdsState>, y: UdsState): map<Transition, nat> {
    if past == [] then m
    else
      var k := (s, Last(past), y);
      m[k := Get(m, k) + 1]
  }

  /** The summary of a capture, given the summary of all but its last frame. */
  function NextSummary(a: UdsStateAnalysis, frames: seq<FrameRecord>): UdsStateAnalysis
    requires frames != []
  {
    var stream := StreamOf(Last(frames));
    match Completed(frames)
    case None => a.(malformedFrames := a.malformedFrames + Rejects(frames))
    case Some(state) =>
      a.(completedPdus := a.completedPdus + 1,
         uniqueStates := a.uniqueStates + {(stream, state)},
         transitions := Advance(a.transitions, stream, History(Init(frames), stream), state))
  }

  lemma SummaryStep(a: UdsStateAnalysis, frames: seq<FrameRecord>)
    requires frames != [] && Summarises(a, Init(frames))
    ensures Summarises(NextSummary(a, frames), frames)
  {
    CountsStep(frames);
    StatesStep(a, frames);
    TransitionsStep(a, frames);
  }

  lemma StatesStep(a: UdsStateAnalysis, frames: seq<FrameRecord>)
    requires frames != [] && StatesAgree(a, Init(frames))
    ensures StatesAgree(NextSummary(a, frames), frames)
  {
    forall s, x ensures StateAgrees(NextSummary(a, frames), frames, s, x) {
      assert StateAgrees(a, Init(frames), s, x);
      StateStep(a, frames, s, x);
    }
  }

  lemma TransitionsStep(a: UdsStateAnalysis, frames: seq<FrameRecord>)
    requires frames != [] && TransitionsAgree(a, Init(frames))
    ensures TransitionsAgree(NextSummary(a, frames), frames)
  {
    forall s, x, y ensures TransitionAgrees(NextSummary(a, frames), frames, s, x, y) {
      assert TransitionAgrees(a, Init(frames), s, x, y);
      TransitionStep(a, frames, s, x, y);
    }
  }

  lemma StateStep(a: UdsStateAnalysis, frames: seq<FrameRecord>, s: UdsStream, x: UdsState)
    requires frames != [] && StateAgrees(a, Init(frames), s, x)
    ensures StateAgrees(NextSummary(a, frames), frames, s, x)
  {
    HistoryStep(frames, s);
  }

  lemma TransitionStep(a: UdsStateAnalysis, frames: seq<FrameRecord>, s: UdsStream, x: UdsState, y: UdsState)
    requires frames != [] && TransitionAgrees(a, Init(frames), s, x, y)
    ensures TransitionAgrees(NextSummary(a, frames), frames, s, x, y)
  {
    HistoryStep(frames, s);
    var stream, h := StreamOf(Last(frames)), History(Init(frames), s);
    match Completed(frames) {
      case None =>
        assert History(frames, s) == h;
      case Some(state) =>
        AdvanceCounted(a.transitions, stream, History(Init(frames), stream), state, h, (s, x, y));
        assert History(frames, s) == if stream == s then h + [state] else h;
    }
  }

  lemma AdvanceCounted(m: map<Transition, nat>, stream: UdsStream, past: seq<UdsState>, state: UdsState,
                       h: seq<UdsState>, k: Transition)
    requires Counted(m, h, k)
    requires stream == k.0 ==> h == past
    ensures Counted(Advance(m, stream, past, state), if stream == k.0 then h + [state] else h, k)
  {
  }

  // ------------------------------------------------------------ the analysis

  /** One distinct receiver per stream seen, each in the state its own frames alone put it in. */
  ghost predicate Tracks(receivers: map<UdsStream, Reassembler>, frames: seq<FrameRecord>)
    reads set s | s in receivers :: receivers[s]
  {
    && receivers.Keys == Streams(frames)
    && (forall s | s in receivers ::
          receivers[s].addressing == Normal && receivers[s].State() == Run(Normal, Own(frames, s)))
    && (forall s, t | s in receivers && t in receivers && s != t :: receivers[s] != receivers[t])
  }

  /** Look up or create the stream's receiver and push one frame into it. */
  method Feed(receivers: map<UdsStream, Reassembler>, ghost frames: seq<FrameRecord>, frame: FrameRecord)
    returns (receivers': map<UdsStream, Reassembler>, r: PushResult)
    requires frames != [] && Last(frames) == frame && Carries(frame)
    requires Tracks(receivers, Init(frames))
    modifies set s | s in receivers :: receivers[s]
    ensures Tracks(receivers', frames)
    ensures forall s | s in receivers' :: fresh(receivers'[s]) || (s in receivers && receivers'[s] == receivers[s])
    ensures r == Outcome(Normal, Own(frames, StreamOf(frame)))
  {
    hide Run, Outcome, Receive, DecodeFrame, Own, Streams;
    var stream := StreamOf(frame);
    StreamsStep(frames);
    receivers' := receivers;
    if stream !in receivers' {
      UnseenStream(Init(frames), stream);
      NoFrames();
      var idle := new Reassembler(Normal);
      receivers' := receivers'[stream := idle];
    }
    var receiver := receivers'[stream];
    r := receiver.Push(frame.data);
    OneMoreFrame(frames);
    forall s | s in receivers' && s != stream
      ensures receivers'[s].State() == Run(Normal, Own(frames, s))
    {
      OtherStream(frames, s);
    }
  }

  lemma NoFrames()
    ensures Run(Normal, []) == IDLE
  {
  }

  lemma OneMoreFrame(frames: seq<FrameRecord>)
    requires frames != [] && Carries(Last(frames))
    ensures var own, before := Own(frames, StreamOf(Last(frames))), Own(Init(frames), StreamOf(Last(frames)));
            own != [] && (Run(Normal, own), Outcome(Normal, own)) ==
              Receive(Run(Normal, before), DecodeFrame(Normal, Last(frames).data))
  {
    var own := Own(frames, StreamOf(Last(frames)));
    assert Init(own) == Own(Init(frames), StreamOf(Last(frames))) && Last(own) == Last(frames).data;
  }

  lemma OtherStream(frames: seq<FrameRecord>, s: UdsStream)
    requires frames != [] && StreamOf(Last(frames)) != s
    ensures Own(frames, s) == Own(Init(frames), s)
  {
  }

  /** `previous` remembers the latest state of every stream that has one. */
  ghost predicate TracksLast(previous: map<UdsStream, UdsState>, frames: seq<FrameRecord>) {
    forall s :: LastOf(previous, frames, s)
  }

  ghost predicate LastOf(previous: map<UdsStream, UdsState>, frames: seq<FrameRecord>, s: UdsStream) {
    var h := History(frames, s);
    if h == [] then s !in previous else s in previous && previous[s] == Last(h)
  }

  function NextLast(previous: map<UdsStream, UdsState>, frames: seq<FrameRecord>): map<UdsStream, UdsState>
    requires frames != []
  {
    match Completed(frames)
    case None => previous
    case Some(state) => previous[StreamOf(Last(frames)) := state]
  }

  lemma LastStep(previous: map<UdsStream, UdsState>, frames: seq<FrameRecord>)
    requires frames != [] && TracksLast(previous, Init(frames))
    ensures TracksLast(NextLast(previous, frames), frames)
  {
    forall s ensures LastOf(NextLast(previous, frames), frames, s) {
      assert LastOf(previous, Init(frames), s);
      LastOfStep(previous, frames, s);
    }
  }

  lemma LastOfStep(previous: map<UdsStream, UdsState>, frames: seq<FrameRecord>, s: UdsStream)
    requires frames != [] && LastOf(previous, Init(frames), s)
    ensures LastOf(NextLast(previous, frames), frames, s)
  {
    HistoryStep(frames, s);
  }

  lemma SilentFrame(receivers: map<UdsStream, Reassembler>, frames: seq<FrameRecord>)
    requires frames != [] && !Carries(Last(frames)) && Tracks(receivers, Init(frames))
    ensures Tracks(receivers, frames)
  {
    StreamsStep(frames);
    assert forall s :: Own(frames, s) == Own(Init(frames), s);
  }

  /** Account for what pushing the last frame returned. */
  method Record(a: UdsStateAnalysis, previous: map<UdsStream, UdsState>, ghost frames: seq<FrameRecord>,
                stream: UdsStream, r: PushResult)
    returns (a': UdsStateAnalysis, previous': map<UdsStream, UdsState>)
    requires frames != [] && Carries(Last(frames)) && stream == StreamOf(Last(frames))
    requires r == Outcome(Normal, Own(frames, stream))
    requires LastOf(previous, Init(frames), stream)
    ensures a' == NextSummary(a, frames) && previous' == NextLast(previous, frames)
  {
    a', previous' := a, previous;
    match r {
      case Ok(Some(pdu)) =>
        a' := a'.(completedPdus := a.completedPdus + 1);
        match ClassifyUdsState(pdu) {
          case Some(state) =>
            a' := a'.(uniqueStates := a.uniqueStates + {(stream, state)});
            if stream in previous {
              var k := (stream, previous[stream], state);
              a' := a'.(transitions := a.transitions[k := Get(a.transitions, k) + 1]);
            }
            previous' := previous[stream := state];
        }
      case Ok(None) =>
      case Err(_) => a' := a'.(malformedFrames := a.malformedFrames + 1);
    }
  }

  ghost predicate UpToDate(receivers: map<UdsStream, Reassembler>, previous: map<UdsStream, UdsState>,
                           a: UdsStateAnalysis, frames: seq<FrameRecord>)
    reads set s | s in receivers :: receivers[s]
  {
    Tracks(receivers, frames) && TracksLast(previous, frames) && Summarises(a, frames)
  }

  /** One iteration: skip the frame, or feed its stream and record the outcome. */
  method Observe(receivers: map<UdsStream, Reassembler>, previous: map<UdsStream, UdsState>, a: UdsStateAnalysis,
                 ghost frames: seq<FrameRecord>, frame: FrameRecord)
    returns (receivers': map<UdsStream, Reassembler>, previous': map<UdsStream, UdsState>, a': UdsStateAnalysis)
    requires frames != [] && Last(frames) == frame && UpToDate(receivers, previous, a, Init(frames))
    modifies set s | s in receivers :: receivers[s]
    ensures UpToDate(receivers', previous', a', frames)
    ensures forall s | s in receivers' :: fresh(receivers'[s]) || (s in receivers && receivers'[s] == receivers[s])
  {
    SummaryStep(a, frames);
    LastStep(previous, frames);
    if frame.kind != Data || frame.data == [] {
      SilentFrame(receivers, frames);
      return receivers, previous, a;
    }
    var stream := StreamOf(frame);
    assert LastOf(previous, Init(frames), stream);
    var r;
    receivers', r := Feed(receivers, frames, frame);
    a', previous' := Record(a, previous, frames, stream, r);
  }

  /** Reassemble every stream of a capture and summarise its states, one pass over the interleaved frames. */
  method AnalyseUdsStates(frames: seq<FrameRecord>) returns (a: UdsStateAnalysis)
    ensures Summarises(a, frames)
  {
    var receivers: map<UdsStream, Reassembler> := map[];
    var previous: map<UdsStream, UdsState> := map[];
    a := UdsStateAnalysis(0, 0, {}, map[]);
    assert frames[..0] == [];
    for i := 0 to |frames|
      invariant forall s | s in receivers :: fresh(receivers[s])
      invariant UpToDate(receivers, previous, a, frames[..i])
    {
      assert Init(frames[..i + 1]) == frames[..i] && Last(frames[..i + 1]) == frames[i];
      receivers, previous, a := Observe(receivers, previous, a, frames[..i + 1], frames[i]);
    }
    assert frames[..|frames|] == frames;
  }

  // ----------------------------------------------------- conservation and walks

  /** The analysis of a capture as a value: the summaries of its prefixes, one frame at a time. */
  function Summary(frames: seq<FrameRecord>): UdsStateAnalysis {
    if frames == [] then UdsStateAnalysis(0, 0, {}, map[]) else NextSummary(Summary(Init(frames)), frames)
  }

  lemma {:induction false} SummarySummarises(frames: seq<FrameRecord>)
    ensures Summarises(Summary(frames), frames)
  {
    if frames == [] {
    } else {
      SummarySummarises(Init(frames));
      SummaryStep(Summary(Init(frames)), frames);
    }
  }

  /** The stream-by-stream description leaves nothing open: it determines the analysis. */
  lemma SummaryIsUnique(a: UdsStateAnalysis, frames: seq<FrameRecord>)
    requires Summarises(a, frames)
    ensures a == Summary(frames)
  {
    SummarySummarises(frames);
    var b := Summary(frames);
    forall p: (UdsStream, UdsState) ensures p in a.uniqueStates <==> p in b.uniqueStates {
      assert StateAgrees(a, frames, p.0, p.1) && StateAgrees(b, frames, p.0, p.1);
    }
    assert a.uniqueStates == b.uniqueStates;
    forall k: Transition
      ensures k in a.transitions <==> k in b.transitions
      ensures k in a.transitions ==> a.transitions[k] == b.transitions[k]
    {
      assert TransitionAgrees(a, frames, k.0, k.1, k.2) && TransitionAgrees(b, frames, k.0, k.1, k.2);
    }
    assert a.transitions == b.transitions;
  }

  /** Streams on which at least one payload was completed, that is, those with a non-empty history. */
  function ActiveStreams(frames: seq<FrameRecord>): set<UdsStream> {
    if frames == [] then {}
    else ActiveStreams(Init(frames)) + if Completed(frames).Some? then {StreamOf(Last(frames))} else {}
  }

  lemma {:induction false} ActiveIffHistory(frames: seq<FrameRecord>, s: UdsStream)
    ensures s in ActiveStreams(frames) <==> History(frames, s) != []
  {
    if frames != [] {
      ActiveIffHistory(Init(frames), s);
      HistoryStep(frames, s);
    }
  }

  lemma AdvanceCounts(m: map<Transition, nat>, s: UdsStream, past: seq<UdsState>, y: UdsState)
    ensures Total(Advance(m, s, past, y)) == Total(m) + if past == [] then 0 else 1
  {
    if past != [] {
      var k := (s, Last(past), y);
      TotalUpdate(m, _ => true, k, Get(m, k) + 1);
    }
  }

  /** A stream becomes active with its first completed payload. */
  lemma ActiveCount(frames: seq<FrameRecord>)
    requires frames != []
    ensures |ActiveStreams(frames)| == |ActiveStreams(Init(frames))| +
            if Completed(frames).Some? && History(Init(frames), StreamOf(Last(frames))) == [] then 1 else 0
  {
    ActiveIffHistory(Init(frames), StreamOf(Last(frames)));
    SetGrowth(ActiveStreams(Init(frames)), ActiveStreams(frames), StreamOf(Last(frames)), Completed(frames).Some?);
  }

  lemma SetGrowth<T>(a: set<T>, b: set<T>, x: T, added: bool)
    requires b == a + if added then {x} else {}
    ensures |b| == |a| + if added && x !in a then 1 else 0
  {
    if !added || x in a {
      assert b == a;
    }
  }

  /** One more completed payload either starts its stream's history or adds one transition. */
  lemma ConservesStep(a: UdsStateAnalysis, frames: seq<FrameRecord>, active: nat, active': nat)
    requires frames != [] && Total(a.transitions) + active == a.completedPdus
    requires active' == active +
                        if Completed(frames).Some? && History(Init(frames), StreamOf(Last(frames))) == [] then 1 else 0
    ensures Total(NextSummary(a, frames).transitions) + active' == NextSummary(a, frames).completedPdus
  {
    if Completed(frames).Some? {
      var stream := StreamOf(Last(frames));
      AdvanceCounts(a.transitions, stream, History(Init(frames), stream), Completed(frames).value);
    }
  }

  lemma {:induction false} SummaryConserves(frames: seq<FrameRecord>)
    ensures Total(Summary(frames).transitions) + |ActiveStreams(frames)| == Summary(frames).completedPdus
  {
    if frames == [] {
      assert ActiveStreams([]) == {};
    } else {
      SummaryConserves(Init(frames));
      ActiveCount(frames);
      ConservesStep(Summary(Init(frames)), frames, |ActiveStreams(Init(frames))|, |ActiveStreams(frames)|);
    }
  }

  /**
   Conservation: every completed payload is either the first of its stream or the
   end of exactly one counted transition.
   */
  lemma TransitionsConserved(a: UdsStateAnalysis, frames: seq<FrameRecord>)
    requires Summarises(a, frames)
    ensures Total(a.transitions) + |ActiveStreams(frames)| == a.completedPdus
  {
    SummaryIsUnique(a, frames);
    SummaryConserves(frames);
  }

  function From(stream: UdsStream, x: UdsState): Transition -> bool {
    (k: Transition) => k.0 == stream && k.1 == x
  }

  function To(stream: UdsStream, x: UdsState): Transition -> bool {
    (k: Transition) => k.0 == stream && k.2 == x
  }

  /** How much more often the walk `h` leaves `x` than it enters it. */
  function Surplus(h: seq<UdsState>, x: UdsState): int {
    if h == [] then 0 else (if h[0] == x then 1 else 0) - if Last(h) == x then 1 else 0
  }

  lemma TransitionCounts(m: map<Transition, nat>, k: Transition, stream: UdsStream, x: UdsState)
    ensures var m' := m[k := Get(m, k) + 1];
            && TotalWhere(m', From(stream, x)) ==
               TotalWhere(m, From(stream, x)) + (if k.0 == stream && k.1 == x then 1 else 0)
            && TotalWhere(m', To(stream, x)) ==
               TotalWhere(m, To(stream, x)) + if k.0 == stream && k.2 == x then 1 else 0
  {
    TotalUpdate(m, From(stream, x), k, Get(m, k) + 1);
    TotalUpdate(m, To(stream, x), k, Get(m, k) + 1);
  }

  ghost predicate Balanced(m: map<Transition, nat>, h: seq<UdsState>, stream: UdsStream, x: UdsState) {
    TotalWhere(m, From(stream, x)) - TotalWhere(m, To(stream, x)) == Surplus(h, x)
  }

  lemma WalkExtends(m: map<Transition, nat>, s: UdsStream, past: seq<UdsState>, y: UdsState,
                    h: seq<UdsState>, stream: UdsStream, x: UdsState)
    requires Balanced(m, h, stream, x)
    requires stream == s ==> h == past
    ensures Balanced(Advance(m, s, past, y), if s == stream then h + [y] else h, stream, x)
  {
    if past != [] {
      TransitionCounts(m, (s, Last(past), y), stream, x);
    }
  }

  lemma WalkStep(a: UdsStateAnalysis, frames: seq<FrameRecord>, stream: UdsStream, x: UdsState)
    requires frames != [] && Balanced(a.transitions, History(Init(frames), stream), stream, x)
    ensures Balanced(NextSummary(a, frames).transitions, History(frames, stream), stream, x)
  {
    HistoryStep(frames, stream);
    var s, h := StreamOf(Last(frames)), History(Init(frames), stream);
    match Completed(frames) {
      case None =>
        assert History(frames, stream) == h;
      case Some(y) =>
        WalkExtends(a.transitions, s, History(Init(frames), s), y, h, stream, x);
        assert History(frames, stream) == if s == stream then h + [y] else h;
    }
  }

  lemma {:induction false} SummaryWalks(frames: seq<FrameRecord>, stream: UdsStream, x: UdsState)
    ensures Balanced(Summary(frames).transitions, History(frames, stream), stream, x)
  {
    if frames != [] {
      SummaryWalks(Init(frames), stream, x);
      WalkStep(Summary(Init(frames)), frames, stream, x);
    }
  }

  /**
   The transitions of each stream form one walk: every state is left as often as
   it is entered, except that the first state is left once more and the last
   state once less.
   */
  lemma TransitionsFormAWalk(a: UdsStateAnalysis, frames: seq<FrameRecord>, stream: UdsStream, x: UdsState)
    requires Summarises(a, frames)
    ensures Balanced(a.transitions, History(frames, stream), stream, x)
  {
    SummaryIsUnique(a, frames);
    SummaryWalks(frames, stream, x);
  }

  lemma {:induction false} AdjacentAreMembers(h: seq<UdsState>, x: UdsState, y: UdsState)
    requires Adjacent(h, x, y) > 0
    ensures x in h && y in h
  {
    if Adjacent(Init(h), x, y) > 0 {
      AdjacentAreMembers(Init(h), x, y);
    }
  }

  /** Both ends of every counted transition are among the reported states. */
  lemma EndpointsAreStates(a: UdsStateAnalysis, frames: seq<FrameRecord>, k: Transition)
    requires Summarises(a, frames) && k in a.transitions
    ensures (k.0, k.1) in a.uniqueStates && (k.0, k.2) in a.uniqueStates
  {
    assert TransitionAgrees(a, frames, k.0, k.1, k.2);
    AdjacentAreMembers(History(frames, k.0), k.1, k.2);
    assert StateAgrees(a, frames, k.0, k.1) && StateAgrees(a, frames, k.0, k.2);
  }
}
