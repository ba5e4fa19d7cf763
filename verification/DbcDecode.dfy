/**
 Decoding a frame against a message, and the inverse operation that stores a
 value in a signal's bit window: storing and decoding is the identity for either
 byte order, and leaves every signal with a disjoint window alone.
 */
module DbcDecode {
  import opened Common
  import opened Bits
  import opened Dbc

  datatype Signal = Signal(
    name: string,
    startBit: nat,
    length: nat,
    byteOrder: ByteOrder,
    valueType: ValueType,
    factor: real,
    offset: real,
    unit: string,
    multiplex: Multiplex,
    valueTable: map<int, string>)

  datatype Message = Message(id: nat, extended: bool, name: string, dlc: nat, signals: seq<Signal>)

  type Database = map<(nat, bool), Message>

  datatype DecodedSignal = DecodedSignal(name: string, raw: int, value: real, unit: string, caption: Option<string>)

  datatype DecodedFrame = DecodedFrame(message: string, signals: seq<DecodedSignal>)

  // ----------------------------------------------------------- specification

  predicate SignalFits(s: Signal, n: nat) {
    Fits(n, s.startBit, s.length, s.byteOrder)
  }

  function RawOf(s: Signal, data: seq<byte>): (raw: Option<u64>)
    ensures raw.Some? <==> SignalFits(s, |data|)
    ensures raw.Some? ==> raw.value < Pow2(s.length)
  {
    if !SignalFits(s, |data|) then None
    else
      FieldIsLow(data, s.startBit, s.length, s.byteOrder);
      Pow2Monotone(s.length, 64);
      Pow2Of64();
      Some(Field(data, s.startBit, s.length, s.byteOrder))
  }

  /** The raw value of the first multiplexor switch, if there is one inside the payload. */
  function Switch(signals: seq<Signal>, data: seq<byte>): Option<u64> {
    if signals == [] then None
    else if signals[0].multiplex == Multiplexor then RawOf(signals[0], data)
    else Switch(signals[1..], data)
  }

  predicate Selected(s: Signal, switch: Option<u64>) {
    s.multiplex.Multiplexed? ==> switch == Some(s.multiplex.selector)
  }

  function Lookup(table: map<int, string>, raw: int): Option<string> {
    if raw in table then Some(table[raw]) else None
  }

  /** The physical value `base * factor + offset`, without rounding. */
  function Scaled(s: Signal, base: int): real {
    base as real * s.factor + s.offset
  }

  function Decoded(s: Signal, field: u64): DecodedSignal
    requires 1 <= s.length <= 64
  {
    var raw := SignedValue(field, s.length, s.valueType);
    var base := match s.valueType case Unsigned => field case Signed => raw;
    DecodedSignal(s.name, raw, Scaled(s, base), s.unit, Lookup(s.valueTable, raw))
  }

  /** What a signal with field `raw` contributes to a decoded frame: one entry, or none. */
  function EntryFor(s: Signal, switch: Option<u64>, raw: Option<u64>): seq<DecodedSignal>
    requires raw.Some? ==> 1 <= s.length <= 64
  {
    if raw.None? || !Selected(s, switch) then [] else [Decoded(s, raw.value)]
  }

  function Entry(s: Signal, switch: Option<u64>, data: seq<byte>): seq<DecodedSignal> {
    EntryFor(s, switch, RawOf(s, data))
  }

  /** Entries of all signals in definition order. */
  function Entries(signals: seq<Signal>, switch: Option<u64>, data: seq<byte>): seq<DecodedSignal> {
    if signals == [] then [] else Entry(signals[0], switch, data) + Entries(signals[1..], switch, data)
  }

  lemma {:induction false} EntriesConcat(a: seq<Signal>, b: seq<Signal>, switch: Option<u64>, data: seq<byte>)
    ensures Entries(a + b, switch, data) == Entries(a, switch, data) + Entries(b, switch, data)
  {
    if a == [] {
      assert a + b == b;
    } else {
      assert (a + b)[0] == a[0] && (a + b)[1..] == a[1..] + b;
      EntriesConcat(a[1..], b, switch, data);
    }
  }

  // ---------------------------------------------------------------- decoding

  method FindSwitch(signals: seq<Signal>, data: seq<byte>) returns (switch: Option<u64>)
    ensures switch == Switch(signals, data)
  {
    for i := 0 to |signals|
      invariant Switch(signals, data) == Switch(signals[i..], data)
    {
      if signals[i].multiplex == Multiplexor {
        switch := ExtractRaw(data, signals[i].startBit, signals[i].length, signals[i].byteOrder);
        return;
      }
    }
    return None;
  }

  method DecodeSignal(s: Signal, switch: Option<u64>, data: seq<byte>) returns (entry: seq<DecodedSignal>)
    ensures entry == Entry(s, switch, data)
  {
    if s.multiplex.Multiplexed? && switch != Some(s.multiplex.selector) {
      return [];
    }
    var field := ExtractRaw(data, s.startBit, s.length, s.byteOrder);
    if field.None? {
      return [];
    }
    var raw := SignedValue(field.value, s.length, s.valueType);
    var base := match s.valueType case Unsigned => field.value case Signed => raw;
    var caption := if raw in s.valueTable then Some(s.valueTable[raw]) else None;
    return [DecodedSignal(s.name, raw, Scaled(s, base), s.unit, caption)];
  }

  /** Decode a payload; `None` when no message matches the identifier. */
  method Decode(db: Database, id: nat, extended: bool, data: seq<byte>) returns (frame: Option<DecodedFrame>)
    ensures frame == if (id, extended) !in db then None
                     else
                       var m := db[(id, extended)];
                       Some(DecodedFrame(m.name, Entries(m.signals, Switch(m.signals, data), data)))
  {
    if (id, extended) !in db {
      return None;
    }
    var message := db[(id, extended)];
    var switch := FindSwitch(message.signals, data);
    var signals: seq<DecodedSignal> := [];
    for i := 0 to |message.signals|
      invariant signals == Entries(message.signals[..i], switch, data)
    {
      AppendSignal(message.signals, i, switch, data);
      var entry := DecodeSignal(message.signals[i], switch, data);
      signals := signals + entry;
    }
    assert message.signals[..|message.signals|] == message.signals;
    return Some(DecodedFrame(message.name, signals));
  }

  lemma AppendSignal(signals: seq<Signal>, i: nat, switch: Option<u64>, data: seq<byte>)
    requires i < |signals|
    ensures Entries(signals[..i + 1], switch, data) ==
            Entries(signals[..i], switch, data) + Entry(signals[i], switch, data)
  {
    EntriesConcat(signals[..i], [signals[i]], switch, data);
    assert signals[..i + 1] == signals[..i] + [signals[i]];
  }

  // ------------------------------------------------------------ what it means

  /** `e` is what the signal says when its window holds `field`. */
  predicate Reports(s: Signal, field: nat, e: DecodedSignal)
    requires 1 <= s.length <= 64
  {
    && e.name == s.name && e.unit == s.unit
    && (match s.valueType
        case Unsigned =>
          && e.raw == (if field < 0x8000_0000_0000_0000 then field else field - 0x1_0000_0000_0000_0000)
          && e.value == field as real * s.factor + s.offset
        case Signed =>
          && e.raw == (if field < Pow2(s.length - 1) then field else field - Pow2(s.length))
          && e.value == e.raw as real * s.factor + s.offset)
    && (e.raw in s.valueTable ==> e.caption == Some(s.valueTable[e.raw]))
    && (e.raw !in s.valueTable ==> e.caption == None)
  }

  /** A signal is left out exactly when its window leaves the payload or the switch selects another. */
  predicate LeftOut(s: Signal, switch: Option<u64>, data: seq<byte>) {
    !SignalFits(s, |data|) || (s.multiplex.Multiplexed? && switch != Some(s.multiplex.selector))
  }

  lemma DecodedReports(s: Signal, field: u64)
    requires 1 <= s.length <= 64 && field < Pow2(s.length)
    ensures Reports(s, field, Decoded(s, field))
  {
    hide SignedValue, Pow2, SignedRange, AsI64;
    match s.valueType {
      case Unsigned => UnsignedRaw(field, s.length);
      case Signed => SignedIsTwosComplement(field, s.length);
    }
  }

  lemma UnsignedRaw(field: u64, length: nat)
    requires 1 <= length <= 64
    ensures SignedValue(field, length, Unsigned) ==
            if field < 0x8000_0000_0000_0000 then field else field - 0x1_0000_0000_0000_0000
  {
  }

  lemma EntryMeaning(s: Signal, switch: Option<u64>, data: seq<byte>)
    ensures LeftOut(s, switch, data) ==> Entry(s, switch, data) == []
    ensures !LeftOut(s, switch, data) ==>
              && 1 <= s.length <= 64 && |Entry(s, switch, data)| == 1 && RawOf(s, data).Some?
              && Reports(s, RawOf(s, data).value, Entry(s, switch, data)[0])
  {
    hide Reports, Decoded, RawOf;
    if !LeftOut(s, switch, data) {
      DecodedReports(s, RawOf(s, data).value);
    }
  }

  /** The entries are those of the signals at `places`, which are, in order, the ones not left out. */
  predicate Lists(signals: seq<Signal>, switch: Option<u64>, data: seq<byte>, places: seq<nat>,
                  entries: seq<DecodedSignal>)
  {
    && |places| == |entries|
    && (forall i | 0 <= i < |places| ::
          places[i] < |signals| && Entry(signals[places[i]], switch, data) == [entries[i]])
    && (forall i, j | 0 <= i < j < |places| :: places[i] < places[j])
    && (forall k: nat | k < |signals| :: k in places <==> !LeftOut(signals[k], switch, data))
  }

  /** A frame lists one entry for each signal that is not left out, in the order they are defined. */
  lemma {:induction false} EntriesInOrder(signals: seq<Signal>, switch: Option<u64>, data: seq<byte>)
    returns (places: seq<nat>)
    ensures Lists(signals, switch, data, places, Entries(signals, switch, data))
  {
    hide Lists, Entry, LeftOut;
    if signals == [] {
      places := [];
      NoneListed(switch, data);
    } else {
      var before, s := Init(signals), Last(signals);
      assert signals[..|before|] == before && signals[..|signals|] == signals;
      AppendSignal(signals, |before|, switch, data);
      places := EntriesInOrder(before, switch, data);
      EntryMeaning(s, switch, data);
      ListMore(signals, switch, data, places, Entries(before, switch, data));
      if !LeftOut(s, switch, data) {
        places := places + [|before|];
      } else {
        assert Entries(signals, switch, data) == Entries(before, switch, data);
      }
    }
  }

  lemma NoneListed(switch: Option<u64>, data: seq<byte>)
    ensures Lists([], switch, data, [], [])
  {
  }

  lemma ListMore(signals: seq<Signal>, switch: Option<u64>, data: seq<byte>, places: seq<nat>,
                 entries: seq<DecodedSignal>)
    requires signals != [] && Lists(Init(signals), switch, data, places, entries)
    requires !LeftOut(Last(signals), switch, data) ==> |Entry(Last(signals), switch, data)| == 1
    ensures if LeftOut(Last(signals), switch, data) then Lists(signals, switch, data, places, entries)
            else Lists(signals, switch, data, places + [|signals| - 1], entries + Entry(Last(signals), switch, data))
  {
    hide LeftOut, Entry;
    var n: nat := |signals| - 1;
    assert forall k: nat | k < n :: Init(signals)[k] == signals[k];
    assert n !in places;
    assert forall k: nat :: k in places + [n] <==> k in places || k == n;
  }

  /** The first multiplexor is the switch, inside the payload or not; without one there is no switch value. */
  lemma {:induction false} SwitchIsFirst(signals: seq<Signal>, data: seq<byte>, i: nat)
    requires i <= |signals| && forall k | 0 <= k < i :: signals[k].multiplex != Multiplexor
    requires i < |signals| ==> signals[i].multiplex == Multiplexor
    ensures Switch(signals, data) == if i < |signals| then RawOf(signals[i], data) else None
  {
    hide RawOf;
    if i > 0 {
      SwitchIsFirst(signals[1..], data, i - 1);
    }
  }

  // ------------------------------------------------------------ bit positions

  /** Where bit `j` (counting from the least significant) of a signal's field sits in the payload. */
  function Position(s: Signal, j: nat): nat
    requires j < s.length
  {
    match s.byteOrder
    case Little => s.startBit + j
    case Big => Mirror(Mirror(s.startBit) + s.length - 1 - j)
  }

  lemma FieldBit(s: Signal, data: seq<byte>, j: nat)
    requires SignalFits(s, |data|) && j < s.length
    ensures BitAt(data, Position(s, j)) == Some(Bit(RawOf(s, data).value, j))
  {
    match s.byteOrder {
      case Little => LittleFieldBit(data, s.startBit, s.length, j);
      case Big => BigFieldBit(data, s.startBit, s.length, j);
    }
  }

  lemma PositionInPayload(s: Signal, n: nat, j: nat)
    requires SignalFits(s, n) && j < s.length
    ensures Position(s, j) < 8 * n
  {
  }

  lemma PositionsDistinct(s: Signal, i: nat, j: nat)
    requires i < s.length && j < s.length && i != j
    ensures Position(s, i) != Position(s, j)
  {
  }

  // ----------------------------------------------------------------- storing

  function SetBit(data: seq<byte>, pos: nat, b: nat): (data': seq<byte>)
    requires pos < 8 * |data| && b < 2
    ensures |data'| == |data|
  {
    assert Pow2(8) == 256;
    PutBitFits(data[pos / 8], pos % 8, b, 8);
    data[pos / 8 := PutBit(data[pos / 8], pos % 8, b)]
  }

  lemma SetBitAt(data: seq<byte>, pos: nat, b: nat, p: nat)
    requires pos < 8 * |data| && b < 2
    ensures BitAt(SetBit(data, pos, b), p) == if p == pos then Some(b) else BitAt(data, p)
  {
    if p / 8 == pos / 8 {
      BitOfPut(data[pos / 8], pos % 8, b, p % 8);
      ShrIsDivision(data[p / 8], p % 8);
      ShrIsDivision(SetBit(data, pos, b)[p / 8], p % 8);
    }
  }

  /** Store the `n` low bits of `v` in the window of `s`. */
  function StoreBits(s: Signal, data: seq<byte>, v: nat, n: nat): (data': seq<byte>)
    requires SignalFits(s, |data|) && n <= s.length
    ensures |data'| == |data|
  {
    if n == 0 then data
    else
      PositionInPayload(s, |data|, n - 1);
      SetBit(StoreBits(s, data, v, n - 1), Position(s, n - 1), Bit(v, n - 1))
  }

  function Store(s: Signal, data: seq<byte>, v: nat): (data': seq<byte>)
    requires SignalFits(s, |data|)
    ensures |data'| == |data|
  {
    StoreBits(s, data, v, s.length)
  }

  lemma {:induction false} StoredBit(s: Signal, data: seq<byte>, v: nat, n: nat, j: nat)
    requires SignalFits(s, |data|) && j < n <= s.length
    ensures BitAt(StoreBits(s, data, v, n), Position(s, j)) == Some(Bit(v, j))
    decreases n
  {
    PositionInPayload(s, |data|, n - 1);
    SetBitAt(StoreBits(s, data, v, n - 1), Position(s, n - 1), Bit(v, n - 1), Position(s, j));
    if j < n - 1 {
      PositionsDistinct(s, j, n - 1);
      StoredBit(s, data, v, n - 1, j);
    }
  }

  lemma {:induction false} UntouchedBit(s: Signal, data: seq<byte>, v: nat, n: nat, p: nat)
    requires SignalFits(s, |data|) && n <= s.length
    requires forall j | 0 <= j < s.length :: Position(s, j) != p
    ensures BitAt(StoreBits(s, data, v, n), p) == BitAt(data, p)
    decreases n
  {
    if n > 0 {
      PositionInPayload(s, |data|, n - 1);
      SetBitAt(StoreBits(s, data, v, n - 1), Position(s, n - 1), Bit(v, n - 1), p);
      UntouchedBit(s, data, v, n - 1, p);
    }
  }

  /** Storing a value in a window and reading the window returns the value. */
  lemma StoreThenRead(s: Signal, data: seq<byte>, v: u64)
    requires SignalFits(s, |data|) && v < Pow2(s.length)
    ensures RawOf(s, Store(s, data, v)) == Some(v)
  {
    var data' := Store(s, data, v);
    forall j | 0 <= j < s.length ensures Bit(RawOf(s, data').value, j) == Bit(v, j) {
      FieldBit(s, data', j);
      StoredBit(s, data, v, s.length, j);
    }
    SameBits(RawOf(s, data').value, v, s.length);
    LowOfSmall(RawOf(s, data').value, s.length);
    LowOfSmall(v, s.length);
  }

  /** The bit windows of two signals share no position. */
  ghost predicate Disjoint(s: Signal, t: Signal) {
    forall i, j | 0 <= i < s.length && 0 <= j < t.length :: Position(s, i) != Position(t, j)
  }

  /** Storing in one window does not change what is read from a disjoint one, whatever their byte orders. */
  lemma StoreLeavesDisjoint(s: Signal, t: Signal, data: seq<byte>, v: nat)
    requires SignalFits(s, |data|) && Disjoint(s, t)
    ensures RawOf(t, Store(s, data, v)) == RawOf(t, data)
  {
    if SignalFits(t, |data|) {
      var data' := Store(s, data, v);
      var x, y := RawOf(t, data').value, RawOf(t, data).value;
      forall j | 0 <= j < t.length ensures Bit(x, j) == Bit(y, j) {
        FieldBit(t, data', j);
        FieldBit(t, data, j);
        UntouchedBit(s, data, v, s.length, Position(t, j));
      }
      SameBits(x, y, t.length);
      LowOfSmall(x, t.length);
      LowOfSmall(y, t.length);
    }
  }

  lemma {:induction false} SwitchUnchanged(signals: seq<Signal>, s: Signal, data: seq<byte>, v: nat)
    requires SignalFits(s, |data|)
    requires forall t | t in signals && t.multiplex == Multiplexor :: Disjoint(s, t)
    ensures Switch(signals, Store(s, data, v)) == Switch(signals, data)
  {
    if signals != [] {
      if signals[0].multiplex == Multiplexor {
        StoreLeavesDisjoint(s, signals[0], data, v);
      }
      SwitchUnchanged(signals[1..], s, data, v);
    }
  }

  lemma {:induction false} EntriesUnchanged(signals: seq<Signal>, switch: Option<u64>, data: seq<byte>,
                                            data': seq<byte>)
    requires forall t | t in signals && Selected(t, switch) :: RawOf(t, data') == RawOf(t, data)
    ensures Entries(signals, switch, data') == Entries(signals, switch, data)
  {
    if signals != [] {
      EntriesUnchanged(signals[1..], switch, data, data');
    }
  }

  /** The entry of a signal whose window holds the two's complement pattern of `v`. */
  function SignedEntry(s: Signal, switch: Option<u64>, v: int): seq<DecodedSignal> {
    if !Selected(s, switch) then []
    else [DecodedSignal(s.name, v, Scaled(s, v), s.unit, Lookup(s.valueTable, v))]
  }

  lemma EntryStored(s: Signal, switch: Option<u64>, data: seq<byte>, v: int)
    requires SignalFits(s, |data|) && s.valueType == Signed && SignedRange(v, s.length)
    ensures Entry(s, switch, Store(s, data, ToField(v, s.length))) == SignedEntry(s, switch, v)
  {
    ToFieldInverse(v, s.length);
    StoreThenRead(s, data, ToField(v, s.length));
  }

  /**
   Storing a signed value and decoding the frame reports exactly that value for
   the signal and leaves every other entry of the frame as it was, provided the
   signal is not a switch and shares no bit with the switches and the signals
   that the frame's switch selects. Multiplexed signals that the switch does not
   select may overlap it, as alternatives of one message do.
   */
  lemma StoreThenDecode(before: seq<Signal>, s: Signal, after: seq<Signal>, data: seq<byte>, v: int)
    requires SignalFits(s, |data|) && s.valueType == Signed && s.multiplex != Multiplexor
    requires SignedRange(v, s.length)
    requires var switch := Switch(before + [s] + after, data);
             forall t | t in before + after && (t.multiplex == Multiplexor || Selected(t, switch)) :: Disjoint(s, t)
    ensures var signals, data' := before + [s] + after, Store(s, data, ToField(v, s.length));
            var switch := Switch(signals, data);
            && Switch(signals, data') == switch
            && Entries(signals, switch, data') ==
               Entries(before, switch, data) + SignedEntry(s, switch, v) + Entries(after, switch, data)
  {
    var signals, field := before + [s] + after, ToField(v, s.length);
    var data', switch := Store(s, data, field), Switch(signals, data);
    assert forall t | t in signals :: t in before + after || t == s;
    SwitchUnchanged(signals, s, data, field);
    forall t | t in before + after && Selected(t, switch) ensures RawOf(t, data') == RawOf(t, data) {
      StoreLeavesDisjoint(s, t, data, field);
    }
    EntriesUnchanged(before, switch, data, data');
    EntriesUnchanged(after, switch, data, data');
    EntryStored(s, switch, data, v);
    ThreeParts(before, s, after, switch, data');
  }

  lemma ThreeParts(before: seq<Signal>, s: Signal, after: seq<Signal>, switch: Option<u64>, data: seq<byte>)
    ensures Entries(before + [s] + after, switch, data) ==
            Entries(before, switch, data) + Entry(s, switch, data) + Entries(after, switch, data)
  {
    EntriesConcat(before + [s], after, switch, data);
    EntriesConcat(before, [s], switch, data);
  }
}
