/**
 DBC signal extraction and decoding. The bit walks of the source are proved
 against arithmetic on the payload read as one little- or big-endian integer.
 */
module Dbc {
  import opened Common
  import opened Bits

  datatype ByteOrder = Little | Big

  datatype ValueType = Unsigned | Signed

  datatype Multiplex = Plain | Multiplexor | Multiplexed(selector: nat)

  // ------------------------------------------------- the payload as an integer

  function LittleEndian(data: seq<byte>): nat {
    if data == [] then 0 else data[0] as int + 256 * LittleEndian(data[1..])
  }

  function BigEndian(data: seq<byte>): nat {
    if data == [] then 0 else data[|data| - 1] as int + 256 * BigEndian(data[..|data| - 1])
  }

  /** Position `pos`, counted LSB-first within each byte, recounted MSB-first. Its own inverse. */
  function Mirror(pos: nat): nat {
    8 * (pos / 8) + 7 - pos % 8
  }

  /** The bit window of a signal lies inside a payload of `n` bytes. */
  predicate Fits(n: nat, start: nat, length: nat, order: ByteOrder) {
    && 1 <= length <= 64
    && (match order
        case Little => start
        case Big => Mirror(start)) + length <= 8 * n
  }

  /** The value in a bit window: a slice of the payload read as one integer. */
  function Field(data: seq<byte>, start: nat, length: nat, order: ByteOrder): nat
    requires Fits(|data|, start, length, order)
  {
    match order
    case Little => LittleEndian(data) / Pow2(start) % Pow2(length)
    case Big => BigEndian(data) / Pow2(8 * |data| - Mirror(start) - length) % Pow2(length)
  }

  /** A word that fills the payload: the low byte comes first, or the high byte, whose bit 7 is the word's top. */
  lemma WholeWords(data: seq<byte>)
    requires |data| == 2
    ensures Field(data, 0, 16, Little) == data[0] as int + 256 * data[1] as int
    ensures Field(data, 7, 16, Big) == 256 * data[0] as int + data[1] as int
  {
    assert Pow2(8) == 256;
    assert Pow2(12) == 0x1000;
    assert Pow2(16) == 0x1_0000;
    assert data[1..][1..] == [] && data[..1][..0] == [];
    assert LittleEndian(data[1..]) == data[1] as int && BigEndian(data[..1]) == data[0] as int;
  }

  /** The bit at absolute position `pos`, LSB-first within each byte. */
  function BitAt(data: seq<byte>, pos: nat): Option<nat> {
    if pos / 8 < |data| then Some(data[pos / 8] / Pow2(pos % 8) % 2) else None
  }

  lemma {:induction false} LittleBit(data: seq<byte>, pos: nat)
    requires pos < 8 * |data|
    ensures BitAt(data, pos) == Some(Bit(LittleEndian(data), pos))
    decreases |data|
  {
    assert Pow2(8) == 256;
    BitOfJoin(data[0], LittleEndian(data[1..]), 8, pos);
    if pos < 8 {
      ShrIsDivision(data[0], pos);
    } else {
      LittleBit(data[1..], pos - 8);
    }
  }

  lemma {:induction false} BigBit(data: seq<byte>, pos: nat)
    requires pos < 8 * |data|
    ensures BitAt(data, pos) == Some(Bit(BigEndian(data), 8 * |data| - 1 - Mirror(pos)))
    decreases |data|
  {
    var n := |data| - 1;
    assert Pow2(8) == 256;
    BitOfJoin(data[n], BigEndian(data[..n]), 8, 8 * |data| - 1 - Mirror(pos));
    if pos / 8 == n {
      ShrIsDivision(data[n], pos % 8);
    } else {
      BigBit(data[..n], pos);
    }
  }

  /** One step of the big-endian walk moves to the next less significant bit. */
  function NextPosition(pos: nat): nat {
    if pos % 8 == 0 then pos + 15 else pos - 1
  }

  lemma WalkAdvancesByOne(pos: nat)
    ensures Mirror(NextPosition(pos)) == Mirror(pos) + 1
  {
  }

  lemma FieldIsLow(data: seq<byte>, start: nat, length: nat, order: ByteOrder)
    requires Fits(|data|, start, length, order)
    ensures Field(data, start, length, order) ==
            match order
            case Little => Low(Shr(LittleEndian(data), start), length)
            case Big => Low(Shr(BigEndian(data), 8 * |data| - Mirror(start) - length), length)
    ensures Field(data, start, length, order) < Pow2(length)
  {
    var (x, k) := match order
      case Little => (LittleEndian(data), start)
      case Big => (BigEndian(data), 8 * |data| - Mirror(start) - length);
    ShrIsDivision(x, k);
    LowIsRemainder(Shr(x, k), length);
  }

  lemma LittleFieldBit(data: seq<byte>, start: nat, length: nat, j: nat)
    requires Fits(|data|, start, length, Little) && j < length
    ensures BitAt(data, start + j) == Some(Bit(Field(data, start, length, Little), j))
  {
    FieldIsLow(data, start, length, Little);
    var x := LittleEndian(data);
    BitOfLow(Shr(x, start), length, j);
    ShrShr(x, start, j);
    LittleBit(data, start + j);
  }

  lemma BigFieldBit(data: seq<byte>, start: nat, length: nat, j: nat)
    requires Fits(|data|, start, length, Big) && j < length
    ensures BitAt(data, Mirror(Mirror(start) + length - 1 - j)) == Some(Bit(Field(data, start, length, Big), j))
  {
    FieldIsLow(data, start, length, Big);
    var x, k := BigEndian(data), 8 * |data| - Mirror(start) - length;
    BitOfLow(Shr(x, k), length, j);
    ShrShr(x, k, j);
    BigBitMirrored(data, Mirror(start) + length - 1 - j);
  }

  lemma BigBitMirrored(data: seq<byte>, m: nat)
    requires m < 8 * |data|
    ensures BitAt(data, Mirror(m)) == Some(Bit(BigEndian(data), 8 * |data| - 1 - m))
  {
    assert Mirror(m) < 8 * |data| && Mirror(Mirror(m)) == m;
    BigBit(data, Mirror(m));
  }

  const TWO_64 := 0x1_0000_0000_0000_0000

  const TWO_63 := 0x8000_0000_0000_0000

  type u64 = x: int | 0 <= x < TWO_64

  lemma MaskFitsU64(x: nat, n: nat)
    requires n <= 64
    ensures Low(x, n) < TWO_64
  {
    LowIsRemainder(x, n);
    Pow2Monotone(n, 64);
    Pow2Of64();
  }

  lemma Pow2Of64()
    ensures Pow2(64) == TWO_64 && Pow2(63) == TWO_63
  {
    assert Pow2(8) == 256;
    Pow2Add(8, 8);
    Pow2Add(16, 16);
    Pow2Add(32, 32);
    assert Pow2(64) == 2 * Pow2(63);
  }

  /** Intel order: the walk goes up from the least significant bit. No step overflows the `u64` accumulator. */
  method ExtractLittle(data: seq<byte>, start: nat, length: nat) returns (r: Option<u64>)
    requires 1 <= length <= 64
    ensures r == if Fits(|data|, start, length, Little) then Some(Field(data, start, length, Little)) else None
  {
    var raw: u64 := 0;
    ghost var x := Shr(LittleEndian(data), start);
    for offset := 0 to length
      invariant offset > 0 ==> start + offset <= 8 * |data|
      invariant raw == Low(x, offset)
    {
      var bit := BitAt(data, start + offset);
      if bit.None? {
        return None;
      }
      LittleBit(data, start + offset);
      ShrShr(LittleEndian(data), start, offset);
      LowGrows(x, offset);
      MaskFitsU64(x, offset + 1);
      raw := raw + bit.value * Pow2(offset);
    }
    FieldIsLow(data, start, length, Little);
    return Some(raw);
  }

  /** Motorola order: the walk goes down from the most significant bit, jumping to the next byte's top bit. */
  method ExtractBig(data: seq<byte>, start: nat, length: nat) returns (r: Option<u64>)
    requires 1 <= length <= 64
    ensures r == if Fits(|data|, start, length, Big) then Some(Field(data, start, length, Big)) else None
  {
    var raw: u64 := 0;
    var pos := start;
    ghost var m, n := Mirror(start), 8 * |data|;
    for i := 0 to length
      invariant Mirror(pos) == m + i
      invariant i > 0 ==> m + i <= n
      invariant raw == if i == 0 then 0 else Low(Shr(BigEndian(data), n - m - i), i)
    {
      var bit := BitAt(data, pos);
      if bit.None? {
        return None;
      }
      BigBit(data, pos);
      ShrShr(BigEndian(data), n - m - i - 1, 1);
      MaskFitsU64(Shr(BigEndian(data), n - m - i - 1), i + 1);
      raw := raw * 2 + bit.value;
      WalkAdvancesByOne(pos);
      pos := if pos % 8 == 0 then pos + 15 else pos - 1;
    }
    FieldIsLow(data, start, length, Big);
    return Some(raw);
  }

  /** The raw unsigned field of a signal, or nothing when it runs past the payload. */
  method ExtractRaw(data: seq<byte>, start: nat, length: nat, order: ByteOrder) returns (r: Option<u64>)
    ensures r == if Fits(|data|, start, length, order) then Some(Field(data, start, length, order)) else None
  {
    if length == 0 || length > 64 {
      return None;
    }
    match order {
      case Little => r := ExtractLittle(data, start, length);
      case Big => r := ExtractBig(data, start, length);
    }
  }

  // ------------------------------------------------------------ signed values

  /** The `i64` with the same bit pattern as a `u64`. */
  function AsI64(x: u64): int {
    if x < TWO_63 then x else x - TWO_64
  }

  /** `i64` arithmetic that wraps around. */
  function WrapI64(x: int): int {
    AsI64(x % TWO_64)
  }

  lemma ShiftedOneFits(length: nat)
    requires length < 64
    ensures Pow2(length) <= TWO_63 && (length < 63 ==> 2 * Pow2(length) <= TWO_63)
  {
    Pow2Of64();
    Pow2Monotone(length, 63);
    if length < 63 {
      Pow2Monotone(length + 1, 63);
    }
  }

  /** Interpret `raw` as a `length`-bit value, sign-extending signed values; `1 << length` and the subtraction wrap. */
  function SignedValue(raw: u64, length: nat, valueType: ValueType): int
    requires 1 <= length <= 64
  {
    if valueType == Signed && length < 64 && raw / Pow2(length - 1) % 2 == 1 then
      ShiftedOneFits(length);
      WrapI64(AsI64(raw) - AsI64(Pow2(length)))
    else AsI64(raw)
  }

  predicate SignedRange(v: int, length: nat)
    requires length > 0
  {
    -(Pow2(length - 1) as int) <= v < Pow2(length - 1)
  }

  /**
   Signed decoding is two's complement for every width from 1 to 64, although at
   63 bits `1 << length` is negative and the subtraction overflows, and at 64
   bits there is no subtraction at all.
   */
  lemma SignedIsTwosComplement(raw: u64, length: nat)
    requires 1 <= length <= 64 && raw < Pow2(length)
    ensures var r := SignedValue(raw, length, Signed);
            && SignedRange(r, length)
            && r == if raw < Pow2(length - 1) then raw else raw - Pow2(length)
  {
    var half := Pow2(length - 1);
    Pow2Of64();
    if raw < half {
      QuotientIs(raw, half, 0, raw);
    } else {
      QuotientIs(raw, half, 1, raw - half);
    }
    if length < 64 {
      ShiftedOneFits(length);
      ShiftedOneFits(length - 1);
    }
  }

  /** The bit pattern of `v` in two's complement is the one field value that decodes to `v`. */
  function ToField(v: int, length: nat): nat
    requires 1 <= length && SignedRange(v, length)
  {
    if v < 0 then v + Pow2(length) else v
  }

  lemma ToFieldInverse(v: int, length: nat)
    requires 1 <= length <= 64 && SignedRange(v, length)
    ensures ToField(v, length) < Pow2(length) && ToField(v, length) < TWO_64
    ensures SignedValue(ToField(v, length), length, Signed) == v
  {
    Pow2Monotone(length, 64);
    Pow2Of64();
    SignedIsTwosComplement(ToField(v, length), length);
  }

  /** The reported raw integer of an unsigned signal is its field value exactly when that value fits an `i64`. */
  lemma UnsignedIsExactBelow63Bits(raw: u64, length: nat)
    requires 1 <= length <= 64
    ensures SignedValue(raw, length, Unsigned) == raw <==> raw < TWO_63
  {
  }
}
