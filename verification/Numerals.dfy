/** Numbers as text: digits in a radix, fixed-width and shortest numerals, and reading them back. */
module Numerals {
  import opened Common

  const U64_MAX: nat := 0xFFFF_FFFF_FFFF_FFFF
  const U32_MAX: nat := 0xFFFF_FFFF
  const U8_MAX: nat := 0xFF

  /** The value of a hexadecimal digit, in either case. */
  function HexNibble(c: char): (v: Option<nat>)
    ensures v.Some? ==> v.value < 16
  {
    if '0' <= c <= '9' then Some(c as nat - '0' as nat)
    else if 'a' <= c <= 'f' then Some(c as nat - 'a' as nat + 10)
    else if 'A' <= c <= 'F' then Some(c as nat - 'A' as nat + 10)
    else None
  }

  predicate IsDigit(c: char, radix: nat) {
    HexNibble(c).Some? && HexNibble(c).value < radix
  }

  predicate AllDigits(s: string, radix: nat) {
    forall i | 0 <= i < |s| :: IsDigit(s[i], radix)
  }

  function Value(s: string, radix: nat): nat
    requires AllDigits(s, radix)
  {
    if s == [] then 0 else Value(Init(s), radix) * radix + HexNibble(Last(s)).value
  }

  /** The library's unsigned parse: an optional plus sign, at least one digit, and no overflow. */
  function ParseUnsigned(s: string, radix: nat, max: nat): (r: Option<nat>)
    ensures r.Some? ==> r.value <= max
  {
    var digits := if s != [] && s[0] == '+' then s[1..] else s;
    if digits != [] && AllDigits(digits, radix) && Value(digits, radix) <= max then Some(Value(digits, radix)) else None
  }

  function DigitChar(v: nat, upper: bool): (c: char)
    requires v < 16
    ensures HexNibble(c) == Some(v) && c != '+' && (v < 10 ==> '0' <= c <= '9')
  {
    if v < 10 then '0' + v as char else if upper then 'A' + (v - 10) as char else 'a' + (v - 10) as char
  }

  function Pow(radix: nat, width: nat): nat {
    if width == 0 then 1 else radix * Pow(radix, width - 1)
  }

  /** Exactly `width` digits, with leading zeros. */
  function Fixed(v: nat, radix: nat, width: nat, upper: bool): (s: string)
    requires 2 <= radix <= 16
    ensures |s| == width && AllDigits(s, radix)
  {
    if width == 0 then [] else Fixed(v / radix, radix, width - 1, upper) + [DigitChar(v % radix, upper)]
  }

  /** No leading zeros, and one digit for zero. */
  function Decimal(n: nat): (text: string)
    ensures |text| > 0 && forall i | 0 <= i < |text| :: '0' <= text[i] <= '9'
  {
    if n < 10 then [('0' as int + n) as char] else Decimal(n / 10) + Decimal(n % 10)
  }

  lemma ValueAppend(s: string, c: char, radix: nat)
    requires AllDigits(s, radix) && IsDigit(c, radix)
    ensures AllDigits(s + [c], radix) && Value(s + [c], radix) == Value(s, radix) * radix + HexNibble(c).value
  {
    assert Init(s + [c]) == s;
  }

  lemma {:induction false} FixedValue(v: nat, radix: nat, width: nat, upper: bool)
    requires 2 <= radix <= 16 && v < Pow(radix, width)
    ensures Value(Fixed(v, radix, width, upper), radix) == v
  {
    if width > 0 {
      Quotient(v, radix, Pow(radix, width - 1));
      FixedValue(v / radix, radix, width - 1, upper);
      AppendDigit(Fixed(v / radix, radix, width - 1, upper), v, radix, upper);
    }
  }

  lemma AppendDigit(s: string, v: nat, radix: nat, upper: bool)
    requires 2 <= radix <= 16 && AllDigits(s, radix) && Value(s, radix) == v / radix
    ensures AllDigits(s + [DigitChar(v % radix, upper)], radix) && Value(s + [DigitChar(v % radix, upper)], radix) == v
  {
    hide Value, DigitChar;
    ValueAppend(s, DigitChar(v % radix, upper), radix);
    DivMod(v, radix);
  }

  lemma DivMod(v: nat, radix: nat)
    requires radix > 0
    ensures v / radix * radix + v % radix == v
  {
  }

  lemma MulMonotone(a: nat, b: nat, k: nat)
    requires a <= b
    ensures a * k <= b * k
  {
  }

  lemma Quotient(v: nat, radix: nat, rest: nat)
    requires radix > 0 && v < radix * rest
    ensures v / radix < rest
  {
    if v / radix >= rest {
      MulMonotone(rest, v / radix, radix);
    }
  }

  lemma {:induction false} DecimalValue(n: nat)
    ensures AllDigits(Decimal(n), 10) && Value(Decimal(n), 10) == n
  {
    if n < 10 {
      assert Init(Decimal(n)) == [];
    } else {
      DecimalValue(n / 10);
      ValueAppend(Decimal(n / 10), Decimal(n % 10)[0], 10);
    }
  }

  /** Reading back a numeral: digits never begin with a sign. */
  lemma ParseDigits(s: string, radix: nat, max: nat)
    requires s != [] && AllDigits(s, radix) && Value(s, radix) <= max
    ensures ParseUnsigned(s, radix, max) == Some(Value(s, radix))
  {
    assert IsDigit(s[0], radix);
  }

  lemma Widths()
    ensures Pow(16, 3) == 0x1000 && Pow(16, 8) == 0x1_0000_0000 && Pow(10, 6) == 1_000_000
  {
    assert Pow(16, 2) == 256;
    assert Pow(16, 4) == 0x1_0000;
    assert Pow(16, 6) == 0x100_0000;
    assert Pow(10, 2) == 100;
    assert Pow(10, 4) == 10_000;
  }
}
