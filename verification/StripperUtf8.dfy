/**
 Stripping keeps text well-formed: on valid UTF-8 (the byte sequences of section
 4 of RFC 3629) the output is valid UTF-8, so the source's lossy conversion back
 to a string is the identity.
 */
module StripperUtf8 {
  import opened Common
  import opened Stripper

  predicate Continuation(b: byte) {
    0x80 <= b <= 0xBF
  }

  /** Length of the character encoded at the start of `s`, or 0 if none is. */
  function CharLength(s: seq<byte>): (k: nat)
    ensures k <= |s| && k <= 4
  {
    if |s| >= 1 && s[0] <= 0x7F then 1
    else if |s| >= 2 && 0xC2 <= s[0] <= 0xDF && Continuation(s[1]) then 2
    else if |s| >= 3 && ThreeByteLead(s[0], s[1]) && Continuation(s[2]) then 3
    else if |s| >= 4 && FourByteLead(s[0], s[1]) && Continuation(s[2]) && Continuation(s[3]) then 4
    else 0
  }

  predicate ThreeByteLead(a: byte, b: byte) {
    || (a == 0xE0 && 0xA0 <= b <= 0xBF)
    || (0xE1 <= a <= 0xEC && Continuation(b))
    || (a == 0xED && 0x80 <= b <= 0x9F)
    || (0xEE <= a <= 0xEF && Continuation(b))
  }

  predicate FourByteLead(a: byte, b: byte) {
    || (a == 0xF0 && 0x90 <= b <= 0xBF)
    || (0xF1 <= a <= 0xF3 && Continuation(b))
    || (a == 0xF4 && 0x80 <= b <= 0x8F)
  }

  predicate ValidUtf8(s: seq<byte>)
    decreases |s|
  {
    s == [] || (CharLength(s) > 0 && ValidUtf8(s[CharLength(s)..]))
  }

  lemma {:induction false} BlanksThen(n: nat, s: seq<byte>)
    requires ValidUtf8(s)
    ensures ValidUtf8(Blanks(n) + s)
  {
    if n == 0 {
      assert Blanks(0) + s == s;
    } else {
      BlanksThen(n - 1, s);
      assert (Blanks(n) + s)[1..] == Blanks(n - 1) + s;
    }
  }

  /** A whole character in front of valid text is valid text. */
  lemma CharThen(c: seq<byte>, s: seq<byte>)
    requires c != [] && CharLength(c) == |c| && ValidUtf8(s)
    ensures ValidUtf8(c + s)
  {
    assert CharLength(c + s) == |c|;
    assert (c + s)[|c|..] == s;
  }

  /** `k` bytes copied as code, or blanked in any other mode. */
  function Kept(mode: Mode, s: seq<byte>, k: nat): seq<byte>
    requires k <= |s|
  {
    if mode == Code then s[..k] else Blanks(k)
  }

  /** Bytes of a multi-byte character never change the lexer's mind half way: all are kept, or all are blanked. */
  lemma {:induction false} NonAsciiRun(mode: Mode, s: seq<byte>, k: nat) returns (after: Mode)
    requires Reachable(mode, s) && 0 < k <= |s| && forall i | 0 <= i < k :: s[i] >= 0x80
    ensures Reachable(after, s[k..])
    ensures Lex(mode, s) == Kept(mode, s, k) + Lex(after, s[k..])
    decreases k
  {
    after := NonAsciiStep(mode, s);
    if k > 1 {
      var next := after;
      after := NonAsciiRun(next, s[1..], k - 1);
      assert s[1..][k - 1..] == s[k..];
      assert Kept(mode, s, 1) + Kept(next, s[1..], k - 1) == Kept(mode, s, k);
      Reassociate(Kept(mode, s, 1), Kept(next, s[1..], k - 1), Lex(after, s[k..]));
    }
  }

  lemma NonAsciiStep(mode: Mode, s: seq<byte>) returns (after: Mode)
    requires Reachable(mode, s) && s != [] && s[0] >= 0x80
    ensures Reachable(after, s[1..]) && (after == Code <==> mode == Code)
    ensures Lex(mode, s) == Kept(mode, s, 1) + Lex(after, s[1..])
  {
    after := Step(mode, s[0], Head(s[1..])).0;
    StepReachable(mode, s);
  }

  lemma {:induction false} LexKeepsUtf8(mode: Mode, s: seq<byte>)
    requires Reachable(mode, s) && ValidUtf8(s)
    ensures ValidUtf8(Lex(mode, s))
    decreases |s|
  {
    if s != [] {
      var k := CharLength(s);
      if k == 1 {
        var (next, b) := Step(mode, s[0], Head(s[1..]));
        StepReachable(mode, s);
        LexKeepsUtf8(next, s[1..]);
        CharThen([b], Lex(next, s[1..]));
      } else {
        var after := NonAsciiRun(mode, s, k);
        LexKeepsUtf8(after, s[k..]);
        if mode == Code {
          CharThen(s[..k], Lex(after, s[k..]));
        } else {
          BlanksThen(k, Lex(after, s[k..]));
        }
      }
    }
  }

  /** Stripping valid UTF-8 yields valid UTF-8. */
  lemma StrippedIsValidUtf8(source: seq<byte>)
    requires ValidUtf8(source)
    ensures ValidUtf8(Stripped(source))
  {
    LexKeepsUtf8(Code, source);
  }
}
