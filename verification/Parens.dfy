/**
 Balanced parenthesis groups: a context-free grammar, and the counting
 characterisation that a single depth counter decides it.
 */
module Parens {
  import opened Common

  const OPEN: byte := 40
  const CLOSE: byte := 41

  predicate IsParen(b: byte) {
    b == OPEN || b == CLOSE
  }

  /** group ::= "(" items ")" */
  ghost predicate Group(s: seq<byte>)
    decreases |s|, 0
  {
    |s| >= 2 && s[0] == OPEN && s[|s| - 1] == CLOSE && Items(s[1..|s| - 1])
  }

  /** items ::= empty | (any byte but a parenthesis) items | group items */
  ghost predicate Items(s: seq<byte>)
    decreases |s|, 2
  {
    || s == []
    || (!IsParen(s[0]) && Items(s[1..]))
    || exists k :: 0 < k <= |s| && GroupThenItems(s, k)
  }

  ghost predicate GroupThenItems(s: seq<byte>, k: nat)
    requires 0 < k <= |s|
    decreases |s|, 1
  {
    Group(s[..k]) && Items(s[k..])
  }

  /** Opening minus closing parentheses. */
  function Depth(s: seq<byte>): int {
    if s == [] then 0
    else Depth(s[..|s| - 1]) + Weight(s[|s| - 1])
  }

  function Weight(b: byte): int {
    if b == OPEN then 1 else if b == CLOSE then -1 else 0
  }

  lemma {:induction false} DepthConcat(a: seq<byte>, b: seq<byte>)
    ensures Depth(a + b) == Depth(a) + Depth(b)
  {
    if b == [] {
      assert a + b == a;
    } else {
      var n := |b| - 1;
      assert (a + b)[..|a + b| - 1] == a + b[..n];
      DepthConcat(a, b[..n]);
    }
  }

  /** No prefix closes more than it opens, and in the end everything is closed. */
  ghost predicate Balanced(s: seq<byte>) {
    Depth(s) == 0 && forall k | 0 <= k <= |s| :: Depth(s[..k]) >= 0
  }

  /** An opening parenthesis that is closed by the last byte and not before. */
  ghost predicate ClosedAtEnd(s: seq<byte>) {
    s != [] && s[0] == OPEN && Depth(s) == 0 && forall k | 0 < k < |s| :: Depth(s[..k]) > 0
  }

  lemma DepthSplit(s: seq<byte>, i: nat, k: nat)
    requires i <= k <= |s|
    ensures Depth(s[..k]) == Depth(s[..i]) + Depth(s[i..k])
    ensures s[i..][..k - i] == s[i..k]
  {
    assert s[..k] == s[..i] + s[i..k];
    DepthConcat(s[..i], s[i..k]);
  }

  lemma {:induction false} GroupIsClosed(s: seq<byte>)
    requires Group(s)
    ensures ClosedAtEnd(s)
    decreases |s|, 0
  {
    var n := |s| - 1;
    var inner := s[1..n];
    ItemsAreBalanced(inner);
    assert s[..1] == [OPEN] && s[n..] == [CLOSE];
    forall k | 0 < k <= n ensures Depth(s[..k]) == 1 + Depth(inner[..k - 1]) {
      DepthSplit(s, 1, k);
      assert inner[..k - 1] == s[1..k];
    }
    assert inner[..n - 1] == inner;
    DepthSplit(s, n, n + 1);
    assert s[n..n + 1] == [CLOSE] && s[..n + 1] == s;
  }

  lemma {:induction false} ItemsAreBalanced(s: seq<byte>)
    requires Items(s)
    ensures Balanced(s)
    decreases |s|, 1
  {
    if s == [] {
      assert Depth([]) == 0;
    } else if !IsParen(s[0]) && Items(s[1..]) {
      ItemsAreBalanced(s[1..]);
      assert s[..1] == [s[0]];
      BalancedAfter(s, 1);
    } else {
      var k :| 0 < k <= |s| && GroupThenItems(s, k);
      GroupIsClosed(s[..k]);
      ItemsAreBalanced(s[k..]);
      forall i | 0 <= i <= k ensures Depth(s[..i]) >= 0 {
        assert s[..k][..i] == s[..i];
        assert Depth([]) == 0;
      }
      BalancedAfter(s, k);
    }
  }

  lemma BalancedAfter(s: seq<byte>, k: nat)
    requires k <= |s| && Depth(s[..k]) == 0 && Balanced(s[k..])
    requires forall i | 0 <= i < k :: Depth(s[..i]) >= 0
    ensures Balanced(s)
  {
    forall i | k <= i <= |s| ensures Depth(s[..i]) == Depth(s[k..][..i - k]) {
      DepthSplit(s, k, i);
    }
    assert s[..|s|] == s && s[k..][..|s| - k] == s[k..];
    assert Depth(s) >= 0;
  }

  /** The shortest non-empty prefix whose depth returns to zero. */
  lemma {:induction false} FirstReturn(s: seq<byte>, from: nat) returns (k: nat)
    requires 0 < from <= |s| && Depth(s) == 0
    requires forall i | 0 < i < from :: Depth(s[..i]) > 0
    requires forall i | 0 <= i <= |s| :: Depth(s[..i]) >= 0
    ensures 0 < k <= |s| && Depth(s[..k]) == 0 && forall i | 0 < i < k :: Depth(s[..i]) > 0
    decreases |s| - from
  {
    if Depth(s[..from]) == 0 {
      k := from;
    } else {
      assert s[..|s|] == s;
      k := FirstReturn(s, from + 1);
    }
  }

  lemma {:induction false} BalancedIsItems(s: seq<byte>)
    requires Balanced(s)
    ensures Items(s)
    decreases |s|, 1
  {
    if s != [] {
      assert s[..1] == [s[0]];
      if IsParen(s[0]) {
        var k := FirstReturn(s, 1);
        assert s[..k][0] == OPEN;
        assert forall i | 0 < i < k :: s[..k][..i] == s[..i];
        ClosedIsGroup(s[..k]);
        BalancedRest(s, k);
        BalancedIsItems(s[k..]);
        assert GroupThenItems(s, k);
      } else {
        BalancedRest(s, 1);
        BalancedIsItems(s[1..]);
      }
    }
  }

  lemma BalancedRest(s: seq<byte>, k: nat)
    requires Balanced(s) && k <= |s| && Depth(s[..k]) == 0
    ensures Balanced(s[k..])
  {
    forall i | 0 <= i <= |s| - k ensures Depth(s[k..][..i]) == Depth(s[..k + i]) {
      DepthSplit(s, k, k + i);
    }
    assert s[k..][..|s| - k] == s[k..] && s[..|s|] == s;
  }

  lemma {:induction false} ClosedIsGroup(s: seq<byte>)
    requires ClosedAtEnd(s)
    ensures Group(s)
    decreases |s|, 0
  {
    var n := |s| - 1;
    assert s[..1] == [s[0]];
    assert Depth(s) == Depth(s[..n]) + Weight(s[n]);
    var inner := s[1..n];
    forall k | 0 <= k <= |inner| ensures Depth(inner[..k]) == Depth(s[..k + 1]) - 1 {
      DepthSplit(s, 1, k + 1);
      assert inner[..k] == s[1..k + 1];
    }
    assert inner[..|inner|] == inner;
    BalancedIsItems(inner);
  }

  /** A byte string is a parenthesis group exactly when a depth counter first returns to zero at its last byte. */
  lemma GroupIffClosedAtEnd(s: seq<byte>)
    ensures Group(s) <==> ClosedAtEnd(s)
  {
    if Group(s) {
      GroupIsClosed(s);
    }
    if ClosedAtEnd(s) {
      ClosedIsGroup(s);
    }
  }
}
