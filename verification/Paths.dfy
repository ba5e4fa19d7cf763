/** Places in a syntax tree, their parents, and the order in which they come in the text. */
module Paths {
  import opened Common
  import opened Ast

  /** A place in the tree: the child to take at each level. Two places are one node exactly when the paths are equal. */
  type Path = seq<nat>

  predicate IsNode(root: Node, p: Path) {
    p == [] || (p[0] < |root.children| && IsNode(root.children[p[0]], p[1..]))
  }

  function At(root: Node, p: Path): Node
    requires IsNode(root, p)
  {
    if p == [] then root else At(root.children[p[0]], p[1..])
  }

  lemma {:induction false} AtSplit(root: Node, p: Path, q: Path)
    requires IsNode(root, p + q)
    ensures IsNode(root, p) && IsNode(At(root, p), q) && At(root, p + q) == At(At(root, p), q)
    decreases |p|
  {
    if p == [] {
      assert p + q == q;
    } else {
      assert (p + q)[1..] == p[1..] + q;
      AtSplit(root.children[p[0]], p[1..], q);
    }
  }

  /** A node is one of its parent's children. */
  lemma ParentOf(root: Node, p: Path)
    requires IsNode(root, p) && p != []
    ensures IsNode(root, Init(p)) && Last(p) < |At(root, Init(p)).children|
    ensures At(root, p) == At(root, Init(p)).children[Last(p)]
  {
    assert Init(p) + [Last(p)] == p;
    AtSplit(root, Init(p), [Last(p)]);
  }

  /** Only whole nodes have children: an anonymous token is a leaf. */
  predicate TokensAreLeaves(n: Node) {
    (n.named || n.children == []) && forall c | c in n.children :: TokensAreLeaves(c)
  }

  lemma {:induction false} TokensAreLeavesBelow(n: Node, p: Path)
    requires TokensAreLeaves(n) && IsNode(n, p)
    ensures TokensAreLeaves(At(n, p))
    decreases |p|
  {
    if p != [] {
      assert n.children[p[0]] in n.children;
      TokensAreLeavesBelow(n.children[p[0]], p[1..]);
    }
  }

  // ------------------------------------------------------------ textual order

  /** The paths part ways at level `k`, where `p` takes the earlier child. */
  predicate ForksAt(p: Path, q: Path, k: nat) {
    k < |p| && k < |q| && p[..k] == q[..k] && p[k] < q[k]
  }

  /** In the text, `p` ends before `q` begins: neither contains the other. */
  ghost predicate Precedes(p: Path, q: Path) {
    exists k: nat :: ForksAt(p, q, k)
  }

  /** What is at or below an earlier child precedes what is at or below a later one. */
  lemma SiblingsPrecede(p: Path, q: Path, a: Path, b: Path)
    requires p != [] && q != [] && Init(p) == Init(q) && Last(p) < Last(q) && p <= a && q <= b
    ensures Precedes(a, b)
  {
    var k: nat := |p| - 1;
    assert a[..k] == Init(p) && b[..k] == Init(q);
    assert ForksAt(a, b, k);
  }

  /** Between two children of one parent there are only those two's siblings between them and their descendants. */
  lemma BetweenSiblings(p: Path, r: Path, q: Path)
    requires p != [] && q != [] && Init(p) == Init(q) && Precedes(p, r) && Precedes(r, q)
    ensures var b := Init(p);
            |b| < |r| && r[..|b|] == b && Last(p) < r[|b|] < Last(q)
  {
    var i: nat :| ForksAt(p, r, i);
    var k: nat :| ForksAt(r, q, k);
    var n := |p| - 1;
    assert |q| == |p|;
    assert forall j | 0 <= j < n :: p[j] == Init(p)[j] && q[j] == Init(q)[j];
    assert forall j | 0 <= j < i :: p[j] == p[..i][j] && r[j] == r[..i][j];
    assert forall j | 0 <= j < k :: r[j] == r[..k][j] && q[j] == q[..k][j];
    assert i == n && k == n;
  }
}
