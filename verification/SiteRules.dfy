/**
 The rule that reports the second of two sites binding one variable in one
 block: how sites are grouped, ordered and compared with their neighbours, and
 why comparing neighbours reports what comparing every two sites would.
 */
module SiteRules {
  import opened Common
  import opened Ast
  import opened Paths
  import opened KillPass
  import opened StableSort

  // ------------------------------------------------------------- statements

  /** The path of the statement: the nearest ancestor, or the node itself, that is directly inside a block. */
  function EnclosingStatement(root: Node, p: Path): (r: Option<Path>)
    requires IsNode(root, p)
    ensures r.Some? ==>
              && r.value != [] && r.value <= p && IsNode(root, r.value) && At(root, r.value).named
              && IsNode(root, Init(r.value)) && At(root, Init(r.value)).kind == CompoundStatement
    decreases |p|
  {
    if p == [] then None
    else
      ParentOf(root, p);
      if At(root, Init(p)).kind != CompoundStatement then EnclosingStatement(root, Init(p))
      else if At(root, p).named then Some(p) else None
  }

  /** `s` stands directly inside a block. */
  predicate InBlock(root: Node, s: Path) {
    s != [] && IsNode(root, s) && IsNode(root, Init(s)) && At(root, Init(s)).kind == CompoundStatement
  }

  /** On the way down to `p`, `s` is the last to stand directly inside a block. */
  ghost predicate Nearest(root: Node, p: Path, s: Path) {
    s <= p && InBlock(root, s) && forall k: nat | |s| < k <= |p| :: !InBlock(root, p[..k])
  }

  /** A node's statement is the nearest of its ancestors and itself directly inside a block, if that one is named. */
  lemma {:induction false} EnclosingIsNearest(root: Node, p: Path, s: Path)
    requires IsNode(root, p)
    ensures EnclosingStatement(root, p) == Some(s) <==> Nearest(root, p, s) && At(root, s).named
    decreases |p|
  {
    assert p[..|p|] == p;
    if p != [] {
      ParentOf(root, p);
      if InBlock(root, p) {
        assert Nearest(root, p, p);
        assert Nearest(root, p, s) ==> |s| == |p|;
        assert s <= p && |s| == |p| ==> s == p;
      } else {
        EnclosingIsNearest(root, Init(p), s);
        NearestAbove(root, p, s);
      }
    }
  }

  lemma NearestAbove(root: Node, p: Path, s: Path)
    requires p != [] && !InBlock(root, p)
    ensures Nearest(root, p, s) <==> Nearest(root, Init(p), s)
  {
    hide InBlock;
    assert p[..|p|] == p;
    assert forall k: nat | k < |p| :: Init(p)[..k] == p[..k];
    assert s <= Init(p) ==> s <= p;
    assert s <= p && |s| < |p| ==> s <= Init(p);
    assert s <= p && |s| == |p| ==> s == p;
  }

  /** Where a statement stands among its block's named children. */
  function NamedIndex(root: Node, s: Path): nat
    requires s != [] && IsNode(root, s)
  {
    ParentOf(root, s);
    |NamedChildren(At(root, Init(s)).children[..Last(s)])|
  }

  /** Climb from the node until the parent is a block: the block, and the statement's index among its named children. */
  method FindEnclosingStatement(root: Node, p: Path) returns (r: Option<(Path, nat)>)
    requires IsNode(root, p)
    ensures match EnclosingStatement(root, p)
            case None => r == None
            case Some(s) => r == Some((Init(s), NamedIndex(root, s)))
  {
    var current := p;
    while current != []
      invariant IsNode(root, current) && EnclosingStatement(root, current) == EnclosingStatement(root, p)
    {
      ParentOf(root, current);
      var parent := At(root, Init(current));
      if parent.kind == CompoundStatement {
        return if At(root, current).named then Some((Init(current), NamedIndex(root, current))) else None;
      }
      current := Init(current);
    }
    return None;
  }

  /** The block's named children strictly between two indices; none when the indices are adjacent, equal or reversed. */
  function StatementsBetween(block: Node, first: nat, second: nat): seq<Node> {
    var named := NamedChildren(block.children);
    if second <= first + 1 || first + 1 > |named| then []
    else named[first + 1..if second <= |named| then second else |named|]
  }

  lemma {:induction false} NamedChildrenConcat(a: seq<Node>, b: seq<Node>)
    ensures NamedChildren(a + b) == NamedChildren(a) + NamedChildren(b)
  {
    if a == [] {
      assert a + b == b;
    } else {
      assert (a + b)[1..] == a[1..] + b;
      NamedChildrenConcat(a[1..], b);
      Reassociate(if a[0].named then [a[0]] else [], NamedChildren(a[1..]), NamedChildren(b));
    }
  }

  /** The statements between two statements of one block, by their places. */
  function Between(root: Node, p: Path, q: Path): seq<Node>
    requires p != [] && q != [] && IsNode(root, p) && IsNode(root, q) && Init(p) == Init(q)
  {
    ParentOf(root, p);
    ParentOf(root, q);
    if Last(p) < Last(q) then NamedChildren(At(root, Init(p)).children[Last(p) + 1..Last(q)]) else []
  }

  /** They are the named children of the block that stand strictly between the two. */
  lemma BetweenIff(root: Node, p: Path, q: Path, c: Node)
    requires p != [] && q != [] && IsNode(root, p) && IsNode(root, q) && Init(p) == Init(q) && IsNode(root, Init(p))
    ensures c in Between(root, p, q)
            <==> var children := At(root, Init(p)).children;
                 c.named && exists i: nat :: Last(p) < i < Last(q) && i < |children| && children[i] == c
  {
    ParentOf(root, p);
    ParentOf(root, q);
    if Last(p) < Last(q) {
      var between := At(root, Init(p)).children[Last(p) + 1..Last(q)];
      NamedChildrenIff(between, c);
      if i: nat :| Last(p) < i < Last(q) && At(root, Init(p)).children[i] == c {
        assert between[i - Last(p) - 1] == c;
      }
      if c in between {
        var k: nat :| k < |between| && between[k] == c;
        assert At(root, Init(p)).children[Last(p) + 1 + k] == c;
      }
    }
  }

  /** Counting named children loses nothing: between two statements' indices are the statements between their places. */
  lemma BetweenByPlace(root: Node, p: Path, q: Path)
    requires p != [] && q != [] && IsNode(root, p) && IsNode(root, q) && Init(p) == Init(q) && IsNode(root, Init(p))
    requires At(root, p).named
    ensures StatementsBetween(At(root, Init(p)), NamedIndex(root, p), NamedIndex(root, q)) == Between(root, p, q)
  {
    ParentOf(root, p);
    ParentOf(root, q);
    BetweenChildren(At(root, Init(p)).children, Last(p), Last(q));
  }

  lemma NamedCut(cs: seq<Node>, k: nat)
    requires k <= |cs|
    ensures NamedChildren(cs) == NamedChildren(cs[..k]) + NamedChildren(cs[k..])
  {
    hide NamedChildren;
    NamedChildrenConcat(cs[..k], cs[k..]);
    assert cs[..k] + cs[k..] == cs;
  }

  lemma OneNamed(n: Node)
    requires n.named
    ensures NamedChildren([n]) == [n]
  {
    assert [n][1..] == [];
  }

  lemma BetweenChildren(cs: seq<Node>, m: nat, n: nat)
    requires m < |cs| && n < |cs| && cs[m].named
    ensures var (all, first, second) := (NamedChildren(cs), |NamedChildren(cs[..m])|, |NamedChildren(cs[..n])|);
            if m < n then first < second <= |all| && all[first + 1..second] == NamedChildren(cs[m + 1..n])
              else second <= first
  {
    hide NamedChildren;
    if m < n {
      NamedCut(cs, n);
      NamedCut(cs[..n], m + 1);
      assert cs[..n][..m + 1] == cs[..m + 1] && cs[..n][m + 1..] == cs[m + 1..n];
      NamedCut(cs[..m + 1], m);
      assert cs[..m + 1][..m] == cs[..m] && cs[..m + 1][m..] == [cs[m]];
      OneNamed(cs[m]);
    } else {
      NamedCut(cs[..m], n);
      assert cs[..m][..n] == cs[..n];
    }
  }

  /** Two sites are in one block and nothing between them can have changed the variable, as far as the pass can tell. */
  ghost predicate Paired(root: Node, a: Path, b: Path, x: string) {
    IsNode(root, a) && IsNode(root, b) &&
    var (p, q) := (EnclosingStatement(root, a), EnclosingStatement(root, b));
    && p.Some? && q.Some? && Init(p.value) == Init(q.value)
    && !SomeKills(Between(root, p.value, q.value), x)
  }

  // ------------------------------------------------------------------- rule

  /** One query match: a site and the variable text it binds. */
  datatype Capture = Capture(site: Path, variable: string)

  function SitesOf(captures: seq<Capture>, x: string): (r: seq<Path>)
    ensures forall s | s in r :: Capture(s, x) in captures
  {
    if captures == [] then []
    else SitesOf(Init(captures), x) + if Last(captures).variable == x then [Last(captures).site] else []
  }

  method GroupByVariable(captures: seq<Capture>) returns (byVariable: map<string, seq<Path>>)
    ensures forall x :: x in byVariable <==> SitesOf(captures, x) != []
    ensures forall x | x in byVariable :: byVariable[x] == SitesOf(captures, x)
  {
    byVariable := map[];
    for i := 0 to |captures|
      invariant forall x :: x in byVariable <==> SitesOf(captures[..i], x) != []
      invariant forall x | x in byVariable :: byVariable[x] == SitesOf(captures[..i], x)
    {
      assert Init(captures[..i + 1]) == captures[..i];
      var x := captures[i].variable;
      byVariable := byVariable[x := (if x in byVariable then byVariable[x] else []) + [captures[i].site]];
    }
    assert captures[..|captures|] == captures;
  }

  function Start(root: Node, p: Path): nat {
    if IsNode(root, p) then At(root, p).start else 0
  }

  function SortSites(root: Node, sites: seq<Path>): seq<Path> {
    Sort(sites, (p, q) => Start(root, p) <= Start(root, q))
  }

  lemma SortSitesKeeps(root: Node, sites: seq<Path>)
    ensures forall s :: s in SortSites(root, sites) <==> s in sites
  {
    SortOrders(sites, (p, q) => Start(root, p) <= Start(root, q));
    forall s ensures s in SortSites(root, sites) <==> s in sites {
      assert s in SortSites(root, sites) <==> s in multiset(SortSites(root, sites));
      assert s in sites <==> s in multiset(sites);
    }
  }

  /** Site `j` in order is paired with the one before it. */
  ghost predicate Reported(root: Node, sites: seq<Path>, j: nat, x: string) {
    0 < j < |sites| && Paired(root, sites[j - 1], sites[j], x)
  }

  /** `s` is a site paired with the one before it. */
  ghost predicate SecondOfNeighbours(root: Node, sites: seq<Path>, x: string, s: Path) {
    exists j: nat :: Reported(root, sites, j, x) && s == sites[j]
  }

  /** Compare each site with the one before it. */
  method ReportNeighbours(root: Node, sites: seq<Path>, x: string) returns (found: set<Path>)
    requires forall s | s in sites :: IsNode(root, s)
    ensures forall s :: s in found <==> SecondOfNeighbours(root, sites, x, s)
  {
    found := {};
    if sites == [] {
      return;
    }
    for j := 1 to |sites|
      invariant forall s :: s in found <==> exists k: nat :: Reported(root, sites, k, x) && k < j && s == sites[k]
    {
      var first := FindEnclosingStatement(root, sites[j - 1]);
      var second := FindEnclosingStatement(root, sites[j]);
      ghost var before := found;
      if first.Some? && second.Some? && first.value.0 == second.value.0 {
        var killed := IsKilled(StatementsBetween(At(root, first.value.0), first.value.1, second.value.1), x);
        BetweenByPlace(root, EnclosingStatement(root, sites[j - 1]).value, EnclosingStatement(root, sites[j]).value);
        if !killed {
          found := found + {sites[j]};
        }
      }
      assert found == if Reported(root, sites, j, x) then before + {sites[j]} else before;
    }
  }

  /** Report every capture that is paired with the capture of its variable just before it in the text. */
  method RunPairedSites(root: Node, captures: seq<Capture>) returns (found: set<Capture>)
    requires forall c | c in captures :: IsNode(root, c.site)
    ensures forall c :: c in found <==> FoundFor(root, captures, c.variable, c.site)
  {
    var byVariable := GroupByVariable(captures);
    found := {};
    var variables := byVariable.Keys;
    while variables != {}
      invariant variables <= byVariable.Keys
      invariant forall c :: c in found <==>
                  c.variable in byVariable.Keys - variables && FoundFor(root, captures, c.variable, c.site)
      decreases |variables|
    {
      var x :| x in variables;
      SortSitesKeeps(root, byVariable[x]);
      var sites := SortSites(root, byVariable[x]);
      var seconds := ReportNeighbours(root, sites, x);
      found := found + set s | s in seconds :: Capture(s, x);
      variables := variables - {x};
    }
  }

  /** The sites of one variable, in the order they start. */
  function Sites(root: Node, captures: seq<Capture>, x: string): seq<Path> {
    SortSites(root, SitesOf(captures, x))
  }

  ghost predicate FoundFor(root: Node, captures: seq<Capture>, x: string, s: Path) {
    SecondOfNeighbours(root, Sites(root, captures, x), x, s)
  }

  // ------------------------------------------------- neighbours are enough

  lemma {:induction false} KillsUpwards(n: Node, p: Path, x: string)
    requires IsNode(n, p) && Kills(At(n, p), x)
    ensures Kills(n, x)
    decreases |p|
  {
    if p != [] {
      KillsUpwards(n.children[p[0]], p[1..], x);
      assert n.children[p[0]] in n.children;
    }
  }

  lemma {:induction false} NamedChildrenKeeps(nodes: seq<Node>, i: nat)
    requires i < |nodes| && nodes[i].named
    ensures nodes[i] in NamedChildren(nodes)
  {
    if i > 0 {
      NamedChildrenKeeps(nodes[1..], i - 1);
    }
  }

  /** A killing node in the text between two statements of a block is seen between them. */
  lemma SeenBetween(root: Node, p: Path, r: Path, q: Path, x: string)
    requires TokensAreLeaves(root) && IsNode(root, p) && IsNode(root, r) && IsNode(root, q)
    requires p != [] && q != [] && Init(p) == Init(q) && Precedes(p, r) && Precedes(r, q)
    requires At(root, r).named && Kills(At(root, r), x)
    ensures SomeKills(Between(root, p, q), x)
  {
    hide At, IsNode, Kills, TokensAreLeaves, NamedChildren;
    BetweenSiblings(p, r, q);
    ParentOf(root, p);
    ParentOf(root, q);
    var b := Init(p);
    var m, below := r[|b|], r[|b| + 1..];
    assert r == (b + [m]) + below;
    AtSplit(root, b + [m], below);
    ParentOf(root, b + [m]);
    assert Init(b + [m]) == b;
    var cs := At(root, b).children;
    TokensAreLeavesBelow(root, b + [m]);
    assert cs[m].named by {
      if below == [] {
        assert r == b + [m];
      }
    }
    KillsUpwards(cs[m], below, x);
    NamedChildrenKeeps(cs[Last(p) + 1..Last(q)], m - Last(p) - 1);
    assert cs[m] in Between(root, p, q);
  }

  /** Both statements are one, or the first ends before the second begins. */
  ghost predicate InOrder(root: Node, a: Path, b: Path) {
    IsNode(root, a) && IsNode(root, b) &&
    var (p, q) := (EnclosingStatement(root, a), EnclosingStatement(root, b));
    p.Some? && q.Some? && (p == q || Precedes(p.value, q.value))
  }

  lemma LaterPairIsNear(root: Node, a: Path, c: Path, b: Path, x: string)
    requires TokensAreLeaves(root) && IsNode(root, a) && IsNode(root, c) && IsNode(root, b)
    requires InOrder(root, a, c) && InOrder(root, c, b) && Kills(At(root, c), x)
    requires Paired(root, a, b, x)
    ensures Paired(root, c, b, x)
  {
    var p, r, q := EnclosingStatement(root, a).value, EnclosingStatement(root, c).value,
      EnclosingStatement(root, b).value;
    if p != r && r != q {
      var below := c[|r|..];
      assert c == r + below;
      AtSplit(root, r, below);
      KillsUpwards(At(root, r), below, x);
      SeenBetween(root, p, r, q, x);
    }
  }

  /** Two of the sites, in order, are paired, and `s` is the later one. */
  ghost predicate SecondOfSome(root: Node, sites: seq<Path>, x: string, s: Path) {
    exists i: nat, j: nat :: i < j < |sites| && s == sites[j] && Paired(root, sites[i], sites[j], x)
  }

  ghost predicate AllInOrder(root: Node, sites: seq<Path>) {
    forall i: nat, j: nat | i < j < |sites| :: InOrder(root, sites[i], sites[j])
  }

  lemma NeighboursAreEnough(root: Node, sites: seq<Path>, x: string, s: Path)
    requires TokensAreLeaves(root) && forall t | t in sites :: IsNode(root, t) && Kills(At(root, t), x)
    requires AllInOrder(root, sites)
    ensures SecondOfNeighbours(root, sites, x, s) <==> SecondOfSome(root, sites, x, s)
  {
    hide Paired, InOrder, TokensAreLeaves, IsNode, At, Kills;
    if SecondOfSome(root, sites, x, s) {
      var i: nat, j: nat :| i < j < |sites| && s == sites[j] && Paired(root, sites[i], sites[j], x);
      if i < j - 1 {
        LaterPairIsNear(root, sites[i], sites[j - 1], sites[j], x);
      }
      assert Reported(root, sites, j, x);
    }
    if SecondOfNeighbours(root, sites, x, s) {
      var j: nat :| Reported(root, sites, j, x) && s == sites[j];
      assert Paired(root, sites[j - 1], sites[j], x);
    }
  }

  /**
   When every site passes the variable on, as the paired calls of these rules
   do, and the sites' statements come one after another without nesting, the
   rule reports exactly the sites that are paired with any earlier site of the
   variable: comparing neighbours misses nothing.
   */
  lemma NeighboursSuffice(root: Node, captures: seq<Capture>, x: string, s: Path)
    requires TokensAreLeaves(root)
    requires forall c | c in captures :: IsNode(root, c.site) && Kills(At(root, c.site), c.variable)
    requires AllInOrder(root, Sites(root, captures, x))
    ensures FoundFor(root, captures, x, s) <==> SecondOfSome(root, Sites(root, captures, x), x, s)
  {
    hide Paired, InOrder, TokensAreLeaves, IsNode, At, Kills, Sort, AllInOrder, SecondOfSome, SecondOfNeighbours;
    var sites := Sites(root, captures, x);
    forall t | t in sites ensures IsNode(root, t) && Kills(At(root, t), x) {
      SortSitesKeeps(root, SitesOf(captures, x));
      assert Capture(t, x) in captures;
    }
    NeighboursAreEnough(root, sites, x, s);
  }

  /** What a reported pair says about the variable when the statements between the two sites run. */
  lemma ReportedKeepsIff(root: Node, a: Path, b: Path, x: string)
    requires IsNode(root, a) && IsNode(root, b) && Paired(root, a, b, x)
    ensures var between := Between(root, EnclosingStatement(root, a).value, EnclosingStatement(root, b).value);
            KeepsVariable(between, x) <==> !SomeMissed(between, x)
  {
    UnkilledKeepsIff(Between(root, EnclosingStatement(root, a).value, EnclosingStatement(root, b).value), x);
  }

  // ------------------------------------------------------ exactly the neighbours

  /** Both sites are in statements, of one block. */
  ghost predicate SameBlock(root: Node, a: Path, b: Path) {
    IsNode(root, a) && IsNode(root, b) &&
    var (p, q) := (EnclosingStatement(root, a), EnclosingStatement(root, b));
    p.Some? && q.Some? && Init(p.value) == Init(q.value)
  }

  /** What runs between two sites of one block neither passes the variable to a call nor holds a missed form. */
  ghost predicate Plain(root: Node, a: Path, b: Path, x: string) {
    SameBlock(root, a, b) &&
    var between := Between(root, EnclosingStatement(root, a).value, EnclosingStatement(root, b).value);
    !SomePassed(between, x) && !SomeMissed(between, x)
  }

  /**
   Between two sites of one block that are separated by plain statements only, nothing but what those
   statements do decides: the second is reported as the neighbour of the first exactly when they keep
   the variable in every run.
   */
  lemma PlainNeighboursIff(root: Node, sites: seq<Path>, j: nat, x: string)
    requires 0 < j < |sites| && Plain(root, sites[j - 1], sites[j], x)
    ensures var (p, q) := (EnclosingStatement(root, sites[j - 1]).value, EnclosingStatement(root, sites[j]).value);
            Reported(root, sites, j, x) <==> KeepsVariable(Between(root, p, q), x)
  {
    hide SomeKills, SomePassed, SomeMissed, KeepsVariable, Between;
    KeptIff(Between(root, EnclosingStatement(root, sites[j - 1]).value, EnclosingStatement(root, sites[j]).value), x);
  }

  /** Sites whose statements share a block come in the order of those statements. */
  ghost predicate BlocksInOrder(root: Node, sites: seq<Path>) {
    forall i: nat, j: nat | i < j < |sites| && SameBlock(root, sites[i], sites[j]) :: InOrder(root, sites[i], sites[j])
  }

  /** The site is paired with some earlier one. */
  ghost predicate PairedEarlier(root: Node, sites: seq<Path>, j: nat, x: string) {
    j < |sites| && exists i: nat :: i < j && Paired(root, sites[i], sites[j], x)
  }

  /**
   A site is reported if and only if it is paired with an earlier one and shares its
   block with the one just before it.
   */
  lemma ReportedIff(root: Node, sites: seq<Path>, j: nat, x: string)
    requires TokensAreLeaves(root) && forall t | t in sites :: IsNode(root, t) && Kills(At(root, t), x)
    requires BlocksInOrder(root, sites)
    ensures Reported(root, sites, j, x) <==>
            0 < j < |sites| && PairedEarlier(root, sites, j, x) && SameBlock(root, sites[j - 1], sites[j])
  {
    hide EnclosingStatement, TokensAreLeaves, IsNode, At, Kills, Between, SomeKills;
    if 0 < j < |sites| && PairedEarlier(root, sites, j, x) && SameBlock(root, sites[j - 1], sites[j]) {
      var i: nat :| i < j && Paired(root, sites[i], sites[j], x);
      if i < j - 1 {
        LaterPairIsNear(root, sites[i], sites[j - 1], sites[j], x);
      }
    }
  }

  /**
   What the rule reports when every site passes the variable on, as the calls of
   these rules do: a site that is paired with any earlier site of its variable,
   exactly when its statement shares a block with that of the site just before.
   */
  lemma NeighboursSufficeIff(root: Node, captures: seq<Capture>, x: string, s: Path)
    requires TokensAreLeaves(root)
    requires forall c | c in captures :: IsNode(root, c.site) && Kills(At(root, c.site), c.variable)
    requires BlocksInOrder(root, Sites(root, captures, x))
    ensures var sites := Sites(root, captures, x);
            FoundFor(root, captures, x, s) <==>
            exists j: nat ::
              0 < j && PairedEarlier(root, sites, j, x) && SameBlock(root, sites[j - 1], sites[j]) && s == sites[j]
  {
    hide Paired, SameBlock, InOrder, TokensAreLeaves, IsNode, At, Kills, Sort, BlocksInOrder;
    var sites := Sites(root, captures, x);
    forall t | t in sites ensures IsNode(root, t) && Kills(At(root, t), x) {
      SortSitesKeeps(root, SitesOf(captures, x));
      assert Capture(t, x) in captures;
    }
    forall j: nat
      ensures Reported(root, sites, j, x) <==>
              0 < j < |sites| && PairedEarlier(root, sites, j, x) && SameBlock(root, sites[j - 1], sites[j])
    {
      ReportedIff(root, sites, j, x);
    }
  }

  /** In the text a node starts after everything that precedes it. */
  ghost predicate StartsInOrder(root: Node) {
    forall p: Path, q: Path | IsNode(root, p) && IsNode(root, q) && Precedes(p, q) ::
      At(root, p).start < At(root, q).start
  }

  /**
   Sorting by start puts the sites of one block in the order of their statements, in any
   tree laid out along the text.
   */
  lemma SortedSitesAreInOrder(root: Node, captures: seq<Capture>, x: string)
    requires StartsInOrder(root) && forall c | c in captures :: IsNode(root, c.site)
    ensures BlocksInOrder(root, Sites(root, captures, x))
  {
    hide IsNode, At, SameBlock, InOrder, StartsInOrder, Sort;
    var sites := Sites(root, captures, x);
    SitesAreNodes(root, captures, x);
    SortOrders(SitesOf(captures, x), (p, q) => Start(root, p) <= Start(root, q));
    forall i: nat, j: nat | i < j < |sites| && SameBlock(root, sites[i], sites[j])
      ensures InOrder(root, sites[i], sites[j])
    {
      assert Start(root, sites[i]) <= Start(root, sites[j]);
      SameBlockInOrder(root, sites[i], sites[j]);
    }
  }

  lemma SitesAreNodes(root: Node, captures: seq<Capture>, x: string)
    requires forall c | c in captures :: IsNode(root, c.site)
    ensures forall t | t in Sites(root, captures, x) :: IsNode(root, t)
  {
    hide IsNode, Sort;
    SortSitesKeeps(root, SitesOf(captures, x));
    forall t | t in Sites(root, captures, x) ensures IsNode(root, t) {
      assert Capture(t, x) in captures;
    }
  }

  lemma SameBlockInOrder(root: Node, a: Path, b: Path)
    requires StartsInOrder(root) && IsNode(root, a) && IsNode(root, b) && SameBlock(root, a, b)
    requires At(root, a).start <= At(root, b).start
    ensures InOrder(root, a, b)
  {
    hide EnclosingStatement, IsNode, At;
    var p, q := EnclosingStatement(root, a).value, EnclosingStatement(root, b).value;
    if Last(p) == Last(q) {
      assert p == Init(p) + [Last(p)] == q;
    } else if Last(p) < Last(q) {
      SiblingsPrecede(p, q, p, q);
    } else {
      SiblingsPrecede(q, p, b, a);
    }
  }

  // ---------------------------------------------------------------- a hidden pair

  function Statement(kind: Kind, start: nat, children: seq<Node>): Node {
    Node(kind, true, start, "", children, map[])
  }

  function Ident(text: string, start: nat): Node {
    Node(Identifier, true, start, text, [], map[])
  }

  /** `free(p)`, starting at `start`. */
  function FreeCall(start: nat): Node {
    var arguments := Statement(OtherKind, start + 4, [Ident("p", start + 5)]);
    Node(CallExpression, true, start, "", [Ident("free", start), arguments],
         map[Function := 0, Arguments := 1])
  }

  function FreeStatement(start: nat): Node {
    Statement(OtherKind, start, [FreeCall(start)])
  }

  function Guarded(): Node {
    Statement(ControlFlow, 2, [Statement(OtherKind, 5, [FreeCall(6), Ident("c", 15)]), InnerBlock()])
  }

  function InnerBlock(): Node {
    Statement(CompoundStatement, 18, [FreeStatement(20)])
  }

  /** The block `{ if (free(p), c) { free(p); } free(p); }`, without its punctuation. */
  function NestedFrees(): Node {
    Statement(CompoundStatement, 0, [Guarded(), FreeStatement(31)])
  }

  const FIRST: Path := [0, 0, 0]
  const NESTED: Path := [0, 1, 0, 0]
  const LAST: Path := [1, 0]

  lemma Descend(n: Node, i: nat, p: Path)
    requires i < |n.children| && IsNode(n.children[i], p)
    ensures IsNode(n, [i] + p) && At(n, [i] + p) == At(n.children[i], p)
  {
    assert ([i] + p)[1..] == p;
  }

  lemma FirstPlace()
    ensures var root := NestedFrees();
            && IsNode(root, FIRST) && At(root, FIRST) == FreeCall(6)
            && IsNode(root, [0, 0]) && At(root, [0, 0]).kind == OtherKind
  {
    var root := NestedFrees();
    var condition := Guarded().children[0];
    Descend(condition, 0, []);
    Descend(Guarded(), 0, [0]);
    Descend(root, 0, [0, 0]);
    Descend(Guarded(), 0, []);
    Descend(root, 0, [0]);
    assert [0] + [0] == [0, 0] && [0] + [0, 0] == FIRST;
  }

  lemma NestedPlace()
    ensures var root := NestedFrees();
            && IsNode(root, NESTED) && At(root, NESTED) == FreeCall(20)
            && IsNode(root, [0, 1, 0]) && At(root, [0, 1, 0]) == FreeStatement(20)
            && IsNode(root, [0, 1]) && At(root, [0, 1]) == InnerBlock()
  {
    var root := NestedFrees();
    Descend(FreeStatement(20), 0, []);
    Descend(InnerBlock(), 0, [0]);
    Descend(Guarded(), 1, [0, 0]);
    Descend(root, 0, [1, 0, 0]);
    Descend(InnerBlock(), 0, []);
    Descend(Guarded(), 1, [0]);
    Descend(root, 0, [1, 0]);
    Descend(Guarded(), 1, []);
    Descend(root, 0, [1]);
    assert [0] + [0] == [0, 0] && [1] + [0, 0] == [1, 0, 0] && [0] + [1, 0, 0] == NESTED;
    assert [1] + [0] == [1, 0] && [0] + [1, 0] == [0, 1, 0] && [0] + [1] == [0, 1];
  }

  lemma LastPlace()
    ensures var root := NestedFrees();
            && IsNode(root, LAST) && At(root, LAST) == FreeCall(31)
            && IsNode(root, [0]) && At(root, [0]) == Guarded() && IsNode(root, [1]) &&
              At(root, [1]) == FreeStatement(31)
            && IsNode(root, []) && At(root, []) == root
  {
    var root := NestedFrees();
    Descend(FreeStatement(31), 0, []);
    Descend(root, 1, [0]);
    Descend(root, 0, []);
    Descend(root, 1, []);
    assert [1] + [0] == LAST;
  }

  lemma StatementsOfFrees()
    ensures var root := NestedFrees();
            && IsNode(root, FIRST) && IsNode(root, NESTED) && IsNode(root, LAST)
            && EnclosingStatement(root, FIRST) == Some([0])
            && EnclosingStatement(root, NESTED) == Some([0, 1, 0])
            && EnclosingStatement(root, LAST) == Some([1])
  {
    hide IsNode, At;
    var root := NestedFrees();
    FirstPlace();
    NestedPlace();
    LastPlace();
    assert Init(FIRST) == [0, 0] && Init([0, 0]) == [0] && Init([0]) == [];
    assert Init(NESTED) == [0, 1, 0] && Init([0, 1, 0]) == [0, 1];
    assert Init(LAST) == [1] && Init([1]) == [];
    assert EnclosingStatement(root, [0]) == Some([0]);
    assert EnclosingStatement(root, [0, 0]) == Some([0]);
  }

  lemma FreeKills(start: nat)
    ensures Kills(FreeCall(start), "p")
  {
    var p := Ident("p", start + 5);
    assert p in NamedChildren([p]);
    assert NodeKills(FreeCall(start), "p");
  }

  function FreeCaptures(): seq<Capture> {
    [Capture(FIRST, "p"), Capture(NESTED, "p"), Capture(LAST, "p")]
  }

  lemma FreeSites()
    ensures Sites(NestedFrees(), FreeCaptures(), "p") == [FIRST, NESTED, LAST]
  {
    hide IsNode, At, Sort, SitesOf;
    var root, sites := NestedFrees(), [FIRST, NESTED, LAST];
    FirstPlace();
    NestedPlace();
    LastPlace();
    FreeSitesMatched();
    assert Start(root, sites[0]) == 6 && Start(root, sites[1]) == 20 && Start(root, sites[2]) == 31;
    SortKeepsOrdered(sites, (p, q) => Start(root, p) <= Start(root, q));
  }

  lemma FreeSitesMatched()
    ensures SitesOf(FreeCaptures(), "p") == [FIRST, NESTED, LAST]
  {
    var captures := FreeCaptures();
    assert Init(captures) == [Capture(FIRST, "p"), Capture(NESTED, "p")];
    assert Init(Init(captures)) == [Capture(FIRST, "p")] && Init(Init(Init(captures))) == [];
    assert SitesOf(Init(Init(captures)), "p") == [FIRST];
    assert SitesOf(Init(captures), "p") == [FIRST, NESTED];
  }

  /**
   Nesting hides a pair: in `{ if (free(p), c) { free(p); } free(p); }` the last
   call is paired with the first, but the nested call between them shares a block
   with neither, and the rule reports nothing.
   */
  lemma NestingHidesAPair()
    ensures forall c | c in FreeCaptures() ::
              IsNode(NestedFrees(), c.site) && Kills(At(NestedFrees(), c.site), c.variable)
    ensures Sites(NestedFrees(), FreeCaptures(), "p") == [FIRST, NESTED, LAST]
    ensures SecondOfSome(NestedFrees(), [FIRST, NESTED, LAST], "p", LAST)
    ensures forall s :: !FoundFor(NestedFrees(), FreeCaptures(), "p", s)
  {
    hide IsNode, At, EnclosingStatement, Kills, Sites, Paired, NestedFrees;
    var sites := [FIRST, NESTED, LAST];
    FreesArePlaced();
    FreeSites();
    FreePairs();
    assert sites[0] == FIRST && sites[1] == NESTED && sites[2] == LAST;
    assert !Reported(NestedFrees(), sites, 1, "p") && !Reported(NestedFrees(), sites, 2, "p");
  }

  lemma FreePairs()
    ensures var root := NestedFrees();
            && IsNode(root, FIRST) && IsNode(root, NESTED) && IsNode(root, LAST)
            && Paired(root, FIRST, LAST, "p") && !Paired(root, FIRST, NESTED, "p") && !Paired(root, NESTED, LAST, "p")
  {
    hide IsNode, At, EnclosingStatement, SomeKills, NestedFrees;
    StatementsOfFrees();
    NothingBetween();
    assert Init<nat>([0]) == [] && Init<nat>([1]) == [] && Init<nat>([0, 1, 0]) == [0, 1];
  }

  lemma FreesArePlaced()
    ensures var (root, captures) := (NestedFrees(), FreeCaptures());
            forall c | c in captures :: IsNode(root, c.site) && Kills(At(root, c.site), c.variable)
  {
    FirstPlace();
    NestedPlace();
    LastPlace();
    FreeKills(6);
    FreeKills(20);
    FreeKills(31);
  }

  lemma NothingBetween()
    ensures var root := NestedFrees();
            IsNode(root, [0]) && IsNode(root, [1]) && Init<nat>([0]) == Init<nat>([1]) &&
              !SomeKills(Between(root, [0], [1]), "p")
  {
    LastPlace();
    assert Init<nat>([0]) == [] && Init<nat>([1]) == [];
  }
}
