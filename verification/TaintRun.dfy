/**
 What influence means: a straight-line run of a function's body in which every name has
 a taint bit. The names that the analysis reports are compared with such runs.
 */
module TaintRun {
  import opened Common
  import opened Ast
  import opened Paths
  import opened Taint

  // ------------------------------------------------------- reading and writing

  /** The identifier `x` stands somewhere in the subtree. */
  ghost predicate Reads(n: Node, x: string) {
    exists p :: IsNode(n, p) && At(n, p).kind == Identifier && At(n, p).text == x
  }

  /** `declared` reaches the identifier `x` through nested declarators. */
  predicate Declares(chain: seq<Node>, x: string) {
    && chain != [] && Last(chain).kind == Identifier && Last(chain).text == x
    && forall i | 0 <= i < |chain| - 1 ::
         chain[i].kind != Identifier && ChildByField(chain[i], Declarator) == Some(chain[i + 1])
  }

  predicate IsBuilder(name: string) {
    || name == "sprintf" || name == "vsprintf" || name == "snprintf" || name == "vsnprintf"
    || name == "strcpy" || name == "strcat" || name == "strncpy" || name == "memcpy"
  }

  predicate IsUntrusted(name: string) {
    || name == "getenv" || name == "fgets" || name == "gets" || name == "read"
    || name == "recv" || name == "recvfrom" || name == "fread" || name == "stdin"
  }

  /** The node is an assignment to `x` of `value`. */
  predicate Assigns(n: Node, x: string, value: Node) {
    && n.kind == AssignmentExpression && ChildByField(n, Right) == Some(value)
    && ChildByField(n, Left).Some? && ChildByField(n, Left).value.text == x
  }

  /** The node initialises `x` with `value`. */
  ghost predicate Initialises(n: Node, x: string, value: Node) {
    && n.kind == InitDeclarator && ChildByField(n, ValueField) == Some(value)
    && exists chain :: Declares(chain, x) && ChildByField(n, Declarator) == Some(chain[0])
  }

  /** The node calls a string builder whose first argument is `x`. */
  predicate Builds(n: Node, x: string, arguments: Node) {
    && n.kind == CallExpression && ChildByField(n, Arguments) == Some(arguments)
    && ChildByField(n, Function).Some? && IsBuilder(ChildByField(n, Function).value.text)
    && NamedChildren(arguments.children) != [] && NamedChildren(arguments.children)[0].text == x
  }

  /** Executing the node writes `x` from what stands in `value`. */
  ghost predicate Writes(n: Node, x: string, value: Node) {
    Assigns(n, x, value) || Initialises(n, x, value) || Builds(n, x, value)
  }

  // --------------------------------------------------------------------- runs

  /** The bit of `x` after the nodes have been executed in order: a write sets or clears it by what it reads. */
  ghost predicate Tainted(nodes: seq<Node>, seeds: set<string>, x: string) {
    if nodes == [] then x in seeds
    else
      var before, n := Init(nodes), Last(nodes);
      if exists v :: Writes(n, x, v) then
        exists v, y :: Writes(n, x, v) && Reads(v, y) && (IsUntrusted(y) || Tainted(before, seeds, y))
      else Tainted(before, seeds, x)
  }

  /** The bit of `x` when writes only ever set it. */
  ghost predicate EverTainted(nodes: seq<Node>, seeds: set<string>, x: string) {
    if nodes == [] then x in seeds
    else
      var before, n := Init(nodes), Last(nodes);
      || EverTainted(before, seeds, x)
      || exists v, y :: Writes(n, x, v) && Reads(v, y) && (IsUntrusted(y) || EverTainted(before, seeds, y))
  }

  // --------------------------------------------- the analysis reads and writes so

  lemma {:induction false} OccursIff(n: Node, x: string)
    ensures Occurs(n, x) <==> Reads(n, x)
  {
    if n.kind == Identifier && n.text == x {
      assert IsNode(n, []) && At(n, []) == n;
    }
    forall c | c in n.children ensures Occurs(c, x) <==> Reads(c, x) {
      OccursIff(c, x);
    }
    if c :| c in n.children && Reads(c, x) {
      var i: nat :| i < |n.children| && n.children[i] == c;
      var p :| IsNode(c, p) && At(c, p).kind == Identifier && At(c, p).text == x;
      assert ([i] + p)[1..] == p;
      assert IsNode(n, [i] + p) && At(n, [i] + p) == At(c, p);
    }
    if Reads(n, x) {
      var p :| IsNode(n, p) && At(n, p).kind == Identifier && At(n, p).text == x;
      if p != [] {
        var c := n.children[p[0]];
        assert IsNode(c, p[1..]) && At(c, p[1..]) == At(n, p);
        assert c in n.children && Reads(c, x);
      }
    }
  }

  lemma {:induction false} DeclaredChain(n: Node, x: string) returns (chain: seq<Node>)
    requires DeclaredName(n) == Some(x)
    ensures Declares(chain, x) && chain[0] == n
  {
    if n.kind == Identifier {
      chain := [n];
    } else {
      var inner := ChildByField(n, Declarator).value;
      var rest := DeclaredChain(inner, x);
      chain := [n] + rest;
      forall i | 0 <= i < |chain| - 1
        ensures chain[i].kind != Identifier && ChildByField(chain[i], Declarator) == Some(chain[i + 1])
      {
        if i > 0 {
          assert chain[i] == rest[i - 1] && chain[i + 1] == rest[i];
        }
      }
    }
  }

  lemma {:induction false} ChainDeclares(chain: seq<Node>, x: string)
    requires Declares(chain, x)
    ensures DeclaredName(chain[0]) == Some(x)
  {
    if |chain| > 1 {
      assert forall i | 0 <= i < |chain[1..]| :: chain[1..][i] == chain[i + 1];
      ChainDeclares(chain[1..], x);
    }
  }

  lemma DeclaredNameIff(n: Node, x: string)
    ensures DeclaredName(n) == Some(x) <==> exists chain :: Declares(chain, x) && chain[0] == n
  {
    if DeclaredName(n) == Some(x) {
      var chain := DeclaredChain(n, x);
    }
    if chain :| Declares(chain, x) && chain[0] == n {
      ChainDeclares(chain, x);
    }
  }

  /** The builders and sources of the analysis are those listed here. */
  lemma NamesAgree(name: string)
    ensures name in STRING_BUILDERS <==> IsBuilder(name)
    ensures name in UNTRUSTED_SOURCES <==> IsUntrusted(name)
  {
  }

  /** A node is taken for a flow into `x` from `value` exactly when executing it writes `x` from `value`. */
  lemma FlowIff(n: Node, x: string, value: Node)
    ensures FlowOf(n) == Some(Flow(x, value)) <==> Writes(n, x, value)
  {
    hide STRING_BUILDERS, UNTRUSTED_SOURCES, IsBuilder, NamedChildren;
    if n.kind == InitDeclarator && ChildByField(n, Declarator).Some? {
      DeclaredNameIff(ChildByField(n, Declarator).value, x);
    }
    if n.kind == CallExpression && ChildByField(n, Function).Some? {
      NamesAgree(ChildByField(n, Function).value.text);
    }
  }

  lemma FiresIff(f: Flow, s: set<string>)
    ensures Fires(f, s) <==> exists y :: Reads(f.value, y) && (IsUntrusted(y) || y in s)
  {
    hide Occurs, Reads, UNTRUSTED_SOURCES, IsUntrusted;
    forall y
      ensures Occurs(f.value, y) <==> Reads(f.value, y)
      ensures y in UNTRUSTED_SOURCES <==> IsUntrusted(y)
    {
      OccursIff(f.value, y);
      NamesAgree(y);
    }
  }

  // ------------------------------------------------------ the analysis and runs

  lemma {:induction false} SpreadIffEverTainted(nodes: seq<Node>, seeds: set<string>, x: string)
    ensures x in Spread(Flows(nodes), seeds) <==> EverTainted(nodes, seeds, x)
  {
    hide FlowOf, Fires, Writes, Reads, IsUntrusted, Flows, Spread;
    if nodes == [] {
      NothingSpreads(nodes, seeds);
      assert nodes[..0] == nodes;
    } else {
      var before, n := Init(nodes), Last(nodes);
      SpreadStep(nodes, |nodes| - 1, seeds);
      assert nodes[..|nodes|] == nodes && nodes[..|nodes| - 1] == before;
      forall y ensures y in Spread(Flows(before), seeds) <==> EverTainted(before, seeds, y) {
        SpreadIffEverTainted(before, seeds, y);
      }
      forall v ensures FlowOf(n) == Some(Flow(x, v)) <==> Writes(n, x, v) {
        FlowIff(n, x, v);
      }
      if FlowOf(n).Some? {
        FiresIff(FlowOf(n).value, Spread(Flows(before), seeds));
      }
    }
  }

  /** Whatever a run taints, setting bits only would taint. */
  lemma {:induction false} RunIsCovered(nodes: seq<Node>, seeds: set<string>, x: string)
    requires Tainted(nodes, seeds, x)
    ensures EverTainted(nodes, seeds, x)
  {
    hide Writes, Reads, IsUntrusted;
    if nodes != [] {
      var before, n := Init(nodes), Last(nodes);
      if exists v :: Writes(n, x, v) {
        var v, y :| Writes(n, x, v) && Reads(v, y) && (IsUntrusted(y) || Tainted(before, seeds, y));
        if !IsUntrusted(y) {
          RunIsCovered(before, seeds, y);
        }
      } else {
        RunIsCovered(before, seeds, x);
      }
    }
  }

  /** The nodes of the body that are executed in order of their starts. */
  function Executed(function': Node): seq<Node> {
    match ChildByField(function', Body)
    case None => []
    case Some(body) => SortByStart(Visited(body))
  }

  /** A name is influenced exactly when a run that only sets bits, begun with the parameters, taints it. */
  lemma InfluencedIffEverTainted(function': Node, x: string)
    ensures x in Influenced(function') <==> EverTainted(Executed(function'), ParameterNames(function'), x)
  {
    hide EverTainted, ParameterNames, Flows, Spread, SortByStart, Visited;
    var seeds := ParameterNames(function');
    SpreadIffEverTainted(Executed(function'), seeds, x);
    if ChildByField(function', Body).None? {
      var none: seq<Node> := [];
      NothingSpreads(none, seeds);
      assert none[..0] == none;
    }
  }

  /** Every name that a straight-line run of the body leaves tainted is influenced. */
  lemma RunsAreCovered(function': Node, x: string)
    requires Tainted(Executed(function'), ParameterNames(function'), x)
    ensures x in Influenced(function')
  {
    hide EverTainted, Tainted, ParameterNames, Executed, Influenced;
    RunIsCovered(Executed(function'), ParameterNames(function'), x);
    InfluencedIffEverTainted(function', x);
  }

  // ---------------------------------------------------- parameters and places

  /** `c` is a named entry of the function's parameter list. */
  predicate IsParameter(function': Node, c: Node) {
    var declarator := ChildByField(function', Declarator);
    && declarator.Some?
    && var list := ChildByField(declarator.value, Parameters);
       list.Some? && c in list.value.children && c.named
  }

  lemma {:induction false} DeclaredNamesIff(parameters: seq<Node>, x: string)
    ensures x in DeclaredNames(parameters)
            <==> exists c, chain ::
                   c in parameters && Declares(chain, x) && ChildByField(c, Declarator) == Some(chain[0])
  {
    hide Declares;
    if parameters != [] {
      var before, c := Init(parameters), Last(parameters);
      DeclaredNamesIff(before, x);
      assert parameters == before + [c];
      if ChildByField(c, Declarator).Some? {
        DeclaredNameIff(ChildByField(c, Declarator).value, x);
        DeclaresSomething(x);
      }
    }
  }

  lemma DeclaresSomething(x: string)
    ensures forall chain | Declares(chain, x) :: chain != []
  {
  }

  /** The parameters are exactly the names that the entries of the parameter list declare. */
  lemma ParameterNamesIff(function': Node, x: string)
    ensures x in ParameterNames(function')
            <==> exists c, chain :: IsParameter(function', c) && Declares(chain, x) &&
                                    ChildByField(c, Declarator) == Some(chain[0])
  {
    hide Declares, DeclaredNames;
    DeclaresSomething(x);
    var declarator := ChildByField(function', Declarator);
    if declarator.Some? && ChildByField(declarator.value, Parameters).Some? {
      var children := ChildByField(declarator.value, Parameters).value.children;
      DeclaredNamesIff(NamedChildren(children), x);
      forall c ensures c in NamedChildren(children) <==> IsParameter(function', c) {
        NamedChildrenIff(children, c);
      }
    }
  }

  lemma {:induction false} StackVisits(stack: seq<Node>, i: nat, m: Node)
    requires i < |stack| && m in Visited(stack[i])
    ensures m in VisitedStack(stack)
  {
    hide Visited;
    if i < |stack| - 1 {
      StackVisits(Init(stack), i, m);
    }
  }

  lemma {:induction false} VisitedOnStack(stack: seq<Node>, m: Node) returns (i: nat)
    requires m in VisitedStack(stack)
    ensures i < |stack| && m in Visited(stack[i])
  {
    hide Visited;
    if m in Visited(Last(stack)) {
      i := |stack| - 1;
    } else {
      i := VisitedOnStack(Init(stack), m);
    }
  }

  lemma {:induction false} PlacedIsVisited(n: Node, p: Path)
    requires IsNode(n, p)
    ensures At(n, p) in Visited(n)
    decreases |p|
  {
    if p != [] {
      PlacedIsVisited(n.children[p[0]], p[1..]);
      StackVisits(n.children, p[0], At(n, p));
    }
  }

  lemma {:induction false} VisitedIsPlaced(n: Node, m: Node) returns (p: Path)
    requires m in Visited(n)
    ensures IsNode(n, p) && At(n, p) == m
  {
    if m == n {
      p := [];
    } else {
      var i := VisitedOnStack(n.children, m);
      var q := VisitedIsPlaced(n.children[i], m);
      p := [i] + q;
      assert p[1..] == q;
    }
  }

  /** The pass visits exactly the nodes of the subtree. */
  lemma VisitedIff(n: Node, m: Node)
    ensures m in Visited(n) <==> exists p :: IsNode(n, p) && At(n, p) == m
  {
    hide Visited, IsNode, At;
    if m in Visited(n) {
      var p := VisitedIsPlaced(n, m);
    }
    if p :| IsNode(n, p) && At(n, p) == m {
      PlacedIsVisited(n, p);
    }
  }

  /** So the pass executes exactly the nodes of the body. */
  lemma ExecutedIff(function': Node, m: Node)
    ensures m in Executed(function')
            <==> exists p :: ChildByField(function', Body).Some? && IsNode(ChildByField(function', Body).value, p)
                             && At(ChildByField(function', Body).value, p) == m
  {
    hide Visited, SortByStart, IsNode, At;
    var body := ChildByField(function', Body);
    if body.Some? {
      VisitIsInOrder(body.value);
      VisitedIff(body.value, m);
      assert m in Executed(function') <==> m in multiset(Executed(function'));
      assert m in Visited(body.value) <==> m in multiset(Visited(body.value));
    }
  }

  /** In particular `x = y`, `t x = y` and `strcpy(x, y)` anywhere in the body influence `x` when `y` is a parameter
      or an untrusted source. */
  lemma CopiesAreInfluenced(function': Node, p: Path, x: string, value: Node, y: string)
    requires ChildByField(function', Body).Some? && IsNode(ChildByField(function', Body).value, p)
    requires Writes(At(ChildByField(function', Body).value, p), x, value) && Reads(value, y)
    requires IsUntrusted(y) || y in ParameterNames(function')
    ensures x in Influenced(function')
  {
    hide Executed, ParameterNames, Writes, Reads, IsUntrusted, Influenced;
    var n := At(ChildByField(function', Body).value, p);
    ExecutedIff(function', n);
    CopyTaints(Executed(function'), ParameterNames(function'), n, x, value, y);
    InfluencedIffEverTainted(function', x);
  }

  lemma {:induction false} CopyTaints(nodes: seq<Node>, seeds: set<string>, n: Node, x: string, value: Node, y: string)
    requires n in nodes && Writes(n, x, value) && Reads(value, y) && (IsUntrusted(y) || y in seeds)
    ensures EverTainted(nodes, seeds, x)
  {
    hide Writes, Reads, IsUntrusted;
    var before := Init(nodes);
    if n == Last(nodes) {
      if !IsUntrusted(y) {
        SeedsStayTainted(before, seeds, y);
      }
    } else {
      CopyTaints(before, seeds, n, x, value, y);
    }
  }

  lemma {:induction false} SeedsStayTainted(nodes: seq<Node>, seeds: set<string>, y: string)
    requires y in seeds
    ensures EverTainted(nodes, seeds, y)
  {
    if nodes != [] {
      SeedsStayTainted(Init(nodes), seeds, y);
    }
  }

  // ------------------------------------------------------ the enclosing function

  /** A function definition stands `k` levels down the way to `p`. */
  predicate FunctionAt(root: Node, p: Path, k: nat) {
    k <= |p| && IsNode(root, p[..k]) && At(root, p[..k]).kind == FunctionDefinition
  }

  /** The enclosing function is the innermost definition on the way from the root to the node. */
  lemma {:induction false} EnclosingIsInnermost(root: Node, p: Path) returns (k: nat)
    requires IsNode(root, p)
    ensures EnclosingFunction(root, p).None? ==> forall j: nat :: !FunctionAt(root, p, j)
    ensures EnclosingFunction(root, p).Some? ==>
              && FunctionAt(root, p, k) && At(root, p[..k]) == EnclosingFunction(root, p).value
              && forall j: nat | j > k :: !FunctionAt(root, p, j)
    decreases |p|
  {
    assert p[..|p|] == p;
    if At(root, p).kind == FunctionDefinition {
      k := |p|;
    } else if p == [] {
      k := 0;
    } else {
      ParentOf(root, p);
      k := EnclosingIsInnermost(root, Init(p));
      if k < |p| {
        assert Init(p)[..k] == p[..k];
      }
      forall j: nat | j < |p| ensures FunctionAt(root, p, j) <==> FunctionAt(root, Init(p), j) {
        assert Init(p)[..j] == p[..j];
      }
    }
  }
}
