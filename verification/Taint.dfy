/**
 Which names of a function hold caller-chosen values. The source collects every
 node with a stack, sorts them by position and makes one forward pass with a
 growing set; the result is exactly what flows to a name along statements in
 increasing position.
 */
module Taint {
  import opened Common
  import opened Ast
  import opened Paths
  import opened StableSort

  const STRING_BUILDERS := {"sprintf", "vsprintf", "snprintf", "vsnprintf", "strcpy", "strcat", "strncpy", "memcpy"}
  const UNTRUSTED_SOURCES := {"getenv", "fgets", "gets", "read", "recv", "recvfrom", "fread", "stdin"}

  // --------------------------------------------------------------- mentions

  /** Identifier `x` occurs in the subtree. */
  predicate Occurs(n: Node, x: string) {
    (n.kind == Identifier && n.text == x) || exists c | c in n.children :: Occurs(c, x)
  }

  ghost predicate OccursIn(nodes: seq<Node>, x: string) {
    exists c | c in nodes :: Occurs(c, x)
  }

  /** Some name of `names` occurs in the subtree. */
  ghost predicate Mentions(n: Node, names: set<string>) {
    exists x | x in names :: Occurs(n, x)
  }

  method MentionsInfluenced(n: Node, influenced: set<string>) returns (b: bool)
    ensures b <==> Mentions(n, influenced + UNTRUSTED_SOURCES)
  {
    hide UNTRUSTED_SOURCES;
    ghost var names := influenced + UNTRUSTED_SOURCES;
    var stack := [n];
    while stack != []
      invariant forall x :: OccursIn(stack, x) ==> Occurs(n, x)
      invariant forall x | x in names :: Occurs(n, x) ==> OccursIn(stack, x)
      decreases SizeAll(stack)
    {
      var current := Last(stack);
      PopShrinks(stack);
      if current.kind == Identifier && (current.text in influenced || current.text in UNTRUSTED_SOURCES) {
        assert Occurs(current, current.text);
        assert OccursIn(stack, current.text);
        return true;
      }
      ghost var before := stack;
      stack := Init(stack) + current.children;
      forall x | OccursIn(stack, x) ensures Occurs(n, x) {
        PushOccurs(before, x);
      }
      forall x | x in names && Occurs(n, x) ensures OccursIn(stack, x) {
        PopOccurs(before, x);
      }
    }
    return false;
  }

  lemma PushOccurs(stack: seq<Node>, x: string)
    requires stack != [] && OccursIn(Init(stack) + Last(stack).children, x)
    ensures OccursIn(stack, x)
  {
    var c :| c in Init(stack) + Last(stack).children && Occurs(c, x);
    if c in Init(stack) {
      assert c in stack;
    } else {
      assert Occurs(Last(stack), x) && Last(stack) in stack;
    }
  }

  lemma PopOccurs(stack: seq<Node>, x: string)
    requires stack != [] && OccursIn(stack, x)
    requires Last(stack).kind == Identifier ==> Last(stack).text != x
    ensures OccursIn(Init(stack) + Last(stack).children, x)
  {
    var c :| c in stack && Occurs(c, x);
    if c in Init(stack) {
      assert c in Init(stack) + Last(stack).children;
    } else {
      var d :| d in c.children && Occurs(d, x);
      assert d in Init(stack) + Last(stack).children;
    }
  }

  // --------------------------------------------------------- visiting order

  /** Nodes in the order a stack visits them: a node, then its children from the last. */
  function Visited(n: Node): seq<Node>
    decreases n, 1
  {
    [n] + VisitedStack(n.children)
  }

  function VisitedStack(stack: seq<Node>): seq<Node>
    decreases stack, 0
  {
    if stack == [] then [] else Visited(Last(stack)) + VisitedStack(Init(stack))
  }

  lemma {:induction false} VisitedConcat(a: seq<Node>, b: seq<Node>)
    ensures VisitedStack(a + b) == VisitedStack(b) + VisitedStack(a)
  {
    if b == [] {
      assert a + b == a;
    } else {
      assert Init(a + b) == a + Init(b) && Last(a + b) == Last(b);
      VisitedConcat(a, Init(b));
      Reassociate(Visited(Last(b)), VisitedStack(Init(b)), VisitedStack(a));
    }
  }

  method CollectNodes(body: Node) returns (nodes: seq<Node>)
    ensures nodes == Visited(body)
  {
    var stack := [body];
    nodes := [];
    assert Init([body]) == [];
    while stack != []
      invariant nodes + VisitedStack(stack) == Visited(body)
      decreases SizeAll(stack)
    {
      var current := Last(stack);
      PopShrinks(stack);
      VisitedConcat(Init(stack), current.children);
      Reassociate(nodes, [current], VisitedStack(current.children) + VisitedStack(Init(stack)));
      Reassociate([current], VisitedStack(current.children), VisitedStack(Init(stack)));
      nodes := nodes + [current];
      stack := Init(stack) + current.children;
    }
  }

  predicate StartsNoLater(a: Node, b: Node) {
    a.start <= b.start
  }

  function SortByStart(nodes: seq<Node>): seq<Node> {
    Sort(nodes, StartsNoLater)
  }

  /** The pass sees every node of the body once, in the order of their starts. */
  lemma VisitIsInOrder(body: Node)
    ensures Ordered(SortByStart(Visited(body)), StartsNoLater) &&
            multiset(SortByStart(Visited(body))) == multiset(Visited(body))
  {
    SortOrders(Visited(body), StartsNoLater);
  }

  // ------------------------------------------------------------------ flows

  /** A place where a value reaches a name: `target` is influenced when `value` mentions something that is. */
  datatype Flow = Flow(target: string, value: Node)

  /** Assignments, initialisers, and string builders writing their first argument. */
  function FlowOf(n: Node): Option<Flow> {
    match n.kind
    case AssignmentExpression =>
      var (target, value) := (ChildByField(n, Left), ChildByField(n, Right));
      if target.Some? && value.Some? then Some(Flow(target.value.text, value.value)) else None
    case InitDeclarator =>
      var (declarator, value) := (ChildByField(n, Declarator), ChildByField(n, ValueField));
      if declarator.Some? && value.Some? && DeclaredName(declarator.value).Some?
      then Some(Flow(DeclaredName(declarator.value).value, value.value)) else None
    case CallExpression =>
      var (callee, arguments) := (ChildByField(n, Function), ChildByField(n, Arguments));
      if callee.Some? && arguments.Some? && callee.value.text in STRING_BUILDERS &&
        NamedChildren(arguments.value.children) != []
      then Some(Flow(NamedChildren(arguments.value.children)[0].text, arguments.value)) else None
    case _ => None
  }

  function Flows(nodes: seq<Node>): seq<Flow> {
    if nodes == [] then []
    else Flows(Init(nodes)) + match FlowOf(Last(nodes)) case Some(f) => [f] case None => []
  }

  /** The flow takes effect when its value mentions a name of `s` or an untrusted source. */
  ghost predicate Fires(f: Flow, s: set<string>) {
    Mentions(f.value, s + UNTRUSTED_SOURCES)
  }

  /** The names influenced after the flows, in order. */
  ghost function Spread(flows: seq<Flow>, seeds: set<string>): set<string> {
    if flows == [] then seeds
    else
      var s := Spread(Init(flows), seeds);
      if Fires(Last(flows), s) then s + {Last(flows).target} else s
  }

  /** Declared names of the function's parameters. */
  function ParameterNames(function': Node): set<string> {
    match ChildByField(function', Declarator)
    case None => {}
    case Some(declarator) =>
      match ChildByField(declarator, Parameters)
      case None => {}
      case Some(parameters) => DeclaredNames(NamedChildren(parameters.children))
  }

  function DeclaredNames(parameters: seq<Node>): set<string> {
    if parameters == [] then {}
    else
      DeclaredNames(Init(parameters)) +
      match ChildByField(Last(parameters), Declarator)
      case None => {}
      case Some(d) => (match DeclaredName(d) case None => {} case Some(x) => {x})
  }

  ghost function Influenced(function': Node): set<string> {
    match ChildByField(function', Body)
    case None => ParameterNames(function')
    case Some(body) => Spread(Flows(SortByStart(Visited(body))), ParameterNames(function'))
  }

  method CollectParameters(function': Node) returns (influenced: set<string>)
    ensures influenced == ParameterNames(function')
  {
    influenced := {};
    var declarator := ChildByField(function', Declarator);
    if declarator.None? {
      return;
    }
    var list := ChildByField(declarator.value, Parameters);
    if list.None? {
      return;
    }
    var parameters := NamedChildren(list.value.children);
    for i := 0 to |parameters|
      invariant influenced == DeclaredNames(parameters[..i])
    {
      assert Init(parameters[..i + 1]) == parameters[..i];
      var name := FindDeclaredName(ChildByField(parameters[i], Declarator));
      if name.Some? {
        influenced := influenced + {name.value};
      }
    }
    assert parameters[..|parameters|] == parameters;
  }

  /** One more node extends what is influenced by its flow, if it is one and fires. */
  lemma SpreadStep(nodes: seq<Node>, i: nat, seeds: set<string>)
    requires i < |nodes|
    ensures var before := Spread(Flows(nodes[..i]), seeds);
            Spread(Flows(nodes[..i + 1]), seeds) ==
            match FlowOf(nodes[i])
            case None => before
            case Some(f) => if Fires(f, before) then before + {f.target} else before
  {
    hide FlowOf, Fires;
    assert Init(nodes[..i + 1]) == nodes[..i];
    if FlowOf(nodes[i]).Some? {
      assert Init(Flows(nodes[..i + 1])) == Flows(nodes[..i]);
    } else {
      assert Flows(nodes[..i + 1]) == Flows(nodes[..i]);
    }
  }

  lemma NothingSpreads(nodes: seq<Node>, seeds: set<string>)
    ensures Spread(Flows(nodes[..0]), seeds) == seeds
  {
    assert Flows(nodes[..0]) == [];
  }

  /** Every name in the function that carries a caller-chosen value. */
  method InfluencedNames(function': Node) returns (influenced: set<string>)
    ensures influenced == Influenced(function')
  {
    hide STRING_BUILDERS, UNTRUSTED_SOURCES, SortByStart, FlowOf, NamedChildren, ParameterNames, Flows, Mentions;
    influenced := CollectParameters(function');
    var body := ChildByField(function', Body);
    if body.None? {
      return;
    }
    ghost var seeds := influenced;
    var nodes := CollectNodes(body.value);
    nodes := SortByStart(nodes);
    NothingSpreads(nodes, seeds);
    for i := 0 to |nodes|
      invariant influenced == Spread(Flows(nodes[..i]), seeds)
    {
      var flow := FlowOf(nodes[i]);
      SpreadStep(nodes, i, seeds);
      if flow.Some? {
        var mentioned := MentionsInfluenced(flow.value.value, influenced);
        if mentioned {
          influenced := influenced + {flow.value.target};
        }
      }
    }
    assert nodes[..|nodes|] == nodes;
  }

  // ------------------------------------------------------------ reachability

  /**
   `path` lists positions, in increasing order, of flows that carry influence from
   a seed or an untrusted source to `x`: the first reads one, each later one reads
   what the one before it wrote, and the last writes `x`.
   */
  ghost predicate Carries(flows: seq<Flow>, seeds: set<string>, path: seq<nat>, x: string)
    decreases |path|
  {
    && path != [] && Last(path) < |flows| && flows[Last(path)].target == x
    && if |path| == 1 then Fires(flows[path[0]], seeds)
       else
         && path[|path| - 2] < Last(path)
         && Occurs(flows[Last(path)].value, flows[path[|path| - 2]].target)
         && Carries(flows, seeds, Init(path), flows[path[|path| - 2]].target)
  }

  ghost predicate Carried(flows: seq<Flow>, seeds: set<string>, x: string) {
    exists path :: Carries(flows, seeds, path, x)
  }

  lemma {:induction false} CarriesInLonger(flows: seq<Flow>, longer: seq<Flow>, seeds: set<string>, path: seq<nat>,
                                           x: string)
    requires flows <= longer && Carries(flows, seeds, path, x)
    ensures Carries(longer, seeds, path, x)
    decreases |path|
  {
    if |path| > 1 {
      CarriesInLonger(flows, longer, seeds, Init(path), flows[path[|path| - 2]].target);
    }
  }

  lemma {:induction false} CarriesInShorter(flows: seq<Flow>, k: nat, seeds: set<string>, path: seq<nat>, x: string)
    requires k <= |flows| && Carries(flows, seeds, path, x) && Last(path) < k
    ensures Carries(flows[..k], seeds, path, x)
    decreases |path|
  {
    if |path| > 1 {
      CarriesInShorter(flows, k, seeds, Init(path), flows[path[|path| - 2]].target);
    }
  }

  lemma {:induction false} SpreadIsCarried(flows: seq<Flow>, seeds: set<string>, x: string) returns (path: seq<nat>)
    requires x in Spread(flows, seeds) && x !in seeds
    ensures Carries(flows, seeds, path, x)
    decreases |flows|
  {
    hide UNTRUSTED_SOURCES;
    var before, f := Init(flows), Last(flows);
    var s := Spread(before, seeds);
    if x in s {
      path := SpreadIsCarried(before, seeds, x);
      CarriesInLonger(before, flows, seeds, path, x);
    } else {
      var y :| y in s + UNTRUSTED_SOURCES && Occurs(f.value, y);
      if y in seeds || y in UNTRUSTED_SOURCES {
        path := [|before|];
        assert Fires(f, seeds);
      } else {
        var p := SpreadIsCarried(before, seeds, y);
        CarriesInLonger(before, flows, seeds, p, y);
        path := p + [|before|];
        assert Init(path) == p;
      }
    }
  }

  lemma {:induction false} CarriedIsSpread(flows: seq<Flow>, seeds: set<string>, path: seq<nat>, x: string)
    requires Carries(flows, seeds, path, x)
    ensures x in Spread(flows, seeds)
    decreases |flows|, |path|
  {
    hide UNTRUSTED_SOURCES;
    var before, f := Init(flows), Last(flows);
    SpreadGrows(before, seeds);
    if Last(path) < |before| {
      CarriesInShorter(flows, |before|, seeds, path, x);
      CarriedIsSpread(before, seeds, path, x);
    } else if |path| > 1 {
      var y := flows[path[|path| - 2]].target;
      CarriesInShorter(flows, |before|, seeds, Init(path), y);
      CarriedIsSpread(before, seeds, Init(path), y);
      assert y in Spread(before, seeds) + UNTRUSTED_SOURCES;
    } else {
      MentionsMonotone(f.value, seeds + UNTRUSTED_SOURCES, Spread(before, seeds) + UNTRUSTED_SOURCES);
    }
  }

  lemma MentionsMonotone(n: Node, a: set<string>, b: set<string>)
    requires a <= b && Mentions(n, a)
    ensures Mentions(n, b)
  {
    var x :| x in a && Occurs(n, x);
    assert x in b;
  }

  lemma {:induction false} SpreadGrows(flows: seq<Flow>, seeds: set<string>)
    ensures seeds <= Spread(flows, seeds)
  {
    if flows != [] {
      SpreadGrows(Init(flows), seeds);
    }
  }

  /**
   A chain of flows in the function's body, at increasing positions, carries a parameter
   or an untrusted source to the name.
   */
  ghost predicate CarriedInBody(function': Node, name: string) {
    var body := ChildByField(function', Body);
    body.Some? && Carried(Flows(SortByStart(Visited(body.value))), ParameterNames(function'), name)
  }

  /**
   The forward pass is exact: a name is influenced if and only if it is a
   parameter or some chain of flows at increasing positions carries a parameter
   or an untrusted source to it.
   */
  lemma InfluencedIffCarried(function': Node, x: string)
    ensures x in Influenced(function') <==> x in ParameterNames(function') || CarriedInBody(function', x)
  {
    hide Carried, Spread, Flows, SortByStart, Visited, ParameterNames;
    var seeds, body := ParameterNames(function'), ChildByField(function', Body);
    if body.Some? {
      var flows := Flows(SortByStart(Visited(body.value)));
      SpreadIffCarried(flows, seeds, x);
    }
  }

  lemma SpreadIffCarried(flows: seq<Flow>, seeds: set<string>, x: string)
    ensures x in Spread(flows, seeds) <==> x in seeds || Carried(flows, seeds, x)
  {
    SpreadGrows(flows, seeds);
    if x in Spread(flows, seeds) && x !in seeds {
      var path := SpreadIsCarried(flows, seeds, x);
    }
    if Carried(flows, seeds, x) {
      var path :| Carries(flows, seeds, path, x);
      CarriedIsSpread(flows, seeds, path, x);
    }
  }

  /** More parameters never make a name less influenced. */
  lemma {:induction false} SpreadMonotone(flows: seq<Flow>, few: set<string>, many: set<string>)
    requires few <= many
    ensures Spread(flows, few) <= Spread(flows, many)
  {
    hide UNTRUSTED_SOURCES;
    if flows != [] {
      SpreadMonotone(Init(flows), few, many);
      if Fires(Last(flows), Spread(Init(flows), few)) {
        MentionsMonotone(Last(flows).value, Spread(Init(flows), few) + UNTRUSTED_SOURCES,
                         Spread(Init(flows), many) + UNTRUSTED_SOURCES);
      }
    }
  }

  /** `s` needs nothing added, in whatever order the flows are taken. */
  ghost predicate Closed(flows: seq<Flow>, s: set<string>) {
    forall f | f in flows :: Fires(f, s) ==> f.target in s
  }

  /**
   The pass never goes beyond the flow-insensitive analysis: any closed set that holds
   the parameters holds its result.
   */
  lemma {:induction false} SpreadWithinClosed(flows: seq<Flow>, seeds: set<string>, s: set<string>)
    requires seeds <= s && Closed(flows, s)
    ensures Spread(flows, seeds) <= s
  {
    hide UNTRUSTED_SOURCES;
    if flows != [] {
      var before, f := Init(flows), Last(flows);
      assert forall g | g in before :: g in flows;
      SpreadWithinClosed(before, seeds, s);
      if Fires(f, Spread(before, seeds)) {
        MentionsMonotone(f.value, Spread(before, seeds) + UNTRUSTED_SOURCES, s + UNTRUSTED_SOURCES);
        assert f in flows;
      }
    }
  }

  // ---------------------------------------------------------------- at a node

  /** The function definition around a node, or the node itself. */
  function EnclosingFunction(root: Node, p: Path): (r: Option<Node>)
    requires IsNode(root, p)
    ensures r.Some? ==> r.value.kind == FunctionDefinition
    decreases |p|
  {
    if At(root, p).kind == FunctionDefinition then Some(At(root, p))
    else if p == [] then None
    else
      ParentOf(root, p);
      EnclosingFunction(root, Init(p))
  }

  method FindEnclosingFunction(root: Node, p: Path) returns (r: Option<Node>)
    requires IsNode(root, p)
    ensures r == EnclosingFunction(root, p)
  {
    var current := p;
    while At(root, current).kind != FunctionDefinition
      invariant IsNode(root, current) && EnclosingFunction(root, current) == EnclosingFunction(root, p)
      decreases |current|
    {
      if current == [] {
        return None;
      }
      ParentOf(root, current);
      current := Init(current);
    }
    return Some(At(root, current));
  }

  method IsFunctionParameter(root: Node, p: Path, name: string) returns (b: bool)
    requires IsNode(root, p)
    ensures b <==> EnclosingFunction(root, p).Some? && name in ParameterNames(EnclosingFunction(root, p).value)
  {
    var function' := FindEnclosingFunction(root, p);
    if function'.None? {
      return false;
    }
    var declarator := ChildByField(function'.value, Declarator);
    if declarator.None? {
      return false;
    }
    var list := ChildByField(declarator.value, Parameters);
    if list.None? {
      return false;
    }
    var parameters := NamedChildren(list.value.children);
    for i := 0 to |parameters|
      invariant name !in DeclaredNames(parameters[..i])
    {
      assert Init(parameters[..i + 1]) == parameters[..i];
      var declared := FindDeclaredName(ChildByField(parameters[i], Declarator));
      if declared == Some(name) {
        DeclaredNamesGrow(parameters[..i + 1], parameters);
        return true;
      }
    }
    assert parameters[..|parameters|] == parameters;
    return false;
  }

  lemma {:induction false} DeclaredNamesGrow(few: seq<Node>, many: seq<Node>)
    requires few <= many
    ensures DeclaredNames(few) <= DeclaredNames(many)
    decreases |many|
  {
    if |few| < |many| {
      assert few <= Init(many);
      DeclaredNamesGrow(few, Init(many));
    } else {
      assert few == many;
    }
  }

  /**
   A name counts as attacker-influenced at a node exactly when it is an untrusted
   source, or the node is in a function and the name is one of its parameters or
   is reached by such a chain in its body.
   */
  method IsAttackerInfluenced(root: Node, p: Path, name: string) returns (b: bool)
    requires IsNode(root, p)
    ensures b <==>
            || name in UNTRUSTED_SOURCES
            || (EnclosingFunction(root, p).Some? &&
                (name in ParameterNames(EnclosingFunction(root, p).value) ||
                  CarriedInBody(EnclosingFunction(root, p).value, name)))
  {
    hide UNTRUSTED_SOURCES, ParameterNames, Carried, Influenced;
    if name in UNTRUSTED_SOURCES {
      return true;
    }
    b := IsFunctionParameter(root, p, name);
    if !b {
      var function' := FindEnclosingFunction(root, p);
      if function'.Some? {
        var influenced := InfluencedNames(function'.value);
        InfluencedIffCarried(function'.value, name);
        b := name in influenced;
      }
    }
  }
}
