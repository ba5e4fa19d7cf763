/**
 What counts as a kill between two sites, and what a statement that is not a
 kill may do to the variable when it runs.
 */
module KillPass {
  import opened Common
  import opened Ast

  const ADDRESS_OF := "&"
  const MEMBER_OF := "."

  /** Some argument of the call is the bare identifier `x`. */
  predicate PassesName(arguments: Node, x: string) {
    exists a | a in NamedChildren(arguments.children) :: Name(Some(a)) == Some(x)
  }

  predicate TakesAddress(n: Node) {
    n.children != [] && n.children[0].text == ADDRESS_OF
  }

  predicate Declares(n: Node, x: string) {
    var d := ChildByField(n, Declarator);
    d.Some? && DeclaredName(d.value) == Some(x)
  }

  /** The node by itself counts against the variable. */
  predicate NodeKills(n: Node, x: string) {
    match n.kind
    case ControlFlow => true
    case AssignmentExpression => Name(ChildByField(n, Left)) == Some(x)
    case InitDeclarator => Declares(n, x)
    case PointerExpression => TakesAddress(n) && Name(ChildByField(n, Argument)) == Some(x)
    case CallExpression => ChildByField(n, Arguments).Some? && PassesName(ChildByField(n, Arguments).value, x)
    case _ => false
  }

  /** A call in the subtree is passed the bare name `x`. */
  predicate Passed(n: Node, x: string) {
    NodePasses(n, x) || exists c | c in n.children :: Passed(c, x)
  }

  predicate NodePasses(n: Node, x: string) {
    && n.kind == CallExpression && ChildByField(n, Arguments).Some?
    && exists a | a in ChildByField(n, Arguments).value.children :: a.named && a.kind == Identifier && a.text == x
  }

  predicate SomePassed(nodes: seq<Node>, x: string) {
    exists n | n in nodes :: Passed(n, x)
  }

  lemma CallKillsIff(n: Node, x: string)
    requires n.kind == CallExpression
    ensures NodeKills(n, x) <==> NodePasses(n, x)
  {
    if ChildByField(n, Arguments).Some? {
      var children := ChildByField(n, Arguments).value.children;
      forall a ensures a in NamedChildren(children) <==> a in children && a.named {
        NamedChildrenIff(children, a);
      }
    }
  }

  predicate IsName(n: Option<Node>, x: string) {
    n.Some? && n.value.kind == Identifier && n.value.text == x
  }

  /** The five cases, one by one. */
  lemma NodeKillsIff(n: Node, x: string)
    ensures NodeKills(n, x)
            <==> || n.kind == ControlFlow
                 || (n.kind == AssignmentExpression && IsName(ChildByField(n, Left), x))
                 || (n.kind == InitDeclarator && Declares(n, x))
                 || (n.kind == PointerExpression && n.children != [] && n.children[0].text == "&"
                     && IsName(ChildByField(n, Argument), x))
                 || (n.kind == CallExpression && NodePasses(n, x))
  {
    if n.kind == CallExpression {
      CallKillsIff(n, x);
    }
  }

  /** Some node of the statement counts against the variable. */
  predicate Kills(n: Node, x: string) {
    NodeKills(n, x) || exists c | c in n.children :: Kills(c, x)
  }

  predicate SomeKills(nodes: seq<Node>, x: string) {
    exists n | n in nodes :: Kills(n, x)
  }

  method NodeIsKill(n: Node, x: string) returns (b: bool)
    ensures b == NodeKills(n, x)
  {
    match n.kind {
      case ControlFlow => b := true;
      case AssignmentExpression => b := Name(ChildByField(n, Left)) == Some(x);
      case InitDeclarator =>
        var declared := FindDeclaredName(ChildByField(n, Declarator));
        b := declared == Some(x);
      case PointerExpression => b := TakesAddress(n) && Name(ChildByField(n, Argument)) == Some(x);
      case CallExpression =>
        var arguments := ChildByField(n, Arguments);
        if arguments.None? {
          return false;
        }
        var named := NamedChildren(arguments.value.children);
        for i := 0 to |named|
          invariant forall j | 0 <= j < i :: Name(Some(named[j])) != Some(x)
        {
          if Name(Some(named[i])) == Some(x) {
            return true;
          }
        }
        b := false;
      case _ => b := false;
    }
  }

  /** The stack walk finds a killing node exactly when the statement holds one. */
  method StatementKills(statement: Node, x: string) returns (b: bool)
    ensures b == Kills(statement, x)
  {
    var stack := [statement];
    while stack != []
      invariant SomeKills(stack, x) <==> Kills(statement, x)
      decreases SizeAll(stack)
    {
      var n := Last(stack);
      PopShrinks(stack);
      var kill := NodeIsKill(n, x);
      if kill {
        assert Kills(n, x) && n in stack;
        return true;
      }
      PopKills(stack, x);
      stack := Init(stack) + n.children;
    }
    return false;
  }

  lemma PopKills(stack: seq<Node>, x: string)
    requires stack != [] && !NodeKills(Last(stack), x)
    ensures SomeKills(Init(stack) + Last(stack).children, x) <==> SomeKills(stack, x)
  {
    var n, rest := Last(stack), Init(stack) + Last(stack).children;
    if SomeKills(stack, x) {
      var c :| c in stack && Kills(c, x);
      if c in Init(stack) {
        assert c in rest;
      } else {
        var d :| d in n.children && Kills(d, x);
        assert d in rest;
      }
    }
    if SomeKills(rest, x) {
      var c :| c in rest && Kills(c, x);
      if c in Init(stack) {
        assert c in stack;
      } else {
        assert Kills(n, x) && n in stack;
      }
    }
  }

  method IsKilled(between: seq<Node>, x: string) returns (b: bool)
    ensures b == SomeKills(between, x)
  {
    for i := 0 to |between|
      invariant forall j | 0 <= j < i :: !Kills(between[j], x)
    {
      b := StatementKills(between[i], x);
      if b {
        assert between[i] in between;
        return;
      }
    }
    return false;
  }

  // --------------------------------------------------- what running may do

  /** One variable while statements run: its value, and whether its address has escaped. */
  datatype Var = Var(value: int, exposed: bool)

  /** The expression is `x`, in parentheses or not, or a member of it. */
  predicate Denotes(n: Node, x: string) {
    match n.kind
    case Identifier => n.text == x
    case ParenthesizedExpression => exists c | c in n.children :: c.named && Denotes(c, x)
    case FieldExpression =>
      && ChildByField(n, Operator).Some? && ChildByField(n, Operator).value.text == MEMBER_OF
      && ChildByField(n, Argument).Some? && Denotes(ChildByField(n, Argument).value, x)
    case _ => false
  }

  predicate FieldDenotes(n: Node, f: Field, x: string) {
    var c := ChildByField(n, f);
    c.Some? && Denotes(c.value, x)
  }

  /** A C++ reference is initialised with `x`, as in `auto &r = x;`. */
  predicate BindsReference(n: Node, x: string) {
    && ChildByField(n, Declarator).Some? && ChildByField(n, Declarator).value.kind == ReferenceDeclarator
    && FieldDenotes(n, ValueField, x)
  }

  /**
   What the node itself may do to `x` after its children have run. A write to
   another lvalue and a call may change `x` only through an escaped address; a
   reference bound to `x` lets its address escape, and inline assembly writes
   its output operands.
   */
  predicate Effect(n: Node, x: string, s: Var, t: Var) {
    match n.kind
    case ControlFlow => true
    case AssignmentExpression => t.exposed == s.exposed && (FieldDenotes(n, Left, x) || s.exposed || t == s)
    case UpdateExpression => t.exposed == s.exposed && (FieldDenotes(n, Argument, x) || s.exposed || t == s)
    case InitDeclarator => t.exposed == (s.exposed || BindsReference(n, x)) && (Declares(n, x) || t.value == s.value)
    case AsmOutput => t.exposed == s.exposed && (FieldDenotes(n, ValueField, x) || s.exposed || t == s)
    case PointerExpression => t.value == s.value &&
      t.exposed == (s.exposed || (TakesAddress(n) && FieldDenotes(n, Argument, x)))
    case CallExpression => t.exposed == s.exposed && (s.exposed || t == s)
    case _ => t == s
  }

  /** Running the subtree, children first and in order, may take the variable from `s` to `t`. */
  ghost predicate Runs(n: Node, x: string, s: Var, t: Var)
    decreases n, 1
  {
    exists m :: RunsAll(n.children, x, s, m) && Effect(n, x, m, t)
  }

  ghost predicate RunsAll(nodes: seq<Node>, x: string, s: Var, t: Var)
    decreases nodes, 0
  {
    if nodes == [] then t == s
    else exists m :: Runs(nodes[0], x, s, m) && RunsAll(nodes[1..], x, m, t)
  }

  /**
   What the kill pass has no case for: `x++`, writing or exposing `x` through an
   lvalue that is not the bare name, binding a reference to it, and naming it as an
   output of inline assembly.
   */
  predicate NodeMissed(n: Node, x: string) {
    match n.kind
    case UpdateExpression => FieldDenotes(n, Argument, x)
    case AssignmentExpression => FieldDenotes(n, Left, x) && ChildByField(n, Left).value.kind != Identifier
    case PointerExpression => TakesAddress(n) && FieldDenotes(n, Argument, x) &&
      ChildByField(n, Argument).value.kind != Identifier
    case InitDeclarator => BindsReference(n, x)
    case AsmOutput => FieldDenotes(n, ValueField, x)
    case _ => false
  }

  predicate Missed(n: Node, x: string) {
    NodeMissed(n, x) || exists c | c in n.children :: Missed(c, x)
  }

  predicate SomeMissed(nodes: seq<Node>, x: string) {
    exists n | n in nodes :: Missed(n, x)
  }

  lemma {:induction false} Harmless(n: Node, x: string, s: Var, t: Var)
    requires !Kills(n, x) && !Missed(n, x) && !s.exposed && Runs(n, x, s, t)
    ensures t == s
    decreases n, 1
  {
    var m :| RunsAll(n.children, x, s, m) && Effect(n, x, m, t);
    HarmlessAll(n.children, x, s, m);
  }

  lemma {:induction false} HarmlessAll(nodes: seq<Node>, x: string, s: Var, t: Var)
    requires !SomeKills(nodes, x) && !SomeMissed(nodes, x) && !s.exposed && RunsAll(nodes, x, s, t)
    ensures t == s
    decreases nodes, 0
  {
    if nodes != [] {
      var m :| Runs(nodes[0], x, s, m) && RunsAll(nodes[1..], x, m, t);
      Harmless(nodes[0], x, s, m);
      HarmlessAll(nodes[1..], x, m, t);
    }
  }

  /** From `s` to `t` nothing went back: the value did not drop and an escaped address stayed escaped. */
  predicate AtLeast(s: Var, t: Var) {
    s.value <= t.value && (s.exposed ==> t.exposed)
  }

  /** Passing the variable to a call always counts against it. */
  lemma {:induction false} PassedKills(n: Node, x: string)
    requires Passed(n, x)
    ensures Kills(n, x)
  {
    if NodePasses(n, x) {
      CallKillsIff(n, x);
    } else {
      var c :| c in n.children && Passed(c, x);
      PassedKills(c, x);
    }
  }

  /** The node by itself may move the variable: it was missed, or it counts against it and is not a call. */
  predicate Moves(n: Node, x: string) {
    NodeMissed(n, x) || (NodeKills(n, x) && n.kind != CallExpression)
  }

  /** Where a node that may move an unexposed variable can take it. */
  function Moved(n: Node, x: string, s: Var): Var {
    match n.kind
    case PointerExpression => s.(exposed := true)
    case InitDeclarator => Var(s.value + (if Declares(n, x) then 1 else 0), s.exposed || BindsReference(n, x))
    case _ => s.(value := s.value + 1)
  }

  lemma MovedIsAnEffect(n: Node, x: string, s: Var)
    requires Moves(n, x)
    ensures Effect(n, x, s, Moved(n, x, s)) && AtLeast(s, Moved(n, x, s)) && (!s.exposed ==> Moved(n, x, s) != s)
  {
  }

  /** Every node has some effect. */
  lemma SomeEffect(n: Node, x: string, s: Var) returns (t: Var)
    ensures Effect(n, x, s, t) && AtLeast(s, t)
  {
    t := if (n.kind == PointerExpression && TakesAddress(n) && FieldDenotes(n, Argument, x)) ||
            (n.kind == InitDeclarator && BindsReference(n, x)) then s.(exposed := true) else s;
  }

  /** Some node of the subtree may move the variable. */
  predicate Stirs(n: Node, x: string) {
    Moves(n, x) || exists c | c in n.children :: Stirs(c, x)
  }

  predicate SomeStirs(nodes: seq<Node>, x: string) {
    exists n | n in nodes :: Stirs(n, x)
  }

  /** What counts against the variable or was missed, calls that are passed it aside, is what may move it. */
  lemma {:induction false} StirsIff(n: Node, x: string)
    requires !Passed(n, x)
    ensures Stirs(n, x) <==> Kills(n, x) || Missed(n, x)
  {
    if n.kind == CallExpression {
      CallKillsIff(n, x);
    }
    forall c | c in n.children ensures Stirs(c, x) <==> Kills(c, x) || Missed(c, x) {
      StirsIff(c, x);
    }
  }

  /** Every subtree has a run, and one that moves the variable when one of its nodes may. */
  lemma {:induction false} SomeRun(n: Node, x: string, s: Var) returns (t: Var)
    ensures Runs(n, x, s, t) && AtLeast(s, t) && (Stirs(n, x) && !s.exposed ==> t != s)
    decreases n, 1
  {
    hide Effect, Moves, Moved;
    var m := SomeRunOfAll(n.children, x, s);
    if Moves(n, x) {
      MovedIsAnEffect(n, x, m);
      t := Moved(n, x, m);
    } else {
      t := SomeEffect(n, x, m);
    }
  }

  lemma {:induction false} SomeRunOfAll(nodes: seq<Node>, x: string, s: Var) returns (t: Var)
    ensures RunsAll(nodes, x, s, t) && AtLeast(s, t) && (SomeStirs(nodes, x) && !s.exposed ==> t != s)
    decreases nodes, 0
  {
    if nodes == [] {
      t := s;
    } else {
      var m := SomeRun(nodes[0], x, s);
      t := SomeRunOfAll(nodes[1..], x, m);
    }
  }

  /** Every run of the statements leaves an unexposed variable as it was, and unexposed. */
  ghost predicate KeepsVariable(nodes: seq<Node>, x: string) {
    forall s: Var, t: Var :: !s.exposed && RunsAll(nodes, x, s, t) ==> t == s
  }

  /**
   The kill pass is exact but for the forms it misses: when no call is passed the variable, statements keep
   it in every run if and only if none of them counts against it and none holds a missed node. So a harmless
   statement never counts against the variable.
   */
  lemma KeptIff(between: seq<Node>, x: string)
    requires !SomePassed(between, x)
    ensures KeepsVariable(between, x) <==> !SomeKills(between, x) && !SomeMissed(between, x)
  {
    hide Kills, Missed, Stirs, Passed;
    forall n | n in between ensures Stirs(n, x) <==> Kills(n, x) || Missed(n, x) {
      StirsIff(n, x);
    }
    if SomeStirs(between, x) {
      var t := SomeRunOfAll(between, x, Var(0, false));
    } else {
      forall s: Var, t: Var | !s.exposed && RunsAll(between, x, s, t) ensures t == s {
        HarmlessAll(between, x, s, t);
      }
    }
  }

  /** A call that is passed the variable counts against it, whatever it does. */
  lemma PassingKills(between: seq<Node>, x: string)
    requires SomePassed(between, x)
    ensures SomeKills(between, x)
  {
    var n :| n in between && Passed(n, x);
    PassedKills(n, x);
  }

  /**
   How far the kill pass can be trusted: statements it lets through keep the
   variable in every run if and only if none of them holds a missed node.
   */
  lemma UnkilledKeepsIff(between: seq<Node>, x: string)
    requires !SomeKills(between, x)
    ensures KeepsVariable(between, x) <==> !SomeMissed(between, x)
  {
    hide SomePassed, SomeKills, SomeMissed;
    if SomePassed(between, x) {
      PassingKills(between, x);
    }
    KeptIff(between, x);
  }

  /** `x++;` is let through, although it changes `x`. */
  lemma IncrementIsNotAKill(x: string)
    ensures var id := Node(Identifier, true, 0, x, [], map[]);
            var n := Node(UpdateExpression, true, 0, x + "++", [id], map[Argument := 0]);
            !SomeKills([n], x) && !KeepsVariable([n], x)
  {
    var id := Node(Identifier, true, 0, x, [], map[]);
    var n := Node(UpdateExpression, true, 0, x + "++", [id], map[Argument := 0]);
    assert !Kills(id, x);
    assert !Kills(n, x);
    assert ChildByField(n, Argument) == Some(id);
    assert Denotes(id, x);
    assert Missed(n, x) && n in [n];
    UnkilledKeepsIff([n], x);
  }
}
