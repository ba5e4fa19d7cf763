/** A syntax tree as the analyses see it: kinds, text, start positions, children, and named fields. */
module Ast {
  import opened Common

  datatype Kind =
    | Identifier
    | AssignmentExpression
    | InitDeclarator
    | ReferenceDeclarator
    | CallExpression
    | PointerExpression
    | UpdateExpression
    | ParenthesizedExpression
    | FieldExpression
    | AsmOutput
    | CompoundStatement
    | FunctionDefinition
    | ControlFlow
    | OtherKind

  datatype Field = Left | Right | Declarator | ValueField | Function | Arguments | Argument | Operator | Parameters
    | Body

  /** `fields` maps a field to the index of the child it names; `named` tells nodes from bare tokens. */
  datatype Node = Node(kind: Kind, named: bool, start: nat, text: string, children: seq<Node>, fields: map<Field, nat>)

  function ChildByField(n: Node, f: Field): (c: Option<Node>)
    ensures c.Some? ==> c.value in n.children
  {
    if f in n.fields && n.fields[f] < |n.children| then Some(n.children[n.fields[f]]) else None
  }

  function NamedChildren(nodes: seq<Node>): (r: seq<Node>)
    ensures forall n | n in r :: n in nodes
  {
    if nodes == [] then []
    else (if nodes[0].named then [nodes[0]] else []) + NamedChildren(nodes[1..])
  }

  lemma {:induction false} NamedChildrenIff(nodes: seq<Node>, c: Node)
    ensures c in NamedChildren(nodes) <==> c in nodes && c.named
  {
    if nodes != [] {
      NamedChildrenIff(nodes[1..], c);
    }
  }

  function Size(n: Node): nat {
    1 + SizeAll(n.children)
  }

  function SizeAll(ns: seq<Node>): nat {
    if ns == [] then 0 else Size(ns[0]) + SizeAll(ns[1..])
  }

  lemma {:induction false} SizeAllConcat(a: seq<Node>, b: seq<Node>)
    ensures SizeAll(a + b) == SizeAll(a) + SizeAll(b)
  {
    if a == [] {
      assert a + b == b;
    } else {
      assert (a + b)[1..] == a[1..] + b;
      SizeAllConcat(a[1..], b);
    }
  }

  /** Replacing the top of a stack by its children makes the stack smaller. */
  lemma PopShrinks(stack: seq<Node>)
    requires stack != []
    ensures SizeAll(Init(stack) + Last(stack).children) < SizeAll(stack)
  {
    SizeAllConcat(Init(stack), Last(stack).children);
    SizeAllConcat(Init(stack), [Last(stack)]);
    assert Init(stack) + [Last(stack)] == stack;
    assert [Last(stack)][1..] == [];
  }

  /** The name a declarator declares, through any pointer or array layers. */
  function DeclaredName(n: Node): Option<string> {
    if n.kind == Identifier then Some(n.text)
    else
      match ChildByField(n, Declarator)
      case None => None
      case Some(inner) => DeclaredName(inner)
  }

  method FindDeclaredName(n: Option<Node>) returns (name: Option<string>)
    ensures name == if n.None? then None else DeclaredName(n.value)
  {
    if n.None? {
      return None;
    }
    var current := n.value;
    while current.kind != Identifier
      invariant DeclaredName(current) == DeclaredName(n.value)
      decreases current
    {
      var inner := ChildByField(current, Declarator);
      if inner.None? {
        return None;
      }
      current := inner.value;
    }
    return Some(current.text);
  }

  /** The text of a bare identifier. */
  function Name(n: Option<Node>): Option<string> {
    if n.Some? && n.value.kind == Identifier then Some(n.value.text) else None
  }
}
