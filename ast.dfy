/** The abstract syntax tree shared by the checker, the evaluator and the
    generator. Every Java node class becomes a constructor; a node that the
    passes can annotate with an error carries an `id` that stands for the Java
    object's identity. */
module Ast {
  import opened Wrappers
  import opened Ints

  type NodeId = nat

  /** The checker's type domain (`ExpressionType`). */
  datatype ExpressionType = Pixel | Percentage | Color | Scalar | Bool | Undefined

  datatype Literal =
    | PixelLiteral(value: Int32)
    | PercentageLiteral(value: Int32)
    | ColorLiteral(hex: string)
    | ScalarLiteral(value: Int32)
    | BoolLiteral(truth: bool)

  /** Selectors keep the text they were built from (leading `.` or `#` included). */
  datatype Selector =
    | ClassSelector(text: string)
    | IdSelector(text: string)
    | TagSelector(text: string)

  /** A node of a kind that is not an expression, left where an expression was
      expected: the listener can push these onto its expression stack. */
  datatype NonExpression = PropertyName(name: string) | SelectorNode(selector: Selector)

  datatype Expression =
    | Lit(literal: Literal)
    | VariableReference(id: NodeId, name: string)
    | AddOperation(lhs: Expression, rhs: Expression)
    | SubtractOperation(lhs: Expression, rhs: Expression)
    | MultiplyOperation(id: NodeId, lhs: Expression, rhs: Expression)
    | Other(node: NonExpression)

  /** The nodes that occur in a body list. A field the Java class may leave null is an Option. */
  datatype Node =
    | Stylerule(selectors: seq<Selector>, body: seq<Node>)
    | Declaration(id: NodeId, property: Option<string>, expression: Option<Expression>)
    | VariableAssignment(id: NodeId, name: Option<string>, expression: Option<Expression>)
    | IfClause(id: NodeId, condition: Option<Expression>, body: seq<Node>, elseClause: Option<ElseClause>)

  datatype ElseClause = ElseClause(body: seq<Node>)

  datatype Stylesheet = Stylesheet(body: seq<Node>)

  /** What `setError` attaches to a node; the wording of the Java messages is not modelled. */
  datatype SemanticError =
    | MisplacedIf
    | ConditionNotBool(found: ExpressionType)
    | UndefinedVariable(variable: string)
    | PixelTimesPixel
    | UndefinedAssignment(variableName: Option<string>)
    | UndefinedDeclaration(propertyName: Option<string>)
    | MissingProperty
    | RequiresColor(colorProperty: string)
    | RequiresSize(sizeProperty: string)
    | PropertyNotAllowed(disallowed: string)

  /** The error annotations of a tree, by node. */
  type ErrorMap = map<NodeId, SemanticError>

  /** The error a node carries, if any (`getError()`). */
  function ErrorAt(errors: ErrorMap, id: NodeId): Option<SemanticError> {
    if id in errors then Some(errors[id]) else None
  }

  /** Two error annotations that differ at most on the nodes `ids`. */
  ghost predicate AgreeOutside(a: ErrorMap, b: ErrorMap, ids: set<NodeId>) {
    forall k :: k !in ids ==> ErrorAt(a, k) == ErrorAt(b, k)
  }

  /** The `AST` object both passes receive: its root may be missing, and its
      nodes' error annotations live beside the tree. */
  class AST {
    var root: Option<Stylesheet>
    var errors: ErrorMap

    constructor (root: Option<Stylesheet>)
      ensures this.root == root && errors == map[]
    {
      this.root := root;
      errors := map[];
    }
  }

  /** Number of statement nodes in a subtree (expressions are not counted):
      the measure that shrinks when an if-clause is replaced by one of its bodies. */
  function NodeSize(n: Node): (size: nat)
    decreases n, 1
    ensures size >= 1
  {
    match n
    case Stylerule(_, body) => 1 + ListSize(body)
    case Declaration(_, _, _) => 1
    case VariableAssignment(_, _, _) => 1
    case IfClause(_, _, body, elseClause) =>
      1 + ListSize(body) + (match elseClause case Some(e) => ListSize(e.body) case None => 0)
  }

  function ListSize(ns: seq<Node>): nat
    decreases ns, 0
  {
    if ns == [] then 0 else NodeSize(ns[0]) + ListSize(ns[1..])
  }

  lemma {:induction false} ListSizeAppend(a: seq<Node>, b: seq<Node>)
    ensures ListSize(a + b) == ListSize(a) + ListSize(b)
  {
    if a == [] {
      assert a + b == b;
    } else {
      assert (a + b)[1..] == a[1..] + b;
      ListSizeAppend(a[1..], b);
    }
  }

  lemma {:induction false} ElementSize(ns: seq<Node>, i: nat)
    requires i < |ns|
    ensures NodeSize(ns[i]) <= ListSize(ns)
    ensures ListSize(ns[i..]) == NodeSize(ns[i]) + ListSize(ns[i + 1..])
  {
    if i > 0 {
      assert ns[1..][i - 1..] == ns[i..];
      assert ns[1..][i..] == ns[i + 1..];
      ElementSize(ns[1..], i - 1);
    }
  }

  function ExpressionSize(e: Expression): nat {
    match e
    case AddOperation(l, r) => 1 + ExpressionSize(l) + ExpressionSize(r)
    case SubtractOperation(l, r) => 1 + ExpressionSize(l) + ExpressionSize(r)
    case MultiplyOperation(_, l, r) => 1 + ExpressionSize(l) + ExpressionSize(r)
    case _ => 1
  }

  function OptionSize(e: Option<Expression>): nat {
    match e
    case Some(x) => ExpressionSize(x)
    case None => 0
  }

  /** The ids of the nodes of an expression that can carry an error. */
  function ExpressionIds(e: Expression): set<NodeId> {
    match e
    case VariableReference(id, _) => {id}
    case AddOperation(l, r) => ExpressionIds(l) + ExpressionIds(r)
    case SubtractOperation(l, r) => ExpressionIds(l) + ExpressionIds(r)
    case MultiplyOperation(id, l, r) => {id} + ExpressionIds(l) + ExpressionIds(r)
    case _ => {}
  }

  function OptionIds(e: Option<Expression>): set<NodeId> {
    match e
    case Some(x) => ExpressionIds(x)
    case None => {}
  }

  /** The ids of every node in a subtree that can carry an error. */
  function NodeIds(n: Node): set<NodeId>
    decreases n, 1
  {
    match n
    case Stylerule(_, body) => ListIds(body)
    case Declaration(id, _, e) => {id} + OptionIds(e)
    case VariableAssignment(id, _, e) => {id} + OptionIds(e)
    case IfClause(id, c, body, elseClause) =>
      {id} + OptionIds(c) + ListIds(body) + (match elseClause case Some(e) => ListIds(e.body) case None => {})
  }

  function ListIds(ns: seq<Node>): set<NodeId>
    decreases ns, 0
  {
    if ns == [] then {} else NodeIds(ns[0]) + ListIds(ns[1..])
  }
}
