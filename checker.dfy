/** The type checker (`Checker`): infers a type for every expression bottom
    up, keeps a chain of type scopes, restricts declarations to an allow-list
    of properties, and attaches errors to nodes without changing the tree.
    The pure functions first state what `check` computes; the class below
    computes it the way the source does, over a `HANLinkedList` of frames. */
module Checking {
  import opened Wrappers
  import opened Strings
  import opened Ast
  import opened Scopes
  import Datastructures

  type TypeChain = Chain<ExpressionType>

  function LiteralType(lit: Literal): ExpressionType {
    match lit
    case PixelLiteral(_) => Pixel
    case PercentageLiteral(_) => Percentage
    case ColorLiteral(_) => Color
    case ScalarLiteral(_) => Scalar
    case BoolLiteral(_) => Bool
  }

  /** The rule of Add and Subtract: two operands of one defined type give that
      type (Bool + Bool and Color + Color included); anything else is Undefined. */
  function SameTypeRule(left: ExpressionType, right: ExpressionType): (t: ExpressionType)
    ensures t != Undefined <==> left == right && left != Undefined
    ensures t != Undefined ==> t == left
  {
    if left == Undefined || right == Undefined then Undefined
    else if left == right then left
    else Undefined
  }

  /** The rule of Multiply: a Scalar factor keeps a Pixel a Pixel, two Scalars
      give a Scalar, and every other pair is Undefined. */
  function MultiplyRule(left: ExpressionType, right: ExpressionType): (t: ExpressionType)
    ensures t == Pixel <==> (left == Scalar && right == Pixel) || (left == Pixel && right == Scalar)
    ensures t == Scalar <==> left == Scalar && right == Scalar
    ensures t in {Pixel, Scalar, Undefined}
  {
    if left == Undefined || right == Undefined then Undefined
    else if (left == Scalar && right == Pixel) || (left == Pixel && right == Scalar) then Pixel
    else if left == Scalar && right == Scalar then Scalar
    else Undefined
  }

  /** The type `inferExpressionType` gives an expression under a chain of scopes. */
  function TypeOf(e: Expression, chain: TypeChain): ExpressionType {
    match e
    case Lit(lit) => LiteralType(lit)
    case VariableReference(_, name) =>
      (match Lookup(chain, name) case Some(t) => t case None => Undefined)
    case AddOperation(l, r) => SameTypeRule(TypeOf(l, chain), TypeOf(r, chain))
    case SubtractOperation(l, r) => SameTypeRule(TypeOf(l, chain), TypeOf(r, chain))
    case MultiplyOperation(_, l, r) => MultiplyRule(TypeOf(l, chain), TypeOf(r, chain))
    case Other(_) => Undefined
  }

  /** A missing (null) expression is Undefined. */
  function TypeOfOption(e: Option<Expression>, chain: TypeChain): ExpressionType {
    match e
    case Some(x) => TypeOf(x, chain)
    case None => Undefined
  }

  /** The errors `inferExpressionType` attaches on the way: an unbound
      reference gets UndefinedVariable, a Pixel-by-Pixel multiplication gets
      PixelTimesPixel; the left operand is visited before the right and an
      operation after its operands. */
  function ExpressionErrors(e: Expression, chain: TypeChain, errors: ErrorMap): ErrorMap {
    match e
    case VariableReference(id, name) =>
      if Lookup(chain, name).None? then errors[id := UndefinedVariable(name)] else errors
    case AddOperation(l, r) => ExpressionErrors(r, chain, ExpressionErrors(l, chain, errors))
    case SubtractOperation(l, r) => ExpressionErrors(r, chain, ExpressionErrors(l, chain, errors))
    case MultiplyOperation(id, l, r) =>
      var inner := ExpressionErrors(r, chain, ExpressionErrors(l, chain, errors));
      if TypeOf(l, chain) == Pixel && TypeOf(r, chain) == Pixel then inner[id := PixelTimesPixel] else inner
    case _ => errors
  }

  function OptionErrors(e: Option<Expression>, chain: TypeChain, errors: ErrorMap): ErrorMap {
    match e
    case Some(x) => ExpressionErrors(x, chain, errors)
    case None => errors
  }

  predicate IsColorProperty(p: string) {
    ToLower(p) == "color" || ToLower(p) == "background-color"
  }

  predicate IsSizeProperty(p: string) {
    ToLower(p) == "width" || ToLower(p) == "height"
  }

  /** The error `checkDeclaration` attaches, if any, given the property name
      and the inferred type of the expression. */
  function DeclarationVerdict(property: Option<string>, t: ExpressionType): (r: Option<SemanticError>)
    ensures r.None? <==> (t != Undefined && property.Some?
      && ((IsColorProperty(property.value) && t == Color)
          || (IsSizeProperty(property.value) && (t == Pixel || t == Percentage))))
    ensures t == Undefined ==> r == Some(UndefinedDeclaration(property))
    ensures t != Undefined && property.Some? && !IsColorProperty(property.value) && !IsSizeProperty(property.value)
      ==> r == Some(PropertyNotAllowed(property.value))
    ensures r.Some? && r.value.PropertyNotAllowed? ==> property.Some? && !IsColorProperty(property.value) && !IsSizeProperty(property.value)
  {
    if t == Undefined then Some(UndefinedDeclaration(property))
    else match property
      case None => Some(MissingProperty)
      case Some(p) =>
        var normalized := ToLower(p);
        if normalized == "color" || normalized == "background-color" then
          (if t == Color then None else Some(RequiresColor(p)))
        else if normalized == "width" || normalized == "height" then
          (if t == Pixel || t == Percentage then None else Some(RequiresSize(p)))
        else Some(PropertyNotAllowed(p))
  }

  /** What a pass of the checker carries from node to node. */
  datatype CheckState = CheckState(chain: TypeChain, errors: ErrorMap)

  function SetError(s: CheckState, id: NodeId, e: SemanticError): CheckState {
    s.(errors := s.errors[id := e])
  }

  /** `checkNode` on one node. */
  function NodeEffect(n: Node, s: CheckState): CheckState
    decreases n, 2
  {
    match n
    case VariableAssignment(id, name, expression) =>
      var t := TypeOfOption(expression, s.chain);
      var errors := OptionErrors(expression, s.chain, s.errors);
      var errors' := if t == Undefined then errors[id := UndefinedAssignment(name)] else errors;
      var chain' := if name.Some? then BindInnermost(s.chain, name.value, t) else s.chain;
      CheckState(chain', errors')
    case Stylerule(_, body) =>
      ScopedEffect(body, s)
    case Declaration(id, property, expression) =>
      var t := TypeOfOption(expression, s.chain);
      var errors := OptionErrors(expression, s.chain, s.errors);
      CheckState(s.chain, match DeclarationVerdict(property, t) case Some(err) => errors[id := err] case None => errors)
    case IfClause(_, _, _, _) =>
      IfClauseEffect(n, s)
  }

  /** `handleIfClause`: the condition, then the if-body and the else-body,
      each in a frame of its own. */
  function IfClauseEffect(ifc: Node, s: CheckState): CheckState
    requires ifc.IfClause?
    decreases ifc, 1
  {
    ElseEffect(ifc, ScopedEffect(ifc.body, ConditionEffect(ifc.id, ifc.condition, s)))
  }

  /** The else-body, if there is one, in a frame of its own. */
  function ElseEffect(ifc: Node, s: CheckState): CheckState
    requires ifc.IfClause?
    decreases ifc, 0
  {
    match ifc.elseClause
    case None => s
    case Some(e) => ScopedEffect(e.body, s)
  }

  /** The condition of an if-clause must be Bool; the error goes on the clause. */
  function ConditionEffect(id: NodeId, condition: Option<Expression>, s: CheckState): CheckState {
    var t := TypeOfOption(condition, s.chain);
    var errors := OptionErrors(condition, s.chain, s.errors);
    CheckState(s.chain, if t != Bool then errors[id := ConditionNotBool(t)] else errors)
  }

  /** A body checked in a frame of its own, pushed before and popped after. */
  function ScopedEffect(body: seq<Node>, s: CheckState): CheckState
    decreases body, 1
  {
    var inner := NodesEffect(body, CheckState(PushFrame(s.chain), s.errors));
    CheckState(PopFrame(inner.chain), inner.errors)
  }

  /** `checkNode` on each node of a body list, in order. */
  function NodesEffect(ns: seq<Node>, s: CheckState): CheckState
    decreases ns, 0
  {
    if ns == [] then s else NodesEffect(ns[1..], NodeEffect(ns[0], s))
  }

  /** The loop of `check` over the root's children: an if-clause there is an
      error and is skipped; everything else goes to `checkNode`. */
  function RootEffect(ns: seq<Node>, s: CheckState): CheckState {
    if ns == [] then s else RootEffect(ns[1..], RootChildEffect(ns[0], s))
  }

  /** One child of the root. */
  function RootChildEffect(n: Node, s: CheckState): CheckState {
    if n.IfClause? then SetError(s, n.id, MisplacedIf) else NodeEffect(n, s)
  }

  /** `check(ast)`: the errors after checking a tree, starting from one empty
      global frame. A missing root changes nothing. */
  function TreeErrors(root: Option<Stylesheet>, errors: ErrorMap): ErrorMap {
    match root
    case None => errors
    case Some(sheet) => RootEffect(sheet.body, CheckState([map[]], errors)).errors
  }

  class Checker {
    var variableTypes: Datastructures.HANLinkedList<Frame<ExpressionType>>
    ghost var Repr: set<object>

    ghost predicate Valid()
      reads this, variableTypes, variableTypes.Repr
    {
      && this in Repr
      && variableTypes in Repr
      && variableTypes.Repr <= Repr
      && StackFootprint(variableTypes) <= Repr
      && this !in variableTypes.Repr
      && StackValid(variableTypes)
    }

    /** The chain of type scopes, innermost first. */
    ghost function Scope(): TypeChain
      requires Valid()
      reads this, Repr
    {
      ChainOf(variableTypes)
    }

    constructor ()
      ensures Valid() && fresh(Repr)
    {
      variableTypes := new Datastructures.HANLinkedList();
      new;
      Repr := {this} + StackFootprint(variableTypes);
    }

    /** `check(ast)`: a fresh chain holding one global frame, then every child
        of the root in order; the tree itself is left as it was. */
    method Check(ast: AST?)
      modifies this, ast
      ensures Valid() && fresh(Repr - {this})
      ensures ast != null ==> ast.root == old(ast.root)
      ensures ast != null ==> ast.errors == TreeErrors(ast.root, old(ast.errors))
    {
      ResetScopes();
      if ast == null || ast.root.None? {
        return;
      }
      var children := ast.root.value.body;
      var i := 0;
      while i < |children|
        invariant 0 <= i <= |children|
        invariant Valid() && fresh(Repr - {this}) && ast !in Repr
        invariant ast.root == old(ast.root)
        invariant RootEffect(children[i..], CheckState(Scope(), ast.errors))
          == RootEffect(children, CheckState([map[]], old(ast.errors)))
      {
        assert children[i..][1..] == children[i + 1..];
        CheckRootChild(ast, children[i]);
        i := i + 1;
      }
    }

    /** The body of the loop in `check`: an if-clause directly under the
        root is reported and not visited; any other child goes to `checkNode`. */
    method CheckRootChild(ast: AST, child: Node)
      requires Valid() && ast !in Repr
      modifies ast`errors, Repr
      ensures Valid() && ast !in Repr && fresh(Repr - old(Repr))
      ensures CheckState(Scope(), ast.errors) == RootChildEffect(child, CheckState(old(Scope()), old(ast.errors)))
    {
      if child.IfClause? {
        ast.errors := ast.errors[child.id := MisplacedIf];
      } else {
        CheckNode(ast, child);
      }
    }

    /** The first two statements of `check`: a new list holding one empty
        global frame. */
    method ResetScopes()
      modifies this
      ensures Valid() && fresh(Repr - {this}) && Scope() == [map[]]
    {
      variableTypes := new Datastructures.HANLinkedList();
      Repr := {this} + StackFootprint(variableTypes);
      PushScope(variableTypes);
      Repr := Repr + StackFootprint(variableTypes);
    }

    /** `checkNode`: dispatch on the kind of node. */
    method CheckNode(ast: AST, n: Node)
      requires Valid() && ast !in Repr
      modifies ast`errors, Repr
      decreases NodeSize(n), 3
      ensures Valid() && ast !in Repr && fresh(Repr - old(Repr))
      ensures variableTypes.Contents == old(variableTypes.Contents)
      ensures CheckState(Scope(), ast.errors) == NodeEffect(n, CheckState(old(Scope()), old(ast.errors)))
    {
      if n.VariableAssignment? {
        HandleVariableAssignment(ast, n);
      } else if n.Stylerule? {
        CheckStyleRule(ast, n);
      } else if n.Declaration? {
        CheckDeclaration(ast, n);
      } else if n.IfClause? {
        HandleIfClause(ast, n);
      }
    }

    /** `handleIfClause`: the condition must be Bool; the if-body and the
        else-body are each checked in a frame of their own. */
    method HandleIfClause(ast: AST, ifc: Node)
      requires ifc.IfClause?
      requires Valid() && ast !in Repr
      modifies ast`errors, Repr
      decreases NodeSize(ifc), 2
      ensures Valid() && ast !in Repr && fresh(Repr - old(Repr))
      ensures variableTypes.Contents == old(variableTypes.Contents)
      ensures CheckState(Scope(), ast.errors) == IfClauseEffect(ifc, CheckState(old(Scope()), old(ast.errors)))
    {
      CheckCondition(ast, ifc.id, ifc.condition);
      CheckBranches(ast, ifc);
    }

    /** The rest of `handleIfClause`: the if-body, then the else-body. */
    method CheckBranches(ast: AST, ifc: Node)
      requires ifc.IfClause?
      requires Valid() && ast !in Repr
      modifies ast`errors, Repr
      decreases NodeSize(ifc), 1
      ensures Valid() && ast !in Repr && fresh(Repr - old(Repr))
      ensures variableTypes.Contents == old(variableTypes.Contents)
      ensures CheckState(Scope(), ast.errors) == ElseEffect(ifc, ScopedEffect(ifc.body, CheckState(old(Scope()), old(ast.errors))))
    {
      CheckInNewScope(ast, ifc.body);
      HandleElseClause(ast, ifc);
    }

    /** The last lines of `handleIfClause`: the else-body, when there is one. */
    method HandleElseClause(ast: AST, ifc: Node)
      requires ifc.IfClause?
      requires Valid() && ast !in Repr
      modifies ast`errors, Repr
      decreases NodeSize(ifc), 0
      ensures Valid() && ast !in Repr && fresh(Repr - old(Repr))
      ensures variableTypes.Contents == old(variableTypes.Contents)
      ensures CheckState(Scope(), ast.errors) == ElseEffect(ifc, CheckState(old(Scope()), old(ast.errors)))
    {
      if ifc.elseClause.Some? {
        CheckInNewScope(ast, ifc.elseClause.value.body);
      }
    }

    /** The first lines of `handleIfClause`: infer the condition's type and
        report it unless it is Bool. */
    method CheckCondition(ast: AST, id: NodeId, condition: Option<Expression>)
      requires Valid() && ast !in Repr
      modifies ast`errors
      ensures CheckState(Scope(), ast.errors) == ConditionEffect(id, condition, CheckState(Scope(), old(ast.errors)))
    {
      var condType := InferExpressionType(ast, condition);
      if condType != Bool {
        ast.errors := ast.errors[id := ConditionNotBool(condType)];
      }
    }

    /** The push / `checkNode` each child / pop pattern that `handleIfClause`
        and `checkStyleRule` share. */
    method CheckInNewScope(ast: AST, body: seq<Node>)
      requires Valid() && ast !in Repr
      modifies ast`errors, Repr
      decreases ListSize(body), 5
      ensures Valid() && ast !in Repr && fresh(Repr - old(Repr))
      ensures variableTypes.Contents == old(variableTypes.Contents)
      ensures CheckState(Scope(), ast.errors) == ScopedEffect(body, CheckState(old(Scope()), old(ast.errors)))
    {
      EnterScope();
      CheckBody(ast, body);
      ExitScope();
    }

    /** `checkNode` on each child of a body, in order. */
    method CheckBody(ast: AST, body: seq<Node>)
      requires Valid() && ast !in Repr
      modifies ast`errors, Repr
      decreases ListSize(body), 4
      ensures Valid() && ast !in Repr && fresh(Repr - old(Repr))
      ensures variableTypes.Contents == old(variableTypes.Contents)
      ensures CheckState(Scope(), ast.errors) == NodesEffect(body, CheckState(old(Scope()), old(ast.errors)))
    {
      ghost var start := CheckState(Scope(), ast.errors);
      var i := 0;
      while i < |body|
        invariant 0 <= i <= |body|
        invariant Valid() && ast !in Repr && fresh(Repr - old(Repr))
        invariant variableTypes.Contents == old(variableTypes.Contents)
        invariant NodesEffect(body[i..], CheckState(Scope(), ast.errors)) == NodesEffect(body, start)
      {
        ElementSize(body, i);
        CheckNode(ast, body[i]);
        assert body[i..][1..] == body[i + 1..];
        i := i + 1;
      }
    }

    /** `variableTypes.addFirst(new HashMap<>())`. */
    method EnterScope()
      requires Valid()
      modifies Repr
      ensures Valid() && fresh(Repr - old(Repr))
      ensures |variableTypes.Contents| == |old(variableTypes.Contents)| + 1
      ensures variableTypes.Contents[1..] == old(variableTypes.Contents)
      ensures Scope() == PushFrame(old(Scope()))
    {
      PushScope(variableTypes);
      Repr := Repr + StackFootprint(variableTypes);
    }

    /** `variableTypes.removeFirst()`. */
    method ExitScope()
      requires Valid()
      modifies Repr
      ensures Valid() && Repr == old(Repr)
      ensures variableTypes.Contents == if old(variableTypes.Contents) == [] then [] else old(variableTypes.Contents)[1..]
      ensures Scope() == PopFrame(old(Scope()))
    {
      PopScope(variableTypes);
    }

    /** `handleVariableAssignment`: an Undefined expression is an error, and
        the binding is written to the innermost frame either way. */
    method HandleVariableAssignment(ast: AST, va: Node)
      requires va.VariableAssignment?
      requires Valid() && ast !in Repr
      modifies ast`errors, Repr
      ensures Valid() && ast !in Repr && Repr == old(Repr)
      ensures variableTypes.Contents == old(variableTypes.Contents)
      ensures CheckState(Scope(), ast.errors) == NodeEffect(va, CheckState(old(Scope()), old(ast.errors)))
    {
      var t := InferExpressionType(ast, va.expression);
      if t == Undefined {
        ast.errors := ast.errors[va.id := UndefinedAssignment(va.name)];
      }
      StoreVariableType(va.name, t);
    }

    /** The last lines of `handleVariableAssignment`: `getFirst()`, then `put`
        when both the name and the frame are there. */
    method StoreVariableType(name: Option<string>, t: ExpressionType)
      requires Valid()
      modifies Repr
      ensures Valid() && Repr == old(Repr)
      ensures variableTypes.Contents == old(variableTypes.Contents)
      ensures Scope() == if name.Some? then BindInnermost(old(Scope()), name.value, t) else old(Scope())
    {
      if name.Some? {
        BindInScope(variableTypes, name.value, t);
      }
    }

    /** `checkStyleRule`: the rule's body is checked in a frame of its own. */
    method CheckStyleRule(ast: AST, rule: Node)
      requires rule.Stylerule?
      requires Valid() && ast !in Repr
      modifies ast`errors, Repr
      decreases NodeSize(rule), 0
      ensures Valid() && ast !in Repr && fresh(Repr - old(Repr))
      ensures variableTypes.Contents == old(variableTypes.Contents)
      ensures CheckState(Scope(), ast.errors) == NodeEffect(rule, CheckState(old(Scope()), old(ast.errors)))
    {
      CheckInNewScope(ast, rule.body);
    }

    /** `checkDeclaration`: an Undefined expression is reported once and skips
        the allow-list; otherwise the (case-insensitive) property name decides
        which types are allowed. */
    method CheckDeclaration(ast: AST, decl: Node)
      requires decl.Declaration?
      requires Valid() && ast !in Repr
      modifies ast`errors
      ensures CheckState(Scope(), ast.errors) == NodeEffect(decl, CheckState(old(Scope()), old(ast.errors)))
    {
      var t := InferExpressionType(ast, decl.expression);
      if t == Undefined {
        ast.errors := ast.errors[decl.id := UndefinedDeclaration(decl.property)];
        return;
      }
      if decl.property.None? {
        ast.errors := ast.errors[decl.id := MissingProperty];
        return;
      }
      var propName := decl.property.value;
      var normalized := ToLower(propName);
      if normalized == "color" || normalized == "background-color" {
        if t != Color {
          ast.errors := ast.errors[decl.id := RequiresColor(propName)];
        }
      } else if normalized == "width" || normalized == "height" {
        if !(t == Pixel || t == Percentage) {
          ast.errors := ast.errors[decl.id := RequiresSize(propName)];
        }
      } else {
        ast.errors := ast.errors[decl.id := PropertyNotAllowed(propName)];
      }
    }

    /** `inferExpressionType`: the type of an expression, bottom up, attaching
        errors to unbound references and to Pixel-by-Pixel multiplications. */
    method InferExpressionType(ast: AST, node: Option<Expression>) returns (t: ExpressionType)
      requires Valid() && ast !in Repr
      modifies ast`errors
      decreases OptionSize(node), 0
      ensures t == TypeOfOption(node, Scope())
      ensures ast.errors == OptionErrors(node, Scope(), old(ast.errors))
    {
      if node.None? {
        return Undefined;
      }
      match node.value {
        case Lit(lit) =>
          t := LiteralType(lit);
        case VariableReference(id, name) =>
          var found := LookupVariableType(name);
          if found.None? {
            ast.errors := ast.errors[id := UndefinedVariable(name)];
            return Undefined;
          }
          t := found.value;
        case AddOperation(lhs, rhs) =>
          var left, right := InferOperands(ast, lhs, rhs);
          if left == Undefined || right == Undefined {
            return Undefined;
          }
          if left == right {
            return left;
          }
          t := Undefined;
        case SubtractOperation(lhs, rhs) =>
          var left, right := InferOperands(ast, lhs, rhs);
          if left == Undefined || right == Undefined {
            return Undefined;
          }
          if left == right {
            return left;
          }
          t := Undefined;
        case MultiplyOperation(id, lhs, rhs) =>
          var left, right := InferOperands(ast, lhs, rhs);
          if left == Undefined || right == Undefined {
            return Undefined;
          }
          if (left == Scalar && right == Pixel) || (left == Pixel && right == Scalar) {
            return Pixel;
          }
          if left == Pixel && right == Pixel {
            ast.errors := ast.errors[id := PixelTimesPixel];
          }
          if left == Scalar && right == Scalar {
            return Scalar;
          }
          t := Undefined;
        case Other(_) =>
          t := Undefined;
      }
    }

    /** The two recursive calls every operation starts with: the left
        operand first, then the right. */
    method InferOperands(ast: AST, lhs: Expression, rhs: Expression) returns (left: ExpressionType, right: ExpressionType)
      requires Valid() && ast !in Repr
      modifies ast`errors
      decreases ExpressionSize(lhs) + ExpressionSize(rhs), 1
      ensures left == TypeOf(lhs, Scope()) && right == TypeOf(rhs, Scope())
      ensures ast.errors == ExpressionErrors(rhs, Scope(), ExpressionErrors(lhs, Scope(), old(ast.errors)))
    {
      left := InferExpressionType(ast, Some(lhs));
      right := InferExpressionType(ast, Some(rhs));
    }

    /** `lookupVariableType`: scans the frames innermost first. */
    method LookupVariableType(name: string) returns (found: Option<ExpressionType>)
      requires Valid()
      ensures found == Lookup(Scope(), name)
    {
      found := FindBinding(variableTypes, name);
    }
  }
}
