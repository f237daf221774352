/** The evaluator (`Evaluator`): folds expressions to literals under a chain
    of value scopes, rewrites declarations and assignments to their folded
    literals, removes nested assignments and replaces each nested if-clause
    by the branch its condition selects. The pure functions first state what
    `apply` does to a tree; the class below does it the way the source does,
    scanning each body list with an index and editing it as it goes. */
module Transforms {
  import opened Wrappers
  import opened Ints
  import opened Ast
  import opened Scopes
  import Datastructures

  type ValueChain = Chain<Literal>

  /** The literal kinds that carry an integer and take part in arithmetic. */
  predicate IsNumeric(lit: Literal) {
    lit.PixelLiteral? || lit.PercentageLiteral? || lit.ScalarLiteral?
  }

  /** Both literals are Pixels, both Percentages or both Scalars. */
  predicate SameNumericKind(a: Literal, b: Literal) {
    (a.PixelLiteral? && b.PixelLiteral?)
    || (a.PercentageLiteral? && b.PercentageLiteral?)
    || (a.ScalarLiteral? && b.ScalarLiteral?)
  }

  /** `evaluateAdd`: two operands of one numeric kind add up, with `int`
      wrap-around, to a literal of that kind; any other pair, or a missing
      operand, gives nothing. */
  function FoldAdd(a: Option<Literal>, b: Option<Literal>): (r: Option<Literal>)
    ensures r.Some? <==> a.Some? && b.Some? && SameNumericKind(a.value, b.value)
    ensures r.Some? ==> SameNumericKind(r.value, a.value) && r.value.value == Wrap32(a.value.value + b.value.value)
  {
    if a.None? || b.None? then None
    else match (a.value, b.value)
      case (PixelLiteral(x), PixelLiteral(y)) => Some(PixelLiteral(Wrap32(x + y)))
      case (ScalarLiteral(x), ScalarLiteral(y)) => Some(ScalarLiteral(Wrap32(x + y)))
      case (PercentageLiteral(x), PercentageLiteral(y)) => Some(PercentageLiteral(Wrap32(x + y)))
      case _ => None
  }

  /** `evaluateSubtract`: as `evaluateAdd`, with the difference. */
  function FoldSubtract(a: Option<Literal>, b: Option<Literal>): (r: Option<Literal>)
    ensures r.Some? <==> a.Some? && b.Some? && SameNumericKind(a.value, b.value)
    ensures r.Some? ==> SameNumericKind(r.value, a.value) && r.value.value == Wrap32(a.value.value - b.value.value)
  {
    if a.None? || b.None? then None
    else match (a.value, b.value)
      case (PixelLiteral(x), PixelLiteral(y)) => Some(PixelLiteral(Wrap32(x - y)))
      case (ScalarLiteral(x), ScalarLiteral(y)) => Some(ScalarLiteral(Wrap32(x - y)))
      case (PercentageLiteral(x), PercentageLiteral(y)) => Some(PercentageLiteral(Wrap32(x - y)))
      case _ => None
  }

  /** `evaluateMultiply`: a Scalar times a Pixel, in either order, is a Pixel;
      two Scalars give a Scalar; every other pair gives nothing. */
  function FoldMultiply(a: Option<Literal>, b: Option<Literal>): (r: Option<Literal>)
    ensures r.Some? <==> (a.Some? && b.Some?
      && ((a.value.ScalarLiteral? && (b.value.PixelLiteral? || b.value.ScalarLiteral?))
          || (a.value.PixelLiteral? && b.value.ScalarLiteral?)))
    ensures r.Some? ==> (r.value.ScalarLiteral? <==> a.value.ScalarLiteral? && b.value.ScalarLiteral?)
    ensures r.Some? ==> (r.value.PixelLiteral? <==> !(a.value.ScalarLiteral? && b.value.ScalarLiteral?))
    ensures r.Some? ==> r.value.value == Wrap32(a.value.value * b.value.value)
  {
    if a.None? || b.None? then None
    else match (a.value, b.value)
      case (ScalarLiteral(x), PixelLiteral(y)) => Some(PixelLiteral(Wrap32(x * y)))
      case (PixelLiteral(x), ScalarLiteral(y)) => Some(PixelLiteral(Wrap32(x * y)))
      case (ScalarLiteral(x), ScalarLiteral(y)) => Some(ScalarLiteral(Wrap32(x * y)))
      case _ => None
  }

  /** The literal `evaluateExpression` folds an expression to, if any: a
      literal is itself, a reference is its innermost binding, an operation
      combines its folded operands, and any other node folds to nothing. */
  function Fold(e: Expression, chain: ValueChain): Option<Literal> {
    match e
    case Lit(lit) => Some(lit)
    case VariableReference(_, name) => Lookup(chain, name)
    case AddOperation(l, r) => FoldAdd(Fold(l, chain), Fold(r, chain))
    case SubtractOperation(l, r) => FoldSubtract(Fold(l, chain), Fold(r, chain))
    case MultiplyOperation(_, l, r) => FoldMultiply(Fold(l, chain), Fold(r, chain))
    case Other(_) => None
  }

  /** A missing (null) expression folds to nothing. */
  function FoldOption(e: Option<Expression>, chain: ValueChain): Option<Literal> {
    match e
    case Some(x) => Fold(x, chain)
    case None => None
  }

  /** `evaluateVariableAssignment` on the node: the expression is replaced by
      its literal when it folds, and left alone otherwise. */
  function EvaluatedAssignment(va: Node, chain: ValueChain): (r: Node)
    requires va.VariableAssignment?
    ensures r.VariableAssignment? && r.id == va.id && r.name == va.name
  {
    match FoldOption(va.expression, chain)
    case Some(lit) => VariableAssignment(va.id, va.name, Some(Lit(lit)))
    case None => va
  }

  /** `evaluateVariableAssignment` on the scopes: a folded value is bound in
      the innermost frame, when the assignment has a name. */
  function AssignChain(va: Node, chain: ValueChain): ValueChain
    requires va.VariableAssignment?
  {
    match FoldOption(va.expression, chain)
    case Some(lit) => if va.name.Some? then BindInnermost(chain, va.name.value, lit) else chain
    case None => chain
  }

  /** `evaluateDeclaration`: the expression is replaced by its literal when it
      folds, and left alone otherwise. */
  function EvaluatedDeclaration(decl: Node, chain: ValueChain): (r: Node)
    requires decl.Declaration?
    ensures r.Declaration? && r.id == decl.id && r.property == decl.property
  {
    match FoldOption(decl.expression, chain)
    case Some(lit) => Declaration(decl.id, decl.property, Some(Lit(lit)))
    case None => decl
  }

  /** Whether an if-clause's condition holds: it folds to the literal `true`. */
  predicate ConditionTrue(condition: Option<Expression>, chain: ValueChain) {
    FoldOption(condition, chain) == Some(BoolLiteral(true))
  }

  /** The nodes a nested if-clause is replaced by: its body when the
      condition holds, otherwise its else-body, or nothing without one. */
  function Branch(ifc: Node, chain: ValueChain): seq<Node>
    requires ifc.IfClause?
  {
    if ConditionTrue(ifc.condition, chain) then ifc.body
    else match ifc.elseClause
      case Some(e) => e.body
      case None => []
  }

  /** Either branch is smaller than the clause it replaces, which is why the
      scan over a body list ends although it re-reads spliced nodes. */
  lemma BranchSmaller(ifc: Node, chain: ValueChain)
    requires ifc.IfClause?
    ensures ListSize(Branch(ifc, chain)) < NodeSize(ifc)
  {
  }

  /** What the evaluator carries from node to node. */
  datatype EvalState = EvalState(chain: ValueChain, errors: ErrorMap)

  /** A rewritten body list and the state after it. */
  datatype Processed = Processed(nodes: seq<Node>, state: EvalState)

  /** A rewritten prefix in front of the rest of a scan. */
  function Prepend(prefix: seq<Node>, p: Processed): Processed {
    Processed(prefix + p.nodes, p.state)
  }

  /** Prepending twice is prepending the concatenation. */
  lemma PrependTwice(a: seq<Node>, b: seq<Node>, p: Processed)
    ensures Prepend(a, Prepend(b, p)) == Prepend(a + b, p)
  {
    assert a + (b + p.nodes) == (a + b) + p.nodes;
  }

  /** `nodes.set(i, n)` leaves the nodes before and after `i` where they were. */
  lemma ReplaceAt(nodes: seq<Node>, i: nat, n: Node)
    requires i < |nodes|
    ensures nodes[i := n][..i] == nodes[..i] && nodes[i := n][i..i + 1] == [n]
    ensures nodes[i := n][i + 1..] == nodes[i + 1..]
  {
  }

  /** `nodes.remove(i)`: the nodes after `i` move up one place. */
  lemma RemoveAt(nodes: seq<Node>, i: nat)
    requires i < |nodes|
    ensures (nodes[..i] + nodes[i + 1..])[..i] == nodes[..i]
    ensures (nodes[..i] + nodes[i + 1..])[i..] == nodes[i + 1..]
  {
  }

  /** `nodes.addAll(i, more)`: the new nodes come at `i`, before the old ones. */
  lemma InsertAt(nodes: seq<Node>, i: nat, more: seq<Node>)
    requires i <= |nodes|
    ensures (nodes[..i] + more + nodes[i..])[..i] == nodes[..i]
    ensures (nodes[..i] + more + nodes[i..])[i..] == more + nodes[i..]
  {
  }

  /** `processNodes` on a body list (`top` for the root's own list):
      - an assignment is evaluated, binds its value, and is dropped unless at top level;
      - a declaration is evaluated in place;
      - a style rule has its body processed in a frame of its own;
      - an if-clause at top level gets an error and is left as it is;
      - a nested if-clause is replaced by the branch it selects, and the
        scan goes on from the first spliced node, in the same frame. */
  function Process(ns: seq<Node>, top: bool, s: EvalState): Processed
    decreases ListSize(ns), 2
  {
    if ns == [] then Processed([], s) else ProcessFirst(ns[0], ns[1..], top, s)
  }

  /** `processNodes` at a node `n` followed by the nodes `rest`. */
  function ProcessFirst(n: Node, rest: seq<Node>, top: bool, s: EvalState): Processed
    decreases NodeSize(n) + ListSize(rest), 1
  {
    match n
    case VariableAssignment(_, _, _) =>
      var after := Process(rest, top, s.(chain := AssignChain(n, s.chain)));
      if top then Prepend([EvaluatedAssignment(n, s.chain)], after) else after
    case Declaration(_, _, _) =>
      Prepend([EvaluatedDeclaration(n, s.chain)], Process(rest, top, s))
    case Stylerule(_, _) =>
      var rule := ProcessRule(n, s);
      Prepend([rule.0], Process(rest, top, rule.1))
    case IfClause(id, _, _, _) =>
      if top then
        Prepend([n], Process(rest, top, s.(errors := s.errors[id := MisplacedIf])))
      else
        BranchSmaller(n, s.chain);
        ListSizeAppend(Branch(n, s.chain), rest);
        Process(Branch(n, s.chain) + rest, top, s)
  }

  /** `processStylerule`: a frame is pushed, the body processed as a nested
      list, and the frame popped. */
  function ProcessRule(rule: Node, s: EvalState): (Node, EvalState)
    requires rule.Stylerule?
    decreases NodeSize(rule), 0
  {
    var inner := Process(rule.body, false, s.(chain := PushFrame(s.chain)));
    (Stylerule(rule.selectors, inner.nodes), inner.state.(chain := PopFrame(inner.state.chain)))
  }

  /** `apply(ast)`: the new root and errors, starting from one empty global
      frame. A missing root changes nothing. */
  function EvaluateTree(root: Option<Stylesheet>, errors: ErrorMap): (Option<Stylesheet>, ErrorMap) {
    match root
    case None => (None, errors)
    case Some(sheet) =>
      var p := Process(sheet.body, true, EvalState([map[]], errors));
      (Some(Stylesheet(p.nodes)), p.state.errors)
  }

  class Evaluator {
    var variableValues: Datastructures.HANLinkedList<Frame<Literal>>
    ghost var Repr: set<object>

    ghost predicate Valid()
      reads this, variableValues, variableValues.Repr
    {
      && this in Repr
      && variableValues in Repr
      && variableValues.Repr <= Repr
      && StackFootprint(variableValues) <= Repr
      && this !in variableValues.Repr
      && StackValid(variableValues)
    }

    /** The chain of value scopes, innermost first. */
    ghost function Scope(): ValueChain
      requires Valid()
      reads this, Repr
    {
      ChainOf(variableValues)
    }

    constructor ()
      ensures Valid() && fresh(Repr)
    {
      variableValues := new Datastructures.HANLinkedList();
      new;
      Repr := {this} + StackFootprint(variableValues);
    }

    /** `apply(ast)`: nothing happens without a tree; otherwise a fresh chain
        holding one global frame, and the root's list processed at top level. */
    method Apply(ast: AST?)
      requires Valid()
      modifies this, ast
      ensures Valid() && fresh(Repr - old(Repr))
      ensures ast != null ==> (ast.root, ast.errors) == EvaluateTree(old(ast.root), old(ast.errors))
    {
      if ast == null || ast.root.None? {
        return;
      }
      ResetScopes();
      var body := ProcessNodes(ast, ast.root.value.body, true);
      ast.root := Some(Stylesheet(body));
    }

    /** The first statements of `apply` after the null test: a new list
        holding one empty global frame. */
    method ResetScopes()
      modifies this
      ensures Valid() && fresh(Repr - {this}) && Scope() == [map[]]
    {
      variableValues := new Datastructures.HANLinkedList();
      Repr := {this} + StackFootprint(variableValues);
      PushScope(variableValues);
      Repr := Repr + StackFootprint(variableValues);
    }

    /** `processNodes`: the scan with an index over a body list, which it edits
        as it goes (the edited list is returned). The index moves past a node
        that stays; it stays put where a node is removed or replaced by the
        nodes of a branch, so that those are scanned next. */
    method ProcessNodes(ast: AST, nodes: seq<Node>, top: bool) returns (result: seq<Node>)
      requires Valid() && ast !in Repr
      modifies ast`errors, Repr
      decreases ListSize(nodes), 3
      ensures Valid() && ast !in Repr && fresh(Repr - old(Repr))
      ensures variableValues.Contents == old(variableValues.Contents)
      ensures Processed(result, EvalState(Scope(), ast.errors)) == Process(nodes, top, EvalState(old(Scope()), old(ast.errors)))
    {
      ghost var start := EvalState(Scope(), ast.errors);
      result := nodes;
      var i := 0;
      while i < |result|
        invariant 0 <= i <= |result|
        invariant Valid() && ast !in Repr && fresh(Repr - old(Repr))
        invariant variableValues.Contents == old(variableValues.Contents)
        invariant ListSize(result[i..]) <= ListSize(nodes)
        invariant Prepend(result[..i], Process(result[i..], top, EvalState(Scope(), ast.errors))) == Process(nodes, top, start)
        decreases ListSize(result[i..])
      {
        ElementSize(result, i);
        assert result[i..][1..] == result[i + 1..];
        ghost var prefix := result[..i];
        var edited, next := ProcessAt(ast, result, i, top);
        ghost var step := Process(edited[next..], top, EvalState(Scope(), ast.errors));
        PrependTwice(prefix, edited[i..next], step);
        assert edited[..next] == prefix + edited[i..next];
        result, i := edited, next;
      }
      assert result[i..] == [];
      assert result[..i] == result;
    }

    /** One turn of the loop in `processNodes`, at index `i`: dispatch on
        the kind of node. */
    method ProcessAt(ast: AST, nodes: seq<Node>, i: nat, top: bool) returns (result: seq<Node>, next: nat)
      requires i < |nodes|
      requires Valid() && ast !in Repr
      modifies ast`errors, Repr
      decreases NodeSize(nodes[i]), 2
      ensures Valid() && ast !in Repr && fresh(Repr - old(Repr))
      ensures variableValues.Contents == old(variableValues.Contents)
      ensures i <= next <= |result| && result[..i] == nodes[..i]
      ensures ListSize(result[next..]) < ListSize(nodes[i..])
      ensures Prepend(result[i..next], Process(result[next..], top, EvalState(Scope(), ast.errors)))
        == ProcessFirst(nodes[i], nodes[i + 1..], top, EvalState(old(Scope()), old(ast.errors)))
    {
      match nodes[i] {
        case VariableAssignment(_, _, _) =>
          result, next := AssignmentAt(ast, nodes, i, top);
        case Declaration(_, _, _) =>
          result, next := DeclarationAt(ast, nodes, i, top);
        case Stylerule(_, _) =>
          result, next := StyleruleAt(ast, nodes, i, top);
        case IfClause(_, _, _, _) =>
          result, next := IfClauseAt(ast, nodes, i, top);
      }
    }

    /** The assignment case: evaluate it, then remove it from a nested list
        or step past it at top level. */
    method AssignmentAt(ast: AST, nodes: seq<Node>, i: nat, top: bool) returns (result: seq<Node>, next: nat)
      requires i < |nodes| && nodes[i].VariableAssignment?
      requires Valid() && ast !in Repr
      modifies Repr
      ensures Valid() && Repr == old(Repr)
      ensures variableValues.Contents == old(variableValues.Contents)
      ensures i <= next <= |result| && result[..i] == nodes[..i]
      ensures ListSize(result[next..]) < ListSize(nodes[i..])
      ensures Prepend(result[i..next], Process(result[next..], top, EvalState(Scope(), ast.errors)))
        == ProcessFirst(nodes[i], nodes[i + 1..], top, EvalState(old(Scope()), ast.errors))
    {
      ElementSize(nodes, i);
      var evaluated := EvaluateVariableAssignment(nodes[i]);
      if !top {
        result, next := nodes[..i] + nodes[i + 1..], i;
        RemoveAt(nodes, i);
      } else {
        result, next := nodes[i := evaluated], i + 1;
        ReplaceAt(nodes, i, evaluated);
      }
    }

    /** The declaration case: evaluate it and step past it. */
    method DeclarationAt(ast: AST, nodes: seq<Node>, i: nat, top: bool) returns (result: seq<Node>, next: nat)
      requires i < |nodes| && nodes[i].Declaration?
      requires Valid()
      ensures i <= next <= |result| && result[..i] == nodes[..i]
      ensures ListSize(result[next..]) < ListSize(nodes[i..])
      ensures Prepend(result[i..next], Process(result[next..], top, EvalState(Scope(), ast.errors)))
        == ProcessFirst(nodes[i], nodes[i + 1..], top, EvalState(Scope(), ast.errors))
    {
      ElementSize(nodes, i);
      var evaluated := EvaluateDeclaration(nodes[i]);
      result, next := nodes[i := evaluated], i + 1;
      ReplaceAt(nodes, i, evaluated);
    }

    /** The style rule case: process the rule and step past it. */
    method StyleruleAt(ast: AST, nodes: seq<Node>, i: nat, top: bool) returns (result: seq<Node>, next: nat)
      requires i < |nodes| && nodes[i].Stylerule?
      requires Valid() && ast !in Repr
      modifies ast`errors, Repr
      decreases NodeSize(nodes[i]), 1
      ensures Valid() && ast !in Repr && fresh(Repr - old(Repr))
      ensures variableValues.Contents == old(variableValues.Contents)
      ensures i <= next <= |result| && result[..i] == nodes[..i]
      ensures ListSize(result[next..]) < ListSize(nodes[i..])
      ensures Prepend(result[i..next], Process(result[next..], top, EvalState(Scope(), ast.errors)))
        == ProcessFirst(nodes[i], nodes[i + 1..], top, EvalState(old(Scope()), old(ast.errors)))
    {
      ElementSize(nodes, i);
      var processed := ProcessStylerule(ast, nodes[i]);
      result, next := nodes[i := processed], i + 1;
      ReplaceAt(nodes, i, processed);
    }

    /** The if-clause case: at top level, report it and step past it;
        nested, replace it by the branch it selects and scan that next. */
    method IfClauseAt(ast: AST, nodes: seq<Node>, i: nat, top: bool) returns (result: seq<Node>, next: nat)
      requires i < |nodes| && nodes[i].IfClause?
      requires Valid() && ast !in Repr
      modifies ast`errors
      ensures i <= next <= |result| && result[..i] == nodes[..i]
      ensures ListSize(result[next..]) < ListSize(nodes[i..])
      ensures Prepend(result[i..next], Process(result[next..], top, EvalState(Scope(), ast.errors)))
        == ProcessFirst(nodes[i], nodes[i + 1..], top, EvalState(Scope(), old(ast.errors)))
    {
      ElementSize(nodes, i);
      var ifc := nodes[i];
      if top {
        ast.errors := ast.errors[ifc.id := MisplacedIf];
        result, next := nodes, i + 1;
        assert result[i..next] == [ifc];
      } else {
        var branch := SelectBranch(ifc);
        BranchSmaller(ifc, Scope());
        ListSizeAppend(branch, nodes[i + 1..]);
        result, next := nodes[..i] + nodes[i + 1..], i;
        RemoveAt(nodes, i);
        if branch != [] {
          InsertAt(result, i, branch);
          result := result[..i] + branch + result[i..];
        } else {
          assert branch + nodes[i + 1..] == nodes[i + 1..];
        }
      }
    }

    /** The decision at the heart of the if-clause case of `processNodes`:
        the branch whose nodes replace the clause (`nodes.remove(i)` followed
        by `nodes.addAll(i, ...)`, or the removal alone). */
    method SelectBranch(ifc: Node) returns (branch: seq<Node>)
      requires ifc.IfClause? && Valid()
      ensures branch == Branch(ifc, Scope())
    {
      var condTrue := ConditionHolds(ifc);
      if condTrue {
        branch := ifc.body;
      } else if ifc.elseClause.Some? {
        branch := ifc.elseClause.value.body;
      } else {
        branch := [];
      }
    }

    /** The condition test of `processNodes`: the condition folded, and a
        condition that is a variable reference and folds to nothing looked up
        a second time. The outcome is `true` exactly when the condition folds
        to the literal `true`: the second lookup never finds anything. */
    method ConditionHolds(ifc: Node) returns (condTrue: bool)
      requires ifc.IfClause? && Valid()
      ensures condTrue <==> FoldOption(ifc.condition, Scope()) == Some(BoolLiteral(true))
    {
      var condLit: Option<Literal> := None;
      if ifc.condition.Some? {
        condLit := EvaluateExpression(ifc.condition);
      }
      condTrue := false;
      if condLit.Some? && condLit.value.BoolLiteral? {
        condTrue := condLit.value.truth;
      } else if condLit.None? && ifc.condition.Some? && ifc.condition.value.VariableReference? {
        var looked := LookupVariableValue(ifc.condition.value.name);
        if looked.Some? && looked.value.BoolLiteral? {
          condTrue := looked.value.truth;
        }
      }
    }

    /** `processStylerule`: push a frame, process the body as a nested list,
        pop the frame. */
    method ProcessStylerule(ast: AST, rule: Node) returns (processed: Node)
      requires rule.Stylerule?
      requires Valid() && ast !in Repr
      modifies ast`errors, Repr
      decreases NodeSize(rule), 0
      ensures Valid() && ast !in Repr && fresh(Repr - old(Repr))
      ensures variableValues.Contents == old(variableValues.Contents)
      ensures (processed, EvalState(Scope(), ast.errors)) == ProcessRule(rule, EvalState(old(Scope()), old(ast.errors)))
    {
      EnterScope();
      var body := ProcessNodes(ast, rule.body, false);
      processed := Stylerule(rule.selectors, body);
      ExitScope();
    }

    /** `variableValues.addFirst(new HashMap<>())`. */
    method EnterScope()
      requires Valid()
      modifies Repr
      ensures Valid() && fresh(Repr - old(Repr))
      ensures |variableValues.Contents| == |old(variableValues.Contents)| + 1
      ensures variableValues.Contents[1..] == old(variableValues.Contents)
      ensures Scope() == PushFrame(old(Scope()))
    {
      PushScope(variableValues);
      Repr := Repr + StackFootprint(variableValues);
    }

    /** `variableValues.removeFirst()`. */
    method ExitScope()
      requires Valid()
      modifies Repr
      ensures Valid() && Repr == old(Repr)
      ensures variableValues.Contents == if old(variableValues.Contents) == [] then [] else old(variableValues.Contents)[1..]
      ensures Scope() == PopFrame(old(Scope()))
    {
      PopScope(variableValues);
    }

    /** `evaluateVariableAssignment`: when the expression folds, its value is
        put in the innermost frame (if the assignment has a name) and the
        expression replaced by the literal. */
    method EvaluateVariableAssignment(va: Node) returns (evaluated: Node)
      requires va.VariableAssignment? && Valid()
      modifies Repr
      ensures Valid() && Repr == old(Repr)
      ensures variableValues.Contents == old(variableValues.Contents)
      ensures evaluated == EvaluatedAssignment(va, old(Scope()))
      ensures Scope() == AssignChain(va, old(Scope()))
    {
      var value := EvaluateExpression(va.expression);
      evaluated := va;
      if value.Some? {
        if va.name.Some? {
          BindInScope(variableValues, va.name.value, value.value);
        }
        evaluated := VariableAssignment(va.id, va.name, Some(Lit(value.value)));
      }
    }

    /** `evaluateDeclaration`: the expression is replaced by its literal when
        it folds. */
    method EvaluateDeclaration(decl: Node) returns (evaluated: Node)
      requires decl.Declaration? && Valid()
      ensures evaluated == EvaluatedDeclaration(decl, Scope())
    {
      var value := EvaluateExpression(decl.expression);
      evaluated := decl;
      if value.Some? {
        evaluated := Declaration(decl.id, decl.property, Some(Lit(value.value)));
      }
    }

    /** `evaluateExpression`: folds bottom up, left operand first. */
    method EvaluateExpression(node: Option<Expression>) returns (r: Option<Literal>)
      requires Valid()
      decreases OptionSize(node)
      ensures r == FoldOption(node, Scope())
    {
      if node.None? {
        return None;
      }
      match node.value {
        case Lit(lit) =>
          r := Some(lit);
        case VariableReference(_, name) =>
          r := LookupVariableValue(name);
        case AddOperation(lhs, rhs) =>
          var left := EvaluateExpression(Some(lhs));
          var right := EvaluateExpression(Some(rhs));
          r := FoldAdd(left, right);
        case SubtractOperation(lhs, rhs) =>
          var left := EvaluateExpression(Some(lhs));
          var right := EvaluateExpression(Some(rhs));
          r := FoldSubtract(left, right);
        case MultiplyOperation(_, lhs, rhs) =>
          var left := EvaluateExpression(Some(lhs));
          var right := EvaluateExpression(Some(rhs));
          r := FoldMultiply(left, right);
        case Other(_) =>
          r := None;
      }
    }

    /** `lookupVariableValue`: scans the frames innermost first. */
    method LookupVariableValue(name: string) returns (found: Option<Literal>)
      requires Valid()
      ensures found == Lookup(Scope(), name)
    {
      found := FindBinding(variableValues, name);
    }
  }
}
