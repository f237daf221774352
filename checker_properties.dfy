/** What the checker promises, proved about the functions that specify it:
    well-typed expressions are never annotated, errors only land inside the
    node being checked, every body is checked in a frame that is gone
    afterwards, and the declaration allow-list ignores case. */
module CheckerProperties {
  import opened Wrappers
  import opened Strings
  import opened Ast
  import opened Scopes
  import opened Checking

  /** An expression whose type is defined gets no error anywhere inside it:
      every reference in it is bound and it multiplies no Pixel by a Pixel. */
  lemma {:induction false} WellTypedHasNoErrors(e: Expression, chain: TypeChain, errors: ErrorMap)
    requires TypeOf(e, chain) != Undefined
    ensures ExpressionErrors(e, chain, errors) == errors
  {
    match e
    case AddOperation(l, r) =>
      WellTypedHasNoErrors(l, chain, errors);
      WellTypedHasNoErrors(r, chain, errors);
    case SubtractOperation(l, r) =>
      WellTypedHasNoErrors(l, chain, errors);
      WellTypedHasNoErrors(r, chain, errors);
    case MultiplyOperation(_, l, r) =>
      WellTypedHasNoErrors(l, chain, errors);
      WellTypedHasNoErrors(r, chain, errors);
    case _ =>
  }

  /** A reference to a name bound to Undefined is Undefined but, unlike an
      unbound name, gets no error of its own. */
  lemma BoundToUndefined(id: NodeId, name: string, chain: TypeChain, errors: ErrorMap)
    requires Lookup(chain, name) == Some(Undefined)
    ensures TypeOf(VariableReference(id, name), chain) == Undefined
    ensures ExpressionErrors(VariableReference(id, name), chain, errors) == errors
  {
  }

  /** Inferring a type annotates only nodes of the expression itself. */
  lemma {:induction false} ExpressionErrorsLocal(e: Expression, chain: TypeChain, errors: ErrorMap)
    ensures AgreeOutside(ExpressionErrors(e, chain, errors), errors, ExpressionIds(e))
  {
    match e
    case AddOperation(l, r) =>
      ExpressionErrorsLocal(l, chain, errors);
      ExpressionErrorsLocal(r, chain, ExpressionErrors(l, chain, errors));
    case SubtractOperation(l, r) =>
      ExpressionErrorsLocal(l, chain, errors);
      ExpressionErrorsLocal(r, chain, ExpressionErrors(l, chain, errors));
    case MultiplyOperation(_, l, r) =>
      ExpressionErrorsLocal(l, chain, errors);
      ExpressionErrorsLocal(r, chain, ExpressionErrors(l, chain, errors));
    case _ =>
  }

  lemma OptionErrorsLocal(e: Option<Expression>, chain: TypeChain, errors: ErrorMap)
    ensures AgreeOutside(OptionErrors(e, chain, errors), errors, OptionIds(e))
  {
    if e.Some? {
      ExpressionErrorsLocal(e.value, chain, errors);
    }
  }

  /** Checking a node annotates only nodes of its own subtree: the checker
      attaches errors where they belong and leaves every other node alone. */
  lemma {:induction false} NodeErrorsLocal(n: Node, s: CheckState)
    ensures AgreeOutside(NodeEffect(n, s).errors, s.errors, NodeIds(n))
    decreases n, 2
  {
    match n
    case VariableAssignment(_, _, expression) =>
      OptionErrorsLocal(expression, s.chain, s.errors);
    case Declaration(_, _, expression) =>
      OptionErrorsLocal(expression, s.chain, s.errors);
    case Stylerule(_, body) =>
      ScopedErrorsLocal(body, s);
    case IfClause(_, _, _, _) =>
      IfClauseErrorsLocal(n, s);
  }

  lemma {:induction false} IfClauseErrorsLocal(ifc: Node, s: CheckState)
    requires ifc.IfClause?
    ensures AgreeOutside(IfClauseEffect(ifc, s).errors, s.errors, NodeIds(ifc))
    decreases ifc, 1
  {
    var s0 := ConditionEffect(ifc.id, ifc.condition, s);
    OptionErrorsLocal(ifc.condition, s.chain, s.errors);
    var s1 := ScopedEffect(ifc.body, s0);
    ScopedErrorsLocal(ifc.body, s0);
    ElseErrorsLocal(ifc, s1);
  }

  lemma {:induction false} ElseErrorsLocal(ifc: Node, s: CheckState)
    requires ifc.IfClause?
    ensures AgreeOutside(ElseEffect(ifc, s).errors, s.errors,
      match ifc.elseClause case Some(e) => ListIds(e.body) case None => {})
    decreases ifc, 0
  {
    if ifc.elseClause.Some? {
      ScopedErrorsLocal(ifc.elseClause.value.body, s);
    }
  }

  lemma {:induction false} ScopedErrorsLocal(body: seq<Node>, s: CheckState)
    ensures AgreeOutside(ScopedEffect(body, s).errors, s.errors, ListIds(body))
    decreases body, 1
  {
    NodesErrorsLocal(body, CheckState(PushFrame(s.chain), s.errors));
  }

  lemma {:induction false} NodesErrorsLocal(ns: seq<Node>, s: CheckState)
    ensures AgreeOutside(NodesEffect(ns, s).errors, s.errors, ListIds(ns))
    decreases ns, 0
  {
    if ns != [] {
      NodeErrorsLocal(ns[0], s);
      NodesErrorsLocal(ns[1..], NodeEffect(ns[0], s));
    }
  }

  /** A node keeps the number of frames and every frame but the innermost;
      a style rule or an if-clause leaves the whole chain as it found it. */
  lemma {:induction false} NodeKeepsOuterFrames(n: Node, s: CheckState)
    ensures |NodeEffect(n, s).chain| == |s.chain|
    ensures s.chain != [] ==> NodeEffect(n, s).chain[1..] == s.chain[1..]
    ensures n.Stylerule? || n.IfClause? ==> NodeEffect(n, s).chain == s.chain
    decreases n, 2
  {
    match n
    case VariableAssignment(_, _, _) =>
    case Declaration(_, _, _) =>
    case Stylerule(_, body) =>
      ScopedKeepsChain(body, s);
    case IfClause(_, _, _, _) =>
      IfClauseKeepsChain(n, s);
  }

  lemma {:induction false} IfClauseKeepsChain(ifc: Node, s: CheckState)
    requires ifc.IfClause?
    ensures IfClauseEffect(ifc, s).chain == s.chain
    decreases ifc, 1
  {
    var s0 := ConditionEffect(ifc.id, ifc.condition, s);
    ScopedKeepsChain(ifc.body, s0);
    ElseKeepsChain(ifc, ScopedEffect(ifc.body, s0));
  }

  lemma {:induction false} ElseKeepsChain(ifc: Node, s: CheckState)
    requires ifc.IfClause?
    ensures ElseEffect(ifc, s).chain == s.chain
    decreases ifc, 0
  {
    if ifc.elseClause.Some? {
      ScopedKeepsChain(ifc.elseClause.value.body, s);
    }
  }

  /** Push, check the body, pop: whatever the body bound is gone and the
      chain is the one before the body, frame for frame. */
  lemma {:induction false} ScopedKeepsChain(body: seq<Node>, s: CheckState)
    ensures ScopedEffect(body, s).chain == s.chain
    decreases body, 1
  {
    NodesKeepOuterFrames(body, CheckState(PushFrame(s.chain), s.errors));
  }

  lemma {:induction false} NodesKeepOuterFrames(ns: seq<Node>, s: CheckState)
    ensures |NodesEffect(ns, s).chain| == |s.chain|
    ensures s.chain != [] ==> NodesEffect(ns, s).chain[1..] == s.chain[1..]
    decreases ns, 0
  {
    if ns != [] {
      NodeKeepsOuterFrames(ns[0], s);
      NodesKeepOuterFrames(ns[1..], NodeEffect(ns[0], s));
    }
  }

  /** The else-body is checked under the chain the if-clause started with:
      nothing the if-body bound is visible to it, only the errors carry over. */
  lemma IfBindingsInvisibleToElse(ifc: Node, s: CheckState)
    requires ifc.IfClause?
    ensures IfClauseEffect(ifc, s)
      == ElseEffect(ifc, CheckState(s.chain, ScopedEffect(ifc.body, ConditionEffect(ifc.id, ifc.condition, s)).errors))
  {
    ScopedKeepsChain(ifc.body, ConditionEffect(ifc.id, ifc.condition, s));
  }

  /** An if-clause directly under the root is marked and skipped: it gets the
      misplaced-if error, nothing inside it is annotated and no scope changes. */
  lemma MisplacedIfSkipsClause(n: Node, s: CheckState)
    requires n.IfClause?
    ensures RootChildEffect(n, s).chain == s.chain
    ensures ErrorAt(RootChildEffect(n, s).errors, n.id) == Some(MisplacedIf)
    ensures AgreeOutside(RootChildEffect(n, s).errors, s.errors, {n.id})
  {
  }

  /** The loop of `check` annotates only nodes of the tree it walks. */
  lemma {:induction false} RootErrorsLocal(ns: seq<Node>, s: CheckState)
    ensures AgreeOutside(RootEffect(ns, s).errors, s.errors, ListIds(ns))
  {
    if ns != [] {
      var n := ns[0];
      if !n.IfClause? {
        NodeErrorsLocal(n, s);
      }
      RootErrorsLocal(ns[1..], RootChildEffect(n, s));
    }
  }

  /** An assignment writes its binding into the innermost frame even when its
      expression is Undefined (which is reported on the assignment); every
      other name resolves as before and the outer frames are untouched. */
  lemma AssignmentAlwaysBinds(id: NodeId, name: string, e: Option<Expression>, s: CheckState)
    requires s.chain != []
    ensures var r := NodeEffect(VariableAssignment(id, Some(name), e), s);
      && Lookup(r.chain, name) == Some(TypeOfOption(e, s.chain))
      && (forall other :: other != name ==> Lookup(r.chain, other) == Lookup(s.chain, other))
      && r.chain[1..] == s.chain[1..]
      && (TypeOfOption(e, s.chain) == Undefined ==> ErrorAt(r.errors, id) == Some(UndefinedAssignment(Some(name))))
      && (TypeOfOption(e, s.chain) != Undefined ==> r.errors == s.errors)
  {
    var t := TypeOfOption(e, s.chain);
    BindThenLookup(s.chain, name, t, name);
    forall other | other != name
      ensures Lookup(BindInnermost(s.chain, name, t), other) == Lookup(s.chain, other)
    {
      BindThenLookup(s.chain, name, t, other);
    }
    if t != Undefined && e.Some? {
      WellTypedHasNoErrors(e.value, s.chain, s.errors);
    }
  }

  /** Property names are compared without regard to case: two spellings of
      one name get the same verdict, up to the spelling the error quotes. */
  lemma VerdictIgnoresCase(p: string, q: string, t: ExpressionType)
    requires EqualsIgnoreCase(p, q)
    ensures DeclarationVerdict(Some(p), t).None? <==> DeclarationVerdict(Some(q), t).None?
    ensures DeclarationVerdict(Some(p), t) == Some(RequiresColor(p)) <==> DeclarationVerdict(Some(q), t) == Some(RequiresColor(q))
    ensures DeclarationVerdict(Some(p), t) == Some(RequiresSize(p)) <==> DeclarationVerdict(Some(q), t) == Some(RequiresSize(q))
    ensures DeclarationVerdict(Some(p), t) == Some(PropertyNotAllowed(p)) <==> DeclarationVerdict(Some(q), t) == Some(PropertyNotAllowed(q))
  {
  }
}
