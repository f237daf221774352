/** What the evaluator's rewrite guarantees: nested bodies come out holding
    only declarations and style rules, the root's own list keeps its shape,
    a style rule leaves the scopes and errors as it found them, and the
    folding arithmetic behaves as Java's `int` does. */
module EvaluatorProperties {
  import opened Wrappers
  import opened Ints
  import opened Ast
  import opened Scopes
  import opened Transforms

  /** A body list with nothing left to evaluate: only declarations and style
      rules whose own bodies are resolved. */
  predicate Resolved(ns: seq<Node>) {
    forall i :: 0 <= i < |ns| ==> ns[i].Declaration? || (ns[i].Stylerule? && Resolved(ns[i].body))
  }

  lemma ResolvedCons(n: Node, ns: seq<Node>)
    requires n.Declaration? || (n.Stylerule? && Resolved(n.body))
    requires Resolved(ns)
    ensures Resolved([n] + ns)
  {
    forall i | 0 <= i < |[n] + ns|
      ensures ([n] + ns)[i].Declaration? || (([n] + ns)[i].Stylerule? && Resolved(([n] + ns)[i].body))
    {
      if i > 0 {
        assert ([n] + ns)[i] == ns[i - 1];
      }
    }
  }

  /** A nested body list comes out resolved: every assignment is gone, every
      if-clause is replaced by a branch, and the same holds inside every style
      rule, at any depth. */
  lemma {:induction false} NestedListResolved(ns: seq<Node>, s: EvalState)
    decreases ListSize(ns), 2
    ensures Resolved(Process(ns, false, s).nodes)
  {
    if ns != [] {
      NestedNodeResolved(ns[0], ns[1..], s);
    }
  }

  lemma {:induction false} NestedNodeResolved(n: Node, rest: seq<Node>, s: EvalState)
    decreases NodeSize(n) + ListSize(rest), 1
    ensures Resolved(ProcessFirst(n, rest, false, s).nodes)
  {
    match n
    case VariableAssignment(_, _, _) =>
      NestedListResolved(rest, s.(chain := AssignChain(n, s.chain)));
    case Declaration(_, _, _) =>
      NestedListResolved(rest, s);
      ResolvedCons(EvaluatedDeclaration(n, s.chain), Process(rest, false, s).nodes);
    case Stylerule(_, _) =>
      var rule := ProcessRule(n, s);
      RuleResolved(n, s);
      NestedListResolved(rest, rule.1);
      ResolvedCons(rule.0, Process(rest, false, rule.1).nodes);
    case IfClause(_, _, _, _) =>
      BranchSmaller(n, s.chain);
      ListSizeAppend(Branch(n, s.chain), rest);
      NestedListResolved(Branch(n, s.chain) + rest, s);
  }

  /** A processed style rule is still a style rule, with the same selectors
      and a resolved body. */
  lemma {:induction false} RuleResolved(rule: Node, s: EvalState)
    requires rule.Stylerule?
    decreases NodeSize(rule), 0
    ensures ProcessRule(rule, s).0.Stylerule? && ProcessRule(rule, s).0.selectors == rule.selectors
    ensures Resolved(ProcessRule(rule, s).0.body)
  {
    NestedListResolved(rule.body, s.(chain := PushFrame(s.chain)));
  }

  /** Processing a list writes only the innermost frame and keeps the number
      of frames; a nested list attaches no errors. */
  lemma {:induction false} ListKeepsOuterFrames(ns: seq<Node>, top: bool, s: EvalState)
    decreases ListSize(ns), 2
    ensures |Process(ns, top, s).state.chain| == |s.chain|
    ensures s.chain != [] ==> Process(ns, top, s).state.chain[1..] == s.chain[1..]
    ensures !top ==> Process(ns, top, s).state.errors == s.errors
  {
    if ns != [] {
      NodeKeepsOuterFrames(ns[0], ns[1..], top, s);
    }
  }

  lemma {:induction false} NodeKeepsOuterFrames(n: Node, rest: seq<Node>, top: bool, s: EvalState)
    decreases NodeSize(n) + ListSize(rest), 1
    ensures |ProcessFirst(n, rest, top, s).state.chain| == |s.chain|
    ensures s.chain != [] ==> ProcessFirst(n, rest, top, s).state.chain[1..] == s.chain[1..]
    ensures !top ==> ProcessFirst(n, rest, top, s).state.errors == s.errors
  {
    match n
    case VariableAssignment(_, _, _) =>
      ListKeepsOuterFrames(rest, top, s.(chain := AssignChain(n, s.chain)));
    case Declaration(_, _, _) =>
      ListKeepsOuterFrames(rest, top, s);
    case Stylerule(_, _) =>
      RuleRestoresState(n, s);
      ListKeepsOuterFrames(rest, top, s);
    case IfClause(id, _, _, _) =>
      if top {
        ListKeepsOuterFrames(rest, top, s.(errors := s.errors[id := MisplacedIf]));
      } else {
        BranchSmaller(n, s.chain);
        ListSizeAppend(Branch(n, s.chain), rest);
        ListKeepsOuterFrames(Branch(n, s.chain) + rest, top, s);
      }
  }

  /** `processStylerule` pairs its push with its pop: after a style rule the
      scopes hold exactly what they held before (bindings made in the rule's
      body, and in the branches spliced into it, are gone), and no error has
      been attached. */
  lemma {:induction false} RuleRestoresState(rule: Node, s: EvalState)
    requires rule.Stylerule?
    decreases NodeSize(rule), 0
    ensures ProcessRule(rule, s).1 == s
  {
    ListKeepsOuterFrames(rule.body, false, s.(chain := PushFrame(s.chain)));
  }

  /** What the root's own list turns into, node by node: if-clauses are kept
      as they are, assignments and declarations keep their id and name or
      property, and style rules keep their selectors and get resolved bodies. */
  predicate TopImage(orig: Node, res: Node) {
    match orig
    case IfClause(_, _, _, _) => res == orig
    case VariableAssignment(id, name, _) => res.VariableAssignment? && res.id == id && res.name == name
    case Declaration(id, property, _) => res.Declaration? && res.id == id && res.property == property
    case Stylerule(selectors, _) => res.Stylerule? && res.selectors == selectors && Resolved(res.body)
  }

  /** The ids of the if-clauses directly in a list. */
  function IfIds(ns: seq<Node>): set<NodeId> {
    set i | 0 <= i < |ns| && ns[i].IfClause? :: ns[i].id
  }

  /** One node of the root's own list: it turns into one node `head`, and
      the scan goes on from the state `next`. */
  lemma TopStep(n: Node, rest: seq<Node>, s: EvalState) returns (head: Node, next: EvalState)
    ensures ProcessFirst(n, rest, true, s) == Prepend([head], Process(rest, true, next))
    ensures TopImage(n, head)
    ensures next.errors == if n.IfClause? then s.errors[n.id := MisplacedIf] else s.errors
  {
    match n
    case VariableAssignment(_, _, _) =>
      head, next := EvaluatedAssignment(n, s.chain), s.(chain := AssignChain(n, s.chain));
    case Declaration(_, _, _) =>
      head, next := EvaluatedDeclaration(n, s.chain), s;
    case Stylerule(_, _) =>
      RuleResolved(n, s);
      RuleRestoresState(n, s);
      head, next := ProcessRule(n, s).0, ProcessRule(n, s).1;
    case IfClause(id, _, _, _) =>
      head, next := n, s.(errors := s.errors[id := MisplacedIf]);
  }

  /** At top level nothing is removed or spliced: the list keeps its length
      and each node its kind, and nested lists come out resolved. */
  lemma {:induction false} TopLevelShape(ns: seq<Node>, s: EvalState)
    ensures |Process(ns, true, s).nodes| == |ns|
    ensures forall i :: 0 <= i < |ns| ==> TopImage(ns[i], Process(ns, true, s).nodes[i])
  {
    if ns != [] {
      var r := Process(ns, true, s);
      var head, next := TopStep(ns[0], ns[1..], s);
      TopLevelShape(ns[1..], next);
      var tail := Process(ns[1..], true, next);
      assert r.nodes == [head] + tail.nodes;
      forall i | 1 <= i < |ns|
        ensures TopImage(ns[i], r.nodes[i])
      {
        assert ns[i] == ns[1..][i - 1] && r.nodes[i] == tail.nodes[i - 1];
      }
    }
  }

  /** The only errors the evaluator attaches: every if-clause directly under
      the root is marked as misplaced, and every other node keeps the error
      it had. */
  lemma {:induction false} TopLevelErrors(ns: seq<Node>, s: EvalState)
    ensures forall i :: 0 <= i < |ns| && ns[i].IfClause? ==>
      ErrorAt(Process(ns, true, s).state.errors, ns[i].id) == Some(MisplacedIf)
    ensures AgreeOutside(Process(ns, true, s).state.errors, s.errors, IfIds(ns))
  {
    if ns != [] {
      var n := ns[0];
      var head, next := TopStep(n, ns[1..], s);
      TopLevelErrors(ns[1..], next);
      var after := Process(ns, true, s).state.errors;
      assert after == Process(ns[1..], true, next).state.errors;
      forall i | 0 <= i < |ns| && ns[i].IfClause?
        ensures ErrorAt(after, ns[i].id) == Some(MisplacedIf)
      {
        if i > 0 {
          assert ns[i] == ns[1..][i - 1];
        } else if ns[i].id in IfIds(ns[1..]) {
          var j :| 0 <= j < |ns[1..]| && ns[1..][j].IfClause? && ns[1..][j].id == n.id;
          assert ns[1..][j] == ns[j + 1];
        }
      }
      forall k | k !in IfIds(ns)
        ensures ErrorAt(after, k) == ErrorAt(s.errors, k)
      {
        assert n.IfClause? ==> k != n.id;
      }
    }
  }

  /** The whole of `apply`: a missing root changes nothing; otherwise the
      root's list keeps its shape and only top-level if-clauses get errors. */
  lemma EvaluateTreeShape(root: Option<Stylesheet>, errors: ErrorMap)
    ensures root.None? ==> EvaluateTree(root, errors) == (root, errors)
    ensures root.Some? ==> (EvaluateTree(root, errors).0.Some?
      && |EvaluateTree(root, errors).0.value.body| == |root.value.body|
      && (forall i :: 0 <= i < |root.value.body| ==>
            TopImage(root.value.body[i], EvaluateTree(root, errors).0.value.body[i]))
      && AgreeOutside(EvaluateTree(root, errors).1, errors, IfIds(root.value.body)))
  {
    if root.Some? {
      TopLevelShape(root.value.body, EvalState([map[]], errors));
      TopLevelErrors(root.value.body, EvalState([map[]], errors));
    }
  }

  /** A declaration evaluated once stays as it is when evaluated again under
      any chain, if its expression folded the first time. */
  lemma EvaluatedDeclarationIsFixpoint(decl: Node, chain: ValueChain, later: ValueChain)
    requires decl.Declaration? && FoldOption(decl.expression, chain).Some?
    ensures EvaluatedDeclaration(EvaluatedDeclaration(decl, chain), later) == EvaluatedDeclaration(decl, chain)
  {
  }

  /** A body list with nothing left to fold: only declarations whose value
      is a literal or missing, and style rules whose bodies are folded. */
  predicate FullyFolded(ns: seq<Node>) {
    forall i :: 0 <= i < |ns| ==>
      (ns[i].Declaration? && (ns[i].expression.None? || ns[i].expression.value.Lit?))
      || (ns[i].Stylerule? && FullyFolded(ns[i].body))
  }

  /** Evaluating a fully folded list, at any level, changes neither the list
      nor the scopes nor the errors. */
  lemma {:induction false} FoldedListIsFixpoint(ns: seq<Node>, top: bool, s: EvalState)
    requires FullyFolded(ns)
    decreases ListSize(ns), 2
    ensures Process(ns, top, s) == Processed(ns, s)
  {
    if ns != [] {
      assert FullyFolded(ns[1..]) by {
        forall i | 0 <= i < |ns[1..]|
          ensures (ns[1..][i].Declaration? && (ns[1..][i].expression.None? || ns[1..][i].expression.value.Lit?))
            || (ns[1..][i].Stylerule? && FullyFolded(ns[1..][i].body))
        {
          assert ns[1..][i] == ns[i + 1];
        }
      }
      FoldedNodeIsFixpoint(ns[0], ns[1..], top, s);
      assert [ns[0]] + ns[1..] == ns;
    }
  }

  lemma {:induction false} FoldedNodeIsFixpoint(n: Node, rest: seq<Node>, top: bool, s: EvalState)
    requires (n.Declaration? && (n.expression.None? || n.expression.value.Lit?)) || (n.Stylerule? && FullyFolded(n.body))
    requires FullyFolded(rest)
    decreases NodeSize(n) + ListSize(rest), 1
    ensures ProcessFirst(n, rest, top, s) == Processed([n] + rest, s)
  {
    FoldedListIsFixpoint(rest, top, s);
    if n.Stylerule? {
      FoldedListIsFixpoint(n.body, false, s.(chain := PushFrame(s.chain)));
      assert ProcessRule(n, s) == (n, s);
    } else {
      assert EvaluatedDeclaration(n, s.chain) == n;
    }
  }

  /** `apply` on a tree whose root list is fully folded leaves the root and
      the errors as they are. */
  lemma FoldedTreeIsFixpoint(sheet: Stylesheet, errors: ErrorMap)
    requires FullyFolded(sheet.body)
    ensures EvaluateTree(Some(sheet), errors) == (Some(sheet), errors)
  {
    FoldedListIsFixpoint(sheet.body, true, EvalState([map[]], errors));
  }

  /** A list of one declaration or one style rule is processed as that node. */
  lemma ProcessOne(n: Node, top: bool, s: EvalState)
    requires n.Declaration? || n.Stylerule?
    ensures n.Declaration? ==> Process([n], top, s) == Processed([EvaluatedDeclaration(n, s.chain)], s)
    ensures n.Stylerule? ==> Process([n], top, s) == Processed([ProcessRule(n, s).0], ProcessRule(n, s).1)
  {
    assert [n][1..] == [];
    assert Process([], top, s) == Processed([], s);
    if n.Stylerule? {
      assert Process([], top, ProcessRule(n, s).1) == Processed([], ProcessRule(n, s).1);
    }
  }

  /** On a tree that is not fully folded, a second `apply` can fold more
      than the first: a rule-local assignment shadows a root variable while
      the rule is evaluated and is then removed, so the second pass sees the
      root's value. Here `A: 5px; p { A: #ff0000; width: A + 1px; }` first
      keeps `A + 1px` (a colour plus a pixel value does not fold), and the
      second pass folds it to `6px`. */
  lemma SecondApplyFoldsFurther()
    ensures
      var rootAssign := VariableAssignment(1, Some("A"), Some(Lit(PixelLiteral(5))));
      var ruleAssign := VariableAssignment(2, Some("A"), Some(Lit(ColorLiteral("#ff0000"))));
      var width := Declaration(3, Some("width"), Some(AddOperation(VariableReference(4, "A"), Lit(PixelLiteral(1)))));
      var sheet := Stylesheet([rootAssign, Stylerule([TagSelector("p")], [ruleAssign, width])]);
      var once := EvaluateTree(Some(sheet), map[]);
      var twice := EvaluateTree(once.0, once.1);
      once.0 == Some(Stylesheet([rootAssign, Stylerule([TagSelector("p")], [width])]))
      && twice.0 == Some(Stylesheet([rootAssign, Stylerule([TagSelector("p")], [Declaration(3, Some("width"), Some(Lit(PixelLiteral(6))))])]))
  {
    var rootAssign := VariableAssignment(1, Some("A"), Some(Lit(PixelLiteral(5))));
    var ruleAssign := VariableAssignment(2, Some("A"), Some(Lit(ColorLiteral("#ff0000"))));
    var width := Declaration(3, Some("width"), Some(AddOperation(VariableReference(4, "A"), Lit(PixelLiteral(1)))));
    var folded := Declaration(3, Some("width"), Some(Lit(PixelLiteral(6))));
    var rule := Stylerule([TagSelector("p")], [ruleAssign, width]);
    var rule1 := Stylerule([TagSelector("p")], [width]);
    var rule2 := Stylerule([TagSelector("p")], [folded]);
    var global: ValueChain := [map["A" := PixelLiteral(5)]];
    var s := EvalState(global, map[]);
    // The first pass: inside the rule, A is the colour.
    var inner: ValueChain := [map["A" := ColorLiteral("#ff0000")]] + global;
    assert Lookup(inner, "A") == Some(ColorLiteral("#ff0000"));
    assert FoldAdd(Some(ColorLiteral("#ff0000")), Some(PixelLiteral(1))) == None;
    assert Fold(VariableReference(4, "A"), inner) == Some(ColorLiteral("#ff0000"));
    assert Fold(Lit(PixelLiteral(1)), inner) == Some(PixelLiteral(1));
    assert FoldOption(width.expression, inner) == None;
    assert EvaluatedDeclaration(width, inner) == width;
    assert Process([width], false, EvalState(inner, map[])) == Processed([width], EvalState(inner, map[])) by {
      ProcessOne(width, false, EvalState(inner, map[]));
    }
    assert AssignChain(ruleAssign, PushFrame(global)) == inner;
    assert Process([ruleAssign, width], false, EvalState(PushFrame(global), map[])).nodes == [width] by {
      assert [ruleAssign, width][1..] == [width];
    }
    RuleRestoresState(rule, s);
    assert ProcessRule(rule, s) == (rule1, s);
    assert Process([rule], true, s) == Processed([rule1], s) by {
      ProcessOne(rule, true, s);
    }
    assert AssignChain(rootAssign, [map[]]) == global;
    assert EvaluatedAssignment(rootAssign, [map[]]) == rootAssign;
    assert Process([rootAssign, rule], true, EvalState([map[]], map[])) == Processed([rootAssign, rule1], s) by {
      assert [rootAssign, rule][1..] == [rule];
    }
    // The second pass: inside the rule, A is the root's pixel value.
    var pushed := PushFrame(global);
    assert Lookup(pushed, "A") == Some(PixelLiteral(5)) by {
      assert "A" !in pushed[0] && pushed[1..] == global;
    }
    assert FoldAdd(Some(PixelLiteral(5)), Some(PixelLiteral(1))) == Some(PixelLiteral(6));
    assert Fold(VariableReference(4, "A"), pushed) == Some(PixelLiteral(5));
    assert Fold(Lit(PixelLiteral(1)), pushed) == Some(PixelLiteral(1));
    assert FoldOption(width.expression, pushed) == Some(PixelLiteral(6));
    assert EvaluatedDeclaration(width, pushed) == folded;
    assert Process([width], false, EvalState(pushed, map[])).nodes == [folded] by {
      ProcessOne(width, false, EvalState(pushed, map[]));
    }
    RuleRestoresState(rule1, s);
    assert ProcessRule(rule1, s) == (rule2, s);
    assert Process([rule1], true, s) == Processed([rule2], s) by {
      ProcessOne(rule1, true, s);
    }
    assert Process([rootAssign, rule1], true, EvalState([map[]], map[])).nodes == [rootAssign, rule2] by {
      assert [rootAssign, rule1][1..] == [rule1];
    }
  }

  /** Adding then subtracting the same operand gives back the first operand,
      `int` wrap-around included. */
  lemma {:induction false} SubtractUndoesAdd(a: Literal, b: Literal)
    requires SameNumericKind(a, b)
    ensures FoldSubtract(FoldAdd(Some(a), Some(b)), Some(b)) == Some(a)
  {
    var sum := FoldAdd(Some(a), Some(b));
    Wrap32Cancels(a.value, b.value);
    assert sum.value.value == Wrap32(a.value + b.value);
  }

  /** Addition and multiplication fold the same whichever operand comes first. */
  lemma FoldCommutes(a: Option<Literal>, b: Option<Literal>)
    ensures FoldAdd(a, b) == FoldAdd(b, a)
    ensures FoldMultiply(a, b) == FoldMultiply(b, a)
  {
  }

  /** An if-clause's body is spliced into the enclosing list as it stands and
      scanned in the enclosing frame: an assignment inside the if-body stays
      visible to the nodes after the clause. */
  lemma IfBodyBindingIsVisibleAfterClause()
    ensures
      var assign := VariableAssignment(1, Some("w"), Some(Lit(PixelLiteral(10))));
      var ifc := IfClause(2, Some(Lit(BoolLiteral(true))), [assign], None);
      var decl := Declaration(3, Some("width"), Some(VariableReference(4, "w")));
      Process([ifc, decl], false, EvalState([map[]], map[])).nodes
        == [Declaration(3, Some("width"), Some(Lit(PixelLiteral(10))))]
  {
    var assign := VariableAssignment(1, Some("w"), Some(Lit(PixelLiteral(10))));
    var ifc := IfClause(2, Some(Lit(BoolLiteral(true))), [assign], None);
    var decl := Declaration(3, Some("width"), Some(VariableReference(4, "w")));
    var s := EvalState([map[]], map[]);
    var s' := s.(chain := [map["w" := PixelLiteral(10)]]);
    var folded := Declaration(3, Some("width"), Some(Lit(PixelLiteral(10))));
    assert Lookup(s'.chain, "w") == Some(PixelLiteral(10));
    assert EvaluatedDeclaration(decl, s'.chain) == folded;
    assert Process([decl], false, s') == Processed([folded], s') by {
      assert [decl][1..] == [];
      assert Process([], false, s') == Processed([], s');
      assert ProcessFirst(decl, [], false, s') == Prepend([folded], Processed([], s'));
      assert [folded] + [] == [folded];
    }
    assert AssignChain(assign, s.chain) == s'.chain;
    assert Process([assign, decl], false, s) == Processed([folded], s') by {
      assert [assign, decl][1..] == [decl];
    }
    assert Branch(ifc, s.chain) + [decl] == [assign, decl];
    assert Process([ifc, decl], false, s) == Process([assign, decl], false, s) by {
      assert [ifc, decl][1..] == [decl];
    }
  }
}
