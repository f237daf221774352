/** How the evaluator's folding relates to the checker's typing: a folded
    literal always has the type the checker infers, and an expression the
    checker types as a Pixel, Percentage or Scalar always folds. */
module FoldSoundness {
  import opened Wrappers
  import opened Ast
  import opened Scopes
  import opened Checking
  import opened Transforms

  /** The types of the values in one frame. */
  function FrameTypes(frame: map<string, Literal>): (types: map<string, ExpressionType>)
    ensures types.Keys == frame.Keys
    ensures forall name :: name in frame ==> types[name] == LiteralType(frame[name])
  {
    map name | name in frame :: LiteralType(frame[name])
  }

  /** The chain of types that a chain of values stands for. */
  function TypesOf(chain: ValueChain): (types: TypeChain)
    ensures |types| == |chain|
  {
    if chain == [] then [] else [FrameTypes(chain[0])] + TypesOf(chain[1..])
  }

  /** Looking a name up among the types finds the type of its value. */
  lemma {:induction false} LookupTypesOf(chain: ValueChain, name: string)
    ensures Lookup(TypesOf(chain), name)
      == match Lookup(chain, name) case Some(lit) => Some(LiteralType(lit)) case None => None
  {
    if chain != [] && name !in chain[0] {
      assert TypesOf(chain)[1..] == TypesOf(chain[1..]);
      LookupTypesOf(chain[1..], name);
    }
  }

  /** Whatever an expression folds to has the type the checker gives it. */
  lemma {:induction false} FoldHasCheckedType(e: Expression, chain: ValueChain)
    ensures Fold(e, chain).Some? ==> LiteralType(Fold(e, chain).value) == TypeOf(e, TypesOf(chain))
  {
    match e
    case Lit(_) =>
    case VariableReference(_, name) =>
      LookupTypesOf(chain, name);
    case AddOperation(l, r) =>
      FoldHasCheckedType(l, chain);
      FoldHasCheckedType(r, chain);
    case SubtractOperation(l, r) =>
      FoldHasCheckedType(l, chain);
      FoldHasCheckedType(r, chain);
    case MultiplyOperation(_, l, r) =>
      FoldHasCheckedType(l, chain);
      FoldHasCheckedType(r, chain);
    case Other(_) =>
  }

  /** An expression the checker types as a Pixel, a Percentage or a Scalar
      folds completely. (Bool and Color expressions need not: the evaluator
      does not add them.) */
  lemma {:induction false} SizedExpressionFolds(e: Expression, chain: ValueChain)
    ensures TypeOf(e, TypesOf(chain)) in {Pixel, Percentage, Scalar} ==> Fold(e, chain).Some?
  {
    match e
    case Lit(_) =>
    case VariableReference(_, name) =>
      LookupTypesOf(chain, name);
    case AddOperation(l, r) =>
      SizedExpressionFolds(l, chain);
      SizedExpressionFolds(r, chain);
      FoldHasCheckedType(l, chain);
      FoldHasCheckedType(r, chain);
    case SubtractOperation(l, r) =>
      SizedExpressionFolds(l, chain);
      SizedExpressionFolds(r, chain);
      FoldHasCheckedType(l, chain);
      FoldHasCheckedType(r, chain);
    case MultiplyOperation(_, l, r) =>
      SizedExpressionFolds(l, chain);
      SizedExpressionFolds(r, chain);
      FoldHasCheckedType(l, chain);
      FoldHasCheckedType(r, chain);
    case Other(_) =>
  }

  /** A `width` or `height` declaration that the checker accepts is rewritten
      by the evaluator to a Pixel or Percentage literal, when the values in
      scope have the types the checker saw. */
  lemma AcceptedSizeDeclarationFolds(decl: Node, chain: ValueChain)
    requires decl.Declaration? && decl.property.Some? && IsSizeProperty(decl.property.value)
    requires DeclarationVerdict(decl.property, TypeOfOption(decl.expression, TypesOf(chain))).None?
    ensures EvaluatedDeclaration(decl, chain).expression.Some?
    ensures EvaluatedDeclaration(decl, chain).expression.value.Lit?
    ensures EvaluatedDeclaration(decl, chain).expression.value.literal.PixelLiteral?
      || EvaluatedDeclaration(decl, chain).expression.value.literal.PercentageLiteral?
  {
    var e := decl.expression.value;
    SizedExpressionFolds(e, chain);
    FoldHasCheckedType(e, chain);
  }
}
