# ICSS compiler core, modelled in Dafny

This project models the semantic middle of a compiler for ICSS, a small
CSS-like styling language with variables, arithmetic on pixel, percentage and
scalar values, and if/else clauses inside style rules. The model covers:

- the pieces on either side that follow clear rules:
  - on the parsing side, the listener's classification of value and selector
    text, and its folding of operand lists into left-nested operation trees;
  - on the output side, the generator that writes CSS text.
- the **type checker** (`Checker`). It infers a type for every expression and
  keeps a chain of type scopes. It restricts declarations to an allow-list of
  properties and attaches errors to nodes.
- the **evaluator** (`Evaluator`). It folds literal arithmetic, resolves
  variables, removes assignments from rule bodies and splices the chosen
  branch of each if-clause into the enclosing list.
- the **linked list** (`HANLinkedList`) that both passes use as their stack of
  scopes.

The model is organised as follows:

- The tree is a family of Dafny datatypes (`ast.dfy`).
  - The `AST` object holds the root and a map from node id to the error attached to
    that node. Ids stand for Java object identity.
- The linked list is a class over heap nodes with a dummy header
  (`han_linked_list.dfy`).
  - It is specified by a ghost sequence of its contents.
  - Its frames are `Frame` objects whose map is updated in place
    (`scopes.dfy`).
- The checker and the evaluator are classes whose methods do what the Java
  methods do.
  - Each method is proved against a pure function stating what it computes
    (`NodeEffect`, `Process`, ...).
  - The properties are proved as lemmas about those functions
    (`checker_properties.dfy`, `evaluator_properties.dfy`,
    `fold_soundness.dfy`).
- Java's 32-bit `int` is modelled explicitly (`ints.dfy`):
  - the evaluator's `+`, `-` and `*` wrap around;
  - `Integer.parseInt` rejects values out of range;
  - `Integer.toString` is `DecimalText`.
- The listener's hooks work on a `seq` standing for the expression stack, top
  last (`listener.dfy`).
- The generator's loops build a string, and are proved against the text
  functions (`generator.dfy`).
- `round_trip.dfy` relates the generator's literal text to the listener's
  classification.

## Model

Paths are relative to the repository root.

| member | source | states |
|---|---|---|
| Ints.Wrap32 | startcode/src/main/java/nl/han/ica/icss/transforms/Evaluator.java:166-167 | the result of Java `int` arithmetic: congruent to the exact value modulo 2^32, and equal to it whenever it fits in an `int` |
| Ints.ParseIntOfDecimalText | startcode/src/main/java/nl/han/ica/icss/generator/Generator.java:62-68 | `Integer.parseInt` of `Integer.toString(n)` gives back `n` for every `int` |
| Ints.ParseIntOfDigits | startcode/src/main/java/nl/han/ica/icss/parser/ASTListener.java:236-237 | all-digit text parses to its value when that fits in an `int`, and fails to parse when it does not |
| Strings.ToLower | startcode/src/main/java/nl/han/ica/icss/parser/ASTListener.java:144 | `toLowerCase` keeps the length and lower-cases each character |
| Datastructures.HANLinkedList.SpineDistinct | startcode/src/main/java/nl/han/ica/datastructures/HANLinkedList.java:5-12 | the chain from the header holds no node twice, so it is acyclic and `size` counts the nodes reachable after the header |
| Datastructures.HANLinkedList.constructor | startcode/src/main/java/nl/han/ica/datastructures/HANLinkedList.java:14-17 | a new list is empty |
| Datastructures.HANLinkedList.AddFirst | startcode/src/main/java/nl/han/ica/datastructures/HANLinkedList.java:20-25 | the value lands at position 0 and every earlier element moves up by one |
| Datastructures.HANLinkedList.Clear | startcode/src/main/java/nl/han/ica/datastructures/HANLinkedList.java:28-31 | the list is empty afterwards |
| Datastructures.HANLinkedList.Insert | startcode/src/main/java/nl/han/ica/datastructures/HANLinkedList.java:34-46 | fails, changing nothing, unless 0 ≤ index ≤ size; otherwise the value lands at `index`, earlier elements stay, later ones move up |
| Datastructures.HANLinkedList.LinkAfter | startcode/src/main/java/nl/han/ica/datastructures/HANLinkedList.java:42-45 | linking a new node after the node at `index` inserts the value at `index` |
| Datastructures.HANLinkedList.Delete | startcode/src/main/java/nl/han/ica/datastructures/HANLinkedList.java:49-59 | fails, changing nothing, unless 0 ≤ pos < size; otherwise the element at `pos` is removed and the others keep their order |
| Datastructures.HANLinkedList.UnlinkAfter | startcode/src/main/java/nl/han/ica/datastructures/HANLinkedList.java:57-58 | bypassing the node after the node at `pos` removes the element at `pos` |
| Datastructures.HANLinkedList.Get | startcode/src/main/java/nl/han/ica/datastructures/HANLinkedList.java:62-71 | the element at `pos` when 0 ≤ pos < size, and the out-of-bounds failure otherwise |
| Datastructures.HANLinkedList.RemoveFirst | startcode/src/main/java/nl/han/ica/datastructures/HANLinkedList.java:74-78 | an empty list stays empty; otherwise position 0 is dropped |
| Datastructures.HANLinkedList.GetFirst | startcode/src/main/java/nl/han/ica/datastructures/HANLinkedList.java:81-84 | nothing for an empty list, element 0 otherwise |
| Datastructures.HANLinkedList.GetSize | startcode/src/main/java/nl/han/ica/datastructures/HANLinkedList.java:87-89 | the number of elements |
| Scopes.LookupInnermost | startcode/src/main/java/nl/han/ica/icss/checker/Checker.java:199-208 | a lookup fails exactly when no frame holds the name, and otherwise finds the value in the first frame, innermost first, that holds it |
| Scopes.LookupSkipsFrames | startcode/src/main/java/nl/han/ica/icss/checker/Checker.java:202-206 | frames without the name do not affect a lookup |
| Scopes.Frame.Put | startcode/src/main/java/nl/han/ica/icss/checker/Checker.java:92 | `HashMap.put` binds the name and keeps every other binding |
| Scopes.PushScope | startcode/src/main/java/nl/han/ica/icss/checker/Checker.java:99 | pushing adds one empty innermost frame and keeps the others |
| Scopes.PopScope | startcode/src/main/java/nl/han/ica/icss/checker/Checker.java:105 | popping drops the innermost frame and keeps the others |
| Scopes.BindInScope | startcode/src/main/java/nl/han/ica/icss/checker/Checker.java:90-93 | the binding goes into the innermost frame only; with no frame nothing changes |
| Scopes.FindBinding | startcode/src/main/java/nl/han/ica/icss/checker/Checker.java:199-208 | the index loop over the frames returns what the innermost-first lookup finds |
| Scopes.BindThenLookup | startcode/src/main/java/nl/han/ica/icss/checker/Checker.java:90-93 | after a binding, the bound name finds the new value and every other name finds what it found before |
| Checking.SameTypeRule | startcode/src/main/java/nl/han/ica/icss/checker/Checker.java:163-178 | Add and Subtract are defined exactly when both operands have one defined type, Bool and Color included, and then have that type |
| Checking.MultiplyRule | startcode/src/main/java/nl/han/ica/icss/checker/Checker.java:179-195 | Scalar×Pixel and Pixel×Scalar give Pixel, Scalar×Scalar gives Scalar, and every other pair is Undefined |
| Checking.DeclarationVerdict | startcode/src/main/java/nl/han/ica/icss/checker/Checker.java:108-141 | a declaration passes exactly when its type is defined, its property is present, and the property allows the type (colour properties take Color, size properties take Pixel or Percentage); an Undefined type gives the one Undefined error; an unknown property is not allowed |
| Checking.Checker.Check | startcode/src/main/java/nl/han/ica/icss/checker/Checker.java:17-33 | the tree is unchanged and its errors are those of `TreeErrors`, which starts from a single global frame |
| Checking.Checker.CheckRootChild | startcode/src/main/java/nl/han/ica/icss/checker/Checker.java:25-31 | a root-level if-clause gets the misplaced-if error and is skipped; any other child is checked |
| Checking.Checker.ResetScopes | startcode/src/main/java/nl/han/ica/icss/checker/Checker.java:18-20 | the chain is a new list holding one empty frame |
| Checking.Checker.CheckNode | startcode/src/main/java/nl/han/ica/icss/checker/Checker.java:36-46 | dispatch on the node kind, ending with the same number of frames and with the effect `NodeEffect` states |
| Checking.Checker.HandleIfClause | startcode/src/main/java/nl/han/ica/icss/checker/Checker.java:48-76 | condition, if-body, else-body as `IfClauseEffect` states |
| Checking.Checker.CheckBranches | startcode/src/main/java/nl/han/ica/icss/checker/Checker.java:58-75 | the if-body in a frame of its own, then the else-body in another |
| Checking.Checker.HandleElseClause | startcode/src/main/java/nl/han/ica/icss/checker/Checker.java:67-75 | the else-body, if any, in a frame of its own |
| Checking.Checker.CheckCondition | startcode/src/main/java/nl/han/ica/icss/checker/Checker.java:52-56 | a condition that is not Bool puts an error on the if-clause |
| Checking.Checker.CheckInNewScope | startcode/src/main/java/nl/han/ica/icss/checker/Checker.java:99-105 | push, check each child, pop: the chain ends as it started |
| Checking.Checker.CheckBody | startcode/src/main/java/nl/han/ica/icss/checker/Checker.java:100-103 | each child checked in order |
| Checking.Checker.EnterScope | startcode/src/main/java/nl/han/ica/icss/checker/Checker.java:59 | one new empty innermost frame |
| Checking.Checker.ExitScope | startcode/src/main/java/nl/han/ica/icss/checker/Checker.java:65 | the innermost frame is dropped |
| Checking.Checker.HandleVariableAssignment | startcode/src/main/java/nl/han/ica/icss/checker/Checker.java:78-94 | an Undefined expression is an error, and the name is bound to the type in the innermost frame either way |
| Checking.Checker.StoreVariableType | startcode/src/main/java/nl/han/ica/icss/checker/Checker.java:89-93 | a named assignment binds in the innermost frame; an unnamed one changes nothing |
| Checking.Checker.CheckStyleRule | startcode/src/main/java/nl/han/ica/icss/checker/Checker.java:96-106 | the rule's body is checked in a frame of its own |
| Checking.Checker.CheckDeclaration | startcode/src/main/java/nl/han/ica/icss/checker/Checker.java:108-141 | the expression's errors, then the verdict of `DeclarationVerdict` on the declaration |
| Checking.Checker.InferExpressionType | startcode/src/main/java/nl/han/ica/icss/checker/Checker.java:143-197 | the type is `TypeOf` under the current chain, and the errors attached are those of `ExpressionErrors` |
| Checking.Checker.InferOperands | startcode/src/main/java/nl/han/ica/icss/checker/Checker.java:165-166 | left operand first, then right, each with its own errors |
| Checking.Checker.LookupVariableType | startcode/src/main/java/nl/han/ica/icss/checker/Checker.java:199-208 | the innermost-first lookup of the name in the chain of type frames |
| CheckerProperties.WellTypedHasNoErrors | startcode/src/main/java/nl/han/ica/icss/checker/Checker.java:143-197 | an expression whose type is defined gets no error anywhere inside it |
| CheckerProperties.BoundToUndefined | startcode/src/main/java/nl/han/ica/icss/checker/Checker.java:152-161 | a name bound to Undefined gives Undefined but, unlike an unbound name, no error |
| CheckerProperties.ExpressionErrorsLocal | startcode/src/main/java/nl/han/ica/icss/checker/Checker.java:143-197 | type inference puts errors only on nodes of the expression itself |
| CheckerProperties.OptionErrorsLocal | startcode/src/main/java/nl/han/ica/icss/checker/Checker.java:144 | the same for a possibly missing expression |
| CheckerProperties.NodeErrorsLocal | startcode/src/main/java/nl/han/ica/icss/checker/Checker.java:36-46 | checking a node puts errors only on nodes of its own subtree |
| CheckerProperties.IfClauseErrorsLocal | startcode/src/main/java/nl/han/ica/icss/checker/Checker.java:48-76 | the same for an if-clause |
| CheckerProperties.ElseErrorsLocal | startcode/src/main/java/nl/han/ica/icss/checker/Checker.java:67-75 | the same for an else-body |
| CheckerProperties.ScopedErrorsLocal | startcode/src/main/java/nl/han/ica/icss/checker/Checker.java:99-105 | the same for a body checked in its own frame |
| CheckerProperties.NodesErrorsLocal | startcode/src/main/java/nl/han/ica/icss/checker/Checker.java:100-103 | the same for a list of nodes |
| CheckerProperties.NodeKeepsOuterFrames | startcode/src/main/java/nl/han/ica/icss/checker/Checker.java:36-46 | checking a node keeps the number of frames and every frame but the innermost; a rule or an if-clause keeps the whole chain |
| CheckerProperties.IfClauseKeepsChain | startcode/src/main/java/nl/han/ica/icss/checker/Checker.java:58-75 | an if-clause leaves the chain as it found it, so its bindings are invisible after it |
| CheckerProperties.ElseKeepsChain | startcode/src/main/java/nl/han/ica/icss/checker/Checker.java:69-75 | the same for an else-body |
| CheckerProperties.ScopedKeepsChain | startcode/src/main/java/nl/han/ica/icss/checker/Checker.java:96-106 | push, body, pop restores the chain: the frame count on exit equals the count on entry |
| CheckerProperties.NodesKeepOuterFrames | startcode/src/main/java/nl/han/ica/icss/checker/Checker.java:61-63 | a list of nodes keeps the number of frames and every frame but the innermost |
| CheckerProperties.IfBindingsInvisibleToElse | startcode/src/main/java/nl/han/ica/icss/checker/Checker.java:58-75 | the else-body is checked under the chain the if-clause started with |
| CheckerProperties.MisplacedIfSkipsClause | startcode/src/main/java/nl/han/ica/icss/checker/Checker.java:25-30 | a root-level if-clause gets the misplaced-if error and nothing else: neither its condition nor its body is checked |
| CheckerProperties.RootErrorsLocal | startcode/src/main/java/nl/han/ica/icss/checker/Checker.java:25-32 | the loop of `check` puts errors only on nodes of the tree it walks |
| CheckerProperties.AssignmentAlwaysBinds | startcode/src/main/java/nl/han/ica/icss/checker/Checker.java:78-94 | an assignment binds its name in the innermost frame even when its type is Undefined, and is an error exactly then |
| CheckerProperties.VerdictIgnoresCase | startcode/src/main/java/nl/han/ica/icss/checker/Checker.java:123-124 | two spellings of a property that differ only in letter case get the same verdict |
| Transforms.FoldAdd | startcode/src/main/java/nl/han/ica/icss/transforms/Evaluator.java:162-181 | addition folds exactly two present literals of one numeric kind (Pixel, Scalar or Percentage), to that kind with the wrapped sum |
| Transforms.FoldSubtract | startcode/src/main/java/nl/han/ica/icss/transforms/Evaluator.java:183-198 | the same for subtraction, with the wrapped difference |
| Transforms.FoldMultiply | startcode/src/main/java/nl/han/ica/icss/transforms/Evaluator.java:200-217 | multiplication folds exactly Scalar×Pixel, Pixel×Scalar (to Pixel) and Scalar×Scalar (to Scalar), with the wrapped product |
| Transforms.EvaluatedAssignment | startcode/src/main/java/nl/han/ica/icss/transforms/Evaluator.java:106-118 | the assignment keeps its identity and its name |
| Transforms.EvaluatedDeclaration | startcode/src/main/java/nl/han/ica/icss/transforms/Evaluator.java:120-127 | the declaration keeps its identity and its property |
| Transforms.BranchSmaller | startcode/src/main/java/nl/han/ica/icss/transforms/Evaluator.java:73-89 | the spliced branch is smaller than the if-clause, so re-scanning it terminates |
| Transforms.Evaluator.Apply | startcode/src/main/java/nl/han/ica/icss/transforms/Evaluator.java:19-26 | the new root and errors are those of `EvaluateTree` on the old ones |
| Transforms.Evaluator.ResetScopes | startcode/src/main/java/nl/han/ica/icss/transforms/Evaluator.java:22-23 | a new list holding one empty frame |
| Transforms.Evaluator.ProcessNodes | startcode/src/main/java/nl/han/ica/icss/transforms/Evaluator.java:28-95 | the list, frames and errors after the index loop are those `Process` states; frames are balanced |
| Transforms.Evaluator.ProcessAt | startcode/src/main/java/nl/han/ica/icss/transforms/Evaluator.java:32-93 | one step of the loop: the list before `i` is untouched, what remains to scan shrinks, and the step agrees with `ProcessFirst` |
| Transforms.Evaluator.AssignmentAt | startcode/src/main/java/nl/han/ica/icss/transforms/Evaluator.java:34-42 | the assignment is evaluated, then kept at the top level and removed below it |
| Transforms.Evaluator.DeclarationAt | startcode/src/main/java/nl/han/ica/icss/transforms/Evaluator.java:43-45 | the declaration is replaced by its evaluated form |
| Transforms.Evaluator.StyleruleAt | startcode/src/main/java/nl/han/ica/icss/transforms/Evaluator.java:46-48 | the rule is replaced by its processed form |
| Transforms.Evaluator.IfClauseAt | startcode/src/main/java/nl/han/ica/icss/transforms/Evaluator.java:49-89 | at the top level the clause gets the misplaced-if error and stays; below it, the clause is replaced by the chosen branch and the index stays put |
| Transforms.Evaluator.SelectBranch | startcode/src/main/java/nl/han/ica/icss/transforms/Evaluator.java:73-89 | the if-body when the condition holds, else the else-body, else nothing |
| Transforms.Evaluator.ConditionHolds | startcode/src/main/java/nl/han/ica/icss/transforms/Evaluator.java:58-71 | the condition holds exactly when it folds to the boolean true; anything else, a missing condition included, counts as false |
| Transforms.Evaluator.ProcessStylerule | startcode/src/main/java/nl/han/ica/icss/transforms/Evaluator.java:97-104 | the body is processed in a frame of its own, which is popped afterwards |
| Transforms.Evaluator.EnterScope | startcode/src/main/java/nl/han/ica/icss/transforms/Evaluator.java:100 | one new empty innermost frame |
| Transforms.Evaluator.ExitScope | startcode/src/main/java/nl/han/ica/icss/transforms/Evaluator.java:103 | the innermost frame is dropped |
| Transforms.Evaluator.EvaluateVariableAssignment | startcode/src/main/java/nl/han/ica/icss/transforms/Evaluator.java:106-118 | a folded value is bound in the innermost frame and replaces the expression; a failed fold binds nothing and changes nothing |
| Transforms.Evaluator.EvaluateDeclaration | startcode/src/main/java/nl/han/ica/icss/transforms/Evaluator.java:120-127 | a folded value replaces the expression; otherwise the declaration is unchanged |
| Transforms.Evaluator.EvaluateExpression | startcode/src/main/java/nl/han/ica/icss/transforms/Evaluator.java:129-160 | the recursion computes `Fold`: literals as they are, references by lookup, operations by their fold rule, anything else nothing |
| Transforms.Evaluator.LookupVariableValue | startcode/src/main/java/nl/han/ica/icss/transforms/Evaluator.java:219-227 | the innermost-first lookup of the name in the chain of value frames |
| EvaluatorProperties.NestedListResolved | startcode/src/main/java/nl/han/ica/icss/transforms/Evaluator.java:31-94 | a list processed below the top level holds no if-clause and no assignment, at any depth of rules |
| EvaluatorProperties.NestedNodeResolved | startcode/src/main/java/nl/han/ica/icss/transforms/Evaluator.java:34-93 | the same from any node of such a list onwards |
| EvaluatorProperties.RuleResolved | startcode/src/main/java/nl/han/ica/icss/transforms/Evaluator.java:97-104 | a processed rule keeps its selectors and its body is resolved |
| EvaluatorProperties.ListKeepsOuterFrames | startcode/src/main/java/nl/han/ica/icss/transforms/Evaluator.java:28-95 | processing a list keeps the number of frames and every frame but the innermost, and below the top level attaches no error |
| EvaluatorProperties.NodeKeepsOuterFrames | startcode/src/main/java/nl/han/ica/icss/transforms/Evaluator.java:32-93 | the same from any node of the list onwards |
| EvaluatorProperties.RuleRestoresState | startcode/src/main/java/nl/han/ica/icss/transforms/Evaluator.java:97-104 | processing a rule leaves the frames and the errors exactly as they were |
| EvaluatorProperties.TopStep | startcode/src/main/java/nl/han/ica/icss/transforms/Evaluator.java:34-56 | at the top level each node turns into exactly one node; only an if-clause changes the errors |
| EvaluatorProperties.TopLevelShape | startcode/src/main/java/nl/han/ica/icss/transforms/Evaluator.java:34-56 | the root's list keeps its length: if-clauses stay as they are, assignments and declarations keep identity and name, rules keep their selectors and get resolved bodies |
| EvaluatorProperties.TopLevelErrors | startcode/src/main/java/nl/han/ica/icss/transforms/Evaluator.java:52-56 | every root-level if-clause gets the misplaced-if error and no other node gets any |
| EvaluatorProperties.EvaluateTreeShape | startcode/src/main/java/nl/han/ica/icss/transforms/Evaluator.java:19-26 | a missing root changes nothing; otherwise the root keeps its shape and only root-level if-clauses get errors |
| EvaluatorProperties.EvaluatedDeclarationIsFixpoint | startcode/src/main/java/nl/han/ica/icss/transforms/Evaluator.java:120-127 | a declaration whose value folded stays as it is when evaluated again |
| EvaluatorProperties.FoldedListIsFixpoint | startcode/src/main/java/nl/han/ica/icss/transforms/Evaluator.java:31-94 | a list holding only declarations with a literal or missing value, and rules whose bodies are such lists, comes out unchanged, with the scopes and errors unchanged, at any level |
| EvaluatorProperties.FoldedNodeIsFixpoint | startcode/src/main/java/nl/han/ica/icss/transforms/Evaluator.java:43-48 | the same from any node of such a list onwards |
| EvaluatorProperties.FoldedTreeIsFixpoint | startcode/src/main/java/nl/han/ica/icss/transforms/Evaluator.java:19-26 | `apply` on a fully folded tree leaves the root and the errors as they are |
| EvaluatorProperties.SecondApplyFoldsFurther | startcode/src/main/java/nl/han/ica/icss/transforms/Evaluator.java:34-48 | on a tree that is not fully folded a second `apply` can fold what the first left: a rule-local assignment shadows a root variable in the first pass and is removed by it |
| EvaluatorProperties.SubtractUndoesAdd | startcode/src/main/java/nl/han/ica/icss/transforms/Evaluator.java:162-198 | subtracting what was added gives back the first operand, overflow included |
| EvaluatorProperties.FoldCommutes | startcode/src/main/java/nl/han/ica/icss/transforms/Evaluator.java:162-217 | folding an addition or a multiplication does not depend on the order of the operands |
| EvaluatorProperties.IfBodyBindingIsVisibleAfterClause | startcode/src/main/java/nl/han/ica/icss/transforms/Evaluator.java:73-77 | for a concrete rule, an assignment in a taken if-body stays visible to a declaration after the clause |
| FoldSoundness.LookupTypesOf | startcode/src/main/java/nl/han/ica/icss/transforms/Evaluator.java:219-227 | looking a name up among the types of the values finds the type of its value |
| FoldSoundness.FoldHasCheckedType | startcode/src/main/java/nl/han/ica/icss/transforms/Evaluator.java:129-160 | whatever an expression folds to has the type the checker infers for it |
| FoldSoundness.SizedExpressionFolds | startcode/src/main/java/nl/han/ica/icss/transforms/Evaluator.java:129-160 | an expression the checker types as Pixel, Percentage or Scalar always folds |
| FoldSoundness.AcceptedSizeDeclarationFolds | startcode/src/main/java/nl/han/ica/icss/transforms/Evaluator.java:120-127 | a `width` or `height` declaration the checker accepts is rewritten to a Pixel or Percentage literal |
| Parsing.Classify | startcode/src/main/java/nl/han/ica/icss/parser/ASTListener.java:216-249 | only a `px`, `%` or all-digit text can build nothing; a reference holds the text and the node's id; a colour keeps the text and has the `#rrggbb` form (the branch lemmas below state each case in full) |
| Parsing.SelectorOf | startcode/src/main/java/nl/han/ica/icss/parser/ASTListener.java:142-152 | the selector holds the lower-cased text; it is a class selector exactly for a leading `.`, an id selector exactly for a leading `#` |
| Parsing.SelectorOfIdempotent | startcode/src/main/java/nl/han/ica/icss/parser/ASTListener.java:144 | building a selector from a built selector's text gives the same selector |
| Parsing.BooleanTextIgnoresCase | startcode/src/main/java/nl/han/ica/icss/parser/ASTListener.java:220-227 | "true" and "false" in any letter case are booleans ahead of every other reading |
| Parsing.TokensWin | startcode/src/main/java/nl/han/ica/icss/parser/ASTListener.java:220-223 | a TRUE token gives the boolean true and, without it, a FALSE token gives false, whatever the text |
| Parsing.PixelText | startcode/src/main/java/nl/han/ica/icss/parser/ASTListener.java:230-232 | text ending in `px` is the pixel value of the rest when the rest parses as an `int` (sign and leading zeros included), and builds nothing when it does not |
| Parsing.PercentageText | startcode/src/main/java/nl/han/ica/icss/parser/ASTListener.java:233-235 | text ending in `%` is the percentage value of the rest when it parses, and builds nothing when it does not |
| Parsing.NumberText | startcode/src/main/java/nl/han/ica/icss/parser/ASTListener.java:236-237 | all-digit text is the scalar it spells when that fits an `int`, and builds nothing otherwise |
| Parsing.ClassSelectorText | startcode/src/main/java/nl/han/ica/icss/parser/ASTListener.java:238-239 | text starting with `.` that does not end in `px` or `%` is a class selector holding the lower-cased text |
| Parsing.IdSelectorText | startcode/src/main/java/nl/han/ica/icss/parser/ASTListener.java:240-241 | text starting with `#` that is not a `#rrggbb` colour and does not end in `px` or `%` is an id selector holding the lower-cased text |
| Parsing.ReferenceText | startcode/src/main/java/nl/han/ica/icss/parser/ASTListener.java:242-243 | a lower-case or capitalised identifier that is not a boolean spelling and does not end in `px` is a variable reference holding the text |
| Parsing.PropertyNameText | startcode/src/main/java/nl/han/ica/icss/parser/ASTListener.java:244-245 | text that fits none of the earlier shapes is a property name holding the text |
| Parsing.FoldAdditiveSpine | startcode/src/main/java/nl/han/ica/icss/parser/ASTListener.java:288-303 | the additive tree is left-nested over the operands in source order, with "+" an addition and any other text a subtraction |
| Parsing.FoldMultiplicativeSpine | startcode/src/main/java/nl/han/ica/icss/parser/ASTListener.java:265-273 | the multiplicative tree is left-nested over the operands in source order, all multiplications, each a new node |
| Parsing.ASTListener.EnterValue | startcode/src/main/java/nl/han/ica/icss/parser/ASTListener.java:216-249 | pushes the classified node, or nothing; at most one node per call |
| Parsing.ASTListener.PopOperands | startcode/src/main/java/nl/han/ica/icss/parser/ASTListener.java:280-283 | pops `count` nodes into an array in source order, or fails on an empty stack |
| Parsing.ASTListener.ExitAddition | startcode/src/main/java/nl/han/ica/icss/parser/ASTListener.java:277-304 | no operand leaves the stack alone; n operands are replaced by their one additive tree (one operand by itself); too few operands is the empty-stack failure |
| Parsing.ASTListener.ExitMultiplication | startcode/src/main/java/nl/han/ica/icss/parser/ASTListener.java:252-274 | the same with the multiplicative tree; the operator text is ignored |
| Generating.SheetTextOfRules | startcode/src/main/java/nl/han/ica/icss/generator/Generator.java:18-26 | only style rules among the root's children are written, in document order |
| Generating.DeclarationsTextOfDeclarations | startcode/src/main/java/nl/han/ica/icss/generator/Generator.java:39-48 | only declarations among a rule's children are written, in order |
| Generating.Generate | startcode/src/main/java/nl/han/ica/icss/generator/Generator.java:13-16 | no tree or no root gives the empty text; otherwise the text of the stylesheet |
| Generating.GenerateStylesheet | startcode/src/main/java/nl/han/ica/icss/generator/Generator.java:18-26 | the loop appends each rule's text and a line break, and nothing for other children |
| Generating.GenerateStylerule | startcode/src/main/java/nl/han/ica/icss/generator/Generator.java:28-37 | selectors joined by ", ", then " {\n", the declarations and "}\n" |
| Generating.GenerateDeclarations | startcode/src/main/java/nl/han/ica/icss/generator/Generator.java:39-48 | the loop appends two spaces and `property: value;\n` for each declaration, and nothing for other children |
| TextRoundTrip.PixelReparses | startcode/src/main/java/nl/han/ica/icss/generator/Generator.java:64 | the text written for a pixel value is read back as the same pixel value |
| TextRoundTrip.PercentageReparses | startcode/src/main/java/nl/han/ica/icss/generator/Generator.java:62 | the same for a percentage |
| TextRoundTrip.ScalarReparses | startcode/src/main/java/nl/han/ica/icss/generator/Generator.java:68 | the same for a non-negative scalar |
| TextRoundTrip.LiteralReparses | startcode/src/main/java/nl/han/ica/icss/generator/Generator.java:56-74 | every literal the generator writes reads back as itself, for all pixel, percentage and boolean values, non-negative scalars and `#rrggbb` colours |
| TextRoundTrip.NegativeScalarDoesNotReparse | startcode/src/main/java/nl/han/ica/icss/generator/Generator.java:68 | a negative scalar does not read back: its text is taken for a property name |

## Left out

- Evaluator list surgery: `processNodes` edits the body `List` in place with `remove` and `addAll`. The model keeps the same index loop over a `seq` that the method returns, and the caller stores it. Aliasing between an if-clause's body and the nodes spliced from it is not modelled.
- Node fields the evaluator assigns (`va.expression`, `decl.expression`) become new node values with the same id.
- AST node classes and the `ExpressionType` enum are not part of this model and are written as datatypes.
  - Ids stand for object identity.
  - `setError` becomes one error kind per node id, and a later error on the same node replaces an earlier one.
  - The wording of the messages is not modelled.
- Null children in the tree's lists, and the `if (x == null) return` guards on nodes, are not modelled. A missing property, name, expression, condition or else-clause is an `Option`.
- `Operation.addChild` is not part of this model. It is taken to fill the left operand first, then the right.
- The listener's parser plumbing is left out:
  - `attachToParent`, the container stack, the other enter/exit hooks, `normalizeBooleanReferences` and the ANTLR contexts;
  - a value is its text and its TRUE/FALSE tokens;
  - an addition or multiplication is its operand count and its operator texts.
- HANStack is the `seq` field `exprStack`, with the top last. An empty-stack pop in `exitAddition` or `exitMultiplication` is a failure result that leaves the stack empty.
- Parsing.ASTListener.ExitAddition requires one operator text between each pair of operands, which the grammar provides.
- Regular expressions are explicit character predicates.
  - `Integer.parseInt` and `toLowerCase` are modelled on ASCII only.
  - Java also accepts non-ASCII decimal digits and folds non-ASCII letters; the model does not.
- `toString` of selectors, and of a non-literal expression in `generateExpression`, is not part of this model. The generator takes both as parameters (`showSelector`, `showExpression`).
- `generateDeclaration` and `generateExpression` are the functions `DeclarationText` and `ExpressionText`. They have no contract of their own; `GenerateDeclarations` and `LiteralReparses` state what they produce.
- Transforms.Evaluator.constructor creates the empty frame list. Java leaves it null until `apply`, which only ever runs after it has been created.
- TextRoundTrip.LiteralReparses is stated for non-negative scalars and `#rrggbb` colours only. The listener reads other texts differently, as NegativeScalarDoesNotReparse shows.

## Where the code and its description differ

The model follows the code in each of these places:

- The evaluator keeps assignments in the root's own list, with their folded value.
- The evaluator gives a root-level if-clause the misplaced-if error and leaves it in place.
- A chosen if- or else-body is spliced into the enclosing list and scanned in the enclosing frame. Bindings made there stay visible after the clause (`IfBodyBindingIsVisibleAfterClause`). The checker, in contrast, checks each body in a frame of its own (`IfClauseKeepsChain`).
- Running `apply` again changes nothing on a fully folded tree (`FoldedTreeIsFixpoint`), but `apply` is not idempotent in general. The first pass removes rule-local assignments, so a second pass can resolve a name to an outer binding the first pass did not see (`SecondApplyFoldsFurther`).
- The checker accepts Bool + Bool and Color + Color, giving that type. The evaluator folds only the three numeric kinds, so such a sum stays unfolded.
