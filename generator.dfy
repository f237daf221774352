/** The generator: the CSS text of a stylesheet. Only style rules are
    written, and inside them only declarations; an expression that is not a
    literal, and a selector, are written by their `toString`, which this model
    takes as the parameters `showExpression` and `showSelector`. */
module Generating {
  import opened Wrappers
  import opened Ints
  import opened Ast

  type ExpressionPrinter = Expression -> string
  type SelectorPrinter = Selector -> string

  /** The text of a literal value. */
  function LiteralText(l: Literal): string {
    match l
    case PercentageLiteral(v) => DecimalText(v) + "%"
    case PixelLiteral(v) => DecimalText(v) + "px"
    case ColorLiteral(hex) => hex
    case ScalarLiteral(v) => DecimalText(v)
    case BoolLiteral(b) => if b then "true" else "false"
  }

  /** `generateExpression`: literals by their value, anything else by
      `toString`. */
  function ExpressionText(e: Expression, showExpression: ExpressionPrinter): string {
    match e
    case Lit(l) => LiteralText(l)
    case _ => showExpression(e)
  }

  /** `generateDeclaration`: `property: value;` and a line break, with an
      empty text for a missing property or value. */
  function DeclarationText(decl: Node, showExpression: ExpressionPrinter): string
    requires decl.Declaration?
  {
    var prop := match decl.property case Some(name) => name case None => "";
    var val := match decl.expression case Some(e) => ExpressionText(e, showExpression) case None => "";
    prop + ": " + val + ";\n"
  }

  /** The texts of the nodes of `ns`, in order, one after the other: the
      shape of both generating loops. */
  function Concat(ns: seq<Node>, part: Node -> string): string {
    if ns == [] then "" else Concat(ns[..|ns| - 1], part) + part(ns[|ns| - 1])
  }

  /** The nodes of `ns` that `keep` holds for, in order. */
  function Select(ns: seq<Node>, keep: Node -> bool): (kept: seq<Node>)
    ensures forall i :: 0 <= i < |kept| ==> keep(kept[i])
    ensures |kept| <= |ns|
  {
    if ns == [] then []
    else Select(ns[..|ns| - 1], keep) + (if keep(ns[|ns| - 1]) then [ns[|ns| - 1]] else [])
  }

  /** The text of a sequence of nodes is the concatenation of the texts of
      its parts, in order. */
  lemma {:induction false} ConcatAppend(a: seq<Node>, b: seq<Node>, part: Node -> string)
    ensures Concat(a + b, part) == Concat(a, part) + Concat(b, part)
    decreases |b|
  {
    if b == [] {
      assert a + b == a;
    } else {
      var init := b[..|b| - 1];
      assert (a + b)[..|a + b| - 1] == a + init;
      assert (a + b)[|a + b| - 1] == b[|b| - 1];
      ConcatAppend(a, init, part);
    }
  }

  /** Nodes whose text is empty can be dropped beforehand. */
  lemma {:induction false} ConcatOfSelected(ns: seq<Node>, part: Node -> string, keep: Node -> bool)
    requires forall n :: !keep(n) ==> part(n) == ""
    ensures Concat(ns, part) == Concat(Select(ns, keep), part)
  {
    if ns != [] {
      var init, last := ns[..|ns| - 1], ns[|ns| - 1];
      ConcatOfSelected(init, part, keep);
      var tail := if keep(last) then [last] else [];
      ConcatAppend(Select(init, keep), tail, part);
      assert tail != [] ==> tail[..0] == [];
    }
  }

  /** What one child of a style rule contributes: an indented declaration,
      or nothing. */
  function BodyLine(showExpression: ExpressionPrinter): Node -> string {
    (n: Node) => if n.Declaration? then "  " + DeclarationText(n, showExpression) else ""
  }

  /** `generateDeclarations`: the lines of the declarations among `body`, in
      order. */
  function DeclarationsText(body: seq<Node>, showExpression: ExpressionPrinter): string {
    Concat(body, BodyLine(showExpression))
  }

  /** The selectors' texts joined by ", ". */
  function Joined(selectors: seq<Selector>, showSelector: SelectorPrinter): string {
    if selectors == [] then ""
    else if |selectors| == 1 then showSelector(selectors[0])
    else Joined(selectors[..|selectors| - 1], showSelector) + ", " + showSelector(selectors[|selectors| - 1])
  }

  /** `generateStylerule`: the selectors, the declarations in braces, and a
      line break. */
  function RuleText(rule: Node, showSelector: SelectorPrinter, showExpression: ExpressionPrinter): string
    requires rule.Stylerule?
  {
    Joined(rule.selectors, showSelector) + " {\n" + DeclarationsText(rule.body, showExpression) + "}\n"
  }

  /** What one child of the stylesheet contributes: a rule and an empty line,
      or nothing. */
  function SheetPart(showSelector: SelectorPrinter, showExpression: ExpressionPrinter): Node -> string {
    (n: Node) => if n.Stylerule? then RuleText(n, showSelector, showExpression) + "\n" else ""
  }

  /** `generateStylesheet`: the rules among `body`, in order. */
  function SheetText(body: seq<Node>, showSelector: SelectorPrinter, showExpression: ExpressionPrinter): string {
    Concat(body, SheetPart(showSelector, showExpression))
  }

  predicate IsRule(n: Node) { n.Stylerule? }

  predicate IsDeclaration(n: Node) { n.Declaration? }

  /** Children of the stylesheet other than style rules are not written,
      and the text of the parts of a stylesheet is the texts of the parts in
      order. */
  lemma SheetTextOfRules(a: seq<Node>, b: seq<Node>, showSelector: SelectorPrinter, showExpression: ExpressionPrinter)
    ensures SheetText(a, showSelector, showExpression) == SheetText(Select(a, IsRule), showSelector, showExpression)
    ensures SheetText(a + b, showSelector, showExpression)
      == SheetText(a, showSelector, showExpression) + SheetText(b, showSelector, showExpression)
  {
    ConcatOfSelected(a, SheetPart(showSelector, showExpression), IsRule);
    ConcatAppend(a, b, SheetPart(showSelector, showExpression));
  }

  /** Children of a rule other than declarations are not written, and the
      declarations are written in order. */
  lemma DeclarationsTextOfDeclarations(a: seq<Node>, b: seq<Node>, showExpression: ExpressionPrinter)
    ensures DeclarationsText(a, showExpression) == DeclarationsText(Select(a, IsDeclaration), showExpression)
    ensures DeclarationsText(a + b, showExpression) == DeclarationsText(a, showExpression) + DeclarationsText(b, showExpression)
  {
    ConcatOfSelected(a, BodyLine(showExpression), IsDeclaration);
    ConcatAppend(a, b, BodyLine(showExpression));
  }

  /** `generate`: the empty text without a tree or without a stylesheet. */
  method Generate(ast: AST?, showSelector: SelectorPrinter, showExpression: ExpressionPrinter) returns (css: string)
    ensures ast == null ==> css == ""
    ensures ast != null ==> css == match ast.root
      case None => ""
      case Some(sheet) => SheetText(sheet.body, showSelector, showExpression)
  {
    if ast == null || ast.root.None? {
      return "";
    }
    css := GenerateStylesheet(ast.root.value, showSelector, showExpression);
  }

  /** `generateStylesheet`, appending one rule at a time. */
  method GenerateStylesheet(sheet: Stylesheet, showSelector: SelectorPrinter, showExpression: ExpressionPrinter) returns (css: string)
    ensures css == SheetText(sheet.body, showSelector, showExpression)
  {
    css := "";
    var i := 0;
    while i < |sheet.body|
      invariant 0 <= i <= |sheet.body|
      invariant css == SheetText(sheet.body[..i], showSelector, showExpression)
    {
      var child := sheet.body[i];
      assert sheet.body[..i + 1][..i] == sheet.body[..i];
      if child.Stylerule? {
        var rule := GenerateStylerule(child, showSelector, showExpression);
        css := css + rule + "\n";
      }
      i := i + 1;
    }
    assert sheet.body[..i] == sheet.body;
  }

  /** `generateStylerule`. */
  method GenerateStylerule(rule: Node, showSelector: SelectorPrinter, showExpression: ExpressionPrinter) returns (css: string)
    requires rule.Stylerule?
    ensures css == RuleText(rule, showSelector, showExpression)
  {
    css := Joined(rule.selectors, showSelector) + " {\n";
    var declarations := GenerateDeclarations(rule, showExpression);
    css := css + declarations;
    css := css + "}\n";
  }

  /** `generateDeclarations`, appending one declaration at a time. */
  method GenerateDeclarations(rule: Node, showExpression: ExpressionPrinter) returns (css: string)
    requires rule.Stylerule?
    ensures css == DeclarationsText(rule.body, showExpression)
  {
    css := "";
    var i := 0;
    while i < |rule.body|
      invariant 0 <= i <= |rule.body|
      invariant css == DeclarationsText(rule.body[..i], showExpression)
    {
      var child := rule.body[i];
      assert rule.body[..i + 1][..i] == rule.body[..i];
      if child.Declaration? {
        css := css + "  ";
        css := css + DeclarationText(child, showExpression);
      }
      i := i + 1;
    }
    assert rule.body[..i] == rule.body;
  }
}
