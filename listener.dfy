/** The parts of the tree-building listener (`ASTListener`) with rules of
    their own: the classification of a value's text into a node, the
    classification of a selector's text, and the folding of an operand list
    held on the expression stack into a left-nested operation tree. The
    parse-tree contexts are reduced to what these use: a value's text and
    its TRUE/FALSE tokens, and the number of operands and the operator texts
    between them. */
module Parsing {
  import opened Wrappers
  import opened Ints
  import opened Strings
  import opened Ast

  predicate IsHexDigit(c: char) {
    ('0' <= c <= '9') || ('a' <= c <= 'f') || ('A' <= c <= 'F')
  }

  /** `#` followed by exactly six hexadecimal digits. */
  predicate IsHexColor(s: string) {
    |s| == 7 && s[0] == '#' && forall i :: 1 <= i < 7 ==> IsHexDigit(s[i])
  }

  /** A lower-case letter, then lower-case letters, digits and hyphens. */
  predicate IsLowerIdent(s: string) {
    |s| > 0 && 'a' <= s[0] <= 'z'
    && forall i :: 1 <= i < |s| ==> ('a' <= s[i] <= 'z') || IsDigit(s[i]) || s[i] == '-'
  }

  /** An upper-case letter, then letters, digits and underscores. */
  predicate IsCapitalIdent(s: string) {
    |s| > 0 && 'A' <= s[0] <= 'Z'
    && forall i :: 1 <= i < |s| ==> ('a' <= s[i] <= 'z') || ('A' <= s[i] <= 'Z') || IsDigit(s[i]) || s[i] == '_'
  }

  /** Digits only, at least one. */
  predicate IsNumber(s: string) {
    |s| > 0 && AllDigits(s)
  }

  /** The node `enterValue` builds from a value's text, or `None` where a
      number does not parse as an `int` and nothing is pushed. The checks are
      tried in the source's order and the first that applies decides. */
  function Classify(text: string, trueToken: bool, falseToken: bool, id: NodeId): (r: Option<Expression>)
    ensures r.None? ==> EndsWith(text, "px") || EndsWith(text, "%") || IsNumber(text)
    ensures r.Some? && r.value.VariableReference? ==> r.value == VariableReference(id, text)
    ensures r.Some? && r.value.Lit? && r.value.literal.ColorLiteral? ==> IsHexColor(text) && r.value.literal.hex == text
  {
    if trueToken then Some(Lit(BoolLiteral(true)))
    else if falseToken then Some(Lit(BoolLiteral(false)))
    else if EqualsIgnoreCase(text, "true") then Some(Lit(BoolLiteral(true)))
    else if EqualsIgnoreCase(text, "false") then Some(Lit(BoolLiteral(false)))
    else if IsHexColor(text) then Some(Lit(ColorLiteral(text)))
    else if EndsWith(text, "px") then
      (match ParseInt(text[..|text| - 2]) case Some(v) => Some(Lit(PixelLiteral(v))) case None => None)
    else if EndsWith(text, "%") then
      (match ParseInt(text[..|text| - 1]) case Some(v) => Some(Lit(PercentageLiteral(v))) case None => None)
    else if IsNumber(text) then
      (match ParseInt(text) case Some(v) => Some(Lit(ScalarLiteral(v))) case None => None)
    else if StartsWith(text, ".") then Some(Other(SelectorNode(ClassSelector(ToLower(text)))))
    else if StartsWith(text, "#") then Some(Other(SelectorNode(IdSelector(ToLower(text)))))
    else if IsLowerIdent(text) || IsCapitalIdent(text) then Some(VariableReference(id, text))
    else Some(Other(PropertyName(text)))
  }

  /** The selector `enterSelector` builds: the text lower-cased, and its kind
      chosen by the first character. */
  function SelectorOf(text: string): (sel: Selector)
    ensures sel.text == ToLower(text)
    ensures sel.ClassSelector? <==> StartsWith(text, ".")
    ensures sel.IdSelector? <==> StartsWith(text, "#")
  {
    var lower := ToLower(text);
    if StartsWith(lower, ".") then ClassSelector(lower)
    else if StartsWith(lower, "#") then IdSelector(lower)
    else TagSelector(lower)
  }

  /** Building a selector from a built selector's text gives the same
      selector. */
  lemma SelectorOfIdempotent(text: string)
    ensures SelectorOf(SelectorOf(text).text) == SelectorOf(text)
  {
    ToLowerIdempotent(text);
  }

  /** "true" and "false" are booleans in any letter case, ahead of every
      other reading of the text. */
  lemma BooleanTextIgnoresCase(text: string, id: NodeId)
    ensures EqualsIgnoreCase(text, "true") ==> Classify(text, false, false, id) == Some(Lit(BoolLiteral(true)))
    ensures EqualsIgnoreCase(text, "false") ==> Classify(text, false, false, id) == Some(Lit(BoolLiteral(false)))
  {
    assert ToLower("true") != ToLower("false");
  }

  /** A TRUE or FALSE token decides, whatever the text is; TRUE is tested
      first. */
  lemma TokensWin(text: string, trueToken: bool, falseToken: bool, id: NodeId)
    ensures trueToken ==> Classify(text, trueToken, falseToken, id) == Some(Lit(BoolLiteral(true)))
    ensures !trueToken && falseToken ==> Classify(text, trueToken, falseToken, id) == Some(Lit(BoolLiteral(false)))
  {
  }

  /** Text that reads as "true" or "false" in some letter case has four or
      five letters, the last an `e`: it is none of the later shapes. */
  lemma BooleanTextShape(text: string)
    requires EqualsIgnoreCase(text, "true") || EqualsIgnoreCase(text, "false")
    ensures !IsHexColor(text) && !EndsWith(text, "px") && !EndsWith(text, "%")
    ensures !IsNumber(text) && !StartsWith(text, ".") && !StartsWith(text, "#")
  {
    var lower := ToLower(text);
    assert lower == ToLower("true") || lower == ToLower("false");
    assert ToLower("true")[0] == 't' && ToLower("true")[3] == 'e';
    assert ToLower("false")[0] == 'f' && ToLower("false")[4] == 'e';
    assert |text| == 4 || |text| == 5;
    assert ToLowerChar(text[|text| - 1]) == 'e';
    assert ToLowerChar(text[0]) == 't' || ToLowerChar(text[0]) == 'f';
  }

  /** A colour is `#` and six hexadecimal digits: it neither ends in `px`
      or `%` nor is a number. */
  lemma HexColorShape(text: string)
    requires IsHexColor(text)
    ensures !EndsWith(text, "px") && !EndsWith(text, "%") && !IsNumber(text)
  {
    assert IsHexDigit(text[6]);
  }

  /** Text ending in `px` is a pixel value when the rest parses as an `int`
      (a sign and leading zeros included), and builds nothing otherwise. */
  lemma PixelText(text: string, id: NodeId)
    requires EndsWith(text, "px")
    ensures Classify(text, false, false, id)
      == match ParseInt(text[..|text| - 2])
         case Some(v) => Some(Lit(PixelLiteral(v)))
         case None => None
  {
    assert text[|text| - 1] == 'x';
    if EqualsIgnoreCase(text, "true") || EqualsIgnoreCase(text, "false") {
      BooleanTextShape(text);
    }
    if IsHexColor(text) {
      HexColorShape(text);
    }
  }

  /** Text ending in `%` is a percentage when the rest parses as an `int`,
      and builds nothing otherwise. */
  lemma PercentageText(text: string, id: NodeId)
    requires EndsWith(text, "%")
    ensures Classify(text, false, false, id)
      == match ParseInt(text[..|text| - 1])
         case Some(v) => Some(Lit(PercentageLiteral(v)))
         case None => None
  {
    assert text[|text| - 1] == '%';
    if EqualsIgnoreCase(text, "true") || EqualsIgnoreCase(text, "false") {
      BooleanTextShape(text);
    }
    if IsHexColor(text) {
      HexColorShape(text);
    }
    assert !EndsWith(text, "px");
  }

  /** All-digit text is the scalar it spells when that fits an `int`, and
      builds nothing when it does not. */
  lemma NumberText(text: string, id: NodeId)
    requires IsNumber(text)
    ensures DigitsValue(text) < 0x8000_0000 ==>
      Classify(text, false, false, id) == Some(Lit(ScalarLiteral(DigitsValue(text))))
    ensures DigitsValue(text) >= 0x8000_0000 ==> Classify(text, false, false, id) == None
  {
    var last := text[|text| - 1];
    assert IsDigit(last) && IsDigit(text[0]);
    assert !EndsWith(text, "px") by { assert EndsWith(text, "px") ==> last == 'x'; }
    assert !EndsWith(text, "%") by { assert EndsWith(text, "%") ==> last == '%'; }
    if EqualsIgnoreCase(text, "true") || EqualsIgnoreCase(text, "false") {
      BooleanTextShape(text);
    }
    ParseIntOfDigits(text);
  }

  /** Text starting with `.` that is not a `px` or `%` value is a class
      selector, lower-cased. */
  lemma ClassSelectorText(text: string, id: NodeId)
    requires StartsWith(text, ".") && !EndsWith(text, "px") && !EndsWith(text, "%")
    ensures Classify(text, false, false, id) == Some(Other(SelectorNode(ClassSelector(ToLower(text)))))
  {
    assert text[0] == '.';
    if EqualsIgnoreCase(text, "true") || EqualsIgnoreCase(text, "false") {
      BooleanTextShape(text);
    }
    assert !IsNumber(text) by { assert IsNumber(text) ==> IsDigit(text[0]); }
  }

  /** Text starting with `#` that is not a colour and not a `px` or `%` value
      is an id selector, lower-cased. */
  lemma IdSelectorText(text: string, id: NodeId)
    requires StartsWith(text, "#") && !IsHexColor(text) && !EndsWith(text, "px") && !EndsWith(text, "%")
    ensures Classify(text, false, false, id) == Some(Other(SelectorNode(IdSelector(ToLower(text)))))
  {
    assert text[0] == '#';
    if EqualsIgnoreCase(text, "true") || EqualsIgnoreCase(text, "false") {
      BooleanTextShape(text);
    }
    assert !IsNumber(text) by { assert IsNumber(text) ==> IsDigit(text[0]); }
  }

  /** An identifier, lower-case with hyphens or capitalised with
      underscores, is a variable reference holding the text, unless it reads
      as a boolean or ends in `px`. */
  lemma ReferenceText(text: string, id: NodeId)
    requires IsLowerIdent(text) || IsCapitalIdent(text)
    requires !EqualsIgnoreCase(text, "true") && !EqualsIgnoreCase(text, "false") && !EndsWith(text, "px")
    ensures Classify(text, false, false, id) == Some(VariableReference(id, text))
  {
    var first, last := text[0], text[|text| - 1];
    assert ('a' <= first <= 'z') || ('A' <= first <= 'Z');
    assert last != '%';
    assert !IsHexColor(text) && !StartsWith(text, ".") && !StartsWith(text, "#");
    assert !IsNumber(text) by { assert IsNumber(text) ==> IsDigit(first); }
  }

  /** Any other text without tokens is a property name holding the text. */
  lemma PropertyNameText(text: string, id: NodeId)
    requires !EqualsIgnoreCase(text, "true") && !EqualsIgnoreCase(text, "false")
    requires !EndsWith(text, "px") && !EndsWith(text, "%") && !IsNumber(text)
    requires !StartsWith(text, ".") && !StartsWith(text, "#")
    requires !IsLowerIdent(text) && !IsCapitalIdent(text)
    ensures Classify(text, false, false, id) == Some(Other(PropertyName(text)))
  {
    assert IsHexColor(text) ==> StartsWith(text, "#");
  }

  /** `exitAddition`'s tree over `parts` in source order: each operator text
      "+" makes an addition and any other text a subtraction, nested to the
      left. */
  function FoldAdditive(parts: seq<Expression>, ops: seq<string>): Expression
    requires |parts| >= 1 && |ops| == |parts| - 1
  {
    if |parts| == 1 then parts[0]
    else
      var left := FoldAdditive(parts[..|parts| - 1], ops[..|ops| - 1]);
      if ops[|ops| - 1] == "+" then AddOperation(left, parts[|parts| - 1])
      else SubtractOperation(left, parts[|parts| - 1])
  }

  /** `exitMultiplication`'s tree over `parts`: all multiplications, nested to
      the left, the k-th one created getting id `firstId + k`. */
  function FoldMultiplicative(parts: seq<Expression>, firstId: NodeId): Expression
    requires |parts| >= 1
  {
    if |parts| == 1 then parts[0]
    else MultiplyOperation(firstId + |parts| - 2, FoldMultiplicative(parts[..|parts| - 1], firstId), parts[|parts| - 1])
  }

  /** The operands along the left spine of a tree of binary operations,
      `depth` operations deep, leftmost first. */
  function SpineOperands(e: Expression, depth: nat): seq<Expression> {
    if depth == 0 then [e]
    else match e
      case AddOperation(l, r) => SpineOperands(l, depth - 1) + [r]
      case SubtractOperation(l, r) => SpineOperands(l, depth - 1) + [r]
      case MultiplyOperation(_, l, r) => SpineOperands(l, depth - 1) + [r]
      case _ => [e]
  }

  /** The operators along the left spine, leftmost first, as `+`, `-`, `*`. */
  function SpineOperators(e: Expression, depth: nat): seq<string> {
    if depth == 0 then []
    else match e
      case AddOperation(l, _) => SpineOperators(l, depth - 1) + ["+"]
      case SubtractOperation(l, _) => SpineOperators(l, depth - 1) + ["-"]
      case MultiplyOperation(_, l, _) => SpineOperators(l, depth - 1) + ["*"]
      case _ => []
  }

  /** The ids of the multiplications along the left spine, leftmost first. */
  function SpineIds(e: Expression, depth: nat): seq<NodeId> {
    if depth == 0 then []
    else match e
      case MultiplyOperation(id, l, _) => SpineIds(l, depth - 1) + [id]
      case _ => []
  }

  /** Operator texts as the tree records them: "+" stays, anything else is a
      subtraction. */
  function AdditiveSymbols(ops: seq<string>): (symbols: seq<string>)
    ensures |symbols| == |ops|
    ensures forall i :: 0 <= i < |ops| ==> symbols[i] == if ops[i] == "+" then "+" else "-"
  {
    if ops == [] then [] else AdditiveSymbols(ops[..|ops| - 1]) + [if ops[|ops| - 1] == "+" then "+" else "-"]
  }

  /** The additive tree gives back its operands, in order, along its left
      spine, and its operators as written ("+" or a subtraction). */
  lemma {:induction false} FoldAdditiveSpine(parts: seq<Expression>, ops: seq<string>)
    requires |parts| >= 1 && |ops| == |parts| - 1
    ensures SpineOperands(FoldAdditive(parts, ops), |ops|) == parts
    ensures SpineOperators(FoldAdditive(parts, ops), |ops|) == AdditiveSymbols(ops)
  {
    if |parts| > 1 {
      var init := parts[..|parts| - 1];
      FoldAdditiveSpine(init, ops[..|ops| - 1]);
      assert init + [parts[|parts| - 1]] == parts;
    }
  }

  /** The multiplicative tree gives back its operands, in order, along its
      left spine; every operator is a multiplication, and the ids are
      `firstId`, `firstId + 1`, ... in creation order. */
  lemma {:induction false} FoldMultiplicativeSpine(parts: seq<Expression>, firstId: NodeId)
    requires |parts| >= 1
    ensures SpineOperands(FoldMultiplicative(parts, firstId), |parts| - 1) == parts
    ensures SpineOperators(FoldMultiplicative(parts, firstId), |parts| - 1) == seq(|parts| - 1, _ => "*")
    ensures SpineIds(FoldMultiplicative(parts, firstId), |parts| - 1) == seq(|parts| - 1, k => firstId + k)
  {
    if |parts| > 1 {
      var init := parts[..|parts| - 1];
      FoldMultiplicativeSpine(init, firstId);
      assert init + [parts[|parts| - 1]] == parts;
      assert seq(|parts| - 2, _ => "*") + ["*"] == seq(|parts| - 1, _ => "*");
      assert seq(|parts| - 2, k => firstId + k) + [firstId + |parts| - 2] == seq(|parts| - 1, k => firstId + k);
    }
  }

  /** The listener's own state, as far as these hooks use it: the expression
      stack (its top is the last element) and a counter standing for the
      identity of each node it creates. */
  class ASTListener {
    var exprStack: seq<Expression>
    var nextId: NodeId

    constructor ()
      ensures exprStack == [] && nextId == 0
    {
      exprStack := [];
      nextId := 0;
    }

    /** `enterValue`: classify the text and push the node, if there is one.
        At most one node is pushed. */
    method EnterValue(text: string, trueToken: bool, falseToken: bool)
      modifies this
      ensures nextId == old(nextId) + 1
      ensures exprStack == old(exprStack) + match Classify(text, trueToken, falseToken, old(nextId))
        case Some(node) => [node]
        case None => []
    {
      var node := Classify(text, trueToken, falseToken, nextId);
      nextId := nextId + 1;
      if node.Some? {
        exprStack := exprStack + [node.value];
      }
    }

    /** The first loop of `exitAddition` and `exitMultiplication`: pop `count`
        nodes into an array, the last popped first. Popping an empty stack
        throws, which is `ok == false`; the stack is then empty. */
    method PopOperands(count: nat) returns (ok: bool, parts: array<Expression>)
      modifies this`exprStack
      ensures fresh(parts) && parts.Length == count
      ensures ok <==> count <= |old(exprStack)|
      ensures ok ==> exprStack + parts[..] == old(exprStack)
      ensures !ok ==> exprStack == []
    {
      parts := new Expression[count](_ => Other(PropertyName("")));
      var i := count;
      while i > 0
        invariant 0 <= i <= count
        invariant count - i <= |old(exprStack)|
        invariant exprStack + parts[i..] == old(exprStack)
      {
        i := i - 1;
        if exprStack == [] {
          return false, parts;
        }
        parts[i] := exprStack[|exprStack| - 1];
        assert exprStack[..|exprStack| - 1] + [parts[i]] == exprStack;
        exprStack := exprStack[..|exprStack| - 1];
        assert parts[i..] == [parts[i]] + parts[i + 1..];
      }
      ok := true;
    }

    /** `exitAddition`: replace the top `count` nodes of the stack by their
        left-nested additive tree. One operand is pushed back as it is, and no
        operand leaves the stack alone. */
    method ExitAddition(count: nat, ops: seq<string>) returns (ok: bool)
      requires count == 0 || |ops| == count - 1
      modifies this`exprStack
      ensures ok <==> count <= |old(exprStack)|
      ensures !ok ==> exprStack == []
      ensures ok && count == 0 ==> exprStack == old(exprStack)
      ensures ok && count > 0 ==>
        exprStack == old(exprStack)[..|old(exprStack)| - count]
          + [FoldAdditive(old(exprStack)[|old(exprStack)| - count..], ops)]
    {
      if count == 0 {
        return true;
      }
      var parts;
      ok, parts := PopOperands(count);
      if !ok {
        return;
      }
      assert parts[..] == old(exprStack)[|old(exprStack)| - count..];
      if count == 1 {
        exprStack := exprStack + [parts[0]];
        return;
      }
      var result := parts[0];
      var i := 0;
      while i < count - 1
        invariant 0 <= i <= count - 1
        invariant result == FoldAdditive(parts[..i + 1], ops[..i])
      {
        assert parts[..i + 2][..i + 1] == parts[..i + 1] && ops[..i + 1][..i] == ops[..i];
        if ops[i] == "+" {
          result := AddOperation(result, parts[i + 1]);
        } else {
          result := SubtractOperation(result, parts[i + 1]);
        }
        i := i + 1;
      }
      assert parts[..count] == parts[..] && ops[..count - 1] == ops;
      exprStack := exprStack + [result];
    }

    /** `exitMultiplication`: as `exitAddition`, but every operator makes a
        multiplication whatever its text, each a new node. */
    method ExitMultiplication(count: nat) returns (ok: bool)
      modifies this
      ensures ok <==> count <= |old(exprStack)|
      ensures !ok ==> exprStack == [] && nextId == old(nextId)
      ensures ok && count <= 1 ==> exprStack == old(exprStack) && nextId == old(nextId)
      ensures ok && count > 1 ==>
        exprStack == old(exprStack)[..|old(exprStack)| - count]
          + [FoldMultiplicative(old(exprStack)[|old(exprStack)| - count..], old(nextId))]
        && nextId == old(nextId) + count - 1
    {
      if count == 0 {
        return true;
      }
      var parts;
      ok, parts := PopOperands(count);
      if !ok {
        return;
      }
      assert parts[..] == old(exprStack)[|old(exprStack)| - count..];
      if count == 1 {
        exprStack := exprStack + [parts[0]];
        return;
      }
      var result := parts[0];
      var i := 0;
      while i < count - 1
        invariant 0 <= i <= count - 1
        invariant exprStack == old(exprStack)[..|old(exprStack)| - count]
        invariant parts[..] == old(exprStack)[|old(exprStack)| - count..]
        invariant nextId == old(nextId) + i
        invariant result == FoldMultiplicative(parts[..i + 1], old(nextId))
      {
        assert parts[..i + 2][..i + 1] == parts[..i + 1];
        result := MultiplyOperation(nextId, result, parts[i + 1]);
        nextId := nextId + 1;
        i := i + 1;
      }
      assert parts[..count] == parts[..];
      exprStack := exprStack + [result];
    }
  }
}
