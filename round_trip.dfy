/** How the generator's text of a literal reads back through the listener's
    classification of a value. */
module TextRoundTrip {
  import opened Wrappers
  import opened Ints
  import opened Strings
  import opened Ast
  import opened Parsing
  import opened Generating

  /** Text starting with a digit or a minus sign is neither "true" nor
      "false" in any case, nor a colour. */
  lemma NumberTextIsNoKeyword(text: string)
    requires |text| > 0 && (IsDigit(text[0]) || text[0] == '-')
    ensures !EqualsIgnoreCase(text, "true") && !EqualsIgnoreCase(text, "false") && !IsHexColor(text)
  {
    assert ToLower(text)[0] == text[0];
    assert ToLower("true")[0] == 't' && ToLower("false")[0] == 'f';
  }

  lemma PixelReparses(v: Int32, id: NodeId)
    ensures Classify(LiteralText(PixelLiteral(v)), false, false, id) == Some(Lit(PixelLiteral(v)))
  {
    var text, digits := LiteralText(PixelLiteral(v)), DecimalText(v);
    assert text == digits + "px" && text[..|text| - 2] == digits;
    assert text[0] == digits[0];
    NumberTextIsNoKeyword(text);
    ParseIntOfDecimalText(v);
  }

  lemma PercentageReparses(v: Int32, id: NodeId)
    ensures Classify(LiteralText(PercentageLiteral(v)), false, false, id) == Some(Lit(PercentageLiteral(v)))
  {
    var text, digits := LiteralText(PercentageLiteral(v)), DecimalText(v);
    assert text == digits + "%" && text[..|text| - 1] == digits;
    assert text[0] == digits[0];
    assert text[|text| - 1] == '%';
    NumberTextIsNoKeyword(text);
    ParseIntOfDecimalText(v);
  }

  lemma ScalarReparses(v: Int32, id: NodeId)
    requires v >= 0
    ensures Classify(LiteralText(ScalarLiteral(v)), false, false, id) == Some(Lit(ScalarLiteral(v)))
  {
    var text := LiteralText(ScalarLiteral(v));
    assert text == NatText(v);
    assert IsDigit(text[|text| - 1]);
    assert !EndsWith(text, "px") && !EndsWith(text, "%");
    NumberTextIsNoKeyword(text);
    ParseIntOfDecimalText(v);
  }

  /** The text the generator writes for a literal is classified back into
      the same literal, for every pixel, percentage and boolean value, every
      non-negative scalar and every colour of the `#rrggbb` form. */
  lemma LiteralReparses(l: Literal, id: NodeId)
    requires l.ScalarLiteral? ==> l.value >= 0
    requires l.ColorLiteral? ==> IsHexColor(l.hex)
    ensures Classify(LiteralText(l), false, false, id) == Some(Lit(l))
  {
    match l
    case PixelLiteral(v) => PixelReparses(v, id);
    case PercentageLiteral(v) => PercentageReparses(v, id);
    case ScalarLiteral(v) => ScalarReparses(v, id);
    case ColorLiteral(hex) =>
      assert ToLower(hex)[0] == '#';
      assert ToLower("true")[0] == 't' && ToLower("false")[0] == 'f';
    case BoolLiteral(b) =>
      assert ToLower("false") != ToLower("true");
  }

  /** A negative scalar does not read back: its text is taken for a property
      name, since scalar text is digits only. */
  lemma NegativeScalarDoesNotReparse(id: NodeId)
    ensures LiteralText(ScalarLiteral(-1)) == "-1"
    ensures Classify("-1", false, false, id) == Some(Other(PropertyName("-1")))
  {
    assert DecimalText(-1) == "-" + NatText(1);
    NumberTextIsNoKeyword("-1");
    var text := "-1";
    assert !IsDigit(text[0]) && !IsNumber(text);
    assert text[|text| - 1] == '1' && !EndsWith(text, "px") && !EndsWith(text, "%");
    assert !StartsWith(text, ".") && !StartsWith(text, "#");
    assert !IsLowerIdent(text) && !IsCapitalIdent(text);
  }
}
