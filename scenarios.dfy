/** Concrete inputs on which the model's decisions are proved: the decisions
    `_process_method` makes on captured text, the category scan order, and the switch
    case-count quirk. */
module Scenarios {
  import opened Wrappers
  import opened Text
  import opened Graph
  import opened Parser
  import opened Builders
  import opened Synthesis
  import Wiring
  import Constructs

  /** Loop bounds: plain digits, once stripped, are read as integers ... */
  lemma LoopBoundDigits()
    ensures LoopBound("0", 0) == 0 && LoopBound(" 5 ", 10) == 5 && LoopBound("12", 10) == 12
  {
    assert Strip(" 5 ") == "5";
    assert DigitsValue("12") == DigitsValue("1") * 10 + 2;
  }

  /** ... and anything else, including a negative literal, a variable or nothing, falls
      back to 0 for the start and 10 for the end. */
  lemma LoopBoundFallback()
    ensures LoopBound("-1", 0) == 0 && LoopBound("count", 10) == 10 && LoopBound("", 10) == 10
  {
    StripUnchanged("-1");
    assert !IsDigit("-1"[0]);
    StripUnchanged("count");
    assert !IsDigit("count"[0]);
    StripUnchanged("");
  }

  /** The comparison search takes the first operator of the list that occurs: `>` for
      `x > 3` ... */
  lemma ComparisonGreater()
    ensures FirstOp(ComparisonOps, "x > 3") == Some(">")
  {
    var ops, s := ComparisonOps, "x > 3";
    NotContainsMissing(s, "<=", '<');
    NotContainsMissing(s, ">=", '=');
    NotContainsMissing(s, "==", '=');
    NotContainsMissing(s, "!=", '=');
    NotContainsMissing(s, "<", '<');
    ContainsAt(s, ">", 2);
    assert FirstOp(ops[5..], s) == Some(">");
    assert FirstOp(ops[3..], s) == FirstOp(ops[4..], s) == FirstOp(ops[5..], s);
    assert FirstOp(ops[1..], s) == FirstOp(ops[2..], s) == FirstOp(ops[3..], s);
  }

  /** ... `<=`, not `<`, for `a <= b` ... */
  lemma ComparisonLessOrEqual()
    ensures FirstOp(ComparisonOps, "a <= b") == Some("<=")
  {
    ContainsAt("a <= b", "<=", 2);
  }

  /** ... and none for a bare flag. */
  lemma ComparisonNone()
    ensures FirstOp(ComparisonOps, "isReady") == None
  {
    Constructs.FirstOpMissing(ComparisonOps, "isReady");
  }

  /** The arithmetic search: `-` for `a - b * c`, since it precedes `*` in the list ... */
  lemma ArithmeticMinus()
    ensures ArithmeticOf("a - b * c") == Some("-")
  {
    var s := "a - b * c";
    assert s[..1] != "\"" by { assert s[..1][0] == 'a'; }
    ContainsAt(s, "-", 2);
    Constructs.FirstOpFound(ArithmeticOps, s, 1);
  }

  /** ... none for a quoted value, even one holding an operator ... */
  lemma ArithmeticQuoted()
    ensures ArithmeticOf("\"a+b\"") == None
  {
    assert StartsWith("\"a+b\"", "\"");
  }

  /** ... and none for a plain name. */
  lemma ArithmeticNone()
    ensures ArithmeticOf("speed") == None
  {
    Constructs.FirstOpMissing(ArithmeticOps, "speed");
  }

  /** `Debug.Log("hello")` gets a string literal holding `hello`; `Debug.Log(msg)` none. */
  lemma LogExamples()
    ensures LogValue(LogMatch("\"hello\"")) == Some(Aux(TLiteral(JStr("hello"), "string"), "output", "%message"))
    ensures LogValue(LogMatch("msg")) == None
  {
    StripUnchanged("\"hello\"");
    assert "\"hello\""[1..6] == "hello";
    StripUnchanged("msg");
  }

  /** A call on the right of `==` within the look-back window is skipped like one on the
      right of `=` ... */
  lemma CallAfterEqualitySkipped()
    ensures CallSkipped("if (a == b.Go())", CallMatch("b", "Go", "", 9))
  {
    var body := "if (a == b.Go())";
    assert body[6] == '=' && body[6..9] == "== ";
    Constructs.EqualsBeforeSkips(body, CallMatch("b", "Go", "", 9), 6);
  }

  /** ... while a call on a line of its own is not, whatever the line before holds. */
  lemma CallOnOwnLineKept()
    ensures !CallSkipped("x = 1;\nb.Go();", CallMatch("b", "Go", "", 7))
  {
    var body := "x = 1;\nb.Go();";
    Constructs.CallSkippedIff(body, CallMatch("b", "Go", "", 7));
    forall j | 0 <= j < 7 && body[j] == '='
      ensures '\n' in body[j..7]
    {
      assert body[j..7][6 - j] == body[6] == '\n';
    }
  }

  /** `switch(k){case 1:}`: the scan starts after the switch's own `{`, no further `{`
      follows, so the text is "" and the switch gets no case output although it has a
      case label. */
  lemma SwitchWithoutInnerBraces()
    ensures SwitchCases("switch(k){case 1:}", SwitchMatch("k", 10)) == 0
  {
    var code := "switch(k){case 1:}";
    assert From(code, 10) == "case 1:}";
    SwitchSpanWithoutInnerOpenIsEmpty(code, 10);
  }
}
