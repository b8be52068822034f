/** Worked examples of the expression grammar: the cases the parser of
    src/expr.rs is exercised on, each a fact about the functions of
    module `Expr`. Most follow from the round trips of `ExprRender`. */
module ExprTests {
  import opened Wrappers
  import opened Strings
  import opened Expr
  import opened ExprRender

  lemma DecimalTexts()
    ensures NatText(0) == "0" && NatText(1) == "1" && NatText(12) == "12"
    ensures NatText(10) == "10" && NatText(110) == "110"
  {
    assert NatText(11) == "11";
  }

  /** `&(110,12)`: the explicit form of `&`. */
  lemma AmpFullExample()
    ensures LhsOf("&(110,12)") == Ok(Lhs.Amp(110, 12))
  {
    DecimalTexts();
    AmpRoundTrip(110, 12);
    assert "&" + ArgsText(110, 12) == "&(110,12)";
  }

  /** `$(10,12)`: the explicit form of `$`. */
  lemma DollarSignFullExample()
    ensures LhsOf("$(10,12)") == Ok(DollarSign(10, 12))
  {
    DecimalTexts();
    DollarSignRoundTrip(10, 12);
    assert "$" + ArgsText(10, 12) == "$(10,12)";
  }

  /** A bare `&` and `$` stand for level 0, index 0. */
  lemma ShortFormExamples()
    ensures LhsOf("&") == Ok(Lhs.Amp(0, 0))
    ensures LhsOf("$") == Ok(DollarSign(0, 0))
  {
  }

  /** `&12`: a level without an index. */
  lemma AmpMediumExample()
    ensures LhsOf("&12") == Ok(Lhs.Amp(12, 0))
  {
    var s := "&12";
    DecimalTexts();
    assert TextAt(s, 1, NatText(12));
    IndexValueAt(s, 1, 12);
  }

  /** `@` alone and `@(0,qwe)`. */
  lemma AtExamples()
    ensures LhsOf("@") == Ok(Lhs.At(None))
    ensures LhsOf("@(0,qwe)") == Ok(Lhs.At(Some((0, "qwe"))))
  {
    DecimalTexts();
    AtRoundTrip(Some((0, "qwe")));
    assert AtText(Some((0, "qwe"))) == "@(0,qwe)";
  }

  /** `#` keeps the rest verbatim, whitespace and newlines included. */
  lemma SquareExample()
    ensures LhsOf("#my123 _12\n3key") == Ok(Lhs.Square("my123 _12\n3key"))
  {
  }

  /** Text without `*` or `|` is a literal key. */
  lemma LiteralKeyExample()
    ensures LhsOf("my123 _12\n3key") == Ok(Lhs.Key(KeySelection.Literal("my123 _12\n3key")))
  {
    KeyRoundTrip(KeySelection.Literal("my123 _12\n3key"));
  }

  /** `*` alone is `Star`. */
  lemma StarExample()
    ensures LhsOf("*") == Ok(Lhs.Key(Star))
  {
    KeyRoundTrip(Star);
  }

  lemma JoinThree(a: string, b: string, c: string, sep: string)
    ensures Join([a, b, c], sep) == a + sep + b + sep + c
  {
    assert Join([c], sep) == c;
    JoinCons(b, [c], sep);
    assert [b] + [c] == [b, c];
    JoinCons(a, [b, c], sep);
    assert [a] + [b, c] == [a, b, c];
  }

  /** `qwe*asd*zxc`: the fragments around the stars. */
  lemma StarsExample()
    ensures LhsOf("qwe*asd*zxc") == Ok(Lhs.Key(Stars(["qwe", "asd", "zxc"])))
  {
    var sel := Stars(["qwe", "asd", "zxc"]);
    JoinThree("qwe", "asd", "zxc", "*");
    assert SelectionText(sel) == "qwe*asd*zxc";
    KeyRoundTrip(sel);
  }

  /** `qwe|asd|zxc`: the alternatives between the pipes. */
  lemma PipeExample()
    ensures LhsOf("qwe|asd|zxc") == Ok(Lhs.Key(Pipe(["qwe", "asd", "zxc"])))
  {
    var sel := Pipe(["qwe", "asd", "zxc"]);
    JoinThree("qwe", "asd", "zxc", "|");
    assert SelectionText(sel) == "qwe|asd|zxc";
    KeyRoundTrip(sel);
  }

  /** Errors: an empty expression, and text left over after a form. */
  lemma LhsErrorExamples()
    ensures LhsOf("") == Err(EmptyExpr)
    ensures LhsOf("&x") == Err(UnexpectedCharacter('x'))
    ensures LhsOf("@(") == Err(EmptyNumber)
  {
  }

  function HelloWorld(): seq<RhsEntry>
  {
    [RhsEntry.Key("hello"), Dot, RhsEntry.Key("world"), Index(IndexOp.Literal(13))]
  }

  lemma HelloWorldWellFormed()
    ensures RhsWellFormed(HelloWorld())
  {
    var es := HelloWorld();
    assert EntryWellFormed(es[0]) && EntryWellFormed(es[2]);
  }

  lemma HelloWorldTail()
    ensures RhsText(HelloWorld()[2..]) == "world[13]"
  {
    var es := HelloWorld()[2..];
    assert NatText(13) == "13";
    assert EntryText(es[1]) == "[13]";
    assert RhsText(es[1..]) == "[13]" by { assert RhsText(es[2..]) == ""; }
  }

  lemma HelloWorldText()
    ensures RhsText(HelloWorld()) == "hello.world[13]"
  {
    var es := HelloWorld();
    HelloWorldTail();
    assert es[1..][1..] == es[2..];
    assert RhsText(es[1..]) == ".world[13]";
  }

  /** `hello.world[13]`: keys, dots and a literal index. */
  lemma RhsKeyExample()
    ensures RhsOf("hello.world[13]") ==
      Ok(Rhs([RhsEntry.Key("hello"), Dot, RhsEntry.Key("world"), Index(IndexOp.Literal(13))]))
  {
    HelloWorldWellFormed();
    HelloWorldText();
    RhsRoundTrip(HelloWorld());
  }
}
