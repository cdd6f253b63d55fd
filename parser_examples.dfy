/** The parse examples of the tests in humane_rework/src/parser.rs. */
module ParserExamples {
  import opened Wrappers
  import opened JsonValues
  import opened Segments
  import opened Parser

  lemma ExamplePlain()
    ensures Parse("I run my program") == Ok([Literal("I run my program")])
  {
    var s := "I run my program";
    assert NoOpener(s) && |s| > 0;
    PlainText(s);
  }

  /** The test text, written piece by piece: each quoted value holds the
      other quote as an ordinary character. */
  lemma ExampleQuotes()
    ensures Parse("I have a " + "\"public/cat/'index'.html\"" + " file with the body "
                  + "'<h1>Happy post about \"cats</h1>'")
            == Ok([Literal("I have a "), Value(Str("public/cat/'index'.html")),
                   Literal(" file with the body "), Value(Str("<h1>Happy post about \"cats</h1>"))])
  {
    QuotesLiterals();
    QuotesFirstValue();
    QuotesSecondValue();
    QuotesUnclosed();
    QuotedThenQuoted("I have a ", "\"public/cat/'index'.html\"", " file with the body ",
                     "'<h1>Happy post about \"cats</h1>'",
                     "public/cat/'index'.html", "<h1>Happy post about \"cats</h1>");
  }

  lemma QuotesLiterals()
    ensures NoOpener("I have a ") && NoOpener(" file with the body ")
  {
  }

  lemma QuotesFirstValue()
    ensures "\"public/cat/'index'.html\"" == ['"'] + "public/cat/'index'.html" + ['"']
  {
  }

  lemma QuotesSecondValue()
    ensures "'<h1>Happy post about \"cats</h1>'" == ['\''] + "<h1>Happy post about \"cats</h1>" + ['\'']
  {
  }

  lemma QuotesUnclosed()
    ensures '"' !in "public/cat/'index'.html" && '\'' !in "<h1>Happy post about \"cats</h1>"
  {
  }

  /** The test text, written piece by piece: an empty quoted value, a
      variable whose name holds a double quote, and a final value. */
  lemma ExampleEmptyValueAndVariable()
    ensures Parse("In my browser, " + "''" + "I eval " + "{j\"s}" + " and " + "'x'")
            == Ok([Literal("In my browser, "), Value(Str("")), Literal("I eval "),
                   Variable("j\"s"), Literal(" and "), Value(Str("x"))])
  {
    QuotedVariableQuoted("In my browser, ", "''", "I eval ", "{j\"s}", " and ", "'x'",
                         "", "j\"s", "x");
  }
}
