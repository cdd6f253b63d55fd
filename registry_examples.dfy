/** The lookup tests of humane_rework/src/definitions/mod.rs,
    humane_rework/src/instructions/mod.rs and humane_rework/src/segments.rs,
    for any registry that holds the capability among others. */
module RegistryExamples {
  import opened Wrappers
  import opened JsonValues
  import opened Segments
  import opened Parser
  import opened Registry

  lemma InstructionLiteral()
    ensures NoOpener("I am an instruction asking for ")
  {
  }

  /** `I am an instruction asking for {argument}` and the user's step
      `I am an instruction asking for "this argument"`. */
  lemma ParseInstructionPair()
    ensures Parse("I am an instruction asking for " + SpanText('{', "argument"))
            == Ok([Literal("I am an instruction asking for "), Variable("argument")])
    ensures Parse("I am an instruction asking for " + SpanText('"', "this argument"))
            == Ok([Literal("I am an instruction asking for "), Value(Str("this argument"))])
  {
    InstructionLiteral();
    LastSpan("I am an instruction asking for ", '{', "argument");
    LastSpan("I am an instruction asking for ", '"', "this argument");
  }

  /** `test_getting_an_instruction`: the quoted argument finds the
      capability whose pattern has a variable there. */
  lemma GettingAnInstruction<C>(reg: Registry<C>, c: C)
    requires KeysDistinct(reg)
    requires ([Literal("I am an instruction asking for "), Variable("argument")], c) in reg
    ensures GetKeyValue(reg, [Literal("I am an instruction asking for "), Value(Str("this argument"))])
            == Some(([Literal("I am an instruction asking for "), Variable("argument")], c))
  {
    LookupFinds(reg, [Literal("I am an instruction asking for "), Value(Str("this argument"))],
                [Literal("I am an instruction asking for "), Variable("argument")], c);
  }

  lemma ParseRetrieverPair()
    ensures Parse("the file " + SpanText('{', "filename"))
            == Ok([Literal("the file "), Variable("filename")])
    ensures Parse("the file " + SpanText('"', "index.html"))
            == Ok([Literal("the file "), Value(Str("index.html"))])
  {
    LastSpan("the file ", '{', "filename");
    LastSpan("the file ", '"', "index.html");
  }

  /** `test_getting_a_retriever`: `the file "index.html"` finds
      `the file {filename}`. */
  lemma GettingARetriever<C>(reg: Registry<C>, c: C)
    requires KeysDistinct(reg) && ([Literal("the file "), Variable("filename")], c) in reg
    ensures GetKeyValue(reg, [Literal("the file "), Value(Str("index.html"))])
            == Some(([Literal("the file "), Variable("filename")], c))
  {
    LookupFinds(reg, [Literal("the file "), Value(Str("index.html"))],
                [Literal("the file "), Variable("filename")], c);
  }

  lemma ParseAssertionPair()
    ensures Parse("be exactly " + SpanText('{', "value"))
            == Ok([Literal("be exactly "), Variable("value")])
    ensures Parse("be exactly " + SpanText('{', "my_json"))
            == Ok([Literal("be exactly "), Variable("my_json")])
  {
    LastSpan("be exactly ", '{', "value");
    LastSpan("be exactly ", '{', "my_json");
  }

  /** `test_getting_an_assertion`: variable names do not matter,
      `be exactly {my_json}` finds `be exactly {value}`. */
  lemma GettingAnAssertion<C>(reg: Registry<C>, c: C)
    requires KeysDistinct(reg) && ([Literal("be exactly "), Variable("value")], c) in reg
    ensures GetKeyValue(reg, [Literal("be exactly "), Variable("my_json")])
            == Some(([Literal("be exactly "), Variable("value")], c))
  {
    LookupFinds(reg, [Literal("be exactly "), Variable("my_json")],
                [Literal("be exactly "), Variable("value")], c);
  }

  /** The map of `test_segments_equality`: keyed by the `{filename}`
      pattern, it answers the quoted-value pattern and not the
      `I have one` pattern. */
  lemma EqualityMap()
    ensures GetKeyValue(Insert([], [Literal("I have a "), Variable("filename"), Literal(" file with the contents "), Variable("var")], "b"),
                        [Literal("I have a "), Value(Str("index.html")), Literal(" file with the contents "), Variable("var")])
            == Some(([Literal("I have a "), Variable("filename"), Literal(" file with the contents "), Variable("var")], "b"))
    ensures GetKeyValue(Insert([], [Literal("I have a "), Variable("filename"), Literal(" file with the contents "), Variable("var")], "b"),
                        [Literal("I have one "), Variable("filename"), Literal(" file with the contents "), Variable("var")])
            == None
  {
    var b := [Literal("I have a "), Variable("filename"), Literal(" file with the contents "), Variable("var")];
    var c := [Literal("I have one "), Variable("filename"), Literal(" file with the contents "), Variable("var")];
    assert Insert([], b, "b") == [(b, "b")];
    assert c[0] != b[0];
  }
}
