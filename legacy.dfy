/** The older instruction layer, humane_rework/src/instructions/mod.rs: its
    segments carry a quoted value as plain text rather than as JSON, with
    the same directed equality and hash, and its `InstructionArgs::get_str`. */
module LegacyInstructions {
  import opened Wrappers
  import opened JsonValues
  import opened Segments
  import opened Registry

  datatype OldSegment =
    | OldLiteral(text: string)
    | OldValue(value: string)
    | OldVariable(name: string)

  type OldPattern = seq<OldSegment>

  /** `PartialEq for HumaneSegments` (older): equal lengths, and position by
      position a literal equals, a value or variable faces a variable. */
  predicate OldEq(a: OldPattern, b: OldPattern)
  {
    |a| == |b|
    && forall i :: 0 <= i < |a| ==>
         (if a[i].OldLiteral? then a[i] == b[i] else b[i].OldVariable?)
  }

  /** `Hash for HumaneSegments` (older). */
  function OldHashTokens(p: OldPattern): (r: seq<HashToken>)
    ensures |r| == |p|
  {
    seq(|p|, i requires 0 <= i < |p| => if p[i].OldLiteral? then LiteralText(p[i].text) else Zero)
  }

  /** The newer segment an older one became: a value's text becomes a
      JSON string. */
  function Embed(s: OldSegment): Segment
  {
    match s
    case OldLiteral(t) => Literal(t)
    case OldValue(v) => Value(Str(v))
    case OldVariable(n) => Variable(n)
  }

  function EmbedAll(p: OldPattern): (r: Pattern)
    ensures |r| == |p| && forall i :: 0 <= i < |p| ==> r[i] == Embed(p[i])
  {
    seq(|p|, i requires 0 <= i < |p| => Embed(p[i]))
  }

  /** The older equality is the newer one on the embedded patterns. */
  lemma OldEqIsEq(a: OldPattern, b: OldPattern)
    ensures OldEq(a, b) <==> Eq(EmbedAll(a), EmbedAll(b))
  {
    EqCharacterization(EmbedAll(a), EmbedAll(b));
    if |a| == |b| {
      assert forall i :: 0 <= i < |a| ==> (Embed(a[i]) == Embed(b[i]) <==> a[i] == b[i]);
    }
  }

  /** The older hash is the newer one on the embedded pattern: it ignores
      values and variables and hashes literal text only. */
  lemma {:induction false} OldHashIsHash(p: OldPattern)
    ensures OldHashTokens(p) == HashTokens(EmbedAll(p))
    decreases |p|
  {
    if |p| > 0 {
      OldHashIsHash(p[1..]);
      assert EmbedAll(p)[1..] == EmbedAll(p[1..]);
      assert OldHashTokens(p) == [OldHashTokens(p)[0]] + OldHashTokens(p[1..]);
    }
  }

  /** Equal older patterns hash alike. */
  lemma OldEqImpliesSameHash(a: OldPattern, b: OldPattern)
    requires OldEq(a, b)
    ensures OldHashTokens(a) == OldHashTokens(b)
  {
    OldEqIsEq(a, b);
    EqImpliesSameHash(EmbedAll(a), EmbedAll(b));
    OldHashIsHash(a);
    OldHashIsHash(b);
  }

  /** `InstructionArgs::get_str`: the argument's text, or one of the two
      `anyhow` context messages. */
  function GetStr(args: map<string, Json>, k: string): (r: Result<string, string>)
    ensures !r.Panic?
    ensures r.Ok? <==> k in args && args[k].Str?
    ensures r.Ok? ==> r.value == args[k].s
    ensures k !in args ==> r == Err("argument not provided")
    ensures k in args && !args[k].Str? ==> r == Err("provided argument was not a string")
  {
    if k !in args then Err("argument not provided")
    else if !args[k].Str? then Err("provided argument was not a string")
    else Ok(args[k].s)
  }

  /** `test_instruction_equality`: the quoted file name faces `{filename}`,
      so a map holding `instruction_b` finds it for `instruction_a`, and
      `I have one` neither equals `I have a` nor is found. */
  lemma InstructionEquality()
    ensures OldEq([OldLiteral("I have a "), OldValue("index.html"), OldLiteral(" file with the contents "), OldVariable("var")],
                  [OldLiteral("I have a "), OldVariable("filename"), OldLiteral(" file with the contents "), OldVariable("var")])
    ensures !OldEq([OldLiteral("I have a "), OldVariable("filename"), OldLiteral(" file with the contents "), OldVariable("var")],
                   [OldLiteral("I have one "), OldVariable("filename"), OldLiteral(" file with the contents "), OldVariable("var")])
    ensures var b := EmbedAll([OldLiteral("I have a "), OldVariable("filename"), OldLiteral(" file with the contents "), OldVariable("var")]);
            GetKeyValue(Insert([], b, "b"),
                        EmbedAll([OldLiteral("I have a "), OldValue("index.html"), OldLiteral(" file with the contents "), OldVariable("var")]))
            == Some((b, "b"))
    ensures GetKeyValue(Insert([], EmbedAll([OldLiteral("I have a "), OldVariable("filename"), OldLiteral(" file with the contents "), OldVariable("var")]), "b"),
                        EmbedAll([OldLiteral("I have one "), OldVariable("filename"), OldLiteral(" file with the contents "), OldVariable("var")]))
            == None
  {
    var a := [OldLiteral("I have a "), OldValue("index.html"), OldLiteral(" file with the contents "), OldVariable("var")];
    var b := [OldLiteral("I have a "), OldVariable("filename"), OldLiteral(" file with the contents "), OldVariable("var")];
    var c := [OldLiteral("I have one "), OldVariable("filename"), OldLiteral(" file with the contents "), OldVariable("var")];
    assert b[0] != c[0];
    OldEqIsEq(a, b);
    OldEqIsEq(c, b);
    assert Insert([], EmbedAll(b), "b") == [(EmbedAll(b), "b")];
  }
}
