/** The worked examples of humane_rework/src/segments.rs's tests: binding a
    quoted value to a pattern variable, `%ext%` substitution on reading it,
    and substitution throughout a nested JSON value. */
module BindingExamples {
  import opened Wrappers
  import opened Text
  import opened JsonValues
  import opened Segments
  import opened Errors
  import opened Parser
  import opened Binding

  /** `I have a {name} file with the contents {var}`. */
  function FileDefinition(): Pattern
  {
    [Literal("I have a "), Variable("name"), Literal(" file with the contents "), Variable("var")]
  }

  /** A user's step of that form, with the quoted file name `name`. */
  function FileStep(name: string): Pattern
  {
    [Literal("I have a "), Value(Str(name)), Literal(" file with the contents "), Value(Str(":)"))]
  }

  lemma FileLiterals()
    ensures NoOpener("I have a ") && NoOpener(" file with the contents ")
  {
  }

  lemma ParseFileDefinition()
    ensures Parse("I have a " + SpanText('{', "name") + " file with the contents "
                  + SpanText('{', "var")) == Ok(FileDefinition())
  {
    FileLiterals();
    TwoSpans("I have a ", '{', "name", " file with the contents ", '{', "var");
  }

  lemma ParseFileStep(name: string)
    requires '"' !in name
    ensures Parse("I have a " + SpanText('"', name) + " file with the contents "
                  + SpanText('\'', ":)")) == Ok(FileStep(name))
  {
    FileLiterals();
    TwoSpans("I have a ", '"', name, " file with the contents ", '\'', ":)");
  }

  /** Binding the user's step gives `name` the quoted file name. */
  lemma BindFileStep(name: string, ctx: Option<Params>)
    ensures BuildSpec(FileDefinition(), FileStep(name), map[], ctx)
            == Ok(SegmentArgs(map["name" := Str(name), "var" := Str(":)")],
                              SettingsOf(ctx).delimiter, SettingsOf(ctx).placeholders))
  {
    var d := FileDefinition();
    var u := FileStep(name);
    assert d[1..][1..][1..][1..] == [];
    assert u[1..][1..][1..][1..] == [];
  }

  /** `test_building_args`: without a context, `get_string("name")` gives
      the quoted text back. */
  lemma BuildingArgs()
    ensures BuildSpec(FileDefinition(), FileStep("index.html"), map[], None).Ok?
    ensures GetString(BuildSpec(FileDefinition(), FileStep("index.html"), map[], None).value, "name")
            == Ok("index.html")
  {
    BindFileStep("index.html", None);
    assert OccursAt("index.html", "", 0);
    ContainsIffOccurs("index.html", "");
  }

  /** `index.%ext%` with the placeholder `ext` set to `pdf`. */
  lemma SubstituteExtension()
    ensures SubstituteString("index.%ext%", "%", [("ext", "pdf")]) == "index.pdf"
  {
    assert "index.%ext%" == "index." + Matcher("%", "ext");
    SubstituteSingle("index.", '%', "ext", [("ext", "pdf")], 0);
  }

  /** `test_arg_placeholders`: the same step written `index.%ext%` reads
      back as `index.pdf`. */
  lemma ArgPlaceholders()
    ensures BuildSpec(FileDefinition(), FileStep("index.%ext%"), map[],
                      Some(Params([("ext", "pdf")], DefaultDelimiter))).Ok?
    ensures GetString(BuildSpec(FileDefinition(), FileStep("index.%ext%"), map[],
                                Some(Params([("ext", "pdf")], DefaultDelimiter))).value, "name")
            == Ok("index.pdf")
  {
    BindFileStep("index.%ext%", Some(Params([("ext", "pdf")], DefaultDelimiter)));
    SubstituteExtension();
  }

  /** `test_segments_equality`: a quoted value faces a variable, and a
      different literal does not match. */
  lemma SegmentsEquality()
    ensures Eq([Literal("I have a "), Value(Str("index.html")), Literal(" file with the contents "), Variable("var")],
               [Literal("I have a "), Variable("filename"), Literal(" file with the contents "), Variable("var")])
    ensures !Eq([Literal("I have a "), Variable("filename"), Literal(" file with the contents "), Variable("var")],
                [Literal("I have one "), Variable("filename"), Literal(" file with the contents "), Variable("var")])
  {
  }

  // ---- test_complex_placeholders ----

  /** The placeholder table of the test, in either order the hash map may
      yield it. */
  function CloudFirst(): seq<(string, string)>
  {
    [("cloud", "cannon"), ("thekey", "the value")]
  }

  function KeyFirst(): seq<(string, string)>
  {
    [("thekey", "the value"), ("cloud", "cannon")]
  }

  lemma TablesArePlain()
    ensures PlainTable(CloudFirst(), '%') && PlainTable(KeyFirst(), '%')
  {
  }

  /** The placeholder `cloud` of a plain table, at index `i`. */
  lemma Title(ps: seq<(string, string)>, i: nat)
    requires PlainTable(ps, '%') && i < |ps| && ps[i] == ("cloud", "cannon")
    ensures SubstituteString("Hello cloud%cloud%", "%", ps) == "Hello cloudcannon"
  {
    assert "Hello cloud%cloud%" == "Hello cloud" + Matcher("%", "cloud");
    SubstituteSingle("Hello cloud", '%', "cloud", ps, i);
  }

  lemma Tag(ps: seq<(string, string)>, i: nat)
    requires PlainTable(ps, '%') && i < |ps| && ps[i] == ("cloud", "cannon")
    ensures SubstituteString("%cloud%", "%", ps) == "cannon"
  {
    assert "%cloud%" == "" + Matcher("%", "cloud");
    SubstituteSingle("", '%', "cloud", ps, i);
  }

  lemma Replaced(ps: seq<(string, string)>, i: nat)
    requires PlainTable(ps, '%') && i < |ps| && ps[i] == ("thekey", "the value")
    ensures SubstituteString("thekey is %thekey%", "%", ps) == "thekey is the value"
  {
    assert "thekey is %thekey%" == "thekey is " + Matcher("%", "thekey");
    SubstituteSingle("thekey is ", '%', "thekey", ps, i);
  }

  lemma Untouched(ps: seq<(string, string)>)
    ensures SubstituteString("cannon", "%", ps) == "cannon"
  {
    FirstCharAbsentNotContained("cannon", "%");
  }

  function Nested(replaced: string): Json
  {
    Object(map["null" := Null, "count" := Number(3), "replaced" := Str(replaced)])
  }

  function Document(title: string, tag: string, replaced: string): Json
  {
    Object(map["title" := Str(title), "tags" := Array([Str("cannon"), Str(tag)]),
               "nested" := Nested(replaced)])
  }

  lemma SubstitutedPair(a: Json, b: Json, delim: string, ps: seq<(string, string)>)
    ensures Substituted(Array([a, b]), delim, ps)
            == Array([Substituted(a, delim, ps), Substituted(b, delim, ps)])
  {
    var r := Substituted(Array([a, b]), delim, ps);
    assert r.items[0] == Substituted(a, delim, ps);
    assert r.items[1] == Substituted(b, delim, ps);
    assert r.items == [Substituted(a, delim, ps), Substituted(b, delim, ps)];
  }

  lemma SubstitutedUpdate(f: map<string, Json>, k: string, v: Json, delim: string,
                          ps: seq<(string, string)>)
    ensures Substituted(Object(f[k := v]), delim, ps).fields
            == Substituted(Object(f), delim, ps).fields[k := Substituted(v, delim, ps)]
  {
    var r := Substituted(Object(f[k := v]), delim, ps).fields;
    var e := Substituted(Object(f), delim, ps).fields[k := Substituted(v, delim, ps)];
    assert r.Keys == e.Keys;
    assert forall x :: x in r ==> r[x] == e[x];
  }

  lemma SubstitutedTriple(k1: string, v1: Json, k2: string, v2: Json, k3: string, v3: Json,
                          delim: string, ps: seq<(string, string)>)
    ensures Substituted(Object(map[k1 := v1, k2 := v2, k3 := v3]), delim, ps)
            == Object(map[k1 := Substituted(v1, delim, ps), k2 := Substituted(v2, delim, ps),
                          k3 := Substituted(v3, delim, ps)])
  {
    var e: map<string, Json> := map[];
    assert Substituted(Object(e), delim, ps).fields == map[];
    SubstitutedUpdate(e, k1, v1, delim, ps);
    SubstitutedUpdate(e[k1 := v1], k2, v2, delim, ps);
    SubstitutedUpdate(e[k1 := v1][k2 := v2], k3, v3, delim, ps);
    assert e[k1 := v1][k2 := v2][k3 := v3] == map[k1 := v1, k2 := v2, k3 := v3];
  }

  /** Substitution reaches the three strings of the document and nothing
      else. */
  lemma SubstitutedDocument(title: string, tag: string, replaced: string, delim: string,
                            ps: seq<(string, string)>)
    requires SubstituteString("cannon", delim, ps) == "cannon"
    ensures Substituted(Document(title, tag, replaced), delim, ps)
            == Document(SubstituteString(title, delim, ps), SubstituteString(tag, delim, ps),
                        SubstituteString(replaced, delim, ps))
  {
    SubstitutedPair(Str("cannon"), Str(tag), delim, ps);
    SubstitutedTriple("null", Null, "count", Number(3), "replaced", Str(replaced), delim, ps);
    SubstitutedTriple("title", Str(title), "tags", Array([Str("cannon"), Str(tag)]),
                      "nested", Nested(replaced), delim, ps);
  }

  /** `test_complex_placeholders`, for either iteration order of the table. */
  lemma ComplexPlaceholders(ps: seq<(string, string)>)
    requires ps == CloudFirst() || ps == KeyFirst()
    ensures Substituted(Document("Hello cloud%cloud%", "%cloud%", "thekey is %thekey%"), "%", ps)
            == Document("Hello cloudcannon", "cannon", "thekey is the value")
  {
    TablesArePlain();
    var ci := if ps == CloudFirst() then 0 else 1;
    Title(ps, ci);
    Tag(ps, ci);
    Replaced(ps, 1 - ci);
    Untouched(ps);
    SubstitutedDocument("Hello cloud%cloud%", "%cloud%", "thekey is %thekey%", "%", ps);
  }
}
