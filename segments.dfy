/** The segment pattern language (humane_rework/src/segments.rs): one line of
    step text, or one capability definition, as a sequence of literal text,
    quoted values and named variables, with the wildcard-aware equality, the
    hash that agrees with it and the two string renderings. */
module Segments {
  import opened JsonValues

  datatype Segment =
    | Literal(text: string)
    | Value(value: Json)
    | Variable(name: string)

  type Pattern = seq<Segment>

  /** The one-position test of `eq`: a literal on the query side must be the
      very same literal on the stored side; a value or a variable on the
      query side must face a variable. */
  predicate SegmentMatches(query: Segment, stored: Segment)
  {
    match query
    case Literal(_) => query == stored
    case Value(_) => stored.Variable?
    case Variable(_) => stored.Variable?
  }

  /** `zip(..).all(..)` over the two segment lists. */
  predicate AllMatch(query: Pattern, stored: Pattern)
    decreases |query|
  {
    |query| == 0 || |stored| == 0
    || (SegmentMatches(query[0], stored[0]) && AllMatch(query[1..], stored[1..]))
  }

  /** `PartialEq for HumaneSegments`, as the hash map calls it:
      `Eq(query, stored)`. It is directed: see `EqIsDirected`. */
  predicate Eq(query: Pattern, stored: Pattern)
  {
    |query| == |stored| && AllMatch(query, stored)
  }

  /** One token fed to the hasher: a literal's text, or the constant `0`
      written for every value and variable. */
  datatype HashToken = LiteralText(text: string) | Zero

  function HashTokenOf(s: Segment): HashToken
  {
    if s.Literal? then LiteralText(s.text) else Zero
  }

  /** `Hash for HumaneSegments`: the stream of tokens the hasher sees. */
  function HashTokens(p: Pattern): (r: seq<HashToken>)
    ensures |r| == |p|
    decreases |p|
  {
    if |p| == 0 then [] else [HashTokenOf(p[0])] + HashTokens(p[1..])
  }

  /** The marker that stands for every placeholder in a comparison string. */
  const Placeholder: string := "{___}"

  /** `get_comparison_string`: literals verbatim, every value and variable
      replaced by `{___}`. */
  function ComparisonString(p: Pattern): string
    decreases |p|
  {
    if |p| == 0 then []
    else (if p[0].Literal? then p[0].text else Placeholder) + ComparisonString(p[1..])
  }

  /** `get_as_string`: literals verbatim, a value as `"` + its `Display` +
      `"` (the `Display` of a JSON value, `display`, is not modelled), a
      variable as `{name}`. */
  function AsString(p: Pattern, display: Json -> string): string
    decreases |p|
  {
    if |p| == 0 then []
    else
      (match p[0]
       case Literal(l) => l
       case Value(v) => "\"" + display(v) + "\""
       case Variable(n) => "{" + n + "}")
      + AsString(p[1..], display)
  }

  predicate NoValues(p: Pattern)
  {
    forall i :: 0 <= i < |p| ==> !p[i].Value?
  }

  // ---- equality ----

  /** `eq` holds exactly when the lengths agree and every position matches. */
  lemma {:induction false} EqCharacterization(query: Pattern, stored: Pattern)
    ensures Eq(query, stored) <==>
              |query| == |stored|
              && forall i :: 0 <= i < |query| ==>
                   (query[i].Literal? ==> stored[i] == query[i])
                   && (!query[i].Literal? ==> stored[i].Variable?)
  {
    if |query| == |stored| {
      AllMatchAt(query, stored);
    }
  }

  lemma {:induction false} AllMatchAt(query: Pattern, stored: Pattern)
    requires |query| == |stored|
    ensures AllMatch(query, stored) <==>
              forall i :: 0 <= i < |query| ==> SegmentMatches(query[i], stored[i])
    decreases |query|
  {
    if |query| > 0 {
      AllMatchAt(query[1..], stored[1..]);
      assert forall i :: 1 <= i < |query| ==> query[1..][i - 1] == query[i] && stored[1..][i - 1] == stored[i];
    }
  }

  /** On patterns made of literals and variables only, `eq` is reflexive
      and symmetric. */
  lemma EqReflexiveWithoutValues(p: Pattern)
    requires NoValues(p)
    ensures Eq(p, p)
  {
    EqCharacterization(p, p);
  }

  lemma EqSymmetricWithoutValues(a: Pattern, b: Pattern)
    requires NoValues(a) && NoValues(b) && Eq(a, b)
    ensures Eq(b, a)
  {
    EqCharacterization(a, b);
    EqCharacterization(b, a);
  }

  /** A pattern holding a value is not equal to itself, and a value only
      faces a variable in one direction: `eq` is not symmetric. */
  lemma EqIsDirected(pre: Pattern, v: Json, name: string, post: Pattern)
    requires NoValues(pre) && NoValues(post)
    ensures !Eq(pre + [Value(v)] + post, pre + [Value(v)] + post)
    ensures Eq(pre + [Value(v)] + post, pre + [Variable(name)] + post)
    ensures !Eq(pre + [Variable(name)] + post, pre + [Value(v)] + post)
  {
    var a := pre + [Value(v)] + post;
    var b := pre + [Variable(name)] + post;
    EqCharacterization(a, a);
    EqCharacterization(a, b);
    EqCharacterization(b, a);
    assert a[|pre|] == Value(v) && b[|pre|] == Variable(name);
    assert forall i :: 0 <= i < |pre| ==> a[i] == b[i] == pre[i];
    assert forall i :: |pre| < i < |a| ==> a[i] == b[i] == post[i - |pre| - 1];
  }

  /** Equal patterns have equal hash token streams: `eq` and `hash` agree,
      so a pattern-keyed hash map finds every equal key in its bucket. */
  lemma {:induction false} EqImpliesSameHash(query: Pattern, stored: Pattern)
    requires Eq(query, stored)
    ensures HashTokens(query) == HashTokens(stored)
    decreases |query|
  {
    if |query| > 0 {
      EqImpliesSameHash(query[1..], stored[1..]);
    }
  }

  /** The hash ignores what a value or a variable holds. */
  lemma {:induction false} HashIgnoresPlaceholders(a: Pattern, b: Pattern)
    requires |a| == |b|
    requires forall i :: 0 <= i < |a| ==> (a[i].Literal? || b[i].Literal? ==> a[i] == b[i])
    ensures HashTokens(a) == HashTokens(b)
    decreases |a|
  {
    if |a| > 0 {
      HashIgnoresPlaceholders(a[1..], b[1..]);
    }
  }

  /** Equal patterns have the same comparison string. */
  lemma {:induction false} EqImpliesSameComparisonString(query: Pattern, stored: Pattern)
    requires Eq(query, stored)
    ensures ComparisonString(query) == ComparisonString(stored)
    decreases |query|
  {
    if |query| > 0 {
      EqImpliesSameComparisonString(query[1..], stored[1..]);
    }
  }
}
