/** The builtin assertions, humane_rework/src/definitions/assertions/mod.rs:
    comparing a retrieved JSON value with an expected one (`contain`,
    `not contain`, `be exactly`, `not be exactly`) or testing it for
    emptiness (`be empty`, `not be empty`).

    `show` is `serde_json::to_string`, which the failure messages quote;
    its text is not part of this model. */
module Assertions {
  import opened Wrappers
  import opened Text
  import opened JsonValues
  import opened Binding
  import Errors

  const ComparisonSeparator := "\n---\n"

  /** The message of an `Internal` error for values no comparison is
      written for. */
  function UncomparableMessage(base: string, expected: string): string
  {
    "A comparison for these values has not been implemented." + ComparisonSeparator + base
    + ComparisonSeparator + "cannot compare with" + ComparisonSeparator + expected + "\n---"
  }

  /** The pairs of unequal values `value_contains_value` has an answer
      for: a scalar base, or a string base with a scalar expected value. */
  predicate Comparable(base: Json, expected: Json)
  {
    base.Null? || base.Bool? || base.Number?
    || (base.Str? && (expected.Bool? || expected.Number? || expected.Str?))
  }

  /** `value_contains_value`: equal values contain each other; a scalar
      contains nothing else; a string contains a string, a boolean or a
      number whose text occurs in it; any other pair is an internal error. */
  function ContainsValue(base: Json, expected: Json, show: Json -> string): (r: Result<bool, Errors.StepError>)
    ensures !r.Panic?
    ensures base == expected ==> r == Ok(true)
    ensures r.Err? <==> base != expected && !Comparable(base, expected)
    ensures r.Err? ==> r.error == Errors.Internal(Errors.Custom(UncomparableMessage(show(base), show(expected))))
    ensures base != expected && (base.Null? || base.Bool? || base.Number?) ==> r == Ok(false)
    ensures base.Str? && expected.Str? ==> r == Ok(Contains(base.s, expected.s))
    ensures base.Str? && expected.Bool? ==> r == Ok(Contains(base.s, BoolText(expected.b)))
    ensures base.Str? && expected.Number? ==> r == Ok(Contains(base.s, NumberText(expected.n)))
  {
    if base == expected then
      if base.Str? then
        SelfContained(base.s);
        Ok(true)
      else Ok(true)
    else
      match (base, expected)
      case (Null, _) => Ok(false)
      case (Bool(_), _) => Ok(false)
      case (Number(_), _) => Ok(false)
      case (Str(s), Bool(b)) => Ok(Contains(s, BoolText(b)))
      case (Str(s), Number(n)) => Ok(Contains(s, NumberText(n)))
      case (Str(s), Str(s2)) => Ok(Contains(s, s2))
      case _ => Err(Errors.Internal(Errors.Custom(UncomparableMessage(show(base), show(expected)))))
  }

  /** A string contains itself. */
  lemma SelfContained(s: string)
    ensures Contains(s, s)
  {
    assert s[..|s|] == s;
  }

  /** A string base contains an expected string exactly when the expected
      text occurs somewhere in it. */
  lemma StringContainment(s: string, e: string, show: Json -> string)
    ensures ContainsValue(Str(s), Str(e), show) == Ok(exists i :: OccursAt(s, e, i))
  {
    ContainsIffOccurs(s, e);
  }

  /** `value_is_empty`. */
  predicate IsEmpty(v: Json)
  {
    match v
    case Null => true
    case Str(s) => |s| == 0
    case Bool(_) => false
    case Number(_) => false
    case Array(a) => |a| == 0
    case Object(o) => |o| == 0
  }

  /** Exactly four values are empty: null, "", [] and {}. */
  lemma EmptyValues(v: Json)
    ensures IsEmpty(v) <==> v == Null || v == Str("") || v == Array([]) || v == Object(map[])
  {
    if v.Object? && |v.fields| == 0 {
      assert v.fields == map[];
    }
  }

  /** `value_type`, which names booleans "bool" where the argument binder
      says "boolean". */
  function TypeName(v: Json): (r: string)
    ensures v.Bool? ==> r == "bool"
    ensures !v.Bool? ==> r == KindName(v)
  {
    match v
    case Null => "null"
    case Str(_) => "string"
    case Bool(_) => "bool"
    case Number(_) => "number"
    case Array(_) => "array"
    case Object(_) => "object"
  }

  /** Distinct kinds of value have distinct type names. */
  lemma TypeNamesDistinct(a: Json, b: Json)
    ensures TypeName(a) == TypeName(b) <==>
              (a.Null? && b.Null?) || (a.Str? && b.Str?) || (a.Bool? && b.Bool?)
              || (a.Number? && b.Number?) || (a.Array? && b.Array?) || (a.Object? && b.Object?)
  {
  }

  /** The argument `expected`, its input error turned into a step error as
      the `?` does. */
  function Expected(args: SegmentArgs): (r: Result<Json, Errors.StepError>)
    ensures !r.Panic?
    ensures "expected" !in args.args ==>
              r == Err(Errors.External(Errors.NonexistentArgument("expected", args.args.Keys)))
    ensures "expected" in args.args ==> r == Ok(GetValue(args, "expected").value)
  {
    GetValue(args, "expected").MapError((e: Errors.InputError) => Errors.External(e))
  }

  function Failure(msg: string): Errors.StepError
  {
    Errors.Assertion(Errors.Failure(msg))
  }

  function NotContainedMessage(base: string, expected: string): string
  {
    "The value" + ComparisonSeparator + base + ComparisonSeparator + "does not contain"
    + ComparisonSeparator + expected + "\n---"
  }

  function ContainedMessage(base: string, expected: string): string
  {
    "The value" + ComparisonSeparator + base + ComparisonSeparator
    + "should not contain the following value, but does" + ComparisonSeparator + expected + "\n---"
  }

  /** The message both `be exactly` and `not be exactly` fail with. */
  function NotExactlyMessage(base: string, expected: string): string
  {
    "The value" + ComparisonSeparator + base + ComparisonSeparator
    + "should be exactly the following value, but is not" + ComparisonSeparator + expected + "\n---"
  }

  /** `Contain::run` (`contain {expected}`). */
  function ContainRun(base: Json, args: SegmentArgs, show: Json -> string): (r: Result<(), Errors.StepError>)
    ensures !r.Panic?
    ensures Expected(args).Err? ==> r == Err(Expected(args).error)
    ensures Expected(args).Ok? ==>
              var c := ContainsValue(base, Expected(args).value, show);
              (r.Ok? <==> c == Ok(true))
              && (c.Err? ==> r == Err(c.error))
              && (c == Ok(false) ==> r == Err(Failure(NotContainedMessage(show(base), show(Expected(args).value)))))
  {
    var expected :- Expected(args);
    var contained :- ContainsValue(base, expected, show);
    if contained then Ok(())
    else Err(Failure(NotContainedMessage(show(base), show(expected))))
  }

  /** `NotContain::run` (`not contain {expected}`). */
  function NotContainRun(base: Json, args: SegmentArgs, show: Json -> string): (r: Result<(), Errors.StepError>)
    ensures !r.Panic?
    ensures Expected(args).Err? ==> r == Err(Expected(args).error)
    ensures Expected(args).Ok? ==>
              var c := ContainsValue(base, Expected(args).value, show);
              (r.Ok? <==> c == Ok(false))
              && (c.Err? ==> r == Err(c.error))
              && (c == Ok(true) ==> r == Err(Failure(ContainedMessage(show(base), show(Expected(args).value)))))
  {
    var expected :- Expected(args);
    var contained :- ContainsValue(base, expected, show);
    if contained then Err(Failure(ContainedMessage(show(base), show(expected))))
    else Ok(())
  }

  /** `contain` and `not contain` disagree on every pair the comparison
      answers for, and fail alike otherwise. */
  lemma ContainOpposites(base: Json, args: SegmentArgs, show: Json -> string)
    ensures !(ContainRun(base, args, show).Ok? && NotContainRun(base, args, show).Ok?)
    ensures Expected(args).Ok? && ContainsValue(base, Expected(args).value, show).Ok? ==>
              (ContainRun(base, args, show).Ok? <==> !NotContainRun(base, args, show).Ok?)
    ensures Expected(args).Err? || ContainsValue(base, Expected(args).value, show).Err? ==>
              ContainRun(base, args, show).Err? && ContainRun(base, args, show) == NotContainRun(base, args, show)
  {
  }

  /** `Exactly::run` (`be exactly {expected}`). */
  function ExactlyRun(base: Json, args: SegmentArgs, show: Json -> string): (r: Result<(), Errors.StepError>)
    ensures !r.Panic?
    ensures Expected(args).Err? ==> r == Err(Expected(args).error)
    ensures Expected(args).Ok? ==>
              (r.Ok? <==> base == Expected(args).value)
              && (r.Err? ==> r.error == Failure(NotExactlyMessage(show(base), show(Expected(args).value))))
  {
    var expected :- Expected(args);
    if base == expected then Ok(())
    else Err(Failure(NotExactlyMessage(show(base), show(expected))))
  }

  /** `NotExactly::run` (`not be exactly {expected}`). Its failure message
      is the one `be exactly` fails with. */
  function NotExactlyRun(base: Json, args: SegmentArgs, show: Json -> string): (r: Result<(), Errors.StepError>)
    ensures !r.Panic?
    ensures Expected(args).Err? ==> r == Err(Expected(args).error)
    ensures Expected(args).Ok? ==>
              (r.Ok? <==> base != Expected(args).value)
              && (r.Err? ==> r.error == Failure(NotExactlyMessage(show(base), show(Expected(args).value))))
  {
    var expected :- Expected(args);
    if base != expected then Ok(())
    else Err(Failure(NotExactlyMessage(show(base), show(expected))))
  }

  /** With an `expected` argument exactly one of `be exactly` and `not be
      exactly` succeeds; without one both fail with the same error. */
  lemma ExactlyComplementary(base: Json, args: SegmentArgs, show: Json -> string)
    ensures Expected(args).Ok? ==> (ExactlyRun(base, args, show).Ok? <==> !NotExactlyRun(base, args, show).Ok?)
    ensures Expected(args).Err? ==> ExactlyRun(base, args, show) == NotExactlyRun(base, args, show)
  {
  }

  /** A value is exactly itself, so it contains itself too. */
  lemma ExactlyImpliesContain(base: Json, args: SegmentArgs, show: Json -> string)
    ensures ExactlyRun(base, args, show).Ok? ==> ContainRun(base, args, show).Ok?
  {
  }

  function EmptyMessage(base: string): string
  {
    "The value should be empty, but was:" + ComparisonSeparator + base + "\n---"
  }

  const NotEmptyPrefix := "The value should not be empty, but was an empty "

  function NotEmptyMessage(typeName: string): string
  {
    NotEmptyPrefix + typeName + " value"
  }

  /** `Empty::run` (`be empty`), which takes no arguments. */
  function EmptyRun(base: Json, args: SegmentArgs, show: Json -> string): (r: Result<(), Errors.StepError>)
    ensures !r.Panic?
    ensures r.Ok? <==> base == Null || base == Str("") || base == Array([]) || base == Object(map[])
    ensures r.Err? ==> r.error == Failure(EmptyMessage(show(base)))
  {
    EmptyValues(base);
    if IsEmpty(base) then Ok(())
    else Err(Failure(EmptyMessage(show(base))))
  }

  /** `NotEmpty::run` (`not be empty`): the failure names the kind of
      the empty value. */
  function NotEmptyRun(base: Json, args: SegmentArgs, show: Json -> string): (r: Result<(), Errors.StepError>)
    ensures !r.Panic?
    ensures r.Ok? <==> !(base == Null || base == Str("") || base == Array([]) || base == Object(map[]))
    ensures r.Err? ==> r.error == Failure(NotEmptyMessage(TypeName(base)))
  {
    EmptyValues(base);
    if IsEmpty(base) then Err(Failure(NotEmptyMessage(TypeName(base))))
    else Ok(())
  }

  /** `be empty` and `not be empty` are complementary, whatever the
      arguments, and the failure of `not be empty` names the value's type. */
  lemma EmptyComplementary(base: Json, args: SegmentArgs, show: Json -> string, other: SegmentArgs)
    ensures EmptyRun(base, args, show).Ok? <==> !NotEmptyRun(base, other, show).Ok?
    ensures NotEmptyRun(base, args, show).Err? ==>
              Contains(NotEmptyRun(base, args, show).error.failure.msg, TypeName(base))
  {
    var msg := NotEmptyMessage(TypeName(base));
    var at := |NotEmptyPrefix|;
    assert msg[at..at + |TypeName(base)|] == TypeName(base);
    assert OccursAt(msg, TypeName(base), at);
    ContainsIffOccurs(msg, TypeName(base));
  }
}
