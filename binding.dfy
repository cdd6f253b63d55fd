/** Binding a step's arguments (`SegmentArgs` in humane_rework/src/segments.rs):
    matching the step the user wrote against the capability's pattern
    gives every `{variable}` of the pattern a JSON value, and reading an
    argument substitutes the configured `%placeholder%` texts inside it. */
module Binding {
  import opened Wrappers
  import opened Text
  import opened JsonValues
  import opened Segments
  import opened Errors

  /** The placeholder part of the run's parameters: the table of
      placeholders, in the order the hash map yields them, and the
      delimiter written around a placeholder's name. */
  datatype Params = Params(placeholders: seq<(string, string)>, delimiter: string)

  /** The delimiter `HumaneParams` uses unless configured otherwise. */
  const DefaultDelimiter: string := "%"

  /** `SegmentArgs`: the bound arguments and the placeholder settings. */
  datatype SegmentArgs = SegmentArgs(args: map<string, Json>, delimiter: string,
                                     placeholders: seq<(string, string)>)

  // ---- build ----

  /** What a reference variable is bound to when the supplied step has
      `supplied` in its position: a quoted value as it is, a variable by
      looking its name up in the step's own arguments. A literal there is
      the `panic!` of the source. */
  function BindOne(supplied: Segment, suppliedArgs: map<string, Json>): Result<Json, InputError>
  {
    match supplied
    case Value(v) => Ok(v)
    case Variable(name) =>
      if name in suppliedArgs then Ok(suppliedArgs[name])
      else Err(NonexistentArgument(name, suppliedArgs.Keys))
    case Literal(l) => Panic(l + " should be unreachable")
  }

  /** The bindings made walking the zipped segments from the left, starting
      from `acc`; a later binding of the same name replaces an earlier one,
      as `HashMap::insert` does. */
  function BindFrom(reference: Pattern, supplied: Pattern, suppliedArgs: map<string, Json>,
                    acc: map<string, Json>): Result<map<string, Json>, InputError>
    decreases |reference|
  {
    if |reference| == 0 || |supplied| == 0 then Ok(acc)
    else if !reference[0].Variable? then BindFrom(reference[1..], supplied[1..], suppliedArgs, acc)
    else
      match BindOne(supplied[0], suppliedArgs)
      case Ok(v) => BindFrom(reference[1..], supplied[1..], suppliedArgs, acc[reference[0].name := v])
      case Err(e) => Err(e)
      case Panic(m) => Panic(m)
  }

  function Bindings(reference: Pattern, supplied: Pattern, suppliedArgs: map<string, Json>)
    : Result<map<string, Json>, InputError>
  {
    BindFrom(reference, supplied, suppliedArgs, map[])
  }

  /** The placeholder settings `build` copies from the context, or empty
      ones without a context. */
  function SettingsOf(ctx: Option<Params>): Params
  {
    if ctx.Some? then ctx.value else Params([], "")
  }

  /** `SegmentArgs::build` (the reference definition). */
  function BuildSpec(reference: Pattern, supplied: Pattern, suppliedArgs: map<string, Json>,
                     ctx: Option<Params>): Result<SegmentArgs, InputError>
  {
    match Bindings(reference, supplied, suppliedArgs)
    case Ok(m) => Ok(SegmentArgs(m, SettingsOf(ctx).delimiter, SettingsOf(ctx).placeholders))
    case Err(e) => Err(e)
    case Panic(msg) => Panic(msg)
  }

  /** `SegmentArgs::build`: the loop over the zipped segments. */
  method Build(reference: Pattern, supplied: Pattern, suppliedArgs: map<string, Json>,
               ctx: Option<Params>) returns (r: Result<SegmentArgs, InputError>)
    ensures r == BuildSpec(reference, supplied, suppliedArgs, ctx)
  {
    var args: map<string, Json> := map[];
    var n := if |reference| < |supplied| then |reference| else |supplied|;
    for i := 0 to n
      invariant BindFrom(reference[i..], supplied[i..], suppliedArgs, args)
                == Bindings(reference, supplied, suppliedArgs)
    {
      assert reference[i..][1..] == reference[i + 1..];
      assert supplied[i..][1..] == supplied[i + 1..];
      if reference[i].Variable? {
        var key := reference[i].name;
        match supplied[i]
        case Value(v) =>
          args := args[key := v];
        case Variable(name) =>
          if name !in suppliedArgs {
            return Err(NonexistentArgument(name, suppliedArgs.Keys));
          }
          args := args[key := suppliedArgs[name]];
        case Literal(l) =>
          return Panic(l + " should be unreachable");
      }
    }
    assert |reference[n..]| == 0 || |supplied[n..]| == 0;
    var settings := SettingsOf(ctx);
    r := Ok(SegmentArgs(args, settings.delimiter, settings.placeholders));
  }

  // ---- what build binds ----

  /** Position `i` of the zipped segments cannot be bound: the reference
      has a variable there and the supplied step a literal, or a variable
      its arguments do not define. */
  predicate Stuck(reference: Pattern, supplied: Pattern, suppliedArgs: map<string, Json>, i: nat)
    requires i < |reference| && i < |supplied|
  {
    reference[i].Variable? && !BindOne(supplied[i], suppliedArgs).Ok?
  }

  /** When the supplied step is `eq` to the reference, `build` never
      reaches its `panic!`: a literal of the supplied step only ever faces
      the same literal. */
  lemma {:induction false} BuildNeverPanicsOnEq(reference: Pattern, supplied: Pattern,
                                                suppliedArgs: map<string, Json>, acc: map<string, Json>)
    requires Eq(supplied, reference)
    ensures !BindFrom(reference, supplied, suppliedArgs, acc).Panic?
    decreases |reference|
  {
    if |reference| > 0 {
      var next := if reference[0].Variable? && BindOne(supplied[0], suppliedArgs).Ok?
                  then acc[reference[0].name := BindOne(supplied[0], suppliedArgs).value] else acc;
      BuildNeverPanicsOnEq(reference[1..], supplied[1..], suppliedArgs, next);
    }
  }

  /** `build` succeeds exactly when no position is stuck. */
  lemma {:induction false} BuildOkIffNoneStuck(reference: Pattern, supplied: Pattern,
                                               suppliedArgs: map<string, Json>, acc: map<string, Json>)
    ensures BindFrom(reference, supplied, suppliedArgs, acc).Ok?
            <==> forall i :: 0 <= i < |reference| && i < |supplied|
                   ==> !Stuck(reference, supplied, suppliedArgs, i)
    decreases |reference|
  {
    if |reference| > 0 && |supplied| > 0 {
      var next := if reference[0].Variable? && BindOne(supplied[0], suppliedArgs).Ok?
                  then acc[reference[0].name := BindOne(supplied[0], suppliedArgs).value] else acc;
      BuildOkIffNoneStuck(reference[1..], supplied[1..], suppliedArgs, next);
      if Stuck(reference, supplied, suppliedArgs, 0) {
        assert !BindFrom(reference, supplied, suppliedArgs, acc).Ok?;
      } else {
        assert BindFrom(reference, supplied, suppliedArgs, acc)
               == BindFrom(reference[1..], supplied[1..], suppliedArgs, next);
        if BindFrom(reference[1..], supplied[1..], suppliedArgs, next).Ok? {
          forall i | 0 <= i < |reference| && i < |supplied|
            ensures !Stuck(reference, supplied, suppliedArgs, i)
          {
            if i > 0 {
              assert !Stuck(reference[1..], supplied[1..], suppliedArgs, i - 1);
            }
          }
        } else {
          var j :| 0 <= j < |reference| - 1 && j < |supplied| - 1
                   && Stuck(reference[1..], supplied[1..], suppliedArgs, j);
          assert Stuck(reference, supplied, suppliedArgs, j + 1);
        }
      }
    }
  }

  /** The first stuck position decides the failure: a missing argument
      gives `NonexistentArgument` naming it and listing the available
      names, a literal the panic. */
  lemma {:induction false} BuildFailsAtFirstStuck(reference: Pattern, supplied: Pattern,
                                                  suppliedArgs: map<string, Json>,
                                                  acc: map<string, Json>, i: nat)
    requires i < |reference| && i < |supplied| && Stuck(reference, supplied, suppliedArgs, i)
    requires forall j :: 0 <= j < i ==> !Stuck(reference, supplied, suppliedArgs, j)
    ensures supplied[i].Variable? ==>
              BindFrom(reference, supplied, suppliedArgs, acc)
              == Err(NonexistentArgument(supplied[i].name, suppliedArgs.Keys))
    ensures supplied[i].Literal? ==> BindFrom(reference, supplied, suppliedArgs, acc).Panic?
    decreases i
  {
    if i > 0 {
      assert !Stuck(reference, supplied, suppliedArgs, 0);
      var next := if reference[0].Variable?
                  then acc[reference[0].name := BindOne(supplied[0], suppliedArgs).value] else acc;
      assert forall j :: 0 <= j < i - 1 ==>
        Stuck(reference[1..], supplied[1..], suppliedArgs, j) == Stuck(reference, supplied, suppliedArgs, j + 1);
      BuildFailsAtFirstStuck(reference[1..], supplied[1..], suppliedArgs, next, i - 1);
    }
  }

  /** The names `build` binds are the names of the reference's variables
      (within the zipped length), together with those already bound. */
  lemma {:induction false} BuildBindsVariables(reference: Pattern, supplied: Pattern,
                                               suppliedArgs: map<string, Json>,
                                               acc: map<string, Json>, k: string)
    requires BindFrom(reference, supplied, suppliedArgs, acc).Ok?
    ensures k in BindFrom(reference, supplied, suppliedArgs, acc).value
            <==> k in acc || exists i :: 0 <= i < |reference| && i < |supplied|
                                         && reference[i] == Variable(k)
    decreases |reference|
  {
    if |reference| > 0 && |supplied| > 0 {
      var next := if reference[0].Variable?
                  then acc[reference[0].name := BindOne(supplied[0], suppliedArgs).value] else acc;
      BuildBindsVariables(reference[1..], supplied[1..], suppliedArgs, next, k);
      if j :| 0 <= j < |reference| - 1 && j < |supplied| - 1 && reference[1..][j] == Variable(k) {
        assert reference[j + 1] == Variable(k);
      }
      if i :| 0 <= i < |reference| && i < |supplied| && reference[i] == Variable(k) {
        if i > 0 {
          assert reference[1..][i - 1] == Variable(k);
        }
      }
    }
  }

  /** A name no later position binds keeps the value it has. */
  lemma {:induction false} BuildKeeps(reference: Pattern, supplied: Pattern,
                                      suppliedArgs: map<string, Json>,
                                      acc: map<string, Json>, k: string)
    requires BindFrom(reference, supplied, suppliedArgs, acc).Ok? && k in acc
    requires forall j :: 0 <= j < |reference| && j < |supplied| ==> reference[j] != Variable(k)
    ensures k in BindFrom(reference, supplied, suppliedArgs, acc).value
    ensures BindFrom(reference, supplied, suppliedArgs, acc).value[k] == acc[k]
    decreases |reference|
  {
    if |reference| > 0 && |supplied| > 0 {
      var next := if reference[0].Variable?
                  then acc[reference[0].name := BindOne(supplied[0], suppliedArgs).value] else acc;
      assert forall j :: 0 <= j < |reference| - 1 && j < |supplied| - 1 ==> reference[1..][j] == reference[j + 1];
      BuildKeeps(reference[1..], supplied[1..], suppliedArgs, next, k);
    }
  }

  /** The last position of a reference variable decides its value: the
      supplied quoted value there, or the supplied argument its variable
      names. */
  lemma {:induction false} BuildBindsLast(reference: Pattern, supplied: Pattern,
                                          suppliedArgs: map<string, Json>,
                                          acc: map<string, Json>, i: nat)
    requires BindFrom(reference, supplied, suppliedArgs, acc).Ok?
    requires i < |reference| && i < |supplied| && reference[i].Variable?
    requires forall j :: i < j < |reference| && j < |supplied| ==> reference[j] != reference[i]
    ensures BindOne(supplied[i], suppliedArgs).Ok?
    ensures reference[i].name in BindFrom(reference, supplied, suppliedArgs, acc).value
    ensures BindFrom(reference, supplied, suppliedArgs, acc).value[reference[i].name]
            == BindOne(supplied[i], suppliedArgs).value
    decreases i
  {
    var next := if reference[0].Variable?
                then acc[reference[0].name := BindOne(supplied[0], suppliedArgs).value] else acc;
    assert forall j :: 0 <= j < |reference| - 1 && j < |supplied| - 1 ==> reference[1..][j] == reference[j + 1];
    if i == 0 {
      BuildKeeps(reference[1..], supplied[1..], suppliedArgs, next, reference[0].name);
    } else {
      BuildBindsLast(reference[1..], supplied[1..], suppliedArgs, next, i - 1);
    }
  }

  // ---- placeholders ----

  /** The text `delim + name + delim` that a placeholder replaces. */
  function Matcher(delim: string, name: string): string
  {
    delim + name + delim
  }

  /** One round of the placeholder loop: replace the placeholder if it occurs. */
  function ApplyPlaceholder(s: string, delim: string, p: (string, string)): string
  {
    var m := Matcher(delim, p.0);
    if Contains(s, m) then ReplaceAll(s, m, p.1) else s
  }

  /** The placeholders applied one after another, in table order. */
  function ApplyAll(s: string, delim: string, ps: seq<(string, string)>): string
    decreases |ps|
  {
    if |ps| == 0 then s
    else ApplyPlaceholder(ApplyAll(s, delim, ps[..|ps| - 1]), delim, ps[|ps| - 1])
  }

  /** The string case of `replace_inside_value`: nothing happens unless the
      delimiter occurs in the string. */
  function SubstituteString(s: string, delim: string, ps: seq<(string, string)>): string
  {
    if Contains(s, delim) then ApplyAll(s, delim, ps) else s
  }

  /** The kind of a JSON value, as `get_string` names it. */
  function KindName(v: Json): string
  {
    match v
    case Null => "null"
    case Bool(_) => "boolean"
    case Number(_) => "number"
    case Str(_) => "string"
    case Array(_) => "array"
    case Object(_) => "object"
  }

  /** `replace_inside_value` (the reference definition): every string
      inside the value, at any depth, has its placeholders substituted. */
  function Substituted(v: Json, delim: string, ps: seq<(string, string)>): (r: Json)
    ensures v.Null? || v.Bool? || v.Number? ==> r == v
    ensures KindName(r) == KindName(v)
    ensures v.Array? ==> |r.items| == |v.items|
    ensures v.Object? ==> r.fields.Keys == v.fields.Keys
    ensures v.Str? && !Contains(v.s, delim) ==> r == v
    decreases v
  {
    match v
    case Null => v
    case Bool(_) => v
    case Number(_) => v
    case Str(s) => Str(SubstituteString(s, delim, ps))
    case Array(items) => Array(seq(|items|, i requires 0 <= i < |items| => Substituted(items[i], delim, ps)))
    case Object(fields) => Object(map k | k in fields :: Substituted(fields[k], delim, ps))
  }

  /** `replace_inside_value`: the source rewrites the value in place; here
      the rewritten value is returned. */
  method ReplaceInsideValue(v: Json, delim: string, ps: seq<(string, string)>) returns (r: Json)
    ensures r == Substituted(v, delim, ps)
    decreases v
  {
    match v
    case Null => r := v;
    case Bool(_) => r := v;
    case Number(_) => r := v;
    case Str(s) =>
      var t := s;
      if Contains(s, delim) {
        for i := 0 to |ps|
          invariant t == ApplyAll(s, delim, ps[..i])
        {
          assert ps[..i + 1][..i] == ps[..i];
          var m := Matcher(delim, ps[i].0);
          if Contains(t, m) {
            t := ReplaceAll(t, m, ps[i].1);
          }
        }
        assert ps[..|ps|] == ps;
      }
      r := Str(t);
    case Array(items) =>
      var out: seq<Json> := [];
      for i := 0 to |items|
        invariant |out| == i
        invariant forall j :: 0 <= j < i ==> out[j] == Substituted(items[j], delim, ps)
      {
        var x := ReplaceInsideValue(items[i], delim, ps);
        out := out + [x];
      }
      r := Array(out);
    case Object(fields) =>
      var todo := fields.Keys;
      var out: map<string, Json> := map[];
      while todo != {}
        invariant todo <= fields.Keys
        invariant out.Keys == fields.Keys - todo
        invariant forall k :: k in out ==> out[k] == Substituted(fields[k], delim, ps)
        decreases todo
      {
        var k :| k in todo;
        var x := ReplaceInsideValue(fields[k], delim, ps);
        out := out[k := x];
        todo := todo - {k};
      }
      r := Object(out);
  }

  /** A placeholder table none of whose matchers occurs leaves a string as
      it is. */
  lemma {:induction false} ApplyAllAbsent(s: string, delim: string, ps: seq<(string, string)>)
    requires forall i :: 0 <= i < |ps| ==> !Contains(s, Matcher(delim, ps[i].0))
    ensures ApplyAll(s, delim, ps) == s
    decreases |ps|
  {
    if |ps| > 0 {
      ApplyAllAbsent(s, delim, ps[..|ps| - 1]);
    }
  }

  /** Substitution reaches into nested arrays and objects and changes
      nothing but strings: a value without strings is left as it is. */
  predicate HasNoStrings(v: Json)
    decreases v
  {
    match v
    case Str(_) => false
    case Array(items) => forall i :: 0 <= i < |items| ==> HasNoStrings(items[i])
    case Object(fields) => forall k :: k in fields ==> HasNoStrings(fields[k])
    case _ => true
  }

  lemma {:induction false} SubstitutedWithoutStrings(v: Json, delim: string, ps: seq<(string, string)>)
    requires HasNoStrings(v)
    ensures Substituted(v, delim, ps) == v
    decreases v
  {
    match v
    case Array(items) =>
      forall i | 0 <= i < |items|
        ensures Substituted(items[i], delim, ps) == items[i]
      {
        SubstitutedWithoutStrings(items[i], delim, ps);
      }
    case Object(fields) =>
      forall k | k in fields
        ensures Substituted(fields[k], delim, ps) == fields[k]
      {
        SubstitutedWithoutStrings(fields[k], delim, ps);
      }
    case _ =>
  }

  /** A string with a single placeholder `pre + c + n + c`, for a one-character
      delimiter `c` that occurs nowhere else, becomes `pre` followed by the
      placeholder's value, whatever order the table is in, as long as its
      names are distinct and no name or value holds the delimiter. */
  predicate PlainTable(ps: seq<(string, string)>, c: char)
  {
    (forall j :: 0 <= j < |ps| ==> c !in ps[j].0 && c !in ps[j].1)
    && forall j, k :: 0 <= j < k < |ps| ==> ps[j].0 != ps[k].0
  }

  lemma SubstituteSingle(pre: string, c: char, n: string, ps: seq<(string, string)>, i: nat)
    requires c !in pre && c !in n
    requires PlainTable(ps, c) && i < |ps| && ps[i].0 == n
    ensures SubstituteString(pre + Matcher([c], n), [c], ps) == pre + ps[i].1
  {
    var s := pre + Matcher([c], n);
    assert s == pre + [c] + (n + [c]);
    assert OccursAt(s, [c], |pre|);
    ContainsIffOccurs(s, [c]);
    ApplyPrefix(pre, c, n, ps, i, |ps|);
    assert ps[..|ps|] == ps;
  }

  lemma {:induction false} ApplyPrefix(pre: string, c: char, n: string, ps: seq<(string, string)>,
                                       i: nat, j: nat)
    requires c !in pre && c !in n
    requires PlainTable(ps, c) && i < |ps| && ps[i].0 == n && j <= |ps|
    ensures j <= i ==> ApplyAll(pre + Matcher([c], n), [c], ps[..j]) == pre + Matcher([c], n)
    ensures j > i ==> ApplyAll(pre + Matcher([c], n), [c], ps[..j]) == pre + ps[i].1
    decreases j
  {
    var s := pre + Matcher([c], n);
    if j > 0 {
      ApplyPrefix(pre, c, n, ps, i, j - 1);
      assert ps[..j][..j - 1] == ps[..j - 1];
      var p := ps[j - 1];
      assert ps[..j][j - 1] == p;
      if j - 1 < i {
        NoOtherMatcher(pre, c, n, p.0);
      } else if j - 1 == i {
        ReplaceSingle(pre, c, n, p.1);
      } else {
        FirstCharAbsentNotContained(pre + ps[i].1, Matcher([c], p.0));
      }
    }
  }

  lemma ReplaceSingle(pre: string, c: char, n: string, rep: string)
    requires c !in pre
    ensures ApplyPlaceholder(pre + Matcher([c], n), [c], (n, rep)) == pre + rep
  {
    var m := Matcher([c], n);
    assert OccursAt(pre + m + [], m, |pre|);
    assert pre + m + [] == pre + m;
    ContainsIffOccurs(pre + m, m);
    FirstCharAbsent(pre, m, []);
    ReplaceAtFirstOccurrence(pre, m, [], rep);
    assert pre + rep + [] == pre + rep;
  }

  /** No other placeholder name matches inside `pre + c + n + c`. */
  lemma NoOtherMatcher(pre: string, c: char, n: string, x: string)
    requires c !in pre && c !in n && c !in x && x != n
    ensures !Contains(pre + Matcher([c], n), Matcher([c], x))
  {
    var s := pre + Matcher([c], n);
    var m := Matcher([c], x);
    ContainsIffOccurs(s, m);
    if k :| OccursAt(s, m, k) {
      MatcherAt(pre, c, n, x, k);
    }
  }

  lemma MatcherAt(pre: string, c: char, n: string, x: string, k: int)
    requires c !in pre && c !in n && c !in x
    requires OccursAt(pre + Matcher([c], n), Matcher([c], x), k)
    ensures x == n
  {
    var s := pre + Matcher([c], n);
    var m := Matcher([c], x);
    assert |s| == |pre| + |n| + 2 && s[|pre|] == c && s[|pre| + |n| + 1] == c;
    assert forall j :: 0 <= j < |pre| ==> s[j] == pre[j];
    assert forall j :: 0 <= j < |n| ==> s[|pre| + 1 + j] == n[j];
    assert m[0] == c && m[|x| + 1] == c;
    assert forall j :: 0 <= j < |x| ==> m[1 + j] == x[j];
    assert forall j :: 0 <= j < |m| ==> s[k + j] == m[j];
    assert k == |pre|;
    assert |x| == |n|;
    assert x == m[1..|x| + 1] == s[k + 1..k + 1 + |x|] == n;
  }

  // ---- reading arguments ----

  /** `SegmentArgs::get_value`. */
  function GetValue(a: SegmentArgs, k: string): (r: Result<Json, InputError>)
    ensures !r.Panic?
    ensures r.Err? <==> k !in a.args
    ensures r.Err? ==> r.error == NonexistentArgument(k, a.args.Keys)
    ensures r.Ok? ==> KindName(r.value) == KindName(a.args[k])
  {
    if k !in a.args then Err(NonexistentArgument(k, a.args.Keys))
    else Ok(Substituted(a.args[k], a.delimiter, a.placeholders))
  }

  /** `SegmentArgs::get_string`: the substituted string, or the kind of
      value the argument holds instead. */
  function GetString(a: SegmentArgs, k: string): (r: Result<string, InputError>)
    ensures !r.Panic?
    ensures k !in a.args ==> r == Err(NonexistentArgument(k, a.args.Keys))
    ensures k in a.args && a.args[k].Str? ==>
              r == Ok(SubstituteString(a.args[k].s, a.delimiter, a.placeholders))
    ensures k in a.args && !a.args[k].Str? ==>
              r == Err(IncorrectArgumentType(k, KindName(a.args[k]), "string"))
    ensures r.Err? && r.error.IncorrectArgumentType? ==>
              r.error.was in {"null", "boolean", "number", "array", "object"}
  {
    match GetValue(a, k)
    case Ok(Str(s)) => Ok(s)
    case Ok(v) => Err(IncorrectArgumentType(k, KindName(v), "string"))
    case Err(e) => Err(e)
    case Panic(m) => Panic(m)
  }
}
