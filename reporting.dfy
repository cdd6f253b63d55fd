/** What humane_rework/src/main.rs does around the runner: it loads the
    test files and rejects duplicate names, decides each test's outcome,
    suggests known steps whose comparison strings resemble a step that is
    not found, and counts
    the passing and failing tests.

    Printing, colours, the interactive prompts and file writing are not
    part of this model: the answers of the prompts are passed in, and the
    similarity score of two strings (`compare_similarity`) is a
    parameter. */
module Reporting {
  import opened Wrappers
  import opened Text
  import opened Segments
  import opened Parser
  import opened Registry
  import opened Steps
  import Errors

  // ---- the order `closest_strings` sorts by ----

  /** `<` on `String`: lexicographic by character. Rust compares the UTF-8
      bytes, which orders strings as their code points do. */
  predicate StrLt(a: string, b: string)
    decreases |a|
  {
    |b| > 0 && (|a| == 0 || a[0] < b[0] || (a[0] == b[0] && StrLt(a[1..], b[1..])))
  }

  lemma {:induction false} StrLtIrreflexive(a: string)
    ensures !StrLt(a, a)
    decreases |a|
  {
    if |a| > 0 {
      StrLtIrreflexive(a[1..]);
    }
  }

  lemma {:induction false} StrLtTransitive(a: string, b: string, c: string)
    requires StrLt(a, b) && StrLt(b, c)
    ensures StrLt(a, c)
    decreases |a|
  {
    if |a| > 0 && a[0] == b[0] && b[0] == c[0] {
      StrLtTransitive(a[1..], b[1..], c[1..]);
    }
  }

  lemma {:induction false} StrLtTotal(a: string, b: string)
    ensures a == b || StrLt(a, b) || StrLt(b, a)
    decreases |a|
  {
    if |a| > 0 && |b| > 0 && a[0] == b[0] {
      StrLtTotal(a[1..], b[1..]);
      if a[1..] == b[1..] {
        assert a == [a[0]] + a[1..] && b == [b[0]] + b[1..];
      }
    }
  }

  /** A suggestion: a comparison string and its similarity to the step. */
  type Scored = (string, real)

  /** `x >= y` for the `(string, score)` tuples: by the string first, and
      by the score between equal strings. */
  predicate AtLeast(x: Scored, y: Scored)
  {
    StrLt(y.0, x.0) || (x.0 == y.0 && x.1 >= y.1)
  }

  lemma AtLeastTotal(x: Scored, y: Scored)
    ensures AtLeast(x, y) || AtLeast(y, x)
  {
    StrLtTotal(x.0, y.0);
  }

  lemma AtLeastTransitive(x: Scored, y: Scored, z: Scored)
    requires AtLeast(x, y) && AtLeast(y, z)
    ensures AtLeast(x, z)
  {
    if StrLt(y.0, x.0) && StrLt(z.0, y.0) {
      StrLtTransitive(z.0, y.0, x.0);
    }
  }

  lemma AtLeastAntisymmetric(x: Scored, y: Scored)
    requires AtLeast(x, y) && AtLeast(y, x)
    ensures x == y
  {
    if StrLt(y.0, x.0) && StrLt(x.0, y.0) {
      StrLtTransitive(x.0, y.0, x.0);
      StrLtIrreflexive(x.0);
    } else if StrLt(y.0, x.0) {
      StrLtIrreflexive(x.0);
    } else if StrLt(x.0, y.0) {
      StrLtIrreflexive(x.0);
    }
  }

  /** Sorted by `b.partial_cmp(a)`: each tuple is at least every later one. */
  predicate Descending(s: seq<Scored>)
  {
    forall i, j :: 0 <= i < j < |s| ==> AtLeast(s[i], s[j])
  }

  /** Each option with its score, in the order of the options. */
  function Scores(target: string, options: seq<string>, similarity: (string, string) -> real): (r: seq<Scored>)
    ensures |r| == |options|
    ensures forall i :: 0 <= i < |r| ==> r[i] == (options[i], similarity(target, options[i]))
  {
    seq(|options|, i requires 0 <= i < |options| => (options[i], similarity(target, options[i])))
  }

  /** Exchanges two neighbouring tuples. */
  method Swap(a: array<Scored>, j: nat)
    requires 0 < j < a.Length
    modifies a
    ensures a[j - 1] == old(a[j]) && a[j] == old(a[j - 1])
    ensures forall k :: 0 <= k < a.Length && k != j - 1 && k != j ==> a[k] == old(a[k])
    ensures multiset(a[..]) == old(multiset(a[..]))
  {
    a[j - 1], a[j] := a[j], a[j - 1];
  }

  /** Moves `a[i]` down past every tuple smaller than it, so that the
      first `i + 1` tuples are in order. */
  method Sink(a: array<Scored>, i: nat)
    requires i < a.Length && Descending(a[..i])
    modifies a
    ensures Descending(a[..i + 1])
    ensures multiset(a[..]) == old(multiset(a[..]))
  {
    var j := i;
    while j > 0 && !AtLeast(a[j - 1], a[j])
      invariant 0 <= j <= i
      invariant forall k, l :: 0 <= k < l <= i && k != j && l != j ==> AtLeast(a[k], a[l])
      invariant forall l :: j < l <= i ==> AtLeast(a[j], a[l])
      invariant multiset(a[..]) == old(multiset(a[..]))
    {
      AtLeastTotal(a[j - 1], a[j]);
      Swap(a, j);
      j := j - 1;
    }
    forall k | 0 <= k < j
      ensures AtLeast(a[k], a[j])
    {
      if k < j - 1 {
        AtLeastTransitive(a[k], a[j - 1], a[j]);
      }
    }
  }

  /** The sort `sort_by` does, as insertions: the first `i` tuples are in
      order, and the next one sinks to its place. */
  method SortDescending(a: array<Scored>)
    modifies a
    ensures Descending(a[..])
    ensures multiset(a[..]) == old(multiset(a[..]))
  {
    for i := 0 to a.Length
      invariant Descending(a[..i])
      invariant multiset(a[..]) == old(multiset(a[..]))
    {
      Sink(a, i);
    }
    assert a[..a.Length] == a[..];
  }

  /** `closest_strings`: every option exactly once with its score, in
      descending order of the `(string, score)` tuples. */
  method ClosestStrings(target: string, options: seq<string>, similarity: (string, string) -> real)
    returns (r: seq<Scored>)
    ensures multiset(r) == multiset(Scores(target, options, similarity))
    ensures Descending(r)
  {
    var scores := new Scored[|options|](i requires 0 <= i < |options| => (options[i], similarity(target, options[i])));
    assert scores[..] == Scores(target, options, similarity);
    SortDescending(scores);
    r := scores[..];
  }

  /** The first tuple of a descending sequence is at least each of them. */
  lemma FirstIsGreatest(s: seq<Scored>, x: Scored)
    requires Descending(s) && x in multiset(s)
    ensures AtLeast(s[0], x)
  {
    var i :| 0 <= i < |s| && s[i] == x;
    if i > 0 {
      assert AtLeast(s[0], s[i]);
    }
  }

  lemma DescendingTail(s: seq<Scored>)
    requires Descending(s) && |s| > 0
    ensures Descending(s[1..])
  {
    forall i, j | 0 <= i < j < |s| - 1
      ensures AtLeast(s[1..][i], s[1..][j])
    {
      assert s[1..][i] == s[i + 1] && s[1..][j] == s[j + 1];
    }
  }

  lemma MultisetTail(s: seq<Scored>, t: seq<Scored>)
    requires |s| > 0 && |t| > 0 && s[0] == t[0] && multiset(s) == multiset(t)
    ensures multiset(s[1..]) == multiset(t[1..])
  {
    assert s == [s[0]] + s[1..];
    assert t == [t[0]] + t[1..];
    assert multiset(s[1..]) == multiset(s) - multiset{s[0]};
    assert multiset(t[1..]) == multiset(t) - multiset{t[0]};
  }

  /** The order leaves no choice: two descending sequences of the same
      tuples are the same sequence. */
  lemma {:induction false} DescendingUnique(s: seq<Scored>, t: seq<Scored>)
    requires Descending(s) && Descending(t) && multiset(s) == multiset(t)
    ensures s == t
    decreases |s|
  {
    if |s| > 0 {
      assert s[0] in multiset(t);
      assert t[0] in multiset(s);
      FirstIsGreatest(t, s[0]);
      FirstIsGreatest(s, t[0]);
      AtLeastAntisymmetric(s[0], t[0]);
      MultisetTail(s, t);
      DescendingTail(s);
      DescendingTail(t);
      DescendingUnique(s[1..], t[1..]);
      assert s == [s[0]] + s[1..] && t == [t[0]] + t[1..];
    }
  }

  // ---- suggestions ----

  /** The comparison string of every key (`instruction_comparisons` and
      the like), in the registry's order. */
  function Comparisons<C>(reg: Registry<C>): (r: seq<string>)
    ensures |r| == |reg| && forall i :: 0 <= i < |r| ==> r[i] == ComparisonString(reg[i].0)
  {
    seq(|reg|, i requires 0 <= i < |reg| => ComparisonString(reg[i].0))
  }

  /** Whether the `i`th string in the order of `closest_strings` is
      suggested: the first always, and the later ones only when similar
      enough. */
  function Keep(i: nat, score: real): (r: bool)
    ensures r <==> i == 0 || (1 <= i <= 5 && score >= 0.4) || (i > 5 && score >= 0.6)
  {
    if i > 5 && score < 0.6 then false
    else if i > 0 && score < 0.4 then false
    else true
  }

  /** The strings of `m[i..]` that are kept, in order. */
  function Kept(m: seq<Scored>, i: nat): seq<string>
    decreases |m| - i
  {
    if i >= |m| then []
    else (if Keep(i, m[i].1) then [m[i].0] else []) + Kept(m, i + 1)
  }

  /** A string is suggested exactly when it sits at a position whose score
      is kept. */
  lemma {:induction false} KeptMeaning(m: seq<Scored>, i: nat, x: string)
    ensures x in Kept(m, i) <==> exists j :: i <= j < |m| && m[j].0 == x && Keep(j, m[j].1)
    decreases |m| - i
  {
    if i < |m| {
      KeptMeaning(m, i + 1, x);
    }
  }

  /** The first string in the order of `closest_strings` (the last in
      code-point order) is suggested however dissimilar it is. */
  lemma ClosestAlwaysKept(m: seq<Scored>)
    requires |m| > 0
    ensures |Kept(m, 0)| > 0 && Kept(m, 0)[0] == m[0].0
  {
  }

  const UnwrapMessage := "called `Result::unwrap()` on an `Err` value"
  const NotInGlobalSetMessage := "should exist in the global set"

  /** `parse_segments(&s).unwrap()` on every kept string. */
  function ParseAll(strs: seq<string>): (r: Result<seq<Pattern>, ()>)
    ensures !r.Err?
    ensures r.Ok? ==> |r.value| == |strs| && forall k :: 0 <= k < |strs| ==> Parse(strs[k]) == Ok(r.value[k])
    ensures r.Panic? <==> exists k :: 0 <= k < |strs| && !Parse(strs[k]).Ok?
    decreases |strs|
  {
    if |strs| == 0 then Ok([])
    else
      ParseNeverPanics(strs[0]);
      match Parse(strs[0])
      case Ok(q) =>
        (match ParseAll(strs[1..])
         case Ok(rest) => Ok([q] + rest)
         case Err(e) => Err(e)
         case Panic(m) => Panic(m))
      case Err(_) => Panic(UnwrapMessage)
      case Panic(m) => Panic(m)
  }

  /** Looking `q` up in `reg` gives the key `k`. */
  predicate Finds<C>(reg: Registry<C>, q: Pattern, k: Pattern)
  {
    GetKeyValue(reg, q).Some? && GetKeyValue(reg, q).value.0 == k
  }

  /** `get_key_value(&m).expect(..)` on every parsed suggestion: the keys
      whose text is shown. */
  function LookupAll<C>(qs: seq<Pattern>, reg: Registry<C>): (r: Result<seq<Pattern>, ()>)
    ensures !r.Err?
    ensures r.Ok? ==> |r.value| == |qs| && forall k :: 0 <= k < |qs| ==> Finds(reg, qs[k], r.value[k])
    decreases |qs|
  {
    if |qs| == 0 then Ok([])
    else
      match GetKeyValue(reg, qs[0])
      case None => Panic(NotInGlobalSetMessage)
      case Some(kv) =>
        (match LookupAll(qs[1..], reg)
         case Ok(rest) => Ok([kv.0] + rest)
         case Err(e) => Err(e)
         case Panic(m) => Panic(m))
  }

  /** The lookups panic exactly when some suggestion is not a key. */
  lemma {:induction false} LookupAllPanics<C>(qs: seq<Pattern>, reg: Registry<C>)
    ensures LookupAll(qs, reg).Panic? <==> exists k :: 0 <= k < |qs| && !ContainsKey(reg, qs[k])
    decreases |qs|
  {
    if |qs| > 0 {
      LookupAllPanics(qs[1..], reg);
      if ContainsKey(reg, qs[0]) {
        assert forall k :: 1 <= k < |qs| ==> qs[k] == qs[1..][k - 1];
      }
    }
  }

  /** Whether `m` is what `closest_strings` returns for `target`. */
  predicate IsClosest(m: seq<Scored>, target: string, options: seq<string>, similarity: (string, string) -> real)
  {
    Descending(m) && multiset(m) == multiset(Scores(target, options, similarity))
  }

  /** The suggestions for the sorted matches `m`: the kept strings,
      parsed and looked up, with the first panic if one fires. */
  function SuggestionsOf<C>(m: seq<Scored>, reg: Registry<C>): Result<seq<Pattern>, ()>
  {
    var parsed := ParseAll(Kept(m, 0));
    if parsed.Ok? then LookupAll(parsed.value, reg) else parsed
  }

  /** `log_closest` and the lookups after it: the comparison strings of
      the registry's keys in the order of `closest_strings`, filtered,
      parsed and looked up. */
  method Suggest<C>(query: Pattern, reg: Registry<C>, similarity: (string, string) -> real)
    returns (matches: seq<Scored>, r: Result<seq<Pattern>, ()>)
    ensures IsClosest(matches, ComparisonString(query), Comparisons(reg), similarity)
    ensures r == SuggestionsOf(matches, reg)
  {
    var comparator := ComparisonString(query);
    matches := ClosestStrings(comparator, Comparisons(reg), similarity);
    var parsed := ParseAll(Kept(matches, 0));
    if !parsed.Ok? {
      return matches, Panic(parsed.message);
    }
    r := LookupAll(parsed.value, reg);
  }

  /** Every key of a registry built from variable-only patterns. */
  predicate VariableKeys<C>(reg: Registry<C>)
  {
    forall i :: 0 <= i < |reg| ==> WellShaped(reg[i].0) && NoValues(reg[i].0)
  }

  /** The comparison string of a key parses back to a pattern that finds
      that very key. */
  lemma ComparisonFindsKey<C>(reg: Registry<C>, i: nat)
    requires KeysDistinct(reg) && VariableKeys(reg) && i < |reg|
    ensures Parse(ComparisonString(reg[i].0)).Ok?
    ensures GetKeyValue(reg, Parse(ComparisonString(reg[i].0)).value) == Some(reg[i])
  {
    ReparseComparisonString(reg[i].0);
    LookupFinds(reg, Parse(ComparisonString(reg[i].0)).value, reg[i].0, reg[i].1);
  }

  /** The `unwrap` and the `expect` never fire: suggestions drawn from the
      comparison strings of a registry's keys all parse and are all found,
      and each finds the key whose comparison string it is. */
  lemma {:induction false} SuggestionsFound<C>(reg: Registry<C>, strs: seq<string>)
    requires KeysDistinct(reg) && VariableKeys(reg)
    requires forall s :: s in strs ==> s in Comparisons(reg)
    ensures ParseAll(strs).Ok? && LookupAll(ParseAll(strs).value, reg).Ok?
    ensures forall k :: 0 <= k < |strs| ==>
              ComparisonString(LookupAll(ParseAll(strs).value, reg).value[k]) == strs[k]
    decreases |strs|
  {
    if |strs| > 0 {
      assert strs[0] in Comparisons(reg);
      var i :| 0 <= i < |reg| && Comparisons(reg)[i] == strs[0];
      ComparisonFindsKey(reg, i);
      assert forall s :: s in strs[1..] ==> s in strs;
      SuggestionsFound(reg, strs[1..]);
      var qs := ParseAll(strs).value;
      assert qs[1..] == ParseAll(strs[1..]).value;
      var ks := LookupAll(qs, reg).value;
      assert ks[0] == reg[i].0;
      forall k | 0 < k < |strs|
        ensures ComparisonString(ks[k]) == strs[k]
      {
        assert ks[k] == LookupAll(ParseAll(strs[1..]).value, reg).value[k - 1];
      }
    }
  }

  /** Whatever the similarity scores, a suggestion for a registry of
      variable-only keys never panics, and shows one key for every kept
      comparison string. */
  lemma SuggestNeverPanics<C>(reg: Registry<C>, m: seq<Scored>, target: string,
                              similarity: (string, string) -> real)
    requires KeysDistinct(reg) && VariableKeys(reg)
    requires IsClosest(m, target, Comparisons(reg), similarity)
    ensures SuggestionsOf(m, reg).Ok? && |SuggestionsOf(m, reg).value| == |Kept(m, 0)|
  {
    forall x | x in Kept(m, 0)
      ensures x in Comparisons(reg)
    {
      KeptMeaning(m, 0, x);
      var j :| 0 <= j < |m| && m[j].0 == x && Keep(j, m[j].1);
      assert m[j] in multiset(Scores(target, Comparisons(reg), similarity));
      var sc := Scores(target, Comparisons(reg), similarity);
      var k :| 0 <= k < |sc| && sc[k] == m[j];
    }
    SuggestionsFound(reg, Kept(m, 0));
  }

  // ---- what a failed test reports ----

  /** What `handle_res` does with the error of a test. */
  datatype Report =
    | ShowError
    | ShowRefError
    | SuggestInstructions(query: Pattern)
    | SuggestRetrievals(query: Pattern)
    | SuggestAssertions(query: Pattern)
    | Unfinished

  /** A step that names no capability gets suggestions from the registry it
      missed: an assertion's from the retrievers when its retrieval is not
      one of them, and from the assertions otherwise. A `Ref` only prints
      its error, and a `Snapshot` reaches the `todo!()`. Any other error is
      printed. */
  function ReportFor<C>(e: TestError, retrievers: Registry<C>): (r: Report)
    ensures e.err != Errors.External(Errors.NonexistentStep) <==> r.ShowError?
    ensures r.ShowRefError? <==> e.err == Errors.External(Errors.NonexistentStep) && e.step.Ref?
    ensures r.Unfinished? <==> e.err == Errors.External(Errors.NonexistentStep) && e.step.Snapshot?
    ensures r.SuggestInstructions? <==> e.err == Errors.External(Errors.NonexistentStep) && e.step.Instruction?
    ensures r.SuggestInstructions? ==> r.query == e.step.step
    ensures r.SuggestRetrievals? <==>
              e.err == Errors.External(Errors.NonexistentStep) && e.step.Assertion?
              && !ContainsKey(retrievers, e.step.retrieval)
    ensures r.SuggestRetrievals? ==> r.query == e.step.retrieval
    ensures r.SuggestAssertions? <==>
              e.err == Errors.External(Errors.NonexistentStep) && e.step.Assertion?
              && ContainsKey(retrievers, e.step.retrieval)
    ensures r.SuggestAssertions? ==> r.query == e.step.assertion
  {
    if e.err != Errors.External(Errors.NonexistentStep) then ShowError
    else
      match e.step
      case Ref(_, _, _, _) => ShowRefError
      case Instruction(step, _, _, _) => SuggestInstructions(step)
      case Assertion(retrieval, assertion, _, _, _) =>
        if !ContainsKey(retrievers, retrieval) then SuggestRetrievals(retrieval)
        else SuggestAssertions(assertion)
      case Snapshot(_, _, _, _, _) => Unfinished
  }

  /** How one test ended: passed, passed with a document that differs
      from the file (`HoldingError::SnapFailure`), or failed. */
  datatype Outcome = Pass | SnapFailure(out: string) | TestFailure

  const UnfinishedMessage := "not yet implemented"

  /** The outcome `handle_res` returns, given the run's result and the
      document with the snapshots written back (`write_yaml_snapshots`). A
      run that panicked takes the whole program down. */
  function OutcomeOf<C>(res: Result<(), TestError>, outputDoc: string, originalSource: string,
                        retrievers: Registry<C>): (r: Result<Outcome, ()>)
    ensures !r.Err?
    ensures r == Ok(Pass) <==> res.Ok? && Trim(outputDoc) == Trim(originalSource)
    ensures r.Ok? && r.value.SnapFailure? <==> res.Ok? && Trim(outputDoc) != Trim(originalSource)
    ensures r.Ok? && r.value.SnapFailure? ==> r.value.out == outputDoc
    ensures r == Ok(TestFailure) <==> res.Err? && !ReportFor(res.error, retrievers).Unfinished?
  {
    match res
    case Ok(_) => if Trim(outputDoc) == Trim(originalSource) then Ok(Pass) else Ok(SnapFailure(outputDoc))
    case Err(e) => if ReportFor(e, retrievers).Unfinished? then Panic(UnfinishedMessage) else Ok(TestFailure)
    case Panic(m) => Panic(m)
  }

  /** Whitespace around the document does not change the outcome. */
  lemma SurroundingWhitespaceIgnored<C>(doc: string, pre: string, post: string, retrievers: Registry<C>)
    requires forall k :: 0 <= k < |pre| ==> IsWhitespace(pre[k])
    requires forall k :: 0 <= k < |post| ==> IsWhitespace(post[k])
    ensures OutcomeOf(Ok(()), pre + doc + post, doc, retrievers) == Ok(Pass)
  {
    TrimIgnoresPadding(doc, pre, post);
  }

  lemma {:induction false} TrimStartPadding(pre: string, s: string)
    requires forall k :: 0 <= k < |pre| ==> IsWhitespace(pre[k])
    ensures TrimStart(pre + s) == TrimStart(s)
    decreases |pre|
  {
    if |pre| > 0 {
      assert (pre + s)[0] == pre[0] && IsWhitespace(pre[0]);
      assert (pre + s)[1..] == pre[1..] + s;
      TrimStartPadding(pre[1..], s);
    } else {
      assert pre + s == s;
    }
  }

  lemma {:induction false} TrimEndPadding(s: string, post: string)
    requires forall k :: 0 <= k < |post| ==> IsWhitespace(post[k])
    ensures TrimEnd(s + post) == TrimEnd(s)
    decreases |post|
  {
    if |post| > 0 {
      assert (s + post)[|s + post| - 1] == post[|post| - 1] && IsWhitespace(post[|post| - 1]);
      assert (s + post)[..|s + post| - 1] == s + post[..|post| - 1];
      TrimEndPadding(s, post[..|post| - 1]);
    } else {
      assert s + post == s;
    }
  }

  lemma {:induction false} TrimStartOfAllWhitespace(s: string)
    requires forall k :: 0 <= k < |s| ==> IsWhitespace(s[k])
    ensures TrimStart(s) == []
    decreases |s|
  {
    if |s| > 0 {
      TrimStartOfAllWhitespace(s[1..]);
    }
  }

  /** `TrimStart` leaves either nothing or a text that starts with a
      character that is not whitespace, and trailing padding stays at the
      end. */
  lemma {:induction false} TrimStartKeepsTail(s: string, post: string)
    requires forall k :: 0 <= k < |post| ==> IsWhitespace(post[k])
    ensures TrimEnd(TrimStart(s + post)) == TrimEnd(TrimStart(s))
    decreases |s|
  {
    if |s| == 0 {
      assert s + post == post;
      TrimStartOfAllWhitespace(post);
    } else if IsWhitespace(s[0]) {
      assert (s + post)[1..] == s[1..] + post;
      TrimStartKeepsTail(s[1..], post);
    } else {
      TrimEndPadding(s, post);
    }
  }

  lemma TrimIgnoresPadding(doc: string, pre: string, post: string)
    requires forall k :: 0 <= k < |pre| ==> IsWhitespace(pre[k])
    requires forall k :: 0 <= k < |post| ==> IsWhitespace(post[k])
    ensures Trim(pre + doc + post) == Trim(doc)
  {
    assert pre + doc + post == pre + (doc + post);
    TrimStartPadding(pre, doc + post);
    TrimStartKeepsTail(doc, post);
  }

  // ---- loading the test files ----

  /** What reading and parsing one file gave. */
  datatype FileParse = Parsed(file: TestFile) | Unparsable(error: Errors.InputError)

  /** The state of the loading loop: the names seen with the path of the
      file that had each (`names_thus_far`), the tests kept by path, and
      the errors so far. */
  datatype Loaded = Loaded(names: seq<(string, string)>, tests: map<string, TestFile>,
                           errors: seq<Errors.InputError>)

  /** `names_thus_far.iter().find(..)`: the path recorded with the first
      entry named `name`. */
  function FindName(names: seq<(string, string)>, name: string): (r: Option<string>)
    ensures r.None? <==> forall k :: 0 <= k < |names| ==> names[k].0 != name
    decreases |names|
  {
    if |names| == 0 then None
    else if names[0].0 == name then Some(names[0].1)
    else FindName(names[1..], name)
  }

  lemma {:induction false} FindNameAppend(names: seq<(string, string)>, entry: (string, string), name: string)
    ensures FindName(names + [entry], name)
            == if FindName(names, name).Some? then FindName(names, name)
               else if entry.0 == name then Some(entry.1) else None
    decreases |names|
  {
    if |names| == 0 {
      assert names + [entry] == [entry];
    } else {
      assert (names + [entry])[1..] == names[1..] + [entry];
      FindNameAppend(names[1..], entry, name);
    }
  }

  /** One file through the loop: an unparsable one adds its error; a file
      whose name was seen is rejected with both paths; any other is kept. */
  function LoadStep(st: Loaded, path: string, parsed: FileParse): Loaded
  {
    match parsed
    case Unparsable(e) => Loaded(st.names, st.tests, st.errors + [e])
    case Parsed(f) =>
      match FindName(st.names, f.name)
      case Some(other) => Loaded(st.names, st.tests, st.errors + [Errors.DuplicateName(other, path, f.name)])
      case None => Loaded(st.names + [(f.name, path)], st.tests[path := f], st.errors)
  }

  /** The files in order through the loop. */
  function Load(files: seq<(string, FileParse)>): Loaded
    decreases |files|
  {
    if |files| == 0 then Loaded([], map[], [])
    else LoadStep(Load(files[..|files| - 1]), files[|files| - 1].0, files[|files| - 1].1)
  }

  /** The path of the first parsed file named `name`. */
  function FirstPath(files: seq<(string, FileParse)>, name: string): Option<string>
    decreases |files|
  {
    if |files| == 0 then None
    else if FirstPath(files[..|files| - 1], name).Some? then FirstPath(files[..|files| - 1], name)
    else if files[|files| - 1].1.Parsed? && files[|files| - 1].1.file.name == name then Some(files[|files| - 1].0)
    else None
  }

  /** The loading of the files `main` found: the tests by path, or every
      error when there is any (after which the program exits with 1). */
  method LoadFiles(files: seq<(string, FileParse)>) returns (r: Result<map<string, TestFile>, seq<Errors.InputError>>)
    ensures |Load(files).errors| == 0 ==> r == Ok(Load(files).tests)
    ensures |Load(files).errors| > 0 ==> r == Err(Load(files).errors)
  {
    var namesThusFar: seq<(string, string)> := [];
    var tests: map<string, TestFile> := map[];
    var errors: seq<Errors.InputError> := [];
    for i := 0 to |files|
      invariant Loaded(namesThusFar, tests, errors) == Load(files[..i])
    {
      assert files[..i + 1][..i] == files[..i];
      var (path, parsed) := files[i];
      match parsed {
        case Unparsable(e) =>
          errors := errors + [e];
        case Parsed(f) =>
          var other := FindName(namesThusFar, f.name);
          if other.Some? {
            errors := errors + [Errors.DuplicateName(other.value, path, f.name)];
          } else {
            namesThusFar := namesThusFar + [(f.name, path)];
            tests := tests[path := f];
          }
      }
    }
    assert files[..|files|] == files;
    if |errors| > 0 {
      return Err(errors);
    }
    r := Ok(tests);
  }

  /** The names recorded are those of the first parsed file of each name,
      with its path. */
  lemma {:induction false} LoadNames(files: seq<(string, FileParse)>, name: string)
    ensures FindName(Load(files).names, name) == FirstPath(files, name)
    decreases |files|
  {
    if |files| > 0 {
      var init := files[..|files| - 1];
      LoadNames(init, name);
      var (path, parsed) := files[|files| - 1];
      if parsed.Parsed? && FindName(Load(init).names, parsed.file.name).None? {
        FindNameAppend(Load(init).names, (parsed.file.name, path), name);
      }
    }
  }

  /** Errors are only ever added at the end. */
  lemma {:induction false} ErrorsGrow(files: seq<(string, FileParse)>, n: nat)
    requires n <= |files|
    ensures Load(files[..n]).errors <= Load(files).errors
    decreases |files|
  {
    if n < |files| {
      var init := files[..|files| - 1];
      assert init[..n] == files[..n];
      ErrorsGrow(init, n);
    } else {
      assert files[..n] == files;
    }
  }

  /** A file named like an earlier parsed file is reported with the path
      of that first file and its own. */
  lemma DuplicateReported(files: seq<(string, FileParse)>, j: nat)
    requires j < |files| && files[j].1.Parsed?
    requires FirstPath(files[..j], files[j].1.file.name).Some?
    ensures Errors.DuplicateName(FirstPath(files[..j], files[j].1.file.name).value, files[j].0, files[j].1.file.name)
              in Load(files).errors
  {
    assert files[..j + 1][..j] == files[..j];
    LoadNames(files[..j], files[j].1.file.name);
    ErrorsGrow(files, j + 1);
    var errs := Load(files[..j + 1]).errors;
    assert errs[|errs| - 1] in errs;
  }

  /** A file that cannot be parsed is reported with its own error. */
  lemma UnparsableReported(files: seq<(string, FileParse)>, j: nat)
    requires j < |files| && files[j].1.Unparsable?
    ensures files[j].1.error in Load(files).errors
  {
    assert files[..j + 1][..j] == files[..j];
    var errs := Load(files[..j]).errors + [files[j].1.error];
    assert Load(files[..j + 1]).errors == errs;
    ErrorsGrow(files, j + 1);
    assert errs[|errs| - 1] in errs;
  }

  /** Paths the directory walk yields are distinct. */
  predicate DistinctPaths(files: seq<(string, FileParse)>)
  {
    forall i, j :: 0 <= i < j < |files| ==> files[i].0 != files[j].0
  }

  /** The first parsed file of a name is the test kept at its path. */
  lemma {:induction false} FirstIsKept(files: seq<(string, FileParse)>, j: nat)
    requires DistinctPaths(files) && j < |files| && files[j].1.Parsed?
    requires FirstPath(files[..j], files[j].1.file.name).None?
    ensures files[j].0 in Load(files).tests && Load(files).tests[files[j].0] == files[j].1.file
    decreases |files|
  {
    var init := files[..|files| - 1];
    if j == |files| - 1 {
      assert init == files[..j];
      LoadNames(init, files[j].1.file.name);
    } else {
      assert init[..j] == files[..j];
      assert DistinctPaths(init);
      FirstIsKept(init, j);
      assert files[|files| - 1].0 != files[j].0;
    }
  }

  /** The names of the kept tests are distinct. */
  lemma {:induction false} KeptNamesDistinct(files: seq<(string, FileParse)>)
    ensures forall a, b :: 0 <= a < b < |Load(files).names| ==> Load(files).names[a].0 != Load(files).names[b].0
    decreases |files|
  {
    if |files| > 0 {
      KeptNamesDistinct(files[..|files| - 1]);
    }
  }

  // ---- counting ----

  /** The results that are errors (`r.is_err()`). */
  function Failures(results: seq<Outcome>): (n: nat)
    ensures n <= |results|
    decreases |results|
  {
    if |results| == 0 then 0
    else Failures(results[..|results| - 1]) + (if results[|results| - 1].Pass? then 0 else 1)
  }

  /** The results that are passes (`r.is_ok()`). */
  function Passes(results: seq<Outcome>): nat
    decreases |results|
  {
    if |results| == 0 then 0
    else Passes(results[..|results| - 1]) + (if results[|results| - 1].Pass? then 1 else 0)
  }

  /** The snapshot failures, which the review can offer. */
  function Snapshots(results: seq<Outcome>): nat
    decreases |results|
  {
    if |results| == 0 then 0
    else Snapshots(results[..|results| - 1]) + (if results[|results| - 1].SnapFailure? then 1 else 0)
  }

  /** The snapshot failures whose new document the user accepts:
      `confirm(i)` is the answer for the `i`th result. */
  function Confirmed(results: seq<Outcome>, confirm: nat -> bool): nat
    decreases |results|
  {
    if |results| == 0 then 0
    else Confirmed(results[..|results| - 1], confirm)
         + (if results[|results| - 1].SnapFailure? && confirm(|results| - 1) then 1 else 0)
  }

  /** Whether the review runs: only in interactive mode, only when some
      snapshot changed, and only when the user agrees (`review`). */
  predicate Reviews(results: seq<Outcome>, interactive: bool, review: bool)
  {
    interactive && Snapshots(results) > 0 && review
  }

  /** The review loop: every error in turn, counting the snapshot failures
      the user confirms (`resolved_errors`). */
  method ReviewSnapshots(results: seq<Outcome>, interactive: bool, review: bool, confirm: nat -> bool)
    returns (resolved: nat)
    ensures resolved == if Reviews(results, interactive, review) then Confirmed(results, confirm) else 0
  {
    resolved := 0;
    if !(interactive && Snapshots(results) > 0) || !review {
      return;
    }
    for i := 0 to |results|
      invariant resolved == Confirmed(results[..i], confirm)
    {
      assert results[..i + 1][..i] == results[..i];
      match results[i] {
        case Pass =>
        case TestFailure =>
        case SnapFailure(_) =>
          if confirm(i) {
            resolved := resolved + 1;
          }
      }
    }
    assert results[..|results|] == results;
  }

  const SubtractOverflowMessage := "attempt to subtract with overflow"

  /** `(passing, failing)`: the errors less the resolved ones fail, and the
      passes and the resolved ones pass. `failing` is a `usize`: resolving
      more than there are errors underflows, which panics in a build with
      overflow checks (the case modelled) and wraps in a release build.
      `TallyAfterReview` proves it does not arise after a review. */
  function Tally(results: seq<Outcome>, resolved: nat): (r: Result<(nat, nat), ()>)
    ensures !r.Err?
    ensures r.Panic? <==> resolved > Failures(results)
    ensures r.Ok? ==> r.value.1 == Failures(results) - resolved && r.value.0 == Passes(results) + resolved
  {
    if resolved > Failures(results) then Panic(SubtractOverflowMessage)
    else Ok((Passes(results) + resolved, Failures(results) - resolved))
  }

  /** The exit status: 1 when any test fails. */
  function ExitCode(failing: nat): (code: nat)
    ensures code != 0 <==> failing > 0
  {
    if failing > 0 then 1 else 0
  }

  lemma {:induction false} PassesAndFailures(results: seq<Outcome>)
    ensures Passes(results) + Failures(results) == |results|
    decreases |results|
  {
    if |results| > 0 {
      PassesAndFailures(results[..|results| - 1]);
    }
  }

  lemma {:induction false} ConfirmedAreSnapshots(results: seq<Outcome>, confirm: nat -> bool)
    ensures Confirmed(results, confirm) <= Snapshots(results) <= Failures(results)
    decreases |results|
  {
    if |results| > 0 {
      ConfirmedAreSnapshots(results[..|results| - 1], confirm);
    }
  }

  /** Every result that is not a pass is a confirmed snapshot failure
      exactly when all the errors are confirmed. */
  lemma {:induction false} AllConfirmed(results: seq<Outcome>, confirm: nat -> bool)
    ensures Confirmed(results, confirm) == Failures(results) <==>
              forall i :: 0 <= i < |results| && !results[i].Pass? ==> results[i].SnapFailure? && confirm(i)
    decreases |results|
  {
    if |results| > 0 {
      var init := results[..|results| - 1];
      AllConfirmed(init, confirm);
      ConfirmedAreSnapshots(init, confirm);
      assert forall i :: 0 <= i < |init| ==> init[i] == results[i];
    }
  }

  /** No result is an error exactly when all of them pass. */
  lemma {:induction false} AllPass(results: seq<Outcome>)
    ensures Failures(results) == 0 <==> forall i :: 0 <= i < |results| ==> results[i].Pass?
    decreases |results|
  {
    if |results| > 0 {
      var init := results[..|results| - 1];
      AllPass(init);
      assert forall i :: 0 <= i < |init| ==> init[i] == results[i];
    }
  }

  /** After the review the counts never underflow, every test is counted
      once as passing or failing, and the program fails exactly when some
      test failed or changed its snapshot without the user accepting it. */
  lemma TallyAfterReview(results: seq<Outcome>, interactive: bool, review: bool, confirm: nat -> bool)
    ensures var resolved := if Reviews(results, interactive, review) then Confirmed(results, confirm) else 0;
            Tally(results, resolved).Ok?
            && Tally(results, resolved).value.0 + Tally(results, resolved).value.1 == |results|
            && (ExitCode(Tally(results, resolved).value.1) == 0 <==>
                  forall i :: 0 <= i < |results| && !results[i].Pass? ==>
                    Reviews(results, interactive, review) && results[i].SnapFailure? && confirm(i))
  {
    PassesAndFailures(results);
    if Reviews(results, interactive, review) {
      ConfirmedAreSnapshots(results, confirm);
      AllConfirmed(results, confirm);
    } else {
      AllPass(results);
    }
  }
}
