/** `parse_instruction` (humane_rework/src/parser.rs): the character state
    machine that splits one line of step text into literal runs, quoted
    values and `{variable}` placeholders.

    The reference definition, `Parse`, reads the text declaratively: a
    literal runs up to the first opening character, and a span runs from its
    opener to the first matching closer. `ParseInstruction` is the loop of
    the source, proved equal to it. */
module Parser {
  import opened Wrappers
  import opened JsonValues
  import opened Segments

  /** Why a line of step text cannot be parsed. */
  datatype ParseError = UnclosedQuote(quote: char) | UnclosedVariable

  /** The text of the error that `bail!` raises. */
  function ErrorMessage(e: ParseError): (m: string)
    ensures e.UnclosedQuote? ==> |m| > 0 && m[|m| - 1] == e.quote
  {
    match e
    case UnclosedQuote(q) => "Quoted value was not closed, expected " + [q]
    case UnclosedVariable => "Variable was not closed, expected }"
  }

  type ParseResult = Result<Pattern, ParseError>

  /** A character that opens a span outside of any span. */
  predicate IsOpener(c: char)
  {
    c == '"' || c == '\'' || c == '{'
  }

  predicate NoOpener(t: string)
  {
    forall k :: 0 <= k < |t| ==> !IsOpener(t[k])
  }

  /** The character that closes the span `open` starts. */
  function Closer(open: char): char
  {
    if open == '{' then '}' else open
  }

  /** The segment a closed span produces: a variable for braces, a JSON
      string value for either quote. */
  function SpanSegment(open: char, inner: string): Segment
  {
    if open == '{' then Variable(inner) else Value(Str(inner))
  }

  /** The index of the first opener in `t`, or `|t|` when there is none. */
  function FirstOpener(t: string): (r: nat)
    ensures r <= |t|
    decreases |t|
  {
    if |t| == 0 || IsOpener(t[0]) then 0 else 1 + FirstOpener(t[1..])
  }

  /** `FirstOpener(t)` is `k` exactly when no opener comes before `k` and an
      opener, or the end of `t`, is at `k`. */
  lemma {:induction false} FirstOpenerIs(t: string, k: nat)
    requires k <= |t|
    ensures FirstOpener(t) == k <==>
              (forall m :: 0 <= m < k ==> !IsOpener(t[m])) && (k < |t| ==> IsOpener(t[k]))
    decreases |t|
  {
    if |t| > 0 && !IsOpener(t[0]) && k > 0 {
      FirstOpenerIs(t[1..], k - 1);
      assert forall m :: 1 <= m < k ==> t[1..][m - 1] == t[m];
    }
  }

  /** The index of the first `c` in `t`, or `|t|` when there is none. */
  function FirstOf(t: string, c: char): (r: nat)
    ensures r <= |t|
    decreases |t|
  {
    if |t| == 0 || t[0] == c then 0 else 1 + FirstOf(t[1..], c)
  }

  /** `FirstOf(t, c)` is `k` exactly when no `c` comes before `k` and a
      `c`, or the end of `t`, is at `k`. */
  lemma {:induction false} FirstOfIs(t: string, c: char, k: nat)
    requires k <= |t|
    ensures FirstOf(t, c) == k <==>
              (forall m :: 0 <= m < k ==> t[m] != c) && (k < |t| ==> t[k] == c)
    decreases |t|
  {
    if |t| > 0 && t[0] != c && k > 0 {
      FirstOfIs(t[1..], c, k - 1);
      assert forall m :: 1 <= m < k ==> t[1..][m - 1] == t[m];
    }
  }

  lemma FirstOpenerSpec(t: string)
    ensures NoOpener(t[..FirstOpener(t)])
  {
    var k := FirstOpener(t);
    FirstOpenerIs(t, k);
    assert forall m :: 0 <= m < k ==> t[..k][m] == t[m];
  }

  lemma FirstOfSpec(t: string, c: char)
    ensures c !in t[..FirstOf(t, c)]
  {
    var k := FirstOf(t, c);
    FirstOfIs(t, c, k);
    assert forall m :: 0 <= m < k ==> t[..k][m] == t[m];
  }

  /** Puts `segs` in front of a successful parse; an error stays as it is. */
  function PrependAll(segs: Pattern, r: ParseResult): ParseResult
  {
    match r
    case Ok(p) => Ok(segs + p)
    case Err(e) => Err(e)
    case Panic(m) => Panic(m)
  }

  /** Parses `t` from outside any span: the literal run up to the first
      opener (emitted even when empty), then the span it opens. With no
      opener left, a non-empty rest becomes the trailing literal. */
  function ParseLiteral(t: string): ParseResult
    decreases |t|, 1
  {
    var k := FirstOpener(t);
    if k == |t| then
      (if |t| == 0 then Ok([]) else Ok([Literal(t)]))
    else
      PrependAll([Literal(t[..k])], ParseSpan(t[k], t[k + 1..]))
  }

  /** Parses `t`, the text after the opener `open`: the span ends at the
      first closer of that opener, and parsing resumes outside after it. */
  function ParseSpan(open: char, t: string): ParseResult
    decreases |t|, 0
  {
    var j := FirstOf(t, Closer(open));
    if j == |t| then
      Err(if open == '{' then UnclosedVariable else UnclosedQuote(open))
    else
      PrependAll([SpanSegment(open, t[..j])], ParseLiteral(t[j + 1..]))
  }

  function Parse(s: string): ParseResult
  {
    ParseLiteral(s)
  }

  // ---- the state machine of the source ----

  /** `InstMode`: outside any span since `start`, inside a quote opened at
      `start`, or inside braces opened at `start`. */
  datatype Mode = Outside(start: nat) | InQuote(start: nat, quote: char) | InCurly(start: nat)

  /** What the mode says about the characters read so far: no opener in
      the literal run, or no closer since the span's opener. */
  predicate ModeInv(s: string, i: nat, mode: Mode)
  {
    i <= |s| &&
    match mode
    case Outside(start) =>
      start <= i && NoOpener(s[start..i])
    case InQuote(start, q) =>
      start < i && s[start] == q && (q == '"' || q == '\'') && q !in s[start + 1..i]
    case InCurly(start) =>
      start < i && s[start] == '{' && '}' !in s[start + 1..i]
  }

  /** What is left to parse from the position the mode started at: the
      text after the literal run so far, or after the opener of the span. */
  function Resume(s: string, mode: Mode): ParseResult
    requires mode.start <= |s|
    requires !mode.Outside? ==> mode.start < |s|
  {
    if mode.Outside? then ParseLiteral(s[mode.start..])
    else ParseSpan(s[mode.start], s[mode.start + 1..])
  }

  /** `parse_instruction`, one character at a time. The segments emitted
      so far, followed by the reference parse of what the mode has not
      consumed, are always the reference parse of the whole text. */
  method ParseInstruction(s: string) returns (r: ParseResult)
    ensures r == Parse(s)
  {
    var segments: Pattern := [];
    var mode := Outside(0);
    ResumeFromStart(s);
    for i := 0 to |s|
      invariant ModeInv(s, i, mode)
      invariant PrependAll(segments, Resume(s, mode)) == Parse(s)
    {
      mode, segments := ReadChar(s, i, mode, segments);
    }
    match mode {
      case Outside(start) =>
        Ends(s, start, segments);
        if start < |s| {
          segments := segments + [Literal(s[start..])];
        }
        r := Ok(segments);
      case InQuote(start, q) =>
        Unclosed(s, mode, segments);
        r := Err(UnclosedQuote(q));
      case InCurly(start) =>
        Unclosed(s, mode, segments);
        r := Err(UnclosedVariable);
    }
  }

  /** The body of the loop: what the character at `i` does to the mode
      and the segments. */
  method ReadChar(s: string, i: nat, mode: Mode, segments: Pattern)
    returns (mode': Mode, segments': Pattern)
    requires ModeInv(s, i, mode) && i < |s|
    ensures ModeInv(s, i + 1, mode')
    ensures PrependAll(segments', Resume(s, mode')) == PrependAll(segments, Resume(s, mode))
  {
    if mode.Outside? {
      mode', segments' := ReadOutside(s, i, mode.start, segments);
    } else {
      mode', segments' := ReadInSpan(s, i, mode, segments);
    }
  }

  /** Outside any span: an opener emits the literal run before it and
      starts a span; any other character extends the run. */
  method ReadOutside(s: string, i: nat, start: nat, segments: Pattern)
    returns (mode': Mode, segments': Pattern)
    requires ModeInv(s, i, Outside(start)) && i < |s|
    ensures ModeInv(s, i + 1, mode')
    ensures PrependAll(segments', Resume(s, mode')) == PrependAll(segments, Resume(s, Outside(start)))
  {
    var c := s[i];
    if c == '"' || c == '\'' || c == '{' {
      Opens(s, start, i, segments);
      segments' := segments + [Literal(s[start..i])];
      mode' := if c == '{' then InCurly(i) else InQuote(i, c);
    } else {
      Continues(s, Outside(start), i);
      mode', segments' := Outside(start), segments;
    }
  }

  /** Inside a quoted value or a variable: its closer emits the span and
      resumes outside; any other character belongs to the span. */
  method ReadInSpan(s: string, i: nat, mode: Mode, segments: Pattern)
    returns (mode': Mode, segments': Pattern)
    requires !mode.Outside? && ModeInv(s, i, mode) && i < |s|
    ensures ModeInv(s, i + 1, mode')
    ensures PrependAll(segments', Resume(s, mode')) == PrependAll(segments, Resume(s, mode))
  {
    var c := s[i];
    mode', segments' := mode, segments;
    match mode {
      case InQuote(start, q) =>
        if c == q {
          Closes(s, mode, i, segments);
          segments' := segments + [Value(Str(s[start + 1..i]))];
          mode' := Outside(i + 1);
        } else {
          Continues(s, mode, i);
        }
      case InCurly(start) =>
        if c == '}' {
          Closes(s, mode, i, segments);
          segments' := segments + [Variable(s[start + 1..i])];
          mode' := Outside(i + 1);
        } else {
          Continues(s, mode, i);
        }
    }
  }

  lemma ResumeFromStart(s: string)
    ensures ModeInv(s, 0, Outside(0))
    ensures PrependAll([], Resume(s, Outside(0))) == Parse(s)
  {
    assert s[0..] == s;
    if Parse(s).Ok? {
      assert [] + Parse(s).value == Parse(s).value;
    }
  }

  /** An ordinary character keeps the mode. */
  lemma Continues(s: string, mode: Mode, i: nat)
    requires ModeInv(s, i, mode) && i < |s|
    requires mode.Outside? ==> !IsOpener(s[i])
    requires !mode.Outside? ==> s[i] != Closer(s[mode.start])
    ensures ModeInv(s, i + 1, mode)
  {
    if mode.Outside? {
      assert s[mode.start..i + 1] == s[mode.start..i] + [s[i]];
    } else {
      assert s[mode.start + 1..i + 1] == s[mode.start + 1..i] + [s[i]];
    }
  }

  /** An opener outside any span emits the literal run before it and
      starts a span. */
  lemma Opens(s: string, start: nat, i: nat, segs: Pattern)
    requires ModeInv(s, i, Outside(start)) && i < |s| && IsOpener(s[i])
    ensures ModeInv(s, i + 1, if s[i] == '{' then InCurly(i) else InQuote(i, s[i]))
    ensures PrependAll(segs + [Literal(s[start..i])],
                       Resume(s, if s[i] == '{' then InCurly(i) else InQuote(i, s[i])))
            == PrependAll(segs, Resume(s, Outside(start)))
  {
    assert s[i + 1..i + 1] == [];
    var t := s[start..];
    assert t[..i - start] == s[start..i];
    FirstOpenerAt(t, i - start);
    assert t[i - start + 1..] == s[i + 1..];
    PrependAssoc(segs, [Literal(s[start..i])], ParseSpan(s[i], s[i + 1..]));
  }

  /** The closer of the current span emits it and resumes outside. */
  lemma Closes(s: string, mode: Mode, i: nat, segs: Pattern)
    requires !mode.Outside? && ModeInv(s, i, mode) && i < |s| && s[i] == Closer(s[mode.start])
    ensures ModeInv(s, i + 1, Outside(i + 1))
    ensures SpanSegment(s[mode.start], s[mode.start + 1..i])
            == if mode.InCurly? then Variable(s[mode.start + 1..i]) else Value(Str(s[mode.start + 1..i]))
    ensures PrependAll(segs + [SpanSegment(s[mode.start], s[mode.start + 1..i])], Resume(s, Outside(i + 1)))
            == PrependAll(segs, Resume(s, mode))
  {
    assert s[i + 1..i + 1] == [];
    SpanClosesAt(s, mode.start, i);
    ResumeAfterClose(s, mode, i);
    Chain(segs, SpanSegment(s[mode.start], s[mode.start + 1..i]), Resume(s, mode), Resume(s, Outside(i + 1)));
  }

  lemma ResumeAfterClose(s: string, mode: Mode, i: nat)
    requires !mode.Outside? && ModeInv(s, i, mode) && i < |s|
    requires ParseSpan(s[mode.start], s[mode.start + 1..])
             == PrependAll([SpanSegment(s[mode.start], s[mode.start + 1..i])], ParseLiteral(s[i + 1..]))
    ensures Resume(s, mode)
            == PrependAll([SpanSegment(s[mode.start], s[mode.start + 1..i])], Resume(s, Outside(i + 1)))
  {
  }

  lemma Chain(segs: Pattern, seg: Segment, before: ParseResult, after: ParseResult)
    requires before == PrependAll([seg], after)
    ensures PrependAll(segs + [seg], after) == PrependAll(segs, before)
  {
    PrependAssoc(segs, [seg], after);
  }

  /** A span opened at `start` whose first closer is at `i`. */
  lemma SpanClosesAt(s: string, start: nat, i: nat)
    requires start < i < |s| && s[i] == Closer(s[start]) && Closer(s[start]) !in s[start + 1..i]
    ensures ParseSpan(s[start], s[start + 1..])
            == PrependAll([SpanSegment(s[start], s[start + 1..i])], ParseLiteral(s[i + 1..]))
  {
    var t := s[start + 1..];
    var j := i - start - 1;
    assert t[..j] == s[start + 1..i];
    FirstOfAt(t, Closer(s[start]), j);
    SpanAt(s[start], t, j);
    assert t[j + 1..] == s[i + 1..];
  }

  /** A span whose first closer is at `j`. */
  lemma SpanAt(open: char, t: string, j: nat)
    requires j < |t| && FirstOf(t, Closer(open)) == j
    ensures ParseSpan(open, t) == PrependAll([SpanSegment(open, t[..j])], ParseLiteral(t[j + 1..]))
  {
  }

  /** At the end of the text outside any span, what remains is the
      trailing literal, if any. */
  lemma Ends(s: string, start: nat, segs: Pattern)
    requires ModeInv(s, |s|, Outside(start))
    ensures PrependAll(segs, Resume(s, Outside(start)))
            == Ok(if start < |s| then segs + [Literal(s[start..])] else segs)
  {
    var t := s[start..];
    assert t[..|t|] == s[start..|s|];
    FirstOpenerAt(t, |t|);
    assert segs + [] == segs;
  }

  /** At the end of the text inside a span, the span is unclosed. */
  lemma Unclosed(s: string, mode: Mode, segs: Pattern)
    requires !mode.Outside? && ModeInv(s, |s|, mode)
    ensures PrependAll(segs, Resume(s, mode))
            == Err(if mode.InCurly? then UnclosedVariable else UnclosedQuote(mode.quote))
  {
    var t := s[mode.start + 1..];
    assert t[..|t|] == s[mode.start + 1..|s|];
    FirstOfAt(t, Closer(s[mode.start]), |t|);
  }

  /** `FirstOpener(t)` is `k` when `t[..k]` holds no opener and an opener,
      or the end of `t`, is at `k`. */
  lemma FirstOpenerAt(t: string, k: nat)
    requires k <= |t| && NoOpener(t[..k]) && (k < |t| ==> IsOpener(t[k]))
    ensures FirstOpener(t) == k
  {
    assert forall m :: 0 <= m < k ==> t[..k][m] == t[m];
    FirstOpenerIs(t, k);
  }

  /** `FirstOf(t, c)` is `k` when `t[..k]` holds no `c` and a `c`, or the
      end of `t`, is at `k`. */
  lemma FirstOfAt(t: string, c: char, k: nat)
    requires k <= |t| && c !in t[..k] && (k < |t| ==> t[k] == c)
    ensures FirstOf(t, c) == k
  {
    assert forall m :: 0 <= m < k ==> t[..k][m] == t[m];
    FirstOfIs(t, c, k);
  }

  // ---- properties of the parse ----

  /** The parse never panics: it either yields segments or a parse error. */
  lemma {:induction false} ParseNeverPanics(t: string)
    ensures !ParseLiteral(t).Panic?
    decreases |t|, 1
  {
    var k := FirstOpener(t);
    if k < |t| {
      SpanNeverPanics(t[k], t[k + 1..]);
    }
  }

  lemma {:induction false} SpanNeverPanics(open: char, t: string)
    ensures !ParseSpan(open, t).Panic?
    decreases |t|, 0
  {
    var j := FirstOf(t, Closer(open));
    if j < |t| {
      ParseNeverPanics(t[j + 1..]);
    }
  }

  /** Text without `"`, `'` or `{` is one literal; empty text is no
      segments at all. */
  lemma PlainText(s: string)
    requires NoOpener(s)
    ensures |s| == 0 ==> Parse(s) == Ok([])
    ensures |s| > 0 ==> Parse(s) == Ok([Literal(s)])
  {
    FirstOpenerIs(s, |s|);
  }

  lemma PrependAssoc(a: Pattern, b: Pattern, r: ParseResult)
    ensures PrependAll(a, PrependAll(b, r)) == PrependAll(a + b, r)
  {
    if r.Ok? {
      assert a + (b + r.value) == (a + b) + r.value;
    }
  }

  /** Outside any span, a literal run ends at the first opener. */
  lemma LiteralStep(lit: string, open: char, rest: string)
    requires NoOpener(lit) && IsOpener(open)
    ensures ParseLiteral(lit + [open] + rest) == PrependAll([Literal(lit)], ParseSpan(open, rest))
  {
    var s := lit + [open] + rest;
    assert s[|lit|] == open;
    assert forall k :: 0 <= k < |lit| ==> s[k] == lit[k];
    FirstOpenerIs(s, |lit|);
    assert s[..|lit|] == lit;
    assert s[|lit| + 1..] == rest;
  }

  /** A span ends at the first closer of its opener; braces and the other
      quote are ordinary characters inside it. */
  lemma SpanStep(open: char, inner: string, rest: string)
    requires Closer(open) !in inner
    ensures ParseSpan(open, inner + [Closer(open)] + rest)
            == PrependAll([SpanSegment(open, inner)], ParseLiteral(rest))
  {
    var t := inner + [Closer(open)] + rest;
    assert t[|inner|] == Closer(open);
    assert forall k :: 0 <= k < |inner| ==> t[k] == inner[k];
    FirstOfIs(t, Closer(open), |inner|);
    assert t[..|inner|] == inner;
    assert t[|inner| + 1..] == rest;
  }

  /** One step of the parse, read off the text: the literal `lit`, a span
      opened by `open` holding `inner` (anything but its closer), then the
      rest. */
  lemma Unfold(lit: string, open: char, inner: string, rest: string)
    requires NoOpener(lit) && IsOpener(open) && Closer(open) !in inner
    ensures Parse(lit + [open] + inner + [Closer(open)] + rest)
            == PrependAll([Literal(lit), SpanSegment(open, inner)], Parse(rest))
  {
    var t := inner + [Closer(open)] + rest;
    assert lit + [open] + inner + [Closer(open)] + rest == lit + [open] + t;
    LiteralStep(lit, open, t);
    SpanStep(open, inner, rest);
    PrependAssoc([Literal(lit)], [SpanSegment(open, inner)], ParseLiteral(rest));
    assert [Literal(lit)] + [SpanSegment(open, inner)] == [Literal(lit), SpanSegment(open, inner)];
  }

  /** A span that is never closed fails. */
  lemma SpanNeverCloses(open: char, inner: string)
    requires Closer(open) !in inner
    ensures ParseSpan(open, inner)
            == Err(if open == '{' then UnclosedVariable else UnclosedQuote(open))
  {
    FirstOfIs(inner, Closer(open), |inner|);
  }

  /** A quote that is never closed fails, naming that quote. */
  lemma UnclosedQuoteFails(lit: string, q: char, inner: string)
    requires NoOpener(lit) && (q == '"' || q == '\'') && q !in inner
    ensures Parse(lit + [q] + inner) == Err(UnclosedQuote(q))
    ensures ErrorMessage(UnclosedQuote(q)) == "Quoted value was not closed, expected " + [q]
  {
    LiteralStep(lit, q, inner);
    SpanNeverCloses(q, inner);
  }

  /** A brace that is never closed fails with "Variable was not closed". */
  lemma UnclosedBraceFails(lit: string, inner: string)
    requires NoOpener(lit) && '}' !in inner
    ensures Parse(lit + "{" + inner) == Err(UnclosedVariable)
    ensures ErrorMessage(UnclosedVariable) == "Variable was not closed, expected }"
  {
    LiteralStep(lit, '{', inner);
    SpanNeverCloses('{', inner);
  }

  /** Empty spans give an empty value or an empty variable name. */
  lemma EmptySpans(lit: string, rest: string)
    requires NoOpener(lit)
    ensures Parse(lit + "\"\"" + rest) == PrependAll([Literal(lit), Value(Str(""))], Parse(rest))
    ensures Parse(lit + "''" + rest) == PrependAll([Literal(lit), Value(Str(""))], Parse(rest))
    ensures Parse(lit + "{}" + rest) == PrependAll([Literal(lit), Variable("")], Parse(rest))
  {
    Unfold(lit, '"', "", rest);
    assert lit + ['"'] + "" + ['"'] + rest == lit + "\"\"" + rest;
    Unfold(lit, '\'', "", rest);
    assert lit + ['\''] + "" + ['\''] + rest == lit + "''" + rest;
    Unfold(lit, '{', "", rest);
    assert lit + ['{'] + "" + ['}'] + rest == lit + "{}" + rest;
  }

  /** The shape of every successful parse: literals and spans alternate,
      starting with a (possibly empty) literal; no literal holds an opener;
      values are JSON strings; no variable name holds `}`; and a literal in
      last place, the trailing one, is never empty. */
  predicate WellShaped(p: Pattern)
  {
    (forall i :: 0 <= i < |p| ==> (p[i].Literal? <==> i % 2 == 0))
    && (forall i :: 0 <= i < |p| && p[i].Literal? ==> NoOpener(p[i].text))
    && (forall i :: 0 <= i < |p| && p[i].Value? ==> p[i].value.Str?)
    && (forall i :: 0 <= i < |p| && p[i].Variable? ==> '}' !in p[i].name)
    && (|p| % 2 == 1 ==> |p[|p| - 1].text| > 0)
  }

  /** Putting a literal and a span in front of a well-shaped pattern keeps
      it well shaped. */
  lemma ConsPair(lit: string, span: Segment, p: Pattern)
    requires NoOpener(lit) && !span.Literal?
    requires span.Value? ==> span.value.Str?
    requires span.Variable? ==> '}' !in span.name
    requires WellShaped(p)
    ensures WellShaped([Literal(lit), span] + p)
  {
    var q := [Literal(lit), span] + p;
    assert forall i :: 2 <= i < |q| ==> q[i] == p[i - 2];
  }

  lemma {:induction false} LiteralWellShaped(t: string)
    ensures ParseLiteral(t).Ok? ==> WellShaped(ParseLiteral(t).value)
    decreases |t|, 1
  {
    var k := FirstOpener(t);
    FirstOpenerSpec(t);
    if k == |t| {
      assert t[..k] == t;
    } else {
      SpanWellShaped(t[..k], t[k], t[k + 1..]);
    }
  }

  lemma {:induction false} SpanWellShaped(lit: string, open: char, t: string)
    requires NoOpener(lit)
    ensures ParseSpan(open, t).Ok? ==> WellShaped([Literal(lit)] + ParseSpan(open, t).value)
    decreases |t|, 0
  {
    var j := FirstOf(t, Closer(open));
    if j < |t| {
      var inner := t[..j];
      FirstOfSpec(t, Closer(open));
      var seg := SpanSegment(open, inner);
      var rest := t[j + 1..];
      assert ParseSpan(open, t) == PrependAll([seg], ParseLiteral(rest));
      LiteralWellShaped(rest);
      var r := ParseLiteral(rest);
      if r.Ok? {
        ConsPair(lit, seg, r.value);
        assert [Literal(lit)] + ([seg] + r.value) == [Literal(lit), seg] + r.value;
      }
    }
  }

  /** Every successful parse is well shaped. */
  lemma ParseWellShaped(s: string)
    ensures Parse(s).Ok? ==> WellShaped(Parse(s).value)
  {
    LiteralWellShaped(s);
  }

  // ---- round trips ----

  lemma AsStringCons(x: Segment, p: Pattern, display: Json -> string)
    ensures AsString([x] + p, display) == AsString([x], display) + AsString(p, display)
  {
    assert ([x] + p)[1..] == p;
  }

  lemma ComparisonStringCons(x: Segment, p: Pattern)
    ensures ComparisonString([x] + p) == ComparisonString([x]) + ComparisonString(p)
  {
    assert ([x] + p)[1..] == p;
  }

  lemma AsStringVariable(n: string, display: Json -> string)
    ensures AsString([Variable(n)], display) == "{" + n + "}"
  {
    assert AsString([Variable(n)], display) == "{" + n + "}" + AsString([], display);
  }

  lemma NoValuesCons(x: Segment, p: Pattern)
    requires NoValues([x] + p)
    ensures !x.Value? && NoValues(p)
  {
    assert ([x] + p)[0] == x;
    assert forall i :: 0 <= i < |p| ==> p[i] == ([x] + p)[i + 1];
  }

  lemma {:induction false} LiteralRoundTrip(t: string, display: Json -> string)
    ensures ParseLiteral(t).Ok? && NoValues(ParseLiteral(t).value)
            ==> AsString(ParseLiteral(t).value, display) == t
    decreases |t|, 1
  {
    var k := FirstOpener(t);
    if k == |t| {
      if |t| > 0 {
        AsStringLiteral(t, display);
      }
    } else {
      LiteralAt(t, k);
      SpanRoundTrip(t[k], t[k + 1..], display);
      AsStringLiteral(t[..k], display);
      PrependRoundTrip(Literal(t[..k]), ParseSpan(t[k], t[k + 1..]), t[..k], [t[k]] + t[k + 1..], display);
      SplitAt(t, k);
    }
  }

  lemma {:induction false} SpanRoundTrip(open: char, t: string, display: Json -> string)
    ensures ParseSpan(open, t).Ok? && NoValues(ParseSpan(open, t).value)
            ==> AsString(ParseSpan(open, t).value, display) == [open] + t
    decreases |t|, 0
  {
    var j := FirstOf(t, Closer(open));
    if j < |t| {
      LiteralRoundTrip(t[j + 1..], display);
      SpanRoundTripStep(open, t, j, display);
    }
  }

  lemma SpanRoundTripStep(open: char, t: string, j: nat, display: Json -> string)
    requires j < |t| && FirstOf(t, Closer(open)) == j
    requires ParseLiteral(t[j + 1..]).Ok? && NoValues(ParseLiteral(t[j + 1..]).value)
             ==> AsString(ParseLiteral(t[j + 1..]).value, display) == t[j + 1..]
    ensures ParseSpan(open, t).Ok? && NoValues(ParseSpan(open, t).value)
            ==> AsString(ParseSpan(open, t).value, display) == [open] + t
  {
    SpanAt(open, t, j);
    FirstOfIs(t, Closer(open), j);
    SpanHead(open, t[..j], t[j], display);
    PrependRoundTrip(SpanSegment(open, t[..j]), ParseLiteral(t[j + 1..]),
                     [open] + t[..j] + [t[j]], t[j + 1..], display);
    SplitAround(open, t, j);
  }

  lemma SplitAt(t: string, k: nat)
    requires k < |t|
    ensures t[..k] + ([t[k]] + t[k + 1..]) == t
  {
  }

  lemma SplitAround(open: char, t: string, j: nat)
    requires j < |t|
    ensures [open] + t[..j] + [t[j]] + t[j + 1..] == [open] + t
  {
    assert t[..j] + [t[j]] + t[j + 1..] == t;
  }

  /** A closed span that is not a value renders back to its text. */
  lemma SpanHead(open: char, inner: string, close: char, display: Json -> string)
    requires close == Closer(open)
    ensures !SpanSegment(open, inner).Value?
            ==> AsString([SpanSegment(open, inner)], display) == [open] + inner + [close]
  {
    if open == '{' {
      AsStringVariable(inner, display);
    }
  }

  /** Outside any span, an opener at `k` ends the literal run. */
  lemma LiteralAt(t: string, k: nat)
    requires k < |t| && FirstOpener(t) == k
    ensures ParseLiteral(t) == PrependAll([Literal(t[..k])], ParseSpan(t[k], t[k + 1..]))
  {
  }

  lemma AsStringLiteral(l: string, display: Json -> string)
    ensures AsString([Literal(l)], display) == l
  {
    assert AsString([Literal(l)], display) == l + AsString([], display);
  }

  /** Rendering a segment in front of a parse that renders back to `tail`
      renders back to the segment's text followed by `tail`. */
  lemma PrependRoundTrip(seg: Segment, r: ParseResult, head: string, tail: string,
                         display: Json -> string)
    requires !seg.Value? ==> AsString([seg], display) == head
    requires r.Ok? && NoValues(r.value) ==> AsString(r.value, display) == tail
    ensures PrependAll([seg], r).Ok? && NoValues(PrependAll([seg], r).value)
            ==> AsString(PrependAll([seg], r).value, display) == head + tail
  {
    if r.Ok? && NoValues([seg] + r.value) {
      NoValuesCons(seg, r.value);
      AsStringCons(seg, r.value, display);
    }
  }

  /** Without quoted values, rendering a parse as `get_as_string` does
      (literals verbatim, variables as `{name}`) gives back the text. */
  lemma RoundTrip(s: string, display: Json -> string)
    requires Parse(s).Ok? && NoValues(Parse(s).value)
    ensures AsString(Parse(s).value, display) == s
  {
    LiteralRoundTrip(s, display);
  }

  /** Every span of `p` turned into the variable `{___}`: what re-parsing a
      comparison string yields. */
  function Blanked(p: Pattern): (r: Pattern)
    ensures |r| == |p|
    ensures forall i :: 0 <= i < |p| ==> r[i] == (if p[i].Literal? then p[i] else Variable("___"))
    decreases |p|
  {
    if |p| == 0 then [] else [if p[0].Literal? then p[0] else Variable("___")] + Blanked(p[1..])
  }

  /** A well-shaped pattern of two or more segments starts with a literal
      and a span, and what follows them is well shaped again. */
  lemma WellShapedPair(p: Pattern)
    requires WellShaped(p) && |p| >= 2
    ensures p[0].Literal? && NoOpener(p[0].text) && !p[1].Literal?
    ensures WellShaped(p[2..])
  {
    var rest := p[2..];
    assert forall i :: 0 <= i < |rest| ==> rest[i] == p[i + 2];
  }

  lemma PairStrings(p: Pattern)
    requires |p| >= 2 && p[0].Literal? && !p[1].Literal?
    ensures ComparisonString(p) == p[0].text + ['{'] + "___" + ['}'] + ComparisonString(p[2..])
  {
    assert p == [p[0]] + ([p[1]] + p[2..]);
    ComparisonStringCons(p[0], [p[1]] + p[2..]);
    ComparisonStringCons(p[1], p[2..]);
    assert ComparisonString([p[0]]) == p[0].text + ComparisonString([]);
    assert ComparisonString([p[1]]) == Placeholder + ComparisonString([]);
    assert Placeholder == ['{'] + "___" + ['}'];
  }

  lemma PairBlanked(p: Pattern)
    requires |p| >= 2 && p[0].Literal? && !p[1].Literal?
    ensures Blanked(p) == [p[0], Variable("___")] + Blanked(p[2..])
  {
    var r := [p[0], Variable("___")] + Blanked(p[2..]);
    assert forall i :: 2 <= i < |p| ==> r[i] == Blanked(p[2..])[i - 2];
  }

  lemma {:induction false} ReparseBlanked(p: Pattern)
    requires WellShaped(p)
    ensures Parse(ComparisonString(p)) == Ok(Blanked(p))
    decreases |p|
  {
    if |p| == 1 {
      assert p[0].Literal? && NoOpener(p[0].text) && |p[0].text| > 0;
      assert ComparisonString(p) == p[0].text + ComparisonString([]) == p[0].text;
      PlainText(p[0].text);
      assert p[0] == Literal(p[0].text);
      assert Blanked(p) == [p[0]] == p;
    } else if |p| >= 2 {
      WellShapedPair(p);
      var rest := p[2..];
      ReparseBlanked(rest);
      PairStrings(p);
      PairBlanked(p);
      Unfold(p[0].text, '{', "___", ComparisonString(rest));
    }
  }

  /** Re-parsing the comparison string of a well-shaped pattern without
      values gives a pattern equal to it in both directions: the lookup by
      a suggestion's comparison string finds the definition it came from. */
  lemma ReparseComparisonString(p: Pattern)
    requires WellShaped(p) && NoValues(p)
    ensures Parse(ComparisonString(p)).Ok?
    ensures Eq(Parse(ComparisonString(p)).value, p)
    ensures Eq(p, Parse(ComparisonString(p)).value)
  {
    ReparseBlanked(p);
    var q := Blanked(p);
    EqCharacterization(q, p);
    EqCharacterization(p, q);
  }

  // ---- the examples of the source's tests ----

  /** The text of a closed span: its opener, what it holds, its closer. */
  function SpanText(open: char, inner: string): string
  {
    [open] + inner + [Closer(open)]
  }

  lemma UnfoldSpan(lit: string, open: char, inner: string, rest: string)
    requires NoOpener(lit) && IsOpener(open) && Closer(open) !in inner
    ensures Parse(lit + SpanText(open, inner) + rest)
            == PrependAll([Literal(lit), SpanSegment(open, inner)], Parse(rest))
  {
    Unfold(lit, open, inner, rest);
    SpanTextConcat(lit, open, inner, rest);
  }

  lemma SpanTextConcat(lit: string, open: char, inner: string, rest: string)
    ensures lit + SpanText(open, inner) + rest == lit + [open] + inner + [Closer(open)] + rest
  {
  }

  lemma StrAssoc(a: string, b: string, c: string, d: string)
    ensures a + b + (c + d) == a + b + c + d
  {
  }

  lemma StrEmpty(a: string)
    ensures a + "" == a
  {
  }

  /** Text made of two literal runs, each followed by one closed span. */
  lemma TwoSpans(l1: string, o1: char, v1: string, l2: string, o2: char, v2: string)
    requires NoOpener(l1) && IsOpener(o1) && Closer(o1) !in v1
    requires NoOpener(l2) && IsOpener(o2) && Closer(o2) !in v2
    ensures Parse(l1 + SpanText(o1, v1) + l2 + SpanText(o2, v2))
            == Ok([Literal(l1), SpanSegment(o1, v1), Literal(l2), SpanSegment(o2, v2)])
  {
    var tail := l2 + SpanText(o2, v2);
    LastSpan(l2, o2, v2);
    UnfoldSpan(l1, o1, v1, tail);
    StrAssoc(l1, SpanText(o1, v1), l2, SpanText(o2, v2));
    PairThenPair(Literal(l1), SpanSegment(o1, v1), Literal(l2), SpanSegment(o2, v2));
  }

  /** A literal run and a span closing the text. */
  lemma LastSpan(l: string, o: char, v: string)
    requires NoOpener(l) && IsOpener(o) && Closer(o) !in v
    ensures Parse(l + SpanText(o, v)) == Ok([Literal(l), SpanSegment(o, v)])
  {
    UnfoldSpan(l, o, v, "");
    PlainText("");
    StrEmpty(l + SpanText(o, v));
    assert [Literal(l), SpanSegment(o, v)] + [] == [Literal(l), SpanSegment(o, v)];
  }

  lemma PairThenPair(a: Segment, b: Segment, c: Segment, d: Segment)
    ensures [a, b] + [c, d] == [a, b, c, d]
  {
  }

  lemma PairThenQuad(a: Segment, b: Segment, c: Segment, d: Segment, e: Segment, f: Segment)
    ensures [a, b] + [c, d, e, f] == [a, b, c, d, e, f]
  {
  }

  /** Text made of three literal runs, each followed by one closed span. */
  lemma ThreeSpans(l1: string, o1: char, v1: string, l2: string, o2: char, v2: string,
                   l3: string, o3: char, v3: string)
    requires NoOpener(l1) && IsOpener(o1) && Closer(o1) !in v1
    requires NoOpener(l2) && IsOpener(o2) && Closer(o2) !in v2
    requires NoOpener(l3) && IsOpener(o3) && Closer(o3) !in v3
    ensures Parse(l1 + SpanText(o1, v1) + l2 + SpanText(o2, v2) + l3 + SpanText(o3, v3))
            == Ok([Literal(l1), SpanSegment(o1, v1), Literal(l2), SpanSegment(o2, v2),
                   Literal(l3), SpanSegment(o3, v3)])
  {
    var tail := l2 + SpanText(o2, v2) + l3 + SpanText(o3, v3);
    TwoSpans(l2, o2, v2, l3, o3, v3);
    UnfoldSpan(l1, o1, v1, tail);
    Assoc(l1 + SpanText(o1, v1), l2 + SpanText(o2, v2), l3, SpanText(o3, v3));
    StrAssoc(l1, SpanText(o1, v1), l2, SpanText(o2, v2));
    PairThenQuad(Literal(l1), SpanSegment(o1, v1), Literal(l2), SpanSegment(o2, v2),
                 Literal(l3), SpanSegment(o3, v3));
  }

  lemma Assoc(a: string, b: string, c: string, d: string)
    ensures a + (b + c + d) == a + b + c + d
  {
  }

  /** The shape of the second example: a double-quoted value `q1`, then a
      single-quoted one `q2`. */
  lemma QuotedThenQuoted(l1: string, q1: string, l2: string, q2: string, v1: string, v2: string)
    requires q1 == ['"'] + v1 + ['"'] && q2 == ['\''] + v2 + ['\'']
    requires NoOpener(l1) && NoOpener(l2) && '"' !in v1 && '\'' !in v2
    ensures Parse(l1 + q1 + l2 + q2)
            == Ok([Literal(l1), Value(Str(v1)), Literal(l2), Value(Str(v2))])
  {
    TwoSpans(l1, '"', v1, l2, '\'', v2);
  }

  /** The shape of the third example: a single-quoted value `q1`, a
      variable `b2`, then a single-quoted value `q3`. */
  lemma QuotedVariableQuoted(l1: string, q1: string, l2: string, b2: string, l3: string, q3: string,
                             v1: string, v2: string, v3: string)
    requires q1 == ['\''] + v1 + ['\''] && b2 == ['{'] + v2 + ['}'] && q3 == ['\''] + v3 + ['\'']
    requires NoOpener(l1) && NoOpener(l2) && NoOpener(l3)
    requires '\'' !in v1 && '}' !in v2 && '\'' !in v3
    ensures Parse(l1 + q1 + l2 + b2 + l3 + q3)
            == Ok([Literal(l1), Value(Str(v1)), Literal(l2), Variable(v2), Literal(l3), Value(Str(v3))])
  {
    ThreeSpans(l1, '\'', v1, l2, '{', v2, l3, '\'', v3);
  }
}
