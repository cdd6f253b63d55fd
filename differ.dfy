/** The newline analysis of snapshot diffs, humane_rework/src/differ.rs:
    which line ending a text ends with, which line-ending styles occur in
    it, whether the endings of two texts differ enough to be shown, and
    showing them. */
module Differ {
  import opened Wrappers
  import opened Text

  const CrSymbol := '\U{240D}'
  const LfSymbol := '\U{240A}'

  /** A carriage return or a line feed. */
  predicate IsLineEnd(c: char)
  {
    c == '\r' || c == '\n'
  }

  predicate EndsWithCrLf(s: string)
  {
    |s| >= 2 && s[|s| - 2] == '\r' && s[|s| - 1] == '\n'
  }

  predicate EndsWithLineEnd(s: string)
  {
    |s| > 0 && IsLineEnd(s[|s| - 1])
  }

  /** `trailing_newline`: the ending of `s` among "\r\n", "\r" and "\n",
      "\r\n" recognised first, or nothing. */
  function TrailingNewline(s: string): (r: string)
    ensures IsSuffix(r, s)
    ensures |r| == (if EndsWithCrLf(s) then 2 else if EndsWithLineEnd(s) then 1 else 0)
  {
    var n := |s|;
    if EndsWithCrLf(s) then s[n - 2..]
    else if EndsWithLineEnd(s) then s[n - 1..]
    else []
  }

  /** A carriage return at `j` that no line feed follows. */
  predicate LoneCrAt(s: string, j: int)
  {
    0 <= j < |s| && s[j] == '\r' && (j + 1 == |s| || s[j + 1] != '\n')
  }

  /** A carriage return at `j` directly followed by a line feed. */
  predicate CrLfAt(s: string, j: int)
  {
    0 <= j && j + 1 < |s| && s[j] == '\r' && s[j + 1] == '\n'
  }

  /** A line feed at `j` that no carriage return precedes. */
  predicate LoneLfAt(s: string, j: int)
  {
    0 <= j < |s| && s[j] == '\n' && (j == 0 || s[j - 1] != '\r')
  }

  /** Which line-ending styles a text uses. */
  datatype Styles = Styles(cr: bool, crlf: bool, lf: bool)

  ghost function StylesOf(s: string): Styles
  {
    Styles(exists j :: LoneCrAt(s, j), exists j :: CrLfAt(s, j), exists j :: LoneLfAt(s, j))
  }

  /** `detect_newlines`: one pass over the characters remembering the
      previous one. A line feed takes the remembered character, so the
      carriage return of "\r\n" counts only as CRLF. */
  method DetectNewlines(s: string) returns (cr: bool, crlf: bool, lf: bool)
    ensures Styles(cr, crlf, lf) == StylesOf(s)
  {
    var last: Option<char> := None;
    cr, crlf, lf := false, false, false;
    for i := 0 to |s|
      invariant last == (if i == 0 then None else Some(s[i - 1]))
      invariant cr <==> exists j :: LoneCrAt(s, j) && j + 1 < i
      invariant crlf <==> exists j :: CrLfAt(s, j) && j + 1 < i
      invariant lf <==> exists j :: LoneLfAt(s, j) && j < i
    {
      var c := s[i];
      if c == '\n' {
        var previous := last;
        last := None;
        if previous == Some('\r') {
          assert CrLfAt(s, i - 1);
          crlf := true;
        } else {
          assert LoneLfAt(s, i);
          lf := true;
        }
      }
      if last == Some('\r') {
        assert LoneCrAt(s, i - 1);
        cr := true;
      }
      last := Some(c);
    }
    if last == Some('\r') {
      assert LoneCrAt(s, |s| - 1);
      cr := true;
    }
  }

  /** Two or more of three. */
  predicate AtLeastTwo(a: bool, b: bool, c: bool)
  {
    (a && b) || (a && c) || (b && c)
  }

  /** Whether the line endings of two texts need showing: their trailing
      newlines differ, or together they use two or more styles. */
  ghost predicate Matter(left: string, right: string)
  {
    var l := StylesOf(left);
    var r := StylesOf(right);
    TrailingNewline(left) != TrailingNewline(right)
    || AtLeastTwo(l.cr || r.cr, l.crlf || r.crlf, l.lf || r.lf)
  }

  /** `newlines_matter`. */
  method NewlinesMatter(left: string, right: string) returns (r: bool)
    ensures r == Matter(left, right)
  {
    if TrailingNewline(left) != TrailingNewline(right) {
      return true;
    }
    var cr1, crlf1, lf1 := DetectNewlines(left);
    var cr2, crlf2, lf2 := DetectNewlines(right);
    var styles := (cr1 || cr2, crlf1 || crlf2, lf1 || lf2);
    r := !(styles == (false, false, false) || styles == (true, false, false)
           || styles == (false, true, false) || styles == (false, false, true));
  }

  /** Whether endings matter does not depend on which text is on the left. */
  lemma MatterSymmetric(left: string, right: string)
    ensures Matter(left, right) == Matter(right, left)
  {
  }

  /** A text without carriage returns uses neither CR nor CRLF, and uses LF
      exactly when it holds a line feed. */
  lemma {:induction false} WithoutCarriageReturn(s: string)
    requires '\r' !in s
    ensures !StylesOf(s).cr && !StylesOf(s).crlf
    ensures StylesOf(s).lf <==> '\n' in s
  {
    if '\n' in s {
      var j :| 0 <= j < |s| && s[j] == '\n';
      assert LoneLfAt(s, j);
    }
  }

  /** The "\r" of "\r\n" is not a lone carriage return. */
  lemma CrLfIsOneStyle()
    ensures StylesOf("\r\n") == Styles(false, true, false)
  {
    assert CrLfAt("\r\n", 0);
  }

  /** The characters whose presence makes `render_invisible` rewrite a
      text: ESC, BEL, BS and DEL. */
  predicate IsControl(c: char)
  {
    c == '\U{1B}' || c == '\U{07}' || c == '\U{08}' || c == '\U{7F}'
  }

  predicate HasControl(s: string)
  {
    exists i :: 0 <= i < |s| && IsControl(s[i])
  }

  /** The shown form of a text, character by character: a lone "\r"
      becomes "␍\r", a lone "\n" becomes "␊\n", "\r\n" becomes "␍␊\r\n" and
      every other character stays. */
  function Visible(s: string): string
    decreases |s|
  {
    if |s| == 0 then []
    else if |s| > 1 && s[0] == '\r' && s[1] == '\n' then [CrSymbol, LfSymbol, '\r', '\n'] + Visible(s[2..])
    else if s[0] == '\r' then [CrSymbol, '\r'] + Visible(s[1..])
    else if s[0] == '\n' then [LfSymbol, '\n'] + Visible(s[1..])
    else [s[0]] + Visible(s[1..])
  }

  /** `render_invisible`: unless the endings matter or the text holds a
      control character it is returned as it is; otherwise every "\r" and
      "\n" gets a visible symbol before it, and the two symbols of a "\r\n"
      are brought together. The three replacements amount to `Visible`. */
  function RenderInvisible(s: string, newlinesMatter: bool): (r: string)
    ensures !newlinesMatter && !HasControl(s) ==> r == s
    ensures newlinesMatter || HasControl(s) ==> r == Visible(s)
  {
    if newlinesMatter || HasControl(s) then
      MarkedIsTwoReplacements(s);
      CollapseMarked(s, Pair);
      ReplaceAll(ReplaceAll(ReplaceAll(s, "\r", [CrSymbol, '\r']), "\n", [LfSymbol, '\n']), Pair, Joined)
    else s
  }

  // ---- why the three replacements amount to `Visible` ----

  /** What the first two replacements make of one character. */
  function Mark(c: char): string
  {
    if c == '\r' then [CrSymbol, '\r'] else if c == '\n' then [LfSymbol, '\n'] else [c]
  }

  function Marked(s: string): string
    decreases |s|
  {
    if |s| == 0 then [] else Mark(s[0]) + Marked(s[1..])
  }

  /** Every occurrence of the character `c` replaced by `rep`. */
  function MapChar(s: string, c: char, rep: string): string
    decreases |s|
  {
    if |s| == 0 then [] else (if s[0] == c then rep else [s[0]]) + MapChar(s[1..], c, rep)
  }

  /** Replacing a one-character pattern, one step. */
  lemma ReplaceCharStep(s: string, pat: string, rep: string)
    requires |s| > 0 && |pat| == 1
    ensures ReplaceAll(s, pat, rep) ==
              (if s[0] == pat[0] then rep else [s[0]]) + ReplaceAll(s[1..], pat, rep)
  {
    assert IsPrefix(pat, s) <==> s[0] == pat[0] by {
      if s[0] == pat[0] {
        assert s[..1] == pat;
      }
    }
  }

  /** Replacing a one-character pattern is mapping its character. */
  lemma {:induction false} ReplaceCharIsMap(s: string, pat: string, rep: string)
    requires |pat| == 1
    ensures ReplaceAll(s, pat, rep) == MapChar(s, pat[0], rep)
    decreases |s|
  {
    if |s| > 0 {
      ReplaceCharStep(s, pat, rep);
      ReplaceCharIsMap(s[1..], pat, rep);
    }
  }

  /** Mapping a character works piece by piece. */
  lemma {:induction false} MapCharConcat(x: string, y: string, c: char, rep: string)
    ensures MapChar(x + y, c, rep) == MapChar(x, c, rep) + MapChar(y, c, rep)
    decreases |x|
  {
    if |x| == 0 {
      assert x + y == y;
    } else {
      assert (x + y)[0] == x[0];
      assert (x + y)[1..] == x[1..] + y;
      MapCharConcat(x[1..], y, c, rep);
    }
  }

  /** The second mapping on what the first makes of one character. */
  lemma MarkOne(c: char)
    ensures MapChar(MapChar([c], '\r', [CrSymbol, '\r']), '\n', [LfSymbol, '\n']) == Mark(c)
  {
    var cr := [CrSymbol, '\r'];
    var lf := [LfSymbol, '\n'];
    assert [c][1..] == [];
    assert MapChar([], '\r', cr) == [] && MapChar([], '\n', lf) == [];
    var first := MapChar([c], '\r', cr);
    if c == '\r' {
      assert first == cr + [];
      assert cr[1..] == ['\r'] && ['\r'][1..] == [];
      assert MapChar(['\r'], '\n', lf) == ['\r'] + [];
      assert MapChar(cr, '\n', lf) == [CrSymbol] + MapChar(['\r'], '\n', lf);
    } else {
      assert first == [c] + [];
      assert MapChar([c], '\n', lf) == (if c == '\n' then lf else [c]) + [];
    }
  }

  lemma {:induction false} MarkedIsTwoMaps(s: string)
    ensures MapChar(MapChar(s, '\r', [CrSymbol, '\r']), '\n', [LfSymbol, '\n']) == Marked(s)
    decreases |s|
  {
    if |s| > 0 {
      var cr := [CrSymbol, '\r'];
      var lf := [LfSymbol, '\n'];
      assert s == [s[0]] + s[1..];
      MapCharConcat([s[0]], s[1..], '\r', cr);
      MapCharConcat(MapChar([s[0]], '\r', cr), MapChar(s[1..], '\r', cr), '\n', lf);
      MarkOne(s[0]);
      MarkedIsTwoMaps(s[1..]);
    }
  }

  lemma MarkedIsTwoReplacements(s: string)
    ensures ReplaceAll(ReplaceAll(s, "\r", [CrSymbol, '\r']), "\n", [LfSymbol, '\n']) == Marked(s)
  {
    ReplaceCharIsMap(s, "\r", [CrSymbol, '\r']);
    ReplaceCharIsMap(ReplaceAll(s, "\r", [CrSymbol, '\r']), "\n", [LfSymbol, '\n']);
    MarkedIsTwoMaps(s);
  }

  /** A marked text never starts with "\r", and starts with "␊\n" only
      where the text starts with "\n". */
  lemma MarkedStart(s: string)
    ensures |Marked(s)| == 0 || Marked(s)[0] != '\r'
    ensures |Marked(s)| >= 2 && Marked(s)[0] == LfSymbol && Marked(s)[1] == '\n' ==> |s| > 0 && s[0] == '\n'
  {
    if |s| > 0 && s[0] != '\n' && s[0] != '\r' {
      assert Marked(s) == [s[0]] + Marked(s[1..]);
      if |s| > 1 {
        assert Marked(s[1..]) == Mark(s[1]) + Marked(s[2..]);
      }
    }
  }

  const Pair := [CrSymbol, '\r', LfSymbol, '\n']
  const Joined := [CrSymbol, LfSymbol, '\r', '\n']

  /** The pattern the last replacement looks for, described by its
      characters; the steps below are stated for any such pattern. */
  predicate IsPair(pat: string)
  {
    |pat| == 4 && pat[0] == CrSymbol && pat[1] == '\r' && pat[2] == LfSymbol && pat[3] == '\n'
  }

  /** Replacing a non-empty pattern at a match, one step. */
  lemma ReplaceMatch(pat: string, rest: string, rep: string)
    requires |pat| > 0
    ensures ReplaceAll(pat + rest, pat, rep) == rep + ReplaceAll(rest, pat, rep)
  {
    assert IsPrefix(pat, pat + rest);
    assert (pat + rest)[|pat|..] == rest;
  }

  /** Replacing a non-empty pattern where it does not match, one step. */
  lemma ReplaceKeep(c: char, rest: string, pat: string, rep: string)
    requires |pat| > 0 && !IsPrefix(pat, [c] + rest)
    ensures ReplaceAll([c] + rest, pat, rep) == [c] + ReplaceAll(rest, pat, rep)
  {
    assert ([c] + rest)[1..] == rest;
  }

  /** Replacing a non-empty pattern that matches at neither of two
      characters keeps both. */
  lemma ReplaceKeepTwo(a: char, b: char, rest: string, pat: string, rep: string)
    requires |pat| > 0 && !IsPrefix(pat, [a, b] + rest) && !IsPrefix(pat, [b] + rest)
    ensures ReplaceAll([a, b] + rest, pat, rep) == [a, b] + ReplaceAll(rest, pat, rep)
  {
    assert [a, b] + rest == [a] + ([b] + rest);
    ReplaceKeep(a, [b] + rest, pat, rep);
    ReplaceKeep(b, rest, pat, rep);
  }

  /** A sequence differing from `p` at some index within both is not
      prefixed by `p`. */
  lemma DiffersAt(p: string, s: string, k: nat)
    requires k < |p| && k < |s| && s[k] != p[k]
    ensures !IsPrefix(p, s)
  {
  }

  /** A marked text never starts with "\r", so a marked character other
      than "\r" and "\n" is kept. */
  lemma CollapseOther(c: char, rest: string, pat: string, rep: string)
    requires IsPair(pat)
    requires c != '\r' && c != '\n'
    requires |rest| == 0 || rest[0] != '\r'
    ensures ReplaceAll([c] + rest, pat, rep) == [c] + ReplaceAll(rest, pat, rep)
  {
    if c != CrSymbol {
      DiffersAt(pat, [c] + rest, 0);
    } else if |rest| > 0 {
      DiffersAt(pat, [c] + rest, 1);
    }
    ReplaceKeep(c, rest, pat, rep);
  }

  /** A marked lone "\r" is kept. */
  lemma CollapseCr(rest: string, pat: string, rep: string)
    requires IsPair(pat)
    requires |rest| == 0 || rest[0] != '\r'
    requires !(|rest| >= 2 && rest[0] == LfSymbol && rest[1] == '\n')
    ensures ReplaceAll([CrSymbol, '\r'] + rest, pat, rep) == [CrSymbol, '\r'] + ReplaceAll(rest, pat, rep)
  {
    if |rest| >= 2 {
      if rest[0] != LfSymbol {
        DiffersAt(pat, [CrSymbol, '\r'] + rest, 2);
      } else {
        DiffersAt(pat, [CrSymbol, '\r'] + rest, 3);
      }
    }
    DiffersAt(pat, ['\r'] + rest, 0);
    ReplaceKeepTwo(CrSymbol, '\r', rest, pat, rep);
  }

  /** A marked lone "\n" is kept. */
  lemma CollapseLf(rest: string, pat: string, rep: string)
    requires IsPair(pat)
    requires |rest| == 0 || rest[0] != '\r'
    ensures ReplaceAll([LfSymbol, '\n'] + rest, pat, rep) == [LfSymbol, '\n'] + ReplaceAll(rest, pat, rep)
  {
    DiffersAt(pat, [LfSymbol, '\n'] + rest, 0);
    DiffersAt(pat, ['\n'] + rest, 0);
    ReplaceKeepTwo(LfSymbol, '\n', rest, pat, rep);
  }

  /** `Visible` one step, in the terms of `Mark`. */
  lemma VisibleStep(s: string)
    requires |s| > 0
    ensures |s| > 1 && s[0] == '\r' && s[1] == '\n' ==> Visible(s) == Joined + Visible(s[2..])
    ensures !(|s| > 1 && s[0] == '\r' && s[1] == '\n') ==> Visible(s) == Mark(s[0]) + Visible(s[1..])
  {
  }

  /** A marked text starting with "\r\n" has its first pair collapsed. */
  lemma CollapseFirstPair(s: string, pat: string)
    requires IsPair(pat) && |s| > 1 && s[0] == '\r' && s[1] == '\n'
    ensures ReplaceAll(Marked(s), pat, Joined) == Joined + ReplaceAll(Marked(s[2..]), pat, Joined)
  {
    var rest := Marked(s[2..]);
    assert s[1..][1..] == s[2..];
    assert pat == [CrSymbol, '\r', LfSymbol, '\n'];
    assert Marked(s) == pat + rest;
    ReplaceMatch(pat, rest, Joined);
  }

  /** Any other marked text keeps its first marked character. */
  lemma CollapseFirstOne(s: string, pat: string)
    requires IsPair(pat) && |s| > 0 && !(|s| > 1 && s[0] == '\r' && s[1] == '\n')
    ensures ReplaceAll(Marked(s), pat, Joined) == Mark(s[0]) + ReplaceAll(Marked(s[1..]), pat, Joined)
  {
    var rest := Marked(s[1..]);
    MarkedStart(s[1..]);
    assert Marked(s) == Mark(s[0]) + rest;
    if s[0] == '\r' {
      assert Mark(s[0]) == [CrSymbol, '\r'];
      CollapseCr(rest, pat, Joined);
    } else if s[0] == '\n' {
      assert Mark(s[0]) == [LfSymbol, '\n'];
      CollapseLf(rest, pat, Joined);
    } else {
      assert Mark(s[0]) == [s[0]];
      CollapseOther(s[0], rest, pat, Joined);
    }
  }

  /** Collapsing the symbols of every "␍\r␊\n" in a marked text gives its
      shown form. */
  lemma {:induction false} CollapseMarked(s: string, pat: string)
    requires IsPair(pat)
    ensures ReplaceAll(Marked(s), pat, Joined) == Visible(s)
    decreases |s|
  {
    if |s| == 0 {
    } else if |s| > 1 && s[0] == '\r' && s[1] == '\n' {
      CollapseFirstPair(s, pat);
      CollapseMarked(s[2..], pat);
      VisibleStep(s);
    } else {
      CollapseFirstOne(s, pat);
      CollapseMarked(s[1..], pat);
      VisibleStep(s);
    }
  }
}
