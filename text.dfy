/** String operations of Rust's `str` that the runner relies on, written
    over `seq<char>`: `starts_with`, `contains`, `replace`, `join`, `trim`
    and the decimal rendering of integers. */
module Text {

  predicate IsPrefix(p: string, s: string)
  {
    |p| <= |s| && s[..|p|] == p
  }

  predicate IsSuffix(p: string, s: string)
  {
    |p| <= |s| && s[|s| - |p|..] == p
  }

  /** `sub` occurs in `s` starting at index `i`. */
  predicate OccursAt(s: string, sub: string, i: int)
  {
    0 <= i && i + |sub| <= |s| && s[i..i + |sub|] == sub
  }

  /** Rust's `str::contains` with a string pattern. */
  predicate Contains(s: string, sub: string)
    decreases |s|
  {
    IsPrefix(sub, s) || (|s| > 0 && Contains(s[1..], sub))
  }

  /** Rust's `str::replace`: every non-overlapping occurrence of `pat`,
      scanning from the left, is replaced by `rep`. An empty pattern matches
      before every character and at the end, as it does in Rust. */
  function ReplaceAll(s: string, pat: string, rep: string): string
    decreases |s|
  {
    if |pat| == 0 then
      (if |s| == 0 then rep else rep + [s[0]] + ReplaceAll(s[1..], pat, rep))
    else if IsPrefix(pat, s) then
      rep + ReplaceAll(s[|pat|..], pat, rep)
    else if |s| == 0 then
      []
    else
      [s[0]] + ReplaceAll(s[1..], pat, rep)
  }

  /** Rust's `[&str]::join`. */
  function Join(parts: seq<string>, sep: string): string
    decreases |parts|
  {
    if |parts| == 0 then []
    else if |parts| == 1 then parts[0]
    else parts[0] + sep + Join(parts[1..], sep)
  }

  /** Rust's `char::is_whitespace` (the Unicode White_Space property). */
  predicate IsWhitespace(c: char)
  {
    c == ' ' || ('\t' <= c <= '\r') || c == '\U{85}' || c == '\U{A0}' || c == '\U{1680}'
    || ('\U{2000}' <= c <= '\U{200A}') || c == '\U{2028}' || c == '\U{2029}'
    || c == '\U{202F}' || c == '\U{205F}' || c == '\U{3000}'
  }

  function TrimStart(s: string): string
    decreases |s|
  {
    if |s| > 0 && IsWhitespace(s[0]) then TrimStart(s[1..]) else s
  }

  function TrimEnd(s: string): string
    decreases |s|
  {
    if |s| > 0 && IsWhitespace(s[|s| - 1]) then TrimEnd(s[..|s| - 1]) else s
  }

  /** Rust's `str::trim`. */
  function Trim(s: string): string
  {
    TrimEnd(TrimStart(s))
  }

  function DigitChar(d: nat): char
    requires d < 10
  {
    "0123456789"[d]
  }

  function NatToString(n: nat): string
    decreases n
  {
    if n < 10 then [DigitChar(n)] else NatToString(n / 10) + [DigitChar(n % 10)]
  }

  /** The decimal `Display` of an integer. */
  function IntToString(n: int): string
  {
    if n < 0 then "-" + NatToString(-n) else NatToString(n)
  }

  // ---- facts about the operations above ----

  lemma {:induction false} ContainsIffOccurs(s: string, sub: string)
    ensures Contains(s, sub) <==> exists i :: OccursAt(s, sub, i)
    decreases |s|
  {
    if IsPrefix(sub, s) {
      assert OccursAt(s, sub, 0);
    } else if |s| > 0 {
      ContainsIffOccurs(s[1..], sub);
      if Contains(s[1..], sub) {
        var i :| OccursAt(s[1..], sub, i);
        assert s[i + 1..i + 1 + |sub|] == s[1..][i..i + |sub|];
        assert OccursAt(s, sub, i + 1);
      }
      if i :| OccursAt(s, sub, i) {
        assert i != 0;
        assert s[1..][i - 1..i - 1 + |sub|] == s[i..i + |sub|];
        assert OccursAt(s[1..], sub, i - 1);
      }
    }
  }

  /** Replacing a non-empty pattern that does not occur changes nothing. */
  lemma {:induction false} ReplaceAbsent(s: string, pat: string, rep: string)
    requires |pat| > 0 && !Contains(s, pat)
    ensures ReplaceAll(s, pat, rep) == s
    decreases |s|
  {
    if |s| > 0 {
      ReplaceAbsent(s[1..], pat, rep);
      assert s == [s[0]] + s[1..];
    }
  }

  /** When the first occurrence of `pat` in `pre + pat + post` is the one
      right after `pre`, replacement splits there. */
  lemma {:induction false} ReplaceAtFirstOccurrence(pre: string, pat: string, post: string, rep: string)
    requires |pat| > 0
    requires forall i :: 0 <= i < |pre| ==> !OccursAt(pre + pat + post, pat, i)
    ensures ReplaceAll(pre + pat + post, pat, rep) == pre + rep + ReplaceAll(post, pat, rep)
    decreases |pre|
  {
    var s := pre + pat + post;
    if |pre| == 0 {
      assert s == pat + post;
      assert s[..|pat|] == pat;
      assert s[|pat|..] == post;
    } else {
      NoOccurrenceShift(pre, pat, post);
      ReplaceAtFirstOccurrence(pre[1..], pat, post, rep);
      ConsAssoc(pre, pat, post);
      ConsAssoc(pre, rep, ReplaceAll(post, pat, rep));
      SkipNonOccurrence(s, pre[0], pre[1..] + pat + post, pat, rep);
    }
  }

  lemma ConsAssoc(a: string, b: string, c: string)
    requires |a| > 0
    ensures a + b + c == [a[0]] + (a[1..] + b + c)
  {
    assert a == [a[0]] + a[1..];
  }

  /** Where `pat` does not occur at the start, replacement keeps the first
      character. */
  lemma SkipNonOccurrence(s: string, c: char, t: string, pat: string, rep: string)
    requires s == [c] + t && |pat| > 0 && !OccursAt(s, pat, 0)
    ensures ReplaceAll(s, pat, rep) == [c] + ReplaceAll(t, pat, rep)
  {
    assert s[1..] == t;
    assert !IsPrefix(pat, s) by {
      if |pat| <= |s| {
        assert s[..|pat|] == s[0..|pat|];
      }
    }
  }

  lemma NoOccurrenceShift(pre: string, pat: string, post: string)
    requires |pre| > 0
    requires forall i :: 0 <= i < |pre| ==> !OccursAt(pre + pat + post, pat, i)
    ensures forall i :: 0 <= i < |pre| - 1 ==> !OccursAt(pre[1..] + pat + post, pat, i)
  {
    var s := pre + pat + post;
    var t := pre[1..] + pat + post;
    assert t == s[1..];
    forall i | 0 <= i < |pre| - 1
      ensures !OccursAt(t, pat, i)
    {
      assert !OccursAt(s, pat, i + 1);
      assert t[i..i + |pat|] == s[i + 1..i + 1 + |pat|];
    }
  }

  /** A pattern whose first character is absent from `pre` cannot start
      inside `pre`. */
  lemma FirstCharAbsent(pre: string, pat: string, post: string)
    requires |pat| > 0 && pat[0] !in pre
    ensures forall i :: 0 <= i < |pre| ==> !OccursAt(pre + pat + post, pat, i)
  {
    forall i | 0 <= i < |pre|
      ensures !OccursAt(pre + pat + post, pat, i)
    {
      assert (pre + pat + post)[i] == pre[i];
    }
  }

  /** A pattern whose first character is absent from `s` does not occur. */
  lemma {:induction false} FirstCharAbsentNotContained(s: string, pat: string)
    requires |pat| > 0 && pat[0] !in s
    ensures !Contains(s, pat)
    decreases |s|
  {
    if |s| > 0 {
      assert s[0] != pat[0];
      assert forall c :: c in s[1..] ==> c in s;
      FirstCharAbsentNotContained(s[1..], pat);
    }
  }

  lemma {:induction false} NatToStringDigits(n: nat)
    ensures |NatToString(n)| > 0
    ensures forall c :: c in NatToString(n) ==> '0' <= c <= '9'
    decreases n
  {
    if n >= 10 {
      NatToStringDigits(n / 10);
    }
  }
}
