/** The regular-expression substitutions of the cleaners, each written out as
    a character-level function with the semantics of Python's `re.sub`: the
    pattern is tried at each position from left to right, a match is greedy
    and is replaced, and scanning resumes after it; where no match starts, the
    character is copied and scanning moves one position on. */
module Substitutions {
  import opened Chars
  import opened Strings

  /** Neither half of a line break. */
  predicate NotBreak(c: char) {
    c != '\r' && c != '\n'
  }

  /** `re.sub(r'\r\n|\r', '\n', s)`. */
  function NormalizeLineBreaks(s: string): (r: string)
    ensures '\r' !in r
    ensures forall c :: c in r ==> c in s || c == '\n'
    decreases |s|
  {
    if s == [] then []
    else if s[0] == '\r' then
      "\n" + NormalizeLineBreaks(if |s| > 1 && s[1] == '\n' then s[2..] else s[1..])
    else [s[0]] + NormalizeLineBreaks(s[1..])
  }

  /** A text without '\r' is left as it is. */
  lemma {:induction false} NormalizeLineBreaksFixed(s: string)
    requires '\r' !in s
    ensures NormalizeLineBreaks(s) == s
    decreases |s|
  {
    if s != [] {
      assert s[0] in s;
      assert '\r' !in s[1..] by {
        forall c | c in s[1..] ensures c != '\r' {
          var i :| 0 <= i < |s[1..]| && s[1..][i] == c;
          assert s[i + 1] == c;
        }
      }
      NormalizeLineBreaksFixed(s[1..]);
      assert s == [s[0]] + s[1..];
    }
  }

  /** Every character other than a line break survives, in order. */
  lemma {:induction false} NormalizeLineBreaksKeepsText(s: string)
    ensures Filter(NormalizeLineBreaks(s), NotBreak) == Filter(s, NotBreak)
    decreases |s|
  {
    if s != [] {
      if s[0] == '\r' {
        var rest := if |s| > 1 && s[1] == '\n' then s[2..] else s[1..];
        DropBreaks(s, rest);
        NormalizeLineBreaksKeepsText(rest);
        assert Filter("\n" + NormalizeLineBreaks(rest), NotBreak) == Filter(NormalizeLineBreaks(rest), NotBreak);
      } else {
        NormalizeLineBreaksKeepsText(s[1..]);
        assert Filter([s[0]] + NormalizeLineBreaks(s[1..]), NotBreak)
          == ItemIf(s[0]) + Filter(NormalizeLineBreaks(s[1..]), NotBreak);
      }
    }
  }

  function ItemIf(c: char): string {
    if NotBreak(c) then [c] else []
  }

  /** The break characters skipped by one replacement hold nothing the
      filter keeps. */
  lemma DropBreaks(s: string, rest: string)
    requires s != [] && s[0] == '\r'
    requires rest == (if |s| > 1 && s[1] == '\n' then s[2..] else s[1..])
    ensures Filter(s, NotBreak) == Filter(rest, NotBreak)
  {
    assert Filter(s, NotBreak) == Filter(s[1..], NotBreak);
    if |s| > 1 && s[1] == '\n' {
      assert s[1..][1..] == s[2..];
      assert Filter(s[1..], NotBreak) == Filter(s[2..], NotBreak);
    }
  }

  /** `re.sub(r'\n{3,}', '\n\n', s)`: a run of three or more newlines
      becomes two; shorter runs are kept. */
  function CapBlankLines(s: string): (r: string)
    ensures forall c :: c in r ==> c in s
    decreases |s|
  {
    if s == [] then []
    else if s[0] == '\n' && Run(s, '\n') >= 3 then "\n\n" + CapBlankLines(s[Run(s, '\n')..])
    else [s[0]] + CapBlankLines(s[1..])
  }

  predicate NotBlank(c: char) {
    c != ' '
  }

  predicate NoTripleBreak(s: string) {
    forall i :: 0 <= i < |s| - 2 ==> !(s[i] == '\n' && s[i + 1] == '\n' && s[i + 2] == '\n')
  }

  /** A text without three newlines in a row is left as it is. */
  lemma {:induction false} CapBlankLinesFixed(s: string)
    requires NoTripleBreak(s)
    ensures CapBlankLines(s) == s
    decreases |s|
  {
    if s != [] {
      assert !(s[0] == '\n' && Run(s, '\n') >= 3) by {
        if |s| >= 3 {
          assert !(s[0] == '\n' && s[1] == '\n' && s[2] == '\n');
        }
      }
      assert NoTripleBreak(s[1..]) by {
        forall i | 0 <= i < |s[1..]| - 2
          ensures !(s[1..][i] == '\n' && s[1..][i + 1] == '\n' && s[1..][i + 2] == '\n')
        {
          assert s[1..][i] == s[i + 1] && s[1..][i + 1] == s[i + 2] && s[1..][i + 2] == s[i + 3];
        }
      }
      CapBlankLinesFixed(s[1..]);
      assert s == [s[0]] + s[1..];
    }
  }

  /** `re.sub(r' +', ' ', s)`: every character other than the space is kept,
      in order, and a text without two spaces in a row is left as it is. */
  function CollapseSpaces(s: string): (r: string)
    ensures r == [] <==> s == []
    ensures s != [] ==> r[0] == s[0]
    ensures s != [] && s[|s| - 1] != ' ' ==> r[|r| - 1] == s[|s| - 1]
    ensures forall c :: c in r ==> c in s
    ensures forall i :: 0 <= i < |r| - 1 ==> !(r[i] == ' ' && r[i + 1] == ' ')
    decreases |s|
  {
    if s == [] then []
    else if s[0] == ' ' then " " + CollapseSpaces(s[Run(s, ' ')..])
    else [s[0]] + CollapseSpaces(s[1..])
  }

  /** Every character other than the space survives the collapse, in order. */
  lemma {:induction false} CollapseSpacesKeepsText(s: string)
    ensures Filter(CollapseSpaces(s), NotBlank) == Filter(s, NotBlank)
    decreases |s|
  {
    if s != [] {
      if s[0] == ' ' {
        var n := Run(s, ' ');
        DropSpaces(s, n);
        CollapseSpacesKeepsText(s[n..]);
        assert Filter(" " + CollapseSpaces(s[n..]), NotBlank) == Filter(CollapseSpaces(s[n..]), NotBlank);
      } else {
        CollapseSpacesKeepsText(s[1..]);
        assert Filter(s, NotBlank) == [s[0]] + Filter(s[1..], NotBlank);
        assert Filter([s[0]] + CollapseSpaces(s[1..]), NotBlank)
          == [s[0]] + Filter(CollapseSpaces(s[1..]), NotBlank);
      }
    }
  }

  predicate NoDoubleSpace(s: string) {
    forall i :: 0 <= i < |s| - 1 ==> !(s[i] == ' ' && s[i + 1] == ' ')
  }

  /** A text without two spaces in a row is left as it is. */
  lemma {:induction false} CollapseSpacesFixed(s: string)
    requires NoDoubleSpace(s)
    ensures CollapseSpaces(s) == s
    decreases |s|
  {
    if s != [] {
      assert NoDoubleSpace(s[1..]) by {
        forall i | 0 <= i < |s[1..]| - 1 ensures !(s[1..][i] == ' ' && s[1..][i + 1] == ' ') {
          assert s[1..][i] == s[i + 1] && s[1..][i + 1] == s[i + 2];
        }
      }
      if s[0] == ' ' {
        if |s| > 1 {
          assert s[1] != ' ';
        }
        assert Run(s, ' ') == 1;
      }
      CollapseSpacesFixed(s[1..]);
      assert s == [s[0]] + s[1..];
    }
  }

  /** Collapsing spaces twice is collapsing them once. */
  lemma CollapseSpacesIdempotent(s: string)
    ensures CollapseSpaces(CollapseSpaces(s)) == CollapseSpaces(s)
  {
    CollapseSpacesFixed(CollapseSpaces(s));
  }

  /** A leading run of spaces holds nothing the filter keeps. */
  lemma {:induction false} DropSpaces(s: string, n: nat)
    requires n <= |s| && forall i :: 0 <= i < n ==> s[i] == ' '
    ensures Filter(s, NotBlank) == Filter(s[n..], NotBlank)
  {
    if n > 0 {
      assert Filter(s, NotBlank) == Filter(s[1..], NotBlank);
      DropSpaces(s[1..], n - 1);
      assert s[1..][n - 1..] == s[n..];
    }
  }

  /** `re.sub(r'\s+', ' ', s)`. */
  function CollapseWhitespace(s: string): (r: string)
    ensures r == [] <==> s == []
    ensures s != [] ==> (IsSpace(r[0]) <==> IsSpace(s[0]))
    ensures s != [] && !IsSpace(s[|s| - 1]) ==> !IsSpace(r[|r| - 1])
    ensures forall c :: c in r ==> c in s || c == ' '
    ensures forall i :: 0 <= i < |r| ==> IsSpace(r[i]) ==> r[i] == ' '
    ensures forall i :: 0 <= i < |r| - 1 ==> !(IsSpace(r[i]) && IsSpace(r[i + 1]))
    decreases |s|
  {
    if s == [] then []
    else if IsSpace(s[0]) then " " + CollapseWhitespace(s[SpaceRun(s)..])
    else [s[0]] + CollapseWhitespace(s[1..])
  }

  /** Collapsing whitespace keeps the words. */
  lemma {:induction false} WordsCollapse(s: string)
    ensures Words(CollapseWhitespace(s)) == Words(s)
    decreases |s|
  {
    if s != [] {
      if IsSpace(s[0]) {
        WordsCollapse(s[SpaceRun(s)..]);
        CollapseLeadingSpace(s);
        WordsDropSpaceRun(s);
      } else {
        var y := s[1..];
        WordsCollapse(y);
        assert CollapseWhitespace(s) == [s[0]] + CollapseWhitespace(y);
        assert s == [s[0]] + y;
        WordsConsSame(s[0], CollapseWhitespace(y), y);
      }
    }
  }

  lemma CollapseLeadingSpace(s: string)
    requires s != [] && IsSpace(s[0])
    ensures Words(CollapseWhitespace(s)) == Words(CollapseWhitespace(s[SpaceRun(s)..]))
  {
    var x := CollapseWhitespace(s[SpaceRun(s)..]);
    assert CollapseWhitespace(s) == " " + x;
    assert (" " + x)[1..] == x;
    WordsSkipSpace(" " + x);
  }

  /** The letters of `json` under `re.IGNORECASE`; Python's case folding
      also matches the long s (U+017F) with `s`. */
  predicate IsJsonTag(t: string) {
    |t| == 4
    && (t[0] == 'j' || t[0] == 'J')
    && (t[1] == 's' || t[1] == 'S' || t[1] == '\U{17f}')
    && (t[2] == 'o' || t[2] == 'O')
    && (t[3] == 'n' || t[3] == 'N')
  }

  /** `re.sub(r'```(?:json)?\s*', '', s, flags=re.IGNORECASE)`. */
  function RemoveJsonFences(s: string): (r: string)
    ensures |r| <= |s|
    ensures forall c :: c in r ==> c in s
    decreases |s|
  {
    if s == [] then []
    else if StartsWith(s, "```") then
      var t := s[3..];
      var u := if |t| >= 4 && IsJsonTag(t[..4]) then t[4..] else t;
      RemoveJsonFences(u[SpaceRun(u)..])
    else [s[0]] + RemoveJsonFences(s[1..])
  }

  /** `re.sub(r'```\s*', '', s)`. */
  function RemoveFencesAndSpace(s: string): (r: string)
    ensures |r| <= |s|
    ensures forall c :: c in r ==> c in s
    decreases |s|
  {
    if s == [] then []
    else if StartsWith(s, "```") then RemoveFencesAndSpace(s[3..][SpaceRun(s[3..])..])
    else [s[0]] + RemoveFencesAndSpace(s[1..])
  }

  /** `re.sub(r'```[a-z]*\n?', '', s)`. */
  function RemoveTaggedFences(s: string): (r: string)
    ensures |r| <= |s|
    ensures forall c :: c in r ==> c in s
    decreases |s|
  {
    if s == [] then []
    else if StartsWith(s, "```") then
      var u := s[3..][LowerRun(s[3..])..];
      RemoveTaggedFences(if u != [] && u[0] == '\n' then u[1..] else u)
    else [s[0]] + RemoveTaggedFences(s[1..])
  }

  /** `re.sub(r'```', '', s)`. */
  function RemoveFences(s: string): (r: string)
    ensures |r| <= |s|
    ensures forall c :: c in r ==> c in s
    decreases |s|
  {
    if s == [] then []
    else if StartsWith(s, "```") then RemoveFences(s[3..])
    else [s[0]] + RemoveFences(s[1..])
  }

  /** `re.sub(D([^d]+)D, r'\1', s)` where `D` is `w` copies of the delimiter
      `d`: bold is `d = '*'`, `w = 2`; italic is `d = '*'`, `w = 1`; inline
      code is `d = '`'`, `w = 1`. The content run cannot contain `d`, so the
      greedy match needs no backtracking. */
  function Unwrap(s: string, d: char, w: nat): (r: string)
    requires w >= 1
    ensures |r| <= |s|
    ensures forall c :: c in r ==> c in s
    decreases |s|
  {
    if s == [] then []
    else if Run(s, d) >= w && RunNot(s[w..], d) >= 1
         && w + RunNot(s[w..], d) + w <= |s| && Run(s[w + RunNot(s[w..], d)..], d) >= w then
      var n := RunNot(s[w..], d);
      s[w..w + n] + Unwrap(s[w + n + w..], d, w)
    else [s[0]] + Unwrap(s[1..], d, w)
  }

  /** `re.sub(r'#+\s*', '', s)`. */
  function RemoveHeaders(s: string): (r: string)
    ensures |r| <= |s|
    ensures forall c :: c in r ==> c in s
    decreases |s|
  {
    if s == [] then []
    else if s[0] == '#' then
      var t := s[Run(s, '#')..];
      RemoveHeaders(t[SpaceRun(t)..])
    else [s[0]] + RemoveHeaders(s[1..])
  }

  /** `re.sub(r'(\w+):', r'"\1":', s)`: a word directly followed by a colon
      is wrapped in double quotes. */
  function QuoteKeys(s: string): (r: string)
    ensures ':' !in s ==> r == s
    decreases |s|
  {
    if s == [] then []
    else if WordCharRun(s) >= 1 && WordCharRun(s) < |s| && s[WordCharRun(s)] == ':' then
      var n := WordCharRun(s);
      "\"" + s[..n] + "\":" + QuoteKeys(s[n + 1..])
    else [s[0]] + QuoteKeys(s[1..])
  }

  /** `re.sub(r"'([^']*)'", r'"\1"', s)`: a single-quoted span becomes
      double-quoted. */
  function DoubleQuote(s: string): (r: string)
    ensures '\'' !in s ==> r == s
    decreases |s|
  {
    if s == [] then []
    else if s[0] == '\'' && 1 + RunNot(s[1..], '\'') < |s| then
      var n := RunNot(s[1..], '\'');
      "\"" + s[1..1 + n] + "\"" + DoubleQuote(s[n + 2..])
    else [s[0]] + DoubleQuote(s[1..])
  }

  /** `re.sub(a\s*b, rep, s)` for single characters `a` and `b`: the four
      comma rules `,\s*}`, `,\s*]`, `}\s*{` and `]\s*\[`. */
  function CloseGap(s: string, a: char, b: char, rep: string): (r: string)
    ensures a !in s ==> r == s
    ensures b !in s ==> r == s
    decreases |s|
  {
    if s == [] then []
    else if s[0] == a && 1 + SpaceRun(s[1..]) < |s| && s[1 + SpaceRun(s[1..])] == b then
      rep + CloseGap(s[2 + SpaceRun(s[1..])..], a, b, rep)
    else [s[0]] + CloseGap(s[1..], a, b, rep)
  }

  /** The markdown cleanup both output cleaners apply, in the same order:
      bold, italic, headers, inline code. */
  function StripMarkdown(s: string): (r: string)
    ensures |r| <= |s|
    ensures forall c :: c in r ==> c in s
  {
    Unwrap(RemoveHeaders(Unwrap(Unwrap(s, '*', 2), '*', 1)), '`', 1)
  }
}
