/** The input normaliser run before a prompt is built (`clean_input_text`).
    The quiz pipeline and the simplification pipeline carry identical copies
    that differ only in the length cap, so it is modelled once with the cap
    as a parameter. */
module Normalizer {
  import opened Chars
  import opened Strings
  import opened Substitutions

  /** Length cap of the quiz pipeline. */
  const QuizMaxLength: nat := 10000
  /** Length cap of the simplification pipeline. */
  const SimplifyMaxLength: nat := 8000

  /** Step 5: every line stripped, then joined again with newlines. */
  function StripLines(s: string): string {
    Join("\n", StripEach(Split(s, '\n')))
  }

  lemma StripLinesChars(s: string, c: char)
    requires c in StripLines(s)
    ensures c in s || c == '\n'
  {
    var pieces := Split(s, '\n');
    JoinChars("\n", StripEach(pieces), c);
    if c != '\n' {
      var k :| 0 <= k < |pieces| && c in StripEach(pieces)[k];
      SplitChars(s, '\n', k, c);
    }
  }

  /** A single line without whitespace at its ends survives step 5. */
  lemma StripLinesFixed(s: string)
    requires '\n' !in s && s != [] && !IsSpace(s[0]) && !IsSpace(s[|s| - 1])
    ensures StripLines(s) == s
  {
    SplitNoSep(s, '\n');
    assert StripEach([s]) == [Strip(s)];
  }

  lemma ReplaceCharFixed(s: string, from: char, to: char)
    requires from !in s
    ensures ReplaceChar(s, from, to) == s
  {
    var r := ReplaceChar(s, from, to);
    forall i | 0 <= i < |s| ensures r[i] == s[i] {
      assert s[i] in s;
    }
  }

  /** What step 1 keeps: printable characters and whitespace. */
  predicate Shown(c: char) {
    IsPrintable(c) || IsSpace(c)
  }

  /** Steps 1 to 7: drop invisible characters, unify line breaks, cap blank
      lines, collapse spaces, strip every line, turn tabs into spaces, trim. */
  function Normalized(text: string): (r: string)
    ensures '\r' !in r && '\t' !in r
    ensures r == [] || (!IsSpace(r[0]) && !IsSpace(r[|r| - 1]))
    ensures forall c :: c in r ==> Shown(c)
  {
    var visible := Filter(text, Shown);
    StepsFacts(visible);
    Steps(visible)
  }

  /** Steps 2 to 7, applied to the visible characters. */
  function Steps(visible: string): string {
    Strip(ReplaceChar(StripLines(CollapseSpaces(CapBlankLines(NormalizeLineBreaks(visible)))), '\t', ' '))
  }

  lemma StepsFacts(visible: string)
    requires forall c :: c in visible ==> Shown(c)
    ensures var r := Steps(visible);
      && '\r' !in r && '\t' !in r
      && (r == [] || (!IsSpace(r[0]) && !IsSpace(r[|r| - 1])))
      && forall c :: c in r ==> Shown(c)
  {
    EarlySteps(visible);
    LateSteps(CollapseSpaces(CapBlankLines(NormalizeLineBreaks(visible))));
  }

  /** Steps 2 to 4 remove every '\r' and bring in only '\n'. */
  lemma EarlySteps(visible: string)
    requires forall c :: c in visible ==> Shown(c)
    ensures var single := CollapseSpaces(CapBlankLines(NormalizeLineBreaks(visible)));
      '\r' !in single && forall c :: c in single ==> Shown(c)
  {
  }

  /** Steps 5 to 7 remove every '\t', bring in only '\n' and ' ', and leave
      no whitespace at either end. */
  lemma LateSteps(single: string)
    requires '\r' !in single && forall c :: c in single ==> Shown(c)
    ensures var r := Strip(ReplaceChar(StripLines(single), '\t', ' '));
      && '\r' !in r && '\t' !in r
      && (r == [] || (!IsSpace(r[0]) && !IsSpace(r[|r| - 1])))
      && forall c :: c in r ==> Shown(c)
  {
    var lined := StripLines(single);
    var u := ReplaceChar(lined, '\t', ' ');
    forall c | c in lined ensures c != '\r' && Shown(c) {
      StripLinesChars(single, c);
    }
    forall i | 0 <= i < |u| ensures u[i] != '\r' && u[i] != '\t' && Shown(u[i]) {
      if lined[i] != '\t' {
        assert lined[i] in lined;
      }
    }
    StripWithout(u);
  }

  /** The final trim keeps what steps 1 to 6 ensured and trims both ends. */
  lemma StripWithout(u: string)
    requires '\r' !in u && '\t' !in u
    requires forall c :: c in u ==> Shown(c)
    ensures var r := Strip(u);
      && '\r' !in r && '\t' !in r
      && (r == [] || (!IsSpace(r[0]) && !IsSpace(r[|r| - 1])))
      && forall c :: c in r ==> Shown(c)
  {
  }

  /** A single line of visible characters, without '\r', '\t' or two spaces
      in a row and without whitespace at its ends, is already normal. */
  lemma NormalizedFixed(t: string)
    requires forall i :: 0 <= i < |t| ==> Shown(t[i])
    requires '\r' !in t && '\n' !in t && '\t' !in t && NoDoubleSpace(t)
    requires t != [] && !IsSpace(t[0]) && !IsSpace(t[|t| - 1])
    ensures Normalized(t) == t
  {
    FilterKeepsAll(t, Shown);
    NormalizeLineBreaksFixed(t);
    CapBlankLinesFixed(t);
    CollapseSpacesFixed(t);
    StripLinesFixed(t);
    ReplaceCharFixed(t, '\t', ' ');
  }

  /** Whitespace other than '\n', '\r', '\t' and ' ' passes every step:
      a vertical tab inside a line is kept, although `isprintable` rejects
      it. */
  lemma VerticalTabKept()
    ensures Normalized("a\U{b}b") == "a\U{b}b"
  {
    NormalizedFixed("a\U{b}b");
  }

  /** `clean_input_text`: the normalised text, cut to `maxLength` characters
      with "..." appended when it is longer. */
  function CleanInput(text: string, maxLength: nat): (r: string)
    ensures text == [] ==> r == []
    ensures '\r' !in r && '\t' !in r
    ensures |r| <= maxLength + 3
    ensures |Normalized(text)| > maxLength ==> r == Normalized(text)[..maxLength] + "..."
    ensures |Normalized(text)| <= maxLength ==> r == Normalized(text)
    ensures forall c :: c in r ==> Shown(c)
  {
    if text == [] then []
    else
      var t := Normalized(text);
      if |t| > maxLength then Cut(t, maxLength); t[..maxLength] + "..." else t
  }

  /** The cut keeps the facts the normalised text has: "..." is visible. */
  lemma Cut(t: string, n: nat)
    requires '\r' !in t && '\t' !in t && n < |t|
    requires forall c :: c in t ==> Shown(c)
    ensures var r := t[..n] + "..."; '\r' !in r && '\t' !in r && forall c :: c in r ==> Shown(c)
  {
    var r := t[..n] + "...";
    forall i | 0 <= i < |r| ensures r[i] != '\r' && r[i] != '\t' && Shown(r[i]) {
      if i < n {
        assert r[i] == t[i];
        assert t[i] in t;
      }
    }
  }
}
