/** `_clean_text`, the cleaner applied to the text extracted from a PDF:
    Unicode compatibility decomposition and removal of non-ASCII characters,
    then a line filter that drops blank lines and bare page numbers, and a
    whitespace collapse over the surviving lines. The decomposition itself
    is a parameter of the model. */
module PdfText {
  import opened Chars
  import opened Strings
  import opened Substitutions

  /** The line boundaries of `str.splitlines()`. */
  predicate IsLineBoundary(c: char) {
    c == '\n' || c == '\r' || c == '\U{b}' || c == '\U{c}'
    || ('\U{1c}' <= c <= '\U{1e}') || c == '\U{85}' || c == '\U{2028}' || c == '\U{2029}'
  }

  /** Number of leading characters that are not line boundaries. */
  function LineRun(s: string): (n: nat)
    ensures n <= |s|
    ensures forall i :: 0 <= i < n ==> !IsLineBoundary(s[i])
    ensures n < |s| ==> IsLineBoundary(s[n])
  {
    if s == [] || IsLineBoundary(s[0]) then 0 else 1 + LineRun(s[1..])
  }

  /** `str.splitlines()`: pieces between boundaries, "\r\n" counting as one
      boundary, and no empty piece after a final boundary. */
  function SplitLines(s: string): (r: seq<string>)
    ensures s == [] <==> r == []
    ensures forall k, i :: 0 <= k < |r| && 0 <= i < |r[k]| ==> !IsLineBoundary(r[k][i])
    decreases |s|
  {
    if s == [] then []
    else
      var n := LineRun(s);
      if n == |s| then [s]
      else
        var width := if s[n] == '\r' && n + 1 < |s| && s[n + 1] == '\n' then 2 else 1;
        [s[..n]] + SplitLines(s[n + width..])
  }

  /** Every character of a line comes from the split text. */
  lemma {:induction false} SplitLinesChars(s: string, k: nat, c: char)
    requires k < |SplitLines(s)| && c in SplitLines(s)[k]
    ensures c in s
    decreases |s|
  {
    var n := LineRun(s);
    if n < |s| {
      var width := if s[n] == '\r' && n + 1 < |s| && s[n + 1] == '\n' then 2 else 1;
      var rest := s[n + width..];
      assert SplitLines(s) == [s[..n]] + SplitLines(rest);
      if k > 0 {
        assert SplitLines(s)[k] == SplitLines(rest)[k - 1];
        SplitLinesChars(rest, k - 1, c);
      }
    }
  }

  /** The page-number pattern `^\s*\d+\s*$` matched against a line. */
  predicate IsPageNumber(line: string) {
    var t := line[SpaceRun(line)..];
    var d := DigitRun(t);
    d >= 1 && AllSpace(t[d..])
  }

  predicate AllDigits(t: string) {
    t != [] && forall i :: 0 <= i < |t| ==> IsDigit(t[i])
  }

  /** On a stripped line the page-number pattern matches exactly the lines
      made of digits alone. */
  lemma PageNumberDigits(t: string)
    requires t == [] || (!IsSpace(t[0]) && !IsSpace(t[|t| - 1]))
    ensures IsPageNumber(t) <==> AllDigits(t)
  {
    if t != [] {
      assert SpaceRun(t) == 0 && t[0..] == t;
      var d := DigitRun(t);
      if d < |t| {
        assert t[d..][|t| - 1 - d] == t[|t| - 1];
      }
      if AllDigits(t) {
        assert d == |t| && t[d..] == [];
      }
    }
  }

  /** What one line contributes: its stripped text, unless that is empty or
      a page number. */
  function Kept(line: string): (r: seq<string>)
    ensures r == [] <==> AllSpace(line) || AllDigits(Strip(line))
    ensures r != [] ==> r == [Strip(line)]
  {
    var t := Strip(line);
    PageNumberDigits(t);
    if t == [] || IsPageNumber(t) then [] else [t]
  }

  /** The `lines` list after the loop has seen every line. */
  function KeptLines(lines: seq<string>): (r: seq<string>)
    ensures |r| <= |lines|
  {
    if lines == [] then []
    else KeptLines(lines[..|lines| - 1]) + Kept(lines[|lines| - 1])
  }

  /** The filter works line by line, so it keeps the order of the lines. */
  lemma {:induction false} KeptLinesAppend(a: seq<string>, b: seq<string>)
    ensures KeptLines(a + b) == KeptLines(a) + KeptLines(b)
    decreases |b|
  {
    if b == [] {
      assert a + b == a;
    } else {
      var init := b[..|b| - 1];
      var last := b[|b| - 1];
      assert (a + b)[..|a + b| - 1] == a + init;
      assert (a + b)[|a + b| - 1] == last;
      KeptLinesAppend(a, init);
      AppendAssoc(KeptLines(a), KeptLines(init), Kept(last));
    }
  }

  /** Each line is kept or dropped on its own: the result is what the lines
      before it give, then its own contribution, then what the lines after
      it give. */
  lemma KeptAround(lines: seq<string>, j: nat)
    requires j < |lines|
    ensures KeptLines(lines) == KeptLines(lines[..j]) + Kept(lines[j]) + KeptLines(lines[j + 1..])
  {
    var pre, line, post := lines[..j], lines[j], lines[j + 1..];
    SplitAt(lines, j);
    KeptLinesAppend(pre, [line] + post);
    KeptLinesAppend([line], post);
    KeptSingle(line);
    AppendAssoc(KeptLines(pre), Kept(line), KeptLines(post));
  }

  lemma SplitAt<T>(s: seq<T>, j: nat)
    requires j < |s|
    ensures s == s[..j] + ([s[j]] + s[j + 1..])
  {
  }

  lemma KeptSingle(line: string)
    ensures KeptLines([line]) == Kept(line)
  {
    assert [line][..0] == [];
  }

  /** Every character of a kept line comes from one of the lines. */
  lemma {:induction false} KeptLinesChars(lines: seq<string>, k: nat, c: char)
    requires k < |KeptLines(lines)| && c in KeptLines(lines)[k]
    ensures exists j :: 0 <= j < |lines| && c in lines[j]
    decreases |lines|
  {
    var init := lines[..|lines| - 1];
    var last := lines[|lines| - 1];
    if k < |KeptLines(init)| {
      assert KeptLines(lines)[k] == KeptLines(init)[k];
      KeptLinesChars(init, k, c);
      var j :| 0 <= j < |init| && c in init[j];
      assert lines[j] == init[j];
    } else {
      assert KeptLines(lines)[k] == Strip(last);
    }
  }

  /** The words of a sequence of lines, line after line. */
  function LineWords(lines: seq<string>): seq<string> {
    if lines == [] then [] else Words(lines[0]) + LineWords(lines[1..])
  }

  /** Joining lines with spaces keeps the words of every line, in order. */
  lemma {:induction false} WordsOfJoinedLines(lines: seq<string>)
    ensures Words(Join(" ", lines)) == LineWords(lines)
  {
    if lines == [] {
      assert Words([]) == [];
    } else if |lines| == 1 {
      assert lines[1..] == [];
      assert LineWords(lines) == Words(lines[0]) + [];
    } else {
      var rest := Join(" ", lines[1..]);
      assert Join(" ", lines) == lines[0] + (" " + rest);
      WordsAppend(lines[0], " " + rest);
      assert (" " + rest)[1..] == rest;
      WordsSkipSpace(" " + rest);
      WordsOfJoinedLines(lines[1..]);
    }
  }

  /** Every character outside the code points below 128 is dropped
      (encoding to ASCII with errors ignored, then decoding). */
  function AsciiOnly(s: string): (r: string)
    ensures forall i :: 0 <= i < |r| ==> IsAscii(r[i])
    ensures forall c :: c in r <==> c in s && IsAscii(c)
    ensures (forall i :: 0 <= i < |s| ==> IsAscii(s[i])) ==> r == s
  {
    var r := Filter(s, IsAscii);
    assert forall i :: 0 <= i < |r| ==> IsAscii(r[i]) by {
      forall i | 0 <= i < |r| ensures IsAscii(r[i]) {
        assert r[i] in r;
      }
    }
    if forall i :: 0 <= i < |s| ==> IsAscii(s[i]) then FilterKeepsAll(s, IsAscii); r else r
  }

  /** The ASCII filter works character by character, so the characters it
      keeps stay in their order. */
  lemma AsciiOnlyAppend(a: string, b: string)
    ensures AsciiOnly(a + b) == AsciiOnly(a) + AsciiOnly(b)
  {
    FilterAppend(a, b, IsAscii);
  }

  /** One character is kept exactly when it is ASCII. */
  lemma AsciiOnlyChar(c: char)
    ensures AsciiOnly([c]) == if IsAscii(c) then [c] else []
  {
    assert [c][1..] == [];
  }

  /** `_clean_text` from the ASCII text onward: split into lines, keep the
      stripped lines that are neither blank nor page numbers, join them with
      spaces, turn every whitespace run into one space and strip. */
  function Cleaned(ascii: string): string {
    Strip(CollapseWhitespace(Join(" ", KeptLines(SplitLines(ascii)))))
  }

  /** The output has no whitespace at either end, and its only whitespace is
      single spaces, so it holds no line break. */
  lemma CleanedSpacing(ascii: string)
    ensures Trimmed(Cleaned(ascii)) && SingleSpaced(Cleaned(ascii))
  {
    StripKeepsSpacing(CollapseWhitespace(Join(" ", KeptLines(SplitLines(ascii)))));
  }

  /** The output is exactly the words of the surviving lines, in their
      original order, separated by single spaces. */
  lemma CleanedIsWords(ascii: string)
    ensures Cleaned(ascii) == Join(" ", LineWords(KeptLines(SplitLines(ascii))))
  {
    var kept := KeptLines(SplitLines(ascii));
    var j := Join(" ", kept);
    var x := CollapseWhitespace(j);
    WordsStrip(x);
    WordsCollapse(j);
    WordsOfJoinedLines(kept);
    CleanedSpacing(ascii);
    JoinOfWords(Cleaned(ascii));
  }

  /** Every character of the output is a space or a character of the text. */
  lemma CleanedChars(ascii: string, c: char)
    requires c in Cleaned(ascii)
    ensures c in ascii || c == ' '
  {
    var lines := SplitLines(ascii);
    var kept := KeptLines(lines);
    var j := Join(" ", kept);
    if c != ' ' {
      assert c in j;
      JoinChars(" ", kept, c);
      var k :| 0 <= k < |kept| && c in kept[k];
      KeptLinesChars(lines, k, c);
      var m :| 0 <= m < |lines| && c in lines[m];
      SplitLinesChars(ascii, m, c);
    }
  }

  /** The output of an ASCII text is ASCII. */
  lemma CleanedAscii(ascii: string)
    requires forall i :: 0 <= i < |ascii| ==> IsAscii(ascii[i])
    ensures forall i :: 0 <= i < |Cleaned(ascii)| ==> IsAscii(Cleaned(ascii)[i])
  {
    var r := Cleaned(ascii);
    forall i | 0 <= i < |r|
      ensures IsAscii(r[i])
    {
      CleanedChars(ascii, r[i]);
      if r[i] != ' ' {
        var p :| 0 <= p < |ascii| && ascii[p] == r[i];
      }
    }
  }

  /** One more line seen by the loop adds that line's contribution. */
  lemma KeptNext(lines: seq<string>, i: nat)
    requires i < |lines|
    ensures KeptLines(lines[..i + 1]) == KeptLines(lines[..i]) + Kept(lines[i])
  {
    assert lines[..i + 1][..i] == lines[..i];
  }

  /** `_clean_text`. `normalize` stands for the NFKD normalisation. */
  method CleanText(raw: string, normalize: string -> string) returns (r: string)
    ensures r == Cleaned(AsciiOnly(normalize(raw)))
    ensures r == Join(" ", LineWords(KeptLines(SplitLines(AsciiOnly(normalize(raw))))))
    ensures forall i :: 0 <= i < |r| ==> IsAscii(r[i])
  {
    var asciiText := AsciiOnly(normalize(raw));
    var lines := SplitLines(asciiText);
    var kept: seq<string> := [];
    for i := 0 to |lines|
      invariant kept == KeptLines(lines[..i])
    {
      KeptNext(lines, i);
      var stripped := Strip(lines[i]);
      if stripped == [] {
        continue;
      }
      if IsPageNumber(stripped) {
        continue;
      }
      kept := kept + [stripped];
    }
    assert lines[..|lines|] == lines;
    var collapsed := Join(" ", kept);
    r := Strip(CollapseWhitespace(collapsed));
    CleanedIsWords(asciiText);
    CleanedAscii(asciiText);
  }
}
