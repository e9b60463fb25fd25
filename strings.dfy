/** Python's `str` methods used by the cleaners, on `seq<char>`. */
module Strings {
  import opened Chars

  function Min(a: nat, b: nat): nat {
    if a <= b then a else b
  }

  /** Number of leading copies of `ch` (the greedy `ch+` / `ch*` of a regex). */
  function Run(s: string, ch: char): (n: nat)
    ensures n <= |s|
    ensures forall i :: 0 <= i < n ==> s[i] == ch
    ensures n < |s| ==> s[n] != ch
  {
    if s == [] || s[0] != ch then 0 else 1 + Run(s[1..], ch)
  }

  /** Number of leading characters other than `ch` (the greedy `[^ch]*`). */
  function RunNot(s: string, ch: char): (n: nat)
    ensures n <= |s|
    ensures forall i :: 0 <= i < n ==> s[i] != ch
    ensures n < |s| ==> s[n] == ch
  {
    if s == [] || s[0] == ch then 0 else 1 + RunNot(s[1..], ch)
  }

  /** Number of leading word characters (the greedy `\w+`). */
  function WordCharRun(s: string): (n: nat)
    ensures n <= |s|
    ensures forall i :: 0 <= i < n ==> IsWordChar(s[i])
    ensures n < |s| ==> !IsWordChar(s[n])
  {
    if s == [] || !IsWordChar(s[0]) then 0 else 1 + WordCharRun(s[1..])
  }

  /** Number of leading ASCII lower-case letters (the greedy `[a-z]*`). */
  function LowerRun(s: string): (n: nat)
    ensures n <= |s|
    ensures forall i :: 0 <= i < n ==> 'a' <= s[i] <= 'z'
  {
    if s == [] || !('a' <= s[0] <= 'z') then 0 else 1 + LowerRun(s[1..])
  }

  /** Number of leading ASCII digits (the greedy `\d+`). */
  function DigitRun(s: string): (n: nat)
    ensures n <= |s|
    ensures forall i :: 0 <= i < n ==> IsDigit(s[i])
    ensures n < |s| ==> !IsDigit(s[n])
  {
    if s == [] || !IsDigit(s[0]) then 0 else 1 + DigitRun(s[1..])
  }

  /** Number of leading whitespace characters (the greedy `\s*`). */
  function SpaceRun(s: string): (n: nat)
    ensures n <= |s|
    ensures forall i :: 0 <= i < n ==> IsSpace(s[i])
    ensures n < |s| ==> !IsSpace(s[n])
  {
    if s == [] || !IsSpace(s[0]) then 0 else 1 + SpaceRun(s[1..])
  }

  /** Number of leading non-whitespace characters. */
  function WordRun(s: string): (n: nat)
    ensures n <= |s|
    ensures forall i :: 0 <= i < n ==> !IsSpace(s[i])
    ensures n < |s| ==> IsSpace(s[n])
  {
    if s == [] || IsSpace(s[0]) then 0 else 1 + WordRun(s[1..])
  }

  predicate AllSpace(s: string) {
    forall i :: 0 <= i < |s| ==> IsSpace(s[i])
  }

  predicate StartsWith(s: string, prefix: string) {
    |prefix| <= |s| && s[..|prefix|] == prefix
  }

  function Repeat(ch: char, n: nat): (r: string)
    ensures |r| == n && forall i :: 0 <= i < n ==> r[i] == ch
  {
    if n == 0 then [] else [ch] + Repeat(ch, n - 1)
  }

  /** End of `s` once trailing whitespace is removed. */
  function TrimEnd(s: string): (e: nat)
    ensures e <= |s|
    ensures forall i :: e <= i < |s| ==> IsSpace(s[i])
    ensures e > 0 ==> !IsSpace(s[e - 1])
  {
    if s == [] || !IsSpace(s[|s| - 1]) then |s| else TrimEnd(s[..|s| - 1])
  }

  /** `str.strip()`: removes leading and trailing whitespace. */
  function Strip(s: string): (r: string)
    ensures |r| <= |s|
    ensures forall c :: c in r ==> c in s
    ensures r == [] <==> AllSpace(s)
    ensures r != [] ==> !IsSpace(r[0]) && !IsSpace(r[|r| - 1])
    ensures s != [] && !IsSpace(s[0]) && !IsSpace(s[|s| - 1]) ==> r == s
  {
    var lo := SpaceRun(s);
    if lo == |s| then [] else s[lo..TrimEnd(s)]
  }

  /** The characters of `s` that satisfy `keep`, in order. */
  function Filter(s: string, keep: char -> bool): (r: string)
    ensures |r| <= |s|
    ensures forall c :: c in r <==> c in s && keep(c)
  {
    if s == [] then [] else (if keep(s[0]) then [s[0]] else []) + Filter(s[1..], keep)
  }

  lemma {:induction false} FilterAppend(a: string, b: string, keep: char -> bool)
    ensures Filter(a + b, keep) == Filter(a, keep) + Filter(b, keep)
  {
    if a == [] {
      assert a + b == b;
    } else {
      assert (a + b)[1..] == a[1..] + b;
      FilterAppend(a[1..], b, keep);
    }
  }

  /** A filter that keeps every character is the identity. */
  lemma {:induction false} FilterKeepsAll(s: string, keep: char -> bool)
    requires forall i :: 0 <= i < |s| ==> keep(s[i])
    ensures Filter(s, keep) == s
  {
    if s != [] {
      FilterKeepsAll(s[1..], keep);
    }
  }

  /** A kept first and last character survive the filter at both ends. */
  lemma FilterEnds(s: string, keep: char -> bool)
    requires |s| >= 2 && keep(s[0]) && keep(s[|s| - 1])
    ensures var r := Filter(s, keep); |r| >= 2 && r[0] == s[0] && r[|r| - 1] == s[|s| - 1]
  {
    var n := |s|;
    assert s == s[..n - 1] + [s[n - 1]];
    FilterAppend(s[..n - 1], [s[n - 1]], keep);
    assert Filter([s[n - 1]], keep) == [s[n - 1]];
    assert s[..n - 1][0] == s[0];
  }

  /** `str.replace(from, to)` for single characters. */
  function ReplaceChar(s: string, from: char, to: char): (r: string)
    ensures |r| == |s|
    ensures forall i :: 0 <= i < |s| ==> r[i] == if s[i] == from then to else s[i]
  {
    if s == [] then [] else [if s[0] == from then to else s[0]] + ReplaceChar(s[1..], from, to)
  }

  /** `s.split(sep)` for a one-character separator: there is always one more
      piece than there are separators, and empty pieces are kept. */
  function Split(s: string, sep: char): (r: seq<string>)
    ensures |r| >= 1
    ensures forall k :: 0 <= k < |r| ==> sep !in r[k]
  {
    if s == [] then [[]]
    else
      var rest := Split(s[1..], sep);
      if s[0] == sep then [[]] + rest else [[s[0]] + rest[0]] + rest[1..]
  }

  /** Every character of a piece comes from the split string. */
  lemma {:induction false} SplitChars(s: string, sep: char, k: nat, c: char)
    requires k < |Split(s, sep)| && c in Split(s, sep)[k]
    ensures c in s
  {
    if s != [] {
      var rest := Split(s[1..], sep);
      if s[0] == sep {
        assert Split(s, sep)[k] == rest[k - 1];
        SplitChars(s[1..], sep, k - 1, c);
      } else if k == 0 {
        assert Split(s, sep)[0] == [s[0]] + rest[0];
        if c != s[0] {
          SplitChars(s[1..], sep, 0, c);
        }
      } else {
        assert Split(s, sep)[k] == rest[k];
        SplitChars(s[1..], sep, k, c);
      }
    }
  }

  /** `[p.strip() for p in parts]`. */
  function StripEach(parts: seq<string>): (r: seq<string>)
    ensures |r| == |parts| && forall k :: 0 <= k < |parts| ==> r[k] == Strip(parts[k])
  {
    if parts == [] then [] else [Strip(parts[0])] + StripEach(parts[1..])
  }

  /** `sep.join(parts)`. */
  function Join(sep: string, parts: seq<string>): string {
    if parts == [] then []
    else if |parts| == 1 then parts[0]
    else parts[0] + sep + Join(sep, parts[1..])
  }

  lemma {:induction false} JoinSplit(s: string, sep: char)
    ensures Join([sep], Split(s, sep)) == s
  {
    if s != [] {
      var rest := Split(s[1..], sep);
      JoinSplit(s[1..], sep);
      if s[0] == sep {
        assert Split(s, sep) == [[]] + rest;
        assert ([[]] + rest)[1..] == rest;
      } else {
        var r := Split(s, sep);
        assert r == [[s[0]] + rest[0]] + rest[1..];
        if |rest| == 1 {
          assert rest == [rest[0]];
        } else {
          assert r[1..] == rest[1..];
          assert Join([sep], rest) == rest[0] + [sep] + Join([sep], rest[1..]);
        }
      }
    }
  }

  /** Joining pieces that do not contain the separator, then splitting again,
      gives the pieces back. */
  lemma {:induction false} SplitJoin(parts: seq<string>, sep: char)
    requires parts != []
    requires forall k :: 0 <= k < |parts| ==> sep !in parts[k]
    ensures Split(Join([sep], parts), sep) == parts
  {
    if |parts| == 1 {
      SplitNoSep(parts[0], sep);
    } else {
      SplitJoin(parts[1..], sep);
      SplitAfter(parts[0], Join([sep], parts[1..]), sep);
      assert [parts[0]] + parts[1..] == parts;
    }
  }

  lemma {:induction false} SplitNoSep(s: string, sep: char)
    requires sep !in s
    ensures Split(s, sep) == [s]
  {
    if s != [] {
      SplitNoSep(s[1..], sep);
      assert [s[0]] + s[1..] == s;
    }
  }

  /** Splitting `a + [sep] + b` where `a` has no separator. */
  lemma {:induction false} SplitAfter(a: string, b: string, sep: char)
    requires sep !in a
    ensures Split(a + [sep] + b, sep) == [a] + Split(b, sep)
  {
    if a == [] {
      assert a + [sep] + b == [sep] + b;
      assert ([sep] + b)[1..] == b;
    } else {
      assert (a + [sep] + b)[1..] == a[1..] + [sep] + b;
      SplitAfter(a[1..], b, sep);
      assert [a[0]] + a[1..] == a;
    }
  }

  /** Every character of a join comes from a part or from the separator. */
  lemma {:induction false} JoinChars(sep: string, parts: seq<string>, c: char)
    requires c in Join(sep, parts)
    ensures c in sep || exists k :: 0 <= k < |parts| && c in parts[k]
  {
    if |parts| > 1 {
      var rest := Join(sep, parts[1..]);
      assert Join(sep, parts) == parts[0] + sep + rest;
      if c in rest {
        JoinChars(sep, parts[1..], c);
        if !(c in sep) {
          var k :| 0 <= k < |parts[1..]| && c in parts[1..][k];
          assert c in parts[k + 1];
        }
      } else if c in parts[0] {
        assert c in parts[0];
      }
    } else if |parts| == 1 {
      assert c in parts[0];
    }
  }

  /** A join of non-empty parts begins with the first part's first character
      and ends with the last part's last character. */
  lemma {:induction false} JoinEnds(sep: string, parts: seq<string>)
    requires parts != [] && forall k :: 0 <= k < |parts| ==> parts[k] != []
    ensures var j := Join(sep, parts); var last := parts[|parts| - 1];
      j != [] && j[0] == parts[0][0] && j[|j| - 1] == last[|last| - 1]
  {
    if |parts| > 1 {
      JoinEnds(sep, parts[1..]);
      assert parts[1..][|parts[1..]| - 1] == parts[|parts| - 1];
    }
  }

  /** Words joined by single spaces never hold two whitespace characters in
      a row. */
  lemma {:induction false} JoinWordsSingleSpaced(ws: seq<string>)
    requires forall k :: 0 <= k < |ws| ==> IsWord(ws[k])
    ensures var j := Join(" ", ws);
      forall i :: 0 <= i < |j| - 1 ==> !(IsSpace(j[i]) && IsSpace(j[i + 1]))
  {
    if |ws| > 1 {
      var w := ws[0];
      var rest := Join(" ", ws[1..]);
      var j := Join(" ", ws);
      assert j == w + " " + rest;
      JoinWordsSingleSpaced(ws[1..]);
      JoinEnds(" ", ws[1..]);
      forall i | 0 <= i < |j| - 1
        ensures !(IsSpace(j[i]) && IsSpace(j[i + 1]))
      {
        if i < |w| {
          assert j[i] == w[i];
        } else if i == |w| {
          assert j[i + 1] == rest[0];
        } else {
          assert j[i] == rest[i - |w| - 1] && j[i + 1] == rest[i - |w|];
        }
      }
    }
  }

  /** `s.split()`: the maximal runs of non-whitespace characters. */
  function Words(s: string): (r: seq<string>)
    ensures forall k :: 0 <= k < |r| ==> IsWord(r[k])
    decreases |s|
  {
    var t := s[SpaceRun(s)..];
    if t == [] then [] else [t[..WordRun(t)]] + Words(t[WordRun(t)..])
  }

  predicate IsWord(w: string) {
    w != [] && forall i :: 0 <= i < |w| ==> !IsSpace(w[i])
  }

  /** Joining words with single spaces and splitting again gives the words back. */
  lemma {:induction false} WordsOfJoin(ws: seq<string>)
    requires forall k :: 0 <= k < |ws| ==> IsWord(ws[k])
    ensures Words(Join(" ", ws)) == ws
  {
    if ws == [] {
      WordsOfSpace([]);
    } else if |ws| == 1 {
      WordsOfWord(ws[0]);
      SingletonSeq(ws);
    } else {
      var w := ws[0];
      var rest := Join(" ", ws[1..]);
      JoinCons(" ", w, ws[1..]);
      ConsHeadTail(ws);
      assert w + " " + rest == w + (" " + rest);
      WordsOfJoin(ws[1..]);
      assert rest[0] == ws[1][0];
      WordsAfterSpace(rest);
      WordsWordThenSpace(w, " " + rest);
    }
  }

  lemma ConsHeadTail<T>(s: seq<T>)
    requires s != []
    ensures [s[0]] + s[1..] == s
  {
  }

  lemma SingletonSeq<T>(s: seq<T>)
    requires |s| == 1
    ensures s == [s[0]]
  {
  }

  /** A word is its own only word. */
  lemma WordsOfWord(w: string)
    requires IsWord(w)
    ensures Words(w) == [w]
  {
    assert SpaceRun(w) == 0 && w[0..] == w;
    assert WordRun(w) == |w|;
    assert w[..|w|] == w && w[|w|..] == [];
    WordsOfSpace([]);
  }

  /** A word followed by whitespace is the first word. */
  lemma WordsWordThenSpace(w: string, t: string)
    requires IsWord(w) && t != [] && IsSpace(t[0])
    ensures Words(w + t) == [w] + Words(t)
  {
    var s := w + t;
    WordRunPrefix(w, t);
    assert s[0] == w[0];
    assert s[..|w|] == w && s[|w|..] == t;
    WordsFirst(s);
  }

  lemma WordRunPrefix(w: string, t: string)
    requires IsWord(w) && t != [] && IsSpace(t[0])
    ensures WordRun(w + t) == |w|
  {
    var s := w + t;
    assert s[|w|] == t[0];
    assert forall i :: 0 <= i < |w| ==> s[i] == w[i];
  }

  lemma WordsAfterSpace(rest: string)
    requires rest == [] || !IsSpace(rest[0])
    ensures Words(" " + rest) == Words(rest)
  {
    var s := " " + rest;
    assert IsSpace(s[0]);
    assert s[1..] == rest;
    assert rest != [] ==> s[1] == rest[0];
    assert SpaceRun(rest) == 0;
    assert rest[0..] == rest;
  }

  /** Every character of a word comes from the split string. */
  lemma {:induction false} WordsChars(s: string, k: nat, c: char)
    requires k < |Words(s)| && c in Words(s)[k]
    ensures c in s
    decreases |s|
  {
    var t := s[SpaceRun(s)..];
    var n := WordRun(t);
    ConsIndex(t[..n], Words(t[n..]), k);
    if k == 0 {
      assert c in t[..n];
    } else {
      WordsChars(t[n..], k - 1, c);
    }
  }

  lemma ConsIndex<T>(x: T, s: seq<T>, k: nat)
    requires k < |s| + 1
    ensures k == 0 ==> ([x] + s)[k] == x
    ensures k > 0 ==> ([x] + s)[k] == s[k - 1]
  {
  }

  /** Leading whitespace does not change the words. */
  lemma WordsSkipSpace(s: string)
    requires s != [] && IsSpace(s[0])
    ensures Words(s) == Words(s[1..])
  {
    assert SpaceRun(s) == 1 + SpaceRun(s[1..]);
    assert s[SpaceRun(s)..] == s[1..][SpaceRun(s[1..])..];
  }

  lemma {:induction false} WordsLeadingSpace(sp: string, b: string)
    requires AllSpace(sp)
    ensures Words(sp + b) == Words(b)
    decreases |sp|
  {
    if sp != [] {
      var s := sp + b;
      var t := sp[1..];
      assert s[0] == sp[0];
      assert s[1..] == t + b;
      assert AllSpace(t) by {
        forall i | 0 <= i < |t| ensures IsSpace(t[i]) {
          assert t[i] == sp[i + 1];
        }
      }
      WordsSkipSpace(s);
      WordsLeadingSpace(t, b);
    } else {
      assert sp + b == b;
    }
  }

  lemma WordsDropSpaceRun(s: string)
    ensures Words(s) == Words(s[SpaceRun(s)..])
  {
    var k := SpaceRun(s);
    var sp, rest := s[..k], s[k..];
    assert AllSpace(sp);
    assert s == sp + rest;
    WordsLeadingSpace(sp, rest);
  }

  /** Prefixing the same non-whitespace character to two texts with the same
      words, which begin alike, gives texts with the same words. */
  lemma WordsConsSame(c: char, x: string, y: string)
    requires !IsSpace(c)
    requires Words(x) == Words(y)
    requires x == [] <==> y == []
    requires x != [] && y != [] ==> (IsSpace(x[0]) <==> IsSpace(y[0]))
    ensures Words([c] + x) == Words([c] + y)
  {
    WordsCons(c, x);
    WordsCons(c, y);
  }

  lemma WordsOfSpace(s: string)
    requires AllSpace(s)
    ensures Words(s) == []
  {
    assert SpaceRun(s) == |s|;
  }

  /** The words of `[c] + y` for a non-whitespace `c`: `c` either forms a
      word of its own or is glued to the first word of `y`. */
  lemma WordsCons(c: char, y: string)
    requires !IsSpace(c)
    ensures y == [] || IsSpace(y[0]) ==> Words([c] + y) == [[c]] + Words(y)
    ensures y != [] && !IsSpace(y[0]) ==>
      Words(y) != [] && Words([c] + y) == [[c] + Words(y)[0]] + Words(y)[1..]
  {
    var s := [c] + y;
    var n := WordRun(y);
    ConsSlices(c, y, n);
    assert WordRun(s) == 1 + n;
    WordsFirst(s);
    if y != [] && !IsSpace(y[0]) {
      WordsFirst(y);
      ConsParts(y[..n], Words(y[n..]));
    }
  }

  lemma ConsSlices<T>(x: T, y: seq<T>, n: nat)
    requires n <= |y|
    ensures ([x] + y)[0] == x && ([x] + y)[1..] == y
    ensures ([x] + y)[..1 + n] == [x] + y[..n] && ([x] + y)[1 + n..] == y[n..]
  {
  }

  lemma ConsParts<T>(x: T, s: seq<T>)
    ensures ([x] + s)[0] == x && ([x] + s)[1..] == s
  {
  }

  /** Stated once so that the solver does not look into the elements. */
  lemma AppendAssoc<T>(a: seq<T>, b: seq<T>, c: seq<T>)
    ensures a + (b + c) == (a + b) + c
  {
  }

  lemma AppendHeadTail<T>(a: seq<T>, b: seq<T>)
    requires a != []
    ensures (a + b)[0] == a[0] && (a + b)[1..] == a[1..] + b
  {
  }

  /** The inductive step of `WordsAppend` for a leading non-whitespace
      character `c`, one lemma for each way `t` can begin. */
  lemma WordsAppendConsEnd(c: char, b: string)
    requires !IsSpace(c)
    requires b == [] || IsSpace(b[0])
    ensures Words([c] + b) == Words([c]) + Words(b)
  {
    WordsCons(c, b);
    WordsOfWord([c]);
  }

  lemma WordsAppendConsSpace(c: char, t: string, b: string)
    requires !IsSpace(c) && t != [] && IsSpace(t[0])
    requires Words(t + b) == Words(t) + Words(b)
    ensures Words([c] + (t + b)) == Words([c] + t) + Words(b)
  {
    var y := t + b;
    assert y[0] == t[0];
    WordsCons(c, y);
    WordsCons(c, t);
    AppendAssoc([[c]], Words(t), Words(b));
  }

  lemma WordsAppendConsWord(c: char, t: string, b: string)
    requires !IsSpace(c) && t != [] && !IsSpace(t[0])
    requires Words(t + b) == Words(t) + Words(b)
    ensures Words([c] + (t + b)) == Words([c] + t) + Words(b)
  {
    var y := t + b;
    assert y[0] == t[0];
    var W := Words(t);
    var B := Words(b);
    var head: seq<string>, tail: seq<string> := [[c] + W[0]], W[1..];
    assert Words([c] + t) == head + tail by {
      WordsCons(c, t);
    }
    assert Words([c] + y) == head + (tail + B) by {
      WordsCons(c, y);
      AppendHeadTail(W, B);
    }
    AppendAssoc(head, tail, B);
  }

  /** Words split at a whitespace boundary: `a + b` has the words of `a`
      followed by the words of `b`. */
  lemma {:induction false} WordsAppend(a: string, b: string)
    requires b == [] || IsSpace(b[0])
    ensures Words(a + b) == Words(a) + Words(b)
    decreases |a|
  {
    if a == [] {
      assert a + b == b;
    } else {
      var t := a[1..];
      assert (a + b)[1..] == t + b;
      assert a + b == [a[0]] + (t + b);
      assert a == [a[0]] + t;
      WordsAppend(t, b);
      if IsSpace(a[0]) {
        WordsSkipSpace(a + b);
        WordsSkipSpace(a);
      } else {
        if t == [] {
          assert a == [a[0]] && t + b == b;
          WordsAppendConsEnd(a[0], b);
        } else if IsSpace(t[0]) {
          WordsAppendConsSpace(a[0], t, b);
        } else {
          WordsAppendConsWord(a[0], t, b);
        }
      }
    }
  }

  /** `str.strip()` keeps the words. */
  lemma WordsStrip(s: string)
    ensures Words(Strip(s)) == Words(s)
  {
    if AllSpace(s) {
      WordsOfSpace(s);
    } else {
      var tail := s[TrimEnd(s)..];
      StripPieces(s);
      WordsDropSpaceRun(s);
      WordsAppend(Strip(s), tail);
      WordsOfSpace(tail);
      AppendNil(Words(Strip(s)));
    }
  }

  /** Without its leading whitespace, a text is its stripped form followed by
      its trailing whitespace. */
  lemma StripPieces(s: string)
    requires !AllSpace(s)
    ensures var tail := s[TrimEnd(s)..];
      && s[SpaceRun(s)..] == Strip(s) + tail
      && AllSpace(tail) && (tail == [] || IsSpace(tail[0]))
  {
    var lo, e := SpaceRun(s), TrimEnd(s);
    assert lo < e;
    assert s[lo..] == s[lo..e] + s[e..];
  }

  lemma AppendNil<T>(a: seq<T>)
    ensures a + [] == a
  {
  }

  /** Every whitespace character is a plain space and no two whitespace
      characters are adjacent. */
  predicate SingleSpaced(r: string) {
    && (forall i :: 0 <= i < |r| ==> IsSpace(r[i]) ==> r[i] == ' ')
    && (forall i :: 0 <= i < |r| - 1 ==> !(IsSpace(r[i]) && IsSpace(r[i + 1])))
  }

  /** No whitespace at either end. */
  predicate Trimmed(r: string) {
    r == [] || (!IsSpace(r[0]) && !IsSpace(r[|r| - 1]))
  }

  lemma SingleSpacedSuffix(r: string, m: nat)
    requires SingleSpaced(r) && m <= |r|
    ensures SingleSpaced(r[m..])
  {
    assert forall i :: 0 <= i < |r| - m ==> r[m..][i] == r[m + i];
  }

  /** Stripping a single-spaced text keeps it single-spaced. */
  lemma StripKeepsSpacing(x: string)
    requires SingleSpaced(x)
    ensures SingleSpaced(Strip(x)) && Trimmed(Strip(x))
  {
    var r := Strip(x);
    if r != [] {
      var lo := SpaceRun(x);
      assert r == x[lo..TrimEnd(x)];
      assert forall i :: 0 <= i < |r| ==> r[i] == x[lo + i];
    }
  }

  /** The words of a text that begins with a non-whitespace character: the
      leading run, then the words of what follows it. */
  lemma WordsFirst(r: string)
    requires r != [] && !IsSpace(r[0])
    ensures Words(r) == [r[..WordRun(r)]] + Words(r[WordRun(r)..])
  {
    assert SpaceRun(r) == 0 && r[0..] == r;
  }

  lemma JoinCons(sep: string, w: string, ws: seq<string>)
    requires ws != []
    ensures Join(sep, [w] + ws) == w + sep + Join(sep, ws)
  {
    AppendHeadTail([w], ws);
  }

  /** The words of a trimmed single-spaced text, joined by single spaces,
      give the text back. */
  lemma {:induction false} JoinOfWords(r: string)
    requires Trimmed(r) && SingleSpaced(r)
    ensures Join(" ", Words(r)) == r
    decreases |r|
  {
    if r != [] {
      WordsFirst(r);
      var n := WordRun(r);
      var first := r[..n];
      if n == |r| {
        assert first == r && r[n..] == [];
        assert Words(r[n..]) == [];
      } else {
        JoinOfWordsStep(r);
      }
    }
  }

  lemma {:induction false} JoinOfWordsStep(r: string)
    requires r != [] && Trimmed(r) && SingleSpaced(r)
    requires WordRun(r) < |r|
    ensures Join(" ", Words(r)) == r
    decreases |r|, 0
  {
    var n := WordRun(r);
    var first, rest := r[..n], r[n + 1..];
    SingleSpacedRest(r);
    WordsAtSpace(r, n);
    JoinOfWords(rest);
    WordsFirst(rest);
    JoinCons(" ", first, Words(rest));
    SplitAround(r, n);
  }

  lemma SplitAround(r: string, n: nat)
    requires n < |r| && r[n] == ' '
    ensures r == r[..n] + " " + r[n + 1..]
  {
  }

  /** After the first word of a trimmed single-spaced text come one space
      and a trimmed single-spaced text. */
  lemma SingleSpacedRest(r: string)
    requires r != [] && Trimmed(r) && SingleSpaced(r)
    requires WordRun(r) < |r|
    ensures var n := WordRun(r);
      r[n] == ' ' && n + 1 < |r| && Trimmed(r[n + 1..]) && SingleSpaced(r[n + 1..])
  {
    var n := WordRun(r);
    var rest := r[n + 1..];
    assert r[n] == ' ' && n + 1 < |r|;
    SingleSpacedSuffix(r, n + 1);
    assert rest[0] == r[n + 1] && rest[|rest| - 1] == r[|r| - 1];
  }

  /** The words of a text whose first word is followed by a space. */
  lemma WordsAtSpace(r: string, n: nat)
    requires 0 < n < |r| && r[n] == ' '
    requires forall i :: 0 <= i < n ==> !IsSpace(r[i])
    ensures Words(r) == [r[..n]] + Words(r[n + 1..])
  {
    var first, rest := r[..n], r[n + 1..];
    var tail := " " + rest;
    SplitAround(r, n);
    AppendAssoc(first, " ", rest);
    assert IsWord(first);
    WordsWordThenSpace(first, tail);
    SpaceThen(rest);
    WordsSkipSpace(tail);
  }

  lemma SpaceThen(rest: string)
    ensures (" " + rest)[0] == ' ' && (" " + rest)[1..] == rest
  {
  }

  /** `s.find(ch)`: the first index of `ch`, or -1. */
  function Find(s: string, ch: char): (i: int)
    ensures -1 <= i < |s|
    ensures i == -1 <==> ch !in s
    ensures i >= 0 ==> s[i] == ch && forall j :: 0 <= j < i ==> s[j] != ch
  {
    if s == [] then -1
    else if s[0] == ch then 0
    else var j := Find(s[1..], ch); if j == -1 then -1 else j + 1
  }

  /** `s.rfind(ch)`: the last index of `ch`, or -1. */
  function RFind(s: string, ch: char): (i: int)
    ensures -1 <= i < |s|
    ensures i == -1 <==> ch !in s
    ensures i >= 0 ==> s[i] == ch && forall j :: i < j < |s| ==> s[j] != ch
  {
    if s == [] then -1
    else if s[|s| - 1] == ch then |s| - 1
    else RFind(s[..|s| - 1], ch)
  }

  /** `s.count(pat)`: occurrences found left to right without overlapping. */
  function Count(s: string, pat: string): (n: nat)
    requires pat != []
    ensures n <= |s|
    decreases |s|
  {
    if |s| < |pat| then 0
    else if s[..|pat|] == pat then 1 + Count(s[|pat|..], pat)
    else Count(s[1..], pat)
  }
}
