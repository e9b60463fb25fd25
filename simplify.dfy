/** The simplification pipeline: `clean_output_text`, which turns a model
    reply into at most ten "- " bullets of at most twelve words, and
    `simplify_text`, which sends the cleaned input to Gemini through
    `respond` and accepts the cleaned reply only when it looks like a
    bullet list. */
module Simplify {
  import opened Chars
  import opened Strings
  import opened Optional
  import opened Substitutions
  import opened Normalizer
  import opened Envelope

  /** At most this many bullets are kept. */
  const MaxPoints: nat := 10
  /** A longer bullet is cut to this many words. */
  const MaxWords: nat := 12
  /** `simplify_text` wants at least this many characters... */
  const MinLength: nat := 10
  /** ...and at least this many occurrences of "- ". */
  const MinBullets: nat := 5

  predicate PrintableOrNewline(c: char) {
    IsPrintable(c) || c == '\n'
  }

  predicate PrintableLine(s: string) {
    forall i :: 0 <= i < |s| ==> IsPrintable(s[i])
  }

  /** A canonical bullet: "- ", then text that begins and ends with a
      non-whitespace character; every character printable. */
  predicate IsBullet(line: string) {
    |line| >= 3 && line[0] == '-' && line[1] == ' ' && !IsSpace(line[2]) && !IsSpace(line[|line| - 1])
    && PrintableLine(line)
  }

  /** Steps 1 to 3: fences, markdown and non-printable characters removed. */
  function Visible(text: string): (r: string)
    ensures forall c :: c in r ==> PrintableOrNewline(c)
  {
    Filter(StripMarkdown(RemoveFences(RemoveTaggedFences(text))), PrintableOrNewline)
  }

  predicate PrintableLines(lines: seq<string>) {
    forall j :: 0 <= j < |lines| ==> PrintableLine(lines[j])
  }

  /** The lines of the visible text are printable. */
  lemma VisibleLines(text: string)
    ensures PrintableLines(Split(Visible(text), '\n'))
  {
    var v := Visible(text);
    var pieces := Split(v, '\n');
    forall k, i | 0 <= k < |pieces| && 0 <= i < |pieces[k]|
      ensures IsPrintable(pieces[k][i])
    {
      SplitChars(v, '\n', k, pieces[k][i]);
    }
  }

  /** The non-blank lines, stripped, in input order. */
  function NonBlank(lines: seq<string>): (r: seq<string>)
    ensures |r| <= |lines|
    ensures forall k :: 0 <= k < |r| ==> r[k] != [] && !IsSpace(r[k][0]) && !IsSpace(r[k][|r[k]| - 1])
  {
    if lines == [] then []
    else
      var before := NonBlank(lines[..|lines| - 1]);
      var line := Strip(lines[|lines| - 1]);
      if line == [] then before else before + [line]
  }

  /** Non-blank lines are taken in input order: the filter distributes over
      concatenation. */
  lemma {:induction false} NonBlankAppend(a: seq<string>, b: seq<string>)
    ensures NonBlank(a + b) == NonBlank(a) + NonBlank(b)
  {
    if b == [] {
      assert a + b == a;
    } else {
      var init := b[..|b| - 1];
      assert (a + b)[..|a + b| - 1] == a + init;
      assert (a + b)[|a + b| - 1] == b[|b| - 1];
      NonBlankAppend(a, init);
    }
  }

  /** Stripping keeps a printable line printable. */
  lemma {:induction false} NonBlankPrintable(lines: seq<string>, k: nat)
    requires PrintableLines(lines) && k < |NonBlank(lines)|
    ensures PrintableLine(NonBlank(lines)[k])
  {
    var init := lines[..|lines| - 1];
    var last := lines[|lines| - 1];
    var line := Strip(last);
    if k < |NonBlank(init)| {
      assert PrintableLines(init) by {
        forall j | 0 <= j < |init| ensures PrintableLine(init[j]) {
          assert init[j] == lines[j];
        }
      }
      NonBlankPrintable(init, k);
    } else {
      assert NonBlank(lines)[k] == line;
      assert PrintableLine(last);
      forall i | 0 <= i < |line| ensures IsPrintable(line[i]) {
        assert line[i] in last;
      }
    }
  }

  predicate IsMarker(c: char) {
    c == '-' || c == '\U{2022}' || c == '*'
  }

  /** How much of a stripped, non-blank line step 4 replaces with "- ": a
      leading `-`, `•` or `*` with the whitespace after it, or a number
      followed by `.` or `)` and whitespace; nothing otherwise. A line that
      already starts with "- " is caught by the first rule. */
  function MarkerLength(line: string): (m: nat)
    requires line != [] && !IsSpace(line[0]) && !IsSpace(line[|line| - 1])
    ensures m < |line| && !IsSpace(line[m])
  {
    if |line| >= 2 && IsMarker(line[0]) && IsSpace(line[1]) then
      var n := SpaceRun(line[1..]);
      assert line[1..][|line| - 2] == line[|line| - 1];
      1 + n
    else
      var d := DigitRun(line);
      if 1 <= d && d + 1 < |line| && (line[d] == '.' || line[d] == ')') && IsSpace(line[d + 1]) then
        var n := SpaceRun(line[d + 1..]);
        assert line[d + 1..][|line| - d - 2] == line[|line| - 1];
        d + 1 + n
      else 0
  }

  /** Step 4 for one stripped, non-blank line: its marker, if any, becomes
      "- "; a line without one gets "- " in front. */
  function Canonical(line: string): (r: string)
    requires line != [] && !IsSpace(line[0]) && !IsSpace(line[|line| - 1])
    ensures |r| >= 3 && r[0] == '-' && r[1] == ' ' && !IsSpace(r[2]) && !IsSpace(r[|r| - 1])
  {
    "- " + line[MarkerLength(line)..]
  }

  /** A bullet marker followed by a space becomes "- ". */
  lemma CanonicalMarker(w: string, marker: char)
    requires w != [] && !IsSpace(w[0]) && !IsSpace(w[|w| - 1])
    requires IsMarker(marker)
    ensures Canonical([marker, ' '] + w) == "- " + w
  {
    var bulleted := [marker, ' '] + w;
    assert bulleted[1..] == " " + w;
    assert SpaceRun(" " + w) == 1 by {
      assert (" " + w)[1] == w[0];
    }
    assert bulleted[2..] == w;
  }

  /** A one-digit number followed by `.` or `)` and a space becomes "- ". */
  lemma CanonicalNumbered(w: string, digit: char, sep: char)
    requires w != [] && !IsSpace(w[0]) && !IsSpace(w[|w| - 1])
    requires IsDigit(digit) && (sep == '.' || sep == ')')
    ensures Canonical([digit, sep, ' '] + w) == "- " + w
  {
    var numbered := [digit, sep, ' '] + w;
    assert DigitRun(numbered) == 1 by {
      assert DigitRun(numbered[1..]) == 0;
    }
    assert numbered[2..] == " " + w;
    assert SpaceRun(" " + w) == 1 by {
      assert (" " + w)[1] == w[0];
    }
    assert numbered[3..] == w;
  }

  /** A line with no marker and no number in front gets "- " in front. */
  lemma CanonicalPlain(line: string)
    requires line != [] && !IsSpace(line[0]) && !IsSpace(line[|line| - 1])
    requires !IsMarker(line[0]) && !IsDigit(line[0])
    ensures Canonical(line) == "- " + line
  {
  }

  /** A printable line becomes a bullet. */
  lemma CanonicalIsBullet(line: string)
    requires line != [] && !IsSpace(line[0]) && !IsSpace(line[|line| - 1])
    requires PrintableLine(line)
    ensures IsBullet(Canonical(line))
  {
    var m := MarkerLength(line);
    var r := Canonical(line);
    forall i | 0 <= i < |r| ensures IsPrintable(r[i]) {
      if i >= 2 {
        assert r[i] == line[m + i - 2];
      }
    }
  }

  /** Step 4: the canonical bullet of every non-blank line, in order. */
  function BulletLines(raw: seq<string>): seq<string> {
    if raw == [] then []
    else
      var before := BulletLines(raw[..|raw| - 1]);
      var line := Strip(raw[|raw| - 1]);
      if line == [] then before else before + [Canonical(line)]
  }

  /** One bullet per non-blank line. */
  lemma {:induction false} BulletLinesLength(raw: seq<string>)
    ensures |BulletLines(raw)| == |NonBlank(raw)|
  {
    if raw != [] {
      BulletLinesLength(raw[..|raw| - 1]);
    }
  }

  /** Bullet line `k` is the `k`-th non-blank line made canonical. */
  lemma {:induction false} BulletLinesAt(raw: seq<string>, k: nat)
    requires k < |NonBlank(raw)|
    ensures k < |BulletLines(raw)| && BulletLines(raw)[k] == Canonical(NonBlank(raw)[k])
  {
    BulletLinesLength(raw);
    var init := raw[..|raw| - 1];
    var line := Strip(raw[|raw| - 1]);
    BulletLinesLength(init);
    if k < |NonBlank(init)| {
      BulletLinesAt(init, k);
      assert NonBlank(raw)[k] == NonBlank(init)[k];
      assert BulletLines(raw)[k] == BulletLines(init)[k];
    } else {
      assert NonBlank(raw) == NonBlank(init) + [line];
      assert BulletLines(raw) == BulletLines(init) + [Canonical(line)];
    }
  }

  lemma BulletLineIsBullet(raw: seq<string>, k: nat)
    requires PrintableLines(raw) && k < |BulletLines(raw)|
    ensures IsBullet(BulletLines(raw)[k])
  {
    BulletLinesLength(raw);
    BulletLinesAt(raw, k);
    NonBlankPrintable(raw, k);
    CanonicalIsBullet(NonBlank(raw)[k]);
  }

  /** Step 5: `[line for line in lines if line.startswith("- ")]`. */
  function DashLines(lines: seq<string>): (r: seq<string>)
    ensures |r| <= |lines|
    ensures forall k :: 0 <= k < |r| ==> StartsWith(r[k], "- ")
    ensures (forall k :: 0 <= k < |lines| ==> StartsWith(lines[k], "- ")) ==> r == lines
  {
    if lines == [] then []
    else (if StartsWith(lines[0], "- ") then [lines[0]] else []) + DashLines(lines[1..])
  }

  /** Step 5's cap: the first ten bullets. */
  function FirstPoints(bullets: seq<string>): (r: seq<string>)
    ensures |r| == Min(MaxPoints, |bullets|) && r == bullets[..|r|]
  {
    if |bullets| > MaxPoints then bullets[..MaxPoints] else bullets
  }

  /** `point[2:].strip()` with runs of spaces collapsed. */
  function Content(point: string): string {
    CollapseSpaces(Strip(if |point| >= 2 then point[2..] else []))
  }

  /** Step 6 for one bullet: its content, cut to its first twelve words when
      it has more. */
  function Body(point: string): string {
    var content := Content(point);
    var words := Words(content);
    if |words| > MaxWords then Join(" ", words[..MaxWords]) else content
  }

  /** What every kept body is: not empty, no whitespace at either end, at
      most twelve words, no two spaces in a row, every character printable. */
  predicate WellFormedBody(b: string) {
    && b != [] && !IsSpace(b[0]) && !IsSpace(b[|b| - 1])
    && |Words(b)| <= MaxWords
    && (forall i :: 0 <= i < |b| - 1 ==> !(b[i] == ' ' && b[i + 1] == ' '))
    && PrintableLine(b)
  }

  /** The content of a bullet is not empty, printable, has no whitespace at
      either end and no two spaces in a row. */
  lemma ContentShape(point: string)
    requires IsBullet(point)
    ensures var c := Content(point);
      && c != [] && !IsSpace(c[0]) && !IsSpace(c[|c| - 1])
      && (forall i :: 0 <= i < |c| - 1 ==> !(c[i] == ' ' && c[i + 1] == ' '))
      && PrintableLine(c)
  {
    var tail := point[2..];
    assert tail[0] == point[2];
    var stripped := Strip(tail);
    var c := Content(point);
    assert c == CollapseSpaces(stripped);
    forall i | 0 <= i < |c| ensures IsPrintable(c[i]) {
      assert c[i] in stripped;
      assert c[i] in tail;
    }
  }

  /** The first `n` words of a printable text, joined by single spaces. */
  lemma TruncatedShape(s: string, n: nat)
    requires PrintableLine(s) && 1 <= n <= MaxWords && n <= |Words(s)|
    ensures var j := Join(" ", Words(s)[..n]);
      WellFormedBody(j) && Words(j) == Words(s)[..n]
  {
    var kept := Words(s)[..n];
    var j := Join(" ", kept);
    WordsOfJoin(kept);
    JoinWordsSingleSpaced(kept);
    JoinEnds(" ", kept);
    forall i | 0 <= i < |j| ensures IsPrintable(j[i]) {
      var c := j[i];
      JoinChars(" ", kept, c);
      if c != ' ' {
        var k :| 0 <= k < |kept| && c in kept[k];
        WordsChars(s, k, c);
      }
    }
  }

  /** The body of a bullet is well formed; a body of more than twelve words
      is exactly its first twelve, a shorter one is the whole content. */
  lemma BodyShape(point: string)
    requires IsBullet(point)
    ensures WellFormedBody(Body(point))
    ensures |Words(Content(point))| > MaxWords ==> Words(Body(point)) == Words(Content(point))[..MaxWords]
    ensures |Words(Content(point))| <= MaxWords ==> Body(point) == Content(point)
  {
    ContentShape(point);
    var content := Content(point);
    if |Words(content)| > MaxWords {
      TruncatedShape(content, MaxWords);
    }
  }

  /** "- " before a well-formed body is a bullet. */
  lemma BulletOfBody(b: string)
    requires WellFormedBody(b)
    ensures IsBullet("- " + b) && ("- " + b)[2..] == b
  {
    var p := "- " + b;
    forall i | 0 <= i < |p| ensures IsPrintable(p[i]) {
      if i >= 2 {
        assert p[i] == b[i - 2];
      }
    }
  }

  /** Step 6 over the list: the body of every bullet, in order. */
  function Bodies(points: seq<string>): (r: seq<string>)
    ensures |r| == |points|
  {
    if points == [] then [] else Bodies(points[..|points| - 1]) + [Body(points[|points| - 1])]
  }

  lemma {:induction false} BodiesAt(points: seq<string>, k: nat)
    requires k < |points|
    ensures Bodies(points)[k] == Body(points[k])
  {
    if k < |points| - 1 {
      BodiesAt(points[..|points| - 1], k);
    }
  }

  /** Lines 173-174: "- " before every body that is not empty. */
  function Bulleted(bodies: seq<string>): (r: seq<string>)
    ensures |r| <= |bodies|
  {
    if bodies == [] then []
    else
      var before := Bulleted(bodies[..|bodies| - 1]);
      var body := bodies[|bodies| - 1];
      if body == [] then before else before + ["- " + body]
  }

  /** When no body is empty, nothing is dropped. */
  lemma {:induction false} BulletedKeepsAll(bodies: seq<string>)
    requires forall k :: 0 <= k < |bodies| ==> bodies[k] != []
    ensures |Bulleted(bodies)| == |bodies|
    ensures forall k :: 0 <= k < |bodies| ==> Bulleted(bodies)[k] == "- " + bodies[k]
  {
    if bodies != [] {
      BulletedKeepsAll(bodies[..|bodies| - 1]);
    }
  }

  /** Steps 4 to 6 on the lines of the visible text. */
  function PointsOfLines(raw: seq<string>): (r: seq<string>)
    ensures |r| <= Min(MaxPoints, |NonBlank(raw)|)
  {
    BulletLinesLength(raw);
    Bulleted(Bodies(FirstPoints(DashLines(BulletLines(raw)))))
  }

  /** The bullets `clean_output_text` joins with newlines. */
  function Points(text: string): (r: seq<string>)
    ensures |r| <= Min(MaxPoints, |NonBlank(Split(Visible(text), '\n'))|)
  {
    PointsOfLines(Split(Visible(text), '\n'))
  }

  /** On printable lines every canonical line is a bullet, so step 5 keeps
      them all. */
  lemma CanonicalLinesKept(raw: seq<string>)
    requires PrintableLines(raw)
    ensures var lines := BulletLines(raw);
      && (forall k :: 0 <= k < |lines| ==> IsBullet(lines[k]))
      && DashLines(lines) == lines
  {
    var lines := BulletLines(raw);
    forall k | 0 <= k < |lines| ensures IsBullet(lines[k]) {
      BulletLineIsBullet(raw, k);
    }
    forall k | 0 <= k < |lines| ensures StartsWith(lines[k], "- ") {
      assert lines[k][..2] == [lines[k][0], lines[k][1]];
    }
  }

  /** No bullet has an empty body. */
  lemma BodiesNonEmpty(points: seq<string>)
    requires forall k :: 0 <= k < |points| ==> IsBullet(points[k])
    ensures forall k :: 0 <= k < |points| ==> Bodies(points)[k] != []
  {
    forall k | 0 <= k < |points| ensures Bodies(points)[k] != [] {
      BodiesAt(points, k);
      BodyShape(points[k]);
    }
  }

  /** On printable lines step 5 keeps every canonical line and step 6
      drops no body. */
  lemma LinesKept(raw: seq<string>)
    requires PrintableLines(raw)
    ensures var taken := FirstPoints(BulletLines(raw)); var ps := PointsOfLines(raw);
      && |ps| == |taken| == Min(MaxPoints, |NonBlank(raw)|)
      && (forall k :: 0 <= k < |taken| ==> IsBullet(taken[k]))
      && forall k :: 0 <= k < |ps| ==> ps[k] == "- " + Bodies(taken)[k]
  {
    BulletLinesLength(raw);
    CanonicalLinesKept(raw);
    var taken := FirstPoints(BulletLines(raw));
    BodiesNonEmpty(taken);
    BulletedKeepsAll(Bodies(taken));
  }

  /** On printable lines, bullet `k` is the `k`-th canonical line cut to
      twelve words (and that line is the `k`-th non-blank line made
      canonical, by `BulletLinesAt`). */
  lemma LineAt(raw: seq<string>, k: nat)
    requires PrintableLines(raw) && k < |PointsOfLines(raw)|
    ensures k < |BulletLines(raw)| && PointsOfLines(raw)[k] == "- " + Body(BulletLines(raw)[k])
  {
    LinesKept(raw);
    BodiesAt(FirstPoints(BulletLines(raw)), k);
  }

  /** On printable lines, every bullet is a bullet with a well-formed body. */
  lemma LineWellFormed(raw: seq<string>, k: nat)
    requires PrintableLines(raw) && k < |PointsOfLines(raw)|
    ensures IsBullet(PointsOfLines(raw)[k]) && WellFormedBody(PointsOfLines(raw)[k][2..])
  {
    LinesKept(raw);
    var taken := FirstPoints(BulletLines(raw));
    BodiesAt(taken, k);
    BodyShape(taken[k]);
    BulletOfBody(Body(taken[k]));
  }

  /** The bullets are the non-blank lines of the visible text, in order,
      the first ten of them. */
  lemma PointsCount(text: string)
    ensures |Points(text)| == Min(MaxPoints, |NonBlank(Split(Visible(text), '\n'))|)
  {
    VisibleLines(text);
    LinesKept(Split(Visible(text), '\n'));
  }

  /** Bullet `k` is the `k`-th canonical line of the visible text cut to
      twelve words. */
  lemma PointAt(text: string, k: nat)
    requires k < |Points(text)|
    ensures var lines := BulletLines(Split(Visible(text), '\n'));
      k < |lines| && Points(text)[k] == "- " + Body(lines[k])
  {
    VisibleLines(text);
    LineAt(Split(Visible(text), '\n'), k);
  }

  /** Every bullet is "- " and a body of at most twelve words, printable,
      with no two spaces in a row and no whitespace at either end. */
  lemma PointWellFormed(text: string, k: nat)
    requires k < |Points(text)|
    ensures IsBullet(Points(text)[k]) && WellFormedBody(Points(text)[k][2..])
  {
    VisibleLines(text);
    LineWellFormed(Split(Visible(text), '\n'), k);
  }

  /** Joined bullets are already printable and trimmed, so steps 7 and 8
      leave them as they are. */
  lemma {:induction false} RenderIsClean(points: seq<string>)
    requires forall k :: 0 <= k < |points| ==> IsBullet(points[k])
    ensures var j := Join("\n", points);
      Filter(j, PrintableOrNewline) == j && Strip(j) == j
  {
    var j := Join("\n", points);
    forall i | 0 <= i < |j|
      ensures PrintableOrNewline(j[i])
    {
      JoinChars("\n", points, j[i]);
    }
    FilterKeepsAll(j, PrintableOrNewline);
    if points != [] {
      JoinEnds("\n", points);
    }
  }

  /** Steps 7 and 8 change nothing in the joined bullets. */
  lemma RenderedPoints(text: string)
    ensures var j := Join("\n", Points(text));
      Filter(j, PrintableOrNewline) == j && Strip(j) == j
  {
    var ps := Points(text);
    forall k | 0 <= k < |ps| ensures IsBullet(ps[k]) {
      PointWellFormed(text, k);
    }
    RenderIsClean(ps);
  }

  /** Every output line is a bullet: splitting the output at newlines gives
      the bullets back. */
  lemma OutputLines(text: string)
    requires Points(text) != []
    ensures Split(Join("\n", Points(text)), '\n') == Points(text)
  {
    var ps := Points(text);
    forall k | 0 <= k < |ps|
      ensures '\n' !in ps[k]
    {
      PointWellFormed(text, k);
    }
    SplitJoin(ps, '\n');
  }

  /** The loop of step 4. */
  method CanonicalizeLines(raw: seq<string>) returns (lines: seq<string>)
    ensures lines == BulletLines(raw)
  {
    lines := [];
    var i := 0;
    while i < |raw|
      invariant 0 <= i <= |raw|
      invariant lines == BulletLines(raw[..i])
    {
      assert raw[..i + 1][..i] == raw[..i];
      var line := Strip(raw[i]);
      if line != [] {
        lines := lines + [Canonical(line)];
      }
      i := i + 1;
    }
    assert raw[..i] == raw;
  }

  /** One more bullet seen by the loop of step 6 adds its body. */
  lemma BodiesNext(bullets: seq<string>, j: nat)
    requires j < |bullets|
    ensures var done := Bodies(bullets[..j + 1]);
      done[..|done| - 1] == Bodies(bullets[..j]) && done[|done| - 1] == Body(bullets[j])
  {
    assert bullets[..j + 1][..j] == bullets[..j];
  }

  /** The loop of step 6. */
  method CleanBullets(bullets: seq<string>) returns (cleaned: seq<string>)
    ensures cleaned == Bulleted(Bodies(bullets))
  {
    cleaned := [];
    var j := 0;
    while j < |bullets|
      invariant 0 <= j <= |bullets|
      invariant cleaned == Bulleted(Bodies(bullets[..j]))
    {
      var content := Content(bullets[j]);
      var words := Words(content);
      if |words| > MaxWords {
        content := Join(" ", words[..MaxWords]);
      }
      assert content == Body(bullets[j]);
      BodiesNext(bullets, j);
      if content != [] {
        cleaned := cleaned + ["- " + content];
      }
      j := j + 1;
    }
    assert bullets[..j] == bullets;
  }

  /** `clean_output_text`. */
  method CleanOutputText(text: string) returns (r: string)
    ensures text == [] ==> r == []
    ensures text != [] ==> r == Join("\n", Points(text))
  {
    if text == [] {
      return [];
    }
    var raw := Split(Visible(text), '\n');
    var lines := CanonicalizeLines(raw);
    var bullets := DashLines(lines);
    if |bullets| > MaxPoints {
      bullets := bullets[..MaxPoints];
    }
    var cleaned := CleanBullets(bullets);
    assert cleaned == Points(text);
    RenderedPoints(text);
    var result := Join("\n", cleaned);
    result := Filter(result, PrintableOrNewline);
    r := Strip(result);
  }

  datatype SimplifyError =
    | ApiKeyRequired                  // ValueError
    | TransportFailure(reply: Reply)
    | NoContent                       // "Gemini API returned no content."
    | TooShort                        // "Simplified text is too short or empty."
    | TooFewBullets(count: nat)       // "Invalid output format..."

  /** The checks of lines 296-302 on the cleaned output. */
  predicate Acceptable(output: string) {
    output != [] && |Strip(output)| >= MinLength && Count(output, "- ") >= MinBullets
  }

  /** What `simplify_text` makes of the reply to its request. */
  function Outcome(reply: Reply): (r: Result<string, SimplifyError>)
    ensures !reply.Delivered? ==> r == Err(TransportFailure(reply))
    ensures r.Ok? ==> r.value != [] && |Strip(r.value)| >= MinLength && Count(r.value, "- ") >= MinBullets
  {
    if !reply.Delivered? then Err(TransportFailure(reply))
    else
      var raw := ExtractText(reply.body);
      if raw == [] then Err(NoContent)
      else
        var output := Join("\n", Points(raw));
        if output == [] || |Strip(output)| < MinLength then Err(TooShort)
        else if Count(output, "- ") < MinBullets then Err(TooFewBullets(Count(output, "- ")))
        else Ok(output)
  }

  /** The cleaned input `simplify_text` sends, if it sends anything. */
  function RequestFor(text: string, apiKey: string): Option<string> {
    if apiKey == [] || AllSpace(text) || CleanInput(text, SimplifyMaxLength) == [] then None
    else Some(CleanInput(text, SimplifyMaxLength))
  }

  /** `simplify_text`. Returns the result and the cleaned input it sent. */
  method SimplifyText(text: string, apiKey: string, respond: string -> Reply)
    returns (r: Result<string, SimplifyError>, sent: Option<string>)
    ensures apiKey == [] ==> r == Err(ApiKeyRequired) && sent == None
    ensures apiKey != [] && AllSpace(text) ==> r == Ok([]) && sent == None
    ensures sent == RequestFor(text, apiKey)
    ensures sent.None? && apiKey != [] ==> r == Ok([])
    ensures sent.Some? ==> r == Outcome(respond(sent.value))
    ensures r.Ok? && r.value != [] ==> Acceptable(r.value)
  {
    if apiKey == [] {
      return Err(ApiKeyRequired), None;
    }
    if AllSpace(text) {
      return Ok([]), None;
    }
    var cleaned := CleanInput(text, SimplifyMaxLength);
    if cleaned == [] {
      return Ok([]), None;
    }
    sent := Some(cleaned);
    var reply := respond(cleaned);
    if !reply.Delivered? {
      return Err(TransportFailure(reply)), sent;
    }
    var raw := ExtractText(reply.body);
    if raw == [] {
      return Err(NoContent), sent;
    }
    var output := CleanOutputText(raw);
    if output == [] || |Strip(output)| < MinLength {
      return Err(TooShort), sent;
    }
    var count := Count(output, "- ");
    if count < MinBullets {
      return Err(TooFewBullets(count)), sent;
    }
    r := Ok(output);
  }

  predicate Letter(x: char) {
    x != '-' && x != '\n' && !IsSpace(x)
  }

  /** A bullet of one letter adds one to the count of "- ". */
  lemma CountBulletWord(c: char, t: string)
    requires c != '-'
    ensures Count("- " + [c] + " " + t, "- ") == 1 + Count(t, "- ")
  {
    var s := "- " + [c] + " " + t;
    var u := [c] + " " + t;
    var v := " " + t;
    assert s[..2] == "- " && s[2..] == u;
    assert Count(s, "- ") == 1 + Count(u, "- ");
    assert u[1..] == v;
    assert u[..2] != "- " by {
      assert u[..2][0] == c;
    }
    assert Count(u, "- ") == Count(v, "- ");
    if t != [] {
      assert v[1..] == t;
      assert v[..2] != "- " by {
        assert v[..2][0] == ' ';
      }
    }
    assert Count(v, "- ") == Count(t, "- ");
  }

  /** Five one-letter items written on one line. */
  function OneLine(a: char, b: char, c: char, d: char, e: char): string {
    "- " + [a] + " " + ("- " + [b] + " " + ("- " + [c] + " " + ("- " + [d] + " " + ("- " + [e]))))
  }

  lemma OneLineCount(a: char, b: char, c: char, d: char, e: char)
    requires a != '-' && b != '-' && c != '-' && d != '-'
    ensures Count(OneLine(a, b, c, d, e), "- ") >= MinBullets
  {
    var last := "- " + [e];
    assert last[..2] == "- " && last[2..] == [e];
    var s4 := "- " + [d] + " " + last;
    var s3 := "- " + [c] + " " + s4;
    var s2 := "- " + [b] + " " + s3;
    CountBulletWord(d, last);
    CountBulletWord(c, s4);
    CountBulletWord(b, s3);
    CountBulletWord(a, s2);
  }

  lemma OneLineShape(a: char, b: char, c: char, d: char, e: char)
    requires Letter(a) && Letter(b) && Letter(c) && Letter(d) && Letter(e)
    ensures var line := OneLine(a, b, c, d, e);
      Strip(line) == line && |line| >= MinLength && '\n' !in line
  {
    var line := OneLine(a, b, c, d, e);
    assert |line| == 19;
    assert line[0] == '-' && line[18] == e;
    assert !IsSpace('-');
    OneLineNoBreak(a, b, c, d, e);
  }

  lemma OneLineNoBreak(a: char, b: char, c: char, d: char, e: char)
    requires a != '\n' && b != '\n' && c != '\n' && d != '\n' && e != '\n'
    ensures '\n' !in OneLine(a, b, c, d, e)
  {
  }

  /** "- " is counted anywhere in the text, so a single line holding five
      one-letter items passes the bullet check. */
  lemma OneLinePassesBulletCount(a: char, b: char, c: char, d: char, e: char)
    requires Letter(a) && Letter(b) && Letter(c) && Letter(d) && Letter(e)
    ensures var line := "- " + [a] + " " + ("- " + [b] + " " + ("- " + [c] + " " + ("- " + [d] + " " + ("- " + [e]))));
      Acceptable(line) && Split(line, '\n') == [line]
  {
    var line := OneLine(a, b, c, d, e);
    OneLineCount(a, b, c, d, e);
    OneLineShape(a, b, c, d, e);
    SplitNoSep(line, '\n');
  }
}
