/** The quiz pipeline's output sanitiser and JSON recovery engine
    (`clean_json_output`, `repair_json`, `extract_json_safely`).
    `json.loads` is not modelled: the recovery engine receives it as a partial
    function `parse`, and what it states is which candidate strings it hands
    to `parse`, in which order, and which result it keeps. */
module JsonRecovery {
  import opened Chars
  import opened Strings
  import opened Substitutions
  import opened Optional

  /** A decoded JSON value. Objects are maps: `json.loads` keeps the last of
      duplicated keys, and key order plays no part in this model. */
  datatype Json =
    | JNull
    | JBool(b: bool)
    | JNumber(x: real)
    | JString(str: string)
    | JArray(items: seq<Json>)
    | JObject(fields: map<string, Json>)

  datatype RecoveryError =
    | EmptyResponse               // "Empty response from LLM."
    | Unrecoverable(sample: string) // "Failed to parse JSON after all repair attempts"

  // ---------------------------------------------------------------------------
  // clean_json_output
  // ---------------------------------------------------------------------------

  /** Fence removal (both passes) followed by the markdown cleanup. */
  function JsonStripped(text: string): string {
    StripMarkdown(RemoveFencesAndSpace(RemoveJsonFences(text)))
  }

  /** The span from the first `{` to the last `}` when that `}` comes after
      the `{`. This is the slice of step 3 and also what
      `re.search(r'\{.*\}', t, re.DOTALL)` finds: the leftmost `{` that has a
      `}` after it is the first `{`, and the greedy `.*` backs off only to the
      last `}`. */
  function BraceSpan(t: string): (r: Option<string>)
    ensures r.Some? ==> |r.value| >= 2 && r.value[0] == '{' && r.value[|r.value| - 1] == '}'
    ensures r.Some? ==> forall c :: c in r.value ==> c in t
  {
    var f := Find(t, '{');
    var l := RFind(t, '}');
    if f != -1 && l != -1 && l > f then Some(t[f..l + 1]) else None
  }

  /** The span exists exactly when some `{` comes before some `}`. */
  lemma BraceSpanExists(t: string)
    ensures BraceSpan(t).Some? <==> exists i, j :: 0 <= i < j < |t| && t[i] == '{' && t[j] == '}'
  {
    if i, j :| 0 <= i < j < |t| && t[i] == '{' && t[j] == '}' {
      assert Find(t, '{') <= i && RFind(t, '}') >= j;
    }
  }

  /** The characters step 4 keeps: the JSON-safe ones and every printable
      one. */
  predicate Keepable(c: char) {
    IsAsciiLetter(c) || IsDigit(c) || c in " \n\t{}[]\",:-" || IsPrintable(c)
  }

  /** A character the cleaned output may hold. */
  predicate SafeChar(c: char) {
    IsPrintable(c) || c == '\n' || c == '\t'
  }

  lemma KeepableIsPrintable(c: char)
    requires Keepable(c)
    ensures SafeChar(c)
  {
  }

  /** Steps 4 and 5: drop unprintable characters, then trim. */
  function KeepAndTrim(s: string): (r: string)
    ensures forall c :: c in r ==> SafeChar(c)
    ensures |s| >= 2 && s[0] == '{' && s[|s| - 1] == '}' ==> |r| >= 2 && r[0] == '{' && r[|r| - 1] == '}'
  {
    KeptPrintable(s);
    KeptObject(s);
    Strip(Filter(s, Keepable))
  }

  lemma KeptPrintable(s: string)
    ensures forall c :: c in Strip(Filter(s, Keepable)) ==> SafeChar(c)
  {
    forall c | c in Strip(Filter(s, Keepable)) ensures SafeChar(c) {
      KeepableIsPrintable(c);
    }
  }

  lemma KeptObject(s: string)
    ensures |s| >= 2 && s[0] == '{' && s[|s| - 1] == '}' ==>
      var r := Strip(Filter(s, Keepable)); |r| >= 2 && r[0] == '{' && r[|r| - 1] == '}'
  {
    if |s| >= 2 && s[0] == '{' && s[|s| - 1] == '}' {
      KeptBraces(s);
    }
  }

  /** An object-shaped text keeps its outer braces. */
  lemma KeptBraces(s: string)
    requires |s| >= 2 && s[0] == '{' && s[|s| - 1] == '}'
    ensures var r := Strip(Filter(s, Keepable)); |r| >= 2 && r[0] == '{' && r[|r| - 1] == '}'
  {
    BracesKeepable();
    FilterEnds(s, Keepable);
    BracedStrip(Filter(s, Keepable));
  }

  lemma BracesKeepable()
    ensures Keepable('{') && Keepable('}')
  {
    assert '{' in " \n\t{}[]\",:-" && '}' in " \n\t{}[]\",:-";
  }

  lemma BracedStrip(f: string)
    requires |f| >= 2 && f[0] == '{' && f[|f| - 1] == '}'
    ensures Strip(f) == f
  {
    assert !IsSpace('{') && !IsSpace('}');
  }

  /** Step 3: the slice from the first `{` to the last `}`, when there is one. */
  function SliceObject(t: string): (r: string)
    ensures BraceSpan(t).Some? ==> |r| >= 2 && r[0] == '{' && r[|r| - 1] == '}'
  {
    match BraceSpan(t) case Some(span) => span case None => t
  }

  /** `clean_json_output`: strip fences and markdown, slice from the first
      `{` to the last `}`, drop unprintable characters, trim, and search for
      an object once more if the text does not start with `{`. */
  function CleanJsonOutput(text: string): (r: string)
    ensures text == [] ==> r == []
    ensures forall c :: c in r ==> SafeChar(c)
    ensures BraceSpan(JsonStripped(text)).Some? ==> |r| >= 2 && r[0] == '{' && r[|r| - 1] == '}'
  {
    if text == [] then []
    else
      var trimmed := KeepAndTrim(SliceObject(JsonStripped(text)));
      ObjectStart(trimmed);
      SecondSearch(trimmed);
      if StartsWith(trimmed, "{") then trimmed
      else match BraceSpan(trimmed) case Some(span) => span case None => trimmed
  }

  lemma ObjectStart(t: string)
    ensures |t| >= 2 && t[0] == '{' ==> StartsWith(t, "{")
  {
    if |t| >= 2 && t[0] == '{' {
      assert t[..1] == [t[0]];
    }
  }

  lemma SecondSearch(t: string)
    requires forall c :: c in t ==> SafeChar(c)
    ensures BraceSpan(t).Some? ==>
      forall c :: c in BraceSpan(t).value ==> SafeChar(c)
  {
  }

  // ---------------------------------------------------------------------------
  // Brace matching (repair_json step 2 and strategy 3 of extract_json_safely)
  // ---------------------------------------------------------------------------

  /** Number of `{` minus number of `}`. */
  function Depth(s: string): int {
    if s == [] then 0
    else Depth(s[..|s| - 1]) + (if s[|s| - 1] == '{' then 1 else if s[|s| - 1] == '}' then -1 else 0)
  }

  function MatchFrom(s: string, start: nat, k: nat): (r: Option<nat>)
    requires start < k <= |s|
    requires forall j :: start < j < k ==> Depth(s[start..j]) > 0
    requires Depth(s[start..k]) >= 0
    ensures r.Some? ==> (k <= r.value <= |s| && Depth(s[start..r.value]) == 0
      && forall j :: start < j < r.value ==> Depth(s[start..j]) > 0)
    ensures r.None? ==> forall j :: start < j <= |s| ==> Depth(s[start..j]) > 0
    decreases |s| - k
  {
    if Depth(s[start..k]) == 0 then Some(k)
    else if k == |s| then None
    else
      assert s[start..k + 1][..k - start] == s[start..k];
      MatchFrom(s, start, k + 1)
  }

  /** The end (exclusive) of the shortest span starting at the `{` at `start`
      in which the braces balance, if there is one. */
  function MatchingClose(s: string, start: nat): (r: Option<nat>)
    requires start < |s| && s[start] == '{'
    ensures r.Some? ==> (start < r.value <= |s| && Depth(s[start..r.value]) == 0
      && forall j :: start < j < r.value ==> Depth(s[start..j]) > 0)
    ensures r.None? ==> forall j :: start < j <= |s| ==> Depth(s[start..j]) > 0
  {
    assert s[start..start + 1][..0] == [];
    MatchFrom(s, start, start + 1)
  }

  /** The loop of modules/quiz_generator.py:179-186 (and 258-265): count
      braces from the `{` at `start` and stop where the count first returns
      to zero. The count never goes below zero. */
  method ScanBraces(s: string, start: nat) returns (count: int, end: nat)
    requires start < |s| && s[start] == '{'
    ensures count >= 0
    ensures count == 0 <==> MatchingClose(s, start).Some?
    ensures count == 0 ==> end == MatchingClose(s, start).value
    ensures count > 0 ==> end == start && count == Depth(s[start..])
  {
    count, end := 0, start;
    var i := start;
    while i < |s|
      invariant start <= i <= |s|
      invariant count == Depth(s[start..i])
      invariant end == start
      invariant forall k :: start < k <= i ==> Depth(s[start..k]) > 0
    {
      assert s[start..i + 1][..i - start] == s[start..i];
      if s[i] == '{' {
        count := count + 1;
      } else if s[i] == '}' {
        count := count - 1;
        if count == 0 {
          end := i + 1;
          break;
        }
      }
      i := i + 1;
    }
    assert s[start..] == s[start..|s|];
  }

  // ---------------------------------------------------------------------------
  // repair_json
  // ---------------------------------------------------------------------------

  /** Step 3 of `repair_json`: quote bare keys, turn single quotes into double
      quotes, drop trailing commas, insert commas between adjacent objects
      and arrays, in this order and each in one pass. */
  function FixCommonErrors(candidate: string): (r: string)
    ensures (forall i :: 0 <= i < |candidate| ==> candidate[i] == '}') ==> r == candidate
  {
    var quoted := DoubleQuote(QuoteKeys(candidate));
    var noTrailing := CloseGap(CloseGap(quoted, ',', '}', "}"), ',', ']', "]");
    CloseGap(CloseGap(noTrailing, '}', '{', "},{"), ']', '[', "],[")
  }

  /** What `repair_json` returns: "{}" when there is no `{`; otherwise the
      rewritten span from the first `{` to where the braces balance, or, when
      they never balance, the rewritten string of missing `}` characters. */
  function Repaired(text: string): string {
    if text == [] then "{}"
    else if Find(text, '{') == -1 then "{}"
    else
      var start := Find(text, '{');
      match MatchingClose(text, start)
      case Some(e) => FixCommonErrors(text[start..e])
      case None =>
        assert text[start..] == text[start..|text|];
        FixCommonErrors(Repeat('}', Depth(text[start..])))
  }

  /** `repair_json`. The branch for a negative count (lines 193-199) is
      unreachable: `ScanBraces` proves the count never goes below zero. */
  method RepairJson(text: string) returns (r: string)
    ensures r == Repaired(text)
  {
    if text == [] {
      return "{}";
    }
    var start := Find(text, '{');
    if start == -1 {
      return "{}";
    }
    var count, end := ScanBraces(text, start);
    var t := text;
    if count != 0 {
      if count > 0 {
        t := text[..end] + Repeat('}', count);
        end := |t|;
      } else {
        assert false;
      }
    }
    assert count != 0 ==> t[start..end] == Repeat('}', count);
    r := FixCommonErrors(t[start..end]);
  }

  /** `repair_json` returns "{}" for empty text and for text without `{`. */
  lemma RepairWithoutBrace(text: string)
    requires '{' !in text
    ensures Repaired(text) == "{}"
  {
  }

  /** When the braces balance, the repaired candidate is the span from the
      first `{` to where the count first returns to zero. */
  lemma RepairBalanced(text: string)
    requires '{' in text
    requires MatchingClose(text, Find(text, '{')).Some?
    ensures var start := Find(text, '{');
      var e := MatchingClose(text, start).value;
      Repaired(text) == FixCommonErrors(text[start..e])
      && Depth(text[start..e]) == 0
      && forall j :: start < j < e ==> Depth(text[start..j]) > 0
  {
  }

  /** When the braces never balance, `repair_json` returns only the `k`
      missing closing braces, where `k` is the final count: the text before
      them is cut away because `end_idx` is still `start_idx` at line 191. */
  lemma RepairUnbalanced(text: string)
    requires '{' in text
    requires MatchingClose(text, Find(text, '{')).None?
    ensures var k := Depth(text[Find(text, '{')..]);
      k > 0 && Repaired(text) == Repeat('}', k)
  {
    var start := Find(text, '{');
    RepairedNone(text, start);
    ClosingUnchanged(Depth(text[start..]));
  }

  lemma UnbalancedDepth(text: string, start: nat)
    requires start < |text| && text[start] == '{'
    requires MatchingClose(text, start).None?
    ensures Depth(text[start..]) > 0
  {
    assert text[start..] == text[start..|text|];
  }

  lemma RepairedNone(text: string, start: nat)
    requires '{' in text && start == Find(text, '{')
    requires MatchingClose(text, start).None?
    ensures Depth(text[start..]) > 0
    ensures Repaired(text) == FixCommonErrors(Repeat('}', Depth(text[start..])))
  {
    UnbalancedDepth(text, start);
  }

  /** A run of closing braces passes the rewrites unchanged. */
  lemma ClosingUnchanged(k: int)
    requires k >= 0
    ensures FixCommonErrors(Repeat('}', k)) == Repeat('}', k)
  {
  }

  // ---------------------------------------------------------------------------
  // extract_json_safely
  // ---------------------------------------------------------------------------

  /** The balanced span of strategy 3, when the count returns to zero. */
  function BalancedSpan(cleaned: string): Option<string> {
    var start := Find(cleaned, '{');
    if start == -1 then None
    else match MatchingClose(cleaned, start)
      case Some(e) => Some(cleaned[start..e])
      case None => None
  }

  /** The strings handed to `json.loads`, in order: the cleaned text, the
      `{.*}` span, the balanced span, the repaired text. Strategies 2 and 3
      are skipped when they find nothing. */
  function Candidates(cleaned: string): (r: seq<string>)
    ensures 2 <= |r| <= 4 && r[0] == cleaned && r[|r| - 1] == Repaired(cleaned)
  {
    Attempts(cleaned, BraceSpan(cleaned), BalancedSpan(cleaned), Repaired(cleaned))
  }

  /** The candidate list built from what each strategy found. */
  function Attempts(cleaned: string, brace: Option<string>, balanced: Option<string>, repaired: string): seq<string> {
    [cleaned] + (Found(brace) + (Found(balanced) + [repaired]))
  }

  function Found(span: Option<string>): seq<string> {
    match span case Some(s) => [s] case None => []
  }

  /** The strategies in order: the first one whose string parses wins, and
      the repaired text is parsed when none of the others does. */
  function Cascade(cleaned: string, brace: Option<string>, balanced: Option<string>, repaired: string,
                   parse: string -> Option<Json>): Option<Json> {
    if parse(cleaned).Some? then parse(cleaned)
    else if brace.Some? && parse(brace.value).Some? then parse(brace.value)
    else if balanced.Some? && parse(balanced.value).Some? then parse(balanced.value)
    else parse(repaired)
  }

  lemma FirstParseCons(head: string, tail: seq<string>, parse: string -> Option<Json>)
    ensures FirstParse([head] + tail, parse) == if parse(head).Some? then parse(head) else FirstParse(tail, parse)
  {
    assert ([head] + tail)[1..] == tail;
  }

  lemma FirstParseFound(span: Option<string>, tail: seq<string>, parse: string -> Option<Json>)
    ensures FirstParse(Found(span) + tail, parse)
      == if span.Some? && parse(span.value).Some? then parse(span.value) else FirstParse(tail, parse)
  {
    if span.Some? {
      FirstParseCons(span.value, tail, parse);
    } else {
      assert Found(span) + tail == tail;
    }
  }

  /** Taking the first candidate that parses is the cascade of strategies. */
  lemma FirstParseIsCascade(cleaned: string, brace: Option<string>, balanced: Option<string>, repaired: string,
                            parse: string -> Option<Json>)
    ensures FirstParse(Attempts(cleaned, brace, balanced, repaired), parse)
      == Cascade(cleaned, brace, balanced, repaired, parse)
  {
    FirstParseCons(cleaned, Found(brace) + (Found(balanced) + [repaired]), parse);
    FirstParseFound(brace, Found(balanced) + [repaired], parse);
    FirstParseFound(balanced, [repaired], parse);
    FirstParseCons(repaired, [], parse);
    assert [repaired] == [repaired] + [];
  }

  /** The parse of the first candidate that parses. */
  function FirstParse(candidates: seq<string>, parse: string -> Option<Json>): (r: Option<Json>)
    ensures r.Some? <==> exists k :: 0 <= k < |candidates| && parse(candidates[k]).Some?
    ensures r.Some? ==> exists k :: (0 <= k < |candidates| && parse(candidates[k]) == r
      && forall j :: 0 <= j < k ==> parse(candidates[j]).None?)
  {
    if candidates == [] then None
    else if parse(candidates[0]).Some? then parse(candidates[0])
    else
      var rest := FirstParse(candidates[1..], parse);
      if rest.Some? then
        var k :| 0 <= k < |candidates[1..]| && parse(candidates[1..][k]) == rest
          && forall j :: 0 <= j < k ==> parse(candidates[1..][j]).None?;
        assert parse(candidates[k + 1]) == rest;
        rest
      else rest
  }

  /** The first 500 characters, as `text[:500]`. */
  function Sample(text: string): (r: string)
    ensures |r| <= 500 && StartsWith(text, r)
  {
    if |text| <= 500 then text else text[..500]
  }

  /** `extract_json_safely`: raises on empty text; otherwise returns the
      parse of the first candidate that parses, or fails with a sample of the
      original text. */
  method ExtractJsonSafely(text: string, parse: string -> Option<Json>)
    returns (r: Result<Json, RecoveryError>)
    ensures text == [] ==> r == Err(EmptyResponse)
    ensures text != [] ==> match FirstParse(Candidates(CleanJsonOutput(text)), parse)
      case Some(v) => r == Ok(v)
      case None => r == Err(Unrecoverable(Sample(text)))
  {
    if text == [] {
      return Err(EmptyResponse);
    }
    var cleaned := CleanJsonOutput(text);
    var parsed := TryStrategies(cleaned, parse);
    if parsed.Some? {
      return Ok(parsed.value);
    }
    return Err(Unrecoverable(Sample(text)));
  }

  /** Lines 238-277: the four strategies on the cleaned text, in order. */
  method TryStrategies(cleaned: string, parse: string -> Option<Json>) returns (parsed: Option<Json>)
    ensures parsed == FirstParse(Candidates(cleaned), parse)
  {
    FirstParseIsCascade(cleaned, BraceSpan(cleaned), BalancedSpan(cleaned), Repaired(cleaned), parse);
    // Strategy 1: parse the cleaned text.
    parsed := parse(cleaned);
    if parsed.Some? {
      return;
    }
    // Strategy 2: the `{.*}` span.
    var span := BraceSpan(cleaned);
    if span.Some? {
      parsed := parse(span.value);
      if parsed.Some? {
        return;
      }
    }
    // Strategy 3: the balanced span.
    var start := Find(cleaned, '{');
    if start != -1 {
      var count, end := ScanBraces(cleaned, start);
      if count == 0 {
        parsed := parse(cleaned[start..end]);
        if parsed.Some? {
          return;
        }
      }
    }
    // Strategy 4: the repaired text.
    var repaired := RepairJson(cleaned);
    parsed := parse(repaired);
  }
}
