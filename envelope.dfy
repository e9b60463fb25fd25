/** The decoded reply bodies of the two language-model services, reduced to
    what the code reads from them, and the search for the first piece of text
    in them. */
module Envelope {
  import opened Chars
  import opened Strings
  import opened Optional

  /** A Gemini candidate: the `text` of each of its content parts, `None`
      where a part has no text. */
  datatype Candidate = Candidate(parts: seq<Option<string>>)

  /** An OpenAI choice: the `content` of its message, if any. */
  datatype Choice = Choice(content: Option<string>)

  /** A decoded reply body: its `candidates` (Gemini) and `choices` (OpenAI);
      a missing or empty list is the empty sequence. */
  datatype Body = Body(candidates: seq<Candidate>, choices: seq<Choice>)

  /** What the transport hands back for one request. */
  datatype Reply =
    | Delivered(body: Body)               // a JSON object was received and decoded
    | HttpError(code: int, detail: string)
    | Unreachable                         // URLError
    | InvalidJson                         // the body did not decode
    | EmptyBody                           // the body was the empty string

  /** Python truthiness of an optional text: present and non-empty. */
  predicate HasText(t: Option<string>) {
    t.Some? && t.value != []
  }

  predicate Silent(c: Candidate) {
    forall p :: 0 <= p < |c.parts| ==> !HasText(c.parts[p])
  }

  /** The first part with text, in order. */
  function FirstPartText(parts: seq<Option<string>>): (r: Option<string>)
    ensures r.None? <==> forall p :: 0 <= p < |parts| ==> !HasText(parts[p])
    ensures r.Some? ==> r.value != [] && exists p :: (
      && 0 <= p < |parts| && parts[p] == r
      && forall q :: 0 <= q < p ==> !HasText(parts[q]))
  {
    if parts == [] then None
    else if HasText(parts[0]) then parts[0]
    else
      var rest := FirstPartText(parts[1..]);
      assert rest.Some? ==> exists p :: (
        && 0 <= p < |parts| && parts[p] == rest
        && forall q :: 0 <= q < p ==> !HasText(parts[q])) by {
        if rest.Some? {
          var p :| 0 <= p < |parts[1..]| && parts[1..][p] == rest
            && forall q :: 0 <= q < p ==> !HasText(parts[1..][q]);
          assert parts[p + 1] == rest;
          assert forall q :: 0 <= q < p + 1 ==> !HasText(parts[q]) by {
            forall q | 0 <= q < p + 1
              ensures !HasText(parts[q])
            {
              if q > 0 {
                assert parts[q] == parts[1..][q - 1];
              }
            }
          }
        }
      }
      assert rest.None? ==> forall p :: 0 <= p < |parts| ==> !HasText(parts[p]) by {
        if rest.None? {
          forall p | 0 <= p < |parts|
            ensures !HasText(parts[p])
          {
            if p > 0 {
              assert parts[p] == parts[1..][p - 1];
            }
          }
        }
      }
      rest
  }

  /** Candidates first, then parts within a candidate (modules/quiz_generator.py
      lines 354-363 and modules/simplify_text.py lines 199-207). */
  function FirstGeminiText(candidates: seq<Candidate>): (r: Option<string>)
    ensures r.None? <==> forall c :: 0 <= c < |candidates| ==> Silent(candidates[c])
    ensures r.Some? ==> r.value != [] && exists c :: (
      && 0 <= c < |candidates|
      && r == FirstPartText(candidates[c].parts)
      && forall d :: 0 <= d < c ==> Silent(candidates[d]))
  {
    if candidates == [] then None
    else
      var here := FirstPartText(candidates[0].parts);
      if here.Some? then here
      else
        var rest := FirstGeminiText(candidates[1..]);
        assert rest.Some? ==> exists c :: (
          && 0 <= c < |candidates|
          && rest == FirstPartText(candidates[c].parts)
          && forall d :: 0 <= d < c ==> Silent(candidates[d])) by {
          if rest.Some? {
            var c :| 0 <= c < |candidates[1..]|
              && rest == FirstPartText(candidates[1..][c].parts)
              && forall d :: 0 <= d < c ==> Silent(candidates[1..][d]);
            assert candidates[c + 1] == candidates[1..][c];
            forall d | 0 <= d < c + 1
              ensures Silent(candidates[d])
            {
              if d > 0 {
                assert candidates[d] == candidates[1..][d - 1];
              }
            }
          }
        }
        assert rest.None? ==> forall c :: 0 <= c < |candidates| ==> Silent(candidates[c]) by {
          if rest.None? {
            forall c | 0 <= c < |candidates|
              ensures Silent(candidates[c])
            {
              if c > 0 {
                assert candidates[c] == candidates[1..][c - 1];
              }
            }
          }
        }
        rest
  }

  /** The first choice whose message has content
      (modules/quiz_generator.py lines 428-436). */
  function FirstOpenAIText(choices: seq<Choice>): (r: Option<string>)
    ensures r.None? <==> forall c :: 0 <= c < |choices| ==> !HasText(choices[c].content)
    ensures r.Some? ==> r.value != [] && exists c :: (
      && 0 <= c < |choices| && r == choices[c].content
      && forall d :: 0 <= d < c ==> !HasText(choices[d].content))
  {
    var contents := seq(|choices|, i requires 0 <= i < |choices| => choices[i].content);
    assert forall c :: 0 <= c < |choices| ==> contents[c] == choices[c].content;
    FirstPartText(contents)
  }

  /** `_extract_text_from_response`: the stripped first text of a Gemini
      reply, or "" when there is none. Only the first text counts: when it
      is all whitespace the result is "" although later parts may have text. */
  function ExtractText(body: Body): (r: string)
    ensures r == [] <==> FirstGeminiText(body.candidates).None?
                         || AllSpace(FirstGeminiText(body.candidates).value)
    ensures r != [] ==> !IsSpace(r[0]) && !IsSpace(r[|r| - 1])
    ensures FirstGeminiText(body.candidates).None? ==> r == []
    ensures FirstGeminiText(body.candidates).Some? ==> r == Strip(FirstGeminiText(body.candidates).value)
  {
    match FirstGeminiText(body.candidates)
    case None => []
    case Some(t) => Strip(t)
  }

  /** A blank first part hides a later part with text. */
  lemma BlankFirstPartHidesLaterText()
    ensures ExtractText(Body([Candidate([Some(" "), Some("text")])], [])) == []
  {
    var parts := [Some(" "), Some("text")];
    assert HasText(parts[0]);
    assert AllSpace(" ");
  }
}
