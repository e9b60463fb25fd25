/** `generate_quiz`: the early exits, the choice of service by key, the
    walk over the reply for its text, JSON recovery and validation. The
    service is reached through `respond`, which stands for the whole HTTP
    exchange and hands back what the transport delivered. */
module QuizGenerator {
  import opened Chars
  import opened Strings
  import opened Optional
  import opened Normalizer
  import opened JsonRecovery
  import opened QuizValidator
  import opened Envelope

  datatype Provider = Gemini | OpenAI

  /** One call to a service: the provider and the cleaned text appended to
      the fixed quiz prompt. */
  datatype Request = Request(provider: Provider, input: string)

  datatype QuizError =
    | ApiKeyRequired                                  // ValueError
    | TransportFailure(provider: Provider, reply: Reply)
    | NoQuizContent(provider: Provider)               // "... returned no quiz content."
    | Recovery(cause: RecoveryError)                  // raised by extract_json_safely
    | Invalid(problem: ValidationError)                // raised by _validate_quiz

  /** Keys beginning with "sk-" are OpenAI keys; every other key is sent to
      Gemini. */
  function ProviderFor(apiKey: string): (p: Provider)
    ensures p == OpenAI <==> |apiKey| >= 3 && apiKey[..3] == "sk-"
  {
    if StartsWith(apiKey, "sk-") then OpenAI else Gemini
  }

  /** The text the provider's reply walk returns first. */
  function ReplyText(provider: Provider, body: Body): Option<string> {
    match provider
    case Gemini => FirstGeminiText(body.candidates)
    case OpenAI => FirstOpenAIText(body.choices)
  }

  /** What `_call_gemini`/`_call_openai` and `_validate_quiz` make of a reply:
      a transport failure, no text, a recovery failure, a validation failure
      or the validated quiz. */
  function Outcome(provider: Provider, reply: Reply, parse: string -> Option<Json>): (r: Result<Quiz, QuizError>)
    ensures !reply.Delivered? ==> r == Err(TransportFailure(provider, reply))
    ensures reply.Delivered? && ReplyText(provider, reply.body).None? ==> r == Err(NoQuizContent(provider))
    ensures r.Ok? ==> |r.value.mcq| == 3 && |r.value.short| == 2
  {
    if !reply.Delivered? then Err(TransportFailure(provider, reply))
    else
      match ReplyText(provider, reply.body)
      case None => Err(NoQuizContent(provider))
      case Some(text) =>
        match FirstParse(Candidates(CleanJsonOutput(text)), parse)
        case None => Err(Recovery(Unrecoverable(Sample(text))))
        case Some(quiz) =>
          match Validated(quiz)
          case Ok(q) => Ok(q)
          case Err(e) => Err(Invalid(e))
  }

  /** The request `generate_quiz` sends, if it sends one. */
  function RequestFor(text: string, apiKey: string): Option<Request> {
    if apiKey == [] || AllSpace(text) || CleanInput(text, QuizMaxLength) == [] then None
    else Some(Request(ProviderFor(apiKey), CleanInput(text, QuizMaxLength)))
  }

  const EmptyQuiz := Quiz([], [])

  /** `generate_quiz`. Returns the result and the request it sent. */
  method GenerateQuiz(text: string, apiKey: string, respond: Request -> Reply, parse: string -> Option<Json>)
    returns (r: Result<Quiz, QuizError>, sent: Option<Request>)
    ensures apiKey == [] ==> r == Err(ApiKeyRequired) && sent == None
    ensures apiKey != [] && AllSpace(text) ==> r == Ok(EmptyQuiz) && sent == None
    ensures sent == RequestFor(text, apiKey)
    ensures sent.None? && apiKey != [] ==> r == Ok(EmptyQuiz)
    ensures sent.Some? ==> r == Outcome(sent.value.provider, respond(sent.value), parse)
    ensures r.Ok? && r.value != EmptyQuiz ==> sent.Some? && |r.value.mcq| == 3 && |r.value.short| == 2
  {
    if apiKey == [] {
      return Err(ApiKeyRequired), None;
    }
    if AllSpace(text) {
      return Ok(EmptyQuiz), None;
    }
    var cleaned := CleanInput(text, QuizMaxLength);
    if cleaned == [] {
      return Ok(EmptyQuiz), None;
    }
    var provider := ProviderFor(apiKey);
    var request := Request(provider, cleaned);
    sent := Some(request);
    var reply := respond(request);
    if !reply.Delivered? {
      return Err(TransportFailure(provider, reply)), sent;
    }
    var replyText := ReplyText(provider, reply.body);
    if replyText.None? {
      return Err(NoQuizContent(provider)), sent;
    }
    var extracted := ExtractJsonSafely(replyText.value, parse);
    if extracted.Err? {
      return Err(Recovery(extracted.error)), sent;
    }
    var validated := ValidateQuiz(extracted.value);
    if validated.Err? {
      return Err(Invalid(validated.error)), sent;
    }
    r := Ok(validated.value);
  }

  /** The provider is chosen by the key alone, and the text sent is the
      cleaned input, at most 10000 characters plus "...". */
  lemma RoutingByKey(text: string, apiKey: string)
    requires RequestFor(text, apiKey).Some?
    ensures var req := RequestFor(text, apiKey).value;
      && (StartsWith(apiKey, "sk-") ==> req.provider == OpenAI)
      && (!StartsWith(apiKey, "sk-") ==> req.provider == Gemini)
      && req.input != [] && |req.input| <= QuizMaxLength + 3
      && '\r' !in req.input && '\t' !in req.input
  {
  }

  /** A reply walk that finds no text is an error for both providers, never
      an empty quiz. */
  lemma SilentReplyFails(provider: Provider, body: Body, parse: string -> Option<Json>)
    requires ReplyText(provider, body).None?
    ensures Outcome(provider, Delivered(body), parse) == Err(NoQuizContent(provider))
  {
  }
}
