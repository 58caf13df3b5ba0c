/**
 * `estimateCaloriesFromImage` (services/geminiService.ts). The SDK call
 * `generateContent` is an input: it either resolves with a response whose
 * `text` may be missing, or throws. What is modelled is the key guard, the
 * empty-text check inside the `try`, and the `catch` block that turns every
 * thrown value, including the one thrown by that check, into the message of
 * the `Error` the caller receives.
 */
module GeminiService {
  import opened Wrappers
  import opened JsString

  /** A value thrown inside the `try`, as the `catch` block inspects it. */
  datatype Thrown =
    | WithMessage(message: string)   // an object with a `message` property, seen through `String(...)`
    | WithoutMessage                 // anything else: a primitive, null, or an object without `message`

  /** What awaiting `ai.models.generateContent(...)` yields. */
  datatype SdkOutcome = Responded(text: Option<string>) | Threw(thrown: Thrown)

  // Messages longer than a line are written in pieces; each is the source's text.
  const KeyMissingMessage: string :=
    "API_KEY is not configured. " + "Please set the VITE_GEMINI_API_KEY " + "environment variable."
  const EmptyResponseMessage: string :=
    "The AI returned an " + "empty or invalid " + "response. It might " + "be unable to " + "analyze this image."
  const InvalidKeyMessage: string := "The configured API key is invalid. " + "Please check your API key."
  const FailurePrefix: string := "AI analysis failed: "
  const UnexpectedMessage: string :=
    "An unexpected error occurred " + "while communicating with the AI. " + "Please try again later."
  const InvalidKeyMarker: string := "API key not valid"

  /** `!API_KEY` is false: the variable is set and not empty. */
  predicate KeyConfigured(apiKey: Option<string>) {
    Truthy(apiKey)
  }

  /** The `try` block once the SDK has answered: the text, or what is thrown. */
  function TryBlock(outcome: SdkOutcome): (r: Result<string, Thrown>)
    ensures r.Success? <==> outcome.Responded? && outcome.text.Some? && !AllTrimmable(outcome.text.value)
    ensures r.Success? ==> r.value == outcome.text.value
    ensures outcome.Responded? && r.Failure? ==> r.error == WithMessage(EmptyResponseMessage)
    ensures outcome.Threw? ==> r == Failure(outcome.thrown)
  {
    match outcome
    case Threw(e) => Failure(e)
    case Responded(text) =>
      if text.None? then Failure(WithMessage(EmptyResponseMessage))
      else
        TrimEmptyIff(text.value);
        if text.value == "" || Trim(text.value) == "" then Failure(WithMessage(EmptyResponseMessage))
        else Success(text.value)
  }

  /** The `catch` block: the message of the `Error` it throws in turn. */
  function CatchMessage(e: Thrown): (m: string)
    ensures m != ""
    ensures e.WithoutMessage? ==> m == UnexpectedMessage
    ensures e.WithMessage? && Includes(e.message, InvalidKeyMarker) ==> m == InvalidKeyMessage
    ensures e.WithMessage? && !Includes(e.message, InvalidKeyMarker) ==> m == FailurePrefix + e.message
  {
    match e
    case WithoutMessage => UnexpectedMessage
    case WithMessage(message) =>
      if Includes(message, InvalidKeyMarker) then InvalidKeyMessage else FailurePrefix + message
  }

  /** `estimateCaloriesFromImage`: the resolved text, or the message of the rejection. */
  function Estimate(apiKey: Option<string>, outcome: SdkOutcome): (r: Result<string, string>)
    ensures !KeyConfigured(apiKey) ==> r == Failure(KeyMissingMessage)
    ensures r.Success? <==>
      KeyConfigured(apiKey) && outcome.Responded? && outcome.text.Some? && !AllTrimmable(outcome.text.value)
    ensures r.Success? ==> r.value == outcome.text.value
    ensures KeyConfigured(apiKey) && outcome.Responded? && r.Failure? ==>
      r.error == FailurePrefix + EmptyResponseMessage
    ensures KeyConfigured(apiKey) && outcome.Threw? && outcome.thrown.WithMessage? ==>
      r.error == if Includes(outcome.thrown.message, InvalidKeyMarker) then InvalidKeyMessage
                 else FailurePrefix + outcome.thrown.message
    ensures KeyConfigured(apiKey) && outcome == Threw(WithoutMessage) ==> r.error == UnexpectedMessage
    ensures r.Failure? ==> r.error != ""
  {
    if !KeyConfigured(apiKey) then Failure(KeyMissingMessage)
    else
      EmptyResponseHasNoKeyMarker();
      match TryBlock(outcome)
      case Success(text) => Success(text)
      case Failure(e) => Failure(CatchMessage(e))
  }

  /** The `catch` block leaves the empty-response error's text intact behind its prefix. */
  lemma EmptyResponseHasNoKeyMarker()
    ensures !Includes(EmptyResponseMessage, InvalidKeyMarker)
  {
    assert InvalidKeyMarker[4] == 'k';
    assert 'k' !in EmptyResponseMessage;
    IncludesKeepsChar(EmptyResponseMessage, InvalidKeyMarker, 'k');
  }

  /**
   * The empty-response error never reaches the caller as thrown: the
   * surrounding `catch` always re-wraps it with the failure prefix.
   */
  lemma EmptyResponseIsRewrapped(apiKey: Option<string>, outcome: SdkOutcome)
    ensures Estimate(apiKey, outcome) != Failure(EmptyResponseMessage)
  {
    var r := Estimate(apiKey, outcome);
    assert EmptyResponseMessage[0] == 'T' && EmptyResponseMessage[4] == 'A';
    if r.Failure? {
      if !KeyConfigured(apiKey) {
        assert r.error[0] == 'A';
      } else if outcome.Responded? || (outcome.Threw? && outcome.thrown.WithMessage? && !Includes(outcome.thrown.message, InvalidKeyMarker)) {
        assert r.error[0] == 'A';
      } else if outcome.Threw? && outcome.thrown.WithMessage? {
        assert r.error[4] == 'c';
      } else {
        assert r.error[0] == 'A';
      }
    }
  }

  /**
   * The key-missing message comes from the guard alone, which sits outside
   * the `try`: nothing the SDK throws is turned into it.
   */
  lemma KeyMissingOnlyFromGuard(apiKey: Option<string>, outcome: SdkOutcome)
    ensures Estimate(apiKey, outcome) == Failure(KeyMissingMessage) <==> !KeyConfigured(apiKey)
  {
    var r := Estimate(apiKey, outcome);
    assert KeyMissingMessage[1] == 'P';
    if KeyConfigured(apiKey) && r.Failure? {
      if outcome.Responded? || (outcome.Threw? && outcome.thrown.WithMessage? && !Includes(outcome.thrown.message, InvalidKeyMarker)) {
        assert r.error[1] == 'I';
      } else if outcome.Threw? && outcome.thrown.WithMessage? {
        assert r.error[0] == 'T';
      } else {
        assert r.error[1] == 'n';
      }
    }
  }
}
