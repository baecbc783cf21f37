/** `editImageWithGemini` without the network: the model's response is an
    input, and the module decides what the call returns or throws. */
module GeminiService {
  import opened Base
  import opened Strings

  /** `inlineData` of a response part; `data` may be missing. */
  datatype InlineData = InlineData(data: Option<string>)

  /** One part of a candidate's content. */
  datatype Part = Part(text: Option<string>, inlineData: Option<InlineData>)

  /** A candidate answer: its content parts and why generation stopped. */
  datatype Candidate = Candidate(parts: seq<Part>, finishReason: Option<string>)

  /** The response; a missing `candidates` list behaves as an empty one. */
  datatype Response = Response(candidates: seq<Candidate>)

  /** What the service returns to the app. */
  datatype EditResult = EditResult(imageUrl: Option<string>, text: Option<string>)

  /** What the library call did: returned a response, threw an `Error` with a
      message, or threw something that is not an `Error`. */
  datatype CallOutcome = Returned(response: Response) | Threw(message: string) | ThrewNonError

  // The longer messages are written as two literals joined by `+`, which
  // lets the verifier read them character by character in
  // `NotConfiguredIsDistinct`; the text is the same as one literal.
  const NotConfiguredMessage: string :=
    "Gemini AI service is not configured. " + "Please set the API_KEY environment variable."
  const ErrorPrefix: string := "Gemini API Error: "
  const SafetyMessage: string :=
    "The request was blocked due to safety concerns. " + "Please modify your prompt or image."
  const EmptyMessage: string := "AI model did not return any content."
  const UnknownErrorMessage: string :=
    "An unknown error occurred " + "while contacting the Gemini API."
  const SafetyReason: string := "SAFETY"

  /** A part whose (non-empty) text is taken. */
  predicate GivesText(p: Part)
  {
    Truthy(p.text)
  }

  /** A part whose inline data is taken: only when its text is not. */
  predicate GivesImage(p: Part)
  {
    !Truthy(p.text) && p.inlineData.Some?
  }

  /** One turn of the loop over the parts. */
  function Step(acc: EditResult, p: Part): EditResult
  {
    if GivesText(p) then acc.(text := p.text)
    else if GivesImage(p) then acc.(imageUrl := p.inlineData.value.data)
    else acc
  }

  /** The loop over the parts of the first candidate, starting from two
      nulls, as a left fold. */
  function Fold(parts: seq<Part>): EditResult
  {
    if |parts| == 0 then EditResult(None, None)
    else Step(Fold(parts[..|parts| - 1]), parts[|parts| - 1])
  }

  /** Part `i` is the last one that gives text. */
  predicate LastGivingText(parts: seq<Part>, i: int)
  {
    0 <= i < |parts| && GivesText(parts[i]) && forall j :: i < j < |parts| ==> !GivesText(parts[j])
  }

  /** Part `i` is the last one that gives an image. */
  predicate LastGivingImage(parts: seq<Part>, i: int)
  {
    0 <= i < |parts| && GivesImage(parts[i]) && forall j :: i < j < |parts| ==> !GivesImage(parts[j])
  }

  /** The text extracted is that of the last part with non-empty text, and
      null when there is none. */
  lemma {:induction false} FoldText(parts: seq<Part>)
    ensures Fold(parts).text.None? <==> forall i :: 0 <= i < |parts| ==> !GivesText(parts[i])
    ensures forall i :: LastGivingText(parts, i) ==> Fold(parts).text == parts[i].text
    decreases |parts|
  {
    if |parts| > 0 {
      var n := |parts| - 1;
      var prefix := parts[..n];
      FoldText(prefix);
      assert Fold(parts) == Step(Fold(prefix), parts[n]);
      if GivesText(parts[n]) {
        forall i | LastGivingText(parts, i) ensures Fold(parts).text == parts[i].text {
          assert i == n;
        }
      } else {
        assert Fold(parts).text == Fold(prefix).text;
        forall i | LastGivingText(parts, i) ensures Fold(parts).text == parts[i].text {
          assert i < n && prefix[i] == parts[i];
          forall j | i < j < |prefix| ensures !GivesText(prefix[j]) {
            assert prefix[j] == parts[j];
          }
          assert LastGivingText(prefix, i);
        }
        forall i | 0 <= i < n ensures prefix[i] == parts[i] {
        }
      }
    }
  }

  /** The image extracted is the data of the last part that gives inline
      data, and null when there is none. */
  lemma {:induction false} FoldImage(parts: seq<Part>)
    ensures (forall i :: 0 <= i < |parts| ==> !GivesImage(parts[i])) ==> Fold(parts).imageUrl.None?
    ensures forall i :: LastGivingImage(parts, i) ==> Fold(parts).imageUrl == parts[i].inlineData.value.data
    decreases |parts|
  {
    if |parts| > 0 {
      var n := |parts| - 1;
      var prefix := parts[..n];
      FoldImage(prefix);
      assert Fold(parts) == Step(Fold(prefix), parts[n]);
      if GivesImage(parts[n]) {
        forall i | LastGivingImage(parts, i) ensures Fold(parts).imageUrl == parts[i].inlineData.value.data {
          assert i == n;
        }
      } else {
        assert Fold(parts).imageUrl == Fold(prefix).imageUrl;
        forall i | LastGivingImage(parts, i) ensures Fold(parts).imageUrl == parts[i].inlineData.value.data {
          assert i < n && prefix[i] == parts[i];
          forall j | i < j < |prefix| ensures !GivesImage(prefix[j]) {
            assert prefix[j] == parts[j];
          }
          assert LastGivingImage(prefix, i);
        }
        forall i | 0 <= i < n ensures prefix[i] == parts[i] {
        }
      }
    }
  }

  /** The `for` loop of the source, accumulating in two variables. */
  method ExtractParts(parts: seq<Part>) returns (imageUrl: Option<string>, text: Option<string>)
    ensures EditResult(imageUrl, text) == Fold(parts)
  {
    imageUrl := None;
    text := None;
    var i := 0;
    while i < |parts|
      invariant 0 <= i <= |parts|
      invariant EditResult(imageUrl, text) == Fold(parts[..i])
    {
      var p := parts[i];
      assert parts[..i + 1][..i] == parts[..i];
      if Truthy(p.text) {
        text := p.text;
      } else if p.inlineData.Some? {
        imageUrl := p.inlineData.value.data;
      }
      i := i + 1;
    }
    assert parts[..i] == parts;
  }

  /** What the loop extracts from a response: only the first candidate is read. */
  function Extracted(resp: Response): EditResult
  {
    if |resp.candidates| > 0 then Fold(resp.candidates[0].parts) else EditResult(None, None)
  }

  /** Whether the first candidate reports a safety block. */
  predicate SafetyBlocked(resp: Response)
  {
    |resp.candidates| > 0 && resp.candidates[0].finishReason == Some(SafetyReason)
  }

  /** The body of the `try` once the response is in: success, or the
      message of the error it throws. */
  function Classify(resp: Response): (r: Result<EditResult>)
    ensures r.Ok? <==> Truthy(Extracted(resp).imageUrl) || Truthy(Extracted(resp).text)
    ensures r.Ok? ==> r.value == Extracted(resp)
    ensures r.Err? ==> (r.message == SafetyMessage <==> SafetyBlocked(resp))
    ensures r.Err? ==> (r.message == EmptyMessage <==> !SafetyBlocked(resp))
  {
    var res := Extracted(resp);
    if !Truthy(res.imageUrl) && !Truthy(res.text) then
      if SafetyBlocked(resp) then Err(SafetyMessage) else Err(EmptyMessage)
    else Ok(res)
  }

  /** `editImageWithGemini`: the unconfigured error is thrown before the
      `try`; every error inside it is re-thrown with the `Gemini API Error: `
      prefix, and anything that is not an `Error` becomes a fixed message. */
  function EditImage(configured: bool, call: CallOutcome): (r: Result<EditResult>)
    ensures !configured ==> r == Err(NotConfiguredMessage)
    ensures configured && r.Err? ==>
      StartsWith(r.message, ErrorPrefix) || r.message == UnknownErrorMessage
    ensures configured && call.Threw? ==> r == Err(ErrorPrefix + call.message)
    ensures configured && call.ThrewNonError? ==> r == Err(UnknownErrorMessage)
    ensures r.Ok? ==> configured && call.Returned? && r == Classify(call.response)
    ensures r.Ok? ==> Truthy(r.value.imageUrl) || Truthy(r.value.text)
  {
    if !configured then Err(NotConfiguredMessage)
    else
      match call
      case Threw(message) => Err(ErrorPrefix + message)
      case ThrewNonError => Err(UnknownErrorMessage)
      case Returned(resp) =>
        match Classify(resp)
        case Ok(res) => Ok(res)
        case Err(message) => Err(ErrorPrefix + message)
  }

  /** The unconfigured message differs from every prefixed message (at
      position 8, `"Gemini AI"` against `"Gemini AP"`) and from the unknown
      error message (at position 0). */
  lemma NotConfiguredIsDistinct(m: string)
    ensures NotConfiguredMessage != ErrorPrefix + m
    ensures NotConfiguredMessage != UnknownErrorMessage
  {
    assert NotConfiguredMessage[8] == 'I' != (ErrorPrefix + m)[8];
    assert NotConfiguredMessage[0] == 'G' != UnknownErrorMessage[0];
  }

  /** The unconfigured message is never prefixed, and nothing thrown inside
      the `try` can be mistaken for it. */
  lemma NotConfiguredOnlyWhenUnconfigured(configured: bool, call: CallOutcome)
    ensures EditImage(configured, call) == Err(NotConfiguredMessage) <==> !configured
  {
    if configured && EditImage(configured, call).Err? {
      var msg := EditImage(configured, call).message;
      if msg != UnknownErrorMessage {
        NotConfiguredIsDistinct(msg[|ErrorPrefix|..]);
      }
    }
    NotConfiguredIsDistinct("");
  }

  /** A response with an image or text is returned as extracted; with
      neither, the safety block and the generic empty case raise distinct
      prefixed errors. */
  lemma EditImageClassification(resp: Response)
    ensures var res := Extracted(resp);
      var r := EditImage(true, Returned(resp));
      && (Truthy(res.imageUrl) || Truthy(res.text) ==> r == Ok(res))
      && ((!Truthy(res.imageUrl) && !Truthy(res.text) && SafetyBlocked(resp))
          ==> r == Err(ErrorPrefix + SafetyMessage))
      && ((!Truthy(res.imageUrl) && !Truthy(res.text) && !SafetyBlocked(resp))
          ==> r == Err(ErrorPrefix + EmptyMessage))
  {
  }

  /** Candidates after the first never influence the outcome. */
  lemma OnlyFirstCandidate(configured: bool, first: Candidate, rest1: seq<Candidate>, rest2: seq<Candidate>)
    ensures EditImage(configured, Returned(Response([first] + rest1)))
         == EditImage(configured, Returned(Response([first] + rest2)))
  {
  }

  /** No candidates: nothing is extracted and the call fails with the
      generic empty-content error. */
  lemma NoCandidates(configured: bool)
    ensures Extracted(Response([])) == EditResult(None, None)
    ensures configured ==> EditImage(configured, Returned(Response([]))) == Err(ErrorPrefix + EmptyMessage)
  {
  }

  /** Within one part a non-empty text hides the inline data; an empty text
      lets the inline data through. */
  lemma TextHidesInlineData(t: string, blob: InlineData)
    ensures t != "" ==> Fold([Part(Some(t), Some(blob))]) == EditResult(None, Some(t))
    ensures t == "" ==> Fold([Part(Some(t), Some(blob))]) == EditResult(blob.data, None)
  {
    assert [Part(Some(t), Some(blob))][..0] == [];
  }
}
