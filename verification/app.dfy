/** The app's session: the uploaded image, the edit result, the prompt, the
    loading flag, the single error slot and the model's note, and the
    transitions the upload, generate and reset handlers make on it. Each
    asynchronous handler is a start transition and a completion transition;
    what happened in between (the file read, the service call) is an input. */
module App {
  import opened Base
  import opened Strings
  import GeminiService
  import ImageUploader
  import ImageDisplay
  import ExportModal

  /** The uploaded image: its base64 text (`undefined` when the data URL had
      no comma), its MIME type and its file name. */
  datatype ImageData = ImageData(base64: Option<string>, mimeType: string, name: string)

  datatype Session = Session(
    originalImage: Option<ImageData>,
    editedImage: Option<string>,
    prompt: string,
    isLoading: bool,
    error: Option<string>,
    aiResponseText: Option<string>)

  /** The state before any interaction, and after a reset. */
  const Initial: Session := Session(None, None, "", false, None, None)

  const ReadFailedMessage: string := "Failed to read the image file."
  const MissingInputMessage: string := "Please upload an image and provide an editing prompt."
  const NoImageMessage: string := "The AI didn't return an image. It might have refused the request."
  const ErrorPrefix: string := "An error occurred: "
  const EditedImagePrefix: string := "data:image/png;base64,"

  /** What reading the file as a data URL gave. */
  datatype ReadOutcome = Read(dataUrl: string) | ReadFailed

  /** `dataUrl.split(',')[1]`: the text between the first and second comma,
      `undefined` when there is no comma. */
  function Payload(dataUrl: string): (r: Option<string>)
    ensures r.None? <==> ',' !in dataUrl
    ensures r.Some? ==> ',' !in r.value
  {
    var parts := Split(dataUrl, ',');
    SplitSingle(dataUrl, ',');
    if |parts| > 1 then Some(parts[1]) else None
  }

  /** After a comma-free header and its comma, the stored text is everything
      up to the next comma, if any. */
  lemma PayloadIsSecondPiece(header: string, rest: string)
    requires ',' !in header
    ensures Payload(header + "," + rest) == Some(Split(rest, ',')[0])
  {
    assert header + "," + rest == header + [','] + rest;
    SplitAfterPiece(header, ',', rest);
  }

  /** The payload of a header, a comma and comma-free base64 text is that text. */
  lemma PayloadAfterHeader(header: string, data: string)
    requires ',' !in header && ',' !in data
    ensures Payload(header + "," + data) == Some(data)
  {
    PayloadIsSecondPiece(header, data);
    SplitSingle(data, ',');
  }

  /** `handleImageUpload` up to the read: clear the error slot, the edited
      image and the note, and start loading. */
  function UploadStart(s: Session): (r: Session)
    ensures r.error.None? && r.editedImage.None? && r.aiResponseText.None? && r.isLoading
    ensures r.originalImage == s.originalImage && r.prompt == s.prompt
  {
    s.(error := None, editedImage := None, aiResponseText := None, isLoading := true)
  }

  /** `handleImageUpload` after the read: store the image, or report the
      failure and keep the previous image; loading ends either way. */
  function UploadFinish(s: Session, file: ImageUploader.File, outcome: ReadOutcome): (r: Session)
    ensures !r.isLoading
    ensures outcome.Read? ==>
      && r.error == s.error && r.originalImage.Some?
      && r.originalImage.value.base64 == Payload(outcome.dataUrl)
      && r.originalImage.value.mimeType == file.mimeType && r.originalImage.value.name == file.name
    ensures outcome.ReadFailed? ==> r.error == Some(ReadFailedMessage) && r.originalImage == s.originalImage
    ensures r.prompt == s.prompt && r.editedImage == s.editedImage && r.aiResponseText == s.aiResponseText
  {
    match outcome
    case Read(dataUrl) =>
      s.(originalImage := Some(ImageData(Payload(dataUrl), file.mimeType, file.name)), isLoading := false)
    case ReadFailed =>
      s.(error := Some(ReadFailedMessage), isLoading := false)
  }

  /** The generate guard: an image is loaded and the prompt is not empty. */
  predicate CanGenerate(s: Session)
  {
    s.originalImage.Some? && s.prompt != ""
  }

  /** The arguments `editImageWithGemini` is called with. */
  datatype Request = Request(base64: Option<string>, mimeType: string, prompt: string)

  /** The start of `handleGenerate`: either rejected by the guard (the
      service is not called), or started with a request. */
  datatype GenerateStep =
    | Rejected(session: Session)
    | Started(session: Session, request: Request)

  /** `handleGenerate` up to the call. A rejection only sets the error slot;
      a start clears the error, the edited image and the note and sets loading. */
  function GenerateStart(s: Session): (r: GenerateStep)
    ensures r.Rejected? <==> !CanGenerate(s)
    ensures r.Rejected? ==>
      r.session.error == Some(MissingInputMessage) && r.session.(error := s.error) == s
    ensures r.Started? ==>
      && r.session.error.None? && r.session.editedImage.None?
      && r.session.aiResponseText.None? && r.session.isLoading
      && r.session.originalImage == s.originalImage && r.session.prompt == s.prompt
    ensures r.Started? ==>
      && r.request.base64 == s.originalImage.value.base64
      && r.request.mimeType == s.originalImage.value.mimeType && r.request.prompt == s.prompt
  {
    if !CanGenerate(s) then Rejected(s.(error := Some(MissingInputMessage)))
    else
      var img := s.originalImage.value;
      Started(s.(error := None, editedImage := None, aiResponseText := None, isLoading := true),
              Request(img.base64, img.mimeType, s.prompt))
  }

  /** `handleGenerate` after the call: show the returned image, or report
      that none came back, or report the thrown error; loading ends. */
  function GenerateFinish(s: Session, outcome: Result<GeminiService.EditResult>): (r: Session)
    ensures !r.isLoading
    ensures r.originalImage == s.originalImage && r.prompt == s.prompt
    ensures outcome.Ok? && Truthy(outcome.value.imageUrl) ==>
      r.editedImage == Some(EditedImagePrefix + outcome.value.imageUrl.value) && r.error == s.error
    ensures outcome.Ok? && !Truthy(outcome.value.imageUrl) ==>
      r.error == Some(NoImageMessage) && r.editedImage == s.editedImage
    ensures outcome.Ok? ==> r.aiResponseText == outcome.value.text
    ensures outcome.Err? ==>
      && r.error == Some(ErrorPrefix + outcome.message)
      && r.editedImage == s.editedImage && r.aiResponseText == s.aiResponseText
  {
    match outcome
    case Ok(result) =>
      var s1 := if Truthy(result.imageUrl)
        then s.(editedImage := Some(EditedImagePrefix + result.imageUrl.value))
        else s.(error := Some(NoImageMessage));
      s1.(aiResponseText := result.text, isLoading := false)
    case Err(message) =>
      s.(error := Some(ErrorPrefix + message), isLoading := false)
  }

  /** `handleReset`: every field back to its initial value. */
  function Reset(s: Session): (r: Session)
    ensures r.originalImage.None? && r.editedImage.None? && r.error.None? && r.aiResponseText.None?
    ensures r.prompt == "" && !r.isLoading
  {
    Initial
  }

  /** A reset forgets everything, whatever the session was: the pane shows
      the placeholder, and a generate is refused until an image and a prompt
      are supplied again. */
  lemma ResetForgetsSession(s: Session, t: Session)
    ensures Reset(s) == Reset(t) == Initial
    ensures ResultPane(Reset(s)) == Display(ImageDisplay.Placeholder)
    ensures GenerateStart(Reset(s)) == Rejected(Initial.(error := Some(MissingInputMessage)))
  {
  }

  /** A started generate that completes leaves exactly one of an edited image
      and an error, whatever the service did. */
  lemma GenerateEndsWithImageOrError(s: Session, configured: bool, call: GeminiService.CallOutcome)
    requires CanGenerate(s)
    ensures var fin := GenerateFinish(GenerateStart(s).session, GeminiService.EditImage(configured, call));
      fin.editedImage.Some? != fin.error.Some?
  {
  }

  /** The full generate path against the service: which message ends up in
      the error slot, and when an edited image appears. */
  lemma GenerateAgainstService(s: Session, configured: bool, call: GeminiService.CallOutcome)
    requires CanGenerate(s)
    ensures var fin := GenerateFinish(GenerateStart(s).session, GeminiService.EditImage(configured, call));
      && (!configured ==> fin.error == Some(ErrorPrefix + GeminiService.NotConfiguredMessage))
      && (configured && call.Threw? ==>
            fin.error == Some(ErrorPrefix + (GeminiService.ErrorPrefix + call.message)))
      && (configured && call.Returned? && GeminiService.SafetyBlocked(call.response)
            && GeminiService.Classify(call.response).Err? ==>
            fin.error == Some(ErrorPrefix + (GeminiService.ErrorPrefix + GeminiService.SafetyMessage)))
      && (fin.editedImage.Some? <==>
            configured && call.Returned? && Truthy(GeminiService.Extracted(call.response).imageUrl))
  {
  }

  /** The `src` the app gives the display for the uploaded image. */
  function OriginalSrc(img: ImageData): string
  {
    "data:" + img.mimeType + ";base64," + (if img.base64.Some? then img.base64.value else "undefined")
  }

  /** What the result pane shows: the loader, the error, or the image display. */
  datatype Pane = Loading | ErrorPane(message: string) | Display(view: ImageDisplay.View)

  function ResultPane(s: Session): (p: Pane)
    ensures s.isLoading <==> p.Loading?
    ensures p.ErrorPane? <==> !s.isLoading && Truthy(s.error)
    ensures p.ErrorPane? ==> p.message == s.error.value
    ensures p.Display? ==> p.view == ImageDisplay.Render(
      if s.originalImage.Some? then Some(OriginalSrc(s.originalImage.value)) else None, s.editedImage)
  {
    if s.isLoading then Loading
    else if Truthy(s.error) then ErrorPane(s.error.value)
    else Display(ImageDisplay.Render(
      if s.originalImage.Some? then Some(OriginalSrc(s.originalImage.value)) else None, s.editedImage))
  }

  /** After a successful upload of a base64 data URL, the pane shows the
      original image, labelled as such, and its `src` parses back to the
      file's MIME type and the uploaded base64 text. */
  lemma UploadShowsOriginal(s: Session, file: ImageUploader.File, data: string)
    requires ExportModal.NoLineTerminator(file.mimeType, 0, |file.mimeType|)
    requires ';' !in file.mimeType && ',' !in file.mimeType && ',' !in data
    ensures var fin := UploadFinish(UploadStart(s), file, Read("data:" + file.mimeType + ";base64," + data));
      && fin.originalImage == Some(ImageData(Some(data), file.mimeType, file.name))
      && ResultPane(fin).Display?
      && ResultPane(fin).view.Picture?
      && ResultPane(fin).view.badge == ImageDisplay.OriginalBadge
      && ExportModal.ParseDataUrl(ResultPane(fin).view.src) == Some(ExportModal.DataUrlParts(file.mimeType, data))
  {
    var header := "data:" + file.mimeType + ";base64";
    assert ',' !in header by {
      assert forall k :: 0 <= k < |header| ==> header[k] == ("data:" + file.mimeType + ";base64")[k];
    }
    assert "data:" + file.mimeType + ";base64," + data == header + "," + data;
    PayloadAfterHeader(header, data);
    ExportModal.ParseDataUrlRoundTrip(file.mimeType, data);
  }
}
