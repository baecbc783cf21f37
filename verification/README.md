# AI photo editor — UI logic model

A Dafny model of the pure, sequential logic in the user-interface layer of a
React photo editor that sends an image and a text prompt to Google's Gemini
image model and lets the user adjust, filter, annotate and export the result.
What is modelled:

- **Session** (`App.tsx`): the record `{originalImage, editedImage, prompt,
  isLoading, error, aiResponseText}` and the upload, generate and reset
  handlers as transitions on it. Each asynchronous handler is split into a
  start transition and a completion transition; the file read and the service
  call in between are inputs.
- **Service** (`services/geminiService.ts`): decoding a model response into an
  optional image and an optional text, classifying an empty result as a safety
  block or a generic failure, and re-wrapping errors. The response itself is an
  input; there is no network.
- **Editor-state panels** (`AdjustmentPanel.tsx`, `EffectsPanel.tsx`): record
  updates of the editor state with the `commit` flag each one emits;
  quarter-turn rotation with JavaScript's truncating `%`; flip; resets.
- **Text panel** (`TextPanel.tsx`): the form fields, their sync with the
  selected text object, style toggles, and the add/update/delete requests.
- **Merge panel** (`MergePanel.tsx`): overlay placement updates, mask tool and
  brush size, overlay upload.
- **Export** (`ExportModal.tsx`): the exported file name, the encoder's MIME
  type and quality argument, and the parse of a `data:` URL header
  (`data:[<mediatype>][;base64],<data>`, section 2 of RFC 2397) into a MIME
  type and a payload.
- **Display and upload** (`ImageDisplay.tsx`, `ImageUploader.tsx`): which
  image is shown with which labels, and which chosen or dropped file is
  forwarded.

Modelling conventions: JavaScript `null` and `undefined` are both
`Option.None`, since the code never distinguishes them; a `string | null` is
truthy when present and non-empty (`Base.Truthy`); slider values come from
`parseFloat` and are `real`; a thrown `Error` is `Result.Err(message)`.
`String.prototype.split`, `join`, `startsWith`, `indexOf` and `lastIndexOf`
are defined once in `strings.dfy` with contracts characterising them (for
example `Strings.JoinSplit`: joining a split gives the string back).

Two places where the code does something other than its surface suggests,
and the model follows the code:

- The quality slider runs from 10 to 100 (components/ExportModal.tsx:136), but
  the encoder receives `quality / 100`, a value from 0.1 to 1
  (components/ExportModal.tsx:44).
- The file input's `accept` list and the hint under it name PNG, JPEG and WEBP
  only (components/ImageUploader.tsx:45, 60). The drop handler accepts any
  type starting with `image/` (components/ImageUploader.tsx:33). A file
  chosen through the input is forwarded with no type check at all, since
  `accept` is only a hint to the browser's file chooser.

Files: `base.dfy` (Option, Result, truthiness, `%`), `strings.dfy`,
`editor.dfy` (the editor-state record), one file per source component.

## Model

| member | source | states |
|---|---|---|
| `ExportModal.FileName` | components/ExportModal.tsx:20-27 | The exported name is the text before the last `.` of the original name (the whole name when there is no `.`), replaced by `image` when that is empty, followed by `_edited.` and the format string. |
| `ExportModal.FileNameSuffix` | components/ExportModal.tsx:26 | Every exported name ends with `_edited.` followed by the chosen format string unchanged (`jpeg`, not `jpg`). |
| `ExportModal.FileNameDropsLastSegment` | components/ExportModal.tsx:21-25 | For a name `before.ext` with no `.` in `ext`, exactly `ext` is removed and every earlier dot is kept; an empty `before` gives `image`. |
| `ExportModal.FileNameWithoutDot` | components/ExportModal.tsx:21-25 | A non-empty name with no `.` is kept whole as the stem. |
| `ExportModal.FileNameKeepsInnerDot` | components/ExportModal.tsx:21-26 | Every dot before the last stays in the name: `x.y.ext` exports as `x.y_edited.` plus the format, as `a.b.png` gives `a.b_edited.png`. |
| `ExportModal.FileNameHiddenFallback` | components/ExportModal.tsx:25 | A hidden-file name `.ext` has an empty stem and exports as `image_edited.` plus the format, as `.png` in JPEG gives `image_edited.jpeg`. |
| `ExportModal.ExportRequest` | components/ExportModal.tsx:36-45 | Fails with `Canvas not available` exactly when there is no canvas; otherwise the MIME type is `image/` plus the format, PNG gets no quality argument, and JPEG and WEBP get the slider value divided by 100. |
| `ExportModal.ParseDataUrl` | components/ExportModal.tsx:66-71 | Returns null exactly when the URL has no `,` or the header before the first `,` has no `:` followed by a `;` on the same line (`ExportModal.HasColonThenSemicolon`); a result holds no `;` or `,` in its MIME type, and its payload is comma-free. |
| `ExportModal.ParseDataUrlSingleLine` | components/ExportModal.tsx:67-71 | On a header without line breaks, parsing succeeds exactly when the URL has a `,` and the header has a `:` with a `;` after it, and the MIME type is the text between the first `:` and the next `;`. |
| `ExportModal.MimeMatchSingleLine` | components/ExportModal.tsx:69 | On a single-line header the lazy `/:(.*?);/` match equals the text between the first `:` and the next `;`, and there is no match when either is missing. |
| `ExportModal.MimeMatchFromNone` | components/ExportModal.tsx:69 | On any header, line breaks included, the `/:(.*?);/` match fails exactly when no `:` is followed by a `;` on the same line. |
| `ExportModal.ParseDataUrlRoundTrip` | components/ExportModal.tsx:66-71 | Parsing `data:<mime>;base64,<payload>` gives back `<mime>` and `<payload>` when the MIME type has no `;`, `,` or line break and the payload no `,`. |
| `ExportModal.ExportMimeRoundTrip` | components/ExportModal.tsx:40-44 | A data URL carrying the MIME type chosen for an export parses back to `image/` plus that format. |
| `GeminiService.FoldText` | services/geminiService.ts:53-60 | The text extracted from the parts is the text of the last part with a non-empty text, and null when no part has one. |
| `GeminiService.FoldImage` | services/geminiService.ts:53-60 | The image extracted is the inline data of the last part that has inline data and no non-empty text, and null when there is none; a part's non-empty text hides its inline data. |
| `GeminiService.ExtractParts` | services/geminiService.ts:50-60 | The source's loop over the parts, accumulating in two variables, computes the same pair as the fold. |
| `GeminiService.TextHidesInlineData` | services/geminiService.ts:55-58 | In one part a non-empty text is taken and the inline data ignored; an empty text lets the inline data through. |
| `GeminiService.Classify` | services/geminiService.ts:63-73 | The response succeeds exactly when the extracted image or text is non-empty, and then returns the extracted pair unchanged; otherwise it fails with the safety message exactly when the first candidate's finish reason is `SAFETY`, and with the empty-content message exactly when it is not. |
| `GeminiService.EditImage` | services/geminiService.ts:26-80 | Unconfigured, the call fails with the not-configured message; configured, a thrown `Error` fails with `Gemini API Error: ` plus its message, anything else thrown fails with the unknown-error message, and every failure carries the prefix or is that message; a success holds a non-empty image or text. |
| `GeminiService.NotConfiguredOnlyWhenUnconfigured` | services/geminiService.ts:26-28 | The unprefixed not-configured error arises exactly when no client is configured; nothing raised inside the `try` can equal it. |
| `GeminiService.NotConfiguredIsDistinct` | services/geminiService.ts:26-28 | The not-configured message equals neither a message with the `Gemini API Error: ` prefix nor the unknown-error message. |
| `GeminiService.EditImageClassification` | services/geminiService.ts:63-77 | A response with an image or text is returned as extracted; with neither, the safety block and the generic case raise the prefixed safety and empty-content errors. |
| `GeminiService.OnlyFirstCandidate` | services/geminiService.ts:53-54 | Candidates after the first never change the outcome. |
| `GeminiService.NoCandidates` | services/geminiService.ts:50-54 | With no candidates both image and text are null and a configured call fails with the prefixed empty-content error. |
| `AdjustmentPanel.HandleAdjustmentChange` | components/AdjustmentPanel.tsx:14-22 | The named adjustment takes the new value, the other four adjustments, the transform and the effects are unchanged, and the caller's commit flag is passed through. |
| `AdjustmentPanel.HandleRotate` | components/AdjustmentPanel.tsx:24-35 | Only the rotation changes and the update commits; the new rotation is the old one plus or minus 90 reduced modulo 360, so a rotation in {0, 90, 180, 270} stays in that set. |
| `AdjustmentPanel.FourQuarterTurns` | components/AdjustmentPanel.tsx:24-35 | Four clockwise turns from a valid rotation give back the same state. |
| `AdjustmentPanel.TurnAndTurnBack` | components/AdjustmentPanel.tsx:24-35 | A turn in one direction followed by a turn in the other gives back the same state. |
| `AdjustmentPanel.HandleFlip` | components/AdjustmentPanel.tsx:37-45 | `flipH` is negated, nothing else changes, and the update commits. |
| `AdjustmentPanel.FlipTwice` | components/AdjustmentPanel.tsx:37-45 | Flipping twice is the identity. |
| `AdjustmentPanel.ResetAdjustments` | components/AdjustmentPanel.tsx:47-52 | Brightness, contrast and saturation become 100 and hue and blur 0; transform and effects are kept; the update commits. |
| `AdjustmentPanel.ResetAdjustmentsIdempotent` | components/AdjustmentPanel.tsx:47-52 | Resetting twice equals resetting once. |
| `EffectsPanel.PresetButtonsCoverPresets` | components/EffectsPanel.tsx:11-18 | The preset ids are exactly `none`, `sepia`, `grayscale` and `invert`, distinct, and each preset has exactly one button. |
| `EffectsPanel.HandleEffectChange` | components/EffectsPanel.tsx:24-29 | The named effect takes the new value, the other effect, the preset, the adjustments and the transform are unchanged, and the commit flag is passed through. |
| `EffectsPanel.HandlePresetChange` | components/EffectsPanel.tsx:31-36 | The preset is set, vignette, noise, adjustments and transform are kept, and the update commits. |
| `EffectsPanel.PresetChangeIdempotent` | components/EffectsPanel.tsx:31-36 | Choosing the same preset again changes nothing further. |
| `EffectsPanel.ResetEffects` | components/EffectsPanel.tsx:38-43 | The preset becomes `none` and vignette and noise 0; adjustments and transform are kept; the update commits. |
| `EffectsPanel.ResetEffectsIdempotent` | components/EffectsPanel.tsx:38-43 | Resetting twice equals resetting once. |
| `TextPanel.SyncActive` | components/TextPanel.tsx:47-62 | With a selected object the form takes all its fields; with none, only the style fields reset to normal/normal/none while text, font, size and colour keep their values. |
| `TextPanel.MountKeepsInitialForm` | components/TextPanel.tsx:39-62 | When nothing is selected at mount, the sync leaves the initial form (`Hello World`, `Impact`, 80, `#FFFFFF`, normal/normal/none) as it is. |
| `TextPanel.HandleUpdate` | components/TextPanel.tsx:81-84 | Nothing is sent without a selected object; otherwise the sent object holds the new value and agrees with the selected one on every other field, id included. |
| `TextPanel.UpdateThenSync` | components/TextPanel.tsx:47-84 | Updating the selected object and re-selecting it gives the form the same edit would have given, so form and object stay in step. |
| `TextPanel.HandleFieldEdit` | components/TextPanel.tsx:81-185 | An input change sets the form field; with a selected object, it sends that object with the edited field set to the new value and every other field, `id`, `x` and `y` included, unchanged; a form in step with the object stays in step. |
| `TextPanel.TogglesAreInvolutions` | components/TextPanel.tsx:90-98 | Each style toggle swaps normal/bold, normal/italic and none/underline, so two toggles are the identity. |
| `TextPanel.HandleStyleToggle` | components/TextPanel.tsx:86-104 | The form's style field is flipped from its current form value; with a selected object, the object is sent with that field set to the flip of the form's value (not of the object's) and every other field unchanged; a form in step with the object stays in step. |
| `TextPanel.ToggleTwiceUnselected` | components/TextPanel.tsx:86-104 | With nothing selected, two presses of a style button restore the form and send nothing. |
| `TextPanel.ToggleTwiceSelected` | components/TextPanel.tsx:47-104 | With a selected object in step with the form, press, sync and press again send back the original object and restore the form. |
| `TextPanel.HandleAdd` | components/TextPanel.tsx:64-79 | Nothing is added without a canvas or with empty text; otherwise the new object has the given id, sits at half the canvas width and height, and carries the form's text, font, size, colour and styles. |
| `TextPanel.AddThenSelect` | components/TextPanel.tsx:47-79 | Selecting the object just added leaves the form unchanged. |
| `TextPanel.HandleDelete` | components/TextPanel.tsx:106-110 | A delete is requested exactly when an object is selected, with that object's id. |
| `TextPanel.AddThenDelete` | components/TextPanel.tsx:64-110 | An object just added and then selected is deleted by the id it was given. |
| `MergePanel.HandleConfigChange` | components/MergePanel.tsx:45-47 | The named placement value is replaced and the other four are unchanged. |
| `MergePanel.ConfigChangeLastWins` | components/MergePanel.tsx:45-47 | Two changes of the same key leave the later value. |
| `MergePanel.HandleMergeToolChange` | components/MergePanel.tsx:49-51 | The tool is set and the brush size kept. |
| `MergePanel.HandleBrushSizeChange` | components/MergePanel.tsx:52-54 | The brush size is set and the tool kept. |
| `MergePanel.ToolAndSizeCommute` | components/MergePanel.tsx:49-54 | Tool and brush-size changes commute. |
| `MergePanel.ToolButtonsCoverTools` | components/MergePanel.tsx:79-81 | Each of `move`, `brush` and `eraser` has exactly one tool button, so the tool is always one of the three. |
| `MergePanel.HandleFileChange` | components/MergePanel.tsx:34-39 | The first chosen file is sent for upload, and nothing is sent without one. |
| `MergePanel.FileChangeLikePicker` | components/MergePanel.tsx:34-39 | The overlay input forwards exactly what the main picker forwards for the same files, with no type check either. |
| `ImageUploader.OnFileChange` | components/ImageUploader.tsx:13-18 | The first chosen file is forwarded with no type check; with no file nothing is forwarded. |
| `ImageUploader.OnDrop` | components/ImageUploader.tsx:29-36 | The first dropped file is forwarded exactly when there is one and its type starts with `image/`. |
| `ImageUploader.DropIsStricterThanPick` | components/ImageUploader.tsx:13-36 | A drop forwards what choosing the same files would, and refuses only a first file whose type does not start with `image/`. |
| `ImageUploader.OnlyFirstDropped` | components/ImageUploader.tsx:32-33 | A non-image first file blocks the drop whatever files follow it. |
| `ImageDisplay.Render` | components/ImageDisplay.tsx:11-32 | The placeholder appears exactly when both images are null or empty; otherwise the edited image is shown when non-empty, else the original, with alt `AI Edited` and badge `Edited Vision` exactly when an edited image is present, `Original Upload` and `Original` otherwise. |
| `ImageDisplay.EditedHidesOriginal` | components/ImageDisplay.tsx:11-32 | With a non-empty edited image the view does not depend on the original. |
| `App.Payload` | App.tsx:40 | The stored base64 text is undefined exactly when the data URL has no comma, and otherwise is comma-free. |
| `App.PayloadAfterHeader` | App.tsx:40 | The stored text of `<header>,<data>` with comma-free parts is `<data>`. |
| `App.PayloadIsSecondPiece` | App.tsx:40 | After a comma-free header and its comma, the stored text is the rest up to the next comma (the second piece of the split), whatever follows. |
| `App.UploadStart` | App.tsx:32-36 | Starting an upload clears the error, the edited image and the note and sets loading, keeping the original image and prompt. |
| `App.UploadFinish` | App.tsx:37-49 | A successful read stores the comma segment, the file's type and name; a failed read sets `Failed to read the image file.` and keeps the previous original image; loading ends either way. |
| `App.GenerateStart` | App.tsx:52-63 | Without an image or with an empty prompt only the error slot changes, to the upload-and-prompt message, and no request is made; otherwise error, edited image and note are cleared, loading starts, and the service gets the stored base64, MIME type and prompt. |
| `App.GenerateFinish` | App.tsx:62-75 | A result with an image shows it as `data:image/png;base64,` plus the image; one without sets the no-image error; both set the note to the result's text; a thrown error sets `An error occurred: ` plus its message; loading ends. |
| `App.GenerateEndsWithImageOrError` | App.tsx:52-75 | After a started generate completes, exactly one of an edited image and an error is present, whatever the service did. |
| `App.GenerateAgainstService` | App.tsx:62-71 | Through the service: an unconfigured client shows the unprefixed not-configured message after `An error occurred: `, a thrown error and a safety block show the doubly prefixed messages, and an edited image appears exactly when the first candidate yields non-empty inline data. |
| `App.Reset` | App.tsx:78-85 | Reset returns every field to its initial value: no images, no error, no note, empty prompt, not loading. |
| `App.ResetForgetsSession` | App.tsx:78-85 | A reset gives the same session whatever came before; the pane then shows the placeholder, and a generate is refused with the upload-and-prompt message. |
| `App.ResultPane` | App.tsx:148-161 | The pane shows the loader exactly while loading, the error exactly when not loading and the error is non-empty, with the session's error text as its message, and otherwise the image display fed with the original's data URL and the edited image. |
| `App.UploadShowsOriginal` | App.tsx:32-49 | After uploading a base64 data URL the pane shows the original labelled `Original`, and its source parses back to the file's MIME type and the uploaded base64 text. |

## Left out

- The edit history (undo/redo), the compositing pipeline, the mask raster, text hit-testing and the pointer/drag state machine are not part of this model: their code is not among the modelled files. The record shapes `EditorState`, `TextObject`, `OverlayConfig` and `MergeConfig` are reconstructed from how the panels use them.
- The Gemini client, its construction from the `API_KEY` environment variable and the network request (services/geminiService.ts:4-12, 30-48) are foreign; the model takes a `configured` flag and the call's outcome as inputs.
- A candidate whose `content` or `parts` is missing makes the loop throw a `TypeError` that is then re-wrapped; the model's candidates always carry a list of parts.
- `FileReader`, `atob` and the byte copy into a `File`, `canvas.toDataURL`, `navigator.share`/`canShare` and the download link are browser I/O; the model stops at the header parse and the encoder request.
- The `Date.now()` id of a new text object is a clock reading; it is a parameter of `TextPanel.HandleAdd`.
- The slider component and the toolbar are presentational; slider values arrive as `real`s with the commit flag the slider passes.
- `handleAdjustmentChange`, `handleEffectChange`, `handleConfigChange` and `handleUpdate` accept any key; the model covers the keys the panels pass (and, for `handleUpdate`, the seven fields the panel edits, not `id`, `x` or `y`).
- JavaScript numbers are doubles; the model computes `quality / 100`, `width / 2` and the rotation arithmetic exactly.
- Prompt editing (`setPrompt`) is a plain assignment and has no transition of its own.
- React's batching of state updates is not modelled: each handler's setter calls are applied in order to the state the handler saw.
- `ExportModal.ParseDataUrlSingleLine`: the MIME type is characterised as the text between the first `:` and the next `;` only for headers without line breaks; for other headers the result is the capture of the modelled regular expression (`ExportModal.MimeMatchFrom`), and only when it is null is characterised in general (`ExportModal.MimeMatchFromNone`).
