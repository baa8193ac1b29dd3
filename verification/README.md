# ThumbnailPro AI — a Dafny model of its core

ThumbnailPro AI is a single-page app that turns a YouTube link into two
thumbnails, a "normal" one and a "clickbait" one. It asks a language model to
describe the video, asks an image model for both thumbnails in parallel, and
opens a studio. In the studio the user can switch style and orientation, make
text-prompted edits with undo, and download the result. This project models,
in Dafny, the logic behind that flow:

- `Utils` (utils.ts): the link-target rule for downloads, and
  `extractYoutubeId`, whose regular expression is modelled over code points.
  The greedy `^.*` makes the rightmost marker on the first line win. Every `.`,
  including the unescaped one in `youtu.be`, matches one character other than
  a line terminator (`\n`, `\r`, U+2028, U+2029). The id must be exactly 11
  characters.
- `Gemini` (services/geminiService.ts): how the service's requests are built
  and how its replies are read. That covers the analyser's search context and
  fallbacks, and the synthesis prompt with its data section and optional notes
  line. It covers the reference-photo parts: blank photos are skipped and
  data-URL prefixes are stripped. It covers the first-inline-image / first-text
  refusal / nothing extraction, and the error messages of generation, edit and
  vertical derivation. Each remote call becomes a parameter carrying the reply,
  or the error the call threw.
- `Studio` (components/ResultStudio.tsx): four slots keyed by style ×
  orientation. Each slot has an edit history whose last entry is the image
  shown. Edits are captured against the slot selected at submit time, undo
  works per slot, and the download file name is modelled.
- `App` (App.tsx): the step machine INPUT → ANALYZING → GENERATING → RESULT,
  the two-request join, the error banner, reset, and how edits are handed to
  the service.
- `InputForm` (components/InputSection.tsx): the submit guard, appending and
  removing reference photos, the disabled button and the count notice.
- `Steps` (components/StepIndicator.tsx): each step's status, its icon and the
  connectors.
- `Payment` (components/PaymentModal.tsx): the fee, the free first-time path,
  the checkout amount in paise and its currency, and the success and failure
  callbacks.
- `Wrappers`, `Text` and `Types` are support modules. `Text` holds the
  JavaScript string built-ins the code relies on: `trim`, `toLowerCase` on
  ASCII, `replace` of a first character, and decimal printing.

Points of the code worth knowing:

- The vertical derivation sends `s.split(',')[1]`. That is the text between the
  first and the second comma (`Gemini.VerticalPayload`).
- App.tsx passes the studio only the two landscape images. Both vertical slots
  are therefore `undefined`, and nothing in App.tsx produces vertical images
  (`App.VerticalSlotsUnusable`).
- `handleEdit` in App.tsx drops the studio's aspect ratio, so every edit is
  requested at 16:9 (`App.EditCallRequest`).

## Model

| member | source | states |
|---|---|---|
| `Text.TrimEmptyIffBlank` | components/ResultStudio.tsx:44 | `trim()` of a string is empty exactly when every character is JavaScript whitespace, the test behind the edit guard and the photo filter |
| `Text.AsciiLower` | components/ResultStudio.tsx:39 | lower-casing keeps the length and maps each upper-case ASCII letter to its lower-case form, every other character unchanged |
| `Text.IndexOf` | components/ResultStudio.tsx:39 | the first position of a character, or -1 exactly when it does not occur |
| `Text.Decimal` | components/ResultStudio.tsx:39 | a number printed in a template literal is a non-empty run of digits without a leading zero |
| `Text.DecimalRoundTrip` | components/ResultStudio.tsx:39 | reading a printed number back gives the number |
| `Text.DecimalInjective` | components/InputSection.tsx:104 | different numbers print differently |
| `Types.StepIndexIsPosition` | components/StepIndicator.tsx:18-20 | a step's index is its position in the step order |
| `Utils.DownloadHref` | utils.ts:71 | the link target is the payload itself exactly when the payload already starts with `data:`, and otherwise the PNG data-URL prefix followed by the payload |
| `Utils.DownloadHrefIdempotent` | utils.ts:71 | applying the link rule to its own output changes nothing |
| `Utils.AtMostOneAlternative` | utils.ts:79 | at one position at most one alternative of the marker group matches |
| `Utils.MarkerLength` | utils.ts:79 | the marker length at a position is non-zero exactly when some alternative matches there, and then equals that alternative's length |
| `Utils.LastMarker` | utils.ts:79 | scanning down finds the rightmost marker start at or before a bound, or reports that none exists |
| `Utils.IdRunLength` | utils.ts:79 | capture group 2 is the longest run of characters other than `#`, `&` and `?` |
| `Utils.ExtractYoutubeId` | utils.ts:78-82 | a result always has 11 id characters; it is the capture after the rightmost marker of the first line when that capture has 11 characters, and null when it does not or when the first line has no marker |
| `Utils.NoMarkerFrom` | utils.ts:79 | where no two characters open an alternative, no marker starts |
| `Utils.ShortLinkExample` | utils.ts:78-82 | `https://youtu.be/dQw4w9WgXcQ` yields `dQw4w9WgXcQ` |
| `Utils.NonVideoLinkExample` | utils.ts:78-82 | `https://example.com/video` yields null |
| `Gemini.FindImage` | services/geminiService.ts:161-165 | the data of the first inline-image part, or nothing when no part is an image |
| `Gemini.FindRefusal` | services/geminiService.ts:168 | the text of the first part with non-empty text, or nothing |
| `Gemini.Extract` | services/geminiService.ts:161-173 | the first inline image wins; without one, the first non-empty text is a refusal; without either, there is no image |
| `Gemini.ImageOutcome` | services/geminiService.ts:161-173 | success exactly for an extracted image, as a PNG data URL of its data; a refusal's error is the call's refusal head followed by the text; no image gives the call's empty-result message |
| `Gemini.WordRunExact` | services/geminiService.ts:137 | a run of word characters that ends at a non-word character is the greedy `\w+` run |
| `Gemini.DataPrefixLength` | services/geminiService.ts:137 | the length of a leading `data:image/<word>;base64,` prefix, the only such prefix, or 0 when there is none |
| `Gemini.StripDataPrefix` | services/geminiService.ts:189 | stripping removes a leading image data-URL prefix when there is one and leaves the string unchanged otherwise |
| `Gemini.StripUndoesPngDataUrl` | services/geminiService.ts:163 | stripping the PNG data URL the extraction builds gives back the returned data |
| `Gemini.StripWithoutPrefixIsIdentity` | services/geminiService.ts:137 | a string with no such prefix is sent unchanged |
| `Gemini.VerticalPayload` | services/geminiService.ts:272 | without a comma the whole string is sent; with one, the field after the first comma up to the next comma or the end |
| `Gemini.VerticalPayloadOfPngDataUrl` | services/geminiService.ts:272 | for a generated image whose data has no comma, the vertical derivation sends back exactly that data |
| `Gemini.VerticalPayloadStopsAtSecondComma` | services/geminiService.ts:272 | `a,b,c` sends `b`, not `b,c` |
| `Gemini.SearchContext` | services/geminiService.ts:10-11 | a `site:youtube.com "<id>"` query when an id is found, otherwise the raw URL after `YouTube video URL: ` |
| `Gemini.AnalysisRequestFor` | services/geminiService.ts:10-38 | the analysis request carries the URL, the id found in it, the search context and the user's context, and enables the search tool |
| `Gemini.AnalyzeVideo` | services/geminiService.ts:5-47 | the analyser never fails and its summary is never empty: the reply text, the default summary for an empty reply, or the context-based fallback when the call throws |
| `Gemini.ThumbnailPrompt` | services/geminiService.ts:116-126 | the prompt starts with the brief of its mode and carries the summary line at a fixed place in the data section |
| `Gemini.PromptDeterminesMode` | services/geminiService.ts:117 | equal prompts come from the same mode |
| `Gemini.NotesInsertOneLine` | services/geminiService.ts:124 | with notes, the prompt is the notes-free prompt with `ADDITIONAL NOTES BY THE USER: <notes>` inserted right after the summary line |
| `Gemini.NoNotesNoLine` | services/geminiService.ts:124 | without notes, the summary line's break is followed directly by the closing lines |
| `Gemini.ReferenceParts` | services/geminiService.ts:132-145 | at most one part per photo, every one a JPEG image part |
| `Gemini.ReferencePartsKeepAllIffNoneBlank` | services/geminiService.ts:135 | every photo gets a part exactly when no photo is blank |
| `Gemini.ReferencePartsConcat` | services/geminiService.ts:134 | the parts of two photo lists are the parts of each, in order |
| `Gemini.ReferencePartsAllKept` | services/geminiService.ts:134-144 | with no blank photo, part i carries photo i with its prefix stripped |
| `Gemini.AssembleParts` | services/geminiService.ts:128-145 | the push loop yields the prompt part followed by the reference parts |
| `Gemini.ThumbnailRequest` | services/geminiService.ts:128-158 | the request has the requested ratio, the prompt first, and after it exactly `ReferenceParts(refs)`: one stripped JPEG part per non-blank photo, in input order |
| `Gemini.GenerateThumbnail` | services/geminiService.ts:50-177 | success is always a PNG data URL; a thrown error is rethrown unchanged; otherwise the image, the refusal or the empty-result error of the extraction |
| `Gemini.EditRequest` | services/geminiService.ts:189-229 | the edit sends the current image, prefix stripped, as PNG data, then the instruction, at the given ratio |
| `Gemini.EditThumbnail` | services/geminiService.ts:180-247 | an absent image fails before any request; a thrown error is rethrown; success is always a PNG data URL |
| `Gemini.EditSendsBackReturnedData` | services/geminiService.ts:189 | an image returned by the service and edited again is sent as exactly the data that came back |
| `Gemini.VerticalRequest` | services/geminiService.ts:272-292 | the vertical request is always 9:16 and sends the payload field of the horizontal image |
| `Gemini.First100` | services/geminiService.ts:304 | the whole text when it has at most 100 characters, otherwise exactly its first 100 |
| `Gemini.VerticalRefusalMessage` | services/geminiService.ts:304 | the refusal message ends in `...` and holds the whole text up to 100 characters, otherwise exactly its first 100 |
| `Gemini.Rewrap` | services/geminiService.ts:308-310 | the rethrown message keeps a non-empty original and is `Failed to generate consistent vertical version.` for an empty one |
| `Gemini.GenerateVertical` | services/geminiService.ts:250-311 | an error always has a non-empty message; success is a PNG data URL; each extraction outcome maps to its message |
| `Studio.CurrentKey` | components/ResultStudio.tsx:33 | the slot key is the mode's name, with `_VERTICAL` appended for 9:16 |
| `Studio.CurrentKeyBijective` | components/ResultStudio.tsx:33 | the four (mode, ratio) pairs map one-to-one onto the four slots |
| `Studio.Init` | components/ResultStudio.tsx:13-29 | the studio opens on normal 16:9 with an empty prompt, and each slot's history is exactly its initial image |
| `Studio.SelectMode` | components/ResultStudio.tsx:93-104 | a mode tab changes only the mode and keeps every slot's history consistent |
| `Studio.SelectRatio` | components/ResultStudio.tsx:118-127 | a ratio tab changes only the ratio |
| `Studio.TypePrompt` | components/ResultStudio.tsx:191-197 | typing changes only the prompt, and not at all while an edit is in flight |
| `Studio.SubmitEdit` | components/ResultStudio.tsx:42-49 | a blank prompt or an edit in flight does nothing; otherwise the current slot's image, the prompt and the ratio go to the editor, and the edit is marked in flight for that slot |
| `Studio.FinishEdit` | components/ResultStudio.tsx:49-66 | a new image replaces the captured slot's image and is appended to that slot's history only, clearing the prompt; a failure changes nothing; either way the edit ends |
| `Studio.Undo` | components/ResultStudio.tsx:69-85 | with more than one entry the current slot's last entry goes and the one before it is shown; otherwise nothing changes; other slots are untouched |
| `Studio.UndoRevertsEdit` | components/ResultStudio.tsx:42-85 | undoing a successful edit restores every slot's image and history |
| `Studio.DownloadFileName` | components/ResultStudio.tsx:39 | the file name is `thumbnail-pro-` + `normal` or `clickbait` + `-` + `16-9` or `9-16` + `-` + the timestamp's digits + `.png`, for all four selections |
| `Studio.VerticalNormalFileName` | components/ResultStudio.tsx:39 | the vertical normal download is named `thumbnail-pro-normal-9-16-<time>.png` |
| `Studio.DownloadFileNameInjective` | components/ResultStudio.tsx:39 | different slots or times never give the same file name |
| `Studio.HandleDownload` | components/ResultStudio.tsx:38-40 | a download uses the link rule on the shown image under the selection's name, and fails exactly when the slot holds no image |
| `App.ErrorText` | App.tsx:49 | the banner text is the error's own message when it has one, and the fixed unexpected-error text otherwise |
| `App.InitialInv` | App.tsx:10-19 | the first render satisfies the shell's invariant |
| `App.Start` | App.tsx:21-25 | an empty URL does nothing; otherwise the banner clears and analysis begins |
| `App.Analyzed` | App.tsx:29-32 | the analyser's summary is stored and generation begins |
| `App.PromptsDiffer` | App.tsx:35-38 | the two prompts of one run differ |
| `App.GenerationCalls` | App.tsx:35-38 | both requests use the same summary, notes and photos at 16:9 and differ only in their prompt |
| `App.JoinBoth` | App.tsx:35-38 | both images when both succeed; otherwise the error of the request that rejected, or of the first to reject |
| `App.Generated` | App.tsx:35-52 | the result step with both images on success; otherwise the banner and the input step, images and summary untouched |
| `App.Reset` | App.tsx:60-65 | reset returns to the first render |
| `App.SuccessfulRun` | App.tsx:21-45 | a run whose generations succeed ends on the result step with both images, the analysed summary and no banner |
| `App.StudioImages` | App.tsx:114-116 | the studio gets the two generated images and nothing for the vertical slots |
| `App.EditCallRequest` | App.tsx:56-58 | an edit is always requested at 16:9, whatever ratio the studio shows |
| `App.HandleEdit` | App.tsx:56-58 | an edit of an absent image fails with V8's `TypeError` message; a thrown error is passed on; a reply maps through the extraction to the PNG data URL of the first inline image, `Model refused edit: …` or `No edited image returned.` |
| `App.VerticalSlotsUnusable` | App.tsx:114-121 | in the studio the shell opens, a 9:16 slot offers no download and every edit there fails without a request |
| `InputForm.Submit` | components/InputSection.tsx:16-24 | only an empty URL is refused, with the alert; otherwise the run starts with the form exactly as typed |
| `InputForm.ButtonMatchesSubmit` | components/InputSection.tsx:44 | when not processing, the button is disabled exactly when submitting would only alert |
| `InputForm.AppendFiles` | components/InputSection.tsx:26-38 | the selected files' data URLs are appended in order |
| `InputForm.KeepOthers` | components/InputSection.tsx:41 | the index filter over a suffix keeps every entry except the one at the index |
| `InputForm.RemoveImage` | components/InputSection.tsx:40-42 | an in-range index removes exactly that photo, keeping the order of the others; any other index removes nothing |
| `InputForm.RemoveUndoesAppend` | components/InputSection.tsx:35-42 | removing the photo just added gives back the list from before |
| `InputForm.ImageCountNotice` | components/InputSection.tsx:102-106 | no notice without photos; otherwise the notice starts with the photo count |
| `InputForm.NoticeCountsPhotos` | components/InputSection.tsx:104 | the number in the notice reads back as the number of photos |
| `Steps.GetStatus` | components/StepIndicator.tsx:17-25 | a step is completed, current or pending exactly when it comes before, is, or comes after the shell's step |
| `Steps.Statuses` | components/StepIndicator.tsx:29-30 | four statuses, one per step in display order |
| `Steps.StatusesShape` | components/StepIndicator.tsx:17-25 | the display is completed steps, then exactly one current step, then pending steps |
| `Steps.StepIcon` | components/StepIndicator.tsx:35-41 | check for completed, grey circle for pending, and a spinner exactly on the current step while analysing or generating |
| `Steps.SpinnerWhileWorking` | components/StepIndicator.tsx:36-40 | some step spins exactly while the shell is analysing or generating |
| `Steps.Connectors` | components/StepIndicator.tsx:47-48 | three connectors, each green exactly when the step before it is completed |
| `Steps.GreenConnectorsLeadToCurrent` | components/StepIndicator.tsx:47-48 | the green connectors are exactly those before the current step |
| `Payment.Amount` | components/PaymentModal.tsx:14 | the fee is zero exactly for a first-time user |
| `Payment.FeeLabelShowsAmount` | components/PaymentModal.tsx:84-86 | the printed fee is the rupee sign followed by the amount charged |
| `Payment.Render` | components/PaymentModal.tsx:12 | a closed modal renders nothing; an open one shows the fee label |
| `Payment.HandlePay` | components/PaymentModal.tsx:16-27 | a first-time user succeeds at once; anyone else opens a checkout for the fee times 100, that is 5000 paise, in INR |
| `Payment.OnCheckoutEvent` | components/PaymentModal.tsx:30-50 | only a successful payment continues; a failure only alerts `Payment Failed: <description>` |
| `Payment.PayEffects` | components/PaymentModal.tsx:16-51 | the free path continues once; a checkout answers each report in turn |
| `Payment.SuccessOnlyWhenFreeOrPaid` | components/PaymentModal.tsx:16-51 | `onSuccess` is reached exactly for a first-time user or a successful payment |

## Left out

- Calls to the generative-AI SDK, FileReader, `Date.now()`, the DOM, `alert`, `console` and Razorpay: every reply, file data URL, timestamp and checkout report is a parameter.
- The prose of the prompts: each brief and instruction is a short placeholder. The data section's exact layout, the notes line and the interpolated values are modelled.
- `fileToBase64`, `urlToBase64` and `resizeImage` in utils.ts: canvas and image decoding are outside the model.
- Promise scheduling: each `await` becomes an event carrying its outcome, and which of the two rejections settled first is a parameter of `App.JoinBoth`.
- The SDK's reply shape: a missing candidate or content is folded into an empty part list, which the code treats the same way.
- Lengths count code points, not UTF-16 code units. This matters only for text outside the Basic Multilingual Plane: `Gemini.First100` then keeps 100 code points where `substring(0, 100)` keeps 100 units, and `Utils.ExtractYoutubeId` differs as described on its own line.
- Utils.ExtractYoutubeId: counts code points where the source counts UTF-16 units. With a character outside the Basic Multilingual Plane, an id the source measures as 11 units (such as one emoji plus nine letters) is refused by the model. A `.` of the pattern also takes only half of a surrogate pair in the source, so `youtu<emoji>be/` matches in the model but not in the source.
- The step labels, the form's button label and the empty initial form: fixed display text with nothing to prove.
- `Text.AsciiLower`: lower-cases ASCII letters only, while `toLowerCase` also maps other scripts; the only inputs here are the mode names.
- `Text.ReplaceFirst`: its contract states only the length and the no-occurrence case; its two uses are fixed by `Studio.RatioParts`.
- `generateVerticalFromHorizontal` is modelled, but App.tsx never calls it.
- LandingPage, Navbar, Footer, CookieConsent, AdBanner and vite-env.d.ts: pure presentation. Nothing in App.tsx uses the payment modal.
- App.tsx has no persisted history store, no storage quota handling and no usage gate, so the model has none either.
- Styling, class names and the loading screen's text.
