# Appointment scheduler: a Dafny model of its decision logic

The service takes a free-text appointment request, or an uploaded image that
OCR turns into text. It asks a text-generation backend to extract the
department, date and time in two steps. It then decides whether to ask the
client for clarification or to store the appointment. This project models
that decision logic and proves its properties:

- `AiService` (`ai_service.dfy`) holds the model selection and the adapter
  around one generation call. The adapter rejects empty replies, strips code
  fences and parses the JSON. The module also holds the two-call extraction
  pipeline with its confidence guardrail and its catch-all error result.
- `AppointmentController` (`appointment_controller.dfy`) holds `buildISTDate`,
  the `processAndSave` chain of checks that ends in a save, and the entry
  guards of the text and document endpoints.
- `Upload` (`upload.dfy`) holds the upload middleware's file-type filter and
  the stored file name.
- `JsText` (`js_text.dfy`) restates the JavaScript string built-ins those
  three depend on: `trim`, a global literal `replace(…, "")`, regex-alternation
  tests, `toLowerCase` and `String(n)`.
- `Wrappers` (`wrappers.dfy`) holds `Option`, which stands for a JSON field
  that may be absent or `null` wherever the code treats the two alike.

Everything is a pure function, because the source does not keep state
between calls. The pipeline returns its result together with the list of
generation requests it issued, so that the number of calls can be stated.
JavaScript objects whose fields may be missing are records of `Option`s.
The one field where `null` and an absent value behave differently is
`entities_confidence`: `null < 0.6` converts `null` to 0 and is true, while
`undefined < 0.6` is false. That field therefore has its own type,
`Confidence = Absent | Null | Number(value)`.
`PipelineResult` is either `{status, message}` or the four `step…` fields.
The controller reads `status` and `step4_final` from it as the source does.

External collaborators are inputs to the model:

- the model-listing reply (`ListReply`);
- a backend that answers each generation request (`GenRequest -> GenReply`);
- `JSON.parse` together with the reading of the expected fields, as a
  partial function from text to a typed record;
- the validity of a `Date` built from a stamp (`string -> bool`);
- the outcome of `save()`, the OCR reply, the file extension and the clock
  reading.

Behaviour of the code that the model keeps:

- The guardrail trips on any falsy `date_phrase`: absent, `null` or `""`.
- An absent `entities_confidence` passes the guardrail, and a `null` one trips it.
- An absent `entities` object with a confidence that is not low raises, and
  so ends in "An error occurred during parsing.". With a low confidence it
  ends in the ambiguity message, because `||` never reads `entities`.
- The fallback model is the literal `"models/gemini-1.0-pro"`.
- A pipeline result's kind is told apart only by the presence of a top-level
  `status` field.

## Model

| member | source | states |
|---|---|---|
| `AiService.FindSupporting` | services/ai_service.js:10 | The index found is that of the first entry whose `supportedGenerationMethods` includes "generateContent"; None means no entry qualifies |
| `AiService.SelectModel` | services/ai_service.js:6-20 | Returns the name of the first qualifying entry; a failed fetch, an absent `models` list or no qualifying entry all give "models/gemini-1.0-pro" |
| `AiService.StripFences` | services/ai_service.js:30 | Removes every "```json", then every "```", then trims; the result is never longer than the input and has no whitespace at either end |
| `AiService.RemoveFenceLeavesNone` | services/ai_service.js:30 | Globally removing "```" leaves no "```" for any input; it clears the triples that the earlier "```json" removal can join together, as in "`````json`" becoming "```" |
| `AiService.StripFencesRemovesFences` | services/ai_service.js:30 | The stripped text never contains a backtick triple |
| `AiService.StripFencesFixedIff` | services/ai_service.js:30 | Stripping leaves a text unchanged exactly when it has no backtick triple and no surrounding whitespace |
| `AiService.StripFencesIdempotent` | services/ai_service.js:30 | Stripping twice gives the same text as stripping once |
| `AiService.StripFencedReply` | services/ai_service.js:30 | "```json" + body + "```" strips to the trimmed body when the body has no backtick |
| `AiService.CallGemini` | services/ai_service.js:24-31 | A failed exchange and an absent or empty reply text fail; otherwise the result is the parse of the de-fenced text |
| `AiService.FirstCall` | services/ai_service.js:54 | The extraction call to the selected model yields a record exactly when the reply text is non-empty and its de-fenced parse succeeds, and that record is the parse |
| `AiService.SecondCall` | services/ai_service.js:78-80 | The normalisation call on the extracted entities yields a record exactly when the reply text is non-empty and its de-fenced parse succeeds, and that record is the parse |
| `AiService.LowConfidence` | services/ai_service.js:58 | `entities_confidence < 0.6` under JavaScript's conversion: true for `null` (read as 0) and for a number below 0.6, false when the field is absent (NaN) |
| `AiService.PassesGuardrail` | services/ai_service.js:58 | The condition under which line 58 neither returns nor raises: no low confidence, `entities` present and its `date_phrase` truthy (definition) |
| `AiService.Pipeline` | services/ai_service.js:34-97 | Issues one or two generation calls, all to the selected model, the first with the raw text; resolves to one of the two clarification objects or to a four-step object with no top-level status, with step 1 = {raw text, 1.0}; never raises |
| `AiService.SecondCallIff` | services/ai_service.js:54-80 | The second call is made exactly when the first reply parsed and passed the guardrail, and it carries the extracted entities |
| `AiService.GuardrailTrips` | services/ai_service.js:57-60 | Confidence below 0.6, or a present `entities` with a falsy `date_phrase`, gives "Ambiguous date/time or department." after exactly one call |
| `AiService.LowConfidenceSkipsEntities` | services/ai_service.js:58-59 | A low confidence trips the guardrail even when `entities` is absent (the `or` short-circuits) |
| `AiService.ConfidenceBoundary` | services/ai_service.js:58 | Confidence exactly 0.6, and any value of at least 0.6, passes; 0.599999 does not |
| `AiService.AbsentConfidencePasses` | services/ai_service.js:58 | An absent confidence does not trip the guardrail (`undefined < 0.6` is false) |
| `AiService.NullConfidenceTrips` | services/ai_service.js:58-59 | A JSON `null` confidence trips the guardrail, whether or not `entities` is present, giving the ambiguity clarification after exactly one call |
| `AiService.AbsentEntitiesIsParseError` | services/ai_service.js:58 | Without a low confidence, an absent `entities` raises and ends in "An error occurred during parsing." after one call |
| `AiService.EmptyReplyIsParseError` | services/ai_service.js:28-29 | An absent or empty first reply text is a failed call, and the run ends in the parse-error clarification |
| `AiService.FailedCallIsParseError` | services/ai_service.js:93-96 | A failure of either call ends in `{status: "needs_clarification", message: "An error occurred during parsing."}` |
| `AiService.SuccessPath` | services/ai_service.js:40-91 | Exactly two calls; step 1 = {raw text, 1.0}, step 2 = the first reply as parsed, steps 3 and 4 copy `normalized`, `normalization_confidence`, `appointment`, `status`; no top-level status |
| `AiService.NoStatusIff` | services/ai_service.js:37-91 | The result lacks a top-level `status` exactly when both calls succeeded and the guardrail passed |
| `JsText.RemoveAll` | services/ai_service.js:30 | A global literal replace by "" never lengthens the text |
| `JsText.RemoveAllAbsent` | services/ai_service.js:30 | Removing a pattern that does not occur leaves the text unchanged |
| `JsText.RemoveAllKeepsPrefix` | services/ai_service.js:30 | A prefix without the pattern's first character passes through the removal untouched |
| `JsText.Trim` | services/ai_service.js:30 | `trim` never lengthens a string and leaves no whitespace at either end |
| `JsText.LeadingSpace` | services/ai_service.js:30 | The leading run that `trim` drops is all whitespace and stops at the first non-whitespace character |
| `JsText.TrailingSpace` | services/ai_service.js:30 | The trailing run that `trim` drops is all whitespace and starts after the last non-whitespace character |
| `JsText.TrimIsSlice` | services/ai_service.js:30 | `trim` keeps one contiguous slice, drops only whitespace, and leaves no whitespace at either end |
| `JsText.TrimEmptyIff` | controllers/appointment_controller.js:90 | `s.trim() === ''` holds exactly when every character of `s` is whitespace |
| `JsText.TrimFixedIff` | services/ai_service.js:30 | `trim` leaves a string alone exactly when neither end is whitespace |
| `JsText.TrimIdempotent` | services/ai_service.js:30 | Trimming twice gives the same string as trimming once |
| `JsText.ContainsTrim` | services/ai_service.js:30 | Whatever occurs in the trimmed string occurs in the original |
| `JsText.Contains` | middleware/upload.js:20 | An unanchored search: `p` is a prefix of `s` or of one of its suffixes (definition) |
| `JsText.ContainsIffOccurs` | middleware/upload.js:20 | The search holds exactly when `p` is the slice of `s` at some index |
| `JsText.ContainsNeedsChar` | middleware/upload.js:20-22 | A pattern cannot occur in a string that lacks one of its characters |
| `JsText.ToLower` | middleware/upload.js:21 | Lower-casing keeps the length, leaves no upper-case ASCII letter, changes no other character and maps each upper-case letter to its lower-case one |
| `JsText.ToLowerIdempotent` | middleware/upload.js:21 | Lower-casing twice gives the same string as lower-casing once |
| `JsText.Decimal` | middleware/upload.js:7 | `String(n)` is a non-empty digit string with no leading zero |
| `JsText.DecimalRoundTrip` | middleware/upload.js:7 | Reading the digits of `String(n)` back gives `n` |
| `JsText.DecimalInjective` | middleware/upload.js:7 | Distinct timestamps render to distinct digit strings |
| `AppointmentController.IstStamp` | controllers/appointment_controller.js:8 | The stamp begins with the date, has a 'T' right after it, ends with ":00.000+05:30", and is exactly as long as its parts |
| `AppointmentController.BuildIstDate` | controllers/appointment_controller.js:6-11 | Null when the date or the time is falsy or the stamp does not parse; otherwise the stamp `date + "T" + time + ":00.000+05:30"` |
| `AppointmentController.IndexOf` | controllers/appointment_controller.js:8 | The position of the first 'T' in a stamp: no 'T' before it, a 'T' at it |
| `AppointmentController.IstStampRoundTrip` | controllers/appointment_controller.js:8 | For a date without a 'T', splitting the stamp at its first 'T' and before the fixed suffix gives back the date and the time |
| `AppointmentController.IstStampInjective` | controllers/appointment_controller.js:8 | For dates without a 'T', different (date, time) pairs give different stamps |
| `AppointmentController.MissingFields` | controllers/appointment_controller.js:32-35 | Lists exactly the falsy fields among department, date and time, in that order, each once |
| `AppointmentController.ProcessAndSave` | controllers/appointment_controller.js:13-65 | Answers only 201, 400 or 500; a save is attempted exactly when every check passes; 201 exactly when the save succeeded, with `pipeline_results` identical to the input |
| `AppointmentController.NoResultRejected` | controllers/appointment_controller.js:15-17 | An absent result gives 400 "No parsing result" and no save |
| `AppointmentController.ClarificationForwarded` | controllers/appointment_controller.js:20-22 | A result with status 'needs_clarification' is forwarded unchanged with 400 and never saved |
| `AppointmentController.NoFinalRejected` | controllers/appointment_controller.js:25-28 | No `step4_final`, a status other than 'ok', or no appointment gives 400 "AI did not produce a final appointment." with `final` (or null) as detail |
| `AppointmentController.MissingFieldsRejected` | controllers/appointment_controller.js:30-38 | A falsy department, date or time gives 400 with the non-empty `missing` list and no save |
| `AppointmentController.InvalidDateRejected` | controllers/appointment_controller.js:40-43 | A stamp the Date parser rejects gives 400 "Invalid date/time combination." with date and time echoed, and no save |
| `AppointmentController.SaveAttempted` | controllers/appointment_controller.js:45-64 | The saved record has department = reason = the appointment's department, the IST stamp as date and the caller's query; success gives 201, a ValidationError gives 400 with its message, any other error gives 500 |
| `AppointmentController.SavedRecordComplete` | controllers/appointment_controller.js:25-53 | A record is only ever saved with final status 'ok', a non-empty department, date and time, and a stamp that parses |
| `AppointmentController.PipelineClarificationNeverSaved` | controllers/appointment_controller.js:20-22 | Every clarification the pipeline resolves to is forwarded with 400 and never saved |
| `AppointmentController.ParseText` | controllers/appointment_controller.js:67-78 | A falsy query gives 400 "Query text is required." and the pipeline is not called. Otherwise the response is `processAndSave` of the pipeline's result on the query, with the query as `originalQuery`. A save is attempted exactly when the query is truthy and that result is ready to save |
| `AppointmentController.Readable` | controllers/appointment_controller.js:81-92 | A file arrived and the OCR text is present and not blank after trimming (definition) |
| `AppointmentController.ParseDocument` | controllers/appointment_controller.js:80-99 | No file gives 400; an OCR failure gives 500; absent or blank text gives 400 with the unreadable-document message. The pipeline runs exactly on readable text. The response is then `processAndSave` of its result with "Parsed from document: " + original name, and a save is attempted exactly when that result is ready |
| `AppointmentController.TextClarificationForwarded` | controllers/appointment_controller.js:72-73 | A pipeline clarification on a text request reaches the client unchanged with 400, and nothing is saved |
| `AppointmentController.DocumentClarificationForwarded` | controllers/appointment_controller.js:94-95 | A pipeline clarification on a readable document reaches the client unchanged with 400, and nothing is saved |
| `AppointmentController.BlankDocumentRejected` | controllers/appointment_controller.js:90-92 | OCR text made only of whitespace gives 400 with the unreadable-document message and no pipeline call |
| `AppointmentController.TextRequestCommitted` | controllers/appointment_controller.js:67-73 | Two successful calls that pass the guardrail, a complete 'ok' appointment, a valid stamp and a successful save give 201 with the four-step object and store the appointment from the second reply |
| `AppointmentController.DentistScenario` | controllers/appointment_controller.js:67-73 | "book dentist tomorrow at 5pm" extracted with confidence 0.9 and normalised to 2025-06-02 17:00 in Dentistry gives 201 and stores that appointment, with steps 3 and 4 copied from the second reply |
| `Upload.MatchesImageType` | middleware/upload.js:20-22 | The regex test for jpeg, jpg, png or gif: one of the four names occurs anywhere in the string (definition) |
| `Upload.CheckFileType` | middleware/upload.js:19-29 | Accepts exactly when the lower-cased extension and the mimetype as given each contain jpeg, jpg, png or gif; otherwise rejects with 'Error: You can only upload image files!' |
| `Upload.UnanchoredMatch` | middleware/upload.js:20-22 | ".jpgz" with "image/pngx" is accepted |
| `Upload.ExtensionCaseInsensitive` | middleware/upload.js:21 | ".PNG" with "image/png" is accepted |
| `Upload.ExtensionCaseIgnored` | middleware/upload.js:21 | Lower-casing the extension beforehand never changes the decision |
| `Upload.NoImageName` | middleware/upload.js:20-22 | A string without a lower-case 'j', 'p' or 'f' matches none of the four names |
| `Upload.MimetypeCaseSensitive` | middleware/upload.js:22 | "image/PNG" is rejected, because the mimetype is not lower-cased |
| `Upload.NonImageMimetypeRejected` | middleware/upload.js:22-27 | A mimetype with none of the four names is rejected whatever the extension |
| `Upload.AcceptedStaysAccepted` | middleware/upload.js:20-25 | Adding text on either side of an accepted extension and mimetype keeps the file accepted |
| `Upload.StoredFilename` | middleware/upload.js:7 | Field name, a dash, the decimal timestamp and the extension, concatenated (definition; its properties are the three lemmas below) |
| `Upload.StoredFilenameParts` | middleware/upload.js:7 | The stored name is the field name, a dash, the timestamp's digits and the original extension, so it ends with the extension |
| `Upload.StoredFilenameTimestamp` | middleware/upload.js:7 | The timestamp can be read back from the stored name |
| `Upload.StoredFilenameInjective` | middleware/upload.js:7 | For one field name and extension, different timestamps give different stored names |

## Left out

- Network I/O: the listing and generation requests, their URLs, the API key and
  `dotenv`. Their replies are inputs. No retries or timeouts exist to model.
- Prompt wording and the current date written into both prompts: the clock is
  ambient and the backend's behaviour cannot be specified. A prompt is modelled
  as the data it is built from: the raw text, or the extracted entities.
- `JSON.parse`: it is an input function, together with the reading of the
  expected fields. JSON `null` and an absent field are both `None`, except for
  `entities_confidence`. Values of
  unexpected JSON types are not modelled: a confidence given as a string, a
  `date_phrase` that is a number, a reply that is `null` or not an object.
  The same holds for the request body's `query`, which `express.json()` can
  deliver as any JSON value. It is typed as an optional string, so a truthy
  non-string such as `123` or `["a"]` cannot be represented, although it
  would pass the guard and reach the pipeline and `originalQuery`.
  A parser that refuses such text covers only the cases where JavaScript
  would raise.
- Model listing entries that are `null` or lack a `name` are not modelled.
  A `null` entry before the first qualifying one would raise and fall back.
  `find` stops at the first match, so a `null` entry after it changes nothing.
- Floating point: a confidence is the decimal value of the JSON number, and it
  is compared exactly with 0.6. Rounding to an IEEE double is not modelled. For
  example, the text `0.59999999999999999` parses to the double 0.6 and passes
  in JavaScript, but trips the guardrail in the model.
- `Date` parsing and time-zone resolution in `buildISTDate`: the validity of a
  stamp is an input predicate. The saved `appointmentDate` is the stamp that
  parsed, not a resolved instant.
- The mongoose schema: its `required`/`enum` checks and its `status` default
  ("Pending") and timestamps are enforced by mongoose. Only the four fields the
  controller sets are modelled; a validation failure arrives as a `save()` outcome.
- Tesseract OCR is an input reply. The `fs.unlink` cleanup in `finally` and all
  console logging are left out as pure I/O.
- The 500 "Unexpected error" branch of `parseTextController`: neither the
  pipeline nor `processAndSave` raises in the model, so that branch cannot be
  reached. In `parseDocumentController`, only an OCR failure reaches its catch.
- multer's disk storage, its destination directory, the 10 MB size limit and
  the single-field binding are library configuration. `path.extname` is an
  input (the extension) and `Date.now()` is an input (the timestamp).
- `JsText.ToLower`: does not model JavaScript's full Unicode lower-casing, only
  ASCII letters. For the filter this changes nothing: the only non-ASCII
  characters that lower-case into ASCII letters are U+0130, which becomes "i"
  followed by a combining dot, and U+212A (KELVIN SIGN), which becomes "k".
  Neither can complete "jpeg", "jpg", "png" or "gif".
- Strings are sequences of Unicode scalar values rather than UTF-16 code units.
- Express response objects are returned values (`Response`, `Handled`).
- index.js and routes/appointment_route.js (server start-up and route wiring)
  are not part of this model. Nor is async/await: every flow is sequential.
