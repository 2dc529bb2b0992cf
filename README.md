# Medical OCR relay — a Dafny model of its decision rules

The service takes a medical document and returns structured JSON. The document
arrives either as a multipart upload or as a base64 JSON body. The service hands
it to an AI provider's structured-output endpoint and returns the extraction in
a fixed envelope. Around its two effectful calls (the provider request and the
DOCX text extraction) sit a handful of total decision rules:

- which request field supplies the document, how a `data:` URI prefix is
  stripped, and how the MIME type selects an input method (`FileResolver`);
- which upload MIME types multer's filter admits (`Routes`);
- which credential and endpoint are used, what payload and response schema are
  sent, and how a provider failure is worded (`GeminiOcrService`);
- how the controller composes resolution, extraction and the success envelope
  (`MedicalOcrController`);
- how the global error handler turns a forwarded error into an HTTP status and
  an error code, and the 404 envelope (`App`).

The model is purely functional, as the JavaScript is: each handler is a total
function from its inputs to its result.

- The collaborators `resolveFile` calls into form the `Codecs` parameter: Node's
  `Buffer` base64 codec, `Buffer.from(text)` and `mammoth.extractRawText`.
- The provider exchange is the `post` parameter. It covers the axios call, the
  navigation to `candidates[0].content.parts[0].text` and `JSON.parse`. It
  returns the parsed JSON, or what was thrown: the optional `error.response`
  and `error.message`.
- `process.env` is the `ServiceEnv` parameter. The timestamp is the
  `processedAt` parameter.

JavaScript's falsy empty string is modelled by `Option<string>` plus
`JsStrings.Truthy`. `String.prototype.includes`, `split(',')`, `trim()` and the
decimal rendering of a status inside a template literal are defined in
`JsStrings`, with the meaning ECMAScript gives them on strings of characters
(see "## Left out" for UTF-16).

`EndToEnd` follows each way of failing through the whole pipeline, from the
upload filter to the reply the client sees. The resolver's own two errors and
the service's errors carry no `status`, so they are answered with HTTP 500. The
DOCX converter's error is passed on unchanged, with whatever status it carries
(`EndToEnd.DocxFailureServed`; `EndToEnd.ServedStatuses` assumes it has none). Their code
then depends only on which trigger phrase (`Auth Error`, `Quota Exceeded`,
`Model Error`) the message contains. The lemmas there prove what the text each
wrapper adds around the provider's message contributes. The 401/403 wrapper
contains `Auth Error`, the phrase tested first. The 429 and 404 wrappers each
contain their own trigger phrase, and neither contains nor can complete a
phrase tested before it. The generic wrapper for any other status and the
`Failed to process medical document: ` prefix contain no trigger phrase and
cannot complete one. So a 401/403 is always `AUTH_FAILED`; a 429 or a 404 gets
its own code unless the provider's text names a phrase tested earlier; for
every other status the provider's own text decides the code.

Where the documented behaviour and the code disagree, the model follows the
code.

- A request with neither a file nor a complete base64 body is documented as a
  400 `INVALID_INPUT`. The code throws a plain `Error` without a status, which
  the global handler answers with 500 `OCR_PROCESSING_FAILED`
  (`EndToEnd.MissingInputServed`). An unsupported MIME type sent in a JSON
  body is also answered with 500, and its code is `OCR_PROCESSING_FAILED`
  unless the echoed MIME string itself contains a trigger phrase
  (`EndToEnd.UnsupportedBase64MimeServed`).
- `meta.model` in the success envelope is always `"gemini-2.0-flash"`, whatever
  model the `x-gemini-model` header selected
  (`MedicalOcrController.ReportedModelIgnoresHeader`).

The controller `require`s `../services/geminiOcrService` and the application
`require`s `./routes/api`. Both are modelled from the copies under
`netlify/functions/src/`. src/routes/api.js and src/services/geminiOcrService.js
are not part of this model.

## Model

| member | source | states |
|---|---|---|
| FileResolver.NoFileError | src/utils/fileResolver.js:26-27 | the no-input error has message `No file provided in request.` and no status |
| FileResolver.UnsupportedMimeError | src/utils/fileResolver.js:49-50 | the unsupported-type error is `Unsupported MIME type: ` followed by the type, and has no status |
| FileResolver.StripDataUriPrefix | src/utils/fileResolver.js:21-24 | a string without a comma is unchanged; with one, the result has no comma and is exactly the text between the first comma and the next comma or the end |
| FileResolver.Classify | src/utils/fileResolver.js:33-51 | image exactly for an `image/` prefix, pdf exactly for `application/pdf`, docx_as_text exactly for the DOCX type, plain_text exactly for `text/plain`; no method otherwise |
| FileResolver.EffectiveMime | src/utils/fileResolver.js:39-45 | the outgoing MIME type equals the incoming one except for DOCX, which becomes `text/plain` |
| FileResolver.Encode | src/utils/fileResolver.js:30-53 | unsupported types fail with the unsupported-type error; a success's input method is the classification and its MIME type the effective one; non-DOCX buffers are re-encoded unchanged; DOCX goes through the converter, whose failure is passed on |
| FileResolver.HasBase64Body | src/utils/fileResolver.js:16 | the JSON path is taken exactly when `file_base64` and `mime_type` are both present and non-empty |
| FileResolver.InputMethod.Tag | src/utils/fileResolver.js:33-48 | the reported `inputMethod` is one of `image`, `pdf`, `docx_as_text`, `plain_text` |
| FileResolver.TagIdentifiesMethod | src/utils/fileResolver.js:33-48 | two input methods have the same tag exactly when they are the same method |
| FileResolver.DeclaredMime | src/utils/fileResolver.js:12-19 | the declared type is the file part's when there is one, else the body's `mime_type` when both body fields are non-empty, else absent |
| FileResolver.ResolveFile | src/utils/fileResolver.js:8-54 | no declared document gives the no-input error; an unclassifiable declared type gives the unsupported-type error; otherwise the result is `Encode` of the bytes of the part that declared the type, so a success's base64 is the re-encoded file buffer, the re-encoded decoded body or the DOCX text, classified from the declared type and carrying its effective MIME type; the only failures are the no-input error, the unsupported-type error and the DOCX converter's own error |
| FileResolver.SourceBytes | src/utils/fileResolver.js:12-25 | the document's bytes exist exactly when a type is declared; they are the file part's buffer, or else the base64 decode of `file_base64` after its data-URI prefix is stripped |
| FileResolver.DataUriBodyDecoded | src/utils/fileResolver.js:16-25 | a JSON body `<prefix>,<payload>` with comma-free prefix and payload resolves exactly as `Encode` of the decoded payload under the body's `mime_type` |
| FileResolver.FilePartTakesPrecedence | src/utils/fileResolver.js:12-16 | with a file part, replacing the JSON body by any other body changes nothing, and the result is `Encode` of the file's buffer under the file's MIME type |
| FileResolver.MissingInputRejected | src/utils/fileResolver.js:16-27 | without a file part, an absent or empty `file_base64` or `mime_type` fails with exactly `No file provided in request.` |
| FileResolver.Base64BodyAsFile | src/utils/fileResolver.js:12-25 | a base64 body resolves exactly like a file part that holds the decoded bytes and the body's `mime_type` |
| FileResolver.DataUriMimeIgnored | src/utils/fileResolver.js:18-25 | two bodies that differ only in their comma-free data-URI prefix resolve alike, so a MIME type inside the prefix is never read |
| FileResolver.StripAfterPrefix | src/utils/fileResolver.js:22-24 | after a comma-free prefix and a comma, the kept piece is the payload's text up to its first comma |
| FileResolver.DataUriPayloadKept | src/utils/fileResolver.js:21-24 | `<prefix>,<payload>` with no other comma strips to exactly the payload |
| FileResolver.BranchesExclusive | src/utils/fileResolver.js:33-48 | the four classifier branches are mutually exclusive |
| FileResolver.AnyImageSubtypeAccepted | src/utils/fileResolver.js:33-35 | every `image/` subtype is accepted as an image and re-encoded unchanged |
| Routes.UnsupportedFileError | netlify/functions/src/routes/api.js:26-27 | the filter's error is `Unsupported file type: ` followed by the type, with status 400 |
| Routes.FileFilter | netlify/functions/src/routes/api.js:22-30 | a file is accepted if and only if its MIME type is one of the eight allow-listed types; a rejection carries the 400 error |
| Routes.MedicalOcrRoute | netlify/functions/src/routes/api.js:32-41 | a file part outside the allow-list is forwarded with the filter's error; every other request, including one without a file part, reaches the controller |
| Routes.AllowedMimesClassified | netlify/functions/src/routes/api.js:11-20 | every allow-listed type is classified by the resolver, and exactly the first five are images |
| Routes.AllowedImagesClassified | netlify/functions/src/routes/api.js:12-16 | the five image entries of the allow-list start with `image/` |
| Routes.AdmittedUploadResolves | netlify/functions/src/routes/api.js:11-24 | an admitted upload always resolves, unless it is a DOCX the converter fails on |
| Routes.GifOnlyThroughBase64 | netlify/functions/src/routes/api.js:11-20 | `image/gif` is not on the allow-list although the resolver classifies it as an image |
| GeminiOcrService.PatientInfoSchema | netlify/functions/src/services/geminiOcrService.js:26-36 | the patient-info object lists each of its five properties once in its ordering |
| GeminiOcrService.DoctorInfoSchema | netlify/functions/src/services/geminiOcrService.js:37-46 | the doctor-info object lists each of its four properties once in its ordering |
| GeminiOcrService.MedicationSchema | netlify/functions/src/services/geminiOcrService.js:49-63 | the medication object lists each of its six properties once in its ordering |
| GeminiOcrService.LabResultSchema | netlify/functions/src/services/geminiOcrService.js:68-81 | the lab-result object is well formed and its status is the enum normal, high, low, critical |
| GeminiOcrService.ResponseSchema | netlify/functions/src/services/geminiOcrService.js:19-90 | the schema requires exactly document_type, patient_info, date and confidence; document_type is the six-type enum, confidence the three-level enum, lab_results an array of lab-result objects |
| GeminiOcrService.ResponseSchemaWellFormed | netlify/functions/src/services/geminiOcrService.js:87-89 | the top-level ordering lists each of the ten properties exactly once and every required field is declared |
| GeminiOcrService.ResponseOrderingDistinct | netlify/functions/src/services/geminiOcrService.js:89 | the ten names of the top-level ordering are pairwise distinct |
| GeminiOcrService.ResponseOrderingMatchesProperties | netlify/functions/src/services/geminiOcrService.js:21-89 | a name is in the top-level ordering exactly when it is a declared property |
| GeminiOcrService.ApiKey | netlify/functions/src/services/geminiOcrService.js:101 | the caller's key when it is a non-empty string, otherwise the server's `GEMINI_API_KEY` |
| GeminiOcrService.ApiUrl | netlify/functions/src/services/geminiOcrService.js:105-112 | a usable custom model is read back verbatim from the v1beta URL; otherwise `GEMINI_API_URL` when set and non-empty, else the gemini-2.0-flash URL |
| GeminiOcrService.CustomUrlReadsBack | netlify/functions/src/services/geminiOcrService.js:108 | the model embedded in a v1beta URL reads back unchanged, untrimmed |
| GeminiOcrService.UsesCustomModel | netlify/functions/src/services/geminiOcrService.js:106 | the custom URL is used if and only if the model is present, not `undefined`, and not all white space |
| GeminiOcrService.RequestUrl | netlify/functions/src/services/geminiOcrService.js:141 | the request goes to the endpoint with `?key=` and the custom key when it is non-empty, else the environment's key, else the text `undefined` |
| GeminiOcrService.DefaultUrlModel | netlify/functions/src/services/geminiOcrService.js:111 | the hard-coded default URL names the gemini-2.0-flash model |
| GeminiOcrService.BuildPayload | netlify/functions/src/services/geminiOcrService.js:116-138 | the payload carries the given MIME type and base64 data unchanged, with response type `application/json`, the response schema, temperature 0.1 and 4096 output tokens |
| GeminiOcrService.ApiMessage | netlify/functions/src/services/geminiOcrService.js:156 | the provider's error message when it is non-empty, otherwise `Unknown Gemini API Error` |
| GeminiOcrService.ProviderErrorMessage | netlify/functions/src/services/geminiOcrService.js:159-167 | 429 gives the quota wording, 401 and 403 the auth wording and key note, 404 the model wording and region note, any other status `Gemini API Error (<status>): ` and the message |
| GeminiOcrService.ProviderMessageCarried | netlify/functions/src/services/geminiOcrService.js:159-167 | the provider's message occurs in every wording, and the generic wording's status field reads back as the status |
| GeminiOcrService.FailureMessage | netlify/functions/src/services/geminiOcrService.js:150-171 | a provider error body yields the status wording of its (defaulted) message; any other failure yields `Failed to process medical document: ` and the thrown message |
| GeminiOcrService.ProcessMedicalOcr | netlify/functions/src/services/geminiOcrService.js:100-172 | the one request goes to the chosen URL and key with the built payload; the call succeeds exactly when the provider's output parses, returning it unchanged; every failure is an error without status whose message is the failure message |
| GeminiOcrService.ServiceErrorsHaveNoStatus | netlify/functions/src/services/geminiOcrService.js:159-170 | no error the service throws carries a status |
| GeminiOcrService.Deterministic | netlify/functions/src/services/geminiOcrService.js:140-149 | two providers that answer the service's one request alike give the same result |
| MedicalOcrController.SuccessReply | src/controllers/medicalOcrController.js:23-31 | status 200, `success` true, the extraction as data, and meta naming gemini-2.0-flash, the input method and the timestamp |
| MedicalOcrController.MedicalOcrController | src/controllers/medicalOcrController.js:8-37 | a resolution failure is forwarded untouched; otherwise the resolved base64 and MIME type and the two headers go to the service unchanged, its failure is forwarded and its data returned; a response is always the 200 success envelope naming the resolved input method |
| MedicalOcrController.ResolveFailureSkipsProvider | src/controllers/medicalOcrController.js:12-20 | when resolution fails, the outcome is the same for any provider, so the provider is never called |
| MedicalOcrController.ReportedModelIgnoresHeader | src/controllers/medicalOcrController.js:17-27 | whatever the model header holds, a success reports gemini-2.0-flash |
| App.StatusOf | src/app.js:47 | the error's status when it is set and non-zero, else 500 |
| App.MessageOf | src/app.js:48 | the error's message when non-empty, else `Internal Server Error`; never empty |
| App.ErrorCodeFor | src/app.js:50-60 | INVALID_INPUT exactly for status 400; otherwise the first of `Auth Error`, `Quota Exceeded`, `Model Error` the message contains picks AUTH_FAILED, QUOTA_EXCEEDED or MODEL_NOT_FOUND, and none gives OCR_PROCESSING_FAILED; never NOT_FOUND |
| App.HandleError | src/app.js:43-69 | the reply has the computed status, a failure envelope with the computed message, and the code chosen from those two |
| App.NotFoundHandler | src/app.js:32-40 | status 404, a failure envelope with code NOT_FOUND and message `Route <url> not found` |
| App.Serve | src/app.js:23-69 | unmatched URLs get the 404 reply; OCR requests get the route's response or the error handler's reply to the forwarded error; every envelope is well formed and only a 200 reply to an OCR request is a success |
| App.InvalidInputIffBadRequest | src/app.js:52-53 | an error reply has status 400 exactly when its code is INVALID_INPUT |
| App.NotFoundOnlyForRoutes | src/app.js:36 | the error handler never reports the 404 handler's NOT_FOUND code |
| App.CodeDependsOnTriggers | src/app.js:54-60 | two messages that contain the same trigger phrases get the same code |
| App.InertPrefixKeepsCode | src/app.js:54-60 | text that contains no trigger and cannot begin one can be prepended to a message without changing its code |
| Http.ErrorCode.Name | src/app.js:51-60 | every code has a non-empty wire name |
| Http.NamesDistinct | src/app.js:51-60 | two codes have the same wire name only if they are the same code |
| Http.ErrorEnvelope | src/app.js:62-68 | `{success: false, error: {code, message}}`, with no data and no meta |
| Http.SuccessEnvelope | src/controllers/medicalOcrController.js:23-31 | `{success: true, data, meta}`, with no error |
| JsStrings.Or | netlify/functions/src/services/geminiOcrService.js:101 | `a \|\| b` on optional strings: `a` when it is a non-empty string, otherwise `b` |
| JsStrings.Render | netlify/functions/src/services/geminiOcrService.js:141 | a template literal renders a string as itself and `undefined` as the text `undefined` |
| JsStrings.Split | src/utils/fileResolver.js:23 | `split` on one character always yields at least one piece |
| JsStrings.SplitPiecesFree | src/utils/fileResolver.js:23 | no piece of a split contains the separator |
| JsStrings.SplitJoin | src/utils/fileResolver.js:23 | joining the pieces with the separator gives back the string |
| JsStrings.SplitWithoutSeparator | src/utils/fileResolver.js:22-23 | a string without the separator splits into itself alone |
| JsStrings.SplitAtFirst | src/utils/fileResolver.js:23 | splitting at a first separator yields the text before it followed by the split of the rest |
| JsStrings.SplitSecondPiece | src/utils/fileResolver.js:22-23 | a string that contains the separator has a second piece; it lacks the separator and follows the first one |
| JsStrings.StartsWithPointwise | src/utils/fileResolver.js:33 | `startsWith(p)` holds exactly when `p` fits in the string and agrees with it character by character |
| JsStrings.ContainsIffStartsWithAt | src/app.js:54-58 | `includes(t)` holds exactly when the string starts with `t` at some position, and always for the empty `t` |
| JsStrings.Trim | netlify/functions/src/services/geminiOcrService.js:106 | `trim()` cuts the string into a white-space prefix, the result and a white-space suffix, and the result is empty or starts and ends in a character that is not white space |
| JsStrings.TrimEmptyIffBlank | netlify/functions/src/services/geminiOcrService.js:106 | `trim()` yields the empty string exactly for strings made only of ECMAScript white space and line terminators |
| JsStrings.DecimalString | netlify/functions/src/services/geminiOcrService.js:167 | a status renders as decimal digits without a leading zero |
| JsStrings.DecimalRoundTrip | netlify/functions/src/services/geminiOcrService.js:167 | the rendered decimal digits read back as the status |
| EndToEnd.QuotaMessageCode | src/app.js:54-57 | a provider 429 message gets QUOTA_EXCEEDED, unless the provider's text contains `Auth Error`, which is tested first |
| EndToEnd.AuthMessageCode | src/app.js:54-55 | a provider 401 or 403 message always gets AUTH_FAILED |
| EndToEnd.ModelMessageCode | src/app.js:54-59 | a provider 404 message gets MODEL_NOT_FOUND, unless the provider's text contains an auth or quota trigger |
| EndToEnd.GenericMessageCode | src/app.js:54-60 | for any other provider status the wrapper adds no trigger, so the provider's text alone decides the code |
| EndToEnd.FailurePrefixCode | src/app.js:54-60 | a failure without an error body gets the code of the thrown message alone |
| EndToEnd.UnknownApiErrorInert | netlify/functions/src/services/geminiOcrService.js:156 | the default provider message contains none of the three trigger phrases |
| EndToEnd.UnsupportedMimeCode | src/app.js:54-60 | the unsupported-type error gets the code of the echoed MIME string alone |
| EndToEnd.NoFileMessageCode | src/app.js:51-60 | the no-input message gets OCR_PROCESSING_FAILED |
| EndToEnd.ExtractionServed | src/controllers/medicalOcrController.js:20-31 | a parsed provider output is answered 200 with that data and meta naming gemini-2.0-flash and the resolved input method |
| EndToEnd.ProviderFailureServed | src/app.js:47-68 | every provider failure is answered 500 with the service's failure message and the code chosen from it |
| EndToEnd.QuotaServed | src/app.js:47-57 | a provider 429 becomes HTTP 500 with QUOTA_EXCEEDED unless its text names an auth error, with the quota wording as message |
| EndToEnd.QuotaWithoutTextServed | src/app.js:56-57 | a provider 429 without an error text is always QUOTA_EXCEEDED |
| EndToEnd.AuthServed | src/app.js:47-55 | a provider 401 or 403 becomes HTTP 500 with AUTH_FAILED |
| EndToEnd.ModelServed | src/app.js:47-59 | a provider 404 becomes HTTP 500 with MODEL_NOT_FOUND unless its text names an auth or quota error |
| EndToEnd.OtherStatusServed | src/app.js:47-60 | any other provider status becomes HTTP 500 with the code of the provider's text and the generic wording as message |
| EndToEnd.UnreachedServed | src/app.js:47-60 | a network, timeout or parse failure becomes HTTP 500 with the code of the thrown message |
| EndToEnd.MissingInputServed | src/app.js:47-60 | a request with no document is answered 500 OCR_PROCESSING_FAILED with the no-input message, not 400 |
| EndToEnd.UnsupportedBase64MimeServed | src/app.js:47-60 | an unsupported type in a JSON body is answered 500 with the code of the MIME string alone |
| EndToEnd.FilterRejectionServed | src/app.js:47-53 | an upload the filter rejects is answered 400 INVALID_INPUT with the filter's message, whatever the type string says |
| EndToEnd.DocxFailureServed | src/utils/fileResolver.js:41 | a DOCX, uploaded or sent in a JSON body, that the converter fails on is answered by the error handler with the converter's own error |
| EndToEnd.ServedStatuses | src/app.js:32-69 | when the converter's errors carry no status, every reply has status 200, 400, 404 or 500 |

## Left out

- The provider HTTP call (axios), its 90-second timeout, the navigation to the candidate text and `JSON.parse`: network I/O and foreign code, the `post` parameter whose output is not specified.
- `mammoth.extractRawText`: a foreign library, the `extractRawText` field of `Codecs`, left unspecified.
- Node's `Buffer` base64 decode and encode and `Buffer.from(text)`: abstract functions of `Codecs`; no round trip between them is claimed.
- multer's memory storage, multipart parsing and its 20 MiB file-size limit: library behaviour; a file part is given as already parsed.
- Express wiring: cors, static files, body-size limits, the request logger, `console` output, the `/health` route, and route matching itself (a request is given as either an OCR request or an unmatched URL).
- `new Date().toISOString()` and `process.env`: the `processedAt` and `ServiceEnv` parameters.
- The `SYSTEM_PROMPT` text part of the payload: a constant without behaviour, so `Payload` holds only the inline data and the generation settings.
- JSON body fields and headers that are not strings (numbers, arrays), and a provider status that is not an integer: the model types them as optional strings and a natural number.
- public/script.js (the browser front end) and netlify/functions/api.js (the serverless wrapper) are not part of this model.
- App.Serve: covers the controller's `next(error)` path only for errors the model produces; an exception raised by the JavaScript runtime itself (a `TypeError` from a non-string body field) is not modelled.
- Strings are sequences of Unicode characters, while JavaScript strings are sequences of UTF-16 code units: a lone surrogate in a JSON body or header cannot be represented, and lengths and positions of characters outside the Basic Multilingual Plane differ from JavaScript's.
