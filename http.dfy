/**
 * The values that cross the HTTP boundary of the medical OCR service: the
 * parts of an Express request the core reads, the JavaScript `Error` objects
 * it throws and forwards, the JSON it returns, and the response envelopes.
 */
module Http {
  import opened Wrappers
  import opened JsStrings

  type Byte = bv8
  type Bytes = seq<Byte>

  /** Parsed JSON, as `JSON.parse` produces it. */
  datatype Json =
    | JNull
    | JBool(b: bool)
    | JNumber(n: real)
    | JString(s: string)
    | JArray(items: seq<Json>)
    | JObject(members: seq<(string, Json)>)

  /** A JavaScript `Error`: its `message` and the optional `status` some throwers attach. */
  datatype Error = Error(message: string, status: Option<int>)

  /** `req.file` as multer leaves it: the uploaded bytes and the client-declared MIME type. */
  datatype UploadedFile = UploadedFile(buffer: Bytes, mimetype: string)

  /** The JSON body fields `file_base64` and `mime_type`, each possibly absent. */
  datatype Body = Body(fileBase64: OptString, mimeType: OptString)

  /** The request headers `x-gemini-api-key` and `x-gemini-model`, each possibly absent. */
  datatype Headers = Headers(apiKey: OptString, model: OptString)

  /** A `POST /api/medical-ocr` request: the multipart file part, the JSON body and the headers. */
  datatype Request = Request(file: Option<UploadedFile>, body: Body, headers: Headers)

  /** The error codes the service reports. */
  datatype ErrorCode =
    | InvalidInput
    | AuthFailed
    | QuotaExceeded
    | ModelNotFound
    | OcrProcessingFailed
    | NotFound
  {
    /** The code as it appears in the JSON envelope. */
    function Name(): (s: string)
      ensures s != ""
    {
      match this
      case InvalidInput => "INVALID_INPUT"
      case AuthFailed => "AUTH_FAILED"
      case QuotaExceeded => "QUOTA_EXCEEDED"
      case ModelNotFound => "MODEL_NOT_FOUND"
      case OcrProcessingFailed => "OCR_PROCESSING_FAILED"
      case NotFound => "NOT_FOUND"
    }
  }

  /** Distinct codes have distinct names, so a client can tell every code apart. */
  lemma NamesDistinct(c: ErrorCode, d: ErrorCode)
    ensures c.Name() == d.Name() <==> c == d
  {
  }

  datatype ErrorInfo = ErrorInfo(code: ErrorCode, message: string)

  /** The `meta` object of a success envelope. */
  datatype Meta = Meta(model: string, inputMethod: string, processedAt: string)

  /** `{success, data?, meta?, error?}`: the JSON object every response carries. */
  datatype Envelope = Envelope(success: bool, data: Option<Json>, meta: Option<Meta>, error: Option<ErrorInfo>)

  /** One side of the envelope is filled: data and meta on success, the error otherwise. */
  predicate WellFormed(e: Envelope) {
    if e.success then e.data.Some? && e.meta.Some? && e.error.None?
    else e.data.None? && e.meta.None? && e.error.Some?
  }

  /** `res.status(status).json(body)`. */
  datatype HttpReply = HttpReply(status: int, body: Envelope)

  /** What an Express handler does with a request: answer it, or pass an error to `next`. */
  datatype Outcome = Respond(reply: HttpReply) | Forward(error: Error)

  /** `{success: false, error: {code, message}}`. */
  function ErrorEnvelope(code: ErrorCode, message: string): (e: Envelope)
    ensures WellFormed(e) && !e.success
    ensures e.error == Some(ErrorInfo(code, message))
  {
    Envelope(false, None, None, Some(ErrorInfo(code, message)))
  }

  /** `{success: true, data, meta}`. */
  function SuccessEnvelope(data: Json, meta: Meta): (e: Envelope)
    ensures WellFormed(e) && e.success
    ensures e.data == Some(data) && e.meta == Some(meta)
  {
    Envelope(true, Some(data), Some(meta), None)
  }
}
