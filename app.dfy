/**
 * The Express application (src/app.js): the API router, the 404 handler for
 * every other route, and the global error handler that turns a forwarded
 * `Error` into an HTTP status and an error code.
 */
module App {
  import opened Wrappers
  import opened JsStrings
  import opened Http
  import opened FileResolver
  import opened GeminiOcrService
  import opened Routes

  const AuthTrigger := "Auth Error"
  const QuotaTrigger := "Quota Exceeded"
  const ModelTrigger := "Model Error"
  const DefaultMessage := "Internal Server Error"

  /** `err.status || 500`: a missing status, or the falsy status 0, becomes 500. */
  function StatusOf(e: Error): (s: int)
    ensures e.status.Some? && e.status.value != 0 ==> s == e.status.value
    ensures e.status.None? || e.status.value == 0 ==> s == 500
    ensures s != 0
  {
    if e.status.Some? && e.status.value != 0 then e.status.value else 500
  }

  /** `err.message || 'Internal Server Error'`: the reported message is never empty. */
  function MessageOf(e: Error): (m: string)
    ensures e.message != "" ==> m == e.message
    ensures e.message == "" ==> m == DefaultMessage
    ensures m != ""
  {
    if e.message != "" then e.message else DefaultMessage
  }

  /**
   * The error-code chain: status 400 is always `INVALID_INPUT`; otherwise the
   * message is searched for the three trigger phrases in a fixed order and the
   * first one found decides; with none of them the code is `OCR_PROCESSING_FAILED`.
   */
  function ErrorCodeFor(status: int, message: string): (c: ErrorCode)
    ensures c == InvalidInput <==> status == 400
    ensures c == AuthFailed <==> status != 400 && Contains(message, AuthTrigger)
    ensures c == QuotaExceeded <==>
      status != 400 && !Contains(message, AuthTrigger) && Contains(message, QuotaTrigger)
    ensures c == ModelNotFound <==>
      status != 400 && !Contains(message, AuthTrigger) && !Contains(message, QuotaTrigger) &&
      Contains(message, ModelTrigger)
    ensures c == OcrProcessingFailed <==>
      status != 400 && !Contains(message, AuthTrigger) && !Contains(message, QuotaTrigger) &&
      !Contains(message, ModelTrigger)
    ensures c != NotFound
  {
    if status == 400 then InvalidInput
    else if Contains(message, AuthTrigger) then AuthFailed
    else if Contains(message, QuotaTrigger) then QuotaExceeded
    else if Contains(message, ModelTrigger) then ModelNotFound
    else OcrProcessingFailed
  }

  /**
   * The global error handler. The reply's status is `StatusOf(err)`, its
   * envelope is a failure whose message is `MessageOf(err)` and whose code
   * `ErrorCodeFor` picks from those two.
   */
  function HandleError(err: Error): (reply: HttpReply)
    ensures reply.status == StatusOf(err)
    ensures WellFormed(reply.body) && !reply.body.success
    ensures reply.body.error.value.message == MessageOf(err)
    ensures reply.body.error.value.code == ErrorCodeFor(StatusOf(err), MessageOf(err))
  {
    var statusCode := StatusOf(err);
    var message := MessageOf(err);
    HttpReply(statusCode, ErrorEnvelope(ErrorCodeFor(statusCode, message), message))
  }

  const RoutePrefix := "Route "
  const NotFoundSuffix := " not found"

  /** The 404 handler: `NOT_FOUND` and a message naming the requested URL. */
  function NotFoundHandler(originalUrl: string): (reply: HttpReply)
    ensures reply.status == 404 && WellFormed(reply.body) && !reply.body.success
    ensures reply.body.error == Some(ErrorInfo(NotFound, RoutePrefix + originalUrl + NotFoundSuffix))
  {
    HttpReply(404, ErrorEnvelope(NotFound, RoutePrefix + originalUrl + NotFoundSuffix))
  }

  /** A request as the application receives it: for the OCR route, or for a URL no route serves. */
  datatype AppRequest =
    | OcrRequest(req: Request)
    | Unmatched(originalUrl: string)

  /**
   * The application on one request: the OCR route, whose forwarded errors reach
   * the global handler, or the 404 handler.
   */
  function Serve(ar: AppRequest, io: Codecs, env: ServiceEnv,
                 post: (string, Payload) -> ProviderReply, processedAt: string): (reply: HttpReply)
    ensures ar.Unmatched? ==> reply == NotFoundHandler(ar.originalUrl)
    ensures ar.OcrRequest? ==>
      match MedicalOcrRoute(ar.req, io, env, post, processedAt)
      case Respond(r) => reply == r
      case Forward(e) => reply == HandleError(e)
    ensures WellFormed(reply.body)
    ensures reply.body.success ==> reply.status == 200 && ar.OcrRequest?
  {
    match ar
    case Unmatched(url) => NotFoundHandler(url)
    case OcrRequest(req) =>
      match MedicalOcrRoute(req, io, env, post, processedAt)
      case Respond(r) => r
      case Forward(e) => HandleError(e)
  }

  // ---------------------------------------------------------------------------
  // Properties

  /** The status of an error reply is 400 exactly when its code is `INVALID_INPUT`. */
  lemma InvalidInputIffBadRequest(err: Error)
    ensures HandleError(err).status == 400 <==> HandleError(err).body.error.value.code == InvalidInput
  {
  }

  /** An error reply never reports `NOT_FOUND`: that code belongs to the 404 handler alone. */
  lemma NotFoundOnlyForRoutes(err: Error, url: string)
    ensures HandleError(err).body.error.value.code != NotFoundHandler(url).body.error.value.code
  {
  }

  /** The code depends on the message only through the three trigger phrases. */
  lemma CodeDependsOnTriggers(status: int, m1: string, m2: string)
    requires Contains(m1, AuthTrigger) == Contains(m2, AuthTrigger)
    requires Contains(m1, QuotaTrigger) == Contains(m2, QuotaTrigger)
    requires Contains(m1, ModelTrigger) == Contains(m2, ModelTrigger)
    ensures ErrorCodeFor(status, m1) == ErrorCodeFor(status, m2)
  {
  }

  /**
   * Prefixing the message with text that neither contains a trigger nor ends
   * in the start of one leaves the code unchanged.
   */
  lemma InertPrefixKeepsCode(status: int, x: string, m: string)
    requires HeadFree(x, AuthTrigger) && !Contains(x, AuthTrigger)
    requires HeadFree(x, QuotaTrigger) && !Contains(x, QuotaTrigger)
    requires HeadFree(x, ModelTrigger) && !Contains(x, ModelTrigger)
    ensures ErrorCodeFor(status, x + m) == ErrorCodeFor(status, m)
  {
    InertPrefix(x, m, AuthTrigger);
    InertPrefix(x, m, QuotaTrigger);
    InertPrefix(x, m, ModelTrigger);
  }
}
