/**
 * `medicalOcrController` (src/controllers/medicalOcrController.js): resolves
 * the document, hands it with the caller's header overrides to the provider
 * service, and answers with the success envelope; any failure is passed on to
 * `next` untouched.
 */
module MedicalOcrController {
  import opened Wrappers
  import opened JsStrings
  import opened Http
  import opened FileResolver
  import opened GeminiOcrService

  /** The model name the success envelope reports, whatever model was called. */
  const ReportedModel := "gemini-2.0-flash"

  /** `res.status(200).json({success: true, data, meta: {model, input_method, processed_at}})`. */
  function SuccessReply(data: Json, inputMethod: InputMethod, processedAt: string): (reply: HttpReply)
    ensures reply.status == 200 && WellFormed(reply.body) && reply.body.success
    ensures reply.body.data == Some(data)
    ensures reply.body.meta == Some(Meta(ReportedModel, inputMethod.Tag(), processedAt))
  {
    HttpReply(200, SuccessEnvelope(data, Meta(ReportedModel, inputMethod.Tag(), processedAt)))
  }

  /**
   * The controller on one request. `processedAt` stands for the timestamp the
   * handler takes from the clock; `post` for the provider.
   */
  function MedicalOcrController(req: Request, io: Codecs, env: ServiceEnv,
                                post: (string, Payload) -> ProviderReply, processedAt: string): (out: Outcome)
    // a resolution failure is forwarded as it is, before the provider is asked anything
    ensures ResolveFile(req, io).Failure? ==> out == Forward(ResolveFile(req, io).error)
    // otherwise the resolved fields and the two headers go to the service unchanged
    ensures ResolveFile(req, io).Success? ==>
      var f := ResolveFile(req, io).value;
      var r := ProcessMedicalOcr(f.base64, f.mimeType, req.headers.apiKey, req.headers.model, env, post);
      && (r.Failure? ==> out == Forward(r.error))
      && (r.Success? ==> out.Respond? && out.reply.body.data == Some(r.value))
    // a response is always the 200 success envelope that names the resolved input method
    ensures out.Respond? ==>
      && ResolveFile(req, io).Success?
      && out.reply.status == 200 && out.reply.body.success && WellFormed(out.reply.body)
      && out.reply.body.meta == Some(Meta(ReportedModel, ResolveFile(req, io).value.inputMethod.Tag(), processedAt))
  {
    match ResolveFile(req, io)
    case Failure(e) => Forward(e)
    case Success(f) =>
      var customApiKey := req.headers.apiKey;
      var customModel := req.headers.model;
      match ProcessMedicalOcr(f.base64, f.mimeType, customApiKey, customModel, env, post)
      case Failure(e) => Forward(e)
      case Success(data) => Respond(SuccessReply(data, f.inputMethod, processedAt))
  }

  /** When resolution fails the provider is never consulted: any two providers give the same outcome. */
  lemma ResolveFailureSkipsProvider(req: Request, io: Codecs, env: ServiceEnv,
                                    post1: (string, Payload) -> ProviderReply,
                                    post2: (string, Payload) -> ProviderReply, processedAt: string)
    requires ResolveFile(req, io).Failure?
    ensures MedicalOcrController(req, io, env, post1, processedAt) == MedicalOcrController(req, io, env, post2, processedAt)
  {
  }

  /** The reported model ignores the `x-gemini-model` header. */
  lemma ReportedModelIgnoresHeader(req: Request, model: OptString, io: Codecs, env: ServiceEnv,
                                   post: (string, Payload) -> ProviderReply, processedAt: string)
    ensures var out := MedicalOcrController(req.(headers := req.headers.(model := model)), io, env, post, processedAt);
      out.Respond? ==> out.reply.body.meta.value.model == "gemini-2.0-flash"
  {
  }
}
