/**
 * Properties of the whole pipeline, across the upload filter, the resolver,
 * the provider service and the global error handler: which HTTP status and
 * which error code each way of failing ends in.
 */
module EndToEnd {
  import opened Wrappers
  import opened JsStrings
  import opened Http
  import opened FileResolver
  import opened GeminiOcrService
  import opened MedicalOcrController
  import opened Routes
  import opened App

  // ---------------------------------------------------------------------------
  // The provider's messages seen by the error classifier

  /** Decimal digits are none of the letters the trigger phrases are recognised by. */
  lemma DigitsLackTriggerLetters(d: string)
    requires forall i :: 0 <= i < |d| ==> IsDigit(d[i])
    ensures 'A' !in d && 'h' !in d && 'Q' !in d && 'M' !in d
  {
    forall i | 0 <= i < |d|
      ensures d[i] != 'A' && d[i] != 'h' && d[i] != 'Q' && d[i] != 'M'
    {
      assert IsDigit(d[i]);
    }
  }

  /** A 429 message is a quota error, unless the provider's own text names an auth error, which is tested first. */
  lemma QuotaMessageCode(message: string)
    ensures ErrorCodeFor(500, ProviderErrorMessage(429, message)) ==
      if Contains(message, AuthTrigger) then AuthFailed else QuotaExceeded
  {
    var m := QuotaPrefix + message;
    assert 'h' !in QuotaPrefix;
    NotContainsByChar(QuotaPrefix, AuthTrigger, 'h');
    assert QuotaPrefix[10..] == " Quota Exceeded: ";
    HeadFreeBySuffix(QuotaPrefix, 10, AuthTrigger);
    InertPrefix(QuotaPrefix, message, AuthTrigger);
    assert QuotaPrefix[11..] == "Quota Exceeded: ";
    assert StartsWith("Quota Exceeded: ", QuotaTrigger);
    StartsWithAt(QuotaPrefix, 11, QuotaTrigger);
    ContainsLeft(QuotaPrefix, message, QuotaTrigger);
  }

  /** A 401 or 403 message is always an auth error. */
  lemma AuthMessageCode(status: nat, message: string)
    requires status in {401, 403}
    ensures ErrorCodeFor(500, ProviderErrorMessage(status, message)) == AuthFailed
  {
    assert AuthPrefix[11..] == "Auth Error: ";
    assert StartsWith("Auth Error: ", AuthTrigger);
    StartsWithAt(AuthPrefix, 11, AuthTrigger);
    ContainsLeft(AuthPrefix, message, AuthTrigger);
    ContainsLeft(AuthPrefix + message, AuthNote, AuthTrigger);
  }

  /** A 404 message is a model error, unless the provider's own text names an auth or a quota error. */
  lemma ModelMessageCode(message: string)
    ensures ErrorCodeFor(500, ProviderErrorMessage(404, message)) ==
      if Contains(message, AuthTrigger) then AuthFailed
      else if Contains(message, QuotaTrigger) then QuotaExceeded
      else ModelNotFound
  {
    assert 'h' !in ModelPrefix && 'Q' !in ModelPrefix;
    NotContainsByChar(ModelPrefix, AuthTrigger, 'h');
    NotContainsByChar(ModelPrefix, QuotaTrigger, 'Q');
    HeadFreeBySuffix(ModelPrefix, 11, AuthTrigger);
    HeadFreeBySuffix(ModelPrefix, 0, QuotaTrigger);
    InertPrefix(ModelPrefix, message, AuthTrigger);
    InertPrefix(ModelPrefix, message, QuotaTrigger);
    ModelNoteInert();
    InertSuffix(ModelPrefix + message, ModelNote, AuthTrigger);
    InertSuffix(ModelPrefix + message, ModelNote, QuotaTrigger);
    assert ModelPrefix[11..] == "Model Error: ";
    assert StartsWith("Model Error: ", ModelTrigger);
    StartsWithAt(ModelPrefix, 11, ModelTrigger);
    ContainsLeft(ModelPrefix, message, ModelTrigger);
    ContainsLeft(ModelPrefix + message, ModelNote, ModelTrigger);
  }

  /** The note appended to a 404 message can neither hold nor complete an auth or a quota trigger. */
  lemma ModelNoteInert()
    ensures LeadFree(ModelNote, AuthTrigger) && !Contains(ModelNote, AuthTrigger)
    ensures LeadFree(ModelNote, QuotaTrigger) && !Contains(ModelNote, QuotaTrigger)
  {
    ModelNoteLetters();
    LeadFreeBySecond(ModelNote, AuthTrigger);
    LeadFreeBySecond(ModelNote, QuotaTrigger);
    NotContainsByChar(ModelNote, AuthTrigger, 'A');
    NotContainsByChar(ModelNote, QuotaTrigger, 'Q');
  }

  /** The 404 note as three shorter pieces, which the solver reads character by character. */
  lemma ModelNotePieces()
    ensures ModelNote == " (Selected model" + " might not exist" + " for your region/key)"
  {
  }

  lemma ModelNoteLetters()
    ensures 'A' !in ModelNote && 'Q' !in ModelNote
    ensures ModelNote[0] == ' ' && ModelNote[1] == '('
  {
    ModelNotePieces();
    assert 'A' !in " (Selected model" && 'Q' !in " (Selected model";
    assert 'A' !in " might not exist" && 'Q' !in " might not exist";
    assert 'A' !in " for your region/key)" && 'Q' !in " for your region/key)";
  }

  /** The wrapper `Gemini API Error (<digits>): ` lacks every trigger and cannot begin one. */
  lemma GenericWrapperInert(d: string)
    requires forall i :: 0 <= i < |d| ==> IsDigit(d[i])
    ensures var x := GenericPrefix + d + GenericInfix;
      && HeadFree(x, AuthTrigger) && !Contains(x, AuthTrigger)
      && HeadFree(x, QuotaTrigger) && !Contains(x, QuotaTrigger)
      && HeadFree(x, ModelTrigger) && !Contains(x, ModelTrigger)
  {
    var x := GenericPrefix + d + GenericInfix;
    DigitsLackTriggerLetters(d);
    GenericWrapperLetters(d);
    NotContainsByChar(x, AuthTrigger, 'h');
    NotContainsByChar(x, QuotaTrigger, 'Q');
    NotContainsByChar(x, ModelTrigger, 'M');
    HeadFreeBySuffix(x, 10, AuthTrigger);
    HeadFreeBySuffix(x, 0, QuotaTrigger);
    HeadFreeBySuffix(x, 0, ModelTrigger);
  }

  lemma GenericWrapperLetters(d: string)
    requires 'A' !in d && 'h' !in d && 'Q' !in d && 'M' !in d
    ensures var x := GenericPrefix + d + GenericInfix;
      'h' !in x && 'Q' !in x && 'M' !in x && 'A' !in x[10..] && |x| >= 21
  {
    var x := GenericPrefix + d + GenericInfix;
    assert 'h' !in GenericPrefix && 'Q' !in GenericPrefix && 'M' !in GenericPrefix;
    assert 'h' !in GenericInfix && 'Q' !in GenericInfix && 'M' !in GenericInfix;
    assert x[10..] == " Error (" + d + GenericInfix;
    assert 'A' !in " Error (" && 'A' !in GenericInfix;
  }

  /** Any other status: the wrapper `Gemini API Error (<status>): ` adds no trigger, so the provider's text decides. */
  lemma GenericMessageCode(status: nat, message: string)
    requires status !in {429, 401, 403, 404}
    ensures ErrorCodeFor(500, ProviderErrorMessage(status, message)) == ErrorCodeFor(500, message)
  {
    var d := DecimalString(status);
    GenericWrapperInert(d);
    InertPrefixKeepsCode(500, GenericPrefix + d + GenericInfix, message);
  }

  /** A failure without a provider error body: the `Failed to process medical document: ` wrapper adds no trigger. */
  lemma FailurePrefixCode(message: string)
    ensures ErrorCodeFor(500, FailurePrefix + message) == ErrorCodeFor(500, message)
  {
    FailurePrefixLetters();
    NotContainsByChar(FailurePrefix, AuthTrigger, 'A');
    NotContainsByChar(FailurePrefix, QuotaTrigger, 'Q');
    NotContainsByChar(FailurePrefix, ModelTrigger, 'M');
    HeadFreeBySuffix(FailurePrefix, 0, AuthTrigger);
    HeadFreeBySuffix(FailurePrefix, 0, QuotaTrigger);
    HeadFreeBySuffix(FailurePrefix, 0, ModelTrigger);
    InertPrefixKeepsCode(500, FailurePrefix, message);
  }

  /** The failure prefix as two shorter pieces, which the solver reads character by character. */
  lemma FailurePrefixPieces()
    ensures FailurePrefix == "Failed to process" + " medical document: "
  {
  }

  lemma FailurePrefixLetters()
    ensures 'A' !in FailurePrefix && 'Q' !in FailurePrefix && 'M' !in FailurePrefix
  {
    FailurePrefixPieces();
    assert 'A' !in "Failed to process" && 'Q' !in "Failed to process" && 'M' !in "Failed to process";
    assert 'A' !in " medical document: " && 'Q' !in " medical document: " && 'M' !in " medical document: ";
  }

  /** The default provider message names no trigger. */
  lemma UnknownApiErrorInert()
    ensures !Contains(UnknownApiError, AuthTrigger)
    ensures !Contains(UnknownApiError, QuotaTrigger)
    ensures !Contains(UnknownApiError, ModelTrigger)
  {
    assert 'h' !in UnknownApiError && 'Q' !in UnknownApiError && 'M' !in UnknownApiError;
    NotContainsByChar(UnknownApiError, AuthTrigger, 'h');
    NotContainsByChar(UnknownApiError, QuotaTrigger, 'Q');
    NotContainsByChar(UnknownApiError, ModelTrigger, 'M');
  }

  /** `Unsupported MIME type: ` adds no trigger: the echoed MIME string alone decides the code. */
  lemma UnsupportedMimeCode(mimeType: string)
    ensures ErrorCodeFor(500, UnsupportedMimePrefix + mimeType) == ErrorCodeFor(500, mimeType)
  {
    var x := UnsupportedMimePrefix;
    UnsupportedMimeLetters();
    NotContainsByChar(x, AuthTrigger, 'h');
    NotContainsByChar(x, QuotaTrigger, 'Q');
    NotContainsByChar(x, ModelTrigger, 'l');
    HeadFreeBySuffix(x, 12, AuthTrigger);
    HeadFreeBySuffix(x, 0, QuotaTrigger);
    HeadFreeBySecond(x, 12, ModelTrigger);
    InertPrefixKeepsCode(500, x, mimeType);
  }

  lemma UnsupportedMimeLetters()
    ensures var x := UnsupportedMimePrefix;
      && 'h' !in x && 'Q' !in x && 'l' !in x && |x| == 23
      && 'A' !in x[12..] && 'o' !in x[12..] && x[|x| - 1] == ' '
  {
    var x := UnsupportedMimePrefix;
    assert x[12..] == "MIME type: ";
  }

  // ---------------------------------------------------------------------------
  // Requests served end to end

  /**
   * The request passes the upload filter and resolves, and the provider gives
   * `reply` to the one request the service then sends.
   */
  predicate ReachesProvider(req: Request, io: Codecs, env: ServiceEnv,
                            post: (string, Payload) -> ProviderReply, reply: ProviderReply) {
    && (req.file.None? || req.file.value.mimetype in AllowedMimes)
    && ResolveFile(req, io).Success?
    && post(RequestUrl(req.headers.apiKey, req.headers.model, env),
            BuildPayload(ResolveFile(req, io).value.base64, ResolveFile(req, io).value.mimeType)) == reply
  }

  /** A successful extraction is answered 200 with the provider's data and the resolved input method. */
  lemma ExtractionServed(req: Request, io: Codecs, env: ServiceEnv,
                         post: (string, Payload) -> ProviderReply, processedAt: string, data: Json)
    requires ReachesProvider(req, io, env, post, Parsed(data))
    ensures var reply := Serve(OcrRequest(req), io, env, post, processedAt);
      && reply.status == 200 && reply.body.success
      && reply.body.data == Some(data)
      && reply.body.meta == Some(Meta("gemini-2.0-flash", ResolveFile(req, io).value.inputMethod.Tag(), processedAt))
  {
  }

  /** Every provider failure is answered 500 with the service's message, classified by its trigger phrases. */
  lemma ProviderFailureServed(req: Request, io: Codecs, env: ServiceEnv, post: (string, Payload) -> ProviderReply,
                              processedAt: string, response: Option<ErrorResponse>, message: string)
    requires ReachesProvider(req, io, env, post, Thrown(response, message))
    ensures var reply := Serve(OcrRequest(req), io, env, post, processedAt);
      var m := FailureMessage(response, message);
      && reply.status == 500 && !reply.body.success
      && reply.body.error == Some(ErrorInfo(ErrorCodeFor(500, m), m))
  {
    var m := FailureMessage(response, message);
    assert |m| > 0 by {
      if response.Some? && response.value.apiError.Some? {
        var status := response.value.status;
        var text := ApiMessage(response.value.apiError.value.message);
        assert |ProviderErrorMessage(status, text)| >= |"Gemini "|;
      }
    }
  }

  /** Provider 429: HTTP 500 and `QUOTA_EXCEEDED`, unless the provider's text names an auth error. */
  lemma QuotaServed(req: Request, io: Codecs, env: ServiceEnv, post: (string, Payload) -> ProviderReply,
                    processedAt: string, apiMessage: OptString, message: string)
    requires ReachesProvider(req, io, env, post, Thrown(Some(ErrorResponse(429, Some(ApiError(apiMessage)))), message))
    ensures var reply := Serve(OcrRequest(req), io, env, post, processedAt);
      && reply.status == 500
      && reply.body.error.value.code == (if Contains(ApiMessage(apiMessage), AuthTrigger) then AuthFailed else QuotaExceeded)
      && reply.body.error.value.message == QuotaPrefix + ApiMessage(apiMessage)
  {
    ProviderFailureServed(req, io, env, post, processedAt, Some(ErrorResponse(429, Some(ApiError(apiMessage)))), message);
    QuotaMessageCode(ApiMessage(apiMessage));
  }

  /** With no provider text, a 429 is always `QUOTA_EXCEEDED`. */
  lemma QuotaWithoutTextServed(req: Request, io: Codecs, env: ServiceEnv, post: (string, Payload) -> ProviderReply,
                               processedAt: string, apiMessage: OptString, message: string)
    requires ReachesProvider(req, io, env, post, Thrown(Some(ErrorResponse(429, Some(ApiError(apiMessage)))), message))
    requires !Truthy(apiMessage)
    ensures Serve(OcrRequest(req), io, env, post, processedAt).body.error.value.code == QuotaExceeded
  {
    QuotaServed(req, io, env, post, processedAt, apiMessage, message);
    UnknownApiErrorInert();
  }

  /** Provider 401 or 403: HTTP 500 and `AUTH_FAILED`, whatever the provider's text. */
  lemma AuthServed(req: Request, io: Codecs, env: ServiceEnv, post: (string, Payload) -> ProviderReply,
                   processedAt: string, status: nat, apiMessage: OptString, message: string)
    requires status in {401, 403}
    requires ReachesProvider(req, io, env, post, Thrown(Some(ErrorResponse(status, Some(ApiError(apiMessage)))), message))
    ensures var reply := Serve(OcrRequest(req), io, env, post, processedAt);
      reply.status == 500 && reply.body.error.value.code == AuthFailed
  {
    ProviderFailureServed(req, io, env, post, processedAt, Some(ErrorResponse(status, Some(ApiError(apiMessage)))), message);
    AuthMessageCode(status, ApiMessage(apiMessage));
  }

  /** Provider 404: HTTP 500 and `MODEL_NOT_FOUND`, unless the provider's text names an auth or a quota error. */
  lemma ModelServed(req: Request, io: Codecs, env: ServiceEnv, post: (string, Payload) -> ProviderReply,
                    processedAt: string, apiMessage: OptString, message: string)
    requires ReachesProvider(req, io, env, post, Thrown(Some(ErrorResponse(404, Some(ApiError(apiMessage)))), message))
    ensures var reply := Serve(OcrRequest(req), io, env, post, processedAt);
      var text := ApiMessage(apiMessage);
      && reply.status == 500
      && reply.body.error.value.code ==
           (if Contains(text, AuthTrigger) then AuthFailed
            else if Contains(text, QuotaTrigger) then QuotaExceeded
            else ModelNotFound)
  {
    ProviderFailureServed(req, io, env, post, processedAt, Some(ErrorResponse(404, Some(ApiError(apiMessage)))), message);
    ModelMessageCode(ApiMessage(apiMessage));
  }

  /** Any other provider status: HTTP 500, and the provider's text alone decides the code. */
  lemma OtherStatusServed(req: Request, io: Codecs, env: ServiceEnv, post: (string, Payload) -> ProviderReply,
                          processedAt: string, status: nat, apiMessage: OptString, message: string)
    requires status !in {429, 401, 403, 404}
    requires ReachesProvider(req, io, env, post, Thrown(Some(ErrorResponse(status, Some(ApiError(apiMessage)))), message))
    ensures var reply := Serve(OcrRequest(req), io, env, post, processedAt);
      && reply.status == 500
      && reply.body.error.value.code == ErrorCodeFor(500, ApiMessage(apiMessage))
      && reply.body.error.value.message ==
           GenericPrefix + DecimalString(status) + GenericInfix + ApiMessage(apiMessage)
  {
    ProviderFailureServed(req, io, env, post, processedAt, Some(ErrorResponse(status, Some(ApiError(apiMessage)))), message);
    GenericMessageCode(status, ApiMessage(apiMessage));
  }

  /** A failure without a provider error body (network, timeout, unreadable output): the thrown message alone decides. */
  lemma UnreachedServed(req: Request, io: Codecs, env: ServiceEnv, post: (string, Payload) -> ProviderReply,
                        processedAt: string, response: Option<ErrorResponse>, message: string)
    requires response.None? || response.value.apiError.None?
    requires ReachesProvider(req, io, env, post, Thrown(response, message))
    ensures var reply := Serve(OcrRequest(req), io, env, post, processedAt);
      && reply.status == 500
      && reply.body.error.value.code == ErrorCodeFor(500, message)
      && reply.body.error.value.message == FailurePrefix + message
  {
    ProviderFailureServed(req, io, env, post, processedAt, response, message);
    FailurePrefixCode(message);
  }

  /**
   * A request with no file part and an incomplete JSON body is answered 500
   * `OCR_PROCESSING_FAILED`, not 400: the resolver's error carries no status.
   */
  lemma MissingInputServed(req: Request, io: Codecs, env: ServiceEnv,
                           post: (string, Payload) -> ProviderReply, processedAt: string)
    requires req.file.None? && !HasBase64Body(req.body)
    ensures var reply := Serve(OcrRequest(req), io, env, post, processedAt);
      && reply.status == 500
      && reply.body.error == Some(ErrorInfo(OcrProcessingFailed, NoFileMessage))
  {
    NoFileMessageCode();
  }

  /** The resolver's no-input message names no trigger. */
  lemma NoFileMessageCode()
    ensures ErrorCodeFor(500, NoFileMessage) == OcrProcessingFailed
  {
    assert 'A' !in NoFileMessage && 'Q' !in NoFileMessage && 'M' !in NoFileMessage;
    NotContainsByChar(NoFileMessage, AuthTrigger, 'A');
    NotContainsByChar(NoFileMessage, QuotaTrigger, 'Q');
    NotContainsByChar(NoFileMessage, ModelTrigger, 'M');
  }

  /**
   * An unsupported MIME type sent in the JSON body is not filtered and is
   * answered 500; only the echoed MIME string could change the code.
   */
  lemma UnsupportedBase64MimeServed(req: Request, io: Codecs, env: ServiceEnv,
                                    post: (string, Payload) -> ProviderReply, processedAt: string)
    requires req.file.None? && HasBase64Body(req.body) && Classify(req.body.mimeType.value).None?
    ensures var reply := Serve(OcrRequest(req), io, env, post, processedAt);
      var mime := req.body.mimeType.value;
      && reply.status == 500
      && reply.body.error == Some(ErrorInfo(ErrorCodeFor(500, mime), UnsupportedMimePrefix + mime))
  {
    UnsupportedMimeCode(req.body.mimeType.value);
  }

  /** An upload the filter rejects is answered 400 `INVALID_INPUT`, whatever its MIME string says. */
  lemma FilterRejectionServed(req: Request, io: Codecs, env: ServiceEnv,
                              post: (string, Payload) -> ProviderReply, processedAt: string)
    requires req.file.Some? && req.file.value.mimetype !in AllowedMimes
    ensures var reply := Serve(OcrRequest(req), io, env, post, processedAt);
      && reply.status == 400
      && reply.body.error == Some(ErrorInfo(InvalidInput, UnsupportedFilePrefix + req.file.value.mimetype))
  {
  }

  /**
   * A DOCX, uploaded or sent as a JSON body, that the converter cannot read is
   * answered by the error handler with the converter's own error.
   */
  lemma DocxFailureServed(req: Request, io: Codecs, env: ServiceEnv,
                          post: (string, Payload) -> ProviderReply, processedAt: string)
    requires DeclaredMime(req) == Some(DocxMime)
    requires io.extractRawText(SourceBytes(req, io).value).Failure?
    ensures Serve(OcrRequest(req), io, env, post, processedAt) ==
      HandleError(io.extractRawText(SourceBytes(req, io).value).error)
  {
    assert DocxMime in AllowedMimes by {
      assert AllowedMimes[6] == DocxMime;
    }
    BranchesExclusive(DocxMime);
  }

  /**
   * As long as the DOCX converter's errors carry no status, every reply is
   * 200, 400, 404 or 500.
   */
  lemma ServedStatuses(ar: AppRequest, io: Codecs, env: ServiceEnv,
                       post: (string, Payload) -> ProviderReply, processedAt: string)
    requires forall b :: io.extractRawText(b).Failure? ==> io.extractRawText(b).error.status.None?
    ensures Serve(ar, io, env, post, processedAt).status in {200, 400, 404, 500}
  {
    if ar.OcrRequest? {
      var req := ar.req;
      if req.file.Some? {
        var b := req.file.value.buffer;
        assert io.extractRawText(b).Failure? ==> io.extractRawText(b).error.status.None?;
      } else if HasBase64Body(req.body) {
        var b := io.fromBase64(StripDataUriPrefix(req.body.fileBase64.value));
        assert io.extractRawText(b).Failure? ==> io.extractRawText(b).error.status.None?;
      }
    }
  }
}
