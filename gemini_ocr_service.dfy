/**
 * `processMedicalOcr` (netlify/functions/src/services/geminiOcrService.js):
 * chooses the credential and endpoint, builds the structured-output request,
 * sends it, and turns a provider failure into an error message whose wording
 * encodes the failure kind. The HTTP exchange, the navigation to the
 * candidate text and `JSON.parse` together form the `post` parameter.
 */
module GeminiOcrService {
  import opened Wrappers
  import opened JsStrings
  import opened Http

  // ---------------------------------------------------------------------------
  // Response schema

  /**
   * The subset of JSON Schema the provider's structured output mode is given.
   * An object's `properties` is a JavaScript object, so a map here; its
   * `propertyOrdering` is the list that fixes their order.
   */
  datatype Schema =
    | StringSchema(enumValues: Option<seq<string>>)
    | ArraySchema(items: Schema)
    | ObjectSchema(properties: map<string, Schema>, required: seq<string>, propertyOrdering: seq<string>)

  /** The schema of property `name` of an object schema, if it declares one. */
  function Property(s: Schema, name: string): (r: Option<Schema>)
    ensures r.Some? <==> s.ObjectSchema? && name in s.properties
    ensures r.Some? ==> r.value == s.properties[name]
  {
    if s.ObjectSchema? && name in s.properties then Some(s.properties[name]) else None
  }

  /**
   * An object schema whose ordering lists each declared property exactly once
   * and whose required fields are all declared.
   */
  predicate WellFormedObject(s: Schema) {
    s.ObjectSchema? &&
    (forall i, j :: 0 <= i < j < |s.propertyOrdering| ==> s.propertyOrdering[i] != s.propertyOrdering[j]) &&
    (forall k :: k in s.propertyOrdering ==> k in s.properties) &&
    (forall k :: k in s.properties ==> k in s.propertyOrdering) &&
    (forall r :: r in s.required ==> r in s.properties)
  }

  const DocumentTypes: seq<string> :=
    ["prescription", "lab_report", "radiology_report", "discharge_summary", "clinical_note", "unknown"]
  const LabStatuses: seq<string> := ["normal", "high", "low", "critical"]
  const ConfidenceLevels: seq<string> := ["high", "medium", "low"]
  const RequiredFields: seq<string> := ["document_type", "patient_info", "date", "confidence"]
  const ResponseOrdering: seq<string> :=
    ["document_type", "patient_info", "doctor_info", "date", "diagnosis",
     "medications", "findings", "lab_results", "notes", "confidence"]

  const Text := StringSchema(None)

  function PatientInfoSchema(): (s: Schema)
    ensures WellFormedObject(s)
  {
    ObjectSchema(map["name" := Text, "age" := Text, "gender" := Text, "patient_id" := Text, "contact" := Text],
                 [], ["name", "age", "gender", "patient_id", "contact"])
  }

  function DoctorInfoSchema(): (s: Schema)
    ensures WellFormedObject(s)
  {
    ObjectSchema(map["name" := Text, "specialization" := Text, "license_number" := Text, "hospital" := Text],
                 [], ["name", "specialization", "license_number", "hospital"])
  }

  function MedicationSchema(): (s: Schema)
    ensures WellFormedObject(s)
  {
    ObjectSchema(map["name" := Text, "dosage" := Text, "frequency" := Text, "duration" := Text,
                     "route" := Text, "instructions" := Text],
                 [], ["name", "dosage", "frequency", "duration", "route", "instructions"])
  }

  function LabResultSchema(): (s: Schema)
    ensures WellFormedObject(s)
    ensures Property(s, "status") == Some(StringSchema(Some(LabStatuses)))
  {
    ObjectSchema(map["test_name" := Text, "value" := Text, "unit" := Text, "reference_range" := Text,
                     "status" := StringSchema(Some(LabStatuses))],
                 [], ["test_name", "value", "unit", "reference_range", "status"])
  }

  /**
   * `RESPONSE_SCHEMA`: a well-formed object that requires exactly
   * `document_type`, `patient_info`, `date` and `confidence`, with the six
   * document types, the four lab-result statuses and the three confidence
   * levels as its enums.
   */
  function ResponseSchema(): (s: Schema)
    ensures s.ObjectSchema? && s.required == RequiredFields
    ensures Property(s, "document_type") == Some(StringSchema(Some(DocumentTypes)))
    ensures Property(s, "confidence") == Some(StringSchema(Some(ConfidenceLevels)))
    ensures Property(s, "lab_results") == Some(ArraySchema(LabResultSchema()))
    ensures Property(s, "patient_info") == Some(PatientInfoSchema())
  {
    ObjectSchema(
      map["document_type" := StringSchema(Some(DocumentTypes)),
          "patient_info" := PatientInfoSchema(),
          "doctor_info" := DoctorInfoSchema(),
          "date" := Text,
          "diagnosis" := Text,
          "medications" := ArraySchema(MedicationSchema()),
          "findings" := ArraySchema(Text),
          "lab_results" := ArraySchema(LabResultSchema()),
          "notes" := Text,
          "confidence" := StringSchema(Some(ConfidenceLevels))],
      RequiredFields, ResponseOrdering)
  }

  /** The response schema's ordering lists each of its ten properties once, and it requires only declared ones. */
  lemma ResponseSchemaWellFormed()
    ensures WellFormedObject(ResponseSchema())
  {
    ResponseOrderingDistinct();
    ResponseOrderingMatchesProperties();
  }

  lemma ResponseOrderingDistinct()
    ensures forall i, j :: 0 <= i < j < |ResponseOrdering| ==> ResponseOrdering[i] != ResponseOrdering[j]
  {
    forall i, j | 0 <= i < j < |ResponseOrdering| ensures ResponseOrdering[i] != ResponseOrdering[j] {
      var a, b := ResponseOrdering[i], ResponseOrdering[j];
      assert |a| != |b| || a[0] != b[0];
    }
  }

  lemma ResponseOrderingMatchesProperties()
    ensures forall k :: k in ResponseOrdering <==> k in ResponseSchema().properties
  {
    var s := ResponseSchema();
    assert forall k :: k in s.properties ==> k in ResponseOrdering;
    assert forall k :: k in ResponseOrdering ==> k in s.properties;
  }

  // ---------------------------------------------------------------------------
  // Credential and endpoint

  /** The process-wide configuration: `GEMINI_API_KEY` and `GEMINI_API_URL`, each possibly unset. */
  datatype ServiceEnv = ServiceEnv(geminiApiKey: OptString, geminiApiUrl: OptString)

  const ModelsBase := "https://generativelanguage.googleapis.com/v1beta/models/"
  const GenerateSuffix := ":generateContent"
  const DefaultModel := "gemini-2.0-flash"
  const DefaultApiUrl := ModelsBase + DefaultModel + GenerateSuffix

  /** `customApiKey || process.env.GEMINI_API_KEY`: the caller's key when it is a non-empty string. */
  function ApiKey(customApiKey: OptString, env: ServiceEnv): (k: OptString)
    ensures Truthy(customApiKey) ==> k == customApiKey
    ensures !Truthy(customApiKey) ==> k == env.geminiApiKey
  {
    Or(customApiKey, env.geminiApiKey)
  }

  /** The guard on `customModel`: set, not the string `'undefined'`, and not blank after `trim()`. */
  function UsesCustomModel(customModel: OptString): (b: bool)
    ensures b <==> customModel.Some? && customModel.value != "undefined" && !AllWhitespace(customModel.value)
  {
    match customModel
    case None => false
    case Some(m) =>
      TrimEmptyIffBlank(m);
      m != "" && m != "undefined" && Trim(m) != ""
  }

  /** The model named by a `…/v1beta/models/<model>:generateContent` URL. */
  function ModelOfUrl(url: string): Option<string> {
    if |ModelsBase| + |GenerateSuffix| <= |url| && StartsWith(url, ModelsBase) &&
       url[|url| - |GenerateSuffix|..] == GenerateSuffix
    then Some(url[|ModelsBase|..|url| - |GenerateSuffix|])
    else None
  }

  /**
   * The endpoint. A usable custom model is embedded verbatim (untrimmed) in the
   * v1beta URL; otherwise `GEMINI_API_URL`, or the `gemini-2.0-flash` URL when
   * that is unset or empty.
   */
  function ApiUrl(customModel: OptString, env: ServiceEnv): (url: string)
    ensures UsesCustomModel(customModel) ==> ModelOfUrl(url) == Some(customModel.value)
    ensures !UsesCustomModel(customModel) && Truthy(env.geminiApiUrl) ==> url == env.geminiApiUrl.value
    ensures !UsesCustomModel(customModel) && !Truthy(env.geminiApiUrl) ==> url == DefaultApiUrl
  {
    if UsesCustomModel(customModel) then
      CustomUrlReadsBack(customModel.value);
      ModelsBase + customModel.value + GenerateSuffix
    else
      Or(env.geminiApiUrl, Some(DefaultApiUrl)).value
  }

  /** The model embedded in a v1beta URL is read back unchanged. */
  lemma CustomUrlReadsBack(model: string)
    ensures ModelOfUrl(ModelsBase + model + GenerateSuffix) == Some(model)
  {
    var url := ModelsBase + model + GenerateSuffix;
    assert url[..|ModelsBase|] == ModelsBase;
    assert url[|url| - |GenerateSuffix|..] == GenerateSuffix;
    assert url[|ModelsBase|..|url| - |GenerateSuffix|] == model;
  }

  /** The default endpoint names the `gemini-2.0-flash` model. */
  lemma DefaultUrlModel()
    ensures ModelOfUrl(DefaultApiUrl) == Some(DefaultModel)
  {
    assert DefaultApiUrl[..|ModelsBase|] == ModelsBase;
    assert DefaultApiUrl[|DefaultApiUrl| - |GenerateSuffix|..] == GenerateSuffix;
    assert DefaultApiUrl[|ModelsBase|..|DefaultApiUrl| - |GenerateSuffix|] == DefaultModel;
  }

  /** `${apiUrl}?key=${apiKey}`: an unset key is sent as the text `undefined`. */
  function RequestUrl(customApiKey: OptString, customModel: OptString, env: ServiceEnv): (url: string)
    ensures Truthy(customApiKey) ==> url == ApiUrl(customModel, env) + "?key=" + customApiKey.value
    ensures !Truthy(customApiKey) && env.geminiApiKey.Some? ==>
      url == ApiUrl(customModel, env) + "?key=" + env.geminiApiKey.value
    ensures !Truthy(customApiKey) && env.geminiApiKey.None? ==>
      url == ApiUrl(customModel, env) + "?key=" + "undefined"
  {
    ApiUrl(customModel, env) + "?key=" + Render(ApiKey(customApiKey, env))
  }

  // ---------------------------------------------------------------------------
  // Payload

  datatype InlineData = InlineData(mimeType: string, data: string)

  datatype GenerationConfig =
    GenerationConfig(responseMimeType: string, responseSchema: Schema, temperature: real, maxOutputTokens: nat)

  /** The request body: the document as inline data, and the generation settings. */
  datatype Payload = Payload(inlineData: InlineData, generationConfig: GenerationConfig)

  /** The payload carries the document and its MIME type unchanged, under a fixed JSON-output configuration. */
  function BuildPayload(base64: string, mimeType: string): (p: Payload)
    ensures p.inlineData.mimeType == mimeType && p.inlineData.data == base64
    ensures p.generationConfig.responseMimeType == "application/json"
    ensures p.generationConfig.temperature == 0.1 && p.generationConfig.maxOutputTokens == 4096
    ensures p.generationConfig.responseSchema == ResponseSchema()
  {
    Payload(InlineData(mimeType, base64), GenerationConfig("application/json", ResponseSchema(), 0.1, 4096))
  }

  // ---------------------------------------------------------------------------
  // Provider reply and error mapping

  /** `error.response.data.error`, with its optional `message`. */
  datatype ApiError = ApiError(message: OptString)

  /** `error.response`: the HTTP status and the provider's error object, if the body carries one. */
  datatype ErrorResponse = ErrorResponse(status: nat, apiError: Option<ApiError>)

  /**
   * What the `try` block ends with: the parsed candidate text, or whatever was
   * thrown inside it (an HTTP error, a network failure or timeout, a missing
   * candidate, a JSON syntax error), with the thrown value's `response` and
   * `message`.
   */
  datatype ProviderReply = Parsed(data: Json) | Thrown(response: Option<ErrorResponse>, message: string)

  const QuotaPrefix := "Gemini API Quota Exceeded: "
  const AuthPrefix := "Gemini API Auth Error: "
  const AuthNote := " (Check your API Key)"
  const ModelPrefix := "Gemini API Model Error: "
  const ModelNote := " (Selected model might not exist for your region/key)"
  const GenericPrefix := "Gemini API Error ("
  const GenericInfix := "): "
  const UnknownApiError := "Unknown Gemini API Error"
  const FailurePrefix := "Failed to process medical document: "

  /**
   * The message thrown for a provider error with HTTP status `status`: quota
   * for 429, authentication for 401 and 403, model for 404, and a generic
   * message naming the status otherwise. Each carries the provider's message.
   */
  function ProviderErrorMessage(status: nat, message: string): (m: string)
    ensures status == 429 ==> m == QuotaPrefix + message
    ensures status in {401, 403} ==> m == AuthPrefix + message + AuthNote
    ensures status == 404 ==> m == ModelPrefix + message + ModelNote
    ensures status !in {429, 401, 403, 404} ==>
      m == GenericPrefix + DecimalString(status) + GenericInfix + message
  {
    if status == 429 then QuotaPrefix + message
    else if status == 403 || status == 401 then AuthPrefix + message + AuthNote
    else if status == 404 then ModelPrefix + message + ModelNote
    else GenericPrefix + DecimalString(status) + GenericInfix + message
  }

  /** The provider's message is always carried, and the status is readable back from the generic message. */
  lemma ProviderMessageCarried(status: nat, message: string)
    ensures Contains(ProviderErrorMessage(status, message), message)
    ensures status !in {429, 401, 403, 404} ==>
      var m := ProviderErrorMessage(status, message);
      var d := DecimalString(status);
      m[|GenericPrefix|..|GenericPrefix| + |d|] == d && DecimalValue(d) == status
  {
    var m := ProviderErrorMessage(status, message);
    assert StartsWith(message, message);
    StartsWithContains(message, message);
    if status == 429 {
      ContainsRight(QuotaPrefix, message, message);
    } else if status in {401, 403} {
      ContainsRight(AuthPrefix, message, message);
      ContainsLeft(AuthPrefix + message, AuthNote, message);
    } else if status == 404 {
      ContainsRight(ModelPrefix, message, message);
      ContainsLeft(ModelPrefix + message, ModelNote, message);
    } else {
      var d := DecimalString(status);
      ContainsRight(GenericPrefix + d + GenericInfix, message, message);
      assert m[|GenericPrefix|..|GenericPrefix| + |d|] == d;
      DecimalRoundTrip(status);
    }
  }

  /** `apiError.message || 'Unknown Gemini API Error'`. */
  function ApiMessage(apiMessage: OptString): (text: string)
    ensures Truthy(apiMessage) ==> text == apiMessage.value
    ensures !Truthy(apiMessage) ==> text == UnknownApiError
  {
    Or(apiMessage, Some(UnknownApiError)).value
  }

  /** The `catch` block's message for whatever the `try` block threw. */
  function FailureMessage(response: Option<ErrorResponse>, message: string): (m: string)
    ensures response.Some? && response.value.apiError.Some? ==>
      m == ProviderErrorMessage(response.value.status, ApiMessage(response.value.apiError.value.message))
    ensures !(response.Some? && response.value.apiError.Some?) ==> m == FailurePrefix + message
  {
    if response.Some? && response.value.apiError.Some? then
      ProviderErrorMessage(response.value.status, ApiMessage(response.value.apiError.value.message))
    else FailurePrefix + message
  }

  /**
   * `processMedicalOcr(base64, mimeType, customApiKey, customModel)`. Exactly
   * one request is sent, to `RequestUrl` with `BuildPayload(base64, mimeType)`;
   * the parsed result is returned as it is, and every failure becomes an
   * `Error` without a status whose message is `FailureMessage`.
   */
  function ProcessMedicalOcr(base64: string, mimeType: string, customApiKey: OptString, customModel: OptString,
                             env: ServiceEnv, post: (string, Payload) -> ProviderReply): (r: Result<Json, Error>)
    ensures var reply := post(RequestUrl(customApiKey, customModel, env), BuildPayload(base64, mimeType));
      && (r.Success? <==> reply.Parsed?)
      && (reply.Parsed? ==> r.value == reply.data)
      && (reply.Thrown? ==> r.error == Error(FailureMessage(reply.response, reply.message), None))
  {
    var apiKey := ApiKey(customApiKey, env);
    var apiUrl := ApiUrl(customModel, env);
    var payload := BuildPayload(base64, mimeType);
    match post(apiUrl + "?key=" + Render(apiKey), payload)
    case Parsed(data) => Success(data)
    case Thrown(response, message) => Failure(Error(FailureMessage(response, message), None))
  }

  /** Errors of the service never carry a status, so the error handler always answers them with 500. */
  lemma ServiceErrorsHaveNoStatus(base64: string, mimeType: string, customApiKey: OptString, customModel: OptString,
                                  env: ServiceEnv, post: (string, Payload) -> ProviderReply)
    ensures var r := ProcessMedicalOcr(base64, mimeType, customApiKey, customModel, env, post);
      r.Failure? ==> r.error.status.None?
  {
  }

  /** Calling twice with the same inputs and the same provider behaviour gives the same result. */
  lemma Deterministic(base64: string, mimeType: string, customApiKey: OptString, customModel: OptString,
                      env: ServiceEnv, post1: (string, Payload) -> ProviderReply, post2: (string, Payload) -> ProviderReply)
    requires post1(RequestUrl(customApiKey, customModel, env), BuildPayload(base64, mimeType)) ==
             post2(RequestUrl(customApiKey, customModel, env), BuildPayload(base64, mimeType))
    ensures ProcessMedicalOcr(base64, mimeType, customApiKey, customModel, env, post1) ==
            ProcessMedicalOcr(base64, mimeType, customApiKey, customModel, env, post2)
  {
  }
}
