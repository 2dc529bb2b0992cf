/**
 * `resolveFile` (src/utils/fileResolver.js): picks the document out of a
 * request, either the multipart file or the base64 JSON body, and turns it
 * into the `{base64, mimeType, inputMethod}` triple sent to the provider.
 * Node's `Buffer` codec and the mammoth DOCX converter are parameters.
 */
module FileResolver {
  import opened Wrappers
  import opened JsStrings
  import opened Http

  const ImagePrefix := "image/"
  const PdfMime := "application/pdf"
  const DocxMime := "application/" + "vnd.openxmlformats-officedocument." + "wordprocessingml.document"
  const TextPlainMime := "text/plain"

  const NoFileMessage := "No file provided in request."
  const UnsupportedMimePrefix := "Unsupported MIME type: "

  /** The collaborators `resolveFile` calls into, none of which is specified here. */
  datatype Codecs = Codecs(
    fromBase64: string -> Bytes,                     // Buffer.from(s, 'base64')
    toBase64: Bytes -> string,                       // buffer.toString('base64')
    fromUtf8: string -> Bytes,                       // Buffer.from(text)
    extractRawText: Bytes -> Result<string, Error>)  // mammoth.extractRawText({buffer}), then .value

  /** The `inputMethod` tag reported in the success envelope. */
  datatype InputMethod = Image | Pdf | DocxAsText | PlainText {
    function Tag(): (t: string)
      ensures t in {"image", "pdf", "docx_as_text", "plain_text"}
    {
      match this
      case Image => "image"
      case Pdf => "pdf"
      case DocxAsText => "docx_as_text"
      case PlainText => "plain_text"
    }
  }

  datatype Resolved = Resolved(base64: string, mimeType: string, inputMethod: InputMethod)

  /** The error thrown when the request carries no document. */
  function NoFileError(): (e: Error)
    ensures e.status.None? && e.message == NoFileMessage
  {
    Error(NoFileMessage, None)
  }

  /** The error thrown for a MIME type outside the supported set. */
  function UnsupportedMimeError(mimeType: string): (e: Error)
    ensures e.status.None? && e.message == UnsupportedMimePrefix + mimeType
  {
    Error(UnsupportedMimePrefix + mimeType, None)
  }

  /**
   * `if (s.includes(',')) s = s.split(',')[1]`: a data-URI prefix is dropped.
   * With a comma, the result is the piece between the first comma and the
   * next one (or the end); without one, the string is left as it is.
   */
  function StripDataUriPrefix(s: string): (r: string)
    ensures ',' !in s ==> r == s
    ensures ',' in s ==> ',' !in r
    ensures ',' in s ==> FollowsFirstSeparator(s, ',', r)
  {
    if ',' in s then
      SplitSecondPiece(s, ',');
      Split(s, ',')[1]
    else s
  }

  /**
   * The MIME-type branch of `resolveFile`, tested in order: any `image/`
   * type, PDF, DOCX, plain text; `None` for every other type.
   */
  function Classify(mimeType: string): (m: Option<InputMethod>)
    ensures m == Some(Image) <==> StartsWith(mimeType, ImagePrefix)
    ensures m == Some(Pdf) <==> mimeType == PdfMime
    ensures m == Some(DocxAsText) <==> mimeType == DocxMime
    ensures m == Some(PlainText) <==> mimeType == TextPlainMime
  {
    assert StartsWith(mimeType, ImagePrefix) ==> mimeType[0] == 'i';
    if StartsWith(mimeType, ImagePrefix) then Some(Image)
    else if mimeType == PdfMime then Some(Pdf)
    else if mimeType == DocxMime then Some(DocxAsText)
    else if mimeType == TextPlainMime then Some(PlainText)
    else None
  }

  /** Only DOCX is converted, and it is sent on as plain text. */
  function EffectiveMime(mimeType: string): (r: string)
    ensures mimeType != DocxMime ==> r == mimeType
    ensures mimeType == DocxMime ==> r == TextPlainMime
  {
    if mimeType == DocxMime then TextPlainMime else mimeType
  }

  /**
   * Second half of `resolveFile`: encodes the document for the provider.
   * Images, PDFs and plain text are re-encoded unchanged; a DOCX is reduced to
   * its raw text, which goes out as `text/plain`. A converter failure and an
   * unsupported type are errors.
   */
  function Encode(buffer: Bytes, mimeType: string, io: Codecs): (r: Result<Resolved, Error>)
    ensures Classify(mimeType).None? ==> r == Failure(UnsupportedMimeError(mimeType))
    ensures r.Success? ==> Classify(mimeType) == Some(r.value.inputMethod)
    ensures r.Success? ==> r.value.mimeType == EffectiveMime(mimeType)
    ensures Classify(mimeType).Some? && mimeType != DocxMime ==>
      r == Success(Resolved(io.toBase64(buffer), mimeType, Classify(mimeType).value))
    ensures mimeType == DocxMime ==>
      match io.extractRawText(buffer)
      case Success(text) => r == Success(Resolved(io.toBase64(io.fromUtf8(text)), TextPlainMime, DocxAsText))
      case Failure(e) => r == Failure(e)
  {
    if StartsWith(mimeType, ImagePrefix) then
      Success(Resolved(io.toBase64(buffer), mimeType, Image))
    else if mimeType == PdfMime then
      Success(Resolved(io.toBase64(buffer), mimeType, Pdf))
    else if mimeType == DocxMime then
      match io.extractRawText(buffer)
      case Failure(e) => Failure(e)
      case Success(text) => Success(Resolved(io.toBase64(io.fromUtf8(text)), TextPlainMime, DocxAsText))
    else if mimeType == TextPlainMime then
      Success(Resolved(io.toBase64(buffer), mimeType, PlainText))
    else
      Failure(UnsupportedMimeError(mimeType))
  }

  /** Whether the JSON body supplies a document: both fields present and non-empty. */
  function HasBase64Body(body: Body): (b: bool)
    ensures b <==>
      body.fileBase64.Some? && body.fileBase64.value != "" && body.mimeType.Some? && body.mimeType.value != ""
  {
    Truthy(body.fileBase64) && Truthy(body.mimeType)
  }

  /** The MIME type the request declares for its document, if it supplies one. */
  function DeclaredMime(req: Request): (m: OptString)
    ensures req.file.Some? ==> m == Some(req.file.value.mimetype)
    ensures req.file.None? && HasBase64Body(req.body) ==> m == req.body.mimeType
    ensures m.None? <==> req.file.None? && !HasBase64Body(req.body)
  {
    if req.file.Some? then Some(req.file.value.mimetype)
    else if HasBase64Body(req.body) then req.body.mimeType
    else None
  }

  /**
   * `resolveFile(req)`. The multipart file wins over the JSON body; the JSON
   * body is used only when both of its fields are non-empty; otherwise the
   * request is rejected. The MIME type always comes from the file part or the
   * `mime_type` field, never from a data-URI prefix.
   */
  function ResolveFile(req: Request, io: Codecs): (r: Result<Resolved, Error>)
    ensures DeclaredMime(req).None? ==> r == Failure(NoFileError())
    ensures DeclaredMime(req).Some? && Classify(DeclaredMime(req).value).None? ==>
      r == Failure(UnsupportedMimeError(DeclaredMime(req).value))
    ensures r.Success? ==>
      DeclaredMime(req).Some? &&
      Classify(DeclaredMime(req).value) == Some(r.value.inputMethod) &&
      r.value.mimeType == EffectiveMime(DeclaredMime(req).value)
    // a declared document is encoded from the bytes of the part that declared it
    ensures DeclaredMime(req).Some? ==>
      SourceBytes(req, io).Some? && r == Encode(SourceBytes(req, io).value, DeclaredMime(req).value, io)
    // the only failures: no document, an unsupported type, or the DOCX converter's own error
    ensures r.Failure? ==>
      || r.error == NoFileError()
      || r.error == UnsupportedMimeError(DeclaredMime(req).value)
      || (DeclaredMime(req) == Some(DocxMime) &&
          io.extractRawText(SourceBytes(req, io).value) == Failure(r.error))
  {
    if req.file.Some? then
      Encode(req.file.value.buffer, req.file.value.mimetype, io)
    else if HasBase64Body(req.body) then
      var base64String := StripDataUriPrefix(req.body.fileBase64.value);
      Encode(io.fromBase64(base64String), req.body.mimeType.value, io)
    else
      Failure(NoFileError())
  }

  /** The bytes `resolveFile` reads the document from, when the request supplies one. */
  function SourceBytes(req: Request, io: Codecs): (b: Option<Bytes>)
    ensures b.Some? <==> DeclaredMime(req).Some?
    ensures req.file.Some? ==> b == Some(req.file.value.buffer)
    ensures req.file.None? && HasBase64Body(req.body) ==>
      b == Some(io.fromBase64(StripDataUriPrefix(req.body.fileBase64.value)))
  {
    if req.file.Some? then Some(req.file.value.buffer)
    else if HasBase64Body(req.body) then Some(io.fromBase64(StripDataUriPrefix(req.body.fileBase64.value)))
    else None
  }

  // ---------------------------------------------------------------------------
  // Properties

  /** A multipart file wins: whatever the JSON body holds does not change the outcome. */
  lemma FilePartTakesPrecedence(req: Request, other: Body, io: Codecs)
    requires req.file.Some?
    ensures ResolveFile(req, io) == ResolveFile(req.(body := other), io)
    ensures ResolveFile(req, io) == Encode(req.file.value.buffer, req.file.value.mimetype, io)
  {
  }

  /** Without a file part, an absent or empty `file_base64` or `mime_type` rejects the request. */
  lemma MissingInputRejected(req: Request, io: Codecs)
    requires req.file.None?
    requires !Truthy(req.body.fileBase64) || !Truthy(req.body.mimeType)
    ensures ResolveFile(req, io) == Failure(Error("No file provided in request.", None))
  {
  }

  /** The two input paths agree: a base64 body is treated as the multipart file of the decoded bytes. */
  lemma Base64BodyAsFile(req: Request, io: Codecs)
    requires req.file.None? && HasBase64Body(req.body)
    ensures ResolveFile(req, io) ==
      ResolveFile(req.(file := Some(UploadedFile(SourceBytes(req, io).value, req.body.mimeType.value))), io)
  {
  }

  /**
   * In the base64 path the MIME type named inside a data-URI prefix is not
   * read: two bodies that differ only in that prefix resolve alike.
   */
  lemma DataUriMimeIgnored(req: Request, prefix1: string, prefix2: string, payload: string, io: Codecs)
    requires req.file.None? && Truthy(req.body.mimeType)
    requires ',' !in prefix1 && ',' !in prefix2
    ensures ResolveFile(req.(body := req.body.(fileBase64 := Some(prefix1 + "," + payload))), io) ==
            ResolveFile(req.(body := req.body.(fileBase64 := Some(prefix2 + "," + payload))), io)
  {
    StripAfterPrefix(prefix1, payload);
    StripAfterPrefix(prefix2, payload);
  }

  /** After a comma-free prefix and its comma, the kept piece is the payload's first comma-free piece. */
  lemma StripAfterPrefix(prefix: string, payload: string)
    requires ',' !in prefix
    ensures StripDataUriPrefix(prefix + "," + payload) == Split(payload, ',')[0]
  {
    assert prefix + "," + payload == prefix + [','] + payload;
    SplitAtFirst(prefix, payload, ',');
  }

  /** `data:<mime>;base64,<payload>` with a comma-free payload strips to exactly the payload. */
  lemma DataUriPayloadKept(prefix: string, payload: string)
    requires ',' !in prefix && ',' !in payload
    ensures StripDataUriPrefix(prefix + "," + payload) == payload
  {
    StripAfterPrefix(prefix, payload);
    SplitWithoutSeparator(payload, ',');
  }

  /**
   * A data-URI body is decoded from its payload alone: the prefix up to the
   * comma is stripped before the base64 decode.
   */
  lemma DataUriBodyDecoded(req: Request, prefix: string, payload: string, io: Codecs)
    requires req.file.None? && Truthy(req.body.mimeType)
    requires ',' !in prefix && ',' !in payload
    ensures ResolveFile(req.(body := req.body.(fileBase64 := Some(prefix + "," + payload))), io) ==
            Encode(io.fromBase64(payload), req.body.mimeType.value, io)
  {
    DataUriPayloadKept(prefix, payload);
  }

  /** The input method tags are distinct, so the tag identifies the method. */
  lemma TagIdentifiesMethod(a: InputMethod, b: InputMethod)
    ensures a.Tag() == b.Tag() <==> a == b
  {
  }

  /** The four branches of the classifier are mutually exclusive. */
  lemma BranchesExclusive(mimeType: string)
    ensures StartsWith(mimeType, ImagePrefix) ==> mimeType != PdfMime && mimeType != DocxMime && mimeType != TextPlainMime
    ensures mimeType == PdfMime ==> mimeType != DocxMime && mimeType != TextPlainMime
    ensures mimeType == DocxMime ==> mimeType != TextPlainMime
  {
    assert StartsWith(mimeType, ImagePrefix) ==> mimeType[0] == 'i';
  }

  /** Any `image/` subtype is accepted, e.g. `image/gif`, which no upload allow-list names. */
  lemma AnyImageSubtypeAccepted(subtype: string, buffer: Bytes, io: Codecs)
    ensures Encode(buffer, ImagePrefix + subtype, io) ==
      Success(Resolved(io.toBase64(buffer), ImagePrefix + subtype, Image))
  {
    assert (ImagePrefix + subtype)[..|ImagePrefix|] == ImagePrefix;
  }
}
