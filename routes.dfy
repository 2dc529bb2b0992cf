/**
 * The API router (netlify/functions/src/routes/api.js): multer's upload
 * filter, which admits only an allow-list of MIME types, in front of the
 * medical OCR controller on `POST /api/medical-ocr`.
 */
module Routes {
  import opened Wrappers
  import opened JsStrings
  import opened Http
  import opened FileResolver
  import opened GeminiOcrService
  import opened MedicalOcrController

  const JpegMime := "image/jpeg"
  const PngMime := "image/png"
  const WebpMime := "image/webp"
  const HeicMime := "image/heic"
  const HeifMime := "image/heif"

  /** `ALLOWED_MIMES`: the types the upload filter admits. */
  const AllowedMimes: seq<string> :=
    [JpegMime, PngMime, WebpMime, HeicMime, HeifMime, PdfMime, DocxMime, TextPlainMime]

  const UnsupportedFilePrefix := "Unsupported file type: "

  /** The error multer's filter passes on: it carries status 400. */
  function UnsupportedFileError(mimetype: string): (e: Error)
    ensures e.status == Some(400) && e.message == UnsupportedFilePrefix + mimetype
  {
    Error(UnsupportedFilePrefix + mimetype, Some(400))
  }

  /** What `fileFilter` reports through its callback. */
  datatype FilterDecision = Accept | Reject(error: Error)

  /** `fileFilter`: the file is accepted exactly when its declared type is on the allow-list. */
  function FileFilter(file: UploadedFile): (d: FilterDecision)
    ensures d.Accept? <==> file.mimetype in AllowedMimes
    ensures d.Reject? ==> d.error == UnsupportedFileError(file.mimetype)
  {
    if file.mimetype in AllowedMimes then Accept
    else Reject(UnsupportedFileError(file.mimetype))
  }

  /**
   * `router.post('/medical-ocr', upload.single('file'), medicalOcrController)`:
   * a multipart file the filter rejects goes to the error handler; everything
   * else reaches the controller. A request with no file part (the JSON body
   * path) is not filtered at all.
   */
  function MedicalOcrRoute(req: Request, io: Codecs, env: ServiceEnv,
                           post: (string, Payload) -> ProviderReply, processedAt: string): (out: Outcome)
    ensures req.file.Some? && req.file.value.mimetype !in AllowedMimes ==>
      out == Forward(UnsupportedFileError(req.file.value.mimetype))
    ensures req.file.None? || req.file.value.mimetype in AllowedMimes ==>
      out == MedicalOcrController.MedicalOcrController(req, io, env, post, processedAt)
  {
    if req.file.Some? then
      match FileFilter(req.file.value)
      case Reject(e) => Forward(e)
      case Accept => MedicalOcrController.MedicalOcrController(req, io, env, post, processedAt)
    else
      MedicalOcrController.MedicalOcrController(req, io, env, post, processedAt)
  }

  // ---------------------------------------------------------------------------
  // Properties

  /** Every allow-listed type is one the resolver can encode, and the images among them are images. */
  lemma AllowedMimesClassified(m: string)
    requires m in AllowedMimes
    ensures Classify(m).Some?
    ensures m in AllowedMimes[..5] <==> Classify(m) == Some(Image)
  {
    AllowedImagesClassified();
    assert m in AllowedMimes[..5] || m in AllowedMimes[5..];
    assert !StartsWith(PdfMime, ImagePrefix) && !StartsWith(DocxMime, ImagePrefix) by {
      assert PdfMime[0] == 'a' && DocxMime[0] == 'a';
    }
    assert !StartsWith(TextPlainMime, ImagePrefix) by {
      assert TextPlainMime[0] == 't';
    }
  }

  lemma AllowedImagesClassified()
    ensures forall k :: 0 <= k < 5 ==> StartsWith(AllowedMimes[k], ImagePrefix)
  {
    forall k | 0 <= k < 5
      ensures StartsWith(AllowedMimes[k], ImagePrefix)
    {
      assert AllowedMimes[k][..6] == ImagePrefix;
    }
  }

  /** So an admitted upload fails to resolve only when the DOCX converter fails. */
  lemma AdmittedUploadResolves(req: Request, io: Codecs)
    requires req.file.Some? && req.file.value.mimetype in AllowedMimes
    requires req.file.value.mimetype == DocxMime ==> io.extractRawText(req.file.value.buffer).Success?
    ensures ResolveFile(req, io).Success?
  {
    AllowedMimesClassified(req.file.value.mimetype);
  }

  /**
   * The allow-list is stricter than the resolver: an `image/gif` upload is
   * stopped by the filter, while the same type sent as a base64 body resolves.
   */
  lemma GifOnlyThroughBase64()
    ensures "image/gif" !in AllowedMimes
    ensures Classify("image/gif") == Some(Image)
  {
    assert "image/gif"[..6] == ImagePrefix;
    assert "image/gif" != JpegMime && "image/gif" != PngMime && "image/gif" != WebpMime by {
      assert "image/gif"[6] == 'g';
    }
    assert "image/gif" != HeicMime && "image/gif" != HeifMime by {
      assert "image/gif"[6] == 'g';
    }
    assert "image/gif" != PdfMime && "image/gif" != DocxMime && "image/gif" != TextPlainMime by {
      assert "image/gif"[0] == 'i';
      assert PdfMime[0] == 'a' && DocxMime[0] == 'a' && TextPlainMime[0] == 't';
    }
  }
}
