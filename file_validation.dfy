/// The upload guards (backend/src/middleware/fileValidation.ts): a request carries either
/// a file or a transcript, each checked in order; upload-library errors become 400s.
module FileValidation {
  import opened JsCore
  import opened BackendTypes
  import FileExtensionDetector

  const MaxTranscriptLength: nat := 50000

  const NeitherGiven := "Either a file or transcript text is required"
  const BothGiven := "Please provide either a file OR transcript text, not both"
  const MustBeString := "Transcript must be a string"
  const CannotBeEmpty := "Transcript cannot be empty"
  const TooLong := "Transcript is too long (max 50,000 characters)"
  const NoFilename := "File must have a valid filename"
  const EmptyFile := "File cannot be empty"
  const NoExtension := "File must have a valid extension"

  const FileTooLarge := "File is too large. Maximum size is 50MB"
  const TooManyFiles := "Too many files. Only 1 file is allowed"
  const UnexpectedField := "Unexpected file field. Use \"file\" as the field name"
  const UploadErrorPrefix := "File upload error: "

  /** The formats the error bodies advertise. */
  const AdvertisedFormats := FileExtensionDetector.SupportedFormats(
    [".txt", ".md", ".markdown"],
    [".mp3", ".wav", ".ogg", ".flac", ".m4a", ".mp4", ".webm"])

  /** The JSON body of an error answer. */
  datatype ErrorBody = ErrorBody(
    error: string,
    supportedFormats: Option<FileExtensionDetector.SupportedFormats>,
    maxSize: Option<string>)

  /** Call `next()`, call `next(error)`, or answer with a status and a body. */
  datatype Outcome = Next | NextWithError | Respond(status: nat, body: ErrorBody)

  function Plain(error: string): Outcome {
    Respond(400, ErrorBody(error, None, None))
  }

  function WithFormats(error: string): Outcome {
    Respond(400, ErrorBody(error, Some(AdvertisedFormats), None))
  }

  /** A transcript that is a non-blank string. */
  predicate HasValidTranscript(transcript: JsValue) {
    Truthy(transcript) && transcript.Str? && |Trim(transcript.s)| > 0
  }

  /** The checks on an uploaded file: a name, a size, and a dot after the first character. */
  predicate FileLooksValid(file: UploadedFile) {
    file.originalname != "" && file.size != 0 && LastIndexOf(file.originalname, '.') > 0
  }

  /** `validateFileOrTranscript`. */
  function ValidateFileOrTranscript(transcript: JsValue, file: Option<UploadedFile>): (r: Outcome)
    ensures !r.NextWithError?
    ensures r.Respond? ==> r.status == 400
    ensures r.Next? <==>
              (if file.None? then HasValidTranscript(transcript) && |transcript.s| <= MaxTranscriptLength
               else !Truthy(transcript) && FileLooksValid(file.value))
    ensures file.None? && !HasValidTranscript(transcript) ==> r == WithFormats(NeitherGiven)
    ensures file.Some? && HasValidTranscript(transcript) ==> r == Plain(BothGiven)
    ensures file.Some? && Truthy(transcript) && !transcript.Str? ==> r == Plain(MustBeString)
    ensures file.Some? && transcript.Str? && transcript.s != "" && IsBlank(transcript.s) ==>
              r == Plain(CannotBeEmpty)
    ensures file.None? && HasValidTranscript(transcript) && |transcript.s| > MaxTranscriptLength ==>
              r == Plain(TooLong)
    ensures file.Some? && !Truthy(transcript) && file.value.originalname == "" ==>
              r == Plain(NoFilename)
    ensures (file.Some? && !Truthy(transcript) && file.value.originalname != ""
             && file.value.size == 0) ==> r == Plain(EmptyFile)
    ensures (file.Some? && !Truthy(transcript) && file.value.originalname != ""
             && file.value.size != 0 && LastIndexOf(file.value.originalname, '.') <= 0) ==>
              r == WithFormats(NoExtension)
  {
    if file.None? && !Truthy(transcript) then WithFormats(NeitherGiven)
    else if file.None? && !HasValidTranscript(transcript) then WithFormats(NeitherGiven)
    else if file.Some? && HasValidTranscript(transcript) then Plain(BothGiven)
    else if Truthy(transcript) && !transcript.Str? then Plain(MustBeString)
    else if Truthy(transcript) && |Trim(transcript.s)| == 0 then Plain(CannotBeEmpty)
    else if Truthy(transcript) && |transcript.s| > MaxTranscriptLength then Plain(TooLong)
    else if file.Some? && file.value.originalname == "" then Plain(NoFilename)
    else if file.Some? && file.value.size == 0 then Plain(EmptyFile)
    else if file.Some? && !(LastIndexOf(file.value.originalname, '.') > 0) then
      WithFormats(NoExtension)
    else Next
  }

  /** A request that passes carries exactly one of a file and a transcript. */
  lemma AcceptedRequestHasExactlyOne(transcript: JsValue, file: Option<UploadedFile>)
    requires ValidateFileOrTranscript(transcript, file).Next?
    ensures file.Some? <==> !HasValidTranscript(transcript)
  {
  }

  /** An accepted file has a name whose extension the detector can read. */
  lemma AcceptedFileHasExtension(transcript: JsValue, file: UploadedFile)
    requires ValidateFileOrTranscript(transcript, Some(file)).Next?
    ensures FileExtensionDetector.ExtractExtension(file.originalname) != ""
  {
    var i := LastIndexOf(file.originalname, '.');
    assert file.originalname[i] == '.';
  }

  /** The error an upload can fail with. */
  datatype UploadError = MulterError(code: string, message: string) | OtherError

  /** `handleMulterError`: each upload-library code has its 400 answer; anything else goes
      on to the general error handler. */
  function HandleMulterError(error: UploadError): (r: Outcome)
    ensures r.NextWithError? <==> error.OtherError?
    ensures r.Respond? ==> r.status == 400
    ensures error.MulterError? && error.code == "LIMIT_FILE_SIZE" ==>
              r == Respond(400, ErrorBody(FileTooLarge, None, Some("50MB")))
    ensures error.MulterError? && error.code == "LIMIT_FILE_COUNT" ==> r == Plain(TooManyFiles)
    ensures error.MulterError? && error.code == "LIMIT_UNEXPECTED_FILE" ==>
              r == Plain(UnexpectedField)
    ensures error.MulterError? && error.code !in {"LIMIT_FILE_SIZE", "LIMIT_FILE_COUNT", "LIMIT_UNEXPECTED_FILE"} ==>
              r == Plain(UploadErrorPrefix + error.message)
  {
    match error
    case OtherError => NextWithError
    case MulterError(code, message) =>
      if code == "LIMIT_FILE_SIZE" then Respond(400, ErrorBody(FileTooLarge, None, Some("50MB")))
      else if code == "LIMIT_FILE_COUNT" then Plain(TooManyFiles)
      else if code == "LIMIT_UNEXPECTED_FILE" then Plain(UnexpectedField)
      else Plain(UploadErrorPrefix + message)
  }
}
