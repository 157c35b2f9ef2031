/// The audio path of the pipeline (backend/src/services/AudioTranscriptionService.ts): an
/// uploaded file is checked against the chosen provider's limits and formats, the provider
/// must be ready, and only then is it asked to transcribe. The provider is a value holding
/// what the service asks of it; its transcription is a function parameter.
module AudioTranscriptionService {
  import opened JsCore
  import opened BackendTypes

  const MinAudioSize: nat := 1024
  const TooSmall := "Audio file appears to be too small or corrupted"
  const FailurePrefix := "Failed to transcribe audio file: "

  /** What the service asks of its provider. */
  datatype TranscriptionProvider = TranscriptionProvider(
    name: string,
    maxFileSize: nat,
    supportedFormats: seq<string>,
    ready: bool,
    transcribe: UploadedFile -> Result<FileProcessingResult>)

  /** `Math.round(bytes / 1024 / 1024)`: dividing by a power of two is exact, and rounding
      takes halves up. */
  function RoundedMiB(bytes: nat): (r: nat)
    ensures r * MiB <= bytes + MiB / 2 < (r + 1) * MiB
  {
    (bytes + MiB / 2) / MiB
  }

  /** `getFileExtension`: the lower-cased suffix from the last dot, or "". */
  function GetFileExtension(filename: string): (r: string)
    ensures '.' !in filename ==> r == ""
    ensures '.' in filename ==> r != [] && r[0] == '.'
    ensures '.' in filename ==> '.' !in r[1..]
    ensures |r| <= |filename| && r == ToLower(filename[|filename| - |r|..])
  {
    var lastDotIndex := LastIndexOf(filename, '.');
    if lastDotIndex == -1 then ""
    else ToLower(filename[lastDotIndex..])
  }

  /** The extension as compared with the provider's formats: the first dot removed. */
  function AudioFormat(filename: string): (r: string)
    ensures var i := LastIndexOf(filename, '.');
            r == if i < 0 then "" else ToLower(filename[i + 1..])
  {
    DotlessExtension(filename);
    ReplaceFirst(GetFileExtension(filename), ".", "")
  }

  lemma DotlessExtension(filename: string)
    ensures var i := LastIndexOf(filename, '.');
            ReplaceFirst(GetFileExtension(filename), ".", "") ==
              if i < 0 then "" else ToLower(filename[i + 1..])
  {
    var extension := GetFileExtension(filename);
    var i := LastIndexOf(filename, '.');
    if i >= 0 {
      assert IndexOf(extension, ".") == 0 by {
        assert extension[..1] == ".";
      }
      assert extension[1..] == ToLower(filename[i + 1..]);
    }
  }

  function TooLarge(file: UploadedFile, provider: TranscriptionProvider): string {
    "Audio file is too large (" + NatToString(RoundedMiB(file.size)) + "MB). Maximum size for "
    + provider.name + " is " + NatToString(RoundedMiB(provider.maxFileSize)) + "MB"
  }

  function UnsupportedFormat(format: string, provider: TranscriptionProvider): string {
    "Unsupported audio format: " + format + ". " + provider.name + " supports: "
    + Join(provider.supportedFormats, ", ")
  }

  function NotConfigured(provider: TranscriptionProvider): string {
    "Audio transcription provider \"" + provider.name + "\" is not properly configured"
  }

  /** `validateAudioFile`: the size limit first, then the format, then the 1 KiB floor. */
  function ValidateAudioFile(file: UploadedFile, provider: TranscriptionProvider): (r: Option<string>)
    ensures r.None? <==>
              MinAudioSize <= file.size <= provider.maxFileSize
              && AudioFormat(file.originalname) in provider.supportedFormats
    ensures file.size > provider.maxFileSize ==> r == Some(TooLarge(file, provider))
    ensures file.size <= provider.maxFileSize && AudioFormat(file.originalname) !in provider.supportedFormats ==>
              r == Some(UnsupportedFormat(AudioFormat(file.originalname), provider))
    ensures (file.size <= provider.maxFileSize && AudioFormat(file.originalname) in provider.supportedFormats
             && file.size < MinAudioSize) ==> r == Some(TooSmall)
  {
    if file.size > provider.maxFileSize then Some(TooLarge(file, provider))
    else
      var extension := AudioFormat(file.originalname);
      if extension !in provider.supportedFormats then Some(UnsupportedFormat(extension, provider))
      else if file.size < MinAudioSize then Some(TooSmall)
      else None
  }

  /** `transcribeAudioFile`: validation, then readiness, then the provider; any failure is
      reported with the service's prefix. */
  function TranscribeAudioFile(file: UploadedFile, provider: TranscriptionProvider): (r: Result<FileProcessingResult>)
    ensures r.Ok? <==>
              ValidateAudioFile(file, provider).None? && provider.ready && provider.transcribe(file).Ok?
    ensures r.Ok? ==> r == provider.transcribe(file)
    ensures r.Err? ==> StartsWith(r.error, FailurePrefix)
    ensures ValidateAudioFile(file, provider).Some? ==>
              r == Err(FailurePrefix + ValidateAudioFile(file, provider).value)
    ensures ValidateAudioFile(file, provider).None? && !provider.ready ==>
              r == Err(FailurePrefix + NotConfigured(provider))
  {
    match ValidateAudioFile(file, provider)
    case Some(message) => Err(FailurePrefix + message)
    case None =>
      if !provider.ready then Err(FailurePrefix + NotConfigured(provider))
      else
        match provider.transcribe(file)
        case Err(message) => Err(FailurePrefix + message)
        case Ok(result) => Ok(result)
  }

  /** The provider's transcription is consulted only for a valid file and a ready provider:
      otherwise two providers that differ only in it give the same answer. */
  lemma ProviderCalledOnlyWhenValid(file: UploadedFile, provider: TranscriptionProvider,
                                    other: UploadedFile -> Result<FileProcessingResult>)
    requires ValidateAudioFile(file, provider).Some? || !provider.ready
    ensures TranscribeAudioFile(file, provider) == TranscribeAudioFile(file, provider.(transcribe := other))
  {
  }

  /** The format test ignores the case of the extension. */
  lemma FormatIgnoresCase(filename: string)
    ensures AudioFormat(ToLower(filename)) == AudioFormat(filename)
  {
    var lower := ToLower(filename);
    var i := LastIndexOf(filename, '.');
    var j := LastIndexOf(lower, '.');
    assert forall k :: 0 <= k < |filename| ==> (lower[k] == '.' <==> filename[k] == '.');
    assert i == j;
    if i >= 0 {
      assert lower[i + 1..] == ToLower(filename[i + 1..]);
      ToLowerIdempotent(filename[i + 1..]);
    }
  }
}
