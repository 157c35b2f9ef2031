/// The upload pipeline's dispatcher (backend/src/services/FileProcessorService.ts): a size
/// check, type detection, then the text or the audio path, and a final check that some text
/// came out. The buffer's two decodings and the transcription provider are parameters.
module FileProcessorService {
  import opened JsCore
  import opened BackendTypes
  import FileExtensionDetector
  import FileTypeDetectionService
  import TextFileProcessorService
  import AudioTranscriptionService

  const SizeExceeded := "File size exceeds maximum allowed limit (50MB)"
  const NoUsableContent := "No usable content could be extracted from the file"
  const AudioTooLarge := "Audio files must be smaller than 25MB for transcription"
  const MaxAudioSize: nat := 25 * MiB

  /** `getSupportedFormatsString`. */
  function SupportedFormatsString(): string {
    var formats := FileExtensionDetector.GetSupportedFormats();
    "Text: " + Join(formats.text, ", ") + "; Audio: " + Join(formats.audio, ", ")
  }

  function UnsupportedType(): string {
    "Unsupported file type. Supported formats: " + SupportedFormatsString()
  }

  /** `processFile`. */
  method ProcessFile(file: UploadedFile, utf8Text: string, latin1Text: string,
                     provider: AudioTranscriptionService.TranscriptionProvider)
    returns (r: Result<FileProcessingResult>)
    ensures !FileTypeDetectionService.IsValidFileSize(file) ==> r == Err(SizeExceeded)
    ensures (FileTypeDetectionService.IsValidFileSize(file)
             && FileTypeDetectionService.DetectFileType(file) == Unknown) ==> r == Err(UnsupportedType())
    ensures r.Ok? <==>
              FileTypeDetectionService.IsValidFileSize(file)
              && match FileTypeDetectionService.DetectFileType(file)
                 case Text => TextFileProcessorService.ProcessTextFile(utf8Text, latin1Text).Ok?
                 case Audio =>
                   var t := AudioTranscriptionService.TranscribeAudioFile(file, provider);
                   t.Ok? && !IsBlank(t.value.extractedText)
                 case Unknown => false
    ensures r.Ok? && FileTypeDetectionService.DetectFileType(file) == Text ==>
              r == TextFileProcessorService.ProcessTextFile(utf8Text, latin1Text)
    ensures r.Ok? && FileTypeDetectionService.DetectFileType(file) == Audio ==>
              r == AudioTranscriptionService.TranscribeAudioFile(file, provider)
    ensures r.Ok? ==> !IsBlank(r.value.extractedText)
  {
    if !FileTypeDetectionService.IsValidFileSize(file) {
      return Err(SizeExceeded);
    }
    var fileType := FileTypeDetectionService.DetectFileType(file);
    var result: FileProcessingResult;
    match fileType {
      case Text =>
        var processed := TextFileProcessorService.ProcessTextFile(utf8Text, latin1Text);
        if processed.Err? {
          return Err(processed.error);
        }
        result := processed.value;
      case Audio =>
        var transcribed := AudioTranscriptionService.TranscribeAudioFile(file, provider);
        if transcribed.Err? {
          return Err(transcribed.error);
        }
        result := transcribed.value;
      case Unknown =>
        return Err(UnsupportedType());
    }
    if result.extractedText == "" || |Trim(result.extractedText)| == 0 {
      return Err(NoUsableContent);
    }
    return Ok(result);
  }

  /** The text path never reaches the final check: the text processor already refuses text
      that is blank. */
  lemma TextPathNeverEmpty(utf8Text: string, latin1Text: string)
    requires TextFileProcessorService.ProcessTextFile(utf8Text, latin1Text).Ok?
    ensures !IsBlank(TextFileProcessorService.ProcessTextFile(utf8Text, latin1Text).value.extractedText)
  {
  }

  /** The outcome of `validateFileBeforeProcessing`. */
  datatype Validation = Validation(isValid: bool, error: Option<string>)

  /** `validateFileBeforeProcessing`: over 50 MiB, then an unknown type, then audio over
      25 MiB are refused. */
  function ValidateFileBeforeProcessing(file: UploadedFile): (r: Validation)
    ensures r.isValid <==> r.error.None?
    ensures r.isValid <==>
              file.size <= FileTypeDetectionService.MaxFileSize
              && FileTypeDetectionService.DetectFileType(file) != Unknown
              && !(FileTypeDetectionService.DetectFileType(file) == Audio && file.size > MaxAudioSize)
    ensures file.size > FileTypeDetectionService.MaxFileSize ==> r.error == Some(SizeExceeded)
    ensures (file.size <= FileTypeDetectionService.MaxFileSize
             && FileTypeDetectionService.DetectFileType(file) == Unknown) ==> r.error == Some(UnsupportedType())
    ensures (file.size <= FileTypeDetectionService.MaxFileSize
             && FileTypeDetectionService.DetectFileType(file) == Audio && file.size > MaxAudioSize) ==>
              r.error == Some(AudioTooLarge)
  {
    if !FileTypeDetectionService.IsValidFileSize(file) then Validation(false, Some(SizeExceeded))
    else
      var fileType := FileTypeDetectionService.DetectFileType(file);
      if fileType == Unknown then Validation(false, Some(UnsupportedType()))
      else if fileType == Audio && file.size > MaxAudioSize then Validation(false, Some(AudioTooLarge))
      else Validation(true, None)
  }

  /** A file the pre-check accepts is not refused by `processFile` for its size or its type. */
  lemma PrecheckedFilePassesGuards(file: UploadedFile)
    requires ValidateFileBeforeProcessing(file).isValid
    ensures FileTypeDetectionService.IsValidFileSize(file)
    ensures FileTypeDetectionService.DetectFileType(file) in {Text, Audio}
  {
  }
}
