/// The combined detection ladder used by the upload pipeline
/// (backend/src/services/FileTypeDetectionService.ts). Its lists of extensions
/// and MIME types are the same as those of the individual detectors.
module FileTypeDetectionService {
  import opened JsCore
  import opened BackendTypes
  import FileExtensionDetector
  import MimeTypeDetector
  import ContentAnalyzer

  /** The largest accepted upload, 50 MiB. */
  const MaxFileSize: nat := 50 * MiB

  function GetFileExtension(filename: string): (r: string)
    ensures r == "" <==> '.' !in filename
    ensures r != "" ==> FileExtensionDetector.IsExtensionShape(r)
    ensures |r| <= |filename| && r == ToLower(filename[|filename| - |r|..])
  {
    FileExtensionDetector.ExtractExtension(filename)
  }

  /** A binary extension rejects the file; a listed MIME type decides next; then the
      text and audio extensions; then the "text/" family; then the content. */
  function DetectFileType(file: UploadedFile): (r: FileType)
    ensures var ext := GetFileExtension(file.originalname);
      && (FileExtensionDetector.IsBinaryExtension(ext) ==> r == Unknown)
      && (r == Audio ==> MimeTypeDetector.IsAudioMimeType(file.mimetype)
                         || FileExtensionDetector.IsAudioExtension(ext))
      && (r == Text ==> MimeTypeDetector.IsTextMimeType(file.mimetype)
                        || FileExtensionDetector.IsTextExtension(ext)
                        || ContentAnalyzer.IsTextLike(file.buffer))
      && (r == Unknown <==> FileExtensionDetector.IsBinaryExtension(ext)
                            || (!MimeTypeDetector.IsTextMimeType(file.mimetype)
                                && !MimeTypeDetector.IsAudioMimeType(file.mimetype)
                                && !FileExtensionDetector.IsTextExtension(ext)
                                && !FileExtensionDetector.IsAudioExtension(ext)
                                && !ContentAnalyzer.IsTextLike(file.buffer)))
  {
    var extension := GetFileExtension(file.originalname);
    if FileExtensionDetector.IsBinaryExtension(extension) then Unknown
    else if file.mimetype in MimeTypeDetector.TextMimeTypes then Text
    else if file.mimetype in MimeTypeDetector.AudioMimeTypes then Audio
    else if FileExtensionDetector.IsTextExtension(extension) then Text
    else if FileExtensionDetector.IsAudioExtension(extension) then Audio
    else if StartsWith(file.mimetype, "text/") then Text
    else if ContentAnalyzer.IsTextLike(file.buffer) then Text
    else Unknown
  }

  /** The ladder, written with the three single-purpose detectors: the binary verdict of
      the extension detector wins, then a listed MIME type, then any extension verdict,
      then any MIME verdict, then the content. */
  lemma DetectFileTypeByDetectors(file: UploadedFile)
    ensures var byExt := FileExtensionDetector.DetectByExtension(file.originalname);
            var byMime := MimeTypeDetector.DetectByMimeType(file.mimetype);
            var listed := file.mimetype in MimeTypeDetector.TextMimeTypes
                          || file.mimetype in MimeTypeDetector.AudioMimeTypes;
            DetectFileType(file) ==
              if byExt == Some(Unknown) then Unknown
              else if listed then byMime.value
              else if byExt.Some? then byExt.value
              else if byMime.Some? then byMime.value
              else if ContentAnalyzer.IsTextLike(file.buffer) then Text
              else Unknown
  {
    FileExtensionDetector.ListsDisjoint();
  }

  /** The service's own copy of the printable-byte count. */
  method LooksLikeTextContent(buffer: seq<Byte>) returns (isText: bool)
    ensures isText <==> ContentAnalyzer.IsTextLike(buffer)
  {
    var sample := buffer[..if |buffer| < 1024 then |buffer| else 1024];
    var printableCount := 0;
    var totalCount := |sample|;
    if totalCount < 50 {
      return false;
    }
    for i := 0 to |sample|
      invariant printableCount == ContentAnalyzer.PrintableCount(sample[..i])
    {
      var b := sample[i];
      if (b >= 32 && b <= 126) || b == 9 || b == 10 || b == 13 {
        printableCount := printableCount + 1;
      }
      assert sample[..i + 1][..i] == sample[..i];
    }
    assert sample[..|sample|] == sample;
    isText := printableCount * 5 > totalCount * 4;
  }

  /** The method form of the ladder, running the content count only when needed. */
  method DetectFileTypeWithContent(file: UploadedFile) returns (r: FileType)
    ensures r == DetectFileType(file)
    ensures r == Unknown ==> !ContentAnalyzer.IsTextLike(file.buffer)
                             || FileExtensionDetector.IsBinaryExtension(GetFileExtension(file.originalname))
  {
    var extension := GetFileExtension(file.originalname);
    if FileExtensionDetector.IsBinaryExtension(extension) {
      return Unknown;
    }
    if file.mimetype in MimeTypeDetector.TextMimeTypes {
      return Text;
    }
    if file.mimetype in MimeTypeDetector.AudioMimeTypes {
      return Audio;
    }
    if FileExtensionDetector.IsTextExtension(extension) {
      return Text;
    }
    if FileExtensionDetector.IsAudioExtension(extension) {
      return Audio;
    }
    if StartsWith(file.mimetype, "text/") {
      return Text;
    }
    var looksLikeText := LooksLikeTextContent(file.buffer);
    if looksLikeText {
      return Text;
    }
    return Unknown;
  }

  /** The 50 MiB limit is inclusive. */
  function IsValidFileSize(file: UploadedFile): (valid: bool)
    ensures valid <==> ContentAnalyzer.IsValidFileSize(file.size, ContentAnalyzer.DefaultMaxSizeMB)
  {
    file.size <= MaxFileSize
  }
}
