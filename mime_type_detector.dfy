/// Classification of a file by its declared MIME type
/// (backend/src/services/file-detection/MimeTypeDetector.ts).
module MimeTypeDetector {
  import opened JsCore
  import opened BackendTypes

  const TextMimeTypes: seq<string> :=
    ["text/plain", "text/markdown", "text/x-markdown", "application/x-markdown"]

  const AudioMimeTypes: seq<string> :=
    ["audio/mpeg", "audio/mp3", "audio/wav", "audio/wave", "audio/x-wav", "audio/aiff",
     "audio/x-aiff", "audio/ogg", "audio/flac", "audio/x-flac", "audio/mp4", "audio/m4a",
     "audio/webm"]

  /** A listed text type or any type in the "text/" family. */
  predicate IsTextMimeType(mimetype: string) {
    mimetype in TextMimeTypes || StartsWith(mimetype, "text/")
  }

  predicate IsAudioMimeType(mimetype: string) {
    mimetype in AudioMimeTypes
  }

  /** No audio type is a text type: the audio list holds no "text/" type. */
  lemma AudioIsNotText(mimetype: string)
    ensures IsAudioMimeType(mimetype) ==> !IsTextMimeType(mimetype)
  {
    if IsAudioMimeType(mimetype) {
      assert mimetype[0] == 'a';
    }
  }

  /** The listed text types come first, then the listed audio types, then the "text/" family. */
  function DetectByMimeType(mimetype: string): (r: Option<FileType>)
    ensures r != Some(Unknown)
    ensures r == Some(Text) <==> IsTextMimeType(mimetype)
    ensures r == Some(Audio) <==> IsAudioMimeType(mimetype)
  {
    AudioIsNotText(mimetype);
    if mimetype in TextMimeTypes then Some(Text)
    else if mimetype in AudioMimeTypes then Some(Audio)
    else if StartsWith(mimetype, "text/") then Some(Text)
    else None
  }
}
