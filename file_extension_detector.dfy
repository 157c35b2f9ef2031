/// Classification of a file by the extension of its name
/// (backend/src/services/file-detection/FileExtensionDetector.ts).
module FileExtensionDetector {
  import opened JsCore
  import opened BackendTypes

  const TextExtensions: seq<string> := [".txt", ".md", ".markdown", ".text"]

  const AudioExtensions: seq<string> :=
    [".mp3", ".wav", ".wave", ".aiff", ".aif", ".ogg", ".flac", ".m4a", ".mp4", ".webm"]

  /** Extensions that are rejected outright. */
  const BinaryExtensions: seq<string> :=
    [".exe", ".bin", ".dll", ".so", ".dylib", ".app", ".zip", ".rar", ".7z", ".tar", ".gz",
     ".jpg", ".jpeg", ".png", ".gif", ".bmp", ".tiff", ".pdf", ".doc", ".docx", ".xls",
     ".xlsx", ".ppt", ".pptx", ".dmg", ".iso", ".img"]

  /** The lists of extensions advertised to clients. */
  datatype SupportedFormats = SupportedFormats(text: seq<string>, audio: seq<string>)

  /** A well-formed extension: a dot, then no other dot and no upper-case letter. */
  predicate IsExtensionShape(e: string) {
    |e| >= 1 && e[0] == '.' && (forall i :: 1 <= i < |e| ==> e[i] != '.' && !('A' <= e[i] <= 'Z'))
  }

  /** A string without upper-case letters is its own lower-case form. */
  lemma LowerCaseUnchanged(e: string)
    requires forall i :: 0 <= i < |e| ==> !('A' <= e[i] <= 'Z')
    ensures ToLower(e) == e
  {
    assert forall i :: 0 <= i < |e| ==> ToLower(e)[i] == e[i];
  }

  /** The lower-cased suffix of `filename` that starts at its last dot, or "" without a dot. */
  function ExtractExtension(filename: string): (r: string)
    ensures r == "" <==> '.' !in filename
    ensures r != "" ==> IsExtensionShape(r)
    ensures |r| <= |filename| && r == ToLower(filename[|filename| - |r|..])
  {
    var i := LastIndexOf(filename, '.');
    if i == -1 then ""
    else
      var r := ToLower(filename[i..]);
      assert r[0] == '.';
      r
  }

  predicate IsTextExtension(extension: string) {
    extension in TextExtensions
  }

  predicate IsAudioExtension(extension: string) {
    extension in AudioExtensions
  }

  predicate IsBinaryExtension(extension: string) {
    extension in BinaryExtensions
  }

  /** The binary list is consulted first, then the text list, then the audio list. */
  function DetectByExtension(filename: string): (r: Option<FileType>)
    ensures IsBinaryExtension(ExtractExtension(filename)) ==> r == Some(Unknown)
    ensures r == Some(Text) <==> IsTextExtension(ExtractExtension(filename))
    ensures r == Some(Audio) <==> IsAudioExtension(ExtractExtension(filename))
    ensures r == None <==> !IsBinaryExtension(ExtractExtension(filename))
                           && !IsTextExtension(ExtractExtension(filename))
                           && !IsAudioExtension(ExtractExtension(filename))
  {
    ListsDisjoint();
    var extension := ExtractExtension(filename);
    if IsBinaryExtension(extension) then Some(Unknown)
    else if IsTextExtension(extension) then Some(Text)
    else if IsAudioExtension(extension) then Some(Audio)
    else None
  }

  function GetSupportedFormats(): (r: SupportedFormats)
    ensures forall e :: e in r.text ==> IsTextExtension(e) && IsExtensionShape(e)
    ensures forall e :: e in r.audio ==> IsAudioExtension(e) && IsExtensionShape(e)
    ensures r.text == TextExtensions && r.audio == AudioExtensions
  {
    TextExtensionsShaped();
    AudioExtensionsShaped();
    SupportedFormats(TextExtensions, AudioExtensions)
  }

  /** Every extension of a list is well-formed. */
  predicate AllShaped(list: seq<string>) {
    forall i :: 0 <= i < |list| ==> IsExtensionShape(list[i])
  }

  lemma TextExtensionsShaped()
    ensures AllShaped(TextExtensions)
  {
  }

  lemma AudioExtensionsShaped()
    ensures AllShaped(AudioExtensions)
  {
  }

  /** No entry of one list equals an entry of the other. */
  predicate Apart(a: seq<string>, b: seq<string>) {
    forall i, j :: 0 <= i < |a| && 0 <= j < |b| ==> a[i] != b[j]
  }

  lemma ApartSharesNothing(a: seq<string>, b: seq<string>)
    requires Apart(a, b)
    ensures forall e :: !(e in a && e in b)
  {
  }

  /** No extension is in two of the lists, so every extension has a single answer. */
  lemma ListsDisjoint()
    ensures forall e :: !(e in TextExtensions && e in AudioExtensions)
    ensures forall e :: !(e in TextExtensions && e in BinaryExtensions)
    ensures forall e :: !(e in AudioExtensions && e in BinaryExtensions)
  {
    TextAudioApart();
    TextBinaryApart();
    AudioBinaryApart();
    ApartSharesNothing(TextExtensions, AudioExtensions);
    ApartSharesNothing(TextExtensions, BinaryExtensions);
    ApartSharesNothing(AudioExtensions, BinaryExtensions);
  }

  lemma TextAudioApart()
    ensures Apart(TextExtensions, AudioExtensions)
  {
  }

  lemma TextBinaryApart()
    ensures Apart(TextExtensions, BinaryExtensions)
  {
  }

  lemma AudioBinaryApart()
    ensures Apart(AudioExtensions, BinaryExtensions)
  {
  }

  /** The last dot is found at the same place after lower-casing. */
  lemma LastDotOfToLower(s: string)
    ensures LastIndexOf(ToLower(s), '.') == LastIndexOf(s, '.')
  {
    var a := LastIndexOf(ToLower(s), '.');
    var b := LastIndexOf(s, '.');
    assert forall j :: 0 <= j < |s| ==> (ToLower(s)[j] == '.' <==> s[j] == '.');
  }

  /** Extraction ignores case, so "FILE.TXT" is classified like "file.txt". */
  lemma ExtractExtensionIgnoresCase(filename: string)
    ensures ExtractExtension(ToLower(filename)) == ExtractExtension(filename)
  {
    LastDotOfToLower(filename);
    var i := LastIndexOf(filename, '.');
    if i != -1 {
      assert ToLower(filename)[i..] == ToLower(filename[i..]);
      ToLowerIdempotent(filename[i..]);
    }
  }

  lemma DetectByExtensionIgnoresCase(filename: string)
    ensures DetectByExtension(ToLower(filename)) == DetectByExtension(filename)
  {
    ExtractExtensionIgnoresCase(filename);
  }

  /** A name that ends in a well-formed extension has exactly that extension. */
  lemma {:induction false} ExtractExtensionOfSuffix(name: string, e: string)
    requires IsExtensionShape(e)
    ensures ExtractExtension(name + e) == e
  {
    var s := name + e;
    var i := |name|;
    LowerCaseUnchanged(e);
    assert s[i] == '.';
    assert forall j :: i < j < |s| ==> s[j] == e[j - i];
    assert LastIndexOf(s, '.') == i;
    assert s[i..] == e;
  }

  /** Every advertised extension is detected as the type it is advertised for. */
  lemma SupportedFormatsAreDetected(name: string)
    ensures forall e :: e in GetSupportedFormats().text ==> DetectByExtension(name + e) == Some(Text)
    ensures forall e :: e in GetSupportedFormats().audio ==> DetectByExtension(name + e) == Some(Audio)
  {
    forall e | e in GetSupportedFormats().text
      ensures DetectByExtension(name + e) == Some(Text)
    {
      ExtractExtensionOfSuffix(name, e);
    }
    forall e | e in GetSupportedFormats().audio
      ensures DetectByExtension(name + e) == Some(Audio)
    {
      ExtractExtensionOfSuffix(name, e);
    }
  }

  /** A name ending in ".tar.gz" ("archive.tar.gz", say) has extension ".gz": only the last
      dot counts. */
  lemma ExtractExtensionOfArchive(base: string)
    ensures ExtractExtension(base + ".tar.gz") == ".gz"
  {
    assert IsExtensionShape(".gz");
    ExtractExtensionOfSuffix(base + ".tar", ".gz");
    assert base + ".tar" + ".gz" == base + ".tar.gz";
  }
}
