/// The audio file value object (backend/src/domain/AudioFile.ts): a non-empty file of a
/// listed audio MIME type and at most 100 MiB, with its extension and a unique name built
/// from a timestamp. The clock is a parameter: the ISO-8601 text of the current time.
module AudioFile {
  import opened JsCore
  import opened BackendTypes

  const SupportedFormats := [
    "audio/mpeg", "audio/mp3", "audio/wav", "audio/ogg", "audio/flac", "audio/mp4",
    "audio/m4a", "audio/webm", "audio/aiff"]

  const MaxFileSize: nat := 100 * MiB
  const EmptyAudio := "Audio file cannot be empty"

  /** `toISOString().replace(/[:.]/g, '-')`. */
  function TimestampPart(isoTimestamp: string): (r: string)
    ensures |r| == |isoTimestamp|
    ensures forall i :: 0 <= i < |r| ==> r[i] != ':' && r[i] != '.'
  {
    seq(|isoTimestamp|, i requires 0 <= i < |isoTimestamp| =>
          if isoTimestamp[i] == ':' || isoTimestamp[i] == '.' then '-' else isoTimestamp[i])
  }

  /** Two decimal digits, zero-padded. */
  function Pad2(k: nat): string
    requires k < 100
  {
    if k < 10 then "0" + NatToString(k) else NatToString(k)
  }

  /** `(bytes / 2^20).toFixed(2)`: the quotient is exact, and `toFixed` picks the nearest
      hundredth, the larger one on a tie. */
  function MiBFixed2(bytes: nat): string {
    var hundredths := (bytes * 100 + MiB / 2) / MiB;
    NatToString(hundredths / 100) + "." + Pad2(hundredths % 100)
  }

  function UnsupportedFormat(mimeType: string): string {
    "Unsupported audio format: " + mimeType + ". Supported formats: " + Join(SupportedFormats, ", ")
  }

  function TooLarge(bytes: nat): string {
    "File size " + MiBFixed2(bytes) + "MB exceeds maximum allowed size of "
    + NatToString(MaxFileSize / MiB) + "MB"
  }

  datatype AudioFile = AudioFile(originalName: string, mimeType: string, sizeInBytes: nat, buffer: seq<Byte>)
  {
    predicate IsEmpty() {
      sizeInBytes == 0
    }

    predicate IsValidFormat() {
      mimeType in SupportedFormats
    }

    predicate IsWithinSizeLimit() {
      sizeInBytes <= MaxFileSize
    }

    /** The class invariant, established by the private constructor. */
    predicate Valid() {
      !IsEmpty() && IsValidFormat() && IsWithinSizeLimit()
    }

    /** `getFileExtension`: the suffix from the last dot, case kept, or "". */
    function GetFileExtension(): (r: string)
      ensures r == [] <==> '.' !in originalName
      ensures r != [] ==> r[0] == '.' && '.' !in r[1..]
      ensures |r| <= |originalName| && originalName[|originalName| - |r|..] == r
    {
      var lastDotIndex := LastIndexOf(originalName, '.');
      if lastDotIndex == -1 then ""
      else
        var r := originalName[lastDotIndex..];
        assert forall j :: 1 <= j < |r| ==> r[j] == originalName[lastDotIndex + j];
        r
    }

    /** `generateUniqueFilename` as written: `replace(extension, '')` removes the first
        occurrence of the extension, wherever it is. */
    function GenerateUniqueFilenameAsWritten(isoTimestamp: string): string {
      var extension := GetFileExtension();
      var baseName := ReplaceFirst(originalName, extension, "");
      baseName + "-" + TimestampPart(isoTimestamp) + extension
    }

    /** The name without its extension. */
    function BaseName(): (r: string)
      ensures r + GetFileExtension() == originalName
    {
      var extension := GetFileExtension();
      originalName[..|originalName| - |extension|]
    }

    /** `generateUniqueFilename` as intended: `<name without extension>-<timestamp><extension>`. */
    function GenerateUniqueFilename(isoTimestamp: string): (r: string)
      ensures r == BaseName() + "-" + TimestampPart(isoTimestamp) + GetFileExtension()
      ensures AudioFile(r, mimeType, sizeInBytes, buffer).GetFileExtension() == GetFileExtension()
    {
      var r := BaseName() + "-" + TimestampPart(isoTimestamp) + GetFileExtension();
      UniqueNameKeepsExtension(this, isoTimestamp, r);
      r
    }
  }

  /** The timestamp brings no dot, so the extension of the unique name is the file's. */
  lemma UniqueNameKeepsExtension(f: AudioFile, isoTimestamp: string, r: string)
    requires r == f.BaseName() + "-" + TimestampPart(isoTimestamp) + f.GetFileExtension()
    ensures AudioFile(r, f.mimeType, f.sizeInBytes, f.buffer).GetFileExtension() == f.GetFileExtension()
  {
    var extension := f.GetFileExtension();
    var head := f.BaseName() + "-" + TimestampPart(isoTimestamp);
    assert r == head + extension;
    var i := LastIndexOf(r, '.');
    if extension == [] {
      assert '.' !in f.originalName;
      assert forall j :: 0 <= j < |f.BaseName()| ==> f.BaseName()[j] == f.originalName[j];
      assert '.' !in r;
    } else {
      var p := |head|;
      assert r[p] == '.';
      assert forall j :: p < j < |r| ==> r[j] == extension[j - p];
      assert i == p;
      assert r[i..] == extension;
    }
  }

  const Example := AudioFile("a.wav_x.wav", "audio/wav", 2048, [])

  lemma ExampleExtension()
    ensures Example.GetFileExtension() == ".wav"
  {
    var name := Example.originalName;
    assert name[7] == '.' && name[8] != '.' && name[9] != '.' && name[10] != '.' && |name| == 11;
    assert LastIndexOf(name, '.') == 7;
    assert name[7..] == ".wav";
  }

  lemma ExampleFirstOccurrence()
    ensures IndexOf(Example.originalName, ".wav") == 1
  {
    var name := Example.originalName;
    assert name[1..5] == ".wav";
    assert name[0..4][0] == 'a';
  }

  /** The timestamp "T" has nothing to replace. */
  lemma PlainTimestamp()
    ensures TimestampPart("T") == "T"
  {
  }

  /** `"a.wav_x.wav".replace(".wav", "")` cuts at the first occurrence, index 1. */
  lemma ExampleCut()
    ensures ReplaceFirst(Example.originalName, ".wav", "") == "a_x.wav"
  {
    var name := Example.originalName;
    ExampleFirstOccurrence();
    assert ReplaceFirst(name, ".wav", "") == name[..1] + "" + name[5..];
    assert name[..1] == "a";
    assert name[5..] == "_x.wav";
  }

  /** The written name, part by part. */
  lemma AsWrittenParts(f: AudioFile, isoTimestamp: string)
    ensures f.GenerateUniqueFilenameAsWritten(isoTimestamp)
            == ReplaceFirst(f.originalName, f.GetFileExtension(), "") + "-" + TimestampPart(isoTimestamp)
               + f.GetFileExtension()
  {
  }

  lemma ExampleAsWritten()
    ensures Example.GenerateUniqueFilenameAsWritten("T") == "a_x.wav" + "-" + "T" + ".wav"
  {
    AsWrittenParts(Example, "T");
    ExampleExtension();
    ExampleCut();
    PlainTimestamp();
  }

  /** The base name of "a.wav_x.wav" is "a.wav_x". */
  lemma ExampleBase()
    ensures Example.BaseName() == "a.wav_x"
  {
    var name := Example.originalName;
    ExampleExtension();
    assert Example.BaseName() == name[..7];
  }

  lemma ExampleIntended()
    ensures Example.GenerateUniqueFilename("T") == "a.wav_x" + "-" + "T" + ".wav"
  {
    ExampleExtension();
    ExampleBase();
    PlainTimestamp();
  }

  /** The discrepancy, for every name: when the extension first occurs before its final
      place and is not followed there by another '.', the written code cuts that earlier
      occurrence and its name differs from the intended one ("a.wav_x.wav" is one such name). */
  lemma AsWrittenCutsFirstOccurrence(f: AudioFile, isoTimestamp: string)
    requires f.GetFileExtension() != []
    requires IndexOf(f.originalName, f.GetFileExtension()) < |f.originalName| - |f.GetFileExtension()|
    requires f.originalName[IndexOf(f.originalName, f.GetFileExtension()) + |f.GetFileExtension()|] != '.'
    ensures f.GenerateUniqueFilenameAsWritten(isoTimestamp) != f.GenerateUniqueFilename(isoTimestamp)
  {
    var name := f.originalName;
    var extension := f.GetFileExtension();
    var i := IndexOf(name, extension);
    assert 0 <= i && name[i] == '.' by {
      assert OccursAt(name, extension, |name| - |extension|);
      assert name[i..i + |extension|][0] == extension[0];
    }
    var cut := ReplaceFirst(name, extension, "");
    assert cut == name[..i] + "" + name[i + |extension|..];
    FirstCutDiffers(name, extension, i, cut, TimestampPart(isoTimestamp),
                    f.GenerateUniqueFilenameAsWritten(isoTimestamp), f.GenerateUniqueFilename(isoTimestamp));
  }

  /** The string-level argument: with the extension's first occurrence at `i`, cutting it
      leaves at `i` what followed it, while keeping everything before the final extension
      leaves the '.' there. */
  lemma FirstCutDiffers(name: string, extension: string, i: int, cut: string, stamp: string,
                        written: string, intended: string)
    requires 0 <= i < |name| - |extension| && name[i] == '.' && name[i + |extension|] != '.'
    requires cut == name[..i] + "" + name[i + |extension|..]
    requires written == cut + "-" + stamp + extension
    requires intended == name[..|name| - |extension|] + "-" + stamp + extension
    ensures written != intended
  {
    assert written[i] == cut[i] == name[i + |extension|];
    assert intended[i] == name[i];
  }

  /** "a.wav_x.wav" meets the conditions of the discrepancy. */
  lemma ExampleShowsDiscrepancy()
    ensures Example.GenerateUniqueFilenameAsWritten("T") != Example.GenerateUniqueFilename("T")
  {
    var name := Example.originalName;
    ExampleExtension();
    ExampleFirstOccurrence();
    assert name[5] == '_';
    AsWrittenCutsFirstOccurrence(Example, "T");
  }

  /** The written code is right whenever the extension occurs only at the end. */
  lemma AsWrittenAgreesOnSingleOccurrence(f: AudioFile, isoTimestamp: string)
    requires IndexOf(f.originalName, f.GetFileExtension()) == |f.originalName| - |f.GetFileExtension()|
    ensures f.GenerateUniqueFilenameAsWritten(isoTimestamp) == f.GenerateUniqueFilename(isoTimestamp)
  {
    var name := f.originalName;
    var extension := f.GetFileExtension();
    var n := |name| - |extension|;
    assert ReplaceFirst(name, extension, "") == name[..n] + "" + name[n + |extension|..];
    assert name[n + |extension|..] == [];
    assert ReplaceFirst(name, extension, "") == f.BaseName();
  }

  /** `AudioFile.fromMulterFile`: refuses an empty file, then an unlisted MIME type, then a
      file over 100 MiB, in that order. */
  function FromMulterFile(file: UploadedFile): (r: Result<AudioFile>)
    ensures r.Ok? <==> file.size != 0 && file.mimetype in SupportedFormats && file.size <= MaxFileSize
    ensures r.Ok? ==> r.value == AudioFile(file.originalname, file.mimetype, file.size, file.buffer)
                      && r.value.Valid()
    ensures file.size == 0 ==> r == Err(EmptyAudio)
    ensures file.size != 0 && file.mimetype !in SupportedFormats ==> r == Err(UnsupportedFormat(file.mimetype))
    ensures (file.size != 0 && file.mimetype in SupportedFormats && file.size > MaxFileSize) ==>
              r == Err(TooLarge(file.size))
  {
    var audio := AudioFile(file.originalname, file.mimetype, file.size, file.buffer);
    if audio.IsEmpty() then Err(EmptyAudio)
    else if !audio.IsValidFormat() then Err(UnsupportedFormat(file.mimetype))
    else if !audio.IsWithinSizeLimit() then Err(TooLarge(file.size))
    else Ok(audio)
  }

  /** Every valid file round-trips through the upload record it came from. */
  lemma FromMulterFileOfValid(f: AudioFile)
    requires f.Valid()
    ensures FromMulterFile(UploadedFile(f.originalName, f.mimeType, f.sizeInBytes, f.buffer)) == Ok(f)
  {
  }

  /** The limit is inclusive: exactly 100 MiB is accepted, one byte more is not. */
  lemma SizeLimitIsInclusive(name: string, buffer: seq<Byte>)
    ensures FromMulterFile(UploadedFile(name, "audio/wav", MaxFileSize, buffer)).Ok?
    ensures FromMulterFile(UploadedFile(name, "audio/wav", MaxFileSize + 1, buffer)) == Err(TooLarge(MaxFileSize + 1))
  {
  }
}
