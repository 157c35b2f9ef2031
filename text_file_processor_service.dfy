/// Text extraction from an uploaded text file
/// (backend/src/services/TextFileProcessorService.ts). Decoding the buffer is not modelled:
/// its UTF-8 and Latin-1 readings are parameters, and the service's choice between them is.
module TextFileProcessorService {
  import opened JsCore
  import opened BackendTypes

  const ReplacementCharacter: char := '�'
  const NoReadableText := "No readable text content found in file"
  const FailurePrefix := "Failed to process text file: "
  const DirectTextExtraction := "direct_text_extraction"

  const MinNaturalLength: nat := 10
  const MinNaturalWords: nat := 3

  /** `isValidUTF8`: the decoder put no replacement character in. */
  predicate IsValidUTF8(text: string) {
    ReplacementCharacter !in text
  }

  /** `extractTextFromBuffer`: the UTF-8 reading when it is clean, else the Latin-1 one
      (which never fails, so the ASCII fallback after it is never reached). */
  function ExtractTextFromBuffer(utf8Text: string, latin1Text: string): (r: string)
    ensures IsValidUTF8(utf8Text) ==> r == utf8Text
    ensures !IsValidUTF8(utf8Text) ==> r == latin1Text
  {
    if IsValidUTF8(utf8Text) then utf8Text else latin1Text
  }

  /** `processTextFile`: refuses text that is empty after trimming; otherwise the trimmed
      text, as text, extracted directly. Every failure carries the service's prefix. */
  function ProcessTextFile(utf8Text: string, latin1Text: string): (r: Result<FileProcessingResult>)
    ensures var text := ExtractTextFromBuffer(utf8Text, latin1Text);
            (r.Ok? <==> !IsBlank(text))
            && (r.Ok? ==> r.value == FileProcessingResult(Trim(text), Text, DirectTextExtraction)
                          && r.value.extractedText != [] && Trim(r.value.extractedText) == r.value.extractedText)
            && (r.Err? ==> r.error == FailurePrefix + NoReadableText)
  {
    var extractedText := ExtractTextFromBuffer(utf8Text, latin1Text);
    if extractedText == "" || |Trim(extractedText)| == 0 then Err(FailurePrefix + NoReadableText)
    else
      TrimIdempotent(extractedText);
      Ok(FileProcessingResult(Trim(extractedText), Text, DirectTextExtraction))
  }

  /** The number of characters of `s` satisfying `p`. */
  function CountWhere(s: string, p: char -> bool): (n: nat)
    ensures n <= |s|
  {
    if s == [] then 0 else (if p(s[0]) then 1 else 0) + CountWhere(s[1..], p)
  }

  predicate IsSpecialChar(c: char) {
    c in "{}[]()=<>|&;:@#$%^*"
  }

  /** `isNaturalLanguageText`: at least 10 characters and 3 words after trimming, at least
      40% ASCII letters and at most 20% special characters. The ratios are compared
      exactly, in integers. */
  predicate IsNaturalLanguageText(text: string) {
    var trimmed := Trim(text);
    |trimmed| >= MinNaturalLength
    && |SplitRuns(trimmed, IsWhiteSpace)| >= MinNaturalWords
    && 5 * CountWhere(trimmed, IsAsciiLetter) >= 2 * |trimmed|
    && 5 * CountWhere(trimmed, IsSpecialChar) <= |trimmed|
  }

  /** Splitting a trimmed non-empty text gives no empty piece, so the word test counts
      real words. */
  lemma {:induction false} SplitRunsOfTrimmedHasNoEmpty(s: string)
    requires s != [] && !IsWhiteSpace(s[0]) && !IsWhiteSpace(s[|s| - 1])
    ensures forall k :: 0 <= k < |SplitRuns(s, IsWhiteSpace)| ==> SplitRuns(s, IsWhiteSpace)[k] != []
    decreases |s|
  {
    var i := FirstIndexWhere(s, IsWhiteSpace);
    if i < |s| {
      var rest := SkipRun(s[i..], IsWhiteSpace);
      assert rest != [] && !IsWhiteSpace(rest[0]) && !IsWhiteSpace(rest[|rest| - 1]) by {
        assert s[|s| - 1] == s[i..][|s[i..]| - 1];
        if rest == [] { SkipRunOfAllSeparators(s[i..]); }
        assert rest[|rest| - 1] == s[|s| - 1];
      }
      SplitRunsOfTrimmedHasNoEmpty(rest);
      assert 0 < i;
      assert SplitRuns(s, IsWhiteSpace) == [s[..i]] + SplitRuns(rest, IsWhiteSpace);
    }
  }

  lemma {:induction false} SkipRunOfAllSeparators(s: string)
    requires SkipRun(s, IsWhiteSpace) == []
    ensures forall j :: 0 <= j < |s| ==> IsWhiteSpace(s[j])
    decreases |s|
  {
    if s != [] {
      assert IsWhiteSpace(s[0]);
      SkipRunOfAllSeparators(s[1..]);
      forall j | 1 <= j < |s|
        ensures IsWhiteSpace(s[j])
      {
        assert s[j] == s[1..][j - 1];
      }
    }
  }

  lemma {:induction false} NonEmptyKeepsAll(parts: seq<string>)
    requires forall k :: 0 <= k < |parts| ==> parts[k] != []
    ensures NonEmpty(parts) == parts
  {
    if parts != [] {
      NonEmptyKeepsAll(parts[1..]);
    }
  }

  /** A natural-language text has at least three words in the transcript's sense too
      (whitespace-separated, empty pieces dropped). */
  lemma NaturalTextHasThreeWords(text: string)
    requires IsNaturalLanguageText(text)
    ensures |NonEmpty(SplitRuns(Trim(text), IsWhiteSpace))| >= MinNaturalWords
  {
    SplitRunsOfTrimmedHasNoEmpty(Trim(text));
    NonEmptyKeepsAll(SplitRuns(Trim(text), IsWhiteSpace));
  }

  lemma {:induction false} CountAll(s: string, p: char -> bool)
    requires forall j :: 0 <= j < |s| ==> p(s[j])
    ensures CountWhere(s, p) == |s|
  {
    if s != [] {
      CountAll(s[1..], p);
    }
  }

  /** A text of special characters only has no letters, so it fails the letter test. */
  lemma SpecialCharactersAreNotNatural(text: string)
    requires Trim(text) != [] && forall j :: 0 <= j < |Trim(text)| ==> IsSpecialChar(Trim(text)[j])
    ensures !IsNaturalLanguageText(text)
  {
    CountAll(Trim(text), IsSpecialChar);
  }
}
