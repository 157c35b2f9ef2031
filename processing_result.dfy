/// The processing result value object (backend/src/domain/ProcessingResult.ts): extracted
/// text held as a transcript value, the file type and the method that produced it, with
/// queries that delegate to the transcript or read the method's name.
module ProcessingResult {
  import opened JsCore
  import opened BackendTypes
  import TranscriptText

  datatype ProcessingSummary = ProcessingSummary(
    textLength: nat,
    wordCount: nat,
    fileType: FileType,
    processingMethod: string,
    hasActionItems: bool,
    preview: string)

  datatype ProcessingResult = ProcessingResult(
    extractedText: TranscriptText.TranscriptText,
    fileType: FileType,
    processingMethod: string)
  {
    function GetExtractedText(): string {
      extractedText.text
    }

    predicate IsSuccessful() {
      !extractedText.IsEmpty()
    }

    predicate IsAudioProcessing() {
      fileType == Audio
    }

    predicate IsTextProcessing() {
      fileType == Text
    }

    /** `createTextPreview(maxLength)`, 200 when no length is given. */
    function CreateTextPreview(maxLength: Option<int>): string {
      extractedText.CreatePreview(if maxLength.Some? then maxLength.value else TranscriptText.DefaultPreviewLength)
    }

    function CreateProcessingSummary(): (r: ProcessingSummary)
      ensures r.textLength == |GetExtractedText()| && r.wordCount == extractedText.WordCount()
      ensures r.preview == extractedText.CreatePreview(TranscriptText.DefaultPreviewLength)
      ensures r.fileType == fileType && r.processingMethod == processingMethod
      ensures r.hasActionItems == extractedText.IsLikelyActionItem()
    {
      ProcessingSummary(|extractedText.text|, extractedText.WordCount(), fileType, processingMethod,
                        extractedText.IsLikelyActionItem(), CreateTextPreview(None))
    }

    /** `getProviderFromMethod`: the method's "_"-separated parts without the last. */
    function GetProviderFromMethod(): (r: string)
      ensures '_' !in processingMethod ==> r == ""
      ensures '_' in processingMethod ==> r == processingMethod[..LastIndexOf(processingMethod, '_')]
    {
      var parts := SplitOn(processingMethod, "_");
      ProviderIsPrefix(processingMethod);
      Join(parts[..|parts| - 1], "_")
    }

    /** `wasProcessedByProvider`. */
    predicate WasProcessedByProvider(providerName: string) {
      Contains(processingMethod, providerName)
    }
  }

  /** `ProcessingResult.create`: the text goes through the transcript value's checks. */
  function Create(extractedText: string, fileType: FileType, processingMethod: string): (r: Result<ProcessingResult>)
    ensures r.Ok? <==> !IsBlank(extractedText) && |Trim(extractedText)| <= TranscriptText.MaxLength
    ensures r.Ok? ==> r.value.GetExtractedText() == Trim(extractedText)
                      && r.value.fileType == fileType && r.value.processingMethod == processingMethod
                      && r.value.extractedText.Valid()
    ensures r.Err? ==> r == Err(TranscriptText.Create(Some(extractedText)).error)
  {
    match TranscriptText.Create(Some(extractedText))
    case Err(e) => Err(e)
    case Ok(text) => Ok(ProcessingResult(text, fileType, processingMethod))
  }

  /** Every result `create` builds is successful. */
  lemma CreatedIsSuccessful(extractedText: string, fileType: FileType, processingMethod: string)
    requires Create(extractedText, fileType, processingMethod).Ok?
    ensures Create(extractedText, fileType, processingMethod).value.IsSuccessful()
  {
  }

  /** A result is never both audio and text processing. */
  lemma AudioAndTextExclusive(r: ProcessingResult)
    ensures !(r.IsAudioProcessing() && r.IsTextProcessing())
  {
  }

  /** The provider read off a result's method is one that processed it. */
  lemma ProviderOfMethodProcessed(r: ProcessingResult)
    ensures r.WasProcessedByProvider(r.GetProviderFromMethod())
  {
    var m := r.processingMethod;
    var p := r.GetProviderFromMethod();
    if '_' in m {
      assert m[0..|p|] == p;
    }
    ContainsAt(m, p, 0);
  }

  // ---------------------------------------------------------------------------
  // Dropping the last part of a split

  lemma {:induction false} JoinLast(parts: seq<string>, sep: string)
    requires |parts| >= 2
    ensures Join(parts, sep) == Join(parts[..|parts| - 1], sep) + sep + parts[|parts| - 1]
    decreases |parts|
  {
    if |parts| == 2 {
      assert parts[..1] == [parts[0]];
    } else {
      JoinLast(parts[1..], sep);
      assert parts[1..][..|parts| - 2] == parts[..|parts| - 1][1..];
      assert parts[1..][|parts| - 2] == parts[|parts| - 1];
    }
  }

  lemma ContainsUnderscore(s: string)
    ensures Contains(s, "_") <==> '_' in s
  {
    if '_' in s {
      var i :| 0 <= i < |s| && s[i] == '_';
      assert s[i..i + 1] == "_";
      ContainsAt(s, "_", i);
    }
    if Contains(s, "_") {
      var i := IndexOf(s, "_");
      assert s[i] == s[i..i + 1][0];
    }
  }

  /** The last "_" of `head + "_" + last` is the one between them when `last` has none. */
  lemma LastUnderscore(head: string, last: string)
    requires '_' !in last
    ensures LastIndexOf(head + "_" + last, '_') == |head|
  {
    LastIndexOfAfter(head + "_", last, '_');
    assert (head + "_")[|head|] == '_';
  }

  /** Characters after the last occurrence do not move it. */
  lemma {:induction false} LastIndexOfAfter(a: string, b: string, c: char)
    requires c !in b
    ensures LastIndexOf(a + b, c) == LastIndexOf(a, c)
    decreases |b|
  {
    if b != [] {
      var s := a + b;
      assert s[|s| - 1] == b[|b| - 1];
      assert s[..|s| - 1] == a + b[..|b| - 1];
      LastIndexOfAfter(a, b[..|b| - 1], c);
    } else {
      assert a + b == a;
    }
  }

  /** Splitting on "_" gives at least two parts exactly when there is a "_". */
  lemma SplitHasTwoParts(s: string)
    requires '_' in s
    ensures |SplitOn(s, "_")| >= 2
  {
    ContainsUnderscore(s);
    SplitJoinRoundTrip(s, "_");
  }

  /** The parts before the last, joined back, are the text before the last "_". */
  lemma ProviderIsPrefix(s: string)
    ensures var parts := SplitOn(s, "_");
            '_' !in s ==> Join(parts[..|parts| - 1], "_") == ""
    ensures var parts := SplitOn(s, "_");
            '_' in s ==> Join(parts[..|parts| - 1], "_") == s[..LastIndexOf(s, '_')]
  {
    var parts := SplitOn(s, "_");
    ContainsUnderscore(s);
    if '_' in s {
      SplitHasTwoParts(s);
      SplitJoinRoundTrip(s, "_");
      SplitOnPiecesFree(s, "_");
      ContainsUnderscore(parts[|parts| - 1]);
      DropLastPart(parts, s);
    } else {
      SplitOnAbsent(s, "_");
    }
  }

  /** Parts joined into `s` whose last part has no "_": the others join into the text before
      the last "_" of `s`. */
  lemma DropLastPart(parts: seq<string>, s: string)
    requires |parts| >= 2 && Join(parts, "_") == s && '_' in s && '_' !in parts[|parts| - 1]
    ensures Join(parts[..|parts| - 1], "_") == s[..LastIndexOf(s, '_')]
  {
    JoinLast(parts, "_");
    var head := Join(parts[..|parts| - 1], "_");
    var last := parts[|parts| - 1];
    LastUnderscore(head, last);
    assert (head + "_" + last)[..|head|] == head;
  }

  /** "openai_whisper_webservice_auto-detected" names the provider "openai_whisper_webservice". */
  lemma ProviderOfWebserviceMethod(r: ProcessingResult)
    requires r.processingMethod == "openai_whisper_webservice_auto-detected"
    ensures r.GetProviderFromMethod() == "openai_whisper_webservice"
  {
    var head := "openai_whisper_webservice";
    var last := "auto-detected";
    assert forall j :: 0 <= j < |last| ==> last[j] != '_';
    assert r.processingMethod == head + "_" + last;
    LastUnderscore(head, last);
    assert r.processingMethod[..|head|] == head;
  }
}
