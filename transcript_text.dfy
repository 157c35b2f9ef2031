/// The transcript value object (backend/src/domain/TranscriptText.ts): a trimmed,
/// non-empty text of at most 10000 characters, with its read-only queries.
module TranscriptText {
  import opened JsCore

  const MaxLength: nat := 10000
  const MinLength: nat := 1
  const DefaultPreviewLength: int := 200
  const Ellipsis := "..."

  const EmptyOrUndefined := "Transcript text cannot be empty or undefined"
  const EmptyText := "Transcript text cannot be empty"

  /** The phrases that mark a transcript as a likely action item, all lower case. */
  const ActionIndicators: seq<string> :=
    ["todo", "action", "need to", "should", "must", "follow up", "deadline", "by friday",
     "next week"]

  /** The message for a text over the limit, naming its length. */
  function TooLong(length: nat): string {
    "Transcript length " + NatToString(length) + " exceeds maximum allowed length of "
    + NatToString(MaxLength)
  }

  predicate IsSentenceEnd(c: char) {
    c == '.' || c == '!' || c == '?'
  }

  datatype TranscriptText = TranscriptText(text: string) {

    predicate IsEmpty() {
      |text| == 0
    }

    predicate IsWithinLengthLimits() {
      MinLength <= |text| <= MaxLength
    }

    /** The class invariant: what the constructor leaves behind. */
    predicate Valid() {
      IsWithinLengthLimits() && Trim(text) == text
    }

    /** `createPreview(maxLength)`: the text itself when it fits, otherwise its first
        `maxLength` characters (none when `maxLength` is negative) and "...". */
    function CreatePreview(maxLength: int): (r: string)
      ensures |text| <= maxLength ==> r == text
      ensures |text| > maxLength ==>
                |r| == (if maxLength < 0 then 0 else maxLength) + |Ellipsis|
                && StartsWith(text, r[..|r| - |Ellipsis|])
                && r[|r| - |Ellipsis|..] == Ellipsis
    {
      if |text| <= maxLength then text
      else
        var n := if maxLength < 0 then 0 else maxLength;
        assert (text[..n] + Ellipsis)[..n] == text[..n];
        text[..n] + Ellipsis
    }

    /** The whitespace-separated words, empty pieces dropped. */
    function Words(): (r: seq<string>)
      ensures forall k, j :: 0 <= k < |r| && 0 <= j < |r[k]| ==> !IsWhiteSpace(r[k][j])
      ensures forall k :: 0 <= k < |r| ==> r[k] != []
    {
      var pieces := SplitRuns(text, IsWhiteSpace);
      var r := NonEmpty(pieces);
      assert forall k, j :: 0 <= k < |r| && 0 <= j < |r[k]| ==> !IsWhiteSpace(r[k][j]) by {
        forall k, j | 0 <= k < |r| && 0 <= j < |r[k]|
          ensures !IsWhiteSpace(r[k][j])
        {
          var m :| 0 <= m < |pieces| && pieces[m] == r[k];
        }
      }
      r
    }

    /** `getWordCount`: one word per run of non-whitespace characters in the text. */
    function WordCount(): (r: nat)
      ensures r == RunStarts(text, IsWhiteSpace, true)
    {
      SplitRunsCount(text, IsWhiteSpace);
      |Words()|
    }

    /** Some keyword, lower-cased, occurs in the lower-cased text. */
    predicate ContainsKeywords(keywords: seq<string>) {
      exists k :: 0 <= k < |keywords| && Contains(ToLower(text), ToLower(keywords[k]))
    }

    /** The pieces between runs of '.', '!' and '?', trimmed, empty ones dropped. */
    function ExtractSentences(): (r: seq<string>)
      ensures forall k :: 0 <= k < |r| ==> IsSentence(r[k])
    {
      var pieces := SplitRuns(text, IsSentenceEnd);
      assert forall k :: 0 <= k < |pieces| ==> NoSentenceEnd(pieces[k]);
      TrimmedSentences(pieces);
      NonEmpty(TrimAll(pieces))
    }

    predicate IsLikelyActionItem() {
      ContainsKeywords(ActionIndicators)
    }
  }

  predicate NoSentenceEnd(s: string) {
    forall j :: 0 <= j < |s| ==> !IsSentenceEnd(s[j])
  }

  /** What a sentence looks like: non-empty, trimmed, and without '.', '!' or '?'. */
  predicate IsSentence(s: string) {
    s != [] && Trim(s) == s && NoSentenceEnd(s)
  }

  /** Pieces without sentence ends, trimmed and with the empty ones dropped, are
      sentences. */
  lemma TrimmedSentences(pieces: seq<string>)
    requires forall k :: 0 <= k < |pieces| ==> NoSentenceEnd(pieces[k])
    ensures forall k :: 0 <= k < |NonEmpty(TrimAll(pieces))| ==> IsSentence(NonEmpty(TrimAll(pieces))[k])
  {
    var trimmed := TrimAll(pieces);
    var r := NonEmpty(trimmed);
    forall k | 0 <= k < |r|
      ensures IsSentence(r[k])
    {
      var m :| 0 <= m < |trimmed| && trimmed[m] == r[k];
      TrimmedSentence(pieces[m]);
    }
  }

  lemma TrimmedSentence(p: string)
    requires NoSentenceEnd(p)
    ensures Trim(Trim(p)) == Trim(p) && NoSentenceEnd(Trim(p))
  {
    TrimIdempotent(p);
    TrimIsSlice(p);
  }

  /** The private constructor's check: the error for a text outside the limits. */
  function ValidateTranscript(text: string): (r: Option<string>)
    ensures r.None? <==> MinLength <= |text| <= MaxLength
    ensures |text| == 0 ==> r == Some(EmptyText)
    ensures |text| > MaxLength ==> r == Some(TooLong(|text|))
  {
    if |text| == 0 then Some(EmptyText)
    else if !(MinLength <= |text| <= MaxLength) then Some(TooLong(|text|))
    else None
  }

  /** `TranscriptText.create`: absent or empty input is refused, the rest is trimmed and
      checked. */
  function Create(text: Option<string>): (r: Result<TranscriptText>)
    ensures r.Ok? <==> text.Some? && !IsBlank(text.value) && |Trim(text.value)| <= MaxLength
    ensures r.Ok? ==> r.value.text == Trim(text.value) && r.value.Valid()
    ensures text.None? || text.value == "" ==> r == Err(EmptyOrUndefined)
    ensures text.Some? && text.value != "" && IsBlank(text.value) ==> r == Err(EmptyText)
    ensures text.Some? && |Trim(text.value)| > MaxLength ==>
              r == Err(TooLong(|Trim(text.value)|))
  {
    if text.None? || text.value == "" then Err(EmptyOrUndefined)
    else
      var t := Trim(text.value);
      match ValidateTranscript(t)
      case Some(message) => Err(message)
      case None =>
        TrimIdempotent(text.value);
        Ok(TranscriptText(t))
  }

  /** Creating from an already valid transcript's text gives that transcript back. */
  lemma CreateOfValid(t: TranscriptText)
    requires t.Valid()
    ensures Create(Some(t.text)) == Ok(t)
  {
    assert t.text != [] && !IsBlank(t.text) by {
      assert !IsWhiteSpace(t.text[0]);
    }
  }

  /** The words, written one after another, are the text with its whitespace removed:
      splitting loses nothing but whitespace. */
  lemma WordsSpellText(t: TranscriptText)
    ensures Concat(t.Words()) == Without(t.text, IsWhiteSpace)
  {
    SplitRunsConcat(t.text, IsWhiteSpace);
    NonEmptyConcat(SplitRuns(t.text, IsWhiteSpace));
  }

  /** A text made of pieces without whitespace joined by runs of whitespace has exactly the
      non-empty pieces as its words, and as many words as there are of them. */
  lemma WordsOfSplit(t: TranscriptText, parts: seq<string>, seps: seq<string>)
    requires IsSplit(parts, seps, IsWhiteSpace) && t.text == Interleave(parts, seps)
    ensures t.Words() == NonEmpty(parts)
    ensures t.WordCount() == |NonEmpty(parts)|
  {
    SplitRunsOfInterleave(parts, seps, IsWhiteSpace);
  }

  /** A text made of pieces without '.', '!' or '?' joined by runs of them has exactly the
      non-empty trimmed pieces as its sentences. */
  lemma SentencesOfSplit(t: TranscriptText, parts: seq<string>, seps: seq<string>)
    requires IsSplit(parts, seps, IsSentenceEnd) && t.text == Interleave(parts, seps)
    ensures t.ExtractSentences() == NonEmpty(TrimAll(parts))
  {
    SplitRunsOfInterleave(parts, seps, IsSentenceEnd);
  }

  /** Every valid transcript has at least one word. */
  lemma ValidHasAWord(t: TranscriptText)
    requires t.Valid()
    ensures t.WordCount() >= 1
  {
    WordsSpellText(t);
    assert t.text == [t.text[0]] + t.text[1..];
    assert Without(t.text, IsWhiteSpace)[0] == t.text[0];
  }

  /** The action-item test does not depend on letter case. */
  lemma ActionItemIgnoresCase(s: string)
    ensures TranscriptText(ToLower(s)).IsLikelyActionItem() == TranscriptText(s).IsLikelyActionItem()
  {
    ToLowerIdempotent(s);
  }

  /** A transcript is an action item exactly when one of the indicators occurs in it,
      lower-cased. */
  lemma ActionItemByIndicator(t: TranscriptText)
    ensures t.IsLikelyActionItem() <==>
              exists k :: 0 <= k < |ActionIndicators| && Contains(ToLower(t.text), ActionIndicators[k])
  {
    forall k | 0 <= k < |ActionIndicators|
      ensures ToLower(ActionIndicators[k]) == ActionIndicators[k]
    {
      IndicatorIsLowerCase(ActionIndicators[k]);
    }
  }

  lemma IndicatorIsLowerCase(p: string)
    requires p in ActionIndicators
    ensures ToLower(p) == p
  {
    assert forall i :: 0 <= i < |p| ==> !('A' <= p[i] <= 'Z');
  }
}
