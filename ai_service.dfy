/// Post-processing of the language model's answer
/// (backend/src/services/AIService.ts): the metadata block, the removal of an
/// unwanted commentary section and the stripping of code fences. The model call
/// itself is a function parameter.
module AIService {
  import opened JsCore
  import FileService
  import PromptEngine

  const AIFailed := "AI service failed to process transcript"
  const CommentaryKey := "commentary_needed:"
  const CommentaryHeading := "## AI Commentary"
  const SectionStart := "## "
  const Fence := "```"

  /** The fields the model reports; a field it leaves out stays absent. */
  datatype LLMMetadata = LLMMetadata(
    category: Option<string>,
    filename: Option<string>,
    commentaryNeeded: Option<bool>)

  // ---------------------------------------------------------------------------
  // The block `^---\s*\n([\s\S]*?)\n---`

  /** The captured block text. `\s*` first takes every whitespace character after the
      opening "---" and gives them back one at a time until a line break follows and a
      closing "\n---" can be found after it; the capture ends at the first such closing. */
  function MetadataBlock(response: string): (r: Option<string>)
    ensures !StartsWith(response, "---") ==> r.None?
    ensures r.Some? ==> !Contains(r.value, "\n---")
  {
    if !StartsWith(response, "---") then None
    else
      var rest := response[3..];
      MetadataBlockFrom(response, |rest| - |TrimStart(rest)|)
  }

  /** Tries the lengths `taken`, `taken - 1`, ..., 0 for `\s*`. */
  function MetadataBlockFrom(response: string, taken: int): (r: Option<string>)
    requires 3 + taken <= |response|
    ensures r.Some? ==> !Contains(r.value, "\n---")
    decreases taken + 1
  {
    if taken < 0 then None
    else if 3 + taken < |response| && response[3 + taken] == '\n' then
      var start := 4 + taken;
      var j := IndexOf(response[start..], "\n---");
      if j >= 0 then
        NotBeforeFirst(response[start..], "\n---", j);
        assert response[start..start + j] == response[start..][..j];
        Some(response[start..start + j])
      else MetadataBlockFrom(response, taken - 1)
    else MetadataBlockFrom(response, taken - 1)
  }

  /** The closing line's pattern never overlaps itself. */
  lemma ClosingUnbordered()
    ensures Unbordered("\n---")
  {
    var t := "\n---";
    forall k | 1 <= k < |t|
      ensures t[k..] != t[..|t| - k]
    {
      assert t[k..][0] == '-' && t[..|t| - k][0] == '\n';
    }
  }

  /** A block that opens "---", a line break and a non-blank first line is found, and it is
      the text up to the first closing "\n---". */
  lemma MetadataBlockOfFenced(y: string, z: string)
    requires y != [] && !IsWhiteSpace(y[0]) && !Contains(y, "\n---")
    ensures MetadataBlock("---\n" + y + "\n---" + z) == Some(y)
  {
    var s := "---\n" + y + "\n---" + z;
    assert s[..3] == "---";
    var rest := s[3..];
    assert rest[1..][0] == y[0];
    assert TrimStart(rest) == rest[1..];
    assert s[4] == y[0];
    assert MetadataBlock(s) == MetadataBlockFrom(s, 1) == MetadataBlockFrom(s, 0);
    assert s[4..] == y + ("\n---" + z);
    ClosingUnbordered();
    IndexOfUnbordered(y, "\n---" + z, "\n---");
    assert s[4..4 + |y|] == y;
  }

  /** At index `i` the key is followed, after whitespace, by `word`. */
  predicate WordAfterKeyAt(text: string, key: string, word: string, i: int) {
    OccursAt(text, key, i) && StartsWith(text[SkipWhiteSpace(text, i + |key|)..], word)
  }

  /** The word read after an occurrence of the key at index `i`, if the key occurs there and
      `true` or `false` follows it after whitespace. */
  function WordAt(text: string, key: string, i: int): (r: Option<bool>)
    ensures r == Some(true) ==> WordAfterKeyAt(text, key, "true", i)
    ensures r == Some(false) ==> WordAfterKeyAt(text, key, "false", i)
  {
    if OccursAt(text, key, i) then LeadingBool(text[SkipWhiteSpace(text, i + |key|)..]) else None
  }

  /** `<key>\s*(true|false)` at its leftmost match: the word after the first occurrence of the
      key that is followed by one; None exactly when no occurrence is. */
  function BoolAfterKey(text: string, key: string): (r: Option<bool>)
    ensures r.Some? ==> Contains(text, key)
    ensures r == Some(true) ==> exists i :: WordAfterKeyAt(text, key, "true", i)
    ensures r.None? <==> NoWordFrom(text, key, 0)
    ensures r.Some? ==> exists i :: FirstWordFrom(text, key, 0, i) && r == WordAt(text, key, i)
  {
    BoolAfterKeyFromIsFirstWord(text, key, 0);
    BoolAfterKeyFrom(text, key, 0)
  }

  /** No occurrence of the key from index `from` on is followed by a word. */
  ghost predicate NoWordFrom(text: string, key: string, from: nat) {
    forall i :: from <= i ==> WordAt(text, key, i).None?
  }

  /** `i` is the first index from `from` on where the key is followed by a word. */
  ghost predicate FirstWordFrom(text: string, key: string, from: nat, i: int) {
    from <= i && WordAt(text, key, i).Some?
    && forall i' :: from <= i' < i ==> WordAt(text, key, i').None?
  }

  /** The search from index `k` on, trying each start index in turn as a regular
      expression search does: the word after the key at `k` if there is one, and otherwise
      the search from `k + 1`. */
  function BoolAfterKeyFrom(text: string, key: string, k: nat): (r: Option<bool>)
    ensures r.Some? ==> exists i :: k <= i && OccursAt(text, key, i)
    decreases |text| + 1 - k
  {
    if k > |text| then None
    else if WordAt(text, key, k).Some? then WordAt(text, key, k)
    else BoolAfterKeyFrom(text, key, k + 1)
  }

  /** The search from `k` finds the word after the first occurrence of the key that has one,
      and finds nothing exactly when no occurrence has one. */
  lemma {:induction false} BoolAfterKeyFromIsFirstWord(text: string, key: string, k: nat)
    ensures BoolAfterKeyFrom(text, key, k).None? <==> NoWordFrom(text, key, k)
    ensures BoolAfterKeyFrom(text, key, k).Some? ==>
              exists i :: FirstWordFrom(text, key, k, i) && BoolAfterKeyFrom(text, key, k) == WordAt(text, key, i)
    decreases |text| + 1 - k
  {
    if k > |text| {
      forall i | k <= i
        ensures WordAt(text, key, i).None?
      {
      }
    } else if WordAt(text, key, k).Some? {
      assert FirstWordFrom(text, key, k, k);
    } else {
      BoolAfterKeyFromIsFirstWord(text, key, k + 1);
      if BoolAfterKeyFrom(text, key, k).Some? {
        var i1 :| FirstWordFrom(text, key, k + 1, i1)
                  && BoolAfterKeyFrom(text, key, k + 1) == WordAt(text, key, i1);
        assert FirstWordFrom(text, key, k, i1);
      }
      if NoWordFrom(text, key, k + 1) {
        assert NoWordFrom(text, key, k);
      }
    }
  }

  /** `(true|false)` at the start of `s`. */
  function LeadingBool(s: string): (r: Option<bool>)
    ensures r == Some(true) <==> StartsWith(s, "true")
    ensures r == Some(false) <==> StartsWith(s, "false")
  {
    if StartsWith(s, "true") then
      assert s[0] == s[..4][0];
      Some(true)
    else if StartsWith(s, "false") then
      assert s[0] == s[..5][0];
      Some(false)
    else None
  }

  /** `commentary_needed:\s*(true|false)`. */
  function CommentaryValue(text: string): Option<bool> {
    BoolAfterKey(text, CommentaryKey)
  }

  /** `commentary_needed: true` (or `false`) at the first occurrence of the key gives that
      value. */
  lemma CommentaryValueOfFirstKey(pre: string, v: bool, rest: string)
    requires !Contains(pre, CommentaryKey)
    ensures CommentaryValue(pre + CommentaryKey + " " + (if v then "true" else "false") + rest)
            == Some(v)
  {
    CommentaryKeyUnbordered();
    BoolAfterFirstKey(pre, CommentaryKey, v, rest);
  }

  /** An unbordered key met first in `pre + key + " " + word` is read with that word. */
  lemma BoolAfterFirstKey(pre: string, key: string, v: bool, rest: string)
    requires key != [] && Unbordered(key) && !Contains(pre, key)
    ensures BoolAfterKey(pre + key + " " + (if v then "true" else "false") + rest, key) == Some(v)
  {
    var word := if v then "true" else "false";
    var w := key + " " + word + rest;
    var text := pre + w;
    assert text == pre + key + " " + word + rest;
    assert w[..|key|] == key;
    IndexOfUnbordered(pre, w, key);
    WordAfterKey(pre, key, v, rest);
    forall i' | 0 <= i' < |pre|
      ensures WordAt(text, key, i').None?
    {
      assert !OccursAt(text, key, i');
    }
    BoolAfterKeyAtFirst(text, key, |pre|);
  }

  /** After `key` and a space, `true` or `false` is read. */
  lemma WordAfterKey(pre: string, key: string, v: bool, rest: string)
    ensures var text := pre + key + " " + (if v then "true" else "false") + rest;
            WordAt(text, key, |pre|) == Some(v)
  {
    var word := if v then "true" else "false";
    var text := pre + key + " " + word + rest;
    var i := |pre|;
    assert text[i..i + |key|] == key;
    var k := i + |key|;
    assert text[k] == ' ' && text[k + 1] == word[0];
    assert SkipWhiteSpace(text, k + 1) == k + 1;
    assert text[k + 1..][..|word|] == word;
  }

  /** The search reads the word at the first index that has one. */
  lemma BoolAfterKeyAtFirst(text: string, key: string, i: nat)
    requires WordAt(text, key, i).Some?
    requires forall i' :: 0 <= i' < i ==> WordAt(text, key, i').None?
    ensures BoolAfterKey(text, key) == WordAt(text, key, i)
  {
    var r := BoolAfterKey(text, key);
    assert !NoWordFrom(text, key, 0);
    var i1 :| FirstWordFrom(text, key, 0, i1) && r == WordAt(text, key, i1);
    assert i1 == i;
  }

  /** The key's first character does not come back inside it. */
  lemma CommentaryKeyUnbordered()
    ensures Unbordered(CommentaryKey)
  {
    var t := CommentaryKey;
    forall k | 1 <= k < |t|
      ensures t[k..] != t[..|t| - k]
    {
      assert t[..|t| - k][0] == 'c' != t[k..][0];
    }
  }

  /** The metadata of a response, or None when it does not open with a block. */
  function ParseMetadata(response: string): (r: Option<LLMMetadata>)
    ensures r.None? <==> MetadataBlock(response).None?
    ensures !StartsWith(response, "---") ==> r.None?
    ensures r.Some? && r.value.commentaryNeeded == Some(true) ==>
              Contains(MetadataBlock(response).value, CommentaryKey)
    ensures r.Some? ==> var yaml := MetadataBlock(response).value;
              && r.value.category == FileService.FieldValue(yaml, "category:")
              && r.value.filename == FileService.FieldValue(yaml, "filename:")
              && r.value.commentaryNeeded == CommentaryValue(yaml)
  {
    match MetadataBlock(response)
    case None => None
    case Some(yaml) =>
      Some(LLMMetadata(
        FileService.FieldValue(yaml, "category:"),
        FileService.FieldValue(yaml, "filename:"),
        CommentaryValue(yaml)))
  }

  /** A response that opens with a block whose first line is `category: <c>` reports the
      category `c`; the other fields are read from the same block. */
  lemma ParseMetadataReadsCategory(c: string, more: string, z: string)
    requires c != [] && FileService.IsFieldValue(c)
    requires !Contains("category: " + c + "\n" + more, "\n---")
    ensures var yaml := "category: " + c + "\n" + more;
            ParseMetadata("---\n" + yaml + "\n---" + z)
            == Some(LLMMetadata(Some(c), FileService.FieldValue(yaml, "filename:"), CommentaryValue(yaml)))
  {
    var yaml := "category: " + c + "\n" + more;
    MetadataBlockOfFenced(yaml, z);
    CategoryLineRead(c, more);
  }

  /** The field on the block's first line is read back. */
  lemma CategoryLineRead(c: string, more: string)
    requires c != [] && FileService.IsFieldValue(c)
    ensures FileService.FieldValue("category: " + c + "\n" + more, "category:") == Some(c)
  {
    var yaml := "category: " + c + "\n" + more;
    assert yaml == [] + "category:" + " " + (c + "\n" + more);
    FileService.FieldValueOfLine(yaml, [], "category:", c, more);
  }

  // ---------------------------------------------------------------------------
  // `## AI Commentary[\s\S]*?(?=## |$)`, replaced globally by ""

  /** Where a section that starts before `from` ends: at the next "## " or at the end. */
  function SectionEnd(s: string, from: nat): (e: nat)
    requires from <= |s|
    ensures from <= e <= |s|
  {
    var j := IndexOf(s[from..], SectionStart);
    if j < 0 then |s| else from + j
  }

  lemma SectionEndStartsSection(s: string, from: nat)
    requires from <= |s|
    ensures var e := SectionEnd(s, from);
            e == |s| || StartsWith(s[e..], SectionStart)
  {
    var j := IndexOf(s[from..], SectionStart);
    if j >= 0 {
      assert s[from..][j..j + 3] == s[from + j..from + j + 3];
    }
  }

  /** Removes, left to right, each commentary section. */
  function RemoveSections(s: string): string
    decreases |s|
  {
    var i := IndexOf(s, CommentaryHeading);
    if i < 0 then s
    else s[..i] + RemoveSections(s[SectionEnd(s, i + |CommentaryHeading|)..])
  }

  /** The commentary heading opens with "## " and has no '#' after its first two characters. */
  lemma HeadingShape()
    ensures |CommentaryHeading| >= 3 && CommentaryHeading[..3] == SectionStart
    ensures forall k :: 2 <= k < |CommentaryHeading| ==> CommentaryHeading[k] != '#'
  {
  }

  /** A heading of that shape cannot straddle the place where a kept prefix meets a rest that
      starts a new section. */
  lemma NoHeadingAcrossJoin(a: string, b: string, heading: string)
    requires |heading| >= 3 && heading[..3] == SectionStart
    requires forall k :: 2 <= k < |heading| ==> heading[k] != '#'
    requires !Contains(a, heading) && !Contains(b, heading)
    requires StartsWith(b, SectionStart)
    ensures !Contains(a + b, heading)
  {
    var s := a + b;
    var n := |heading|;
    assert b[0] == b[..3][0] == '#' && b[1] == b[..3][1] == '#';
    assert heading[2] == heading[..3][2] == ' ';
    forall q | 0 <= q
      ensures !OccursAt(s, heading, q)
    {
      if q + n <= |s| {
        var window := s[q..q + n];
        if q + n <= |a| {
          assert window == a[q..q + n];
          assert !OccursAt(a, heading, q);
        } else if q >= |a| {
          assert window == b[q - |a|..q - |a| + n];
          assert !OccursAt(b, heading, q - |a|);
        } else if |a| >= q + 2 {
          assert window[|a| - q] == b[0];
          assert heading[|a| - q] != '#';
        } else {
          assert window[2] == b[1];
        }
      }
    }
  }

  /** What is left holds no heading, and starts a new section whenever the input did. */
  lemma {:induction false} RemoveSectionsShape(s: string)
    ensures !Contains(RemoveSections(s), CommentaryHeading)
    ensures StartsWith(s, SectionStart) ==>
              RemoveSections(s) == [] || StartsWith(RemoveSections(s), SectionStart)
    decreases |s|
  {
    var i := IndexOf(s, CommentaryHeading);
    if i >= 0 {
      var e := SectionEnd(s, i + |CommentaryHeading|);
      var rest := s[e..];
      var kept := s[..i];
      RemoveSectionsShape(rest);
      SectionEndStartsSection(s, i + |CommentaryHeading|);
      NotBeforeFirst(s, CommentaryHeading, i);
      RemoveSectionsStep(s, i, e);
      KeptThenRest(kept, RemoveSections(rest));
      if StartsWith(s, SectionStart) && i > 0 {
        KeptOpensSection(s, i, RemoveSections(rest));
      }
    }
  }

  /** A text that opens a section and holds the heading at `i > 0` still opens one when
      only its part before `i` is kept. */
  lemma KeptOpensSection(s: string, i: int, r: string)
    requires StartsWith(s, SectionStart) && 0 < i && OccursAt(s, CommentaryHeading, i)
    ensures StartsWith(s[..i] + r, SectionStart)
  {
    HeadingShape();
    SectionBeforeHeading(s, i, CommentaryHeading);
    StartsWithAppend(s[..i], r, SectionStart);
  }

  /** Text without a heading, followed by text without one that is empty or opens a new
      section, holds no heading either. */
  lemma KeptThenRest(kept: string, r: string)
    requires !Contains(kept, CommentaryHeading) && !Contains(r, CommentaryHeading)
    requires r == [] || StartsWith(r, SectionStart)
    ensures !Contains(kept + r, CommentaryHeading)
  {
    if r == [] {
      assert kept + r == kept;
    } else {
      HeadingShape();
      NoHeadingAcrossJoin(kept, r, CommentaryHeading);
    }
  }

  /** A text that opens a section and holds a "## "-headed heading later keeps its opening
      before that heading. */
  lemma SectionBeforeHeading(s: string, i: int, heading: string)
    requires |heading| >= 3 && heading[..3] == SectionStart
    requires StartsWith(s, SectionStart) && 0 < i && OccursAt(s, heading, i)
    ensures StartsWith(s[..i], SectionStart)
  {
    assert s[2] == s[..3][2] == ' ';
    assert s[i] == s[i..i + |heading|][0] == heading[0] == '#';
    assert s[i + 1] == s[i..i + |heading|][1] == heading[1] == '#';
    assert s[..i][..3] == s[..3];
  }

  /** A prefix that opens with `p` still does once something is appended. */
  lemma StartsWithAppend(x: string, y: string, p: string)
    requires StartsWith(x, p)
    ensures StartsWith(x + y, p)
  {
    assert (x + y)[..|p|] == x[..|p|];
  }

  /** Removes every commentary section, then trims. */
  function RemoveCommentarySection(content: string): (r: string)
    ensures !Contains(r, CommentaryHeading)
    ensures !Contains(content, CommentaryHeading) ==> r == Trim(content)
  {
    RemoveSectionsShape(content);
    TrimKeepsAbsence(RemoveSections(content), CommentaryHeading);
    Trim(RemoveSections(content))
  }

  /** The two markers never overlap themselves. */
  lemma MarkersUnbordered()
    ensures Unbordered(CommentaryHeading) && Unbordered(SectionStart)
  {
    var h := CommentaryHeading;
    forall k | 1 <= k < |h|
      ensures h[k..] != h[..|h| - k]
    {
      if k == 1 {
        assert h[k..][1] != h[..|h| - k][1];
      } else {
        assert h[k..][0] != h[..|h| - k][0];
      }
    }
    var t := SectionStart;
    forall k | 1 <= k < |t|
      ensures t[k..] != t[..|t| - k]
    {
      assert t[k..][|t| - k - 1] != t[..|t| - k][|t| - k - 1];
    }
  }

  /** The text around one commentary section is kept: the section runs from its heading to
      the next "## " heading or to the end, and only the trimmed rest remains. */
  lemma RemoveCommentaryKeepsRest(a: string, b: string, c: string)
    requires !Contains(a, CommentaryHeading) && !Contains(b, SectionStart)
    requires c == [] || StartsWith(c, SectionStart)
    requires !Contains(c, CommentaryHeading)
    ensures RemoveCommentarySection(a + CommentaryHeading + b + c) == Trim(a + c)
  {
    RemoveSectionsOfOne(a, b, c);
  }

  /** Before trimming: exactly the one section is cut out. */
  lemma RemoveSectionsOfOne(a: string, b: string, c: string)
    requires !Contains(a, CommentaryHeading) && !Contains(b, SectionStart)
    requires c == [] || StartsWith(c, SectionStart)
    requires !Contains(c, CommentaryHeading)
    ensures RemoveSections(a + CommentaryHeading + b + c) == a + c
  {
    var content := a + CommentaryHeading + b + c;
    var from := |a| + |CommentaryHeading|;
    assert content == a + CommentaryHeading + (b + c);
    HeadingFirstFound(a, b + c);
    SectionEndsBeforeRest(content, from, b, c);
    assert content[..|a|] == a;
    RemoveSectionsAbsent(c);
    RemoveSectionsStep(content, |a|, from + |b|);
  }

  /** Text without a heading is kept as it is. */
  lemma RemoveSectionsAbsent(c: string)
    requires !Contains(c, CommentaryHeading)
    ensures RemoveSections(c) == c
  {
  }

  /** One step of the removal: the text before the first heading, then the removal applied
      past the end of its section. */
  lemma RemoveSectionsStep(content: string, i: nat, e: nat)
    requires IndexOf(content, CommentaryHeading) == i
    requires i + |CommentaryHeading| <= |content|
    requires SectionEnd(content, i + |CommentaryHeading|) == e
    ensures RemoveSections(content) == content[..i] + RemoveSections(content[e..])
  {
  }

  /** A heading that `a` does not hold is first found right after `a`. */
  lemma HeadingFirstFound(a: string, w: string)
    requires !Contains(a, CommentaryHeading)
    ensures var content := a + CommentaryHeading + w;
            IndexOf(content, CommentaryHeading) == |a|
            && content[|a| + |CommentaryHeading|..] == w
  {
    var h := CommentaryHeading;
    MarkersUnbordered();
    assert a + h + w == a + (h + w);
    assert (h + w)[..|h|] == h;
    IndexOfUnbordered(a, h + w, h);
  }

  /** A section whose body `b` holds no "## " ends where the rest `c` starts. */
  lemma SectionEndsBeforeRest(content: string, from: nat, b: string, c: string)
    requires from <= |content| && content[from..] == b + c
    requires !Contains(b, SectionStart) && (c == [] || StartsWith(c, SectionStart))
    ensures SectionEnd(content, from) == from + |b| && content[from + |b|..] == c
  {
    MarkersUnbordered();
    if c == [] {
      assert b + c == b;
    } else {
      IndexOfUnbordered(b, c, SectionStart);
    }
    assert content[from + |b|..] == content[from..][|b|..];
  }

  /** Keeps the response when there is no metadata or the model asked for commentary;
      otherwise removes the commentary section. */
  function ProcessLLMResponse(response: string, metadata: Option<LLMMetadata>): (r: string)
    ensures metadata.None? ==> r == response
    ensures metadata.Some? && metadata.value.commentaryNeeded == Some(true) ==> r == response
    ensures metadata.Some? && metadata.value.commentaryNeeded != Some(true) ==>
              r == RemoveCommentarySection(response) && !Contains(r, CommentaryHeading)
  {
    if metadata.None? then response
    else if metadata.value.commentaryNeeded != Some(true) then RemoveCommentarySection(response)
    else response
  }

  // ---------------------------------------------------------------------------
  // "```markdown\n|```\n|```", replaced globally by ""

  /** Removes the fences left to right, trying the longest form first; every form opens
      with a backtick, so any other character is kept at once. */
  function StripFences(s: string): string
    decreases |s|
  {
    if s == [] then []
    else if s[0] != '`' then [s[0]] + StripFences(s[1..])
    else if StartsWith(s, "```markdown\n") then StripFences(s[12..])
    else if StartsWith(s, "```\n") then StripFences(s[4..])
    else if StartsWith(s, Fence) then StripFences(s[3..])
    else [s[0]] + StripFences(s[1..])
  }

  lemma NoFenceAfterChar(c: char, t: string)
    requires !Contains(t, Fence)
    requires c != '`' || !StartsWith(t, "``")
    ensures !Contains([c] + t, Fence)
  {
    var s := [c] + t;
    if |t| >= 2 {
      assert s[0..3] == [c] + t[..2];
      assert s[0..3][0] == c && s[0..3][1..] == t[..2];
    }
    if Contains(s, Fence) {
      var q := IndexOf(s, Fence);
      if q >= 1 {
        ContainsAt(t, Fence, q - 1);
      }
    }
  }

  /** A string that does not open with a backtick keeps its first character. */
  lemma StripFencesKeepsHead(u: string)
    requires u != [] && u[0] != '`'
    ensures StripFences(u) == [u[0]] + StripFences(u[1..])
  {
  }

  /** A character that does not start a fence is kept; a kept backtick is not followed by
      two more. */
  lemma KeptHead(s: string)
    requires s != [] && !StartsWith(s, Fence)
    ensures StripFences(s) == [s[0]] + StripFences(s[1..])
    ensures s[0] == '`' ==> !StartsWith(s[1..], "``")
  {
    if s[0] == '`' {
      assert !StartsWith(s, "```\n") by {
        if |s| >= 4 { assert s[..4][..3] == s[..3]; }
      }
      assert !StartsWith(s, "```markdown\n") by {
        if |s| >= 12 { assert s[..12][..3] == s[..3]; }
      }
      if |s| >= 3 {
        assert s[..3] == [s[0]] + s[1..][..2];
      }
    }
  }

  /** A fence at the start is dropped whole: what follows it is processed next. */
  lemma FenceCut(s: string) returns (n: nat)
    requires StartsWith(s, Fence)
    ensures 3 <= n <= |s| && StripFences(s) == StripFences(s[n..])
    ensures StartsWith(s, "``")
  {
    assert s[0] == s[..3][0];
    assert s[..2] == s[..3][..2];
    if StartsWith(s, "```markdown\n") {
      n := 12;
    } else if StartsWith(s, "```\n") {
      n := 4;
    } else {
      n := 3;
    }
  }

  /** No fence survives, and a kept backtick is never followed by two more. */
  lemma {:induction false} StripFencesShape(s: string)
    ensures !Contains(StripFences(s), Fence)
    ensures !StartsWith(s, "``") ==> !StartsWith(StripFences(s), "``")
    decreases |s|
  {
    if s == [] {
    } else if StartsWith(s, Fence) {
      var n := FenceCut(s);
      StripFencesShape(s[n..]);
    } else {
      KeptHead(s);
      var t := StripFences(s[1..]);
      StripFencesShape(s[1..]);
      NoFenceAfterChar(s[0], t);
      if !StartsWith(s, "``") {
        KeptHeadNotTwoTicks(s);
      }
    }
  }

  /** Keeping a first character that does not open "``" does not open it in the result. */
  lemma KeptHeadNotTwoTicks(s: string)
    requires s != [] && !StartsWith(s, "``")
    requires StripFences(s) == [s[0]] + StripFences(s[1..])
    ensures !StartsWith(StripFences(s), "``")
  {
    var r := StripFences(s);
    if |r| >= 2 && s[0] == '`' {
      assert s[1] != '`' by {
        assert s[..2] == [s[0], s[1]];
      }
      StripFencesKeepsHead(s[1..]);
      assert r[1] == s[1];
    }
    assert |r| >= 2 ==> r[..2][0] == r[0] && r[..2][1] == r[1];
  }

  /** Removes every code fence, then trims. */
  function StripMarkdown(text: string): (r: string)
    ensures !Contains(r, Fence)
  {
    StripFencesShape(text);
    TrimKeepsAbsence(StripFences(text), Fence);
    Trim(StripFences(text))
  }

  /** Text without a backtick passes the fence removal unchanged, and so does any text
      appended after it. */
  lemma {:induction false} StripFencesAppend(x: string, y: string)
    requires '`' !in x
    ensures StripFences(x + y) == x + StripFences(y)
    decreases |x|
  {
    if x == [] {
      assert x + y == y;
    } else {
      assert x[0] != '`' && (x + y)[0] == x[0];
      StripFencesKeepsHead(x + y);
      assert (x + y)[1..] == x[1..] + y;
      StripFencesAppend(x[1..], y);
      assert x == [x[0]] + x[1..];
    }
  }

  /** Text without a backtick is only trimmed. */
  lemma StripMarkdownPlain(s: string)
    requires '`' !in s
    ensures StripMarkdown(s) == Trim(s)
  {
    StripFencesAppend(s, []);
    assert s + [] == s;
  }

  /** A body without a backtick inside a "```markdown" fence comes back trimmed. */
  lemma StripMarkdownFenced(s: string)
    requires '`' !in s
    ensures StripMarkdown("```markdown\n" + s + "\n```") == Trim(s)
  {
    var t := "```markdown\n" + s + "\n```";
    assert t[..12] == "```markdown\n" && t[12..] == s + "\n```";
    StripFencesAppend(s, "\n```");
    StripFencesKeepsHead("\n```");
    assert "\n```"[1..] == Fence;
    assert StripFences(Fence[3..]) == [];
    assert StripFences(t) == s + "\n";
    TrimAppendWhiteSpace(s, '\n');
  }

  /** A fenced body that neither starts nor ends with whitespace, such as "# Test", comes
      back exactly, without its fence. */
  lemma StripMarkdownFencedExact(s: string)
    requires '`' !in s && s != [] && !IsWhiteSpace(s[0]) && !IsWhiteSpace(s[|s| - 1])
    ensures StripMarkdown("```markdown\n" + s + "\n```") == s
  {
    StripMarkdownFenced(s);
    TrimUntrimmed(s);
  }

  /** Fills the base prompt, asks the model, post-processes its answer and strips fences;
      any failure on the way becomes one fixed error. */
  function ProcessTranscript(basePrompt: PromptEngine.PromptConfig, transcript: string,
                             generate: string -> Result<string>): (r: Result<string>)
    ensures r.Err? ==> r.error == AIFailed
    ensures r.Ok? ==> !Contains(r.value, Fence)
    ensures r.Ok? <==> PromptEngine.MissingVariables(basePrompt.variables, [("transcript", PromptEngine.Text(transcript))]) == []
                       && generate(PromptEngine.Substituted(basePrompt.template, [("transcript", PromptEngine.Text(transcript))])).Ok?
    ensures r.Ok? ==>
              var answer := generate(PromptEngine.Substituted(basePrompt.template, [("transcript", PromptEngine.Text(transcript))])).value;
              r.value == StripMarkdown(ProcessLLMResponse(answer, ParseMetadata(answer)))
  {
    var variables := [("transcript", PromptEngine.Text(transcript))];
    if PromptEngine.MissingVariables(basePrompt.variables, variables) != [] then Err(AIFailed)
    else
      match generate(PromptEngine.Substituted(basePrompt.template, variables))
      case Err(_) => Err(AIFailed)
      case Ok(text) =>
        var metadata := ParseMetadata(text);
        Ok(StripMarkdown(ProcessLLMResponse(text, metadata)))
  }
}
