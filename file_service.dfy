/// Front-matter parsing, the directory choice and file naming of saved notes
/// (backend/src/services/FileService.ts, with the records of backend/src/types/index.ts).
module FileService {
  import opened JsCore
  import opened PosixPath

  const DefaultCategory := "notes"
  const DefaultFilename := "untitled-note"
  const SaveFailed := "File service failed to save markdown file"

  /** The line that opens a front-matter block and the lines that close it. */
  const Opening := "---\n"
  const Closing := "\n---\n"

  datatype FrontMatter = FrontMatter(category: string, filename: string)

  datatype ParsedContent = ParsedContent(frontMatter: FrontMatter, cleanContent: string)

  datatype FileServiceConfig = FileServiceConfig(
    baseDirectory: string,
    specialCategories: map<string, string>)

  /** The categories the backend stores under a directory of their own. */
  const SpecialCategories: map<string, string> := map["daily" := "daily/tasks"]

  // ---------------------------------------------------------------------------
  // The block `^---\n([\s\S]*?)\n---\n([\s\S]*)$`

  lemma OccursInTail(s: string, t: string, a: nat, j: int)
    requires a <= |s| && 0 <= j
    ensures OccursAt(s, t, a + j) <==> OccursAt(s[a..], t, j)
  {
    if a + j + |t| <= |s| {
      assert s[a..][j..j + |t|] == s[a + j..a + j + |t|];
    }
  }

  /** The text of the block and the body after it. The block is the shortest one:
      it ends at the first closing line. */
  function FrontMatterBlock(content: string): (r: Option<(string, string)>)
    ensures r.Some? ==> content == Opening + r.value.0 + Closing + r.value.1
    ensures r.Some? ==> forall k :: 4 <= k < 4 + |r.value.0| ==> !OccursAt(content, Closing, k)
    ensures r.None? <==> !StartsWith(content, Opening) || !Contains(content[4..], Closing)
  {
    if !StartsWith(content, Opening) then None
    else
      var k := IndexOf(content[4..], Closing);
      if k < 0 then None
      else
        var text := content[4..4 + k];
        var body := content[4 + k + 5..];
        assert content[4 + k..4 + k + 5] == content[4..][k..k + 5];
        assert content == content[..4] + text + content[4 + k..4 + k + 5] + body;
        forall j | 4 <= j < 4 + k
          ensures !OccursAt(content, Closing, j)
        {
          OccursInTail(content, Closing, 4, j - 4);
        }
        Some((text, body))
  }

  /** Every way of reading `content` as a block and a body is found: the block that is
      returned is at most as long as any other reading. */
  lemma FrontMatterBlockIsShortest(content: string, text: string, body: string)
    requires content == Opening + text + Closing + body
    ensures FrontMatterBlock(content).Some?
    ensures |FrontMatterBlock(content).value.0| <= |text|
  {
    assert StartsWith(content, Opening);
    assert content[4 + |text|..4 + |text| + 5] == Closing;
    OccursInTail(content, Closing, 4, |text|);
    ContainsAt(content[4..], Closing, |text|);
  }

  // ---------------------------------------------------------------------------
  // The fields `key:\s*(.+)`

  /** The longest prefix that holds no line terminator (what `.+` can take). */
  function LineRun(s: string): (r: string)
    ensures |r| <= |s| && r == s[..|r|]
    ensures forall i :: 0 <= i < |r| ==> !IsLineTerminator(r[i])
    ensures |r| < |s| ==> IsLineTerminator(s[|r|])
  {
    if s != [] && !IsLineTerminator(s[0]) then [s[0]] + LineRun(s[1..]) else []
  }

  /** The trimmed capture of `key:\s*(.+)` at its leftmost match, or None. After the key,
      `\s*` takes every whitespace character, line breaks included, and the capture runs
      to the end of that line. When only whitespace follows the key, `\s*` gives back
      characters until `.+` can take one, so the capture is one blank and trims to "";
      when that whitespace holds no character `.+` can take, the search moves on. */
  function FieldValue(text: string, key: string): (r: Option<string>)
    requires key != []
    ensures r.Some? ==> Contains(text, key) && IsFieldValue(r.value)
    decreases |text|
  {
    var i := IndexOf(text, key);
    if i < 0 then None
    else
      var rest := text[i + |key|..];
      var after := TrimStart(rest);
      if after != [] then
        CaptureIsFieldValue(after);
        Some(TrimEnd(LineRun(after)))
      else if exists j :: 0 <= j < |rest| && !IsLineTerminator(rest[j]) then Some("")
      else
        FieldValue(text[i + 1..], key)
  }

  /** A captured value: one line, with no whitespace at either end. */
  predicate IsFieldValue(v: string) {
    (forall i :: 0 <= i < |v| ==> !IsLineTerminator(v[i])) && Trim(v) == v
  }

  lemma CaptureIsFieldValue(after: string)
    requires after != [] && !IsWhiteSpace(after[0])
    ensures IsFieldValue(TrimEnd(LineRun(after)))
  {
    var line := LineRun(after);
    var v := TrimEnd(line);
    assert forall i :: 0 <= i < |v| ==> v[i] == line[i];
    if v != [] {
      assert v[0] == after[0];
      assert TrimStart(v) == v;
      assert TrimEnd(v) == v;
    }
  }

  /** A field written on its own line, `key value`, at the key's first occurrence, reads as
      that value: the capture is the rest of the key's line, trimmed. */
  lemma FieldValueOfLine(text: string, pre: string, key: string, v: string, post: string)
    requires key != [] && v != [] && IsFieldValue(v)
    requires text == pre + key + " " + (v + "\n" + post)
    requires forall q :: 0 <= q < |pre| ==> !OccursAt(text, key, q)
    ensures FieldValue(text, key) == Some(v)
  {
    KeyLine(pre, key, v + "\n" + post);
    var i := IndexOf(text, key);
    assert i == |pre|;
    var rest := text[i + |key|..];
    ValueLine(v, post);
    assert TrimStart(rest) == rest[1..] by {
      assert rest[1..][0] == v[0];
    }
  }

  /** The key written after `pre` occurs there and is followed by a space and `w`. */
  lemma KeyLine(pre: string, key: string, w: string)
    ensures var text := pre + key + " " + w;
            OccursAt(text, key, |pre|) && text[|pre| + |key|..] == " " + w
  {
    var text := pre + key + " " + w;
    assert text[|pre|..|pre| + |key|] == key;
  }

  /** A field value followed by a line break is the whole capture, and does not start with
      whitespace. */
  lemma ValueLine(v: string, post: string)
    requires v != [] && IsFieldValue(v)
    ensures !IsWhiteSpace(v[0])
    ensures var after := v + "\n" + post;
            after[0] == v[0] && TrimEnd(LineRun(after)) == v
  {
    assert !IsWhiteSpace(v[0]) by {
      assert TrimStart(v) == TrimStart(Trim(v));
    }
    var after := v + "\n" + post;
    var line := LineRun(after);
    assert after[|v|] == '\n';
    assert forall k :: 0 <= k < |v| ==> after[k] == v[k];
    assert |line| == |v|;
    assert line == v;
    assert TrimEnd(v) == v by {
      assert TrimStart(v) == v;
    }
  }

  /** The block's category and filename, falling back to the defaults when a field is
      absent, and the body after the block, trimmed; without a block, the defaults and
      the content as it is. */
  function ParseFrontMatter(content: string): (r: ParsedContent)
    ensures FrontMatterBlock(content).None? ==>
              r == ParsedContent(FrontMatter(DefaultCategory, DefaultFilename), content)
    ensures FrontMatterBlock(content).Some? ==>
              var (text, body) := FrontMatterBlock(content).value;
              && r.cleanContent == Trim(body)
              && (FieldValue(text, "category:").None? ==> r.frontMatter.category == DefaultCategory)
              && (FieldValue(text, "category:").Some? ==>
                    r.frontMatter.category == FieldValue(text, "category:").value)
              && (FieldValue(text, "filename:").Some? ==>
                    r.frontMatter.filename == FieldValue(text, "filename:").value)
              && (FieldValue(text, "filename:").None? ==> r.frontMatter.filename == DefaultFilename)
  {
    match FrontMatterBlock(content)
    case None => ParsedContent(FrontMatter(DefaultCategory, DefaultFilename), content)
    case Some((text, body)) =>
      var categoryMatch := FieldValue(text, "category:");
      var filenameMatch := FieldValue(text, "filename:");
      ParsedContent(
        FrontMatter(
          if categoryMatch.Some? then categoryMatch.value else DefaultCategory,
          if filenameMatch.Some? then filenameMatch.value else DefaultFilename),
        Trim(body))
  }

  /** Without the word "category:" or "filename:" in the block, the defaults are used. */
  lemma AbsentFieldsGiveDefaults(content: string)
    requires FrontMatterBlock(content).Some?
    requires !Contains(FrontMatterBlock(content).value.0, "category:")
    requires !Contains(FrontMatterBlock(content).value.0, "filename:")
    ensures ParseFrontMatter(content).frontMatter == FrontMatter(DefaultCategory, DefaultFilename)
  {
  }

  // ---------------------------------------------------------------------------
  // Directory and file name

  /** A special category's directory, or the category itself. */
  function DirectoryFor(config: FileServiceConfig, category: string): (dir: string)
    ensures category in config.specialCategories && config.specialCategories[category] != ""
            ==> dir == PathJoin(config.baseDirectory, config.specialCategories[category])
    ensures !(category in config.specialCategories && config.specialCategories[category] != "")
            ==> dir == PathJoin(config.baseDirectory, category)
  {
    var dirStructure := EnvOr(config.specialCategories, category, category);
    PathJoin(config.baseDirectory, dirStructure)
  }

  /** A plain category that is not a special one becomes a directory right under a plain
      base directory. */
  lemma DirectoryForPlainCategory(config: FileServiceConfig, category: string)
    requires IsPlainPath(config.baseDirectory) && IsPlainPath(category)
    requires category !in config.specialCategories
    ensures DirectoryFor(config, category) == config.baseDirectory + "/" + category
    ensures IsPlainPath(DirectoryFor(config, category))
  {
    PathJoinPlain(config.baseDirectory, category);
  }

  /** A category of the form "../<rest>" leaves a one-segment base directory: the
      directory is `rest`, outside the base. */
  lemma DirectoryForClimbsOut(config: FileServiceConfig, rest: string)
    requires IsName(config.baseDirectory) && IsPlainPath(rest)
    requires "../" + rest !in config.specialCategories
    ensures DirectoryFor(config, "../" + rest) == rest
  {
    PathJoinClimbsOut(config.baseDirectory, rest);
  }

  /** An empty category that is not a special one is the base directory itself. */
  lemma DirectoryForEmptyCategory(config: FileServiceConfig)
    requires IsPlainPath(config.baseDirectory) && "" !in config.specialCategories
    ensures DirectoryFor(config, "") == config.baseDirectory
  {
    PathJoinEmpty(config.baseDirectory);
  }

  predicate IsFilenameChar(c: char) {
    ('a' <= c <= 'z') || ('0' <= c <= '9') || c == '-'
  }

  /** Lower-cases and turns every character outside [a-z0-9-] into '-'. */
  function ReplaceInvalid(s: string): (r: string)
    ensures |r| == |s|
    ensures AllFilenameChars(r)
    ensures forall i :: 0 <= i < |s| && IsFilenameChar(s[i]) ==> r[i] == s[i]
  {
    seq(|s|, i requires 0 <= i < |s| =>
      var c := ToLowerChar(s[i]);
      if IsFilenameChar(c) then c else '-')
  }

  predicate NoDoubleDash(s: string) {
    forall i :: 0 <= i < |s| - 1 ==> !(s[i] == '-' && s[i + 1] == '-')
  }

  /** Collapses every run of '-' into one. */
  function CollapseDashes(s: string): (r: string)
    ensures |r| <= |s|
    ensures s != [] ==> r != [] && r[0] == s[0]
    ensures AllFilenameChars(s) ==> AllFilenameChars(r)
    ensures NoDoubleDash(r)
    ensures NoDoubleDash(s) ==> r == s
  {
    if |s| < 2 then s
    else if s[0] == '-' && s[1] == '-' then CollapseDashes(s[1..])
    else [s[0]] + CollapseDashes(s[1..])
  }

  predicate AllFilenameChars(s: string) {
    forall i :: 0 <= i < |s| ==> IsFilenameChar(s[i])
  }

  lemma SliceKeepsShape(s: string, lo: int, hi: int)
    requires 0 <= lo <= hi <= |s|
    ensures NoDoubleDash(s) ==> NoDoubleDash(s[lo..hi])
    ensures AllFilenameChars(s) ==> AllFilenameChars(s[lo..hi])
  {
    assert forall i :: 0 <= i < hi - lo ==> s[lo..hi][i] == s[lo + i];
  }

  /** Drops one leading and one trailing '-'. */
  function StripDashes(s: string): (r: string)
    requires NoDoubleDash(s)
    ensures r == [] || (r[0] != '-' && r[|r| - 1] != '-')
    ensures NoDoubleDash(r)
    ensures AllFilenameChars(s) ==> AllFilenameChars(r)
    ensures (s == [] || (s[0] != '-' && s[|s| - 1] != '-')) ==> r == s
  {
    var lo := if StartsWith(s, "-") then 1 else 0;
    var hi := if |s| > lo && s[|s| - 1] == '-' then |s| - 1 else |s|;
    SliceKeepsShape(s, lo, hi);
    var r := s[lo..hi];
    assert r != [] ==> r[0] == s[lo] && r[|r| - 1] == s[hi - 1];
    assert lo == 1 ==> s[0] == s[..1][0] == '-';
    assert lo == 1 && |s| >= 2 ==> s[1] != '-';
    assert hi == |s| - 1 && |s| >= 2 ==> s[|s| - 2] != '-';
    r
  }

  /** The sanitised form of a suggested file name. */
  function Sanitize(filename: string): (r: string)
    ensures AllFilenameChars(r)
    ensures NoDoubleDash(r)
    ensures r == [] || (r[0] != '-' && r[|r| - 1] != '-')
  {
    StripDashes(CollapseDashes(ReplaceInvalid(filename)))
  }

  /** Sanitising a sanitised name changes nothing. */
  lemma SanitizeIdempotent(filename: string)
    ensures Sanitize(Sanitize(filename)) == Sanitize(filename)
  {
    var s := Sanitize(filename);
    assert ReplaceInvalid(s) == s;
  }

  /** `<date>_<sanitised>.md`, the date being the part of the ISO timestamp before 'T'. */
  function GenerateSemanticFilename(filename: string, isoTimestamp: string): (r: string)
    ensures var date := SplitOn(isoTimestamp, "T")[0];
            && |r| == |date| + |Sanitize(filename)| + 4
            && r[..|date|] == date && r[|date|] == '_'
            && r[|date| + 1..|r| - 3] == Sanitize(filename)
            && r[|r| - 3..] == ".md"
  {
    var timestamp := SplitOn(isoTimestamp, "T")[0];
    var sanitizedFilename := Sanitize(filename);
    var r := timestamp + "_" + sanitizedFilename + ".md";
    assert |r| == |timestamp| + 1 + |sanitizedFilename| + 3;
    r
  }

  /** Parses the content and chooses the path its body is written to; the write itself is
      represented by `writeSucceeds`, and any failure becomes one fixed error. */
  function SaveMarkdownFile(config: FileServiceConfig, content: string, isoTimestamp: string,
                            writeSucceeds: bool): (r: Result<string>)
    ensures !writeSucceeds <==> r == Err(SaveFailed)
    ensures r.Ok? ==> var parsed := ParseFrontMatter(content);
                      r.value == PathJoin(DirectoryFor(config, parsed.frontMatter.category),
                                          GenerateSemanticFilename(parsed.frontMatter.filename, isoTimestamp))
  {
    var parsed := ParseFrontMatter(content);
    var dirPath := DirectoryFor(config, parsed.frontMatter.category);
    var filename := GenerateSemanticFilename(parsed.frontMatter.filename, isoTimestamp);
    if writeSucceeds then Ok(PathJoin(dirPath, filename)) else Err(SaveFailed)
  }

  /** With an ISO timestamp free of "/", the semantic file name is a single name. */
  lemma SemanticFilenameIsName(filename: string, isoTimestamp: string)
    requires '/' !in isoTimestamp
    ensures IsName(GenerateSemanticFilename(filename, isoTimestamp))
    ensures IsPlainPath(GenerateSemanticFilename(filename, isoTimestamp))
  {
    var f := GenerateSemanticFilename(filename, isoTimestamp);
    var date := SplitOn(isoTimestamp, "T")[0];
    SplitOnFirstIsPrefix(isoTimestamp, "T");
    assert '/' !in date by {
      assert forall k :: 0 <= k < |date| ==> date[k] == isoTimestamp[k];
    }
    var name := Sanitize(filename);
    assert f == date + "_" + name + ".md";
    assert forall k :: 0 <= k < |f| ==> f[k] != '/' by {
      forall k | 0 <= k < |f|
        ensures f[k] != '/'
      {
        if k < |date| {
          assert f[k] == date[k];
        } else if |date| < k < |date| + 1 + |name| {
          assert f[k] == name[k - |date| - 1];
          assert IsFilenameChar(name[k - |date| - 1]);
        }
      }
    }
    assert |f| >= 4 && f[|f| - 1] == 'd';
    SegmentsWithoutSeparator(f);
  }

  /** A saved note whose directory is a plain path lies directly in that directory. */
  lemma SavedInDirectory(config: FileServiceConfig, content: string, isoTimestamp: string)
    requires '/' !in isoTimestamp
    requires IsPlainPath(DirectoryFor(config, ParseFrontMatter(content).frontMatter.category))
    ensures var parsed := ParseFrontMatter(content);
            SaveMarkdownFile(config, content, isoTimestamp, true)
            == Ok(DirectoryFor(config, parsed.frontMatter.category) + "/"
                  + GenerateSemanticFilename(parsed.frontMatter.filename, isoTimestamp))
  {
    var parsed := ParseFrontMatter(content);
    SemanticFilenameIsName(parsed.frontMatter.filename, isoTimestamp);
    PathJoinPlain(DirectoryFor(config, parsed.frontMatter.category),
                  GenerateSemanticFilename(parsed.frontMatter.filename, isoTimestamp));
  }
}
