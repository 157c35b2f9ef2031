# audio-ai: the decision layer of a voice-note pipeline, in Dafny

audio-ai turns a voice note or a text file into a categorised Markdown note.

- **The TypeScript backend.**
  - It validates the upload and detects the file type (extension, then MIME type, then a printable-byte heuristic).
  - It sends audio to a transcription provider and fills the prompt template.
  - It cleans the language model's answer: it reads its front matter, drops the commentary section and strips code fences.
  - It saves the note under a sanitised, dated file name.
  - Express middleware validates requests and maps errors to HTTP statuses.
  - Configuration builders choose the models, providers, limits and feature flags from the environment.
- **The Android client.**
  - It records with a state machine: Idle, Recording, Paused, Finished.
  - A pause-aware tracker counts the recorded time, and a formatter shows it as "MM:SS".
  - An older variant of the recorder keeps a list of segment files.

This project models those rules and proves what they promise. Each source file is one Dafny module.

- **What comes in as parameters.** The environment is a `map<string, string>`. Clocks are `now` values. Whatever the outside world answers is a parameter: a recorder call that throws, whether a file exists, a language model's reply, a provider's transcription.
- **Functions.** Pure code becomes functions with named results.
- **Methods.** Code that works by loops or by reassigning state becomes methods, proved against those functions:
  - the byte-counting loops;
  - the template substitution;
  - the arrays the validators push into;
  - the provider map;
  - the recorder use cases and the duration tracker.
- **JavaScript built-ins.** `trim`, `\s`, `indexOf`, `split`, `replace` (with `$` replacement patterns), `parseInt`, `toLowerCase` and truthiness are written out once in `JsCore`, with their own lemmas. Node's `path.join` is written out in `PosixPath`.

## Model

| member | source | states |
|---|---|---|
| FileExtensionDetector.ExtractExtension | backend/src/services/file-detection/FileExtensionDetector.ts:54-57 | "" exactly when the name has no '.'; otherwise a '.' followed by no other '.', equal to the lower-cased tail of the name |
| FileExtensionDetector.DetectByExtension | backend/src/services/file-detection/FileExtensionDetector.ts:59-78 | a binary extension gives UNKNOWN; TEXT exactly for a text extension, AUDIO exactly for an audio one, null exactly when the extension is in no list |
| FileExtensionDetector.GetSupportedFormats | backend/src/services/file-detection/FileExtensionDetector.ts:92-97 | exactly the text list and the audio list, in their order; each reported format is a '.'-led extension of its kind |
| FileExtensionDetector.ListsDisjoint | backend/src/services/file-detection/FileExtensionDetector.ts:9-52 | the text, audio and binary lists share no extension, so every extension has one answer |
| FileExtensionDetector.TextAudioApart | backend/src/services/file-detection/FileExtensionDetector.ts:9-21 | no text extension equals an audio extension |
| FileExtensionDetector.TextBinaryApart | backend/src/services/file-detection/FileExtensionDetector.ts:9-52 | no text extension equals a binary extension |
| FileExtensionDetector.AudioBinaryApart | backend/src/services/file-detection/FileExtensionDetector.ts:14-52 | no audio extension equals a binary extension |
| FileExtensionDetector.ApartSharesNothing | backend/src/services/file-detection/FileExtensionDetector.ts:9-52 | lists with no equal entries have no common member |
| FileExtensionDetector.TextExtensionsShaped | backend/src/services/file-detection/FileExtensionDetector.ts:9-12 | every text extension is a '.' followed by lower-case characters without a '.' |
| FileExtensionDetector.AudioExtensionsShaped | backend/src/services/file-detection/FileExtensionDetector.ts:14-21 | every audio extension is a '.' followed by lower-case characters without a '.' |
| FileExtensionDetector.LowerCaseUnchanged | backend/src/services/file-detection/FileExtensionDetector.ts:54-57 | lower-casing text without upper-case letters changes nothing |
| FileExtensionDetector.LastDotOfToLower | backend/src/services/file-detection/FileExtensionDetector.ts:54-57 | lower-casing a name does not move its last '.' |
| FileExtensionDetector.ExtractExtensionIgnoresCase | backend/src/services/file-detection/FileExtensionDetector.ts:54-57 | the extension of the lower-cased name is the extension of the name |
| FileExtensionDetector.DetectByExtensionIgnoresCase | backend/src/services/file-detection/FileExtensionDetector.ts:59-78 | "FILE.TXT" and "file.txt" are classified alike, for every name |
| FileExtensionDetector.ExtractExtensionOfSuffix | backend/src/services/file-detection/FileExtensionDetector.ts:54-57 | appending a lower-case extension to any name and extracting it gives that extension back |
| FileExtensionDetector.SupportedFormatsAreDetected | backend/src/services/file-detection/FileExtensionDetector.ts:92-97 | a name ending in any reported text (audio) format is detected as TEXT (AUDIO) |
| FileExtensionDetector.ExtractExtensionOfArchive | backend/src/services/file-detection/FileExtensionDetector.ts:54-57 | any name ending in ".tar.gz" ("archive.tar.gz", say) gives ".gz": only the last dot counts |
| MimeTypeDetector.AudioIsNotText | backend/src/services/file-detection/MimeTypeDetector.ts:52-58 | no MIME type is both a text and an audio type |
| MimeTypeDetector.DetectByMimeType | backend/src/services/file-detection/MimeTypeDetector.ts:32-50 | never UNKNOWN; TEXT exactly when isTextMimeType holds, AUDIO exactly when isAudioMimeType holds |
| ContentAnalyzer.Sample | backend/src/services/file-detection/ContentAnalyzer.ts:13 | the sample is the first min(1024, length) bytes |
| ContentAnalyzer.PrintableCount | backend/src/services/file-detection/ContentAnalyzer.ts:11-40 | the printable count never exceeds the bytes counted |
| ContentAnalyzer.LooksLikeText | backend/src/services/file-detection/ContentAnalyzer.ts:11-40 | the counting loop answers true exactly when the sample has at least 50 bytes and more than 80% of them are printable |
| ContentAnalyzer.OnlySampleMatters | backend/src/services/file-detection/ContentAnalyzer.ts:13 | bytes past the first 1024 never change the verdict |
| ContentAnalyzer.HundredByteThreshold | backend/src/services/file-detection/ContentAnalyzer.ts:11-40 | on 100 bytes, 81 printable is text and 80 is not |
| ContentAnalyzer.AllPrintableCount | backend/src/services/file-detection/ContentAnalyzer.ts:11-40 | an all-printable sample counts every byte |
| ContentAnalyzer.AllPrintableIsText | backend/src/services/file-detection/ContentAnalyzer.ts:11-40 | at least 50 bytes, all printable, is text |
| ContentAnalyzer.IsValidFileSize | backend/src/services/file-detection/ContentAnalyzer.ts:45-48 | valid exactly when the size is at most the limit in MiB; size 0 passes |
| FileTypeDetectionService.GetFileExtension | backend/src/services/FileTypeDetectionService.ts:129-132 | "" exactly when the name has no '.'; otherwise the lower-cased tail of the name, a '.' followed by no other '.' |
| FileTypeDetectionService.DetectFileType | backend/src/services/FileTypeDetectionService.ts:72-127 | a binary extension gives UNKNOWN; AUDIO needs an audio MIME or extension; TEXT needs a text MIME, a text extension or text-like content; UNKNOWN exactly when the extension is binary or no test matches |
| FileTypeDetectionService.DetectFileTypeByDetectors | backend/src/services/FileTypeDetectionService.ts:72-127 | the service's ladder equals the one built from the extension, MIME and content detectors: binary, listed MIME, extension, generic MIME, then content |
| FileTypeDetectionService.LooksLikeTextContent | backend/src/services/FileTypeDetectionService.ts:134-156 | the service's own counting loop agrees with ContentAnalyzer's rule on every buffer |
| FileTypeDetectionService.DetectFileTypeWithContent | backend/src/services/FileTypeDetectionService.ts:72-127 | the ladder run with the loop gives DetectFileType; UNKNOWN only for content that is not text-like or a binary extension |
| FileTypeDetectionService.IsValidFileSize | backend/src/services/FileTypeDetectionService.ts:158-161 | valid exactly when the size is at most 50 MiB |
| PromptEngine.Placeholder | backend/src/config/prompts/PromptEngine.ts:15-20 | the placeholder is the key wrapped in "{{" and "}}" |
| PromptEngine.Keys | backend/src/config/prompts/PromptEngine.ts:30-35 | the key set is exactly the names of the supplied variables |
| PromptEngine.ProcessTemplate | backend/src/config/prompts/PromptEngine.ts:11-23 | the loop over the variables yields the template with each variable's placeholders replaced in turn, as a global-regex replace does, `$` patterns included |
| PromptEngine.SingleVariableReplacesEveryOccurrence | backend/src/config/prompts/PromptEngine.ts:15-20 | one variable whose value has no '$' replaces every occurrence of its placeholder: split on it, join with the value |
| PromptEngine.DollarPairInValue | backend/src/config/prompts/PromptEngine.ts:19 | a value "a$$b" is inserted as "a$b": "$$" is a replacement pattern |
| PromptEngine.MatchedTextInValue | backend/src/config/prompts/PromptEngine.ts:19 | a value "$&" puts the placeholder itself back |
| PromptEngine.UnsuppliedPlaceholdersKept | backend/src/config/prompts/PromptEngine.ts:15-20 | variables whose placeholders do not occur leave the template unchanged; so does an empty variable list |
| PromptEngine.MissingVariables | backend/src/config/prompts/PromptEngine.ts:30-35 | a required name is reported exactly when it was not supplied |
| PromptEngine.GetPrompt | backend/src/config/prompts/PromptEngine.ts:28-38 | fails exactly when a required variable is missing, naming every missing one; otherwise the substituted template, extra variables allowed |
| PromptUtils.GetPromptInfo | backend/src/config/prompts/PromptUtils.ts:10-45 | the base entry first, then one commentary entry per registry prompt, in order |
| PromptUtils.CountMatchesAbsent | backend/src/config/prompts/PromptUtils.ts:54-58 | a pattern that does not occur is counted zero times |
| PromptUtils.ValidatePrompt | backend/src/config/prompts/PromptUtils.ts:50-79 | valid exactly when there are no issues; the issues are the report for the four checks on the template: unmatched "{{"/"}}" counts, an empty placeholder, under 50 and over 10000 characters; never both length issues |
| PromptUtils.IssueRanks | backend/src/config/prompts/PromptUtils.ts:56-73 | the four issue texts are distinct and ranked in the order they are checked |
| PromptUtils.IssuesForReportsEachCondition | backend/src/config/prompts/PromptUtils.ts:56-78 | each issue is reported exactly when its condition holds; the report is empty exactly when no condition holds |
| PromptUtils.IssuesForInOrder | backend/src/config/prompts/PromptUtils.ts:56-73 | the report holds only the four issues, each at most once, in the order of the checks |
| PromptUtils.LengthIssuesExclusive | backend/src/config/prompts/PromptUtils.ts:67-73 | whatever the bracket checks find, a template's issue report never holds both "too short" and "too long", so it has at most three issues |
| PromptUtils.BracelessTemplateHasNoBracketIssue | backend/src/config/prompts/PromptUtils.ts:54-64 | a template without braces has no bracket or empty-placeholder issue |
| PromptUtils.NoOccurrenceWithoutFirstChar | backend/src/config/prompts/PromptUtils.ts:54-58 | a pattern whose first character is absent does not occur |
| FileService.OccursInTail | backend/src/services/FileService.ts:33-57 | an occurrence at a+j in a string is an occurrence at j in its tail from a |
| FileService.FrontMatterBlock | backend/src/services/FileService.ts:33-57 | a match splits the content into "---\n", block, "\n---\n", body, with no earlier closing line; none exactly when there is no opening or no closing line |
| FileService.FrontMatterBlockIsShortest | backend/src/services/FileService.ts:33-57 | any content of the front-matter shape matches, with a block no longer than the given one |
| FileService.LineRun | backend/src/services/FileService.ts:47-54 | the longest prefix without a line terminator |
| FileService.FieldValue | backend/src/services/FileService.ts:47-54 | a captured value comes from text containing the key and is a trimmed one-line value, possibly empty |
| FileService.FieldValueOfLine | backend/src/services/FileService.ts:47-54 | a key first occurring in `key v\n…`, with v a trimmed one-line value, reads exactly v |
| FileService.KeyLine | backend/src/services/FileService.ts:47-48 | the key occurs right after the text before it, followed by the space and the rest |
| FileService.ValueLine | backend/src/services/FileService.ts:47-54 | the line run of `v\n…`, end-trimmed, is v when v is a trimmed one-line value |
| FileService.CaptureIsFieldValue | backend/src/services/FileService.ts:47-54 | what the capture group takes after the key is a field value |
| FileService.ParseFrontMatter | backend/src/services/FileService.ts:33-57 | without a block, the defaults "notes" and "untitled-note" and the content unchanged; with one, each field read or defaulted and the body trimmed |
| FileService.AbsentFieldsGiveDefaults | backend/src/services/FileService.ts:47-54 | a block with neither key gives the default category and file name |
| FileService.DirectoryFor | backend/src/services/FileService.ts:59-69 | path.join of the base directory and specialCategories[category] when that mapping is non-empty, else of the base directory and the category, normalised |
| FileService.DirectoryForPlainCategory | backend/src/services/FileService.ts:59-61 | a plain relative base and a plain category that is not special give base + "/" + category, again a plain path |
| FileService.DirectoryForClimbsOut | backend/src/services/FileService.ts:59-61 | a category "../rest" under a one-segment base gives rest: the note's directory leaves the base directory |
| FileService.DirectoryForEmptyCategory | backend/src/services/FileService.ts:59-61 | an empty category that is not special gives the base directory itself |
| FileService.ReplaceInvalid | backend/src/services/FileService.ts:73-77 | same length, only [a-z0-9-], and every allowed character kept in place |
| FileService.CollapseDashes | backend/src/services/FileService.ts:73-77 | no "--" remains, allowed characters stay allowed, and a string without "--" is unchanged |
| FileService.SliceKeepsShape | backend/src/services/FileService.ts:73-77 | slicing keeps "no --" and "only allowed characters" |
| FileService.StripDashes | backend/src/services/FileService.ts:73-77 | no leading or trailing '-', shape kept, a string without them unchanged |
| FileService.Sanitize | backend/src/services/FileService.ts:73-77 | the sanitised name has only [a-z0-9-], no "--" and no '-' at either end |
| FileService.SanitizeIdempotent | backend/src/services/FileService.ts:73-77 | sanitising twice is sanitising once |
| FileService.GenerateSemanticFilename | backend/src/services/FileService.ts:71-80 | the name reads back as the date, '_', the sanitised name and ".md" |
| FileService.SaveMarkdownFile | backend/src/services/FileService.ts:13-31 | fails exactly when the write fails; otherwise the path is path.join of the category's directory and the semantic file name, normalised |
| FileService.SemanticFilenameIsName | backend/src/services/FileService.ts:71-80 | with a timestamp free of '/', the generated file name is a single path segment |
| FileService.SavedInDirectory | backend/src/services/FileService.ts:13-20 | when the category's directory is a plain path, the saved path is that directory, '/', and the file name |
| PosixPath.Segments | backend/src/services/FileService.ts:61 | a path has at least one segment |
| PosixPath.Normalize | backend/src/services/FileService.ts:61 | the normalised path is never empty ("." for an empty one) |
| PosixPath.PathJoin | backend/src/services/FileService.ts:61 | the join is never empty ("." for two empty arguments) |
| PosixPath.SegmentsOfJoin | backend/src/services/FileService.ts:61 | splitting x + "/" + y on "/" gives the segments of x, then those of y |
| PosixPath.ResolveNames | backend/src/services/FileService.ts:61 | segments that are all names are kept, in order |
| PosixPath.NormalizePlain | backend/src/services/FileService.ts:61 | normalising a plain relative path changes nothing |
| PosixPath.PathJoinPlain | backend/src/services/FileService.ts:61 | two plain paths join as a + "/" + b, itself a plain path |
| PosixPath.PathJoinEmpty | backend/src/services/FileService.ts:61 | joining "" to a plain path gives the path |
| PosixPath.SegmentsWithoutSeparator | backend/src/services/FileService.ts:61 | a path without '/' is one segment |
| PosixPath.SegmentsOfClimb | backend/src/services/FileService.ts:61 | base + "/../" + rest splits into base, "..", then rest's segments |
| PosixPath.ResolveClimb | backend/src/services/FileService.ts:61 | a name followed by ".." cancels out, leaving the names after them |
| PosixPath.PathJoinClimbsOut | backend/src/services/FileService.ts:61 | joining "../" + rest to a one-segment base gives rest |
| AIService.MetadataBlock | backend/src/services/AIService.ts:54-80 | no block unless the response starts with "---"; a block never contains a closing line |
| AIService.MetadataBlockOfFenced | backend/src/services/AIService.ts:57 | "---\n" + y + "\n---" + z gives exactly y, for every y that starts with a non-space and holds no closing line |
| AIService.ClosingUnbordered | backend/src/services/AIService.ts:57 | no proper suffix of the closing marker "\n---" is a prefix of it, so occurrences cannot overlap |
| AIService.MetadataBlockFrom | backend/src/services/AIService.ts:54-80 | the lazy search returns a block without a closing line |
| AIService.BoolAfterKey | backend/src/services/AIService.ts:54-80 | null exactly when no occurrence of the key is followed, after optional whitespace, by "true" or "false"; otherwise the word after the leftmost such occurrence |
| AIService.BoolAfterKeyFrom | backend/src/services/AIService.ts:69 | a value is found only where the key occurs at or after the start index |
| AIService.WordAt | backend/src/services/AIService.ts:69 | true (false) only where the key occurs at the index and "true" ("false") follows after whitespace |
| AIService.BoolAfterKeyFromIsFirstWord | backend/src/services/AIService.ts:69 | the scan from an index is null exactly when no later index has a word after the key, and otherwise gives the word at the first one |
| AIService.BoolAfterKeyAtFirst | backend/src/services/AIService.ts:69 | the flag is the word after the key at the first index that has one |
| AIService.WordAfterKey | backend/src/services/AIService.ts:69 | the key followed by a space and "true" or "false" reads that value at its index |
| AIService.BoolAfterFirstKey | backend/src/services/AIService.ts:69 | for a key that cannot overlap itself, `key true` or `key false` after text without the key gives that value |
| AIService.CommentaryKeyUnbordered | backend/src/services/AIService.ts:69 | "commentary_needed:" cannot overlap itself |
| AIService.CommentaryValueOfFirstKey | backend/src/services/AIService.ts:69-73 | the first `commentary_needed: true` (or `false`) decides the flag, whatever follows |
| AIService.LeadingBool | backend/src/services/AIService.ts:54-80 | true exactly when the text starts with "true", false exactly when it starts with "false" |
| AIService.ParseMetadata | backend/src/services/AIService.ts:54-80 | null exactly when there is no front-matter block; otherwise category and filename are the block's field values and commentary_needed is the flag read from the block |
| AIService.ParseMetadataReadsCategory | backend/src/services/AIService.ts:57-75 | a response "---\ncategory: c\n…\n---…" has metadata whose category is c |
| AIService.CategoryLineRead | backend/src/services/AIService.ts:67-71 | a block whose first line is `category: c` reads the category c |
| AIService.SectionEnd | backend/src/services/AIService.ts:96-99 | the end of a section lies between its start and the end of the text |
| AIService.SectionEndStartsSection | backend/src/services/AIService.ts:96-99 | a section ends at the end of the text or at the next "## " |
| AIService.NoHeadingAcrossJoin | backend/src/services/AIService.ts:96-99 | two pieces without a "## "-led heading, the second starting a section, join without forming the heading |
| AIService.HeadingShape | backend/src/services/AIService.ts:96-99 | the commentary heading starts with "## " and has no further '#' |
| AIService.SectionBeforeHeading | backend/src/services/AIService.ts:96-99 | text that starts a section keeps that start when cut just before a later heading |
| AIService.StartsWithAppend | backend/src/services/AIService.ts:96-99 | a text that starts a section still does with more text appended |
| AIService.RemoveSectionsShape | backend/src/services/AIService.ts:96-99 | removal leaves no "## AI Commentary" and keeps a section start at the front |
| AIService.KeptOpensSection | backend/src/services/AIService.ts:96-99 | text that opens a section still does when cut before a later heading and extended |
| AIService.KeptThenRest | backend/src/services/AIService.ts:96-99 | text without the heading followed by text without it that opens a section holds no heading |
| AIService.RemoveSectionsAbsent | backend/src/services/AIService.ts:96-99 | text without the heading is kept whole |
| AIService.RemoveSectionsStep | backend/src/services/AIService.ts:96-99 | removal keeps the text before the first heading and continues after the end of its section |
| AIService.HeadingFirstFound | backend/src/services/AIService.ts:96-99 | a heading after text without it is found right after that text |
| AIService.SectionEndsBeforeRest | backend/src/services/AIService.ts:96-99 | a section whose body has no "## " ends where the next "## " or the text's end begins |
| AIService.RemoveSectionsOfOne | backend/src/services/AIService.ts:98 | a + heading + b + c, with b free of "## " and c empty or opening a section, loses exactly the heading and b |
| AIService.RemoveCommentarySection | backend/src/services/AIService.ts:96-99 | the result contains no "## AI Commentary"; text without it is only trimmed |
| AIService.MarkersUnbordered | backend/src/services/AIService.ts:98 | neither "## AI Commentary" nor "## " can overlap itself |
| AIService.RemoveCommentaryKeepsRest | backend/src/services/AIService.ts:96-99 | for a + heading + b + c as above, with no heading in a or c, the result is trim(a + c): the sections around the commentary stay |
| AIService.ProcessLLMResponse | backend/src/services/AIService.ts:82-94 | unchanged with no metadata or commentary_needed true; otherwise the commentary section is removed |
| AIService.NoFenceAfterChar | backend/src/services/AIService.ts:101-103 | prefixing one character to fence-free text makes no fence unless it completes one |
| AIService.StripFencesKeepsHead | backend/src/services/AIService.ts:101-103 | a character that is not '`' is kept in front |
| AIService.StripFencesShape | backend/src/services/AIService.ts:101-103 | fence removal leaves no "```" |
| AIService.KeptHead | backend/src/services/AIService.ts:102 | a text not opening with "```" keeps its first character |
| AIService.FenceCut | backend/src/services/AIService.ts:102 | a text opening with "```" loses the longest of the three alternatives and nothing else |
| AIService.KeptHeadNotTwoTicks | backend/src/services/AIService.ts:102 | a kept head that does not open "``" leaves a result that does not either |
| AIService.StripFencesAppend | backend/src/services/AIService.ts:102 | text without '`' passes through unchanged in front of the rest |
| AIService.StripMarkdown | backend/src/services/AIService.ts:101-103 | the result contains no "```" |
| AIService.StripMarkdownPlain | backend/src/services/AIService.ts:101-103 | text without '`' is only trimmed |
| AIService.StripMarkdownFenced | backend/src/services/AIService.ts:101-103 | "```markdown\n" + s + "\n```" with s free of '`' gives trim(s) |
| AIService.StripMarkdownFencedExact | backend/src/services/AIService.ts:101-103 | for an already trimmed s free of '`', "```markdown\n" + s + "\n```" gives s exactly ("# Test", say) |
| AIService.ProcessTranscript | backend/src/services/AIService.ts:21-48 | succeeds exactly when the prompt has its variables and the model answers; a success is StripMarkdown(processLLMResponse(answer, parseMetadata(answer))) of the model's answer to the filled prompt; every failure is "AI processing failed" |
| TranscriptText.TranscriptText.CreatePreview | backend/src/domain/TranscriptText.ts:39-45 | the text itself when it fits, else a prefix of the given length followed by "..." |
| TranscriptText.TranscriptText.Words | backend/src/domain/TranscriptText.ts:47-49 | every word is non-empty and has no whitespace |
| TranscriptText.TranscriptText.WordCount | backend/src/domain/TranscriptText.ts:47-49 | the count is the number of positions where a run of non-whitespace begins |
| TranscriptText.TranscriptText.ExtractSentences | backend/src/domain/TranscriptText.ts:56-61 | every sentence is non-empty, trimmed and free of '.', '!' and '?' |
| TranscriptText.TrimmedSentence | backend/src/domain/TranscriptText.ts:56-61 | trimming a piece keeps it free of sentence ends and is idempotent |
| TranscriptText.ValidateTranscript | backend/src/domain/TranscriptText.ts:79-89 | no error exactly when the length is within 1..10000; empty and too-long texts get their messages |
| TranscriptText.Create | backend/src/domain/TranscriptText.ts:13-19 | succeeds exactly for a defined, non-blank text of at most 10000 characters once trimmed, storing the trimmed text; each rejection with its message |
| TranscriptText.CreateOfValid | backend/src/domain/TranscriptText.ts:13-19 | re-creating a valid transcript gives it back |
| TranscriptText.WordsSpellText | backend/src/domain/TranscriptText.ts:47-49 | the words, concatenated, are the text with its whitespace removed |
| TranscriptText.WordsOfSplit | backend/src/domain/TranscriptText.ts:47-49 | pieces without whitespace joined by whitespace runs come back as the words, empty ones dropped, and their number is the word count |
| TranscriptText.SentencesOfSplit | backend/src/domain/TranscriptText.ts:56-61 | pieces without '.', '!' or '?' joined by runs of them come back as the sentences, each trimmed, empty ones dropped |
| TranscriptText.TrimmedSentences | backend/src/domain/TranscriptText.ts:56-61 | trimmed pieces without sentence ends, empty ones dropped, are all sentences |
| TranscriptText.ValidHasAWord | backend/src/domain/TranscriptText.ts:47-49 | every valid transcript has at least one word |
| TranscriptText.ActionItemIgnoresCase | backend/src/domain/TranscriptText.ts:63-77 | the action-item test does not depend on letter case |
| TranscriptText.ActionItemByIndicator | backend/src/domain/TranscriptText.ts:63-77 | an action item exactly when the lower-cased text contains one of the nine indicators |
| TranscriptText.IndicatorIsLowerCase | backend/src/domain/TranscriptText.ts:63-77 | every indicator is already lower case |
| Validation.ValidateTranscriptRequest | backend/src/middleware/validation.ts:5-37 | next exactly for a non-blank string of at most 10000 characters; otherwise 400 with the first failing check's message |
| Validation.AcceptedRequestMakesTranscript | backend/src/middleware/validation.ts:5-37 | every transcript the middleware lets through builds a TranscriptText |
| FileValidation.ValidateFileOrTranscript | backend/src/middleware/fileValidation.ts:27-125 | next exactly when there is a valid transcript alone or a well-formed file alone; every other case is a 400 with its message, never next-with-error |
| FileValidation.AcceptedRequestHasExactlyOne | backend/src/middleware/fileValidation.ts:27-125 | an accepted request has a file exactly when it has no valid transcript |
| FileValidation.AcceptedFileHasExtension | backend/src/middleware/fileValidation.ts:96-121 | an accepted file has a non-empty extension |
| FileValidation.HandleMulterError | backend/src/middleware/fileValidation.ts:128-167 | each Multer code maps to its 400 message; other errors, and only those, go to next |
| ErrorHandler.HandleError | backend/src/middleware/errorHandler.ts:4-46 | status and message come from the first matching rule; details and stack are sent exactly outside production |
| ErrorHandler.RulesNeedles | backend/src/middleware/errorHandler.ts:19-40 | the seven rules, in the handler's order, with their statuses and replies |
| ErrorHandler.ClassifyFrom | backend/src/middleware/errorHandler.ts:19-40 | classifying from rule k either matches rule k or moves on to k+1 |
| ErrorHandler.FirstMatchDecides | backend/src/middleware/errorHandler.ts:19-40 | the first rule whose text occurs decides the status and message |
| ErrorHandler.NoMatchIsInternal | backend/src/middleware/errorHandler.ts:15-16 | no match gives 500 "Internal server error" |
| ErrorHandler.ClassifyStatus | backend/src/middleware/errorHandler.ts:15-40 | the status is 500 or the status of some rule |
| ErrorHandler.StatusIsKnown | backend/src/middleware/errorHandler.ts:15-40 | the status is always 400, 500 or 503 |
| ErrorHandler.ClientErrorEchoesMessage | backend/src/middleware/errorHandler.ts:28-40 | the client-error rules answer 400 with the original message |
| ErrorHandler.MissingKeyIsConfigurationError | backend/src/middleware/errorHandler.ts:19-40 | the missing-key error from the configuration builder is a 500 configuration error |
| AIConfigBuilder.SelectModel | backend/src/config/AIConfigBuilder.ts:22-41 | high-accuracy gives pro, high-volume gives flash; otherwise pro exactly in production or staging, else the experimental model |
| AIConfigBuilder.GetMaxTokens | backend/src/config/AIConfigBuilder.ts:43-46 | 8192 unless GEMINI_MAX_TOKENS is set, then its parseInt |
| AIConfigBuilder.BuildAIConfig | backend/src/config/AIConfigBuilder.ts:11-20 | the key passed through, the selected model and the token limit |
| AIConfigBuilder.DefaultModelIsExperimental | backend/src/config/AIConfigBuilder.ts:22-41 | with neither NODE_ENV nor USE_CASE the model is the experimental one |
| AIConfigBuilder.MaxTokensRoundTrip | backend/src/config/AIConfigBuilder.ts:43-46 | a number written into GEMINI_MAX_TOKENS is read back |
| ApplicationConfigBuilder.GetGeminiApiKey | backend/src/config/ApplicationConfigBuilder.ts:25-33 | the key exactly when it is set and not the placeholder, else the missing-key error |
| ApplicationConfigBuilder.GetValidatedPort | backend/src/config/ApplicationConfigBuilder.ts:35-46 | a port in 1..65535 equal to the parsed value, else the invalid-port error |
| ApplicationConfigBuilder.BuildApplicationConfig | backend/src/config/ApplicationConfigBuilder.ts:13-23 | succeeds exactly with a usable key and a valid port, returning them and the base directory; the key is checked first |
| ApplicationConfigBuilder.DefaultPortIs3000 | backend/src/config/ApplicationConfigBuilder.ts:35-46 | no PORT gives 3000 |
| ApplicationConfigBuilder.PortRoundTrip | backend/src/config/ApplicationConfigBuilder.ts:35-54 | any port in range written into PORT is read back |
| ApplicationConfigBuilder.OutOfRangePortRefused | backend/src/config/ApplicationConfigBuilder.ts:48-54 | a port outside 1..65535 is refused |
| TranscriptionConfigBuilder.ProviderForUseCase | backend/src/config/TranscriptionConfigBuilder.ts:40-53 | privacy gives local Whisper, high-accuracy gives Hugging Face, anything else the free web-speech provider |
| TranscriptionConfigBuilder.SelectDefaultProvider | backend/src/config/TranscriptionConfigBuilder.ts:31-38 | an explicit TRANSCRIPTION_PROVIDER wins, else the use case decides |
| TranscriptionConfigBuilder.ApiKeyVariable | backend/src/config/TranscriptionConfigBuilder.ts:55-64 | which environment variable holds each provider's key |
| TranscriptionConfigBuilder.GetProviderApiKey | backend/src/config/TranscriptionConfigBuilder.ts:55-64 | the key is that variable's value, absent exactly when it is unset |
| TranscriptionConfigBuilder.DefaultModelForProvider | backend/src/config/TranscriptionConfigBuilder.ts:75-87 | large or base Whisper by use case for Hugging Face and local Whisper; none for the others |
| TranscriptionConfigBuilder.GetProviderModel | backend/src/config/TranscriptionConfigBuilder.ts:66-73 | TRANSCRIPTION_MODEL overrides the default model |
| TranscriptionConfigBuilder.DefaultMaxFileSize | backend/src/config/TranscriptionConfigBuilder.ts:102-113 | 100, 500 and 50 MiB for Hugging Face, local Whisper and Gemini; 25 MiB otherwise |
| TranscriptionConfigBuilder.GetMaximumFileSize | backend/src/config/TranscriptionConfigBuilder.ts:93-100 | MAX_FILE_SIZE overrides the provider's default |
| TranscriptionConfigBuilder.BuildTranscriptionConfig | backend/src/config/TranscriptionConfigBuilder.ts:18-29 | each field is its selector's answer for the chosen provider; language and service URL default |
| TranscriptionConfigBuilder.EmptyEnvironmentDefaults | backend/src/config/TranscriptionConfigBuilder.ts:18-29 | an empty environment gives the free provider, no key or model, "en" and 25 MiB |
| TranscriptionConfigBuilder.DefaultProviderIsNeverGemini | backend/src/config/TranscriptionConfigBuilder.ts:31-53 | without an explicit provider Gemini is never chosen, and Hugging Face exactly for high-accuracy |
| FeatureFlagManager.VariableName | backend/src/config/FeatureFlagManager.ts:65-75 | a flag's variable is never NODE_ENV |
| FeatureFlagManager.VariableNamesDistinct | backend/src/config/FeatureFlagManager.ts:65-75 | different flags use different variables |
| FeatureFlagManager.LoadFeatureFlags | backend/src/config/FeatureFlagManager.ts:18-28 | commentary and health checks on unless "false"; detailed logging on for "true" or development; rate limiting on for "true" or production; metrics only for "true" |
| FeatureFlagManager.EnableTurnsOn | backend/src/config/FeatureFlagManager.ts:35-38 | after enabling, the flag reads true, for every flag |
| FeatureFlagManager.DisableTurnsOff | backend/src/config/FeatureFlagManager.ts:40-43 | after disabling, the flag reads false except detailed logging in development and rate limiting in production |
| FeatureFlagManager.OtherFlagsUnchanged | backend/src/config/FeatureFlagManager.ts:65-75 | writing one flag's variable never changes another flag |
| FeatureFlagManager.FeatureFlagManager.constructor | backend/src/config/FeatureFlagManager.ts:16 | the manager reads the given environment |
| FeatureFlagManager.FeatureFlagManager.EnableFeature | backend/src/config/FeatureFlagManager.ts:35-38 | writes "true" to the flag's variable; the flag is on and no other flag changes |
| FeatureFlagManager.FeatureFlagManager.DisableFeature | backend/src/config/FeatureFlagManager.ts:40-43 | writes "false"; the flag is off unless the environment forces it on; no other flag changes |
| ConfigurationValidator.MessageList.constructor | backend/src/config/ConfigurationValidator.ts:32-33 | a message list starts empty |
| ConfigurationValidator.MessageList.Push | backend/src/config/ConfigurationValidator.ts:49 | `push` appends the message at the end and keeps the rest |
| ConfigurationValidator.MessageList.PushIf | backend/src/config/ConfigurationValidator.ts:48-54 | a guarded `push` appends the message exactly when its condition holds |
| ConfigurationValidator.ApplicationErrors | backend/src/config/ConfigurationValidator.ts:47-55 | one error for a missing key and one for a missing base directory, exactly when each is empty |
| ConfigurationValidator.TranscriptionErrors | backend/src/config/ConfigurationValidator.ts:57-74 | an error exactly for Hugging Face or Gemini without a key, naming the provider |
| ConfigurationValidator.AIWarnings | backend/src/config/ConfigurationValidator.ts:76-94 | a warning exactly for a non-zero token limit outside 100..32768 |
| ConfigurationValidator.EnvironmentWarnings | backend/src/config/ConfigurationValidator.ts:103-119 | nothing outside production; in production one warning each for detailed logging on and for rate limiting off |
| ConfigurationValidator.ValidateApplicationConfig | backend/src/config/ConfigurationValidator.ts:47-55 | pushes exactly the application errors onto the list |
| ConfigurationValidator.ValidateTranscriptionConfig | backend/src/config/ConfigurationValidator.ts:57-64 | pushes exactly the transcription errors |
| ConfigurationValidator.ValidateAIConfig | backend/src/config/ConfigurationValidator.ts:76-88 | pushes exactly the token warning |
| ConfigurationValidator.ValidateEnvironmentSpecificSettings | backend/src/config/ConfigurationValidator.ts:103-107 | pushes exactly the production warnings |
| ConfigurationValidator.ValidateCompleteConfiguration | backend/src/config/ConfigurationValidator.ts:27-45 | errors and warnings in the source's order; valid exactly when there is no error, whatever the warnings |
| ConfigurationValidator.BuiltApplicationConfigHasNoErrors | backend/src/config/ConfigurationValidator.ts:47-55 | a configuration the builder accepts has no application error |
| ConfigurationValidator.ProductionWarnings | backend/src/config/ConfigurationValidator.ts:109-119 | in production the rate-limiting warning never fires; only detailed logging set to "true" warns |
| ConfigurationValidator.DefaultMaxTokensNeverWarns | backend/src/config/ConfigurationValidator.ts:90-94 | the default token limit never warns |
| ConfigurationValidator.DefaultProviderKeyErrors | backend/src/config/ConfigurationValidator.ts:66-74 | without an explicit provider, a key error arises exactly for high-accuracy without a Hugging Face key |
| EnvironmentConfig.NodeEnvironment | backend/src/config/EnvironmentConfigLoader.ts:16-22 | NODE_ENV when it is set and non-empty, else "development" |
| ProviderRegistry.GeminiFactory | backend/src/services/transcription-providers/ProviderRegistry.ts:133-138 | Mock without a key, else the Gemini provider with key and model |
| ProviderRegistry.ConstructorArgs | backend/src/services/transcription-providers/ProviderRegistry.ts:170-178 | (key, model), (key) or no arguments, each exactly under its condition |
| ProviderRegistry.Attempt | backend/src/services/transcription-providers/ProviderRegistry.ts:183-186 | the construction, or Mock when it throws |
| ProviderRegistry.CreateAsWritten | backend/src/services/transcription-providers/ProviderRegistry.ts:158-187 | an unknown provider gives Mock (the rest follows the inherited-constructor test as written) |
| ProviderRegistry.Create | backend/src/services/transcription-providers/ProviderRegistry.ts:158-187 | unknown gives Mock; a factory wins over a constructor; the constructor gets its arguments; an exception gives Mock; an entry with neither gives Mock |
| ProviderRegistry.AsWrittenAgreesWithOwnConstructor | backend/src/services/transcription-providers/ProviderRegistry.ts:158-187 | as written and corrected agree whenever every entry has a factory or its own constructor |
| ProviderRegistry.AsWrittenBuildsPlainObject | backend/src/services/transcription-providers/ProviderRegistry.ts:158-187 | an entry with neither builds a plain Object as written, Mock when corrected |
| ProviderRegistry.GeminiWithoutKeyIsMock | backend/src/services/transcription-providers/ProviderRegistry.ts:133-138 | the default table gives Mock for Gemini without a key |
| ProviderRegistry.HuggingFaceGetsKeyAndModel | backend/src/services/transcription-providers/ProviderRegistry.ts:170-178 | Hugging Face with key and model is built with both |
| ProviderRegistry.KeylessProvidersGetNoArguments | backend/src/services/transcription-providers/ProviderRegistry.ts:170-178 | providers that need no key are built without arguments |
| ProviderRegistry.AvailableProviders | backend/src/services/transcription-providers/ProviderRegistry.ts:192-196 | exactly the listed providers marked available |
| ProviderRegistry.Description | backend/src/services/transcription-providers/ProviderRegistry.ts:251-253 | the entry's description, "Unknown provider" for an absent key, never empty |
| ProviderRegistry.Info | backend/src/services/transcription-providers/ProviderRegistry.ts:208-222 | null exactly for an unknown provider; otherwise every field of the record (name, description, API-key and model support, formats, maximum size, availability, metadata) is the entry's |
| ProviderRegistry.AvailableAllButLast | backend/src/services/transcription-providers/ProviderRegistry.ts:192-196 | when every listed provider but the last is available, exactly those are offered, in order |
| ProviderRegistry.DefaultNamesDistinct | backend/src/services/transcription-providers/ProviderRegistry.ts:50-153 | the five built-in names are distinct |
| ProviderRegistry.DefaultAvailableProviders | backend/src/services/transcription-providers/ProviderRegistry.ts:192-203 | the default table offers every provider but Gemini |
| ProviderRegistry.ProviderRegistry.constructor | backend/src/services/transcription-providers/ProviderRegistry.ts:50-153 | the registry starts with the default table in its order |
| ProviderRegistry.ProviderRegistry.CreateProvider | backend/src/services/transcription-providers/ProviderRegistry.ts:168-182 | the corrected createProvider of the Findings row (as written, an entry with neither a factory nor its own constructor builds a plain object): an unregistered name, or such an entry, gives the mock provider; an entry's factory is called with the configuration |
| ProviderRegistry.ProviderRegistry.GetProviderInfo | backend/src/services/transcription-providers/ProviderRegistry.ts:208-222 | null exactly for an unregistered name, otherwise the entry's full record |
| ProviderRegistry.ProviderRegistry.GetAllProviderInfo | backend/src/services/transcription-providers/ProviderRegistry.ts:227-238 | one info entry per registered provider, in order |
| ProviderRegistry.ProviderRegistry.RegisterProvider | backend/src/services/transcription-providers/ProviderRegistry.ts:243-246 | inserts or overwrites one entry, a new name goes last, every other entry unchanged |
| TextFileProcessorService.ExtractTextFromBuffer | backend/src/services/TextFileProcessorService.ts:50-71 | the UTF-8 text when it has no U+FFFD, else the Latin-1 text |
| TextFileProcessorService.ProcessTextFile | backend/src/services/TextFileProcessorService.ts:5-48 | succeeds exactly for non-blank text, with the trimmed text, TEXT and "direct_text_extraction"; otherwise the prefixed "No readable text" error |
| TextFileProcessorService.CountWhere | backend/src/services/TextFileProcessorService.ts:94-109 | a count never exceeds the length |
| TextFileProcessorService.SplitRunsOfTrimmedHasNoEmpty | backend/src/services/TextFileProcessorService.ts:83-91 | splitting trimmed text on whitespace runs gives no empty word |
| TextFileProcessorService.SkipRunOfAllSeparators | backend/src/services/TextFileProcessorService.ts:83-91 | a string a whitespace run consumes entirely is all whitespace |
| TextFileProcessorService.NonEmptyKeepsAll | backend/src/services/TextFileProcessorService.ts:83-91 | filtering empty words from a list without any keeps it |
| TextFileProcessorService.NaturalTextHasThreeWords | backend/src/services/TextFileProcessorService.ts:83-91 | text judged natural has at least three words |
| TextFileProcessorService.CountAll | backend/src/services/TextFileProcessorService.ts:94-109 | counting a property every character has counts them all |
| TextFileProcessorService.SpecialCharactersAreNotNatural | backend/src/services/TextFileProcessorService.ts:94-109 | text made only of special characters is never natural |
| AudioTranscriptionService.RoundedMiB | backend/src/services/AudioTranscriptionService.ts:72-93 | the size in MiB rounded to the nearest whole |
| AudioTranscriptionService.GetFileExtension | backend/src/services/AudioTranscriptionService.ts:95-98 | "" without a '.'; otherwise the lower-cased tail of the name from its last '.', a '.' followed by no other '.' |
| AudioTranscriptionService.AudioFormat | backend/src/services/AudioTranscriptionService.ts:82-87 | the lower-cased text after the last dot, or "" |
| AudioTranscriptionService.DotlessExtension | backend/src/services/AudioTranscriptionService.ts:82-87 | stripping the dot from the extension gives that text |
| AudioTranscriptionService.ValidateAudioFile | backend/src/services/AudioTranscriptionService.ts:72-93 | valid exactly for a size within 1024..max and a supported format; too large, then format, then too small |
| AudioTranscriptionService.TranscribeAudioFile | backend/src/services/AudioTranscriptionService.ts:18-70 | succeeds exactly when valid, ready and the provider succeeds; every failure carries the "Failed to transcribe audio file: " prefix |
| AudioTranscriptionService.ProviderCalledOnlyWhenValid | backend/src/services/AudioTranscriptionService.ts:28-36 | on an invalid file or an unready provider the provider's answer is never used |
| AudioTranscriptionService.FormatIgnoresCase | backend/src/services/AudioTranscriptionService.ts:82-87 | the format does not depend on the name's case |
| AudioFile.TimestampPart | backend/src/domain/AudioFile.ts:82-88 | the timestamp, same length, without ':' or '.' |
| AudioFile.AudioFile.GetFileExtension | backend/src/domain/AudioFile.ts:49-52 | "" exactly without a dot; else the case-preserved tail from the last dot |
| AudioFile.AudioFile.BaseName | backend/src/domain/AudioFile.ts:82-88 | the name is its base followed by its extension |
| AudioFile.AudioFile.GenerateUniqueFilename | backend/src/domain/AudioFile.ts:82-88 | base, '-', timestamp, extension; the new name keeps the extension |
| AudioFile.UniqueNameKeepsExtension | backend/src/domain/AudioFile.ts:82-88 | the generated name has the original extension |
| AudioFile.ExampleExtension | backend/src/domain/AudioFile.ts:49-52 | "a.wav_x.wav" has extension ".wav" |
| AudioFile.ExampleFirstOccurrence | backend/src/domain/AudioFile.ts:82-88 | in "a.wav_x.wav" the first ".wav" is at index 1 |
| AudioFile.PlainTimestamp | backend/src/domain/AudioFile.ts:84-85 | a timestamp without ':' or '.' is kept as it is |
| AudioFile.ExampleCut | backend/src/domain/AudioFile.ts:86 | replacing ".wav" in "a.wav_x.wav" cuts the first occurrence, leaving "a_x.wav" |
| AudioFile.AsWrittenParts | backend/src/domain/AudioFile.ts:82-88 | the written name is the cut name, '-', the timestamp and the extension |
| AudioFile.ExampleAsWritten | backend/src/domain/AudioFile.ts:82-88 | as written, "a.wav_x.wav" with timestamp "T" becomes "a_x.wav" + "-T" + ".wav" |
| AudioFile.ExampleBase | backend/src/domain/AudioFile.ts:82-88 | the base name of "a.wav_x.wav" is "a.wav_x" |
| AudioFile.ExampleIntended | backend/src/domain/AudioFile.ts:82-88 | corrected, it becomes "a.wav_x" + "-T" + ".wav" |
| AudioFile.AsWrittenCutsFirstOccurrence | backend/src/domain/AudioFile.ts:82-88 | for every name whose extension first occurs earlier, not followed there by a '.', the as-written and corrected names differ |
| AudioFile.FirstCutDiffers | backend/src/domain/AudioFile.ts:82-88 | cutting an earlier occurrence changes the character at its place, so the two names differ |
| AudioFile.ExampleShowsDiscrepancy | backend/src/domain/AudioFile.ts:82-88 | the as-written and corrected names differ on "a.wav_x.wav" |
| AudioFile.AsWrittenAgreesOnSingleOccurrence | backend/src/domain/AudioFile.ts:82-88 | when the extension occurs only at the end both agree |
| AudioFile.FromMulterFile | backend/src/domain/AudioFile.ts:90-106 | empty, then unlisted MIME, then over 100 MiB, each with its error; otherwise a valid AudioFile with the upload's fields |
| AudioFile.FromMulterFileOfValid | backend/src/domain/AudioFile.ts:29-31 | every valid AudioFile round-trips through the upload constructor |
| AudioFile.SizeLimitIsInclusive | backend/src/domain/AudioFile.ts:62-64 | exactly 100 MiB is accepted and one byte more is refused |
| ProcessingResult.ProcessingResult.CreateProcessingSummary | backend/src/domain/ProcessingResult.ts:64-73 | the text's length, word count and 200-character preview, the result's file type and method, and whether the text is an action item |
| ProcessingResult.ProcessingResult.GetProviderFromMethod | backend/src/domain/ProcessingResult.ts:75-79 | "" without '_', else everything before the last '_' |
| ProcessingResult.Create | backend/src/domain/ProcessingResult.ts:15-22 | succeeds exactly as TranscriptText does, with the trimmed text and the given type and method; fails with its error |
| ProcessingResult.CreatedIsSuccessful | backend/src/domain/ProcessingResult.ts:44-46 | every created result is successful |
| ProcessingResult.AudioAndTextExclusive | backend/src/domain/ProcessingResult.ts:48-54 | never both audio and text processing |
| ProcessingResult.JoinLast | backend/src/domain/ProcessingResult.ts:75-79 | joining peels off the last part |
| ProcessingResult.ContainsUnderscore | backend/src/domain/ProcessingResult.ts:75-79 | includes("_") is membership of '_' |
| ProcessingResult.LastUnderscore | backend/src/domain/ProcessingResult.ts:75-79 | the last '_' is the one before an underscore-free tail |
| ProcessingResult.LastIndexOfAfter | backend/src/domain/ProcessingResult.ts:75-79 | a tail without the character does not move its last index |
| ProcessingResult.DropLastPart | backend/src/domain/ProcessingResult.ts:75-79 | joining all parts but the last of an underscore split gives the text before the last '_' |
| ProcessingResult.SplitHasTwoParts | backend/src/domain/ProcessingResult.ts:75-79 | a method with '_' splits into at least two parts |
| ProcessingResult.ProviderIsPrefix | backend/src/domain/ProcessingResult.ts:75-79 | split, drop the last part, join is the prefix before the last '_' |
| ProcessingResult.ProviderOfWebserviceMethod | backend/src/domain/ProcessingResult.ts:75-79 | "openai_whisper_webservice_auto-detected" names provider "openai_whisper_webservice" |
| ProcessingResult.ProviderOfMethodProcessed | backend/src/domain/ProcessingResult.ts:75-83 | every result was processed by the provider read off its own method |
| FileProcessorService.ProcessFile | backend/src/services/FileProcessorService.ts:14-69 | size first, then dispatch on type; unknown type fails; success exactly when the chosen processor succeeds with non-blank text |
| FileProcessorService.TextPathNeverEmpty | backend/src/services/FileProcessorService.ts:50-52 | text-file output is never blank, so that path never reaches "No usable content" |
| FileProcessorService.ValidateFileBeforeProcessing | backend/src/services/FileProcessorService.ts:84-118 | valid exactly for at most 50 MiB, a known type and audio at most 25 MiB; each refusal with its message |
| FileProcessorService.PrecheckedFilePassesGuards | backend/src/services/FileProcessorService.ts:84-118 | a pre-checked file passes processFile's size guard and has a known type |
| ScribelyRecordingUseCase.StartStep | android/app/src/main/java/com/karaskiewicz/scribely/domain/usecase/RecordingUseCase.kt:38-69 | Recording with the new recorder and file on success, Idle with the prefixed error on failure |
| ScribelyRecordingUseCase.PauseStep | android/app/src/main/java/com/karaskiewicz/scribely/domain/usecase/RecordingUseCase.kt:74-89 | succeeds only from Recording, to Paused with the same recorder and file; any error leaves the state unchanged |
| ScribelyRecordingUseCase.ResumeStep | android/app/src/main/java/com/karaskiewicz/scribely/domain/usecase/RecordingUseCase.kt:94-109 | succeeds only from Paused, back to Recording; any error leaves the state unchanged |
| ScribelyRecordingUseCase.FinishStep | android/app/src/main/java/com/karaskiewicz/scribely/domain/usecase/RecordingUseCase.kt:114-170 | from Recording or Paused: Finished with the recorded file exactly when release and the wait do not throw and the file exists and is non-empty, else Idle with that error; a stop() that throws is ignored; from Idle or Finished, unchanged with an error |
| ScribelyRecordingUseCase.UploadStep | android/app/src/main/java/com/karaskiewicz/scribely/domain/usecase/RecordingUseCase.kt:176-223 | only from Finished; back to Idle exactly on UploadSuccess; the upload copy is always deleted once made, the recording only on success |
| ScribelyRecordingUseCase.PauseThenResume | android/app/src/main/java/com/karaskiewicz/scribely/domain/usecase/RecordingUseCase.kt:74-109 | pause then resume gives back the same recording |
| ScribelyRecordingUseCase.PauseResumeKeepSession | android/app/src/main/java/com/karaskiewicz/scribely/domain/usecase/RecordingUseCase.kt:74-109 | any run of pauses and resumes stays Recording or Paused with the same recorder and file |
| ScribelyRecordingUseCase.FinishedFileIsStartedFile | android/app/src/main/java/com/karaskiewicz/scribely/domain/usecase/RecordingUseCase.kt:38-170 | a successful finish after start and any pauses and resumes holds the started file |
| ScribelyRecordingUseCase.RecordingUseCase.constructor | android/app/src/main/java/com/karaskiewicz/scribely/domain/usecase/RecordingUseCase.kt:23-33 | starts Idle with nothing deleted |
| ScribelyRecordingUseCase.RecordingUseCase.ResetRecording | android/app/src/main/java/com/karaskiewicz/scribely/domain/usecase/RecordingUseCase.kt:228-251 | always ends Idle |
| ScribelyRecordingUseCase.RecordingUseCase.StartRecording | android/app/src/main/java/com/karaskiewicz/scribely/domain/usecase/RecordingUseCase.kt:38-69 | the new state and result are StartStep's |
| ScribelyRecordingUseCase.RecordingUseCase.PauseRecording | android/app/src/main/java/com/karaskiewicz/scribely/domain/usecase/RecordingUseCase.kt:74-89 | the new state and result are PauseStep's |
| ScribelyRecordingUseCase.RecordingUseCase.ResumeRecording | android/app/src/main/java/com/karaskiewicz/scribely/domain/usecase/RecordingUseCase.kt:94-109 | the new state and result are ResumeStep's |
| ScribelyRecordingUseCase.RecordingUseCase.FinishRecording | android/app/src/main/java/com/karaskiewicz/scribely/domain/usecase/RecordingUseCase.kt:114-170 | the new state and result are FinishStep's |
| ScribelyRecordingUseCase.RecordingUseCase.UploadRecording | android/app/src/main/java/com/karaskiewicz/scribely/domain/usecase/RecordingUseCase.kt:176-223 | the new state, result and deletions are UploadStep's |
| RecordingDurationTracker.ElapsedIsRecordedTime | android/app/src/main/java/com/karaskiewicz/scribely/utils/RecordingDurationTracker.kt:61-73 | now − start − accumulated pauses is exactly the sum of the recorded stretches |
| RecordingDurationTracker.PausedTotalAppend | android/app/src/main/java/com/karaskiewicz/scribely/utils/RecordingDurationTracker.kt:42-44 | a resumed pause adds its length to the paused total |
| RecordingDurationTracker.RecordedTimeBounds | android/app/src/main/java/com/karaskiewicz/scribely/utils/RecordingDurationTracker.kt:61-73 | with ordered pauses the recorded time lies between 0 and the wall time |
| RecordingDurationTracker.RecordingDurationTracker.constructor | android/app/src/main/java/com/karaskiewicz/scribely/utils/RecordingDurationTracker.kt:15-20 | every field starts at zero, with no pauses resumed yet |
| RecordingDurationTracker.RecordingDurationTracker.Start | android/app/src/main/java/com/karaskiewicz/scribely/utils/RecordingDurationTracker.kt:25-30 | start time is now; paused time, last pause and duration zero; the pause history is cleared, so the paused time is what it adds up to |
| RecordingDurationTracker.RecordingDurationTracker.Pause | android/app/src/main/java/com/karaskiewicz/scribely/utils/RecordingDurationTracker.kt:35-37 | records the pause time and changes nothing else, so the paused time still adds up the resumed pauses |
| RecordingDurationTracker.RecordingDurationTracker.Resume | android/app/src/main/java/com/karaskiewicz/scribely/utils/RecordingDurationTracker.kt:42-44 | adds now − last pause to the paused time and changes nothing else; the span from the last pause to now joins the pause history, which the paused time keeps adding up |
| RecordingDurationTracker.RecordingDurationTracker.Reset | android/app/src/main/java/com/karaskiewicz/scribely/utils/RecordingDurationTracker.kt:49-54 | every field back to zero, with the pause history cleared |
| RecordingDurationTracker.RecordingDurationTracker.Tick | android/app/src/main/java/com/karaskiewicz/scribely/utils/RecordingDurationTracker.kt:67-69 | the duration becomes now − start − paused time, the time fields unchanged; after any run of start, pause and resume calls that is the time spent recording, the stretches between the start, the pauses and now added up |
| RecordingDurationTracker.RecordingDurationTracker.StartDurationTimer | android/app/src/main/java/com/karaskiewicz/scribely/utils/RecordingDurationTracker.kt:61-73 | publishes the elapsed time at each clock reading, in order, each the time spent recording up to that reading; with no pass the duration stays as it was |
| RecordingDurationTracker.RecordingDurationTracker.GetCurrentDuration | android/app/src/main/java/com/karaskiewicz/scribely/utils/RecordingDurationTracker.kt:78 | the published duration |
| DurationFormatter.TruncDiv | android/app/src/main/java/com/karaskiewicz/scribely/ui/utils/DurationFormatter.kt:11-16 | Kotlin's division: floor for non-negatives, rounded toward zero for negatives |
| DurationFormatter.TruncRem | android/app/src/main/java/com/karaskiewicz/scribely/ui/utils/DurationFormatter.kt:11-16 | the remainder with the dividend's sign, completing the division |
| DurationFormatter.Format02 | android/app/src/main/java/com/karaskiewicz/scribely/ui/utils/DurationFormatter.kt:11-16 | at least two characters; digits reading back the value for non-negatives, exactly two below 100; "-" and digits for negatives |
| DurationFormatter.LeadingZero | android/app/src/main/java/com/karaskiewicz/scribely/ui/utils/DurationFormatter.kt:11-16 | a leading zero does not change a digit string's value |
| DurationFormatter.FormatDuration | android/app/src/main/java/com/karaskiewicz/scribely/ui/utils/DurationFormatter.kt:11-16 | always holds a ':'; for ms ≥ 0 at least five characters with the ':' third from the end |
| DurationFormatter.FormatDurationReadsBack | android/app/src/main/java/com/karaskiewicz/scribely/ui/utils/DurationFormatter.kt:11-16 | for ms ≥ 0 the text is "MM:SS" with at least two minute digits and seconds 00..59, reading back as ms/1000 seconds |
| DurationFormatter.SameSecondSameText | android/app/src/main/java/com/karaskiewicz/scribely/ui/utils/DurationFormatter.kt:12 | every instant of the same second reads the same |
| DurationFormatter.AnHourIsSixtyMinutes | android/app/src/main/java/com/karaskiewicz/scribely/ui/utils/DurationFormatter.kt:11-16 | an hour reads "60:00": minutes are not capped |
| DurationFormatter.NegativeDurationSignsBothFields | android/app/src/main/java/com/karaskiewicz/scribely/ui/utils/DurationFormatter.kt:11-16 | −61000 ms reads "-1:-1" |
| AudioaiRecordingUseCase.CombineAudioSegments | android/app/src/main/java/com/karaskiewicz/audioai/domain/usecase/RecordingUseCase.kt:210-215 | the first segment, or null exactly when there are none |
| AudioaiRecordingUseCase.StartStep | android/app/src/main/java/com/karaskiewicz/audioai/domain/usecase/RecordingUseCase.kt:32-72 | success leaves the recorder, the file as the only segment and no final file; failure clears everything |
| AudioaiRecordingUseCase.PauseStep | android/app/src/main/java/com/karaskiewicz/audioai/domain/usecase/RecordingUseCase.kt:77-90 | succeeds, dropping the recorder, unless a present recorder fails to stop; then unchanged |
| AudioaiRecordingUseCase.ResumeStep | android/app/src/main/java/com/karaskiewicz/audioai/domain/usecase/RecordingUseCase.kt:95-115 | success appends exactly one segment and stores the recorder; a failure after creating the recorder keeps it |
| AudioaiRecordingUseCase.FinishStep | android/app/src/main/java/com/karaskiewicz/audioai/domain/usecase/RecordingUseCase.kt:120-160 | the recorder is always dropped; the final file is the combined segments; no segments, missing or empty file each fail with their message |
| AudioaiRecordingUseCase.UploadStep | android/app/src/main/java/com/karaskiewicz/audioai/domain/usecase/RecordingUseCase.kt:165-181 | with an existing final file, the repository's answer, segments and final file cleared and deleted; otherwise an error and no change |
| AudioaiRecordingUseCase.ResetStep | android/app/src/main/java/com/karaskiewicz/audioai/domain/usecase/RecordingUseCase.kt:186-191 | everything cleared and every segment deleted |
| AudioaiRecordingUseCase.StepsKeepValid | android/app/src/main/java/com/karaskiewicz/audioai/domain/usecase/RecordingUseCase.kt:24-27 | every operation keeps the final file equal to the first segment whenever it is set |
| AudioaiRecordingUseCase.PauseResumeExtendSegments | android/app/src/main/java/com/karaskiewicz/audioai/domain/usecase/RecordingUseCase.kt:77-115 | pauses and resumes only append segments and never set a final file |
| AudioaiRecordingUseCase.FinalRecordingIsFirstFile | android/app/src/main/java/com/karaskiewicz/audioai/domain/usecase/RecordingUseCase.kt:120-160 | after start and any pauses and resumes, finish picks the started file unless stopping fails |
| AudioaiRecordingUseCase.UploadAttemptClears | android/app/src/main/java/com/karaskiewicz/audioai/domain/usecase/RecordingUseCase.kt:165-181 | any upload attempt with a final file empties the segments, clears the final file and deletes it |
| AudioaiRecordingUseCase.RecordingUseCase.constructor | android/app/src/main/java/com/karaskiewicz/audioai/domain/usecase/RecordingUseCase.kt:24-27 | no recorder, file, segments or final file |
| AudioaiRecordingUseCase.RecordingUseCase.CleanupRecorder | android/app/src/main/java/com/karaskiewicz/audioai/domain/usecase/RecordingUseCase.kt:193-203 | only the recorder is cleared |
| AudioaiRecordingUseCase.RecordingUseCase.CleanupSegments | android/app/src/main/java/com/karaskiewicz/audioai/domain/usecase/RecordingUseCase.kt:205-208 | the loop deletes every segment in order and empties the list |
| AudioaiRecordingUseCase.RecordingUseCase.StartRecording | android/app/src/main/java/com/karaskiewicz/audioai/domain/usecase/RecordingUseCase.kt:32-72 | fields and result are StartStep's; the invariant holds |
| AudioaiRecordingUseCase.RecordingUseCase.PauseRecording | android/app/src/main/java/com/karaskiewicz/audioai/domain/usecase/RecordingUseCase.kt:77-90 | fields and result are PauseStep's |
| AudioaiRecordingUseCase.RecordingUseCase.ResumeRecording | android/app/src/main/java/com/karaskiewicz/audioai/domain/usecase/RecordingUseCase.kt:95-115 | fields and result are ResumeStep's |
| AudioaiRecordingUseCase.RecordingUseCase.FinishRecording | android/app/src/main/java/com/karaskiewicz/audioai/domain/usecase/RecordingUseCase.kt:120-160 | fields and result are FinishStep's |
| AudioaiRecordingUseCase.RecordingUseCase.UploadRecording | android/app/src/main/java/com/karaskiewicz/audioai/domain/usecase/RecordingUseCase.kt:165-181 | fields, result and deletions are UploadStep's |
| AudioaiRecordingUseCase.RecordingUseCase.ResetRecording | android/app/src/main/java/com/karaskiewicz/audioai/domain/usecase/RecordingUseCase.kt:186-191 | fields and deletions are ResetStep's |

## Where the code and its description differ

- **The code is followed: audioai upload cleanup.** The description says every upload attempt clears the segments and the final file. In the code, that cleanup runs only when a final file exists and is still on disk. Otherwise upload returns an error and changes nothing.
- **Unreachable branches, kept and shown unreachable.**
  - The production warning for rate limiting off (`ConfigurationValidator.ProductionWarnings`): in production the flag is always on.
  - The ASCII fallback after Latin-1 decoding: Latin-1 never fails, so `ExtractTextFromBuffer` takes only the other two paths.
  - The audioai "Failed to process recording segments" error: `combineAudioSegments` returns null only when there are no segments, which is checked first.

## Left out

- **I/O and the outside world.**
  - File-system writes, logging and HTTP responses are left out.
  - The language model and transcription providers appear only as their answers (parameters).
  - `Date` and `System.currentTimeMillis()` are parameters.
  - What a `Buffer` decodes to (UTF-8, Latin-1) is a parameter too.
- **The transcription providers themselves.** This covers the provider classes, `whisper-service.py`, `ProviderFactory.ts` and `ProviderDefinitions.ts`. They are network, subprocess and file clients, and the factory duplicates the registry. Only the registry is modelled.
- **Floating point.**
  - Temperature parsing and checks, `AudioFile.getSizeInMB` and the MiB figures in log lines are left out.
  - The 80%, 40% and 20% ratios are exact integer comparisons. For the sample sizes involved they decide like the doubles.
- **JavaScript and Kotlin details.**
  - `toLowerCase` is modelled on ASCII letters only.
  - A Dafny `char` is a Unicode scalar value, while a JavaScript string is a sequence of UTF-16 code units. A character outside the Basic Multilingual Plane is one element here and two code units in JavaScript, so `.length`, the 10000-character limits and `createPreview`'s `substring` count it differently. A lone surrogate cannot be represented at all. No normalisation is modelled.
  - `parseInt` reads an optional sign and decimal digits after leading whitespace. Hexadecimal prefixes are not modelled.
  - Regular expressions are written out as the string functions they compute.
  - `path.join` is modelled as `path.posix.join`. Windows path semantics (backslashes, drive letters) are not modelled.
  - Object keys that collide with `Object.prototype` names are not modelled.
- **PromptEngine.ProcessTemplate:** the placeholder `{{key}}` is searched for literally. The source builds a regular expression from it. In that expression the braces of `{{key}}` match themselves, so both agree for every key made of letters, digits and '_'. A key holding other regular-expression characters is not modelled.
- **AIService.MetadataBlockFrom:** its own contract states only what a found block looks like. That a block is found is stated for the whole search by `AIService.MetadataBlockOfFenced`.
- **PosixPath.PathJoin** and **PosixPath.Normalize:** their own contracts say only that the result is not empty. The exact result is proved for plain relative paths, an empty second argument and a leading "../". Absolute paths, "." segments and a trailing "/" are modelled but no lemma states their result.
- **RecordingDurationTracker.RecordingDurationTracker.StartDurationTimer:** does not model the coroutine or the one-second delay. The activity check is the length of the clock readings. A pause or resume interleaved with a running timer is not modelled.
- **DurationFormatter:** does not model `Long` wrap-around. Durations are unbounded integers.
- **ScribelyRecordingUseCase.RecordingUseCase.StartRecording:** does not model the reset's stop and release of the old recorder. The recorder is an identity and its failures are a parameter.
- **ScribelyRecordingUseCase.RecordingUseCase.UploadRecording:** does not model an exception from `createUploadFile`. The upload copy is a parameter.
- **AudioaiRecordingUseCase.RecordingUseCase.StartRecording:** does not model the old recorder being overwritten without a release, or earlier segment files being dropped without deletion. Both show only as state.
- **MediaRecorder, the audio composer and the file manager.** Their calls are represented by their failure messages and by the files they report.
- **The registry's static map.** `ProviderRegistry` is modelled as an instance, constructed with the default table.
- **audioai result types.** The audioai `RecordingResult` and `UploadResult` types are not part of this model. Their uses match the scribely types in `scribely/domain/model/RecordingResult.kt`, which are used for both.
- **Wiring and UI.** Express wiring, controllers, Compose UI, view models, dependency injection, repositories and the prompt constant files are left out.

## Findings

| source | as written | input that shows it | evidently intended | confidence | as-written member | corrected member |
|---|---|---|---|---|---|---|
| backend/src/services/transcription-providers/ProviderRegistry.ts:168-182 | `entry.constructor` is tested for truthiness, but every object literal inherits `Object` as its constructor, so an entry with neither factory nor own constructor builds `new Object()` | an entry `{ name: "custom", requiresApiKey: false, supportsModels: false, isAvailable: true }` with no factory and no constructor | fall back to the Mock provider, as for an unknown name | high; not executed | ProviderRegistry.CreateAsWritten (shown by ProviderRegistry.AsWrittenBuildsPlainObject) | ProviderRegistry.Create |
| backend/src/domain/AudioFile.ts:82-88 | `originalName.replace(extension, '')` removes the first occurrence of the extension, not the trailing one | originalName "a.wav_x.wav", timestamp "T" gives "a_x.wav-T.wav" | "a.wav_x-T.wav": base name without its final extension | high; not executed | AudioFile.AudioFile.GenerateUniqueFilenameAsWritten (shown by AudioFile.AsWrittenCutsFirstOccurrence) | AudioFile.AudioFile.GenerateUniqueFilename |
