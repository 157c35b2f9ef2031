/// Prompt listing and template linting (backend/src/config/prompts/PromptUtils.ts).
module PromptUtils {
  import opened JsCore
  import opened PromptEngine

  const UnmatchedBrackets := "Unmatched template brackets {{}}"
  const EmptyPlaceholders := "Empty variable placeholders found"
  const TooShort := "Template seems too short to be useful"
  const TooLong := "Template is very long and may hit token limits"

  /** Templates shorter than this are reported. */
  const MinTemplateLength: nat := 50
  /** Templates longer than this are reported. */
  const MaxTemplateLength: nat := 10000

  datatype PromptKind = Base | Commentary

  datatype PromptInfo = PromptInfo(
    name: string,
    kind: PromptKind,
    description: string,
    version: string,
    variables: seq<string>)

  /** The prompt registry: the base prompt and the commentary prompts in declaration order. */
  datatype ContentTypePrompts = ContentTypePrompts(
    base: PromptConfig,
    commentary: seq<(string, PromptConfig)>)

  datatype Validation = Validation(valid: bool, issues: seq<string>)

  function InfoOf(prompt: PromptConfig, kind: PromptKind): PromptInfo {
    PromptInfo(prompt.name, kind, prompt.description, prompt.version, prompt.variables)
  }

  /** The base entry first, then one commentary entry per registered commentary prompt. */
  method GetPromptInfo(prompts: ContentTypePrompts) returns (info: seq<PromptInfo>)
    ensures |info| == 1 + |prompts.commentary|
    ensures info[0] == InfoOf(prompts.base, Base)
    ensures forall k :: 0 <= k < |prompts.commentary| ==>
              info[k + 1] == InfoOf(prompts.commentary[k].1, Commentary)
  {
    info := [PromptInfo(prompts.base.name, Base, prompts.base.description,
                        prompts.base.version, prompts.base.variables)];
    var k := 0;
    while k < |prompts.commentary|
      invariant 0 <= k <= |prompts.commentary|
      invariant |info| == 1 + k
      invariant info[0] == InfoOf(prompts.base, Base)
      invariant forall j :: 0 <= j < k ==> info[j + 1] == InfoOf(prompts.commentary[j].1, Commentary)
    {
      var prompt := prompts.commentary[k].1;
      info := info + [PromptInfo(prompt.name, Commentary, prompt.description,
                                 prompt.version, prompt.variables)];
      k := k + 1;
    }
  }

  /** The number of matches of the literal `p` found by a global search: left to right,
      without overlaps. */
  function CountMatches(s: string, p: string): nat
    requires p != []
    decreases |s|
  {
    if s == [] then 0
    else if StartsWith(s, p) then 1 + CountMatches(s[|p|..], p)
    else CountMatches(s[1..], p)
  }

  lemma {:induction false} CountMatchesAbsent(s: string, p: string)
    requires p != [] && !Contains(s, p)
    ensures CountMatches(s, p) == 0
    decreases |s|
  {
    if s != [] {
      if StartsWith(s, p) {
        ContainsAt(s, p, 0);
      }
      SuffixKeepsAbsence(s, 1, p);
      CountMatchesAbsent(s[1..], p);
    }
  }

  /** Some "{{" is followed, after nothing but whitespace, by "}}". */
  predicate HasEmptyPlaceholder(s: string) {
    exists i, j :: 0 <= i && i + 2 <= j <= |s| && OccursAt(s, "{{", i) && OccursAt(s, "}}", j)
                   && IsBlank(s[i + 2..j])
  }

  /** The position of each issue in the report. */
  function IssueRank(issue: string): nat {
    if issue == UnmatchedBrackets then 0
    else if issue == EmptyPlaceholders then 1
    else if issue == TooShort then 2
    else 3
  }

  /** The four issue texts are distinct, and ranked in the order they are reported. */
  lemma IssueRanks()
    ensures IssueRank(UnmatchedBrackets) == 0 && IssueRank(EmptyPlaceholders) == 1
    ensures IssueRank(TooShort) == 2 && IssueRank(TooLong) == 3
  {
    assert |UnmatchedBrackets| != |EmptyPlaceholders|;
    assert |TooShort| != |UnmatchedBrackets| && |TooShort| != |EmptyPlaceholders|;
    assert |TooLong| != |UnmatchedBrackets| && |TooLong| != |EmptyPlaceholders|;
    assert |TooLong| != |TooShort|;
  }

  /** The report for the four conditions: each issue present when its condition holds, in
      the order the checks run. */
  function IssuesFor(unmatched: bool, emptyPlaceholder: bool, short: bool, long: bool): seq<string> {
    (if unmatched then [UnmatchedBrackets] else [])
    + (if emptyPlaceholder then [EmptyPlaceholders] else [])
    + (if short then [TooShort] else [])
    + (if long then [TooLong] else [])
  }

  /** Each issue is in the report exactly when its condition holds, and the report is empty
      exactly when none holds. */
  lemma IssuesForReportsEachCondition(unmatched: bool, emptyPlaceholder: bool, short: bool, long: bool)
    ensures var issues := IssuesFor(unmatched, emptyPlaceholder, short, long);
            && (UnmatchedBrackets in issues <==> unmatched)
            && (EmptyPlaceholders in issues <==> emptyPlaceholder)
            && (TooShort in issues <==> short)
            && (TooLong in issues <==> long)
            && (issues == [] <==> !unmatched && !emptyPlaceholder && !short && !long)
  {
    IssueRanks();
    var issues := IssuesFor(unmatched, emptyPlaceholder, short, long);
    forall x | x in issues
      ensures (x == UnmatchedBrackets && unmatched) || (x == EmptyPlaceholders && emptyPlaceholder)
              || (x == TooShort && short) || (x == TooLong && long)
    {
    }
  }

  /** The report holds only the four issues, each at most once, in rank order. */
  lemma IssuesForInOrder(unmatched: bool, emptyPlaceholder: bool, short: bool, long: bool)
    ensures var issues := IssuesFor(unmatched, emptyPlaceholder, short, long);
            && (forall i :: 0 <= i < |issues| ==>
                  issues[i] in [UnmatchedBrackets, EmptyPlaceholders, TooShort, TooLong])
            && (forall i, j :: 0 <= i < j < |issues| ==> IssueRank(issues[i]) < IssueRank(issues[j]))
  {
    IssueRanks();
  }

  /** Collects the issues in their fixed order; the template is valid when there are none. */
  method ValidatePrompt(template: string) returns (r: Validation)
    ensures r.valid <==> r.issues == []
    ensures r.issues == IssuesFor(CountMatches(template, "{{") != CountMatches(template, "}}"),
                                  HasEmptyPlaceholder(template),
                                  |template| < MinTemplateLength, |template| > MaxTemplateLength)
    ensures !(TooShort in r.issues && TooLong in r.issues)
  {
    var issues: seq<string> := [];
    var openBrackets := CountMatches(template, "{{");
    var closeBrackets := CountMatches(template, "}}");
    if openBrackets != closeBrackets {
      issues := issues + [UnmatchedBrackets];
    }
    if HasEmptyPlaceholder(template) {
      issues := issues + [EmptyPlaceholders];
    }
    if |template| < 50 {
      issues := issues + [TooShort];
    }
    if |template| > 10000 {
      issues := issues + [TooLong];
    }
    r := Validation(|issues| == 0, issues);
    LengthIssuesExclusive(template, openBrackets != closeBrackets, HasEmptyPlaceholder(template));
  }

  /** Whatever the bracket checks find, a template's report never holds both length issues,
      so it holds at most three issues. */
  lemma LengthIssuesExclusive(template: string, unmatched: bool, emptyPlaceholder: bool)
    ensures var issues := IssuesFor(unmatched, emptyPlaceholder,
                                    |template| < MinTemplateLength, |template| > MaxTemplateLength);
            && !(TooShort in issues && TooLong in issues)
            && |issues| <= 3
  {
    IssuesForReportsEachCondition(unmatched, emptyPlaceholder,
                                  |template| < MinTemplateLength, |template| > MaxTemplateLength);
  }

  /** A template with no braces at all can only be faulted for its length. */
  lemma BracelessTemplateHasNoBracketIssue(template: string)
    requires forall i :: 0 <= i < |template| ==> template[i] != '{' && template[i] != '}'
    ensures CountMatches(template, "{{") == 0 && CountMatches(template, "}}") == 0
    ensures !HasEmptyPlaceholder(template)
  {
    NoOccurrenceWithoutFirstChar(template, "{{");
    NoOccurrenceWithoutFirstChar(template, "}}");
    CountMatchesAbsent(template, "{{");
    CountMatchesAbsent(template, "}}");
  }

  lemma NoOccurrenceWithoutFirstChar(s: string, t: string)
    requires t != [] && forall i :: 0 <= i < |s| ==> s[i] != t[0]
    ensures forall i :: !OccursAt(s, t, i)
    ensures !Contains(s, t)
  {
    forall i | OccursAt(s, t, i)
      ensures s[i] == t[0]
    {
      assert s[i..i + |t|][0] == s[i];
    }
  }
}
