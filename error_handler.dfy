/// The last-resort error handler (backend/src/middleware/errorHandler.ts): the first
/// listed substring found in the error's message decides the status and the message sent;
/// details go out everywhere except in production.
module ErrorHandler {
  import opened JsCore
  import ApplicationConfigBuilder

  const InternalError := "Internal server error"

  /** One line of the handler's if/else chain: a substring to look for, the status it
      maps to, and the message to send (None: echo the error's own message). */
  datatype Rule = Rule(needle: string, status: nat, reply: Option<string>)

  const KeyNotConfigured := "GEMINI_API_KEY not configured"
  const AIServiceFailed := "AI service failed"
  const FileServiceFailed := "File service failed"
  const TranscriptRequired := "Transcript is required"
  const UnsupportedFileType := "Unsupported file type"
  const FileSizeExceeded := "File size exceeds maximum"
  const NoUsableContent := "No usable content could be extracted"

  const ConfigurationError := "Server configuration error"
  const AIUnavailable := "AI service is currently unavailable"
  const FileSystemError := "File system error"

  /** The chain, in the order the handler tries it. */
  const Rules: seq<Rule> := [
    Rule(KeyNotConfigured, 500, Some(ConfigurationError)),
    Rule(AIServiceFailed, 503, Some(AIUnavailable)),
    Rule(FileServiceFailed, 500, Some(FileSystemError)),
    Rule(TranscriptRequired, 400, None),
    Rule(UnsupportedFileType, 400, None),
    Rule(FileSizeExceeded, 400, None),
    Rule(NoUsableContent, 400, None)
  ]

  /** What a rule sends for a message. */
  function Reply(rule: Rule, message: string): string {
    match rule.reply
    case Some(text) => text
    case None => message
  }

  /** The status and message of the first rule whose substring occurs in `message`, or
      500 and the generic message when none does. */
  function Classify(message: string, rules: seq<Rule>): (nat, string) {
    if rules == [] then (500, InternalError)
    else if Contains(message, rules[0].needle) then (rules[0].status, Reply(rules[0], message))
    else Classify(message, rules[1..])
  }

  /** The JSON answer; `details` and `stack` are present only outside production. */
  datatype ErrorResponse = ErrorResponse(
    status: nat,
    error: string,
    details: Option<string>,
    stack: Option<string>)

  predicate IsDevelopment(env: map<string, string>) {
    EnvGet(env, "NODE_ENV") != Some("production")
  }

  /** `errorHandler`: starts from 500 and the generic message, lets the chain overwrite
      them, then builds the one response. */
  method HandleError(message: string, stack: Option<string>, env: map<string, string>)
    returns (response: ErrorResponse)
    ensures (response.status, response.error) == Classify(message, Rules)
    ensures response.details.Some? <==> IsDevelopment(env)
    ensures response.details.Some? ==> response.details.value == message
    ensures response.stack == (if IsDevelopment(env) then stack else None)
  {
    var isDevelopment := EnvGet(env, "NODE_ENV") != Some("production");
    var statusCode := 500;
    var text := InternalError;
    RulesNeedles();
    ClassifyFrom(message, 0);
    ClassifyFrom(message, 1);
    ClassifyFrom(message, 2);
    ClassifyFrom(message, 3);
    ClassifyFrom(message, 4);
    ClassifyFrom(message, 5);
    ClassifyFrom(message, 6);
    if Contains(message, KeyNotConfigured) {
      statusCode := 500;
      text := ConfigurationError;
    } else if Contains(message, AIServiceFailed) {
      statusCode := 503;
      text := AIUnavailable;
    } else if Contains(message, FileServiceFailed) {
      statusCode := 500;
      text := FileSystemError;
    } else if Contains(message, TranscriptRequired) {
      statusCode := 400;
      text := message;
    } else if Contains(message, UnsupportedFileType) {
      statusCode := 400;
      text := message;
    } else if Contains(message, FileSizeExceeded) {
      statusCode := 400;
      text := message;
    } else if Contains(message, NoUsableContent) {
      statusCode := 400;
      text := message;
    }
    response := ErrorResponse(
      statusCode, text,
      if isDevelopment then Some(message) else None,
      if isDevelopment then stack else None);
  }

  /** The rules' substrings and answers, by position. */
  lemma RulesNeedles()
    ensures |Rules| == 7
    ensures Rules[0] == Rule(KeyNotConfigured, 500, Some(ConfigurationError))
    ensures Rules[1] == Rule(AIServiceFailed, 503, Some(AIUnavailable))
    ensures Rules[2] == Rule(FileServiceFailed, 500, Some(FileSystemError))
    ensures Rules[3] == Rule(TranscriptRequired, 400, None)
    ensures Rules[4] == Rule(UnsupportedFileType, 400, None)
    ensures Rules[5] == Rule(FileSizeExceeded, 400, None)
    ensures Rules[6] == Rule(NoUsableContent, 400, None)
    ensures Rules[0..] == Rules && Rules[7..] == []
  {
  }

  /** One step of the chain: rule `k` answers, or the rules after it decide. */
  lemma ClassifyFrom(message: string, k: nat)
    requires k < |Rules|
    ensures Classify(message, Rules[k..]) ==
              if Contains(message, Rules[k].needle) then (Rules[k].status, Reply(Rules[k], message))
              else Classify(message, Rules[k + 1..])
  {
    assert Rules[k..][1..] == Rules[k + 1..];
  }

  /** The first rule that matches decides, whatever later rules would say. */
  lemma {:induction false} FirstMatchDecides(message: string, rules: seq<Rule>, k: nat)
    requires k < |rules| && Contains(message, rules[k].needle)
    requires forall j :: 0 <= j < k ==> !Contains(message, rules[j].needle)
    ensures Classify(message, rules) == (rules[k].status, Reply(rules[k], message))
  {
    if k > 0 {
      FirstMatchDecides(message, rules[1..], k - 1);
    }
  }

  /** With no rule matching, the answer is 500 and the generic message. */
  lemma {:induction false} NoMatchIsInternal(message: string, rules: seq<Rule>)
    requires forall j :: 0 <= j < |rules| ==> !Contains(message, rules[j].needle)
    ensures Classify(message, rules) == (500, InternalError)
  {
    if rules != [] {
      NoMatchIsInternal(message, rules[1..]);
    }
  }

  /** The answer's status is one of the statuses in the table, or 500. */
  lemma {:induction false} ClassifyStatus(message: string, rules: seq<Rule>)
    ensures Classify(message, rules).0 == 500
            || exists j :: 0 <= j < |rules| && Classify(message, rules).0 == rules[j].status
  {
    if rules != [] && !Contains(message, rules[0].needle) {
      ClassifyStatus(message, rules[1..]);
      if Classify(message, rules).0 != 500 {
        var j :| 0 <= j < |rules[1..]| && Classify(message, rules[1..]).0 == rules[1..][j].status;
        assert rules[j + 1].status == rules[1..][j].status;
      }
    }
  }

  /** Every answer is 400, 500 or 503. */
  lemma StatusIsKnown(message: string)
    ensures Classify(message, Rules).0 in {400, 500, 503}
  {
    ClassifyStatus(message, Rules);
  }

  /** A client error (the last four rules) echoes the error's own message with 400. */
  lemma ClientErrorEchoesMessage(message: string, k: nat)
    requires 3 <= k < |Rules| && Contains(message, Rules[k].needle)
    requires forall j :: 0 <= j < k ==> !Contains(message, Rules[j].needle)
    ensures Classify(message, Rules) == (400, message)
  {
    FirstMatchDecides(message, Rules, k);
  }

  /** A missing API key, as the configuration builder reports it, is a server
      configuration error. */
  lemma MissingKeyIsConfigurationError()
    ensures Classify(ApplicationConfigBuilder.MissingKey, Rules) == (500, ConfigurationError)
  {
    var m := ApplicationConfigBuilder.MissingKey;
    assert ApplicationConfigBuilder.KeyNotConfigured == KeyNotConfigured;
    assert m[0..|KeyNotConfigured|] == KeyNotConfigured;
    ContainsAt(m, KeyNotConfigured, 0);
    FirstMatchDecides(m, Rules, 0);
  }
}
