/// `{{name}}` substitution in prompt templates and the required-variable check
/// (backend/src/config/prompts/PromptEngine.ts, with the record of
/// backend/src/config/prompts/PromptTypes.ts).
module PromptEngine {
  import opened JsCore

  /** A prompt: its template and the variables it requires. */
  datatype PromptConfig = PromptConfig(
    name: string,
    description: string,
    version: string,
    template: string,
    variables: seq<string>)

  /** A variable's value: a string, or a list that is rendered as a dash list. */
  datatype TemplateValue = Text(s: string) | List(items: seq<string>)

  /** The variables object, as its entries in insertion order. */
  type Variables = seq<(string, TemplateValue)>

  function Placeholder(key: string): (p: string)
    ensures |p| == |key| + 4 && StartsWith(p, "{{")
  {
    "{{" + key + "}}"
  }

  /** Lists are joined with a line break and a dash. */
  function StringValue(v: TemplateValue): string {
    match v
    case Text(s) => s
    case List(items) => Join(items, "\n- ")
  }

  /** The keys of the variables object. */
  function Keys(variables: Variables): (keys: set<string>)
    ensures forall k :: 0 <= k < |variables| ==> variables[k].0 in keys
    ensures forall key :: key in keys ==> exists k :: 0 <= k < |variables| && variables[k].0 == key
  {
    set k | 0 <= k < |variables| :: variables[k].0
  }

  /** The template after replacing, entry by entry, every occurrence of each placeholder with
      the value, whose "$" patterns the replace expands. */
  function Substituted(template: string, variables: Variables): string
    decreases |variables|
  {
    if variables == [] then template
    else
      var (key, value) := variables[|variables| - 1];
      RegExpReplaceAll(Substituted(template, variables[..|variables| - 1]), Placeholder(key), StringValue(value))
  }

  /** Applies the entries in order, replacing every occurrence of each placeholder. */
  method ProcessTemplate(template: string, variables: Variables) returns (processed: string)
    ensures processed == Substituted(template, variables)
  {
    processed := template;
    for k := 0 to |variables|
      invariant processed == Substituted(template, variables[..k])
    {
      var (key, value) := variables[k];
      var placeholder := "{{" + key + "}}";
      var stringValue := match value
        case Text(s) => s
        case List(items) => Join(items, "\n- ");
      assert variables[..k + 1][..k] == variables[..k];
      processed := RegExpReplaceAll(processed, placeholder, stringValue);
    }
    assert variables[..|variables|] == variables;
  }

  /** With one variable whose value holds no '$', the template is cut at every placeholder
      and rejoined with the value. */
  lemma SingleVariableReplacesEveryOccurrence(template: string, key: string, value: TemplateValue)
    requires '$' !in StringValue(value)
    ensures Substituted(template, [(key, value)])
            == Join(SplitOn(template, Placeholder(key)), StringValue(value))
  {
    assert [(key, value)][..0] == [];
    RegExpReplaceAllLiteral(template, Placeholder(key), StringValue(value));
    ReplaceAllIsSplitJoin(template, Placeholder(key), StringValue(value));
  }

  /** "$$" in a value becomes a single "$". */
  lemma DollarPairInValue(key: string)
    ensures Substituted(Placeholder(key), [(key, Text("a$$b"))]) == "a$b"
  {
    var p := Placeholder(key);
    assert [(key, Text("a$$b"))][..0] == [];
    assert OccursAt(p, p, 0);
    assert ExpandReplacement("a$$b", p, [], []) == "a$b";
    assert RegExpReplaceFrom(p, p, "a$$b", |p|) == [];
  }

  /** "$&" in a value puts the matched placeholder back. */
  lemma MatchedTextInValue(key: string)
    ensures Substituted(Placeholder(key), [(key, Text("$&"))]) == Placeholder(key)
  {
    var p := Placeholder(key);
    assert [(key, Text("$&"))][..0] == [];
    assert OccursAt(p, p, 0);
    assert ExpandReplacement("$&", p, [], []) == p;
    assert RegExpReplaceFrom(p, p, "$&", |p|) == [];
  }

  /** A template in which no supplied placeholder occurs comes back unchanged; in
      particular an empty variables object changes nothing. */
  lemma {:induction false} UnsuppliedPlaceholdersKept(template: string, variables: Variables)
    requires forall k :: 0 <= k < |variables| ==> !Contains(template, Placeholder(variables[k].0))
    ensures Substituted(template, variables) == template
    decreases |variables|
  {
    if variables != [] {
      var init := variables[..|variables| - 1];
      UnsuppliedPlaceholdersKept(template, init);
      var (key, value) := variables[|variables| - 1];
      RegExpReplaceAllAbsent(template, Placeholder(key), StringValue(value));
    }
  }

  /** The required variables that are not keys of the object, in their declared order. */
  function MissingVariables(required: seq<string>, variables: Variables): (missing: seq<string>)
    ensures forall v :: v in missing <==> v in required && v !in Keys(variables)
    ensures |missing| <= |required|
  {
    if required == [] then []
    else
      var rest := MissingVariables(required[1..], variables);
      if required[0] in Keys(variables) then rest else [required[0]] + rest
  }

  /** Fails, naming every missing variable, or fills the template. Extra variables are fine. */
  method GetPrompt(promptConfig: PromptConfig, variables: Variables) returns (r: Result<string>)
    ensures r.Err? <==> exists v :: v in promptConfig.variables && v !in Keys(variables)
    ensures r.Err? ==> r.error == "Missing required variables for prompt '" + promptConfig.name
                                  + "': " + Join(MissingVariables(promptConfig.variables, variables), ", ")
    ensures r.Ok? ==> r.value == Substituted(promptConfig.template, variables)
  {
    var missingVars := MissingVariables(promptConfig.variables, variables);
    if |missingVars| > 0 {
      assert missingVars[0] in missingVars;
      return Err("Missing required variables for prompt '" + promptConfig.name + "': "
                 + Join(missingVars, ", "));
    }
    assert forall v :: v in promptConfig.variables ==> v in Keys(variables);
    var processed := ProcessTemplate(promptConfig.template, variables);
    return Ok(processed);
  }
}
