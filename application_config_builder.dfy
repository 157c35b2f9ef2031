/// The application settings (backend/src/config/ApplicationConfigBuilder.ts): the model
/// API key, the port and the output directory, each read from the environment and checked.
module ApplicationConfigBuilder {
  import opened JsCore

  const DefaultPort: nat := 3000
  const MinPort := 1
  const MaxPort := 65535
  const PlaceholderApiKey := "your_api_key_here"
  const DefaultBaseDirectory := "processed"
  const KeyNotConfigured := "GEMINI_API_KEY not configured"
  const MissingKey := KeyNotConfigured + ". Please add your API key to .env file"

  datatype AppConfig = AppConfig(port: int, geminiApiKey: string, baseDirectory: string)

  /** A usable key: set, non-empty, and not the placeholder from the example file. */
  predicate IsUsableKey(env: map<string, string>) {
    EnvSet(env, "GEMINI_API_KEY") && env["GEMINI_API_KEY"] != PlaceholderApiKey
  }

  /** `getGeminiApiKey`. */
  function GetGeminiApiKey(env: map<string, string>): (r: Result<string>)
    ensures r.Ok? <==> IsUsableKey(env)
    ensures r.Ok? ==> r.value == env["GEMINI_API_KEY"]
    ensures r.Err? ==> r.error == MissingKey
  {
    var apiKey := EnvGet(env, "GEMINI_API_KEY");
    if apiKey.None? || apiKey.value == "" || apiKey.value == PlaceholderApiKey then Err(MissingKey)
    else Ok(apiKey.value)
  }

  /** `PORT || String(3000)`. */
  function PortString(env: map<string, string>): string {
    EnvOr(env, "PORT", NatToString(DefaultPort))
  }

  function InvalidPort(portString: string): string {
    "Invalid PORT value: " + portString + ". Must be a number between " + NatToString(MinPort)
    + " and " + NatToString(MaxPort) + "."
  }

  predicate IsValidPort(port: JsNumber) {
    port.Num? && MinPort <= port.n <= MaxPort
  }

  /** `getValidatedPort`: the parsed port, refused when NaN or outside 1..65535. */
  function GetValidatedPort(env: map<string, string>): (r: Result<int>)
    ensures r.Ok? <==> IsValidPort(ParseInt(PortString(env)))
    ensures r.Ok? ==> MinPort <= r.value <= MaxPort && Num(r.value) == ParseInt(PortString(env))
    ensures r.Err? ==> r.error == InvalidPort(PortString(env))
  {
    var portString := PortString(env);
    var port := ParseInt(portString);
    if port.NaN? || port.n < MinPort || port.n > MaxPort then Err(InvalidPort(portString))
    else Ok(port.n)
  }

  /** `getBaseDirectory`. */
  function GetBaseDirectory(env: map<string, string>): string {
    EnvOr(env, "BASE_DIRECTORY", DefaultBaseDirectory)
  }

  /** `buildApplicationConfig`: the key is checked first, then the port. */
  function BuildApplicationConfig(env: map<string, string>): (r: Result<AppConfig>)
    ensures r.Ok? <==> IsUsableKey(env) && IsValidPort(ParseInt(PortString(env)))
    ensures !IsUsableKey(env) ==> r == Err(MissingKey)
    ensures IsUsableKey(env) && !IsValidPort(ParseInt(PortString(env))) ==>
              r == Err(InvalidPort(PortString(env)))
    ensures r.Ok? ==>
              r.value.geminiApiKey == env["GEMINI_API_KEY"]
              && Num(r.value.port) == ParseInt(PortString(env))
              && MinPort <= r.value.port <= MaxPort
              && r.value.baseDirectory == GetBaseDirectory(env)
  {
    match GetGeminiApiKey(env)
    case Err(e) => Err(e)
    case Ok(geminiApiKey) =>
      match GetValidatedPort(env)
      case Err(e) => Err(e)
      case Ok(port) => Ok(AppConfig(port, geminiApiKey, GetBaseDirectory(env)))
  }

  /** Without a PORT variable the port is 3000. */
  lemma DefaultPortIs3000(env: map<string, string>)
    requires !EnvSet(env, "PORT")
    ensures GetValidatedPort(env) == Ok(3000)
  {
    ParseIntOfNatToString(DefaultPort);
  }

  /** A PORT written as a number in range is read back as that number. */
  lemma PortRoundTrip(env: map<string, string>, p: nat)
    requires "PORT" in env && env["PORT"] == NatToString(p)
    requires MinPort <= p <= MaxPort
    ensures GetValidatedPort(env) == Ok(p)
  {
    ParseIntOfNatToString(p);
  }

  /** Port 0 and anything above 65535 are refused. */
  lemma OutOfRangePortRefused(env: map<string, string>, p: nat)
    requires "PORT" in env && env["PORT"] == NatToString(p)
    requires p < MinPort || p > MaxPort
    ensures GetValidatedPort(env).Err?
  {
    ParseIntOfNatToString(p);
  }
}
