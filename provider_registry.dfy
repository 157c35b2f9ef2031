/// The transcription provider registry
/// (backend/src/services/transcription-providers/ProviderRegistry.ts): an insertion-ordered
/// table from provider name to entry, the construction rule that turns a configuration into
/// a provider (falling back to the mock provider), and the queries over the table.
/// Provider classes are named, not run: a construction is the class and its arguments, and
/// whether a constructor throws is a parameter.
module ProviderRegistry {
  import opened JsCore
  import opened BackendTypes
  import TranscriptionConfigBuilder

  const MockClass := "MockTranscriptionProvider"
  const GeminiClass := "GeminiAudioTranscriptionProvider"
  /** What `entry.constructor` finds on an object without its own: `Object`. */
  const ObjectClass := "Object"
  const UnknownProvider := "Unknown provider"

  /** `new C(args)`; an argument may be `undefined`. */
  datatype Construction = Instance(className: string, args: seq<Option<string>>)

  const Mock := Instance(MockClass, [])

  /** `TranscriptionProviderConfig`, with the fields the registry reads. */
  datatype ProviderConfig = ProviderConfig(provider: string, apiKey: Option<string>, model: Option<string>)

  predicate IsSet(value: Option<string>) {
    value.Some? && value.value != ""
  }

  datatype Metadata = Metadata(cost: string, installation: string, performance: string, accuracy: string)

  /** A registry entry; `constructor` and `factory` are both optional. */
  datatype Entry = Entry(
    name: string,
    description: string,
    ownConstructor: Option<string>,
    factory: Option<ProviderConfig -> Construction>,
    requiresApiKey: bool,
    supportsModels: bool,
    supportedFormats: seq<string>,
    maxFileSize: nat,
    isAvailable: bool,
    metadata: Metadata)

  /** `TranscriptionProviderInfo`: the entry without its ways of construction. */
  datatype ProviderInfo = ProviderInfo(
    name: string,
    description: string,
    requiresApiKey: bool,
    supportsModels: bool,
    supportedFormats: seq<string>,
    maxFileSize: nat,
    isAvailable: bool,
    metadata: Metadata)

  function InfoOf(e: Entry): ProviderInfo {
    ProviderInfo(e.name, e.description, e.requiresApiKey, e.supportsModels, e.supportedFormats,
                 e.maxFileSize, e.isAvailable, e.metadata)
  }

  // ---------------------------------------------------------------------------
  // The built-in table

  const AllFormats := [".mp3", ".wav", ".ogg", ".flac", ".m4a", ".mp4", ".webm"]

  /** The Gemini entry's factory: the mock provider without a key. */
  function GeminiFactory(config: ProviderConfig): (r: Construction)
    ensures !IsSet(config.apiKey) ==> r == Mock
    ensures IsSet(config.apiKey) ==> r == Instance(GeminiClass, [config.apiKey, config.model])
  {
    if !IsSet(config.apiKey) then Mock else Instance(GeminiClass, [config.apiKey, config.model])
  }

  const FreeWebSpeechEntry := Entry(
    TranscriptionConfigBuilder.FreeWebSpeech,
    "Free web speech recognition (no API key required)",
    Some("FreeWebSpeechProvider"), None, false, false, AllFormats, 50 * MiB, true,
    Metadata("free", "none", "medium", "medium"))

  const LocalWhisperEntry := Entry(
    TranscriptionConfigBuilder.LocalWhisper,
    "Local OpenAI Whisper (free, requires: pip install openai-whisper)",
    Some("LocalWhisperProvider"), None, false, true,
    [".mp3", ".wav", ".ogg", ".flac", ".m4a", ".mp4"], 50 * MiB, true,
    Metadata("free", "pip", "high", "high"))

  const HuggingFaceEntry := Entry(
    TranscriptionConfigBuilder.HuggingFace,
    "Hugging Face Whisper API (free: 1,000 requests/month)",
    Some("HuggingFaceTranscriptionProvider"), None, true, true,
    [".mp3", ".wav", ".ogg", ".flac", ".m4a"], 20 * MiB, true,
    Metadata("freemium", "api_key", "high", "high"))

  const MockEntry := Entry(
    TranscriptionConfigBuilder.MockProvider,
    "Mock provider for development and testing (free)",
    Some(MockClass), None, false, false, AllFormats, 50 * MiB, true,
    Metadata("free", "none", "low", "low"))

  const GeminiEntry := Entry(
    TranscriptionConfigBuilder.GeminiAudio,
    "Google Gemini AI audio transcription (when available)",
    Some(GeminiClass), Some(GeminiFactory), true, true,
    [".mp3", ".wav", ".ogg", ".flac", ".m4a"], 20 * MiB, false,
    Metadata("paid", "api_key", "high", "high"))

  const DefaultOrder := [
    TranscriptionConfigBuilder.FreeWebSpeech, TranscriptionConfigBuilder.LocalWhisper,
    TranscriptionConfigBuilder.HuggingFace, TranscriptionConfigBuilder.MockProvider,
    TranscriptionConfigBuilder.GeminiAudio]

  const DefaultEntries := map[
    TranscriptionConfigBuilder.FreeWebSpeech := FreeWebSpeechEntry,
    TranscriptionConfigBuilder.LocalWhisper := LocalWhisperEntry,
    TranscriptionConfigBuilder.HuggingFace := HuggingFaceEntry,
    TranscriptionConfigBuilder.MockProvider := MockEntry,
    TranscriptionConfigBuilder.GeminiAudio := GeminiEntry]

  // ---------------------------------------------------------------------------
  // Construction

  /** The arguments `createProvider` passes to a constructor: the key and the model, the
      key alone, or nothing. */
  function ConstructorArgs(e: Entry, config: ProviderConfig): (r: seq<Option<string>>)
    ensures r == [config.apiKey, config.model] <==>
              e.requiresApiKey && IsSet(config.apiKey) && e.supportsModels && IsSet(config.model)
    ensures r == [config.apiKey] <==>
              e.requiresApiKey && IsSet(config.apiKey) && !(e.supportsModels && IsSet(config.model))
    ensures r == [] <==> !(e.requiresApiKey && IsSet(config.apiKey))
  {
    if e.requiresApiKey && IsSet(config.apiKey) then
      if e.supportsModels && IsSet(config.model) then [config.apiKey, config.model]
      else [config.apiKey]
    else []
  }

  /** A construction, or the mock provider when it throws. */
  function Attempt(c: Construction, throws: Construction -> bool): (r: Construction)
    ensures r == c || r == Mock
    ensures throws(c) ==> r == Mock
  {
    if throws(c) then Mock else c
  }

  /** `createProvider` as written: `entry.constructor` is tested, and for an entry without a
      constructor of its own it is `Object`, inherited and always truthy. */
  function CreateAsWritten(entries: map<string, Entry>, config: ProviderConfig,
                                   throws: Construction -> bool): (r: Construction)
    ensures config.provider !in entries ==> r == Mock
  {
    if config.provider !in entries then Mock
    else
      var e := entries[config.provider];
      if e.factory.Some? then Attempt(e.factory.value(config), throws)
      else
        var ctor := if e.ownConstructor.Some? then e.ownConstructor.value else ObjectClass;
        Attempt(Instance(ctor, ConstructorArgs(e, config)), throws)
  }

  /** `createProvider` as intended: an unknown provider, an entry with neither a factory nor
      a constructor, and any construction that throws all give the mock provider; a factory
      takes precedence over a constructor. */
  function Create(entries: map<string, Entry>, config: ProviderConfig,
                          throws: Construction -> bool): (r: Construction)
    ensures config.provider !in entries ==> r == Mock
    ensures config.provider in entries && entries[config.provider].factory.Some? ==>
              r == Attempt(entries[config.provider].factory.value(config), throws)
    ensures (config.provider in entries && entries[config.provider].factory.None?
             && entries[config.provider].ownConstructor.Some?) ==>
              r == Attempt(Instance(entries[config.provider].ownConstructor.value,
                                    ConstructorArgs(entries[config.provider], config)), throws)
    ensures (config.provider in entries && entries[config.provider].factory.None?
             && entries[config.provider].ownConstructor.None?) ==> r == Mock
  {
    if config.provider !in entries then Mock
    else
      var e := entries[config.provider];
      if e.factory.Some? then Attempt(e.factory.value(config), throws)
      else if e.ownConstructor.Some? then
        Attempt(Instance(e.ownConstructor.value, ConstructorArgs(e, config)), throws)
      else Mock
  }

  /** The two agree on every entry that has a factory or a constructor of its own, so on
      the whole built-in table. */
  lemma AsWrittenAgreesWithOwnConstructor(entries: map<string, Entry>, config: ProviderConfig,
                                          throws: Construction -> bool)
    requires config.provider in entries ==>
               entries[config.provider].factory.Some? || entries[config.provider].ownConstructor.Some?
    ensures CreateAsWritten(entries, config, throws) == Create(entries, config, throws)
  {
  }

  /** The discrepancy: a registered entry with neither a factory nor a constructor gives a
      plain `Object` instead of the mock provider. */
  lemma AsWrittenBuildsPlainObject()
    ensures var e := Entry("custom", "", None, None, false, false, [], 0, true,
                           Metadata("free", "none", "low", "low"));
            var config := ProviderConfig("custom", None, None);
            var never := (c: Construction) => false;
            CreateAsWritten(map["custom" := e], config, never) == Instance(ObjectClass, [])
            && Create(map["custom" := e], config, never) == Mock
  {
  }

  /** Without a key the Gemini entry builds the mock provider, whatever the model. */
  lemma GeminiWithoutKeyIsMock(config: ProviderConfig, throws: Construction -> bool)
    requires config.provider == TranscriptionConfigBuilder.GeminiAudio && !IsSet(config.apiKey)
    ensures Create(DefaultEntries, config, throws) == Mock
  {
  }

  /** With a key and a model, Hugging Face is built with both, unless its constructor throws. */
  lemma HuggingFaceGetsKeyAndModel(config: ProviderConfig, throws: Construction -> bool)
    requires config.provider == TranscriptionConfigBuilder.HuggingFace
    requires IsSet(config.apiKey) && IsSet(config.model)
    ensures var c := Instance("HuggingFaceTranscriptionProvider", [config.apiKey, config.model]);
            Create(DefaultEntries, config, throws) == (if throws(c) then Mock else c)
  {
  }

  /** Providers that need no key are built without arguments, even when a key is given. */
  lemma KeylessProvidersGetNoArguments(config: ProviderConfig, throws: Construction -> bool)
    requires config.provider in DefaultEntries
    requires !DefaultEntries[config.provider].requiresApiKey
    ensures Create(DefaultEntries, config, throws).args == []
  {
  }

  // ---------------------------------------------------------------------------
  // Queries

  predicate IsAvailable(entries: map<string, Entry>, p: string) {
    p in entries && entries[p].isAvailable
  }

  /** `getAvailableProviders`: the keys, in order, whose entries are available. */
  function AvailableProviders(order: seq<string>, entries: map<string, Entry>): (r: seq<string>)
    ensures forall p :: p in r <==> p in order && IsAvailable(entries, p)
    ensures |r| <= |order|
  {
    if order == [] then []
    else
      (if IsAvailable(entries, order[0]) then [order[0]] else [])
      + AvailableProviders(order[1..], entries)
  }

  /** `getProviderDescription`: an absent entry, or an empty description, reads as
      "Unknown provider". */
  function Description(entries: map<string, Entry>, p: string): (r: string)
    ensures r != ""
    ensures p in entries && entries[p].description != "" ==> r == entries[p].description
    ensures p !in entries ==> r == UnknownProvider
  {
    if p in entries && entries[p].description != "" then entries[p].description else UnknownProvider
  }

  /** `getProviderInfo`. */
  function Info(entries: map<string, Entry>, p: string): (r: Option<ProviderInfo>)
    ensures r.None? <==> p !in entries
    ensures r.Some? ==> var e := entries[p];
              && r.value.name == e.name && r.value.description == e.description
              && r.value.requiresApiKey == e.requiresApiKey && r.value.supportsModels == e.supportsModels
              && r.value.supportedFormats == e.supportedFormats && r.value.maxFileSize == e.maxFileSize
              && r.value.isAvailable == e.isAvailable && r.value.metadata == e.metadata
  {
    if p in entries then Some(InfoOf(entries[p])) else None
  }

  /** The five built-in names are distinct. */
  lemma DefaultNamesDistinct()
    ensures NoDuplicates(DefaultOrder)
  {
    var o := DefaultOrder;
    assert |o[0]| == 15 && |o[1]| == 13 && |o[2]| == 12 && |o[3]| == 4 && |o[4]| == 12;
    assert o[2][0] == 'h' && o[4][0] == 'g';
  }

  /** When every listed provider but the last is available, all but the last are listed. */
  lemma {:induction false} AvailableAllButLast(order: seq<string>, entries: map<string, Entry>)
    requires |order| >= 1 && !IsAvailable(entries, order[|order| - 1])
    requires forall i :: 0 <= i < |order| - 1 ==> IsAvailable(entries, order[i])
    ensures AvailableProviders(order, entries) == order[..|order| - 1]
    decreases |order|
  {
    if |order| > 1 {
      AvailableAllButLast(order[1..], entries);
      assert [order[0]] + order[1..][..|order| - 2] == order[..|order| - 1];
    }
  }

  /** Of the built-in providers all but Gemini are available, in table order. */
  lemma DefaultAvailableProviders()
    ensures AvailableProviders(DefaultOrder, DefaultEntries) ==
              [TranscriptionConfigBuilder.FreeWebSpeech, TranscriptionConfigBuilder.LocalWhisper,
               TranscriptionConfigBuilder.HuggingFace, TranscriptionConfigBuilder.MockProvider]
  {
    var o := DefaultOrder;
    var m := DefaultEntries;
    DefaultNamesDistinct();
    assert m[o[0]] == FreeWebSpeechEntry && m[o[1]] == LocalWhisperEntry;
    assert m[o[2]] == HuggingFaceEntry && m[o[3]] == MockEntry && m[o[4]] == GeminiEntry;
    AvailableAllButLast(o, m);
  }

  predicate NoDuplicates(s: seq<string>) {
    forall i, j :: 0 <= i < j < |s| ==> s[i] != s[j]
  }

  /** The static table, as an object: the keys in insertion order and the entries. */
  class ProviderRegistry {
    var order: seq<string>
    var entries: map<string, Entry>

    /** Each key once, in insertion order, and exactly the keys of the table. */
    ghost predicate Valid()
      reads this
    {
      NoDuplicates(order) && (forall p :: p in order <==> p in entries)
    }

    constructor()
      ensures Valid()
      ensures order == DefaultOrder && entries == DefaultEntries
    {
      DefaultNamesDistinct();
      order := DefaultOrder;
      entries := DefaultEntries;
    }

    /** `createProvider` as corrected in `Create` (see `CreateAsWritten` for the code as
        written, which builds a plain object where this gives the mock): an unregistered
        name, or an entry with neither a factory nor its own constructor, gives the mock
        provider; a factory is called when there is one. */
    function CreateProvider(config: ProviderConfig, throws: Construction -> bool): (r: Construction)
      reads this
      ensures config.provider !in entries ==> r == Mock
      ensures config.provider in entries && entries[config.provider].factory.Some? ==>
                r == Attempt(entries[config.provider].factory.value(config), throws)
      ensures (config.provider in entries && entries[config.provider].factory.None?
               && entries[config.provider].ownConstructor.None?) ==> r == Mock
    {
      Create(entries, config, throws)
    }

    function GetAvailableProviders(): seq<string>
      reads this
    {
      AvailableProviders(order, entries)
    }

    function GetAllProviders(): seq<string>
      reads this
    {
      order
    }

    /** `getProviderInfo`: null for an unregistered name, else the entry's full record. */
    function GetProviderInfo(p: string): (r: Option<ProviderInfo>)
      reads this
      ensures r.None? <==> p !in entries
      ensures r.Some? ==> r.value == InfoOf(entries[p])
    {
      Info(entries, p)
    }

    /** `getAllProviderInfo`: one description per key, in order. */
    function GetAllProviderInfo(): (r: seq<ProviderInfo>)
      reads this
      requires Valid()
      ensures |r| == |order|
      ensures forall i :: 0 <= i < |r| ==> r[i] == InfoOf(entries[order[i]])
    {
      seq(|order|, i requires 0 <= i < |order| && order[i] in entries reads this =>
            InfoOf(entries[order[i]]))
    }

    function GetProviderDescription(p: string): string
      reads this
    {
      Description(entries, p)
    }

    /** `registerProvider`: inserts or overwrites the entry under its name; a new name goes
        last, an existing one keeps its place, and no other entry changes. */
    method RegisterProvider(entry: Entry)
      requires Valid()
      modifies this
      ensures Valid()
      ensures entries == old(entries)[entry.name := entry]
      ensures order == if entry.name in old(entries) then old(order) else old(order) + [entry.name]
      ensures forall p :: p != entry.name && p in old(entries) ==> entries[p] == old(entries)[p]
    {
      if entry.name !in entries {
        order := order + [entry.name];
      }
      entries := entries[entry.name := entry];
    }
  }
}
