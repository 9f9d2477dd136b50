/**
 * The single AI-provider configuration record kept in the browser, the
 * merge `updateConfig` performs, and the validity test of the stored record.
 */
module AiConfig {
  import opened Wrappers
  import opened Text
  import opened ModelCatalog

  /** The id of the one record the hook reads and writes. */
  const ConfigId: string := "default"

  /** A stored configuration; dates are instants on a clock the caller supplies. */
  datatype AIConfig = AIConfig(id: string, provider: string, model: string, apiKey: string, createdAt: int, updatedAt: int)

  /** The fields an update may carry; `None` is an omitted or null field. */
  datatype ConfigUpdate = ConfigUpdate(provider: Option<string>, model: Option<string>, apiKey: Option<string>)

  /** `a ?? b ?? fallback` over an update field, the existing record's field and a default. */
  function Pick(update: Option<string>, existing: Option<string>, fallback: string): (v: string)
    ensures update.Some? ==> v == update.value
    ensures update.None? && existing.Some? ==> v == existing.value
    ensures update.None? && existing.None? ==> v == fallback
  {
    match update
    case Some(u) => u
    case None => existing.GetOr(fallback)
  }

  function ProviderOf(c: Option<AIConfig>): Option<string> {
    if c.Some? then Some(c.value.provider) else None
  }

  function ModelOf(c: Option<AIConfig>): Option<string> {
    if c.Some? then Some(c.value.model) else None
  }

  function ApiKeyOf(c: Option<AIConfig>): Option<string> {
    if c.Some? then Some(c.value.apiKey) else None
  }

  /** The record `updateConfig` inserts, given the record it read and the time now. */
  function Merged(existing: Option<AIConfig>, updates: ConfigUpdate, now: int): (c: AIConfig)
    ensures c.id == ConfigId && c.updatedAt == now
    ensures c.createdAt == if existing.Some? then existing.value.createdAt else now
    ensures updates.provider.Some? ==> c.provider == updates.provider.value
    ensures updates.model.Some? ==> c.model == updates.model.value
    ensures updates.apiKey.Some? ==> c.apiKey == updates.apiKey.value
    ensures existing.Some? && updates.provider.None? ==> c.provider == existing.value.provider
    ensures existing.Some? && updates.model.None? ==> c.model == existing.value.model
    ensures existing.Some? && updates.apiKey.None? ==> c.apiKey == existing.value.apiKey
    ensures existing.None? && updates.provider.None? ==> c.provider == "openai"
    ensures existing.None? && updates.model.None? ==> c.model == ""
    ensures existing.None? && updates.apiKey.None? ==> c.apiKey == ""
  {
    AIConfig(
      ConfigId,
      Pick(updates.provider, ProviderOf(existing), "openai"),
      Pick(updates.model, ModelOf(existing), ""),
      Pick(updates.apiKey, ApiKeyOf(existing), ""),
      if existing.Some? then existing.value.createdAt else now,
      now)
  }

  /** An update that carries nothing only refreshes `updatedAt` of an existing record. */
  lemma EmptyUpdateKeepsFields(existing: AIConfig, now: int)
    requires existing.id == ConfigId
    ensures Merged(Some(existing), ConfigUpdate(None, None, None), now) == existing.(updatedAt := now)
  {
  }

  /** Applying the same update again changes nothing but `updatedAt`. */
  lemma MergeTwice(existing: Option<AIConfig>, updates: ConfigUpdate, t1: int, t2: int)
    ensures Merged(Some(Merged(existing, updates, t1)), updates, t2) == Merged(existing, updates, t1).(updatedAt := t2)
  {
  }

  /** `hasValidConfig`: a record with a provider, a model and a key the provider's rules accept. */
  function HasValidConfig(config: Option<AIConfig>): (ok: bool)
    ensures ok ==> config.Some? && config.value.provider != "" && config.value.model != ""
    ensures ok && config.value.provider != "ollama" ==> config.value.apiKey != ""
    ensures ok && config.value.provider == "openai" ==> StartsWith(config.value.apiKey, "sk-")
    ensures ok && config.value.provider == "anthropic" ==> StartsWith(config.value.apiKey, "sk-ant-")
    ensures config.Some? && config.value.provider == "ollama" && config.value.model != "" ==> ok
  {
    if config.None? then false
    else if config.value.provider == "" then false
    else if config.value.model == "" then false
    else if config.value.provider != "ollama" && config.value.apiKey == "" then false
    else if config.value.provider == "openai" && !StartsWith(config.value.apiKey, "sk-") then false
    else if config.value.provider == "anthropic" && !StartsWith(config.value.apiKey, "sk-ant-") then false
    else true
  }

  /** The collection of configuration records, keyed by id. */
  class ConfigStore {
    var records: map<string, AIConfig>

    constructor(records: map<string, AIConfig>)
      ensures this.records == records
    {
      this.records := records;
    }

    /** The hook's `config`: the record with id `default`, or none. */
    function Current(): (c: Option<AIConfig>)
      reads this
      ensures c.Some? <==> ConfigId in records
      ensures c.Some? ==> c.value == records[ConfigId]
    {
      if ConfigId in records then Some(records[ConfigId]) else None
    }

    /** `updateConfig`: writes the merged record under `default` and nothing else. */
    method UpdateConfig(updates: ConfigUpdate, now: int)
      modifies this
      ensures records == old(records)[ConfigId := Merged(old(Current()), updates, now)]
      ensures Current() == Some(Merged(old(Current()), updates, now))
    {
      var existing := Current();
      records := records[ConfigId := Merged(existing, updates, now)];
    }

    /** `clearConfig`: removes the `default` record and nothing else. */
    method ClearConfig()
      modifies this
      ensures records == old(records) - {ConfigId}
      ensures Current() == None && !HasValidConfig(Current())
    {
      records := records - {ConfigId};
    }
  }

  /** The model lists the settings dialog offers, by provider; none for an unknown provider. */
  function DialogModels(provider: string): (opts: seq<ModelOption>)
    ensures provider != "openai" && provider != "anthropic" && provider != "ollama" ==> opts == []
    ensures provider == "openai" || provider == "anthropic" || provider == "ollama" ==> |opts| == 4
  {
    if provider == "openai" then
      [ModelOption("gpt-4o", "GPT-4o"), ModelOption("gpt-4o-mini", "GPT-4o Mini"),
       ModelOption("gpt-4-turbo", "GPT-4 Turbo"), ModelOption("gpt-3.5-turbo", "GPT-3.5 Turbo")]
    else if provider == "anthropic" then
      [ModelOption("claude-opus-4-5", "Claude Opus 4.5"), ModelOption("claude-sonnet-4-5", "Claude Sonnet 4.5"),
       ModelOption("claude-3-5-sonnet-20241022", "Claude 3.5 Sonnet"),
       ModelOption("claude-3-5-haiku-20241022", "Claude 3.5 Haiku")]
    else if provider == "ollama" then OllamaOptions
    else []
  }
}
