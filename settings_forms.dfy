/**
 * The AI settings form, which appears twice: as the settings page and as a
 * dialog. Both share the key check, the model-reset rule and the provider
 * names; they differ in the model table they reset against and in the
 * dialog's open flag.
 */
module SettingsForms {
  import opened Wrappers
  import opened Text
  import opened ModelCatalog
  import opened AiConfig

  /** `validateApiKey`: any key for ollama, otherwise a non-empty key with the provider's prefix. */
  function ValidateApiKey(provider: string, key: string): (ok: bool)
    ensures provider == "ollama" ==> ok
    ensures provider != "ollama" && key == "" ==> !ok
    ensures provider == "openai" ==> (ok <==> StartsWith(key, "sk-"))
    ensures provider == "anthropic" ==> (ok <==> StartsWith(key, "sk-ant-"))
    ensures provider != "openai" && provider != "anthropic" && provider != "ollama" ==> (ok <==> key != "")
  {
    if provider == "ollama" then true
    else if key == "" then false
    else if provider == "openai" && !StartsWith(key, "sk-") then false
    else if provider == "anthropic" && !StartsWith(key, "sk-ant-") then false
    else true
  }

  /** `isValid`: a model is chosen and the key passes. */
  predicate FormValid(provider: string, model: string, apiKey: string) {
    model != "" && ValidateApiKey(provider, apiKey)
  }

  /** Every key accepted for anthropic would also be accepted for openai. */
  lemma AnthropicKeyIsOpenAiKey(key: string)
    requires ValidateApiKey("anthropic", key)
    ensures ValidateApiKey("openai", key)
  {
    assert key[..3] == key[..7][..3];
  }

  /**
   * For the three providers a form can hold, the store's `hasValidConfig`
   * agrees with the form's own test of the same fields.
   */
  lemma StoredValidityMatchesForm(c: AIConfig)
    requires c.provider == "openai" || c.provider == "anthropic" || c.provider == "ollama"
    ensures HasValidConfig(Some(c)) <==> FormValid(c.provider, c.model, c.apiKey)
  {
  }

  /** `getProviderName`: display names for the three providers, anything else unchanged. */
  function ProviderName(p: string): (name: string)
    ensures p == "openai" ==> name == "OpenAI"
    ensures p == "anthropic" ==> name == "Anthropic/Claude"
    ensures p == "ollama" ==> name == "Ollama"
    ensures p != "openai" && p != "anthropic" && p != "ollama" ==> name == p
  {
    match p
    case "openai" => "OpenAI"
    case "anthropic" => "Anthropic/Claude"
    case "ollama" => "Ollama"
    case _ => p
  }

  /** The table offers `model`. */
  predicate Offers(models: seq<ModelOption>, model: string) {
    exists k :: 0 <= k < |models| && models[k].value == model
  }

  /** The model-reset effect: a model the table does not offer becomes the table's first, unless the table is empty. */
  function ResetModel(models: seq<ModelOption>, model: string): (m: string)
    ensures Offers(models, model) || models == [] ==> m == model
    ensures !Offers(models, model) && models != [] ==> m == models[0].value
    ensures models != [] ==> Offers(models, m)
  {
    if !Offers(models, model) && |models| > 0 then models[0].value else model
  }

  /** Resetting twice is resetting once: after one pass the effect has nothing left to do. */
  lemma ResetSettles(models: seq<ModelOption>, model: string)
    ensures ResetModel(models, ResetModel(models, model)) == ResetModel(models, model)
  {
  }

  /**
   * The two forms use different anthropic tables: a model chosen in the
   * dialog is replaced by the page's first anthropic model once the page's
   * reset effect runs.
   */
  lemma DialogChoiceResetOnPage()
    ensures Offers(DialogModels("anthropic"), "claude-3-5-sonnet-20241022")
    ensures ResetModel(ProviderModels("anthropic"), "claude-3-5-sonnet-20241022") == "claude-opus-4-5"
  {
    assert DialogModels("anthropic")[2].value == "claude-3-5-sonnet-20241022";
    AnthropicIdsShort();
    var page := ProviderModels("anthropic");
    assert forall k :: 0 <= k < |page| ==> page[k].value == AnthropicModels[k];
    assert forall k :: 0 <= k < |page| ==> |page[k].value| <= 17;
  }

  lemma AnthropicIdsShort()
    ensures forall k :: 0 <= k < |AnthropicModels| ==> |AnthropicModels[k]| <= 17
  {
  }

  /** The settings page's form state. */
  class SettingsPage {
    var provider: string
    var model: string
    var apiKey: string

    /** The initial form state: the stored record's fields, or openai with empty model and key. */
    constructor(config: Option<AIConfig>)
      ensures config.Some? ==> provider == config.value.provider && model == config.value.model && apiKey == config.value.apiKey
      ensures config.None? ==> provider == "openai" && model == "" && apiKey == ""
    {
      provider := Pick(ProviderOf(config), None, "openai");
      model := Pick(ModelOf(config), None, "");
      apiKey := Pick(ApiKeyOf(config), None, "");
    }

    /** The sync effect: a stored record replaces the form's fields. */
    method Sync(config: Option<AIConfig>)
      modifies this
      ensures config.Some? ==> provider == config.value.provider && model == config.value.model && apiKey == config.value.apiKey
      ensures config.None? ==> provider == old(provider) && model == old(model) && apiKey == old(apiKey)
    {
      if config.Some? {
        provider := config.value.provider;
        model := config.value.model;
        apiKey := config.value.apiKey;
      }
    }

    /** The reset effect against the application's model table. */
    method ResetModelEffect()
      modifies this
      ensures model == ResetModel(ProviderModels(provider), old(model))
      ensures provider == old(provider) && apiKey == old(apiKey)
      ensures ProviderModels(provider) != [] ==> Offers(ProviderModels(provider), model)
    {
      model := ResetModel(ProviderModels(provider), model);
    }

    /** `handleSave`: writes the form's three fields to the store only when the form is valid. */
    method HandleSave(store: ConfigStore, now: int)
      modifies store
      ensures FormValid(provider, model, apiKey) ==>
                store.records == old(store.records)[ConfigId :=
                  Merged(old(store.Current()), ConfigUpdate(Some(provider), Some(model), Some(apiKey)), now)]
      ensures !FormValid(provider, model, apiKey) ==> store.records == old(store.records)
    {
      if !FormValid(provider, model, apiKey) {
        return;
      }
      store.UpdateConfig(ConfigUpdate(Some(provider), Some(model), Some(apiKey)), now);
    }
  }

  /** The settings dialog's form state and whether it is open. */
  class SettingsDialog {
    var provider: string
    var model: string
    var apiKey: string
    var isOpen: bool

    constructor(config: Option<AIConfig>)
      ensures config.Some? ==> provider == config.value.provider && model == config.value.model && apiKey == config.value.apiKey
      ensures config.None? ==> provider == "openai" && model == "" && apiKey == ""
      ensures !isOpen
    {
      provider := Pick(ProviderOf(config), None, "openai");
      model := Pick(ModelOf(config), None, "");
      apiKey := Pick(ApiKeyOf(config), None, "");
      isOpen := false;
    }

    /** The reset effect against the dialog's own model table. */
    method ResetModelEffect()
      modifies this
      ensures model == ResetModel(DialogModels(provider), old(model))
      ensures provider == old(provider) && apiKey == old(apiKey) && isOpen == old(isOpen)
      ensures DialogModels(provider) != [] ==> Offers(DialogModels(provider), model)
    {
      model := ResetModel(DialogModels(provider), model);
    }

    /** `handleSave`: a valid form is written to the store and closes the dialog; otherwise nothing happens. */
    method HandleSave(store: ConfigStore, now: int)
      modifies this, store
      ensures FormValid(provider, model, apiKey) ==>
                store.records == old(store.records)[ConfigId :=
                  Merged(old(store.Current()), ConfigUpdate(Some(provider), Some(model), Some(apiKey)), now)]
                && !isOpen
      ensures !FormValid(provider, model, apiKey) ==> store.records == old(store.records) && isOpen == old(isOpen)
      ensures provider == old(provider) && model == old(model) && apiKey == old(apiKey)
    {
      if !FormValid(provider, model, apiKey) {
        return;
      }
      store.UpdateConfig(ConfigUpdate(Some(provider), Some(model), Some(apiKey)), now);
      isOpen := false;
    }
  }

  /** A save from either form that goes through leaves a record the store itself calls valid. */
  lemma SavedFormIsValidConfig(existing: Option<AIConfig>, provider: string, model: string, apiKey: string, now: int)
    requires provider == "openai" || provider == "anthropic" || provider == "ollama"
    requires FormValid(provider, model, apiKey)
    ensures HasValidConfig(Some(Merged(existing, ConfigUpdate(Some(provider), Some(model), Some(apiKey)), now)))
  {
    StoredValidityMatchesForm(Merged(existing, ConfigUpdate(Some(provider), Some(model), Some(apiKey)), now));
  }
}
