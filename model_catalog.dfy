/** The model pickers' tables and how a model id is turned into a label. */
module ModelCatalog {
  import opened Wrappers
  import opened Text

  /** An entry of a model picker. */
  datatype ModelOption = ModelOption(value: string, display: string)

  const OpenAiModels: seq<string> := [
    "gpt-5.2", "gpt-5.2-pro", "gpt-5.2-chat-latest", "gpt-5.1", "gpt-5.1-codex", "gpt-5", "gpt-5-mini",
    "gpt-5-nano", "gpt-5-pro", "gpt-5-codex", "o3", "o3-pro", "o3-mini", "o4-mini", "o3-deep-research",
    "o4-mini-deep-research", "gpt-4.1", "gpt-4.1-mini", "gpt-4.1-nano", "gpt-4", "gpt-4-turbo", "gpt-4o",
    "gpt-4o-mini", "gpt-3.5-turbo", "gpt-audio", "gpt-audio-mini", "gpt-4o-audio", "gpt-4o-mini-audio",
    "gpt-5.1-chat-latest", "gpt-5-chat-latest", "chatgpt-4o-latest", "gpt-5.1-codex-mini", "codex-mini-latest",
    "gpt-4o-search-preview", "gpt-4o-mini-search-preview", "computer-use-preview", "o1", "o1-pro"]

  const AnthropicModels: seq<string> := [
    "claude-opus-4-5", "claude-sonnet-4-5", "claude-haiku-4-5", "claude-opus-4-1", "claude-sonnet-4",
    "claude-3-7-sonnet", "claude-opus-4", "claude-3-5-haiku", "claude-3-haiku"]

  /** The ids whose label is fixed rather than derived. */
  const SpecialCases: map<string, string> := map[
    "gpt-4o" := "GPT-4o",
    "gpt-4o-mini" := "GPT-4o Mini",
    "gpt-4-turbo" := "GPT-4 Turbo",
    "gpt-3.5-turbo" := "GPT-3.5 Turbo"]

  /** `toUpperCase` on one character, for the ASCII letters. */
  function UpperAscii(c: char): (u: char)
    ensures ('a' <= c <= 'z') ==> u != c && 'A' <= u <= 'Z'
    ensures !('a' <= c <= 'z') ==> u == c
  {
    if 'a' <= c <= 'z' then (c as int - 'a' as int + 'A' as int) as char else c
  }

  /** `part.charAt(0).toUpperCase() + part.slice(1)`. */
  function Capitalize(part: string): (r: string)
    ensures |r| == |part|
    ensures forall k :: 0 < k < |part| ==> r[k] == part[k]
    ensures part != [] ==> r[0] == UpperAscii(part[0])
  {
    if part == [] then [] else [UpperAscii(part[0])] + part[1..]
  }

  function CapitalizeAll(parts: seq<string>): (r: seq<string>)
    ensures |r| == |parts|
    ensures forall k :: 0 <= k < |parts| ==> r[k] == Capitalize(parts[k])
  {
    seq(|parts|, k requires 0 <= k < |parts| => Capitalize(parts[k]))
  }

  /** The generic label: split on '-', capitalize each part, join with spaces. */
  function GenericLabel(id: string): string {
    Join(CapitalizeAll(Split(id, "-")), " ")
  }

  /** `formatModelName`. */
  function FormatModelName(id: string): (name: string)
    ensures id in SpecialCases ==> name == SpecialCases[id]
    ensures id !in SpecialCases ==> name == Relabel(id)
  {
    if id in SpecialCases then SpecialCases[id]
    else
      GenericIsRelabel(id);
      GenericLabel(id)
  }

  /**
   * The generic label described character by character: each '-' becomes a
   * space, the first character and each character after a '-' is upper-cased,
   * and every other character is kept.
   */
  function Relabel(id: string): (r: string)
    ensures |r| == |id|
  {
    seq(|id|, k requires 0 <= k < |id| =>
      if id[k] == '-' then ' '
      else if k == 0 || id[k - 1] == '-' then UpperAscii(id[k])
      else id[k])
  }

  /** Split-capitalize-join computes `Relabel`. */
  lemma {:induction false} GenericIsRelabel(id: string)
    ensures GenericLabel(id) == Relabel(id)
    decreases |id|
  {
    match IndexOf(id, "-")
    case None =>
      SplitNoSeparator(id, "-");
      assert CapitalizeAll([id]) == [Capitalize(id)];
      NoDashBefore(id, |id|);
    case Some(i) =>
      var rest := id[i + 1..];
      GenericIsRelabel(rest);
      GenericLabelCons(id, i);
      assert id[i] == '-' by {
        assert id[i..i + 1] == "-";
      }
      NoDashBefore(id, i);
      RelabelCons(id, i);
  }

  /** Before the first '-' there is none. */
  lemma NoDashBefore(id: string, i: nat)
    requires i <= |id|
    requires forall j: nat :: j < i ==> !OccursAt(id, "-", j)
    ensures forall k :: 0 <= k < i ==> id[k] != '-'
  {
    forall k | 0 <= k < i ensures id[k] != '-' {
      assert !OccursAt(id, "-", k);
      assert id[k..k + 1] == [id[k]];
    }
  }

  /** Unfolding the generic label at the first '-'. */
  lemma GenericLabelCons(id: string, i: nat)
    requires IndexOf(id, "-") == Some(i)
    ensures GenericLabel(id) == Capitalize(id[..i]) + " " + GenericLabel(id[i + 1..])
  {
    var tail := Split(id[i + 1..], "-");
    assert Split(id, "-") == [id[..i]] + tail;
    var caps := CapitalizeAll([id[..i]] + tail);
    assert caps == [Capitalize(id[..i])] + CapitalizeAll(tail);
    assert caps[1..] == CapitalizeAll(tail);
  }

  /** `Relabel` at a '-' that no earlier '-' precedes. */
  lemma RelabelCons(id: string, i: nat)
    requires i < |id| && id[i] == '-'
    requires forall k :: 0 <= k < i ==> id[k] != '-'
    ensures Capitalize(id[..i]) + " " + Relabel(id[i + 1..]) == Relabel(id)
  {
    var rest := id[i + 1..];
    var lhs := Capitalize(id[..i]) + " " + Relabel(rest);
    forall k | 0 <= k < |id| ensures lhs[k] == Relabel(id)[k] {
      if k > i {
        assert lhs[k] == Relabel(rest)[k - i - 1];
        assert rest[k - i - 1] == id[k];
        if k > i + 1 {
          assert rest[k - i - 2] == id[k - 1];
        }
      }
    }
  }

  /** A derived label has the id's length, contains no '-', and has a space exactly where the id has '-' or a space. */
  lemma GenericLabelShape(id: string)
    requires id !in SpecialCases
    ensures |FormatModelName(id)| == |id|
    ensures forall k :: 0 <= k < |id| ==> FormatModelName(id)[k] != '-'
    ensures forall k :: 0 <= k < |id| ==> (FormatModelName(id)[k] == ' ' <==> id[k] == '-' || id[k] == ' ')
  {
    var name := FormatModelName(id);
    assert name == Relabel(id);
    RelabelShape(id);
  }

  /** `Relabel` keeps the length, removes every '-', and puts a space exactly where the id has '-' or a space. */
  lemma RelabelShape(id: string)
    ensures forall k :: 0 <= k < |id| ==> Relabel(id)[k] != '-'
    ensures forall k :: 0 <= k < |id| ==> (Relabel(id)[k] == ' ' <==> id[k] == '-' || id[k] == ' ')
  {
    var r := Relabel(id);
    forall k | 0 <= k < |id|
      ensures r[k] != '-'
      ensures r[k] == ' ' <==> id[k] == '-' || id[k] == ' '
    {
      var c := id[k];
      assert r[k] == if c == '-' then ' ' else if k == 0 || id[k - 1] == '-' then UpperAscii(c) else c;
    }
  }

  /** `PROVIDER_MODELS` for a list of ids: value is the id, label its formatted name, order kept. */
  function Options(ids: seq<string>): (opts: seq<ModelOption>)
    ensures |opts| == |ids|
    ensures forall k :: 0 <= k < |ids| ==> opts[k].value == ids[k] && opts[k].display == FormatModelName(ids[k])
  {
    seq(|ids|, k requires 0 <= k < |ids| => ModelOption(ids[k], FormatModelName(ids[k])))
  }

  const OllamaOptions: seq<ModelOption> := [
    ModelOption("llama3.2", "Llama 3.2"),
    ModelOption("llama3.1", "Llama 3.1"),
    ModelOption("mistral", "Mistral"),
    ModelOption("codellama", "Code Llama")]

  /** `PROVIDER_MODELS[provider]`, with the empty list for a provider it does not name. */
  function ProviderModels(provider: string): (models: seq<ModelOption>)
    ensures models == [] <==> provider != "openai" && provider != "anthropic" && provider != "ollama"
    ensures provider == "openai" ==> |models| == |OpenAiModels| && forall k :: 0 <= k < |models| ==> models[k].value == OpenAiModels[k]
    ensures provider == "anthropic" ==> |models| == |AnthropicModels| && forall k :: 0 <= k < |models| ==> models[k].value == AnthropicModels[k]
  {
    if provider == "openai" then Options(OpenAiModels)
    else if provider == "anthropic" then Options(AnthropicModels)
    else if provider == "ollama" then OllamaOptions
    else []
  }

  /** The values of a provider's list are the provider's ids, in order. */
  function Values(opts: seq<ModelOption>): (vs: seq<string>)
    ensures |vs| == |opts|
    ensures forall k :: 0 <= k < |opts| ==> vs[k] == opts[k].value
  {
    seq(|opts|, k requires 0 <= k < |opts| => opts[k].value)
  }

  /** The openai and anthropic lists keep the id tables' order and contents. */
  lemma ProviderValues()
    ensures Values(ProviderModels("openai")) == OpenAiModels
    ensures Values(ProviderModels("anthropic")) == AnthropicModels
    ensures |ProviderModels("ollama")| == 4
  {
  }
}
