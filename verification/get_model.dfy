/**
 * Choosing the model provider from the model name: `isOpenAIModel`, and
 * `getModel` returning which provider is asked for which name instead of
 * the SDK objects the program builds.
 */
module GetModel {
  import opened Wrappers
  import opened Strings

  const DefaultModelName: string := "gpt-5.2"
  const ClaudePrefix: string := "claude-"
  const GeminiPrefix: string := "gemini-"
  const OllamaPrefix: string := "ollama-"

  /** No name, an empty name, or the default model's name. */
  predicate DefaultRequest(m: Option<string>) {
    m.None? || m.value == "" || m.value == DefaultModelName
  }

  /** A name with one of the prefixes of the providers other than OpenAI. */
  predicate OtherProviderName(name: string) {
    StartsWith(name, ClaudePrefix) || StartsWith(name, GeminiPrefix) || StartsWith(name, OllamaPrefix)
  }

  /** `isOpenAIModel`. */
  function IsOpenAIModel(m: Option<string>): (r: bool)
    ensures DefaultRequest(m) ==> r
    ensures m.Some? && OtherProviderName(m.value) ==> !r
    ensures !r ==> m.Some? && OtherProviderName(m.value)
  {
    if DefaultRequest(m) then
      DefaultIsOpenAI();
      true
    else
      assert m.value != DefaultModelName;
      !OtherProviderName(m.value)
  }

  /** Neither the empty name nor the default name carries another provider's prefix. */
  lemma DefaultIsOpenAI()
    ensures !OtherProviderName("") && !OtherProviderName(DefaultModelName)
  {
    assert DefaultModelName[0] == 'g' && ClaudePrefix[0] == 'c' && OllamaPrefix[0] == 'o';
    assert DefaultModelName[1] == 'p' && GeminiPrefix[1] == 'e';
  }

  /** What `getModel` hands back: the default name itself, or a provider and the name it is given. */
  datatype Choice =
    | DefaultName(name: string)
    | Anthropic(name: string)
    | Google(name: string)
    | Ollama(name: string, baseUrl: Option<string>)   // a custom endpoint when one is configured
    | OpenAI(name: string)

  /**
   * `getModel`; `ollamaBaseUrl` is the `OLLAMA_BASE_URL` environment value,
   * used only when it is non-empty.
   */
  function GetModel(m: Option<string>, defaultModel: string, ollamaBaseUrl: Option<string>): (r: Choice)
    ensures DefaultRequest(m) <==> r == DefaultName(defaultModel)
    ensures r.Anthropic? || r.Google? || r.OpenAI? ==> m == Some(r.name)
    ensures r.Anthropic? <==> !DefaultRequest(m) && StartsWith(m.value, ClaudePrefix)
    ensures r.Ollama? ==> m == Some(OllamaPrefix + r.name)
    ensures r.Ollama? ==> (r.baseUrl.Some? <==> ollamaBaseUrl.Some? && ollamaBaseUrl.value != "")
  {
    if DefaultRequest(m) then DefaultName(defaultModel)
    else
      var name := m.value;
      if StartsWith(name, ClaudePrefix) then Anthropic(name)
      else if StartsWith(name, GeminiPrefix) then Google(name)
      else if StartsWith(name, OllamaPrefix) then
        assert name == OllamaPrefix + name[|OllamaPrefix|..];
        Ollama(name[|OllamaPrefix|..], if ollamaBaseUrl.Some? && ollamaBaseUrl.value != "" then ollamaBaseUrl else None)
      else OpenAI(name)
  }

  /** A model counts as OpenAI exactly when `getModel` returns the default name or an OpenAI model. */
  lemma OpenAIExactlyWhenOpenAIChosen(m: Option<string>, defaultModel: string, ollamaBaseUrl: Option<string>)
    ensures IsOpenAIModel(m) <==> GetModel(m, defaultModel, ollamaBaseUrl).DefaultName? || GetModel(m, defaultModel, ollamaBaseUrl).OpenAI?
  {
  }

  /** Each prefix selects its provider, whatever follows it; Ollama gets the name without its prefix. */
  lemma {:induction false} ProviderByPrefix(rest: string, defaultModel: string, url: Option<string>)
    ensures GetModel(Some(ClaudePrefix + rest), defaultModel, url) == Anthropic(ClaudePrefix + rest)
    ensures GetModel(Some(GeminiPrefix + rest), defaultModel, url).Google?
    ensures GetModel(Some(OllamaPrefix + rest), defaultModel, url).Ollama?
    ensures GetModel(Some(OllamaPrefix + rest), defaultModel, url).name == rest
  {
    var c := ClaudePrefix + rest;
    var g := GeminiPrefix + rest;
    var o := OllamaPrefix + rest;
    assert c[..|ClaudePrefix|] == ClaudePrefix && c[0] == 'c';
    assert g[..|GeminiPrefix|] == GeminiPrefix && g[0] == 'g' && g[1] == 'e';
    assert o[..|OllamaPrefix|] == OllamaPrefix && o[0] == 'o';
    assert DefaultModelName[1] == 'p';
    assert o[|OllamaPrefix|..] == rest;
  }
}
