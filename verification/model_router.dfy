/** Dispatch of a completion request to a model backend
    (`ModelRouter._select_backend` in backend/app/modeling/router.py): a
    decision table on the model type and the case-folded provider name. */
module ModelRouter {
  import opened Text
  import opened Wrappers

  /** The backends a router can hand a request to. `LocalEcho` is the
      local echo backend the application wiring constructs; the router as
      written never selects it (see `SelectWithEcho`). */
  datatype Backend = LocalEcho | LocalOllama | LocalLlamaCpp | OpenAI | HuggingFace

  /** The `ValueError`s the router raises, which the API turns into HTTP
      400 responses. */
  datatype RouteError = BadLocalProvider | BadApiProvider | UnsupportedType

  function RouteMessage(e: RouteError): string {
    match e
    case BadLocalProvider => "Local modelConfig.provider must be 'ollama' or 'llamacpp'"
    case BadApiProvider => "API modelConfig.provider must be 'openai' or 'hf'"
    case UnsupportedType => "Unsupported model type"
  }

  /** `(provider or "").lower()`. */
  function ProviderKey(provider: Option<string>): string {
    Lower(provider.GetOr(""))
  }

  /** `_select_backend` on `modelConfig.type` and `modelConfig.provider`. */
  function SelectBackend(modelType: string, provider: Option<string>): (r: Result<Backend, RouteError>)
    ensures r.Success? && r.value in {LocalOllama, LocalLlamaCpp} ==> modelType == "local"
    ensures r.Success? && r.value in {OpenAI, HuggingFace} ==> modelType == "api"
    ensures r == Failure(UnsupportedType) <==> modelType != "local" && modelType != "api"
    ensures r != Success(LocalEcho)
  {
    if modelType == "local" then
      var p := ProviderKey(provider);
      if p in ["ollama"] then Success(LocalOllama)
      else if p in ["llamacpp", "llama.cpp", "llama-cpp"] then Success(LocalLlamaCpp)
      else Failure(BadLocalProvider)
    else if modelType == "api" then
      var p := ProviderKey(provider);
      if p in ["openai", "oai"] then Success(OpenAI)
      else if p in ["hf", "huggingface", "hugging-face"] then Success(HuggingFace)
      else Failure(BadApiProvider)
    else Failure(UnsupportedType)
  }

  /** The dispatch table written out: every accepted (type, provider)
      pair and its backend. */
  const Table: map<(string, string), Backend> := map[
    ("local", "ollama") := LocalOllama,
    ("local", "llamacpp") := LocalLlamaCpp,
    ("local", "llama.cpp") := LocalLlamaCpp,
    ("local", "llama-cpp") := LocalLlamaCpp,
    ("api", "openai") := OpenAI,
    ("api", "oai") := OpenAI,
    ("api", "hf") := HuggingFace,
    ("api", "huggingface") := HuggingFace,
    ("api", "hugging-face") := HuggingFace
  ]

  /** The router answers exactly as the table does, and a pair missing
      from the table is rejected with the error for its type. */
  lemma SelectMatchesTable(modelType: string, provider: Option<string>)
    ensures var key := (modelType, ProviderKey(provider));
      && (key in Table ==> SelectBackend(modelType, provider) == Success(Table[key]))
      && (key !in Table && modelType == "local" ==> SelectBackend(modelType, provider) == Failure(BadLocalProvider))
      && (key !in Table && modelType == "api" ==> SelectBackend(modelType, provider) == Failure(BadApiProvider))
  {
  }

  lemma LowerIdempotent(s: string)
    ensures Lower(Lower(s)) == Lower(s)
  {
  }

  /** The provider is read without regard to ASCII case, and a missing
      provider behaves as the empty one, which is always rejected. */
  lemma ProviderCaseInsensitive(modelType: string, p: string)
    ensures SelectBackend(modelType, Some(p)) == SelectBackend(modelType, Some(Lower(p)))
    ensures SelectBackend(modelType, None) == SelectBackend(modelType, Some(""))
    ensures SelectBackend(modelType, None).Failure?
  {
    LowerIdempotent(p);
  }

  /** An upper-case local provider name is accepted. */
  lemma UpperCaseOllama()
    ensures SelectBackend("local", Some("OLLAMA")) == Success(LocalOllama)
  {
    var l := Lower("OLLAMA");
    assert l[0] == 'o' && l[1] == 'l' && l[2] == 'l' && l[3] == 'a' && l[4] == 'm' && l[5] == 'a';
    assert l == "ollama";
  }

  /** A mixed-case spelling of an alias of llama.cpp is accepted. */
  lemma MixedCaseLlamaCpp()
    ensures SelectBackend("local", Some("Llama.CPP")) == Success(LocalLlamaCpp)
  {
    var l := Lower("Llama.CPP");
    assert l[0] == 'l' && l[1] == 'l' && l[2] == 'a' && l[3] == 'm' && l[4] == 'a';
    assert l[5] == '.' && l[6] == 'c' && l[7] == 'p' && l[8] == 'p';
    assert l == "llama.cpp";
  }

  /** A local provider name is rejected when the type says "api". */
  lemma LocalProviderUnderApi()
    ensures SelectBackend("api", Some("ollama")) == Failure(BadApiProvider)
  {
    var l := Lower("ollama");
    assert l == "ollama";
  }

  // ---------------------------------------------------------------------
  // The local echo provider
  // ---------------------------------------------------------------------

  /** The router as written turns the local provider "echo" away, although
      the application wires a local echo backend into it and the
      completion endpoint is expected to answer such a request from the
      local side. */
  lemma EchoRejected()
    ensures SelectBackend("local", Some("echo")) == Failure(BadLocalProvider)
  {
    var l := Lower("echo");
    assert l[0] == 'e' && l[1] == 'c' && l[2] == 'h' && l[3] == 'o';
    assert l == "echo";
  }

  /** The router with the local echo backend in its table: a local request
      naming "echo" in any ASCII case goes to that backend, and every other
      request is routed exactly as before. */
  function SelectWithEcho(modelType: string, provider: Option<string>): (r: Result<Backend, RouteError>)
    ensures r == Success(LocalEcho) <==> modelType == "local" && ProviderKey(provider) == "echo"
    ensures !(modelType == "local" && ProviderKey(provider) == "echo") ==> r == SelectBackend(modelType, provider)
    ensures SelectBackend(modelType, provider).Success? ==> r == SelectBackend(modelType, provider)
  {
    if modelType == "local" && ProviderKey(provider) == "echo" then Success(LocalEcho)
    else SelectBackend(modelType, provider)
  }

  /** With the echo backend in place, the local "echo" request is served
      locally, and the API side still has no echo provider. */
  lemma EchoServedLocally()
    ensures SelectWithEcho("local", Some("echo")) == Success(LocalEcho)
    ensures SelectWithEcho("local", Some("Echo")) == Success(LocalEcho)
    ensures SelectWithEcho("api", Some("echo")) == Failure(BadApiProvider)
  {
    var l := Lower("echo");
    assert l[0] == 'e' && l[1] == 'c' && l[2] == 'h' && l[3] == 'o';
    assert l == "echo";
    var m := Lower("Echo");
    assert m[0] == 'e' && m[1] == 'c' && m[2] == 'h' && m[3] == 'o';
    assert m == "echo";
  }
}
