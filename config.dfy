/** Process-wide, read-only configuration of the request handler:
    which LLM provider is called and how many attempts the retry loop may make. */
module Config {

  import opened Wrappers

  /** The two provider back ends the handler knows how to call. */
  datatype Provider = OpenAI | Gemini {
    /** The identifier the configuration uses for this provider. */
    function Name(): string {
      match this
      case OpenAI => "openai"
      case Gemini => "gemini"
    }
  }

  /** Maximum number of outbound attempts per request (MAX_RETRIES). */
  const MaxRetries: nat := 3

  /** The provider identifier the server is configured with (PROVIDER). */
  const ConfiguredProviderId: string := "openai"

  /** The handler compares the configured identifier against the two known
      names; anything else is an unknown provider. */
  function ParseProvider(id: string): (r: Option<Provider>)
    ensures r.Some? ==> r.value.Name() == id
    ensures r.None? <==> (forall p: Provider :: p.Name() != id)
  {
    if id == "gemini" then Some(Gemini)
    else if id == "openai" then Some(OpenAI)
    else None
  }

  /** Parsing a provider's own name gives that provider back. */
  lemma ParseName(p: Provider)
    ensures ParseProvider(p.Name()) == Some(p)
  {
  }

  /** The shipped configuration selects the OpenAI back end. */
  lemma ConfiguredProviderIsOpenAI()
    ensures ParseProvider(ConfiguredProviderId) == Some(OpenAI)
  {
  }
}
