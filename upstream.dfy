/** What the handler sends to and receives from the provider. The network
    call itself is not modelled: each attempt's answer is taken from an
    oracle sequence of exchanges. */
module Upstream {

  import opened Config

  /** HTTP 429 Too Many Requests (section 4 of RFC 6585). */
  const TooManyRequests: int := 429

  /** One outbound call: the provider it goes to and the prompt it carries. */
  datatype Request = Request(provider: Provider, prompt: string)

  /** OpenAI-style success envelope: `{choices: [{message: {content}}]}`. */
  datatype ChatMessage = ChatMessage(content: string)
  datatype Choice = Choice(message: ChatMessage)

  /** Gemini-style success envelope: `{candidates: [{content: {parts: [{text}]}}]}`. */
  datatype Part = Part(text: string)
  datatype CandidateContent = CandidateContent(parts: seq<Part>)
  datatype Candidate = Candidate(content: CandidateContent)

  /** The parsed JSON body of a reply, reduced to the two arrays the handler
      reads; an array the provider did not send is empty. */
  datatype Envelope = Envelope(choices: seq<Choice>, candidates: seq<Candidate>)

  /** The outcome of reading the body as JSON. */
  datatype JsonBody = Parsed(envelope: Envelope) | Malformed(reason: string)

  /** An HTTP response from the provider. */
  datatype Response = Response(status: int, statusText: string, text: string, json: JsonBody) {
    /** `response.ok`: a 2xx status. */
    predicate Ok() {
      200 <= status <= 299
    }
  }

  /** What one fetch produced: a response, or a transport failure that
      rejects the call with a message. */
  datatype Exchange = Answered(response: Response) | TransportError(message: string) {
    predicate Succeeded() {
      Answered? && response.Ok()
    }

    predicate RateLimited() {
      Answered? && response.status == TooManyRequests
    }
  }
}
