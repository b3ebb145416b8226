/** Provider Dispatcher, outcome part: turn the last exchange of the retry
    loop into the reply the client receives, either an error with the
    upstream status or the answer text read along the provider's path. */
module Outcome {

  import opened Wrappers
  import opened Config
  import opened Upstream

  datatype ReplyBody = Answer(outputText: string) | Error(error: string, details: Option<string>)

  /** The HTTP reply of the handler: a status and a JSON body. */
  datatype Reply = Reply(status: int, body: ReplyBody)

  function DigitChar(d: nat): char
    requires d < 10
  {
    "0123456789"[d]
  }

  /** The decimal text of a natural number, as template interpolation writes it. */
  function NatToString(n: nat): string
    decreases n
  {
    if n < 10 then [DigitChar(n)] else NatToString(n / 10) + [DigitChar(n % 10)]
  }

  /** The generic message for a failed call. */
  function ApiErrorMessage(p: Provider, statusText: string): (r: string)
    ensures |r| > |statusText| && r[|r| - |statusText|..] == statusText
    ensures |r| >= 10 && r[..10] == "API Error "
  {
    "API Error (" + p.Name() + "): " + statusText
  }

  /** The message that replaces the generic one when the retries ended on 429. */
  function RateLimitMessage(): (r: string)
    ensures |r| >= 10 && r[..10] != "API Error "
  {
    var head := "API rate ";
    var msg := head + "limit exceeded. Please wait a moment and try again. (All " + NatToString(MaxRetries) + " retries failed)";
    assert msg[4] == head[4] == 'r' && "API Error "[4] == 'E';
    assert msg[..10][4] == msg[4];
    msg
  }

  /** The runtime's message when the answer path reads past a missing array
      element. */
  const MissingFieldMessage: string := "Cannot read properties of undefined"

  /** The answer text along the provider's path: `choices[0].message.content`
      for OpenAI, `candidates[0].content.parts[0].text` for Gemini; None when
      an array on the path is empty. */
  function AnswerText(p: Provider, env: Envelope): (r: Option<string>)
    ensures p.OpenAI? ==> (r.Some? <==> env.choices != [])
    ensures p.Gemini? ==> (r.Some? <==> env.candidates != [] && env.candidates[0].content.parts != [])
  {
    match p
    case OpenAI =>
      if |env.choices| > 0 then Some(env.choices[0].message.content) else None
    case Gemini =>
      if |env.candidates| > 0 && |env.candidates[0].content.parts| > 0
      then Some(env.candidates[0].content.parts[0].text)
      else None
  }

  /** The success envelope a provider sends for an answer text. Reading it
      back along that provider's path gives the text; the other provider's
      path finds nothing in it. */
  function Wrap(p: Provider, text: string): (env: Envelope)
    ensures AnswerText(p, env) == Some(text)
    ensures forall q: Provider :: q != p ==> AnswerText(q, env) == None
  {
    match p
    case OpenAI => Envelope([Choice(ChatMessage(text))], [])
    case Gemini => Envelope([], [Candidate(CandidateContent([Part(text)]))])
  }

  /** The reply for the last exchange of the retry loop. */
  function Respond(p: Provider, last: Exchange): (reply: Reply)
    ensures reply.body.Answer? <==>
      last.Succeeded() && last.response.json.Parsed? && AnswerText(p, last.response.json.envelope).Some?
    ensures reply.body.Answer? ==>
      reply.status == 200 && Some(reply.body.outputText) == AnswerText(p, last.response.json.envelope)
    ensures last.Answered? && !last.response.Ok() ==>
      reply.status == last.response.status && reply.body.Error? && reply.body.details == Some(last.response.text)
    ensures last.RateLimited() ==> reply.body == Error(RateLimitMessage(), Some(last.response.text))
    ensures last.Answered? && !last.response.Ok() && !last.RateLimited() ==>
      reply.body.error == ApiErrorMessage(p, last.response.statusText)
    ensures reply.status == TooManyRequests <==> last.RateLimited()
    ensures last.TransportError? ==> reply == Reply(500, Error(last.message, None))
    ensures last.Succeeded() && !(last.response.json.Parsed? && AnswerText(p, last.response.json.envelope).Some?) ==>
      reply.status == 500 && reply.body.Error? && reply.body.details == None
    ensures last.Succeeded() && last.response.json.Malformed? ==>
      reply.body.error == last.response.json.reason
    ensures last.Succeeded() && last.response.json.Parsed? && AnswerText(p, last.response.json.envelope).None? ==>
      reply.body.error == MissingFieldMessage
  {
    match last
    case TransportError(message) => Reply(500, Error(message, None))
    case Answered(response) =>
      if !response.Ok() then
        var message := if response.status == TooManyRequests then RateLimitMessage()
                       else ApiErrorMessage(p, response.statusText);
        Reply(response.status, Error(message, Some(response.text)))
      else
        match response.json
        case Malformed(reason) => Reply(500, Error(reason, None))
        case Parsed(env) =>
          match AnswerText(p, env)
          case Some(text) => Reply(200, Answer(text))
          case None => Reply(500, Error(MissingFieldMessage, None))
  }

  /** The rate-limit message names the number of attempts. */
  lemma RateLimitMessageText()
    ensures RateLimitMessage()
      == "API rate " + "limit exceeded. Please wait a moment and try again. (All " + "3" + " retries failed)"
  {
    assert NatToString(MaxRetries) == "3";
  }
}
