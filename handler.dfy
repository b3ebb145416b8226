/** The `/api/` request handler: build the prompt from the template and the
    request body, run the retry loop against the configured provider, and
    reply with the answer text or an error. */
module Handler {

  import opened Wrappers
  import opened Config
  import opened Upstream
  import opened PromptBuilder
  import opened Retry
  import opened Outcome

  /** The reply the handler sends for the given configuration and provider
      answers. */
  function ExpectedReply(providerId: string, exchanges: seq<Exchange>): Reply
    requires |exchanges| >= MaxRetries
  {
    match ParseProvider(providerId)
    case None => Reply(500, Error("Invalid PROVIDER: " + providerId, None))
    case Some(p) => Respond(p, exchanges[AttemptsMade(exchanges) - 1])
  }

  /** The handler body. The template is the text of the prompt file, the
      body the request's JSON fields in order; `exchanges` and `jitters`
      stand for the network and the random part of each wait. */
  method Handle(template: string, body: seq<Field>, providerId: string,
                exchanges: seq<Exchange>, jitters: seq<nat>)
      returns (reply: Reply, calls: seq<Request>, waits: seq<nat>)
    requires WellFormedBody(body)
    requires |exchanges| >= MaxRetries && |jitters| >= MaxRetries - 1
    requires forall k :: 0 <= k < |jitters| ==> jitters[k] < 1000
    ensures reply == ExpectedReply(providerId, exchanges)
    ensures ParseProvider(providerId).None? ==>
      reply == Reply(500, Error("Invalid PROVIDER: " + providerId, None)) && calls == []
    ensures ParseProvider(providerId).Some? ==> 1 <= |calls| == AttemptsMade(exchanges) <= MaxRetries
    ensures forall c :: c in calls ==> c.prompt == Substitute(template, body)
    ensures |waits| == |calls| - 1 || (calls == [] && waits == [])
    ensures forall k :: 0 <= k < |waits| ==> Pow2(k) * 1000 <= waits[k] < Pow2(k) * 1000 + 1000
  {
    var prompt := BuildPrompt(template, body);
    var outcome;
    outcome, calls, waits := Dispatch(providerId, prompt, exchanges, jitters);
    match outcome {
      case InvalidProvider =>
        reply := Reply(500, Error("Invalid PROVIDER: " + providerId, None));
      case Completed(_, last) =>
        reply := Respond(ParseProvider(providerId).value, last);
    }
  }

  /** A provider that answers 429 every time: three calls, then the client
      gets 429 with the rate-limit message and the last body as details. */
  lemma AlwaysRateLimitedReply(p: Provider, exchanges: seq<Exchange>)
    requires |exchanges| >= MaxRetries
    requires forall k :: 0 <= k < MaxRetries ==> exchanges[k].RateLimited()
    ensures AttemptsMade(exchanges) == MaxRetries
    ensures ExpectedReply(p.Name(), exchanges)
         == Reply(TooManyRequests, Error(RateLimitMessage(), Some(exchanges[MaxRetries - 1].response.text)))
  {
    ParseName(p);
    AlwaysRateLimited(exchanges);
  }

  /** A 429 followed by an OK answer carrying text: two calls and the text. */
  lemma RetryThenSuccessReply(p: Provider, exchanges: seq<Exchange>, text: string)
    requires |exchanges| >= MaxRetries
    requires exchanges[0].RateLimited()
    requires exchanges[1].Succeeded() && exchanges[1].response.json == Parsed(Wrap(p, text))
    ensures AttemptsMade(exchanges) == 2
    ensures ExpectedReply(p.Name(), exchanges) == Reply(200, Answer(text))
  {
    ParseName(p);
    FirstSuccessStops(exchanges, 1);
  }

  /** Any other failure status on the first call: one call, and the client
      gets that status, the generic message and the body as details. */
  lemma OtherFailureReply(p: Provider, exchanges: seq<Exchange>)
    requires |exchanges| >= MaxRetries
    requires exchanges[0].Answered? && !exchanges[0].response.Ok() && !exchanges[0].RateLimited()
    ensures AttemptsMade(exchanges) == 1
    ensures ExpectedReply(p.Name(), exchanges)
         == Reply(exchanges[0].response.status,
                  Error(ApiErrorMessage(p, exchanges[0].response.statusText), Some(exchanges[0].response.text)))
  {
    ParseName(p);
    FirstAnswerNotRateLimited(exchanges);
  }

  /** After any number of 429s within the limit, an OK answer whose envelope
      holds text along the provider's path is relayed with status 200. */
  lemma SuccessAfterRetriesReply(p: Provider, exchanges: seq<Exchange>, k: nat, text: string)
    requires |exchanges| >= MaxRetries && k < MaxRetries
    requires forall i :: 0 <= i < k ==> exchanges[i].RateLimited()
    requires exchanges[k].Succeeded() && exchanges[k].response.json == Parsed(Wrap(p, text))
    ensures ExpectedReply(p.Name(), exchanges) == Reply(200, Answer(text))
  {
    ParseName(p);
    FirstSuccessStops(exchanges, k);
  }

  /** The client sees status 429 exactly when the last of the calls was
      answered with 429. */
  lemma RateLimitedReplyIff(p: Provider, exchanges: seq<Exchange>)
    requires |exchanges| >= MaxRetries
    ensures ExpectedReply(p.Name(), exchanges).status == TooManyRequests
        <==> exchanges[AttemptsMade(exchanges) - 1].RateLimited()
  {
    ParseName(p);
  }
}
