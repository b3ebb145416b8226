/** Provider Dispatcher, retry part: at most MaxRetries attempts; stop on the
    first OK response; after a 429 that is not on the last attempt, wait
    2^i * 1000 ms plus a jitter below 1000 ms and try again; stop on
    anything else. */
module Retry {

  import opened Wrappers
  import opened Config
  import opened Upstream

  function Pow2(n: nat): (r: nat)
    ensures r >= 1
  {
    if n == 0 then 1 else 2 * Pow2(n - 1)
  }

  /** The wait, in milliseconds, after attempt i (counted from 0). */
  function Backoff(attempt: nat, jitter: nat): (r: nat)
    ensures r >= 1000
    ensures jitter < 1000 ==> r / 1000 == Pow2(attempt)
  {
    Pow2(attempt) * 1000 + jitter
  }

  /** Each wait is more than the one before, whatever the jitters. */
  lemma BackoffGrows(attempt: nat, jitter: nat, nextJitter: nat)
    requires jitter < 1000
    ensures Backoff(attempt, jitter) < Backoff(attempt + 1, nextJitter)
  {
  }

  /** The state machine of the loop from attempt n on: the number of
      attempts made in total. */
  function AttemptsFrom(exchanges: seq<Exchange>, n: nat): (r: nat)
    requires n < MaxRetries <= |exchanges|
    ensures n < r <= MaxRetries
    decreases MaxRetries - n
  {
    if exchanges[n].Succeeded() then n + 1
    else if exchanges[n].RateLimited() && n < MaxRetries - 1 then AttemptsFrom(exchanges, n + 1)
    else n + 1
  }

  /** The number of outbound calls the loop makes against these answers. */
  function AttemptsMade(exchanges: seq<Exchange>): (r: nat)
    requires |exchanges| >= MaxRetries
    ensures 1 <= r <= MaxRetries
  {
    AttemptsFrom(exchanges, 0)
  }

  /** The loop may stop after n attempts: every earlier attempt was
      rate limited, and the n-th was not unless it was the last allowed. */
  ghost predicate StopsAfter(exchanges: seq<Exchange>, n: nat)
    requires |exchanges| >= MaxRetries
  {
    1 <= n <= MaxRetries &&
    (forall k :: 0 <= k < n - 1 ==> exchanges[k].RateLimited()) &&
    (n < MaxRetries ==> !exchanges[n - 1].RateLimited())
  }

  lemma {:induction false} AttemptsFromStops(exchanges: seq<Exchange>, n: nat)
    requires n < MaxRetries <= |exchanges|
    ensures forall k :: n <= k < AttemptsFrom(exchanges, n) - 1 ==> exchanges[k].RateLimited()
    ensures AttemptsFrom(exchanges, n) < MaxRetries ==> !exchanges[AttemptsFrom(exchanges, n) - 1].RateLimited()
    decreases MaxRetries - n
  {
    if !exchanges[n].Succeeded() && exchanges[n].RateLimited() && n < MaxRetries - 1 {
      AttemptsFromStops(exchanges, n + 1);
    }
  }

  /** The attempt count is exactly the one stopping point: n attempts are
      made if and only if the first n - 1 answers were 429 and the n-th
      was not (or n is the limit). */
  lemma AttemptsMadeCharacterized(exchanges: seq<Exchange>, n: nat)
    requires |exchanges| >= MaxRetries
    ensures AttemptsMade(exchanges) == n <==> StopsAfter(exchanges, n)
  {
    AttemptsFromStops(exchanges, 0);
    var m := AttemptsMade(exchanges);
    assert StopsAfter(exchanges, m);
    if StopsAfter(exchanges, n) {
      // mention both stopping answers so that each StopsAfter's quantifier
      // can speak about the other's
      var atN, atM := exchanges[n - 1], exchanges[m - 1];
      assert atN.RateLimited() || atM.RateLimited() || n == m;
    }
  }

  /** A provider that answers 429 every time gets exactly MaxRetries calls,
      and the last answer is still 429. */
  lemma AlwaysRateLimited(exchanges: seq<Exchange>)
    requires |exchanges| >= MaxRetries
    requires forall k :: 0 <= k < MaxRetries ==> exchanges[k].RateLimited()
    ensures AttemptsMade(exchanges) == MaxRetries
    ensures exchanges[AttemptsMade(exchanges) - 1].RateLimited()
  {
    AttemptsMadeCharacterized(exchanges, MaxRetries);
  }

  /** No call follows a success: after k rate-limited answers, an OK answer
      ends the loop with k + 1 calls. */
  lemma FirstSuccessStops(exchanges: seq<Exchange>, k: nat)
    requires |exchanges| >= MaxRetries && k < MaxRetries
    requires forall i :: 0 <= i < k ==> exchanges[i].RateLimited()
    requires exchanges[k].Succeeded()
    ensures AttemptsMade(exchanges) == k + 1
  {
    AttemptsMadeCharacterized(exchanges, k + 1);
  }

  /** An answer that is not 429, OK or not, ends the loop at once. */
  lemma FirstAnswerNotRateLimited(exchanges: seq<Exchange>)
    requires |exchanges| >= MaxRetries
    requires !exchanges[0].RateLimited()
    ensures AttemptsMade(exchanges) == 1
  {
    AttemptsMadeCharacterized(exchanges, 1);
  }

  /** The result of the loop: the provider was unknown and nothing was sent,
      or the loop ended after `attempts` calls with the last exchange. */
  datatype DispatchOutcome = InvalidProvider | Completed(attempts: nat, last: Exchange)

  /** The retry loop of the handler. `exchanges[i]` is what the fetch of
      attempt i yields; `jitters[i]` is the random part of the wait after
      attempt i. Returns the outcome, the calls made and the waits taken. */
  method Dispatch(providerId: string, prompt: string, exchanges: seq<Exchange>, jitters: seq<nat>)
      returns (outcome: DispatchOutcome, calls: seq<Request>, waits: seq<nat>)
    requires |exchanges| >= MaxRetries && |jitters| >= MaxRetries - 1
    requires forall k :: 0 <= k < |jitters| ==> jitters[k] < 1000
    ensures ParseProvider(providerId).None? ==> outcome == InvalidProvider && calls == [] && waits == []
    ensures ParseProvider(providerId).Some? ==>
      && outcome == Completed(AttemptsMade(exchanges), exchanges[AttemptsMade(exchanges) - 1])
      && |calls| == AttemptsMade(exchanges)
      && (forall c :: c in calls ==> c == Request(ParseProvider(providerId).value, prompt))
      && |waits| == AttemptsMade(exchanges) - 1
      && (forall k :: 0 <= k < |waits| ==> waits[k] == Backoff(k, jitters[k]))
    ensures forall k :: 0 <= k < |waits| ==> Pow2(k) * 1000 <= waits[k] < Pow2(k) * 1000 + 1000
    ensures forall k :: 0 <= k < |waits| - 1 ==> waits[k] < waits[k + 1]
  {
    var provider := ParseProvider(providerId);
    var response: Option<Exchange> := None;
    calls, waits := [], [];
    var i := 0;
    while i < MaxRetries
      invariant 0 <= i < MaxRetries
      invariant provider.None? ==> i == 0
      invariant |calls| == i && |waits| == i
      invariant forall c :: c in calls ==> provider.Some? && c == Request(provider.value, prompt)
      invariant forall k :: 0 <= k < i ==> exchanges[k].RateLimited()
      invariant forall k :: 0 <= k < i ==> waits[k] == Backoff(k, jitters[k])
    {
      match provider {
        case Some(p) =>
          calls := calls + [Request(p, prompt)];
          response := Some(exchanges[i]);
        case None =>
          outcome := InvalidProvider;
          return;
      }
      if exchanges[i].Succeeded() {
        break;
      }
      if exchanges[i].RateLimited() && i < MaxRetries - 1 {
        waits := waits + [Backoff(i, jitters[i])];
      } else {
        // any other status, a 429 on the last attempt, or a rejected fetch
        break;
      }
      i := i + 1;
    }
    AttemptsMadeCharacterized(exchanges, i + 1);
    outcome := Completed(i + 1, response.value);
    forall k | 0 <= k < |waits| - 1
      ensures waits[k] < waits[k + 1]
    {
      BackoffGrows(k, jitters[k], jitters[k + 1]);
    }
  }
}
