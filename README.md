# aitravel request handler, modelled in Dafny

The aitravel backend has one endpoint, `POST /api/`. It reads a prompt template, fills `${name}` placeholders from the fields of the JSON request body and sends the prompt to one LLM provider (OpenAI-style or Gemini-style). It retries with exponential backoff while the provider answers 429 and returns either the answer text or an error to the browser. This project models that handler body in server.js:

- `Config`: the provider (`OpenAI | Gemini`), the configured identifier and `MaxRetries = 3`.
- `PromptBuilder`: the substitution loop, as a method over `seq<char>` proved against a fold of global literal replacement.
- `Upstream`: the data that passes over the wire. This is the outbound request (provider and prompt), the provider's response and the two success envelopes.
- `Retry`: the counted retry loop, as a method proved against a small state-machine function, and the backoff waits.
- `Outcome`: how the last exchange turns into the reply. This covers the error messages and the provider-specific answer path.
- `Handler`: the whole handler body, and end-to-end scenarios about the reply it sends.

The network is an oracle. `exchanges[i]` is what the fetch of attempt i yields: a response, or a transport failure that rejects the fetch. The random jitter of the wait after attempt i is `jitters[i]`, an integer in `[0, 1000)`. The template file's text is an input string. The provider identifier is a parameter, so the unknown-provider branch can be reached; the shipped value is `"openai"` (`Config.ConfiguredProviderIsOpenAI`).

Request bodies are limited to this domain (`PromptBuilder.WellFormedBody`):
- keys are plain identifiers, `[A-Za-z_][A-Za-z0-9_]*`, each appearing once;
- values are strings without `$`.

Inside this domain, the handler's regular expression `\$\{key\}` with flag `g` is global replacement of the literal text `${key}`. The replacement string is inserted verbatim.

Fields are applied one after another to the running prompt (server.js:35-37). So later keys are matched against text that earlier values inserted: `${${a}}` with `a = "b"` and then `b = "X"` gives `X` (`PromptBuilder.LaterKeySeesEarlierValue`).

After a key's step the text can contain `${key}` again: `"$" + "${k}" + "{k}"` with the value `""` gives `"${k}"`. What holds, and what `PromptBuilder.ReplaceAround` proves, concerns the occurrences already in the text. Each one is replaced, the text on either side is processed independently, and a placeholder for another key passes through verbatim.

## Model

| member | source | states |
|---|---|---|
| `Config.ParseProvider` | server.js:42-76 | the configured identifier selects a provider exactly when it is that provider's name (`gemini` or `openai`); it is unknown if and only if no provider has that name |
| `Config.ParseName` | server.js:42-76 | each provider's name is recognised as that provider |
| `Config.ConfiguredProviderIsOpenAI` | server.js:14 | the shipped configuration selects the OpenAI back end |
| `PromptBuilder.BuildPrompt` | server.js:34-38 | the loop leaves the prompt equal to the template with every body field applied in order, each one to the prompt the earlier ones produced; an empty body leaves the template unchanged |
| `PromptBuilder.ReplaceAll` | server.js:36-37 | the global literal replace of one key's token: text without the token comes back unchanged (`ReplaceAllNoMatch`), every occurrence already in the text is replaced and other placeholders pass through (`ReplaceAround`, `OtherPlaceholderKept`) |
| `PromptBuilder.Substitute` | server.js:34-38 | the prompt after the body's fields are applied in order; the loop computes it (`BuildPrompt`); it is the template when no key's placeholder occurs (`UnmatchedTemplateUnchanged`), keeps unknown placeholders (`UnknownPlaceholderKept`) and re-scans earlier values (`LaterKeySeesEarlierValue`) |
| `PromptBuilder.ReplaceAllNoMatch` | server.js:37 | replacing a token that does not occur in the text leaves the text unchanged |
| `PromptBuilder.ReplaceAround` | server.js:36-37 | for any occurrence `x + ${j} + y`, one key's global replacement processes x and y independently; the placeholder becomes the value when j is the key and stays verbatim otherwise, so every `${key}` already in the text is replaced |
| `PromptBuilder.UnmatchedTemplateUnchanged` | server.js:34-38 | when no body key's placeholder occurs in the template, the prompt is the template |
| `PromptBuilder.UnknownPlaceholderKept` | server.js:35-37 | a placeholder whose name is not a body key survives all the steps verbatim, with the text around it substituted independently |
| `PromptBuilder.LaterKeySeesEarlierValue` | server.js:35-37 | keys are applied one after another to the updated prompt, so a later key replaces a placeholder that an earlier value completed |
| `PromptBuilder.SingleFieldFill` | server.js:34-38 | a template with one placeholder and `$`-free text around it, filled from a body with just that key, gives prefix + value + suffix |
| `PromptBuilder.TripExample` | server.js:34-38 | `"Recommend a trip to ${area}."` with `area = "Kyoto"` gives `"Recommend a trip to Kyoto."` |
| `Retry.AttemptsFrom` | server.js:41-90 | from attempt n, the loop makes more than n attempts in total and never more than MAX_RETRIES |
| `Retry.AttemptsMade` | server.js:41-90 | the number of outbound calls lies between 1 and MAX_RETRIES |
| `Retry.AttemptsMadeCharacterized` | server.js:78-89 | exactly n calls are made if and only if the first n - 1 answers were 429 and the n-th was not 429 (or n is the limit) |
| `Retry.AlwaysRateLimited` | server.js:82-89 | a provider that always answers 429 gets exactly MAX_RETRIES calls, and the last answer is 429 |
| `Retry.FirstSuccessStops` | server.js:78-80 | after k answers of 429, an OK answer ends the loop with k + 1 calls, so no call follows a success |
| `Retry.FirstAnswerNotRateLimited` | server.js:86-89 | a first answer that is not 429 ends the loop after that single call |
| `Retry.Backoff` | server.js:83 | every wait is at least one second; with a jitter below 1000 its whole seconds are exactly 2^attempt; `Dispatch` proves each taken wait lies in `[2^i*1000, 2^i*1000+1000)` and `BackoffGrows` that each wait exceeds the one before |
| `Retry.BackoffGrows` | server.js:83 | the wait after attempt i + 1 is longer than the wait after attempt i, whatever the jitters |
| `Retry.Dispatch` | server.js:40-90 | an unknown provider ends the loop before any call; otherwise the loop makes AttemptsMade calls, all carrying the same provider and prompt, and ends with that attempt's exchange; the wait before retry i is 2^i*1000 + jitter, inside `[2^i*1000, 2^i*1000+1000)`; waits grow, and none follows the final attempt |
| `Outcome.AnswerText` | server.js:107-111 | for OpenAI an answer is found exactly when `choices` is non-empty; for Gemini exactly when `candidates` and the first candidate's `parts` are non-empty; `Wrap` proves each provider's envelope reads back to its text along `choices[0].message.content` or `candidates[0].content.parts[0].text` and gives nothing on the other path; `Respond` turns a missing path into a 500 |
| `Outcome.Wrap` | server.js:107-111 | reading a provider's success envelope along that provider's path (`choices[0].message.content` or `candidates[0].content.parts[0].text`) gives back the text; the other provider's path finds nothing |
| `Outcome.Respond` | server.js:92-115 | a non-OK response gives its own status and its body text as details; the message is the rate-limit text for 429 and `API Error (<provider>): <statusText>` otherwise; the reply is 429 exactly when the last answer was 429; an answer is relayed with 200 exactly when the response is OK, its JSON parses and the provider's path holds text; an OK response whose JSON does not parse, or whose path is missing, gives 500 with the thrown message and no details; a rejected fetch gives 500 with its message |
| `Outcome.ApiErrorMessage` | server.js:94 | the generic message `API Error (<provider>): <statusText>` starts with `API Error ` and ends with the upstream status text; `Respond` and `Handler.OtherFailureReply` prove it is sent for every non-OK answer other than 429 |
| `Outcome.RateLimitMessage` | server.js:97-99 | the message that replaces the generic one when the loop ended on 429 never starts with `API Error `, so the two are told apart; `RateLimitMessageText` spells it out with `(All 3 retries failed)`, and `Respond` and `Handler.AlwaysRateLimitedReply` prove when it is sent |
| `Outcome.RateLimitMessageText` | server.js:97-99 | the rate-limit message names the number of attempts, 3 |
| `Handler.ExpectedReply` | server.js:74-115 | the reply for a configuration and the provider's answers: 500 `Invalid PROVIDER` for an unknown provider, otherwise `Respond` applied to the exchange of the last attempt; the scenario lemmas below and `Handle` state its properties |
| `Handler.Handle` | server.js:30-117 | the reply is the one the model predicts; an unknown provider gives 500 `Invalid PROVIDER: <id>` with no call; otherwise 1 to MAX_RETRIES calls are made, each carrying the substituted prompt; the waits lie in their backoff windows |
| `Handler.AlwaysRateLimitedReply` | server.js:82-101 | a provider that always answers 429 gets 3 calls, and the client receives 429 with the rate-limit message and the last body as details |
| `Handler.RetryThenSuccessReply` | server.js:78-112 | a 429 followed by an OK envelope holding text gives exactly 2 calls and a 200 reply with that text |
| `Handler.OtherFailureReply` | server.js:86-101 | a first answer that is neither OK nor 429 gives one call, and the client gets that status, `API Error (<provider>): <statusText>` and the body as details |
| `Handler.SuccessAfterRetriesReply` | server.js:78-112 | after any number of 429s within the limit, an OK envelope holding text is relayed with status 200 |
| `Handler.RateLimitedReplyIff` | server.js:92-101 | the client sees status 429 exactly when the last call was answered with 429 |

## Left out

- Express and body-parser setup, static file serving and `app.listen` (server.js:10, 22-23, 119-122) are process plumbing.
- Reading `prompt.md` (server.js:32) is file I/O. The template is an input string, and a failed read (a 500 from the catch) is not modelled.
- The fetch calls, their URLs, headers and `JSON.stringify` request bodies (server.js:44-73) are network I/O. A call is recorded as `Request(provider, prompt)`, and its answer comes from the oracle.
- `Math.random`, the floating-point wait, `toFixed` and the `setTimeout`-based delay (server.js:26, 83-85) are not modelled. The jitter is an integer in `[0, 1000)` and the wait is recorded rather than slept.
- Regular-expression metacharacters in keys and `$`-patterns in replacement values (server.js:36-37) are library semantics. The domain excludes them: identifier keys only, values without `$`.
- Non-string body values, and numeric-looking keys (which `for…in` visits first), are outside the identifier domain.
- Logging through `console.log` and `console.error` (server.js:84, 114) is a side effect only.
- Outcome.Respond: when the answer path reads past a missing array element, the model uses one fixed message for the runtime's TypeError. The exact text names the property being read, and the model does not reproduce it. A missing or non-string `content`/`text` leaf (which the source would relay as `undefined` or `null`) is not modelled: leaves are strings.
- Envelope: a success body is reduced to its `choices` and `candidates` arrays, so the model cannot represent a missing intermediate object, such as an OpenAI choice without `message` or a Gemini candidate without `content`. The source answers 500 from its catch there; the model only covers a path that ends early at an empty array.
- A rejected fetch is modelled as an exchange that ends the loop and leads to a 500 with its message. This is what the handler's catch sends (server.js:113-115), but the model does not build it as an exception.
- public/script.js is the browser form and rendering, with no logic of the handler; it is not part of this model.
