# Microsoft OAuth automator — a Dafny model of its decision logic

The service drives a headless browser through the Microsoft identity
platform's sign-in pages to obtain an OAuth 2.0 authorization code, then
exchanges the code at the token endpoint and returns the refresh token over
HTTP. This project models the decisions `MicrosoftOAuthAutomator` makes
along the way and proves properties of them:

- `AuthUrl`: the authorize-endpoint URL built from the client id, the
  percent-encoded redirect URI and scopes, and the fixed state. `UrlCodec`
  models Python's `quote` (safe set: unreserved characters and `/`), its
  inverse, `urlparse(...).query` and the first value `parse_qs` gives.
- `Selectors`: the first usable candidate of an ordered locator list, and
  the email and password steps built on it. A step fills the field, clicks
  the proceed button or falls back to Enter, and raises a fixed message
  otherwise.
- `AccountStatus`: the classifier's first-match cascade. It checks the
  validation messages, then the ordered phrase table over the body, then the
  URL rules, then the login POST page. A fault while reading the body
  classifies as OK.
- `Prompts`: the additional-prompt loop of at most three iterations. Consent
  is checked before "stay signed in", and every handled prompt uses an
  attempt.
- `CodeExtraction`: the code is first polled from callback URLs. Failing
  that, the pattern `code=([^&]+)` is tried on the last URL, and failing
  that too, the failure is recorded.
- `Automator`: the automator object, a class whose `authCode` and `error`
  fields its methods update, and the sequencing of `automate_login`.
- `TokenExchange`: the order of checks in `exchange_code_for_token`, the
  request it posts, how the reply is normalised, and how the HTTP endpoint
  maps results to status codes.

The browser is replaced by observations passed in as values:
- a page's probe results for each locator;
- the body and URL each step reads;
- the sequence of URLs the polls see.

The HTTP reply is a parameter too, and so is the token timestamp.

Three behaviours of the code worth noting:
- A failed extraction sets the error. The exchange therefore reports
  `AUTOMATION_FAILED`, never `AUTH_CODE_MISSING`, after a login
  (`Automator.NeverAuthCodeMissing`).
- The regex fallback does not require `/callback` in the URL
  (`CodeExtraction.FallbackIgnoresCallback`).
- The poll looks for `/callback` anywhere in the URL, not for the
  configured redirect path.

## Model

| member | source | states |
|---|---|---|
| UrlCodec.Quote | main.py:43-45 | the quoted text never contains a space, `:`, `?`, `#`, `&` or `=`, so it cannot break the query it is put in |
| UrlCodec.QuoteRoundTrip | main.py:43-45 | decoding the percent-encoded form gives back the UTF-8 bytes of the original text |
| UrlCodec.QuoteKeepsSafe | main.py:43-45 | a text made only of safe characters is left unchanged by quoting |
| UrlCodec.QueryValue | main.py:119-121 | the first value of the parameter with the given name, as `parse_qs` splits the query but with name and value undecoded: it is non-empty and free of `&` |
| UrlCodec.EncodeRoundTrip | main.py:43-45 | parsing back `name=value` fields joined by `&` gives the same parameters in order, for names free of `&`, `=` and `#`, and non-empty values free of `&` and `#` |
| AuthUrl.GenerateAuthUrl | main.py:41-45 | the URL starts with the authorize endpoint, `?` and the unencoded `client_id` field |
| AuthUrl.AuthUrlParsesBack | main.py:41-45 | the query of the generated URL parses back to the six parameters in the source's order, with the redirect URI and the scopes in quoted form |
| AuthUrl.RedirectUriRoundTrip | main.py:43-45 | the `redirect_uri` value read back from the URL is the quoted redirect URI, and it decodes to the original's bytes |
| AuthUrl.EndpointHasNoDelimiters | main.py:35-36 | the authorize endpoint holds no `?` or `#`, so the query starts right after the endpoint |
| Selectors.FirstUsable | main.py:176-192 | the chosen index is usable and every earlier candidate is not; there is none exactly when no candidate is usable |
| Selectors.Resolve | main.py:176-198 | the candidate loop with `break` picks exactly the first usable candidate |
| Selectors.EnterAndProceed | main.py:160-233 | fill the first usable field, click the first usable proceed candidate, else press Enter, else raise; the field filled is the first usable one |
| Selectors.HandleEmailInput | main.py:160-233 | raises "Unable to enter email" exactly when no email candidate is usable, and "Unable to proceed after email entry" exactly when neither Next nor Enter works |
| Selectors.HandlePasswordInput | main.py:235-307 | raises "Unable to enter password" exactly when no password candidate is usable, and "Unable to perform login" exactly when neither Sign-in nor Enter works |
| Selectors.SkipsUnusablePrefix | main.py:251-267 | hidden, disabled or failing candidates before the first usable one are skipped |
| AccountStatus.StatusName | main.py:309-401 | the four status strings, with "OK" naming exactly the OK status |
| AccountStatus.MatchIndex | main.py:369-372 | the first table row, in order, whose phrase occurs in the body, or none exactly when no phrase occurs |
| AccountStatus.CheckAccountStatus | main.py:309-401 | the loop over validation locators and the cascade compute exactly the classification `Classify` |
| AccountStatus.MatchIndexAt | main.py:369-372 | the row found is the first occurring one, whatever later rows also occur |
| AccountStatus.FirstRowWins | main.py:351-372 | with no validation hit, the body scan returns the status of the first matching row |
| AccountStatus.LockedWinsOverIncorrectPassword | main.py:356-372 | a body saying the account has been locked classifies as locked, even when it also reports a wrong password |
| AccountStatus.PhraseNeverOK | main.py:351-372 | a readable body holding any table phrase never classifies as OK |
| AccountStatus.ValidationDecidesFirst | main.py:328-346 | a credential-failure validation message gives INVALID_CREDENTIALS whatever the body and URL say |
| AccountStatus.InvalidGrantIsInvalid | main.py:374-379 | with no signal from the validation texts or the body, a URL naming both `error` and `invalid_grant` gives INVALID_CREDENTIALS |
| AccountStatus.ErrorWithoutInvalidGrantFallsThrough | main.py:374-397 | an `error` URL without `invalid_grant` decides nothing: the result is OK unless the browser is stuck on the login POST page |
| AccountStatus.StuckOnLoginPostIsInvalid | main.py:381-394 | still on the login POST page after the wait means INVALID_CREDENTIALS, unless re-reading the body raises |
| AccountStatus.BodyFaultIsOK | main.py:399-401 | a fault reading the body gives OK when no validation message decided |
| Prompts.HandleAdditionalPrompts | main.py:403-500 | the loop produces exactly the run `RunFrom(pages, 0)`, with at most three handled prompts |
| Prompts.RunBounds | main.py:410-413 | at most one prompt per remaining attempt; attempts run out exactly when every remaining iteration handled a prompt |
| Prompts.RunEventAt | main.py:413-498 | the i-th handled prompt is what the page of the i-th iteration showed |
| Prompts.RunExitAt | main.py:413-498 | unless attempts ran out, the loop stopped on the page after the last handled prompt, for that page's reason |
| Prompts.ConsentBeforeStaySignedIn | main.py:425-467 | a page matching both keyword sets is handled as consent |
| Prompts.UnclickedPromptUsesAttempt | main.py:442-498 | a prompt whose button could not be clicked still uses its attempt, and the loop goes on |
| Prompts.CallbackStopsAtOnce | main.py:419-424 | a first page already at the callback ends the loop with no prompt handled |
| CodeExtraction.PollCode | main.py:113-123 | a poll yields a code only from a URL mentioning `/callback` and `code=`, and the code is non-empty and `&`-free |
| CodeExtraction.FirstCodeFound | main.py:109-126 | the code the polls stop on was read by some poll; there is none exactly when no poll read one |
| CodeExtraction.FirstCodeWins | main.py:109-126 | the polls stop with the code of the first URL that yields one |
| CodeExtraction.PollBudget | main.py:106-109 | URLs beyond the 60-poll budget are never looked at |
| CodeExtraction.RegexFrom | main.py:143-148 | the pattern yields a non-empty, `&`-free code, and yields none exactly when `code=` followed by a non-`&` character occurs nowhere |
| CodeExtraction.RegexSearch | main.py:143-148 | a pattern match implies `code=` occurs in the URL |
| CodeExtraction.RegexLeftmost | main.py:145-148 | the pattern takes the leftmost match and reads up to the next `&` |
| CodeExtraction.ExtractionDecides | main.py:102-158 | extraction ends with a code or with "Unable to extract authorization code"; from a fresh session, exactly one of the two |
| CodeExtraction.CallbackQuery | main.py:117-121 | the query of a callback URL `redirect?code=C&state=S` gives `code` value C, for a C free of `%` and `+`, which `parse_qs` decoding leaves unchanged |
| CodeExtraction.CallbackPathsAgree | main.py:113-148 | on a callback URL the poll path and the pattern read the same code, for a code free of `%` and `+` (only the poll path decodes) |
| CodeExtraction.LeadingMatch | main.py:143-148 | after a prefix with no `code=`, `?code=V` followed by `&` or the end makes the pattern read exactly V |
| CodeExtraction.FallbackIgnoresCallback | main.py:137-148 | when no observed URL mentions `/callback`, no poll reads a code, yet a final URL the pattern matches gives a fresh session exactly that code and no error |
| CodeExtraction.OutOfBandExample | main.py:137-148 | a witness: the out-of-band URL `urn:ietf:wg:oauth:2.0:oob?code=M1` is never polled, and the fallback still sets code `M1` |
| Automator.Automator.constructor | main.py:31-39 | the configuration is stored, and the session starts with no code and no error |
| Automator.Automator.ExtractAuthCode | main.py:102-158 | the fields end as `AfterExtraction` of the old state: polls, then fallback, then failure check |
| Automator.Automator.AutomateLogin | main.py:47-100 | the fields end as `AfterLogin` of the old state: a failing step records its error and stops the run |
| Automator.LoginDecides | main.py:47-100 | a login from a fresh session ends with exactly one of a code and an error |
| Automator.NonOkStatusSkipsExtraction | main.py:80-87 | a non-OK status records "Account error: <status>" and leaves the code untouched, whatever the URLs |
| Automator.NeverAuthCodeMissing | main.py:502-507 | after a login, the exchange never reports AUTH_CODE_MISSING |
| Automator.FailedLoginPostsNothing | main.py:502-507 | a login that ends in an error posts nothing to the token endpoint |
| TokenExchange.Interpret | main.py:517-536 | tokens exactly when the reply has `refresh_token`, carrying the reply's `refresh_token`, `access_token`, `expires_in`, `scope` (null when missing) and its `token_type`, Bearer only when that key is missing; otherwise the raw body, or the exception text |
| TokenExchange.ExchangeCodeForToken | main.py:502-536 | the error wins, then a missing code; a request is posted exactly when neither applies, carrying the session's code and the configuration |
| TokenExchange.Respond | main.py:538-576 | the status is 200, 400 or 500; 200 exactly for tokens; 400 exactly for a non-JSON request or missing credentials |
| TokenExchange.EndpointErrorCheckRedundant | main.py:566-576 | for a well-formed request, the endpoint's own error check changes nothing: the reply carries the exchange's result |

## Left out

- Browser I/O is not modelled: launching, navigating, filling, clicking, pressing keys and closing. Each step's observable outcome is an input: a `Probe` per locator, a body read, a URL.
- The waits (`wait_for_load_state`, `wait_for_timeout`, the sleeps) and their timeouts are not modelled. A timeout that raises inside a candidate probe is the `Absent` or `Faulty` probe.
- The wall clock is not modelled. The 30-second extraction deadline, polled every 0.5 s, is a bound of `MaxPolls` = 60 observed URLs. The 1 s back-off after a polling exception is not modelled.
- UrlCodec.QueryValue returns the value undecoded and matches parameter names undecoded. `parse_qs` would also turn `+` into a space and decode `%XX` sequences in both names and values. So for `code=a%26b` it gives `a&b`, which holds an `&`, and for `c%6Fde=X&code=Y` it reads `X` where the model reads `Y`.
- CodeExtraction.PollCode inherits this: the polled code is the raw query text. It equals what the source reads when the value holds no `%` or `+` and no earlier field's name decodes to `code`.
- CodeExtraction.CallbackQuery and CodeExtraction.CallbackPathsAgree are stated only for codes without `%` and `+`. For other codes the source's poll path returns the decoded code and the pattern the raw one, and the model does not capture that difference.
- Text.Lower lowers ASCII letters only; Python's Unicode `lower()` and `strip()` are not modelled.
- The email and password values are not modelled. Only whether the fill succeeds matters to the control flow.
- TokenExchange.Interpret takes the reply as an already decoded JSON object. A non-object JSON reply and floating-point values are not modelled, and nested values are opaque.
- `datetime.now().isoformat()` is an input (`obtainedAt`).
- The Flask plumbing is not modelled: the header-derived `redirect_uri`, the environment configuration, `/callback`, `/health` and logging.
- The async scheduling is not modelled. The steps run in sequence.
- Automator.Automator.AutomateLogin requires exactly three prompt-page observations, one per possible iteration of the prompt loop. The loop's outcome does not affect the session.
- A browser exception outside the named steps (launch or navigation) is not modelled. Neither is its `Automation error:` message, beyond the messages the steps raise.
