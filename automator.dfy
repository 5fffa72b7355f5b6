/**
 * `MicrosoftOAuthAutomator`: the object that drives one login. Its two
 * mutable fields, the authorization code and the error, are what the steps
 * update; the browser is replaced by `LoginObs`, everything the steps would
 * observe on the pages.
 */
module Automator {
  import opened Wrappers
  import opened Text
  import opened UrlCodec
  import opened Selectors
  import opened AccountStatus
  import opened Prompts
  import opened SessionState
  import opened CodeExtraction
  import opened TokenExchange

  /** Everything the login steps observe, in the order they observe it. */
  datatype LoginObs = LoginObs(
    emailPage: Page, enterAfterEmail: bool,        // the email step's candidates; whether pressing Enter works
    passwordPage: Page, enterAfterPassword: bool,  // the same for the password step
    status: StatusObs,                             // what the account-status check reads
    promptPages: seq<PromptPage>,                  // one page per possible prompt iteration
    pollUrls: seq<string>,                         // the URL seen by each poll before the deadline
    finalUrl: string)                              // the URL read by the last attempt

  function AutomationError(message: string): string {
    "Automation error: " + message
  }

  function AccountError(status: Status): string {
    "Account error: " + StatusName(status)
  }

  /**
   * The session after `automate_login`: a failed credential step records
   * its exception, a non-OK status records the account error, and
   * otherwise the code extraction decides. The prompt loop's outcome is not
   * consulted.
   */
  function AfterLogin(s: Session, obs: LoginObs): Session {
    match EmailOutcome(obs.emailPage, obs.enterAfterEmail)
    case Raised(m) => s.(error := Some(AutomationError(m)))
    case Entered(_, _) =>
      match PasswordOutcome(obs.passwordPage, obs.enterAfterPassword)
      case Raised(m) => s.(error := Some(AutomationError(m)))
      case Entered(_, _) =>
        var status := Classify(obs.status);
        if status != OK then s.(error := Some(AccountError(status)))
        else AfterExtraction(s, obs.pollUrls, obs.finalUrl)
  }

  class Automator {
    const config: Config
    var authCode: Option<string>
    var error: Option<string>

    constructor (clientId: string, redirectUri: string, scopes: string)
      ensures config == Config(clientId, redirectUri, scopes)
      ensures State() == Fresh
    {
      config := Config(clientId, redirectUri, scopes);
      authCode := None;
      error := None;
    }

    function State(): Session
      reads this
    {
      Session(authCode, error)
    }

    /** One poll: a URL mentioning both `/callback` and `code=` is parsed for its first `code` value. */
    static method Poll(url: string) returns (code: Option<string>)
      ensures code == PollCode(url)
    {
      code := None;
      if Contains(url, "/callback") && Contains(url, "code=") {
        code := QueryValue(QueryOf(url), "code");
      }
    }

    /**
     * `_extract_auth_code`: poll the observed URLs while no code is set and
     * the budget lasts, then try the pattern on the last URL, then record
     * the failure.
     */
    method ExtractAuthCode(urls: seq<string>, finalUrl: string)
      modifies this
      ensures State() == AfterExtraction(old(State()), urls, finalUrl)
    {
      ghost var polls := Polls(urls);
      var i := 0;
      while !Truthy(authCode) && i < |urls| && i < MaxPolls
        invariant i <= |polls|
        invariant error == old(error)
        invariant Truthy(old(authCode)) ==> authCode == old(authCode)
        invariant !Truthy(old(authCode)) ==> authCode == old(authCode) && FirstCode(polls, 0) == FirstCode(polls, i)
        decreases MaxPolls - i
      {
        var code := Poll(urls[i]);
        if Truthy(code) {
          authCode := code;
          break;
        }
        i := i + 1;
      }
      assert State() == AfterPolls(old(State()), urls);
      ghost var polled := State();
      if !Truthy(authCode) && Contains(finalUrl, "code=") {
        var found := RegexSearch(finalUrl);
        if found.Some? {
          authCode := found;
        }
      }
      assert State() == AfterFallback(polled, finalUrl);
      if !Truthy(authCode) {
        error := Some(ExtractionFailure);
      }
    }

    /** `automate_login`: the forward-only steps, each one stopping the run when it fails. */
    method AutomateLogin(obs: LoginObs)
      requires |obs.promptPages| == MaxPromptAttempts
      modifies this
      ensures State() == AfterLogin(old(State()), obs)
    {
      var email := HandleEmailInput(obs.emailPage, obs.enterAfterEmail);
      if email.Raised? {
        error := Some(AutomationError(email.message));
        return;
      }
      var password := HandlePasswordInput(obs.passwordPage, obs.enterAfterPassword);
      if password.Raised? {
        error := Some(AutomationError(password.message));
        return;
      }
      var status := CheckAccountStatus(obs.status);
      if status != OK {
        error := Some(AccountError(status));
        return;
      }
      var _, _ := HandleAdditionalPrompts(obs.promptPages);
      ExtractAuthCode(obs.pollUrls, obs.finalUrl);
    }
  }

  /** A fresh session ends every login with exactly one of a code and an error. */
  lemma LoginDecides(obs: LoginObs)
    ensures Truthy(AfterLogin(Fresh, obs).authCode) != Truthy(AfterLogin(Fresh, obs).error)
  {
    var email := EmailOutcome(obs.emailPage, obs.enterAfterEmail);
    var password := PasswordOutcome(obs.passwordPage, obs.enterAfterPassword);
    if email.Raised? {
      assert AutomationError(email.message) != [];
    } else if password.Raised? {
      assert AutomationError(password.message) != [];
    } else if Classify(obs.status) != OK {
      assert AccountError(Classify(obs.status)) != [];
    } else {
      ExtractionDecides(Fresh, obs.pollUrls, obs.finalUrl);
    }
  }

  /**
   * A non-OK status stops the run before the prompts and the extraction:
   * the code is left as it was, whatever the URLs would have shown.
   */
  lemma NonOkStatusSkipsExtraction(s: Session, obs: LoginObs, urls: seq<string>, finalUrl: string)
    requires EmailOutcome(obs.emailPage, obs.enterAfterEmail).Entered?
    requires PasswordOutcome(obs.passwordPage, obs.enterAfterPassword).Entered?
    requires Classify(obs.status) != OK
    ensures AfterLogin(s, obs).authCode == s.authCode
    ensures AfterLogin(s, obs).error == Some("Account error: " + StatusName(Classify(obs.status)))
    ensures AfterLogin(s, obs) == AfterLogin(s, obs.(pollUrls := urls, finalUrl := finalUrl))
  {
  }

  /** After a login from a fresh session the exchange never reports a missing code: a failed extraction is an automation failure. */
  lemma NeverAuthCodeMissing(cfg: Config, obs: LoginObs, response: Response, obtainedAt: string)
    ensures var r := ExchangeCodeForToken(cfg, AfterLogin(Fresh, obs), response, obtainedAt).result;
            r.Failure? ==> r.kind != AuthCodeMissing
  {
    LoginDecides(obs);
  }

  /** A login that ends in an error posts nothing to the token endpoint. */
  lemma FailedLoginPostsNothing(cfg: Config, obs: LoginObs, response: Response, obtainedAt: string)
    requires AfterLogin(Fresh, obs).error.Some?
    ensures ExchangeCodeForToken(cfg, AfterLogin(Fresh, obs), response, obtainedAt).request.None?
  {
    LoginDecides(obs);
  }
}
