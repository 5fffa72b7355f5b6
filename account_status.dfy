/**
 * The account-status classifier run once after the password is submitted.
 * It looks, in this order and returning at the first signal, at the inline
 * validation messages, at the page body against an ordered phrase table,
 * at the URL, and at whether the browser is still on the login POST page.
 * A fault while reading the page is not fatal: it classifies as OK.
 */
module AccountStatus {
  import opened Wrappers
  import opened Text

  /** The closed set of outcomes. */
  datatype Status = OK | InvalidCredentials | AccountLocked | AccountNotFound

  /** The string the source returns for each outcome. */
  function StatusName(s: Status): (name: string)
    ensures name in {"OK", "INVALID_CREDENTIALS", "ACCOUNT_LOCKED", "ACCOUNT_NOT_FOUND"}
    ensures (name == "OK") == (s == OK)
  {
    match s
    case OK => "OK"
    case InvalidCredentials => "INVALID_CREDENTIALS"
    case AccountLocked => "ACCOUNT_LOCKED"
    case AccountNotFound => "ACCOUNT_NOT_FOUND"
  }

  /** Reading the inner text of one validation-message locator. */
  datatype TextRead = NoElement | ReadFault | Text(text: string)

  /** `page.text_content('body')`: raises, gives None, or gives a string. */
  datatype BodyRead = BodyFault | NoBody | Body(text: string)

  /** Everything the classifier observes. */
  datatype StatusObs = StatusObs(
    validation: map<string, TextRead>,  // inner text per validation locator; unlisted ones are absent
    body: BodyRead,                     // the page body
    url: string,                        // the URL after submission
    settledUrl: string,                 // the URL after the extra wait on the login POST page
    settledBody: BodyRead)              // the body read once more when still stuck there

  const ValidationSelectors: seq<string> := [
    "#field-8__validationMessage", ".fui-Field__validationMessage",
    "[id*=\"validationMessage\"]", "[class*=\"validationMessage\"]",
    "[class*=\"error\"]", ".alert-error", ".error-message"]

  const CredentialPhrases: seq<string> := [
    "password is incorrect", "that password is incorrect", "incorrect password",
    "wrong password", "invalid password"]

  datatype Indicator = Indicator(phrase: string, status: Status)

  /** The body-scan table; its order is the priority among overlapping phrases. */
  const ErrorIndicators: seq<Indicator> := [
    Indicator("account has been locked", AccountLocked),
    Indicator("account is locked", AccountLocked),
    Indicator("temporarily locked", AccountLocked),
    Indicator("incorrect username or password", InvalidCredentials),
    Indicator("sign-in name or password is incorrect", InvalidCredentials),
    Indicator("that password is incorrect", InvalidCredentials),
    Indicator("password is incorrect", InvalidCredentials),
    Indicator("we couldn't find an account", AccountNotFound),
    Indicator("account doesn't exist", AccountNotFound),
    Indicator("invalid username or password", InvalidCredentials)]

  function ReadAt(validation: map<string, TextRead>, selector: string): TextRead {
    if selector in validation then validation[selector] else NoElement
  }

  /** A validation text that is present, not blank, and names a credential failure. */
  predicate CredentialFailureText(r: TextRead) {
    r.Text? && !IsBlank(r.text) && MentionsAny(Lower(r.text), CredentialPhrases)
  }

  predicate ValidationHit(validation: map<string, TextRead>) {
    exists i | 0 <= i < |ValidationSelectors| :: CredentialFailureText(ReadAt(validation, ValidationSelectors[i]))
  }

  /** The first table row at or after `from` whose phrase occurs in `body`. */
  function MatchIndex(body: string, from: nat): (r: Option<nat>)
    ensures r.Some? ==> from <= r.value < |ErrorIndicators| && Contains(body, ErrorIndicators[r.value].phrase)
    ensures r.Some? ==> forall j :: from <= j < r.value ==> !Contains(body, ErrorIndicators[j].phrase)
    ensures r.None? <==> forall j :: from <= j < |ErrorIndicators| ==> !Contains(body, ErrorIndicators[j].phrase)
    decreases |ErrorIndicators| - from
  {
    if from >= |ErrorIndicators| then None
    else if Contains(body, ErrorIndicators[from].phrase) then Some(from)
    else MatchIndex(body, from + 1)
  }

  /** The outcome of the first matching row of the table, for an already lower-cased body. */
  function LookupIndicator(lowerBody: string): Option<Status> {
    match MatchIndex(lowerBody, 0)
    case Some(k) => Some(ErrorIndicators[k].status)
    case None => None
  }

  predicate OnLoginPost(url: string) {
    Contains(url, "login.live.com") && Contains(url, "post.srf")
  }

  /** The URL rules, reached when neither the validation texts nor the body decided. */
  function UrlVerdict(obs: StatusObs): Status {
    var lowerUrl := Lower(obs.url);
    if Contains(lowerUrl, "error") && Contains(lowerUrl, "invalid_grant") then InvalidCredentials
    else if OnLoginPost(obs.url) && OnLoginPost(obs.settledUrl) then
      if obs.settledBody.BodyFault? then OK else InvalidCredentials
    else OK
  }

  /** The whole first-match cascade of `_check_account_status`. */
  function Classify(obs: StatusObs): Status {
    if ValidationHit(obs.validation) then InvalidCredentials
    else
      match obs.body
      case BodyFault => OK
      case NoBody => UrlVerdict(obs)
      case Body(text) =>
        if text == [] then UrlVerdict(obs)
        else
          match LookupIndicator(Lower(text))
          case Some(s) => s
          case None => UrlVerdict(obs)
  }

  /** `_check_account_status`, with its loop over the validation locators. */
  method CheckAccountStatus(obs: StatusObs) returns (status: Status)
    ensures status == Classify(obs)
  {
    for i := 0 to |ValidationSelectors|
      invariant forall j :: 0 <= j < i ==> !CredentialFailureText(ReadAt(obs.validation, ValidationSelectors[j]))
    {
      var read := ReadAt(obs.validation, ValidationSelectors[i]);
      if read.Text? && !IsBlank(read.text) && MentionsAny(Lower(read.text), CredentialPhrases) {
        return InvalidCredentials;
      }
    }
    match obs.body {
      case BodyFault =>
        return OK;
      case NoBody =>
      case Body(text) =>
        if text != [] {
          var hit := LookupIndicator(Lower(text));
          if hit.Some? {
            return hit.value;
          }
        }
    }
    var lowerUrl := Lower(obs.url);
    if Contains(lowerUrl, "error") && Contains(lowerUrl, "invalid_grant") {
      return InvalidCredentials;
    }
    if OnLoginPost(obs.url) && OnLoginPost(obs.settledUrl) {
      if obs.settledBody.BodyFault? {
        return OK;
      }
      return InvalidCredentials;
    }
    return OK;
  }

  /** The first row whose phrase occurs decides, whatever later rows also match. */
  lemma {:induction false} MatchIndexAt(body: string, from: nat, k: nat)
    requires from <= k < |ErrorIndicators| && Contains(body, ErrorIndicators[k].phrase)
    requires forall j :: from <= j < k ==> !Contains(body, ErrorIndicators[j].phrase)
    ensures MatchIndex(body, from) == Some(k)
    decreases k - from
  {
    if from < k {
      MatchIndexAt(body, from + 1, k);
    }
  }

  /** The body scan returns the outcome of the first row, in table order, whose phrase occurs. */
  lemma FirstRowWins(obs: StatusObs, k: nat)
    requires !ValidationHit(obs.validation)
    requires obs.body.Body? && k < |ErrorIndicators|
    requires Contains(Lower(obs.body.text), ErrorIndicators[k].phrase)
    requires forall j :: 0 <= j < k ==> !Contains(Lower(obs.body.text), ErrorIndicators[j].phrase)
    ensures Classify(obs) == ErrorIndicators[k].status
  {
    MatchIndexAt(Lower(obs.body.text), 0, k);
    PhrasesNonEmpty();
    assert obs.body.text != [];
  }

  lemma PhrasesNonEmpty()
    ensures forall k :: 0 <= k < |ErrorIndicators| ==> |ErrorIndicators[k].phrase| > 0
  {
  }

  /** A body mentioning a lock wins over anything else it says, such as an incorrect password. */
  lemma LockedWinsOverIncorrectPassword(obs: StatusObs)
    requires !ValidationHit(obs.validation)
    requires obs.body.Body? && Contains(Lower(obs.body.text), "account has been locked")
    ensures Classify(obs) == AccountLocked
  {
    FirstRowWins(obs, 0);
  }

  /** When a table phrase occurs in a readable body, the outcome is never OK. */
  lemma PhraseNeverOK(obs: StatusObs, k: nat)
    requires !ValidationHit(obs.validation)
    requires obs.body.Body? && k < |ErrorIndicators|
    requires Contains(Lower(obs.body.text), ErrorIndicators[k].phrase)
    ensures Classify(obs) != OK
  {
    var m := MatchIndex(Lower(obs.body.text), 0);
    FirstRowWins(obs, m.value);
  }

  /** A credential failure in a validation message decides before the body or URL is looked at. */
  lemma ValidationDecidesFirst(obs: StatusObs, i: nat)
    requires i < |ValidationSelectors|
    requires CredentialFailureText(ReadAt(obs.validation, ValidationSelectors[i]))
    ensures Classify(obs) == InvalidCredentials
  {
  }

  /** With no signal from the validation texts or the body, a URL naming both `error` and `invalid_grant` means invalid credentials. */
  lemma InvalidGrantIsInvalid(obs: StatusObs)
    requires !ValidationHit(obs.validation)
    requires obs.body.NoBody? || (obs.body.Body? && LookupIndicator(Lower(obs.body.text)).None?)
    requires Contains(Lower(obs.url), "error") && Contains(Lower(obs.url), "invalid_grant")
    ensures Classify(obs) == InvalidCredentials
  {
  }

  /**
   * With no signal from the validation texts or the body, an `error` in the
   * URL without `invalid_grant` decides nothing: the result is OK unless the
   * browser is stuck on the login POST page.
   */
  lemma ErrorWithoutInvalidGrantFallsThrough(obs: StatusObs)
    requires !ValidationHit(obs.validation)
    requires obs.body.NoBody? || (obs.body.Body? && LookupIndicator(Lower(obs.body.text)).None?)
    requires !Contains(Lower(obs.url), "invalid_grant")
    ensures Classify(obs) == OK || (OnLoginPost(obs.url) && OnLoginPost(obs.settledUrl))
  {
  }

  /**
   * Still on the login POST page after the extra wait means invalid
   * credentials, whatever the re-read body says, unless re-reading it raises.
   */
  lemma StuckOnLoginPostIsInvalid(obs: StatusObs)
    requires !ValidationHit(obs.validation)
    requires obs.body.NoBody? || (obs.body.Body? && LookupIndicator(Lower(obs.body.text)).None?)
    requires OnLoginPost(obs.url) && OnLoginPost(obs.settledUrl)
    ensures !obs.settledBody.BodyFault? ==> Classify(obs) == InvalidCredentials
    ensures obs.settledBody.BodyFault? && !Contains(Lower(obs.url), "invalid_grant") ==> Classify(obs) == OK
  {
  }

  /** A fault reading the body is not fatal: unless a validation message decided, the result is OK. */
  lemma BodyFaultIsOK(obs: StatusObs)
    requires !ValidationHit(obs.validation) && obs.body.BodyFault?
    ensures Classify(obs) == OK
  {
  }
}
