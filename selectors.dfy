/**
 * The selector resolver: each UI role (email box, Next button, ...) has an
 * ordered list of candidate locators, and the automator acts on the first
 * candidate whose element exists, is visible, is enabled and accepts the
 * action. A candidate whose probe or action raises is skipped, like one
 * that fails a check.
 */
module Selectors {
  import opened Wrappers

  /** What probing one candidate locator observes on the current page. */
  datatype Probe =
    | Absent    // no element (query_selector gives None, or the visibility wait times out)
    | Faulty    // the probe raised
    | Element(visible: bool, enabled: bool, actionSucceeds: bool)

  /** The page as the resolver sees it: the probe result of every locator; unlisted locators are absent. */
  type Page = map<string, Probe>

  function ProbeOf(page: Page, selector: string): Probe {
    if selector in page then page[selector] else Absent
  }

  /** The candidate passes `element and is_visible() and is_enabled()` and its fill/click does not raise. */
  predicate Usable(p: Probe) {
    p.Element? && p.visible && p.enabled && p.actionSucceeds
  }

  /** The index of the first usable candidate, if any. */
  function FirstUsable(candidates: seq<string>, page: Page): (r: Option<nat>)
    ensures r.Some? ==> r.value < |candidates| && Usable(ProbeOf(page, candidates[r.value]))
    ensures r.Some? ==> forall j :: 0 <= j < r.value ==> !Usable(ProbeOf(page, candidates[j]))
    ensures r.None? <==> forall j :: 0 <= j < |candidates| ==> !Usable(ProbeOf(page, candidates[j]))
  {
    if candidates == [] then None
    else if Usable(ProbeOf(page, candidates[0])) then Some(0)
    else
      match FirstUsable(candidates[1..], page)
      case None => None
      case Some(k) => Some(k + 1)
  }

  /** The `for selector in ...: ... break` loop shared by every step. */
  method Resolve(candidates: seq<string>, page: Page) returns (chosen: Option<nat>)
    ensures chosen == FirstUsable(candidates, page)
  {
    chosen := None;
    for i := 0 to |candidates|
      invariant chosen == None
      invariant forall j :: 0 <= j < i ==> !Usable(ProbeOf(page, candidates[j]))
    {
      if Usable(ProbeOf(page, candidates[i])) {
        chosen := Some(i);
        break;
      }
    }
  }

  const EmailSelectors: seq<string> := [
    "input[type=\"email\"]", "#i0116", "input[name=\"loginfmt\"]",
    "input[placeholder*=\"email\" i]", "input[placeholder*=\"Email\" i]"]
  const NextSelectors: seq<string> := [
    "#idSIButton9", "input[type=\"submit\"]", "button[type=\"submit\"]",
    "button:has-text(\"Next\")", "button:has-text(\"Avanti\")"]
  const PasswordSelectors: seq<string> := [
    "input[type=\"password\"]", "#i0118", "input[name=\"passwd\"]",
    "input[name=\"Password\"]", "input[placeholder*=\"password\" i]"]
  const SignInSelectors: seq<string> := [
    "#idSIButton9", "input[type=\"submit\"]", "button[type=\"submit\"]",
    "button:has-text(\"Sign in\")", "button:has-text(\"Accedi\")"]

  /** How a credential step submitted its form. */
  datatype Proceed = Clicked(index: nat) | PressedEnter

  /** The outcome of a credential step: the field and the submit used, or the exception it raises. */
  datatype Entry = Entered(field: nat, proceed: Proceed) | Raised(message: string)

  /**
   * Fill the first usable field candidate, then click the first usable
   * proceed candidate, falling back to the Enter key; `enterWorks` says
   * whether pressing Enter raises.
   */
  function EntryOutcome(fields: seq<string>, proceeds: seq<string>, page: Page, enterWorks: bool,
                        fieldFailure: string, proceedFailure: string): Entry
  {
    match FirstUsable(fields, page)
    case None => Raised(fieldFailure)
    case Some(f) =>
      match FirstUsable(proceeds, page)
      case Some(k) => Entered(f, Clicked(k))
      case None => if enterWorks then Entered(f, PressedEnter) else Raised(proceedFailure)
  }

  method EnterAndProceed(fields: seq<string>, proceeds: seq<string>, page: Page, enterWorks: bool,
                         fieldFailure: string, proceedFailure: string) returns (e: Entry)
    ensures e == EntryOutcome(fields, proceeds, page, enterWorks, fieldFailure, proceedFailure)
    ensures e.Entered? ==> e.field < |fields| && Usable(ProbeOf(page, fields[e.field]))
    ensures e.Entered? ==> forall j :: 0 <= j < e.field ==> !Usable(ProbeOf(page, fields[j]))
    ensures e == Raised(fieldFailure) || e == Raised(proceedFailure) || e.Entered?
  {
    var filled := Resolve(fields, page);
    if filled.None? {
      return Raised(fieldFailure);
    }
    var clicked := Resolve(proceeds, page);
    if clicked.Some? {
      e := Entered(filled.value, Clicked(clicked.value));
    } else if enterWorks {
      e := Entered(filled.value, PressedEnter);
    } else {
      e := Raised(proceedFailure);
    }
  }

  function EmailOutcome(page: Page, enterWorks: bool): Entry {
    EntryOutcome(EmailSelectors, NextSelectors, page, enterWorks,
                 "Unable to enter email", "Unable to proceed after email entry")
  }

  function PasswordOutcome(page: Page, enterWorks: bool): Entry {
    EntryOutcome(PasswordSelectors, SignInSelectors, page, enterWorks,
                 "Unable to enter password", "Unable to perform login")
  }

  /**
   * `_handle_email_input`: raises "Unable to enter email" exactly when no
   * email candidate is usable, and "Unable to proceed after email entry"
   * exactly when the field was filled but neither a Next candidate nor the
   * Enter key worked.
   */
  method HandleEmailInput(page: Page, enterWorks: bool) returns (e: Entry)
    ensures e == EmailOutcome(page, enterWorks)
    ensures e == Raised("Unable to enter email") <==> FirstUsable(EmailSelectors, page).None?
    ensures e == Raised("Unable to proceed after email entry") <==>
              FirstUsable(EmailSelectors, page).Some? && FirstUsable(NextSelectors, page).None? && !enterWorks
  {
    e := EnterAndProceed(EmailSelectors, NextSelectors, page, enterWorks,
                         "Unable to enter email", "Unable to proceed after email entry");
  }

  /**
   * `_handle_password_input`: raises "Unable to enter password" exactly when
   * no password candidate is usable, and "Unable to perform login" exactly
   * when the field was filled but neither a Sign-in candidate nor the Enter
   * key worked.
   */
  method HandlePasswordInput(page: Page, enterWorks: bool) returns (e: Entry)
    ensures e == PasswordOutcome(page, enterWorks)
    ensures e == Raised("Unable to enter password") <==> FirstUsable(PasswordSelectors, page).None?
    ensures e == Raised("Unable to perform login") <==>
              FirstUsable(PasswordSelectors, page).Some? && FirstUsable(SignInSelectors, page).None? && !enterWorks
  {
    e := EnterAndProceed(PasswordSelectors, SignInSelectors, page, enterWorks,
                         "Unable to enter password", "Unable to perform login");
  }

  /**
   * An element that is present but hidden or disabled is never chosen, even
   * when it comes first: the choice is the first usable candidate after it.
   */
  lemma {:induction false} SkipsUnusablePrefix(candidates: seq<string>, page: Page, k: nat)
    requires k < |candidates| && Usable(ProbeOf(page, candidates[k]))
    requires forall j :: 0 <= j < k ==> !Usable(ProbeOf(page, candidates[j]))
    ensures FirstUsable(candidates, page) == Some(k)
  {
    if k > 0 {
      SkipsUnusablePrefix(candidates[1..], page, k - 1);
    }
  }
}
