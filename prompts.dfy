/**
 * The additional-prompt handler: a loop of at most three iterations that
 * recognises the consent screen and the "stay signed in" screen by keyword
 * and clicks their accept button. Each iteration reads the page afresh, so
 * the loop sees one page observation per iteration.
 */
module Prompts {
  import opened Wrappers
  import opened Text
  import opened Selectors
  import opened AccountStatus

  const MaxPromptAttempts: nat := 3

  const ConsentKeywords: seq<string> := [
    "permissions requested", "consent", "accept", "allow",
    "wants to access", "autorizzazioni", "consenso"]
  const StaySignedInKeywords: seq<string> := ["stay signed in", "rimani connesso", "stay signed"]

  const AcceptSelectors: seq<string> := [
    "#idSIButton9", "button:has-text(\"Accept\")", "button:has-text(\"Allow\")",
    "button:has-text(\"Accetta\")", "input[type=\"submit\"][value*=\"Accept\"]"]
  const YesSelectors: seq<string> := [
    "#idSIButton9", "button:has-text(\"Yes\")", "button:has-text(\"Sì\")",
    "input[type=\"submit\"][value*=\"Yes\"]"]

  /** What one iteration observes: the body, the URL and the buttons. */
  datatype PromptPage = PromptPage(body: BodyRead, url: string, buttons: Page)

  /** A recognised prompt and the index of the button clicked, if any was usable. */
  datatype PromptEvent = Consent(button: Option<nat>) | StaySignedIn(button: Option<nat>)

  /** Why the loop ended. */
  datatype PromptExit = AtCallback | NoPrompt | ReadFailed | AttemptsExhausted

  datatype Step = Stop(exit: PromptExit) | Handled(event: PromptEvent)

  /** One iteration on one page. Consent is tested before "stay signed in". */
  function StepOn(p: PromptPage): Step {
    match p.body
    case Body(text) =>
      if Contains(p.url, "/callback") then Stop(AtCallback)
      else if MentionsAny(Lower(text), ConsentKeywords) then
        Handled(Consent(FirstUsable(AcceptSelectors, p.buttons)))
      else if MentionsAny(Lower(text), StaySignedInKeywords) then
        Handled(StaySignedIn(FirstUsable(YesSelectors, p.buttons)))
      else Stop(NoPrompt)
    case _ => Stop(ReadFailed)  // reading the body raised, or `.lower()` of None did
  }

  datatype Run = Run(events: seq<PromptEvent>, exit: PromptExit)

  /** The iterations from `attempt` on: every handled prompt, clicked or not, uses one attempt. */
  function RunFrom(pages: seq<PromptPage>, attempt: nat): Run
    requires |pages| == MaxPromptAttempts && attempt <= MaxPromptAttempts
    decreases MaxPromptAttempts - attempt
  {
    if attempt == MaxPromptAttempts then Run([], AttemptsExhausted)
    else
      match StepOn(pages[attempt])
      case Stop(exit) => Run([], exit)
      case Handled(e) =>
        var rest := RunFrom(pages, attempt + 1);
        Run([e] + rest.events, rest.exit)
  }

  /**
   * At most one prompt per remaining attempt, and the attempts run out
   * exactly when every remaining attempt handled a prompt.
   */
  lemma {:induction false} RunBounds(pages: seq<PromptPage>, attempt: nat)
    requires |pages| == MaxPromptAttempts && attempt <= MaxPromptAttempts
    ensures |RunFrom(pages, attempt).events| <= MaxPromptAttempts - attempt
    ensures RunFrom(pages, attempt).exit == AttemptsExhausted <==>
            |RunFrom(pages, attempt).events| == MaxPromptAttempts - attempt
    decreases MaxPromptAttempts - attempt
  {
    if attempt < MaxPromptAttempts {
      RunBounds(pages, attempt + 1);
    }
  }

  /** One unfolding of `RunFrom`, for the loop proof. */
  lemma RunFromStep(pages: seq<PromptPage>, attempt: nat)
    requires |pages| == MaxPromptAttempts && attempt < MaxPromptAttempts
    ensures StepOn(pages[attempt]).Stop? ==> RunFrom(pages, attempt) == Run([], StepOn(pages[attempt]).exit)
    ensures StepOn(pages[attempt]).Handled? ==>
      RunFrom(pages, attempt) == Run([StepOn(pages[attempt]).event] + RunFrom(pages, attempt + 1).events,
                                     RunFrom(pages, attempt + 1).exit)
  {
  }

  /**
   * The body of one iteration of `_handle_additional_prompts`: read the
   * body, stop at the callback, else look for the consent keywords and then
   * the "stay signed in" keywords and click the first usable accept button.
   */
  method PromptStep(page: PromptPage) returns (step: Step)
    ensures step == StepOn(page)
  {
    if !page.body.Body? {
      return Stop(ReadFailed);
    }
    var text := Lower(page.body.text);
    if Contains(page.url, "/callback") {
      return Stop(AtCallback);
    }
    if MentionsAny(text, ConsentKeywords) {
      var accepted := Resolve(AcceptSelectors, page.buttons);
      step := Handled(Consent(accepted));
    } else if MentionsAny(text, StaySignedInKeywords) {
      var accepted := Resolve(YesSelectors, page.buttons);
      step := Handled(StaySignedIn(accepted));
    } else {
      step := Stop(NoPrompt);
    }
  }

  /**
   * `_handle_additional_prompts`. It changes nothing in the session; what
   * it did is returned as the prompts it handled and the reason it stopped.
   * A handled prompt uses one attempt whether or not its button was clicked.
   */
  method HandleAdditionalPrompts(pages: seq<PromptPage>) returns (events: seq<PromptEvent>, exit: PromptExit)
    requires |pages| == MaxPromptAttempts
    ensures Run(events, exit) == RunFrom(pages, 0)
    ensures |events| <= MaxPromptAttempts
  {
    var attempt := 0;
    events, exit := [], AttemptsExhausted;
    while attempt < MaxPromptAttempts
      invariant 0 <= attempt <= MaxPromptAttempts && |events| == attempt
      invariant RunFrom(pages, 0) == Run(events + RunFrom(pages, attempt).events, RunFrom(pages, attempt).exit)
      decreases MaxPromptAttempts - attempt
    {
      RunFromStep(pages, attempt);
      ghost var rest := RunFrom(pages, attempt + 1);
      var step := PromptStep(pages[attempt]);
      if step.Stop? {
        exit := step.exit;
        break;
      }
      assert RunFrom(pages, attempt) == Run([step.event] + rest.events, rest.exit);
      assert events + ([step.event] + rest.events) == (events + [step.event]) + rest.events;
      events := events + [step.event];
      attempt := attempt + 1;
    }
  }

  /** The run, read page by page: its `i`-th handled prompt is what the page of that iteration showed. */
  lemma {:induction false} RunEventAt(pages: seq<PromptPage>, attempt: nat, i: nat)
    requires |pages| == MaxPromptAttempts && attempt <= MaxPromptAttempts
    requires i < |RunFrom(pages, attempt).events|
    ensures attempt + i < MaxPromptAttempts
    ensures StepOn(pages[attempt + i]) == Handled(RunFrom(pages, attempt).events[i])
    decreases MaxPromptAttempts - attempt
  {
    var rest := RunFrom(pages, attempt + 1);
    assert RunFrom(pages, attempt).events == [StepOn(pages[attempt]).event] + rest.events;
    if i > 0 {
      RunEventAt(pages, attempt + 1, i - 1);
    }
  }

  /** Unless the attempts ran out, the loop stopped on the page after the last handled one, for the reason that page gives. */
  lemma {:induction false} RunExitAt(pages: seq<PromptPage>, attempt: nat)
    requires |pages| == MaxPromptAttempts && attempt <= MaxPromptAttempts
    requires RunFrom(pages, attempt).exit != AttemptsExhausted
    ensures attempt + |RunFrom(pages, attempt).events| < MaxPromptAttempts
    ensures StepOn(pages[attempt + |RunFrom(pages, attempt).events|]) == Stop(RunFrom(pages, attempt).exit)
    decreases MaxPromptAttempts - attempt
  {
    if StepOn(pages[attempt]).Handled? {
      RunFromStep(pages, attempt);
      RunExitAt(pages, attempt + 1);
    }
  }

  /** A page matching both keyword sets is handled as consent. */
  lemma ConsentBeforeStaySignedIn(pages: seq<PromptPage>, i: nat)
    requires |pages| == MaxPromptAttempts && i < MaxPromptAttempts
    requires i < |RunFrom(pages, 0).events|
    requires pages[i].body.Body? && MentionsAny(Lower(pages[i].body.text), ConsentKeywords)
    ensures RunFrom(pages, 0).events[i].Consent?
  {
    RunEventAt(pages, 0, i);
  }

  /** A prompt whose button could not be clicked still uses up its attempt: the loop goes on to the next page. */
  lemma UnclickedPromptUsesAttempt(pages: seq<PromptPage>, i: nat)
    requires |pages| == MaxPromptAttempts && i < MaxPromptAttempts
    requires forall j :: 0 <= j <= i ==> StepOn(pages[j]).Handled?
    ensures |RunFrom(pages, 0).events| > i
  {
    RunBounds(pages, 0);
    if RunFrom(pages, 0).exit != AttemptsExhausted {
      RunExitAt(pages, 0);
    }
  }

  /** A page already at the callback ends the loop before any prompt is looked for. */
  lemma CallbackStopsAtOnce(pages: seq<PromptPage>)
    requires |pages| == MaxPromptAttempts
    requires pages[0].body.Body? && Contains(pages[0].url, "/callback")
    ensures RunFrom(pages, 0) == Run([], AtCallback)
  {
  }
}
