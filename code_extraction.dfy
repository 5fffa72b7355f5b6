/**
 * The two ways the automator reads the authorization code off the browser
 * URL. The poll path looks at each observed URL in turn and parses the
 * query when the URL mentions both `/callback` and `code=`; the fallback
 * runs the pattern `code=([^&]+)` over the last URL, wherever it points.
 * The 30-second deadline polled every half second becomes a bound of
 * `MaxPolls` observed URLs.
 */
module CodeExtraction {
  import opened Wrappers
  import opened Text
  import opened UrlCodec
  import opened SessionState

  /** 30 seconds of polls, one every 0.5 seconds. */
  const MaxPolls: nat := 60

  const ExtractionFailure: string := "Unable to extract authorization code"

  /** What one poll reads from one URL: the first `code` query value of a callback URL. */
  function PollCode(url: string): (code: Option<string>)
    ensures code.Some? ==> Contains(url, "/callback") && Contains(url, "code=")
    ensures code.Some? ==> code.value != [] && '&' !in code.value
  {
    if Contains(url, "/callback") && Contains(url, "code=") then QueryValue(QueryOf(url), "code")
    else None
  }

  /** What each poll within the budget reads, one entry per observed URL. */
  function Polls(urls: seq<string>): (codes: seq<Option<string>>)
    ensures |codes| == if |urls| < MaxPolls then |urls| else MaxPolls
    ensures forall k :: 0 <= k < |codes| ==> codes[k] == PollCode(urls[k])
  {
    var n := if |urls| < MaxPolls then |urls| else MaxPolls;
    seq(n, k requires 0 <= k < n => PollCode(urls[k]))
  }

  /** The first code among the polls from the `i`-th on: the loop breaks as soon as one is found. */
  function FirstCode(codes: seq<Option<string>>, i: nat): Option<string>
    decreases |codes| - i
  {
    if i >= |codes| then None
    else if codes[i].Some? then codes[i]
    else FirstCode(codes, i + 1)
  }

  /** `code=` occurs at `j` and is followed by a character other than `&`: where `code=([^&]+)` can match. */
  predicate MatchesAt(url: string, j: nat) {
    j + 5 < |url| && OccursAt(url, "code=", j) && url[j + 5] != '&'
  }

  /** `re.search(r'code=([^&]+)', url).group(1)` for the leftmost match at or after `from`. */
  function RegexFrom(url: string, from: nat): (code: Option<string>)
    ensures code.Some? ==> code.value != [] && '&' !in code.value
    ensures code.None? <==> forall j :: from <= j < |url| ==> !MatchesAt(url, j)
    decreases |url| - from
  {
    if from >= |url| then None
    else if MatchesAt(url, from) then
      var rest := url[from + 5..];
      assert rest[0] != '&';
      Some(TakeUntil(rest, '&'))
    else RegexFrom(url, from + 1)
  }

  function RegexSearch(url: string): (code: Option<string>)
    ensures code.Some? ==> Contains(url, "code=")
  {
    RegexFrom(url, 0)
  }

  /** The session after the poll loop: it runs only while no code is set, and stops at the first code. */
  function AfterPolls(s: Session, urls: seq<string>): Session {
    if Truthy(s.authCode) then s
    else
      match FirstCode(Polls(urls), 0)
      case Some(c) => s.(authCode := Some(c))
      case None => s
  }

  /** The last attempt: with still no code, the pattern is tried on the final URL. */
  function AfterFallback(s: Session, finalUrl: string): Session {
    if !Truthy(s.authCode) && Contains(finalUrl, "code=") && RegexSearch(finalUrl).Some? then
      s.(authCode := RegexSearch(finalUrl))
    else s
  }

  /** The closing check: with still no code, the failure is recorded. */
  function AfterCheck(s: Session): Session {
    if Truthy(s.authCode) then s else s.(error := Some(ExtractionFailure))
  }

  /** The session after `_extract_auth_code`: the polls, the last attempt, the closing check. */
  function AfterExtraction(s: Session, urls: seq<string>, finalUrl: string): Session {
    AfterCheck(AfterFallback(AfterPolls(s, urls), finalUrl))
  }

  /**
   * Extraction always ends decided: a code is set or the failure is
   * recorded; and from a session with neither, exactly one of the two holds.
   */
  lemma ExtractionDecides(s: Session, urls: seq<string>, finalUrl: string)
    ensures var r := AfterExtraction(s, urls, finalUrl);
            Truthy(r.authCode) || r.error == Some(ExtractionFailure)
    ensures var r := AfterExtraction(s, urls, finalUrl);
            !Truthy(s.authCode) && s.error.None? ==> (Truthy(r.authCode) <==> r.error.None?)
  {
    FirstCodeFound(Polls(urls), 0);
  }

  /** The code found is one some poll read, and there is none exactly when no poll read one. */
  lemma {:induction false} FirstCodeFound(codes: seq<Option<string>>, i: nat)
    ensures FirstCode(codes, i).Some? ==> exists k :: i <= k < |codes| && codes[k] == FirstCode(codes, i)
    ensures FirstCode(codes, i).None? <==> forall k :: i <= k < |codes| ==> codes[k].None?
    decreases |codes| - i
  {
    if i < |codes| {
      FirstCodeFound(codes, i + 1);
    }
  }

  /** The polls stop with the code of the first URL that yields one. */
  lemma {:induction false} FirstCodeWins(codes: seq<Option<string>>, i: nat, k: nat)
    requires i <= k < |codes| && codes[k].Some?
    requires forall j :: i <= j < k ==> codes[j].None?
    ensures FirstCode(codes, i) == codes[k]
    decreases k - i
  {
    if i < k {
      FirstCodeWins(codes, i + 1, k);
    }
  }

  /** URLs past the poll budget are never looked at. */
  lemma PollBudget(urls: seq<string>)
    requires |urls| > MaxPolls
    ensures Polls(urls) == Polls(urls[..MaxPolls])
  {
  }

  /** The fallback takes the leftmost place where the pattern matches. */
  lemma {:induction false} RegexLeftmost(url: string, from: nat, j: nat)
    requires from <= j && MatchesAt(url, j)
    requires forall k :: from <= k < j ==> !MatchesAt(url, k)
    ensures RegexFrom(url, from) == Some(TakeUntil(url[j + 5..], '&'))
    decreases j - from
  {
    if from < j {
      assert !MatchesAt(url, from);
      RegexLeftmost(url, from + 1, j);
    }
  }

  /** The callback URL the identity platform redirects to: the redirect URI, then the code and the state. */
  function CallbackUrl(redirectUri: string, code: string, state: string): string {
    redirectUri + "?" + Join(Field("code", code), Field("state", state))
  }

  lemma NamesArePlain()
    ensures '&' !in "code" && '=' !in "code" && '#' !in "code"
    ensures '&' !in "state" && '=' !in "state" && '#' !in "state"
  {
  }

  /**
   * The query of a callback URL is `code=<code>&state=<state>`, and its
   * first `code` value is the code. The code is free of `%` and `+`, so
   * the decoding `parse_qs` would apply leaves it as it is.
   */
  lemma CallbackQuery(redirectUri: string, code: string, state: string)
    requires '?' !in redirectUri && '#' !in redirectUri
    requires code != [] && '&' !in code && '#' !in code && '%' !in code && '+' !in code
    requires state != [] && '&' !in state && '#' !in state
    ensures QueryValue(QueryOf(CallbackUrl(redirectUri, code, state)), "code") == Some(code)
  {
    var ps := [Param("code", code), Param("state", state)];
    NamesArePlain();
    assert PlainParam(ps[0]) && PlainParam(ps[1]);
    EncodeRoundTrip(ps);
    assert Encode(ps) == Join(Field("code", code), Field("state", state));
    QueryOfJoin(redirectUri, Encode(ps));
    FirstValueAt(ps, 0, "code");
  }

  /** Where the pieces of a callback URL sit. */
  lemma CallbackLayout(redirectUri: string, code: string, state: string)
    ensures var url := CallbackUrl(redirectUri, code, state);
            var n := |redirectUri|;
            && |url| > n + 6 + |code|
            && url[..n] == redirectUri && url[n] == '?'
            && url[n + 1..n + 6] == "code="
            && url[n + 6..] == code + ['&'] + Field("state", state)
  {
    var n := |redirectUri|;
    var url := CallbackUrl(redirectUri, code, state);
    var rest := Field("state", state);
    var field := "code" + "=" + code;
    assert url == redirectUri + ['?'] + field + ['&'] + rest;
    assert url[n + 1..n + 1 + |field|] == field;
    assert field[..5] == "code=";
  }

  /**
   * On the callback URL both paths read the same code: the query parser on
   * the poll path, and the pattern, whose leftmost match is right after `?`
   * as long as the redirect URI itself holds no `code=`. Only the poll path
   * decodes, so this holds for codes free of `%` and `+`.
   */
  lemma CallbackPathsAgree(redirectUri: string, code: string, state: string)
    requires Contains(redirectUri, "/callback") && !Contains(redirectUri, "code=")
    requires '?' !in redirectUri && '#' !in redirectUri
    requires code != [] && '&' !in code && '#' !in code && '%' !in code && '+' !in code
    requires state != [] && '&' !in state && '#' !in state
    ensures PollCode(CallbackUrl(redirectUri, code, state)) == Some(code)
    ensures RegexSearch(CallbackUrl(redirectUri, code, state)) == Some(code)
  {
    CallbackPolled(redirectUri, code, state);
    CallbackMatched(redirectUri, code, state);
  }

  /** The poll path accepts the callback URL and its query parser reads the code. */
  lemma CallbackPolled(redirectUri: string, code: string, state: string)
    requires Contains(redirectUri, "/callback")
    requires '?' !in redirectUri && '#' !in redirectUri
    requires code != [] && '&' !in code && '#' !in code && '%' !in code && '+' !in code
    requires state != [] && '&' !in state && '#' !in state
    ensures PollCode(CallbackUrl(redirectUri, code, state)) == Some(code)
  {
    var url := CallbackUrl(redirectUri, code, state);
    var n := |redirectUri|;
    CallbackLayout(redirectUri, code, state);
    assert url == url[..n] + url[n..];
    ContainsInPrefix(redirectUri, url[n..], "/callback");
    assert OccursAt(url, "code=", n + 1);
    ContainsAt(url, "code=", n + 1);
    CallbackQuery(redirectUri, code, state);
  }

  /** On the callback URL the pattern matches right after `?` and reads the code. */
  lemma CallbackMatched(redirectUri: string, code: string, state: string)
    requires !Contains(redirectUri, "code=")
    requires code != [] && '&' !in code
    ensures RegexSearch(CallbackUrl(redirectUri, code, state)) == Some(code)
  {
    var rest := ['&'] + Field("state", state);
    assert CallbackUrl(redirectUri, code, state) == redirectUri + "?code=" + code + rest;
    LeadingMatch(redirectUri, code, rest);
  }

  /**
   * After a prefix holding no `code=`, a `?code=` followed by a value and
   * then `&` or the end is the pattern's leftmost match, and it reads that value.
   */
  lemma LeadingMatch(prefix: string, code: string, rest: string)
    requires !Contains(prefix, "code=")
    requires code != [] && '&' !in code
    requires rest == [] || rest[0] == '&'
    ensures RegexSearch(prefix + "?code=" + code + rest) == Some(code)
  {
    var url := prefix + "?code=" + code + rest;
    var n := |prefix|;
    assert url[..n] == prefix && url[n] == '?';
    assert url[n + 1..n + 6] == "code=";
    assert url[n + 6..] == code + rest;
    assert MatchesAt(url, n + 1);
    forall k | 0 <= k < n + 1
      ensures !MatchesAt(url, k)
    {
      NoMatchInside(url, prefix, k);
    }
    RegexLeftmost(url, 0, n + 1);
    TakeUntilStops(code, rest, '&');
  }

  /** A pattern match cannot start inside a prefix that holds no `code=` and is followed by `?`. */
  lemma NoMatchInside(url: string, prefix: string, k: nat)
    requires |prefix| < |url| && url[..|prefix|] == prefix && url[|prefix|] == '?'
    requires !Contains(prefix, "code=") && k <= |prefix|
    ensures !MatchesAt(url, k)
  {
    var n := |prefix|;
    if OccursAt(url, "code=", k) && k + 5 <= n {
      assert url[k..k + 5] == prefix[k..k + 5];
      assert OccursAt(prefix, "code=", k);
    }
  }

  const OutOfBandUrl: string := "urn:ietf:wg:oauth:2.0:oob?code=M1"

  /**
   * The fallback does not need `/callback`: when no observed URL mentions
   * it, no poll reads a code, yet a final URL the pattern matches still
   * yields its code from a fresh session.
   */
  lemma FallbackIgnoresCallback(urls: seq<string>, url: string)
    requires forall k :: 0 <= k < |urls| ==> !Contains(urls[k], "/callback")
    requires !Contains(url, "/callback") && RegexSearch(url).Some?
    ensures PollCode(url).None?
    ensures AfterExtraction(Fresh, urls, url) == Session(RegexSearch(url), None)
  {
    assert forall k :: 0 <= k < |Polls(urls)| ==> Polls(urls)[k].None?;
    FirstCodeFound(Polls(urls), 0);
  }

  /** An out-of-band redirect as a witness: it is never polled, and the pattern still takes `M1`. */
  lemma OutOfBandExample()
    ensures PollCode(OutOfBandUrl).None?
    ensures AfterExtraction(Fresh, [OutOfBandUrl], OutOfBandUrl) == Session(Some("M1"), None)
  {
    var url := OutOfBandUrl;
    OutOfBandNotPolled();
    OutOfBandMatched();
    assert Polls([url]) == [None];
    assert FirstCode(Polls([url]), 0) == None;
  }

  lemma OutOfBandNotPolled()
    ensures PollCode(OutOfBandUrl).None?
  {
    var url := OutOfBandUrl;
    assert 'k' !in url;
    if Contains(url, "/callback") {
      CharsOfOccurrence(url, "/callback", 'k');
    }
  }

  lemma OutOfBandMatched()
    ensures RegexSearch(OutOfBandUrl) == Some("M1")
  {
    var prefix := "urn:ietf:wg:oauth:2.0:oob";
    assert 'c' !in prefix;
    if Contains(prefix, "code=") {
      CharsOfOccurrence(prefix, "code=", 'c');
    }
    assert OutOfBandUrl == prefix + "?code=" + "M1" + [];
    LeadingMatch(prefix, "M1", []);
  }
}
