/**
 * The JavLibrary scraper's stateful part: `bypass_protection`, which asks
 * the proxy for the scene page on each mirror site in turn until one
 * answers without a challenge, and the branch of the main flow that
 * handles a Gravurefit scene URL.
 */
module JavLibrary {

  import opened Wrappers
  import opened Json
  import opened Text
  import opened Flare
  import opened Session
  import opened Retention
  import opened Fields
  import opened Records
  import opened JavStrings
  import Gravurefit

  const CookieAgeSeconds: int := 3600

  /** The user agent of the scraper's request headers. */
  const UserAgent: string := "Mozilla/5.0 (Windows NT 10.0; Win64; x64; rv:124.0) Gecko/20100101 Firefox/124.0"

  /** The headers of the probe's proxy requests. */
  const ProbeHeaders: map<string, string> := map["Content-Type" := "application/json"]

  /** The two phrases of a challenge page. */
  const CaptchaPhrase: string := "Why do I have to complete a CAPTCHA?"
  const BrowserCheckPhrase: string := "Checking your browser before accessing"

  /** The host fragment that selects the Gravurefit branch. */
  const GravureHost: string := "gravurefit.com"

  // ---------------------------------------------------------------- one attempt

  /** What the probe writes into the shared response object for one
      proxy answer: the HTML (`""` for a falsy one) and the status (the
      answer's own, else 200 or 0 by `ok`). */
  datatype Reply = Reply(html: JsonValue, status: JsonValue)

  function ReplyOf(fs: FetchResult): Reply {
    Reply(Or(fs.html, Str("")), Or(fs.status, Num(if fs.ok then 200 else 0)))
  }

  /** Python's `phrase in value`: a substring test on a string, membership
      in a list, a key test on a dict; None when `in` raises TypeError. */
  function PhraseIn(phrase: string, v: JsonValue): Option<bool> {
    match v
    case Str(s) => Some(Contains(s, phrase))
    case Arr(items) => Some(Str(phrase) in items)
    case Obj(fields) => Some(phrase in fields)
    case _ => None
  }

  /** How one attempt ends: a challenge page (the loop goes on and the
      protection flag is set), another status than 200 (the loop goes on),
      the site is taken, the challenge test raises, or the request is never
      sent because its cookie header raised while being built. */
  datatype Step = Challenged | Rejected | Accepted | Raises | Unsent

  function StepOf(r: Reply): (s: Step)
    ensures s != Unsent
    ensures s == Raises <==> !(r.html.Str? || r.html.Arr? || r.html.Obj?)
    ensures r.html.Str? ==> (s == Challenged <==> Contains(r.html.s, CaptchaPhrase) || Contains(r.html.s, BrowserCheckPhrase))
    ensures s == Accepted ==> r.status == Num(200)
    ensures s == Rejected ==> r.status != Num(200)
  {
    match PhraseIn(CaptchaPhrase, r.html)
    case None => Raises
    case Some(hit) =>
      if hit || PhraseIn(BrowserCheckPhrase, r.html) == Some(true) then Challenged
      else if r.status != Num(200) then Rejected
      else Accepted
  }

  /** How an answer that was fetched is judged: never Unsent. */
  type Judged = s: Step | s != Unsent witness Rejected

  /** What the probe needs of one proxy answer: how the attempt ends and
      the cookies it returned. */
  datatype Answer = Answer(step: Judged, cookies: JsonValue)

  function AnswerOf(fs: FetchResult): Answer {
    Answer(StepOf(ReplyOf(fs)), fs.cookies)
  }

  /** The answers of a probe, one per site. */
  function AnswersOf(results: seq<FetchResult>): (r: seq<Answer>)
    ensures |r| == |results|
  {
    if results == [] then [] else [AnswerOf(results[0])] + AnswersOf(results[1..])
  }

  /** The `j`-th answer is the one read off the `j`-th proxy result. */
  lemma {:induction false} AnswerAt(results: seq<FetchResult>, j: nat)
    requires j < |results|
    ensures AnswersOf(results)[j] == AnswerOf(results[j])
  {
    if j > 0 {
      AnswerAt(results[1..], j - 1);
    }
  }

  /** The loop moves on to the next site. */
  predicate Moves(s: Step) {
    s == Challenged || s == Rejected
  }

  /** The request body for the mirror `site`, with the header built from
      the saved session's cookies when they are fresh; Throws when building
      that header raises. */
  function Request(url: string, site: string, saved: Option<Stored>, now: int): (r: Outcome<JsonValue>)
    ensures r.Throws? <==> SessionCookieHeader(saved, now, CookieAgeSeconds).Throws?
    ensures r.Returns? ==> r.value.Obj? && Get(r.value, "url") == Str(SiteUrl(url, site)) && Get(r.value, "cmd") == Str("request.get")
  {
    match SessionCookieHeader(saved, now, CookieAgeSeconds)
    case Throws => Throws
    case Returns(h) => Returns(Payload(SiteUrl(url, site), ProbeHeaders, h, RequestTimeoutMs))
  }

  // ---------------------------------------------------------------- the probe

  /** `(site, response_html)`; `(None, None)` after the last site, or when
      an attempt raises inside its `try`; or the TypeError of the challenge
      test, which ends the script. */
  datatype Verdict = Selected(site: string) | Exhausted | Aborted | Crashed

  /** The probe's state before the attempt on site `i`, the sites before it
      having been challenged or refused: the saved session, the protection
      flag, and for each earlier request the session its cookies came from. */
  datatype Scan = Scan(session: Option<Stored>, protection: bool, sent: seq<Option<Stored>>)

  function Before(answers: seq<Answer>, i: nat, saved: Option<Stored>, now: int): (s: Scan)
    requires i <= |answers|
    ensures |s.sent| == i
  {
    if i == 0 then Scan(saved, false, [])
    else
      var s := Before(answers, i - 1, saved, now);
      Scan(SessionAfter(s.session, answers[i - 1].cookies, now),
           s.protection || answers[i - 1].step == Challenged,
           s.sent + [s.session])
  }

  /** How the attempt on site `i` ends, the sites before it having been
      challenged or refused: Unsent when the cookie header cannot be built
      from the session saved by then, otherwise as its answer says. */
  function StepAt(answers: seq<Answer>, i: nat, saved: Option<Stored>, now: int): Step
    requires i < |answers|
  {
    if SessionCookieHeader(Before(answers, i, saved, now).session, now, CookieAgeSeconds).Throws? then Unsent
    else answers[i].step
  }

  /** The first attempt from `i` on that ends the probe, or the number of
      sites when none does. */
  function StopAt(answers: seq<Answer>, i: nat, saved: Option<Stored>, now: int): (k: nat)
    requires i <= |answers|
    decreases |answers| - i
    ensures i <= k <= |answers|
    ensures forall j :: i <= j < k ==> Moves(StepAt(answers, j, saved, now))
    ensures k < |answers| ==> !Moves(StepAt(answers, k, saved, now))
  {
    if i == |answers| || !Moves(StepAt(answers, i, saved, now)) then i else StopAt(answers, i + 1, saved, now)
  }

  /** The probe's outcome: the verdict, how many sites were tried, the
      session and the protection flag it leaves, and for each request sent
      the saved session its cookies came from. */
  datatype Probe = Probe(verdict: Verdict, tried: nat, session: Option<Stored>, protection: bool, sent: seq<Option<Stored>>)

  /** The probe over `sites`; `answers[j]` is the proxy's answer on
      `sites[j]`. */
  function Probing(sites: seq<string>, answers: seq<Answer>, saved: Option<Stored>, now: int): (p: Probe)
    requires |sites| == |answers|
    ensures p.tried <= |sites| && |p.sent| == (if p.verdict.Aborted? then p.tried - 1 else p.tried)
    ensures forall j :: 0 <= j < p.tried - 1 ==> Moves(StepAt(answers, j, saved, now))
    ensures p.verdict.Selected? ==>
      0 < p.tried && p.verdict.site == sites[p.tried - 1] && StepAt(answers, p.tried - 1, saved, now) == Accepted
    ensures p.verdict.Crashed? ==> 0 < p.tried && StepAt(answers, p.tried - 1, saved, now) == Raises
    ensures p.verdict.Aborted? ==> 0 < p.tried && StepAt(answers, p.tried - 1, saved, now) == Unsent
    ensures p.verdict.Exhausted? <==> forall j :: 0 <= j < |sites| ==> Moves(StepAt(answers, j, saved, now))
    ensures p.verdict.Exhausted? ==> p.tried == |sites|
  {
    var k := StopAt(answers, 0, saved, now);
    var step := if k < |answers| then StepAt(answers, k, saved, now) else Rejected;
    var verdict :=
      if k == |answers| then Exhausted
      else if step == Accepted then Selected(sites[k])
      else if step == Unsent then Aborted
      else Crashed;
    var fetched := if k < |answers| && step != Unsent then k + 1 else k;
    var s := Before(answers, fetched, saved, now);
    Probe(verdict, if k < |answers| then k + 1 else k, s.session, s.protection, s.sent)
  }

  /** Every site before `k` moved the probe on and `k` is the last site or
      ends it: the probe stops at `k`. */
  lemma {:induction false} StopAtFirst(answers: seq<Answer>, i: nat, k: nat, saved: Option<Stored>, now: int)
    requires i <= k <= |answers|
    requires forall j :: i <= j < k ==> Moves(StepAt(answers, j, saved, now))
    requires k < |answers| ==> !Moves(StepAt(answers, k, saved, now))
    decreases k - i
    ensures StopAt(answers, i, saved, now) == k
  {
    if i < k {
      StopAtFirst(answers, i + 1, k, saved, now);
    }
  }

  /** The first site whose answer is taken is selected. */
  lemma FirstAcceptedSelected(sites: seq<string>, answers: seq<Answer>, saved: Option<Stored>, now: int, k: nat)
    requires k < |sites| == |answers|
    requires forall j :: 0 <= j < k ==> Moves(StepAt(answers, j, saved, now))
    requires StepAt(answers, k, saved, now) == Accepted
    ensures Probing(sites, answers, saved, now).verdict == Selected(sites[k])
    ensures Probing(sites, answers, saved, now).tried == k + 1
  {
    StopAtFirst(answers, 0, k, saved, now);
  }

  /** An attempt whose cookie header raises ends the probe with
      `(None, None)`: no site after it is tried, its own request is not
      sent, and the session is the one saved before it. */
  lemma FirstUnsentAborts(sites: seq<string>, answers: seq<Answer>, saved: Option<Stored>, now: int, k: nat)
    requires k < |sites| == |answers|
    requires forall j :: 0 <= j < k ==> Moves(StepAt(answers, j, saved, now))
    requires StepAt(answers, k, saved, now) == Unsent
    ensures var p := Probing(sites, answers, saved, now);
      && p.verdict == Aborted && p.tried == k + 1 && |p.sent| == k
      && p.session == Before(answers, k, saved, now).session
  {
    StopAtFirst(answers, 0, k, saved, now);
  }

  /** Cookies returned as a list with an item that is not a dict are saved
      as they are; the next attempt cannot build its header from them, so
      the probe stops there with `(None, None)`. */
  lemma NonDictCookieAborts(sites: seq<string>, answers: seq<Answer>, saved: Option<Stored>, now: int, k: nat, i: nat)
    requires k + 1 < |sites| == |answers|
    requires forall j :: 0 <= j <= k ==> Moves(StepAt(answers, j, saved, now))
    requires answers[k].cookies.Arr? && i < |answers[k].cookies.items| && !answers[k].cookies.items[i].Obj?
    ensures Probing(sites, answers, saved, now).verdict == Aborted
    ensures Probing(sites, answers, saved, now).tried == k + 2
  {
    var cookies := answers[k].cookies;
    assert Before(answers, k + 1, saved, now).session == Some(Stored(Some(now), cookies));
    HeaderThrowsOnNonDict(cookies.items, i);
    assert StepAt(answers, k + 1, saved, now) == Unsent;
    FirstUnsentAborts(sites, answers, saved, now, k + 1);
  }

  /** The flag is set exactly when one of the first `i` attempts met a
      challenge page. */
  lemma {:induction false} ChallengeSeen(answers: seq<Answer>, i: nat, saved: Option<Stored>, now: int)
    requires i <= |answers|
    ensures Before(answers, i, saved, now).protection <==> exists j :: 0 <= j < i && answers[j].step == Challenged
  {
    if i > 0 {
      ChallengeSeen(answers, i - 1, saved, now);
      if answers[i - 1].step == Challenged {
        assert 0 <= i - 1 < i && answers[i - 1].step == Challenged;
      }
    }
  }

  /** The protection flag ends up set exactly when one of the sites whose
      request was sent answered with a challenge page. */
  lemma ProtectionIffChallenged(sites: seq<string>, answers: seq<Answer>, saved: Option<Stored>, now: int)
    requires |sites| == |answers|
    ensures var p := Probing(sites, answers, saved, now);
      p.protection <==> exists j :: 0 <= j < |p.sent| && answers[j].step == Challenged
  {
    var p := Probing(sites, answers, saved, now);
    ChallengeSeen(answers, |p.sent|, saved, now);
  }

  /** The `j`-th request is built from the session saved before it. */
  lemma {:induction false} SentIsSessionBefore(answers: seq<Answer>, i: nat, saved: Option<Stored>, now: int, j: nat)
    requires j < i <= |answers|
    ensures Before(answers, i, saved, now).sent[j] == Before(answers, j, saved, now).session
  {
    if j < i - 1 {
      SentIsSessionBefore(answers, i - 1, saved, now, j);
    }
  }

  /** The first request is built from the session saved before the probe,
      and it is not sent exactly when that session's header raises. */
  lemma FirstRequestUsesSavedSession(sites: seq<string>, answers: seq<Answer>, saved: Option<Stored>, now: int)
    requires 0 < |sites| == |answers|
    ensures var p := Probing(sites, answers, saved, now);
      && (|p.sent| == 0 <==> SessionCookieHeader(saved, now, CookieAgeSeconds).Throws?)
      && (0 < |p.sent| ==> p.sent[0] == saved)
  {
    var p := Probing(sites, answers, saved, now);
    assert Before(answers, 0, saved, now).session == saved;
    if SessionCookieHeader(saved, now, CookieAgeSeconds).Throws? {
      FirstUnsentAborts(sites, answers, saved, now, 0);
    } else {
      assert StepAt(answers, 0, saved, now) != Unsent;
      assert 0 < p.tried;
      assert 0 < |p.sent|;
      SentOfProbe(sites, answers, saved, now, 0);
    }
  }

  /** A request that was sent is built from the session saved before it,
      and its header did not raise. */
  lemma SentOfProbe(sites: seq<string>, answers: seq<Answer>, saved: Option<Stored>, now: int, j: nat)
    requires |sites| == |answers| && j < |Probing(sites, answers, saved, now).sent|
    ensures Probing(sites, answers, saved, now).sent[j] == Before(answers, j, saved, now).session
    ensures StepAt(answers, j, saved, now) != Unsent
  {
    var p := Probing(sites, answers, saved, now);
    SentIsSessionBefore(answers, |p.sent|, saved, now, j);
    if j < p.tried - 1 {
      assert Moves(StepAt(answers, j, saved, now));
    } else {
      assert !p.verdict.Aborted?;
    }
  }

  /** Cookies returned on one site are sent, fresh, with the request to
      the next. */
  lemma CookiesCarriedForward(url: string, sites: seq<string>, answers: seq<Answer>, saved: Option<Stored>, now: int, k: nat)
    requires |sites| == |answers|
    requires k + 1 < |Probing(sites, answers, saved, now).sent|
    requires Truthy(answers[k].cookies)
    ensures HeaderOf(answers[k].cookies).Returns?
    ensures Request(url, sites[k + 1], Probing(sites, answers, saved, now).sent[k + 1], now)
            == Returns(Payload(SiteUrl(url, sites[k + 1]), ProbeHeaders, HeaderOf(answers[k].cookies).value, RequestTimeoutMs))
  {
    SentOfProbe(sites, answers, saved, now, k + 1);
    var before := Before(answers, k + 1, saved, now);
    assert before.session == Some(Stored(Some(now), answers[k].cookies));
    SavedSessionIsFresh(Before(answers, k, saved, now).session, answers[k].cookies, now, now, CookieAgeSeconds);
  }

  /** Attempts that return no cookies leave the saved session as it was. */
  lemma {:induction false} SessionKept(answers: seq<Answer>, i: nat, saved: Option<Stored>, now: int)
    requires i <= |answers|
    requires forall j :: 0 <= j < i ==> !Truthy(answers[j].cookies)
    ensures Before(answers, i, saved, now).session == saved
  {
    if i > 0 {
      SessionKept(answers, i - 1, saved, now);
    }
  }

  /** A probe whose answers return no cookies leaves the saved session as
      it was. */
  lemma SessionKeptWithoutCookies(sites: seq<string>, answers: seq<Answer>, saved: Option<Stored>, now: int)
    requires |sites| == |answers|
    requires forall j :: 0 <= j < |answers| ==> !Truthy(answers[j].cookies)
    ensures Probing(sites, answers, saved, now).session == saved
  {
    SessionKept(answers, |Probing(sites, answers, saved, now).sent|, saved, now);
  }

  // ---------------------------------------------------------------- answers

  /** The challenge test raises exactly on a truthy boolean or number. */
  lemma RaisesIff(fs: FetchResult)
    ensures StepOf(ReplyOf(fs)) == Raises <==> Truthy(fs.html) && (fs.html.Bool? || fs.html.Num?)
  {
  }

  /** An unreachable proxy sends the probe on to the next site. */
  lemma TransportErrorRejected(message: string)
    ensures AnswerOf(Fetch(TransportError(message))).step == Rejected
  {
    assert !Contains("", CaptchaPhrase);
    assert !Contains("", BrowserCheckPhrase);
  }

  /** An answer that is not JSON is never taken: its text is a challenge
      page or it is refused for its status 0. */
  lemma NonJsonNeverSelected(text: string)
    ensures Moves(AnswerOf(Fetch(NonJson(text))).step)
    ensures AnswerOf(Fetch(NonJson(text))).step == Challenged
            <==> Contains(text, CaptchaPhrase) || Contains(text, BrowserCheckPhrase)
  {
  }

  /** An answer without a status is taken when it has HTML free of both
      phrases, and refused when it has no HTML. */
  lemma StatusFromOk(fs: FetchResult)
    requires !Truthy(fs.status) && fs.ok == Truthy(fs.html)
    requires fs.html.Str? || fs.html == Null
    requires fs.html.Str? ==> !Contains(fs.html.s, CaptchaPhrase) && !Contains(fs.html.s, BrowserCheckPhrase)
    ensures StepOf(ReplyOf(fs)) == (if Truthy(fs.html) then Accepted else Rejected)
  {
    assert !Contains("", CaptchaPhrase);
    assert !Contains("", BrowserCheckPhrase);
  }

  /** Probing a Gravurefit scene URL asks each mirror site for the scene's
      path. */
  lemma GravurefitProbe(url: string, site: string, saved: Option<Stored>, now: int)
    requires url == "https://www.gravurefit.com/videos/lulu-255"
    ensures Request(url, site, saved, now).Returns? ==>
              Get(Request(url, site, saved, now).value, "url") == Str("https://www." + site + ".com" + "/videos/lulu-255")
  {
    SiteUrlOfGravurefit(url, site);
  }

  // ---------------------------------------------------------------- the scraper

  /** The `ResponseHTML` class, whose attributes the probe overwrites. */
  class ResponseHtml {
    var content: JsonValue
    var html: JsonValue
    var statusCode: JsonValue
    var url: string

    /** The class attributes as declared. */
    constructor ()
      ensures content == Str("") && html == Str("") && statusCode == Num(0) && url == ""
    {
      content := Str("");
      html := Str("");
      statusCode := Num(0);
      url := "";
    }
  }

  /** The scraper's global state: the protection flag, the saved proxy
      session, the raw and output caches, and the response object. */
  class JavScraper {
    var protectionCloudflare: bool
    var session: Option<Stored>
    var raws: Directory
    var outputs: Directory
    const response: ResponseHtml

    predicate Valid()
      reads this
    {
      raws != outputs
    }

    constructor (rawFiles: map<string, File>, outFiles: map<string, File>, saved: Option<Stored>)
      ensures Valid() && fresh(raws) && fresh(outputs) && fresh(response)
      ensures raws.files == rawFiles && outputs.files == outFiles && session == saved
      ensures !protectionCloudflare
    {
      protectionCloudflare := false;
      session := saved;
      raws := new Directory(rawFiles);
      outputs := new Directory(outFiles);
      response := new ResponseHtml();
    }

    /** One attempt: the cookie header built from the saved session, the
        request for the mirror `site`, the answer written into the
        response object, and the returned cookies saved. `step` is how the
        challenge and status tests judge the answer, or Unsent when
        building the header raised and nothing else happened. */
    method Attempt(url: string, stem: string, site: string, now: int, fs: FetchResult) returns (request: Outcome<JsonValue>, step: Step)
      requires stem == Stem(Netloc(url))
      modifies this, response
      ensures request == Request(url, site, old(session), now)
      ensures raws == old(raws) && outputs == old(outputs) && protectionCloudflare == old(protectionCloudflare)
      ensures request.Throws? ==> step == Unsent && session == old(session) && unchanged(response)
      ensures request.Returns? ==>
        && step == AnswerOf(fs).step
        && session == SessionAfter(old(session), fs.cookies, now)
        && Reply(response.html, response.statusCode) == ReplyOf(fs)
        && response.content == response.html && response.url == SiteUrl(url, site)
    {
      var siteUrl := Replace(url, stem, site);
      var cookieHeader := SessionCookieHeader(session, now, CookieAgeSeconds);
      if cookieHeader.Throws? {
        return Throws, Unsent;
      }
      request := Returns(Payload(siteUrl, ProbeHeaders, cookieHeader.value, RequestTimeoutMs));
      response.content := Or(fs.html, Str(""));
      response.html := Or(fs.html, Str(""));
      response.statusCode := Or(fs.status, Num(if fs.ok then 200 else 0));
      response.url := siteUrl;
      var returned := Or(fs.cookies, Arr([]));
      if Truthy(returned) {
        session := Some(Stored(Some(now), returned));
      }
      step := StepOf(Reply(response.html, response.statusCode));
    }

    /** One pass of the probe loop on the mirror `Sites[i]`: the attempt,
        and the protection flag raised on a challenge page. Unless the
        request is not sent, the probe's state moves from the one before
        site `i` to the one after it. */
    method ProbeSite(url: string, stem: string, results: seq<FetchResult>, now: int, i: nat,
                     ghost saved: Option<Stored>, ghost sent: seq<Option<Stored>>)
      returns (request: Outcome<JsonValue>, step: Step)
      requires stem == Stem(Netloc(url)) && |results| == |Sites| && i < |Sites|
      requires Before(AnswersOf(results), i, saved, now) == Scan(session, protectionCloudflare, sent)
      modifies this, response
      ensures raws == old(raws) && outputs == old(outputs)
      ensures request == Request(url, Sites[i], old(session), now)
      ensures step == StepAt(AnswersOf(results), i, saved, now)
      ensures step == Unsent ==>
        session == old(session) && protectionCloudflare == old(protectionCloudflare) && unchanged(response)
      ensures step != Unsent ==>
        && Before(AnswersOf(results), i + 1, saved, now) == Scan(session, protectionCloudflare, sent + [old(session)])
        && response.url == SiteUrl(url, Sites[i]) && response.content == response.html
        && Reply(response.html, response.statusCode) == ReplyOf(results[i])
    {
      AnswerAt(results, i);
      request, step := Attempt(url, stem, Sites[i], now, results[i]);
      if step == Challenged {
        protectionCloudflare := true;
      }
    }

    /** `bypass_protection(url)`; `results[j]` is what the proxy call
        returns for the `j`-th mirror site. The response object holds the
        last answer fetched, and is untouched when none was. */
    method BypassProtection(url: string, results: seq<FetchResult>, now: int) returns (verdict: Verdict, ghost sent: seq<Option<Stored>>)
      requires |results| == |Sites|
      modifies this, response
      ensures raws == old(raws) && outputs == old(outputs)
      ensures var p := Probing(Sites, AnswersOf(results), old(session), now);
        && verdict == p.verdict && session == p.session && protectionCloudflare == p.protection && sent == p.sent
        && (|p.sent| > 0 ==>
              && response.url == SiteUrl(url, Sites[|p.sent| - 1])
              && Reply(response.html, response.statusCode) == ReplyOf(results[|p.sent| - 1])
              && response.content == response.html)
        && (|p.sent| == 0 ==> unchanged(response))
    {
      ghost var answers := AnswersOf(results);
      sent := [];
      var stem := Stem(Netloc(url));
      protectionCloudflare := false;
      var i := 0;
      while i < |Sites|
        invariant 0 <= i <= |Sites|
        invariant raws == old(raws) && outputs == old(outputs)
        invariant i <= StopAt(answers, 0, old(session), now)
        invariant Before(answers, i, old(session), now) == Scan(session, protectionCloudflare, sent)
        invariant i > 0 ==> && response.url == SiteUrl(url, Sites[i - 1]) && response.content == response.html
                            && Reply(response.html, response.statusCode) == ReplyOf(results[i - 1])
        invariant i == 0 ==> unchanged(response)
      {
        ghost var before := session;
        var request, step := ProbeSite(url, stem, results, now, i, old(session), sent);
        if step == Unsent {
          assert StopAt(answers, 0, old(session), now) == i;
          verdict := Aborted;
          return;
        }
        sent := sent + [before];
        if !Moves(step) {
          assert StopAt(answers, 0, old(session), now) == i;
          verdict := if step == Accepted then Selected(Sites[i]) else Crashed;
          return;
        }
        i := i + 1;
      }
      assert StopAt(answers, 0, old(session), now) == |Sites|;
      verdict := Exhausted;
    }

    /** Saving the proxy's raw answer, when a basename was found. */
    method SaveRaw(basename: Option<string>, raw: JsonValue, now: int)
      requires Valid()
      modifies raws
      ensures raws.files == Gravurefit.SavedUnder(old(raws.files), Gravurefit.RawName(basename), raw, now)
      ensures outputs.files == old(outputs.files)
    {
      if basename.Some? {
        raws.Save(Gravurefit.RawName(basename).value, raw, now);
      }
    }

    /** Saving the printed record, when a basename was found. */
    method SaveOutput(basename: Option<string>, printed: JsonValue, now: int)
      requires Valid()
      modifies outputs
      ensures outputs.files == Gravurefit.SavedUnder(old(outputs.files), Gravurefit.OutName(basename), printed, now)
      ensures raws.files == old(raws.files)
    {
      if basename.Some? {
        outputs.Save(Gravurefit.OutName(basename).value, printed, now);
      }
    }

    /** The Gravurefit branch: a fresh fetch of the scene page with the
        saved cookies, the raw answer cached, the session rewritten, the
        record built from the page and cached, and the record printed.
        The header is built outside any `try`: when it raises the script
        ends there, nothing changed and nothing printed. */
    method GravureBranch(sceneUrl: string, now: int, outcome: HttpOutcome, parse: JsonValue -> Option<Queries>)
      returns (printed: Option<JsonValue>, request: Option<JsonValue>)
      requires Valid()
      modifies this, raws, outputs
      ensures Valid() && raws == old(raws) && outputs == old(outputs) && protectionCloudflare == old(protectionCloudflare)
      ensures Branched(sceneUrl, now, outcome, parse, old(session), old(raws.files), old(outputs.files),
                       printed, request, session, raws.files, outputs.files)
    {
      var cookieHeader := SessionCookieHeader(session, now, CookieAgeSeconds);
      if cookieHeader.Throws? {
        return None, None;
      }
      request := Some(Payload(sceneUrl, map["User-Agent" := UserAgent], cookieHeader.value, RequestTimeoutMs));
      var fs := Fetch(outcome);
      var basename := JavBasename(fs.raw, sceneUrl);
      SaveRaw(basename, fs.raw, now);
      if Truthy(fs.cookies) {
        session := Some(Stored(Some(now), fs.cookies));
      }
      var parsed := Gravurefit.ParseAnswer(fs, parse, false);
      var record := JavGravureRecord(parsed, sceneUrl);
      SaveOutput(basename, record, now);
      printed := Some(record);
    }

    /** The probe, run for a URL off the mirror sites: its verdict (None
        when it is not run) and whether its answer became the page to
        parse. */
    method ProbeStep(url: string, results: seq<FetchResult>, now: int) returns (verdict: Option<Verdict>, mainPage: bool)
      requires |results| == |Sites|
      modifies this, response
      ensures raws == old(raws) && outputs == old(outputs)
      ensures verdict.Some? <==> Stem(Netloc(url)) !in Sites
      ensures verdict.None? ==> session == old(session) && protectionCloudflare == old(protectionCloudflare)
      ensures verdict.Some? ==>
        var p := Probing(Sites, AnswersOf(results), old(session), now);
        verdict.value == p.verdict && session == p.session && protectionCloudflare == p.protection
      ensures mainPage <==> verdict.Some? && verdict.value.Selected? && Truthy(response.html)
    {
      verdict, mainPage := None, false;
      if Stem(Netloc(url)) !in Sites {
        var v, _ := BypassProtection(url, results, now);
        verdict := Some(v);
        mainPage := v.Selected? && Truthy(response.html);
      }
    }

    /** The main flow for a scene URL: the raw cache pruned, the probe for
        a URL off the mirror sites, and the Gravurefit branch for a
        Gravurefit host. `verdict` is the probe's (None when it is not
        run), `mainPage` says whether its answer became the page to parse,
        and `printed` is the Gravurefit record (None when that branch is
        not taken, or the script ended with a traceback before it printed).
        `titled` says whether the fragment's cleaned title is truthy: with
        no page to parse, the script then calls the search by title and
        ends there, since `send_request` is not defined. */
    method Run(sceneUrl: Option<string>, titled: bool, results: seq<FetchResult>, outcome: HttpOutcome,
               parse: JsonValue -> Option<Queries>, now: int, failing: set<string>)
      returns (verdict: Option<Verdict>, mainPage: bool, printed: Option<JsonValue>)
      requires Valid() && |results| == |Sites|
      modifies this, raws, outputs, response
      ensures Valid() && raws == old(raws) && outputs == old(outputs)
      ensures Gravurefit.NoUrl(sceneUrl) ==>
        && verdict.None? && !mainPage && printed.None? && session == old(session)
        && raws.files == Pruned(old(raws.files), now - RetentionDays * Day, failing)
        && outputs.files == old(outputs.files)
      ensures !Gravurefit.NoUrl(sceneUrl) ==> (verdict.Some? <==> Stem(Netloc(sceneUrl.value)) !in Sites)
      ensures verdict.Some? ==>
        && verdict.value == Probing(Sites, AnswersOf(results), old(session), now).verdict
        && protectionCloudflare == Probing(Sites, AnswersOf(results), old(session), now).protection
      ensures mainPage <==> verdict.Some? && verdict.value.Selected? && Truthy(response.html)
      ensures !Gravurefit.NoUrl(sceneUrl) ==>
        var probed := if verdict.Some? then Probing(Sites, AnswersOf(results), old(session), now).session else old(session);
        var prunedRaws := Pruned(old(raws.files), now - RetentionDays * Day, failing);
        if Contains(Netloc(sceneUrl.value), GravureHost) && verdict != Some(Crashed) && (mainPage || !titled) then
          exists request :: Branched(sceneUrl.value, now, outcome, parse, probed, prunedRaws, old(outputs.files),
                                     printed, request, session, raws.files, outputs.files)
        else
          printed.None? && session == probed && raws.files == prunedRaws && outputs.files == old(outputs.files)
    {
      raws.Prune(now, RetentionDays, failing);
      ghost var prunedRaws := raws.files;
      verdict, mainPage, printed := None, false, None;
      if Gravurefit.NoUrl(sceneUrl) {
        return;
      }
      var url := sceneUrl.value;
      verdict, mainPage := ProbeStep(url, results, now);
      if verdict == Some(Crashed) || (titled && !mainPage) {
        return;
      }
      ghost var probed, outFiles := session, outputs.files;
      if Contains(Netloc(url), GravureHost) {
        var record, request := GravureBranch(url, now, outcome, parse);
        printed := record;
        assert Branched(url, now, outcome, parse, probed, prunedRaws, outFiles,
                        printed, request, session, raws.files, outputs.files);
      }
    }
  }

  /** What the Gravurefit branch does from the session `saved` and the
      directories `rawFiles` and `outFiles`: when the header raises the
      script ends, changing nothing and printing nothing; otherwise it
      sends the request with the browser's user agent, prints the record,
      saves the raw answer and the record under the scene's basename and
      rewrites the session from the answer. */
  ghost predicate Branched(sceneUrl: string, now: int, outcome: HttpOutcome, parse: JsonValue -> Option<Queries>,
                           saved: Option<Stored>, rawFiles: map<string, File>, outFiles: map<string, File>,
                           printed: Option<JsonValue>, request: Option<JsonValue>, session: Option<Stored>,
                           raws: map<string, File>, outputs: map<string, File>)
  {
    var header := SessionCookieHeader(saved, now, CookieAgeSeconds);
    var fs := Fetch(outcome);
    var basename := JavBasename(fs.raw, sceneUrl);
    if header.Throws? then
      printed.None? && request.None? && session == saved && raws == rawFiles && outputs == outFiles
    else
      && request == Some(Payload(sceneUrl, map["User-Agent" := UserAgent], header.value, RequestTimeoutMs))
      && printed == Some(JavGravureRecord(Gravurefit.ParsedOf(fs, parse, false), sceneUrl))
      && session == SessionAfter(saved, fs.cookies, now)
      && raws == Gravurefit.SavedUnder(rawFiles, Gravurefit.RawName(basename), fs.raw, now)
      && outputs == Gravurefit.SavedUnder(outFiles, Gravurefit.OutName(basename), printed.value, now)
  }
}
