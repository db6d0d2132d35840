/**
 * The client of the headless-browser proxy (`fetch_via_flaresolverr`,
 * identical in both scrapers): how the request payload is built and how
 * whatever JSON the proxy sends back is normalised into
 * `{ok, status, html, cookies, raw}`. The HTTP call itself is an input:
 * the model receives its outcome.
 */
module Flare {

  import opened Wrappers
  import opened Json

  /** What the POST to the proxy produced. `TransportError` covers every
      exception of `requests.post` and of `raise_for_status()`;
      `NonJson` is a body that `r.json()` could not decode. */
  datatype HttpOutcome =
    | TransportError(message: string)
    | NonJson(text: string)
    | JsonBody(body: JsonValue)

  /** The normalised answer. `status`, `html` and `cookies` are whatever
      JSON the proxy put there (Null for Python's None). */
  datatype FetchResult = FetchResult(
    ok: bool,
    status: JsonValue,
    html: JsonValue,
    cookies: JsonValue,
    raw: JsonValue)

  const RequestTimeoutMs: int := 60000

  /** The caller's headers plus a `Cookie` header built from the saved
      session, which is added only when it is non-empty and the caller
      did not already supply one. */
  function MergeHeaders(headers: map<string, string>, cookieHeader: Option<string>): (r: map<string, string>)
    ensures forall k :: k in headers ==> k in r && r[k] == headers[k]
    ensures r.Keys <= headers.Keys + {"Cookie"}
    ensures ("Cookie" in r && "Cookie" !in headers)
            <==> (cookieHeader.Some? && cookieHeader.value != "" && "Cookie" !in headers)
    ensures "Cookie" in r && "Cookie" !in headers ==> r["Cookie"] == cookieHeader.value
  {
    if cookieHeader.Some? && cookieHeader.value != "" && "Cookie" !in headers
    then headers["Cookie" := cookieHeader.value]
    else headers
  }

  function HeadersJson(headers: map<string, string>): JsonValue {
    Obj(map k | k in headers :: Str(headers[k]))
  }

  /** The body POSTed to the proxy: `{cmd, url, maxTimeout}` and, only
      when there is at least one header, `headers`. */
  function Payload(url: string, headers: map<string, string>, cookieHeader: Option<string>, timeout: int): (p: JsonValue)
    ensures p.Obj? && Get(p, "cmd") == Str("request.get") && Get(p, "url") == Str(url)
    ensures Get(p, "maxTimeout") == Num(timeout)
    ensures "headers" in p.fields <==> MergeHeaders(headers, cookieHeader) != map[]
    ensures "headers" in p.fields ==> p.fields["headers"] == HeadersJson(MergeHeaders(headers, cookieHeader))
  {
    var merged := MergeHeaders(headers, cookieHeader);
    var base := map["cmd" := Str("request.get"), "url" := Str(url), "maxTimeout" := Num(timeout)];
    if merged != map[] then Obj(base["headers" := HeadersJson(merged)]) else Obj(base)
  }

  // ------------------------------------------------------------ the shape chain

  /** What one pass over the response recovers. */
  datatype Recovered = Recovered(html: JsonValue, cookies: JsonValue, status: JsonValue)

  /** `data.get("solution") or data.get("response") or data`. */
  function Solution(data: JsonValue): JsonValue
    requires data.Obj?
  {
    Or(Or(Get(data, "solution"), Get(data, "response")), data)
  }

  /** First pass: inside the chosen solution, an embedded `response`
      object (`data`, `content`, `html`), an embedded string, or the
      solution's own keys. */
  function FirstPass(data: JsonValue): Recovered
    requires data.Obj?
  {
    var sol := Solution(data);
    if sol.Obj? then
      var resp := Get(sol, "response");
      if resp.Obj? then
        Recovered(
          Or(Or(Or(Get(resp, "data"), Get(resp, "content")), Get(resp, "html")), Null),
          Or(Or(Get(resp, "cookies"), Get(sol, "cookies")), Arr([])),
          Or(Or(Get(resp, "status"), Get(sol, "status")), Null))
      else if resp.Str? then
        Recovered(resp, Or(Get(sol, "cookies"), Arr([])), Or(Get(sol, "status"), Null))
      else
        Recovered(
          Or(Or(Or(Get(sol, "data"), Get(sol, "content")), Get(sol, "html")), Null),
          Or(Get(sol, "cookies"), Arr([])),
          Or(Get(sol, "status"), Null))
    else if sol.Str? then Recovered(sol, Arr([]), Null)
    else Recovered(Null, Arr([]), Null)
  }

  /** Second pass, taken only when the first found no truthy HTML: the
      top-level `response`, with `content` tried before `data`. */
  function Retry(data: JsonValue, f: Recovered): Recovered
    requires data.Obj?
  {
    var resp2 := Get(data, "response");
    if resp2.Obj? then
      Recovered(
        Or(Or(Or(Get(resp2, "content"), Get(resp2, "data")), Get(resp2, "html")), f.html),
        Or(Get(resp2, "cookies"), f.cookies),
        Or(Get(resp2, "status"), f.status))
    else if resp2.Str? then Recovered(resp2, f.cookies, f.status)
    else f
  }

  /** The normalisation of a decoded JSON body. `ok` is the truthiness of
      the recovered HTML and nothing else. */
  function Normalise(data: JsonValue): (r: FetchResult)
    ensures r.raw == data
    ensures r.ok == Truthy(r.html)
    ensures !data.Obj? ==> !r.ok && r.html == Null && r.status == Null && r.cookies == Arr([])
  {
    if !data.Obj? then FetchResult(false, Null, Null, Arr([]), data)
    else
      var first := FirstPass(data);
      var found := if Truthy(first.html) then first else Retry(data, first);
      FetchResult(Truthy(found.html), found.status, found.html, found.cookies, data)
  }

  /** `fetch_via_flaresolverr` once the POST has happened: it never
      raises; a transport failure and an undecodable body are not ok. */
  function Fetch(outcome: HttpOutcome): (r: FetchResult)
    ensures outcome.TransportError? ==>
      && !r.ok && r.status == Null && r.html == Null && r.cookies == Arr([])
      && r.raw == Obj(map["error" := Str(outcome.message)])
    ensures outcome.NonJson? ==>
      && !r.ok && r.status == Null && r.html == Str(outcome.text) && r.cookies == Arr([])
      && r.raw == Str(outcome.text)
    ensures outcome.JsonBody? ==> r.raw == outcome.body && (r.ok <==> Truthy(r.html))
  {
    match outcome
    case TransportError(message) =>
      FetchResult(false, Null, Null, Arr([]), Obj(map["error" := Str(message)]))
    case NonJson(text) => FetchResult(false, Null, Str(text), Arr([]), Str(text))
    case JsonBody(body) => Normalise(body)
  }

  // ------------------------------------------------------------ the chain as a list

  /** The first truthy value of a list of candidates. */
  function FirstTruthy(cs: seq<JsonValue>): (r: Option<JsonValue>)
    ensures r.Some? ==> Truthy(r.value) && r.value in cs
    ensures r.None? <==> forall i :: 0 <= i < |cs| ==> !Truthy(cs[i])
  {
    if cs == [] then None else if Truthy(cs[0]) then Some(cs[0]) else FirstTruthy(cs[1..])
  }

  lemma {:induction false} FirstTruthyAppend(a: seq<JsonValue>, b: seq<JsonValue>)
    ensures FirstTruthy(a + b) == if FirstTruthy(a).Some? then FirstTruthy(a) else FirstTruthy(b)
    decreases |a|
  {
    if a != [] {
      assert (a + b)[1..] == a[1..] + b;
      FirstTruthyAppend(a[1..], b);
    } else {
      assert a + b == b;
    }
  }

  /** The places where HTML may stand, in the order the client tries them:
      the embedded response's `data`, `content`, `html` (or the embedded
      string, or the solution's own keys, or the solution string), then
      the top-level response's `content`, `data`, `html` (or string). */
  function HtmlCandidates(data: JsonValue): seq<JsonValue> {
    if !data.Obj? then []
    else
      var sol := Solution(data);
      var first :=
        if sol.Obj? then
          var resp := Get(sol, "response");
          if resp.Obj? then [Get(resp, "data"), Get(resp, "content"), Get(resp, "html")]
          else if resp.Str? then [resp]
          else [Get(sol, "data"), Get(sol, "content"), Get(sol, "html")]
        else if sol.Str? then [sol]
        else [];
      var resp2 := Get(data, "response");
      var retry :=
        if resp2.Obj? then [Get(resp2, "content"), Get(resp2, "data"), Get(resp2, "html")]
        else if resp2.Str? then [resp2]
        else [];
      first + retry
  }

  /** A chain `a or b or c or x` over three candidates. */
  lemma FirstOfThree(a: JsonValue, b: JsonValue, c: JsonValue, x: JsonValue)
    ensures var r := Or(Or(Or(a, b), c), x);
            FirstTruthy([a, b, c]).Some? ==> r == FirstTruthy([a, b, c]).value
    ensures FirstTruthy([a, b, c]).None? ==> Or(Or(Or(a, b), c), x) == x
  {
    assert [a, b, c][1..] == [b, c];
    assert [b, c][1..] == [c];
    assert [c][1..] == [];
    if FirstTruthy([a, b, c]).None? {
      assert [a, b, c][0] == a && [a, b, c][1] == b && [a, b, c][2] == c;
    }
  }

  /** A single candidate. */
  lemma FirstOfOne(a: JsonValue)
    ensures FirstTruthy([a]) == if Truthy(a) then Some(a) else None
  {
    assert [a][1..] == [];
  }

  /** The nested fallbacks are one strategy chain: the response is ok
      exactly when some place in the chain holds truthy HTML, and the HTML
      returned is the first such. The status fields play no part. */
  lemma HtmlIsFirstCandidate(data: JsonValue)
    ensures Normalise(data).ok <==> FirstTruthy(HtmlCandidates(data)).Some?
    ensures Normalise(data).ok ==> Normalise(data).html == FirstTruthy(HtmlCandidates(data)).value
  {
    if data.Obj? {
      var sol := Solution(data);
      var resp2 := Get(data, "response");
      var firstList :=
        if sol.Obj? then
          var resp := Get(sol, "response");
          if resp.Obj? then [Get(resp, "data"), Get(resp, "content"), Get(resp, "html")]
          else if resp.Str? then [resp]
          else [Get(sol, "data"), Get(sol, "content"), Get(sol, "html")]
        else if sol.Str? then [sol]
        else [];
      var retryList :=
        if resp2.Obj? then [Get(resp2, "content"), Get(resp2, "data"), Get(resp2, "html")]
        else if resp2.Str? then [resp2]
        else [];
      assert HtmlCandidates(data) == firstList + retryList;
      FirstTruthyAppend(firstList, retryList);
      var f := FirstPass(data);
      if sol.Obj? {
        var resp := Get(sol, "response");
        if resp.Obj? {
          FirstOfThree(Get(resp, "data"), Get(resp, "content"), Get(resp, "html"), Null);
        } else if resp.Str? {
          FirstOfOne(resp);
        } else {
          FirstOfThree(Get(sol, "data"), Get(sol, "content"), Get(sol, "html"), Null);
        }
      } else if sol.Str? {
        FirstOfOne(sol);
      }
      assert Truthy(f.html) <==> FirstTruthy(firstList).Some?;
      if !Truthy(f.html) {
        if resp2.Obj? {
          FirstOfThree(Get(resp2, "content"), Get(resp2, "data"), Get(resp2, "html"), f.html);
        } else if resp2.Str? {
          FirstOfOne(resp2);
        }
      }
    }
  }

  /** The two shapes the proxy is known to use give the same HTML:
      `{solution: {response: {data: H}}}` and `{response: H}`. */
  lemma ShapeInvariance(h: string)
    requires h != ""
    ensures var nested := Obj(map["solution" := Obj(map["response" := Obj(map["data" := Str(h)])])]);
            Normalise(nested).ok && Normalise(nested).html == Str(h)
    ensures var flat := Obj(map["response" := Str(h)]);
            Normalise(flat).ok && Normalise(flat).html == Str(h)
  {
  }
}
