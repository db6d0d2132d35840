/**
 * The saved proxy session, identical in both scrapers: the `Cookie`
 * header built from the saved cookie list (`build_cookie_header_from_list`),
 * the freshness test that decides whether the saved cookies are reused,
 * and the rule for rewriting the session file after a fetch.
 * The clock is an input (`now`, whole seconds).
 */
module Session {

  import opened Wrappers
  import opened Json
  import opened Text

  /** One entry of a cookie list: the `name` and `value` entries of its
      dict (Null where the entry is missing). */
  datatype Cookie = Cookie(name: JsonValue, value: JsonValue)

  /** The session file: `{"timestamp": ..., "cookies": ...}`. `cookies` is
      what `session_data.get("cookies", [])` reads: the value saved from a
      proxy answer, normally a list of dicts but not necessarily one. */
  datatype Stored = Stored(timestamp: Option<int>, cookies: JsonValue)

  /** `f"{v}"` for the scalar values a cookie carries. */
  function Render(v: JsonValue): string {
    match v
    case Null => "None"
    case Bool(b) => if b then "True" else "False"
    case Num(n) => IntToString(n)
    case Str(s) => s
    case Arr(_) => ""
    case Obj(_) => ""
  }

  /** An entry contributes to the header when its name is truthy and its
      value is not None (an empty value still counts). */
  predicate Usable(c: Cookie) {
    Truthy(c.name) && c.value != Null
  }

  function Pair(c: Cookie): string {
    Render(c.name) + "=" + Render(c.value)
  }

  /** The `name=value` pairs of the usable entries, in input order. */
  function Pairs(cs: seq<Cookie>): (r: seq<string>)
    ensures |r| <= |cs|
    ensures forall i :: 0 <= i < |r| ==> '=' in r[i]
    decreases |cs|
  {
    if cs == [] then []
    else
      var last := cs[|cs| - 1];
      Pairs(cs[..|cs| - 1]) + (if Usable(last) then [Pair(last)] else [])
  }

  /** The pairs joined with "; ", or None (never "") when no entry is
      usable. */
  function CookieHeader(cs: seq<Cookie>): Option<string> {
    var parts := Pairs(cs);
    if parts == [] then None else Some(Join(parts, "; "))
  }

  /** The entry read off a dict. */
  function CookieOf(d: JsonValue): Cookie
    requires d.Obj?
  {
    Cookie(Get(d, "name"), Get(d, "value"))
  }

  /** The entries of a list whose items are all dicts, in order. */
  function CookieList(items: seq<JsonValue>): seq<Cookie>
    requires forall i :: 0 <= i < |items| ==> items[i].Obj?
    decreases |items|
  {
    if items == [] then []
    else CookieList(items[..|items| - 1]) + [CookieOf(items[|items| - 1])]
  }

  /** What `for c in cookies: c.get(...)` visits: the entries of a list of
      dicts, and nothing for an empty string or dict. Any other value
      raises: `.get` on a list item that is not a dict or on the first
      character or key of a non-empty string or dict, and iterating None,
      a boolean or a number. */
  function Entries(v: JsonValue): Outcome<seq<Cookie>> {
    match v
    case Arr(items) =>
      if forall i :: 0 <= i < |items| ==> items[i].Obj? then Returns(CookieList(items)) else Throws
    case Str(s) => if s == "" then Returns([]) else Throws
    case Obj(fields) => if fields == map[] then Returns([]) else Throws
    case _ => Throws
  }

  /** `build_cookie_header_from_list(cookies)`: the header of the entries,
      or Throws when the loop over them raises. */
  function HeaderOf(v: JsonValue): (h: Outcome<Option<string>>)
    ensures h.Returns? <==> Entries(v).Returns?
    ensures h.Returns? ==> h.value == CookieHeader(Entries(v).value)
  {
    match Entries(v)
    case Returns(cs) => Returns(CookieHeader(cs))
    case Throws => Throws
  }

  /** The pairs of the first `i + 1` dicts: those of the first `i`, then
      the pair of dict `i` when it is usable. */
  lemma PairsStep(items: seq<JsonValue>, i: nat)
    requires i < |items| && forall j :: 0 <= j <= i ==> items[j].Obj?
    ensures var c := CookieOf(items[i]);
      Pairs(CookieList(items[..i + 1])) == Pairs(CookieList(items[..i])) + (if Usable(c) then [Pair(c)] else [])
  {
    assert items[..i + 1][..i] == items[..i];
    var cs := CookieList(items[..i + 1]);
    assert cs == CookieList(items[..i]) + [CookieOf(items[i])];
    assert cs[..|cs| - 1] == CookieList(items[..i]);
  }

  /** `build_cookie_header_from_list`: one pass over the entries, appending
      each usable one's pair, raising at the first item that is not a
      dict. */
  method BuildCookieHeader(cookies: JsonValue) returns (header: Outcome<Option<string>>)
    ensures header == HeaderOf(cookies)
  {
    if !cookies.Arr? {
      // A string or dict yields its characters or keys, on which `.get`
      // raises; None, booleans and numbers are not iterable.
      header := if cookies == Str("") || cookies == Obj(map[]) then Returns(None) else Throws;
      return;
    }
    var items := cookies.items;
    var parts: seq<string> := [];
    var i := 0;
    while i < |items|
      invariant 0 <= i <= |items|
      invariant forall j :: 0 <= j < i ==> items[j].Obj?
      invariant parts == Pairs(CookieList(items[..i]))
    {
      var c := items[i];
      if !c.Obj? {
        return Throws;
      }
      var name := Get(c, "name");
      var value := Get(c, "value");
      PairsStep(items, i);
      if Truthy(name) && value != Null {
        parts := parts + [Render(name) + "=" + Render(value)];
      }
      i := i + 1;
    }
    assert items[..i] == items;
    if parts != [] {
      header := Returns(Some(Join(parts, "; ")));
    } else {
      header := Returns(None);
    }
  }

  lemma {:induction false} PairsEmpty(cs: seq<Cookie>)
    ensures Pairs(cs) == [] <==> forall i :: 0 <= i < |cs| ==> !Usable(cs[i])
    decreases |cs|
  {
    if cs != [] {
      var init := cs[..|cs| - 1];
      PairsEmpty(init);
      assert forall i :: 0 <= i < |init| ==> init[i] == cs[i];
    }
  }

  /** No header at all exactly when no entry is usable. */
  lemma CookieHeaderNone(cs: seq<Cookie>)
    ensures CookieHeader(cs).None? <==> forall i :: 0 <= i < |cs| ==> !Usable(cs[i])
  {
    PairsEmpty(cs);
  }

  /** A header that is present is never the empty string. */
  lemma CookieHeaderNotEmpty(cs: seq<Cookie>)
    requires CookieHeader(cs).Some?
    ensures CookieHeader(cs).value != ""
  {
    var parts := Pairs(cs);
    assert '=' in parts[0];
    JoinNonEmpty(parts, "; ");
  }

  /** Entries are taken in input order: a trailing entry is skipped when
      it is not usable, and otherwise its pair is appended after "; ". */
  lemma CookieHeaderSnoc(cs: seq<Cookie>, c: Cookie)
    ensures !Usable(c) ==> CookieHeader(cs + [c]) == CookieHeader(cs)
    ensures Usable(c) && CookieHeader(cs).None? ==> CookieHeader(cs + [c]) == Some(Pair(c))
    ensures Usable(c) && CookieHeader(cs).Some? ==>
              CookieHeader(cs + [c]) == Some(CookieHeader(cs).value + "; " + Pair(c))
  {
    assert (cs + [c])[..|cs|] == cs;
    assert Pairs(cs + [c]) == Pairs(cs) + (if Usable(c) then [Pair(c)] else []);
    var parts := Pairs(cs);
    if !Usable(c) {
      assert parts + [] == parts;
    } else if parts != [] {
      assert (parts + [Pair(c)])[..|parts|] == parts;
    }
  }

  lemma {:induction false} JoinNonEmpty(parts: seq<string>, sep: string)
    requires parts != [] && parts[0] != ""
    ensures Join(parts, sep) != ""
    decreases |parts|
  {
    if |parts| > 1 {
      JoinNonEmpty(parts[..|parts| - 1], sep);
    }
  }

  /** The first three entries of the example give the first pair only. */
  lemma CookieHeaderExamplePrefix()
    ensures CookieHeader([Cookie(Str("cf"), Str("abc")), Cookie(Str(""), Str("x")), Cookie(Str("sid"), Null)])
            == Some("cf=abc")
  {
    var a := Cookie(Str("cf"), Str("abc"));
    var b := Cookie(Str(""), Str("x"));
    var c := Cookie(Str("sid"), Null);
    assert Pair(a) == "cf=abc";
    CookieHeaderSnoc([], a);
    assert [] + [a] == [a];
    CookieHeaderSnoc([a], b);
    assert [a] + [b] == [a, b];
    CookieHeaderSnoc([a, b], c);
    assert [a, b] + [c] == [a, b, c];
  }

  /** An entry without a name and one whose value is None are skipped. */
  lemma CookieHeaderExample()
    ensures CookieHeader([
      Cookie(Str("cf"), Str("abc")),
      Cookie(Str(""), Str("x")),
      Cookie(Str("sid"), Null),
      Cookie(Str("lang"), Str("ja"))]) == Some("cf=abc; lang=ja")
  {
    var abc := [Cookie(Str("cf"), Str("abc")), Cookie(Str(""), Str("x")), Cookie(Str("sid"), Null)];
    var d := Cookie(Str("lang"), Str("ja"));
    CookieHeaderExamplePrefix();
    CookieHeaderSnoc(abc, d);
    assert Pair(d) == "lang=ja";
    assert abc + [d] == [abc[0], abc[1], abc[2], d];
    JoinedPairs();
  }

  /** The two pairs joined by "; ". */
  lemma JoinedPairs()
    ensures "cf=abc" + "; " + "lang=ja" == "cf=abc; lang=ja"
  {
  }

  /** A truthy cookie value, which is what a fetch saves, gives a header
      exactly when it is a list of dicts. */
  lemma TruthyHeaderIff(v: JsonValue)
    requires Truthy(v)
    ensures HeaderOf(v).Returns? <==> v.Arr? && forall i :: 0 <= i < |v.items| ==> v.items[i].Obj?
  {
  }

  /** One item that is not a dict makes the whole header raise, whatever
      the other items are. */
  lemma HeaderThrowsOnNonDict(items: seq<JsonValue>, i: nat)
    requires i < |items| && !items[i].Obj?
    ensures HeaderOf(Arr(items)) == Throws
  {
  }

  /** A list of dicts gives the header of its entries, in order. */
  lemma {:induction false} HeaderOfDicts(a: seq<JsonValue>, d: JsonValue)
    requires d.Obj? && forall i :: 0 <= i < |a| ==> a[i].Obj?
    ensures HeaderOf(Arr(a + [d])).Returns? && HeaderOf(Arr(a)).Returns?
    ensures Usable(CookieOf(d)) && HeaderOf(Arr(a)).value.Some? ==>
              HeaderOf(Arr(a + [d])).value == Some(HeaderOf(Arr(a)).value.value + "; " + Pair(CookieOf(d)))
    ensures !Usable(CookieOf(d)) ==> HeaderOf(Arr(a + [d])).value == HeaderOf(Arr(a)).value
  {
    var ad := a + [d];
    assert ad[..|a|] == a;
    assert CookieList(ad) == CookieList(a) + [CookieOf(d)];
    CookieHeaderSnoc(CookieList(a), CookieOf(d));
  }

  // ------------------------------------------------------------ freshness

  /** `(time.time() - int(ts)) <= FLARE_COOKIE_AGE_SECONDS`, with a missing
      timestamp read as 0. */
  predicate Fresh(stored: Stored, now: int, age: int) {
    now - stored.timestamp.GetOr(0) <= age
  }

  /** The cookie header a fetch starts with: built from the saved cookies
      when a session is saved and fresh (and raising when that raises),
      else none. */
  function SessionCookieHeader(saved: Option<Stored>, now: int, age: int): (h: Outcome<Option<string>>)
    ensures h != Returns(None) ==> saved.Some? && Fresh(saved.value, now, age)
    ensures h.Returns? && h.value.Some? ==> h.value.value != ""
  {
    if saved.Some? && Fresh(saved.value, now, age) then
      var h := HeaderOf(saved.value.cookies);
      if h.Returns? && h.value.Some? then CookieHeaderNotEmpty(Entries(saved.value.cookies).value); h else h
    else Returns(None)
  }

  /** The freshness bound is inclusive: cookies exactly `age` seconds old
      are used, one second older are not (nor can they raise), and a
      session without a timestamp is stale unless the clock itself is
      within `age` of 0. */
  lemma FreshnessBoundary(cookies: JsonValue, ts: int, age: int)
    requires HeaderOf(cookies) != Returns(None)
    ensures SessionCookieHeader(Some(Stored(Some(ts), cookies)), ts + age, age) == HeaderOf(cookies)
    ensures SessionCookieHeader(Some(Stored(Some(ts), cookies)), ts + age + 1, age) == Returns(None)
    ensures SessionCookieHeader(Some(Stored(None, cookies)), age + 1, age) == Returns(None)
  {
  }

  /** A header is sent exactly when a session is saved, it is fresh, its
      cookies are a list of dicts, and one of them is usable. */
  lemma SessionCookieHeaderIff(saved: Option<Stored>, now: int, age: int)
    ensures var h := SessionCookieHeader(saved, now, age);
      h.Returns? && h.value.Some? <==>
      && saved.Some? && Fresh(saved.value, now, age)
      && Entries(saved.value.cookies).Returns?
      && exists i :: 0 <= i < |Entries(saved.value.cookies).value| && Usable(Entries(saved.value.cookies).value[i])
  {
    if saved.Some? && Entries(saved.value.cookies).Returns? {
      CookieHeaderNone(Entries(saved.value.cookies).value);
    }
  }

  // ------------------------------------------------------------ saving

  /** The session after a fetch: rewritten with the returned cookies as
      they are, stamped `now`, exactly when they are truthy; otherwise
      left as it was. */
  function SessionAfter(saved: Option<Stored>, returned: JsonValue, now: int): (s: Option<Stored>)
    ensures Truthy(returned) ==> s == Some(Stored(Some(now), returned))
    ensures !Truthy(returned) ==> s == saved
  {
    if Truthy(returned) then Some(Stored(Some(now), returned)) else saved
  }

  /** A session just written is fresh for any non-negative age, so the
      next fetch within `age` seconds builds its header from the returned
      cookies, and raises when they are not a list of dicts. */
  lemma SavedSessionIsFresh(saved: Option<Stored>, returned: JsonValue, now: int, later: int, age: int)
    requires Truthy(returned) && now <= later <= now + age
    ensures SessionCookieHeader(SessionAfter(saved, returned, now), later, age) == HeaderOf(returned)
    ensures SessionCookieHeader(SessionAfter(saved, returned, now), later, age).Throws?
            <==> !returned.Arr? || exists i :: 0 <= i < |returned.items| && !returned.items[i].Obj?
  {
    TruthyHeaderIff(returned);
  }
}
