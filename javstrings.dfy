/**
 * The string handling of the JavLibrary scraper around its page queries:
 * the domain stem of a URL and its rewrite to each JavLibrary mirror, the
 * cover-image rewrite, the first-word strip of the details, the banned-word
 * and bracket clean-up, the title clean-up over a replacement table, the
 * post-filtering of an XPath query's results, the post-processing of the
 * queried page and the `·`/`,` split of tag names.
 */
module JavStrings {

  import opened Wrappers
  import opened Text
  import opened Json
  import opened Fields
  import opened Records

  // ---------------------------------------------------------------- urlparse(url).netloc

  /** The leading characters `urlsplit` strips: C0 controls and space. */
  predicate ControlOrSpace(c: char) { c <= ' ' }

  /** The characters `urlsplit` deletes wherever they are: tab, CR, LF. */
  predicate Unsafe(c: char) { c == '\t' || c == '\r' || c == '\n' }

  function SkipControls(s: string, i: nat): (k: nat)
    requires i <= |s|
    ensures i <= k <= |s|
    ensures forall j :: i <= j < k ==> ControlOrSpace(s[j])
    ensures k == |s| || !ControlOrSpace(s[k])
    decreases |s| - i
  {
    if i == |s| || !ControlOrSpace(s[i]) then i else SkipControls(s, i + 1)
  }

  /** `s` with its tabs, carriage returns and line feeds removed. */
  function DropUnsafe(s: string): (r: string)
    ensures |r| <= |s|
    ensures forall i :: 0 <= i < |r| ==> !Unsafe(r[i])
    decreases |s|
  {
    if s == [] then []
    else if Unsafe(s[|s| - 1]) then DropUnsafe(s[..|s| - 1])
    else DropUnsafe(s[..|s| - 1]) + [s[|s| - 1]]
  }

  lemma {:induction false} DropUnsafeNone(s: string)
    requires forall i :: 0 <= i < |s| ==> !Unsafe(s[i])
    ensures DropUnsafe(s) == s
    decreases |s|
  {
    if s != [] {
      DropUnsafeNone(s[..|s| - 1]);
      assert s[..|s| - 1] + [s[|s| - 1]] == s;
    }
  }

  /** The URL `urlsplit` actually parses. */
  function Sanitize(url: string): string {
    DropUnsafe(url[SkipControls(url, 0)..])
  }

  /** The index of the first `c` at or after `i`, or `|s|`. */
  function FindChar(s: string, c: char, i: nat): (k: nat)
    requires i <= |s|
    ensures i <= k <= |s|
    ensures forall j :: i <= j < k ==> s[j] != c
    ensures k < |s| ==> s[k] == c
    decreases |s| - i
  {
    if i == |s| || s[i] == c then i else FindChar(s, c, i + 1)
  }

  predicate SchemeChar(c: char) {
    IsAsciiLetter(c) || IsDigit(c) || c == '+' || c == '-' || c == '.'
  }

  /** What follows the scheme: the text after the first `:` when what
      precedes it is a scheme (an ASCII letter, then letters, digits, `+`,
      `-` or `.`), otherwise the whole URL. */
  function AfterScheme(u: string): (r: string)
    ensures |r| <= |u| && r == u[|u| - |r|..]
  {
    var i := FindChar(u, ':', 0);
    if 0 < i < |u| && IsAsciiLetter(u[0]) && (forall j :: 0 <= j < i ==> SchemeChar(u[j]))
    then u[i + 1..] else u
  }

  predicate NetlocDelim(c: char) { c == '/' || c == '?' || c == '#' }

  /** The index of the first `/`, `?` or `#` at or after `i`, or `|s|`. */
  function NetlocEnd(s: string, i: nat): (k: nat)
    requires i <= |s|
    ensures i <= k <= |s|
    ensures forall j :: i <= j < k ==> !NetlocDelim(s[j])
    ensures k < |s| ==> NetlocDelim(s[k])
    decreases |s| - i
  {
    if i == |s| || NetlocDelim(s[i]) then i else NetlocEnd(s, i + 1)
  }

  /** `urlparse(url).netloc`: after the scheme, the text between a leading
      `//` and the next `/`, `?` or `#`; empty when there is no `//`. */
  function Netloc(url: string): (r: string)
    ensures forall i :: 0 <= i < |r| ==> !NetlocDelim(r[i]) && !Unsafe(r[i])
  {
    var rest := AfterScheme(Sanitize(url));
    if |rest| >= 2 && rest[0] == '/' && rest[1] == '/' then rest[2..NetlocEnd(rest, 2)] else ""
  }

  /** A URL starting with a printable character and free of tabs and line
      breaks is parsed as it is. */
  lemma SanitizeClean(u: string)
    requires u != [] && !ControlOrSpace(u[0])
    requires forall i :: 0 <= i < |u| ==> !Unsafe(u[i])
    ensures Sanitize(u) == u
  {
    assert SkipControls(u, 0) == 0;
    assert u[0..] == u;
    DropUnsafeNone(u);
  }

  /** The `https` scheme is recognised and dropped with its colon. */
  lemma AfterHttps(rest: string)
    ensures AfterScheme("https:" + rest) == rest
  {
    var u := "https:" + rest;
    assert u[0] == 'h' && u[1] == 't' && u[2] == 't' && u[3] == 'p' && u[4] == 's' && u[5] == ':';
    var k := FindChar(u, ':', 0);
    assert k == 5;
    assert u[6..] == rest;
  }

  /** The netloc is the text after `//` up to the next delimiter. */
  lemma AuthorityOf(host: string, path: string)
    requires forall i :: 0 <= i < |host| ==> !NetlocDelim(host[i])
    requires path == [] || NetlocDelim(path[0])
    ensures var rest := "//" + host + path;
      NetlocEnd(rest, 2) == 2 + |host| && rest[2..2 + |host|] == host
  {
    var rest := "//" + host + path;
    if path != [] {
      assert rest[2 + |host|] == path[0];
    }
    assert forall j :: 2 <= j < 2 + |host| ==> rest[j] == host[j - 2];
    assert rest[2..2 + |host|] == host;
  }

  /** An `https` URL built from safe parts holds no tab or line break. */
  lemma HttpsSafe(host: string, path: string)
    requires forall i :: 0 <= i < |host| ==> !Unsafe(host[i])
    requires forall i :: 0 <= i < |path| ==> !Unsafe(path[i])
    ensures var u := "https://" + host + path; forall i :: 0 <= i < |u| ==> !Unsafe(u[i])
  {
    var u := "https://" + host + path;
    forall i | 0 <= i < |u|
      ensures !Unsafe(u[i])
    {
      if i >= 8 + |host| { assert u[i] == path[i - 8 - |host|]; }
      else if i >= 8 { assert u[i] == host[i - 8]; }
      else { assert u[i] == "https://"[i]; }
    }
  }

  /** The authority of an `https` URL is its netloc. */
  lemma NetlocOfHttps(host: string, path: string)
    requires forall i :: 0 <= i < |host| ==> !NetlocDelim(host[i]) && !Unsafe(host[i])
    requires path == [] || NetlocDelim(path[0])
    requires forall i :: 0 <= i < |path| ==> !Unsafe(path[i])
    ensures Netloc("https://" + host + path) == host
  {
    var rest := "//" + host + path;
    var u := "https:" + rest;
    assert u == "https://" + host + path;
    HttpsSafe(host, path);
    SanitizeClean(u);
    AfterHttps(rest);
    AuthorityOf(host, path);
    NetlocAfter(u, rest);
  }

  /** Once the URL parses as it is and its scheme is dropped, the netloc
      is read off the `//` that follows. */
  lemma NetlocAfter(u: string, rest: string)
    requires Sanitize(u) == u && AfterScheme(u) == rest
    requires |rest| >= 2 && rest[0] == '/' && rest[1] == '/'
    ensures Netloc(u) == rest[2..NetlocEnd(rest, 2)]
  {
  }

  /** A URL without `//` after its scheme has an empty netloc. */
  lemma NetlocWithoutAuthority(url: string)
    requires forall i :: 0 <= i < |url| ==> url[i] != '/'
    ensures Netloc(url) == ""
  {
    var u := Sanitize(url);
    var rest := AfterScheme(u);
    if |rest| >= 2 && rest[0] == '/' {
      var k := SkipControls(url, 0);
      assert rest[0] == u[|u| - |rest|];
      DropUnsafeMember(url[k..], |u| - |rest|);
      assert false;
    }
  }

  /** Every character that survives `DropUnsafe` was in its input. */
  lemma {:induction false} DropUnsafeMember(s: string, i: nat)
    requires i < |DropUnsafe(s)|
    ensures DropUnsafe(s)[i] in s
    decreases |s|
  {
    var p := s[..|s| - 1];
    if i < |DropUnsafe(p)| {
      DropUnsafeMember(p, i);
    }
  }

  // ---------------------------------------------------------------- domain stem

  /** `re.sub(r"www\.|\.com", "", t[i..])`: at each position, `www.` is
      tried first, then `.com`; a match is dropped and scanning resumes
      after it. */
  function StemFrom(t: string, i: nat): (r: string)
    requires i <= |t|
    ensures |r| <= |t| - i
    decreases |t| - i
  {
    if i == |t| then []
    else if WwwAt(t, i) || ComAt(t, i) then StemFrom(t, i + 4)
    else [t[i]] + StemFrom(t, i + 1)
  }

  /** `www.` starts at index `i` of `t`. */
  predicate WwwAt(t: string, i: nat) {
    i + 4 <= |t| && t[i] == 'w' && t[i + 1] == 'w' && t[i + 2] == 'w' && t[i + 3] == '.'
  }

  /** `.com` starts at index `i` of `t`. */
  predicate ComAt(t: string, i: nat) {
    i + 4 <= |t| && t[i] == '.' && t[i + 1] == 'c' && t[i + 2] == 'o' && t[i + 3] == 'm'
  }

  /** The site name of a netloc: `www.` and `.com` removed. */
  function Stem(netloc: string): (r: string)
    ensures |r| <= |netloc|
  {
    StemFrom(netloc, 0)
  }

  /** Neither pattern can start at a character other than `w` or `.`. */
  predicate Plain(c: char) { c != 'w' && c != '.' }

  /** A run of plain characters passes through unchanged. */
  lemma {:induction false} StemPlainRun(t: string, i: nat, j: nat)
    requires i <= j <= |t|
    requires forall k :: i <= k < j ==> Plain(t[k])
    ensures StemFrom(t, i) == t[i..j] + StemFrom(t, j)
    decreases j - i
  {
    if i < j {
      assert !WwwAt(t, i) && !ComAt(t, i);
      StemPlainRun(t, i + 1, j);
      assert t[i..j] == [t[i]] + t[i + 1..j];
      AppendAssoc([t[i]], t[i + 1..j], StemFrom(t, j));
    }
  }

  /** A name without `w` or `.` is its own stem. */
  lemma StemOfPlain(name: string)
    requires forall k :: 0 <= k < |name| ==> Plain(name[k])
    ensures Stem(name) == name
  {
    StemPlainRun(name, 0, |name|);
  }

  /** The stem of `www.<name>.com` is the name. */
  lemma StemOfHost(name: string)
    requires forall k :: 0 <= k < |name| ==> Plain(name[k])
    ensures Stem("www." + name + ".com") == name
  {
    var t := "www." + name + ".com";
    assert t[..4] == "www.";
    assert WwwAt(t, 0);
    var e := 4 + |name|;
    forall k | 4 <= k < e
      ensures Plain(t[k])
    {
      assert t[k] == name[k - 4];
    }
    StemPlainRun(t, 4, e);
    assert t[e..] == ".com";
    assert ComAt(t, e);
    assert t[4..e] == name;
  }

  // ---------------------------------------------------------------- mirror URLs

  /** `SITE_JAVLIB`: the JavLibrary mirrors, in the order they are tried. */
  const Sites: seq<string> := ["javlibrary", "o58c", "e59f"]

  /** `url.replace(url_domain, site)` with `url_domain` the stem of the
      URL's netloc. */
  function SiteUrl(url: string, site: string): string {
    Replace(url, Stem(Netloc(url)), site)
  }

  /** `www.<name>.com` is a well-formed netloc when the name is. */
  lemma HostChars(name: string)
    requires forall k :: 0 <= k < |name| ==> !NetlocDelim(name[k]) && !Unsafe(name[k])
    ensures var host := "www." + name + ".com";
      forall i :: 0 <= i < |host| ==> !NetlocDelim(host[i]) && !Unsafe(host[i])
  {
    var host := "www." + name + ".com";
    forall i | 0 <= i < |host|
      ensures !NetlocDelim(host[i]) && !Unsafe(host[i])
    {
      if 4 <= i < 4 + |name| { assert host[i] == name[i - 4]; }
      else if i < 4 { assert host[i] == "www."[i]; }
      else { assert host[i] == ".com"[i - 4 - |name|]; }
    }
  }

  /** Replacing a name that occurs once. */
  lemma ReplaceOnce(a: string, name: string, b: string, site: string)
    requires name != []
    requires !Contains(a + name[..|name| - 1], name) && !Contains(b, name)
    ensures Replace(a + name + b, name, site) == a + site + b
  {
    ReplaceFirst(a, name, b, site);
    ReplaceAbsent(b, name, site);
  }

  /** Regrouping five concatenated parts. */
  lemma Regroup<T>(p: seq<T>, w: seq<T>, n: seq<T>, c: seq<T>, q: seq<T>)
    ensures p + (w + n + c) + q == (p + w) + n + (c + q)
    ensures (p + w) + n + (c + q) == (p + w) + n + c + q
  {
  }

  /** For `https://www.<name>.com<path>` the rewrite swaps the name for the
      site, provided the name occurs nowhere else in the URL. */
  lemma SiteUrlOfHost(name: string, path: string, site: string)
    requires name != []
    requires forall k :: 0 <= k < |name| ==> Plain(name[k]) && !NetlocDelim(name[k]) && !Unsafe(name[k])
    requires path == [] || NetlocDelim(path[0])
    requires forall i :: 0 <= i < |path| ==> !Unsafe(path[i])
    requires !Contains("https://www." + name[..|name| - 1], name)
    requires !Contains(".com" + path, name)
    ensures SiteUrl("https://www." + name + ".com" + path, site) == "https://www." + site + ".com" + path
  {
    var p, w, c := "https://", "www.", ".com";
    assert p + w == "https://www.";
    var host := w + name + c;
    HostChars(name);
    NetlocOfHttps(host, path);
    StemOfHost(name);
    Regroup(p, w, name, c, path);
    Regroup(p, w, site, c, path);
    ReplaceOnce(p + w, name, c + path, site);
  }

  /** The facts `SiteUrlOfHost` needs about the Gravurefit host name and
      a scene path: the characters, */
  lemma GravurefitChars(name: string, path: string)
    requires name == "gravurefit" && path == "/videos/lulu-255"
    ensures forall k :: 0 <= k < |name| ==> Plain(name[k]) && !NetlocDelim(name[k]) && !Unsafe(name[k])
    ensures forall k :: 0 <= k < |path| ==> !Unsafe(path[k])
  {
  }

  /** the name does not occur before its place, */
  lemma GravurefitBefore(name: string)
    requires name == "gravurefit"
    ensures !Contains("https://www." + name[..|name| - 1], name)
  {
    var before := "https://www." + name[..|name| - 1];
    assert before == "https://www.gravurefi";
    assert forall k :: 0 <= k < |before| && before[k] == 'g' ==> k == 12;
    NotContainsByFirstChar(before, name);
  }

  /** and not after it. */
  lemma GravurefitAfter(name: string, path: string)
    requires name == "gravurefit" && path == "/videos/lulu-255"
    ensures !Contains(".com" + path, name)
  {
    var after := ".com" + path;
    assert forall k :: 0 <= k < |after| ==> after[k] != 'g';
    NotContainsByFirstChar(after, name);
  }

  /** A Gravurefit scene URL becomes the same path on each mirror. */
  lemma SiteUrlOfGravurefit(url: string, site: string)
    requires url == "https://www.gravurefit.com/videos/lulu-255"
    ensures SiteUrl(url, site) == "https://www." + site + ".com" + "/videos/lulu-255"
  {
    var name, path := "gravurefit", "/videos/lulu-255";
    assert url == "https://www." + name + ".com" + path;
    GravurefitChars(name, path);
    GravurefitBefore(name);
    GravurefitAfter(name, path);
    SiteUrlOfHost(name, path, site);
  }

  /** Without a netloc the stem is empty, and Python's replace of the empty
      string puts the site before every character and at the end. */
  lemma SiteUrlWithoutHost(url: string, site: string)
    requires forall i :: 0 <= i < |url| ==> url[i] != '/'
    ensures SiteUrl(url, site) == Interleave(url, site)
  {
    NetlocWithoutAuthority(url);
  }

  // ---------------------------------------------------------------- cover image

  /** `http:` starts at index `i` of `t`. */
  predicate HttpAt(t: string, i: nat) {
    i + 5 <= |t| && t[i] == 'h' && t[i + 1] == 't' && t[i + 2] == 't' && t[i + 3] == 'p' && t[i + 4] == ':'
  }

  /** `https:` starts at index `i` of `t`. */
  predicate HttpsAt(t: string, i: nat) {
    i + 6 <= |t| && t[i] == 'h' && t[i + 1] == 't' && t[i + 2] == 't' && t[i + 3] == 'p'
    && t[i + 4] == 's' && t[i + 5] == ':'
  }

  /** `re.sub(r"(http:|https:)", "", t[i..])`: at each position `http:` is
      tried, then `https:`; a match is dropped and scanning resumes after
      it. */
  function RemoveSchemes(t: string, i: nat): (r: string)
    requires i <= |t|
    ensures |r| <= |t| - i
    decreases |t| - i
  {
    if i == |t| then []
    else if HttpAt(t, i) then RemoveSchemes(t, i + 5)
    else if HttpsAt(t, i) then RemoveSchemes(t, i + 6)
    else [t[i]] + RemoveSchemes(t, i + 1)
  }

  /** The cover URL built from the first image result: `https:` followed
      by the result with its schemes removed, or None for the site's
      placeholder images. */
  function JavCover(first: string): (r: Option<string>)
    ensures r.Some? ==> !Contains(r.value, "now_printing.jpg") && !Contains(r.value, "noimage")
    ensures r.Some? ==> r.value == "https:" + RemoveSchemes(first, 0)
  {
    var image := "https:" + RemoveSchemes(first, 0);
    if Contains(image, "now_printing.jpg") || Contains(image, "noimage") then None else Some(image)
  }

  /** Neither scheme can be found in text without a colon. */
  lemma {:induction false} RemoveSchemesNoColon(t: string, i: nat)
    requires i <= |t|
    requires forall k :: i <= k < |t| ==> t[k] != ':'
    ensures RemoveSchemes(t, i) == t[i..]
    decreases |t| - i
  {
    if i < |t| {
      RemoveSchemesNoColon(t, i + 1);
      assert t[i..] == [t[i]] + t[i + 1..];
    }
  }

  /** A leading `http:` or `https:` goes, the rest is scanned as it is. */
  lemma RemoveSchemesAfter(p: string, rest: string)
    requires p == "http:" || p == "https:"
    ensures RemoveSchemes(p + rest, 0) == RemoveSchemes(p + rest, |p|)
  {
    var t := p + rest;
    if p == "http:" {
      assert t[..5] == "http:";
      assert HttpAt(t, 0);
    } else {
      assert t[..6] == "https:";
      assert !HttpAt(t, 0) && HttpsAt(t, 0);
    }
  }

  /** A protocol-relative cover (`//host/path`, no colon) gets `https:`,
      and so does one given with `http:` or `https:`. */
  lemma CoverOfPlain(p: string, s: string)
    requires p == "" || p == "http:" || p == "https:"
    requires forall k :: 0 <= k < |s| ==> s[k] != ':'
    requires !Contains("https:" + s, "now_printing.jpg") && !Contains("https:" + s, "noimage")
    ensures JavCover(p + s) == Some("https:" + s)
  {
    var t := p + s;
    assert t[|p|..] == s;
    if p == "" {
      assert t == s;
      RemoveSchemesNoColon(t, 0);
    } else {
      RemoveSchemesAfter(p, s);
      RemoveSchemesNoColon(t, |p|);
    }
  }

  /** A placeholder image is dropped. */
  lemma CoverPlaceholder(s: string)
    requires forall k :: 0 <= k < |s| ==> s[k] != ':'
    requires Contains(s, "noimage") || Contains(s, "now_printing.jpg")
    ensures JavCover(s) == None
  {
    RemoveSchemesNoColon(s, 0);
    assert s[0..] == s;
    if Contains(s, "noimage") {
      ContainsInSuffix("https:", s, "noimage");
    } else {
      ContainsInSuffix("https:", s, "now_printing.jpg");
    }
  }

  // ---------------------------------------------------------------- details

  /** The index of the first space or line feed at or after `i`, or `|s|`. */
  function FirstBreak(s: string, i: nat): (k: nat)
    requires i <= |s|
    ensures i <= k <= |s|
    ensures forall j :: i <= j < k ==> s[j] != ' ' && s[j] != '\n'
    ensures k < |s| ==> s[k] == ' ' || s[k] == '\n'
    decreases |s| - i
  {
    if i == |s| || s[i] == ' ' || s[i] == '\n' then i else FirstBreak(s, i + 1)
  }

  /** `re.sub(r"^(.*? ){1}", "", s)`: the shortest prefix ending in a space
      goes, provided no line feed comes before that space (`.` does not
      match one). */
  function StripFirstWord(s: string): (r: string)
    ensures |r| <= |s| && r == s[|s| - |r|..]
  {
    var k := FirstBreak(s, 0);
    if k < |s| && s[k] == ' ' then s[k + 1..] else s
  }

  /** The details of a title `<code> <text>` lose the code and the space. */
  lemma StripCode(code: string, rest: string)
    requires forall k :: 0 <= k < |code| ==> code[k] != ' ' && code[k] != '\n'
    ensures StripFirstWord(code + " " + rest) == rest
  {
    var s := code + " " + rest;
    assert s[|code|] == ' ';
    assert forall j :: 0 <= j < |code| ==> s[j] == code[j];
    assert FirstBreak(s, 0) == |code|;
    assert s[|code| + 1..] == rest;
  }

  // ---------------------------------------------------------------- regexreplace

  /** The characters of `(\w|\*)+` (ASCII word characters and `*`). */
  predicate WordChar(c: char) { IsAsciiLetter(c) || IsDigit(c) || c == '_' || c == '*' }

  /** The end of the word run starting at `i`. */
  function WordEnd(t: string, i: nat): (k: nat)
    requires i <= |t|
    ensures i <= k <= |t|
    ensures forall j :: i <= j < k ==> WordChar(t[j])
    ensures k < |t| ==> !WordChar(t[k])
    decreases |t| - i
  {
    if i == |t| || !WordChar(t[i]) then i else WordEnd(t, i + 1)
  }

  /** `replace_banned_words`: a banned word's replacement, else the word. */
  function Lookup(banned: map<string, string>, w: string): string {
    if w in banned then banned[w] else w
  }

  /** `word_pattern.sub(replace_banned_words, t[i..])`: every maximal word
      run is looked up in the table; other characters are copied. */
  function SubWords(t: string, i: nat, banned: map<string, string>): string
    requires i <= |t|
    decreases |t| - i
  {
    if i == |t| then []
    else if WordChar(t[i]) then
      var e := WordEnd(t, i);
      Lookup(banned, t[i..e]) + SubWords(t, e, banned)
    else [t[i]] + SubWords(t, i + 1, banned)
  }

  predicate Mark(c: char) { c == '[' || c == ']' || c == '"' }

  /** `re.sub(r"[\[\]\"]", "", s)`. */
  function RemoveMarks(s: string): (r: string)
    ensures |r| <= |s|
    ensures forall k :: 0 <= k < |r| ==> !Mark(r[k])
    decreases |s|
  {
    if s == [] then []
    else if Mark(s[|s| - 1]) then RemoveMarks(s[..|s| - 1])
    else RemoveMarks(s[..|s| - 1]) + [s[|s| - 1]]
  }

  /** `regexreplace`: banned words replaced, then brackets and quotes
      removed. */
  function RegexReplace(s: string, banned: map<string, string>): string {
    RemoveMarks(SubWords(s, 0, banned))
  }

  /** Text without brackets or quotes is left as it is. */
  lemma {:induction false} RemoveMarksNone(s: string)
    requires forall k :: 0 <= k < |s| ==> !Mark(s[k])
    ensures RemoveMarks(s) == s
    decreases |s|
  {
    if s != [] {
      RemoveMarksNone(s[..|s| - 1]);
      assert s[..|s| - 1] + [s[|s| - 1]] == s;
    }
  }

  /** A table that maps every word it holds to itself (the empty table
      among them) leaves the text as it is. */
  lemma {:induction false} SubWordsIdentity(t: string, i: nat, banned: map<string, string>)
    requires i <= |t|
    requires forall w :: w in banned ==> banned[w] == w
    ensures SubWords(t, i, banned) == t[i..]
    decreases |t| - i
  {
    if i < |t| {
      if WordChar(t[i]) {
        var e := WordEnd(t, i);
        SubWordsIdentity(t, e, banned);
        assert t[i..] == t[i..e] + t[e..];
      } else {
        SubWordsIdentity(t, i + 1, banned);
        assert t[i..] == [t[i]] + t[i + 1..];
      }
    }
  }

  /** With the empty table only the brackets and quotes go; doing it twice
      changes nothing more. */
  lemma RegexReplaceEmptyTable(s: string)
    ensures RegexReplace(s, map[]) == RemoveMarks(s)
    ensures RegexReplace(RegexReplace(s, map[]), map[]) == RegexReplace(s, map[])
  {
    SubWordsIdentity(s, 0, map[]);
    assert s[0..] == s;
    var r := RemoveMarks(s);
    SubWordsIdentity(r, 0, map[]);
    assert r[0..] == r;
    RemoveMarksNone(r);
  }

  /** A whole word found in the table is replaced by its entry. */
  lemma SubWordsWholeWord(w: string, rest: string, banned: map<string, string>)
    requires w != [] && forall k :: 0 <= k < |w| ==> WordChar(w[k])
    requires rest == [] || !WordChar(rest[0])
    requires w in banned
    ensures SubWords(w + rest, 0, banned) == banned[w] + SubWords(w + rest, |w|, banned)
  {
    var t := w + rest;
    assert forall k :: 0 <= k < |w| ==> t[k] == w[k];
    if rest != [] { assert t[|w|] == rest[0]; }
    assert WordEnd(t, 0) == |w|;
    assert t[0..|w|] == w;
  }

  // ---------------------------------------------------------------- cleanup_title

  /** The replacement table walked in order: each key found in the current
      title is replaced everywhere; the flag says whether one was found. */
  function CleanupSteps(title: string, pairs: seq<(string, string)>): (r: (string, bool))
    decreases |pairs|
  {
    if pairs == [] then (title, false)
    else
      var prev := CleanupSteps(title, pairs[..|pairs| - 1]);
      var (key, value) := pairs[|pairs| - 1];
      if Contains(prev.0, key) then (Replace(prev.0, key, value), true) else prev
  }

  /** `cleanup_title` over the table `pairs` (`REPLACE_TITLE.items()`):
      None stays None; a title that was cleaned is stripped. */
  function CleanupTitle(title: Option<string>, pairs: seq<(string, string)>): (r: Option<string>)
    ensures r.None? <==> title.None?
  {
    if title.None? then None
    else
      var (t, cleaned) := CleanupSteps(title.value, pairs);
      Some(if cleaned then Strip(t) else t)
  }

  /** The loop of `cleanup_title`. */
  method CleanTitle(title: Option<string>, pairs: seq<(string, string)>) returns (r: Option<string>)
    ensures r == CleanupTitle(title, pairs)
  {
    if title == None {
      return None;
    }
    var t := title.value;
    var cleaned := false;
    var i := 0;
    while i < |pairs|
      invariant 0 <= i <= |pairs|
      invariant (t, cleaned) == CleanupSteps(title.value, pairs[..i])
    {
      assert pairs[..i + 1][..i] == pairs[..i];
      var (key, value) := pairs[i];
      if Contains(t, key) {
        t := Replace(t, key, value);
        cleaned := true;
      }
      i := i + 1;
    }
    assert pairs[..|pairs|] == pairs;
    if cleaned {
      t := Strip(t);
    }
    r := Some(t);
  }

  /** A title in which no key occurs comes back untouched, not even
      stripped. */
  lemma {:induction false} CleanupUntouched(title: string, pairs: seq<(string, string)>)
    requires forall k :: 0 <= k < |pairs| ==> !Contains(title, pairs[k].0)
    ensures CleanupSteps(title, pairs) == (title, false)
    ensures CleanupTitle(Some(title), pairs) == Some(title)
    decreases |pairs|
  {
    if pairs != [] {
      CleanupUntouched(title, pairs[..|pairs| - 1]);
    }
  }

  /** Once a key is found the title is stripped, whatever later keys do. */
  lemma {:induction false} CleanupCleaned(title: string, pairs: seq<(string, string)>, k: nat)
    requires k < |pairs| && Contains(CleanupSteps(title, pairs[..k]).0, pairs[k].0)
    ensures CleanupSteps(title, pairs).1
    ensures IsStripped(CleanupTitle(Some(title), pairs).value)
    decreases |pairs|
  {
    if k < |pairs| - 1 {
      assert pairs[..|pairs| - 1][..k] == pairs[..k];
      CleanupCleaned(title, pairs[..|pairs| - 1], k);
    } else {
      assert pairs[..|pairs| - 1] == pairs[..k];
    }
  }

  /** A one-entry table whose key occurs: replaced everywhere, then
      stripped. */
  lemma CleanupOneEntry(title: string, key: string, value: string)
    requires Contains(title, key)
    ensures CleanupTitle(Some(title), [(key, value)]) == Some(Strip(Replace(title, key, value)))
  {
    var pairs := [(key, value)];
    assert pairs[..0] == [];
    assert CleanupSteps(title, []) == (title, false);
    assert CleanupSteps(title, pairs) == (Replace(title, key, value), true);
  }

  // ---------------------------------------------------------------- getxpath

  /** One result of `tree.xpath(...)`: an element (whose text content is
      taken) or a text or attribute string. */
  datatype XItem = Element(textContent: string) | Text(value: string)

  function RawText(x: XItem): string {
    match x
    case Element(t) => t
    case Text(v) => v
  }

  /** The results of the queries `pieces`, one after the other; `query`
      stands for lxml evaluating one XPath expression on the page. */
  function Gather(pieces: seq<string>, query: string -> seq<XItem>): seq<XItem>
    decreases |pieces|
  {
    if pieces == [] then [] else Gather(pieces[..|pieces| - 1], query) + query(pieces[|pieces| - 1])
  }

  /** What `getxpath` queries: each `|`-separated part on its own when the
      expression has a `|`, otherwise the expression itself. */
  function Items(xpath: string, query: string -> seq<XItem>): seq<XItem> {
    if '|' in xpath then Gather(Split(xpath, '|'), query) else query(xpath)
  }

  /** `list_tmp`: the stripped text of every result. */
  function StrippedTexts(items: seq<XItem>): (r: seq<string>)
    ensures |r| == |items|
    ensures forall i :: 0 <= i < |items| ==> r[i] == Strip(RawText(items[i]))
  {
    seq(|items|, i requires 0 <= i < |items| => Strip(RawText(items[i])))
  }

  /** `filter(None, xs)`: the non-empty strings, in order. */
  function Filled(xs: seq<string>): (r: seq<string>)
    ensures |r| <= |xs|
    ensures forall i :: 0 <= i < |r| ==> r[i] != ""
    decreases |xs|
  {
    if xs == [] then []
    else if xs[|xs| - 1] == "" then Filled(xs[..|xs| - 1])
    else Filled(xs[..|xs| - 1]) + [xs[|xs| - 1]]
  }

  /** `getxpath(xpath, tree)`: None for a missing or empty expression,
      otherwise the non-empty stripped texts of its results. */
  function XPathResult(xpath: Option<string>, query: string -> seq<XItem>): Option<seq<string>> {
    if xpath.None? || xpath.value == "" then None
    else Some(Filled(StrippedTexts(Items(xpath.value, query))))
  }

  /** The loop over the `|`-separated parts. */
  method QueryParts(pieces: seq<string>, query: string -> seq<XItem>) returns (found: seq<XItem>)
    ensures found == Gather(pieces, query)
  {
    found := [];
    var i := 0;
    while i < |pieces|
      invariant 0 <= i <= |pieces|
      invariant found == Gather(pieces[..i], query)
    {
      assert pieces[..i + 1][..i] == pieces[..i];
      found := found + query(pieces[i]);
      i := i + 1;
    }
    assert pieces[..|pieces|] == pieces;
  }

  /** The loop building `list_tmp`. */
  method StripResults(found: seq<XItem>) returns (listTmp: seq<string>)
    ensures listTmp == StrippedTexts(found)
  {
    listTmp := [];
    var j := 0;
    while j < |found|
      invariant 0 <= j <= |found|
      invariant listTmp == StrippedTexts(found[..j])
    {
      listTmp := listTmp + [Strip(RawText(found[j]))];
      j := j + 1;
    }
  }

  /** `list(filter(None, ...))`. */
  method KeepFilled(xs: seq<string>) returns (kept: seq<string>)
    ensures kept == Filled(xs)
  {
    kept := [];
    var k := 0;
    while k < |xs|
      invariant 0 <= k <= |xs|
      invariant kept == Filled(xs[..k])
    {
      assert xs[..k + 1][..k] == xs[..k];
      if xs[k] != "" {
        kept := kept + [xs[k]];
      }
      k := k + 1;
    }
    assert xs[..|xs|] == xs;
  }

  /** `getxpath(xpath, tree)`. */
  method GetXPath(xpath: Option<string>, query: string -> seq<XItem>) returns (r: Option<seq<string>>)
    ensures r == XPathResult(xpath, query)
  {
    if xpath == None || xpath.value == "" {
      return None;
    }
    var x := xpath.value;
    var found: seq<XItem>;
    if '|' in x {
      found := QueryParts(Split(x, '|'), query);
    } else {
      found := query(x);
    }
    var listTmp := StripResults(found);
    var kept := KeepFilled(listTmp);
    r := Some(kept);
  }

  /** Filtering the stripped texts is `[t.strip() for t in texts if
      t.strip()]`: every entry is stripped and non-empty, and every
      non-blank text is kept. */
  lemma {:induction false} FilledStripped(items: seq<XItem>)
    ensures Filled(StrippedTexts(items)) == NonEmptyStripped(seq(|items|, i requires 0 <= i < |items| => RawText(items[i])))
    decreases |items|
  {
    var raw := seq(|items|, i requires 0 <= i < |items| => RawText(items[i]));
    if items != [] {
      var init := items[..|items| - 1];
      FilledStripped(init);
      assert StrippedTexts(items)[..|items| - 1] == StrippedTexts(init);
      assert raw[..|raw| - 1] == seq(|init|, i requires 0 <= i < |init| => RawText(init[i]));
    }
  }

  lemma {:induction false} GatherAppend(a: seq<string>, b: seq<string>, query: string -> seq<XItem>)
    ensures Gather(a + b, query) == Gather(a, query) + Gather(b, query)
    decreases |b|
  {
    if b != [] {
      var b' := b[..|b| - 1];
      assert (a + b)[..|a + b| - 1] == a + b';
      assert (a + b)[|a + b| - 1] == b[|b| - 1];
      GatherAppend(a, b', query);
      AppendAssoc(Gather(a, query), Gather(b', query), query(b[|b| - 1]));
    } else {
      assert a + b == a;
    }
  }

  /** The two branches of `getxpath` agree: querying an expression without
      `|` is querying its only part. */
  lemma ItemsAsParts(xpath: string, query: string -> seq<XItem>)
    ensures Items(xpath, query) == Gather(Split(xpath, '|'), query)
  {
    if '|' !in xpath {
      SplitNoSep(xpath, '|');
      assert [xpath][..0] == [];
    }
  }

  lemma {:induction false} StrippedTextsAppend(a: seq<XItem>, b: seq<XItem>)
    ensures StrippedTexts(a + b) == StrippedTexts(a) + StrippedTexts(b)
  {
  }

  lemma {:induction false} FilledAppend(a: seq<string>, b: seq<string>)
    ensures Filled(a + b) == Filled(a) + Filled(b)
    decreases |b|
  {
    if b != [] {
      var b' := b[..|b| - 1];
      assert (a + b)[..|a + b| - 1] == a + b';
      assert (a + b)[|a + b| - 1] == b[|b| - 1];
      FilledAppend(a, b');
      AppendAssoc(Filled(a), Filled(b'), [b[|b| - 1]]);
    } else {
      assert a + b == a;
    }
  }

  /** A union `a|b` yields the results of `a` followed by those of `b`. */
  lemma XPathUnion(a: string, b: string, query: string -> seq<XItem>)
    requires a != "" && b != ""
    ensures XPathResult(Some(a + "|" + b), query).value
         == XPathResult(Some(a), query).value + XPathResult(Some(b), query).value
  {
    var x := a + "|" + b;
    assert x == a + ['|'] + b;
    SplitAppend(a, '|', b);
    assert '|' in x by { assert x[|a|] == '|'; }
    GatherAppend(Split(a, '|'), Split(b, '|'), query);
    ItemsAsParts(a, query);
    ItemsAsParts(b, query);
    StrippedTextsAppend(Items(a, query), Items(b, query));
    FilledAppend(StrippedTexts(Items(a, query)), StrippedTexts(Items(b, query)));
  }

  // ---------------------------------------------------------------- tag split

  /** `·`, the middle dot some tag names use between two tags. */
  const MiddleDot: char := '\U{00B7}'

  /** The pieces of one tag name: `name.replace('·', ',').split(',')`. */
  function TagPieces(name: string): seq<string> {
    Split(Replace(name, [MiddleDot], ","), ',')
  }

  function StripAll(xs: seq<string>): (r: seq<string>)
    ensures |r| == |xs|
    ensures forall i :: 0 <= i < |xs| ==> r[i] == Strip(xs[i])
  {
    seq(|xs|, i requires 0 <= i < |xs| => Strip(xs[i]))
  }

  /** `[tag_name.strip() for name in names for tag_name in
      name.replace('·', ',').split(',')]`. */
  function TagSplit(names: seq<string>): seq<string>
    decreases |names|
  {
    if names == [] then []
    else TagSplit(names[..|names| - 1]) + StripAll(TagPieces(names[|names| - 1]))
  }

  /** No tag keeps a separator, and every tag is stripped. */
  lemma {:induction false} TagSplitClean(names: seq<string>)
    ensures forall i :: 0 <= i < |TagSplit(names)| ==>
      var t := TagSplit(names)[i]; ',' !in t && MiddleDot !in t && IsStripped(t)
    decreases |names|
  {
    if names != [] {
      TagSplitClean(names[..|names| - 1]);
      var name := names[|names| - 1];
      var replaced := Replace(name, [MiddleDot], ",");
      ReplaceRemoves(name, MiddleDot, ",");
      SplitKeepsOut(replaced, ',', MiddleDot);
      var pieces := TagPieces(name);
      forall i | 0 <= i < |pieces|
        ensures ',' !in Strip(pieces[i]) && MiddleDot !in Strip(pieces[i])
      {
        StripKeepsOut(pieces[i], ',');
        StripKeepsOut(pieces[i], MiddleDot);
      }
    }
  }

  /** A name without separators is one tag. */
  lemma TagSplitOne(name: string)
    requires ',' !in name && MiddleDot !in name
    ensures TagSplit([name]) == [Strip(name)]
  {
    NotContainsByFirstChar(name, [MiddleDot]);
    ReplaceAbsent(name, [MiddleDot], ",");
    SplitNoSep(name, ',');
    assert [name][..0] == [];
  }

  /** Replacing the middle dots of `a·b` or `a,b` gives `a,b`. */
  lemma SeparatorReplaced(a: string, b: string, sep: char)
    requires sep == ',' || sep == MiddleDot
    requires ',' !in a && MiddleDot !in a && ',' !in b && MiddleDot !in b
    ensures Replace(a + [sep] + b, [MiddleDot], ",") == a + [','] + b
  {
    var name := a + [sep] + b;
    NotContainsByFirstChar(b, [MiddleDot]);
    if sep == MiddleDot {
      NotContainsByFirstChar(a, [MiddleDot]);
      assert a + [MiddleDot][..0] == a;
      ReplaceFirst(a, [MiddleDot], b, ",");
      ReplaceAbsent(b, [MiddleDot], ",");
    } else {
      assert MiddleDot !in name;
      NotContainsByFirstChar(name, [MiddleDot]);
      ReplaceAbsent(name, [MiddleDot], ",");
    }
  }

  /** `a·b` and `a,b` both give two tags. */
  lemma TagSplitTwo(a: string, b: string, sep: char)
    requires sep == ',' || sep == MiddleDot
    requires ',' !in a && MiddleDot !in a && ',' !in b && MiddleDot !in b
    ensures TagSplit([a + [sep] + b]) == [Strip(a), Strip(b)]
  {
    var name := a + [sep] + b;
    SeparatorReplaced(a, b, sep);
    SplitAppend(a, ',', b);
    SplitNoSep(a, ',');
    SplitNoSep(b, ',');
    var pieces := TagPieces(name);
    assert pieces == [a, b];
    assert [name][..0] == [];
    assert TagSplit([name]) == TagSplit([]) + StripAll(pieces);
  }

  // ---------------------------------------------------------------- post-processing

  /** `getxpath`'s value for each expression of `jav_xPath`. */
  datatype PageQueries = PageQueries(
    code: Option<seq<string>>, title: Option<seq<string>>, details: Option<seq<string>>,
    url: Option<seq<string>>, date: Option<seq<string>>, director: Option<seq<string>>,
    tags: Option<seq<string>>, performers: Option<seq<string>>, performersUrl: Option<seq<string>>,
    studio: Option<seq<string>>, image: Option<seq<string>>)

  /** The keys of `jav_result`. */
  const PageKeys: set<string> :=
    {"code", "title", "details", "url", "date", "director", "tags", "performers", "performers_url", "studio", "image"}

  /** A query value as it sits in `jav_result`: a list, or None. */
  function ListJson(r: Option<seq<string>>): JsonValue {
    if r.Some? then StrList(r.value) else Null
  }

  /** `jav_result.get(key)` is truthy: a non-empty list. */
  predicate Found(r: Option<seq<string>>) { r.Some? && r.value != [] }

  function CoverJson(c: Option<string>): JsonValue {
    if c.Some? then Str(c.value) else Null
  }

  /** `jav_result` after its post-processing: the cover rewritten, the
      page URL given a scheme, the details stripped of their first word,
      and the title and director reduced to their first result. */
  function PostProcess(q: PageQueries): (m: map<string, JsonValue>)
    ensures m.Keys == PageKeys
  {
    map[
      "code" := ListJson(q.code),
      "title" := if Found(q.title) then Str(q.title.value[0]) else ListJson(q.title),
      "details" := if Found(q.details) then Str(StripFirstWord(q.details.value[0])) else ListJson(q.details),
      "url" := if Found(q.url) then Str("https:" + q.url.value[0]) else ListJson(q.url),
      "date" := ListJson(q.date),
      "director" := if Found(q.director) then Str(q.director.value[0]) else ListJson(q.director),
      "tags" := ListJson(q.tags),
      "performers" := ListJson(q.performers),
      "performers_url" := ListJson(q.performersUrl),
      "studio" := ListJson(q.studio),
      "image" := if Found(q.image) then CoverJson(JavCover(q.image.value[0])) else ListJson(q.image)]
  }

  /** The title query reads the ID cell and the details query the `h3`
      line: a page whose `h3` line is `<code> <text>` has details `<text>`,
      and its title is the first ID cell as it was read. */
  lemma PostProcessTitleLine(q: PageQueries, id: string, code: string, text: string)
    requires forall k :: 0 <= k < |code| ==> code[k] != ' ' && code[k] != '\n'
    requires q.title == Some([id]) && q.details == Some([code + " " + text])
    ensures PostProcess(q)["details"] == Str(text)
    ensures PostProcess(q)["title"] == Str(id)
  {
    StripCode(code, text);
  }

  /** A placeholder cover is removed. */
  lemma PostProcessPlaceholder(q: PageQueries, s: string)
    requires q.image == Some([s])
    requires forall k :: 0 <= k < |s| ==> s[k] != ':'
    requires Contains(s, "noimage") || Contains(s, "now_printing.jpg")
    ensures PostProcess(q)["image"] == Null
  {
    CoverPlaceholder(s);
  }
}
