// Title normalisation (`normalize_title` in the Gravurefit scraper,
// `normalize_gravure_title` in the JavLibrary one; the two are the same).
// The three anchored substitutions are modelled by the leftmost match
// each regular expression finds:
//   1. `^[^－\-\—]+[ \t]*[-－\—][ \t]*` : a performer prefix `NAME - `;
//   2. `\s*/\s*[A-Za-z0-9_\-()]+$`      : a trailing ` / CODE`;
//   3. `^[A-Za-z0-9_\-]+[:：]\s*`        : a leading `CODE:` or `CODE：`.
// Each is followed by `strip()`.
module Title {

  import opened Wrappers
  import opened Text

  /** The three dashes of step 1: ASCII hyphen, full-width hyphen-minus
      U+FF0D and em dash U+2014. */
  predicate IsDash(c: char) {
    c == '-' || c == '\U{FF0D}' || c == '\U{2014}'
  }

  predicate IsBlank(c: char) { c == ' ' || c == '\t' }

  /** `[A-Za-z0-9_\-()]`, the characters of a trailing code. */
  predicate IsTokenChar(c: char) {
    IsAsciiLetter(c) || IsDigit(c) || c == '_' || c == '-' || c == '(' || c == ')'
  }

  /** `[A-Za-z0-9_\-]`, the characters of a leading code. */
  predicate IsCodeChar(c: char) {
    IsAsciiLetter(c) || IsDigit(c) || c == '_' || c == '-'
  }

  /** ASCII colon or full-width colon U+FF1A. */
  predicate IsColon(c: char) { c == ':' || c == '\U{FF1A}' }

  /** Whitespace between index `k + 1` and `e` skipped before a strip
      makes no difference. */
  lemma SkipSpacesTo(t: string, k: nat, e: nat)
    requires k + 1 <= e <= |t|
    requires forall j :: k + 1 <= j < e ==> IsSpace(t[j])
    ensures Strip(t[e..]) == Strip(t[k + 1..])
  {
    var s := t[k + 1..];
    var n := e - (k + 1);
    forall j | 0 <= j < n
      ensures IsSpace(s[j])
    {
      assert s[j] == t[k + 1 + j];
    }
    StripSkip(s, n);
    assert s[n..] == t[e..];
  }

  lemma SkipBlanksTo(t: string, k: nat, e: nat)
    requires k + 1 <= e <= |t|
    requires forall j :: k + 1 <= j < e ==> IsBlank(t[j])
    ensures Strip(t[e..]) == Strip(t[k + 1..])
  {
    forall j | k + 1 <= j < e
      ensures IsSpace(t[j])
    {
      assert IsBlank(t[j]);
    }
    SkipSpacesTo(t, k, e);
  }

  // ------------------------------------------------------------ scanning

  /** Index of the first dash, or `|t|` when there is none. */
  function FirstDash(t: string): (k: nat)
    ensures k <= |t|
    ensures forall i :: 0 <= i < k ==> !IsDash(t[i])
    ensures k < |t| ==> IsDash(t[k])
  {
    FirstDashFrom(t, 0)
  }

  function FirstDashFrom(t: string, i: nat): (k: nat)
    requires i <= |t|
    ensures i <= k <= |t|
    ensures forall j :: i <= j < k ==> !IsDash(t[j])
    ensures k < |t| ==> IsDash(t[k])
    decreases |t| - i
  {
    if i == |t| || IsDash(t[i]) then i else FirstDashFrom(t, i + 1)
  }

  /** End of the run of blanks (`[ \t]*`) starting at `i`. */
  function BlanksEnd(t: string, i: nat): (e: nat)
    requires i <= |t|
    ensures i <= e <= |t|
    ensures forall j :: i <= j < e ==> IsBlank(t[j])
    ensures e == |t| || !IsBlank(t[e])
    decreases |t| - i
  {
    if i < |t| && IsBlank(t[i]) then BlanksEnd(t, i + 1) else i
  }

  /** Index of the last slash, or -1. */
  function LastSlash(t: string): (k: int)
    ensures -1 <= k < |t|
    ensures k >= 0 ==> t[k] == '/'
    ensures forall i :: k < i < |t| ==> t[i] != '/'
  {
    LastSlashBefore(t, |t|)
  }

  function LastSlashBefore(t: string, j: nat): (k: int)
    requires j <= |t|
    ensures -1 <= k < j
    ensures k >= 0 ==> t[k] == '/'
    ensures forall i :: k < i < j ==> t[i] != '/'
  {
    if j == 0 then -1 else if t[j - 1] == '/' then j - 1 else LastSlashBefore(t, j - 1)
  }

  /** Length of the longest prefix of code characters. */
  function CodeRun(t: string): (k: nat)
    ensures k <= |t|
    ensures forall i :: 0 <= i < k ==> IsCodeChar(t[i])
    ensures k == |t| || !IsCodeChar(t[k])
  {
    CodeRunFrom(t, 0)
  }

  function CodeRunFrom(t: string, i: nat): (k: nat)
    requires i <= |t|
    ensures i <= k <= |t|
    ensures forall j :: i <= j < k ==> IsCodeChar(t[j])
    ensures k == |t| || !IsCodeChar(t[k])
    decreases |t| - i
  {
    if i < |t| && IsCodeChar(t[i]) then CodeRunFrom(t, i + 1) else i
  }

  predicate AllTokenChars(s: string) {
    forall i :: 0 <= i < |s| ==> IsTokenChar(s[i])
  }

  // ------------------------------------------------------------ the three steps

  /** Step 1: the pattern can only end its `[^－\-\—]+` at the first dash,
      so it matches exactly when that dash has at least one character
      before it; the match takes the dash and the blanks after it. */
  function DropPerformer(t: string): (r: string)
    ensures IsStripped(r)
    ensures 1 <= FirstDash(t) < |t| ==> r == Strip(t[FirstDash(t) + 1..])
    ensures !(1 <= FirstDash(t) < |t|) ==> r == Strip(t)
  {
    var k := FirstDash(t);
    if 1 <= k < |t| then
      var e := BlanksEnd(t, k + 1);
      SkipBlanksTo(t, k, e);
      Strip(t[e..])
    else
      Strip(t)
  }


  /** Where step 2 matches in a stripped text: the `/` must be the last
      one, followed by whitespace and then one or more code characters up
      to the end; the leftmost match starts at the whitespace before it. */
  predicate HasTrailingCode(t: string) {
    var l := LastSlash(t);
    l >= 0 &&
    var e := SkipSpaces(t, l + 1);
    e < |t| && AllTokenChars(t[e..])
  }

  /** Step 2: drops the trailing ` / CODE`. */
  function DropTrailingCode(t: string): (r: string)
    ensures IsStripped(r)
    ensures HasTrailingCode(t) ==>
              r == Strip(t[..TrimEnd(t, 0, LastSlash(t))])
    ensures !HasTrailingCode(t) ==> r == Strip(t)
  {
    if HasTrailingCode(t) then
      var l := LastSlash(t);
      Strip(t[..TrimEnd(t, 0, l)])
    else
      Strip(t)
  }

  /** Step 3: the code run must be the longest one (a shorter one is
      followed by a code character, not a colon). */
  predicate HasLeadingCode(t: string) {
    var k := CodeRun(t);
    1 <= k < |t| && IsColon(t[k])
  }

  /** Step 3: drops the leading `CODE:` and the whitespace after it. */
  function DropLeadingCode(t: string): (r: string)
    ensures IsStripped(r)
    ensures HasLeadingCode(t) ==> r == Strip(t[CodeRun(t) + 1..])
    ensures !HasLeadingCode(t) ==> r == Strip(t)
  {
    if HasLeadingCode(t) then
      LeadingCodeSpaces(t);
      Strip(t[SkipSpaces(t, CodeRun(t) + 1)..])
    else
      Strip(t)
  }

  /** The `\s*` after the colon makes no difference once stripped. */
  lemma LeadingCodeSpaces(t: string)
    requires HasLeadingCode(t)
    ensures Strip(t[SkipSpaces(t, CodeRun(t) + 1)..]) == Strip(t[CodeRun(t) + 1..])
  {
    var k := CodeRun(t);
    SkipSpacesTo(t, k, SkipSpaces(t, k + 1));
  }


  /** `normalize_title`: None for a missing or empty title; otherwise the
      three steps in order, and None when nothing is left. */
  function NormalizeTitle(raw: Option<string>): (r: Option<string>)
    ensures raw.None? || raw.value == "" ==> r.None?
    ensures r.Some? ==> r.value != "" && IsStripped(r.value)
  {
    if raw.None? || raw.value == "" then None
    else
      var t0 := Strip(raw.value);
      var t1 := DropPerformer(t0);
      var t2 := DropTrailingCode(t1);
      var t3 := DropLeadingCode(t2);
      if t3 == "" then None else Some(t3)
  }

  /** A title with no dash, no slash and no colon passes through
      unchanged (once stripped). */
  lemma {:induction false} PlainTitleUnchanged(t: string)
    requires t != "" && IsStripped(t)
    requires forall i :: 0 <= i < |t| ==> !IsDash(t[i]) && t[i] != '/' && !IsColon(t[i])
    ensures NormalizeTitle(Some(t)) == Some(t)
  {
    assert DropPerformer(t) == t;
    assert LastSlash(t) == -1;
    assert DropTrailingCode(t) == t;
    var k := CodeRun(t);
    assert k < |t| ==> !IsColon(t[k]);
    assert DropLeadingCode(t) == t;
  }

  lemma SceneTitleUnchanged()
    ensures NormalizeTitle(Some("Scene Title")) == Some("Scene Title")
  {
    PlainTitleUnchanged("Scene Title");
  }

  lemma CodeCharsAreNotSpaces(c: char)
    ensures IsCodeChar(c) ==> !IsSpace(c)
    ensures IsTokenChar(c) ==> !IsSpace(c)
  {
  }

  /** A text that starts and ends with a code character is stripped. */
  lemma StrippedEnds(a: string, b: string, first: char, last: char)
    requires a + b != [] && (a + b)[0] == first && (a + b)[|a + b| - 1] == last
    requires IsCodeChar(first) || IsTokenChar(first) || !IsSpace(first)
    requires IsCodeChar(last) || IsTokenChar(last) || !IsSpace(last)
    ensures IsStripped(a + b) && Strip(a + b) == a + b
  {
    CodeCharsAreNotSpaces(first);
    CodeCharsAreNotSpaces(last);
  }

  /** Step 1 on `NAME - REST`, when NAME has no dash. */
  lemma DropPerformerOf(name: string, rest: string)
    requires name != [] && forall i :: 0 <= i < |name| ==> !IsDash(name[i])
    ensures DropPerformer(name + " - " + rest) == Strip(rest)
  {
    var t := name + " - " + rest;
    var k := |name| + 1;
    assert t[k] == '-';
    forall i | 0 <= i < k
      ensures !IsDash(t[i])
    {
      if i < |name| {
        assert t[i] == name[i];
      }
    }
    assert FirstDash(t) == k;
    assert t[k + 1..] == " " + rest;
    StripSkip(" " + rest, 1);
    assert (" " + rest)[1..] == rest;
  }

  /** Step 2 on `HEAD / TAIL`, when HEAD does not end in whitespace and
      TAIL is a code. */
  lemma DropTrailingCodeOf(head: string, tail: string)
    requires head != [] && !IsSpace(head[|head| - 1])
    requires tail != [] && AllTokenChars(tail)
    ensures DropTrailingCode(head + " / " + tail) == Strip(head)
  {
    var t := head + " / " + tail;
    var l := |head| + 1;
    TrailingSlashAt(head, tail);
    assert t[l - 1] == ' ' && t[l - 2] == head[|head| - 1];
    assert TrimEnd(t, 0, l) == l - 1;
    assert t[..l - 1] == head;
  }

  /** In `HEAD / TAIL` with a code TAIL, the slash of the separator is
      the last one and step 2 matches. */
  lemma TrailingSlashAt(head: string, tail: string)
    requires tail != [] && AllTokenChars(tail)
    ensures LastSlash(head + " / " + tail) == |head| + 1
    ensures HasTrailingCode(head + " / " + tail)
  {
    var t := head + " / " + tail;
    var l := |head| + 1;
    assert t[l] == '/';
    forall i | l < i < |t|
      ensures t[i] != '/'
    {
      if i > l + 1 {
        assert t[i] == tail[i - l - 2];
      }
    }
    assert LastSlash(t) == l;
    assert t[l + 1] == ' ' && t[l + 2] == tail[0];
    CodeCharsAreNotSpaces(tail[0]);
    assert SkipSpaces(t, l + 1) == l + 2;
    assert t[l + 2..] == tail;
  }

  /** Step 3 on `CODE：REST`. */
  lemma DropLeadingCodeOf(code: string, rest: string)
    requires code != [] && forall i :: 0 <= i < |code| ==> IsCodeChar(code[i])
    ensures DropLeadingCode(code + "\U{FF1A}" + rest) == Strip(rest)
  {
    var t := code + "\U{FF1A}" + rest;
    var k := |code|;
    assert t[k] == '\U{FF1A}';
    forall i | 0 <= i < k
      ensures IsCodeChar(t[i])
    {
      assert t[i] == code[i];
    }
    assert CodeRun(t) == k;
    assert HasLeadingCode(t);
    assert t[k + 1..] == rest;
  }

  /** A title carrying all three markers, `NAME - CODE：TITLE / CODE2`,
      normalises to TITLE. */
  lemma {:induction false} AllMarkersRemoved(name: string, code: string, title: string, code2: string)
    requires name != [] && !IsSpace(name[0]) && forall i :: 0 <= i < |name| ==> !IsDash(name[i])
    requires code != [] && forall i :: 0 <= i < |code| ==> IsCodeChar(code[i])
    requires title != [] && IsStripped(title)
    requires code2 != [] && AllTokenChars(code2)
    ensures NormalizeTitle(Some(name + " - " + code + "\U{FF1A}" + title + " / " + code2)) == Some(title)
  {
    var head := code + "\U{FF1A}" + title;
    var t1 := head + " / " + code2;
    var t0 := name + " - " + t1;
    assert t0 == name + " - " + code + "\U{FF1A}" + title + " / " + code2;
    PerformerStep(name, head, code2, code[0]);
    TrailingStep(code, title, code2);
    LeadingStep(code, title);
    NormalizeSteps(t0, t1, head, title);
  }

  lemma PerformerStep(name: string, head: string, code2: string, c: char)
    requires name != [] && !IsSpace(name[0]) && forall i :: 0 <= i < |name| ==> !IsDash(name[i])
    requires head != [] && head[0] == c && IsCodeChar(c)
    requires code2 != [] && AllTokenChars(code2)
    ensures IsStripped(name + " - " + (head + " / " + code2))
    ensures DropPerformer(name + " - " + (head + " / " + code2)) == head + " / " + code2
  {
    var t1 := head + " / " + code2;
    StrippedEnds(name + " - ", t1, name[0], code2[|code2| - 1]);
    StrippedEnds(head + " / ", code2, c, code2[|code2| - 1]);
    DropPerformerOf(name, t1);
  }

  lemma TrailingStep(code: string, title: string, code2: string)
    requires code != [] && IsCodeChar(code[0])
    requires title != [] && IsStripped(title)
    requires code2 != [] && AllTokenChars(code2)
    ensures DropTrailingCode(code + "\U{FF1A}" + title + " / " + code2) == code + "\U{FF1A}" + title
  {
    var head := code + "\U{FF1A}" + title;
    StrippedEnds(code + "\U{FF1A}", title, code[0], title[|title| - 1]);
    DropTrailingCodeOf(head, code2);
  }

  lemma LeadingStep(code: string, title: string)
    requires code != [] && forall i :: 0 <= i < |code| ==> IsCodeChar(code[i])
    requires IsStripped(title)
    ensures DropLeadingCode(code + "\U{FF1A}" + title) == title
  {
    DropLeadingCodeOf(code, title);
  }

  /** `normalize_title` on a stripped title runs the three steps. */
  lemma NormalizeSteps(t0: string, t1: string, t2: string, t3: string)
    requires t0 != "" && IsStripped(t0) && t3 != ""
    requires DropPerformer(t0) == t1 && DropTrailingCode(t1) == t2 && DropLeadingCode(t2) == t3
    ensures NormalizeTitle(Some(t0)) == Some(t3)
  {
  }

  /** The example of the scrapers' comments. */
  lemma FullTitleExample(t: string)
    requires t == "本田瞳 - LULU-255：Scene Title / LULU255"
    ensures NormalizeTitle(Some(t)) == Some("Scene Title")
  {
    FullTitleParts();
    AllMarkersRemoved("本田瞳", "LULU-255", "Scene Title", "LULU255");
  }

  /** The example title is built from its four parts. */
  lemma FullTitleParts()
    ensures "本田瞳 - LULU-255：Scene Title / LULU255"
            == "本田瞳" + " - " + "LULU-255" + "\U{FF1A}" + "Scene Title" + " / " + "LULU255"
  {
  }
}
