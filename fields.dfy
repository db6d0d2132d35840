/**
 * `extract_gravure_fields`: turning a parsed Gravurefit scene page into
 * the scraper's field dictionary. The XPath queries themselves belong to
 * lxml and are not modelled: a parsed page is the list of strings each
 * query returned, and everything the scraper does with those lists is.
 */
module Fields {

  import opened Wrappers
  import opened Text
  import opened Title
  import opened Dates

  /** What each XPath query of the extractor returned on one page, and the
      page's text content (`lxml.html.tostring(doc, method="text")`). */
  datatype Queries = Queries(
    h1: seq<string>,               // //h1/text()
    metaDescription: seq<string>,  // meta name=description, @content
    pDescription: seq<string>,     // p class=description, text()
    text: string,
    performerCells: seq<string>,   // the links in the row headed 女優
    profileLinks: seq<string>,     // links whose href contains /profile
    themes: seq<string>,           // links under the テーマ heading
    plays: seq<string>,            // links under the プレイ and 服装 headings
    photopc: seq<string>,          // first image in a photopc block
    packageOrVideo: seq<string>,   // package image, or first image in a video block
    ogImage: seq<string>,          // og:image
    maker: seq<string>,            // the text of the row headed メーカー
    canonical: seq<string>,        // link rel=canonical
    ogUrl: seq<string>)            // og:url

  /** The extractor's output dictionary, one field per key. */
  datatype Fields = Fields(
    titleRaw: Option<string>,
    title: Option<string>,
    details: Option<string>,
    date: Option<string>,
    performers: seq<string>,
    tags: seq<string>,
    image: Option<string>,
    studio: Option<string>,
    code: Option<string>)

  // ------------------------------------------------------------ lists of strings

  /** `xs[0].strip() if xs else None`. */
  function FirstStripped(xs: seq<string>): (r: Option<string>)
    ensures r.Some? <==> xs != []
    ensures r.Some? ==> IsStripped(r.value) && r.value == Strip(xs[0])
  {
    if xs == [] then None else Some(Strip(xs[0]))
  }

  /** Python's `xs or ys` on two lists. */
  function OrList(xs: seq<string>, ys: seq<string>): seq<string> {
    if xs != [] then xs else ys
  }

  /** `[x.strip() for x in xs if x.strip()]`. */
  function NonEmptyStripped(xs: seq<string>): (r: seq<string>)
    ensures |r| <= |xs|
    ensures forall i :: 0 <= i < |r| ==> r[i] != "" && IsStripped(r[i])
    decreases |xs|
  {
    if xs == [] then []
    else
      var init := NonEmptyStripped(xs[..|xs| - 1]);
      var s := Strip(xs[|xs| - 1]);
      if s != "" then init + [s] else init
  }

  /** Every entry kept comes from an input entry, and every input entry
      whose stripped form is non-empty is kept. */
  lemma {:induction false} NonEmptyStrippedMembers(xs: seq<string>, s: string)
    ensures s in NonEmptyStripped(xs) <==> s != "" && exists x :: x in xs && Strip(x) == s
    decreases |xs|
  {
    if xs != [] {
      var init := xs[..|xs| - 1];
      NonEmptyStrippedMembers(init, s);
      assert xs == init + [xs[|xs| - 1]];
      if s != "" && (exists x :: x in xs && Strip(x) == s) {
        var x :| x in xs && Strip(x) == s;
        if x != xs[|xs| - 1] {
          assert x in init;
        }
      }
    }
  }

  /** Cleaning an already clean list changes nothing. */
  lemma {:induction false} NonEmptyStrippedIdempotent(xs: seq<string>)
    ensures NonEmptyStripped(NonEmptyStripped(xs)) == NonEmptyStripped(xs)
    decreases |xs|
  {
    if xs != [] {
      var init := xs[..|xs| - 1];
      var r := NonEmptyStripped(xs);
      NonEmptyStrippedIdempotent(init);
      CleanListFixed(r);
    }
  }

  /** A list of non-empty stripped strings is its own clean form. */
  lemma {:induction false} CleanListFixed(xs: seq<string>)
    requires forall i :: 0 <= i < |xs| ==> xs[i] != "" && IsStripped(xs[i])
    ensures NonEmptyStripped(xs) == xs
    decreases |xs|
  {
    if xs != [] {
      CleanListFixed(xs[..|xs| - 1]);
      assert xs == xs[..|xs| - 1] + [xs[|xs| - 1]];
    }
  }

  // ------------------------------------------------------------ tags

  /** Order-preserving deduplication: each string at its first occurrence. */
  function Dedup(xs: seq<string>): (r: seq<string>)
    ensures forall x :: x in r <==> x in xs
    ensures forall i, j :: 0 <= i < j < |r| ==> r[i] != r[j]
    ensures |r| <= |xs|
    decreases |xs|
  {
    if xs == [] then []
    else
      var init := Dedup(xs[..|xs| - 1]);
      var x := xs[|xs| - 1];
      assert xs == xs[..|xs| - 1] + [x];
      if x in init then init else init + [x]
  }

  /** The tag loop of the extractor: a `seen` set and an output list. */
  method DedupTags(tags: seq<string>) returns (dedup: seq<string>)
    ensures dedup == Dedup(tags)
  {
    var seen: set<string> := {};
    dedup := [];
    var i := 0;
    while i < |tags|
      invariant 0 <= i <= |tags|
      invariant dedup == Dedup(tags[..i])
      invariant forall x :: x in seen <==> x in tags[..i]
    {
      var t := tags[i];
      assert tags[..i + 1][..i] == tags[..i];
      if t !in seen {
        seen := seen + {t};
        dedup := dedup + [t];
      }
      i := i + 1;
    }
    assert tags[..|tags|] == tags;
  }

  /** A list without repeats is left as it is; in particular deduplicating
      twice is deduplicating once. */
  lemma {:induction false} DedupDistinct(xs: seq<string>)
    requires forall i, j :: 0 <= i < j < |xs| ==> xs[i] != xs[j]
    ensures Dedup(xs) == xs
    decreases |xs|
  {
    if xs != [] {
      var init := xs[..|xs| - 1];
      DedupDistinct(init);
      assert xs[|xs| - 1] !in init;
      assert xs == init + [xs[|xs| - 1]];
    }
  }

  lemma DedupIdempotent(xs: seq<string>)
    ensures Dedup(Dedup(xs)) == Dedup(xs)
  {
    DedupDistinct(Dedup(xs));
  }

  /** A string already kept keeps its place when more tags follow: the
      output of a prefix is a prefix of the output. */
  lemma {:induction false} DedupPrefix(xs: seq<string>, ys: seq<string>)
    ensures Dedup(xs) <= Dedup(xs + ys)
    decreases |ys|
  {
    if ys != [] {
      var zs := xs + ys[..|ys| - 1];
      DedupPrefix(xs, ys[..|ys| - 1]);
      assert (xs + ys)[..|xs + ys| - 1] == zs;
      var r := Dedup(xs + ys);
      assert r == Dedup(zs) || r == Dedup(zs) + [ys[|ys| - 1]];
      assert Dedup(zs) <= r;
      assert Dedup(xs) == Dedup(zs)[..|Dedup(xs)|] == r[..|Dedup(xs)|];
    } else {
      assert xs + ys == xs;
    }
  }

  /** `["A", "B", "A", "C"]` becomes `["A", "B", "C"]`. */
  lemma DedupExample(xs: seq<string>)
    requires xs == ["A", "B", "A", "C"]
    ensures Dedup(xs) == ["A", "B", "C"]
  {
    var a, ab, aba := xs[..1], xs[..2], xs[..3];
    assert a[..0] == [];
    assert Dedup(a) == ["A"];
    assert ab[..1] == a;
    assert Dedup(ab) == ["A"] + ["B"];
    assert aba[..2] == ab;
    assert Dedup(aba) == ["A", "B"];
    assert xs[..3] == aba;
    assert Dedup(xs) == ["A", "B"] + ["C"];
  }

  // ------------------------------------------------------------ image

  /** The first image source of the first query that returned any. */
  function PickImage(photopc: seq<string>, packageOrVideo: seq<string>, ogImage: seq<string>): (r: Option<string>)
    ensures photopc != [] ==> r == Some(photopc[0])
    ensures photopc == [] && packageOrVideo != [] ==> r == Some(packageOrVideo[0])
    ensures photopc == [] && packageOrVideo == [] ==> (r.Some? <==> ogImage != [])
  {
    if photopc != [] then Some(photopc[0])
    else if packageOrVideo != [] then Some(packageOrVideo[0])
    else if ogImage != [] then Some(ogImage[0])
    else None
  }

  const Site: string := "https://www.gravurefit.com"

  /** The image URL with its leading `/` resolved: protocol-relative URLs
      get `https:`, root-relative ones the site; an empty or missing source
      is None. Any other URL, relative or not, is kept as it is. */
  function Absolutize(image: Option<string>): (r: Option<string>)
    ensures r.Some? <==> image.Some? && image.value != ""
    ensures r.Some? ==> r.value != "" && r.value[0] != '/'
    ensures r.Some? && image.value[0] != '/' ==> r == image
    ensures r.Some? ==> |image.value| <= |r.value| && r.value[|r.value| - |image.value|..] == image.value
  {
    if image.None? || image.value == "" then None
    else
      var s := image.value;
      if StartsWith(s, "//") then Some("https:" + s)
      else if StartsWith(s, "/") then Some(Site + s)
      else Some(s)
  }

  /** A result never starts with `/`, so a second pass leaves it alone. */
  lemma AbsolutizeIdempotent(image: Option<string>)
    ensures Absolutize(Absolutize(image)) == Absolutize(image)
  {
  }

  /** A protocol-relative source gains `https:`; a root-relative one the
      site's origin. */
  lemma AbsolutizeRelative(x: string)
    ensures Absolutize(Some("//" + x)) == Some("https://" + x)
    ensures x == [] || x[0] != '/' ==> Absolutize(Some("/" + x)) == Some("https://www.gravurefit.com/" + x)
  {
    assert ("//" + x)[..2] == "//";
    assert "https:" + ("//" + x) == "https://" + x;
    if x == [] || x[0] != '/' {
      var s := "/" + x;
      assert s[..1] == "/";
      assert !StartsWith(s, "//") by {
        if |s| >= 2 { assert s[1] == x[0]; assert s[..2][1] != '/'; }
      }
      assert Site + s == "https://www.gravurefit.com/" + x;
    }
  }

  // ------------------------------------------------------------ code

  predicate LettersIn(t: string, i: nat, j: nat)
    requires i <= j <= |t|
  {
    forall k :: i <= k < j ==> IsAsciiLetter(t[k])
  }

  /** End of the run of ASCII letters starting at `i`. */
  function LettersEnd(t: string, i: nat): (e: nat)
    requires i <= |t|
    ensures i <= e <= |t| && LettersIn(t, i, e)
    ensures e == |t| || !IsAsciiLetter(t[e])
    decreases |t| - i
  {
    if i < |t| && IsAsciiLetter(t[i]) then LettersEnd(t, i + 1) else i
  }

  /** `[A-Za-z]{3,6}-\d{2,6}` matched at `q`: the greedy letter count
      can only back off onto letters, so it needs a run of exactly three
      to six letters from `q` followed by a dash; the digits then take as
      many as they can, up to six. The result is the end of the match. */
  function CodeMatchAt(t: string, q: nat): (e: Option<nat>)
    requires q <= |t|
    ensures e.Some? ==> q + 6 <= e.value <= |t|
  {
    var l := LettersEnd(t, q);
    if 3 <= l - q <= 6 && l < |t| && t[l] == '-' then
      var d := DigitsEnd(t, l + 1);
      if d - (l + 1) >= 2 then Some(if d - (l + 1) <= 6 then d else l + 7) else None
    else None
  }

  /** The code pattern's shape with `n` letters: three to six letters, a
      dash, two to six digits. */
  predicate CodeShape(s: string, n: nat) {
    3 <= n <= 6 && n + 3 <= |s| <= n + 7 && (forall k :: 0 <= k < n ==> IsAsciiLetter(s[k]))
    && s[n] == '-' && (forall k :: n < k < |s| ==> IsDigit(s[k]))
  }

  lemma CodeMatchShape(t: string, q: nat) returns (n: nat)
    requires q <= |t| && CodeMatchAt(t, q).Some?
    ensures CodeShape(t[q..CodeMatchAt(t, q).value], n)
  {
    n := LettersEnd(t, q) - q;
  }

  /** Upper-casing keeps the shape and leaves only capital letters. */
  lemma UpperCode(s: string, n: nat)
    requires CodeShape(s, n)
    ensures CodeShape(Upper(s), n)
    ensures forall k :: 0 <= k < n ==> 'A' <= Upper(s)[k] <= 'Z'
  {
  }

  /** The run of letters from `i` ends at `e` when the letters stop there. */
  lemma {:induction false} LettersEndAt(t: string, i: nat, e: nat)
    requires i <= e <= |t| && LettersIn(t, i, e) && (e == |t| || !IsAsciiLetter(t[e]))
    ensures LettersEnd(t, i) == e
    decreases e - i
  {
    if i < e {
      LettersEndAt(t, i + 1, e);
    }
  }

  lemma {:induction false} DigitsEndAt(t: string, i: nat, e: nat)
    requires i <= e <= |t| && DigitsIn(t, i, e) && (e == |t| || !IsDigit(t[e]))
    ensures DigitsEnd(t, i) == e
    decreases e - i
  {
    if i < e {
      DigitsEndAt(t, i + 1, e);
    }
  }

  /** `re.search` of the code pattern: the leftmost position from `i` on
      where the pattern matches (the leading `.*?` lets the match start
      anywhere and the trailing `.*` adds nothing to the group). */
  function CodeSearch(t: string, i: nat): (m: Option<(nat, nat)>)
    requires i <= |t|
    ensures m.Some? ==> i <= m.value.0 <= |t| && CodeMatchAt(t, m.value.0) == Some(m.value.1)
    ensures m.Some? ==> forall p :: i <= p < m.value.0 ==> CodeMatchAt(t, p).None?
    ensures m.None? ==> forall p :: i <= p <= |t| ==> CodeMatchAt(t, p).None?
    decreases |t| - i
  {
    match CodeMatchAt(t, i)
    case Some(e) => Some((i, e))
    case None => if i == |t| then None else CodeSearch(t, i + 1)
  }

  /** The scene code from the canonical URL: the pattern's group,
      upper-cased, else the URL's last non-empty `/` segment, upper-cased. */
  function CodeOf(canon: seq<string>): (r: Option<string>)
    ensures canon == [] ==> r.None?
  {
    if canon == [] then None
    else
      var c := canon[0];
      match CodeSearch(c, 0)
      case Some(m) => Some(Upper(c[m.0..m.1]))
      case None =>
        match LastSegment(c)
        case Some(seg) => Some(Upper(seg))
        case None => None
  }

  /** When the pattern occurs, the code is its leftmost occurrence in
      upper case, so it has the code shape with upper-case letters. */
  lemma CodeOfMatch(canon: seq<string>)
    requires canon != [] && CodeSearch(canon[0], 0).Some?
    ensures CodeOf(canon).Some?
    ensures exists n :: CodeShape(CodeOf(canon).value, n) && forall k :: 0 <= k < n ==> 'A' <= CodeOf(canon).value[k] <= 'Z'
  {
    var c := canon[0];
    var m := CodeSearch(c, 0).value;
    var n := CodeMatchShape(c, m.0);
    UpperCode(c[m.0..m.1], n);
  }

  /** The search finds `q` when nothing matches before it and the pattern
      matches there. */
  lemma {:induction false} CodeSearchAt(t: string, i: nat, q: nat)
    requires i <= q <= |t| && CodeMatchAt(t, q).Some?
    requires forall p :: i <= p < q ==> CodeMatchAt(t, p).None?
    ensures CodeSearch(t, i) == Some((q, CodeMatchAt(t, q).value))
    decreases q - i
  {
    if i < q {
      CodeSearchAt(t, i + 1, q);
    }
  }

  /** Without the pattern, the code is the last path segment: it is never
      empty and has no slash. */
  lemma CodeOfFallback(canon: seq<string>)
    requires canon != [] && CodeSearch(canon[0], 0).None?
    ensures CodeOf(canon).Some? <==> LastSegment(canon[0]).Some?
    ensures CodeOf(canon).Some? ==> CodeOf(canon).value != "" && '/' !in CodeOf(canon).value
  {
    if LastSegment(canon[0]).Some? {
      LastSegmentShape(canon[0]);
      var seg := LastSegment(canon[0]).value;
      var u := Upper(seg);
      assert forall k :: 0 <= k < |u| ==> u[k] != '/';
    }
  }

  /** A scene path: `/videos/lulu-255` gives `LULU-255`. */
  lemma CodeOfScenePath(t: string)
    requires t == "/videos/lulu-255"
    ensures CodeOf([t]) == Some("LULU-255")
  {
    LettersEndAt(t, 8, 12);
    DigitsEndAt(t, 13, 16);
    assert CodeMatchAt(t, 8) == Some(16);
    forall p | 0 <= p < 8
      ensures CodeMatchAt(t, p).None?
    {
      if 1 <= p <= 7 { LettersEndAt(t, p, 7); } else { LettersEndAt(t, p, p); }
    }
    CodeSearchAt(t, 0, 8);
    var u := Upper(t[8..16]);
    assert forall k :: 0 <= k < 8 ==> u[k] == "LULU-255"[k];
    assert u == "LULU-255";
    assert CodeOf([t]) == Some(u);
  }

  /** Seven letters before the dash: the match starts one letter in. */
  lemma CodeOfLongPrefix(t: string)
    requires t == "abcdefg-123"
    ensures CodeOf([t]) == Some("BCDEFG-123")
  {
    LettersEndAt(t, 0, 7);
    LettersEndAt(t, 1, 7);
    DigitsEndAt(t, 8, 11);
    assert CodeMatchAt(t, 0).None?;
    assert CodeMatchAt(t, 1) == Some(11);
    CodeSearchAt(t, 0, 1);
    var u := Upper(t[1..11]);
    assert forall k :: 0 <= k < 10 ==> u[k] == "BCDEFG-123"[k];
    assert u == "BCDEFG-123";
    assert CodeOf([t]) == Some(u);
  }

  // ------------------------------------------------------------ the extractor

  /** The field dictionary of a page; None stands for the empty dictionary
      returned when lxml cannot parse the page. `checkIso` says whether
      ISO dates are calendar-checked (the JavLibrary copy does not). */
  function ExtractFields(page: Option<Queries>, checkIso: bool): (r: Option<Fields>)
    ensures r.Some? <==> page.Some?
  {
    match page
    case None => None
    case Some(q) =>
      var raw := FirstStripped(q.h1);
      Some(Fields(
        raw,
        NormalizeTitle(raw),
        FirstStripped(OrList(q.metaDescription, q.pDescription)),
        EarliestDate(q.text, checkIso),
        NonEmptyStripped(OrList(q.performerCells, q.profileLinks)),
        Dedup(NonEmptyStripped(q.themes) + NonEmptyStripped(q.plays)),
        Absolutize(PickImage(q.photopc, q.packageOrVideo, q.ogImage)),
        FirstStripped(q.maker),
        CodeOf(OrList(q.canonical, q.ogUrl))))
  }

  /** The extractor, step by step as the scraper runs it. */
  method ExtractGravureFields(page: Option<Queries>, checkIso: bool) returns (out: Option<Fields>)
    ensures out == ExtractFields(page, checkIso)
  {
    if page.None? {
      return None;
    }
    var q := page.value;
    var raw := FirstStripped(q.h1);
    var date := FindEarliestDate(q.text, checkIso);
    var tags := DedupTags(NonEmptyStripped(q.themes) + NonEmptyStripped(q.plays));
    out := Some(Fields(
      raw,
      NormalizeTitle(raw),
      FirstStripped(OrList(q.metaDescription, q.pDescription)),
      date,
      NonEmptyStripped(OrList(q.performerCells, q.profileLinks)),
      tags,
      Absolutize(PickImage(q.photopc, q.packageOrVideo, q.ogImage)),
      FirstStripped(q.maker),
      CodeOf(OrList(q.canonical, q.ogUrl))));
  }

  /** What every parsed page yields: clean, non-empty performer and tag
      names, tags without repeats drawn from the two tag lists, an
      image URL that does not start with `/`, and stripped title, details
      and studio. */
  lemma ExtractedFieldsWellFormed(q: Queries, checkIso: bool)
    ensures var f := ExtractFields(Some(q), checkIso).value;
      && (forall i :: 0 <= i < |f.performers| ==> f.performers[i] != "" && IsStripped(f.performers[i]))
      && (forall i :: 0 <= i < |f.tags| ==> f.tags[i] != "" && IsStripped(f.tags[i]))
      && (forall i, j :: 0 <= i < j < |f.tags| ==> f.tags[i] != f.tags[j])
      && (forall t :: t in f.tags <==> t in NonEmptyStripped(q.themes) || t in NonEmptyStripped(q.plays))
      && (f.image.Some? ==> f.image.value != "" && f.image.value[0] != '/')
      && (f.titleRaw.Some? ==> IsStripped(f.titleRaw.value))
      && (f.details.Some? ==> IsStripped(f.details.value))
      && (f.studio.Some? ==> IsStripped(f.studio.value))
  {
    var f := ExtractFields(Some(q), checkIso).value;
    var all := NonEmptyStripped(q.themes) + NonEmptyStripped(q.plays);
    forall i | 0 <= i < |f.tags|
      ensures f.tags[i] != "" && IsStripped(f.tags[i])
    {
      var th, pl := NonEmptyStripped(q.themes), NonEmptyStripped(q.plays);
      assert f.tags[i] in all;
      if f.tags[i] in th {
        var k :| 0 <= k < |th| && th[k] == f.tags[i];
      } else {
        assert f.tags[i] in pl;
        var k :| 0 <= k < |pl| && pl[k] == f.tags[i];
      }
    }
  }

  /** Themes come before plays, and a tag listed under both keeps its
      theme position. */
  lemma ThemesFirst(q: Queries, checkIso: bool)
    ensures Dedup(NonEmptyStripped(q.themes)) <= ExtractFields(Some(q), checkIso).value.tags
  {
    DedupPrefix(NonEmptyStripped(q.themes), NonEmptyStripped(q.plays));
  }
}
