/**
 * The Python string operations the scrapers rely on: `str.strip`,
 * `str.split` on one character, `str.replace`, `in` on strings,
 * `str.upper` (on ASCII letters), and decimal formatting of integers.
 */
module Text {

  import opened Wrappers

  /** `str.isspace()`, which is also what `\s` matches in a str pattern:
      the ASCII blanks \t \n \v \f \r, the separators \x1c-\x1f, and
      the Unicode spaces (NEL, no-break space, ogham space, the U+2000
      block, line and paragraph separators, narrow and medium spaces,
      and the ideographic space U+3000 of Japanese text). */
  predicate IsSpace(c: char) {
    || c == ' ' || c == '\t' || c == '\n' || c == '\r' || c == '\U{B}' || c == '\U{C}'
    || '\U{1C}' <= c <= '\U{1F}'
    || c == '\U{85}' || c == '\U{A0}' || c == '\U{1680}'
    || '\U{2000}' <= c <= '\U{200A}'
    || c == '\U{2028}' || c == '\U{2029}' || c == '\U{202F}' || c == '\U{205F}'
    || c == '\U{3000}'
  }

  predicate IsDigit(c: char) { '0' <= c <= '9' }

  predicate IsAsciiLetter(c: char) { 'A' <= c <= 'Z' || 'a' <= c <= 'z' }

  function DigitValue(c: char): (d: nat)
    requires IsDigit(c)
    ensures d < 10
  {
    c as int - '0' as int
  }

  function DigitChar(d: nat): (c: char)
    requires d < 10
    ensures IsDigit(c) && DigitValue(c) == d
  {
    ('0' as int + d) as char
  }

  // ---------------------------------------------------------------- strip

  /** The first index at or after `i` that does not hold whitespace
      (`|s|` when there is none). */
  function SkipSpaces(s: string, i: nat): (k: nat)
    requires i <= |s|
    ensures i <= k <= |s|
    ensures forall j :: i <= j < k ==> IsSpace(s[j])
    ensures k == |s| || !IsSpace(s[k])
    decreases |s| - i
  {
    if i < |s| && IsSpace(s[i]) then SkipSpaces(s, i + 1) else i
  }

  /** The end of `s[lo..j]` once its trailing whitespace is dropped. */
  function TrimEnd(s: string, lo: nat, j: nat): (k: nat)
    requires lo <= j <= |s|
    ensures lo <= k <= j
    ensures forall m :: k <= m < j ==> IsSpace(s[m])
    ensures k == lo || !IsSpace(s[k - 1])
  {
    if lo < j && IsSpace(s[j - 1]) then TrimEnd(s, lo, j - 1) else j
  }

  /** A string that neither starts nor ends with whitespace. */
  predicate IsStripped(s: string) {
    s == [] || (!IsSpace(s[0]) && !IsSpace(s[|s| - 1]))
  }

  /** `str.strip()`: the result is stripped, and stripped text is left
      as it is. */
  function Strip(s: string): (r: string)
    ensures IsStripped(r)
    ensures IsStripped(s) ==> r == s
    decreases |s|
  {
    if s != [] && IsSpace(s[0]) then Strip(s[1..])
    else s[..TrimEnd(s, 0, |s|)]
  }

  /** What `strip` returns is the slice between two runs of whitespace. */
  lemma {:induction false} StripBounds(s: string) returns (a: nat, b: nat)
    ensures a <= b <= |s| && Strip(s) == s[a..b]
    ensures forall i :: 0 <= i < a ==> IsSpace(s[i])
    ensures forall i :: b <= i < |s| ==> IsSpace(s[i])
    decreases |s|
  {
    if s != [] && IsSpace(s[0]) {
      var a', b' := StripBounds(s[1..]);
      a, b := a' + 1, b' + 1;
      assert s[1..][a'..b'] == s[a..b];
      forall i | 0 < i < a
        ensures IsSpace(s[i])
      {
        assert s[i] == s[1..][i - 1];
      }
      forall i | b <= i < |s|
        ensures IsSpace(s[i])
      {
        assert s[i] == s[1..][i - 1];
      }
    } else {
      a, b := 0, TrimEnd(s, 0, |s|);
    }
  }

  /** `strip` is determined by where the text starts and ends: any slice
      that is stripped and has only whitespace around it is the result. */
  lemma {:induction false} StripUnique(s: string, a: nat, b: nat)
    requires a <= b <= |s| && IsStripped(s[a..b])
    requires forall i :: 0 <= i < a ==> IsSpace(s[i])
    requires forall i :: b <= i < |s| ==> IsSpace(s[i])
    ensures Strip(s) == s[a..b]
    decreases |s|
  {
    if s != [] && IsSpace(s[0]) {
      if a == 0 {
        assert b == 0;
        forall i | 0 <= i < |s| - 1
          ensures IsSpace(s[1..][i])
        {
          assert s[1..][i] == s[i + 1];
        }
        StripUnique(s[1..], 0, 0);
      } else {
        assert s[1..][a - 1..b - 1] == s[a..b];
        forall i | 0 <= i < a - 1
          ensures IsSpace(s[1..][i])
        {
          assert s[1..][i] == s[i + 1];
        }
        forall i | b - 1 <= i < |s| - 1
          ensures IsSpace(s[1..][i])
        {
          assert s[1..][i] == s[i + 1];
        }
        StripUnique(s[1..], a - 1, b - 1);
      }
    } else {
      var k := TrimEnd(s, 0, |s|);
      if b > 0 {
        assert s[a..b][b - a - 1] == s[b - 1];
      }
      assert k == b;
    }
  }

  /** Leading whitespace makes no difference to `strip`. */
  lemma {:induction false} StripSkip(s: string, n: nat)
    requires n <= |s|
    requires forall j :: 0 <= j < n ==> IsSpace(s[j])
    ensures Strip(s[n..]) == Strip(s)
    decreases n
  {
    if n > 0 {
      assert IsSpace(s[0]);
      forall j | 0 <= j < n - 1
        ensures IsSpace(s[1..][j])
      {
        assert s[1..][j] == s[j + 1];
      }
      StripSkip(s[1..], n - 1);
      assert s[1..][n - 1..] == s[n..];
    } else {
      assert s[0..] == s;
    }
  }

  // ---------------------------------------------------------------- search

  /** `s.startswith(p)`. */
  predicate StartsWith(s: string, p: string) {
    |p| <= |s| && s[..|p|] == p
  }

  /** Python's `sub in s` for strings (the empty string is in every string). */
  predicate Contains(s: string, sub: string)
    decreases |s|
  {
    StartsWith(s, sub) || (s != [] && Contains(s[1..], sub))
  }

  /** `sub` occurs in `s` at index `i`. */
  predicate OccursAt(s: string, sub: string, i: int) {
    0 <= i <= |s| - |sub| && s[i..i + |sub|] == sub
  }

  /** `Contains` holds exactly when `sub` occurs at some position of `s`. */
  lemma {:induction false} ContainsAt(s: string, sub: string)
    ensures Contains(s, sub) <==> exists i :: OccursAt(s, sub, i)
    decreases |s|
  {
    if StartsWith(s, sub) {
      assert OccursAt(s, sub, 0);
    } else if s == [] {
    } else {
      ContainsAt(s[1..], sub);
      if Contains(s[1..], sub) {
        var i :| OccursAt(s[1..], sub, i);
        assert OccursAt(s, sub, i + 1);
      }
      if exists i :: OccursAt(s, sub, i) {
        var i :| OccursAt(s, sub, i);
        assert i != 0;
        assert OccursAt(s[1..], sub, i - 1);
      }
    }
  }

  // ---------------------------------------------------------------- replace

  /** `"".replace` semantics for an empty pattern: `rep` before every
      character and once more at the end. */
  function Interleave(s: string, rep: string): string
    decreases |s|
  {
    if s == [] then rep else rep + [s[0]] + Interleave(s[1..], rep)
  }

  /** `s.replace(pat, rep)`: every non-overlapping occurrence of `pat`,
      scanning from the left, is replaced by `rep`. */
  function Replace(s: string, pat: string, rep: string): string
    decreases |s|
  {
    if pat == [] then Interleave(s, rep)
    else if StartsWith(s, pat) then rep + Replace(s[|pat|..], pat, rep)
    else if s == [] then []
    else [s[0]] + Replace(s[1..], pat, rep)
  }

  /** Replacing a string that does not occur changes nothing. */
  lemma {:induction false} ReplaceAbsent(s: string, pat: string, rep: string)
    requires pat != [] && !Contains(s, pat)
    ensures Replace(s, pat, rep) == s
    decreases |s|
  {
    if s != [] {
      ReplaceAbsent(s[1..], pat, rep);
    }
  }

  /** The first occurrence of `pat` is the first one replaced. */
  lemma {:induction false} ReplaceFirst(a: string, pat: string, b: string, rep: string)
    requires pat != [] && !Contains(a + pat[..|pat| - 1], pat)
    ensures Replace(a + pat + b, pat, rep) == a + rep + Replace(b, pat, rep)
    decreases |a|
  {
    var s := a + pat + b;
    if a == [] {
      assert s[..|pat|] == pat;
      assert s[|pat|..] == b;
    } else {
      NoMatchAtHead(a, pat, b);
      assert s[1..] == a[1..] + pat + b;
      ReplaceFirst(a[1..], pat, b, rep);
      var tail := Replace(b, pat, rep);
      assert Replace(s, pat, rep) == [s[0]] + (a[1..] + rep + tail);
      AppendAssoc([a[0]], a[1..] + rep, tail);
      AppendAssoc([a[0]], a[1..], rep);
      assert [a[0]] + a[1..] == a;
    }
  }

  /** Before the first occurrence of `pat` in `a + pat + b`, nothing
      matches at the head, and the rest of `a` still holds no earlier
      occurrence. */
  lemma NoMatchAtHead(a: string, pat: string, b: string)
    requires pat != [] && a != [] && !Contains(a + pat[..|pat| - 1], pat)
    ensures !StartsWith(a + pat + b, pat)
    ensures !Contains(a[1..] + pat[..|pat| - 1], pat)
  {
    var s := a + pat + b;
    var t := a + pat[..|pat| - 1];
    assert !StartsWith(t, pat) && !Contains(t[1..], pat);
    assert t[..|pat|] == s[..|pat|];
    assert t[1..] == a[1..] + pat[..|pat| - 1];
  }

  /** A string cannot occur where its first character does not, nor
      where too little text is left after it. */
  lemma NotContainsByFirstChar(s: string, sub: string)
    requires sub != []
    requires forall i :: 0 <= i < |s| && s[i] == sub[0] ==> i + |sub| > |s|
    ensures !Contains(s, sub)
  {
    ContainsAt(s, sub);
    forall i | 0 <= i <= |s| - |sub|
      ensures !OccursAt(s, sub, i)
    {
      assert s[i..i + |sub|][0] == s[i];
    }
  }

  /** An occurrence in the second part is an occurrence in the whole. */
  lemma ContainsInSuffix(a: string, s: string, sub: string)
    requires Contains(s, sub)
    ensures Contains(a + s, sub)
  {
    ContainsAt(s, sub);
    var i :| OccursAt(s, sub, i);
    assert (a + s)[|a| + i..|a| + i + |sub|] == s[i..i + |sub|];
    assert OccursAt(a + s, sub, |a| + i);
    ContainsAt(a + s, sub);
  }

  /** Replacing every occurrence of one character by a text without it
      leaves none. */
  lemma {:induction false} ReplaceRemoves(s: string, c: char, rep: string)
    requires c !in rep
    ensures c !in Replace(s, [c], rep)
    decreases |s|
  {
    if s != [] {
      ReplaceRemoves(s[1..], c, rep);
    }
  }

  // ---------------------------------------------------------------- split / join

  /** `s.split(sep)` for a one-character separator: the pieces between the
      separators, empty pieces included. Its last piece is the text after
      the last separator (or all of `s`). */
  function Split(s: string, sep: char): (r: seq<string>)
    ensures |r| >= 1
    ensures forall i :: 0 <= i < |r| ==> sep !in r[i]
    decreases |s|
  {
    if s == [] then [""]
    else
      var init := Split(s[..|s| - 1], sep);
      if s[|s| - 1] == sep then init + [""]
      else init[..|init| - 1] + [init[|init| - 1] + [s[|s| - 1]]]
  }

  /** The last piece is the text after the last separator: a suffix of
      the text, preceded by a separator unless it is the whole text. */
  lemma {:induction false} SplitLastPiece(s: string, sep: char)
    ensures var r := Split(s, sep); var last := r[|r| - 1];
      && |last| <= |s| && last == s[|s| - |last|..]
      && (|last| < |s| ==> s[|s| - |last| - 1] == sep)
    decreases |s|
  {
    if s != [] {
      SplitLastPiece(s[..|s| - 1], sep);
    }
  }

  /** `sep.join(parts)`. */
  function Join(parts: seq<string>, sep: string): string
    decreases |parts|
  {
    if parts == [] then ""
    else if |parts| == 1 then parts[0]
    else Join(parts[..|parts| - 1], sep) + sep + parts[|parts| - 1]
  }

  /** Joining one more part. */
  lemma JoinSnoc(parts: seq<string>, x: string, sep: string)
    requires parts != []
    ensures Join(parts + [x], sep) == Join(parts, sep) + sep + x
  {
    assert (parts + [x])[..|parts|] == parts;
  }

  /** Extending the last part extends the joined text. */
  lemma JoinExtendLast(parts: seq<string>, c: char, sep: string)
    requires parts != []
    ensures Join(parts[..|parts| - 1] + [parts[|parts| - 1] + [c]], sep) == Join(parts, sep) + [c]
  {
    var n := |parts|;
    if n > 1 {
      var front := parts[..n - 1];
      JoinSnoc(front, parts[n - 1] + [c], sep);
      assert parts == front + [parts[n - 1]];
      JoinSnoc(front, parts[n - 1], sep);
    }
  }

  /** Splitting and joining back with the same separator is the identity. */
  lemma {:induction false} SplitJoin(s: string, sep: char)
    ensures Join(Split(s, sep), [sep]) == s
    decreases |s|
  {
    if s != [] {
      var p, c := s[..|s| - 1], s[|s| - 1];
      assert s == p + [c];
      SplitJoin(p, sep);
      if c == sep {
        SplitSnocSep(p, sep);
        JoinSnoc(Split(p, sep), "", [sep]);
      } else {
        SplitSnocOther(p, c, sep);
        JoinExtendLast(Split(p, sep), c, [sep]);
      }
    }
  }

  /** Text without the separator is one piece. */
  lemma {:induction false} SplitNoSep(s: string, sep: char)
    requires sep !in s
    ensures Split(s, sep) == [s]
    decreases |s|
  {
    if s != [] {
      SplitNoSep(s[..|s| - 1], sep);
      assert s[..|s| - 1] + [s[|s| - 1]] == s;
    }
  }

  /** Concatenation is associative (stated apart, away from the splitter's
      facts, where the solver proves it at once). */
  lemma AppendAssoc<T>(p: seq<T>, q: seq<T>, r: seq<T>)
    ensures (p + q) + r == p + (q + r)
  {
  }

  /** One step of the splitter: a final separator opens an empty piece. */
  lemma SplitSnocSep(p: string, sep: char)
    ensures Split(p + [sep], sep) == Split(p, sep) + [""]
  {
    assert (p + [sep])[..|p|] == p;
  }

  /** One step of the splitter: an ordinary last character extends the
      last piece. */
  lemma SplitSnocOther(p: string, c: char, sep: char)
    requires c != sep
    ensures var init := Split(p, sep);
      Split(p + [c], sep) == init[..|init| - 1] + [init[|init| - 1] + [c]]
  {
    assert (p + [c])[..|p|] == p;
  }

  /** Replacing the last piece after a concatenation touches only the
      second part. */
  lemma ReplaceLastPiece(p: seq<string>, q: seq<string>, x: string)
    requires |q| >= 1
    ensures (p + q)[..|p + q| - 1] + [x] == p + (q[..|q| - 1] + [x])
  {
    assert (p + q)[..|p + q| - 1] == p + q[..|q| - 1];
  }

  /** A separator splits the text in two independent halves. */
  lemma {:induction false} SplitAppend(a: string, sep: char, b: string)
    ensures Split(a + [sep] + b, sep) == Split(a, sep) + Split(b, sep)
    decreases |b|
  {
    if b == [] {
      assert a + [sep] + b == a + [sep];
      SplitSnocSep(a, sep);
    } else {
      var b', c := b[..|b| - 1], b[|b| - 1];
      assert b == b' + [c];
      AppendAssoc(a + [sep], b', [c]);
      SplitAppend(a, sep, b');
      SplitAppendStep(a, sep, b', c);
    }
  }

  /** The step of `SplitAppend`: one more character after the separator. */
  lemma SplitAppendStep(a: string, sep: char, b: string, c: char)
    requires Split(a + [sep] + b, sep) == Split(a, sep) + Split(b, sep)
    ensures Split(a + [sep] + b + [c], sep) == Split(a, sep) + Split(b + [c], sep)
  {
    var pa, pb := Split(a, sep), Split(b, sep);
    if c == sep {
      SplitSnocSep(a + [sep] + b, sep);
      SplitSnocSep(b, sep);
      AppendAssoc(pa, pb, [""]);
    } else {
      SplitSnocOther(a + [sep] + b, c, sep);
      SplitSnocOther(b, c, sep);
      ReplaceLastPiece(pa, pb, pb[|pb| - 1] + [c]);
      assert (pa + pb)[|pa + pb| - 1] == pb[|pb| - 1];
    }
  }

  /** A character absent from the text is absent from every piece. */
  lemma {:induction false} SplitKeepsOut(s: string, sep: char, c: char)
    requires c !in s
    ensures forall i :: 0 <= i < |Split(s, sep)| ==> c !in Split(s, sep)[i]
    decreases |s|
  {
    if s != [] {
      var p, last := s[..|s| - 1], s[|s| - 1];
      assert s == p + [last];
      assert forall k :: 0 <= k < |p| ==> p[k] == s[k];
      SplitKeepsOut(p, sep, c);
      var init := Split(p, sep);
      if last == sep {
        SplitSnocSep(p, sep);
      } else {
        SplitSnocOther(p, last, sep);
        var r := Split(s, sep);
        assert r[|r| - 1] == init[|init| - 1] + [last];
        forall i | 0 <= i < |r|
          ensures c !in r[i]
        {
          if i < |r| - 1 { assert r[i] == init[i]; }
        }
      }
    }
  }

  /** Stripping keeps out what was out. */
  lemma StripKeepsOut(s: string, c: char)
    requires c !in s
    ensures c !in Strip(s)
  {
    var a, b := StripBounds(s);
    assert forall k :: 0 <= k < b - a ==> Strip(s)[k] == s[a + k];
  }

  /** The non-empty pieces, in order (`[p for p in parts if p]`). */
  function NonEmptyPieces(parts: seq<string>): (r: seq<string>)
    ensures forall i :: 0 <= i < |r| ==> r[i] != [] && r[i] in parts
    decreases |parts|
  {
    if parts == [] then []
    else
      NonEmptyPieces(parts[..|parts| - 1])
      + (if parts[|parts| - 1] != [] then [parts[|parts| - 1]] else [])
  }

  /** The last non-empty `/`-separated segment of a URL or path
      (`parts = [p for p in s.split("/") if p]; parts[-1] if parts else ...`). */
  function LastSegment(s: string): Option<string> {
    var parts := NonEmptyPieces(Split(s, '/'));
    if parts == [] then None else Some(parts[|parts| - 1])
  }

  predicate OnlySlashes(s: string) {
    forall i :: 0 <= i < |s| ==> s[i] == '/'
  }

  /** `seg` stands in `s` at index `k`, right after a slash (or at the
      start), and only slashes follow it. */
  predicate FinalSegmentAt(s: string, seg: string, k: int) {
    && 0 <= k <= |s| - |seg| && s[k..k + |seg|] == seg
    && (k == 0 || s[k - 1] == '/')
    && OnlySlashes(s[k + |seg|..])
  }

  /** One character more: a trailing slash leaves the last segment as it
      was; any other character ends the last piece of the split. */
  lemma LastSegmentSnoc(s: string)
    requires s != []
    ensures s[|s| - 1] == '/' ==> LastSegment(s) == LastSegment(s[..|s| - 1])
    ensures s[|s| - 1] != '/' ==> LastSegment(s) == Some(Split(s, '/')[|Split(s, '/')| - 1])
  {
    var p, c := s[..|s| - 1], s[|s| - 1];
    assert s == p + [c];
    if c == '/' {
      LastSegmentSlash(p);
    } else {
      LastSegmentOther(p, c);
    }
  }

  /** A trailing slash adds an empty piece, which the filter drops. */
  lemma LastSegmentSlash(p: string)
    ensures LastSegment(p + ['/']) == LastSegment(p)
  {
    var pi := Split(p, '/');
    var ps := pi + [""];
    SplitSnocSep(p, '/');
    assert ps[..|ps| - 1] == pi;
    assert NonEmptyPieces(ps) == NonEmptyPieces(pi);
  }

  /** Any other last character ends a non-empty last piece, which is kept. */
  lemma LastSegmentOther(p: string, c: char)
    requires c != '/'
    ensures LastSegment(p + [c]) == Some(Split(p + [c], '/')[|Split(p + [c], '/')| - 1])
  {
    var pi := Split(p, '/');
    var ps := Split(p + [c], '/');
    SplitSnocOther(p, c, '/');
    assert ps[|ps| - 1] == pi[|pi| - 1] + [c];
    NonEmptyLastKept(ps);
  }

  /** A non-empty last piece is the last piece the filter keeps. */
  lemma NonEmptyLastKept(parts: seq<string>)
    requires parts != [] && parts[|parts| - 1] != []
    ensures NonEmptyPieces(parts) == NonEmptyPieces(parts[..|parts| - 1]) + [parts[|parts| - 1]]
  {
  }

  /** There is no segment exactly when `s` is made of slashes only. */
  lemma {:induction false} LastSegmentNone(s: string)
    ensures LastSegment(s).None? <==> OnlySlashes(s)
    decreases |s|
  {
    if s != [] {
      var init := s[..|s| - 1];
      LastSegmentSnoc(s);
      if s[|s| - 1] == '/' {
        LastSegmentNone(init);
        assert forall i :: 0 <= i < |init| ==> s[i] == init[i];
      } else {
        assert !OnlySlashes(s);
      }
    }
  }

  /** What `LastSegment` finds: a non-empty, slash-free run of `s` that
      starts after a slash (or at the start) and is followed only by
      slashes. */
  lemma {:induction false} LastSegmentShape(s: string)
    requires LastSegment(s).Some?
    ensures LastSegment(s).value != [] && '/' !in LastSegment(s).value
    ensures exists k :: FinalSegmentAt(s, LastSegment(s).value, k)
    decreases |s|
  {
    var init := s[..|s| - 1];
    LastSegmentSnoc(s);
    var seg := LastSegment(s).value;
    if s[|s| - 1] == '/' {
      LastSegmentShape(init);
      var k :| FinalSegmentAt(init, seg, k);
      assert s[k..k + |seg|] == seg;
      assert s[k + |seg|..] == init[k + |seg|..] + ['/'];
      assert FinalSegmentAt(s, seg, k);
    } else {
      var ps := Split(s, '/');
      SplitLastPiece(s, '/');
      assert seg == ps[|ps| - 1];
      assert FinalSegmentAt(s, seg, |s| - |seg|);
    }
  }

  /** The segment after the last slash, when it is not empty. */
  lemma LastSegmentOf(a: string, seg: string)
    requires seg != [] && '/' !in seg
    ensures LastSegment(a + "/" + seg) == Some(seg)
  {
    var s := a + "/" + seg;
    LastSegmentSnoc(s);
    var ps := Split(s, '/');
    var r := ps[|ps| - 1];
    SplitLastPiece(s, '/');
    assert s[|a|] == '/';
    forall i | |s| - |r| <= i < |s|
      ensures s[i] != '/'
    {
      assert s[i] == r[i - (|s| - |r|)];
    }
    forall j | |a| < j < |s|
      ensures s[j] != '/'
    {
      assert s[j] == seg[j - |a| - 1];
    }
    assert |r| == |seg|;
    assert r == s[|s| - |seg|..] == seg;
  }

  // ---------------------------------------------------------------- case, numbers

  /** `c.upper()` on ASCII letters; every other character is unchanged. */
  function UpperChar(c: char): char {
    if 'a' <= c <= 'z' then (c as int - 32) as char else c
  }

  /** `str.upper()` (ASCII). */
  function Upper(s: string): (r: string)
    ensures |r| == |s|
    ensures forall i :: 0 <= i < |s| ==> r[i] == UpperChar(s[i])
  {
    seq(|s|, i requires 0 <= i < |s| => UpperChar(s[i]))
  }

  predicate AllDigits(s: string) {
    forall i :: 0 <= i < |s| ==> IsDigit(s[i])
  }

  /** `int(s)` for a string of ASCII digits. */
  function DigitsValue(s: string): nat
    requires AllDigits(s)
    decreases |s|
  {
    if s == [] then 0 else DigitsValue(s[..|s| - 1]) * 10 + DigitValue(s[|s| - 1])
  }

  /** `str(n)` for a natural number. */
  function NatToString(n: nat): (r: string)
    ensures r != []
    decreases n
  {
    if n < 10 then [DigitChar(n)] else NatToString(n / 10) + [DigitChar(n % 10)]
  }

  /** `str(i)` for any integer. */
  function IntToString(i: int): string {
    if i < 0 then "-" + NatToString(-i) else NatToString(i)
  }

  /** `f"{n:02d}"`: at least two digits, zero-padded. */
  function Pad2(n: nat): string {
    if n < 10 then "0" + NatToString(n) else NatToString(n)
  }

  /** Decimal formatting is read back by `int(...)`. */
  lemma {:induction false} NatToStringRoundTrip(n: nat)
    ensures AllDigits(NatToString(n)) && DigitsValue(NatToString(n)) == n
    decreases n
  {
    if n >= 10 {
      NatToStringRoundTrip(n / 10);
      var r := NatToString(n);
      assert r[..|r| - 1] == NatToString(n / 10);
    }
  }

  /** Numbers from 10 to 99 are formatted with exactly two digits. */
  lemma TwoDigits(n: nat)
    requires 10 <= n < 100
    ensures |NatToString(n)| == 2
  {
  }
}
