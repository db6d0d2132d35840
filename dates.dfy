/**
 * The release date of a Gravurefit page: the earliest calendar date found
 * anywhere in the page text (`find_earliest_date_from_text` in the
 * JavLibrary scraper, `find_earliest_date_in_text` in the Gravurefit one).
 * Two patterns are scanned left to right, each match resuming the search
 * where the previous one ended:
 *   `(\d{4})年\s*(\d{1,2})月\s*(\d{1,2})日`  the Japanese form;
 *   `(\d{4}-\d{2}-\d{2})`                    the ISO form.
 * Japanese dates are kept only when they are real calendar dates in both
 * scrapers; ISO dates are checked in the Gravurefit scraper only.
 */
module Dates {

  import opened Wrappers
  import opened Text

  datatype Date = Date(year: nat, month: nat, day: nat)

  predicate IsLeap(y: int) {
    y % 4 == 0 && (y % 100 != 0 || y % 400 == 0)
  }

  function DaysInMonth(y: int, m: int): int
    requires 1 <= m <= 12
  {
    if m == 2 then (if IsLeap(y) then 29 else 28)
    else if m == 4 || m == 6 || m == 9 || m == 11 then 30
    else 31
  }

  /** A date Python's calendar accepts (`datetime`, `strptime`,
      `fromisoformat`): years 1 to 9999 of the proleptic Gregorian
      calendar. */
  predicate Valid(d: Date) {
    1 <= d.year <= 9999 && 1 <= d.month <= 12 && 1 <= d.day <= DaysInMonth(d.year, d.month)
  }

  /** The order of `(y, m, d)` tuples and of `datetime` values:
      year first, then month, then day. */
  predicate NotAfter(a: Date, b: Date) {
    a.year < b.year
    || (a.year == b.year && (a.month < b.month || (a.month == b.month && a.day <= b.day)))
  }

  // ------------------------------------------------------------ digits

  predicate DigitsIn(t: string, i: nat, j: nat)
    requires i <= j <= |t|
  {
    forall k :: i <= k < j ==> IsDigit(t[k])
  }

  /** End of the run of ASCII digits starting at `i`. */
  function DigitsEnd(t: string, i: nat): (e: nat)
    requires i <= |t|
    ensures i <= e <= |t| && DigitsIn(t, i, e)
    ensures e == |t| || !IsDigit(t[e])
    decreases |t| - i
  {
    if i < |t| && IsDigit(t[i]) then DigitsEnd(t, i + 1) else i
  }

  /** `int(t[i:j])` for a run of digits. */
  function Number(t: string, i: nat, j: nat): nat
    requires i <= j <= |t| && DigitsIn(t, i, j)
  {
    assert AllDigits(t[i..j]) by {
      forall k | 0 <= k < j - i
        ensures IsDigit(t[i..j][k])
      {
        assert t[i..j][k] == t[i + k];
      }
    }
    DigitsValue(t[i..j])
  }

  // ------------------------------------------------------------ the two patterns

  /** The Japanese pattern tried at `p`: four digits and 年; whitespace;
      a run of one or two digits directly followed by 月 (a longer run
      cannot match, since `\d{1,2}` must end just before 月); whitespace;
      one or two digits directly followed by 日. The date and the index
      just past the match, or None. */
  function JpMatchAt(t: string, p: nat): (m: Option<(Date, nat)>)
    requires p <= |t|
    ensures m.Some? ==> p < m.value.1 <= |t|
  {
    if p + 5 <= |t| && DigitsIn(t, p, p + 4) && t[p + 4] == '年' then
      var a := SkipSpaces(t, p + 5);
      var b := DigitsEnd(t, a);
      if a < b <= a + 2 && b < |t| && t[b] == '月' then
        var c := SkipSpaces(t, b + 1);
        var e := DigitsEnd(t, c);
        if c < e <= c + 2 && e < |t| && t[e] == '日' then
          Some((Date(Number(t, p, p + 4), Number(t, a, b), Number(t, c, e)), e + 1))
        else None
      else None
    else None
  }

  /** The ISO pattern tried at `p`: `dddd-dd-dd`. */
  function IsoMatchAt(t: string, p: nat): (m: Option<(Date, nat)>)
    requires p <= |t|
    ensures m.Some? ==> m.value.1 == p + 10 <= |t|
  {
    if p + 10 <= |t| && DigitsIn(t, p, p + 4) && t[p + 4] == '-'
       && DigitsIn(t, p + 5, p + 7) && t[p + 7] == '-' && DigitsIn(t, p + 8, p + 10)
    then Some((Date(Number(t, p, p + 4), Number(t, p + 5, p + 7), Number(t, p + 8, p + 10)), p + 10))
    else None
  }

  /** `finditer` with the Japanese pattern from index `i`. */
  function JpDates(t: string, i: nat): seq<Date>
    requires i <= |t|
    decreases |t| - i
  {
    if i == |t| then []
    else
      match JpMatchAt(t, i)
      case Some((d, e)) => [d] + JpDates(t, e)
      case None => JpDates(t, i + 1)
  }

  /** `findall` with the ISO pattern from index `i`. */
  function IsoDates(t: string, i: nat): seq<Date>
    requires i <= |t|
    decreases |t| - i
  {
    if i == |t| then []
    else
      match IsoMatchAt(t, i)
      case Some((d, e)) => [d] + IsoDates(t, e)
      case None => IsoDates(t, i + 1)
  }

  /** The calendar dates of a list, in order. */
  function ValidOnly(ds: seq<Date>): (r: seq<Date>)
    ensures forall d :: d in r <==> d in ds && Valid(d)
    ensures |r| <= |ds|
  {
    if ds == [] then []
    else ValidOnly(ds[..|ds| - 1]) + (if Valid(ds[|ds| - 1]) then [ds[|ds| - 1]] else [])
  }

  /** The dates the scraper collects: the valid Japanese dates, then the
      ISO dates, valid ones only when `checkIso`. */
  function Candidates(text: string, checkIso: bool): seq<Date> {
    ValidOnly(JpDates(text, 0))
    + (if checkIso then ValidOnly(IsoDates(text, 0)) else IsoDates(text, 0))
  }

  /** The first element of `sorted(ds)`, that is `min(ds)`. */
  function Min(ds: seq<Date>): (m: Date)
    requires ds != []
    ensures m in ds
    ensures forall d :: d in ds ==> NotAfter(m, d)
  {
    if |ds| == 1 then ds[0]
    else
      var m := Min(ds[..|ds| - 1]);
      var last := ds[|ds| - 1];
      assert forall d :: d in ds ==> d in ds[..|ds| - 1] || d == last;
      if NotAfter(m, last) then m else last
  }

  /** `f"{y}-{m:02d}-{d:02d}"`, and `strftime("%Y-%m-%d")` which prints
      the year the same way. */
  function Format(d: Date): string {
    NatToString(d.year) + "-" + Pad2(d.month) + "-" + Pad2(d.day)
  }

  /** What either scraper returns for a page text. */
  function EarliestDate(text: string, checkIso: bool): Option<string> {
    var ds := Candidates(text, checkIso);
    if ds == [] then None else Some(Format(Min(ds)))
  }

  /** One collecting loop: the dates that pass the calendar check, or
      all of them when `check` is off, in order. */
  method Collect(ds: seq<Date>, check: bool) returns (kept: seq<Date>)
    ensures kept == if check then ValidOnly(ds) else ds
  {
    kept := [];
    var i := 0;
    while i < |ds|
      invariant 0 <= i <= |ds|
      invariant check ==> kept == ValidOnly(ds[..i])
      invariant !check ==> kept == ds[..i]
    {
      if check {
        assert ds[..i + 1][..i] == ds[..i];
        assert ValidOnly(ds[..i + 1]) == ValidOnly(ds[..i]) + (if Valid(ds[i]) then [ds[i]] else []);
      }
      if !check || Valid(ds[i]) {
        kept := kept + [ds[i]];
      }
      i := i + 1;
    }
    assert ds[..i] == ds;
  }

  /** The smallest date of a non-empty list. */
  method Smallest(ds: seq<Date>) returns (best: Date)
    requires ds != []
    ensures best == Min(ds)
  {
    best := ds[0];
    var i := 1;
    while i < |ds|
      invariant 1 <= i <= |ds|
      invariant best == Min(ds[..i])
    {
      assert ds[..i + 1][..i] == ds[..i];
      if !NotAfter(best, ds[i]) {
        best := ds[i];
      }
      i := i + 1;
    }
    assert ds[..i] == ds;
  }

  /** The scrapers' loop: collect the Japanese dates that pass the
      calendar check, then the ISO dates (checked or not), then take the
      smallest. `checkIso` is false for the JavLibrary scraper, which also
      returns None at once for an empty text. */
  method FindEarliestDate(text: string, checkIso: bool) returns (r: Option<string>)
    ensures r == EarliestDate(text, checkIso)
  {
    if text == [] && !checkIso {
      return None;
    }
    var dates := Collect(JpDates(text, 0), true);
    var fromIso := Collect(IsoDates(text, 0), checkIso);
    dates := dates + fromIso;
    if dates == [] {
      return None;
    }
    var best := Smallest(dates);
    return Some(Format(best));
  }

  // ------------------------------------------------------------ properties

  /** `NotAfter` is a total order on dates. */
  lemma NotAfterAntisymmetric(a: Date, b: Date)
    requires NotAfter(a, b) && NotAfter(b, a)
    ensures a == b
  {
  }

  /** The minimum does not depend on how the candidates are arranged:
      any candidate that is not after every other is the one returned. */
  lemma MinUnique(ds: seq<Date>, m: Date)
    requires m in ds && forall d :: d in ds ==> NotAfter(m, d)
    ensures Min(ds) == m
  {
    NotAfterAntisymmetric(Min(ds), m);
  }

  /** No date is returned exactly when no candidate survives. */
  lemma EarliestNone(text: string, checkIso: bool)
    ensures EarliestDate(text, checkIso).None? <==> Candidates(text, checkIso) == []
  {
  }

  /** The date returned is the formatting of a candidate that no other
      candidate precedes. */
  lemma EarliestIsMinimal(text: string, checkIso: bool)
    requires EarliestDate(text, checkIso).Some?
    ensures exists d :: d in Candidates(text, checkIso)
              && EarliestDate(text, checkIso) == Some(Format(d))
              && forall e :: e in Candidates(text, checkIso) ==> NotAfter(d, e)
  {
    var d := Min(Candidates(text, checkIso));
    assert d in Candidates(text, checkIso);
  }

  /** Japanese matches do not overlap and each spans at least nine
      characters (four digits, 年, a digit, 月, a digit, 日). */
  lemma {:induction false} JpDatesSpacing(t: string, i: nat)
    requires i <= |t|
    ensures 9 * |JpDates(t, i)| <= |t| - i
    decreases |t| - i
  {
    if i < |t| {
      var m := JpMatchAt(t, i);
      if m.Some? {
        JpMatchLength(t, i);
        JpDatesSpacing(t, m.value.1);
        assert JpDates(t, i) == [m.value.0] + JpDates(t, m.value.1);
      } else {
        JpDatesSpacing(t, i + 1);
        assert JpDates(t, i) == JpDates(t, i + 1);
      }
    }
  }

  lemma JpMatchLength(t: string, p: nat)
    requires p <= |t| && JpMatchAt(t, p).Some?
    ensures p + 9 <= JpMatchAt(t, p).value.1
  {
  }

  /** ISO matches do not overlap and each spans ten characters. */
  lemma {:induction false} IsoDatesSpacing(t: string, i: nat)
    requires i <= |t|
    ensures 10 * |IsoDates(t, i)| <= |t| - i
    decreases |t| - i
  {
    if i < |t| {
      var m := IsoMatchAt(t, i);
      if m.Some? {
        IsoDatesSpacing(t, m.value.1);
        assert IsoDates(t, i) == [m.value.0] + IsoDates(t, m.value.1);
      } else {
        IsoDatesSpacing(t, i + 1);
        assert IsoDates(t, i) == IsoDates(t, i + 1);
      }
    }
  }

  /** Positions where no 年 stands four characters on start no Japanese
      match, so the scan passes over them. */
  lemma {:induction false} JpSkip(t: string, i: nat, j: nat)
    requires i <= j <= |t|
    requires forall m :: i + 4 <= m < j + 4 && m < |t| ==> t[m] != '年'
    ensures JpDates(t, i) == JpDates(t, j)
    decreases j - i
  {
    if i < j {
      assert JpMatchAt(t, i).None? by {
        if i + 4 < |t| {
          assert t[i + 4] != '年';
        }
      }
      JpSkip(t, i + 1, j);
    }
  }

  /** Likewise for the ISO pattern, whose fifth character is `-`. */
  lemma {:induction false} IsoSkip(t: string, i: nat, j: nat)
    requires i <= j <= |t|
    requires forall m :: i + 4 <= m < j + 4 && m < |t| ==> t[m] != '-'
    ensures IsoDates(t, i) == IsoDates(t, j)
    decreases j - i
  {
    if i < j {
      assert IsoMatchAt(t, i).None? by {
        if i + 4 < |t| {
          assert t[i + 4] != '-';
        }
      }
      IsoSkip(t, i + 1, j);
    }
  }

  /** `f"{n:02d}"` of a number below 100 is two digits that read back as
      the number. */
  lemma Pad2RoundTrip(n: nat)
    requires n < 100
    ensures |Pad2(n)| == 2 && AllDigits(Pad2(n)) && DigitsValue(Pad2(n)) == n
  {
    NatToStringRoundTrip(n);
    if n < 10 {
      var p := Pad2(n);
      assert p == "0" + NatToString(n) && |NatToString(n)| == 1;
      assert p[..1] == "0";
    } else {
      TwoDigits(n);
    }
  }

  lemma {:induction false} FourDigits(n: nat)
    requires 1000 <= n < 10000
    ensures |NatToString(n)| == 4
  {
    assert NatToString(n) == NatToString(n / 10) + [DigitChar(n % 10)];
    TwoDigits(n / 100);
    assert NatToString(n / 10) == NatToString(n / 100) + [DigitChar((n / 10) % 10)];
  }

  /** A formatted date with a four-digit year is read back by the ISO
      pattern as the same date. */
  lemma FormatRoundTrip(d: Date)
    requires 1000 <= d.year <= 9999 && d.month < 100 && d.day < 100
    ensures IsoDates(Format(d), 0) == [d]
  {
    FormatMatch(d, []);
    assert Format(d) + [] == Format(d);
  }

  /** The ISO pattern matches a formatted date at the start of any text. */
  lemma FormatMatch(d: Date, rest: string)
    requires 1000 <= d.year <= 9999 && d.month < 100 && d.day < 100
    ensures |Format(d)| == 10 && IsoMatchAt(Format(d) + rest, 0) == Some((d, 10))
  {
    var y, mo, da := NatToString(d.year), Pad2(d.month), Pad2(d.day);
    FourDigits(d.year);
    NatToStringRoundTrip(d.year);
    Pad2RoundTrip(d.month);
    Pad2RoundTrip(d.day);
    var t := Format(d) + rest;
    assert Format(d) == y + "-" + mo + "-" + da;
    assert t[0..4] == y && t[5..7] == mo && t[8..10] == da;
    assert t[4] == '-' && t[7] == '-';
    assert DigitsIn(t, 0, 4) by {
      forall k | 0 <= k < 4
        ensures IsDigit(t[k])
      {
        assert t[k] == y[k];
      }
    }
    assert DigitsIn(t, 5, 7) by {
      forall k | 5 <= k < 7
        ensures IsDigit(t[k])
      {
        assert t[k] == mo[k - 5];
      }
    }
    assert DigitsIn(t, 8, 10) by {
      forall k | 8 <= k < 10
        ensures IsDigit(t[k])
      {
        assert t[k] == da[k - 8];
      }
    }
  }

  lemma JapaneseDateScan(t: string)
    requires t == "2019年3月1日"
    ensures JpDates(t, 0) == [Date(2019, 3, 1)] && IsoDates(t, 0) == []
  {
    var march := Date(2019, 3, 1);
    assert SkipSpaces(t, 5) == 5 && DigitsEnd(t, 5) == 6;
    assert SkipSpaces(t, 7) == 7 && DigitsEnd(t, 7) == 8;
    NatToStringRoundTrip(2019);
    NatToStringRoundTrip(3);
    NatToStringRoundTrip(1);
    assert t[0..4] == NatToString(2019) && t[5..6] == NatToString(3) && t[7..8] == NatToString(1);
    assert JpMatchAt(t, 0) == Some((march, 9));
    assert JpDates(t, 9) == [];
    IsoSkip(t, 0, |t|);
  }

  /** A Japanese date is returned zero-padded in ISO form. */
  lemma JapaneseDateExample(t: string)
    requires t == "2019年3月1日"
    ensures EarliestDate(t, true) == Some("2019-03-01")
    ensures EarliestDate(t, false) == Some("2019-03-01")
  {
    var march := Date(2019, 3, 1);
    JapaneseDateScan(t);
    assert Valid(march) && ValidOnly([march]) == [march];
    assert Candidates(t, true) == [march] && Candidates(t, false) == [march];
    assert Min([march]) == march;
    FormatExample();
  }

  /** Month and day are zero-padded to two digits. */
  lemma FormatExample()
    ensures Format(Date(2019, 3, 1)) == "2019-03-01"
  {
    assert NatToString(2019) == "2019";
    assert Pad2(3) == "03" && Pad2(1) == "01";
  }

  /** The JavLibrary scraper does not check ISO dates: a 30th of February
      is returned by it and dropped by the Gravurefit scraper. */
  lemma UncheckedIsoDate(t: string)
    requires t == "2019-02-30"
    ensures EarliestDate(t, false) == Some("2019-02-30")
    ensures EarliestDate(t, true).None?
  {
    var d := Date(2019, 2, 30);
    assert Format(d) == t;
    FormatRoundTrip(d);
    JpSkip(t, 0, |t|);
    assert !Valid(d);
  }
}
