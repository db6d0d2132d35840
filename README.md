# Gravure-JP scrapers: a Dafny model

This project models the core of two metadata scrapers for a media-library
host application. Both fetch a scene page through a FlareSolverr proxy (a
headless browser that answers bot challenges) and print one JSON record:

- `JavLibrary_python.py`: the JavLibrary scraper. It rewrites a scene URL onto
  each JavLibrary mirror in turn until a mirror answers without a challenge
  (`bypass_protection`), post-processes the scraped fields, and sends a
  Gravurefit scene URL through its own branch.
- `scrapers/Gravurefit_python.py`: the stand-alone Gravurefit scraper. It fetches
  through the proxy, parses the page, and writes the record plus debug copies.

The model covers four things:
- the proxy client, which normalises the many shapes of a proxy answer;
- the session cookie cache and its freshness rule;
- pruning of the debug files by age;
- the string and field logic that turns the strings a page query returned into the printed record.

The probe, the two scrapers' main flows and the debug-file directories are
classes whose methods change state in place. Everything else is pure
functions with lemmas.

Modules, one per file:

| module | models |
|---|---|
| `Wrappers` | `Option`, Python's `None`-or-value |
| `Json` | decoded JSON values, `dict.get` and Python's truthiness-driven `or` |
| `Text` | the `str` operations the scrapers use: `strip`, `replace`, `split`, `join`, `upper`, decimal formatting, and the last non-empty `/` segment |
| `Title` | `normalize_gravure_title` / `normalize_title`: drop a leading performer, a trailing `/ CODE`, a leading `CODE:` |
| `Dates` | `find_earliest_date_from_text` / `find_earliest_date_in_text`: scan for `YYYY年M月D日` and `YYYY-MM-DD`, keep the earliest |
| `Fields` | `extract_gravure_fields` after the XPath queries: first-match fields, cleaned lists, tag dedup, image choice and resolution of a leading `/`, code extraction |
| `Records` | the printed Gravurefit record, in both scrapers' shapes |
| `Flare` | `fetch_via_flaresolverr`: the request payload and the response normaliser |
| `Session` | `build_cookie_header_from_list`, the freshness rule, saving returned cookies |
| `Retention` | a debug directory with pruning by modification time, and the debug-file base name |
| `Gravurefit` | the Gravurefit scraper's `main` |
| `JavStrings` | JavLibrary string logic: URL stem and mirror rewrite, `getxpath`, `regexreplace`, `cleanup_title`, the cover rewrite, the details first-word strip, the tag split, the `jav_result` post-processing |
| `JavLibrary` | `bypass_protection` as a state machine over the mirrors, and the main flow up to the Gravurefit branch |

How Python is modelled:
- Python's `a or b` is `Json.Or`: it yields `b` whenever `a` is falsy, even when `b` is falsy too. So an empty `""` HTML can survive where the code lets it.
- The `in` test at `JavLibrary_python.py:350` runs on whatever JSON value the proxy returned:
  - on a string it is a substring test;
  - on a list it is membership;
  - on a dict it is a key test;
  - on a number or a boolean it raises `TypeError`. That line is outside the `try`, so the model ends the probe with the verdict `Crashed`.
- Returned cookies are saved as whatever JSON value the proxy gave. Building a header from a value that is not a list of dicts raises (`Session.HeaderOf`):
  - inside the probe's `try`, where the probe then returns `(None, None)`: the verdict `Aborted`;
  - outside any `try` in both Gravurefit branches, where the script ends with nothing printed.
- Regular expressions are written out by hand as index-based scanners with Python's leftmost-match semantics. `\d` and `\w` are ASCII. `\s` and `str.strip` use Python's full `str.isspace` set.

Edge cases the model follows as the code has them:
- The two date scanners treat an impossible ISO date differently. JavLibrary's ISO branch (`JavLibrary_python.py:393-398`) only converts the three numbers with `int()`, so it accepts `2019-02-30` (`Dates.UncheckedIsoDate`). The Gravurefit scraper's `datetime.fromisoformat` rejects it.
- The challenge test (`JavLibrary_python.py:350`) is outside the `try`. A number or boolean as the proxy's HTML makes it raise, and the model ends that run with no output (`JavLibrary.JavScraper.Run`).
- The debug files are named after the resolved URL only when the proxy's raw `solution` is a dict or absent. When it is truthy but not a dict, the Gravurefit scraper names no files at all, because the attribute error is swallowed (`Retention.GravureBasename`). The JavLibrary branch does the same for any non-dict `solution` (`Retention.JavBasename`).

## Model

| member | source | states |
|---|---|---|
| `Json.Or` | JavLibrary_python.py:330-332 | Python `or`: truthy exactly when either operand is; the first operand when it is truthy, else the second |
| `Text.Strip` | JavLibrary_python.py:282-284 | `str.strip()`: the result has no leading or trailing whitespace, and an already stripped string is unchanged |
| `Text.StripBounds` | JavLibrary_python.py:282-284 | `strip()` returns a slice of its input with only whitespace cut away at each end |
| `Text.StripUnique` | JavLibrary_python.py:282-284 | any slice that is stripped and has only whitespace outside it is exactly what `strip()` returns |
| `Text.StripSkip` | scrapers/Gravurefit_python.py:204 | whitespace skipped before a strip makes no difference to its result |
| `Text.ReplaceAbsent` | JavLibrary_python.py:315 | `str.replace` with a pattern that does not occur returns the string unchanged |
| `Text.Replace` | JavLibrary_python.py:315 | `str.replace`: every non-overlapping occurrence, from the left, replaced; stated by `ReplaceAbsent`, `ReplaceFirst` and `ReplaceRemoves` |
| `Text.ReplaceFirst` | JavLibrary_python.py:315 | `str.replace` rewrites the leftmost occurrence and carries on after it |
| `Text.ReplaceRemoves` | JavLibrary_python.py:742 | after every `c` is replaced by a text without `c`, no `c` is left |
| `Text.Split` | JavLibrary_python.py:742 | `str.split(sep)` gives at least one piece, and no piece contains the separator |
| `Text.SplitJoin` | JavLibrary_python.py:742 | joining the pieces of a split with the separator gives back the original string |
| `Text.SplitNoSep` | JavLibrary_python.py:742 | a string without the separator splits into itself alone |
| `Text.SplitAppend` | JavLibrary_python.py:742 | splitting `a + sep + b` gives the pieces of `a` followed by the pieces of `b` |
| `Text.SplitKeepsOut` | JavLibrary_python.py:742 | a character absent from the string is absent from every piece |
| `Text.LastSegmentNone` | JavLibrary_python.py:684-685 | there is no non-empty `/` segment exactly when the string is all slashes |
| `Text.LastSegment` | JavLibrary_python.py:684-685 | the last non-empty `/` segment, or None; stated by `LastSegmentNone`, `LastSegmentShape` and `LastSegmentOf` |
| `Text.LastSegmentShape` | JavLibrary_python.py:684-685 | the last segment is non-empty, has no `/`, and is the final run of the string apart from trailing slashes |
| `Text.LastSegmentOf` | JavLibrary_python.py:684-685 | the last segment of `a/seg` is `seg` |
| `Text.Upper` | JavLibrary_python.py:509 | `upper()` keeps the length and upper-cases each character in place |
| `Text.NatToStringRoundTrip` | JavLibrary_python.py:403 | the decimal rendering of a number consists of digits that read back as that number |
| `Title.DropPerformer` | JavLibrary_python.py:373 | when a dash follows at least one non-dash character, the stripped text after the first dash; otherwise the stripped input |
| `Title.DropTrailingCode` | JavLibrary_python.py:375 | when the text after the last `/` (past spaces) is a non-empty run of code characters, the stripped text before the whitespace ahead of that `/`; otherwise the stripped input |
| `Title.DropLeadingCode` | JavLibrary_python.py:377 | when a non-empty run of code characters is followed by `:` or `：`, the stripped text after the colon; otherwise the stripped input |
| `Title.NormalizeTitle` | JavLibrary_python.py:368-378 | a missing or empty title gives None; any title returned is non-empty and stripped |
| `Title.PlainTitleUnchanged` | scrapers/Gravurefit_python.py:199-209 | a stripped title with no dash, slash or colon passes through unchanged |
| `Title.DropPerformerOf` | JavLibrary_python.py:372-373 | `name - rest` loses the performer and keeps `rest`, stripped |
| `Title.DropTrailingCodeOf` | JavLibrary_python.py:374-375 | `head / CODE` keeps only `head` |
| `Title.DropLeadingCodeOf` | JavLibrary_python.py:376-377 | `CODE：rest` keeps only `rest`, stripped |
| `Title.AllMarkersRemoved` | JavLibrary_python.py:368-378 | `name - CODE：title / CODE2` normalises to exactly `title` |
| `Title.FullTitleExample` | JavLibrary_python.py:372-377 | the documented example `本田瞳 - LULU-255：Scene Title / LULU255` normalises to `Scene Title` |
| `Dates.ValidOnly` | JavLibrary_python.py:384-390 | keeps exactly the matches that are calendar dates |
| `Dates.JpDates` | JavLibrary_python.py:384 | `finditer` with the Japanese pattern: the dates of its matches, left to right, each search resuming after the previous match |
| `Dates.IsoDates` | JavLibrary_python.py:393 | `re.findall` with the ISO pattern; the formatting of a date is read back by it (`FormatRoundTrip`) |
| `Dates.Format` | JavLibrary_python.py:403 | `YYYY-MM-DD` with month and day zero-padded; read back exactly by the ISO scan (`FormatRoundTrip`) |
| `Dates.EarliestDate` | JavLibrary_python.py:380-403 | None exactly when no date was kept, otherwise the formatted earliest kept date (`EarliestNone`, `EarliestIsMinimal`, `MinUnique`) |
| `Dates.Min` | JavLibrary_python.py:401-402 | the first of the sorted dates: a member of the list that is not after any other |
| `Dates.Collect` | JavLibrary_python.py:383-398 | the collecting loop keeps the valid matches, or all of them when the scraper does not validate |
| `Dates.Smallest` | JavLibrary_python.py:401-402 | the loop finds the earliest date of a non-empty list |
| `Dates.FindEarliestDate` | JavLibrary_python.py:380-403 | the method computes exactly the earliest-date specification |
| `Dates.EarliestNone` | JavLibrary_python.py:399-400 | no date is reported exactly when no match was kept |
| `Dates.EarliestIsMinimal` | JavLibrary_python.py:399-403 | the reported date is the formatting of a kept match that is not after any other kept match |
| `Dates.MinUnique` | JavLibrary_python.py:401-402 | the earliest date is unique, whatever order the matches came in |
| `Dates.NotAfterAntisymmetric` | JavLibrary_python.py:401 | two dates each not after the other are equal |
| `Dates.Pad2RoundTrip` | JavLibrary_python.py:403 | `{:02d}` of a number below 100 is two digits that read back as the number |
| `Dates.JpDatesSpacing` | JavLibrary_python.py:384-390 | the Japanese matches do not overlap and each spans at least nine characters, so a text of length n gives at most n/9 dates |
| `Dates.IsoDatesSpacing` | JavLibrary_python.py:393-399 | the ISO matches do not overlap and each spans ten characters |
| `Dates.FormatRoundTrip` | JavLibrary_python.py:392-403 | a formatted four-digit-year date is found again, exactly, by the ISO scan |
| `Dates.JapaneseDateExample` | scrapers/Gravurefit_python.py:211-230 | `2019年3月1日` yields `2019-03-01` in both scrapers |
| `Dates.UncheckedIsoDate` | JavLibrary_python.py:392-398 | `2019-02-30` is reported by the JavLibrary scraper and rejected by Gravurefit's validating parser |
| `Fields.FirstStripped` | JavLibrary_python.py:418-419 | the stripped first query result, present exactly when the query returned something |
| `Fields.NonEmptyStripped` | JavLibrary_python.py:445 | every kept name is non-empty and stripped, and there are no more of them than inputs |
| `Fields.NonEmptyStrippedMembers` | JavLibrary_python.py:445 | a name is kept exactly when it is the non-empty strip of some input |
| `Fields.NonEmptyStrippedIdempotent` | JavLibrary_python.py:445 | cleaning a cleaned list changes nothing |
| `Fields.CleanListFixed` | JavLibrary_python.py:445 | a list of non-empty stripped names is left as it is |
| `Fields.Dedup` | JavLibrary_python.py:461-468 | the same set of tags, with no tag twice |
| `Fields.DedupTags` | JavLibrary_python.py:461-468 | the seen-set loop computes the order-preserving dedup |
| `Fields.DedupDistinct` | JavLibrary_python.py:461-468 | a list without duplicates is unchanged |
| `Fields.DedupIdempotent` | JavLibrary_python.py:461-468 | deduplicating twice is deduplicating once |
| `Fields.DedupPrefix` | JavLibrary_python.py:461-468 | order of first appearance: the dedup of a prefix is a prefix of the dedup of the whole |
| `Fields.DedupExample` | scrapers/Gravurefit_python.py:271-278 | `["A","B","A","C"]` becomes `["A","B","C"]` |
| `Fields.PickImage` | JavLibrary_python.py:470-485 | the photopc image if any, else the package or video image, else og:image |
| `Fields.Absolutize` | JavLibrary_python.py:486-493 | an empty or missing image gives None; a result never starts with `/` and ends with the original; a URL not starting with `/` is kept |
| `Fields.AbsolutizeIdempotent` | JavLibrary_python.py:486-490 | resolving the leading `/` of an already resolved image changes nothing |
| `Fields.AbsolutizeRelative` | scrapers/Gravurefit_python.py:293-297 | `//x` becomes `https://x` and `/x` becomes `https://www.gravurefit.com/x` |
| `Fields.CodeMatchShape` | JavLibrary_python.py:129 | a code match is 3-6 ASCII letters, a dash and 2-6 digits |
| `Fields.UpperCode` | JavLibrary_python.py:509 | upper-casing keeps that shape and makes the letters capitals |
| `Fields.CodeSearch` | JavLibrary_python.py:507 | `re.search` finds the leftmost position where the code pattern matches, or reports that it matches nowhere |
| `Fields.CodeSearchAt` | JavLibrary_python.py:507 | the search returns the first matching position and its match |
| `Fields.CodeOf` | JavLibrary_python.py:502-516 | no canonical URL gives no code |
| `Fields.CodeOfMatch` | JavLibrary_python.py:505-509 | when the pattern matches, the code has the code shape in capitals |
| `Fields.CodeOfFallback` | JavLibrary_python.py:510-513 | otherwise the code is present exactly when the URL has a non-empty `/` segment, and it has no `/` |
| `Fields.CodeOfScenePath` | JavLibrary_python.py:502-516 | `/videos/lulu-255` gives `LULU-255` |
| `Fields.CodeOfLongPrefix` | JavLibrary_python.py:129 | the lazy prefix makes the match start as early as possible: `abcdefg-123` gives `BCDEFG-123` |
| `Fields.ExtractFields` | JavLibrary_python.py:405-413 | fields are extracted exactly when the page parses |
| `Fields.ExtractGravureFields` | JavLibrary_python.py:405-517 | the method computes the extraction specification |
| `Fields.ExtractedFieldsWellFormed` | JavLibrary_python.py:414-517 | performers and tags non-empty and stripped; tags distinct and exactly the cleaned theme and play links; the image URL does not start with `/`; raw title, details and studio stripped |
| `Fields.ThemesFirst` | JavLibrary_python.py:449-468 | the deduplicated themes come first among the tags |
| `Records.OptStr` | scrapers/Gravurefit_python.py:391-399 | an absent field prints as null, a present one as its string |
| `Records.GravureRecord` | scrapers/Gravurefit_python.py:391-402 | the Gravurefit scraper's record, missing lists printed as `[]`; stated by the `GravureRecord…` lemmas below |
| `Records.JavGravureRecord` | JavLibrary_python.py:697-707 | the JavLibrary branch's record, without the raw answer and with missing lists as null; compared with the other by `RecordsAgreeOnPage` and `RecordsDifferUnparsed` |
| `Records.GetList` | JavLibrary_python.py:701-702 | a missing extraction gives null for a list field, otherwise the list |
| `Records.GravureRecordKeys` | scrapers/Gravurefit_python.py:391-402 | the record has exactly the nine output keys and `_flaresolverr_raw` |
| `Records.GravureRecordOfPage` | scrapers/Gravurefit_python.py:391-399 | each scalar field of the record is the extracted field |
| `Records.GravureRecordListsOfPage` | scrapers/Gravurefit_python.py:395-401 | performers and tags are the extracted lists, `url` is the scene URL, `_flaresolverr_raw` the raw answer |
| `Records.GravureRecordUnparsed` | scrapers/Gravurefit_python.py:382-402 | with nothing parsed, the scalars are null and the lists are empty |
| `Records.RecordsAgreeOnPage` | JavLibrary_python.py:697-707 | on a parsed page the JavLibrary branch prints the Gravurefit record without `_flaresolverr_raw` |
| `Records.RecordsDifferUnparsed` | JavLibrary_python.py:697-707 | with nothing parsed, the JavLibrary branch prints null lists where Gravurefit prints empty ones |
| `Flare.MergeHeaders` | JavLibrary_python.py:142-144 | caller headers are kept; a `Cookie` header is added exactly when a non-empty cookie header is given and none is present |
| `Flare.Payload` | JavLibrary_python.py:146-148 | `cmd`, `url`, `maxTimeout`, plus `headers` exactly when the merged headers are non-empty |
| `Flare.Solution` | JavLibrary_python.py:165 | `data.get("solution") or data.get("response") or data` |
| `Flare.FirstPass` | JavLibrary_python.py:167-184 | the first pass over the chosen solution: an embedded response dict, an embedded string, or the solution's own keys; stated through `HtmlIsFirstCandidate` |
| `Flare.Retry` | JavLibrary_python.py:186-193 | the second pass over the top-level `response`, taken only without truthy HTML; stated through `HtmlIsFirstCandidate` and `ShapeInvariance` |
| `Flare.Normalise` | JavLibrary_python.py:160-195 | `raw` is the decoded body and `ok` is the truthiness of the HTML found; a non-dict body yields nothing |
| `Flare.Fetch` | JavLibrary_python.py:150-158 | a transport error and a non-JSON body each give their fixed failure records; a JSON body is normalised |
| `Flare.HtmlIsFirstCandidate` | JavLibrary_python.py:164-193 | the HTML is the first truthy candidate, in the source's order over the response shapes, and `ok` holds exactly when there is one |
| `Flare.ShapeInvariance` | JavLibrary_python.py:164-193 | the nested `solution.response.data` shape and the flat `response` string give the same HTML |
| `Session.Pairs` | JavLibrary_python.py:217-222 | one `name=value` pair per usable cookie at most |
| `Session.Entries` | JavLibrary_python.py:218-220 | iterating the saved cookies: a list of dicts gives its entries, `""` and `{}` give none, anything else raises |
| `Session.HeaderOf` | JavLibrary_python.py:216-223 | raises exactly when iterating the entries does, and is otherwise the header of the entries |
| `Session.CookieHeader` | JavLibrary_python.py:217-223 | `"; ".join(parts) if parts else None`; stated by `CookieHeaderNone`, `CookieHeaderSnoc`, `CookieHeaderNotEmpty` and `CookieHeaderExample` |
| `Session.BuildCookieHeader` | JavLibrary_python.py:216-223 | the loop builds the header of the saved cookie value, and raises exactly where iterating it or calling `.get` on an item would |
| `Session.PairsEmpty` | JavLibrary_python.py:221 | no pairs exactly when no cookie has a truthy name and a non-None value |
| `Session.CookieHeaderNone` | JavLibrary_python.py:223 | no header exactly when no cookie is usable |
| `Session.CookieHeaderSnoc` | JavLibrary_python.py:218-223 | an unusable cookie adds nothing; a usable one is appended after `; ` |
| `Session.CookieHeaderNotEmpty` | JavLibrary_python.py:223 | a header, when there is one, is non-empty |
| `Session.CookieHeaderExample` | JavLibrary_python.py:216-223 | a nameless cookie and a None value are skipped: `cf=abc; lang=ja` |
| `Session.TruthyHeaderIff` | JavLibrary_python.py:218-220 | a truthy saved value gives a header exactly when it is a list of dicts |
| `Session.HeaderThrowsOnNonDict` | JavLibrary_python.py:218-219 | one item that is not a dict makes the whole header raise |
| `Session.HeaderOfDicts` | JavLibrary_python.py:217-223 | one more dict appends its pair after `; ` when it is usable, and changes nothing otherwise |
| `Session.Fresh` | JavLibrary_python.py:321-322 | a session is fresh when now minus its timestamp (0 when missing) is at most the age limit |
| `Session.SessionCookieHeader` | JavLibrary_python.py:319-324 | a header, or a raise, comes only from a saved session that is fresh, and a header is never empty |
| `Session.FreshnessBoundary` | JavLibrary_python.py:322-323 | a session exactly the age limit old is reused, one second older is not; a missing timestamp counts as 0 |
| `Session.SessionCookieHeaderIff` | JavLibrary_python.py:319-324 | a header is sent exactly when the saved session is fresh, its cookies can be iterated as dicts and one of them is usable |
| `Session.SessionAfter` | JavLibrary_python.py:335-337 | truthy returned cookies replace the session, stamped now; otherwise the session is kept |
| `Session.SavedSessionIsFresh` | JavLibrary_python.py:335-337 | cookies saved now give the header on every request within the age limit, and building it raises exactly when they are not a list of dicts |
| `Retention.Directory.Prune` | JavLibrary_python.py:226-235 | the directory afterwards holds exactly the files not older than the cutoff, plus those whose removal failed |
| `Retention.Pruned` | JavLibrary_python.py:226-235 | the files a prune leaves; stated by `PrunedExactly`, `PruneBoundary`, `PruneIdempotent` and `PruneMonotone` |
| `Retention.Directory.Save` | scrapers/Gravurefit_python.py:96-104 | the file at the path is replaced by the body, stamped now; nothing else changes |
| `Retention.PrunedExactly` | JavLibrary_python.py:232-233 | a file survives exactly when it is not older than the cutoff or its removal failed, and it survives unchanged |
| `Retention.PruneBoundary` | JavLibrary_python.py:227-232 | a file exactly `days` old survives and one a second older is removed |
| `Retention.PruneIdempotent` | JavLibrary_python.py:226-235 | pruning twice is pruning once |
| `Retention.PruneMonotone` | JavLibrary_python.py:226-235 | a later cutoff never keeps more files |
| `Retention.SavedFileSurvives` | scrapers/Gravurefit_python.py:339-411 | a file written in this run survives a prune at the same moment |
| `Retention.SegmentOrResult` | scrapers/Gravurefit_python.py:364-365 | the base name is non-empty and has no `/` |
| `Retention.UrlBasename` | JavLibrary_python.py:683-685 | a string URL has a base name; any other value fails and gives none |
| `Retention.GravureBasename` | scrapers/Gravurefit_python.py:356-370 | a truthy non-dict `solution` gives no base name; a missing or falsy one falls back to the scene URL |
| `Retention.JavBasename` | JavLibrary_python.py:678-690 | a falsy or non-dict raw answer, or a non-dict `solution`, gives no base name |
| `Retention.BasenamesAgree` | JavLibrary_python.py:680-685 | on a non-empty dict answer whose `solution` is absent or a dict, both scrapers choose the same base name |
| `Retention.BasenamesDifferOnNullSolution` | JavLibrary_python.py:683 | a null `solution` makes the two scrapers disagree |
| `Retention.BasenameOfPage` | scrapers/Gravurefit_python.py:364-365 | the base name of `a/seg` and of `a/seg/` is `seg` |
| `Retention.BasenameFallback` | scrapers/Gravurefit_python.py:365 | a URL of slashes only is named `result` |
| `Gravurefit.BrowserHeaders` | scrapers/Gravurefit_python.py:64-69 | the browser headers carry the user agent and the site referer, and no cookie |
| `Gravurefit.NoUrl` | scrapers/Gravurefit_python.py:332-336 | a missing or empty `url` is a run without a URL |
| `Gravurefit.Cutoff` | scrapers/Gravurefit_python.py:339-341 | the prune cutoff `now - days * 86400` |
| `Gravurefit.Scraped` | scrapers/Gravurefit_python.py:343-414 | what a run with a URL does after the prunes: a raising header ends it with nothing more done; otherwise the request, the record, the session and both directories |
| `Gravurefit.ParsedOf` | scrapers/Gravurefit_python.py:381-388 | a page is parsed only when the answer is ok with truthy HTML, and then exactly when it parses |
| `Gravurefit.ParseAnswer` | scrapers/Gravurefit_python.py:381-388 | the method computes the parse specification |
| `Gravurefit.Scraper.PruneBoth` | scrapers/Gravurefit_python.py:339-341 | both debug directories are pruned with the same cutoff |
| `Gravurefit.Scraper.SaveRaw` | scrapers/Gravurefit_python.py:355-370 | the raw answer is saved as `<basename>_flaresolverr_raw.json` when there is a base name; the outputs are untouched |
| `Gravurefit.Scraper.SaveOutput` | scrapers/Gravurefit_python.py:404-411 | the record is saved as `<basename>.json` when there is a base name; the raws are untouched |
| `Gravurefit.Scraper.FetchScene` | scrapers/Gravurefit_python.py:350-379 | sends the payload with the given cookie header, saves the raw answer under the base name and stores returned cookies |
| `Gravurefit.Scraper.Finish` | scrapers/Gravurefit_python.py:381-414 | prints the record of the parsed answer and saves it under the base name |
| `Gravurefit.Scraper.Scrape` | scrapers/Gravurefit_python.py:352-414 | from a built cookie header: the request, the printed record of the parsed answer, the session and both directories |
| `Gravurefit.Scraper.FetchAndRecord` | scrapers/Gravurefit_python.py:343-414 | the run after the prunes, as `Scraped` states it |
| `Gravurefit.Scraper.Run` | scrapers/Gravurefit_python.py:323-414 | no URL prints `{}` and touches nothing. Otherwise both directories are pruned; then either the saved session's header raises and nothing more happens, or the request, the printed record, the session and both directories afterwards are stated |
| `Gravurefit.OutputKeptUntilExpiry` | scrapers/Gravurefit_python.py:404-408 | a saved record survives, unchanged, every prune within the retention window |
| `Gravurefit.FilesNamedAfterScene` | scrapers/Gravurefit_python.py:364-407 | without a usable `solution`, the debug files are named after the scene URL's last segment |
| `JavStrings.DropUnsafe` | JavLibrary_python.py:310 | `urlparse` deletes tab, CR and LF |
| `JavStrings.Netloc` | JavLibrary_python.py:310 | the network location contains no `/`, `?`, `#`, tab, CR or LF |
| `JavStrings.NetlocOfHttps` | JavLibrary_python.py:310 | the netloc of `https://host/path` is `host` |
| `JavStrings.NetlocWithoutAuthority` | JavLibrary_python.py:310 | a URL without `//` has an empty netloc |
| `JavStrings.Stem` | JavLibrary_python.py:310 | removing `www.` and `.com` never lengthens the host |
| `JavStrings.StemOfPlain` | JavLibrary_python.py:310 | a host with neither `w` nor `.` is its own stem |
| `JavStrings.StemOfHost` | JavLibrary_python.py:310 | the stem of `www.name.com` is `name` |
| `JavStrings.SiteUrlOfHost` | JavLibrary_python.py:315 | when the stem occurs only in the host, the mirror URL swaps that name for the mirror and keeps everything else |
| `JavStrings.SiteUrl` | JavLibrary_python.py:315 | `url.replace(url_domain, site)`; stated by `SiteUrlOfHost`, `SiteUrlOfGravurefit` and `SiteUrlWithoutHost` |
| `JavStrings.SiteUrlOfGravurefit` | JavLibrary_python.py:310-315 | the Gravurefit scene URL is rewritten to `https://www.<mirror>.com/videos/lulu-255` |
| `JavStrings.SiteUrlWithoutHost` | JavLibrary_python.py:315 | a URL without a host has an empty stem, and `replace("", site)` puts the mirror name between all its characters |
| `JavStrings.JavCover` | JavLibrary_python.py:637-642 | the cover is `https:` plus the URL with every scheme removed, and never a placeholder image |
| `JavStrings.RemoveSchemes` | JavLibrary_python.py:638 | `re.sub(r"(http:\|https:)", "", …)`: never longer than its input; text without a colon is unchanged, and a leading scheme is dropped |
| `JavStrings.CoverOfPlain` | JavLibrary_python.py:638-639 | a cover with or without a scheme ends up `https:` plus the rest |
| `JavStrings.CoverPlaceholder` | JavLibrary_python.py:640-642 | a `noimage` or `now_printing.jpg` cover is dropped |
| `JavStrings.StripFirstWord` | JavLibrary_python.py:649 | the details are a suffix of the query text |
| `JavStrings.StripCode` | JavLibrary_python.py:649 | `CODE rest` loses the code and the space before the rest |
| `JavStrings.RemoveMarks` | JavLibrary_python.py:265 | brackets and double quotes are removed |
| `JavStrings.SubWords` | JavLibrary_python.py:240-244 | each maximal word run looked up in the banned-word table; stated by `SubWordsIdentity` and `SubWordsWholeWord` |
| `JavStrings.RegexReplace` | JavLibrary_python.py:262-265 | banned words replaced, then brackets and quotes removed; stated by `RegexReplaceEmptyTable` |
| `JavStrings.RemoveMarksNone` | JavLibrary_python.py:265 | a text without them is unchanged |
| `JavStrings.SubWordsIdentity` | JavLibrary_python.py:262-264 | a banned-word table that maps every word to itself changes nothing |
| `JavStrings.SubWordsWholeWord` | JavLibrary_python.py:240-244 | a whole banned word at the start is replaced by its substitute |
| `JavStrings.RegexReplaceEmptyTable` | JavLibrary_python.py:262-265 | with no banned words only the marks go, and applying it twice is applying it once |
| `JavStrings.CleanupTitle` | JavLibrary_python.py:246-248 | no title stays no title |
| `JavStrings.CleanupSteps` | JavLibrary_python.py:252-259 | the replacement table walked in order; stated by `CleanupUntouched`, `CleanupCleaned` and `CleanupOneEntry` |
| `JavStrings.CleanTitle` | JavLibrary_python.py:246-260 | the loop over the replacement table computes the cleanup specification |
| `JavStrings.CleanupUntouched` | JavLibrary_python.py:252-260 | a title containing no key is returned as it is, not even stripped |
| `JavStrings.CleanupCleaned` | JavLibrary_python.py:252-259 | once any key matched, the title is marked cleaned and returned stripped |
| `JavStrings.CleanupOneEntry` | JavLibrary_python.py:252-259 | one matching entry gives the stripped replacement |
| `JavStrings.StrippedTexts` | JavLibrary_python.py:278-284 | each query result becomes its stripped text |
| `JavStrings.Filled` | JavLibrary_python.py:287 | no empty string remains |
| `JavStrings.QueryParts` | JavLibrary_python.py:272-275 | the loop over the `|` parts gathers their results in order |
| `JavStrings.StripResults` | JavLibrary_python.py:278-284 | the loop computes the stripped texts |
| `JavStrings.KeepFilled` | JavLibrary_python.py:287 | the loop computes the filter |
| `JavStrings.GetXPath` | JavLibrary_python.py:267-288 | the method computes the `getxpath` specification: None for no query |
| `JavStrings.XPathResult` | JavLibrary_python.py:267-288 | None for a missing or empty query, otherwise the non-empty stripped texts of its results; stated by `FilledStripped` and `XPathUnion` |
| `JavStrings.FilledStripped` | JavLibrary_python.py:278-287 | `getxpath` cleans its results the way the Gravurefit extractor cleans its lists |
| `JavStrings.ItemsAsParts` | JavLibrary_python.py:272-277 | a query without `|` is the single-part case of the split |
| `JavStrings.GatherAppend` | JavLibrary_python.py:273-275 | the results of consecutive parts are concatenated |
| `JavStrings.XPathUnion` | JavLibrary_python.py:271-275 | `a|b` gives the results of `a` followed by those of `b` |
| `JavStrings.StripAll` | JavLibrary_python.py:742 | every piece is stripped |
| `JavStrings.TagSplitClean` | JavLibrary_python.py:742 | every tag produced has no `,` and no `·` and is stripped |
| `JavStrings.TagSplit` | JavLibrary_python.py:742 | the tag names split at `,` and `·` and stripped; stated by `TagSplitClean`, `TagSplitOne` and `TagSplitTwo` |
| `JavStrings.TagSplitOne` | JavLibrary_python.py:742 | a name without a separator gives itself, stripped |
| `JavStrings.TagSplitTwo` | JavLibrary_python.py:742 | a name with one `,` or `·` gives its two stripped halves |
| `JavStrings.PostProcess` | JavLibrary_python.py:634-654 | `jav_result` keeps exactly the eleven query keys |
| `JavStrings.PostProcessTitleLine` | JavLibrary_python.py:648-652 | the title is the first ID cell as it was read, and the details are the `h3` line `CODE text` without its code |
| `JavStrings.PostProcessPlaceholder` | JavLibrary_python.py:637-642 | a placeholder cover becomes null |
| `JavLibrary.Probing` | JavLibrary_python.py:312-363 | the probe stops at the first mirror that is neither challenged nor rejected. It selects a mirror only on an accepted answer, crashes only on a raising one, aborts only where the cookie header raised (that request is not sent), and is exhausted exactly when every mirror moved on |
| `JavLibrary.ReplyOf` | JavLibrary_python.py:330-332 | the HTML and status the probe writes into the response object, `""` and 200 or 0 by `ok` when missing |
| `JavLibrary.PhraseIn` | JavLibrary_python.py:350-351 | Python's `in`: a substring test on a string, membership in a list, a key test on a dict, a TypeError otherwise |
| `JavLibrary.StepOf` | JavLibrary_python.py:350-361 | the challenge test raises exactly on HTML that is not a string, list or dict; on a string it is a challenge exactly when a phrase occurs; a mirror is taken only with status 200 and rejected only without it |
| `JavLibrary.Request` | JavLibrary_python.py:319-329 | the request for a mirror raises exactly when the session's header does; otherwise it is a `request.get` of the rewritten URL |
| `JavLibrary.Before` | JavLibrary_python.py:314-353 | the probe's state before the `i`-th mirror: `i` requests sent, the session and the flag they left |
| `JavLibrary.StepAt` | JavLibrary_python.py:317-355 | how the `i`-th attempt ends: unsent when the header built from the session saved by then raises, otherwise as its answer says |
| `JavLibrary.StopAt` | JavLibrary_python.py:314-361 | the index of the first attempt that ends the loop |
| `JavLibrary.StopAtFirst` | JavLibrary_python.py:314-361 | that index is unique |
| `JavLibrary.FirstAcceptedSelected` | JavLibrary_python.py:354-361 | after challenged or rejected attempts, the first accepted mirror is selected |
| `JavLibrary.FirstUnsentAborts` | JavLibrary_python.py:345-347 | the first attempt whose header raises ends the probe with `(None, None)`: nothing after it is tried and its own request is not sent |
| `JavLibrary.NonDictCookieAborts` | JavLibrary_python.py:218-219 | cookies saved as a list with a non-dict item make the next attempt raise, so the probe aborts right after the mirror that returned them |
| `JavLibrary.ChallengeSeen` | JavLibrary_python.py:350-353 | the protection flag after a prefix is set exactly when a challenge was seen in it |
| `JavLibrary.ProtectionIffChallenged` | JavLibrary_python.py:312-353 | the final flag is set exactly when a tried mirror showed a challenge page |
| `JavLibrary.SentIsSessionBefore` | JavLibrary_python.py:319-337 | each attempt sends the session stored by the attempts before it |
| `JavLibrary.SentOfProbe` | JavLibrary_python.py:319-329 | every request sent was built, without a raise, from the session saved before it |
| `JavLibrary.FirstRequestUsesSavedSession` | JavLibrary_python.py:319-329 | the first mirror is asked with the saved session; no request at all is sent exactly when that session's header raises |
| `JavLibrary.CookiesCarriedForward` | JavLibrary_python.py:319-337 | cookies returned by one attempt are sent with the next, which is sent only when they are a list of dicts |
| `JavLibrary.SessionKept` | JavLibrary_python.py:335-337 | attempts that return no cookies leave the session as it was |
| `JavLibrary.SessionKeptWithoutCookies` | JavLibrary_python.py:335-337 | a probe whose answers carry no cookies keeps the saved session |
| `JavLibrary.RaisesIff` | JavLibrary_python.py:350-351 | the challenge test raises exactly on truthy numeric or boolean HTML |
| `JavLibrary.TransportErrorRejected` | JavLibrary_python.py:329-355 | a proxy that cannot be reached yields status 0, and the mirror is passed over |
| `JavLibrary.NonJsonNeverSelected` | JavLibrary_python.py:329-355 | a non-JSON proxy body is never selected; it is a challenge exactly when it shows a challenge phrase |
| `JavLibrary.StatusFromOk` | JavLibrary_python.py:332 | with no status, an answer with HTML counts as 200 and is accepted; one without counts as 0 |
| `JavLibrary.GravurefitProbe` | JavLibrary_python.py:310-329 | a request for the Gravurefit scene URL, when it is sent, asks for the same path on `www.<mirror>.com` |
| `JavLibrary.ResponseHtml.constructor` | JavLibrary_python.py:105-109 | the shared response object starts empty with status 0 |
| `JavLibrary.JavScraper.Attempt` | JavLibrary_python.py:315-337 | one attempt: either its cookie header raises and nothing changes, or the request it sends, the response object it fills, the session it stores and the step it takes |
| `JavLibrary.JavScraper.ProbeSite` | JavLibrary_python.py:314-355 | one loop round advances the state machine by one mirror and sets the protection flag on a challenge |
| `JavLibrary.JavScraper.BypassProtection` | JavLibrary_python.py:302-363 | verdict, session, protection flag and sent sessions are those of the probe specification; the response object holds the last fetched mirror's answer, and is untouched when no request was sent |
| `JavLibrary.JavScraper.SaveRaw` | JavLibrary_python.py:683-688 | the raw answer is saved under the base name when there is one |
| `JavLibrary.JavScraper.ProbeStep` | JavLibrary_python.py:547-562 | the probe runs exactly for a URL off the mirrors, with the probe specification's verdict, session and flag, and its answer becomes the page exactly when a mirror was selected with truthy HTML |
| `JavLibrary.JavScraper.SaveOutput` | JavLibrary_python.py:709-715 | the record is saved under the base name when there is one |
| `JavLibrary.JavScraper.GravureBranch` | JavLibrary_python.py:669-718 | when the saved session's header raises the script ends, changing and printing nothing; otherwise the request with the user agent and fresh cookies, the printed record, both debug files and the stored session |
| `JavLibrary.JavScraper.Run` | JavLibrary_python.py:523-718 | prunes the raws; probes the mirrors for a URL off them, with the probe's verdict and protection flag; uses the page only when a mirror was selected with HTML. A Gravurefit URL whose probe did not crash, with a page or without a title, gets the Gravurefit branch's request, record, session and files; any other run keeps the probe's session, the pruned raws and the outputs |
| `JavLibrary.Branched` | JavLibrary_python.py:669-718 | what the Gravurefit branch does from a session and two directories, as `GravureBranch` and `Run` state it |

## Left out

- HTML parsing and XPath evaluation belong to lxml. A parsed page is the list of strings each query returned (`Fields.Queries`, `JavStrings.PageQueries`); the parser is a function parameter (`parse`, `query`).
- Network I/O becomes an input: the proxy's outcome (`HttpOutcome`) for the Gravurefit fetches, and one `FetchResult` per mirror for the probe.
- The clock is one integer `now` per run, in seconds; the float `time.time()` is not modelled.
- File I/O:
  - a directory is a map from path to (modification time, JSON body);
  - failed removals are the `failing` parameter;
  - a failing write is not modelled;
  - the session file is already decoded (`Session.Stored`), and its `cookies` are kept as the raw JSON value, so a saved value that is not a list of dicts is modelled;
  - a session file that is not a JSON object, or whose `timestamp` is not a number, is not modelled: `session_data.get` or `int(ts)` raises there.
- Background threads are not modelled: the cover download and the performer-alias lookup (`JavLibrary_python.py:644-645`, `659-662`).
- Logging is not modelled.
- JSON numbers are integers (`Json.Num`); floats are not modelled. So the model does not capture that:
  - a status of `200.0` equals 200;
  - `0.0` as the HTML is falsy;
  - `int(ts)` truncates a float timestamp;
  - a float cookie value renders as, say, `1.5`.
- The Gravurefit scraper prints `{}` for a fragment that is not JSON, as it does for a fragment without a URL. The model starts from the decoded `url` (`Gravurefit.NoUrl`).
- `re` uses ASCII `\d`, `\w` and case mapping, whereas Python's are Unicode. A cookie name or value that is a list or dict renders as `""` in a header, not Python's `repr`.
- The `ValueError` that `urlparse` raises on an unbalanced `[` in a host is not modelled.
- The plain-`requests` branch of `bypass_protection` (`JavLibrary_python.py:339-344`) is dead code, because `FLARESOLVERR_ENABLED` is the constant `True`.
- The `searchName` and `validSearch` flows are not modelled. They call functions that `JavLibrary_python.py` does not define: `send_request`, `jav_search`, `jav_search_by_name` and `buildlist_tagperf`.
- A URL on a JavLibrary mirror (`JavLibrary_python.py:552`) and the search by title (`565`) call the undefined `send_request`. The model ends such a run there, after the prune and the probe, with nothing printed (`JavLibrary.JavScraper.Run`).
- The final JavLibrary assembly (`JavLibrary_python.py:720-750`) is modelled only in its tag split (`JavStrings.TagSplit`), because it depends on `buildlist_tagperf`.
- The `LEGACY_FIELDS`/`KEEP_CODE_IN_TITLE` branches that these constants switch off are left out: the title code removal on line 654 and the non-legacy XPaths.
- The replacement tables `BANNED_WORDS` and `REPLACE_TITLE` are parameters, so the lemmas hold for any table.
- The `SITE_JAVLIB` mirror list is the constant `JavStrings.Sites`.
- `JavLibrary.JavScraper.BypassProtection` does not return the list of request bodies it sent. The request of each attempt is stated by `JavLibrary.JavScraper.Attempt` and `JavLibrary.JavScraper.ProbeSite`, and the sessions they carried by the ghost result `sent`.
- JavLibrary.JavScraper.Run: when a mirror page was selected, `lxml.html.fromstring` (`JavLibrary_python.py:632`) and the post-processing after it run before the Gravurefit branch, outside any `try`. A page they reject would end the script there, and the model lets the branch run whatever the page holds, because the parser is not modelled.
- JavLibrary.JavScraper.Run: `titled` stands for the truthiness of the cleaned fragment title; `cleanup_title` itself is `JavStrings.CleanTitle`.
- `JavLibrary.JavScraper.Run` stops at the Gravurefit branch. What it does with a selected page is left out: post-processing the queries is `JavStrings.PostProcess`, but the queries come from lxml.
- `JavStrings.PostProcess` states only its key set. Its values are stated per field by `JavStrings.PostProcessTitleLine` and `JavStrings.PostProcessPlaceholder`, and by the lemmas about `JavCover` and `StripFirstWord`.
- The `typing` annotations (`Optional`, `List`) are not modelled. `JavLibrary_python.py` uses them, from line 134 on, without importing them. Python evaluates an annotation when its `def` runs, so that file as written stops with a `NameError` while loading. The model treats the annotations as absent.
- Dates outside years 1 to 9999, which Python's date types reject, are invalid in the model too. The year prints without padding, as Python's f-string and glibc's `strftime` do.
