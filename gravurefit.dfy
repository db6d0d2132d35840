/**
 * The Gravurefit scraper's `main`: one run, from the scene URL of the
 * input fragment to the printed record, with the state it keeps between
 * runs — the raw-answer directory, the output directory and the saved
 * proxy session. The clock, the proxy's answer and the HTML parser are
 * inputs.
 */
module Gravurefit {

  import opened Wrappers
  import opened Json
  import opened Session
  import opened Flare
  import opened Retention
  import opened Fields
  import opened Records

  /** The settings read from the environment, and the browser-like
      headers built from its user agent. */
  datatype Config = Config(retentionDays: int, cookieAge: int, timeoutMs: int, headers: map<string, string>)

  const DefaultUserAgent: string :=
    "Mozilla/5.0 (X11; Linux x86_64) AppleWebKit/537.36 (KHTML, like Gecko) Chrome/142.0.0.0 Safari/537.36"

  /** The settings when the environment sets none. */
  function DefaultConfig(): Config {
    Config(10, 3600, 60000, BrowserHeaders(DefaultUserAgent))
  }

  /** The browser-like headers sent through the proxy. */
  function BrowserHeaders(userAgent: string): (h: map<string, string>)
    ensures "User-Agent" in h && h["User-Agent"] == userAgent
    ensures "Referer" in h && h["Referer"] == Site + "/"
    ensures "Cookie" !in h
  {
    map[
      "User-Agent" := userAgent,
      "Accept" := "text/html,application/xhtml+xml,application/xml;q=0.9,image/avif,image/webp,image/apng,*/*;q=0.8",
      "Accept-Language" := "ja-JP,ja;q=0.9,en-US;q=0.8,en;q=0.7",
      "Referer" := Site + "/"]
  }

  /** The file names of a run: `<basename>_flaresolverr_raw.json` for the
      proxy's raw answer, `<basename>.json` for the printed record; none
      when no basename could be computed. */
  function RawName(basename: Option<string>): Option<string> {
    if basename.Some? then Some(basename.value + "_flaresolverr_raw.json") else None
  }

  function OutName(basename: Option<string>): Option<string> {
    if basename.Some? then Some(basename.value + ".json") else None
  }

  /** The extractor runs only on an ok answer with truthy HTML; `parse`
      stands for lxml reading that HTML (None: it could not), and
      `checkIso` tells the two scrapers' copies of the extractor apart. */
  function ParsedOf(fs: FetchResult, parse: JsonValue -> Option<Queries>, checkIso: bool): (r: Option<Fields>)
    ensures !fs.ok || !Truthy(fs.html) ==> r.None?
    ensures fs.ok && Truthy(fs.html) ==> (r.Some? <==> parse(fs.html).Some?)
  {
    if fs.ok && Truthy(fs.html) then ExtractFields(parse(fs.html), checkIso) else None
  }

  /** `parsed`: the extractor's dictionary when the answer is ok and has
      HTML, otherwise `{}`. */
  method ParseAnswer(fs: FetchResult, parse: JsonValue -> Option<Queries>, checkIso: bool) returns (parsed: Option<Fields>)
    ensures parsed == ParsedOf(fs, parse, checkIso)
  {
    parsed := None;
    if fs.ok && Truthy(fs.html) {
      parsed := ExtractGravureFields(parse(fs.html), checkIso);
    }
  }

  /** A directory after an optional save. */
  function SavedUnder(files: map<string, File>, name: Option<string>, body: JsonValue, now: int): map<string, File> {
    if name.Some? then files[name.value := File(now, body)] else files
  }

  /** The prune cutoff of a run: `time.time() - days * 86400`. */
  function Cutoff(cfg: Config, now: int): int {
    now - cfg.retentionDays * Day
  }

  /** What a run that has a scene URL does once its directories are
      pruned to `rawFiles` and `outFiles`: when the saved session's header
      raises it ends with a traceback, changing nothing more and printing
      nothing; otherwise it sends the request, prints the record, saves
      the raw answer and the record under the page's basename and
      rewrites the session from the answer. */
  ghost predicate Scraped(sceneUrl: string, cfg: Config, now: int, outcome: HttpOutcome, parse: JsonValue -> Option<Queries>,
                          saved: Option<Stored>, rawFiles: map<string, File>, outFiles: map<string, File>,
                          printed: Option<JsonValue>, request: Option<JsonValue>, session: Option<Stored>,
                          raws: map<string, File>, outputs: map<string, File>)
  {
    var header := SessionCookieHeader(saved, now, cfg.cookieAge);
    var fs := Fetch(outcome);
    var basename := GravureBasename(fs.raw, sceneUrl);
    if header.Throws? then
      printed.None? && request.None? && session == saved && raws == rawFiles && outputs == outFiles
    else
      && printed == Some(GravureRecord(ParsedOf(fs, parse, true), sceneUrl, fs.raw))
      && request == Some(Payload(sceneUrl, cfg.headers, header.value, cfg.timeoutMs))
      && session == SessionAfter(saved, fs.cookies, now)
      && raws == SavedUnder(rawFiles, RawName(basename), fs.raw, now)
      && outputs == SavedUnder(outFiles, OutName(basename), printed.value, now)
  }

  /** A run without a usable URL prints `{}`. */
  predicate NoUrl(url: Option<string>) {
    url.None? || url.value == ""
  }

  class Scraper {
    var raws: Directory
    var outputs: Directory
    var session: Option<Stored>

    predicate Valid()
      reads this
    {
      raws != outputs
    }

    constructor (rawFiles: map<string, File>, outFiles: map<string, File>, saved: Option<Stored>)
      ensures Valid() && fresh(raws) && fresh(outputs)
      ensures raws.files == rawFiles && outputs.files == outFiles && session == saved
    {
      raws := new Directory(rawFiles);
      outputs := new Directory(outFiles);
      session := saved;
    }

    /** The start-up prunes of both directories. */
    method PruneBoth(now: int, days: int, failing: set<string>)
      requires Valid()
      modifies raws, outputs
      ensures raws.files == Pruned(old(raws.files), now - days * Day, failing)
      ensures outputs.files == Pruned(old(outputs.files), now - days * Day, failing)
    {
      raws.Prune(now, days, failing);
      outputs.Prune(now, days, failing);
    }

    /** Saving the proxy's raw answer, when a basename was found. */
    method SaveRaw(basename: Option<string>, raw: JsonValue, now: int)
      requires Valid()
      modifies raws
      ensures raws.files == SavedUnder(old(raws.files), RawName(basename), raw, now)
      ensures outputs.files == old(outputs.files)
    {
      if basename.Some? {
        raws.Save(RawName(basename).value, raw, now);
      }
    }

    /** Saving the printed record, when a basename was found. */
    method SaveOutput(basename: Option<string>, printed: JsonValue, now: int)
      requires Valid()
      modifies outputs
      ensures outputs.files == SavedUnder(old(outputs.files), OutName(basename), printed, now)
      ensures raws.files == old(raws.files)
    {
      if basename.Some? {
        outputs.Save(OutName(basename).value, printed, now);
      }
    }

    /** The fetch and its bookkeeping: the request with the cookie
        header built from the saved session, the raw answer saved under
        the basename, and the session rewritten from the answer. */
    method FetchScene(sceneUrl: string, cfg: Config, cookieHeader: Option<string>, now: int, outcome: HttpOutcome)
      returns (fs: FetchResult, request: JsonValue, basename: Option<string>)
      requires Valid()
      modifies this, raws
      ensures Valid() && raws == old(raws) && outputs == old(outputs)
      ensures fs == Fetch(outcome) && basename == GravureBasename(fs.raw, sceneUrl)
      ensures request == Payload(sceneUrl, cfg.headers, cookieHeader, cfg.timeoutMs)
      ensures raws.files == SavedUnder(old(raws.files), RawName(basename), fs.raw, now)
      ensures outputs.files == old(outputs.files)
      ensures session == SessionAfter(old(session), fs.cookies, now)
    {
      request := Payload(sceneUrl, cfg.headers, cookieHeader, cfg.timeoutMs);
      fs := Fetch(outcome);

      basename := GravureBasename(fs.raw, sceneUrl);
      SaveRaw(basename, fs.raw, now);

      session := SessionAfter(session, fs.cookies, now);
    }

    /** The rest of the run: the page parsed when the answer has HTML, the
        record built, and the record saved under the basename. */
    method Finish(sceneUrl: string, fs: FetchResult, basename: Option<string>, now: int,
                  parse: JsonValue -> Option<Queries>) returns (printed: JsonValue)
      requires Valid()
      modifies outputs
      ensures printed == GravureRecord(ParsedOf(fs, parse, true), sceneUrl, fs.raw)
      ensures outputs.files == SavedUnder(old(outputs.files), OutName(basename), printed, now)
      ensures raws.files == old(raws.files)
    {
      var parsed := ParseAnswer(fs, parse, true);
      printed := GravureRecord(parsed, sceneUrl, fs.raw);
      SaveOutput(basename, printed, now);
    }

    /** A run once its cookie header is built: the fetch, the raw answer
        and the record cached, the session rewritten, the record returned
        for printing. */
    method Scrape(sceneUrl: string, cfg: Config, cookieHeader: Option<string>, now: int,
                  outcome: HttpOutcome, parse: JsonValue -> Option<Queries>)
      returns (printed: JsonValue, request: JsonValue)
      requires Valid()
      modifies this, raws, outputs
      ensures Valid() && raws == old(raws) && outputs == old(outputs)
      ensures request == Payload(sceneUrl, cfg.headers, cookieHeader, cfg.timeoutMs)
      ensures printed == GravureRecord(ParsedOf(Fetch(outcome), parse, true), sceneUrl, Fetch(outcome).raw)
      ensures session == SessionAfter(old(session), Fetch(outcome).cookies, now)
      ensures raws.files == SavedUnder(old(raws.files), RawName(GravureBasename(Fetch(outcome).raw, sceneUrl)), Fetch(outcome).raw, now)
      ensures outputs.files == SavedUnder(old(outputs.files), OutName(GravureBasename(Fetch(outcome).raw, sceneUrl)), printed, now)
    {
      var fs, basename;
      fs, request, basename := FetchScene(sceneUrl, cfg, cookieHeader, now, outcome);
      printed := Finish(sceneUrl, fs, basename, now, parse);
    }

    /** A run after the prunes: the cookie header built from the saved
        session, which raises outside any `try` (nothing is then fetched,
        saved or printed), and otherwise the scrape. */
    method FetchAndRecord(sceneUrl: string, cfg: Config, now: int, outcome: HttpOutcome, parse: JsonValue -> Option<Queries>)
      returns (printed: Option<JsonValue>, request: Option<JsonValue>)
      requires Valid()
      modifies this, raws, outputs
      ensures Valid() && raws == old(raws) && outputs == old(outputs)
      ensures Scraped(sceneUrl, cfg, now, outcome, parse, old(session), old(raws.files), old(outputs.files),
                      printed, request, session, raws.files, outputs.files)
    {
      var cookieHeader := SessionCookieHeader(session, now, cfg.cookieAge);
      if cookieHeader.Throws? {
        return None, None;
      }
      var record, req := Scrape(sceneUrl, cfg, cookieHeader.value, now, outcome, parse);
      printed, request := Some(record), Some(req);
    }

    /** One run. `url` is the fragment's `url`; `failing` are the files
        whose removal fails during the prunes; `outcome` is what the
        proxy answered. Returns what is printed (None when the run ends
        with a traceback, the saved cookies raising while the header is
        built) and the request body sent to the proxy (None when the run
        stops before fetching). */
    method Run(url: Option<string>, cfg: Config, now: int, failing: set<string>,
                outcome: HttpOutcome, parse: JsonValue -> Option<Queries>)
      returns (printed: Option<JsonValue>, request: Option<JsonValue>)
      requires Valid()
      modifies this, raws, outputs
      ensures Valid() && raws == old(raws) && outputs == old(outputs)
      ensures NoUrl(url) ==>
        && printed == Some(Obj(map[])) && request.None?
        && raws.files == old(raws.files) && outputs.files == old(outputs.files) && session == old(session)
      ensures !NoUrl(url) ==>
        Scraped(url.value, cfg, now, outcome, parse, old(session),
                Pruned(old(raws.files), Cutoff(cfg, now), failing), Pruned(old(outputs.files), Cutoff(cfg, now), failing),
                printed, request, session, raws.files, outputs.files)
    {
      if NoUrl(url) {
        return Some(Obj(map[])), None;
      }
      PruneBoth(now, cfg.retentionDays, failing);
      ghost var prunedRaws, prunedOutputs := raws.files, outputs.files;
      assert prunedRaws == Pruned(old(raws.files), Cutoff(cfg, now), failing);
      assert prunedOutputs == Pruned(old(outputs.files), Cutoff(cfg, now), failing);
      printed, request := FetchAndRecord(url.value, cfg, now, outcome, parse);
      assert Scraped(url.value, cfg, now, outcome, parse, old(session), prunedRaws, prunedOutputs, printed, request, session, raws.files, outputs.files);
    }
  }

  /** What a run leaves in the output directory is exactly what it
      printed, under the page's basename, and it survives the prune of a
      run made within the retention period. */
  lemma OutputKeptUntilExpiry(files: map<string, File>, name: string, printed: JsonValue,
                               now: int, later: int, days: int, failing: set<string>)
    requires later - days * Day <= now
    ensures var saved := SavedUnder(files, Some(name), printed, now);
      && name in Pruned(saved, later - days * Day, failing)
      && Pruned(saved, later - days * Day, failing)[name] == File(now, printed)
  {
    var saved := SavedUnder(files, Some(name), printed, now);
    PrunedExactly(saved, later - days * Day, failing, name);
  }

  /** A run on a scene page names both files after the page: a scene URL
      `.../videos/<seg>` whose proxy answer carries no solution URL is
      cached as `<seg>_flaresolverr_raw.json` and `<seg>.json`. */
  lemma FilesNamedAfterScene(prefix: string, seg: string, raw: JsonValue)
    requires seg != [] && '/' !in seg
    requires !raw.Obj? || !Truthy(Get(raw, "solution"))
    ensures RawName(GravureBasename(raw, prefix + "/" + seg)) == Some(seg + "_flaresolverr_raw.json")
    ensures OutName(GravureBasename(raw, prefix + "/" + seg)) == Some(seg + ".json")
  {
    BasenameOfPage(prefix, seg);
  }
}
