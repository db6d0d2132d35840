/**
 * The scrapers' on-disk cache: the raw-answer and output directories,
 * the retention prune run at start-up (`prune_old_raws`,
 * `prune_old_outputs`), and the basename under which a fetch is saved.
 * A directory is a map from path to file; the clock is an input.
 */
module Retention {

  import opened Wrappers
  import opened Json
  import opened Text

  const Day: int := 86400
  const RetentionDays: int := 10

  /** A cached file: its modification time (whole seconds) and the JSON
      document written to it. */
  datatype File = File(mtime: int, body: JsonValue)

  /** A file survives the prune when it is not older than the cutoff, or
      when reading its time or removing it fails (the error is swallowed). */
  predicate Kept(f: File, path: string, cutoff: int, failing: set<string>) {
    !(f.mtime < cutoff) || path in failing
  }

  /** The directory after a prune with the given cutoff. */
  function Pruned(files: map<string, File>, cutoff: int, failing: set<string>): map<string, File> {
    map p | p in files && Kept(files[p], p, cutoff, failing) :: files[p]
  }

  /** A directory of the cache, changed in place by the scrapers. */
  class Directory {
    var files: map<string, File>

    constructor (initial: map<string, File>)
      ensures files == initial
    {
      files := initial;
    }

    /** The retention prune: walks every file and removes those whose
        modification time is strictly before `now - days * 86400`. A file
        whose removal fails (`failing`) stays, and the walk goes on. */
    method Prune(now: int, days: int, failing: set<string>)
      modifies this
      ensures files == Pruned(old(files), now - days * Day, failing)
    {
      var cutoff := now - days * Day;
      var todo := files.Keys;
      while todo != {}
        invariant todo <= old(files).Keys
        invariant files.Keys <= old(files).Keys
        invariant forall p :: p in files ==> files[p] == old(files)[p]
        invariant forall p :: p in todo ==> p in files
        invariant forall p :: p in old(files) && p !in todo ==>
                    (p in files <==> Kept(old(files)[p], p, cutoff, failing))
        decreases |todo|
      {
        var path :| path in todo;
        if files[path].mtime < cutoff && path !in failing {
          files := files - {path};
        }
        todo := todo - {path};
      }
      assert files.Keys == Pruned(old(files), cutoff, failing).Keys;
    }

    /** `save_json`: the document is written under `path`, replacing any
        previous file there; nothing else changes. */
    method Save(path: string, body: JsonValue, now: int)
      modifies this
      ensures files == old(files)[path := File(now, body)]
    {
      files := files[path := File(now, body)];
    }
  }

  /** Exactly the files strictly older than the cutoff are removed, except
      those whose removal fails; the survivors are untouched. */
  lemma PrunedExactly(files: map<string, File>, cutoff: int, failing: set<string>, p: string)
    requires p in files
    ensures p in Pruned(files, cutoff, failing) <==> files[p].mtime >= cutoff || p in failing
    ensures p in Pruned(files, cutoff, failing) ==> Pruned(files, cutoff, failing)[p] == files[p]
  {
  }

  /** The cutoff is exclusive: a file exactly `days` old stays, one second
      older goes. */
  lemma PruneBoundary(files: map<string, File>, now: int, days: int, p: string, q: string)
    requires p in files && files[p].mtime == now - days * Day
    requires q in files && files[q].mtime == now - days * Day - 1
    ensures p in Pruned(files, now - days * Day, {})
    ensures q !in Pruned(files, now - days * Day, {})
  {
  }

  /** Pruning twice with the same cutoff removes nothing more. */
  lemma PruneIdempotent(files: map<string, File>, cutoff: int, failing: set<string>)
    ensures Pruned(Pruned(files, cutoff, failing), cutoff, failing) == Pruned(files, cutoff, failing)
  {
    var once := Pruned(files, cutoff, failing);
    assert Pruned(once, cutoff, failing).Keys == once.Keys;
  }

  /** A later prune keeps no file an earlier one removed. */
  lemma PruneMonotone(files: map<string, File>, c1: int, c2: int, failing: set<string>)
    requires c1 <= c2
    ensures Pruned(files, c2, failing).Keys <= Pruned(files, c1, failing).Keys
  {
  }

  /** A file saved at `now` survives a prune at `now` with a non-negative
      retention. */
  lemma SavedFileSurvives(files: map<string, File>, path: string, body: JsonValue, now: int, days: nat, failing: set<string>)
    ensures path in Pruned(files[path := File(now, body)], now - days * Day, failing)
  {
  }

  // ------------------------------------------------------------ basenames

  /** The last non-empty `/` segment of a URL, or "result". */
  function SegmentOrResult(url: string): (b: string)
    ensures b != "" && '/' !in b
  {
    match LastSegment(url)
    case Some(seg) => LastSegmentShape(url); seg
    case None => "result"
  }

  /** The basename for the chosen URL; a URL that is not a string makes
      `.split` raise. */
  function UrlBasename(url: JsonValue): (b: Option<string>)
    ensures b.Some? <==> url.Str?
    ensures b.Some? ==> b.value != "" && '/' !in b.value
  {
    if url.Str? then Some(SegmentOrResult(url.s)) else None
  }

  /** The Gravurefit scraper's basename for a fetch
      (`main`, the raw-saving block): the `url` of a truthy `solution`
      dict in the raw answer, else the scene URL. None when the block
      raises: a truthy `solution` that is not a dict, or a URL that is
      not a string. */
  function GravureBasename(raw: JsonValue, sceneUrl: string): (b: Option<string>)
    ensures raw.Obj? && Truthy(Get(raw, "solution")) && !Get(raw, "solution").Obj? ==> b.None?
    ensures (!raw.Obj? || !Truthy(Get(raw, "solution"))) ==> b == Some(SegmentOrResult(sceneUrl))
    ensures b.Some? ==> b.value != "" && '/' !in b.value
  {
    if raw.Obj? && Truthy(Get(raw, "solution")) then
      var sol := Get(raw, "solution");
      if sol.Obj? then UrlBasename(Or(Get(sol, "url"), Str(sceneUrl))) else None
    else UrlBasename(Str(sceneUrl))
  }

  /** The JavLibrary scraper's basename for a Gravurefit fetch: computed
      only when the raw answer is truthy; `raw.get("solution", {})` must be
      a dict and the chosen URL a string, otherwise the block raises and
      no basename is set. */
  function JavBasename(raw: JsonValue, sceneUrl: string): (b: Option<string>)
    ensures !Truthy(raw) || !raw.Obj? ==> b.None?
    ensures raw.Obj? && "solution" in raw.fields && !raw.fields["solution"].Obj? ==> b.None?
    ensures b.Some? ==> b.value != "" && '/' !in b.value
  {
    if !Truthy(raw) || !raw.Obj? then None
    else
      var sol := if "solution" in raw.fields then raw.fields["solution"] else Obj(map[]);
      if !sol.Obj? then None
      else UrlBasename(Or(Get(sol, "url"), Str(sceneUrl)))
  }

  /** The two scrapers name the files alike whenever the raw answer is a
      non-empty dict whose `solution` is a dict, or has no `solution`. */
  lemma BasenamesAgree(raw: JsonValue, sceneUrl: string)
    requires raw.Obj? && raw.fields != map[]
    requires "solution" in raw.fields ==> raw.fields["solution"].Obj?
    ensures GravureBasename(raw, sceneUrl) == JavBasename(raw, sceneUrl)
  {
    if "solution" in raw.fields {
      var sol := raw.fields["solution"];
      if !Truthy(sol) {
        assert Get(sol, "url") == Null;
      }
    }
  }

  /** They differ on a `solution` that is present but null: the Gravurefit
      scraper falls back to the scene URL, the JavLibrary one raises. */
  lemma BasenamesDifferOnNullSolution(sceneUrl: string)
    ensures GravureBasename(Obj(map["solution" := Null]), sceneUrl) == Some(SegmentOrResult(sceneUrl))
    ensures JavBasename(Obj(map["solution" := Null]), sceneUrl).None?
  {
  }

  /** A page URL is cached under its last path segment, with or without
      a trailing slash (`.../videos/lulu-255/` gives `lulu-255`). */
  lemma BasenameOfPage(a: string, seg: string)
    requires seg != [] && '/' !in seg
    ensures SegmentOrResult(a + "/" + seg) == seg
    ensures SegmentOrResult(a + "/" + seg + "/") == seg
  {
    var s := a + "/" + seg + "/";
    LastSegmentSnoc(s);
    assert s[..|s| - 1] == a + "/" + seg;
    LastSegmentOf(a, seg);
  }

  /** A URL made of slashes only (or empty) is cached under "result". */
  lemma BasenameFallback(url: string)
    requires forall i :: 0 <= i < |url| ==> url[i] == '/'
    ensures SegmentOrResult(url) == "result"
  {
    LastSegmentNone(url);
  }
}
