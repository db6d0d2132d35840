/**
 * The JSON object each scraper prints for a Gravurefit scene, built from
 * the extractor's dictionary with `parsed.get(key)`. The Gravurefit
 * scraper replaces missing performer and tag lists by `[]` and appends
 * the proxy's raw answer; the JavLibrary scraper's Gravurefit branch
 * does neither.
 */
module Records {

  import opened Wrappers
  import opened Json
  import opened Fields

  function OptStr(o: Option<string>): (v: JsonValue)
    ensures o.None? <==> v == Null
    ensures o.Some? ==> v == Str(o.value)
  {
    if o.Some? then Str(o.value) else Null
  }

  function StrList(xs: seq<string>): (v: JsonValue)
    ensures v.Arr? && |v.items| == |xs|
    ensures forall i :: 0 <= i < |xs| ==> v.items[i] == Str(xs[i])
  {
    Arr(seq(|xs|, i requires 0 <= i < |xs| => Str(xs[i])))
  }

  /** The string-valued keys of the extractor's dictionary the records read. */
  datatype StrKey = Code | Title | Date | Image | Studio | Details

  /** `parsed.get(key)` for a string key: null for the empty dictionary
      of an unparsed page. */
  function GetStr(parsed: Option<Fields>, key: StrKey): (v: JsonValue)
    ensures parsed.None? ==> v == Null
  {
    match parsed
    case None => Null
    case Some(f) =>
      OptStr(match key
        case Code => f.code
        case Title => f.title
        case Date => f.date
        case Image => f.image
        case Studio => f.studio
        case Details => f.details)
  }

  /** `parsed.get(key)` for the two list keys (true: performers). */
  function GetList(parsed: Option<Fields>, performers: bool): (v: JsonValue)
    ensures parsed.None? ==> v == Null
    ensures parsed.Some? ==> v == StrList(if performers then parsed.value.performers else parsed.value.tags)
  {
    match parsed
    case None => Null
    case Some(f) => StrList(if performers then f.performers else f.tags)
  }

  /** The record printed by the Gravurefit scraper; missing lists become `[]`. */
  function GravureRecord(parsed: Option<Fields>, sceneUrl: string, raw: JsonValue): JsonValue {
    Obj(map[
      "code" := GetStr(parsed, Code),
      "title" := GetStr(parsed, Title),
      "date" := GetStr(parsed, Date),
      "performers" := Or(GetList(parsed, true), Arr([])),
      "tags" := Or(GetList(parsed, false), Arr([])),
      "image" := GetStr(parsed, Image),
      "studio" := GetStr(parsed, Studio),
      "details" := GetStr(parsed, Details),
      "url" := Str(sceneUrl),
      "_flaresolverr_raw" := raw])
  }

  /** The record printed by the JavLibrary scraper for a Gravurefit URL. */
  function JavGravureRecord(parsed: Option<Fields>, sceneUrl: string): JsonValue {
    Obj(map[
      "code" := GetStr(parsed, Code),
      "title" := GetStr(parsed, Title),
      "date" := GetStr(parsed, Date),
      "performers" := GetList(parsed, true),
      "tags" := GetList(parsed, false),
      "image" := GetStr(parsed, Image),
      "studio" := GetStr(parsed, Studio),
      "details" := GetStr(parsed, Details),
      "url" := Str(sceneUrl)])
  }

  const RecordKeys: set<string> :=
    {"code", "title", "date", "performers", "tags", "image", "studio", "details", "url"}

  /** The Gravurefit record has the same keys whether or not the page
      was parsed: the nine fields and the raw answer. */
  lemma GravureRecordKeys(parsed: Option<Fields>, sceneUrl: string, raw: JsonValue)
    ensures var r := GravureRecord(parsed, sceneUrl, raw);
      r.Obj? && r.fields.Keys == RecordKeys + {"_flaresolverr_raw"}
  {
  }

  /** A parsed page fills every scalar key from the matching field. */
  lemma GravureRecordOfPage(f: Fields, sceneUrl: string, raw: JsonValue)
    ensures var r := GravureRecord(Some(f), sceneUrl, raw).fields;
      && r["code"] == OptStr(f.code) && r["title"] == OptStr(f.title)
      && r["date"] == OptStr(f.date) && r["image"] == OptStr(f.image)
      && r["studio"] == OptStr(f.studio) && r["details"] == OptStr(f.details)
  {
  }

  /** On a parsed page the performer and tag lists come through whole,
      empty or not, beside the scene URL and the raw answer. */
  lemma GravureRecordListsOfPage(f: Fields, sceneUrl: string, raw: JsonValue)
    ensures var r := GravureRecord(Some(f), sceneUrl, raw).fields;
      && r["performers"] == StrList(f.performers) && r["tags"] == StrList(f.tags)
      && r["url"] == Str(sceneUrl) && r["_flaresolverr_raw"] == raw
  {
    if f.performers == [] { assert StrList(f.performers) == Arr([]); }
    if f.tags == [] { assert StrList(f.tags) == Arr([]); }
  }

  /** Without a parsed page the Gravurefit record still has every key:
      null scalars, empty lists, the scene URL and the raw answer. */
  lemma GravureRecordUnparsed(sceneUrl: string, raw: JsonValue)
    ensures var r := GravureRecord(None, sceneUrl, raw).fields;
      && (forall k :: k in {"code", "title", "date", "image", "studio", "details"} ==> r[k] == Null)
      && r["performers"] == Arr([]) && r["tags"] == Arr([])
      && r["url"] == Str(sceneUrl) && r["_flaresolverr_raw"] == raw
  {
  }

  /** On a parsed page the two scrapers print the same record, apart from
      the raw answer the Gravurefit scraper adds. */
  lemma RecordsAgreeOnPage(f: Fields, sceneUrl: string, raw: JsonValue)
    ensures JavGravureRecord(Some(f), sceneUrl).fields.Keys == RecordKeys
    ensures GravureRecord(Some(f), sceneUrl, raw)
            == Obj(JavGravureRecord(Some(f), sceneUrl).fields["_flaresolverr_raw" := raw])
  {
    GravureRecordListsOfPage(f, sceneUrl, raw);
  }


  /** Without a parsed page they differ: the JavLibrary record has null
      where the Gravurefit one has empty lists. */
  lemma RecordsDifferUnparsed(sceneUrl: string, raw: JsonValue)
    ensures JavGravureRecord(None, sceneUrl).fields["performers"] == Null
    ensures JavGravureRecord(None, sceneUrl).fields["tags"] == Null
    ensures GravureRecord(None, sceneUrl, raw).fields["performers"] == Arr([])
  {
  }
}
