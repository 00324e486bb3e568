/**
 * Reading the board's configuration from the query string. The query is
 * given as the map from parameter name to its (decoded) value that
 * `URLSearchParams.get` reads from.
 */
module UrlParams {
  import opened Wrappers
  import opened Text
  import Lists

  type Query = map<string, string>

  /** `params.get(key)`: `None` stands for `null`. */
  function Get(params: Query, key: string): Option<string> {
    if key in params then Some(params[key]) else None
  }

  /** The board configuration the query string yields. */
  datatype AppConfig = AppConfig(
    gtfsUrl: Option<string>, gtfsRtUrls: seq<string>, stopIds: seq<string>,
    showAlerts: bool, refreshInterval: int, showTechnicalDetails: bool,
    primaryColor: string, secondaryColor: string)

  const DefaultRefreshInterval := 20
  const DefaultPrimaryColor := "3b82f6"
  const DefaultSecondaryColor := "f97316"

  /** `v ? v.split(',').map(s => s.trim()).filter(Boolean) : []`: a comma-separated list. */
  function ListOf(v: string): seq<string> {
    if v != "" then SplitTrimmed(v) else []
  }

  /** The list under `key`; a missing parameter is an empty list. */
  function ListParam(params: Query, key: string): seq<string> {
    match Get(params, key)
    case Some(v) => ListOf(v)
    case None => []
  }

  /** `params.get(key) === 'true'` */
  predicate FlagParam(params: Query, key: string) {
    Get(params, key) == Some("true")
  }

  /** `params.get(key) || fallback` */
  function StringParam(params: Query, key: string, fallback: string): string {
    match Get(params, key)
    case Some(v) => if v != "" then v else fallback
    case None => fallback
  }

  /** `refresh ? parseInt(refresh, 10) : 20`, with 20 again in place of `NaN`. */
  function RefreshParam(params: Query): int {
    match Get(params, "refresh")
    case Some(v) => if v != "" then ParseInt(v).GetOr(DefaultRefreshInterval) else DefaultRefreshInterval
    case None => DefaultRefreshInterval
  }

  function ParseUrlParams(params: Query): AppConfig {
    var gtfsUrl := StringParam(params, "gtfsUrl", "");
    AppConfig(
      if gtfsUrl != "" then Some(gtfsUrl) else None,
      ListParam(params, "gtfsRtUrls"),
      ListParam(params, "stops"),
      FlagParam(params, "showAlerts"),
      RefreshParam(params),
      FlagParam(params, "tech"),
      StringParam(params, "primary", DefaultPrimaryColor),
      StringParam(params, "secondary", DefaultSecondaryColor))
  }

  // ---------------------------------------------------------------- properties

  /** Lists hold no empty item, no item with surrounding white space and no comma; a missing or empty parameter gives none. */
  lemma ListsClean(params: Query)
    ensures var c := ParseUrlParams(params);
      && (forall i :: 0 <= i < |c.stopIds| ==> ListItem(c.stopIds[i]))
      && (forall i :: 0 <= i < |c.gtfsRtUrls| ==> ListItem(c.gtfsRtUrls[i]))
      && (Get(params, "stops") in {None, Some("")} ==> c.stopIds == [])
      && (Get(params, "gtfsRtUrls") in {None, Some("")} ==> c.gtfsRtUrls == [])
  {
  }

  /** A present list parameter gives its comma-separated pieces, trimmed, with the blank ones dropped. */
  lemma ListsFromPieces(params: Query)
    ensures "stops" in params ==>
      ParseUrlParams(params).stopIds == Lists.Filter(Lists.Map(Split(params["stops"], ','), Trim), Lists.NonEmpty())
    ensures "gtfsRtUrls" in params ==>
      ParseUrlParams(params).gtfsRtUrls == Lists.Filter(Lists.Map(Split(params["gtfsRtUrls"], ','), Trim), Lists.NonEmpty())
  {
    ListParamIsFilter(params, "stops");
    ListParamIsFilter(params, "gtfsRtUrls");
  }

  /** A present list parameter is filtered from its trimmed pieces; a missing one is empty. */
  lemma ListParamIsFilter(params: Query, key: string)
    ensures key in params ==> ListParam(params, key) == Lists.Filter(Lists.Map(Split(params[key], ','), Trim), Lists.NonEmpty())
    ensures key !in params ==> ListParam(params, key) == []
  {
    if key in params {
      ListOfIsFilter(params[key]);
    }
  }

  /**
   * A list parameter reads as the trimmed comma-separated pieces that are
   * not blank, in the order they are written: its `j`-th item is the
   * trimmed piece at the `j`-th kept position (see `KeptPieces`).
   */
  lemma ListOfPieces(v: string)
    ensures var pieces := Split(v, ',');
      var trimmed := Lists.Map(pieces, Trim);
      var kept := Lists.KeptIndices(trimmed, Lists.NonEmpty());
      && ListOf(v) == Lists.Filter(trimmed, Lists.NonEmpty())
      && |ListOf(v)| == |kept|
      && (forall j :: 0 <= j < |kept| ==> kept[j] < |pieces| && ListOf(v)[j] == Trim(pieces[kept[j]]))
  {
    ListOfIsFilter(v);
    Lists.FilterOfMap(Split(v, ','), Trim, Lists.NonEmpty());
  }

  /** The kept positions increase and are exactly the pieces that do not trim to nothing. */
  lemma KeptPieces(v: string)
    ensures var pieces := Split(v, ',');
      var kept := Lists.KeptIndices(Lists.Map(pieces, Trim), Lists.NonEmpty());
      && (forall j, k :: 0 <= j < k < |kept| ==> kept[j] < kept[k])
      && (forall i :: 0 <= i < |pieces| ==> (i in kept <==> Trim(pieces[i]) != ""))
  {
    KeptTrimmed(Split(v, ','));
  }

  /** `KeptPieces` for any comma-free pieces. */
  lemma KeptTrimmed(pieces: seq<string>)
    ensures var kept := Lists.KeptIndices(Lists.Map(pieces, Trim), Lists.NonEmpty());
      && (forall j, k :: 0 <= j < k < |kept| ==> kept[j] < kept[k])
      && (forall i :: 0 <= i < |pieces| ==> (i in kept <==> Trim(pieces[i]) != ""))
  {
    Lists.FilterOfMap(pieces, Trim, Lists.NonEmpty());
  }

  /** Dropping the blank pieces after trimming is filtering the trimmed pieces for non-empty ones. */
  lemma {:induction false} NonEmptyTrimmedIsFilter(pieces: seq<string>)
    requires forall i :: 0 <= i < |pieces| ==> ',' !in pieces[i]
    ensures NonEmptyTrimmed(pieces) == Lists.Filter(Lists.Map(pieces, Trim), Lists.NonEmpty())
    decreases |pieces|
  {
    if pieces != [] {
      NonEmptyTrimmedIsFilter(pieces[1..]);
      NonEmptyTrimmedStep(pieces);
      FilterTrimmedStep(pieces);
    }
  }

  /** The first piece is dropped when it trims to nothing and kept trimmed otherwise. */
  lemma NonEmptyTrimmedStep(pieces: seq<string>)
    requires pieces != []
    requires forall i :: 0 <= i < |pieces| ==> ',' !in pieces[i]
    ensures var t := Trim(pieces[0]);
      NonEmptyTrimmed(pieces) == (if t == "" then [] else [t]) + NonEmptyTrimmed(pieces[1..])
  {
  }

  /** The same step for `filter(Boolean)` over the trimmed pieces. */
  lemma FilterTrimmedStep(pieces: seq<string>)
    requires pieces != []
    ensures var t := Trim(pieces[0]);
      Lists.Filter(Lists.Map(pieces, Trim), Lists.NonEmpty())
      == (if t == "" then [] else [t]) + Lists.Filter(Lists.Map(pieces[1..], Trim), Lists.NonEmpty())
  {
    Lists.MapCons(pieces, Trim);
    Lists.FilterCons(Trim(pieces[0]), Lists.Map(pieces[1..], Trim), Lists.NonEmpty());
  }

  /** `ListOf` is the filter over the trimmed pieces, the empty text included. */
  lemma ListOfIsFilter(v: string)
    ensures ListOf(v) == Lists.Filter(Lists.Map(Split(v, ','), Trim), Lists.NonEmpty())
  {
    var pieces := Split(v, ',');
    NonEmptyTrimmedIsFilter(pieces);
    if v == "" {
      assert pieces == [""];
      assert Lists.Map(pieces, Trim) == [""];
      assert Lists.Filter([""], Lists.NonEmpty()) == [];
    }
  }

  /** A list written as its items joined with `", "` is read back as the same items, in order. */
  lemma ListOfJoin(xs: seq<string>)
    requires forall i :: 0 <= i < |xs| ==> ListItem(xs[i])
    ensures ListOf(Join(xs, ", ")) == xs
  {
    SplitTrimmedOfJoin(xs);
    if xs == [] {
      assert Join(xs, ", ") == "";
    } else {
      assert |Join(xs, ", ")| >= |xs[0]| > 0;
    }
  }

  /** The GTFS URL is absent exactly when the parameter is missing or empty, and otherwise the parameter itself. */
  lemma GtfsUrlPresence(params: Query)
    ensures ParseUrlParams(params).gtfsUrl.None? <==> "gtfsUrl" !in params || params["gtfsUrl"] == ""
    ensures ParseUrlParams(params).gtfsUrl.Some? ==> ParseUrlParams(params).gtfsUrl.value == params["gtfsUrl"]
  {
  }

  /**
   * The refresh interval is 20 when the parameter is missing, empty or
   * has no leading integer, and otherwise the integer it starts with,
   * which may be 0 or negative; every integer written in decimal reads back.
   */
  lemma RefreshInterval(params: Query, n: int)
    ensures Get(params, "refresh") == None ==> ParseUrlParams(params).refreshInterval == 20
    ensures "refresh" in params && ParseInt(params["refresh"]).None? ==> ParseUrlParams(params).refreshInterval == 20
    ensures "refresh" in params && ParseInt(params["refresh"]).Some? ==>
      ParseUrlParams(params).refreshInterval == ParseInt(params["refresh"]).value
    ensures ParseUrlParams(params["refresh" := IntToString(n)]).refreshInterval == n
  {
    assert ParseUrlParams(params).refreshInterval == RefreshParam(params);
    if "refresh" in params && ParseInt(params["refresh"]).Some? {
      assert params["refresh"] != "";
    }
    var written := params["refresh" := IntToString(n)];
    assert ParseUrlParams(written).refreshInterval == RefreshParam(written);
    assert Get(written, "refresh") == Some(IntToString(n));
    ParseIntOfIntToString(n);
    assert IntToString(n) != "";
  }

  /** The flags hold exactly for the text `true`. */
  lemma FlagsExact(params: Query)
    ensures ParseUrlParams(params).showAlerts <==> "showAlerts" in params && params["showAlerts"] == "true"
    ensures ParseUrlParams(params).showTechnicalDetails <==> "tech" in params && params["tech"] == "true"
  {
  }

  /** Colours fall back to blue and orange when missing or empty, are otherwise the parameter, and are never empty. */
  lemma ColorDefaults(params: Query)
    ensures var c := ParseUrlParams(params);
      && c.primaryColor != "" && c.secondaryColor != ""
      && (Get(params, "primary") in {None, Some("")} ==> c.primaryColor == DefaultPrimaryColor)
      && (Get(params, "secondary") in {None, Some("")} ==> c.secondaryColor == DefaultSecondaryColor)
      && ("primary" in params && params["primary"] != "" ==> c.primaryColor == params["primary"])
      && ("secondary" in params && params["secondary"] != "" ==> c.secondaryColor == params["secondary"])
  {
  }
}
