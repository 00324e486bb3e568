/**
 * The URL builder page: a form whose fields are the raw texts the user
 * typed, the query string it builds for the board, the configuration its
 * live preview renders, and the presets that fill the form.
 */
module UrlBuilder {
  import opened Wrappers
  import opened Text
  import opened UrlParams

  /** The form as typed: lists are comma-separated texts, the interval is the text of a number input. */
  datatype Form = Form(gtfsUrl: string, gtfsRtUrls: string, stopIds: string, showAlerts: bool, refreshInterval: string)

  const InitialForm := Form("", "", "", false, "20")

  /** The part of a board configuration a preset may give; `None` is a field the preset leaves out. */
  datatype Preset = Preset(
    name: string, gtfsUrl: Option<string>, gtfsRtUrls: Option<seq<string>>, stopIds: Option<seq<string>>,
    showAlerts: Option<bool>, refreshInterval: Option<int>)

  /** Where the example network publishes its static and realtime feeds. */
  const CarJauneFeeds := "https://pysae.com/api/v2/groups/car-jaune/"

  const CarJaune := Preset(
    "Car Jaune Example",
    Some(CarJauneFeeds + "gtfs/pub"),
    Some([CarJauneFeeds + "gtfs-rt"]),
    Some(["1001", "1002"]),
    Some(true),
    Some(20))

  const Presets := [CarJaune]

  /** What the preview board is given: the configuration fields the form controls. */
  datatype Preview = Preview(
    gtfsUrl: Option<string>, gtfsRtUrls: seq<string>, stopIds: seq<string>, showAlerts: bool, refreshInterval: int)

  const ParameterNames: set<string> := {"gtfsUrl", "gtfsRtUrls", "stops", "showAlerts", "refresh"}

  /** The value a non-empty text field writes into the query; an empty one writes nothing. */
  function Written(v: string): Option<string> {
    if v != "" then Some(v) else None
  }

  /** `params` is the query string of the form: each non-empty field under its name, the alerts flag only when on. */
  predicate Encodes(form: Form, params: Query) {
    && params.Keys <= ParameterNames
    && Get(params, "gtfsUrl") == Written(form.gtfsUrl)
    && Get(params, "gtfsRtUrls") == Written(form.gtfsRtUrls)
    && Get(params, "stops") == Written(form.stopIds)
    && Get(params, "showAlerts") == (if form.showAlerts then Some("true") else None)
    && Get(params, "refresh") == Written(form.refreshInterval)
  }

  /** Sets the query parameters one field at a time. */
  method BuildUrl(form: Form) returns (params: Query)
    ensures Encodes(form, params)
  {
    params := map[];
    if form.gtfsUrl != "" {
      params := params["gtfsUrl" := form.gtfsUrl];
    }
    if form.gtfsRtUrls != "" {
      params := params["gtfsRtUrls" := form.gtfsRtUrls];
    }
    if form.stopIds != "" {
      params := params["stops" := form.stopIds];
    }
    if form.showAlerts {
      params := params["showAlerts" := "true"];
    }
    if form.refreshInterval != "" {
      params := params["refresh" := form.refreshInterval];
    }
  }

  /** `parseInt(v) || 20`: a missing number and zero both give 20. */
  function IntervalOf(v: string): int {
    match ParseInt(v)
    case Some(n) => if n != 0 then n else DefaultRefreshInterval
    case None => DefaultRefreshInterval
  }

  function GetConfig(form: Form): Preview {
    Preview(Written(form.gtfsUrl), ListOf(form.gtfsRtUrls), ListOf(form.stopIds), form.showAlerts,
      IntervalOf(form.refreshInterval))
  }

  /** Copies into the form every field the preset gives: a URL when non-empty, lists joined with `", "`, the interval when non-zero. */
  function ApplyPreset(form: Form, preset: Preset): (r: Form)
    ensures preset.gtfsUrl in {None, Some("")} ==> r.gtfsUrl == form.gtfsUrl
    ensures r.gtfsUrl == form.gtfsUrl || Some(r.gtfsUrl) == preset.gtfsUrl
    ensures preset.gtfsRtUrls.None? ==> r.gtfsRtUrls == form.gtfsRtUrls
    ensures preset.stopIds.None? ==> r.stopIds == form.stopIds
    ensures preset.showAlerts.None? ==> r.showAlerts == form.showAlerts
    ensures preset.refreshInterval in {None, Some(0)} ==> r.refreshInterval == form.refreshInterval
  {
    Form(
      if preset.gtfsUrl.Some? && preset.gtfsUrl.value != "" then preset.gtfsUrl.value else form.gtfsUrl,
      if preset.gtfsRtUrls.Some? then Join(preset.gtfsRtUrls.value, ", ") else form.gtfsRtUrls,
      if preset.stopIds.Some? then Join(preset.stopIds.value, ", ") else form.stopIds,
      if preset.showAlerts.Some? then preset.showAlerts.value else form.showAlerts,
      if preset.refreshInterval.Some? && preset.refreshInterval.value != 0
      then IntToString(preset.refreshInterval.value) else form.refreshInterval)
  }

  /** `gtfsUrl && stopIds`: both texts are non-empty. */
  predicate IsValid(form: Form) {
    form.gtfsUrl != "" && form.stopIds != ""
  }

  // ---------------------------------------------------------------- properties

  /**
   * The board opened from the built URL shows what the preview shows:
   * same feed URLs, stops and alerts flag, and the same interval except
   * when the typed interval reads as zero; the settings the form does not
   * control take their defaults.
   */
  lemma BuiltUrlMatchesPreview(form: Form, params: Query)
    requires Encodes(form, params)
    ensures var board, preview := ParseUrlParams(params), GetConfig(form);
      && board.gtfsUrl == preview.gtfsUrl
      && board.gtfsRtUrls == preview.gtfsRtUrls
      && board.stopIds == preview.stopIds
      && board.showAlerts == preview.showAlerts
      && (ParseInt(form.refreshInterval) != Some(0) ==> board.refreshInterval == preview.refreshInterval)
      && !board.showTechnicalDetails
      && board.primaryColor == DefaultPrimaryColor && board.secondaryColor == DefaultSecondaryColor
  {
    assert "tech" !in params && "primary" !in params && "secondary" !in params;
  }

  /**
   * An interval typed as `0` is previewed with the default 20 seconds, but
   * the built URL asks the board for 0.
   */
  lemma ZeroIntervalDiverges(params: Query)
    requires Encodes(InitialForm.(refreshInterval := "0"), params)
    ensures GetConfig(InitialForm.(refreshInterval := "0")).refreshInterval == 20
    ensures ParseUrlParams(params).refreshInterval == 0
  {
    ParseIntOfIntToString(0);
    assert IntToString(0) == "0";
  }

  /** Items that survive being joined with `", "` and split again. */
  predicate CleanList(xs: seq<string>) {
    forall i :: 0 <= i < |xs| ==> ListItem(xs[i])
  }

  /**
   * Applying a preset and previewing gives back every field the preset
   * sets: its URL when non-empty, its lists when their items are clean,
   * its alerts flag and its interval when non-zero.
   */
  lemma PresetRoundTrip(form: Form, preset: Preset)
    ensures var c := GetConfig(ApplyPreset(form, preset));
      && (preset.gtfsUrl.Some? && preset.gtfsUrl.value != "" ==> c.gtfsUrl == preset.gtfsUrl)
      && (preset.gtfsRtUrls.Some? && CleanList(preset.gtfsRtUrls.value) ==> c.gtfsRtUrls == preset.gtfsRtUrls.value)
      && (preset.stopIds.Some? && CleanList(preset.stopIds.value) ==> c.stopIds == preset.stopIds.value)
      && (preset.showAlerts.Some? ==> c.showAlerts == preset.showAlerts.value)
      && (preset.refreshInterval.Some? && preset.refreshInterval.value != 0 ==> c.refreshInterval == preset.refreshInterval.value)
  {
    if preset.gtfsRtUrls.Some? && CleanList(preset.gtfsRtUrls.value) {
      ListOfJoin(preset.gtfsRtUrls.value);
    }
    if preset.stopIds.Some? && CleanList(preset.stopIds.value) {
      ListOfJoin(preset.stopIds.value);
    }
    if preset.refreshInterval.Some? {
      ParseIntOfIntToString(preset.refreshInterval.value);
    }
  }

  /** The example preset's lists can travel through the form's list fields. */
  lemma CarJauneListsClean()
    ensures CleanList(CarJaune.gtfsRtUrls.value) && CleanList(CarJaune.stopIds.value)
  {
    assert ',' !in CarJauneFeeds;
    var u := CarJauneFeeds + "gtfs-rt";
    assert u[0] == CarJauneFeeds[0] && u[|u| - 1] == 't';
  }

  /**
   * Every preset offered sets every field, and applying it to any form
   * gives a valid form whose preview is exactly the preset's configuration.
   */
  lemma PresetsPreviewThemselves(form: Form, i: nat)
    requires i < |Presets|
    ensures var p, f := Presets[i], ApplyPreset(form, Presets[i]);
      && p.gtfsUrl.Some? && p.gtfsRtUrls.Some? && p.stopIds.Some? && p.showAlerts.Some? && p.refreshInterval.Some?
      && IsValid(f)
      && GetConfig(f) == Preview(p.gtfsUrl, p.gtfsRtUrls.value, p.stopIds.value, p.showAlerts.value, p.refreshInterval.value)
  {
    var p := Presets[i];
    assert p == CarJaune;
    CarJauneListsClean();
    assert CleanList(p.stopIds.value);
    PresetRoundTrip(form, p);
    assert ApplyPreset(form, p).stopIds == Join(p.stopIds.value, ", ");
    assert |Join(p.stopIds.value, ", ")| > 0;
  }

  /**
   * The form is valid exactly when the built URL carries both a GTFS URL
   * and a stops parameter; the stops it names may still all be blank.
   */
  lemma ValidMeansBothParameters(form: Form, params: Query)
    requires Encodes(form, params)
    ensures IsValid(form) <==> ParseUrlParams(params).gtfsUrl.Some? && "stops" in params
    ensures GetConfig(form).stopIds != [] ==> form.stopIds != ""
  {
  }

  /** A stops text of only a comma is valid yet selects no stop. */
  lemma ValidWithoutStops()
    ensures IsValid(InitialForm.(gtfsUrl := "x", stopIds := ","))
    ensures GetConfig(InitialForm.(gtfsUrl := "x", stopIds := ",")).stopIds == []
  {
    assert Split(",", ',') == ["", ""] by {
      assert ","[1..] == "";
    }
  }
}
