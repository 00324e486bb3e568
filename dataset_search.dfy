/**
 * Picking a feed from the national transport data catalogue: which
 * catalogue entries are offered, the search box's filter over them, and
 * the feed URLs taken from the entry the user confirms. Fetching the
 * catalogue is left to the caller, which passes the decoded entries.
 */
module DatasetSearch {
  import opened Wrappers
  import opened Text
  import opened Lists

  datatype Resource = Resource(format: string, isAvailable: bool, originalUrl: Option<string>, url: Option<string>)

  /** A catalogue entry; `publisher` is the publisher's name, `coveredArea` the names of the areas it covers. */
  datatype Dataset = Dataset(
    title: string, kind: string, resources: Option<seq<Resource>>,
    publisher: Option<string>, coveredArea: Option<seq<string>>)

  /** The feeds the user picked: one static GTFS URL and the realtime URLs. */
  datatype Choice = Choice(gtfsUrl: string, gtfsRtUrls: seq<string>)

  predicate IsGtfs(r: Resource) {
    r.format == "GTFS" && r.isAvailable
  }

  predicate IsRealtime(r: Resource) {
    r.format == "gtfs-rt" && r.isAvailable
  }

  /** `resources.some(...)`: some resource is an available static GTFS feed. */
  predicate HasGtfs(resources: seq<Resource>) {
    exists i :: 0 <= i < |resources| && IsGtfs(resources[i])
  }

  /** Offered entries: public transit, with a resource list holding an available GTFS feed. */
  predicate IsPublicTransit(d: Dataset) {
    d.kind == "public-transit" && d.resources.Some? && HasGtfs(d.resources.value)
  }

  function PublicTransitDatasets(data: seq<Dataset>): seq<Dataset> {
    Filter(data, IsPublicTransit)
  }

  /** The title, the publisher's name or a covered area's name contains the lower-cased query. */
  predicate DatasetMatches(d: Dataset, query: string) {
    || Contains(ToLower(d.title), query)
    || (d.publisher.Some? && Contains(ToLower(d.publisher.value), query))
    || (d.coveredArea.Some? && exists i :: 0 <= i < |d.coveredArea.value| && Contains(ToLower(d.coveredArea.value[i]), query))
  }

  /** The filter callback for a lower-cased query. */
  function MatchesQuery(query: string): Dataset -> bool {
    d => DatasetMatches(d, query)
  }

  /** The entries listed for the search box: all when it is blank, otherwise every match (no limit). */
  function SearchDatasets(datasets: seq<Dataset>, searchQuery: string): (r: seq<Dataset>)
    ensures Trim(searchQuery) == "" ==> r == datasets
  {
    if Trim(searchQuery) == "" then datasets
    else Filter(datasets, MatchesQuery(ToLower(searchQuery)))
  }

  /** `resources.find(...)`: the first available static GTFS feed. */
  function FirstGtfs(resources: seq<Resource>): (r: Option<Resource>)
    ensures r.Some? ==> r.value in resources && IsGtfs(r.value)
    decreases |resources|
  {
    if resources == [] then None
    else if IsGtfs(resources[0]) then Some(resources[0])
    else FirstGtfs(resources[1..])
  }

  /** `r.original_url || r.url || ''` */
  function ResourceUrl(r: Resource): string {
    if r.originalUrl.Some? && r.originalUrl.value != "" then r.originalUrl.value
    else if r.url.Some? && r.url.value != "" then r.url.value
    else ""
  }

  /**
   * `handleConfirmSelection`: nothing happens without a selection;
   * otherwise the first GTFS feed's URL (empty when there is none) and the
   * non-empty URLs of the available realtime feeds, in resource order.
   */
  function ConfirmSelection(selected: Option<Dataset>): (r: Option<Choice>)
    requires selected.Some? ==> selected.value.resources.Some?
    ensures r.None? <==> selected.None?
  {
    match selected
    case None => None
    case Some(d) =>
      var resources := d.resources.value;
      var gtfsUrl := match FirstGtfs(resources) case Some(g) => ResourceUrl(g) case None => "";
      Some(Choice(gtfsUrl, Filter(Map(Filter(resources, IsRealtime), ResourceUrl), NonEmpty())))
  }

  // ---------------------------------------------------------------- properties

  /** An entry is offered exactly when it is a public-transit entry with an available GTFS feed. */
  lemma OfferedIff(data: seq<Dataset>, d: Dataset)
    ensures d in PublicTransitDatasets(data) <==>
      d in data && d.kind == "public-transit" && d.resources.Some?
      && exists i :: 0 <= i < |d.resources.value| && d.resources.value[i].format == "GTFS" && d.resources.value[i].isAvailable
  {
    FilterMembers(data, IsPublicTransit);
  }

  /** A non-blank search lists exactly the entries whose title, publisher or covered area contains the query, ignoring case. */
  lemma SearchIff(datasets: seq<Dataset>, searchQuery: string, d: Dataset)
    requires Trim(searchQuery) != ""
    ensures d in SearchDatasets(datasets, searchQuery) <==> d in datasets && DatasetMatches(d, ToLower(searchQuery))
  {
    FilterMembers(datasets, MatchesQuery(ToLower(searchQuery)));
  }

  /** Lower-case and upper-case letters in the query find the same entries. */
  lemma SearchIgnoresCase(datasets: seq<Dataset>, searchQuery: string)
    ensures SearchDatasets(datasets, searchQuery) == SearchDatasets(datasets, ToLower(searchQuery))
  {
    ToLowerIdempotent(searchQuery);
    BlankOfLower(searchQuery);
  }

  /** `FirstGtfs` finds the first available GTFS feed, and finds none only when there is none. */
  lemma {:induction false} FirstGtfsIsFirst(resources: seq<Resource>)
    ensures FirstGtfs(resources).None? <==> !HasGtfs(resources)
    ensures FirstGtfs(resources).Some? ==>
      exists i :: (0 <= i < |resources| && resources[i] == FirstGtfs(resources).value
        && IsGtfs(resources[i]) && forall j :: 0 <= j < i ==> !IsGtfs(resources[j]))
    decreases |resources|
  {
    if resources != [] && !IsGtfs(resources[0]) {
      var rest := resources[1..];
      FirstGtfsIsFirst(rest);
      if FirstGtfs(rest).Some? {
        var i :| 0 <= i < |rest| && rest[i] == FirstGtfs(rest).value && IsGtfs(rest[i]) && forall j :: 0 <= j < i ==> !IsGtfs(rest[j]);
        assert resources[i + 1] == rest[i];
        forall j | 0 <= j < i + 1 ensures !IsGtfs(resources[j]) {
          if j > 0 {
            assert resources[j] == rest[j - 1];
          }
        }
      } else {
        forall j | 0 <= j < |resources| ensures !IsGtfs(resources[j]) {
          if j > 0 {
            assert resources[j] == rest[j - 1];
          }
        }
      }
    }
  }

  /** A URL prefers the original location, falls back to the mirrored one, and is empty only when both are. */
  lemma ResourceUrlPrefersOriginal(r: Resource)
    ensures r.originalUrl.Some? && r.originalUrl.value != "" ==> ResourceUrl(r) == r.originalUrl.value
    ensures (r.originalUrl.None? || r.originalUrl.value == "") ==> ResourceUrl(r) == r.url.GetOr("")
    ensures ResourceUrl(r) == "" <==> (r.originalUrl.None? || r.originalUrl.value == "") && (r.url.None? || r.url.value == "")
  {
  }

  /**
   * Confirming an offered entry yields the URL of its first available GTFS
   * feed, which is non-empty unless that feed has no URL at all.
   */
  lemma ConfirmedGtfsUrl(d: Dataset)
    requires IsPublicTransit(d)
    ensures var c := ConfirmSelection(Some(d)).value;
      exists i :: 0 <= i < |d.resources.value| && IsGtfs(d.resources.value[i])
        && (forall j :: 0 <= j < i ==> !IsGtfs(d.resources.value[j]))
        && c.gtfsUrl == ResourceUrl(d.resources.value[i])
  {
    FirstGtfsIsFirst(d.resources.value);
  }

  /**
   * The realtime URLs are the non-empty URLs of available realtime feeds:
   * every such URL is included and nothing else is.
   */
  lemma ConfirmedRealtimeUrls(d: Dataset, u: string)
    requires d.resources.Some?
    ensures var c := ConfirmSelection(Some(d)).value;
      u in c.gtfsRtUrls <==>
        u != "" && exists i :: (0 <= i < |d.resources.value| && IsRealtime(d.resources.value[i])
          && ResourceUrl(d.resources.value[i]) == u)
  {
    var resources := d.resources.value;
    var live := Filter(resources, IsRealtime);
    var urls := Map(live, ResourceUrl);
    FilterMembers(resources, IsRealtime);
    FilterMembers(urls, NonEmpty());
    if u in ConfirmSelection(Some(d)).value.gtfsRtUrls {
      var k :| 0 <= k < |urls| && urls[k] == u;
      assert live[k] in live;
      var i :| 0 <= i < |resources| && resources[i] == live[k];
    }
  }
  /** The positions, among the resources, of the realtime feeds whose URLs are confirmed. */
  function RealtimePositions(resources: seq<Resource>): seq<nat> {
    var live := KeptIndices(resources, IsRealtime);
    var kept := KeptIndices(Map(Filter(resources, IsRealtime), ResourceUrl), NonEmpty());
    seq(|kept|, j requires 0 <= j < |kept| => if kept[j] < |live| then live[kept[j]] else 0)
  }

  /**
   * The realtime URLs are confirmed in resource order: the `j`-th URL is
   * the URL of the `j`-th available realtime feed that has one, and every
   * such feed is picked.
   */
  lemma ConfirmedRealtimeOrder(d: Dataset)
    requires d.resources.Some?
    ensures var urls, res, pos := ConfirmSelection(Some(d)).value.gtfsRtUrls, d.resources.value, RealtimePositions(d.resources.value);
      && |pos| == |urls|
      && (forall j :: 0 <= j < |pos| ==>
            pos[j] < |res| && IsRealtime(res[pos[j]]) && urls[j] == ResourceUrl(res[pos[j]]) && urls[j] != "")
      && (forall j, k :: 0 <= j < k < |pos| ==> pos[j] < pos[k])
      && (forall i :: 0 <= i < |res| && IsRealtime(res[i]) && ResourceUrl(res[i]) != "" ==> i in pos)
  {
    var res := d.resources.value;
    assert ConfirmSelection(Some(d)).value.gtfsRtUrls == Filter(Map(Filter(res, IsRealtime), ResourceUrl), NonEmpty());
    RealtimePositionsPick(res);
    RealtimePositionsIncrease(res);
    forall i | 0 <= i < |res| && IsRealtime(res[i]) && ResourceUrl(res[i]) != "" ensures i in RealtimePositions(res) {
      RealtimePositionPicked(res, i);
    }
  }

  /** The `j`-th picked position holds a realtime feed whose URL is the `j`-th confirmed URL. */
  lemma RealtimePositionsPick(res: seq<Resource>)
    ensures var urls, pos := Filter(Map(Filter(res, IsRealtime), ResourceUrl), NonEmpty()), RealtimePositions(res);
      && |pos| == |urls|
      && (forall j :: 0 <= j < |pos| ==>
            pos[j] < |res| && IsRealtime(res[pos[j]]) && urls[j] == ResourceUrl(res[pos[j]]) && urls[j] != "")
  {
    var urls := Map(Filter(res, IsRealtime), ResourceUrl);
    FilterIsSubsequence(res, IsRealtime);
    FilterIsSubsequence(urls, NonEmpty());
  }

  /** The picked positions increase. */
  lemma RealtimePositionsIncrease(res: seq<Resource>)
    ensures var pos := RealtimePositions(res);
      forall j, k :: 0 <= j < k < |pos| ==> pos[j] < pos[k]
  {
    var urls := Map(Filter(res, IsRealtime), ResourceUrl);
    FilterIsSubsequence(res, IsRealtime);
    FilterIsSubsequence(urls, NonEmpty());
  }

  /** An available realtime feed with a URL is among the picked positions. */
  lemma RealtimePositionPicked(res: seq<Resource>, i: nat)
    requires i < |res| && IsRealtime(res[i]) && ResourceUrl(res[i]) != ""
    ensures i in RealtimePositions(res)
  {
    var live := Filter(res, IsRealtime);
    var urls := Map(live, ResourceUrl);
    var idx1, idx2 := KeptIndices(res, IsRealtime), KeptIndices(urls, NonEmpty());
    FilterIsSubsequence(res, IsRealtime);
    FilterIsSubsequence(urls, NonEmpty());
    assert i in idx1;
    var m :| 0 <= m < |idx1| && idx1[m] == i;
    assert urls[m] == ResourceUrl(res[i]);
    assert NonEmpty()(urls[m]);
    assert m in idx2;
    var j :| 0 <= j < |idx2| && idx2[j] == m;
    assert RealtimePositions(res)[j] == i;
  }
}
