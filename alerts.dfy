/**
 * The service-alert filter of the board (the alerts hook): the alerts of
 * the realtime feed are kept when they concern one of the displayed routes
 * or stops, or concern nothing in particular, and their texts are
 * normalised for display.
 */
module Alerts {
  import opened Wrappers
  import opened Text

  /** An informed entity; an absent or empty `route_id` / `stop_id` is the empty string. */
  datatype Entity = Entity(routeId: string, stopId: string)

  /** A text field of an alert: a plain string, a translated string (the texts of its translations), or absent. */
  datatype AlertText = Plain(text: string) | Translated(translations: seq<string>) | Absent

  /** The `effect` of an alert: absent, a numeric enum value, or a name. */
  datatype Effect = NoEffect | EffectCode(code: int) | EffectName(name: string)

  /** An alert as the store returns it; `informedEntity` is `None` when the field is missing. */
  datatype FeedAlert = FeedAlert(
    id: string, informedEntity: Option<seq<Entity>>,
    header: AlertText, description: AlertText, effect: Effect)

  /** The alert shown; `id` is `None` where the source draws a random id. */
  datatype Alert = Alert(id: Option<string>, headerText: string, descriptionText: string, effect: string)

  /** What `getAlerts()` does: return the alerts, or throw. */
  datatype AlertSource = Alerts(alerts: seq<FeedAlert>) | Throws

  /** The callback of `.some`: a truthy route id among the routes, or a truthy stop id among the stops. */
  predicate Mentions(e: Entity, routeIds: seq<string>, stopIds: seq<string>) {
    (e.routeId != "" && e.routeId in routeIds) || (e.stopId != "" && e.stopId in stopIds)
  }

  /** `informed_entity.some(...)`, scanning from the first entity. */
  predicate AnyMentions(entities: seq<Entity>, routeIds: seq<string>, stopIds: seq<string>)
    decreases |entities|
  {
    entities != [] && (Mentions(entities[0], routeIds, stopIds) || AnyMentions(entities[1..], routeIds, stopIds))
  }

  /** The inclusion rule: relevant, or without informed entities. */
  predicate Included(a: FeedAlert, routeIds: seq<string>, stopIds: seq<string>) {
    match a.informedEntity
    case None => true
    case Some(entities) => AnyMentions(entities, routeIds, stopIds) || |entities| == 0
  }

  /** `typeof t === 'string' ? t : t?.translation?.[0]?.text || fallback` */
  function TextOr(t: AlertText, fallback: string): string {
    match t
    case Plain(s) => s
    case Translated(ts) => if |ts| > 0 && ts[0] != "" then ts[0] else fallback
    case Absent => fallback
  }

  /** `String(alert.effect || '')` */
  function EffectText(e: Effect): string {
    match e
    case NoEffect => ""
    case EffectCode(n) => if n == 0 then "" else IntToString(n)
    case EffectName(s) => s
  }

  /** The alert literal pushed for a kept alert. */
  function Normalize(a: FeedAlert): Alert {
    Alert(if a.id != "" then Some(a.id) else None,
          TextOr(a.header, "Alert"), TextOr(a.description, ""), EffectText(a.effect))
  }

  /** The alerts shown, in feed order. */
  function Selected(feed: seq<FeedAlert>, routeIds: seq<string>, stopIds: seq<string>): seq<Alert>
    decreases |feed|
  {
    if feed == [] then []
    else
      var last := feed[|feed| - 1];
      Selected(feed[..|feed| - 1], routeIds, stopIds)
        + (if Included(last, routeIds, stopIds) then [Normalize(last)] else [])
  }

  /** The loop over `getAlerts()`. */
  method RelevantAlerts(feed: seq<FeedAlert>, routeIds: seq<string>, stopIds: seq<string>)
    returns (relevantAlerts: seq<Alert>)
    ensures relevantAlerts == Selected(feed, routeIds, stopIds)
  {
    relevantAlerts := [];
    for i := 0 to |feed|
      invariant relevantAlerts == Selected(feed[..i], routeIds, stopIds)
    {
      var alert := feed[i];
      assert feed[..i + 1][..i] == feed[..i];
      var isRelevant := false;
      if alert.informedEntity.Some? {
        isRelevant := SomeEntityMentions(alert.informedEntity.value, routeIds, stopIds);
      }
      if isRelevant || alert.informedEntity.None? || |alert.informedEntity.value| == 0 {
        relevantAlerts := relevantAlerts + [Normalize(alert)];
      }
    }
    assert feed[..|feed|] == feed;
  }

  /** `.some` over the informed entities, stopping at the first match. */
  method SomeEntityMentions(entities: seq<Entity>, routeIds: seq<string>, stopIds: seq<string>) returns (found: bool)
    ensures found == AnyMentions(entities, routeIds, stopIds)
  {
    var i := 0;
    while i < |entities|
      invariant 0 <= i <= |entities|
      invariant AnyMentions(entities, routeIds, stopIds) == AnyMentions(entities[i..], routeIds, stopIds)
    {
      var entity := entities[i];
      if entity.routeId != "" && entity.routeId in routeIds {
        return true;
      }
      if entity.stopId != "" && entity.stopId in stopIds {
        return true;
      }
      assert entities[i..][1..] == entities[i + 1..];
      i := i + 1;
    }
    return false;
  }

  /** The alerts hook: none without a store or when reading the alerts throws. */
  method UseAlerts(gtfs: Option<AlertSource>, routeIds: seq<string>, stopIds: seq<string>)
    returns (alerts: seq<Alert>)
    ensures gtfs.None? || gtfs.value.Throws? ==> alerts == []
    ensures gtfs.Some? && gtfs.value.Alerts? ==> alerts == Selected(gtfs.value.alerts, routeIds, stopIds)
  {
    if gtfs.None? {
      return [];
    }
    match gtfs.value
    case Throws =>
      alerts := [];
    case Alerts(all) =>
      alerts := RelevantAlerts(all, routeIds, stopIds);
  }

  // ---------------------------------------------------------------- properties

  /** `.some` holds exactly when some entity mentions a displayed route or stop. */
  lemma {:induction false} AnyMentionsIff(entities: seq<Entity>, routeIds: seq<string>, stopIds: seq<string>)
    ensures AnyMentions(entities, routeIds, stopIds)
            <==> exists i :: 0 <= i < |entities| && Mentions(entities[i], routeIds, stopIds)
    decreases |entities|
  {
    if entities != [] {
      AnyMentionsIff(entities[1..], routeIds, stopIds);
      if exists i :: 0 <= i < |entities| && Mentions(entities[i], routeIds, stopIds) {
        var i :| 0 <= i < |entities| && Mentions(entities[i], routeIds, stopIds);
        if i > 0 {
          assert entities[1..][i - 1] == entities[i];
        }
      }
      if exists i :: 0 <= i < |entities[1..]| && Mentions(entities[1..][i], routeIds, stopIds) {
        var i :| 0 <= i < |entities[1..]| && Mentions(entities[1..][i], routeIds, stopIds);
        assert entities[i + 1] == entities[1..][i];
      }
    }
  }

  /**
   * An alert is shown exactly when it has no informed entities, or one of
   * them has a non-empty route id among the routes or a non-empty stop id
   * among the stops.
   */
  lemma IncludedIff(a: FeedAlert, routeIds: seq<string>, stopIds: seq<string>)
    ensures Included(a, routeIds, stopIds) <==>
      || a.informedEntity.None?
      || |a.informedEntity.value| == 0
      || exists i :: 0 <= i < |a.informedEntity.value|
           && ((a.informedEntity.value[i].routeId != "" && a.informedEntity.value[i].routeId in routeIds)
               || (a.informedEntity.value[i].stopId != "" && a.informedEntity.value[i].stopId in stopIds))
  {
    if a.informedEntity.Some? {
      AnyMentionsIff(a.informedEntity.value, routeIds, stopIds);
    }
  }

  /** Showing more routes or stops never hides an alert. */
  lemma IncludedMonotone(a: FeedAlert, routeIds: seq<string>, stopIds: seq<string>, moreRoutes: seq<string>, moreStops: seq<string>)
    requires forall r :: r in routeIds ==> r in moreRoutes
    requires forall s :: s in stopIds ==> s in moreStops
    requires Included(a, routeIds, stopIds)
    ensures Included(a, moreRoutes, moreStops)
  {
    IncludedIff(a, routeIds, stopIds);
    IncludedIff(a, moreRoutes, moreStops);
  }

  /** The indices of the feed alerts that are shown. */
  function ShownIndices(feed: seq<FeedAlert>, routeIds: seq<string>, stopIds: seq<string>): seq<nat>
    decreases |feed|
  {
    if feed == [] then []
    else
      ShownIndices(feed[..|feed| - 1], routeIds, stopIds)
        + (if Included(feed[|feed| - 1], routeIds, stopIds) then [|feed| - 1] else [])
  }

  /**
   * The shown alerts are the normalised included alerts in feed order: a
   * subsequence of the feed, picked by strictly increasing indices that
   * cover every included alert.
   */
  lemma {:induction false} SelectedIsSubsequence(feed: seq<FeedAlert>, routeIds: seq<string>, stopIds: seq<string>)
    ensures var r, idx := Selected(feed, routeIds, stopIds), ShownIndices(feed, routeIds, stopIds);
      && |r| == |idx| <= |feed|
      && (forall j :: 0 <= j < |idx| ==> idx[j] < |feed| && r[j] == Normalize(feed[idx[j]]))
      && (forall j, k :: 0 <= j < k < |idx| ==> idx[j] < idx[k])
      && (forall i :: 0 <= i < |feed| ==> (i in idx <==> Included(feed[i], routeIds, stopIds)))
    decreases |feed|
  {
    ShownIndicesFacts(feed, routeIds, stopIds);
    SelectedAtShown(feed, routeIds, stopIds);
  }

  /** The shown indices are feed positions, strictly increasing, and exactly those of the included alerts. */
  lemma {:induction false} ShownIndicesFacts(feed: seq<FeedAlert>, routeIds: seq<string>, stopIds: seq<string>)
    ensures var idx := ShownIndices(feed, routeIds, stopIds);
      && |idx| <= |feed|
      && (forall j :: 0 <= j < |idx| ==> idx[j] < |feed|)
      && (forall j, k :: 0 <= j < k < |idx| ==> idx[j] < idx[k])
      && (forall i :: 0 <= i < |feed| ==> (i in idx <==> Included(feed[i], routeIds, stopIds)))
    decreases |feed|
  {
    if feed != [] {
      var init := feed[..|feed| - 1];
      ShownIndicesFacts(init, routeIds, stopIds);
      var idx0, idx := ShownIndices(init, routeIds, stopIds), ShownIndices(feed, routeIds, stopIds);
      assert idx == idx0 + (if Included(feed[|feed| - 1], routeIds, stopIds) then [|feed| - 1] else []);
      forall i | 0 <= i < |init| ensures i in idx <==> Included(feed[i], routeIds, stopIds) {
        assert feed[i] == init[i];
        assert i in idx <==> i in idx0;
      }
    }
  }

  /** The `j`-th shown alert is the normalised alert at the `j`-th shown index. */
  lemma {:induction false} SelectedAtShown(feed: seq<FeedAlert>, routeIds: seq<string>, stopIds: seq<string>)
    ensures var r, idx := Selected(feed, routeIds, stopIds), ShownIndices(feed, routeIds, stopIds);
      && |r| == |idx|
      && (forall j :: 0 <= j < |idx| ==> idx[j] < |feed| && r[j] == Normalize(feed[idx[j]]))
    decreases |feed|
  {
    if feed != [] {
      var init, last := feed[..|feed| - 1], feed[|feed| - 1];
      SelectedAtShown(init, routeIds, stopIds);
      var r0, idx0 := Selected(init, routeIds, stopIds), ShownIndices(init, routeIds, stopIds);
      var r, idx := Selected(feed, routeIds, stopIds), ShownIndices(feed, routeIds, stopIds);
      var kept := Included(last, routeIds, stopIds);
      assert r == r0 + (if kept then [Normalize(last)] else []);
      assert idx == idx0 + (if kept then [|feed| - 1] else []);
      forall j | 0 <= j < |idx0| ensures idx[j] < |feed| && r[j] == Normalize(feed[idx[j]]) {
        assert feed[idx0[j]] == init[idx0[j]];
      }
    }
  }

  /** The header shown is empty only when the alert's header is the empty string itself. */
  lemma HeaderFallback(a: FeedAlert)
    ensures Normalize(a).headerText == "" <==> a.header == Plain("")
    ensures !a.header.Plain? ==> Normalize(a).headerText != ""
  {
  }

  /** The effect text is empty exactly for a falsy effect, and a numeric effect reads back as its number. */
  lemma EffectTextRoundTrip(e: Effect)
    ensures EffectText(e) == "" <==> e == NoEffect || e == EffectCode(0) || e == EffectName("")
    ensures e.EffectCode? && e.code != 0 ==> ParseInt(EffectText(e)) == Some(e.code)
  {
    if e.EffectCode? && e.code != 0 {
      ParseIntOfIntToString(e.code);
      assert EffectText(e) == IntToString(e.code);
      if e.code < 0 {
        assert IntToString(e.code)[0] == '-';
      }
    }
  }
}
