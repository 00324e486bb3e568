/**
 * The departure aggregation of the board (`fetchDepartures` in the
 * departures hook): today's stop-time rows of the monitored stops are
 * filtered against the current clock time, resolved to their trip and
 * route, grouped by route and direction, turned into departures, sorted,
 * and the last departure of every group is flagged.
 *
 * The schedule store is given as lookup tables, "now" as the current
 * `HH:mm:ss` string together with the instant of today's local midnight,
 * and instants as integer seconds.
 */
module Departures {
  import opened Wrappers
  import opened Text
  import opened Sorting
  import Lists

  /** A stop-time row of today's schedule, with the realtime fields the store may join in. */
  datatype StopTime = StopTime(tripId: string, departureTime: string, delay: Option<int>, time: Option<int>)

  /** A trip; an absent `trip_headsign` is the empty string. */
  datatype Trip = Trip(routeId: string, directionId: Option<int>, headsign: string)

  /** A route; absent text fields are empty strings. */
  datatype Route = Route(
    routeId: string, shortName: string, longName: string,
    color: string, textColor: string, sortOrder: Option<int>)

  /** What the schedule store answers: agency time zones, stop times per stop, trips and routes by id. */
  datatype Store = Store(
    agencyTimezones: seq<string>,
    stopTimes: map<string, seq<StopTime>>,
    trips: map<string, Trip>,
    routes: map<string, Route>)

  datatype Departure = Departure(
    routeId: string, routeShortName: string, routeLongName: string,
    routeColor: string, routeTextColor: string, routeSortOrder: int,
    directionId: int, tripHeadsign: string, stopId: string,
    departureTime: int, isRealtime: bool, delay: Option<int>,
    isLastDeparture: bool, tripId: string)

  datatype Group = Group(
    routeId: string, routeShortName: string, routeLongName: string,
    routeColor: string, routeTextColor: string, routeSortOrder: int,
    directionId: int, headsigns: seq<string>, departures: seq<Departure>)

  const DefaultTimezone := "America/New_York"
  const DefaultRouteColor := "CCCCCC"
  /** The sort order of a route whose `route_sort_order` is not a number. */
  const UnorderedRoute := 999999

  /** `getStopTimes({stopId, date})`: no rows for a stop the store does not know. */
  function StopTimesAt(store: Store, stopId: string): seq<StopTime> {
    if stopId in store.stopTimes then store.stopTimes[stopId] else []
  }

  /** The time zone shown: the first agency's, when it has one. */
  function AgencyTimezone(store: Store, current: string): string {
    if |store.agencyTimezones| > 0 && store.agencyTimezones[0] != "" then store.agencyTimezones[0] else current
  }

  // ---------------------------------------------------------------- rows

  /** A row that was kept, with the trip and route it resolved to. */
  datatype Entry = Entry(stopId: string, row: StopTime, trip: Trip, route: Route)

  /** One row: dropped when it lies before `currentTime` or its trip or route is unknown. */
  function Resolve(store: Store, stopId: string, row: StopTime, currentTime: string): seq<Entry> {
    if StrLess(row.departureTime, currentTime) then []
    else if row.tripId !in store.trips then []
    else
      var trip := store.trips[row.tripId];
      if trip.routeId !in store.routes then []
      else [Entry(stopId, row, trip, store.routes[trip.routeId])]
  }

  function ResolvedRows(store: Store, stopId: string, rows: seq<StopTime>, currentTime: string): seq<Entry>
    decreases |rows|
  {
    if rows == [] then []
    else ResolvedRows(store, stopId, rows[..|rows| - 1], currentTime) + Resolve(store, stopId, rows[|rows| - 1], currentTime)
  }

  /** The kept rows of all monitored stops, in the order the pass visits them. */
  function Qualifying(store: Store, stopIds: seq<string>, currentTime: string): seq<Entry>
    decreases |stopIds|
  {
    if stopIds == [] then []
    else
      var stopId := stopIds[|stopIds| - 1];
      Qualifying(store, stopIds[..|stopIds| - 1], currentTime) + ResolvedRows(store, stopId, StopTimesAt(store, stopId), currentTime)
  }

  // ---------------------------------------------------------------- keys and metadata

  /** `${trip.direction_id}`: an absent direction prints as "undefined". */
  function DirectionText(directionId: Option<int>): string {
    match directionId
    case None => "undefined"
    case Some(d) => IntToString(d)
  }

  /** The map key `${route.route_id}-${trip.direction_id}`. */
  function GroupKey(routeId: string, directionId: Option<int>): string {
    routeId + "-" + DirectionText(directionId)
  }

  function KeyOf(e: Entry): string {
    GroupKey(e.route.routeId, e.trip.directionId)
  }

  /** `route_short_name || route_long_name || route_id` */
  function ShortName(route: Route): string {
    if route.shortName != "" then route.shortName
    else if route.longName != "" then route.longName
    else route.routeId
  }

  function RouteColor(route: Route): string {
    if route.color != "" then route.color else DefaultRouteColor
  }

  function SortOrder(route: Route): int {
    route.sortOrder.GetOr(UnorderedRoute)
  }

  /** The group literal created on the first row of a key, with no headsigns or departures yet. */
  function NewGroup(route: Route, trip: Trip): Group {
    Group(route.routeId, ShortName(route), route.longName, RouteColor(route), route.textColor,
          SortOrder(route), trip.directionId.GetOr(0), [], [])
  }

  // ---------------------------------------------------------------- time

  /** `Number(field)` on a field of digits (the empty field reads as 0). */
  function FieldValue(field: string): nat {
    if AllDigits(field) then DigitsValue(field) else 0
  }

  /** The hour and minute fields, and the second field if any, are digit strings. */
  predicate WellFormedClock(t: string) {
    var fields := Split(t, ':');
    |fields| >= 2 && AllDigits(fields[0]) && AllDigits(fields[1]) && (|fields| >= 3 ==> AllDigits(fields[2]))
  }

  /**
   * The seconds after local midnight that `setHours(h >= 24 ? h - 24 : h, m, s || 0, 0)`
   * puts on today's date.
   */
  function ClockSeconds(t: string): int {
    var fields := Split(t, ':');
    var hours := FieldValue(fields[0]);
    var minutes := if |fields| >= 2 then FieldValue(fields[1]) else 0;
    var seconds := if |fields| >= 3 then FieldValue(fields[2]) else 0;
    (if hours >= 24 then hours - 24 else hours) * 3600 + minutes * 60 + seconds
  }

  /** JavaScript truthiness of an optional number. */
  predicate Truthy(n: Option<int>) {
    n.Some? && n.value != 0
  }

  /** The departure literal pushed for a kept row. */
  function MakeDeparture(route: Route, trip: Trip, stopId: string, row: StopTime, midnight: int): Departure {
    Departure(route.routeId, ShortName(route), route.longName, RouteColor(route), route.textColor,
              SortOrder(route), trip.directionId.GetOr(0), trip.headsign, stopId,
              midnight + ClockSeconds(row.departureTime), Truthy(row.delay) || Truthy(row.time),
              row.delay, false, row.tripId)
  }

  function DepartureOf(e: Entry, midnight: int): Departure {
    MakeDeparture(e.route, e.trip, e.stopId, e.row, midnight)
  }

  // ---------------------------------------------------------------- groups

  /** The keys of `q` in first-seen order: the iteration order of the map. */
  function KeysOf(q: seq<Entry>): seq<string>
    decreases |q|
  {
    if q == [] then []
    else
      var keys := KeysOf(q[..|q| - 1]);
      var k := KeyOf(q[|q| - 1]);
      if k in keys then keys else keys + [k]
  }

  /** The entries of `q` with key `k`, in order. */
  function WithKey(q: seq<Entry>, k: string): seq<Entry>
    decreases |q|
  {
    if q == [] then []
    else WithKey(q[..|q| - 1], k) + (if KeyOf(q[|q| - 1]) == k then [q[|q| - 1]] else [])
  }

  /** The distinct non-empty headsigns of `q`, in first-seen order. */
  function Headsigns(q: seq<Entry>): seq<string>
    decreases |q|
  {
    if q == [] then []
    else
      var hs := Headsigns(q[..|q| - 1]);
      var h := q[|q| - 1].trip.headsign;
      if h != "" && h !in hs then hs + [h] else hs
  }

  function DeparturesOf(q: seq<Entry>, midnight: int): seq<Departure>
    decreases |q|
  {
    if q == [] then [] else DeparturesOf(q[..|q| - 1], midnight) + [DepartureOf(q[|q| - 1], midnight)]
  }

  /** The group the pass has built from the entries of one key, before sorting. */
  function BuildGroup(q: seq<Entry>, midnight: int): Group
    requires q != []
  {
    NewGroup(q[0].route, q[0].trip).(headsigns := Headsigns(q), departures := DeparturesOf(q, midnight))
  }

  predicate DepartureBefore(a: Departure, b: Departure) {
    a.departureTime <= b.departureTime
  }

  /** Ascending sort order, then short name (`localeCompare` taken as code-point order). */
  predicate GroupBefore(a: Group, b: Group) {
    a.routeSortOrder < b.routeSortOrder
    || (a.routeSortOrder == b.routeSortOrder && StrLeq(a.routeShortName, b.routeShortName))
  }

  /** Sets `isLastDeparture` on the final element. */
  function MarkLast(ds: seq<Departure>): seq<Departure> {
    if ds == [] then [] else ds[..|ds| - 1] + [ds[|ds| - 1].(isLastDeparture := true)]
  }

  /** A group after its departures were sorted by time and the last one flagged. */
  function Finalize(g: Group): Group {
    g.(departures := MarkLast(InsertionSorted(g.departures, DepartureBefore)))
  }

  /** The finished group of key `k`. */
  function GroupOf(q: seq<Entry>, k: string, midnight: int): Group
    requires k in KeysOf(q)
  {
    WithKeyNonEmpty(q, k);
    Finalize(BuildGroup(WithKey(q, k), midnight))
  }

  /** The finished group of every key, in the order the keys were first seen. */
  function FinalGroups(q: seq<Entry>, midnight: int): seq<Group> {
    var keys := KeysOf(q);
    seq(|keys|, i requires 0 <= i < |keys| => GroupOf(q, keys[i], midnight))
  }

  /** A key is listed exactly when some entry carries it. */
  lemma {:induction false} WithKeyNonEmpty(q: seq<Entry>, k: string)
    ensures WithKey(q, k) != [] <==> k in KeysOf(q)
    decreases |q|
  {
    if q != [] {
      WithKeyNonEmpty(q[..|q| - 1], k);
    }
  }

  /** The groups a pass returns. */
  function Aggregate(store: Store, stopIds: seq<string>, currentTime: string, midnight: int): seq<Group> {
    InsertionSorted(FinalGroups(Qualifying(store, stopIds, currentTime), midnight), GroupBefore)
  }

  // ---------------------------------------------------------------- the pass

  /** The state of the map after the pass has seen the entries `q`. */
  ghost predicate Collected(q: seq<Entry>, keys: seq<string>, table: map<string, Group>, midnight: int) {
    && keys == KeysOf(q)
    && (forall k :: k in table <==> k in keys)
    && GroupsMatch(q, table, midnight)
  }

  /** Every group in the map is the group built from the entries with its key. */
  ghost predicate GroupsMatch(q: seq<Entry>, table: map<string, Group>, midnight: int) {
    forall k :: k in table ==> WithKey(q, k) != [] && table[k] == BuildGroup(WithKey(q, k), midnight)
  }

  /** The map the pass holds after seeing the entries `q`, built entry by entry. */
  ghost function Table(q: seq<Entry>, midnight: int): map<string, Group>
    decreases |q|
  {
    if q == [] then map[] else Extend(Table(q[..|q| - 1], midnight), q[|q| - 1], midnight)
  }

  /** The map after entry `e` joined the group of its key, which is created first if need be. */
  ghost function Extend(table: map<string, Group>, e: Entry, midnight: int): map<string, Group> {
    var k := KeyOf(e);
    table[k := AddEntry(if k in table then table[k] else NewGroup(e.route, e.trip), e, midnight)]
  }

  lemma TableSnoc(q: seq<Entry>, e: Entry, midnight: int)
    ensures Table(q + [e], midnight) == Extend(Table(q, midnight), e, midnight)
  {
    assert (q + [e])[..|q|] == q;
  }

  /** The map has a group for exactly the keys seen. */
  lemma {:induction false} TableDomain(q: seq<Entry>, midnight: int)
    ensures forall k :: k in Table(q, midnight) <==> k in KeysOf(q)
    decreases |q|
  {
    if q != [] {
      var init, e := q[..|q| - 1], q[|q| - 1];
      Lists.LastSplit(q);
      TableDomain(init, midnight);
      KeysOfSnoc(init, e);
    }
  }

  /** The map built entry by entry holds, under every key, the group of that key's entries. */
  lemma {:induction false} TableCollected(q: seq<Entry>, midnight: int)
    ensures Collected(q, KeysOf(q), Table(q, midnight), midnight)
    decreases |q|
  {
    if q != [] {
      var init, e := q[..|q| - 1], q[|q| - 1];
      Lists.LastSplit(q);
      TableCollected(init, midnight);
      CollectedStep(init, KeysOf(init), Table(init, midnight), e, midnight);
      KeysOfSnoc(init, e);
    }
  }

  /** The departures of the monitored stops from `currentTime` on, grouped by route and direction. */
  method FetchDepartures(store: Store, stopIds: seq<string>, currentTime: string, midnight: int)
    returns (groups: seq<Group>)
    ensures groups == Aggregate(store, stopIds, currentTime, midnight)
  {
    var keys: seq<string> := [];
    var routeDirectionMap: map<string, Group> := map[];
    ghost var seen: seq<Entry> := [];
    for i := 0 to |stopIds|
      invariant seen == Qualifying(store, stopIds[..i], currentTime)
      invariant keys == KeysOf(seen) && routeDirectionMap == Table(seen, midnight)
    {
      assert stopIds[..i + 1][..i] == stopIds[..i];
      keys, routeDirectionMap, seen := CollectStop(store, stopIds[i], currentTime, midnight, keys, routeDirectionMap, seen);
    }
    assert stopIds[..|stopIds|] == stopIds;
    TableCollected(seen, midnight);
    groups := SortGroups(seen, keys, routeDirectionMap, midnight);
  }

  /** The inner loop of the pass: the rows of one stop are added to the map. */
  method CollectStop(store: Store, stopId: string, currentTime: string, midnight: int,
                     keys0: seq<string>, map0: map<string, Group>, ghost seen0: seq<Entry>)
    returns (keys: seq<string>, routeDirectionMap: map<string, Group>, ghost seen: seq<Entry>)
    requires keys0 == KeysOf(seen0) && map0 == Table(seen0, midnight)
    ensures seen == seen0 + ResolvedRows(store, stopId, StopTimesAt(store, stopId), currentTime)
    ensures keys == KeysOf(seen) && routeDirectionMap == Table(seen, midnight)
  {
    keys, routeDirectionMap, seen := keys0, map0, seen0;
    var stopTimes := StopTimesAt(store, stopId);
    for j := 0 to |stopTimes|
      invariant seen == seen0 + ResolvedRows(store, stopId, stopTimes[..j], currentTime)
      invariant keys == KeysOf(seen) && routeDirectionMap == Table(seen, midnight)
    {
      ResolvedRowsSnoc(store, stopId, stopTimes, j, currentTime);
      Lists.AppendAssoc(seen0, ResolvedRows(store, stopId, stopTimes[..j], currentTime), Resolve(store, stopId, stopTimes[j], currentTime));
      keys, routeDirectionMap, seen := AddRow(store, stopId, stopTimes[j], currentTime, midnight, keys, routeDirectionMap, seen);
    }
    assert stopTimes[..|stopTimes|] == stopTimes;
  }

  lemma ResolvedRowsSnoc(store: Store, stopId: string, rows: seq<StopTime>, j: nat, currentTime: string)
    requires j < |rows|
    ensures ResolvedRows(store, stopId, rows[..j + 1], currentTime)
         == ResolvedRows(store, stopId, rows[..j], currentTime) + Resolve(store, stopId, rows[j], currentTime)
  {
    assert rows[..j + 1][..j] == rows[..j];
  }

  /** The body of the inner loop: one row is skipped or added to its group. */
  method AddRow(store: Store, stopId: string, stopTime: StopTime, currentTime: string, midnight: int,
                keys0: seq<string>, map0: map<string, Group>, ghost seen0: seq<Entry>)
    returns (keys: seq<string>, routeDirectionMap: map<string, Group>, ghost seen: seq<Entry>)
    requires keys0 == KeysOf(seen0) && map0 == Table(seen0, midnight)
    ensures seen == seen0 + Resolve(store, stopId, stopTime, currentTime)
    ensures keys == KeysOf(seen) && routeDirectionMap == Table(seen, midnight)
  {
    keys, routeDirectionMap, seen := keys0, map0, seen0;
    if StrLess(stopTime.departureTime, currentTime) {
      return;
    }
    if stopTime.tripId !in store.trips {
      return;
    }
    var trip := store.trips[stopTime.tripId];
    if trip.routeId !in store.routes {
      return;
    }
    var route := store.routes[trip.routeId];
    keys, routeDirectionMap := AddDeparture(keys, routeDirectionMap, stopId, stopTime, trip, route, midnight, seen);
    seen := seen + [Entry(stopId, stopTime, trip, route)];
  }

  /** A kept row joins the group of its route and direction, which is created on the first such row. */
  method AddDeparture(keys0: seq<string>, map0: map<string, Group>, stopId: string, stopTime: StopTime,
                      trip: Trip, route: Route, midnight: int, ghost seen0: seq<Entry>)
    returns (keys: seq<string>, routeDirectionMap: map<string, Group>)
    requires keys0 == KeysOf(seen0) && map0 == Table(seen0, midnight)
    ensures var seen := seen0 + [Entry(stopId, stopTime, trip, route)];
      keys == KeysOf(seen) && routeDirectionMap == Table(seen, midnight)
  {
    keys, routeDirectionMap := keys0, map0;
    var key := GroupKey(route.routeId, trip.directionId);
    ghost var entry := Entry(stopId, stopTime, trip, route);
    if key !in routeDirectionMap {
      routeDirectionMap := routeDirectionMap[key := NewGroup(route, trip)];
      keys := keys + [key];
    }
    assert keys == KeysOf(seen0 + [entry]) by {
      KeysOfSnoc(seen0, entry);
      TableDomain(seen0, midnight);
    }
    var group := JoinGroup(routeDirectionMap[key], stopId, stopTime, trip, route, midnight);
    routeDirectionMap := routeDirectionMap[key := group];
    assert routeDirectionMap == Table(seen0 + [entry], midnight) by {
      TableSnoc(seen0, entry, midnight);
      assert key == KeyOf(entry);
    }
  }

  /** The headsign is recorded if it is new and not empty, and the departure is appended. */
  method JoinGroup(group0: Group, stopId: string, stopTime: StopTime, trip: Trip, route: Route, midnight: int)
    returns (group: Group)
    ensures group == AddEntry(group0, Entry(stopId, stopTime, trip, route), midnight)
    ensures forall h :: h in group.headsigns <==> h in group0.headsigns || (h == trip.headsign && h != "")
    ensures Lists.Distinct(group0.headsigns) ==> Lists.Distinct(group.headsigns)
  {
    group := group0;
    if trip.headsign != "" && trip.headsign !in group.headsigns {
      group := group.(headsigns := group.headsigns + [trip.headsign]);
    }
    group := group.(departures := group.departures + [MakeDeparture(route, trip, stopId, stopTime, midnight)]);
  }

  /** The second half of the pass: every group is finalized, then the groups are sorted. */
  method SortGroups(ghost q: seq<Entry>, keys: seq<string>, routeDirectionMap: map<string, Group>, midnight: int)
    returns (groups: seq<Group>)
    requires Collected(q, keys, routeDirectionMap, midnight)
    ensures groups == InsertionSorted(FinalGroups(q, midnight), GroupBefore)
  {
    var finalized := FinalizeAll(keys, routeDirectionMap);
    forall i | 0 <= i < |keys| ensures finalized[i] == FinalGroups(q, midnight)[i] {
      assert routeDirectionMap[keys[i]] == BuildGroup(WithKey(q, keys[i]), midnight);
    }
    assert finalized == FinalGroups(q, midnight);
    var a := new Group[|finalized|](n requires 0 <= n < |finalized| => finalized[n]);
    assert a[..] == finalized;
    SortInPlace(a, GroupBefore);
    groups := a[..];
  }

  /** The `forEach` over the map: each group, in key order, gets its departures sorted and its last one flagged. */
  method FinalizeAll(keys: seq<string>, routeDirectionMap: map<string, Group>) returns (finalized: seq<Group>)
    requires forall k :: k in keys ==> k in routeDirectionMap
    ensures |finalized| == |keys|
    ensures forall i :: 0 <= i < |keys| ==> finalized[i] == Finalize(routeDirectionMap[keys[i]])
  {
    finalized := [];
    for k := 0 to |keys|
      invariant |finalized| == k
      invariant forall i :: 0 <= i < k ==> finalized[i] == Finalize(routeDirectionMap[keys[i]])
    {
      var group := FinalizeGroup(routeDirectionMap[keys[k]]);
      finalized := finalized + [group];
    }
  }

  /** Group `g` after entry `e` was seen: a new headsign is recorded and the departure appended. */
  function AddEntry(g: Group, e: Entry, midnight: int): Group {
    var h := e.trip.headsign;
    g.(headsigns := if h != "" && h !in g.headsigns then g.headsigns + [h] else g.headsigns,
       departures := g.departures + [DepartureOf(e, midnight)])
  }

  lemma KeysOfSnoc(q: seq<Entry>, e: Entry)
    ensures KeysOf(q + [e]) == if KeyOf(e) in KeysOf(q) then KeysOf(q) else KeysOf(q) + [KeyOf(e)]
  {
    assert (q + [e])[..|q|] == q;
  }

  lemma WithKeySnoc(q: seq<Entry>, e: Entry, k: string)
    ensures WithKey(q + [e], k) == WithKey(q, k) + (if KeyOf(e) == k then [e] else [])
  {
    assert (q + [e])[..|q|] == q;
  }

  lemma BuildGroupSnoc(L: seq<Entry>, e: Entry, midnight: int)
    ensures L != [] ==> BuildGroup(L + [e], midnight) == AddEntry(BuildGroup(L, midnight), e, midnight)
    ensures L == [] ==> BuildGroup(L + [e], midnight) == AddEntry(NewGroup(e.route, e.trip), e, midnight)
  {
    var L' := L + [e];
    assert L'[..|L'| - 1] == L;
    var h := e.trip.headsign;
    assert Headsigns(L') == if h != "" && h !in Headsigns(L) then Headsigns(L) + [h] else Headsigns(L);
    assert DeparturesOf(L', midnight) == DeparturesOf(L, midnight) + [DepartureOf(e, midnight)];
    if L != [] {
      assert L'[0] == L[0];
    } else {
      assert L'[0] == e;
    }
  }

  /** One step of the pass: entry `e` is added to its group, creating the group first if need be. */
  lemma CollectedStep(q: seq<Entry>, keys: seq<string>, table: map<string, Group>, e: Entry, midnight: int)
    requires Collected(q, keys, table, midnight)
    ensures Collected(q + [e], if KeyOf(e) in table then keys else keys + [KeyOf(e)], Extend(table, e, midnight), midnight)
  {
    var keys' := if KeyOf(e) in table then keys else keys + [KeyOf(e)];
    assert keys' == KeysOf(q + [e]) by {
      KeysOfSnoc(q, e);
    }
    CollectedStepDomain(keys, table, e, midnight);
    CollectedStepGroups(q, keys, table, e, midnight);
  }

  /** After one step the map has a group for exactly the listed keys. */
  lemma CollectedStepDomain(keys: seq<string>, table: map<string, Group>, e: Entry, midnight: int)
    requires forall k :: k in table <==> k in keys
    ensures forall k :: k in Extend(table, e, midnight) <==> k in (if KeyOf(e) in table then keys else keys + [KeyOf(e)])
  {
  }

  /** After one step every group in the map is the group of its key's entries. */
  lemma CollectedStepGroups(q: seq<Entry>, keys: seq<string>, table: map<string, Group>, e: Entry, midnight: int)
    requires Collected(q, keys, table, midnight)
    ensures GroupsMatch(q + [e], Extend(table, e, midnight), midnight)
  {
    var table' := Extend(table, e, midnight);
    forall k | k in table'
      ensures WithKey(q + [e], k) != [] && table'[k] == BuildGroup(WithKey(q + [e], k), midnight)
    {
      if k == KeyOf(e) {
        CollectedStepAtKey(q, keys, table, e, midnight);
      } else {
        CollectedStepOtherKey(q, keys, table, e, midnight, k);
      }
    }
  }

  /** The groups of the other keys are untouched by one step. */
  lemma CollectedStepOtherKey(q: seq<Entry>, keys: seq<string>, table: map<string, Group>, e: Entry, midnight: int, k: string)
    requires Collected(q, keys, table, midnight)
    requires k in table && k != KeyOf(e)
    ensures WithKey(q + [e], k) != []
    ensures Extend(table, e, midnight)[k] == BuildGroup(WithKey(q + [e], k), midnight)
  {
    WithKeySnoc(q, e, k);
    assert WithKey(q + [e], k) == WithKey(q, k);
  }

  /** The group of the entry's own key after one step is the group of all entries with that key. */
  lemma CollectedStepAtKey(q: seq<Entry>, keys: seq<string>, table: map<string, Group>, e: Entry, midnight: int)
    requires Collected(q, keys, table, midnight)
    ensures WithKey(q + [e], KeyOf(e)) != []
    ensures Extend(table, e, midnight)[KeyOf(e)] == BuildGroup(WithKey(q + [e], KeyOf(e)), midnight)
  {
    var k := KeyOf(e);
    var L := WithKey(q, k);
    WithKeySnoc(q, e, k);
    WithKeyNonEmpty(q, k);
    BuildGroupSnoc(L, e, midnight);
    if k in table {
      assert table[k] == BuildGroup(L, midnight);
    } else {
      assert L == [];
    }
  }

  /** Sorts a group's departures by time and flags the last one, on an array as the source does. */
  method FinalizeGroup(g: Group) returns (r: Group)
    ensures r == Finalize(g)
  {
    var departures := new Departure[|g.departures|](n requires 0 <= n < |g.departures| => g.departures[n]);
    assert departures[..] == g.departures;
    SortInPlace(departures, DepartureBefore);
    FlagLast(departures);
    r := g.(departures := departures[..]);
  }

  /** Flags the last departure of the array, if there is one. */
  method FlagLast(a: array<Departure>)
    modifies a
    ensures a[..] == MarkLast(old(a[..]))
  {
    if a.Length > 0 {
      ghost var s := a[..];
      a[a.Length - 1] := a[a.Length - 1].(isLastDeparture := true);
      assert a[..] == s[..|s| - 1] + [s[|s| - 1].(isLastDeparture := true)];
    }
  }

  /**
   * Where a call into the store throws during a refresh, if anywhere: in
   * reading the agencies, before the time zone is set, or in one of the
   * later stop-time, trip or route queries, after it is set.
   */
  datatype StoreFault = NoFault | AgenciesThrow | QueryThrows

  /**
   * The departures hook for one refresh: without a store or without stops
   * the groups are empty; otherwise a pass runs, and the time zone follows
   * the first agency. A throw is caught and leaves the previous groups
   * shown, with the time zone as far as it was set before the throw.
   */
  method UseDepartures(gtfs: Option<Store>, stopIds: seq<string>, currentTime: string, midnight: int,
                       timezone: string, previous: seq<Group>, fault: StoreFault)
    returns (groups: seq<Group>, newTimezone: string)
    ensures gtfs.None? || stopIds == [] ==> groups == [] && newTimezone == timezone
    ensures gtfs.Some? && stopIds != [] && fault.NoFault? ==>
      groups == Aggregate(gtfs.value, stopIds, currentTime, midnight)
      && newTimezone == AgencyTimezone(gtfs.value, timezone)
    ensures gtfs.Some? && stopIds != [] && fault.AgenciesThrow? ==> groups == previous && newTimezone == timezone
    ensures gtfs.Some? && stopIds != [] && fault.QueryThrows? ==>
      groups == previous && newTimezone == AgencyTimezone(gtfs.value, timezone)
  {
    if gtfs.None? || |stopIds| == 0 {
      return [], timezone;
    }
    groups, newTimezone := previous, timezone;
    if fault.AgenciesThrow? {
      return;
    }
    newTimezone := AgencyTimezone(gtfs.value, timezone);
    if fault.QueryThrows? {
      return;
    }
    groups := FetchDepartures(gtfs.value, stopIds, currentTime, midnight);
  }
}
