/**
 * The departure pass loses no row and invents none: the groups together
 * hold exactly one departure per qualifying row. Also the metadata a
 * group takes from its first row, and what a departure records about
 * realtime data.
 */
module DepartureCounts {
  import opened Wrappers
  import opened Text
  import opened Sorting
  import opened Departures
  import opened DepartureProperties
  import Lists

  /** The number of departures in all the groups. */
  function Total(gs: seq<Group>): nat
    decreases |gs|
  {
    if gs == [] then 0 else Total(gs[..|gs| - 1]) + |gs[|gs| - 1].departures|
  }

  /** The number of entries of `q` whose key is among `keys`, counted once per listed key. */
  function RowsUnder(q: seq<Entry>, keys: seq<string>): nat
    decreases |keys|
  {
    if keys == [] then 0 else RowsUnder(q, keys[..|keys| - 1]) + |WithKey(q, keys[|keys| - 1])|
  }

  // ---------------------------------------------------------------- counting

  /** One more entry adds one to the count of the one listed key it carries, if any. */
  lemma {:induction false} RowsUnderSnoc(q: seq<Entry>, e: Entry, keys: seq<string>)
    requires forall i, j :: 0 <= i < j < |keys| ==> keys[i] != keys[j]
    ensures RowsUnder(q + [e], keys) == RowsUnder(q, keys) + (if KeyOf(e) in keys then 1 else 0)
    decreases |keys|
  {
    if keys != [] {
      var init, k := keys[..|keys| - 1], keys[|keys| - 1];
      Lists.LastSplit(keys);
      forall i | 0 <= i < |init| ensures init[i] != k {
        assert init[i] == keys[i];
      }
      RowsUnderSnoc(q, e, init);
      WithKeySnoc(q, e, k);
    }
  }

  /** Every entry is counted under exactly one key. */
  lemma {:induction false} RowsUnderAllKeys(q: seq<Entry>)
    ensures RowsUnder(q, KeysOf(q)) == |q|
    decreases |q|
  {
    if q != [] {
      var init, e := q[..|q| - 1], q[|q| - 1];
      Lists.LastSplit(q);
      RowsUnderAllKeys(init);
      RowsUnderStep(init, e);
    }
  }

  /** One more entry is counted once more. */
  lemma RowsUnderStep(q: seq<Entry>, e: Entry)
    requires RowsUnder(q, KeysOf(q)) == |q|
    ensures RowsUnder(q + [e], KeysOf(q + [e])) == |q| + 1
  {
    var keys, k := KeysOf(q), KeyOf(e);
    KeysListedOnce(q);
    KeysOfSnoc(q, e);
    RowsUnderSnoc(q, e, keys);
    if k !in keys {
      NewKeyCountsOne(q, e, keys);
    }
  }

  lemma KeysListedOnce(q: seq<Entry>)
    ensures forall i, j :: 0 <= i < j < |KeysOf(q)| ==> KeysOf(q)[i] != KeysOf(q)[j]
  {
    KeysOfDistinct(q);
  }

  /** An entry with a new key is the only one counted under that key. */
  lemma NewKeyCountsOne(q: seq<Entry>, e: Entry, keys: seq<string>)
    requires keys == KeysOf(q) && KeyOf(e) !in keys
    ensures RowsUnder(q + [e], keys + [KeyOf(e)]) == RowsUnder(q + [e], keys) + 1
  {
    var k := KeyOf(e);
    assert (keys + [k])[..|keys|] == keys;
    WithKeySnoc(q, e, k);
    WithKeyNonEmpty(q, k);
  }

  /** The first `n` finished groups hold as many departures as their keys have entries. */
  lemma {:induction false} TotalOfFirstGroups(q: seq<Entry>, midnight: int, n: nat)
    requires n <= |KeysOf(q)|
    ensures Total(FinalGroups(q, midnight)[..n]) == RowsUnder(q, KeysOf(q)[..n])
    decreases n
  {
    if n > 0 {
      var keys, groups := KeysOf(q), FinalGroups(q, midnight);
      TotalOfFirstGroups(q, midnight, n - 1);
      TotalOfPrefix(groups, n);
      RowsUnderPrefix(q, keys, n);
      GroupSize(q, keys[n - 1], midnight);
    }
  }

  lemma TotalOfPrefix(gs: seq<Group>, n: nat)
    requires 0 < n <= |gs|
    ensures Total(gs[..n]) == Total(gs[..n - 1]) + |gs[n - 1].departures|
  {
    assert gs[..n][..n - 1] == gs[..n - 1];
  }

  lemma RowsUnderPrefix(q: seq<Entry>, keys: seq<string>, n: nat)
    requires 0 < n <= |keys|
    ensures RowsUnder(q, keys[..n]) == RowsUnder(q, keys[..n - 1]) + |WithKey(q, keys[n - 1])|
  {
    assert keys[..n][..n - 1] == keys[..n - 1];
  }

  /** A finished group holds one departure per entry of its key. */
  lemma GroupSize(q: seq<Entry>, k: string, midnight: int)
    requires k in KeysOf(q)
    ensures |GroupOf(q, k, midnight).departures| == |WithKey(q, k)|
  {
    GroupDepartures(q, k, midnight);
  }

  /** Inserting a group adds its departures to the total. */
  lemma {:induction false} TotalInsert(t: seq<Group>, x: Group, before: (Group, Group) -> bool)
    ensures Total(Insert(t, x, before)) == Total(t) + |x.departures|
    decreases |t|
  {
    if t == [] || before(t[|t| - 1], x) {
      assert (t + [x])[..|t|] == t;
    } else {
      var init := t[..|t| - 1];
      TotalInsert(init, x, before);
      var r := Insert(init, x, before) + [t[|t| - 1]];
      assert r[..|r| - 1] == Insert(init, x, before);
    }
  }

  /** Sorting the groups keeps the number of departures. */
  lemma {:induction false} TotalSorted(s: seq<Group>, before: (Group, Group) -> bool)
    ensures Total(InsertionSorted(s, before)) == Total(s)
    decreases |s|
  {
    if s != [] {
      TotalSorted(s[..|s| - 1], before);
      TotalInsert(InsertionSorted(s[..|s| - 1], before), s[|s| - 1], before);
    }
  }

  /**
   * No qualifying row is lost or counted twice: the groups returned hold,
   * together, exactly one departure per row that passed the time filter
   * and whose trip and route resolved.
   */
  lemma NoRowLost(store: Store, stopIds: seq<string>, currentTime: string, midnight: int)
    ensures Total(Aggregate(store, stopIds, currentTime, midnight)) == |Qualifying(store, stopIds, currentTime)|
  {
    var q := Qualifying(store, stopIds, currentTime);
    var groups := FinalGroups(q, midnight);
    TotalOfFirstGroups(q, midnight, |KeysOf(q)|);
    assert groups[..|KeysOf(q)|] == groups;
    assert KeysOf(q)[..|KeysOf(q)|] == KeysOf(q);
    RowsUnderAllKeys(q);
    TotalSorted(groups, GroupBefore);
  }

  /**
   * Everything a group on the board shows comes from a monitored row that
   * departs at or after the current time: each departure's instant is
   * that row's clock time on today's date, and each headsign is that
   * row's trip headsign.
   */
  lemma OnlyFutureRowsShown(store: Store, stopIds: seq<string>, currentTime: string, midnight: int, g: Group)
    requires g in Aggregate(store, stopIds, currentTime, midnight)
    ensures forall d :: d in g.departures ==> exists e :: (Shown(store, stopIds, currentTime, e)
      && d.departureTime == midnight + ClockSeconds(e.row.departureTime) && d.stopId == e.stopId)
    ensures forall h :: h in g.headsigns ==> h != "" && exists e :: (Shown(store, stopIds, currentTime, e)
      && e.trip.headsign == h)
  {
    var q := Qualifying(store, stopIds, currentTime);
    AggregateIsGroups(store, stopIds, currentTime, midnight);
    var k :| k in KeysOf(q) && g == GroupOf(q, k, midnight);
    ShownDepartures(store, stopIds, currentTime, midnight, k);
    ShownHeadsigns(store, stopIds, currentTime, midnight, k);
  }

  lemma ShownDepartures(store: Store, stopIds: seq<string>, currentTime: string, midnight: int, k: string)
    requires k in KeysOf(Qualifying(store, stopIds, currentTime))
    ensures forall d :: d in GroupOf(Qualifying(store, stopIds, currentTime), k, midnight).departures ==>
      exists e :: (Shown(store, stopIds, currentTime, e)
        && d.departureTime == midnight + ClockSeconds(e.row.departureTime) && d.stopId == e.stopId)
  {
    var q := Qualifying(store, stopIds, currentTime);
    DepartureProvenance(q, k, midnight);
    forall d | d in GroupOf(q, k, midnight).departures
      ensures exists e :: (Shown(store, stopIds, currentTime, e)
        && d.departureTime == midnight + ClockSeconds(e.row.departureTime) && d.stopId == e.stopId)
    {
      var e :| e in q && KeyOf(e) == k && d.(isLastDeparture := false) == DepartureOf(e, midnight);
      QualifyingIff(store, stopIds, currentTime, e);
      assert Shown(store, stopIds, currentTime, e);
    }
  }

  lemma ShownHeadsigns(store: Store, stopIds: seq<string>, currentTime: string, midnight: int, k: string)
    requires k in KeysOf(Qualifying(store, stopIds, currentTime))
    ensures forall h :: h in GroupOf(Qualifying(store, stopIds, currentTime), k, midnight).headsigns ==>
      h != "" && exists e :: Shown(store, stopIds, currentTime, e) && e.trip.headsign == h
  {
    var q := Qualifying(store, stopIds, currentTime);
    var L := WithKey(q, k);
    WithKeyNonEmpty(q, k);
    assert GroupOf(q, k, midnight).headsigns == Headsigns(L);
    HeadsignsDistinct(L);
    forall h | h in Headsigns(L)
      ensures h != "" && exists e :: Shown(store, stopIds, currentTime, e) && e.trip.headsign == h
    {
      var e :| e in L && e.trip.headsign == h;
      WithKeyIff(q, k, e);
      QualifyingIff(store, stopIds, currentTime, e);
      assert Shown(store, stopIds, currentTime, e);
    }
  }

  /** `e` is a row of a monitored stop, not in the past, whose trip and route resolve. */
  ghost predicate Shown(store: Store, stopIds: seq<string>, currentTime: string, e: Entry) {
    && e.stopId in stopIds && e.row in StopTimesAt(store, e.stopId)
    && !StrLess(e.row.departureTime, currentTime)
    && Admitted(store, currentTime, e)
  }

  // ---------------------------------------------------------------- metadata

  /** The first entry with key `k` is the first element of `WithKey(q, k)`. */
  lemma {:induction false} WithKeyStartsAtFirst(q: seq<Entry>, k: string)
    requires WithKey(q, k) != []
    ensures exists i :: (0 <= i < |q| && q[i] == WithKey(q, k)[0] && KeyOf(q[i]) == k
      && forall j :: 0 <= j < i ==> KeyOf(q[j]) != k)
    decreases |q|
  {
    var init, e := q[..|q| - 1], q[|q| - 1];
    assert WithKey(q, k) == WithKey(init, k) + (if KeyOf(e) == k then [e] else []);
    if WithKey(init, k) != [] {
      WithKeyStartsAtFirst(init, k);
      var i :| 0 <= i < |init| && init[i] == WithKey(init, k)[0] && KeyOf(init[i]) == k
        && forall j :: 0 <= j < i ==> KeyOf(init[j]) != k;
      assert q[i] == init[i] && WithKey(q, k)[0] == WithKey(init, k)[0];
      assert forall j :: 0 <= j < i ==> q[j] == init[j];
    } else {
      assert WithKey(q, k) == [e] && KeyOf(e) == k;
      forall j | 0 <= j < |init| ensures KeyOf(q[j]) != k {
        WithKeyIff(init, k, init[j]);
        assert q[j] == init[j];
      }
      assert q[|q| - 1] == WithKey(q, k)[0];
    }
  }

  /**
   * A group's route metadata comes from the first qualifying row with its
   * key: short name falls back to the long name and then the id, colour
   * to CCCCCC, sort order to 999999, and the direction to 0.
   */
  lemma MetadataFromFirstRow(q: seq<Entry>, k: string, midnight: int, i: nat)
    requires i < |q| && KeyOf(q[i]) == k
    requires forall j :: 0 <= j < i ==> KeyOf(q[j]) != k
    ensures k in KeysOf(q)
    ensures var g, route, trip := GroupOf(q, k, midnight), q[i].route, q[i].trip;
      && g.routeId == route.routeId
      && g.routeShortName == (if route.shortName != "" then route.shortName else if route.longName != "" then route.longName else route.routeId)
      && g.routeLongName == route.longName
      && g.routeColor == (if route.color != "" then route.color else "CCCCCC")
      && g.routeTextColor == route.textColor
      && g.routeSortOrder == (if route.sortOrder.Some? then route.sortOrder.value else 999999)
      && g.directionId == (if trip.directionId.Some? then trip.directionId.value else 0)
  {
    WithKeyIff(q, k, q[i]);
    WithKeyNonEmpty(q, k);
    GroupOfMetadata(q, k, midnight);
    WithKeyStartsAtFirst(q, k);
    var i' :| 0 <= i' < |q| && q[i'] == WithKey(q, k)[0] && KeyOf(q[i']) == k
      && forall j :: 0 <= j < i' ==> KeyOf(q[j]) != k;
    assert i' == i;
  }

  /** The finished group keeps the metadata of the group literal made for the first entry of its key. */
  lemma GroupOfMetadata(q: seq<Entry>, k: string, midnight: int)
    requires k in KeysOf(q)
    ensures WithKey(q, k) != []
    ensures GroupOf(q, k, midnight).(headsigns := [], departures := []) == NewGroup(WithKey(q, k)[0].route, WithKey(q, k)[0].trip)
  {
    WithKeyNonEmpty(q, k);
  }

  // ---------------------------------------------------------------- realtime

  /**
   * A departure is realtime exactly when the row carries a non-zero delay
   * or a non-zero predicted time, so a zero delay alone is not realtime;
   * the delay is recorded as given and does not move the departure time.
   */
  lemma RealtimeAndDelay(e: Entry, midnight: int, delay: Option<int>)
    ensures DepartureOf(e, midnight).isRealtime <==>
      (e.row.delay.Some? && e.row.delay.value != 0) || (e.row.time.Some? && e.row.time.value != 0)
    ensures DepartureOf(e, midnight).delay == e.row.delay
    ensures DepartureOf(e.(row := e.row.(delay := delay)), midnight).departureTime == DepartureOf(e, midnight).departureTime
    ensures e.row.time.None? ==> !DepartureOf(e.(row := e.row.(delay := Some(0))), midnight).isRealtime
  {
  }
}
