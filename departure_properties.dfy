/**
 * What the departure pass guarantees: which rows it keeps, one group per
 * route and direction key, the order of groups and of departures, the
 * flag on the last departure, the headsign list, and how clock times
 * become instants.
 */
module DepartureProperties {
  import opened Wrappers
  import opened Text
  import opened Sorting
  import opened Departures
  import Lists

  // ---------------------------------------------------------------- kept rows

  /** The row of `e` is not in the past and its trip and route are the ones the store resolves. */
  predicate Admitted(store: Store, currentTime: string, e: Entry) {
    && !StrLess(e.row.departureTime, currentTime)
    && e.row.tripId in store.trips && store.trips[e.row.tripId] == e.trip
    && e.trip.routeId in store.routes && store.routes[e.trip.routeId] == e.route
  }

  lemma {:induction false} ResolvedRowsIff(store: Store, stopId: string, rows: seq<StopTime>, currentTime: string, e: Entry)
    ensures e in ResolvedRows(store, stopId, rows, currentTime)
            <==> e.stopId == stopId && e.row in rows && Admitted(store, currentTime, e)
    decreases |rows|
  {
    if rows != [] {
      var init := rows[..|rows| - 1];
      ResolvedRowsIff(store, stopId, init, currentTime, e);
      Lists.LastSplit(rows);
    }
  }

  /**
   * The pass keeps exactly the rows of the monitored stops that lie at or
   * after the current time and whose trip and route exist.
   */
  lemma {:induction false} QualifyingIff(store: Store, stopIds: seq<string>, currentTime: string, e: Entry)
    ensures e in Qualifying(store, stopIds, currentTime)
            <==> e.stopId in stopIds && e.row in StopTimesAt(store, e.stopId) && Admitted(store, currentTime, e)
    decreases |stopIds|
  {
    if stopIds != [] {
      var init, last := stopIds[..|stopIds| - 1], stopIds[|stopIds| - 1];
      QualifyingIff(store, init, currentTime, e);
      ResolvedRowsIff(store, last, StopTimesAt(store, last), currentTime, e);
      Lists.LastSplit(stopIds);
    }
  }

  /** A row that departs before the current time never reaches the board. */
  lemma PastRowsIgnored(store: Store, stopIds: seq<string>, currentTime: string, e: Entry)
    requires StrLess(e.row.departureTime, currentTime)
    ensures e !in Qualifying(store, stopIds, currentTime)
  {
    QualifyingIff(store, stopIds, currentTime, e);
  }

  // ---------------------------------------------------------------- keys

  predicate ValidDirection(d: Option<int>) {
    d.None? || d.value >= 0
  }

  lemma DashFree(d: Option<int>)
    requires ValidDirection(d)
    ensures '-' !in DirectionText(d)
  {
    if d.Some? {
      var t := NatToString(d.value);
      assert forall i :: 0 <= i < |t| ==> IsDigit(t[i]);
    }
  }

  lemma DirectionTextInjective(d1: Option<int>, d2: Option<int>)
    requires ValidDirection(d1) && ValidDirection(d2)
    requires DirectionText(d1) == DirectionText(d2)
    ensures d1 == d2
  {
    if d1.Some? && d2.Some? {
      NatToStringInjective(d1.value, d2.value);
    }
  }

  /** `a + "-" + t` determines `a` and `t` when `t` holds no dash. */
  lemma LastDashSplits(a: string, t: string, b: string, u: string)
    requires '-' !in t && '-' !in u
    requires a + "-" + t == b + "-" + u
    ensures a == b && t == u
  {
    var s := a + "-" + t;
    if |a| < |b| {
      DashInside(a, t, b, u);
      assert false;
    } else if |b| < |a| {
      DashInside(b, u, a, t);
      assert false;
    } else {
      assert a == s[..|a|] == b;
      assert t == s[|a| + 1..] == u;
    }
  }

  lemma DashInside(a: string, t: string, b: string, u: string)
    requires a + "-" + t == b + "-" + u && |a| < |b|
    ensures '-' in t
  {
    var s := a + "-" + t;
    assert s[|b|] == t[|b| - |a| - 1];
  }

  /** With GTFS direction ids (absent, 0 or 1, or any non-negative id) the key names one route and direction. */
  lemma GroupKeyInjective(r1: string, d1: Option<int>, r2: string, d2: Option<int>)
    requires ValidDirection(d1) && ValidDirection(d2)
    requires GroupKey(r1, d1) == GroupKey(r2, d2)
    ensures r1 == r2 && d1 == d2
  {
    DashFree(d1);
    DashFree(d2);
    LastDashSplits(r1, DirectionText(d1), r2, DirectionText(d2));
    DirectionTextInjective(d1, d2);
  }

  /** A negative direction id lets two routes share a key, and so a group. */
  lemma GroupKeyCollision()
    ensures GroupKey("7", Some(-1)) == GroupKey("7-", Some(1))
  {
    assert IntToString(-1) == "-1";
    assert IntToString(1) == "1";
  }

  lemma {:induction false} WithKeyIff(q: seq<Entry>, k: string, e: Entry)
    ensures e in WithKey(q, k) <==> e in q && KeyOf(e) == k
    decreases |q|
  {
    if q != [] {
      var init := q[..|q| - 1];
      WithKeyIff(init, k, e);
      Lists.LastSplit(q);
    }
  }

  /** Keys are listed once each, and every listed key is the key of some entry. */
  lemma {:induction false} KeysOfDistinct(q: seq<Entry>)
    ensures forall i, j :: 0 <= i < j < |KeysOf(q)| ==> KeysOf(q)[i] != KeysOf(q)[j]
    ensures forall k :: k in KeysOf(q) <==> exists e :: e in q && KeyOf(e) == k
    decreases |q|
  {
    if q != [] {
      var init, e := q[..|q| - 1], q[|q| - 1];
      KeysOfDistinct(init);
      Lists.LastSplit(q);
      forall k ensures k in KeysOf(q) <==> exists x :: x in q && KeyOf(x) == k {
        if k in KeysOf(q) && k != KeyOf(e) {
          var x :| x in init && KeyOf(x) == k;
          assert x in q;
        }
      }
    }
  }

  // ---------------------------------------------------------------- groups

  lemma GroupBeforeTotalPreorder()
    ensures TotalPreorder(GroupBefore)
  {
    forall a: Group, b: Group ensures GroupBefore(a, b) || GroupBefore(b, a) {
      StrLeqTotalOrder(a.routeShortName, b.routeShortName, a.routeShortName);
    }
    forall a: Group, b: Group, c: Group | GroupBefore(a, b) && GroupBefore(b, c) ensures GroupBefore(a, c) {
      StrLeqTotalOrder(a.routeShortName, b.routeShortName, c.routeShortName);
    }
  }

  /**
   * The board holds one group per route and direction key of the kept rows,
   * no other group, and the groups ascend by sort order and then by short name.
   */
  lemma AggregateIsGroups(store: Store, stopIds: seq<string>, currentTime: string, midnight: int)
    ensures var q := Qualifying(store, stopIds, currentTime);
      var r := Aggregate(store, stopIds, currentTime, midnight);
      && |r| == |KeysOf(q)|
      && (forall g :: g in r <==> exists k :: k in KeysOf(q) && g == GroupOf(q, k, midnight))
      && SortedBy(r, GroupBefore)
  {
    var q := Qualifying(store, stopIds, currentTime);
    var f := FinalGroups(q, midnight);
    GroupBeforeTotalPreorder();
    SortedRearrangement(f, GroupBefore);
    FinalGroupsMembers(q, midnight);
  }

  lemma FinalGroupsMembers(q: seq<Entry>, midnight: int)
    ensures forall g :: g in FinalGroups(q, midnight) <==> exists k :: k in KeysOf(q) && g == GroupOf(q, k, midnight)
  {
    var keys := KeysOf(q);
    var f := FinalGroups(q, midnight);
    assert |f| == |keys|;
    forall g | g in f ensures exists k :: k in keys && g == GroupOf(q, k, midnight) {
      var i :| 0 <= i < |f| && f[i] == g;
      assert keys[i] in keys && f[i] == GroupOf(q, keys[i], midnight);
    }
    forall k | k in keys ensures GroupOf(q, k, midnight) in f {
      var i :| 0 <= i < |keys| && keys[i] == k;
      assert f[i] == GroupOf(q, k, midnight);
    }
  }

  // ---------------------------------------------------------------- departures of a group

  /** A departure list with the flag on its last element cleared again. */
  function Unmarked(ds: seq<Departure>): seq<Departure> {
    if ds == [] then [] else ds[..|ds| - 1] + [ds[|ds| - 1].(isLastDeparture := false)]
  }

  lemma {:induction false} DeparturesOfIff(L: seq<Entry>, midnight: int, d: Departure)
    ensures d in DeparturesOf(L, midnight) <==> exists e :: e in L && d == DepartureOf(e, midnight)
    decreases |L|
  {
    if L != [] {
      var init := L[..|L| - 1];
      DeparturesOfIff(init, midnight, d);
      Lists.LastSplit(L);
    }
  }

  lemma {:induction false} DeparturesOfLength(L: seq<Entry>, midnight: int)
    ensures |DeparturesOf(L, midnight)| == |L|
    decreases |L|
  {
    if L != [] {
      DeparturesOfLength(L[..|L| - 1], midnight);
    }
  }

  lemma {:induction false} DeparturesOfUnflagged(L: seq<Entry>, midnight: int)
    ensures forall d :: d in DeparturesOf(L, midnight) ==> !d.isLastDeparture
    decreases |L|
  {
    if L != [] {
      DeparturesOfUnflagged(L[..|L| - 1], midnight);
    }
  }

  /** Flagging the last element keeps the times, and clearing the flag again gives the list back. */
  lemma MarkLastFacts(S: seq<Departure>)
    requires forall d :: d in S ==> !d.isLastDeparture
    requires SortedBy(S, DepartureBefore)
    ensures var ds := MarkLast(S);
      && |ds| == |S|
      && SortedBy(ds, DepartureBefore)
      && (forall i :: 0 <= i < |ds| ==> (ds[i].isLastDeparture <==> i == |ds| - 1))
      && Unmarked(ds) == S
  {
    var ds := MarkLast(S);
    if S != [] {
      assert forall i :: 0 <= i < |S| ==> ds[i].departureTime == S[i].departureTime;
      assert forall i :: 0 <= i < |S| - 1 ==> ds[i] == S[i];
      assert S[|S| - 1] in S;
    }
  }

  /**
   * A group's departures are its rows' departures, ascending by time, and
   * exactly the last one is flagged as the last departure.
   */
  lemma GroupDepartures(q: seq<Entry>, k: string, midnight: int)
    requires k in KeysOf(q)
    ensures var ds := GroupOf(q, k, midnight).departures;
      && |ds| == |WithKey(q, k)| > 0
      && SortedBy(ds, DepartureBefore)
      && (forall i :: 0 <= i < |ds| ==> (ds[i].isLastDeparture <==> i == |ds| - 1))
      && multiset(Unmarked(ds)) == multiset(DeparturesOf(WithKey(q, k), midnight))
  {
    WithKeyNonEmpty(q, k);
    var L := WithKey(q, k);
    var D := DeparturesOf(L, midnight);
    var S := InsertionSorted(D, DepartureBefore);
    assert GroupOf(q, k, midnight).departures == MarkLast(S);
    DeparturesOfLength(L, midnight);
    DeparturesOfUnflagged(L, midnight);
    SortedRearrangement(D, DepartureBefore);
    MarkLastFacts(S);
  }

  /** Every departure of a group comes from one of the rows of its key. */
  lemma DepartureProvenance(q: seq<Entry>, k: string, midnight: int)
    requires k in KeysOf(q)
    ensures forall d :: d in GroupOf(q, k, midnight).departures ==>
      exists e :: e in q && KeyOf(e) == k && d.(isLastDeparture := false) == DepartureOf(e, midnight)
  {
    GroupDepartures(q, k, midnight);
    var ds := GroupOf(q, k, midnight).departures;
    var L := WithKey(q, k);
    forall d | d in ds ensures exists e :: e in q && KeyOf(e) == k && d.(isLastDeparture := false) == DepartureOf(e, midnight) {
      var i :| 0 <= i < |ds| && ds[i] == d;
      var u := Unmarked(ds)[i];
      assert u == d.(isLastDeparture := false) by {
        assert !d.isLastDeparture ==> d.(isLastDeparture := false) == d;
      }
      assert u in multiset(Unmarked(ds));
      DeparturesOfIff(L, midnight, u);
      var e :| e in L && u == DepartureOf(e, midnight);
      WithKeyIff(q, k, e);
    }
  }

  /** With GTFS direction ids, every departure of a group runs on the group's route and direction. */
  lemma GroupSharesRoute(q: seq<Entry>, k: string, midnight: int)
    requires k in KeysOf(q)
    requires forall e :: e in q ==> ValidDirection(e.trip.directionId)
    ensures var g := GroupOf(q, k, midnight);
      forall d :: d in g.departures ==> d.routeId == g.routeId && d.directionId == g.directionId
  {
    WithKeyNonEmpty(q, k);
    DepartureProvenance(q, k, midnight);
    var L := WithKey(q, k);
    var first := L[0];
    WithKeyIff(q, k, first);
    var g := GroupOf(q, k, midnight);
    forall d | d in g.departures ensures d.routeId == g.routeId && d.directionId == g.directionId {
      var e :| e in q && KeyOf(e) == k && d.(isLastDeparture := false) == DepartureOf(e, midnight);
      GroupKeyInjective(e.route.routeId, e.trip.directionId, first.route.routeId, first.trip.directionId);
    }
  }

  // ---------------------------------------------------------------- headsigns

  /**
   * A group's headsigns are the distinct non-empty headsigns of its trips,
   * listed in the order in which each first appears among the rows.
   */
  lemma HeadsignsDistinct(q: seq<Entry>)
    ensures forall i, j :: 0 <= i < j < |Headsigns(q)| ==> Headsigns(q)[i] != Headsigns(q)[j]
    ensures forall h :: h in Headsigns(q) <==> h != "" && exists e :: e in q && e.trip.headsign == h
    ensures forall i, j :: 0 <= i < j < |Headsigns(q)| ==> FirstSeen(q, Headsigns(q)[i]) < FirstSeen(q, Headsigns(q)[j])
  {
    HeadsignsMembers(q);
    HeadsignsInFirstSeenOrder(q);
  }

  /** The position of the first row whose trip has headsign `h`, or `|q|` when there is none. */
  function FirstSeen(q: seq<Entry>, h: string): (r: nat)
    ensures r <= |q|
    ensures r < |q| ==> q[r].trip.headsign == h
    ensures forall k :: 0 <= k < r ==> q[k].trip.headsign != h
    decreases |q|
  {
    if q == [] then 0
    else if q[0].trip.headsign == h then 0
    else 1 + FirstSeen(q[1..], h)
  }

  /** A headsign already seen keeps its first position when a row is added. */
  lemma FirstSeenSnocOld(init: seq<Entry>, e: Entry, h: string)
    requires exists k :: 0 <= k < |init| && init[k].trip.headsign == h
    ensures FirstSeen(init + [e], h) == FirstSeen(init, h) < |init|
  {
    var q := init + [e];
    var r := FirstSeen(init, h);
    var k :| 0 <= k < |init| && init[k].trip.headsign == h;
    PrefixRows(init, e);
    assert q[k] == init[k];
    assert r < |init|;
    assert q[r] == init[r];
  }

  /** A headsign first seen on the added row is first seen at its position. */
  lemma FirstSeenSnocNew(init: seq<Entry>, e: Entry)
    requires forall k :: 0 <= k < |init| ==> init[k].trip.headsign != e.trip.headsign
    ensures FirstSeen(init + [e], e.trip.headsign) == |init|
  {
    var q := init + [e];
    PrefixRows(init, e);
    assert q[|init|] == e;
  }

  /** Adding a row leaves the earlier rows where they were. */
  lemma PrefixRows(init: seq<Entry>, e: Entry)
    ensures forall k :: 0 <= k < |init| ==> (init + [e])[k] == init[k]
  { }

  /** The headsigns are exactly the non-empty headsigns of the rows, each listed once. */
  lemma {:induction false} HeadsignsMembers(q: seq<Entry>)
    ensures forall i, j :: 0 <= i < j < |Headsigns(q)| ==> Headsigns(q)[i] != Headsigns(q)[j]
    ensures forall h :: h in Headsigns(q) <==> h != "" && exists e :: e in q && e.trip.headsign == h
    decreases |q|
  {
    if q != [] {
      var init, last := q[..|q| - 1], q[|q| - 1];
      HeadsignsMembers(init);
      Lists.LastSplit(q);
      forall h ensures h in Headsigns(q) <==> h != "" && exists e :: e in q && e.trip.headsign == h {
        if h != "" && h != last.trip.headsign && exists e :: e in q && e.trip.headsign == h {
          var e :| e in q && e.trip.headsign == h;
          assert e in init;
        }
      }
    }
  }

  /** Each headsign is listed before every headsign first seen on a later row. */
  lemma {:induction false} HeadsignsInFirstSeenOrder(q: seq<Entry>)
    ensures forall i, j :: 0 <= i < j < |Headsigns(q)| ==> FirstSeen(q, Headsigns(q)[i]) < FirstSeen(q, Headsigns(q)[j])
    decreases |q|
  {
    if q != [] {
      var init, last := q[..|q| - 1], q[|q| - 1];
      var hs := Headsigns(init);
      HeadsignsInFirstSeenOrder(init);
      HeadsignsMembers(init);
      Lists.LastSplit(q);
      forall i | 0 <= i < |hs| ensures FirstSeen(q, hs[i]) == FirstSeen(init, hs[i]) < |init| {
        assert hs[i] in hs;
        var e :| e in init && e.trip.headsign == hs[i];
        var k :| 0 <= k < |init| && init[k] == e;
        FirstSeenSnocOld(init, last, hs[i]);
      }
      var h := last.trip.headsign;
      if h != "" && h !in hs {
        assert Headsigns(q) == hs + [h];
        forall k | 0 <= k < |init| ensures init[k].trip.headsign != h {
          assert init[k] in init;
        }
        FirstSeenSnocNew(init, last);
      } else {
        assert Headsigns(q) == hs;
      }
    }
  }

  // ---------------------------------------------------------------- clock times

  /** A departure time `hh:mm:ss` lands `h * 3600 + m * 60 + s` seconds after midnight, with 24 hours taken off a service-day hour. */
  lemma ClockSecondsOfFields(hh: string, mm: string, ss: string)
    requires AllDigits(hh) && AllDigits(mm) && AllDigits(ss)
    ensures var t := hh + ":" + mm + ":" + ss;
      var h := DigitsValue(hh);
      && WellFormedClock(t)
      && ClockSeconds(t) == (if h >= 24 then h - 24 else h) * 3600 + DigitsValue(mm) * 60 + DigitsValue(ss)
  {
    var pieces := [hh, mm, ss];
    assert pieces[1..] == [mm, ss];
    assert [mm, ss][1..] == [ss];
    assert Join([mm, ss], [':']) == mm + ":" + ss;
    assert Join(pieces, [':']) == hh + ":" + (mm + ":" + ss);
    assert hh + ":" + (mm + ":" + ss) == hh + ":" + mm + ":" + ss;
    forall i | 0 <= i < |pieces| ensures ':' !in pieces[i] {
      assert forall c :: c in pieces[i] ==> IsDigit(c);
    }
    SplitOfJoin(pieces, ':');
  }

  /**
   * A service-day time past midnight (`25:30:00`) lands on the same instant
   * as the same clock time at the start of the current day (`01:30:00`),
   * not on the next day.
   */
  lemma ServiceDayHourStaysOnToday(hh: string, cc: string, mm: string, ss: string)
    requires AllDigits(hh) && AllDigits(cc) && AllDigits(mm) && AllDigits(ss)
    requires DigitsValue(cc) < 24 && DigitsValue(hh) == DigitsValue(cc) + 24
    ensures ClockSeconds(hh + ":" + mm + ":" + ss) == ClockSeconds(cc + ":" + mm + ":" + ss)
  {
    ClockSecondsOfFields(hh, mm, ss);
    ClockSecondsOfFields(cc, mm, ss);
  }
}
