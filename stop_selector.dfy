/**
 * The stop picker of the URL builder: the search box's filter over the
 * feed's stops, the set of ticked stops, and the list it hands back.
 */
module StopSelector {
  import opened Wrappers
  import opened Text
  import opened Lists

  datatype Stop = Stop(id: string, name: Option<string>, code: Option<string>)

  /** At most this many stops are listed for a search. */
  const ResultLimit := 100

  /** `field?.toLowerCase().includes(query)`: a missing field never matches. */
  predicate FieldMatches(field: Option<string>, query: string) {
    field.Some? && Contains(ToLower(field.value), query)
  }

  /** The stop's name, id or code contains the lower-cased query. */
  predicate StopMatches(stop: Stop, query: string) {
    FieldMatches(stop.name, query) || FieldMatches(Some(stop.id), query) || FieldMatches(stop.code, query)
  }

  /** The filter callback for a lower-cased query. */
  function MatchesQuery(query: string): Stop -> bool {
    s => StopMatches(s, query)
  }

  /**
   * The stops listed for the text in the search box: all of them when it
   * is blank, otherwise the first hundred that match it. The query is
   * lower-cased but not trimmed.
   */
  function SearchStops(stops: seq<Stop>, searchQuery: string): (r: seq<Stop>)
    ensures Trim(searchQuery) == "" ==> r == stops
    ensures Trim(searchQuery) != "" ==> |r| <= ResultLimit
  {
    if Trim(searchQuery) == "" then stops
    else
      var query := ToLower(searchQuery);
      Take(Filter(stops, MatchesQuery(query)), ResultLimit)
  }

  // ---------------------------------------------------------------- search properties

  /**
   * A search lists matching stops in feed order and skips none of them
   * before the last one listed; it lists every match when there are at
   * most a hundred, and exactly a hundred otherwise.
   */
  lemma SearchIsFirstMatches(stops: seq<Stop>, searchQuery: string)
    requires Trim(searchQuery) != ""
    ensures FirstKept(SearchStops(stops, searchQuery), stops, MatchesQuery(ToLower(searchQuery)), ResultLimit)
  {
    TakeOfFilter(stops, MatchesQuery(ToLower(searchQuery)), ResultLimit);
  }

  /** A stop is listed for a blank-free query only when it matches; when at most a hundred match, exactly the matches are listed. */
  lemma SearchMembers(stops: seq<Stop>, searchQuery: string, s: Stop)
    requires Trim(searchQuery) != ""
    ensures s in SearchStops(stops, searchQuery) ==> s in stops && StopMatches(s, ToLower(searchQuery))
    ensures |Filter(stops, MatchesQuery(ToLower(searchQuery)))| <= ResultLimit ==>
      (s in SearchStops(stops, searchQuery) <==> s in stops && StopMatches(s, ToLower(searchQuery)))
  {
    var all := Filter(stops, MatchesQuery(ToLower(searchQuery)));
    FilterMembers(stops, MatchesQuery(ToLower(searchQuery)));
    if s in SearchStops(stops, searchQuery) {
      var j :| 0 <= j < |SearchStops(stops, searchQuery)| && SearchStops(stops, searchQuery)[j] == s;
      assert all[j] == s;
    }
  }

  /** Lower-case and upper-case letters in the query find the same stops. */
  lemma SearchIgnoresCase(stops: seq<Stop>, searchQuery: string)
    ensures SearchStops(stops, searchQuery) == SearchStops(stops, ToLower(searchQuery))
  {
    ToLowerIdempotent(searchQuery);
    BlankOfLower(searchQuery);
  }

  // ---------------------------------------------------------------- selection

  /** The filter callback keeping everything but `x`. */
  function Other(x: string): string -> bool {
    y => y != x
  }

  /** `Set.delete`: the sequence without `x`. */
  function Without(s: seq<string>, x: string): seq<string> {
    Filter(s, Other(x))
  }

  /** `toggleStop` on the selection in insertion order: a ticked stop is removed, any other is appended. */
  function Toggled(s: seq<string>, x: string): seq<string> {
    if x in s then Without(s, x) else s + [x]
  }

  /** The selection after ticking the stops in `clicks`, one after the other, from an empty selection. */
  function Selected(clicks: seq<string>): seq<string>
    decreases |clicks|
  {
    if clicks == [] then [] else Toggled(Selected(clicks[..|clicks| - 1]), clicks[|clicks| - 1])
  }

  /** The position of the last click on `y`, or -1 when `y` was never clicked. */
  function LastIndex(clicks: seq<string>, y: string): (r: int)
    ensures -1 <= r < |clicks|
    ensures r >= 0 <==> y in clicks
    ensures r >= 0 ==> clicks[r] == y
    decreases |clicks|
  {
    if clicks == [] then -1
    else if clicks[|clicks| - 1] == y then |clicks| - 1
    else
      LastSplit(clicks);
      LastIndex(clicks[..|clicks| - 1], y)
  }

  /** The selection kept by the picker: `Set` state in insertion order, and the clicks that produced it. */
  class Selection {
    var selected: seq<string>
    ghost var clicks: seq<string>

    ghost predicate Valid()
      reads this
    {
      selected == Selected(clicks)
    }

    constructor()
      ensures Valid() && clicks == [] && selected == []
    {
      selected := [];
      clicks := [];
    }

    /** `toggleStop`: copies the set, then deletes the stop from it or adds it. */
    method Toggle(stopId: string)
      requires Valid()
      modifies this
      ensures Valid() && clicks == old(clicks) + [stopId]
      ensures selected == Toggled(old(selected), stopId)
    {
      var newSelected := selected;
      if stopId in newSelected {
        var kept: seq<string> := [];
        var i := 0;
        while i < |newSelected|
          invariant 0 <= i <= |newSelected|
          invariant kept == Without(newSelected[..i], stopId)
        {
          assert newSelected[..i + 1] == newSelected[..i] + [newSelected[i]];
          if newSelected[i] != stopId {
            kept := kept + [newSelected[i]];
          }
          i := i + 1;
        }
        assert newSelected[..i] == newSelected;
        newSelected := kept;
      } else {
        newSelected := newSelected + [stopId];
      }
      selected := newSelected;
      clicks := clicks + [stopId];
      assert clicks[..|clicks| - 1] == old(clicks);
    }

    /** `handleConfirm`: `Array.from` of the set, in the order the stops were put into it. */
    method Confirm() returns (stopIds: seq<string>)
      requires Valid()
      ensures stopIds == Selected(clicks)
    {
      stopIds := selected;
    }
  }

  // ---------------------------------------------------------------- selection properties

  /** Toggling flips membership of the stop and leaves every other stop as it was, without creating duplicates. */
  lemma ToggledMembers(s: seq<string>, x: string)
    ensures forall y :: y in Toggled(s, x) <==> (y == x) != (y in s)
    ensures Distinct(s) ==> Distinct(Toggled(s, x))
  {
    if x in s {
      assert Toggled(s, x) == Without(s, x);
      FilterMembers(s, Other(x));
      forall y ensures y in Without(s, x) <==> y in s && y != x {
        assert Other(x)(y) <==> y != x;
      }
      if Distinct(s) {
        FilterDistinct(s, Other(x));
      }
    } else if Distinct(s) {
      var t := s + [x];
      forall i, j | 0 <= i < j < |t| ensures t[i] != t[j] {
        if j == |s| {
          assert t[i] in s;
        }
      }
    }
  }

  /** Toggling a stop twice restores the selected set; when the stop was not ticked, the list itself comes back. */
  lemma ToggleTwice(s: seq<string>, x: string)
    ensures forall y :: y in Toggled(Toggled(s, x), x) <==> y in s
    ensures x !in s ==> Toggled(Toggled(s, x), x) == s
  {
    ToggledMembers(s, x);
    ToggledMembers(Toggled(s, x), x);
    if x !in s {
      FilterKeepsAll(s, Other(x));
      assert Filter(s + [x], Other(x)) == Filter(s, Other(x)) by {
        assert (s + [x])[..|s|] == s;
      }
    }
  }

  /** A stop ends up selected exactly when it was clicked an odd number of times; no stop is listed twice. */
  lemma {:induction false} SelectedMembers(clicks: seq<string>)
    ensures forall y :: y in Selected(clicks) <==> multiset(clicks)[y] % 2 == 1
    ensures Distinct(Selected(clicks))
    decreases |clicks|
  {
    if clicks != [] {
      var init, x := clicks[..|clicks| - 1], clicks[|clicks| - 1];
      SelectedMembers(init);
      assert Selected(clicks) == Toggled(Selected(init), x);
      ToggledMembers(Selected(init), x);
      MultisetLast(clicks);
    }
  }

  /** Each listed stop's last click came before the next listed stop's: the list is in order of last selection. */
  predicate InClickOrder(s: seq<string>, clicks: seq<string>) {
    forall i, j :: 0 <= i < j < |s| ==> LastIndex(clicks, s[i]) < LastIndex(clicks, s[j])
  }

  /** The confirmed stops come in the order in which each was last ticked. */
  lemma {:induction false} SelectedInClickOrder(clicks: seq<string>)
    ensures InClickOrder(Selected(clicks), clicks)
    decreases |clicks|
  {
    if clicks != [] {
      var init, x := clicks[..|clicks| - 1], clicks[|clicks| - 1];
      LastSplit(clicks);
      SelectedInClickOrder(init);
      ClickKeepsOrder(init, x);
    }
  }

  /** One more click keeps the selection in click order. */
  lemma ClickKeepsOrder(init: seq<string>, x: string)
    requires InClickOrder(Selected(init), init)
    ensures InClickOrder(Selected(init + [x]), init + [x])
  {
    var s := Selected(init);
    assert (init + [x])[..|init|] == init;
    assert Selected(init + [x]) == Toggled(s, x);
    if x in s {
      RemovalKeepsOrder(s, init, x);
    } else {
      ClickOrderAfterOtherClick(s, init, x);
      ClickOrderAppend(s, init, x);
    }
  }

  /** Unticking a stop keeps the others in click order. */
  lemma RemovalKeepsOrder(s: seq<string>, init: seq<string>, x: string)
    requires InClickOrder(s, init)
    ensures InClickOrder(Without(s, x), init + [x])
  {
    var w := Without(s, x);
    assert w == Filter(s, Other(x));
    forall i, j | 0 <= i < j < |s| ensures ClickedBefore(init)(s[i], s[j]) {
      assert LastIndex(init, s[i]) < LastIndex(init, s[j]);
    }
    FilterKeepsOrder(s, Other(x), ClickedBefore(init));
    forall i, j | 0 <= i < j < |w| ensures LastIndex(init, w[i]) < LastIndex(init, w[j]) {
      assert ClickedBefore(init)(w[i], w[j]);
    }
    FilterMembers(s, Other(x));
    forall y | y in w ensures y != x {
      assert Other(x)(y);
    }
    ClickOrderAfterOtherClick(w, init, x);
  }

  /** `ClickedBefore(clicks)(a, b)`: `a` was last clicked before `b`. */
  function ClickedBefore(clicks: seq<string>): (string, string) -> bool {
    (a, b) => LastIndex(clicks, a) < LastIndex(clicks, b)
  }

  /** A click on a stop that is not listed leaves the order of the listed ones as it was. */
  lemma ClickOrderAfterOtherClick(s: seq<string>, init: seq<string>, x: string)
    requires InClickOrder(s, init) && x !in s
    ensures InClickOrder(s, init + [x])
  {
    forall y | y != x ensures LastIndex(init + [x], y) == LastIndex(init, y) {
      assert (init + [x])[..|init|] == init;
    }
  }

  /** The stop just clicked is the most recently clicked one. */
  lemma ClickOrderAppend(s: seq<string>, init: seq<string>, x: string)
    requires InClickOrder(s, init + [x]) && x !in s
    ensures InClickOrder(s + [x], init + [x])
  {
    var clicks, t := init + [x], s + [x];
    assert (init + [x])[..|init|] == init;
    forall i, j | 0 <= i < j < |t| ensures LastIndex(clicks, t[i]) < LastIndex(clicks, t[j]) {
      if j == |s| {
        assert t[i] == s[i] && t[i] != x;
        assert LastIndex(clicks, t[i]) == LastIndex(init, t[i]) < |init|;
      } else {
        assert t[i] == s[i] && t[j] == s[j];
      }
    }
  }
}
