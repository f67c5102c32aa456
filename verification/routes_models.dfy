/** Route records: a route, its stops (route-to-attraction rows) and a user's stored preferences,
  * with the validators, uniqueness constraint, ordering and defaults the store declares. */
module RouteModels {
  import opened Wrappers
  import opened Attractions

  /** A route row. `budget` is in kopecks, `distanceKm` in kilometres. */
  datatype Route = Route(
    name: string,
    description: string,
    durationHours: int,
    budget: int,
    distanceKm: real,
    isPublic: bool,
    isFavorite: bool,
    viewsCount: int)

  /** One stop of a route: the attraction visited, its 1-based position, a visit duration in
    * minutes and an optional note. */
  datatype Stop = Stop(attraction: Attraction, order: int, visitDuration: int, notes: Option<string>)

  /** A user's stored preferences; `maxBudget` in kopecks, durations in minutes. */
  datatype UserPreference = UserPreference(
    interests: seq<string>,
    preferredDurationMin: int,
    preferredDurationMax: int,
    maxBudget: int,
    preferredCategories: seq<nat>)

  /** The route validators: at least one hour, a non-negative budget of ten digits with two
    * decimal places, a distance of eight digits with two decimal places. */
  predicate ValidRoute(r: Route)
  {
    && |r.name| <= 200
    && r.durationHours >= 1
    && 0 <= r.budget && FitsDigits(r.budget, 10)
    && -1000000.0 < r.distanceKm < 1000000.0
  }

  /** The stop validators and the (route, order) uniqueness constraint, for the stops of one route. */
  predicate ValidStops(stops: seq<Stop>)
  {
    && (forall i :: 0 <= i < |stops| ==> stops[i].order >= 1)
    && (forall i, j :: 0 <= i < j < |stops| ==> stops[i].order != stops[j].order)
  }

  /** The stops of one route listed in their default ordering (by order). */
  predicate SortedByOrder(stops: seq<Stop>)
  {
    forall i, j :: 0 <= i < j < |stops| ==> stops[i].order <= stops[j].order
  }

  /** Positions 1..k in list order: what assembly and re-optimisation leave behind. */
  predicate NumberedInSequence(stops: seq<Stop>)
  {
    forall i :: 0 <= i < |stops| ==> stops[i].order == i + 1
  }

  /** Contiguous numbering from 1 satisfies the validators and the uniqueness constraint, and lists
    * the stops in their default ordering. */
  lemma NumberedStopsValid(stops: seq<Stop>)
    requires NumberedInSequence(stops)
    ensures ValidStops(stops) && SortedByOrder(stops)
  {
  }

  /** A new stop with the declared defaults: a visit of 60 minutes and no note. */
  function NewStop(a: Attraction, order: int): (s: Stop)
    ensures s.attraction == a && s.order == order
    ensures s.visitDuration == 60 && s.notes.None?
    ensures order >= 1 <==> ValidStops([s])
  {
    var s := Stop(a, order, 60, None);
    assert [s][0] == s;
    s
  }

  predicate ValidPreference(p: UserPreference)
  {
    && p.preferredDurationMin >= 30
    && p.preferredDurationMax >= 60
    && 0 <= p.maxBudget && FitsDigits(p.maxBudget, 10)
  }

  /** The preferences a user gets by default: no interests, 60 to 480 minutes, no budget limit,
    * no preferred categories. */
  function DefaultPreference(): (p: UserPreference)
    ensures ValidPreference(p)
    ensures p.interests == [] && p.preferredCategories == [] && p.maxBudget == 0
    ensures p.preferredDurationMin == 60 && p.preferredDurationMax == 480
  {
    UserPreference([], 60, 480, 0, [])
  }

  /** Inserting one stop into a list sorted by position, after every stop with a position not
    * greater than its own. */
  function InsertByOrder(x: Stop, s: seq<Stop>): (r: seq<Stop>)
    requires SortedByOrder(s)
    ensures SortedByOrder(r)
    ensures multiset(r) == multiset(s) + multiset{x}
    ensures r != [] && (r[0] == x || (s != [] && r[0] == s[0]))
  {
    if s == [] then [x]
    else if s[0].order <= x.order then
      var rest := InsertByOrder(x, s[1..]);
      StopAfterHead(x, s, rest);
      [s[0]] + rest
    else
      StopBeforeHead(x, s);
      [x] + s
  }

  /** When `x` goes after the head, the head's position is below every position after it. */
  lemma StopAfterHead(x: Stop, s: seq<Stop>, rest: seq<Stop>)
    requires s != [] && SortedByOrder(s) && s[0].order <= x.order
    requires SortedByOrder(rest) && multiset(rest) == multiset(s[1..]) + multiset{x}
    ensures SortedByOrder([s[0]] + rest)
    ensures multiset([s[0]] + rest) == multiset(s) + multiset{x}
  {
    forall k | 0 <= k < |rest|
      ensures s[0].order <= rest[k].order
    {
      assert rest[k] in multiset(rest);
      if rest[k] != x {
        assert rest[k] in multiset(s[1..]);
        var j :| 0 <= j < |s[1..]| && s[1..][j] == rest[k];
        assert s[j + 1] == rest[k];
      }
    }
    var r := [s[0]] + rest;
    forall i, j | 0 <= i < j < |r|
      ensures r[i].order <= r[j].order
    {
      assert r[j] == rest[j - 1];
      if i > 0 {
        assert r[i] == rest[i - 1];
      }
    }
    assert s == [s[0]] + s[1..];
  }

  /** When `x` goes before the head, its position is below every position. */
  lemma StopBeforeHead(x: Stop, s: seq<Stop>)
    requires s != [] && SortedByOrder(s) && x.order < s[0].order
    ensures SortedByOrder([x] + s)
  {
    var r := [x] + s;
    forall i, j | 0 <= i < j < |r|
      ensures r[i].order <= r[j].order
    {
      assert r[j] == s[j - 1];
      if i > 0 {
        assert r[i] == s[i - 1];
      }
    }
  }

  /** A route's stops as they are read back: in their default ordering, by position. */
  function SortByOrder(s: seq<Stop>): (r: seq<Stop>)
    ensures SortedByOrder(r)
    ensures multiset(r) == multiset(s)
  {
    if s == [] then []
    else
      assert s == s[..|s| - 1] + [s[|s| - 1]];
      InsertByOrder(s[|s| - 1], SortByOrder(s[..|s| - 1]))
  }

  /** A stop whose position is not below any listed one goes last. */
  lemma {:induction false} InsertByOrderLast(x: Stop, s: seq<Stop>)
    requires SortedByOrder(s) && forall i :: 0 <= i < |s| ==> s[i].order <= x.order
    ensures InsertByOrder(x, s) == s + [x]
  {
    if s != [] {
      InsertByOrderLast(x, s[1..]);
      assert s == [s[0]] + s[1..];
    }
  }

  /** Stops already in position order are read back as they are. */
  lemma {:induction false} SortByOrderSorted(s: seq<Stop>)
    requires SortedByOrder(s)
    ensures SortByOrder(s) == s
  {
    if s != [] {
      var n := |s| - 1;
      SortByOrderSorted(s[..n]);
      InsertByOrderLast(s[n], s[..n]);
      assert s == s[..n] + [s[n]];
    }
  }
}
