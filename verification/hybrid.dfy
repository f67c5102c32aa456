/** The hybrid generator (`HybridRouteGenerator.generate_route`): when the language model is
  * enabled and configured, build the route from its suggestion with the simple matcher and
  * re-order the stops by nearest neighbour, saving them one row at a time; when the model gives
  * no reply, the route cannot be stored or a re-ordered row clashes on save, fall back to the
  * algorithmic generator. */
module Hybrid {
  import opened Wrappers
  import opened Geo
  import opened Attractions
  import opened RouteModels
  import opened NameIndex
  import opened Nearest
  import opened Suggestions
  import opened Optimizer
  import opened Selector
  import opened SimpleMatcher

  /** The stops the simple matcher creates for a reply. */
  function ReplyStops(catalog: seq<Attraction>, reply: RouteReply): seq<Stop>
  {
    MatchedStops(NameIndexOf(ActiveInDefaultOrder(catalog)), GetOr(reply.attractions, []))
  }

  /** The route the suggestion path leaves behind when it can be stored: the matched route, with
    * its stops read back by position and re-ordered by nearest neighbour, the rows saved one at a
    * time. A clash while storing the stops or while saving a re-ordered row loses the route. Its
    * distance is the one accumulated in suggestion order; the re-ordering does not recompute it. */
  function ReorderedReplyRoute(dist: DistFn, catalog: seq<Attraction>, reply: RouteReply, durationHours: int): (r: Option<Generated>)
    ensures r.Some? <==>
      DistinctOrders(ReplyStops(catalog, reply)) && SavedOrder(dist, SortByOrder(ReplyStops(catalog, reply))).Success?
  {
    var stops := ReplyStops(catalog, reply);
    if !DistinctOrders(stops) then None
    else match SavedOrder(dist, SortByOrder(stops))
      case Success(saved) =>
        Some(Generated(SuggestedRoute(reply, durationHours, GuardedLength(dist, StopPosition, stops)), saved))
      case Failure(_) => None
  }

  /** The first stop read back holds the smallest position. */
  lemma ReadBackFirstSmallest(stops: seq<Stop>)
    requires stops != []
    ensures var sorted := SortByOrder(stops);
      |sorted| == |stops| && forall s :: s in stops ==> sorted[0].order <= s.order
  {
    var sorted := SortByOrder(stops);
    assert |sorted| == |multiset(sorted)| == |stops|;
    forall s | s in stops
      ensures sorted[0].order <= s.order
    {
      assert s in multiset(sorted);
      var k :| 0 <= k < |sorted| && sorted[k] == s;
    }
  }

  /** Reading a route's stops back by position and re-ordering them keeps one stop or none as
    * they are; more stops become a permutation of them, numbered 1..n, that starts with the stop
    * of smallest position and then follows the nearest-neighbour path. */
  lemma ReadBackOptimized(dist: DistFn, stops: seq<Stop>)
    ensures var sorted := SortByOrder(stops);
      var g := OptimizedOrder(dist, sorted);
      && |g| == |stops|
      && (|stops| <= 1 ==> g == stops)
      && (|stops| > 1 ==>
            && NumberedInSequence(g) && ValidStops(g)
            && (exists o :: multiset(o) == multiset(stops) && g == Renumbered(o))
            && NearestNeighbourPath(dist, StopPosition, g[0], g[1..])
            && g[0] == sorted[0].(order := 1)
            && forall s :: s in stops ==> sorted[0].order <= s.order)
  {
    var sorted := SortByOrder(stops);
    assert |sorted| == |multiset(sorted)| == |stops|;
    if |stops| == 1 {
      assert sorted[0] in multiset(stops);
      assert stops == [stops[0]] && sorted == [sorted[0]];
    } else if |stops| > 1 {
      var o := NearestNeighbourOrder(dist, sorted);
      NearestNeighbourOrderSpec(dist, sorted);
      RenumberedKeepsPath(dist, o);
      NumberedStopsValid(Renumbered(o));
      ReadBackFirstSmallest(stops);
      assert multiset(o) == multiset(stops);
    }
  }

  /** The stored suggested route keeps the matched stops' guarded distance in suggestion order and
    * holds their read-back stops re-ordered as if every position were written together. */
  lemma ReorderedReplyRouteSpec(dist: DistFn, catalog: seq<Attraction>, reply: RouteReply, durationHours: int)
    requires ReorderedReplyRoute(dist, catalog, reply, durationHours).Some?
    ensures var g := ReorderedReplyRoute(dist, catalog, reply, durationHours).value;
      var stops := ReplyStops(catalog, reply);
      && g.route.distanceKm == GuardedLength(dist, StopPosition, stops)
      && g.route.budget == 0 && !g.route.isPublic
      && g.stops == OptimizedOrder(dist, SortByOrder(stops))
      && |g.stops| == |stops|
      && (|stops| <= 1 ==> g.stops == stops)
      && (|stops| > 1 ==>
            && NumberedInSequence(g.stops) && ValidStops(g.stops)
            && (exists o :: multiset(o) == multiset(stops) && g.stops == Renumbered(o))
            && NearestNeighbourPath(dist, StopPosition, g.stops[0], g.stops[1..]))
  {
    ReadBackOptimized(dist, ReplyStops(catalog, reply));
  }

  /** When the matched stops are numbered 1..n in suggestion order, as a reply that lists its
    * stops in order gives, the suggested route of more than one stop survives exactly when the
    * suggestion is already a nearest-neighbour path, and then it is kept unchanged: whenever the
    * re-ordering would move a stop, the hybrid generator falls back. */
  lemma NumberedReplyKeptOnlyUnchanged(dist: DistFn, catalog: seq<Attraction>, reply: RouteReply, durationHours: int)
    requires var stops := ReplyStops(catalog, reply); |stops| > 1 && NumberedInSequence(stops)
    ensures var stops := ReplyStops(catalog, reply);
      var r := ReorderedReplyRoute(dist, catalog, reply, durationHours);
      && (r.Some? <==> NearestNeighbourPath(dist, StopPosition, stops[0], stops[1..]))
      && (r.Some? ==> r.value.stops == stops)
  {
    var stops := ReplyStops(catalog, reply);
    NumberedStopsValid(stops);
    SortByOrderSorted(stops);
    SavedOnlyWhenUnchanged(dist, stops);
    NearestNeighbourOrderSpec(dist, stops);
    if NearestNeighbourPath(dist, StopPosition, stops[0], stops[1..]) {
      NearestNeighbourOrderFixed(dist, stops);
    }
  }

  /** With the model enabled and configured and a reply at hand, the suggested route is stored and
    * re-ordered when its positions are distinct and every re-ordered row saves. Every other case
    * (model disabled or not configured, no reply, a position clash) gives what the algorithmic
    * generator gives. */
  method GenerateHybrid(dist: DistFn, catalog: seq<Attraction>, stored: Option<UserPreference>, req: Request,
                        useLlm: bool, hasApiKey: bool, reply: Option<RouteReply>)
    returns (r: Result<Generated, RouteError>)
    ensures var suggested := if useLlm && hasApiKey && reply.Some?
                             then ReorderedReplyRoute(dist, catalog, reply.value, req.durationHours) else None;
      var q := ResolvePreferences(req, stored);
      var cands := Candidates(catalog, q);
      && (suggested.Some? ==> r == Success(suggested.value))
      && (suggested.None? ==> (r.Failure? <==> cands == []))
      && (suggested.None? && r.Success? ==> r.value == AlgorithmicRoute(dist, q, Select(dist, q, cands)))
  {
    if useLlm && hasApiKey && reply.Some? {
      var created := CreateRouteFromReply(dist, catalog, reply.value, req.durationHours);
      if created.Success? {
        var readBack := SortByOrder(created.value.stops);
        var optimized := OptimizeRouteOrder(dist, readBack);
        if optimized.Success? {
          return Success(Generated(created.value.route, optimized.value));
        }
      }
    }
    r := GenerateRoute(dist, catalog, stored, req);
  }
}
