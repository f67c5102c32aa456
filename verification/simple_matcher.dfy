/** The simple place-name matcher (`LLMRouteGenerator.create_route_from_llm_response` of the
  * route generators): each suggested name is looked up exactly among the lower-cased names of the
  * active attractions, then by the first name that contains it or that it contains; a matched
  * name becomes a stop, an unmatched one is skipped. */
module SimpleMatcher {
  import opened Wrappers
  import opened Geo
  import opened Text
  import opened Attractions
  import opened RouteModels
  import opened NameIndex
  import opened Suggestions
  import opened Optimizer
  import opened Selector

  /** Either name contains the other. */
  predicate Related(n: string, k: string)
  {
    IsSubstring(n, k) || IsSubstring(k, n)
  }

  function RelatedTo(n: string): string -> bool
  {
    k => Related(n, k)
  }

  /** The exact entry for `n`, else the entry of the first key (in insertion order) related to it. */
  function Match(m: NameMap, n: string): (r: Option<Attraction>)
    requires ValidNameMap(m)
  {
    if n in m.values then Some(m.values[n])
    else
      var i := FirstWhere(m.order, RelatedTo(n));
      if i.Some? then
        assert m.order[i.value] in m.values;
        Some(m.values[m.order[i.value]])
      else None
  }

  /** On the name map of the active attractions, a name is matched exactly when some active
    * attraction's lower-cased name is related to it, and only to an active attraction whose
    * lower-cased name is related to it. An exact hit is the last active attraction of that name. */
  lemma MatchSpec(active: seq<Attraction>, n: string)
    ensures var r := Match(NameIndexOf(active), n);
      && (r.Some? <==> exists i :: 0 <= i < |active| && Related(n, Lower(active[i].name)))
      && (r.Some? ==> r.value in active && Related(n, Lower(r.value.name)))
      && (LastNamed(active, n).Some? ==> r == Some(active[LastNamed(active, n).value]))
  {
    var m := NameIndexOf(active);
    NameIndexLookup(active, n);
    SubstringOfSelf(n);
    FirstWhereSpec(m.order, RelatedTo(n));
    var i := FirstWhere(m.order, RelatedTo(n));
    if i.Some? {
      var k := m.order[i.value];
      NameIndexLookup(active, k);
    }
    if exists j :: 0 <= j < |active| && Related(n, Lower(active[j].name)) {
      var j :| 0 <= j < |active| && Related(n, Lower(active[j].name));
      var k := Lower(active[j].name);
      NameIndexLookup(active, k);
      assert k in m.values;
      assert RelatedTo(n)(k);
    }
  }

  /** Without an exact hit, the match is the entry of the first key (in the order the names were
    * first seen) related to `n`: the last active attraction with that lower-cased name. */
  lemma MatchFirstRelated(active: seq<Attraction>, n: string)
    ensures var r := Match(NameIndexOf(active), n);
      var keys := NameIndexOf(active).order;
      LastNamed(active, n).None? && r.Some? ==>
        exists i :: 0 <= i < |keys| && Related(n, keys[i]) && (forall j :: 0 <= j < i ==> !Related(n, keys[j]))
          && LastNamed(active, keys[i]).Some? && r.value == active[LastNamed(active, keys[i]).value]
  {
    var m := NameIndexOf(active);
    NameIndexLookup(active, n);
    FirstWhereSpec(m.order, RelatedTo(n));
    var i := FirstWhere(m.order, RelatedTo(n));
    if LastNamed(active, n).None? && i.Some? {
      NameIndexLookup(active, m.order[i.value]);
      assert forall j :: 0 <= j < i.value ==> !RelatedTo(n)(m.order[j]);
    }
  }

  /** Exact lookup, then the first related key, stopping at the first hit. */
  method FindAttraction(m: NameMap, n: string) returns (r: Option<Attraction>)
    requires ValidNameMap(m)
    ensures r == Match(m, n)
  {
    if n in m.values {
      return Some(m.values[n]);
    }
    FirstWhereSpec(m.order, RelatedTo(n));
    var i := 0;
    while i < |m.order|
      invariant 0 <= i <= |m.order|
      invariant forall j :: 0 <= j < i ==> !Related(n, m.order[j])
    {
      var key := m.order[i];
      if IsSubstring(n, key) || IsSubstring(key, n) {
        assert RelatedTo(n)(key);
        return Some(m.values[key]);
      }
      i := i + 1;
    }
    return None;
  }

  /** The stop a suggestion yields when its name is matched. */
  function SuggestedStop(m: NameMap, s: Suggestion): Option<Stop>
    requires ValidNameMap(m)
  {
    var a := Match(m, Lower(GetOr(s.name, "")));
    if a.Some? then Some(Stop(a.value, GetOr(s.order, 1), GetOr(s.visitDuration, 60), None)) else None
  }

  /** A suggestion yields a stop exactly when its lower-cased name (empty when absent) is matched:
    * a stop at the suggested position (default 1) for the suggested visit (default 60 minutes),
    * with no note. */
  lemma SuggestedStopSpec(m: NameMap, s: Suggestion)
    requires ValidNameMap(m)
    ensures var r := SuggestedStop(m, s);
      var a := Match(m, Lower(GetOr(s.name, "")));
      && (r.Some? <==> a.Some?)
      && (r.Some? ==> && r.value.attraction == a.value
                      && r.value.order == (if s.order.Some? then s.order.value else 1)
                      && r.value.visitDuration == (if s.visitDuration.Some? then s.visitDuration.value else 60)
                      && r.value.notes.None?)
  {
  }

  /** The stops of the matched suggestions, in suggestion order; unmatched ones add nothing. */
  function MatchedStops(m: NameMap, list: seq<Suggestion>): (r: seq<Stop>)
    requires ValidNameMap(m)
    ensures |r| <= |list|
  {
    if list == [] then []
    else
      var st := SuggestedStop(m, list[|list| - 1]);
      MatchedStops(m, list[..|list| - 1]) + (if st.Some? then [st.value] else [])
  }

  lemma {:induction false} MatchedStopsAppend(m: NameMap, a: seq<Suggestion>, b: seq<Suggestion>)
    requires ValidNameMap(m)
    ensures MatchedStops(m, a + b) == MatchedStops(m, a) + MatchedStops(m, b)
  {
    if b == [] {
      assert a + b == a;
    } else {
      var b' := b[..|b| - 1];
      MatchedStopsAppend(m, a, b');
      assert (a + b)[..|a + b| - 1] == a + b';
      assert (a + b)[|a + b| - 1] == b[|b| - 1];
    }
  }

  /** The stops matched for a list are those of its first `k` suggestions followed by those of
    * the rest. */
  lemma MatchedStopsSplit(m: NameMap, list: seq<Suggestion>, k: nat)
    requires ValidNameMap(m) && k <= |list|
    ensures MatchedStops(m, list) == MatchedStops(m, list[..k]) + MatchedStops(m, list[k..])
  {
    var a, b := list[..k], list[k..];
    assert a + b == list;
    MatchedStopsAppend(m, a, b);
  }

  /** No two stops share a position (the (route, order) uniqueness constraint). */
  predicate DistinctOrders(stops: seq<Stop>)
  {
    forall i, j :: 0 <= i < j < |stops| ==> stops[i].order != stops[j].order
  }

  /** Some stop already holds position `o`. */
  predicate OrderTaken(stops: seq<Stop>, o: int)
  {
    exists i :: 0 <= i < |stops| && stops[i].order == o
  }

  /** The route row the matcher creates: the suggested name (default "Сгенерированный маршрут") and
    * description (default empty), the requested hours, budget 0, private, and the distance
    * accumulated over its stops. */
  function SuggestedRoute(reply: RouteReply, durationHours: int, distanceKm: real): (r: Route)
    ensures r.budget == 0 && !r.isPublic && !r.isFavorite && r.viewsCount == 0
    ensures r.name == (if reply.name.Some? then reply.name.value else "Сгенерированный маршрут")
    ensures r.description == (if reply.description.Some? then reply.description.value else "")
    ensures r.durationHours == durationHours && r.distanceKm == distanceKm
  {
    Route(GetOr(reply.name, "Сгенерированный маршрут"), GetOr(reply.description, ""), durationHours, 0, distanceKm, false, false, 0)
  }

  /** One more suggestion adds its stop when its name is matched. */
  lemma MatchedStep(m: NameMap, list: seq<Suggestion>, i: nat)
    requires ValidNameMap(m) && i < |list|
    ensures var st := SuggestedStop(m, list[i]);
      MatchedStops(m, list[..i + 1]) == MatchedStops(m, list[..i]) + (if st.Some? then [st.value] else [])
  {
    assert list[..i + 1][..i] == list[..i];
  }

  /** A stop whose position an earlier stop holds breaks the uniqueness constraint, whatever
    * follows. */
  lemma ClashBeforeStop(all: seq<Stop>, stops: seq<Stop>, stop: Stop, rest: seq<Stop>)
    requires all == stops + [stop] + rest && OrderTaken(stops, stop.order)
    ensures !DistinctOrders(all)
  {
    var j :| 0 <= j < |stops| && stops[j].order == stop.order;
    assert all[j] == stops[j] && all[|stops|] == stop;
  }

  /** A clash among the first stops is a clash among all of them. */
  lemma ClashPersists(m: NameMap, list: seq<Suggestion>, i: nat, stop: Stop)
    requires ValidNameMap(m) && i < |list|
    requires SuggestedStop(m, list[i]) == Some(stop)
    requires OrderTaken(MatchedStops(m, list[..i]), stop.order)
    ensures !DistinctOrders(MatchedStops(m, list))
  {
    MatchedAround(m, list, i, stop);
    ClashBeforeStop(MatchedStops(m, list), MatchedStops(m, list[..i]), stop, MatchedStops(m, list[i + 1..]));
  }

  /** The stops matched for a list are those before a matched suggestion, its stop, and those
    * after it. */
  lemma MatchedAround(m: NameMap, list: seq<Suggestion>, i: nat, stop: Stop)
    requires ValidNameMap(m) && i < |list|
    requires SuggestedStop(m, list[i]) == Some(stop)
    ensures MatchedStops(m, list) == MatchedStops(m, list[..i]) + [stop] + MatchedStops(m, list[i + 1..])
  {
    MatchedStep(m, list, i);
    MatchedStopsSplit(m, list, i + 1);
  }

  /** Every suggested name is matched against the active attractions and each match becomes a stop;
    * a stop whose position another stop already holds violates the uniqueness constraint, and
    * then nothing is returned. Otherwise the route holds exactly the matched stops, and its
    * distance counts each leg whose starting stop has non-zero coordinates. */
  method CreateRouteFromReply(dist: DistFn, catalog: seq<Attraction>, reply: RouteReply, durationHours: int)
    returns (r: Result<Generated, DbError>)
    ensures var m := NameIndexOf(ActiveInDefaultOrder(catalog));
      var stops := MatchedStops(m, GetOr(reply.attractions, []));
      && (r.Failure? <==> !DistinctOrders(stops))
      && (r.Success? ==> r.value == Generated(SuggestedRoute(reply, durationHours, GuardedLength(dist, StopPosition, stops)), stops))
  {
    var m := BuildNameMap(ActiveInDefaultOrder(catalog));
    var list := GetOr(reply.attractions, []);
    var stops: seq<Stop> := [];
    var total: real := 0.0;
    var prev: Option<Coord> := None;
    for i := 0 to |list|
      invariant stops == MatchedStops(m, list[..i]) && DistinctOrders(stops)
      invariant total == GuardedLength(dist, StopPosition, stops)
      invariant prev == if stops == [] then None else Some(StopPosition(stops[|stops| - 1]))
    {
      var clash;
      clash, stops, total, prev := AddSuggestion(dist, m, list, i, stops, total, prev);
      if clash {
        return Failure(UniqueViolation);
      }
    }
    assert list[..|list|] == list;
    return Success(Generated(SuggestedRoute(reply, durationHours, total), stops));
  }

  /** One turn of the loop: match the i-th suggested name and add its stop, its leg and the new
    * cursor position, or report the clash. */
  method AddSuggestion(dist: DistFn, m: NameMap, list: seq<Suggestion>, i: nat,
                       stops: seq<Stop>, total: real, prev: Option<Coord>)
    returns (clash: bool, stops': seq<Stop>, total': real, prev': Option<Coord>)
    requires ValidNameMap(m) && i < |list|
    requires stops == MatchedStops(m, list[..i]) && DistinctOrders(stops)
    requires total == GuardedLength(dist, StopPosition, stops)
    requires prev == if stops == [] then None else Some(StopPosition(stops[|stops| - 1]))
    ensures clash ==> !DistinctOrders(MatchedStops(m, list))
    ensures !clash ==> && stops' == MatchedStops(m, list[..i + 1]) && DistinctOrders(stops')
                       && total' == GuardedLength(dist, StopPosition, stops')
                       && prev' == if stops' == [] then None else Some(StopPosition(stops'[|stops'| - 1]))
  {
    MatchedStep(m, list, i);
    clash, stops', total', prev' := false, stops, total, prev;
    var a := FindAttraction(m, Lower(GetOr(list[i].name, "")));
    if a.Some? {
      var stop := Stop(a.value, GetOr(list[i].order, 1), GetOr(list[i].visitDuration, 60), None);
      if OrderTaken(stops, stop.order) {
        ClashPersists(m, list, i, stop);
        return true, stops, total, prev;
      }
      if prev.Some? && prev.value.lat != 0 && prev.value.lon != 0 {
        total' := total + dist(prev.value, a.value.coord);
      }
      stops' := stops + [stop];
      prev' := Some(a.value.coord);
      LegAdded(dist, stops, stop, total, prev, total');
    }
  }

  /** Adding the leg from the cursor (when it has non-zero coordinates) to a new stop keeps the
    * total equal to the guarded length of the stops. */
  lemma LegAdded(dist: DistFn, stops: seq<Stop>, stop: Stop, total: real, prev: Option<Coord>, total': real)
    requires total == GuardedLength(dist, StopPosition, stops)
    requires prev == if stops == [] then None else Some(StopPosition(stops[|stops| - 1]))
    requires total' == if prev.Some? && Nonzero(prev.value) then total + dist(prev.value, StopPosition(stop)) else total
    ensures total' == GuardedLength(dist, StopPosition, stops + [stop])
  {
    if stops != [] {
      GuardedLengthAppend(dist, StopPosition, stops, stop);
    } else {
      assert stops + [stop] == [stop];
    }
  }

  /** Two matched suggestions that both leave out their position both get position 1, so the
    * route cannot be stored. */
  lemma MissingOrdersClash(m: NameMap, list: seq<Suggestion>, i: nat, j: nat)
    requires ValidNameMap(m)
    requires i < j < |list| && list[i].order.None? && list[j].order.None?
    requires SuggestedStop(m, list[i]).Some? && SuggestedStop(m, list[j]).Some?
    ensures !DistinctOrders(MatchedStops(m, list))
  {
    var si, sj := SuggestedStop(m, list[i]).value, SuggestedStop(m, list[j]).value;
    var upTo := list[..j];
    assert upTo == list[..i + 1] + list[i + 1..j];
    MatchedStopsAppend(m, list[..i + 1], list[i + 1..j]);
    MatchedStep(m, list, i);
    var before := MatchedStops(m, list[..i]);
    assert MatchedStops(m, upTo) == before + [si] + MatchedStops(m, list[i + 1..j]);
    assert MatchedStops(m, upTo)[|before|] == si;
    assert si.order == 1 == sj.order;
    assert OrderTaken(MatchedStops(m, upTo), sj.order);
    ClashPersists(m, list, j, sj);
  }
}
