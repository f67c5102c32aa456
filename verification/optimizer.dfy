/** Re-ordering the stops of an existing route by nearest neighbour
  * (`HybridRouteGenerator._optimize_route_order`). */
module Optimizer {
  import opened Wrappers
  import opened Geo
  import opened Nearest
  import opened RouteModels
  import opened Attractions

  function StopPosition(s: Stop): Coord
  {
    s.attraction.coord
  }

  /** The stops with positions 1..n in list order, nothing else changed. */
  function Renumbered(s: seq<Stop>): (r: seq<Stop>)
    ensures |r| == |s| && NumberedInSequence(r)
    ensures forall i :: 0 <= i < |r| ==> r[i] == s[i].(order := i + 1)
  {
    seq(|s|, i requires 0 <= i < |s| => s[i].(order := i + 1))
  }

  /** Keep the first stop, then visit the remaining stops by nearest neighbour. */
  function NearestNeighbourOrder(dist: DistFn, stops: seq<Stop>): seq<Stop>
    requires stops != []
  {
    [stops[0]] + Tour(dist, StopPosition, stops[0], stops[1..])
  }

  /** What the re-ordering leaves in the route: nothing changes for one stop or none; otherwise
    * the nearest-neighbour order, renumbered 1..n. */
  function OptimizedOrder(dist: DistFn, stops: seq<Stop>): seq<Stop>
  {
    if |stops| <= 1 then stops else Renumbered(NearestNeighbourOrder(dist, stops))
  }

  /** The nearest-neighbour order keeps the first stop first, is a permutation of the stops, and
    * each step goes to a nearest stop among those not yet visited. */
  lemma NearestNeighbourOrderSpec(dist: DistFn, stops: seq<Stop>)
    requires stops != []
    ensures var o := NearestNeighbourOrder(dist, stops);
      && o[0] == stops[0]
      && multiset(o) == multiset(stops)
      && NearestNeighbourPath(dist, StopPosition, o[0], o[1..])
  {
    var o := NearestNeighbourOrder(dist, stops);
    assert o[1..] == Tour(dist, StopPosition, stops[0], stops[1..]);
    assert stops == [stops[0]] + stops[1..];
    TourIsNearestNeighbour(dist, StopPosition, stops[0], stops[1..]);
  }

  /** Re-optimising a route whose stops were just re-optimised (and are read back in their new
    * order) changes nothing: same order, same positions. */
  lemma OptimizeIdempotent(dist: DistFn, stops: seq<Stop>)
    ensures OptimizedOrder(dist, OptimizedOrder(dist, stops)) == OptimizedOrder(dist, stops)
  {
    if |stops| > 1 {
      var o := NearestNeighbourOrder(dist, stops);
      var r := Renumbered(o);
      NearestNeighbourOrderSpec(dist, stops);
      RenumberedKeepsPath(dist, o);
      NearestNeighbourOrderFixed(dist, r);
      RenumberedFixed(r);
    }
  }

  /** Renumbering changes no position, so a nearest-neighbour order stays one. */
  lemma RenumberedKeepsPath(dist: DistFn, o: seq<Stop>)
    requires |o| > 1 && NearestNeighbourPath(dist, StopPosition, o[0], o[1..])
    ensures var r := Renumbered(o); NearestNeighbourPath(dist, StopPosition, r[0], r[1..])
  {
    var r := Renumbered(o);
    assert forall k :: 0 <= k < |o| - 1 ==> StopPosition(o[1..][k]) == StopPosition(r[1..][k]);
    NearestNeighbourPathRelabel(dist, StopPosition, o[0], o[1..], r[0], r[1..]);
  }

  /** A route already in nearest-neighbour order from its first stop is its own nearest-neighbour
    * order. */
  lemma NearestNeighbourOrderFixed(dist: DistFn, r: seq<Stop>)
    requires |r| > 1 && NearestNeighbourPath(dist, StopPosition, r[0], r[1..])
    ensures NearestNeighbourOrder(dist, r) == r
  {
    HeadTail(r);
    NearestNeighbourPathIsFixed(dist, StopPosition, r[0], r[1..]);
  }

  /** Renumbering stops already numbered 1..n changes nothing. */
  lemma RenumberedFixed(r: seq<Stop>)
    requires NumberedInSequence(r)
    ensures Renumbered(r) == r
  {
    forall i | 0 <= i < |r| ensures Renumbered(r)[i] == r[i] {
      assert r[i].(order := i + 1) == r[i];
    }
  }

  /** The re-ordering with every position written together (the evidently intended behaviour):
    * `ordered` grows by the first nearest remaining stop, which is removed from `remaining`; then
    * every stop gets its new position at once, so the (route, order) constraint holds before and
    * after. */
  method RenumberAtOnce(dist: DistFn, stops: seq<Stop>) returns (r: seq<Stop>)
    ensures r == OptimizedOrder(dist, stops)
    ensures |stops| <= 1 ==> r == stops
    ensures |stops| > 1 ==> NumberedInSequence(r) && ValidStops(r) && r[0] == stops[0].(order := 1)
  {
    if |stops| <= 1 {
      return stops;
    }
    var ordered := NearestNeighbourWalk(dist, StopPosition, stops[0], stops[1..]);
    r := WriteOrders(ordered);
    NumberedStopsValid(r);
  }

  /** `for new_order, stop in enumerate(ordered, 1): stop.order = new_order`. */
  method WriteOrders(ordered: seq<Stop>) returns (r: seq<Stop>)
    ensures r == Renumbered(ordered)
  {
    r := ordered;
    for k := 0 to |r|
      invariant |r| == |ordered|
      invariant forall i :: 0 <= i < k ==> r[i] == ordered[i].(order := i + 1)
      invariant forall i :: k <= i < |r| ==> r[i] == ordered[i]
    {
      r := r[k := r[k].(order := k + 1)];
    }
  }

  datatype DbError = UniqueViolation

  /** Saving the rows of `ordered` one at a time with positions 1..n fails when some row still
    * holds, when its turn has not yet come, the position written for an earlier row: its old
    * position lies between 1 and its own index. */
  predicate SaveClashes(ordered: seq<Stop>)
  {
    exists j :: 0 <= j < |ordered| && 1 <= ordered[j].order <= j
  }

  /** The renumbering as the rows are actually saved: row k of `ordered` is saved with position
    * k + 1 while the rows after it still hold their old positions. A save fails as soon as another
    * row of the route already holds the position being written. That happens exactly when some
    * row holds an old position between 1 and its own new index. */
  method SaveOrdersOneByOne(ordered: seq<Stop>) returns (r: Result<seq<Stop>, DbError>)
    ensures r.Failure? <==> SaveClashes(ordered)
    ensures r.Success? ==> r.value == Renumbered(ordered)
  {
    var rows := ordered;
    for k := 0 to |rows|
      invariant |rows| == |ordered|
      invariant forall i :: 0 <= i < k ==> rows[i] == ordered[i].(order := i + 1)
      invariant forall i :: k <= i < |rows| ==> rows[i] == ordered[i]
      invariant forall j :: 0 <= j < |ordered| ==> !(1 <= ordered[j].order <= j && ordered[j].order <= k)
    {
      var clash := exists j :: 0 <= j < |rows| && j != k && rows[j].order == k + 1;
      if clash {
        var j :| 0 <= j < |rows| && j != k && rows[j].order == k + 1;
        assert j > k && 1 <= ordered[j].order <= j;
        return Failure(UniqueViolation);
      }
      rows := rows[k := rows[k].(order := k + 1)];
    }
    return Success(rows);
  }

  /** What `_optimize_route_order` leaves behind as written: one stop or none untouched; otherwise
    * the nearest-neighbour order renumbered, unless a row-by-row save clashes. */
  function SavedOrder(dist: DistFn, stops: seq<Stop>): Result<seq<Stop>, DbError>
  {
    if |stops| <= 1 then Success(stops)
    else
      var o := NearestNeighbourOrder(dist, stops);
      if SaveClashes(o) then Failure(UniqueViolation) else Success(Renumbered(o))
  }

  /** The re-ordering as the source runs it: `ordered` grows by the first nearest remaining stop,
    * which is removed from `remaining`; then the rows are saved one at a time with their new
    * positions. When it succeeds it leaves what writing every position together would. */
  method OptimizeRouteOrder(dist: DistFn, stops: seq<Stop>) returns (r: Result<seq<Stop>, DbError>)
    ensures r == SavedOrder(dist, stops)
    ensures r.Success? ==> r.value == OptimizedOrder(dist, stops)
    ensures |stops| <= 1 ==> r == Success(stops)
  {
    if |stops| <= 1 {
      return Success(stops);
    }
    var ordered := NearestNeighbourWalk(dist, StopPosition, stops[0], stops[1..]);
    assert ordered == NearestNeighbourOrder(dist, stops);
    r := SaveOrdersOneByOne(ordered);
    if r.Failure? {
      assert r.error == UniqueViolation;
    }
  }

  /** A permutation of stops numbered 1..n in which no stop stands after the index its position
    * names is the numbered sequence itself. */
  lemma {:induction false} NoneEarlierIsIdentity(s: seq<Stop>, o: seq<Stop>)
    requires NumberedInSequence(s) && multiset(o) == multiset(s)
    requires forall j :: 0 <= j < |o| ==> o[j].order > j
    ensures o == s
  {
    assert |o| == |multiset(o)| == |s|;
    if |s| > 0 {
      var n := |s| - 1;
      assert o[n] in multiset(s);
      NumberedAtOrder(s, o[n]);
      SameLastSamePrefix(s, o);
      NoneEarlierIsIdentity(s[..n], o[..n]);
      assert o == o[..n] + [o[n]] && s == s[..n] + [s[n]];
    }
  }

  /** Two permutations of each other that end alike agree, as multisets, on what comes before. */
  lemma SameLastSamePrefix<T>(s: seq<T>, o: seq<T>)
    requires |s| == |o| > 0 && multiset(o) == multiset(s) && o[|o| - 1] == s[|s| - 1]
    ensures multiset(o[..|o| - 1]) == multiset(s[..|s| - 1])
  {
    var n := |s| - 1;
    assert o == o[..n] + [o[n]] && s == s[..n] + [s[n]];
    assert multiset(o[..n]) == multiset(o) - multiset{o[n]};
    assert multiset(s[..n]) == multiset(s) - multiset{s[n]};
  }

  /** In stops numbered 1..n, a stop is the one at the index its position names. */
  lemma NumberedAtOrder(s: seq<Stop>, x: Stop)
    requires NumberedInSequence(s) && x in s
    ensures 1 <= x.order <= |s| && s[x.order - 1] == x
  {
    var i :| 0 <= i < |s| && s[i] == x;
  }

  /** For stops read back with positions 1..n, the row-by-row save succeeds exactly when the
    * nearest-neighbour order is the order they already have, and then nothing changes: as
    * written, the re-ordering never moves a stop without failing. */
  lemma SavedOnlyWhenUnchanged(dist: DistFn, s: seq<Stop>)
    requires |s| > 1 && NumberedInSequence(s)
    ensures SavedOrder(dist, s).Success? <==> NearestNeighbourOrder(dist, s) == s
    ensures SavedOrder(dist, s).Success? ==> SavedOrder(dist, s).value == s
  {
    var o := NearestNeighbourOrder(dist, s);
    NearestNeighbourOrderSpec(dist, s);
    if !SaveClashes(o) {
      NoClashIsIdentity(s, o);
      RenumberedFixed(s);
    } else {
      var j :| 0 <= j < |o| && 1 <= o[j].order <= j;
      assert o[j] != s[j];
    }
  }

  /** A re-ordering of stops numbered 1..n that saves row by row without a clash is no
    * re-ordering at all. */
  lemma NoClashIsIdentity(s: seq<Stop>, o: seq<Stop>)
    requires NumberedInSequence(s) && multiset(o) == multiset(s) && !SaveClashes(o)
    ensures o == s
  {
    forall j | 0 <= j < |o| ensures o[j].order > j {
      assert o[j] in multiset(s);
      NumberedAtOrder(s, o[j]);
    }
    NoneEarlierIsIdentity(s, o);
  }

  /** With a route whose stops hold positions 1, 2, 3 and whose third stop is strictly nearer to
    * the first than the second is, the nearest-neighbour order is first, third, second, so the
    * one-row-at-a-time saves write position 2 while the second stop still holds it. */
  lemma SaveOneByOneClashes(dist: DistFn, sa: Stop, sb: Stop, sc: Stop)
    requires sa.order == 1 && sb.order == 2 && sc.order == 3
    requires dist(StopPosition(sa), StopPosition(sc)) < dist(StopPosition(sa), StopPosition(sb))
    ensures var o := NearestNeighbourOrder(dist, [sa, sb, sc]);
      |o| == 3 && SaveClashes(o)
  {
    var rest := [sb, sc];
    assert [sa, sb, sc][1..] == rest;
    assert FirstNearest(dist, StopPosition, StopPosition(sa), rest) == 1;
    TourStep(dist, StopPosition, sa, rest, 1);
    assert RemoveFirst(rest, sc) == [sb] by {
      assert rest[0] != sc && rest[1..] == [sc];
    }
    var tail := Tour(dist, StopPosition, sc, [sb]);
    assert tail == [sb] by {
      assert |tail| == 1 && tail[0] in multiset(tail);
    }
    var o := NearestNeighbourOrder(dist, [sa, sb, sc]);
    assert o == [sa] + ([sc] + tail);
    assert o[2] == sb;
    assert 1 <= o[2].order <= 2;
  }
}
