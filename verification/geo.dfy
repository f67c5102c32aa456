/** Coordinates and distances.
  * The great-circle formula of the source is not modelled: every operation takes the distance as a
  * parameter `dist`, an arbitrary non-negative function of two coordinates (in kilometres). */
module Geo {
  /** A coordinate in millionths of a degree (the six decimal places of the stored fields). */
  datatype Coord = Coord(lat: int, lon: int)

  /** A distance in kilometres. */
  type Km = r: real | r >= 0.0

  type DistFn = (Coord, Coord) -> Km

  /** Sum of `dist` between the positions of consecutive elements of a path; 0 for a path of 0 or
    * 1 elements. */
  function PathLength<T>(dist: DistFn, pos: T -> Coord, path: seq<T>): (r: Km)
  {
    if |path| <= 1 then 0.0
    else PathLength(dist, pos, path[..|path| - 1]) + dist(pos(path[|path| - 2]), pos(path[|path| - 1]))
  }

  /** Extending a path by one element adds exactly the last leg. */
  lemma {:induction false} PathLengthAppend<T>(dist: DistFn, pos: T -> Coord, path: seq<T>, x: T)
    requires |path| >= 1
    ensures PathLength(dist, pos, path + [x]) == PathLength(dist, pos, path) + dist(pos(path[|path| - 1]), pos(x))
  {
    var p := path + [x];
    assert p[..|p| - 1] == path;
    assert p[|p| - 2] == path[|path| - 1] && p[|p| - 1] == x;
  }

  /** A coordinate whose latitude and longitude are both non-zero (a zero is falsy in the source). */
  predicate Nonzero(c: Coord)
  {
    c.lat != 0 && c.lon != 0
  }

  /** The distance the route matchers accumulate: a leg is counted only when its starting point
    * has a non-zero latitude and longitude. It never exceeds the full path length. */
  function GuardedLength<T>(dist: DistFn, pos: T -> Coord, path: seq<T>): (r: Km)
    ensures r <= PathLength(dist, pos, path)
  {
    if |path| <= 1 then 0.0
    else
      var from := pos(path[|path| - 2]);
      GuardedLength(dist, pos, path[..|path| - 1]) + (if Nonzero(from) then dist(from, pos(path[|path| - 1])) else 0.0)
  }

  /** When no point of the path has a zero coordinate, every leg is counted. */
  lemma {:induction false} GuardedLengthAllNonzero<T>(dist: DistFn, pos: T -> Coord, path: seq<T>)
    requires forall i :: 0 <= i < |path| ==> Nonzero(pos(path[i]))
    ensures GuardedLength(dist, pos, path) == PathLength(dist, pos, path)
  {
    if |path| > 1 {
      GuardedLengthAllNonzero(dist, pos, path[..|path| - 1]);
    }
  }

  /** Extending a path by one element adds the last leg when its start is non-zero. */
  lemma {:induction false} GuardedLengthAppend<T>(dist: DistFn, pos: T -> Coord, path: seq<T>, x: T)
    requires |path| >= 1
    ensures GuardedLength(dist, pos, path + [x]) == GuardedLength(dist, pos, path) +
      (if Nonzero(pos(path[|path| - 1])) then dist(pos(path[|path| - 1]), pos(x)) else 0.0)
  {
    var p := path + [x];
    assert p[..|p| - 1] == path;
    assert p[|p| - 2] == path[|path| - 1] && p[|p| - 1] == x;
  }
}
