/** Nearest-neighbour selection, shared by the greedy selector and the route re-ordering.
  * Python's `min(s, key=...)` returns the FIRST element of minimal key and `list.remove(x)`
  * removes the first element equal to `x`; both are modelled exactly. Elements of any type are
  * located through `pos`. */
module Nearest {
  import opened Geo

  /** `i` is the index Python's `min(s, key=lambda x: dist(from, pos(x)))` selects: an element at
    * minimal distance from `from`, with every earlier element strictly farther. */
  predicate IsFirstNearest<T>(dist: DistFn, pos: T -> Coord, from: Coord, s: seq<T>, i: int)
  {
    && 0 <= i < |s|
    && (forall j :: 0 <= j < |s| ==> dist(from, pos(s[i])) <= dist(from, pos(s[j])))
    && (forall j :: 0 <= j < i ==> dist(from, pos(s[i])) < dist(from, pos(s[j])))
  }

  /** The tie-break makes the choice unique. */
  lemma FirstNearestUnique<T>(dist: DistFn, pos: T -> Coord, from: Coord, s: seq<T>, i: int, k: int)
    requires IsFirstNearest(dist, pos, from, s, i) && IsFirstNearest(dist, pos, from, s, k)
    ensures i == k
  {
    assert dist(from, pos(s[i])) <= dist(from, pos(s[k])) && dist(from, pos(s[k])) <= dist(from, pos(s[i]));
  }

  /** The index of the first nearest element, as a function. */
  function FirstNearest<T>(dist: DistFn, pos: T -> Coord, from: Coord, s: seq<T>): (i: nat)
    requires s != []
    ensures IsFirstNearest(dist, pos, from, s, i)
  {
    if |s| == 1 then 0
    else
      var j := 1 + FirstNearest(dist, pos, from, s[1..]);
      if dist(from, pos(s[0])) <= dist(from, pos(s[j])) then 0 else j
  }

  /** Python's `min` with a distance key: one pass keeping the first strictly smaller distance. */
  method FirstNearestIndex<T>(dist: DistFn, pos: T -> Coord, from: Coord, s: seq<T>) returns (i: nat)
    requires s != []
    ensures IsFirstNearest(dist, pos, from, s, i)
    ensures i == FirstNearest(dist, pos, from, s)
  {
    i := 0;
    var best := dist(from, pos(s[0]));
    var k := 1;
    while k < |s|
      invariant 1 <= k <= |s|
      invariant IsFirstNearest(dist, pos, from, s[..k], i)
      invariant best == dist(from, pos(s[i]))
    {
      var d := dist(from, pos(s[k]));
      if d < best {
        i, best := k, d;
      }
      k := k + 1;
    }
    assert s[..|s|] == s;
    FirstNearestUnique(dist, pos, from, s, i, FirstNearest(dist, pos, from, s));
  }

  /** Python's `list.remove(x)`: drop the first element equal to `x`. */
  function RemoveFirst<T(==)>(s: seq<T>, x: T): (r: seq<T>)
    requires x in s
    ensures |r| == |s| - 1
    ensures multiset(r) == multiset(s) - multiset{x}
  {
    assert s == [s[0]] + s[1..];
    if s[0] == x then s[1..]
    else [s[0]] + RemoveFirst(s[1..], x)
  }

  /** Removing one element keeps every other element. */
  lemma RemoveFirstKeeps<T>(s: seq<T>, x: T, a: T)
    requires x in s && a in s && a != x
    ensures a in RemoveFirst(s, x)
  {
    assert multiset(RemoveFirst(s, x))[a] == multiset(s)[a] > 0;
  }

  /** Removing the first element of a sequence is dropping its head. */
  lemma RemoveFirstOfHead<T>(s: seq<T>)
    requires s != []
    ensures RemoveFirst(s, s[0]) == s[1..]
  {
  }

  /** Nearest-neighbour tour construction: starting after `cur`, repeatedly move to the first
    * nearest remaining element and remove it, until none remain. */
  function Tour<T(==)>(dist: DistFn, pos: T -> Coord, cur: T, rest: seq<T>): (r: seq<T>)
    ensures |r| == |rest|
    ensures multiset(r) == multiset(rest)
    decreases |rest|
  {
    if rest == [] then []
    else
      var n := rest[FirstNearest(dist, pos, pos(cur), rest)];
      [n] + Tour(dist, pos, n, RemoveFirst(rest, n))
  }

  /** A non-empty sequence is its head followed by its tail. */
  lemma HeadTail<T>(s: seq<T>)
    requires s != []
    ensures [s[0]] + s[1..] == s
  {
  }

  /** One step of the construction. */
  lemma TourStep<T>(dist: DistFn, pos: T -> Coord, cur: T, rest: seq<T>, i: nat)
    requires rest != [] && i == FirstNearest(dist, pos, pos(cur), rest)
    ensures Tour(dist, pos, cur, rest) == [rest[i]] + Tour(dist, pos, rest[i], RemoveFirst(rest, rest[i]))
  {
  }

  lemma AppendAssoc<T>(a: seq<T>, b: seq<T>, c: seq<T>)
    ensures a + (b + c) == (a + b) + c
  {
  }

  /** The construction as a loop: `ordered` starts at `start` and grows by the first nearest
    * remaining element, which is removed from `remaining`, until none remain. */
  method NearestNeighbourWalk<T(==)>(dist: DistFn, pos: T -> Coord, start: T, rest: seq<T>) returns (ordered: seq<T>)
    ensures ordered == [start] + Tour(dist, pos, start, rest)
  {
    ordered := [start];
    var current, remaining := start, rest;
    ghost var goal := [start] + Tour(dist, pos, start, rest);
    while remaining != []
      invariant ordered + Tour(dist, pos, current, remaining) == goal
      decreases |remaining|
    {
      var i := FirstNearestIndex(dist, pos, pos(current), remaining);
      var nearest := remaining[i];
      var next := RemoveFirst(remaining, nearest);
      TourStep(dist, pos, current, remaining, i);
      AppendAssoc(ordered, [nearest], Tour(dist, pos, nearest, next));
      ordered := ordered + [nearest];
      current, remaining := nearest, next;
    }
    assert Tour(dist, pos, current, remaining) == [];
  }

  /** Starting from `from`, every step of `r` goes to an element at least as near to the previous
    * position as every element visited after it. */
  predicate NearestNeighbourPath<T>(dist: DistFn, pos: T -> Coord, from: T, r: seq<T>)
    decreases |r|
  {
    r == []
    || (&& (forall j :: 0 <= j < |r| ==> dist(pos(from), pos(r[0])) <= dist(pos(from), pos(r[j])))
        && NearestNeighbourPath(dist, pos, r[0], r[1..]))
  }

  /** An element of a multiset-equal sequence occurs somewhere in the original. */
  lemma InMultiset<T>(a: seq<T>, b: seq<T>, j: int) returns (m: int)
    requires multiset(a) == multiset(b) && 0 <= j < |a|
    ensures 0 <= m < |b| && b[m] == a[j]
  {
    assert a[j] in multiset(a);
    assert a[j] in b;
    m :| 0 <= m < |b| && b[m] == a[j];
  }

  /** The first element of a tour is at least as near to the start as any element of the tour. */
  lemma TourHeadNearest<T>(dist: DistFn, pos: T -> Coord, cur: T, rest: seq<T>, out: seq<T>)
    requires rest != [] && out == Tour(dist, pos, cur, rest)
    ensures forall j :: 0 <= j < |out| ==> dist(pos(cur), pos(out[0])) <= dist(pos(cur), pos(out[j]))
  {
    forall j | 0 <= j < |out|
      ensures dist(pos(cur), pos(out[0])) <= dist(pos(cur), pos(out[j]))
    {
      var m := InMultiset(out, rest, j);
    }
  }

  /** The tour is a nearest-neighbour path from `cur`. */
  lemma {:induction false} TourIsNearestNeighbour<T>(dist: DistFn, pos: T -> Coord, cur: T, rest: seq<T>)
    ensures NearestNeighbourPath(dist, pos, cur, Tour(dist, pos, cur, rest))
    decreases |rest|
  {
    if rest != [] {
      var out := Tour(dist, pos, cur, rest);
      var n := rest[FirstNearest(dist, pos, pos(cur), rest)];
      assert out[1..] == Tour(dist, pos, n, RemoveFirst(rest, n));
      TourHeadNearest(dist, pos, cur, rest, out);
      TourIsNearestNeighbour(dist, pos, n, RemoveFirst(rest, n));
    }
  }

  /** A nearest-neighbour path is a fixed point of the construction: the tie-break always picks
    * its head, which is nearest and comes first. */
  lemma {:induction false} NearestNeighbourPathIsFixed<T>(dist: DistFn, pos: T -> Coord, cur: T, r: seq<T>)
    requires NearestNeighbourPath(dist, pos, cur, r)
    ensures Tour(dist, pos, cur, r) == r
    decreases |r|
  {
    if r != [] {
      var i := FirstNearest(dist, pos, pos(cur), r);
      assert IsFirstNearest(dist, pos, pos(cur), r, 0);
      FirstNearestUnique(dist, pos, pos(cur), r, 0, i);
      TourStep(dist, pos, cur, r, 0);
      RemoveFirstOfHead(r);
      NearestNeighbourPathIsFixed(dist, pos, r[0], r[1..]);
      HeadTail(r);
    }
  }

  /** Whether a path is nearest-neighbour depends only on the positions along it. */
  lemma {:induction false} NearestNeighbourPathRelabel<T>(dist: DistFn, pos: T -> Coord, a0: T, a: seq<T>, b0: T, b: seq<T>)
    requires |a| == |b| && pos(a0) == pos(b0)
    requires forall k :: 0 <= k < |a| ==> pos(a[k]) == pos(b[k])
    requires NearestNeighbourPath(dist, pos, a0, a)
    ensures NearestNeighbourPath(dist, pos, b0, b)
    decreases |a|
  {
    if a != [] {
      NearestNeighbourPathRelabel(dist, pos, a[0], a[1..], b[0], b[1..]);
    }
  }

  /** Running the construction again on its own output reproduces it. */
  lemma TourIdempotent<T>(dist: DistFn, pos: T -> Coord, cur: T, rest: seq<T>)
    ensures Tour(dist, pos, cur, Tour(dist, pos, cur, rest)) == Tour(dist, pos, cur, rest)
  {
    TourIsNearestNeighbour(dist, pos, cur, rest);
    NearestNeighbourPathIsFixed(dist, pos, cur, Tour(dist, pos, cur, rest));
  }
}
