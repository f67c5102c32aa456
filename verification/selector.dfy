/** The greedy, budget-constrained route builder (`AlgorithmicRouteGenerator.generate_route`):
  * filter the catalog, sort it by rating, pick a seed, then keep walking to the nearest remaining
  * candidate while the time and money budgets still allow it. */
module Selector {
  import opened Wrappers
  import opened Geo
  import opened Text
  import opened Nearest
  import opened Attractions
  import opened RouteModels

  /** The explicit arguments of a request. `maxBudget` is in kopecks; start coordinates are in
    * micro-degrees, and an absent or zero coordinate counts as no start point. */
  datatype Request = Request(
    durationHours: int,
    categoryIds: seq<nat>,
    maxBudget: int,
    interests: seq<string>,
    startLat: Option<int>,
    startLon: Option<int>)

  /** Python truthiness of an optional number. */
  predicate Truthy(v: Option<int>)
  {
    v.Some? && v.value != 0
  }

  /** A missing (falsy) explicit value is taken from the user's stored preferences, when the user
    * has any; explicit values always win. */
  function ResolvePreferences(req: Request, stored: Option<UserPreference>): (r: Request)
    ensures stored.None? ==> r == req
    ensures r.durationHours == req.durationHours && r.startLat == req.startLat && r.startLon == req.startLon
    ensures req.categoryIds != [] ==> r.categoryIds == req.categoryIds
    ensures req.maxBudget != 0 ==> r.maxBudget == req.maxBudget
    ensures req.interests != [] ==> r.interests == req.interests
    ensures stored.Some? && req.categoryIds == [] ==> r.categoryIds == stored.value.preferredCategories
    ensures stored.Some? && req.maxBudget == 0 ==> r.maxBudget == stored.value.maxBudget
    ensures stored.Some? && req.interests == [] ==> r.interests == stored.value.interests
  {
    match stored
    case None => req
    case Some(p) =>
      req.(categoryIds := if req.categoryIds == [] then p.preferredCategories else req.categoryIds,
           maxBudget := if req.maxBudget == 0 then p.maxBudget else req.maxBudget,
           interests := if req.interests == [] then p.interests else req.interests)
  }

  /** Filling in from the same stored preferences a second time changes nothing. */
  lemma ResolvePreferencesIdempotent(req: Request, stored: Option<UserPreference>)
    ensures ResolvePreferences(ResolvePreferences(req, stored), stored) == ResolvePreferences(req, stored)
  {
  }

  /** The catalog filter: active, in one of the categories when any are given, and free or
    * affordable when the budget is positive. */
  predicate IsCandidate(a: Attraction, categoryIds: seq<nat>, maxBudget: int)
  {
    && a.isActive
    && (categoryIds != [] ==> a.category.Some? && a.category.value in categoryIds)
    && (maxBudget > 0 ==> a.isFree || a.price <= maxBudget)
  }

  /** The catalog entries passing the filter, in catalog order. */
  function Filter(catalog: seq<Attraction>, categoryIds: seq<nat>, maxBudget: int): (r: seq<Attraction>)
    ensures forall a :: a in r <==> a in catalog && IsCandidate(a, categoryIds, maxBudget)
    ensures forall a :: multiset(r)[a] == if IsCandidate(a, categoryIds, maxBudget) then multiset(catalog)[a] else 0
    ensures multiset(r) <= multiset(catalog)
  {
    if catalog == [] then []
    else
      assert catalog == [catalog[0]] + catalog[1..];
      var rest := Filter(catalog[1..], categoryIds, maxBudget);
      if IsCandidate(catalog[0], categoryIds, maxBudget) then [catalog[0]] + rest else rest
  }

  predicate RatingDescending(s: seq<Attraction>)
  {
    forall i, j :: 0 <= i < j < |s| ==> s[i].rating >= s[j].rating
  }

  /** Insert `x` after every element rated at least as high. */
  function InsertByRating(x: Attraction, s: seq<Attraction>): (r: seq<Attraction>)
    requires RatingDescending(s)
    ensures RatingDescending(r)
    ensures multiset(r) == multiset(s) + multiset{x}
    ensures r != [] && (r[0] == x || (s != [] && r[0] == s[0]))
  {
    if s == [] then [x]
    else if s[0].rating >= x.rating then
      var rest := InsertByRating(x, s[1..]);
      RatedAfterHead(x, s, rest);
      [s[0]] + rest
    else
      RatedBeforeHead(x, s);
      [x] + s
  }

  /** When `x` goes after the head, the head is rated at least as high as everything after it. */
  lemma RatedAfterHead(x: Attraction, s: seq<Attraction>, rest: seq<Attraction>)
    requires s != [] && RatingDescending(s) && s[0].rating >= x.rating
    requires RatingDescending(rest) && multiset(rest) == multiset(s[1..]) + multiset{x}
    ensures RatingDescending([s[0]] + rest)
    ensures multiset([s[0]] + rest) == multiset(s) + multiset{x}
  {
    forall k | 0 <= k < |rest|
      ensures s[0].rating >= rest[k].rating
    {
      assert rest[k] in multiset(rest);
      if rest[k] != x {
        assert rest[k] in multiset(s[1..]);
        var j :| 0 <= j < |s[1..]| && s[1..][j] == rest[k];
        assert s[j + 1] == rest[k];
      }
    }
    var r := [s[0]] + rest;
    forall i, j | 0 <= i < j < |r|
      ensures r[i].rating >= r[j].rating
    {
      assert r[j] == rest[j - 1];
      if i > 0 {
        assert r[i] == rest[i - 1];
      }
    }
    assert s == [s[0]] + s[1..];
  }

  /** When `x` goes before the head, it is rated above every element. */
  lemma RatedBeforeHead(x: Attraction, s: seq<Attraction>)
    requires s != [] && RatingDescending(s) && s[0].rating < x.rating
    ensures RatingDescending([x] + s)
  {
    var r := [x] + s;
    forall i, j | 0 <= i < j < |r|
      ensures r[i].rating >= r[j].rating
    {
      assert r[j] == s[j - 1];
      if i > 0 {
        assert r[i] == s[i - 1];
      }
    }
  }

  /** `order_by('-rating')`: a stable insertion sort, rating descending, ties in catalog order. */
  function SortByRating(s: seq<Attraction>): (r: seq<Attraction>)
    ensures RatingDescending(r)
    ensures multiset(r) == multiset(s)
  {
    if s == [] then []
    else
      assert s == s[..|s| - 1] + [s[|s| - 1]];
      InsertByRating(s[|s| - 1], SortByRating(s[..|s| - 1]))
  }

  /** The candidate list: the filtered catalog, best rated first. */
  function Candidates(catalog: seq<Attraction>, req: Request): seq<Attraction>
  {
    SortByRating(Filter(catalog, req.categoryIds, req.maxBudget))
  }

  /** Candidates are exactly the catalog entries passing the filter, each as often as in the
    * catalog, best rated first. */
  lemma CandidatesSpec(catalog: seq<Attraction>, req: Request)
    ensures var c := Candidates(catalog, req);
      && RatingDescending(c)
      && (forall a :: multiset(c)[a] == if IsCandidate(a, req.categoryIds, req.maxBudget) then multiset(catalog)[a] else 0)
      && (forall a :: a in c <==> a in catalog && IsCandidate(a, req.categoryIds, req.maxBudget))
  {
    var f := Filter(catalog, req.categoryIds, req.maxBudget);
    var c := Candidates(catalog, req);
    assert multiset(c) == multiset(f);
    forall a ensures a in c <==> a in f {
      assert a in c <==> a in multiset(c);
      assert a in f <==> a in multiset(f);
    }
  }

  /** Which candidate starts the route: the first nearest to the start point when both start
    * coordinates are truthy, otherwise the first (best rated) one. */
  function SeedIndex(dist: DistFn, cands: seq<Attraction>, startLat: Option<int>, startLon: Option<int>): (i: nat)
    requires cands != []
    ensures i < |cands|
    ensures !(Truthy(startLat) && Truthy(startLon)) ==> i == 0
    ensures Truthy(startLat) && Truthy(startLon) ==> IsFirstNearest(dist, Position, Coord(startLat.value, startLon.value), cands, i)
  {
    if Truthy(startLat) && Truthy(startLon) then FirstNearest(dist, Position, Coord(startLat.value, startLon.value), cands)
    else 0
  }

  /** Without a start point the seed is rated at least as high as every candidate. */
  lemma SeedBestRated(dist: DistFn, cands: seq<Attraction>, startLat: Option<int>, startLon: Option<int>)
    requires cands != [] && RatingDescending(cands)
    requires !(Truthy(startLat) && Truthy(startLon))
    ensures forall a :: a in cands ==> a.rating <= cands[SeedIndex(dist, cands, startLat, startLon)].rating
  {
  }

  /** `[a for a in s if a != x]`: rows compare by primary key. */
  function Without(s: seq<Attraction>, x: Attraction): (r: seq<Attraction>)
    ensures forall a :: a in r <==> a in s && a.id != x.id
    ensures multiset(r) <= multiset(s)
  {
    if s == [] then []
    else
      assert s == [s[0]] + s[1..];
      var rest := Without(s[1..], x);
      if s[0].id != x.id then [s[0]] + rest else rest
  }

  /** Minutes of visiting time in a selection. */
  function Visits(sel: seq<Attraction>): int
  {
    if sel == [] then 0 else Visits(sel[..|sel| - 1]) + sel[|sel| - 1].visitDuration
  }

  /** Minutes spent on a selection: every visit, plus two minutes per kilometre of each leg. */
  function Minutes(dist: DistFn, sel: seq<Attraction>): real
  {
    Visits(sel) as real + 2.0 * PathLength(dist, Position, sel)
  }

  /** A single attraction costs its visit. */
  lemma MinutesSingle(dist: DistFn, a: Attraction)
    ensures Minutes(dist, [a]) == a.visitDuration as real
  {
    assert [a][..0] == [];
    assert Visits([a]) == a.visitDuration;
    assert PathLength(dist, Position, [a]) == 0.0;
  }

  /** Adding one more attraction costs its travel from the last one and its visit. */
  lemma MinutesAppend(dist: DistFn, sel: seq<Attraction>, n: Attraction)
    requires sel != []
    ensures Minutes(dist, sel + [n]) == Minutes(dist, sel) + 2.0 * dist(sel[|sel| - 1].coord, n.coord) + n.visitDuration as real
  {
    assert (sel + [n])[..|sel|] == sel;
    PathLengthAppend(dist, Position, sel, n);
  }

  /** Money spent on a selection: the price of every attraction that is not free. */
  function Spent(sel: seq<Attraction>): int
  {
    if sel == [] then 0 else Spent(sel[..|sel| - 1]) + Cost(sel[|sel| - 1])
  }

  /** The first nearest of the remaining candidates, as Python's `min` picks it. */
  function NearestOf(dist: DistFn, cur: Attraction, remaining: seq<Attraction>): (n: Attraction)
    requires remaining != []
    ensures n in remaining
  {
    remaining[FirstNearest(dist, Position, cur.coord, remaining)]
  }

  /** Minutes spent once `n` is visited after `cur`: travel at two minutes per kilometre, then the
    * visit. */
  function After(dist: DistFn, cur: Attraction, n: Attraction, totalDur: real): real
  {
    totalDur + 2.0 * dist(cur.coord, n.coord) + n.visitDuration as real
  }

  /** Kopecks spent once `n` is visited. */
  function Charged(totalBudget: int, n: Attraction): int
  {
    totalBudget + Cost(n)
  }

  /** The acceptance test: the time still fits, and so does the money when there is a budget
    * (a zero `maxBudget` means none). */
  predicate Fits(maxDur: real, maxBudget: int, dur: real, budget: int)
  {
    dur <= maxDur && (maxBudget == 0 || budget <= maxBudget)
  }

  /** The rest of the walk after `cur`, with `totalDur` minutes and `totalBudget` kopecks already
    * spent: while candidates remain and time is left, take the first nearest; keep it if its
    * travel and visit still fit in the time and the money budget, otherwise stop without looking
    * at farther candidates. */
  function Grow(dist: DistFn, maxDur: real, maxBudget: int, cur: Attraction, remaining: seq<Attraction>,
                totalDur: real, totalBudget: int): (r: seq<Attraction>)
    ensures multiset(r) <= multiset(remaining)
    decreases |remaining|
  {
    if remaining == [] || totalDur >= maxDur then []
    else
      var n := NearestOf(dist, cur, remaining);
      if Fits(maxDur, maxBudget, After(dist, cur, n, totalDur), Charged(totalBudget, n)) then
        var rest := Grow(dist, maxDur, maxBudget, n, RemoveFirst(remaining, n), After(dist, cur, n, totalDur), Charged(totalBudget, n));
        assert multiset([n] + rest) == multiset{n} + multiset(rest);
        [n] + rest
      else []
  }

  /** The time budget in minutes. */
  function MaxMinutes(req: Request): real
  {
    (req.durationHours * 60) as real
  }

  /** The selection made for a resolved request from a non-empty candidate list. */
  function Select(dist: DistFn, req: Request, cands: seq<Attraction>): (sel: seq<Attraction>)
    requires cands != []
    ensures sel != [] && sel[0] == cands[SeedIndex(dist, cands, req.startLat, req.startLon)]
  {
    var seed := cands[SeedIndex(dist, cands, req.startLat, req.startLon)];
    [seed] + Grow(dist, MaxMinutes(req), req.maxBudget, seed, Without(cands, seed),
                  seed.visitDuration as real, Cost(seed))
  }

  /** Every step of `g` from position `from` goes to the first nearest element of `pool` (nearest,
    * and strictly nearer than every element before it, as `min` picks), which is then removed
    * from the pool. */
  predicate GreedyFrom(dist: DistFn, from: Coord, pool: seq<Attraction>, g: seq<Attraction>)
    decreases |g|
  {
    g == []
    || (&& (exists k :: 0 <= k < |pool| && IsFirstNearest(dist, Position, from, pool, k) && pool[k] == g[0])
        && GreedyFrom(dist, g[0].coord, RemoveFirst(pool, g[0]), g[1..]))
  }

  /** With no candidates or no time left the walk takes nothing. */
  lemma GrowDone(dist: DistFn, maxDur: real, maxBudget: int, cur: Attraction,
                 remaining: seq<Attraction>, totalDur: real, totalBudget: int)
    requires remaining == [] || totalDur >= maxDur
    ensures Grow(dist, maxDur, maxBudget, cur, remaining, totalDur, totalBudget) == []
  {
  }

  /** One step of the walk: with candidates and time left, the first nearest candidate is kept
    * when it fits... */
  lemma {:induction false} GrowTakes(dist: DistFn, maxDur: real, maxBudget: int, cur: Attraction,
                                     remaining: seq<Attraction>, totalDur: real, totalBudget: int)
    requires remaining != [] && totalDur < maxDur
    requires Fits(maxDur, maxBudget, After(dist, cur, NearestOf(dist, cur, remaining), totalDur),
                  Charged(totalBudget, NearestOf(dist, cur, remaining)))
    ensures var n := NearestOf(dist, cur, remaining);
      Grow(dist, maxDur, maxBudget, cur, remaining, totalDur, totalBudget)
        == [n] + Grow(dist, maxDur, maxBudget, n, RemoveFirst(remaining, n), After(dist, cur, n, totalDur), Charged(totalBudget, n))
  {
  }

  /** ... and otherwise the walk ends there, without trying farther candidates. */
  lemma {:induction false} GrowStops(dist: DistFn, maxDur: real, maxBudget: int, cur: Attraction,
                                     remaining: seq<Attraction>, totalDur: real, totalBudget: int)
    requires remaining != [] && totalDur < maxDur
    requires !Fits(maxDur, maxBudget, After(dist, cur, NearestOf(dist, cur, remaining), totalDur),
                   Charged(totalBudget, NearestOf(dist, cur, remaining)))
    ensures Grow(dist, maxDur, maxBudget, cur, remaining, totalDur, totalBudget) == []
  {
  }

  /** A walk that takes anything had candidates and time left, and its first step fitted. */
  lemma GrowTook(dist: DistFn, maxDur: real, maxBudget: int, cur: Attraction,
                 remaining: seq<Attraction>, totalDur: real, totalBudget: int)
    requires Grow(dist, maxDur, maxBudget, cur, remaining, totalDur, totalBudget) != []
    ensures remaining != [] && totalDur < maxDur
    ensures var n := NearestOf(dist, cur, remaining);
      Fits(maxDur, maxBudget, After(dist, cur, n, totalDur), Charged(totalBudget, n))
  {
  }

  /** The first nearest candidate is at least as near as every remaining candidate. */
  lemma NearestOfIsNearest(dist: DistFn, cur: Attraction, remaining: seq<Attraction>)
    requires remaining != []
    ensures forall a :: a in remaining ==> dist(cur.coord, NearestOf(dist, cur, remaining).coord) <= dist(cur.coord, a.coord)
  {
    var i := FirstNearest(dist, Position, cur.coord, remaining);
    forall a | a in remaining ensures dist(cur.coord, remaining[i].coord) <= dist(cur.coord, a.coord) {
      var j :| 0 <= j < |remaining| && remaining[j] == a;
    }
  }

  /** Prefixing a greedy walk with the first nearest element of the pool gives a greedy walk. */
  lemma GreedyCons(dist: DistFn, from: Coord, pool: seq<Attraction>, k: int, rest: seq<Attraction>)
    requires IsFirstNearest(dist, Position, from, pool, k)
    requires GreedyFrom(dist, pool[k].coord, RemoveFirst(pool, pool[k]), rest)
    ensures GreedyFrom(dist, from, pool, [pool[k]] + rest)
  {
    assert ([pool[k]] + rest)[1..] == rest;
  }

  /** The walk only ever moves to the first nearest remaining candidate. */
  lemma {:induction false} GrowIsGreedy(dist: DistFn, maxDur: real, maxBudget: int, cur: Attraction,
                                        remaining: seq<Attraction>, totalDur: real, totalBudget: int)
    ensures GreedyFrom(dist, cur.coord, remaining, Grow(dist, maxDur, maxBudget, cur, remaining, totalDur, totalBudget))
    decreases |remaining|
  {
    if Grow(dist, maxDur, maxBudget, cur, remaining, totalDur, totalBudget) != [] {
      GrowTook(dist, maxDur, maxBudget, cur, remaining, totalDur, totalBudget);
      GrowTakes(dist, maxDur, maxBudget, cur, remaining, totalDur, totalBudget);
      var n := NearestOf(dist, cur, remaining);
      var k := FirstNearest(dist, Position, cur.coord, remaining);
      GrowIsGreedy(dist, maxDur, maxBudget, n, RemoveFirst(remaining, n), After(dist, cur, n, totalDur), Charged(totalBudget, n));
      GreedyCons(dist, cur.coord, remaining, k,
                 Grow(dist, maxDur, maxBudget, n, RemoveFirst(remaining, n), After(dist, cur, n, totalDur), Charged(totalBudget, n)));
    }
  }

  /** Every addition keeps the minutes spent within `maxDur`: if the walk adds anything, the whole
    * selection fits. */
  lemma {:induction false} GrowWithinTime(dist: DistFn, maxDur: real, maxBudget: int, prefix: seq<Attraction>,
                                          remaining: seq<Attraction>, totalBudget: int)
    requires prefix != []
    ensures var g := Grow(dist, maxDur, maxBudget, prefix[|prefix| - 1], remaining, Minutes(dist, prefix), totalBudget);
      g != [] ==> Minutes(dist, prefix + g) <= maxDur
    decreases |remaining|
  {
    var cur := prefix[|prefix| - 1];
    var g := Grow(dist, maxDur, maxBudget, cur, remaining, Minutes(dist, prefix), totalBudget);
    if g != [] {
      GrowTook(dist, maxDur, maxBudget, cur, remaining, Minutes(dist, prefix), totalBudget);
      GrowTakes(dist, maxDur, maxBudget, cur, remaining, Minutes(dist, prefix), totalBudget);
      var n := NearestOf(dist, cur, remaining);
      var p := prefix + [n];
      MinutesAppend(dist, prefix, n);
      assert After(dist, cur, n, Minutes(dist, prefix)) == Minutes(dist, p);
      var rest := Grow(dist, maxDur, maxBudget, n, RemoveFirst(remaining, n), Minutes(dist, p), Charged(totalBudget, n));
      assert g == [n] + rest;
      AppendAssoc(prefix, [n], rest);
      assert prefix + g == p + rest;
      if rest != [] {
        assert p[|p| - 1] == n;
        GrowWithinTime(dist, maxDur, maxBudget, p, RemoveFirst(remaining, n), Charged(totalBudget, n));
      } else {
        assert Minutes(dist, p) <= maxDur;
        assert p + rest == p;
      }
    }
  }

  /** Appending one attraction adds its cost. */
  lemma SpentAppend(sel: seq<Attraction>, n: Attraction)
    ensures Spent(sel + [n]) == Spent(sel) + Cost(n)
  {
    assert (sel + [n])[..|sel|] == sel;
  }

  /** One attraction costs its own price. */
  lemma SpentSingle(a: Attraction)
    ensures Spent([a]) == Cost(a)
  {
    assert [a][..0] == [];
  }

  /** A running total kept in step with the selection. */
  lemma SpentStep(sel: seq<Attraction>, n: Attraction, before: int, after: int)
    requires before == Spent(sel) && after == Charged(before, n)
    ensures after == Spent(sel + [n])
  {
    SpentAppend(sel, n);
  }

  /** With a money budget (any non-zero `maxBudget`), every addition keeps the money spent within
    * it: if the walk adds anything, the whole selection fits. */
  lemma {:induction false} GrowWithinBudget(dist: DistFn, maxDur: real, maxBudget: int, prefix: seq<Attraction>,
                                            remaining: seq<Attraction>, totalDur: real, spent: int)
    requires prefix != [] && maxBudget != 0 && spent == Spent(prefix)
    ensures var g := Grow(dist, maxDur, maxBudget, prefix[|prefix| - 1], remaining, totalDur, spent);
      g != [] ==> Spent(prefix + g) <= maxBudget
    decreases |remaining|
  {
    var cur := prefix[|prefix| - 1];
    var g := Grow(dist, maxDur, maxBudget, cur, remaining, totalDur, spent);
    if g != [] {
      GrowTook(dist, maxDur, maxBudget, cur, remaining, totalDur, spent);
      GrowTakes(dist, maxDur, maxBudget, cur, remaining, totalDur, spent);
      var n := NearestOf(dist, cur, remaining);
      var p := prefix + [n];
      SpentAppend(prefix, n);
      var dur := After(dist, cur, n, totalDur);
      var rest := Grow(dist, maxDur, maxBudget, n, RemoveFirst(remaining, n), dur, Charged(spent, n));
      assert g == [n] + rest;
      AppendAssoc(prefix, [n], rest);
      if rest != [] {
        GrowWithinBudget(dist, maxDur, maxBudget, p, RemoveFirst(remaining, n), dur, Charged(spent, n));
      }
    }
  }

  /** Primary keys are pairwise distinct. */
  predicate UniqueIds(s: seq<Attraction>)
  {
    forall i, j :: 0 <= i < j < |s| ==> s[i].id != s[j].id
  }

  /** With distinct keys, an element occurs at most once. */
  lemma {:induction false} UniqueIdsCount(s: seq<Attraction>, x: Attraction)
    requires UniqueIds(s)
    ensures multiset(s)[x] <= 1
  {
    if s != [] {
      assert s == [s[0]] + s[1..];
      UniqueIdsCount(s[1..], x);
      if s[0] == x {
        assert x !in s[1..];
      }
    }
  }

  /** Keys stay distinct in any sub-multiset. */
  lemma SubMultisetUniqueIds(a: seq<Attraction>, b: seq<Attraction>)
    requires UniqueIds(a) && multiset(b) <= multiset(a)
    ensures UniqueIds(b)
  {
    forall i, j | 0 <= i < j < |b| ensures b[i].id != b[j].id {
      if b[i].id == b[j].id {
        assert b[i] in multiset(a) && b[j] in multiset(a);
        var m1 :| 0 <= m1 < |a| && a[m1] == b[i];
        var m2 :| 0 <= m2 < |a| && a[m2] == b[j];
        var x := b[i];
        assert b == b[..i] + [x] + b[i + 1..j] + [b[j]] + b[j + 1..];
        assert multiset(b)[x] >= 2;
        UniqueIdsCount(a, x);
        assert false;
      }
    }
  }

  /** The walk after the seed, as the selection makes it. */
  function Walk(dist: DistFn, req: Request, cands: seq<Attraction>, seed: Attraction): seq<Attraction>
  {
    Grow(dist, MaxMinutes(req), req.maxBudget, seed, Without(cands, seed),
         seed.visitDuration as real, Cost(seed))
  }

  lemma SelectIsSeedAndWalk(dist: DistFn, req: Request, cands: seq<Attraction>)
    requires cands != []
    ensures var sel := Select(dist, req, cands);
      sel == [sel[0]] + Walk(dist, req, cands, sel[0]) && sel[1..] == Walk(dist, req, cands, sel[0])
  {
  }

  /** After the seed, the selection walks greedily: each step goes to a first-nearest candidate
    * among those not yet taken. */
  lemma SelectIsGreedy(dist: DistFn, req: Request, cands: seq<Attraction>)
    requires cands != []
    ensures var sel := Select(dist, req, cands);
      GreedyFrom(dist, sel[0].coord, Without(cands, sel[0]), sel[1..])
  {
    var sel := Select(dist, req, cands);
    var seed := sel[0];
    SelectIsSeedAndWalk(dist, req, cands);
    GrowIsGreedy(dist, MaxMinutes(req), req.maxBudget, seed, Without(cands, seed),
                 seed.visitDuration as real, Cost(seed));
  }

  /** Once the walk has added anything, the selection fits in the requested hours. The seed alone
    * is never checked. */
  lemma SelectWithinTime(dist: DistFn, req: Request, cands: seq<Attraction>)
    requires cands != []
    ensures var sel := Select(dist, req, cands);
      |sel| > 1 ==> Minutes(dist, sel) <= MaxMinutes(req)
  {
    var sel := Select(dist, req, cands);
    var seed := sel[0];
    SelectIsSeedAndWalk(dist, req, cands);
    MinutesSingle(dist, seed);
    GrowWithinTime(dist, MaxMinutes(req), req.maxBudget, [seed], Without(cands, seed), Cost(seed));
  }

  /** With a non-zero money budget, once the walk has added anything, the selection costs at most
    * the budget. The seed alone is never checked. */
  lemma SelectWithinBudget(dist: DistFn, req: Request, cands: seq<Attraction>)
    requires cands != []
    ensures var sel := Select(dist, req, cands);
      |sel| > 1 && req.maxBudget != 0 ==> Spent(sel) <= req.maxBudget
  {
    var sel := Select(dist, req, cands);
    var seed := sel[0];
    SelectIsSeedAndWalk(dist, req, cands);
    if req.maxBudget != 0 {
      assert [seed][..0] == [];
      assert Spent([seed]) == Cost(seed);
      GrowWithinBudget(dist, MaxMinutes(req), req.maxBudget, [seed], Without(cands, seed),
                       seed.visitDuration as real, Cost(seed));
    }
  }

  /** The selection takes only candidates. */
  lemma SelectFromCandidates(dist: DistFn, req: Request, cands: seq<Attraction>)
    requires cands != []
    ensures forall a :: a in Select(dist, req, cands) ==> a in cands
  {
    var sel := Select(dist, req, cands);
    var seed := sel[0];
    var pool := Without(cands, seed);
    SelectIsSeedAndWalk(dist, req, cands);
    forall a | a in sel ensures a in cands {
      if a != seed {
        assert a in sel[1..];
        assert a in multiset(pool);
      }
    }
  }

  /** The selection never takes the same row twice when the candidates' keys are distinct. */
  lemma SelectDistinct(dist: DistFn, req: Request, cands: seq<Attraction>)
    requires cands != [] && UniqueIds(cands)
    ensures UniqueIds(Select(dist, req, cands))
  {
    var sel := Select(dist, req, cands);
    var seed := sel[0];
    var pool := Without(cands, seed);
    var g := sel[1..];
    SelectIsSeedAndWalk(dist, req, cands);
    SubMultisetUniqueIds(cands, pool);
    SubMultisetUniqueIds(pool, g);
    forall a | a in g
      ensures a.id != seed.id
    {
      assert a in multiset(g);
    }
    assert sel == [seed] + g;
    ConsUniqueIds(seed, g);
  }

  /** Putting a row in front of rows with other keys keeps the keys distinct. */
  lemma ConsUniqueIds(x: Attraction, g: seq<Attraction>)
    requires UniqueIds(g) && forall a :: a in g ==> a.id != x.id
    ensures UniqueIds([x] + g)
  {
    var s := [x] + g;
    forall i, j | 0 <= i < j < |s|
      ensures s[i].id != s[j].id
    {
      assert s[j] == g[j - 1];
      if i > 0 {
        assert s[i] == g[i - 1];
      }
    }
  }

  datatype RouteError = NoAttractionsFound

  /** A created route together with its stops. */
  datatype Generated = Generated(route: Route, stops: seq<Stop>)

  /** One stop per selected attraction, in selection order. */
  function StopsFor(sel: seq<Attraction>): (stops: seq<Stop>)
    ensures |stops| == |sel|
  {
    seq(|sel|, i requires 0 <= i < |sel| => Stop(sel[i], i + 1, sel[i].visitDuration, None))
  }

  /** The route stored for a selection: a private route named after its hours, charged the money
    * spent, as long as the legs between consecutive stops, with a stop per selected attraction. */
  function AlgorithmicRoute(dist: DistFn, req: Request, sel: seq<Attraction>): Generated
  {
    Generated(
      Route("Маршрут на " + IntToString(req.durationHours) + " часов",
            "Автоматически сгенерированный маршрут по " + NatToString(|sel|) + " достопримечательностям",
            req.durationHours, Spent(sel), PathLength(dist, Position, sel), false, false, 0),
      StopsFor(sel))
  }

  /** `generate_route`: resolve the request against the stored preferences, filter and sort the
    * catalog (failing when nothing is left), pick the seed, walk, then store the route, its
    * length and its stops. */
  method GenerateRoute(dist: DistFn, catalog: seq<Attraction>, stored: Option<UserPreference>, req: Request)
    returns (r: Result<Generated, RouteError>)
    ensures var q := ResolvePreferences(req, stored);
      var cands := Candidates(catalog, q);
      && (r.Failure? <==> cands == [])
      && (r.Success? ==> r.value == AlgorithmicRoute(dist, q, Select(dist, q, cands)))
  {
    var q := ResolvePreferences(req, stored);
    var cands := Candidates(catalog, q);
    if cands == [] {
      return Failure(NoAttractionsFound);
    }
    var selected, totalBudget := WalkCandidates(dist, q, cands);
    var route := Route("Маршрут на " + IntToString(q.durationHours) + " часов",
                       "Автоматически сгенерированный маршрут по " + NatToString(|selected|) + " достопримечательностям",
                       q.durationHours, totalBudget, 0.0, false, false, 0);
    var totalDistance := SumLegs(dist, selected);
    route := route.(distanceKm := totalDistance);
    var stops := CreateStops(selected);
    return Success(Generated(route, stops));
  }

  /** What one accepted step of the loop preserves: the selection so far followed by the rest of
    * the walk is still the whole selection, and the running total is still the money spent. */
  lemma WalkStep(dist: DistFn, maxDur: real, maxBudget: int, selected: seq<Attraction>, current: Attraction,
                 remaining: seq<Attraction>, totalDuration: real, totalBudget: int, goal: seq<Attraction>,
                 nearest: Attraction, newDuration: real, newBudget: int)
    requires remaining != [] && totalDuration < maxDur
    requires nearest == NearestOf(dist, current, remaining)
    requires newDuration == After(dist, current, nearest, totalDuration) && newBudget == Charged(totalBudget, nearest)
    requires Fits(maxDur, maxBudget, newDuration, newBudget)
    requires selected + Grow(dist, maxDur, maxBudget, current, remaining, totalDuration, totalBudget) == goal
    requires totalBudget == Spent(selected)
    ensures (selected + [nearest]) + Grow(dist, maxDur, maxBudget, nearest, RemoveFirst(remaining, nearest), newDuration, newBudget) == goal
    ensures newBudget == Spent(selected + [nearest])
  {
    GrowTakes(dist, maxDur, maxBudget, current, remaining, totalDuration, totalBudget);
    AppendAssoc(selected, [nearest], Grow(dist, maxDur, maxBudget, nearest, RemoveFirst(remaining, nearest), newDuration, newBudget));
    SpentStep(selected, nearest, totalBudget, newBudget);
  }

  /** `min(remaining, key=distance from current)`. */
  method NearestRemaining(dist: DistFn, current: Attraction, remaining: seq<Attraction>) returns (nearest: Attraction)
    requires remaining != []
    ensures nearest == NearestOf(dist, current, remaining)
  {
    var i := FirstNearestIndex(dist, Position, current.coord, remaining);
    nearest := remaining[i];
  }

  /** The starting point: the candidate nearest the start point when both start coordinates are
    * truthy, else the best rated one. */
  method ChooseSeed(dist: DistFn, cands: seq<Attraction>, startLat: Option<int>, startLon: Option<int>) returns (i: nat)
    requires cands != []
    ensures i == SeedIndex(dist, cands, startLat, startLon)
  {
    i := 0;
    if Truthy(startLat) && Truthy(startLon) {
      i := FirstNearestIndex(dist, Position, Coord(startLat.value, startLon.value), cands);
    }
  }

  /** The selection loop of `generate_route`: the seed, then the nearest remaining candidate
    * while it fits, keeping running totals of minutes and money. */
  method WalkCandidates(dist: DistFn, q: Request, cands: seq<Attraction>) returns (selected: seq<Attraction>, totalBudget: int)
    requires cands != []
    ensures selected == Select(dist, q, cands) && totalBudget == Spent(selected)
  {
    var seedIndex := ChooseSeed(dist, cands, q.startLat, q.startLon);
    var seed := cands[seedIndex];
    selected := [seed];
    var remaining := Without(cands, seed);
    var totalDuration: real := seed.visitDuration as real;
    totalBudget := Cost(seed);
    SpentSingle(seed);
    var maxDuration := q.durationHours * 60;
    var current := seed;
    ghost var goal := Select(dist, q, cands);
    ghost var maxDur := MaxMinutes(q);
    while remaining != [] && totalDuration < maxDuration as real
      invariant selected != [] && current == selected[|selected| - 1]
      invariant selected + Grow(dist, maxDur, q.maxBudget, current, remaining, totalDuration, totalBudget) == goal
      invariant totalBudget == Spent(selected)
      decreases |remaining|
    {
      var taken, nearest, newDuration, newBudget := Advance(dist, maxDuration, q.maxBudget, current, remaining, totalDuration, totalBudget);
      if !taken {
        break;
      }
      var next := RemoveFirst(remaining, nearest);
      AppendAssoc(selected, [nearest], Grow(dist, maxDur, q.maxBudget, nearest, next, newDuration, newBudget));
      SpentStep(selected, nearest, totalBudget, newBudget);
      selected := selected + [nearest];
      totalDuration := newDuration;
      totalBudget := newBudget;
      current := nearest;
      remaining := next;
    }
    if remaining == [] || totalDuration >= maxDuration as real {
      GrowDone(dist, maxDur, q.maxBudget, current, remaining, totalDuration, totalBudget);
    }
  }

  /** One pass of the selection loop: the nearest remaining candidate, the running totals with it,
    * and whether it still fits in the time and the budget; the walk takes it exactly then. */
  method Advance(dist: DistFn, maxDuration: int, maxBudget: int, current: Attraction, remaining: seq<Attraction>,
                 totalDuration: real, totalBudget: int)
    returns (taken: bool, nearest: Attraction, newDuration: real, newBudget: int)
    requires remaining != [] && totalDuration < maxDuration as real
    ensures nearest in remaining && newBudget == Charged(totalBudget, nearest)
    ensures taken ==>
      Grow(dist, maxDuration as real, maxBudget, current, remaining, totalDuration, totalBudget)
        == [nearest] + Grow(dist, maxDuration as real, maxBudget, nearest, RemoveFirst(remaining, nearest), newDuration, newBudget)
    ensures !taken ==> Grow(dist, maxDuration as real, maxBudget, current, remaining, totalDuration, totalBudget) == []
  {
    nearest := NearestRemaining(dist, current, remaining);
    var travelTime := 2.0 * dist(current.coord, nearest.coord);
    var visitDuration := nearest.visitDuration;
    var cost := Cost(nearest);
    newDuration := totalDuration + travelTime + visitDuration as real;
    newBudget := totalBudget + cost;
    assert newDuration == After(dist, current, nearest, totalDuration);
    taken := newDuration <= maxDuration as real && (maxBudget == 0 || newBudget <= maxBudget);
    if taken {
      GrowTakes(dist, maxDuration as real, maxBudget, current, remaining, totalDuration, totalBudget);
    } else {
      GrowStops(dist, maxDuration as real, maxBudget, current, remaining, totalDuration, totalBudget);
    }
  }

  /** The sum of the legs between consecutive selected attractions. */
  method SumLegs(dist: DistFn, sel: seq<Attraction>) returns (total: real)
    requires sel != []
    ensures total == PathLength(dist, Position, sel)
  {
    total := 0.0;
    for i := 0 to |sel| - 1
      invariant total == PathLength(dist, Position, sel[..i + 1])
    {
      assert sel[..i + 2] == sel[..i + 1] + [sel[i + 1]];
      PathLengthAppend(dist, Position, sel[..i + 1], sel[i + 1]);
      total := total + dist(sel[i].coord, sel[i + 1].coord);
    }
    assert sel[..|sel|] == sel;
  }

  /** One stop row per selected attraction, with positions 1..k in selection order. */
  method CreateStops(sel: seq<Attraction>) returns (stops: seq<Stop>)
    ensures stops == StopsFor(sel)
    ensures NumberedInSequence(stops) && ValidStops(stops)
    ensures forall i :: 0 <= i < |sel| ==> stops[i].attraction == sel[i] && stops[i].visitDuration == sel[i].visitDuration
  {
    stops := [];
    for i := 0 to |sel|
      invariant stops == StopsFor(sel[..i])
    {
      assert StopsFor(sel[..i + 1]) == StopsFor(sel[..i]) + [Stop(sel[i], i + 1, sel[i].visitDuration, None)];
      stops := stops + [Stop(sel[i], i + 1, sel[i].visitDuration, None)];
    }
    assert sel[..|sel|] == sel;
    NumberedStopsValid(stops);
  }
}
