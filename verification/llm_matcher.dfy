/** The richer place-name matcher of the backend (`create_route_from_llm_response`): a suggested
  * name is looked up exactly, then by a containment score, then by the keyword index; a name that
  * still matches nothing becomes a new attraction when the suggestion carries coordinates, and is
  * dropped otherwise. */
module LlmMatcher {
  import opened Wrappers
  import opened Geo
  import opened Text
  import opened Attractions
  import opened RouteModels
  import opened NameIndex
  import opened Suggestions
  import opened UniqueSlugs
  import opened Optimizer
  import opened SimpleMatcher

  /** How much of the longer name the shorter one covers, when one contains the other: the length
    * of the suggested name over the key's when the key contains it, else the key's length over
    * the suggested name's when it contains the key, else 0. */
  function Score(n: string, key: string): (r: real)
    requires n != []
    ensures 0.0 <= r <= 1.0
    ensures r > 0.0 ==> Related(n, key)
  {
    if IsSubstring(n, key) then
      SubstringLength(n, key);
      RatioAtMostOne(|n|, |key|);
      (|n| as real) / (|key| as real)
    else if IsSubstring(key, n) then
      SubstringLength(key, n);
      RatioAtMostOne(|key|, |n|);
      (|key| as real) / (|n| as real)
    else 0.0
  }

  /** A length over a length at least as large lies in [0, 1]. */
  lemma RatioAtMostOne(a: nat, b: nat)
    requires a <= b && b > 0
    ensures 0.0 <= (a as real) / (b as real) <= 1.0
  {
    var q := (a as real) / (b as real);
    assert q * (b as real) == a as real;
    assert (q - 1.0) * (b as real) <= 0.0;
  }

  /** The position of the key the fuzzy scan settles on: a key replaces the best so far only when
    * its score is above 0.5 and strictly above the best score so far. */
  function BestKey(keys: seq<string>, n: string): (r: Option<nat>)
    requires n != []
    ensures r.Some? ==> r.value < |keys|
  {
    if keys == [] then None
    else
      var b := BestKey(keys[..|keys| - 1], n);
      var s := Score(n, keys[|keys| - 1]);
      if s > 0.5 && (b.None? || s > Score(n, keys[b.value])) then Some(|keys| - 1) else b
  }

  /** The scan finds nothing exactly when no key scores above 0.5; otherwise it finds the FIRST key
    * of maximal score, and that score is above 0.5. */
  lemma {:induction false} BestKeySpec(keys: seq<string>, n: string)
    requires n != []
    ensures var r := BestKey(keys, n);
      && (r.None? <==> forall j :: 0 <= j < |keys| ==> Score(n, keys[j]) <= 0.5)
      && (r.Some? ==> && Score(n, keys[r.value]) > 0.5
                      && (forall j :: 0 <= j < |keys| ==> Score(n, keys[j]) <= Score(n, keys[r.value]))
                      && (forall j :: 0 <= j < r.value ==> Score(n, keys[j]) < Score(n, keys[r.value])))
  {
    if keys != [] {
      var init := keys[..|keys| - 1];
      BestKeySpec(init, n);
      assert forall j :: 0 <= j < |init| ==> init[j] == keys[j];
    }
  }

  /** A key scoring exactly one half is not accepted: "ab" against the only key "abcd". */
  lemma HalfScoreRejected()
    ensures BestKey(["abcd"], "ab") == None
  {
    assert IsPrefix("ab", "abcd");
    assert Score("ab", "abcd") == 0.5;
  }

  /** The attraction the fuzzy scan accepts, if any. */
  function Fuzzy(m: NameMap, n: string): (r: Option<Attraction>)
    requires ValidNameMap(m) && n != []
  {
    var b := BestKey(m.order, n);
    if b.Some? then
      assert m.order[b.value] in m.values;
      Some(m.values[m.order[b.value]])
    else None
  }

  lemma BestKeyStep(keys: seq<string>, n: string, i: nat)
    requires n != [] && i < |keys|
    ensures var b := BestKey(keys[..i], n);
      var s := Score(n, keys[i]);
      BestKey(keys[..i + 1], n) == if s > 0.5 && (b.None? || s > Score(n, keys[b.value])) then Some(i) else b
  {
    assert keys[..i + 1][..i] == keys[..i];
  }

  /** The fuzzy scan over the name map, keeping the best score and the best match so far. */
  method FuzzyScan(m: NameMap, n: string) returns (best: Option<Attraction>)
    requires ValidNameMap(m) && n != []
    ensures best == Fuzzy(m, n)
  {
    best := None;
    var bestScore: real := 0.0;
    ghost var bestIndex: Option<nat> := None;
    for i := 0 to |m.order|
      invariant bestIndex == BestKey(m.order[..i], n)
      invariant bestIndex.Some? ==> bestIndex.value < i
      invariant bestScore == if bestIndex.Some? then Score(n, m.order[bestIndex.value]) else 0.0
      invariant best == if bestIndex.Some? then Some(m.values[m.order[bestIndex.value]]) else None
    {
      BestKeyStep(m.order, n, i);
      var key := m.order[i];
      var score: real := 0.0;
      if IsSubstring(n, key) {
        SubstringLength(n, key);
        score := (|n| as real) / (|key| as real);
      } else if IsSubstring(key, n) {
        score := (|key| as real) / (|n| as real);
      }
      if score > bestScore && score > 0.5 {
        bestScore := score;
        best := Some(m.values[key]);
        bestIndex := Some(i);
      }
    }
    assert m.order[..|m.order|] == m.order;
  }

  /** Every indexed word has a non-empty list. */
  predicate NonEmptyLists(kw: KeywordIndex)
  {
    forall w :: w in kw ==> kw[w] != []
  }

  lemma KeywordListsNonEmpty(active: seq<Attraction>)
    ensures NonEmptyLists(KeywordIndexOf(active))
  {
    forall w | w in KeywordIndexOf(active)
      ensures KeywordIndexOf(active)[w] != []
    {
      KeywordIndexSpec(active, w);
    }
  }

  function IndexedIn(kw: KeywordIndex): string -> bool
  {
    w => |w| > 3 && w in kw
  }

  /** The first attraction listed under the first word longer than three characters that the
    * index holds. */
  function KeywordMatch(kw: KeywordIndex, words: seq<string>): (r: Option<Attraction>)
    requires NonEmptyLists(kw)
  {
    var i := FirstWhere(words, IndexedIn(kw));
    if i.Some? then
      assert IndexedIn(kw)(words[i.value]) ==> words[i.value] in kw;
      FirstWhereSpec(words, IndexedIn(kw));
      Some(kw[words[i.value]][0])
    else None
  }

  /** On the keyword index of the active attractions, a keyword hit is the first active attraction
    * whose lower-cased name contains the first indexed word of the suggested name, and there is a
    * hit exactly when some word longer than three characters occurs in an active name. */
  lemma KeywordMatchSpec(active: seq<Attraction>, words: seq<string>)
    ensures NonEmptyLists(KeywordIndexOf(active))
    ensures var kw := KeywordIndexOf(active);
      var r := KeywordMatch(kw, words);
      && (r.None? <==> forall j :: 0 <= j < |words| ==> |words[j]| <= 3 || FirstWithWord(active, words[j]).None?)
      && (r.Some? ==> exists j :: 0 <= j < |words| && |words[j]| > 3 && FirstWithWord(active, words[j]).Some?
                                  && r.value == active[FirstWithWord(active, words[j]).value]
                                  && forall i :: 0 <= i < j ==> |words[i]| <= 3 || FirstWithWord(active, words[i]).None?)
  {
    var kw := KeywordIndexOf(active);
    KeywordListsNonEmpty(active);
    FirstWhereSpec(words, IndexedIn(kw));
    forall j | 0 <= j < |words|
      ensures IndexedIn(kw)(words[j]) <==> |words[j]| > 3 && FirstWithWord(active, words[j]).Some?
    {
      KeywordIndexSpec(active, words[j]);
    }
    var i := FirstWhere(words, IndexedIn(kw));
    if i.Some? {
      KeywordIndexSpec(active, words[i.value]);
    }
  }

  /** The keyword loop: the first word that is long enough and indexed decides. */
  method KeywordScan(kw: KeywordIndex, words: seq<string>) returns (r: Option<Attraction>)
    requires NonEmptyLists(kw)
    ensures r == KeywordMatch(kw, words)
  {
    FirstWhereSpec(words, IndexedIn(kw));
    var i := 0;
    while i < |words|
      invariant 0 <= i <= |words|
      invariant forall j :: 0 <= j < i ==> !IndexedIn(kw)(words[j])
    {
      var word := words[i];
      if |word| > 3 && word in kw {
        assert IndexedIn(kw)(word);
        return Some(kw[word][0]);
      }
      i := i + 1;
    }
    return None;
  }

  /** Exact lookup first; the fuzzy scan and then the keyword index only when it misses. */
  function Lookup(m: NameMap, kw: KeywordIndex, n: string): (r: Option<Attraction>)
    requires ValidNameMap(m) && NonEmptyLists(kw) && n != []
  {
    if n in m.values then Some(m.values[n])
    else
      var f := Fuzzy(m, n);
      if f.Some? then f else KeywordMatch(kw, Words(n))
  }

  /** On the tables of the active attractions, every hit is an active attraction: the last of that
    * name on an exact hit, one whose name is related to the suggested name on a fuzzy hit. */
  lemma LookupSpec(active: seq<Attraction>, n: string)
    requires n != []
    ensures NonEmptyLists(KeywordIndexOf(active))
    ensures var m := NameIndexOf(active);
      var r := Lookup(m, KeywordIndexOf(active), n);
      && (r.Some? ==> r.value in active)
      && (LastNamed(active, n).Some? ==> r == Some(active[LastNamed(active, n).value]))
      && (LastNamed(active, n).None? && Fuzzy(m, n).Some? ==> r == Fuzzy(m, n) && Related(n, Lower(r.value.name)))
  {
    var m := NameIndexOf(active);
    KeywordListsNonEmpty(active);
    NameIndexLookup(active, n);
    var b := BestKey(m.order, n);
    if b.Some? {
      var k := m.order[b.value];
      NameIndexLookup(active, k);
      BestKeySpec(m.order, n);
    }
    KeywordMatchSpec(active, Words(n));
  }

  /** The settings of one run: the two tables, the slug function, the default category and which
    * new rows the store accepts (a row it rejects is reported and its name dropped). */
  datatype Setting = Setting(
    names: NameMap,
    keywords: KeywordIndex,
    slugify: string -> string,
    category: Option<nat>,
    accepts: Attraction -> bool)

  ghost predicate ValidSetting(st: Setting)
  {
    ValidNameMap(st.names) && NonEmptyLists(st.keywords)
  }

  /** An id above every stored one. */
  function NextId(store: seq<Attraction>): (r: nat)
    ensures r >= 1 && forall a :: a in store ==> a.id < r
  {
    if store == [] then 1
    else
      var init := store[..|store| - 1];
      assert store == init + [store[|store| - 1]];
      var k := NextId(init);
      if store[|store| - 1].id + 1 > k then store[|store| - 1].id + 1 else k
  }

  /** The first 200 characters. */
  function Prefix200(s: string): (r: string)
    ensures |r| <= 200 && |r| <= |s| && r == s[..|r|]
    ensures |s| <= 200 ==> r == s
    ensures |s| > 200 ==> |r| == 200
  {
    if |s| <= 200 then s else s[..200]
  }

  /** The attraction created for an unmatched suggestion with coordinates: the suggested name,
    * description (default "Достопримечательность <name> в Казани"), a short description cut to 200
    * characters when the suggested description is non-empty, address (default empty) and visit
    * duration (default 60); free, active, rated 0, priced 0, in the default category. */
  function NewFromSuggestion(id: nat, name: string, slug: string, s: Suggestion, category: Option<nat>): (a: Attraction)
    requires Given(s.latitude) && Given(s.longitude)
    ensures a.id == id && a.name == name && a.slug == slug && a.category == category
    ensures a.coord == Coord(s.latitude.value, s.longitude.value) && Nonzero(a.coord)
    ensures a.isFree && a.isActive && a.rating == 0 && a.price == 0 && a.website.None?
    ensures a.description == if s.description.Some? then s.description.value else "Достопримечательность " + name + " в Казани"
    ensures a.shortDescription.Some? <==> s.description.Some? && s.description.value != []
    ensures a.shortDescription.Some? ==> a.shortDescription.value == Prefix200(s.description.value)
    ensures a.address == Some(if s.address.Some? then s.address.value else "")
    ensures a.visitDuration == if s.visitDuration.Some? then s.visitDuration.value else 60
  {
    Attraction(id, name, slug,
               GetOr(s.description, "Достопримечательность " + name + " в Казани"),
               if s.description.Some? && s.description.value != [] then Some(Prefix200(s.description.value)) else None,
               Coord(s.latitude.value, s.longitude.value),
               Some(GetOr(s.address, "")),
               category, 0, GetOr(s.visitDuration, 60), 0, true, None, true)
  }

  /** The stop for the suggestion at 1-based position `idx` of the list: the suggested position
    * (default `idx`), the suggested visit duration (default the attraction's, or 60 when that is
    * 0), and the suggested name as a note exactly when it differs from the attraction's name. */
  function StopFor(a: Attraction, s: Suggestion, idx: nat, name: string): (r: Stop)
    ensures r.attraction == a
    ensures r.order == if s.order.Some? then s.order.value else idx
    ensures r.visitDuration == if s.visitDuration.Some? then s.visitDuration.value
                               else if a.visitDuration != 0 then a.visitDuration else 60
    ensures r.notes.Some? <==> name != a.name
    ensures r.notes.Some? ==> r.notes.value == name
  {
    Stop(a, GetOr(s.order, idx), GetOr(s.visitDuration, if a.visitDuration != 0 then a.visitDuration else 60),
         if name != a.name then Some(name) else None)
  }

  /** What the run has done so far: the attraction table, the stops added, the dropped names and
    * the number of attractions created. */
  datatype Progress = Progress(store: seq<Attraction>, stops: seq<Stop>, unmatched: seq<string>, created: nat)

  /** Adding a stop, unless another stop already holds its position. */
  function AddStop(p: Progress, stop: Stop): (r: Result<Progress, DbError>)
    ensures r.Failure? <==> OrderTaken(p.stops, stop.order)
    ensures r.Success? ==> r.value == p.(stops := p.stops + [stop])
  {
    if OrderTaken(p.stops, stop.order) then Failure(UniqueViolation) else Success(p.(stops := p.stops + [stop]))
  }

  /** Handling the suggestion at 1-based position `idx`. */
  function PlaceSuggestion(st: Setting, p: Progress, s: Suggestion, idx: nat): Result<Progress, DbError>
    requires ValidSetting(st)
  {
    var name := Strip(GetOr(s.name, ""));
    if name == [] then Success(p)
    else
      var found := Lookup(st.names, st.keywords, Lower(name));
      if found.Some? then AddStop(p, StopFor(found.value, s, idx, name))
      else if Given(s.latitude) && Given(s.longitude) then Materialise(st, p, s, idx, name)
      else Success(p.(unmatched := p.unmatched + [name]))
  }

  /** Creating the attraction for an unmatched name with coordinates, under a fresh id and the
    * first free slug, and its stop; a row the store rejects drops the name instead. */
  function Materialise(st: Setting, p: Progress, s: Suggestion, idx: nat, name: string): Result<Progress, DbError>
    requires Given(s.latitude) && Given(s.longitude)
  {
    var a := NewFromSuggestion(NextId(p.store), name, UniqueSlug(st.slugify(name), Slugs(p.store)), s, st.category);
    if st.accepts(a) then AddStop(p.(store := p.store + [a], created := p.created + 1), StopFor(a, s, idx, name))
    else Success(p.(unmatched := p.unmatched + [name]))
  }

  /** Handling the suggestions in order, stopping at the first position clash. */
  function Placed(st: Setting, p0: Progress, list: seq<Suggestion>): Result<Progress, DbError>
    requires ValidSetting(st)
  {
    if list == [] then Success(p0)
    else
      var prior := Placed(st, p0, list[..|list| - 1]);
      if prior.Failure? then prior else PlaceSuggestion(st, prior.value, list[|list| - 1], |list|)
  }

  /** What a run keeps true: the table only grows, by free and active rows with non-zero
    * coordinates, one per creation; ids and slugs stay unique; the stops hold distinct positions
    * and note a suggested name only when it differs from the attraction's; every suggestion adds
    * at most one stop or one dropped name. */
  ghost predicate Sound(p0: Progress, p: Progress, handled: nat)
  {
    && |p0.store| <= |p.store| && p.store[..|p0.store|] == p0.store
    && |p.store| - |p0.store| == p.created - p0.created
    && (forall i :: |p0.store| <= i < |p.store| ==> p.store[i].isFree && p.store[i].isActive && Nonzero(p.store[i].coord))
    && (UniqueAttractions(p0.store) ==> UniqueAttractions(p.store))
    && (DistinctOrders(p0.stops) ==> DistinctOrders(p.stops))
    && |p0.stops| <= |p.stops| && p.stops[..|p0.stops|] == p0.stops
    && (forall i :: |p0.stops| <= i < |p.stops| ==> p.stops[i].notes.Some? ==> p.stops[i].notes.value != p.stops[i].attraction.name)
    && |p0.unmatched| <= |p.unmatched|
    && (|p.stops| - |p0.stops|) + (|p.unmatched| - |p0.unmatched|) <= handled
  }

  /** A fresh id and a free slug keep ids and slugs unique. */
  lemma AppendKeepsUnique(store: seq<Attraction>, a: Attraction)
    requires UniqueAttractions(store)
    requires forall b :: b in store ==> b.id < a.id
    requires a.slug !in Slugs(store)
    ensures UniqueAttractions(store + [a])
  {
    var s := store + [a];
    forall i, j | 0 <= i < j < |s|
      ensures s[i].id != s[j].id && s[i].slug != s[j].slug
    {
      if j == |store| {
        assert s[i] in store;
      }
    }
  }

  lemma AddStopSound(p: Progress, stop: Stop)
    requires AddStop(p, stop).Success?
    requires stop.notes.Some? ==> stop.notes.value != stop.attraction.name
    ensures Sound(p, AddStop(p, stop).value, 1)
  {
    var q := AddStop(p, stop).value;
    assert q.store[..|p.store|] == p.store;
    assert q.stops[..|p.stops|] == p.stops;
  }

  /** One suggestion keeps the run sound. */
  lemma PlaceSuggestionSound(st: Setting, p: Progress, s: Suggestion, idx: nat)
    requires ValidSetting(st)
    requires PlaceSuggestion(st, p, s, idx).Success?
    ensures Sound(p, PlaceSuggestion(st, p, s, idx).value, 1)
  {
    var name := Strip(GetOr(s.name, ""));
    if name != [] {
      var found := Lookup(st.names, st.keywords, Lower(name));
      if found.Some? {
        AddStopSound(p, StopFor(found.value, s, idx, name));
      } else if Given(s.latitude) && Given(s.longitude) {
        MaterialiseSound(st, p, s, idx, name);
      }
    }
  }

  lemma MaterialiseSound(st: Setting, p: Progress, s: Suggestion, idx: nat, name: string)
    requires Given(s.latitude) && Given(s.longitude)
    requires Materialise(st, p, s, idx, name).Success?
    ensures Sound(p, Materialise(st, p, s, idx, name).value, 1)
  {
    var a := NewFromSuggestion(NextId(p.store), name, UniqueSlug(st.slugify(name), Slugs(p.store)), s, st.category);
    if st.accepts(a) {
      var p' := p.(store := p.store + [a], created := p.created + 1);
      AddStopSound(p', StopFor(a, s, idx, name));
      if UniqueAttractions(p.store) {
        AppendKeepsUnique(p.store, a);
      }
      var q := Materialise(st, p, s, idx, name).value;
      assert q.store == p.store + [a];
      assert q.store[..|p.store|] == p.store;
    }
  }

  /** Soundness composes along the list. */
  lemma SoundTrans(p0: Progress, p1: Progress, p2: Progress, h1: nat, h2: nat)
    requires Sound(p0, p1, h1) && Sound(p1, p2, h2)
    ensures Sound(p0, p2, h1 + h2)
  {
    assert p2.store[..|p0.store|] == p2.store[..|p1.store|][..|p0.store|];
    assert p2.stops[..|p0.stops|] == p2.stops[..|p1.stops|][..|p0.stops|];
    forall i | |p0.stops| <= i < |p2.stops|
      ensures p2.stops[i].notes.Some? ==> p2.stops[i].notes.value != p2.stops[i].attraction.name
    {
      if i < |p1.stops| {
        assert p2.stops[i] == p1.stops[i];
      }
    }
    forall i | |p0.store| <= i < |p2.store|
      ensures p2.store[i].isFree && p2.store[i].isActive && Nonzero(p2.store[i].coord)
    {
      if i < |p1.store| {
        assert p2.store[i] == p1.store[i];
      }
    }
  }

  /** Over a whole list of suggestions, the run stays sound. */
  lemma {:induction false} PlacedSound(st: Setting, p0: Progress, list: seq<Suggestion>)
    requires ValidSetting(st)
    requires Placed(st, p0, list).Success?
    ensures Sound(p0, Placed(st, p0, list).value, |list|)
  {
    if list == [] {
      var p := Placed(st, p0, list).value;
      assert p.store[..|p0.store|] == p0.store;
      assert p.stops[..|p0.stops|] == p0.stops;
    } else {
      var init := list[..|list| - 1];
      PlacedSound(st, p0, init);
      var prior := Placed(st, p0, init).value;
      PlaceSuggestionSound(st, prior, list[|list| - 1], |list|);
      SoundTrans(p0, prior, Placed(st, p0, list).value, |init|, 1);
    }
  }

  /** A position clash ends the run for good. */
  lemma {:induction false} FailurePersists(st: Setting, p0: Progress, list: seq<Suggestion>, k: nat)
    requires ValidSetting(st) && k <= |list|
    requires Placed(st, p0, list[..k]).Failure?
    ensures Placed(st, p0, list).Failure?
    decreases |list|
  {
    if k == |list| {
      assert list[..k] == list;
    } else {
      var init := list[..|list| - 1];
      assert init[..k] == list[..k];
      FailurePersists(st, p0, init, k);
    }
  }

  lemma PlacedStep(st: Setting, p0: Progress, list: seq<Suggestion>, i: nat)
    requires ValidSetting(st) && i < |list|
    ensures var prior := Placed(st, p0, list[..i]);
      Placed(st, p0, list[..i + 1]) == if prior.Failure? then prior else PlaceSuggestion(st, prior.value, list[i], i + 1)
  {
    assert list[..i + 1][..i] == list[..i];
  }

  /** The suggestions handled: the reply's list; when it is empty or missing, the reply's
    * description is non-empty and the extraction service is configured, the list extracted from
    * that description, or nothing when extraction gives no result. */
  function SuggestionList(reply: RouteReply, hasExtractionKey: bool, extracted: Option<seq<Suggestion>>): (r: seq<Suggestion>)
    ensures GetOr(reply.attractions, []) != [] ==> r == reply.attractions.value
    ensures GetOr(reply.attractions, []) == [] && !(GetOr(reply.description, []) != [] && hasExtractionKey && extracted.Some?)
            ==> r == []
  {
    var list := GetOr(reply.attractions, []);
    if list == [] && GetOr(reply.description, "") != [] && hasExtractionKey && extracted.Some? then extracted.value else list
  }

  /** A stored route with its stops, the attraction table after the run, the dropped names and the
    * number of attractions created. */
  datatype Created = Created(route: Route, stops: seq<Stop>, store: seq<Attraction>, unmatched: seq<string>, created: nat)

  /** The run over the suggestions: the route holds the stops of the run and the guarded distance
    * over them, the table the attractions it created; a position clash stores nothing. The run is
    * sound: the table only grows, by free and active rows, with ids and slugs unique if they were;
    * the stops have distinct positions; no suggestion adds more than one stop or dropped name. */
  method CreateRouteFromReply(dist: DistFn, catalog: seq<Attraction>, slugify: string -> string, category: Option<nat>,
                              accepts: Attraction -> bool, reply: RouteReply, hasExtractionKey: bool,
                              extracted: Option<seq<Suggestion>>, durationHours: int)
    returns (r: Result<Created, DbError>)
    ensures var active := ActiveInDefaultOrder(catalog);
      var st := Setting(NameIndexOf(active), KeywordIndexOf(active), slugify, category, accepts);
      var list := SuggestionList(reply, hasExtractionKey, extracted);
      var p0 := Progress(catalog, [], [], 0);
      && ValidSetting(st)
      && (r.Failure? <==> Placed(st, p0, list).Failure?)
      && (r.Success? ==>
            var p := Placed(st, p0, list).value;
            && r.value == Created(SuggestedRoute(reply, durationHours, GuardedLength(dist, StopPosition, p.stops)),
                                  p.stops, p.store, p.unmatched, p.created)
            && Sound(p0, p, |list|))
  {
    var active := ActiveInDefaultOrder(catalog);
    var names, keywords := BuildIndexes(active);
    KeywordListsNonEmpty(active);
    var st := Setting(names, keywords, slugify, category, accepts);
    var list := SuggestionList(reply, hasExtractionKey, extracted);
    var p := Progress(catalog, [], [], 0);
    ghost var p0 := p;
    var total: real := 0.0;
    var prev: Option<Coord> := None;
    for i := 0 to |list|
      invariant Placed(st, p0, list[..i]) == Success(p)
      invariant Tracks(dist, p, total, prev)
    {
      PlacedStep(st, p0, list, i);
      var clash;
      clash, p, total, prev := PlaceOne(dist, st, list[i], i + 1, p, total, prev);
      if clash {
        FailurePersists(st, p0, list, i + 1);
        return Failure(UniqueViolation);
      }
    }
    assert list[..|list|] == list;
    PlacedSound(st, p0, list);
    return Success(Created(SuggestedRoute(reply, durationHours, total), p.stops, p.store, p.unmatched, p.created));
  }

  /** The running distance and the cursor agree with the stops added so far. */
  predicate Tracks(dist: DistFn, p: Progress, total: real, prev: Option<Coord>)
  {
    && total == GuardedLength(dist, StopPosition, p.stops)
    && prev == if p.stops == [] then None else Some(StopPosition(p.stops[|p.stops| - 1]))
  }

  /** One turn of the loop: skip a blank name; look the name up; create the attraction when
    * nothing matches and coordinates are given, or drop the name; add the stop. */
  method PlaceOne(dist: DistFn, st: Setting, s: Suggestion, idx: nat, p: Progress, total: real, prev: Option<Coord>)
    returns (clash: bool, p': Progress, total': real, prev': Option<Coord>)
    requires ValidSetting(st) && Tracks(dist, p, total, prev)
    ensures clash <==> PlaceSuggestion(st, p, s, idx).Failure?
    ensures !clash ==> p' == PlaceSuggestion(st, p, s, idx).value && Tracks(dist, p', total', prev')
  {
    clash, p', total', prev' := false, p, total, prev;
    var name := Strip(GetOr(s.name, ""));
    if name == [] {
      return;
    }
    var found := FindByName(st, Lower(name));
    if found.Some? {
      clash, p', total', prev' := AppendStop(dist, p, StopFor(found.value, s, idx, name), total, prev);
    } else if Given(s.latitude) && Given(s.longitude) {
      clash, p', total', prev' := CreateAttraction(dist, st, s, idx, name, p, total, prev);
    } else {
      p' := p.(unmatched := p.unmatched + [name]);
    }
  }

  /** The creation branch: a unique slug by the counter loop, the new row, and its stop. */
  method CreateAttraction(dist: DistFn, st: Setting, s: Suggestion, idx: nat, name: string,
                          p: Progress, total: real, prev: Option<Coord>)
    returns (clash: bool, p': Progress, total': real, prev': Option<Coord>)
    requires Given(s.latitude) && Given(s.longitude) && Tracks(dist, p, total, prev)
    ensures clash <==> Materialise(st, p, s, idx, name).Failure?
    ensures !clash ==> p' == Materialise(st, p, s, idx, name).value && Tracks(dist, p', total', prev')
  {
    var slug := CreateSlug(st.slugify(name), Slugs(p.store));
    var a := NewFromSuggestion(NextId(p.store), name, slug, s, st.category);
    if st.accepts(a) {
      var q := p.(store := p.store + [a], created := p.created + 1);
      var stop := StopFor(a, s, idx, name);
      assert q.stops == p.stops;
      assert Materialise(st, p, s, idx, name) == AddStop(q, stop);
      clash, p', total', prev' := AppendStop(dist, q, stop, total, prev);
    } else {
      clash, p', total', prev' := false, p.(unmatched := p.unmatched + [name]), total, prev;
    }
  }

  /** Exact lookup, then the fuzzy scan, then the keyword scan. */
  method FindByName(st: Setting, lower: string) returns (found: Option<Attraction>)
    requires ValidSetting(st) && lower != []
    ensures found == Lookup(st.names, st.keywords, lower)
  {
    if lower in st.names.values {
      return Some(st.names.values[lower]);
    }
    found := FuzzyScan(st.names, lower);
    if found.None? {
      found := KeywordScan(st.keywords, Words(lower));
    }
  }

  /** Creating the stop row and adding its leg to the distance, unless its position is taken. */
  method AppendStop(dist: DistFn, p: Progress, stop: Stop, total: real, prev: Option<Coord>)
    returns (clash: bool, p': Progress, total': real, prev': Option<Coord>)
    requires Tracks(dist, p, total, prev)
    ensures clash <==> AddStop(p, stop).Failure?
    ensures !clash ==> p' == AddStop(p, stop).value && Tracks(dist, p', total', prev')
  {
    if OrderTaken(p.stops, stop.order) {
      return true, p, total, prev;
    }
    clash, total' := false, total;
    if p.stops != [] {
      GuardedLengthAppend(dist, StopPosition, p.stops, stop);
    }
    if prev.Some? && prev.value.lat != 0 && prev.value.lon != 0 {
      total' := total + dist(prev.value, stop.attraction.coord);
    }
    p' := p.(stops := p.stops + [stop]);
    prev' := Some(stop.attraction.coord);
  }
}
