# Tourist routes: route generation and attraction import

This project models the core of a tourist-route service for Kazan. It covers three parts.

- **The attraction catalog.** This is the attraction and category records, with their field constraints, defaults and default ordering (rating descending, then name).
- **Route generation.**
  - The greedy algorithmic generator filters the catalog by category and budget, sorts it by rating and picks a seed. It then walks to the nearest remaining attraction while the time and money budgets allow.
  - Two place-name matchers turn a language model's route suggestion into stored stops. The simple one does exact and containment lookups. The richer one does exact lookup, a containment score, a keyword index and creation of unknown places.
  - Place-type detection and the time-of-day distribution for the suggestion request.
  - The hybrid generator uses the suggestion when it can and otherwise falls back to the algorithm. It re-orders the suggested stops by nearest neighbour and saves them one row at a time. When a save clashes on a position, it falls back too.
- **Attraction import.** The scrapers' enrichment (defaults, a placeholder geocoder, the merge of an oracle's reply) and the management command that stores scraped records. The command creates missing ones and optionally updates existing ones.

Modules follow the source's structure:

| module | what it holds |
|---|---|
| `Geo` | coordinates and path lengths |
| `Attractions` | the catalog records |
| `RouteModels` | routes, stops and preferences |
| `Nearest` | Python's `min`/`remove` nearest-neighbour steps |
| `Selector` | the algorithmic generator |
| `Optimizer` | nearest-neighbour re-ordering |
| `NameIndex` | the matchers' lookup tables |
| `SimpleMatcher` | the simple place-name matcher |
| `LlmMatcher` | the richer place-name matcher |
| `Hybrid` | the hybrid generator |
| `PlaceTypes` | place-type detection and slots |
| `Records` | scraped dictionaries and truthiness |
| `Enrichment` | the scrapers' enrichment |
| `UniqueSlugs` | slug uniquification |
| `ScrapeCommand` | the import command |
| `Text` | string primitives |
| `Suggestions` | parsed model replies |
| `Wrappers` | Option and Result |

Modelling conventions:

- **Distances.** The distance function is a parameter `dist`: any non-negative function of two coordinates.
- **Fixed-point values.** Coordinates are integers in millionths of a degree. Ratings are in hundredths. Money is in kopecks.
- **Replies from outside.** The language model's replies, the enrichment oracle's reply and the store's acceptance of a new row are all parameters.
- **Python semantics modelled exactly:**
  - `min(key=...)` picks the first minimal element, and `list.remove` removes the first equal element.
  - Dictionaries keep insertion order.
  - Truthiness applies to strings, numbers and lists.
  - A stable sort stands for `order_by`.

## Model

| member | source | states |
|---|---|---|
| Geo.GuardedLength | routes/generators.py:158-167 | the distance the matchers accumulate never exceeds the full path length |
| Geo.GuardedLengthAllNonzero | backend/routes/generators.py:515-524 | when no stop has a zero coordinate, every leg is counted |
| Geo.GuardedLengthAppend | routes/generators.py:158-167 | one more stop adds its leg exactly when the previous stop's coordinates are non-zero |
| Geo.PathLengthAppend | routes/generators.py:295-304 | one more stop adds exactly the last leg to the summed length |
| Attractions.NewAttraction | backend/attractions/models.py:21-53 | a new row has the declared defaults (visit 60 minutes, price 0, not free, active, rating 0) and fits the name, slug and coordinate field sizes |
| Attractions.Slugs | backend/attractions/models.py:24 | the set of stored slugs is exactly the slugs of the rows |
| Attractions.DefaultOrderTotalPreorder | backend/attractions/models.py:58 | the default ordering (rating descending, then name) is total and transitive |
| Attractions.LexLeTotal | backend/attractions/models.py:58 | the name order compares any two names |
| Attractions.LexLeTransitive | backend/attractions/models.py:58 | the name order is transitive |
| Attractions.InsertByDefault | backend/attractions/models.py:58 | insertion keeps the list in the default ordering and adds exactly one element |
| Attractions.ActiveInDefaultOrder | backend/routes/generators.py:321 | the active rows are listed in the default ordering, each active row exactly as often as in the table and no inactive row |
| RouteModels.NumberedStopsValid | backend/routes/models.py:56-72 | positions 1..n in list order satisfy the minimum-position validator and the (route, order) uniqueness, and are in the default ordering |
| RouteModels.NewStop | backend/routes/models.py:56-66 | a new stop visits for 60 minutes with no note; it is valid exactly when its position is at least 1 |
| RouteModels.DefaultPreference | backend/routes/models.py:95-122 | default preferences: no interests or categories, 60 to 480 minutes, no budget limit, and they satisfy the validators |
| RouteModels.InsertByOrder | backend/routes/models.py:72 | insertion keeps stops sorted by position and adds exactly one stop |
| RouteModels.SortByOrder | backend/routes/models.py:72 | stops read back are sorted by position and are a permutation of the stored ones |
| RouteModels.InsertByOrderLast | backend/routes/models.py:72 | a stop with a position not below any listed one is read back last |
| RouteModels.SortByOrderSorted | backend/routes/models.py:72 | stops already in position order are read back as they are |
| Nearest.FirstNearest | routes/generators.py:255-261 | `min` with a distance key picks a nearest element with every earlier element strictly farther |
| Nearest.FirstNearestUnique | routes/generators.py:255-261 | that choice is unique |
| Nearest.FirstNearestIndex | routes/generators.py:397-402 | the one-pass scan returns that first nearest index |
| Nearest.RemoveFirst | routes/generators.py:280 | `list.remove` drops exactly one occurrence |
| Nearest.RemoveFirstKeeps | routes/generators.py:404 | removing one element keeps every other element |
| Nearest.Tour | routes/generators.py:392-404 | the nearest-neighbour construction is a permutation of the remaining elements |
| Nearest.TourStep | routes/generators.py:395-404 | each step moves to the first nearest remaining element and removes it |
| Nearest.NearestNeighbourWalk | routes/generators.py:392-404 | the loop builds the start followed by the tour |
| Nearest.TourHeadNearest | routes/generators.py:397-403 | the first step goes to an element at least as near as any other |
| Nearest.TourIsNearestNeighbour | routes/generators.py:392-404 | every step goes to an element at least as near as every later one |
| Nearest.NearestNeighbourPathIsFixed | routes/generators.py:392-404 | an existing nearest-neighbour path is reproduced unchanged |
| Nearest.NearestNeighbourPathRelabel | routes/generators.py:386-389 | being a nearest-neighbour path depends only on the positions |
| Nearest.TourIdempotent | routes/generators.py:392-404 | running the construction on its own output reproduces it |
| Selector.ResolvePreferences | routes/generators.py:200-210 | falsy explicit categories, budget and interests are taken from stored preferences; explicit values and the absence of preferences leave the request alone |
| Selector.ResolvePreferencesIdempotent | routes/generators.py:200-210 | resolving twice is resolving once |
| Selector.Filter | routes/generators.py:212-221 | exactly the active rows in the requested categories that are free or affordable under a positive budget |
| Selector.SortByRating | routes/generators.py:224 | the list is rating-descending and a permutation |
| Selector.InsertByRating | routes/generators.py:224 | insertion keeps ratings descending and adds one element |
| Selector.CandidatesSpec | routes/generators.py:212-224 | candidates are best rated first and hold every row passing the filter exactly as often as the catalog does, and no other row |
| Selector.SeedIndex | routes/generators.py:229-240 | the seed is the first nearest to a truthy start point, else the first candidate |
| Selector.SeedBestRated | routes/generators.py:240 | without a start point the seed is rated at least as high as every candidate |
| Selector.Without | routes/generators.py:244 | the remaining list drops exactly the rows with the seed's key |
| Selector.MinutesSingle | routes/generators.py:246 | the seed costs its visit |
| Selector.MinutesAppend | routes/generators.py:264-276 | a step adds two minutes per kilometre of travel plus the visit |
| Selector.NearestOf | routes/generators.py:255-261 | the picked candidate is one of the remaining |
| Selector.NearestOfIsNearest | routes/generators.py:255-261 | the picked candidate is at least as near as every remaining candidate |
| Selector.Select | routes/generators.py:229-282 | the selection is non-empty and starts with the seed |
| Selector.GrowDone | routes/generators.py:253 | with no candidates or no time left the walk takes nothing |
| Selector.GrowTakes | routes/generators.py:272-280 | a fitting nearest candidate is taken and the walk continues from it |
| Selector.GrowStops | routes/generators.py:281-282 | a nearest candidate that does not fit ends the walk, and farther ones are never tried |
| Selector.GrowTook | routes/generators.py:253-282 | a walk that took anything had candidates and time left, and its first step fitted |
| Selector.GreedyCons | routes/generators.py:255-280 | prefixing a greedy walk with the first nearest element of the pool gives a greedy walk |
| Selector.GrowIsGreedy | routes/generators.py:253-282 | the walk only moves to the first nearest remaining candidate: nearest, and strictly nearer than every candidate listed before it |
| Selector.GrowWithinTime | routes/generators.py:272-276 | every accepted step keeps the minutes within the limit |
| Selector.SpentAppend | routes/generators.py:270-277 | appending adds the cost (free is 0) |
| Selector.SpentSingle | routes/generators.py:247 | the seed costs its own price unless it is free |
| Selector.SpentStep | routes/generators.py:270-277 | the running money total tracks the selection |
| Selector.GrowWithinBudget | routes/generators.py:272-277 | with a non-zero budget every accepted step keeps the money within it |
| Selector.UniqueIdsCount | routes/generators.py:244 | with distinct keys an element occurs at most once |
| Selector.SubMultisetUniqueIds | routes/generators.py:244 | distinct keys stay distinct in a sub-multiset |
| Selector.SelectIsSeedAndWalk | routes/generators.py:243-282 | the selection is the seed followed by the walk over the other candidates |
| Selector.SelectIsGreedy | routes/generators.py:253-282 | after the seed, each step goes to the first nearest candidate not yet taken, as `min` picks it |
| Selector.SelectWithinTime | routes/generators.py:248-276 | once anything is added the selection fits in the requested hours; the seed alone is never checked |
| Selector.SelectWithinBudget | routes/generators.py:272-277 | under a non-zero budget, once anything is added, the selection costs at most the budget |
| Selector.SelectFromCandidates | routes/generators.py:243-280 | only candidates are selected |
| Selector.SelectDistinct | routes/generators.py:244-280 | no row is selected twice |
| Selector.StopsFor | routes/generators.py:309-316 | one stop per selected attraction |
| Selector.GenerateRoute | routes/generators.py:189-318 | no candidates is an error; otherwise the stored route is the selection, its money, its summed legs and its numbered stops |
| Selector.WalkStep | routes/generators.py:272-280 | one accepted step keeps the loop's selection and totals in step with the walk |
| Selector.NearestRemaining | routes/generators.py:255-261 | the loop's `min` is the first nearest |
| Selector.ChooseSeed | routes/generators.py:229-240 | the loop's seed is the specified seed |
| Selector.WalkCandidates | routes/generators.py:243-282 | the loop computes exactly the selection and the money spent |
| Selector.Advance | routes/generators.py:253-282 | one pass takes the nearest exactly when it fits; otherwise the walk ends |
| Selector.SumLegs | routes/generators.py:295-304 | the loop sums the legs between consecutive selected attractions |
| Selector.CreateStops | routes/generators.py:309-316 | stops are numbered 1..k in selection order with the attractions' visit durations, and are valid |
| Optimizer.Renumbered | routes/generators.py:406-408 | every stop gets position index+1, nothing else changes |
| Optimizer.NearestNeighbourOrderSpec | routes/generators.py:391-404 | the order keeps the first stop first, is a permutation and is a nearest-neighbour path |
| Optimizer.OptimizeIdempotent | routes/generators.py:378-409 | re-optimising a re-optimised route changes nothing |
| Optimizer.RenumberedKeepsPath | routes/generators.py:406-408 | renumbering keeps a nearest-neighbour order one |
| Optimizer.NearestNeighbourOrderFixed | routes/generators.py:391-404 | a route already in nearest-neighbour order is its own order |
| Optimizer.RenumberedFixed | routes/generators.py:406-408 | renumbering stops already numbered 1..n changes nothing |
| Optimizer.OptimizeRouteOrder | routes/generators.py:378-409 | as written: zero or one stop are left alone; otherwise the nearest-neighbour order is saved row by row, failing on a position clash, and when it succeeds it equals the all-at-once renumbering |
| Optimizer.RenumberAtOnce | routes/generators.py:378-408 | with every position written together: zero or one stop are left alone; otherwise the stops are the nearest-neighbour order numbered 1..n, valid, starting with the first stop |
| Optimizer.NoneEarlierIsIdentity | routes/generators.py:406-409 | a permutation of stops numbered 1..n in which no stop stands after the index its position names is that numbering itself |
| Optimizer.NoClashIsIdentity | routes/generators.py:406-409 | a re-ordering of stops numbered 1..n that saves row by row without a clash leaves every stop in place |
| Optimizer.SavedOnlyWhenUnchanged | routes/generators.py:391-409 | for stops read back with positions 1..n, the row-by-row save succeeds exactly when the nearest-neighbour order is the present order, and then nothing changes |
| Optimizer.WriteOrders | routes/generators.py:407-408 | the position loop gives the renumbered stops |
| Optimizer.SaveOrdersOneByOne | routes/generators.py:406-409 | saving row by row fails exactly when some row still holds a position being written earlier |
| Optimizer.SaveOneByOneClashes | routes/generators.py:406-409 | with positions 1,2,3 and the third stop nearer than the second, the row-by-row save clashes |
| NameIndex.Put | routes/generators.py:119 | dictionary assignment: a new key goes last, an existing key keeps its place and takes the new value |
| NameIndex.NameIndexOf | routes/generators.py:117-119 | the name map is a valid insertion-ordered map |
| NameIndex.LastNamed | routes/generators.py:117-119 | the last active attraction with that lower-cased name, or none |
| NameIndex.NameIndexLookup | backend/routes/generators.py:318-323 | looking a name up finds the last active attraction of that lower-cased name |
| NameIndex.AddWord | backend/routes/generators.py:327-331 | a word longer than three characters appends the attraction to its list, creating it first |
| NameIndex.AddWordsAt | backend/routes/generators.py:326-331 | earlier lists keep their heads; new long words start with this attraction |
| NameIndex.FirstWhere | backend/routes/generators.py:444-449 | the first position satisfying the test is in range |
| NameIndex.FirstWhereSpec | backend/routes/generators.py:444-449 | it is the first such position, and none means none exists |
| NameIndex.FirstWithWord | backend/routes/generators.py:447 | the first attraction whose name contains the word is in range |
| NameIndex.KeywordIndexSpec | backend/routes/generators.py:319-331 | a word is indexed exactly when it is longer than three characters and is one of the whitespace-separated words of an active lower-cased name; its list starts with the first such attraction |
| NameIndex.IndexesStep | backend/routes/generators.py:321-331 | both tables grow by one attraction at a time |
| NameIndex.IndexWords | backend/routes/generators.py:327-331 | the inner loop indexes every word of one name |
| NameIndex.BuildIndexes | backend/routes/generators.py:318-331 | the loop builds both tables |
| NameIndex.BuildNameMap | routes/generators.py:117-119 | the loop builds the name map |
| SimpleMatcher.MatchSpec | routes/generators.py:136-145 | a name matches exactly when some active name is related to it, and only such an attraction; an exact hit is the last of that name |
| SimpleMatcher.MatchFirstRelated | routes/generators.py:136-145 | without an exact hit, a match is the entry of the first key, in first-seen order, related to the suggested name: the last active attraction with that lower-cased name |
| SimpleMatcher.FindAttraction | routes/generators.py:137-145 | the loop finds the specified match |
| SimpleMatcher.SuggestedStopSpec | routes/generators.py:147-156 | a matched name gives a stop at the suggested position (default 1) for the suggested duration (default 60) |
| SimpleMatcher.MatchedStops | routes/generators.py:136-156 | at most one stop per suggestion |
| SimpleMatcher.MatchedStopsAppend | routes/generators.py:136-156 | the stops of a concatenation are the concatenated stops |
| SimpleMatcher.SuggestedRoute | routes/generators.py:121-129 | the route row: suggested or default name and description, zero budget, private |
| SimpleMatcher.MatchedStep | routes/generators.py:136-156 | one more suggestion adds its stop when its name is matched |
| SimpleMatcher.MatchedAround | routes/generators.py:129-156 | the stops matched for a list are those before a matched suggestion, its stop, then those after it |
| SimpleMatcher.ClashPersists | routes/generators.py:151-156 | a position clash among the first stops is a clash among all stops |
| SimpleMatcher.CreateRouteFromReply | routes/generators.py:114-172 | a position clash stores nothing; otherwise the route holds the matched stops and their guarded distance |
| SimpleMatcher.AddSuggestion | routes/generators.py:136-167 | one loop turn keeps the stops, distance and cursor in step, or reports the clash |
| SimpleMatcher.MissingOrdersClash | routes/generators.py:148 | two matched suggestions without positions both get position 1 and clash |
| LlmMatcher.Score | backend/routes/generators.py:426-431 | the score is in [0, 1] and positive only when one name contains the other |
| LlmMatcher.BestKey | backend/routes/generators.py:421-435 | the accepted key is a key position |
| LlmMatcher.BestKeySpec | backend/routes/generators.py:421-435 | nothing is found exactly when no key scores above 0.5; otherwise it is the first key of maximal score |
| LlmMatcher.HalfScoreRejected | backend/routes/generators.py:433 | a score of exactly one half is not accepted |
| LlmMatcher.BestKeyStep | backend/routes/generators.py:424-435 | one more key updates the best exactly on a strictly higher score above 0.5 |
| LlmMatcher.FuzzyScan | backend/routes/generators.py:419-439 | the loop accepts the specified fuzzy match |
| LlmMatcher.KeywordListsNonEmpty | backend/routes/generators.py:329-331 | every indexed word has a non-empty list |
| LlmMatcher.KeywordMatchSpec | backend/routes/generators.py:441-449 | a hit exists exactly when some suggested word longer than three characters is one of the whitespace-separated words of an active lower-cased name; the hit is the first active attraction having the first such word among its words, every earlier word being short or unindexed |
| LlmMatcher.KeywordScan | backend/routes/generators.py:442-449 | the loop finds the specified keyword match |
| LlmMatcher.LookupSpec | backend/routes/generators.py:415-449 | every hit is an active attraction: the last of that name on an exact hit, a related one on a fuzzy hit |
| LlmMatcher.NextId | backend/routes/generators.py:474 | a new id is above every stored id |
| LlmMatcher.Prefix200 | backend/routes/generators.py:478 | the short description is the first 200 characters: the whole text when shorter, exactly 200 characters otherwise |
| LlmMatcher.NewFromSuggestion | backend/routes/generators.py:474-486 | the created row has the suggested fields or their defaults, is free and active, and has non-zero coordinates |
| LlmMatcher.StopFor | backend/routes/generators.py:499-511 | the stop's position defaults to the list index, its duration to the attraction's or 60, and its note is the name exactly when it differs |
| LlmMatcher.AddStop | backend/routes/models.py:71 | adding a stop fails exactly when its position is taken |
| LlmMatcher.AppendKeepsUnique | backend/attractions/models.py:24 | a fresh id and a free slug keep the table unique |
| LlmMatcher.AddStopSound | backend/routes/generators.py:505-511 | adding a stop keeps the run sound |
| LlmMatcher.PlaceSuggestionSound | backend/routes/generators.py:410-511 | one suggestion keeps the run sound |
| LlmMatcher.MaterialiseSound | backend/routes/generators.py:451-497 | creating an attraction keeps the run sound |
| LlmMatcher.SoundTrans | backend/routes/generators.py:410-524 | soundness composes along the list |
| LlmMatcher.PlacedSound | backend/routes/generators.py:410-524 | over the whole list the table only grows by valid unique rows and stops keep distinct positions |
| LlmMatcher.FailurePersists | backend/routes/models.py:71 | a position clash ends the run for good |
| LlmMatcher.PlacedStep | backend/routes/generators.py:410-524 | one more suggestion extends the run by one step |
| LlmMatcher.SuggestionList | backend/routes/generators.py:351-408 | the reply's list, or when it is empty the extracted list if the description is non-empty and the service is configured |
| LlmMatcher.CreateRouteFromReply | backend/routes/generators.py:314-535 | the stored route and table are the run's; a clash stores nothing; the run is sound |
| LlmMatcher.PlaceOne | backend/routes/generators.py:410-524 | one loop turn is the specified step and keeps distance and cursor in step |
| LlmMatcher.CreateAttraction | backend/routes/generators.py:451-497 | the creation branch is the specified step |
| LlmMatcher.FindByName | backend/routes/generators.py:415-449 | exact, then fuzzy, then keyword lookup |
| LlmMatcher.AppendStop | backend/routes/generators.py:499-524 | creating a stop and adding its leg, unless its position is taken |
| Hybrid.ReorderedReplyRoute | routes/generators.py:357-369 | the suggested route survives exactly when its matched positions are distinct and the row-by-row save of the re-ordered stops does not clash |
| Hybrid.ReadBackFirstSmallest | backend/routes/models.py:72 | stops read back start with the smallest position |
| Hybrid.ReadBackOptimized | routes/generators.py:378-409 | read back and re-ordered, more than one stop becomes a renumbered permutation in nearest-neighbour order starting with the smallest position |
| Hybrid.ReorderedReplyRouteSpec | routes/generators.py:357-366 | a surviving route keeps the suggestion-order distance, and its stops are the read-back stops renumbered in nearest-neighbour order, a permutation of the matched stops |
| Hybrid.NumberedReplyKeptOnlyUnchanged | routes/generators.py:357-376 | when the matched stops are numbered 1..n, a route of several stops survives exactly when it already follows a nearest-neighbour path, and then unchanged; otherwise the generator falls back |
| Hybrid.GenerateHybrid | routes/generators.py:328-376 | with the model on and a reply, the suggested route when it is stored and its re-ordered rows save one by one without a clash; otherwise the algorithmic route |
| PlaceTypes.MentionedAt | backend/routes/generators.py:71-73 | at most one position per table entry |
| PlaceTypes.MentionedAtSpec | backend/routes/generators.py:71-73 | exactly the mentioned entries, once each, in table order |
| PlaceTypes.DetectWith | backend/routes/generators.py:49-76 | detection never returns an empty list |
| PlaceTypes.DetectPlaceTypes | backend/routes/generators.py:49-76 | detection with the fixed keyword table never returns an empty list |
| PlaceTypes.DetectWithSpec | backend/routes/generators.py:49-76 | empty text or no mention gives attractions; otherwise the mentioned types in table order |
| PlaceTypes.DetectedExactlyMentioned | backend/routes/generators.py:66-76 | for a text mentioning some type, a type is detected exactly when one of its keywords occurs in the lower-cased text |
| PlaceTypes.ResolvePlaceTypesSpec | backend/routes/generators.py:98-115 | requested types other than attractions alone are kept; otherwise the types detected from the name and description joined by a space when that text is not blank, else attractions alone |
| PlaceTypes.SelectedLabels | backend/routes/generators.py:155-197 | at most one label per slot entry |
| PlaceTypes.SelectedLabelsSpec | backend/routes/generators.py:155-197 | a label is listed exactly when its type is selected, in table order |
| PlaceTypes.Lines | backend/routes/generators.py:155-197 | at most one line per slot |
| PlaceTypes.LinesShape | backend/routes/generators.py:155-197 | each line names a slot with the non-empty labels of its selected types |
| PlaceTypes.LinesListed | backend/routes/generators.py:163-197 | a slot has a line exactly when one of its types is selected |
| PlaceTypes.LinesOrdered | backend/routes/generators.py:155-197 | the lines go forward through the day |
| PlaceTypes.TimeDistribution | backend/routes/generators.py:150-197 | at most four lines |
| PlaceTypes.TimeDistributionSpec | backend/routes/generators.py:150-197 | only a themed route gets lines; a slot appears exactly when one of its types is selected; morning, lunch, afternoon, evening order |
| PlaceTypes.HotelsOnlyNoSlots | backend/routes/generators.py:151-197 | hotels alone make a themed route, but it gets no lines |
| Records.Defaulted | scraper/scraper.py:208-211 | `setdefault` stores the value only when the key is absent |
| Records.Record.SetDefault | scraper/scraper.py:208-211 | the record is the defaulted dictionary |
| Records.Record.Set | backend/scraper/scraper.py:260-277 | item assignment updates exactly one key |
| Enrichment.WithDefaultsKeeps | scraper/scraper.py:207-211 | the defaults add exactly the four missing defaulted keys and keep every present value |
| Enrichment.WithDefaultsFills | scraper/scraper.py:207-211 | an absent rating, visit duration, price and free flag become 0, 60, 0 and true |
| Enrichment.WithDefaultsIdempotent | scraper/scraper.py:207-211 | applying the defaults twice is applying them once |
| Enrichment.Located | scraper/scraper.py:200-205 | geocoding changes at most the coordinates |
| Enrichment.ApplyDefaults | scraper/scraper.py:198-213 | the record becomes the geocoded, defaulted record |
| Enrichment.DefaultsAddNoCoordinates | backend/scraper/scraper.py:289-302 | with the placeholder geocoder no coordinates are added, every field is kept and the four defaults are present |
| Enrichment.FillIfFalsy | backend/scraper/scraper.py:260-264 | a reply field fills only a falsy field |
| Enrichment.OverwriteIfTruthy | backend/scraper/scraper.py:270-277 | a truthy reply field overwrites |
| Enrichment.MergePrice | backend/scraper/scraper.py:266-268 | a non-null reply price sets the price and is_free (true when absent) |
| Enrichment.MergeReply | backend/scraper/scraper.py:259-277 | the merge keeps every key and touches only the mergeable ones |
| Enrichment.MergeFillsDescriptions | backend/scraper/scraper.py:260-264 | truthy descriptions are never overwritten; falsy ones take truthy reply values |
| Enrichment.MergeSetsPrice | backend/scraper/scraper.py:266-268 | price and is_free follow a non-null reply price, otherwise stay |
| Enrichment.MergeOverwritesTruthy | backend/scraper/scraper.py:270-277 | duration, opening hours and highlights each take the reply value when it is truthy and otherwise stay as they were |
| Enrichment.Enriched | backend/scraper/scraper.py:198-287 | without key, name or reply the record is unchanged; otherwise only mergeable keys change |
| Enrichment.EnrichWithPerplexity | backend/scraper/scraper.py:198-287 | the record becomes the enriched record |
| Enrichment.EnrichBackend | backend/scraper/scraper.py:289-307 | the record becomes the defaulted, then enriched record |
| Enrichment.BackendEnrichedShape | backend/scraper/scraper.py:289-307 | the enriched record has the four defaulted fields, its rating and name, and no new coordinates |
| Enrichment.UntouchedKeys | backend/scraper/scraper.py:259-277 | rating, name and coordinates are never merged |
| UniqueSlugs.NumberedInjective | backend/scraper/management/commands/scrape_attractions.py:98 | different counters give different slugs |
| UniqueSlugs.Tried | backend/scraper/management/commands/scrape_attractions.py:96-99 | the tried slugs are base-1..base-k |
| UniqueSlugs.TriedSize | backend/scraper/management/commands/scrape_attractions.py:96-99 | there are k of them |
| UniqueSlugs.TakenBound | backend/scraper/management/commands/scrape_attractions.py:97-99 | the counter never exceeds the number of taken slugs, so the loop ends |
| UniqueSlugs.FreeSuffix | backend/scraper/management/commands/scrape_attractions.py:96-99 | the first free counter has every smaller one taken |
| UniqueSlugs.UniqueSlug | backend/scraper/management/commands/scrape_attractions.py:89-100 | the slug is free: the base if it is free, else the first free numbered slug |
| UniqueSlugs.FirstFreeIsUnique | backend/routes/generators.py:462-468 | a free numbered slug with every smaller one taken is the unique slug |
| UniqueSlugs.CreateSlug | backend/scraper/management/commands/scrape_attractions.py:89-100 | the loop returns the unique slug |
| ScrapeCommand.StoredSlugs | backend/scraper/management/commands/scrape_attractions.py:97 | the slugs of the stored rows |
| ScrapeCommand.GetOrDefault | backend/scraper/management/commands/scrape_attractions.py:57-67 | `get` with a default |
| ScrapeCommand.ShortDescription | backend/scraper/management/commands/scrape_attractions.py:58 | a falsy description gives ""; a string is cut to its first 500 characters; a truthy list is cut to its first 500 items; any other truthy non-string value cannot be sliced |
| ScrapeCommand.DefaultsKeys | backend/scraper/management/commands/scrape_attractions.py:55-68 | a created row holds exactly the twelve fields the command lists |
| ScrapeCommand.DefaultsIdentity | backend/scraper/management/commands/scrape_attractions.py:55-68 | a created row holds the record's name, the given short description and the default category |
| ScrapeCommand.DefaultsTextFromRecord | backend/scraper/management/commands/scrape_attractions.py:55-68 | a record's description and address are stored whenever present, even when falsy |
| ScrapeCommand.DefaultsCoordinatesFromRecord | backend/scraper/management/commands/scrape_attractions.py:55-68 | a record's latitude and longitude are stored whenever present |
| ScrapeCommand.DefaultsVisitFromRecord | backend/scraper/management/commands/scrape_attractions.py:55-68 | a record's rating, visit duration, price, free flag and url (as website) are stored whenever present |
| ScrapeCommand.DefaultsTextFallback | backend/scraper/management/commands/scrape_attractions.py:55-68 | a missing description or address becomes empty |
| ScrapeCommand.DefaultsCoordinatesFallback | backend/scraper/management/commands/scrape_attractions.py:55-68 | missing coordinates become the centre of Kazan (55.8304, 49.0661) |
| ScrapeCommand.DefaultsVisitFallback | backend/scraper/management/commands/scrape_attractions.py:55-68 | a missing rating, visit duration, price, free flag or url becomes 0, 60 minutes, 0, true and empty |
| ScrapeCommand.UpdatedSpec | backend/scraper/management/commands/scrape_attractions.py:76-79 | exactly the truthy model attributes of the record are overwritten, the rest kept; updating twice is updating once |
| ScrapeCommand.UpdatedOnNothing | backend/scraper/management/commands/scrape_attractions.py:76-78 | no keys leave the row unchanged |
| ScrapeCommand.UpdatedOnStep | backend/scraper/management/commands/scrape_attractions.py:76-78 | one more key overwrites it when truthy |
| ScrapeCommand.ApplyUpdate | backend/scraper/management/commands/scrape_attractions.py:76-79 | the `setattr` loop computes the updated row |
| ScrapeCommand.FindSlug | backend/scraper/management/commands/scrape_attractions.py:53-54 | none exactly when no row has the slug; otherwise the index of one that has it |
| ScrapeCommand.SlugFor | backend/scraper/management/commands/scrape_attractions.py:50 | as written the slug is free; looked up by base it is the base |
| ScrapeCommand.ImportRecordSpec | backend/scraper/management/commands/scrape_attractions.py:46-81 | success exactly for importable records; at most one new row; counts; slugs kept; no update without the flag; slugs stay distinct |
| ScrapeCommand.ImportRecordCounts | backend/scraper/management/commands/scrape_attractions.py:46-81 | success exactly for importable records; at most one new row; created and updated counts follow; no update without the flag |
| ScrapeCommand.ImportRecordSlugs | backend/scraper/management/commands/scrape_attractions.py:46-81 | existing rows keep their slugs in place; the base slug is stored; distinct slugs stay distinct |
| ScrapeCommand.GrowsSlugs | backend/scraper/management/commands/scrape_attractions.py:53-69 | a grown store keeps every slug |
| ScrapeCommand.AllImportableSnoc | backend/scraper/management/commands/scrape_attractions.py:46 | every record importable, one at a time |
| ScrapeCommand.ImportedFailurePersists | backend/scraper/management/commands/scrape_attractions.py:45 | one failing record fails the whole import |
| ScrapeCommand.ImportedSpec | backend/scraper/management/commands/scrape_attractions.py:42-81 | success exactly when all records are importable; the store grows by the created count; created plus updated at most the records; no updates without the flag; slugs stay distinct |
| ScrapeCommand.AsWrittenAlwaysCreates | backend/scraper/management/commands/scrape_attractions.py:50-73 | as written, every record creates a row and none is updated |
| ScrapeCommand.AllBasesStoredGrows | backend/scraper/management/commands/scrape_attractions.py:53-69 | stored base slugs stay stored as the store grows |
| ScrapeCommand.AllBasesStoredSnoc | backend/scraper/management/commands/scrape_attractions.py:46 | every base slug stored, one at a time |
| ScrapeCommand.ImportedPrefixStep | backend/scraper/management/commands/scrape_attractions.py:46-81 | one more record is one more import step |
| ScrapeCommand.ByBaseStoresSlugs | backend/scraper/management/commands/scrape_attractions.py:53-69 | looking up by base slug leaves every record's base slug stored |
| ScrapeCommand.RerunCreatesNothing | backend/scraper/management/commands/scrape_attractions.py:53-81 | with every base slug stored, nothing is created and every record is updated under the flag; without it the store is unchanged |
| ScrapeCommand.ReimportCreatesNothing | backend/scraper/management/commands/scrape_attractions.py:53-81 | importing the same records a second time adds no rows |
| ScrapeCommand.StoredNameDuplicated | backend/scraper/management/commands/scrape_attractions.py:50-73 | a stored "kazan-kremlin" and a record of that name: as written a second row "kazan-kremlin-1" is created; by base it is updated |
| ScrapeCommand.StoreRecord | backend/scraper/management/commands/scrape_attractions.py:47-81 | one loop turn computes the specified import step |
| ScrapeCommand.Handle | backend/scraper/management/commands/scrape_attractions.py:28-81 | the command's result is the import of the enriched records |

## Left out

- The great-circle distance formula and floating point: the distance is a parameter, and the running totals are exact reals.
- Decimal rounding of `distance_km` and of the stored decimal fields.
- The language-model calls, the prompts (their text, the attraction list in them, the `theme_instruction` strings) and the parsing of the answers. Replies are parameters, already parsed. A JSON null in a reply is treated as a missing field.
- The route-name theme branch (backend/routes/generators.py:204-216): it only chooses prompt text.
- `slugify`: a library call, kept as a parameter.
- The order of rows that tie under the database ordering: modelled as the table's order (a stable sort).
- Partial writes after a failure:
  - a failed import stores nothing, as its transaction does;
  - a suggested route whose stops clash is modelled as storing nothing. In the source, the route row and the stops created before the clash remain;
  - when a re-ordered row fails to save, the hybrid generator returns the algorithmic route. The model does not keep the suggested route left in the store, with the rows saved before the clash already renumbered.
- The store's rejection of a new attraction row: a parameter `accepts`.
- New ids: modelled as one above every stored id.
- Logging and console output.
- The category lookup (`get_or_create` of the default category, scrape_attractions.py:37-40, and `Category.objects.first()` in the matcher): a parameter.
- Scraped values of other types:
  - a non-string name is rejected, where Django would convert it with `str()`;
  - other values are stored as given, without the decimal fields' conversion on save.
- Model defaults for attraction fields the import command does not list (for example `is_active`): not part of the stored row dictionary.
- ScrapeCommand.UpdatedSpec: the update does not touch `id`, `pk` or `slug`; the scrapers never produce those keys. It does overwrite `category` with whatever value the record holds, where the ORM would raise a ValueError for a value that is not a Category; the scrapers never produce that key either.
- LlmMatcher.Score: the score is an exact rational, not a float.
- Text.Lower: Python's `str.lower()` is modelled for the capitals of Basic Latin, Latin-1, Greek (with its accented capitals), Cyrillic and the Cyrillic Supplement (including the Tatar Ә, Ө, Ү, Җ, Ң and Һ). Capital sigma always becomes the medial σ; Python gives ς at the end of a word. Capitals of other scripts are kept as they are. These include Latin Extended (for example `'İ'`, which Python lowers to two characters), Armenian and Georgian. For names with such capitals, the name-map keys, the exact, fuzzy and keyword lookups and place-type detection differ from the source's.
- The HTML scrapers (`scrape_tripadvisor`, `scrape_visitkazan`, `scrape_all`): network and browser I/O. Their output is the input list.

Where the system's written description and the code differ, the model follows the code:

- The hybrid generator does not recompute `distance_km` after re-ordering.
- Coordinates are constrained only by their digit counts.
- An empty suggested name in the simple matcher: an active attraction whose name is empty is an exact hit (the last such one wins); otherwise the empty name is contained in every key, so the first key of the name map wins, and its value is the LAST active attraction sharing the first active attraction's lower-cased name; nothing matches when no attraction is active.
- The minimum-position validator is not enforced by `create()`; only the uniqueness constraint is.
- An explicitly requested empty list of place types is kept as it is.

## Findings

| source | as written | input that shows it | evidently intended | confidence | as-written member | corrected member |
|---|---|---|---|---|---|---|
| routes/generators.py:406-409 | each re-ordered stop is saved with its new position while later stops still hold their old ones, so the (route, order) constraint fails mid-way and the hybrid generator falls back | stops at positions 1, 2, 3 whose third stop is nearer to the first than the second | all positions rewritten together | not executed | Optimizer.SaveOneByOneClashes | Optimizer.RenumberAtOnce |
| backend/scraper/management/commands/scrape_attractions.py:50-53 | the slug is made unique before `get_or_create(slug=...)`, so the lookup never finds a stored row: every record creates a new row and `--update-existing` never applies | a stored row "kazan-kremlin" and a scraped record whose name slugifies to "kazan-kremlin" | look the row up by the base slug | not executed | ScrapeCommand.StoredNameDuplicated | ScrapeCommand.RerunCreatesNothing |
