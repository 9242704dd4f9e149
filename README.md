# Transit view data model and feed configuration

This project models the transit layer of the Kurogo mobile web framework in
Dafny.

- **Feeds file.** Each section of the feeds file describes one feed. A feed
  has a system name, up to two providers ("parsers" or "models") and per-feed
  settings. A provider is either a *live* provider (real-time data) or a
  *static* provider (schedule data).
- **Two parsers.** `TransitConfig` turns the sections into a nested
  configuration. It exists twice:
  - the stand-alone class in `lib/Transit/TransitConfig.php`;
  - a copy embedded in `lib/Transit/TransitViewDataModel.php`.

  The two copies accept slightly different flat keys. Both are modelled over
  one shared specification (`ConfigSpec`, parameterised by a `Variant`).
- **The view.** `TransitViewDataModel` is the view the rest of the site
  queries. It:
  - builds one *binding* per feed, holding the feed's system and providers;
  - refreshes the live providers on demand;
  - answers every query by combining the live and the static provider of the
    feed that serves the route or stop.

  IDs the view hands out are *global IDs*: system name, separator, local ID.
  Query results are cached per query key.

The model keeps the source's structure:

- **Stateful classes** are Dafny classes whose methods are proved against
  specification functions:
  - the configuration objects (`TransitConfigFile.TransitConfig`,
    `ViewConfig.TransitConfig`);
  - the view (`TransitView.TransitViewDataModel`, with its bindings and its
    cache).
- **Merge rules** are pure functions with lemmas:
  - times at a stop (`StopMerge`);
  - routes at a stop (`StopMerge`);
  - the stops of a route (`RouteMerge`);
  - the route list (`RoutesMerge`).
- **Global IDs** are `GlobalIds` and `Remap`.
- **PHP's associative arrays** are `Dicts.Dict`: a map plus its
  insertion-ordered key list.
- **Loops of the source** are methods with loop invariants:
  - the feed loop of `getStopInfo`;
  - the stop walk of `getRouteInfo`;
  - the refresh loop of `getRoutes`;
  - the settings loop of the parsers.

Each of these methods is proved equal to the function that specifies it.

The queries model the source as written, including the three query defects
listed under "## Findings"; the fourth row there is the configuration's
route-whitelist getters. Each query defect also has a corrected definition beside it
(`MergeStopTimes`, `CollectStopInfo`, `ReconcileStops`), with the intended
property proved about it and a lemma saying where the two agree.

## Model

| member | source | states |
|---|---|---|
| GlobalIds.GlobalID | lib/Transit/TransitViewDataModel.php:562-564 | The global ID is exactly the system name, then the separator, then the local ID. |
| GlobalIds.RealID | lib/Transit/TransitViewDataModel.php:566-573 | Succeeds exactly when the separator is non-empty and splits the ID into two pieces. On success the pieces joined by the separator give back the ID and neither contains the separator. On failure the error names the ID. |
| GlobalIds.RoundTrip | lib/Transit/TransitViewDataModel.php:562-573 | Splitting a global ID gives back (system, local ID) whenever the separator occurs in it only at the join. |
| GlobalIds.RoundTripWithoutSeparatorChars | lib/Transit/TransitViewDataModel.php:562-573 | Sufficient condition for the round trip: no separator character appears in the system name or the local ID. |
| GlobalIds.SeparatorStraddlesJoin | lib/Transit/TransitViewDataModel.php:562-573 | Separator-free parts are not enough. System `a_` and ID `b` with `__` split back as `a` and `_b`. |
| Strings.IndexOf | lib/Transit/TransitViewDataModel.php:567 | The leftmost occurrence of the separator at or after the start position, or none when there is no occurrence. |
| Strings.JoinExplode | lib/Transit/TransitViewDataModel.php:567 | Joining the pieces of an explode with the separator gives back the string. |
| Strings.ExplodePartsFree | lib/Transit/TransitViewDataModel.php:567 | No piece of an explode contains the separator. |
| Strings.ExplodeNoSeparator | lib/Transit/TransitViewDataModel.php:567 | A string without the separator explodes to itself alone. |
| Strings.SplitAtOnlyOccurrence | lib/Transit/TransitViewDataModel.php:567 | `left + sep + right` explodes to exactly `[left, right]` when the separator occurs only at the join. |
| Strings.ExplodeFree | lib/Transit/TransitConfig.php:37 | A key without the one-character separator is a single piece. |
| Strings.ExplodeHead | lib/Transit/TransitConfig.php:37 | Exploding on `_` splits off a head that has no `_`, then explodes the rest. |
| Strings.BeforeUnderscore | lib/Transit/TransitViewDataModel.php:295-296 | The first piece of the ID split on `_`. It is a prefix of the ID, has no underscore, and is the ID itself when the ID has none. |
| Predictions.Unique | lib/Transit/TransitViewDataModel.php:129 | `array_unique`: duplicate-free, with exactly the elements of the input. |
| Predictions.Sort | lib/Transit/TransitViewDataModel.php:130 | `sort`: non-decreasing and a permutation of the input. |
| Predictions.MergePredictions | lib/Transit/TransitViewDataModel.php:127-130 | The merged predictions are strictly ascending and hold exactly the timestamps of either list. |
| Predictions.AscendingUnique | lib/Transit/TransitViewDataModel.php:127-130 | Two strictly ascending lists with the same elements are equal, so the merge result is determined by its element set. |
| Predictions.MergeSelf | lib/Transit/TransitViewDataModel.php:127-130 | Merging a list with itself is `sort(array_unique(list))`. |
| Predictions.MergeAscendingSelf | lib/Transit/TransitViewDataModel.php:127-130 | An already ascending list is a fixed point of merging with itself. |
| Predictions.MergeCommutes | lib/Transit/TransitViewDataModel.php:196-203 | The merge does not depend on which list comes first. |
| Registry.ModelForRoute | lib/Transit/TransitViewDataModel.php:534-546 | Returns the first binding, in configuration order, of the requested system that has the route. When none has it, returns a provider-less binding of that system. |
| Registry.ModelForRouteClaims | lib/Transit/TransitViewDataModel.php:534-546 | The binding returned has the route exactly when some binding does. Otherwise it has no provider. |
| Registry.ModelsForStop | lib/Transit/TransitViewDataModel.php:548-560 | Lists exactly the bindings that serve the stop, in configuration order, and never more bindings than there are. |
| Registry.ModelsForStopFirst | lib/Transit/TransitViewDataModel.php:548-560 | The first binding listed is the first one in configuration order that serves the stop. |
| Registry.ModelsForStopAppend | lib/Transit/TransitViewDataModel.php:548-560 | The filter keeps order and multiplicity: the bindings of a concatenation are those of each part in turn, and a single binding is kept exactly when it serves the stop. |
| Dicts.Get | lib/Transit/TransitViewDataModel.php:162 | `isset($a[$k]) ? $a[$k] : null`: present exactly for a stored key, with its value. |
| Dicts.Put | lib/Transit/TransitViewDataModel.php:170 | `$a[$k] = $v`: the value is stored. An existing key keeps its place and a new key goes last. |
| Dicts.Unset | lib/Transit/TransitViewDataModel.php:163 | `unset($a[$k])`: the key is gone and every other entry is unchanged. |
| Dicts.KeepKeys | lib/Transit/TransitViewDataModel.php:161-165 | Keeps exactly the entries whose key is in the set, in their order and with their values. |
| Dicts.AddMissing | lib/Transit/TransitViewDataModel.php:461 | `$a += $b`: keys of `a` keep their values; keys only in `b` follow in `b`'s order with `b`'s values. |
| Dicts.AddMissingEmpty | lib/Transit/TransitViewDataModel.php:461 | Adding an empty array changes nothing. |
| Dicts.AddMissingToEmpty | lib/Transit/TransitViewDataModel.php:461 | Adding to an empty array copies the right operand. |
| Dicts.AddEachEffect | lib/Transit/TransitViewDataModel.php:454-458 | The "copy if not set" loop appends the new keys in order with their values and leaves the existing entries alone. |
| Dicts.AddEachIsAddMissing | lib/Transit/TransitViewDataModel.php:454-458 | That loop run over the whole right operand is `+=`. |
| Dicts.Rekey | lib/Transit/TransitViewDataModel.php:508-516 | Every key gets the prefix, in the same order, each value passed through `f`. Every new key is the prefix plus an old key. |
| Remap.RemapKeys | lib/Transit/TransitViewDataModel.php:508-516 | The rekeying loop of the remap functions builds exactly `Rekey`. |
| Remap.RekeyDetermined | lib/Transit/TransitViewDataModel.php:508-516 | An array with the prefixed keys in order and the mapped values is the rekeyed array. |
| Remap.RekeyRoundTrip | lib/Transit/TransitViewDataModel.php:508-516 | Every key of a remapped array splits back, through `getRealID`, into the system and a key of the original, holding that key's mapped value. |
| Remap.RekeyGlobalID | lib/Transit/TransitViewDataModel.php:508-516 | Every original key reappears under its global ID with its mapped value. |
| Remap.GlobalStopInfo | lib/Transit/TransitViewDataModel.php:472-480 | `remapStopInfo`: the name is unchanged and `routes` is set exactly when it was. Every route is found under its global ID with its entry, and the route count is kept. |
| Remap.GlobalVehicle | lib/Transit/TransitViewDataModel.php:522-527 | A vehicle's route ID and next stop, when set, become their global IDs and stay unset otherwise. Separable IDs split back to (system, original ID). |
| Remap.GlobalRefs | lib/Transit/TransitViewDataModel.php:495-503 | Same length; every stop reference carries the global ID of the original. |
| Remap.GlobalDirections | lib/Transit/TransitViewDataModel.php:491-505 | The schedule-mode directions keep their shape (the same number of directions, segments and stops per segment), and every stop reference, in a segment or in the direction's stop list, carries the global ID of the original. |
| Remap.GlobalRouteInfo | lib/Transit/TransitViewDataModel.php:482-506 | `remapRouteInfo` changes nothing but the stops and the directions. Every stop is found under its global ID with its entry, and the stop count is kept. The directions are the remapped directions, and stay unset when they were unset. |
| Remap.RouteStopsRoundTrip | lib/Transit/TransitViewDataModel.php:484-489 | With separable IDs, every stop key of the remapped route splits back into the system and a stop of the provider's answer, with that stop's entry. |
| Remap.RemapRefs | lib/Transit/TransitViewDataModel.php:495-498 | The in-place reference loop computes `GlobalRefs`. |
| Remap.RemapDirections | lib/Transit/TransitViewDataModel.php:493-504 | The direction loop computes `GlobalDirections`. |
| Remap.DirectionsRoundTrip | lib/Transit/TransitViewDataModel.php:491-505 | Every remapped stop reference inside a segment splits back into the system and its original ID. |
| StopMerge.EarlierArrival | lib/Transit/TransitViewDataModel.php:120-122 | The arrival is one of the two inputs, set when either is, and no later than any set input. |
| StopMerge.FillPredictions | lib/Transit/TransitViewDataModel.php:123-131 | Predictions come only from the two answers. The static predictions are taken over when the chosen answer has none, and merged (ascending, union) when both are non-empty. |
| StopMerge.MergeStopTimesAsWritten | lib/Transit/TransitViewDataModel.php:115-131 | `getStopInfoForRoute` merge as written. Every key of the answer is unset exactly when the static answer is empty and the live answer is empty or holds only a non-zero arrival. It has an arrival exactly when the static answer has one or the live arrival is 0. That arrival is one of the two and no later than either. The predictions are set exactly when either side's are, and are the ascending union when both are set and the static list is not empty. |
| StopMerge.MergeStopTimes | lib/Transit/TransitViewDataModel.php:115-131 | Corrected `getStopInfoForRoute` merge: empty only when both answers are empty; the arrival is the earlier of the set ones; the predictions are the ascending union. |
| StopMerge.MergeStopTimesDiffer | lib/Transit/TransitViewDataModel.php:120-122 | The merge as written differs from the corrected one exactly when the chosen answer has a non-zero arrival and the static answer has none. |
| StopMerge.LiveArrivalDropped | lib/Transit/TransitViewDataModel.php:120-122 | As written, a live arrival of 100 with no static answer is lost; the corrected merge keeps it. |
| StopMerge.StaticOnlyStopTimes | lib/Transit/TransitViewDataModel.php:115-131 | Without a live answer, the static answer is returned with its predictions sorted and de-duplicated. |
| StopMerge.MergeEachEffect | lib/Transit/TransitViewDataModel.php:167-177 | The per-key merge loop keeps old routes in place and appends new ones in source order. Each listed route holds its merged entry; other routes are untouched. |
| StopMerge.OverlaidRoute | lib/Transit/TransitViewDataModel.php:167-177 | A route with live predictions keeps the live times and takes the static name when that name is usable. Any other route is the static entry. |
| StopMerge.FeedStopInfo | lib/Transit/TransitViewDataModel.php:157-183 | A feed answers with the static answer when the live one is empty, and with the live answer when there is no static route data. With static route data, the stop's name is the static name when that is usable, else the live name. |
| StopMerge.FeedStopInfoRoutes | lib/Transit/TransitViewDataModel.php:159-177 | With static route data, the feed lists exactly the static routes: confirmed live routes first in live order, then the rest in static order, each the overlay of the two. |
| StopMerge.FeedStopInfoStaticRoutes | lib/Transit/TransitViewDataModel.php:159-177 | Without live routes, the static routes come over unchanged. |
| StopMerge.AppendPredictions | lib/Transit/TransitViewDataModel.php:196-203 | Set exactly when the earlier list is set; then ascending, with the union of both lists. |
| StopMerge.AccumulatedRoute | lib/Transit/TransitViewDataModel.php:189-205 | A route seen again keeps its name and arrival. Its predictions are cleared when the new entry has none, unchanged when the new list is empty, and merged otherwise. |
| StopMerge.Accumulate | lib/Transit/TransitViewDataModel.php:185-207 | The first non-empty answer is taken whole. Later ones keep the first name, and an empty answer changes nothing. |
| StopMerge.AccumulateRouteIds | lib/Transit/TransitViewDataModel.php:185-207 | Accumulating gives exactly the routes of both answers. |
| StopMerge.CollectedAreReported | lib/Transit/TransitViewDataModel.php:146-208 | The collected routes are exactly the routes reported by the feeds. |
| StopMerge.CollectStopInfoRoutes | lib/Transit/TransitViewDataModel.php:146-208 | Corrected feed loop: a route serves the stop exactly when some feed, checked against its own static data, reports it. |
| StopMerge.FeedRoutesWithin | lib/Transit/TransitViewDataModel.php:157-183 | A feed's answer lists no route that neither of its providers lists. |
| StopMerge.ProviderRoutesSome | lib/Transit/TransitViewDataModel.php:146-156 | A route is among the providers' routes exactly when some feed's live or static answer lists it. |
| StopMerge.CollectAsWrittenWithin | lib/Transit/TransitViewDataModel.php:146-208 | Even with the static answer leaking between feeds, the loop as written lists no route that no provider lists, and neither does the static answer left in scope. |
| StopMerge.CollectAgreesWithStaticProviders | lib/Transit/TransitViewDataModel.php:146-208 | When every feed has a static provider, the loop as written and the corrected loop agree. |
| StopMerge.OwnDataKeepsLiveRoute | lib/Transit/TransitViewDataModel.php:146-208 | A static-only feed (r1) followed by a live-only feed (r2): the corrected loop lists both routes. |
| StopMerge.LeakCutsLiveRoute | lib/Transit/TransitViewDataModel.php:153-165 | In the same example, the loop as written lists only r1. |
| StopMerge.LeakedAnswer | lib/Transit/TransitViewDataModel.php:153-165 | The live-only feed checked against the previous feed's static data keeps only r1. |
| StopMerge.StaticInfoLeaks | lib/Transit/TransitViewDataModel.php:153-165 | Both halves side by side: the example gives {r1} as written and {r1, r2} as intended. |
| StopMerge.KeepStaticRoutes | lib/Transit/TransitViewDataModel.php:161-165 | The unset loop keeps exactly the live routes the static data lists, in order. |
| StopMerge.OverlayStaticRoutes | lib/Transit/TransitViewDataModel.php:167-177 | The overlay loop is the per-key merge of the static routes with `OverlaidRoute`. |
| StopMerge.OverlayWrites | lib/Transit/TransitViewDataModel.php:168-176 | The one or two writes of one overlay step store the overlaid entry. |
| StopMerge.AddRoutes | lib/Transit/TransitViewDataModel.php:189-205 | The add-routes loop is the per-key merge with `AccumulatedRoute`. |
| RouteMerge.StaticStopID | lib/Transit/TransitViewDataModel.php:291-300 | The static stop of a live stop is its own ID when the static stops have it, else the part before the first `_`. It is none exactly when neither exists or there are no static stops. |
| RouteMerge.SuffixedStopID | lib/Transit/TransitViewDataModel.php:294-299 | A suffixed live ID such as `1234_ar` finds the static stop `1234`. |
| RouteMerge.Annotate | lib/Transit/TransitViewDataModel.php:302-313 | An annotated stop has the static name. It takes the static timing only when it has none and the static stop has some; otherwise it keeps its own. |
| RouteMerge.StaticMatches | lib/Transit/TransitViewDataModel.php:290-316 | Holds exactly the live stops that have a static stop, and annotating through it is the same as annotating directly. |
| RouteMerge.FirstMatchIsFirst | lib/Transit/TransitViewDataModel.php:318-323 | No live stop before the position found is the static first stop, and the stop at that position is. |
| RouteMerge.Kept | lib/Transit/TransitViewDataModel.php:318-323 | The stops left on the route are those from the first match on, in order. |
| RouteMerge.Waiting | lib/Transit/TransitViewDataModel.php:318-323 | The stops moved to the end are those before the first match, in order. |
| RouteMerge.WalkStep | lib/Transit/TransitViewDataModel.php:290-323 | One turn of the walk keeps the walk invariant: keys in order, and values annotated or moved. |
| RouteMerge.WalkStops | lib/Transit/TransitViewDataModel.php:287-324 | The walk ends with exactly `Kept` on the route and `Waiting` queued, where the split is at the first stop equal to the static first stop. |
| RouteMerge.KeptDone | lib/Transit/TransitViewDataModel.php:287-324 | At the end of the walk the stops on the route are `Kept`. |
| RouteMerge.WaitingDone | lib/Transit/TransitViewDataModel.php:287-324 | At the end of the walk the queued stops are `Waiting`. |
| RouteMerge.RotatedStops | lib/Transit/TransitViewDataModel.php:318-325 | After `$stops += $moveToEnd`, the live stops are rotated to start at the first match. Stops from it on are annotated; the earlier ones are as `Moved` says. |
| RouteMerge.InsertKey | lib/Transit/TransitViewDataModel.php:327 | One insertion step of the sort adds the key to the multiset of keys. |
| RouteMerge.SortKeys | lib/Transit/TransitViewDataModel.php:327 | Sorting the keys is a permutation. |
| RouteMerge.UaSort | lib/Transit/TransitViewDataModel.php:327 | `uasort` keeps every key with its value and permutes only the order. |
| RouteMerge.InsertKeySorted | lib/Transit/TransitViewDataModel.php:327 | Insertion keeps the keys in comparator order. |
| RouteMerge.SortKeysSorted | lib/Transit/TransitViewDataModel.php:327 | With a consistent comparator the sorted keys are in comparator order. |
| RouteMerge.UaSortSorted | lib/Transit/TransitViewDataModel.php:327 | With a consistent comparator, `uasort` leaves neighbouring stops in comparator order. |
| RouteMerge.ReconciledStops | lib/Transit/TransitViewDataModel.php:281-328 | Corrected walk: the merged route has exactly the live stops (same multiset of keys), each annotated from its static stop. |
| RouteMerge.ReconciledStopsAsWritten | lib/Transit/TransitViewDataModel.php:281-328 | Walk as written: the merged route has exactly the live stops (same multiset of keys). The stops from the static first stop on are annotated from their static stops; those before it are the live stops unchanged. |
| RouteMerge.MovedStops | lib/Transit/TransitViewDataModel.php:321 | A stop before the static first stop ends up as the un-annotated live stop as written, and annotated in the corrected walk. |
| RouteMerge.MovedStopKeepsLiveName | lib/Transit/TransitViewDataModel.php:321 | Live s2, s1 against static s1, s2: as written, the moved stop s2 keeps its live name. |
| RouteMerge.MovedStopTakesStaticName | lib/Transit/TransitViewDataModel.php:303-321 | In the same example the corrected walk gives s2 its static name. |
| RouteMerge.ExampleMovesFirstStop | lib/Transit/TransitViewDataModel.php:287-323 | In the example, s2 is the only stop before the static first stop. |
| RouteMerge.FirstPrev | lib/Transit/TransitViewDataModel.php:339-342 | The stop before the first, when there is one, is a stop of the route. |
| RouteMerge.Marked | lib/Transit/TransitViewDataModel.php:345-358 | Marking sets the `upcoming` flag and changes nothing else. A stop whose flag is already set is untouched. |
| RouteMerge.MarkFirstAt | lib/Transit/TransitViewDataModel.php:344-359 | After marking the first n stops every stop is still present, and a stop is marked exactly when it is among the first n. |
| RouteMerge.MarkFirstEffect | lib/Transit/TransitViewDataModel.php:344-359 | The first n stops are marked and the rest are unchanged. |
| RouteMerge.WithUpcoming | lib/Transit/TransitViewDataModel.php:344-359 | Same keys in the same order. Every stop has its flag set and otherwise unchanged; already flagged stops are untouched. |
| RouteMerge.WithUpcomingIdempotent | lib/Transit/TransitViewDataModel.php:345 | Marking twice is marking once. |
| RouteMerge.LoopRoutePrev | lib/Transit/TransitViewDataModel.php:339-352 | On a loop route, the first stop is compared with the stop before the final return to it. |
| RouteMerge.OverlayRouteFields | lib/Transit/TransitViewDataModel.php:270-280 | A non-empty static name or description, or a non-zero static frequency, wins. Every other field is the live one. |
| RouteMerge.CombineRouteInfo | lib/Transit/TransitViewDataModel.php:256-330 | The static answer when the live one is empty; otherwise the live answer marked live, left as it was when the static answer is empty. With both answers, every field but the stops is the live answer with the static name, description and frequency laid over it. When the live answer has no stops, the static stops are taken. |
| RouteMerge.MergeRouteInfo | lib/Transit/TransitViewDataModel.php:256-362 | Empty only when both answers are; otherwise stamped with the current time and with every stop flagged. |
| RouteMerge.MergedRouteStops | lib/Transit/TransitViewDataModel.php:281-328 | With both answers and live stops, the merged route has exactly the live stops. Apart from its flag, each stop is annotated from the static stops. As written (`keepAnnotation` false), the stops before the static first stop are the exception and stay as the live stops were. |
| RouteMerge.MergedStopKeys | lib/Transit/TransitViewDataModel.php:281-328 | The merged route has as many stops as the live answer and a stop for each live stop. |
| RouteMerge.MarkUpcoming | lib/Transit/TransitViewDataModel.php:336-359 | The marking loop computes `WithUpcoming`. |
| RoutesMerge.RefreshedRoute | lib/Transit/TransitViewDataModel.php:439-450 | A route that is not running is replaced by its static entry. A running one keeps running, takes the static name and description, and takes the static frequency unless that is 0 or unset. |
| RoutesMerge.Refreshed | lib/Transit/TransitViewDataModel.php:438-452 | Same keys in live order; each route the static list has is refreshed, the others are unchanged. |
| RoutesMerge.CombinedRoutes | lib/Transit/TransitViewDataModel.php:433-459 | A feed lists exactly the routes of its two lists. Live-only routes keep the live entry, static-only ones the static entry, and shared ones are refreshed. |
| RoutesMerge.CombinedRouteOrder | lib/Transit/TransitViewDataModel.php:438-458 | With live routes, the live routes come first in their order, then the static-only routes in theirs. |
| RoutesMerge.StoppedRouteIsStatic | lib/Transit/TransitViewDataModel.php:440-441 | A route that the live list shows as not running reads exactly as the static list has it. |
| RoutesMerge.FeedRoutes | lib/Transit/TransitViewDataModel.php:427-459 | Without a static provider the live list (or nothing) is used; otherwise the combined lists. |
| RoutesMerge.RoutesUpToNext | lib/Transit/TransitViewDataModel.php:461 | Each feed's routes are added to the earlier ones with `+=`. |
| RoutesMerge.AllRoutesFirstFeedWins | lib/Transit/TransitViewDataModel.php:426-462 | The view lists a route exactly when some feed does, with the entry of the first feed that lists it. |
| RoutesMerge.RouteListedByAFeed | lib/Transit/TransitViewDataModel.php:426-462 | Every listed route comes from one of the feeds seen so far. |
| RoutesMerge.RouteKept | lib/Transit/TransitViewDataModel.php:426-462 | A route listed by a feed seen so far stays listed. |
| RoutesMerge.RouteFromFirstFeed | lib/Transit/TransitViewDataModel.php:426-462 | A listed route has the entry of the first feed that lists it. |
| RoutesMerge.RouteUnlisted | lib/Transit/TransitViewDataModel.php:426-462 | A route no feed seen so far lists is not listed. |
| RoutesMerge.RefreshRoutes | lib/Transit/TransitViewDataModel.php:438-452 | The refresh loop computes `Refreshed`. |
| RoutesMerge.PullInStaticRoutes | lib/Transit/TransitViewDataModel.php:454-458 | The pull-in loop computes `$routes += $staticRoutes`. |
| RoutesMerge.CombineFeedRoutes | lib/Transit/TransitViewDataModel.php:434-459 | One feed's loops compute `CombineRoutes`. |
| TransitView.CachedViewFor | lib/Transit/TransitViewDataModel.php:74-77 | A cached view is returned exactly when one is stored under the key and is not empty. |
| TransitView.CachedViewAfterStore | lib/Transit/TransitViewDataModel.php:74-81 | A stored view is read back unless it is empty. |
| TransitView.CacheRead | lib/Transit/TransitViewDataModel.php:252 | A query with an explicit (non-zero) time reads nothing from the cache. |
| TransitView.CacheLifetime | lib/Transit/TransitViewDataModel.php:65-71 | The configured lifetime; for a daemon it is lowered by 300 seconds but never below 0. |
| TransitView.CacheKeysDisjoint | lib/Transit/TransitViewDataModel.php:100 | The cache keys of different queries never collide. |
| TransitView.WithLiveProviders | lib/Transit/TransitViewDataModel.php:83-96 | Replacing live providers keeps the feeds and their order and changes only the live provider of the feeds given. |
| TransitView.LiveFeedsAre | lib/Transit/TransitViewDataModel.php:83-96 | A feed gets a new live provider exactly when it is configured with a live parser. |
| TransitView.RefreshFinished | lib/Transit/TransitViewDataModel.php:83-96 | After the refresh loop the bindings are still built from their feeds. Each feed with a live parser has its new provider; everything else is unchanged. |
| TransitView.NewProvider | lib/Transit/TransitViewDataModel.php:37-53 | A new provider built from the parser's class, arguments, overrides and the daemon flag. |
| TransitView.BuildBinding | lib/Transit/TransitViewDataModel.php:31-55 | A feed's binding has its system and a new provider for each parser the feed configures. |
| TransitView.BuildBindings | lib/Transit/TransitViewDataModel.php:30-56 | One binding per configured feed, in configuration order, each built from its feed. |
| TransitView.RefreshBindings | lib/Transit/TransitViewDataModel.php:84-95 | The refresh loop gives each feed with a live parser a new live provider and leaves every other part of the bindings unchanged. |
| TransitView.RouteInfoOf | lib/Transit/TransitViewDataModel.php:253-363 | The body of `getRouteInfo` computes `RouteInfoFor`, with the stop walk as written. |
| TransitView.CollectRoutes | lib/Transit/TransitViewDataModel.php:426-462 | The bindings loop of `getRoutes` computes `RoutesFor`. |
| TransitView.BindingRoutesOf | lib/Transit/TransitViewDataModel.php:427-460 | One binding's loops compute its global route list. |
| TransitView.CollectFeedAnswers | lib/Transit/TransitViewDataModel.php:146-208 | The feeds loop of `getStopInfo` computes `CollectStopInfoAsWritten`, with the static answer carried from one iteration to the next. |
| TransitView.FeedAnswer | lib/Transit/TransitViewDataModel.php:147-183 | The static answer in scope after one binding is that binding's static answer, or the one left from earlier feeds when the binding has no static provider. The binding's answer is its live answer checked against that static answer. |
| TransitView.AddFeedAnswer | lib/Transit/TransitViewDataModel.php:185-207 | Adding one binding's answer is `Accumulate`. |
| TransitView.TransitViewDataModel.constructor | lib/Transit/TransitViewDataModel.php:19-72 | `init`: parses the feeds with the embedded parser, builds one binding per feed, and sets the daemon flag (default false), the separator, an empty cache and the cache lifetime. |
| TransitView.TransitViewDataModel.RefreshLiveServices | lib/Transit/TransitViewDataModel.php:83-96 | Every feed with a live parser gets a new live provider. Feeds, systems, static providers and the cache are unchanged. |
| TransitView.TransitViewDataModel.GetStopInfoForRoute | lib/Transit/TransitViewDataModel.php:98-137 | A cache hit is returned unchanged. Otherwise the answer of `StopTimesFor` (or the ID error) is returned, and a successful answer is cached. |
| TransitView.TransitViewDataModel.GetStopInfo | lib/Transit/TransitViewDataModel.php:139-214 | The same cache policy around `StopInfoFor`. |
| TransitView.TransitViewDataModel.GetRouteInfo | lib/Transit/TransitViewDataModel.php:248-371 | The same cache policy around `RouteInfoFor`, but a query with an explicit time neither reads nor writes the cache. |
| TransitView.TransitViewDataModel.GetRoutes | lib/Transit/TransitViewDataModel.php:421-469 | The same cache policy around `RoutesFor`, keyed `allRoutes`. |
| TransitTypes.TransitProvider.constructor | lib/Transit/TransitViewDataModel.php:43 | A provider records the class, arguments, overrides and daemon flag it was built from. |
| ViewQueries.StopTimesFor | lib/Transit/TransitViewDataModel.php:102-133 | Fails exactly when one of the IDs does not split, naming the route ID first. Otherwise, as written: every key of the answer is unset exactly when the static answer is empty and the live one is empty or holds only a non-zero arrival. Its arrival is one of the providers' and no later than either. It has predictions exactly when either provider does. |
| ViewQueries.StopTimesForIntended | lib/Transit/TransitViewDataModel.php:115-131 | The answer equals the corrected merge of the two providers' answers except exactly when a live answer with a non-zero arrival meets a static answer without one. |
| ViewQueries.StopTimesIgnoreRouteSystem | lib/Transit/TransitViewDataModel.php:103-105 | The system part of the route ID plays no part in the answer. |
| ViewQueries.StopInfoFor | lib/Transit/TransitViewDataModel.php:139-214 | Fails exactly when the stop ID does not split, with an error naming it. Otherwise the feeds loop as written gives the name, and the routes are set exactly when the loop's answer has them. |
| ViewQueries.StopInfoRoutes | lib/Transit/TransitViewDataModel.php:144-209 | Every route of the answer is the global ID of a route that some provider of a serving binding lists. When every serving binding has a static provider, the answer is the corrected loop's, and every route a serving binding reports appears under its global ID. The route count is that of the loop's answer. |
| ViewQueries.ReportedGlobalRoutes | lib/Transit/TransitViewDataModel.php:146-209 | In the corrected loop's answer, remapped, every route reported by a feed appears under its global ID. |
| ViewQueries.GlobalRouteCount | lib/Transit/TransitViewDataModel.php:472-480 | Remapping keeps the number of routes. |
| ViewQueries.RouteInfoFor | lib/Transit/TransitViewDataModel.php:252-371 | Fails exactly when the route ID does not split. The answer is empty only when both providers' answers are, and a non-empty answer is stamped with the current time. |
| ViewQueries.RouteInfoStops | lib/Transit/TransitViewDataModel.php:252-371 | When both providers answer and the live answer lists stops, the view's route has as many stops as the live answer, and every live stop appears under its global ID. |
| ViewQueries.RoutesFromBindings | lib/Transit/TransitViewDataModel.php:426-462 | A global route ID a binding lists is in the view, with the entry of the first binding that lists it. |
| ViewQueries.RoutesOnlyFromBindings | lib/Transit/TransitViewDataModel.php:426-462 | A route no binding lists is not in the view. |
| ViewQueries.RoutePathsFor | lib/Transit/TransitViewDataModel.php:373-386 | Fails exactly when the route ID does not split. Otherwise it gives the live provider's paths, or the static provider's when there is no live one. |
| ViewQueries.RouteVehiclesFor | lib/Transit/TransitViewDataModel.php:388-402 | Like the paths, with every vehicle under a global ID. |
| ViewQueries.LiveThenStatic | lib/Transit/TransitViewDataModel.php:404-419 | The live answer when it is set, else the static one, and nothing without providers. |
| ViewQueries.ServiceInfoFor | lib/Transit/TransitViewDataModel.php:404-419 | Fails exactly when the route ID does not split, with an error naming it. |
| ViewQueries.MapImageForRouteFor | lib/Transit/TransitViewDataModel.php:232-246 | Fails exactly when the route ID does not split, with an error naming it. |
| ViewQueries.MapImageForStopFor | lib/Transit/TransitViewDataModel.php:216-230 | Fails exactly when the stop ID does not split. No image when no binding serves the stop. |
| ViewQueries.UnclaimedRoute | lib/Transit/TransitViewDataModel.php:534-546 | A route no binding has gives empty route info, paths, service info and vehicles. |
| ConfigSpec.Setting | lib/Transit/TransitConfig.php:15 | A scalar setting is read exactly when it is present and not a list. |
| ConfigSpec.ClassSetting | lib/Transit/TransitConfig.php:17-27 | A class is configured exactly when its setting is present and truthy. |
| ConfigSpec.ValueAt | lib/Transit/TransitConfig.php:66 | On a list, `$values[$i]` is set exactly when the list is longer than `i`, and is then that element. On a string it is PHP's string offset: the one-character string at `i`, or the empty string past the end. |
| ConfigSpec.WithParser | lib/Transit/TransitConfig.php:89-109 | `addParser`: nothing happens without a class. Otherwise the feed gets its system and a new parser for each truthy class, and other feeds are untouched. |
| ConfigSpec.UpdateSlotsEffect | lib/Transit/TransitConfig.php:111-131 | Updating the named slots of one feed changes only those slots' parsers, only when they exist. |
| ConfigSpec.WithArgumentEffect | lib/Transit/TransitConfig.php:111-117 | `setArgument` stores the value in each named existing parser and changes nothing else. |
| ConfigSpec.SetOverrideEffect | lib/Transit/TransitConfig.php:122-128 | Setting an override stores the value at (object, field, key) and leaves every other override unchanged. |
| ConfigSpec.SetOverrideTwice | lib/Transit/TransitConfig.php:122-128 | Setting the same override twice is setting it once. |
| ConfigSpec.WithOverrideEffect | lib/Transit/TransitConfig.php:119-131 | `setFieldOverride` stores the override in each named existing parser and changes nothing else. |
| ConfigSpec.WithWhitelist | lib/Transit/TransitConfig.php:133-137 | `setRouteWhitelist` stores the whitelist on the feed entry and changes nothing else. |
| ConfigSpec.ClassifyKey | lib/Transit/TransitConfig.php:36-84 | A key of fewer than three parts is skipped. An accepted key with its `_vals` partner becomes arguments when its second part is `argument`, and a field override when it has five parts and says `override`. |
| ConfigSpec.ApplyActionSkeleton | lib/Transit/TransitConfig.php:63-84 | Applying a setting never adds a feed or a parser and never changes a class, system or whitelist. |
| ConfigSpec.ParseKeysSkeleton | lib/Transit/TransitConfig.php:36-85 | The same holds for the whole settings loop. |
| ConfigSpec.IgnoredKey | lib/Transit/TransitConfig.php:39-58 | A key that is too short, not accepted, without a `_vals` partner, or of another kind changes nothing. |
| ConfigSpec.ArgumentStep | lib/Transit/TransitConfig.php:65-67 | One argument write sets that key in the named parsers only. |
| ConfigSpec.OverrideStep | lib/Transit/TransitConfig.php:75-77 | One override write sets that (object, field, key) in the named parsers only. |
| ConfigSpec.ApplyArgumentsEffect | lib/Transit/TransitConfig.php:63-68 | After the argument loop a key holds the value at its last position (null past the end). Keys not listed, or parsers not named, are unchanged. |
| ConfigSpec.ApplyOverridesPresence | lib/Transit/TransitConfig.php:70-79 | The override loop adds and removes no parser. |
| ConfigSpec.ApplyOverridesSets | lib/Transit/TransitConfig.php:70-79 | After the override loop, a key holds the value at its last position. |
| ConfigSpec.ApplyOverridesKeeps | lib/Transit/TransitConfig.php:70-79 | Overrides not written by the loop are unchanged. |
| ConfigSpec.FeedStartShape | lib/Transit/TransitConfig.php:15-34 | A feed section with a class adds exactly one entry, with its system and its parsers. Earlier entries are untouched. |
| ConfigSpec.FeedStepShape | lib/Transit/TransitConfig.php:14-86 | The same after the feed's settings. |
| ConfigSpec.ParseFeedsShape | lib/Transit/TransitConfig.php:14-86 | The parsed configuration lists exactly the configured feeds in file order, each with the system and parsers its section names. |
| ConfigSpec.ParsedFeed | lib/Transit/TransitConfig.php:165-167 | A feed is present exactly when its section configures a class. Its system is the `system` setting, or the feed ID. |
| ConfigSpec.ParsedProvider | lib/Transit/TransitConfig.php:17-29 | A feed's parser class is exactly its truthy class setting. |
| ConfigSpec.ShapedWhitelists | lib/Transit/TransitConfig.php:176-181 | In any parsed configuration the per-parser whitelist is empty, and the feed whitelist is the stored setting. |
| ConfigSpec.ProviderWhitelistAlwaysEmpty | lib/Transit/TransitConfig.php:176-181 | As written, the whitelist getters always return an empty list. |
| ConfigSpec.StoredWhitelist | lib/Transit/TransitConfig.php:133-137 | The feed whitelist is the `route_whitelist` setting when it is given, else an empty list. |
| ConfigSpec.ThreeParts | lib/Transit/TransitConfig.php:37 | `a_b_c` with underscore-free parts explodes to `[a, b, c]`, and its partner key is `a_b_vals`. |
| ConfigSpec.ThreePartKey | lib/Transit/TransitConfig.php:36-84 | The action of a three-part key, written out. |
| ConfigSpec.AllArgumentKeys | lib/Transit/TransitConfig.php:45 | `all_argument_keys` is skipped by the stand-alone parser and applied to both parsers by the embedded one. |
| ConfigSpec.LiveArgumentList | lib/Transit/TransitConfig.php:52 | `live_argument_list` is read by the stand-alone parser and skipped by the embedded one. |
| ConfigSpec.ParserOf | lib/Transit/TransitConfig.php:143-152 | A parser is found only for a configured feed, in the requested slot. |
| ConfigSpec.SystemFor | lib/Transit/TransitConfig.php:165-167 | The feed's system, or the ID itself for an unknown feed. |
| ConfigSpec.ClassOf | lib/Transit/TransitConfig.php:169-174 | Set exactly when the parser exists, and then its class. |
| ConfigSpec.ArgumentsOf | lib/Transit/TransitConfig.php:183-188 | The parser's arguments, or an empty array. |
| ConfigSpec.OverridesOf | lib/Transit/TransitConfig.php:190-195 | The parser's overrides, or an empty array. |
| ConfigSpec.ProviderWhitelistOf | lib/Transit/TransitConfig.php:176-181 | As written: empty unless the parser has a whitelist slot of its own. |
| ConfigSpec.WhitelistOf | lib/Transit/TransitConfig.php:133-137 | Corrected: the feed's stored whitelist, or an empty list. |
| TransitConfigFile.TransitConfig.constructor | lib/Transit/TransitConfig.php:10-87 | The parsers are the parse of every feed section in file order. |
| TransitConfigFile.TransitConfig.ParseFeed | lib/Transit/TransitConfig.php:14-86 | One feed's section, parsed: its entry, then its settings. |
| TransitConfigFile.TransitConfig.ParseSettings | lib/Transit/TransitConfig.php:36-85 | The settings loop, key by key. |
| TransitConfigFile.TransitConfig.ApplySetting | lib/Transit/TransitConfig.php:37-84 | One key applied as `ClassifyKey` decides. |
| TransitConfigFile.TransitConfig.AddParser | lib/Transit/TransitConfig.php:89-109 | `addParser` is `WithParser`. |
| TransitConfigFile.TransitConfig.SetArgument | lib/Transit/TransitConfig.php:111-117 | `setArgument` is `WithArgument`. |
| TransitConfigFile.TransitConfig.SetFieldOverride | lib/Transit/TransitConfig.php:119-131 | `setFieldOverride` is `WithOverride`. |
| TransitConfigFile.TransitConfig.SetRouteWhitelist | lib/Transit/TransitConfig.php:133-137 | `setRouteWhitelist` is `WithWhitelist`. |
| TransitConfigFile.TransitConfig.GetParserIDs | lib/Transit/TransitConfig.php:154-156 | Lists exactly the configured feeds. |
| TransitConfigFile.TransitConfig.HasLiveParser | lib/Transit/TransitConfig.php:158-160 | True exactly when the feed has a live parser. |
| TransitConfigFile.TransitConfig.HasStaticParser | lib/Transit/TransitConfig.php:161-163 | True exactly when the feed has a static parser. |
| TransitConfigFile.TransitConfig.GetSystem | lib/Transit/TransitConfig.php:165-167 | The ID itself for an unknown feed. |
| TransitConfigFile.TransitConfig.GetLiveParserClass | lib/Transit/TransitConfig.php:169-171 | Set exactly when the feed has a live parser, and then that parser's class. |
| TransitConfigFile.TransitConfig.GetStaticParserClass | lib/Transit/TransitConfig.php:172-174 | Set exactly when the feed has a static parser, and then that parser's class. |
| TransitConfigFile.TransitConfig.GetLiveParserRouteWhitelist | lib/Transit/TransitConfig.php:176-178 | As written: the whitelist slot of the live parser, or an empty list when the feed has no live parser or the slot is unset. |
| TransitConfigFile.TransitConfig.GetStaticParserRouteWhitelist | lib/Transit/TransitConfig.php:179-181 | As written: the whitelist slot of the static parser, or an empty list when the feed has no static parser or the slot is unset. |
| TransitConfigFile.ParsedWhitelistGetters | lib/Transit/TransitConfig.php:176-181 | On a configuration the constructor built, both getters give an empty list for every feed, while the feed entry holds the `route_whitelist` setting. |
| TransitConfigFile.TransitConfig.GetLiveParserArgs | lib/Transit/TransitConfig.php:183-185 | An empty array without a live parser. |
| TransitConfigFile.TransitConfig.GetStaticParserArgs | lib/Transit/TransitConfig.php:186-188 | An empty array without a static parser. |
| TransitConfigFile.TransitConfig.GetLiveParserOverrides | lib/Transit/TransitConfig.php:190-192 | An empty array without a live parser. |
| TransitConfigFile.TransitConfig.GetStaticParserOverrides | lib/Transit/TransitConfig.php:193-195 | An empty array without a static parser. |
| ViewConfig.TransitConfig.constructor | lib/Transit/TransitViewDataModel.php:580-670 | The models are the parse of every feed section in file order, with the embedded parser's keys. |
| ViewConfig.TransitConfig.ParseFeed | lib/Transit/TransitViewDataModel.php:581-669 | One feed's section, parsed. |
| ViewConfig.TransitConfig.ParseSettings | lib/Transit/TransitViewDataModel.php:619-668 | The settings loop, key by key. |
| ViewConfig.TransitConfig.ApplySetting | lib/Transit/TransitViewDataModel.php:620-667 | One key applied as `ClassifyKey` decides for the embedded parser. |
| ViewConfig.TransitConfig.SetArgument | lib/Transit/TransitViewDataModel.php:672-678 | `setArgument` is `WithArgument`. |
| ViewConfig.TransitConfig.SetFieldOverride | lib/Transit/TransitViewDataModel.php:680-692 | `setFieldOverride` is `WithOverride`. |
| ViewConfig.TransitConfig.GetModelIDs | lib/Transit/TransitViewDataModel.php:713-715 | Lists exactly the configured feeds. |
| ViewConfig.TransitConfig.HasLiveModel | lib/Transit/TransitViewDataModel.php:717-719 | True exactly when the feed has a live model. |
| ViewConfig.TransitConfig.HasStaticModel | lib/Transit/TransitViewDataModel.php:720-722 | True exactly when the feed has a static model. |
| ViewConfig.TransitConfig.GetSystem | lib/Transit/TransitViewDataModel.php:724-726 | The ID itself for an unknown feed. |
| ViewConfig.TransitConfig.GetLiveModelClass | lib/Transit/TransitViewDataModel.php:728-730 | Set exactly when the feed has a live model, and then that model's class. |
| ViewConfig.TransitConfig.GetStaticModelClass | lib/Transit/TransitViewDataModel.php:731-733 | Set exactly when the feed has a static model, and then that model's class. |
| ViewConfig.TransitConfig.GetLiveModelArgs | lib/Transit/TransitViewDataModel.php:735-737 | An empty array without a live model. |
| ViewConfig.TransitConfig.GetStaticModelArgs | lib/Transit/TransitViewDataModel.php:738-740 | An empty array without a static model. |
| ViewConfig.TransitConfig.GetLiveModelOverrides | lib/Transit/TransitViewDataModel.php:742-744 | An empty array without a live model. |
| ViewConfig.TransitConfig.GetStaticModelOverrides | lib/Transit/TransitViewDataModel.php:745-747 | An empty array without a static model. |

## Left out

- PHP's loose comparison and type juggling:
  - numeric strings and the `null`/`false` mix are modelled only where the
    code depends on them (`LooseLess`, `LooseAtMost`, `Truthy`, the
    non-zero frequency test);
  - values are typed, so no `TypeError` or array-to-string conversion
    exists in the model.
- The clock and the cache store are parameters:
  - the current time `now` and the maximum delay of `getRouteInfo` are
    parameters of the model;
  - the cache is a map in the view object;
  - expiry after the cache lifetime is not modelled; the lifetime value is.
- Logging, the site-wide settings (`GLOBAL_ID_SEPARATOR`, the cache timeout)
  and file I/O are left out. The settings are constructor parameters, and the
  feeds file arrives already read as sections.
- `DAEMON_MODE` is read in `init` from an array that is never defined there.
  The model takes it as an optional parameter, and its absence means `false`.
- The providers are outside this model. `Upstream` turns these into plain
  functions the queries receive, about which nothing is assumed:
  - the data-model factory;
  - the providers' queries;
  - the base class's `isSameStop` and `sortStops`.
- Paths, map images, service information and similar payloads pass through
  untouched as `Opaque`.
- `uasort`'s exact algorithm is not modelled. The model sorts by stable
  insertion; the contracts promise only a permutation that keeps every key
  with its value and, for a consistent comparator, comparator order.
- Strings.Explode: its own contract states only that it yields at least one
  piece. Its meaning is stated by `JoinExplode`, `ExplodePartsFree` and
  `SplitAtOnlyOccurrence`.
- TransitConfigFile.TransitConfig.GetSystem and
  ViewConfig.TransitConfig.GetSystem: the contract covers only unknown
  feeds. The system of a parsed feed is stated by `ConfigSpec.ParsedFeed`.
- The argument and override getters: `GetLiveParserArgs`,
  `GetStaticParserArgs`, `GetLiveParserOverrides`,
  `GetStaticParserOverrides`, and their `Model` counterparts. Their
  contracts cover only the missing parser; what a parser holds is stated by
  `ConfigSpec.ApplyArgumentsEffect`, `ConfigSpec.ApplyOverridesSets` and
  `ConfigSpec.ApplyOverridesKeeps`.
- StopMerge.MergeStopTimesAsWritten, ViewQueries.StopTimesFor and
  TransitView.EmptyView: an answer whose keys are all set to null is
  treated like PHP's empty array. `StopTimes(None, None)` is `NoStopTimes`.
  When the arrival is dropped (see "## Findings"), the source returns
  `['arrives' => null, 'predictions' => null]`. That array is truthy, so the
  source caches it and serves it from the cache on the next call. The model
  counts the cached value as empty, a miss, and asks the providers again.
  Key presence apart from the value is not modelled.
- TransitTypes.StopTimes, TransitTypes.RouteAtStop, TransitTypes.StopInfo,
  TransitTypes.StopOnRoute, TransitTypes.RouteInfo,
  TransitTypes.RouteSummary and TransitTypes.Vehicle keep only the keys the
  view reads or writes. Any other key a provider returns is not carried
  through. In the source it is: `$stopInfo = $modelInfo`
  (lib/Transit/TransitViewDataModel.php:187) keeps a stop's other fields,
  such as its coordinates, and `remapVehicles` (518-530) keeps a vehicle's
  position. An answer that holds only such keys counts as empty in the
  model, where PHP's array is non-empty and true. This changes the
  emptiness tests:
  - `!$modelInfo` in `getStopInfo` (157): the model takes the static answer
    where the source overlays the live one;
  - `!count($routeInfo)` in `getRouteInfo` (266) and `!$stopInfo` in
    `getStopInfoForRoute` (115): such an answer counts as missing;
  - the cache test: such an answer is a miss rather than a hit.
- lib/Authentication/TwitterAuthentication.php is not part of this model.

## Findings

| source | as written | input that shows it | evidently intended | confidence | as-written member | corrected member |
|---|---|---|---|---|---|---|
| lib/Transit/TransitConfig.php:176-181 | The whitelist getters read a per-parser `routes` key, but `setRouteWhitelist` (lines 133-137) stores the whitelist on the feed entry. | Any feed with a `route_whitelist` setting: both getters return an empty list. | The getters return the whitelist the feed configured. | not executed | ConfigSpec.ProviderWhitelistAlwaysEmpty | ConfigSpec.StoredWhitelist |
| lib/Transit/TransitViewDataModel.php:120-122 | The arrival is replaced when the chosen answer has none or when the static arrival compares lower, and an unset static arrival compares lower than any non-zero time. | A live answer with arrival 100 and no static answer: the result has no arrival. | The earlier of the two arrivals; an unset arrival never replaces a set one. | not executed | StopMerge.LiveArrivalDropped | StopMerge.MergeStopTimes |
| lib/Transit/TransitViewDataModel.php:153-165 | `$staticModelInfo` outlives its loop iteration, so a feed without a static provider is filtered by the previous feed's static answer. | Feed A has only a static provider listing route r1. Feed B has only a live provider listing route r2 with a prediction. Result: only r1. | Each feed is checked against its own static answer: r1 and r2. | not executed | StopMerge.StaticInfoLeaks | StopMerge.CollectStopInfoRoutes |
| lib/Transit/TransitViewDataModel.php:321 | A stop before the static first stop is queued for the end as the live stop the loop started from, losing the annotation made at lines 303-313. | Live stops s2, s1 against static stops s1, s2: s2 ends up with its live name. | Moved stops keep their annotation (static name and timing). | not executed | RouteMerge.MovedStopKeepsLiveName | RouteMerge.ReconciledStops |
