/**
  * How the view combines what the live and the static provider of a feed
  * say about a stop: the times of one route at the stop
  * (`getStopInfoForRoute`) and the routes serving a stop across the feeds
  * that serve it (`getStopInfo`).
  */
module StopMerge {
  import opened Wrappers
  import opened Dicts
  import opened Strings
  import opened Predictions
  import opened TransitTypes

  //
  // getStopInfoForRoute
  //

  /**
    * The predictions of the chosen answer, completed from the static answer:
    * taken over when the answer has none, merged in when the static list is
    * not empty.
    */
  function FillPredictions(mine: Option<seq<int>>, other: Option<seq<int>>): (r: Option<seq<int>>)
    ensures r.Some? <==> mine.Some? || other.Some?
    ensures r.Some? ==> forall x :: x in r.value ==> (mine.Some? && x in mine.value) || (other.Some? && x in other.value)
    ensures mine.Some? && other.Some? && other.value != [] ==>
      Ascending(r.value) && forall x :: x in r.value <==> x in mine.value || x in other.value
    ensures mine.Some? && (other.None? || other.value == []) ==> r == mine
  {
    if mine.None? then other
    else if other.Some? && |other.value| > 0 then Some(MergePredictions(mine.value, other.value))
    else mine
  }

  /** The earlier of two optional arrival times; an unset time never wins. */
  function EarlierArrival(mine: Option<int>, other: Option<int>): (r: Option<int>)
    ensures r.Some? <==> mine.Some? || other.Some?
    ensures r == mine || r == other
    ensures r.Some? && mine.Some? ==> r.value <= mine.value
    ensures r.Some? && other.Some? ==> r.value <= other.value
  {
    if mine.None? || (other.Some? && other.value < mine.value) then other else mine
  }

  /**
    * `getStopInfoForRoute` as written: the live answer, or the static one
    * when the live one is empty; its arrival replaced when it has none or
    * when the static arrival compares lower, which PHP also holds for an
    * unset static arrival against a non-zero one.
    */
  function MergeStopTimesAsWritten(live: StopTimes, staticTimes: StopTimes): (r: StopTimes)
    ensures r == NoStopTimes <==>
      staticTimes == NoStopTimes && (live == NoStopTimes || (live.predictions.None? && live.arrives.Some? && live.arrives.value != 0))
    ensures r.arrives.Some? <==> staticTimes.arrives.Some? || live.arrives == Some(0)
    ensures r.arrives.Some? ==> (r.arrives == live.arrives || r.arrives == staticTimes.arrives)
    ensures r.arrives.Some? && live.arrives.Some? ==> r.arrives.value <= live.arrives.value
    ensures r.arrives.Some? && staticTimes.arrives.Some? ==> r.arrives.value <= staticTimes.arrives.value
    ensures r.predictions.Some? <==> live.predictions.Some? || staticTimes.predictions.Some?
    ensures live.predictions.Some? && staticTimes.predictions.Some? && staticTimes.predictions.value != [] ==>
      Ascending(r.predictions.value) &&
      forall x :: x in r.predictions.value <==> x in live.predictions.value || x in staticTimes.predictions.value
  {
    var chosen := if live == NoStopTimes then staticTimes else live;
    if chosen == NoStopTimes then chosen
    else
      var arrives := if chosen.arrives.None? || LooseLess(staticTimes.arrives, chosen.arrives.value) then staticTimes.arrives else chosen.arrives;
      StopTimes(arrives, FillPredictions(chosen.predictions, staticTimes.predictions))
  }

  /**
    * `getStopInfoForRoute` with the arrival rule it evidently intends: the
    * earlier of the two arrivals, an unset one never replacing a set one.
    */
  function MergeStopTimes(live: StopTimes, staticTimes: StopTimes): (r: StopTimes)
    ensures r == NoStopTimes <==> live == NoStopTimes && staticTimes == NoStopTimes
    ensures r.arrives.Some? <==> live.arrives.Some? || staticTimes.arrives.Some?
    ensures r.arrives.Some? ==> (r.arrives == live.arrives || r.arrives == staticTimes.arrives)
    ensures r.arrives.Some? && live.arrives.Some? ==> r.arrives.value <= live.arrives.value
    ensures r.arrives.Some? && staticTimes.arrives.Some? ==> r.arrives.value <= staticTimes.arrives.value
    ensures r.predictions.Some? <==> live.predictions.Some? || staticTimes.predictions.Some?
    ensures r.predictions.Some? ==> forall x :: x in r.predictions.value ==>
      (live.predictions.Some? && x in live.predictions.value) || (staticTimes.predictions.Some? && x in staticTimes.predictions.value)
    ensures live.predictions.Some? && staticTimes.predictions.Some? && staticTimes.predictions.value != [] ==>
      Ascending(r.predictions.value) &&
      forall x :: x in r.predictions.value <==> x in live.predictions.value || x in staticTimes.predictions.value
  {
    var chosen := if live == NoStopTimes then staticTimes else live;
    if chosen == NoStopTimes then chosen
    else StopTimes(EarlierArrival(chosen.arrives, staticTimes.arrives), FillPredictions(chosen.predictions, staticTimes.predictions))
  }

  /**
    * The two differ exactly when the chosen answer has a non-zero arrival
    * and the static answer has none: as written, the arrival is then lost.
    */
  lemma MergeStopTimesDiffer(live: StopTimes, staticTimes: StopTimes)
    ensures MergeStopTimesAsWritten(live, staticTimes) != MergeStopTimes(live, staticTimes) <==>
      live != NoStopTimes && live.arrives.Some? && live.arrives.value != 0 && staticTimes.arrives.None?
  {
    if live != NoStopTimes && live.arrives.Some? && live.arrives.value != 0 && staticTimes.arrives.None? {
      assert MergeStopTimesAsWritten(live, staticTimes).arrives == None;
    }
  }

  /** A live arrival of 100 with no static answer: as written the stop loses its arrival. */
  lemma LiveArrivalDropped()
    ensures MergeStopTimesAsWritten(StopTimes(Some(100), None), NoStopTimes).arrives == None
    ensures MergeStopTimes(StopTimes(Some(100), None), NoStopTimes).arrives == Some(100)
  {
  }

  /** Without a live answer, the static answer comes back with its predictions sorted and de-duplicated. */
  lemma StaticOnlyStopTimes(staticTimes: StopTimes)
    requires staticTimes.predictions.Some? && staticTimes.predictions.value != []
    ensures MergeStopTimes(NoStopTimes, staticTimes) == StopTimes(staticTimes.arrives, Some(Sort(Unique(staticTimes.predictions.value))))
  {
    MergeSelf(staticTimes.predictions.value);
  }

  //
  // getStopInfo: merging route entries key by key
  //

  /** The route IDs a stop answer lists (none when `routes` is unset). */
  function RouteIds(info: StopInfo): set<Id> {
    match info.routes
    case None => {}
    case Some(rs) => rs.vals.Keys
  }

  /**
    * `foreach ($src as $id => $v) { $routes[$id] = entry($routes[$id], $v); }`
    * over the keys `ks` of `src`: each listed route gets the entry computed
    * from what it held before (nothing, if absent) and the incoming one.
    */
  function MergeEach(routes: Dict<Id, RouteAtStop>, src: Dict<Id, RouteAtStop>, ks: seq<Id>,
                     entry: (Option<RouteAtStop>, RouteAtStop) -> RouteAtStop): Dict<Id, RouteAtStop>
    requires forall k :: k in ks ==> k in src.vals
  {
    if ks == [] then routes
    else
      var acc := MergeEach(routes, src, ks[..|ks| - 1], entry);
      var k := ks[|ks| - 1];
      Put(acc, k, entry(Get(acc, k), src.vals[k]))
  }

  /** One more key of the source merged in. */
  lemma MergeEachNext(routes: Dict<Id, RouteAtStop>, src: Dict<Id, RouteAtStop>, ks: seq<Id>, i: nat,
                      entry: (Option<RouteAtStop>, RouteAtStop) -> RouteAtStop)
    requires forall k :: k in ks ==> k in src.vals
    requires i < |ks|
    ensures ks[i] in src.vals
    ensures var acc := MergeEach(routes, src, ks[..i], entry);
      MergeEach(routes, src, ks[..i + 1], entry) == Put(acc, ks[i], entry(Get(acc, ks[i]), src.vals[ks[i]]))
  {
    assert ks[i] in ks;
    assert ks[..i + 1][..i] == ks[..i];
  }

  /**
    * The merged array: the old routes keep their places, the new ones follow
    * in source order; every listed route holds its merged entry and every
    * other route is untouched.
    */
  lemma {:induction false} MergeEachEffect(routes: Dict<Id, RouteAtStop>, src: Dict<Id, RouteAtStop>, ks: seq<Id>,
                                           entry: (Option<RouteAtStop>, RouteAtStop) -> RouteAtStop)
    requires forall k :: k in ks ==> k in src.vals
    requires Distinct(ks)
    ensures MergeEach(routes, src, ks, entry).keys == routes.keys + FilterIn(ks, src.vals.Keys - routes.vals.Keys)
    ensures forall k :: k in MergeEach(routes, src, ks, entry).vals <==> k in routes.vals || k in ks
    ensures forall k :: k in ks ==> MergeEach(routes, src, ks, entry).vals[k] == entry(Get(routes, k), src.vals[k])
    ensures forall k :: k in routes.vals && k !in ks ==> MergeEach(routes, src, ks, entry).vals[k] == routes.vals[k]
  {
    if ks != [] {
      var init, k := ks[..|ks| - 1], ks[|ks| - 1];
      DistinctInit(ks);
      assert forall x :: x in ks <==> x in init || x == k by {
        assert ks == init + [k];
      }
      MergeEachEffect(routes, src, init, entry);
      var acc := MergeEach(routes, src, init, entry);
      assert Get(acc, k) == Get(routes, k);
    }
  }

  //
  // getStopInfo: one feed's answer (lines 157-183)
  //

  /** A static name is used only when it is set and not falsy. */
  predicate UsableName(name: Option<string>) {
    name.Some? && Truthy(name.value)
  }

  /**
    * A static route after the overlay: the static entry unless the live
    * entry has predictions, and then the live entry under the static name
    * when that is usable.
    */
  function OverlaidRoute(live: Option<RouteAtStop>, staticEntry: RouteAtStop): (r: RouteAtStop)
    ensures live.Some? && live.value.predictions.Some? ==>
      r.arrives == live.value.arrives && r.predictions == live.value.predictions &&
      r.name == (if UsableName(staticEntry.name) then staticEntry.name else live.value.name)
    ensures !(live.Some? && live.value.predictions.Some?) ==> r == staticEntry
  {
    var copied := if live.None? || live.value.predictions.None? then staticEntry else live.value;
    if UsableName(staticEntry.name) then copied.(name := staticEntry.name) else copied
  }

  /**
    * The answer of one feed: the live answer if there is one, else the
    * static one; a live answer checked against static route data is cut
    * down to the routes the static data lists, completed from it, and named
    * from it.
    */
  function FeedStopInfo(live: StopInfo, staticInfo: StopInfo): (r: StopInfo)
    ensures live == NoStopInfo ==> r == staticInfo
    ensures live != NoStopInfo && staticInfo.routes.None? ==> r == live
    ensures live != NoStopInfo && staticInfo.routes.Some? ==>
      r.name == if UsableName(staticInfo.name) then staticInfo.name else live.name
  {
    if live == NoStopInfo then staticInfo
    else if staticInfo.routes.None? then live
    else
      var staticRoutes := staticInfo.routes.value;
      var routes := match live.routes
        case None => if staticRoutes.keys == [] then None else Some(MergeEach(Empty(), staticRoutes, staticRoutes.keys, OverlaidRoute))
        case Some(rs) => Some(MergeEach(KeepKeys(rs, staticRoutes.vals.Keys), staticRoutes, staticRoutes.keys, OverlaidRoute));
      StopInfo(if UsableName(staticInfo.name) then staticInfo.name else live.name, routes)
  }

  /**
    * When static route data is present, the feed answers with exactly the
    * static routes: the live routes it confirms first, in live order, then
    * the rest in static order; each entry is the overlay of the two.
    */
  lemma FeedStopInfoRoutes(live: StopInfo, staticInfo: StopInfo)
    requires live != NoStopInfo && staticInfo.routes.Some? && live.routes.Some?
    ensures var r := FeedStopInfo(live, staticInfo);
      var sr := staticInfo.routes.value;
      var kept := KeepKeys(live.routes.value, sr.vals.Keys);
      r.routes.Some? && RouteIds(r) == sr.vals.Keys &&
      r.routes.value.keys == FilterIn(live.routes.value.keys, sr.vals.Keys) + FilterIn(sr.keys, sr.vals.Keys - kept.vals.Keys) &&
      forall k :: k in sr.vals ==> r.routes.value.vals[k] == OverlaidRoute(Get(kept, k), sr.vals[k])
  {
    var sr := staticInfo.routes.value;
    var kept := KeepKeys(live.routes.value, sr.vals.Keys);
    MergeEachEffect(kept, sr, sr.keys, OverlaidRoute);
  }

  /** Merging into an empty array with an entry rule that keeps a new entry as it is copies the source. */
  lemma MergeEachIntoEmpty(src: Dict<Id, RouteAtStop>, entry: (Option<RouteAtStop>, RouteAtStop) -> RouteAtStop)
    requires forall v: RouteAtStop :: entry(None, v) == v
    ensures MergeEach(Empty(), src, src.keys, entry) == src
  {
    var e: Dict<Id, RouteAtStop> := Empty();
    var r := MergeEach(e, src, src.keys, entry);
    assert r.keys == src.keys by {
      MergeEachEffect(e, src, src.keys, entry);
      FilterInAll(src.keys, src.vals.Keys - e.vals.Keys);
    }
    forall i | 0 <= i < |r.keys| ensures r.keys[i] in r.vals && r.keys[i] in src.vals && r.vals[r.keys[i]] == src.vals[r.keys[i]] {
      MergeEachEffect(e, src, src.keys, entry);
      assert src.keys[i] in src.keys;
      assert Get(e, src.keys[i]) == None;
    }
    SameDict(r, src);
  }

  /** Without live routes, the static routes come over unchanged, in static order. */
  lemma FeedStopInfoStaticRoutes(live: StopInfo, staticInfo: StopInfo)
    requires live != NoStopInfo && staticInfo.routes.Some? && live.routes.None? && staticInfo.routes.value.keys != []
    ensures FeedStopInfo(live, staticInfo).routes == staticInfo.routes
  {
    MergeEachIntoEmpty(staticInfo.routes.value, OverlaidRoute);
  }

  /** A feed's answer lists no route that neither of its providers lists. */
  lemma FeedRoutesWithin(live: StopInfo, staticInfo: StopInfo)
    ensures RouteIds(FeedStopInfo(live, staticInfo)) <= RouteIds(live) + RouteIds(staticInfo)
  {
    if live != NoStopInfo && staticInfo.routes.Some? {
      if live.routes.Some? {
        FeedStopInfoRoutes(live, staticInfo);
      } else if staticInfo.routes.value.keys != [] {
        FeedStopInfoStaticRoutes(live, staticInfo);
      }
    }
  }

  //
  // getStopInfo: accumulating over the feeds (lines 185-207)
  //

  /** `array_merge` of a missing list gives no list at all. */
  function AppendPredictions(mine: Option<seq<int>>, more: seq<int>): (r: Option<seq<int>>)
    ensures r.Some? <==> mine.Some?
    ensures r.Some? ==> Ascending(r.value) && forall x :: x in r.value <==> x in mine.value || x in more
  {
    match mine
    case None => None
    case Some(p) => Some(MergePredictions(p, more))
  }

  /**
    * A route already collected from an earlier feed, after a later feed
    * lists it too: its predictions cleared when the later entry has none,
    * merged when it has some, untouched when its list is empty.
    */
  function AccumulatedRoute(acc: Option<RouteAtStop>, t: RouteAtStop): (r: RouteAtStop)
    ensures acc.None? ==> r == t
    ensures acc.Some? ==> r.name == acc.value.name && r.arrives == acc.value.arrives
    ensures acc.Some? && t.predictions.None? ==> r.predictions.None?
    ensures acc.Some? && t.predictions.Some? && t.predictions.value == [] ==> r == acc.value
    ensures acc.Some? && t.predictions.Some? && t.predictions.value != [] ==>
      r.predictions == AppendPredictions(acc.value.predictions, t.predictions.value)
  {
    match acc
    case None => t
    case Some(a) =>
      if t.predictions.None? then a.(predictions := None)
      else if |t.predictions.value| > 0 then a.(predictions := AppendPredictions(a.predictions, t.predictions.value))
      else a
  }

  /**
    * Adds one feed's answer to the answer collected so far: the first
    * non-empty answer is taken whole, later ones only contribute routes.
    */
  function Accumulate(acc: StopInfo, info: StopInfo): (r: StopInfo)
    ensures info == NoStopInfo ==> r == acc
    ensures acc == NoStopInfo ==> r == info
    ensures acc != NoStopInfo ==> r.name == acc.name
  {
    if info == NoStopInfo then acc
    else if acc == NoStopInfo then info
    else match info.routes
      case None => acc
      case Some(rs) =>
        if rs.keys == [] then acc
        else acc.(routes := Some(MergeEach(acc.routes.GetOr(Empty()), rs, rs.keys, AccumulatedRoute)))
  }

  /** Accumulating never loses a route and adds exactly the routes of the new answer. */
  lemma AccumulateRouteIds(acc: StopInfo, info: StopInfo)
    ensures RouteIds(Accumulate(acc, info)) == RouteIds(acc) + RouteIds(info)
  {
    if info != NoStopInfo && acc != NoStopInfo && info.routes.Some? {
      var rs := info.routes.value;
      if rs.keys == [] {
        assert rs.vals.Keys == {};
      } else {
        MergeEachEffect(acc.routes.GetOr(Empty()), rs, rs.keys, AccumulatedRoute);
      }
    }
  }

  //
  // getStopInfo: the loop over the feeds serving the stop
  //

  /**
    * What the providers of one feed answer: the live answer (empty without a
    * live provider) and the static answer (`None` without a static provider).
    */
  datatype StopAnswer = StopAnswer(live: StopInfo, staticInfo: Option<StopInfo>)

  /**
    * The feeds loop as written: the static answer is held in a variable that
    * outlives its iteration, so a feed without a static provider is checked
    * against the previous feed's static answer. Returns the collected answer
    * and the static answer in scope.
    */
  function CollectStopInfoAsWritten(answers: seq<StopAnswer>): (StopInfo, StopInfo) {
    if answers == [] then (NoStopInfo, NoStopInfo)
    else
      var (acc, inScope) := CollectStopInfoAsWritten(answers[..|answers| - 1]);
      var a := answers[|answers| - 1];
      var staticInfo := a.staticInfo.GetOr(inScope);
      (Accumulate(acc, FeedStopInfo(a.live, staticInfo)), staticInfo)
  }

  /** The routes any provider of the feeds lists, live or static. */
  ghost function ProviderRoutes(answers: seq<StopAnswer>): set<Id> {
    if answers == [] then {}
    else
      var a := answers[|answers| - 1];
      ProviderRoutes(answers[..|answers| - 1]) + RouteIds(a.live) + RouteIds(a.staticInfo.GetOr(NoStopInfo))
  }

  lemma {:induction false} ProviderRoutesSome(answers: seq<StopAnswer>, k: Id)
    ensures k in ProviderRoutes(answers) <==>
      exists i :: 0 <= i < |answers| && (k in RouteIds(answers[i].live) || k in RouteIds(answers[i].staticInfo.GetOr(NoStopInfo)))
  {
    if answers != [] {
      var init := answers[..|answers| - 1];
      ProviderRoutesSome(init, k);
      assert forall i :: 0 <= i < |init| ==> init[i] == answers[i];
    }
  }

  /**
    * Even with the static answer leaking from one feed to the next, the
    * collected answer lists no route that no provider of the feeds lists.
    */
  lemma {:induction false} CollectAsWrittenWithin(answers: seq<StopAnswer>)
    ensures RouteIds(CollectStopInfoAsWritten(answers).0) <= ProviderRoutes(answers)
    ensures RouteIds(CollectStopInfoAsWritten(answers).1) <= ProviderRoutes(answers)
  {
    if answers != [] {
      var init := answers[..|answers| - 1];
      var a := answers[|answers| - 1];
      CollectAsWrittenWithin(init);
      var (acc, inScope) := CollectStopInfoAsWritten(init);
      var staticInfo := a.staticInfo.GetOr(inScope);
      FeedRoutesWithin(a.live, staticInfo);
      AccumulateRouteIds(acc, FeedStopInfo(a.live, staticInfo));
    }
  }

  /** One feed's answer, checked against its own static provider only. */
  function OwnStopInfo(a: StopAnswer): StopInfo {
    FeedStopInfo(a.live, a.staticInfo.GetOr(NoStopInfo))
  }

  /** The feeds loop as evidently intended: each feed checked against its own static answer. */
  function CollectStopInfo(answers: seq<StopAnswer>): StopInfo {
    if answers == [] then NoStopInfo
    else Accumulate(CollectStopInfo(answers[..|answers| - 1]), OwnStopInfo(answers[|answers| - 1]))
  }

  /** The routes the feeds report, feed by feed. */
  ghost function ReportedRoutes(answers: seq<StopAnswer>): set<Id> {
    if answers == [] then {} else ReportedRoutes(answers[..|answers| - 1]) + RouteIds(OwnStopInfo(answers[|answers| - 1]))
  }

  lemma {:induction false} ReportedRoutesSome(answers: seq<StopAnswer>, k: Id)
    ensures k in ReportedRoutes(answers) <==> exists i :: 0 <= i < |answers| && k in RouteIds(OwnStopInfo(answers[i]))
  {
    if answers != [] {
      var init := answers[..|answers| - 1];
      ReportedRoutesSome(init, k);
      if exists i :: 0 <= i < |answers| && k in RouteIds(OwnStopInfo(answers[i])) {
        var i :| 0 <= i < |answers| && k in RouteIds(OwnStopInfo(answers[i]));
        if i < |init| {
          assert answers[i] == init[i];
        }
      }
      if exists i :: 0 <= i < |init| && k in RouteIds(OwnStopInfo(init[i])) {
        var i :| 0 <= i < |init| && k in RouteIds(OwnStopInfo(init[i]));
        assert answers[i] == init[i];
      }
    }
  }

  lemma {:induction false} CollectedAreReported(answers: seq<StopAnswer>)
    ensures RouteIds(CollectStopInfo(answers)) == ReportedRoutes(answers)
  {
    if answers != [] {
      var init := answers[..|answers| - 1];
      CollectedAreReported(init);
      AccumulateRouteIds(CollectStopInfo(init), OwnStopInfo(answers[|answers| - 1]));
    }
  }

  /** The stop is served by exactly the routes that some feed reports for it. */
  lemma CollectStopInfoRoutes(answers: seq<StopAnswer>)
    ensures forall k :: k in RouteIds(CollectStopInfo(answers)) <==>
      exists i :: 0 <= i < |answers| && k in RouteIds(OwnStopInfo(answers[i]))
  {
    CollectedAreReported(answers);
    forall k ensures k in ReportedRoutes(answers) <==> exists i :: 0 <= i < |answers| && k in RouteIds(OwnStopInfo(answers[i])) {
      ReportedRoutesSome(answers, k);
    }
  }

  /** When every feed has a static provider, nothing leaks and the two loops agree. */
  lemma {:induction false} CollectAgreesWithStaticProviders(answers: seq<StopAnswer>)
    requires forall i :: 0 <= i < |answers| ==> answers[i].staticInfo.Some?
    ensures CollectStopInfoAsWritten(answers).0 == CollectStopInfo(answers)
  {
    if answers != [] {
      CollectAgreesWithStaticProviders(answers[..|answers| - 1]);
    }
  }

  /** Feed A of the example below: only a static provider, listing route r1. */
  function StaticOnlyFeed(): StopAnswer {
    StopAnswer(NoStopInfo, Some(StopInfo(None, Some(RawDict(["r1"], map["r1" := RouteAtStop(None, Some(10), None)])))))
  }

  /** Feed B of the example below: only a live provider, listing route r2 with a prediction. */
  function LiveOnlyFeed(): StopAnswer {
    StopAnswer(StopInfo(None, Some(RawDict(["r2"], map["r2" := RouteAtStop(None, Some(20), Some([20]))]))), None)
  }

  /** As written, feed B is checked against feed A's static data, which does not list r2. */
  lemma LeakCutsLiveRoute()
    ensures RouteIds(CollectStopInfoAsWritten([StaticOnlyFeed(), LiveOnlyFeed()]).0) == {"r1"}
  {
    var a, b := StaticOnlyFeed(), LiveOnlyFeed();
    assert [a, b][..1] == [a];
    assert [a][..0] == [];
    var infoA := a.staticInfo.value;
    assert CollectStopInfoAsWritten([a]) == (infoA, infoA);
    var leaked := FeedStopInfo(b.live, infoA);
    assert CollectStopInfoAsWritten([a, b]).0 == Accumulate(infoA, leaked);
    LeakedAnswer();
    AccumulateRouteIds(infoA, leaked);
  }

  /** Feed B's answer checked against feed A's static data lists only r1. */
  lemma LeakedAnswer()
    ensures RouteIds(FeedStopInfo(LiveOnlyFeed().live, StaticOnlyFeed().staticInfo.value)) == {"r1"}
  {
    FeedStopInfoRoutes(LiveOnlyFeed().live, StaticOnlyFeed().staticInfo.value);
  }

  /** Each feed checked against its own static data keeps both routes. */
  lemma OwnDataKeepsLiveRoute()
    ensures RouteIds(CollectStopInfo([StaticOnlyFeed(), LiveOnlyFeed()])) == {"r1", "r2"}
  {
    var a, b := StaticOnlyFeed(), LiveOnlyFeed();
    assert [a, b][..1] == [a];
    assert [a][..0] == [];
    var infoA := a.staticInfo.value;
    assert CollectStopInfo([a]) == infoA;
    assert OwnStopInfo(b) == b.live;
    AccumulateRouteIds(infoA, b.live);
  }

  /**
    * Feed A has only a static provider, listing route r1; feed B has only a
    * live provider, listing route r2 with a prediction. As written, B's r2 is
    * cut because A's static data does not list it.
    */
  lemma StaticInfoLeaks()
    ensures RouteIds(CollectStopInfoAsWritten([StaticOnlyFeed(), LiveOnlyFeed()]).0) == {"r1"}
    ensures RouteIds(CollectStopInfo([StaticOnlyFeed(), LiveOnlyFeed()])) == {"r1", "r2"}
  {
    LeakCutsLiveRoute();
    OwnDataKeepsLiveRoute();
  }

  //
  // The loops of getStopInfo, as the source runs them
  //

  /** The keys a filter over `routes` still keeps after its first `i` steps: the static ones and those not yet looked at. */
  ghost function StillKept(routes: Dict<Id, RouteAtStop>, keep: set<Id>, i: nat): set<Id>
    requires i <= |routes.keys|
  {
    keep + (set k | k in routes.vals && k !in routes.keys[..i])
  }

  /** One step of the filter: the key looked at goes unless it is kept. */
  lemma KeepStep(routes: Dict<Id, RouteAtStop>, keep: set<Id>, i: nat)
    requires i < |routes.keys|
    ensures var r := KeepKeys(routes, StillKept(routes, keep, i));
      var id := routes.keys[i];
      (if id in keep then r else Unset(r, id)) == KeepKeys(routes, StillKept(routes, keep, i + 1))
  {
    var ids := routes.keys;
    var id := ids[i];
    var before := StillKept(routes, keep, i);
    var after := StillKept(routes, keep, i + 1);
    assert ids[..i + 1] == ids[..i] + [id];
    if id !in keep {
      KeepDropStep(routes, keep, i);
    } else {
      KeepKeysAgree(routes, before, after);
    }
  }

  lemma KeepDropStep(routes: Dict<Id, RouteAtStop>, keep: set<Id>, i: nat)
    requires i < |routes.keys| && routes.keys[i] !in keep
    ensures Unset(KeepKeys(routes, StillKept(routes, keep, i)), routes.keys[i]) == KeepKeys(routes, StillKept(routes, keep, i + 1))
  {
    var ids := routes.keys;
    var before := StillKept(routes, keep, i);
    var r := KeepKeys(routes, before);
    assert ids[..i + 1] == ids[..i] + [ids[i]];
    KeepKeysCompose(routes, before, r.vals.Keys - {ids[i]});
    KeepKeysAgree(routes, before * (r.vals.Keys - {ids[i]}), StillKept(routes, keep, i + 1));
  }

  /** The filter at its start keeps everything, at its end only the kept keys. */
  lemma KeepEnds(routes: Dict<Id, RouteAtStop>, keep: set<Id>)
    ensures KeepKeys(routes, StillKept(routes, keep, 0)) == routes
    ensures KeepKeys(routes, StillKept(routes, keep, |routes.keys|)) == KeepKeys(routes, keep)
  {
    var ids := routes.keys;
    KeepKeysAll(routes, StillKept(routes, keep, 0));
    assert ids[..|ids|] == ids;
    KeepKeysAgree(routes, StillKept(routes, keep, |ids|), keep);
  }

  /** Lines 161-165: drop the live routes the static data does not list. */
  method KeepStaticRoutes(routes: Dict<Id, RouteAtStop>, staticRoutes: Dict<Id, RouteAtStop>) returns (r: Dict<Id, RouteAtStop>)
    ensures r == KeepKeys(routes, staticRoutes.vals.Keys)
  {
    r := routes;
    var ids := routes.keys;
    KeepEnds(routes, staticRoutes.vals.Keys);
    for i := 0 to |ids|
      invariant r == KeepKeys(routes, StillKept(routes, staticRoutes.vals.Keys, i))
    {
      KeepStep(routes, staticRoutes.vals.Keys, i);
      var id := ids[i];
      if id !in staticRoutes.vals {
        r := Unset(r, id);
      }
    }
  }

  /** Lines 167-177: complete the live routes from the static ones and take the static names. */
  method OverlayStaticRoutes(routes: Dict<Id, RouteAtStop>, staticRoutes: Dict<Id, RouteAtStop>) returns (r: Dict<Id, RouteAtStop>)
    ensures r == MergeEach(routes, staticRoutes, staticRoutes.keys, OverlaidRoute)
  {
    r := routes;
    var ids := staticRoutes.keys;
    for i := 0 to |ids|
      invariant r == MergeEach(routes, staticRoutes, ids[..i], OverlaidRoute)
    {
      MergeEachNext(routes, staticRoutes, ids, i, OverlaidRoute);
      var id := ids[i];
      var info := staticRoutes.vals[id];
      ghost var before := r;
      if id !in r.vals || r.vals[id].predictions.None? {
        r := Put(r, id, info);
      }
      if info.name.Some? && Truthy(info.name.value) {
        r := Put(r, id, r.vals[id].(name := info.name));
      }
      OverlayWrites(before, id, info);
    }
    assert ids[..|ids|] == ids;
  }

  /** The one or two writes of an overlay step store the overlaid entry. */
  lemma OverlayWrites(r: Dict<Id, RouteAtStop>, id: Id, info: RouteAtStop)
    ensures var r1 := if id !in r.vals || r.vals[id].predictions.None? then Put(r, id, info) else r;
      var r2 := if info.name.Some? && Truthy(info.name.value) then Put(r1, id, r1.vals[id].(name := info.name)) else r1;
      r2 == Put(r, id, OverlaidRoute(Get(r, id), info))
  {
    if id in r.vals && r.vals[id].predictions.Some? && !(info.name.Some? && Truthy(info.name.value)) {
      PutSame(r, id, r.vals[id]);
    }
  }

  /** Lines 189-205: add a later feed's routes to the collected ones. */
  method AddRoutes(routes: Dict<Id, RouteAtStop>, more: Dict<Id, RouteAtStop>) returns (r: Dict<Id, RouteAtStop>)
    ensures r == MergeEach(routes, more, more.keys, AccumulatedRoute)
  {
    r := routes;
    var ids := more.keys;
    for i := 0 to |ids|
      invariant r == MergeEach(routes, more, ids[..i], AccumulatedRoute)
    {
      MergeEachNext(routes, more, ids, i, AccumulatedRoute);
      var id := ids[i];
      var stopTimes := more.vals[id];
      if id !in r.vals {
        r := Put(r, id, stopTimes);
      } else if stopTimes.predictions.None? {
        r := Put(r, id, r.vals[id].(predictions := None));
      } else if |stopTimes.predictions.value| > 0 {
        var merged := match r.vals[id].predictions
          case None => None
          case Some(p) => Some(MergePredictions(p, stopTimes.predictions.value));
        r := Put(r, id, r.vals[id].(predictions := merged));
      } else {
        PutSame(r, id, r.vals[id]);
      }
    }
    assert ids[..|ids|] == ids;
  }
}
