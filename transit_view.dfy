/**
  * The transit view itself: the feed bindings built from the feeds file,
  * the view cache, and the queries that read through it.
  */
module TransitView {
  import opened Wrappers
  import opened Dicts
  import opened GlobalIds
  import opened ConfigSpec
  import opened ViewConfig
  import opened TransitTypes
  import opened Registry
  import Remap
  import opened StopMerge
  import opened RouteMerge
  import opened RoutesMerge
  import opened ViewQueries

  //
  // The view cache
  //

  /** A view stored in the cache, one kind per query. */
  datatype CachedView =
    | StopTimesView(times: StopTimes)
    | StopInfoView(info: StopInfo)
    | RouteInfoView(route: RouteInfo)
    | RoutesView(routes: Routes)

  /**
    * An empty view is PHP's empty array, which is false. A stop-times answer
    * whose keys are all null counts as empty here, although PHP's array
    * with those keys is true.
    */
  predicate EmptyView(v: CachedView) {
    match v
    case StopTimesView(t) => t == NoStopTimes
    case StopInfoView(i) => i == NoStopInfo
    case RouteInfoView(r) => r == NoRouteInfo
    case RoutesView(rs) => rs.keys == []
  }

  /** `getCachedViewForKey` (lines 74-77): the stored view, an empty one counting as a miss. */
  function CachedViewFor(cache: map<string, CachedView>, key: string): (r: Option<CachedView>)
    ensures r.Some? <==> key in cache && !EmptyView(cache[key])
    ensures r.Some? ==> r.value == cache[key]
  {
    if key in cache && !EmptyView(cache[key]) then Some(cache[key]) else None
  }

  /** A view just stored is read back, unless it is empty. */
  lemma CachedViewAfterStore(cache: map<string, CachedView>, key: string, v: CachedView)
    ensures CachedViewFor(cache[key := v], key) == if EmptyView(v) then None else Some(v)
  {
  }

  /** `$time != null`, which PHP also holds false for a time of 0: a query at such a time skips the cache. */
  predicate CacheBypassed(time: Option<int>) {
    time.Some? && time.value != 0
  }

  /** What a query at `time` reads from the cache: nothing when the time bypasses it. */
  function CacheRead(cache: map<string, CachedView>, key: string, time: Option<int>): (r: Option<CachedView>)
    ensures CacheBypassed(time) ==> r.None?
    ensures !CacheBypassed(time) ==> r == CachedViewFor(cache, key)
  {
    if CacheBypassed(time) then None else CachedViewFor(cache, key)
  }

  /** Lines 65-71: the configured lifetime, lowered by 300 seconds for a daemon but never below 0. */
  function CacheLifetime(timeout: int, daemonMode: bool): (r: int)
    ensures !daemonMode ==> r == timeout
    ensures daemonMode ==> r >= 0 && r >= timeout - 300 && (r == 0 || r == timeout - 300)
    ensures daemonMode && timeout >= 300 ==> r == timeout - 300
  {
    if daemonMode then (if timeout - 300 < 0 then 0 else timeout - 300) else timeout
  }

  function StopTimesKey(globalRouteID: string, globalStopID: string): string {
    "stopInfoForRoute." + globalRouteID + "." + globalStopID
  }

  function StopInfoKey(globalStopID: string): string {
    "stopInfo." + globalStopID
  }

  function RouteInfoKey(globalRouteID: string): string {
    "routeInfo." + globalRouteID
  }

  const AllRoutesKey := "allRoutes"

  /** The queries use disjoint cache keys, so a view is only ever read back by the query that stored it. */
  lemma CacheKeysDisjoint(a: string, b: string, c: string, d: string)
    ensures StopTimesKey(a, b) != StopInfoKey(c)
    ensures StopTimesKey(a, b) != RouteInfoKey(c)
    ensures StopInfoKey(c) != RouteInfoKey(d)
    ensures AllRoutesKey != StopTimesKey(a, b) && AllRoutesKey != StopInfoKey(c) && AllRoutesKey != RouteInfoKey(d)
  {
    assert StopTimesKey(a, b)[8] == 'F' && StopInfoKey(c)[8] == '.';
    assert StopTimesKey(a, b)[0] == 's' && RouteInfoKey(c)[0] == 'r';
    assert StopInfoKey(c)[0] == 's' && RouteInfoKey(d)[0] == 'r';
    assert AllRoutesKey[0] == 'a' && StopTimesKey(a, b)[0] == 's' && StopInfoKey(c)[0] == 's' && RouteInfoKey(d)[0] == 'r';
  }

  //
  // The bindings the view builds from its configuration
  //

  /** A binding built for feed `id`: its system, and a provider for each parser the feed configures. */
  predicate BuiltFrom(b: Binding, entries: Entries, id: string, daemonMode: bool) {
    b.system == SystemFor(entries, id) &&
    ProviderMatches(b.liveModel, ParserOf(entries, id, Live), daemonMode) &&
    ProviderMatches(b.staticModel, ParserOf(entries, id, Static), daemonMode)
  }

  /** One binding per configured feed, in configuration order, each built from its feed. */
  ghost predicate AllBuilt(models: Dict<string, Binding>, entries: Entries, daemonMode: bool) {
    models.keys == entries.keys &&
    forall id :: id in models.vals ==> BuiltFrom(models.vals[id], entries, id, daemonMode)
  }

  /** The bindings with the live provider of each feed in `ps` replaced by the provider `ps` gives it. */
  ghost function WithLiveProviders(before: Dict<string, Binding>, ps: map<string, TransitProvider>): (r: Dict<string, Binding>)
    ensures r.keys == before.keys && r.vals.Keys == before.vals.Keys
    ensures forall id :: id in r.vals ==>
      r.vals[id] == if id in ps then before.vals[id].(liveModel := Some(ps[id])) else before.vals[id]
  {
    RawDict(before.keys, map id | id in before.vals :: if id in ps then before.vals[id].(liveModel := Some(ps[id])) else before.vals[id])
  }

  /** Setting one more feed's live provider is replacing it in the bindings. */
  lemma WithOneMoreProvider(before: Dict<string, Binding>, ps: map<string, TransitProvider>, id0: string, p: TransitProvider)
    requires id0 in before.vals
    ensures var cur := WithLiveProviders(before, ps);
      Put(cur, id0, cur.vals[id0].(liveModel := Some(p))) == WithLiveProviders(before, ps[id0 := p])
  {
    var cur := WithLiveProviders(before, ps);
    assert Put(cur, id0, cur.vals[id0].(liveModel := Some(p))).vals == WithLiveProviders(before, ps[id0 := p]).vals;
  }

  /** The feeds among the first `n` of `ids` that configure a live parser. */
  ghost function LiveFeeds(entries: Entries, ids: seq<string>, n: nat): set<string>
    requires n <= |ids|
  {
    if n == 0 then {}
    else LiveFeeds(entries, ids, n - 1) + (if ParserOf(entries, ids[n - 1], Live).Some? then {ids[n - 1]} else {})
  }

  lemma LiveFeedsNext(entries: Entries, ids: seq<string>, i: nat)
    requires i < |ids|
    ensures LiveFeeds(entries, ids, i + 1) == LiveFeeds(entries, ids, i) + (if ParserOf(entries, ids[i], Live).Some? then {ids[i]} else {})
  {
  }

  /** A feed is among the live feeds of the first `n` exactly when it is one of them and configures a live parser. */
  lemma {:induction false} LiveFeedsAre(entries: Entries, ids: seq<string>, n: nat, id: string)
    requires n <= |ids|
    ensures id in LiveFeeds(entries, ids, n) <==> id in ids[..n] && ParserOf(entries, id, Live).Some?
  {
    if n > 0 {
      var m := n - 1;
      LiveFeedsAre(entries, ids, m, id);
      assert LiveFeeds(entries, ids, n) == LiveFeeds(entries, ids, m) + (if ParserOf(entries, ids[m], Live).Some? then {ids[m]} else {});
      assert ids[..n] == ids[..m] + [ids[m]];
    }
  }

  /**
    * The bindings while `refreshLiveServices` runs, after the first `i`
    * feeds: every one of them that configures a live parser has a provider
    * built from it in `ps`, and the bindings are the old ones with those
    * providers set.
    */
  ghost predicate RefreshedUpTo(before: Dict<string, Binding>, entries: Entries, daemonMode: bool, ids: seq<string>, i: nat,
                                r: Dict<string, Binding>, ps: map<string, TransitProvider>) {
    i <= |ids| && r == WithLiveProviders(before, ps) && ps.Keys == LiveFeeds(entries, ids, i) &&
    forall id :: id in ps ==> ProviderMatches(Some(ps[id]), ParserOf(entries, id, Live), daemonMode)
  }

  /** A new live provider for the next feed, built from its parser. */
  lemma RefreshStep(before: Dict<string, Binding>, entries: Entries, daemonMode: bool, ids: seq<string>, i: nat,
                    r: Dict<string, Binding>, ps: map<string, TransitProvider>, p: TransitProvider)
    requires RefreshedUpTo(before, entries, daemonMode, ids, i, r, ps) && i < |ids| && ids[i] in before.vals
    requires ProviderMatches(Some(p), ParserOf(entries, ids[i], Live), daemonMode)
    ensures ids[i] in r.vals
    ensures RefreshedUpTo(before, entries, daemonMode, ids, i + 1, Put(r, ids[i], r.vals[ids[i]].(liveModel := Some(p))), ps[ids[i] := p])
  {
    LiveFeedsNext(entries, ids, i);
    WithOneMoreProvider(before, ps, ids[i], p);
  }

  /** The next feed has no live parser: nothing changes. */
  lemma RefreshSkip(before: Dict<string, Binding>, entries: Entries, daemonMode: bool, ids: seq<string>, i: nat,
                    r: Dict<string, Binding>, ps: map<string, TransitProvider>)
    requires RefreshedUpTo(before, entries, daemonMode, ids, i, r, ps) && i < |ids|
    requires ParserOf(entries, ids[i], Live).None?
    ensures RefreshedUpTo(before, entries, daemonMode, ids, i + 1, r, ps)
  {
    LiveFeedsNext(entries, ids, i);
  }

  /**
    * After every feed: the bindings are still built from their feeds, and a
    * feed has a provider of `ps` exactly when it configures a live parser;
    * the rest of each binding is as it was.
    */
  lemma RefreshFinished(before: Dict<string, Binding>, entries: Entries, daemonMode: bool,
                        r: Dict<string, Binding>, ps: map<string, TransitProvider>)
    requires AllBuilt(before, entries, daemonMode)
    requires RefreshedUpTo(before, entries, daemonMode, entries.keys, |entries.keys|, r, ps)
    ensures AllBuilt(r, entries, daemonMode) && r.keys == before.keys
    ensures forall id :: id in r.vals ==>
      r.vals[id].system == before.vals[id].system && r.vals[id].staticModel == before.vals[id].staticModel &&
      (ParserOf(entries, id, Live).Some? ==> id in ps && r.vals[id].liveModel == Some(ps[id])) &&
      (ParserOf(entries, id, Live).None? ==> r.vals[id].liveModel == before.vals[id].liveModel)
  {
    var ids := entries.keys;
    assert ids[..|ids|] == ids;
    forall id | id in r.vals
      ensures BuiltFrom(r.vals[id], entries, id, daemonMode)
      ensures ParserOf(entries, id, Live).Some? <==> id in ps
    {
      LiveFeedsAre(entries, ids, |ids|, id);
      assert BuiltFrom(before.vals[id], entries, id, daemonMode);
    }
  }

  class TransitViewDataModel {
    const config: TransitConfig
    var models: Dict<string, Binding>
    const daemonMode: bool
    var cache: map<string, CachedView>
    const cacheLifetime: int
    const globalIDSeparator: string

    /** One binding per configured feed, in configuration order, each built from its feed. */
    ghost predicate Valid()
      reads this, config
    {
      AllBuilt(models, config.models, daemonMode)
    }

    /** The bindings in configuration order. */
    function Bindings(): seq<Binding>
      reads this
    {
      Values(models)
    }

    /**
      * `init` (lines 19-72). `daemonArg` is the `DAEMON_MODE` entry the
      * init code reads; the separator and the cache timeout are the site
      * settings it reads.
      */
    constructor (feedConfig: Dict<string, Section>, daemonArg: Option<bool>, separator: string, cacheTimeout: int)
      ensures fresh(config) && config.models == ParseFeeds(ViewParser, feedConfig, feedConfig.keys)
      ensures Valid()
      ensures daemonMode == daemonArg.GetOr(false)
      ensures globalIDSeparator == separator
      ensures cache == map[]
      ensures cacheLifetime == CacheLifetime(cacheTimeout, daemonArg.GetOr(false))
    {
      var c := new TransitConfig(feedConfig);
      config := c;
      daemonMode := daemonArg.GetOr(false);
      globalIDSeparator := separator;
      cacheLifetime := CacheLifetime(cacheTimeout, daemonArg.GetOr(false));
      cache := map[];
      var bindings := BuildBindings(c, daemonArg.GetOr(false));
      models := bindings;
    }

    /** `refreshLiveServices` (lines 83-96): a new live provider for every feed that has one; nothing else changes. */
    method RefreshLiveServices()
      requires Valid()
      modifies this
      ensures Valid()
      ensures models.keys == old(models.keys) && cache == old(cache)
      ensures forall id :: id in models.vals ==>
        models.vals[id].system == old(models.vals[id].system) &&
        models.vals[id].staticModel == old(models.vals[id].staticModel) &&
        (ParserOf(config.models, id, Live).Some? ==> models.vals[id].liveModel.Some? && fresh(models.vals[id].liveModel.value)) &&
        (ParserOf(config.models, id, Live).None? ==> models.vals[id].liveModel == old(models.vals[id].liveModel))
    {
      models := RefreshBindings(config, models, daemonMode);
    }

    /** `getStopInfoForRoute` (lines 98-137): the cached view, or the merged answer, which is then cached. */
    method GetStopInfoForRoute(up: Upstream, globalRouteID: string, globalStopID: string) returns (r: Result<StopTimes, IdError>)
      modifies this
      ensures models == old(models)
      ensures var key := StopTimesKey(globalRouteID, globalStopID);
        match CachedViewFor(old(cache), key)
        case Some(StopTimesView(t)) => r == Ok(t) && cache == old(cache)
        case _ =>
          r == StopTimesFor(old(Bindings()), globalIDSeparator, up, globalRouteID, globalStopID) &&
          cache == if r.Ok? then old(cache)[key := StopTimesView(r.value)] else old(cache)
    {
      var key := StopTimesKey(globalRouteID, globalStopID);
      var hit := CachedViewFor(cache, key);
      if hit.Some? && hit.value.StopTimesView? {
        return Ok(hit.value.times);
      }
      r := StopTimesFor(Bindings(), globalIDSeparator, up, globalRouteID, globalStopID);
      if r.Ok? {
        cache := cache[key := StopTimesView(r.value)];
      }
    }

    /**
      * `getStopInfo` (lines 139-214): the feeds loop over the bindings that
      * serve the stop, as written.
      */
    method GetStopInfo(up: Upstream, globalStopID: string) returns (r: Result<StopInfo, IdError>)
      modifies this
      ensures models == old(models)
      ensures var key := StopInfoKey(globalStopID);
        match CachedViewFor(old(cache), key)
        case Some(StopInfoView(i)) => r == Ok(i) && cache == old(cache)
        case _ =>
          r == StopInfoFor(old(Bindings()), globalIDSeparator, up, globalStopID) &&
          cache == if r.Ok? then old(cache)[key := StopInfoView(r.value)] else old(cache)
    {
      var key := StopInfoKey(globalStopID);
      var hit := CachedViewFor(cache, key);
      if hit.Some? && hit.value.StopInfoView? {
        return Ok(hit.value.info);
      }
      var split := RealID(globalIDSeparator, globalStopID);
      if split.Err? {
        return Err(split.error);
      }
      var (system, stopID) := split.value;
      var serving := ModelsForStop(Bindings(), system, stopID, up.hasStop);
      var stopInfo := CollectFeedAnswers(serving, up, stopID);
      var info := Remap.GlobalStopInfo(globalIDSeparator, system, stopInfo);
      r := Ok(info);
      cache := cache[key := StopInfoView(info)];
    }

    /** `getRouteInfo` (lines 248-371): an explicit time neither reads nor writes the cache. */
    method GetRouteInfo(up: Upstream, globalRouteID: string, time: Option<int>, now: int, maxDelay: int) returns (r: Result<RouteInfo, IdError>)
      modifies this
      ensures models == old(models)
      ensures CacheBypassed(time) ==> cache == old(cache)
      ensures var key := RouteInfoKey(globalRouteID);
        match CacheRead(old(cache), key, time)
        case Some(RouteInfoView(i)) => r == Ok(i) && cache == old(cache)
        case _ =>
          r == RouteInfoFor(old(Bindings()), globalIDSeparator, up, globalRouteID, time, now, maxDelay) &&
          cache == if r.Ok? && !CacheBypassed(time) then old(cache)[key := RouteInfoView(r.value)] else old(cache)
    {
      var key := RouteInfoKey(globalRouteID);
      if !CacheBypassed(time) {
        var hit := CachedViewFor(cache, key);
        if hit.Some? && hit.value.RouteInfoView? {
          return Ok(hit.value.route);
        }
      }
      r := RouteInfoOf(Bindings(), globalIDSeparator, up, globalRouteID, time, now, maxDelay);
      if r.Ok? && !CacheBypassed(time) {
        cache := cache[key := RouteInfoView(r.value)];
      }
    }

    /** `getRoutes` (lines 421-469): the bindings loop, each binding's routes added with `+=`. */
    method GetRoutes(up: Upstream, time: Option<int>) returns (r: Routes)
      modifies this
      ensures models == old(models)
      ensures CacheBypassed(time) ==> cache == old(cache)
      ensures match CacheRead(old(cache), AllRoutesKey, time)
        case Some(RoutesView(rs)) => r == rs && cache == old(cache)
        case _ =>
          r == RoutesFor(old(Bindings()), globalIDSeparator, up, time) &&
          cache == if !CacheBypassed(time) then old(cache)[AllRoutesKey := RoutesView(r)] else old(cache)
    {
      if !CacheBypassed(time) {
        var hit := CachedViewFor(cache, AllRoutesKey);
        if hit.Some? && hit.value.RoutesView? {
          return hit.value.routes;
        }
      }
      r := CollectRoutes(Bindings(), globalIDSeparator, up, time);
      if !CacheBypassed(time) {
        cache := cache[AllRoutesKey := RoutesView(r)];
      }
    }

  }

  /** The factory call for one parser of a feed: a new provider built from the parser's class, arguments and overrides. */
  method NewProvider(config: TransitConfig, id: string, slot: Slot, daemonMode: bool) returns (p: TransitProvider)
    requires ParserOf(config.models, id, slot).Some?
    ensures fresh(p)
    ensures ProviderMatches(Some(p), ParserOf(config.models, id, slot), daemonMode)
  {
    var parser := ParserOf(config.models, id, slot).value;
    p := new TransitProvider(parser.cls, parser.arguments, parser.overrides, daemonMode);
  }

  /** Lines 31-55: the binding for one feed, with a provider for each parser it configures. */
  method BuildBinding(config: TransitConfig, id: string, daemonMode: bool) returns (b: Binding)
    ensures BuiltFrom(b, config.models, id, daemonMode)
    ensures b.liveModel.Some? ==> fresh(b.liveModel.value)
    ensures b.staticModel.Some? ==> fresh(b.staticModel.value)
  {
    b := Binding(config.GetSystem(id), None, None);
    if config.HasLiveModel(id) {
      var p := NewProvider(config, id, Live, daemonMode);
      b := b.(liveModel := Some(p));
    }
    if config.HasStaticModel(id) {
      var p := NewProvider(config, id, Static, daemonMode);
      b := b.(staticModel := Some(p));
    }
  }

  /** The feeds loop of `init` (lines 31-58): one binding per configured feed, in configuration order. */
  method BuildBindings(config: TransitConfig, daemonMode: bool) returns (models: Dict<string, Binding>)
    ensures AllBuilt(models, config.models, daemonMode)
  {
    models := Empty();
    var ids := config.GetModelIDs();
    for i := 0 to |ids|
      invariant models.keys == ids[..i]
      invariant forall id :: id in models.vals ==> BuiltFrom(models.vals[id], config.models, id, daemonMode)
    {
      var modelID := ids[i];
      DistinctNotElsewhere(ids, i);
      var binding := BuildBinding(config, modelID, daemonMode);
      models := Put(models, modelID, binding);
      assert ids[..i + 1] == ids[..i] + [modelID];
    }
    assert ids[..|ids|] == ids;
  }

  /** The loop of `refreshLiveServices` (lines 84-95). */
  method RefreshBindings(config: TransitConfig, models: Dict<string, Binding>, daemonMode: bool) returns (r: Dict<string, Binding>)
    requires AllBuilt(models, config.models, daemonMode)
    ensures AllBuilt(r, config.models, daemonMode) && r.keys == models.keys
    ensures forall id :: id in r.vals ==>
      r.vals[id].system == models.vals[id].system && r.vals[id].staticModel == models.vals[id].staticModel &&
      (ParserOf(config.models, id, Live).Some? ==> r.vals[id].liveModel.Some? && fresh(r.vals[id].liveModel.value)) &&
      (ParserOf(config.models, id, Live).None? ==> r.vals[id].liveModel == models.vals[id].liveModel)
  {
    r := models;
    var ids := config.GetModelIDs();
    ghost var ps: map<string, TransitProvider> := map[];
    assert r == WithLiveProviders(models, ps);
    for i := 0 to |ids|
      invariant RefreshedUpTo(models, config.models, daemonMode, ids, i, r, ps)
      invariant forall id :: id in ps ==> fresh(ps[id])
    {
      var modelID := ids[i];
      assert modelID in models.vals;
      if config.HasLiveModel(modelID) {
        var p := NewProvider(config, modelID, Live, daemonMode);
        RefreshStep(models, config.models, daemonMode, ids, i, r, ps, p);
        r := Put(r, modelID, r.vals[modelID].(liveModel := Some(p)));
        ps := ps[modelID := p];
      } else {
        RefreshSkip(models, config.models, daemonMode, ids, i, r, ps);
      }
    }
    RefreshFinished(models, config.models, daemonMode, r, ps);
  }

  /** Lines 252-371: the route's answer from the feed that serves it, merged, marked and under global IDs. */
  method RouteInfoOf(bindings: seq<Binding>, sep: string, up: Upstream, globalRouteID: string, time: Option<int>, now: int, maxDelay: int)
    returns (r: Result<RouteInfo, IdError>)
    ensures r == RouteInfoFor(bindings, sep, up, globalRouteID, time, now, maxDelay)
  {
    var split := RealID(sep, globalRouteID);
    if split.Err? {
      return Err(split.error);
    }
    var (system, routeID) := split.value;
    var model := ModelForRoute(bindings, system, routeID, up.hasRoute);
    var live := LiveRouteInfo(model, up, routeID, time);
    var staticInfo := StaticRouteInfo(model, up, routeID, time);
    var routeInfo := CombineRouteInfo(live, staticInfo, up.isSameStop, up.sortStops, false);
    if routeInfo != NoRouteInfo {
      var stops := routeInfo.stops;
      if stops.Some? {
        var marked := MarkUpcoming(stops.value, up.isSameStop, now, maxDelay);
        stops := Some(marked);
      }
      routeInfo := routeInfo.(stops := stops, lastupdate := Some(now));
    }
    assert routeInfo == MergeRouteInfo(live, staticInfo, up.isSameStop, up.sortStops, false, now, maxDelay);
    var info := Remap.GlobalRouteInfo(sep, model.system, routeInfo);
    r := Ok(info);
  }

  /** The bindings loop of `getRoutes` (lines 426-461). */
  method CollectRoutes(bindings: seq<Binding>, sep: string, up: Upstream, time: Option<int>) returns (r: Routes)
    ensures r == RoutesFor(bindings, sep, up, time)
  {
    ghost var per := PerBindingRoutes(bindings, sep, up, time);
    assert |per| == |bindings|;
    var all := Empty();
    for i := 0 to |bindings|
      invariant all == RoutesUpTo(per, i)
    {
      var routes := BindingRoutesOf(bindings[i], sep, up, time);
      assert routes == per[i];
      RoutesUpToNext(per, i);
      all := AddMissing(all, routes);
    }
    r := all;
  }

  /** Lines 427-459 for one binding. */
  method BindingRoutesOf(b: Binding, sep: string, up: Upstream, time: Option<int>) returns (routes: Routes)
    ensures routes == BindingRoutes(b, sep, up, time)
  {
    routes := Empty();
    if b.liveModel.Some? {
      routes := Remap.RemapKeys(up.routes(b.liveModel.value, time), b.system + sep, Remap.Same);
    }
    if b.staticModel.Some? {
      var staticRoutes := Remap.RemapKeys(up.routes(b.staticModel.value, time), b.system + sep, Remap.Same);
      routes := CombineFeedRoutes(routes, staticRoutes);
    }
  }

  /**
    * The feeds loop of `getStopInfo` (lines 146-207). `$staticModelInfo`
    * lives across the iterations: a feed without a static provider is
    * checked against the static answer of the last feed that had one.
    */
  method CollectFeedAnswers(serving: seq<Binding>, up: Upstream, stopID: Id) returns (stopInfo: StopInfo)
    ensures stopInfo == CollectStopInfoAsWritten(StopAnswers(serving, up, stopID)).0
  {
    ghost var answers := StopAnswers(serving, up, stopID);
    stopInfo := NoStopInfo;
    var staticModelInfo := NoStopInfo;
    for i := 0 to |serving|
      invariant (stopInfo, staticModelInfo) == CollectStopInfoAsWritten(answers[..i])
    {
      assert answers[..i + 1][..i] == answers[..i];
      var modelInfo;
      modelInfo, staticModelInfo := FeedAnswer(serving[i], up, stopID, staticModelInfo);
      stopInfo := AddFeedAnswer(stopInfo, modelInfo);
    }
    assert answers[..|serving|] == answers;
  }

  /**
    * Lines 147-183: one binding's answer for a stop, through the loops of
    * the source, given the static answer still in scope from earlier feeds;
    * also returns the static answer in scope afterwards.
    */
  method FeedAnswer(b: Binding, up: Upstream, stopID: Id, inScope: StopInfo) returns (modelInfo: StopInfo, staticModelInfo: StopInfo)
    ensures staticModelInfo == StopAnswerOf(b, up, stopID).staticInfo.GetOr(inScope)
    ensures modelInfo == FeedStopInfo(StopAnswerOf(b, up, stopID).live, staticModelInfo)
  {
    modelInfo := NoStopInfo;
    if b.liveModel.Some? {
      modelInfo := up.stopInfo(b.liveModel.value, stopID);
    }
    staticModelInfo := inScope;
    if b.staticModel.Some? {
      staticModelInfo := up.stopInfo(b.staticModel.value, stopID);
    }
    if modelInfo == NoStopInfo {
      modelInfo := staticModelInfo;
    } else if staticModelInfo.routes.Some? {
      var staticRoutes := staticModelInfo.routes.value;
      var routes := Empty();
      if modelInfo.routes.Some? {
        routes := KeepStaticRoutes(modelInfo.routes.value, staticRoutes);
      }
      routes := OverlayStaticRoutes(routes, staticRoutes);
      var name := if UsableName(staticModelInfo.name) then staticModelInfo.name else modelInfo.name;
      modelInfo := StopInfo(name, if modelInfo.routes.None? && staticRoutes.keys == [] then None else Some(routes));
    }
  }

  /** Lines 185-206: one binding's answer added to the answer collected so far. */
  method AddFeedAnswer(stopInfo: StopInfo, modelInfo: StopInfo) returns (r: StopInfo)
    ensures r == Accumulate(stopInfo, modelInfo)
  {
    r := stopInfo;
    if modelInfo != NoStopInfo {
      if stopInfo == NoStopInfo {
        r := modelInfo;
      } else if modelInfo.routes.Some? && modelInfo.routes.value.keys != [] {
        var routes := AddRoutes(stopInfo.routes.GetOr(Empty()), modelInfo.routes.value);
        r := stopInfo.(routes := Some(routes));
      }
    }
  }
}
