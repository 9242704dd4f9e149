/**
  * What each query of the view answers, computed from the feed bindings,
  * the global-ID separator and the providers' answers: the global IDs are
  * split, the binding that answers is found, the live and static answers
  * are merged, and local IDs are turned back into global ones.
  */
module ViewQueries {
  import opened Wrappers
  import opened Dicts
  import opened GlobalIds
  import opened TransitTypes
  import opened Registry
  import Remap
  import opened StopMerge
  import opened RouteMerge
  import opened RoutesMerge

  /** What a binding answers for a stop on a route: nothing from a provider it does not have. */
  function LiveStopTimes(b: Binding, up: Upstream, routeID: Id, stopID: Id): StopTimes {
    if b.liveModel.Some? then up.stopInfoForRoute(b.liveModel.value, routeID, stopID) else NoStopTimes
  }

  function StaticStopTimes(b: Binding, up: Upstream, routeID: Id, stopID: Id): StopTimes {
    if b.staticModel.Some? then up.stopInfoForRoute(b.staticModel.value, routeID, stopID) else NoStopTimes
  }

  /**
    * `getStopInfoForRoute` before caching (lines 102-133). Both IDs are
    * split, the route first; the system of the stop ID, which is split
    * second, is the one searched for the route.
    */
  function StopTimesFor(bindings: seq<Binding>, sep: string, up: Upstream, globalRouteID: string, globalStopID: string): (r: Result<StopTimes, IdError>)
    ensures r.Ok? <==> RealID(sep, globalRouteID).Ok? && RealID(sep, globalStopID).Ok?
    ensures RealID(sep, globalRouteID).Err? ==> r == Err(InvalidGlobalID(globalRouteID))
    ensures RealID(sep, globalRouteID).Ok? && RealID(sep, globalStopID).Err? ==> r == Err(InvalidGlobalID(globalStopID))
    ensures r.Ok? ==>
      var b := ModelForRoute(bindings, RealID(sep, globalStopID).value.0, RealID(sep, globalRouteID).value.1, up.hasRoute);
      var live := LiveStopTimes(b, up, RealID(sep, globalRouteID).value.1, RealID(sep, globalStopID).value.1);
      var st := StaticStopTimes(b, up, RealID(sep, globalRouteID).value.1, RealID(sep, globalStopID).value.1);
      (r.value == NoStopTimes <==>
        st == NoStopTimes && (live == NoStopTimes || (live.predictions.None? && live.arrives.Some? && live.arrives.value != 0))) &&
      (r.value.arrives.Some? ==> r.value.arrives == live.arrives || r.value.arrives == st.arrives) &&
      (r.value.arrives.Some? && live.arrives.Some? ==> r.value.arrives.value <= live.arrives.value) &&
      (r.value.arrives.Some? && st.arrives.Some? ==> r.value.arrives.value <= st.arrives.value) &&
      (r.value.predictions.Some? <==> live.predictions.Some? || st.predictions.Some?)
  {
    match RealID(sep, globalRouteID)
    case Err(e) => Err(e)
    case Ok((_, routeID)) =>
      match RealID(sep, globalStopID)
      case Err(e) => Err(e)
      case Ok((system, stopID)) =>
        var b := ModelForRoute(bindings, system, routeID, up.hasRoute);
        Ok(MergeStopTimesAsWritten(LiveStopTimes(b, up, routeID, stopID), StaticStopTimes(b, up, routeID, stopID)))
  }

  /**
    * The answer is the evidently intended merge of the two providers'
    * answers except exactly when a live answer with a non-zero arrival meets
    * a static answer without one.
    */
  lemma StopTimesForIntended(bindings: seq<Binding>, sep: string, up: Upstream, globalRouteID: string, globalStopID: string)
    requires RealID(sep, globalRouteID).Ok? && RealID(sep, globalStopID).Ok?
    ensures var (system, stopID) := RealID(sep, globalStopID).value;
      var routeID := RealID(sep, globalRouteID).value.1;
      var b := ModelForRoute(bindings, system, routeID, up.hasRoute);
      var live := LiveStopTimes(b, up, routeID, stopID);
      var st := StaticStopTimes(b, up, routeID, stopID);
      StopTimesFor(bindings, sep, up, globalRouteID, globalStopID).value == MergeStopTimes(live, st) <==>
        !(live != NoStopTimes && live.arrives.Some? && live.arrives.value != 0 && st.arrives.None?)
  {
    var (system, stopID) := RealID(sep, globalStopID).value;
    var routeID := RealID(sep, globalRouteID).value.1;
    var b := ModelForRoute(bindings, system, routeID, up.hasRoute);
    MergeStopTimesDiffer(LiveStopTimes(b, up, routeID, stopID), StaticStopTimes(b, up, routeID, stopID));
  }

  /** The system part of the route ID plays no part: two route IDs with the same local part give the same answer. */
  lemma StopTimesIgnoreRouteSystem(bindings: seq<Binding>, sep: string, up: Upstream, route1: string, route2: string, globalStopID: string)
    requires RealID(sep, route1).Ok? && RealID(sep, route2).Ok?
    requires RealID(sep, route1).value.1 == RealID(sep, route2).value.1
    ensures StopTimesFor(bindings, sep, up, route1, globalStopID) == StopTimesFor(bindings, sep, up, route2, globalStopID)
  {
  }

  /** What a binding's providers answer for a stop: empty without a live provider, unset without a static one. */
  function StopAnswerOf(b: Binding, up: Upstream, stopID: Id): StopAnswer {
    StopAnswer(if b.liveModel.Some? then up.stopInfo(b.liveModel.value, stopID) else NoStopInfo,
               if b.staticModel.Some? then Some(up.stopInfo(b.staticModel.value, stopID)) else None)
  }

  function StopAnswers(bs: seq<Binding>, up: Upstream, stopID: Id): (r: seq<StopAnswer>)
    ensures |r| == |bs| && forall i :: 0 <= i < |bs| ==> r[i] == StopAnswerOf(bs[i], up, stopID)
  {
    seq(|bs|, i requires 0 <= i < |bs| => StopAnswerOf(bs[i], up, stopID))
  }

  /**
    * `getStopInfo` before caching (lines 139-214): the answers of every
    * binding serving the stop, collected through the feeds loop as written,
    * with global route keys.
    */
  function StopInfoFor(bindings: seq<Binding>, sep: string, up: Upstream, globalStopID: string): (r: Result<StopInfo, IdError>)
    ensures r.Ok? <==> RealID(sep, globalStopID).Ok?
    ensures r.Err? ==> r.error == InvalidGlobalID(globalStopID)
    ensures r.Ok? ==>
      var (system, stopID) := RealID(sep, globalStopID).value;
      var collected := CollectStopInfoAsWritten(StopAnswers(ModelsForStop(bindings, system, stopID, up.hasStop), up, stopID)).0;
      r.value.name == collected.name && (r.value.routes.Some? <==> collected.routes.Some?)
  {
    match RealID(sep, globalStopID)
    case Err(e) => Err(e)
    case Ok((system, stopID)) =>
      var answers := StopAnswers(ModelsForStop(bindings, system, stopID, up.hasStop), up, stopID);
      Ok(Remap.GlobalStopInfo(sep, system, CollectStopInfoAsWritten(answers).0))
  }

  /**
    * Every route the stop lists is, under its global ID, a route that some
    * provider of a binding serving the stop lists. When every binding
    * serving the stop has a static provider, nothing leaks between feeds:
    * the stop is served by exactly the routes the bindings report.
    */
  lemma StopInfoRoutes(bindings: seq<Binding>, sep: string, up: Upstream, globalStopID: string)
    requires RealID(sep, globalStopID).Ok?
    ensures var (system, stopID) := RealID(sep, globalStopID).value;
      var answers := StopAnswers(ModelsForStop(bindings, system, stopID, up.hasStop), up, stopID);
      var info := StopInfoFor(bindings, sep, up, globalStopID).value;
      forall g :: g in RouteIds(info) ==> exists k :: k in ProviderRoutes(answers) && g == GlobalID(sep, system, k)
    ensures var (system, stopID) := RealID(sep, globalStopID).value;
      var answers := StopAnswers(ModelsForStop(bindings, system, stopID, up.hasStop), up, stopID);
      var info := StopInfoFor(bindings, sep, up, globalStopID).value;
      (forall i :: 0 <= i < |answers| ==> answers[i].staticInfo.Some?) ==>
        info == Remap.GlobalStopInfo(sep, system, CollectStopInfo(answers)) &&
        forall i, k :: 0 <= i < |answers| && k in RouteIds(OwnStopInfo(answers[i])) ==> GlobalID(sep, system, k) in RouteIds(info)
    ensures var (system, stopID) := RealID(sep, globalStopID).value;
      var answers := StopAnswers(ModelsForStop(bindings, system, stopID, up.hasStop), up, stopID);
      var info := StopInfoFor(bindings, sep, up, globalStopID).value;
      |RouteIds(info)| == |RouteIds(CollectStopInfoAsWritten(answers).0)|
  {
    var (system, stopID) := RealID(sep, globalStopID).value;
    var answers := StopAnswers(ModelsForStop(bindings, system, stopID, up.hasStop), up, stopID);
    var collected := CollectStopInfoAsWritten(answers).0;
    var info := Remap.GlobalStopInfo(sep, system, collected);
    assert StopInfoFor(bindings, sep, up, globalStopID) == Ok(info);
    CollectAsWrittenWithin(answers);
    forall g | g in RouteIds(info) ensures exists k :: k in ProviderRoutes(answers) && g == GlobalID(sep, system, k) {
      var k := g[|system + sep|..];
      assert g == GlobalID(sep, system, k);
    }
    if forall i :: 0 <= i < |answers| ==> answers[i].staticInfo.Some? {
      CollectAgreesWithStaticProviders(answers);
      ReportedGlobalRoutes(sep, system, answers);
    }
    GlobalRouteCount(sep, system, collected);
  }

  lemma ReportedGlobalRoutes(sep: string, system: string, answers: seq<StopAnswer>)
    ensures var info := Remap.GlobalStopInfo(sep, system, CollectStopInfo(answers));
      forall i, k :: 0 <= i < |answers| && k in RouteIds(OwnStopInfo(answers[i])) ==> GlobalID(sep, system, k) in RouteIds(info)
  {
    var collected := CollectStopInfo(answers);
    var info := Remap.GlobalStopInfo(sep, system, collected);
    CollectStopInfoRoutes(answers);
    forall i, k | 0 <= i < |answers| && k in RouteIds(OwnStopInfo(answers[i])) ensures GlobalID(sep, system, k) in RouteIds(info) {
      assert k in RouteIds(collected);
      assert collected.routes.Some? && k in collected.routes.value.vals;
    }
  }

  lemma GlobalRouteCount(sep: string, system: string, collected: StopInfo)
    ensures |RouteIds(Remap.GlobalStopInfo(sep, system, collected))| == |RouteIds(collected)|
  {
    var info := Remap.GlobalStopInfo(sep, system, collected);
    if collected.routes.Some? {
      DistinctKeysCount(info.routes.value);
      DistinctKeysCount(collected.routes.value);
    }
  }

  /** A dictionary has as many entries as keys. */
  lemma DistinctKeysCount<K(!new), V>(d: Dict<K, V>)
    ensures |d.vals.Keys| == |d.keys|
  {
    var s := d.keys;
    assert d.vals.Keys == set k | k in s;
    DistinctSetSize(s);
  }

  lemma {:induction false} DistinctSetSize<K>(s: seq<K>)
    requires Distinct(s)
    ensures |set k | k in s| == |s|
  {
    if s != [] {
      var init := s[..|s| - 1];
      var last := s[|s| - 1];
      DistinctInit(s);
      DistinctSetSize(init);
      assert (set k | k in s) == (set k | k in init) + {last} by {
        assert s == init + [last];
      }
    }
  }

  function LiveRouteInfo(b: Binding, up: Upstream, routeID: Id, time: Option<int>): RouteInfo {
    if b.liveModel.Some? then up.routeInfo(b.liveModel.value, routeID, time) else NoRouteInfo
  }

  function StaticRouteInfo(b: Binding, up: Upstream, routeID: Id, time: Option<int>): RouteInfo {
    if b.staticModel.Some? then up.routeInfo(b.staticModel.value, routeID, time) else NoRouteInfo
  }

  /** `getRouteInfo` before caching (lines 252-371), at the clock reading `now`. */
  function RouteInfoFor(bindings: seq<Binding>, sep: string, up: Upstream, globalRouteID: string, time: Option<int>, now: int, maxDelay: int): (r: Result<RouteInfo, IdError>)
    ensures r.Ok? <==> RealID(sep, globalRouteID).Ok?
    ensures r.Err? ==> r.error == InvalidGlobalID(globalRouteID)
    ensures r.Ok? && r.value != NoRouteInfo ==> r.value.lastupdate == Some(now)
    ensures r.Ok? ==>
      var b := ModelForRoute(bindings, RealID(sep, globalRouteID).value.0, RealID(sep, globalRouteID).value.1, up.hasRoute);
      (r.value == NoRouteInfo <==>
        LiveRouteInfo(b, up, RealID(sep, globalRouteID).value.1, time) == NoRouteInfo &&
        StaticRouteInfo(b, up, RealID(sep, globalRouteID).value.1, time) == NoRouteInfo)
  {
    match RealID(sep, globalRouteID)
    case Err(e) => Err(e)
    case Ok((system, routeID)) =>
      var b := ModelForRoute(bindings, system, routeID, up.hasRoute);
      var merged := MergeRouteInfo(LiveRouteInfo(b, up, routeID, time), StaticRouteInfo(b, up, routeID, time), up.isSameStop, up.sortStops, false, now, maxDelay);
      Ok(Remap.GlobalRouteInfo(sep, b.system, merged))
  }

  /**
    * When both providers answer and the live answer lists stops, the view's
    * route lists exactly the live stops, each under its global ID.
    */
  lemma RouteInfoStops(bindings: seq<Binding>, sep: string, up: Upstream, globalRouteID: string, time: Option<int>, now: int, maxDelay: int)
    requires RealID(sep, globalRouteID).Ok?
    ensures var (system, routeID) := RealID(sep, globalRouteID).value;
      var b := ModelForRoute(bindings, system, routeID, up.hasRoute);
      var live := LiveRouteInfo(b, up, routeID, time);
      var st := StaticRouteInfo(b, up, routeID, time);
      var r := RouteInfoFor(bindings, sep, up, globalRouteID, time, now, maxDelay).value;
      live != NoRouteInfo && st != NoRouteInfo && CountOf(live.stops) > 0 ==>
        r.stops.Some? && |r.stops.value.keys| == |live.stops.value.keys| &&
        forall k :: k in live.stops.value.vals ==> GlobalID(sep, system, k) in r.stops.value.vals
  {
    var (system, routeID) := RealID(sep, globalRouteID).value;
    var b := ModelForRoute(bindings, system, routeID, up.hasRoute);
    var live := LiveRouteInfo(b, up, routeID, time);
    var st := StaticRouteInfo(b, up, routeID, time);
    var merged := MergeRouteInfo(live, st, up.isSameStop, up.sortStops, false, now, maxDelay);
    assert RouteInfoFor(bindings, sep, up, globalRouteID, time, now, maxDelay) == Ok(Remap.GlobalRouteInfo(sep, system, merged));
    if live != NoRouteInfo && st != NoRouteInfo && CountOf(live.stops) > 0 {
      MergedStopKeys(live, st, up.isSameStop, up.sortStops, false, now, maxDelay);
    }
  }

  /** A binding's route list, live and static, each under global route IDs. */
  function BindingRoutes(b: Binding, sep: string, up: Upstream, time: Option<int>): Routes {
    FeedRoutes(if b.liveModel.Some? then Some(Remap.GlobalRoutes(sep, b.system, up.routes(b.liveModel.value, time))) else None,
               if b.staticModel.Some? then Some(Remap.GlobalRoutes(sep, b.system, up.routes(b.staticModel.value, time))) else None)
  }

  function PerBindingRoutes(bindings: seq<Binding>, sep: string, up: Upstream, time: Option<int>): (r: seq<Routes>)
    ensures |r| == |bindings| && forall i :: 0 <= i < |bindings| ==> r[i] == BindingRoutes(bindings[i], sep, up, time)
  {
    seq(|bindings|, i requires 0 <= i < |bindings| => BindingRoutes(bindings[i], sep, up, time))
  }

  /** `getRoutes` before caching (lines 421-469). */
  function RoutesFor(bindings: seq<Binding>, sep: string, up: Upstream, time: Option<int>): Routes {
    AllRoutes(PerBindingRoutes(bindings, sep, up, time))
  }

  /**
    * The view lists a global route ID exactly when some binding lists it,
    * with the entry of the first binding that does.
    */
  lemma RoutesFromBindings(bindings: seq<Binding>, sep: string, up: Upstream, time: Option<int>, g: Id, i: nat)
    requires i < |bindings| && g in BindingRoutes(bindings[i], sep, up, time).vals
    requires forall j :: 0 <= j < i ==> g !in BindingRoutes(bindings[j], sep, up, time).vals
    ensures g in RoutesFor(bindings, sep, up, time).vals
    ensures RoutesFor(bindings, sep, up, time).vals[g] == BindingRoutes(bindings[i], sep, up, time).vals[g]
  {
    var per := PerBindingRoutes(bindings, sep, up, time);
    assert g in per[i].vals && forall j :: 0 <= j < i ==> g !in per[j].vals;
    RouteFromFirstFeed(per, |per|, g, i);
  }

  /** A route no binding lists is not in the view. */
  lemma RoutesOnlyFromBindings(bindings: seq<Binding>, sep: string, up: Upstream, time: Option<int>, g: Id)
    requires forall j :: 0 <= j < |bindings| ==> g !in BindingRoutes(bindings[j], sep, up, time).vals
    ensures g !in RoutesFor(bindings, sep, up, time).vals
  {
    var per := PerBindingRoutes(bindings, sep, up, time);
    assert forall j :: 0 <= j < |per| ==> g !in per[j].vals;
    RouteUnlisted(per, |per|, g);
  }

  /** `getRoutePaths` (lines 373-386): the live provider's paths; the static provider's only when there is no live one. */
  function RoutePathsFor(bindings: seq<Binding>, sep: string, up: Upstream, globalRouteID: string): (r: Result<Option<Opaque>, IdError>)
    ensures r.Ok? <==> RealID(sep, globalRouteID).Ok?
    ensures r.Err? ==> r.error == InvalidGlobalID(globalRouteID)
    ensures r.Ok? ==>
      var (system, routeID) := RealID(sep, globalRouteID).value;
      var b := ModelForRoute(bindings, system, routeID, up.hasRoute);
      (b.liveModel.Some? ==> r.value == up.routePaths(b.liveModel.value, routeID)) &&
      (b.liveModel.None? && b.staticModel.Some? ==> r.value == up.routePaths(b.staticModel.value, routeID)) &&
      (b.liveModel.None? && b.staticModel.None? ==> r.value.None?)
  {
    match RealID(sep, globalRouteID)
    case Err(e) => Err(e)
    case Ok((system, routeID)) =>
      var b := ModelForRoute(bindings, system, routeID, up.hasRoute);
      if b.liveModel.Some? then Ok(up.routePaths(b.liveModel.value, routeID))
      else if b.staticModel.Some? then Ok(up.routePaths(b.staticModel.value, routeID))
      else Ok(None)
  }

  /** `getRouteVehicles` (lines 388-402): like the paths, then every vehicle under a global ID. */
  function RouteVehiclesFor(bindings: seq<Binding>, sep: string, up: Upstream, globalRouteID: string): (r: Result<Dict<Id, Vehicle>, IdError>)
    ensures r.Ok? <==> RealID(sep, globalRouteID).Ok?
    ensures r.Err? ==> r.error == InvalidGlobalID(globalRouteID)
    ensures r.Ok? ==>
      var (system, routeID) := RealID(sep, globalRouteID).value;
      var b := ModelForRoute(bindings, system, routeID, up.hasRoute);
      var answer := if b.liveModel.Some? then up.routeVehicles(b.liveModel.value, routeID)
        else if b.staticModel.Some? then up.routeVehicles(b.staticModel.value, routeID) else Empty();
      |r.value.keys| == |answer.keys| &&
      forall v :: v in answer.vals ==>
        GlobalID(sep, system, v) in r.value.vals && r.value.vals[GlobalID(sep, system, v)] == Remap.GlobalVehicle(sep, system, answer.vals[v])
  {
    match RealID(sep, globalRouteID)
    case Err(e) => Err(e)
    case Ok((system, routeID)) =>
      var b := ModelForRoute(bindings, system, routeID, up.hasRoute);
      var answer := if b.liveModel.Some? then up.routeVehicles(b.liveModel.value, routeID)
        else if b.staticModel.Some? then up.routeVehicles(b.staticModel.value, routeID) else Empty();
      var f := (v: Vehicle) => Remap.GlobalVehicle(sep, b.system, v);
      forall v | v in answer.vals ensures GlobalID(sep, system, v) in Rekey(answer, system + sep, f).vals {
        Remap.RekeyGlobalID(sep, system, answer, f, v);
      }
      Ok(Remap.GlobalVehicles(sep, b.system, answer))
  }

  /**
    * The live answer when it is set, else the static one: the fallback of
    * `getServiceInfoForRoute` and the map-image queries.
    */
  function LiveThenStatic(b: Binding, live: TransitProvider -> Option<Opaque>): (r: Option<Opaque>)
    ensures b.liveModel.Some? && live(b.liveModel.value).Some? ==> r == live(b.liveModel.value)
    ensures !(b.liveModel.Some? && live(b.liveModel.value).Some?) && b.staticModel.Some? ==> r == live(b.staticModel.value)
    ensures b.liveModel.None? && b.staticModel.None? ==> r.None?
  {
    var first := if b.liveModel.Some? then live(b.liveModel.value) else None;
    if first.None? && b.staticModel.Some? then live(b.staticModel.value) else first
  }

  /** `getServiceInfoForRoute` (lines 404-419). */
  function ServiceInfoFor(bindings: seq<Binding>, sep: string, up: Upstream, globalRouteID: string): (r: Result<Option<Opaque>, IdError>)
    ensures r.Ok? <==> RealID(sep, globalRouteID).Ok?
    ensures r.Err? ==> r.error == InvalidGlobalID(globalRouteID)
  {
    match RealID(sep, globalRouteID)
    case Err(e) => Err(e)
    case Ok((system, routeID)) =>
      var b := ModelForRoute(bindings, system, routeID, up.hasRoute);
      Ok(LiveThenStatic(b, (p: TransitProvider) => up.serviceInfo(p, routeID)))
  }

  /** `getMapImageForRoute` (lines 232-246). */
  function MapImageForRouteFor(bindings: seq<Binding>, sep: string, up: Upstream, globalRouteID: string, width: int, height: int): (r: Result<Option<Opaque>, IdError>)
    ensures r.Ok? <==> RealID(sep, globalRouteID).Ok?
    ensures r.Err? ==> r.error == InvalidGlobalID(globalRouteID)
  {
    match RealID(sep, globalRouteID)
    case Err(e) => Err(e)
    case Ok((system, routeID)) =>
      var b := ModelForRoute(bindings, system, routeID, up.hasRoute);
      Ok(LiveThenStatic(b, (p: TransitProvider) => up.mapImageForRoute(p, routeID, width, height)))
  }

  /**
    * `getMapImageForStop` (lines 216-230): asks the first binding serving
    * the stop; with none, `reset` of the empty list gives `false` and there
    * is no image.
    */
  function MapImageForStopFor(bindings: seq<Binding>, sep: string, up: Upstream, globalStopID: string, width: int, height: int): (r: Result<Option<Opaque>, IdError>)
    ensures r.Ok? <==> RealID(sep, globalStopID).Ok?
    ensures r.Err? ==> r.error == InvalidGlobalID(globalStopID)
    ensures r.Ok? && ModelsForStop(bindings, RealID(sep, globalStopID).value.0, RealID(sep, globalStopID).value.1, up.hasStop) == [] ==> r.value.None?
  {
    match RealID(sep, globalStopID)
    case Err(e) => Err(e)
    case Ok((system, stopID)) =>
      var serving := ModelsForStop(bindings, system, stopID, up.hasStop);
      if serving == [] then Ok(None)
      else Ok(LiveThenStatic(serving[0], (p: TransitProvider) => up.mapImageForStop(p, stopID, width, height)))
  }

  /**
    * A route no binding claims has no binding to ask: every per-route query
    * comes back empty.
    */
  lemma UnclaimedRoute(bindings: seq<Binding>, sep: string, up: Upstream, globalRouteID: string, time: Option<int>, now: int, maxDelay: int)
    requires RealID(sep, globalRouteID).Ok?
    requires forall i :: 0 <= i < |bindings| ==> !ClaimsRoute(bindings[i], RealID(sep, globalRouteID).value.0, RealID(sep, globalRouteID).value.1, up.hasRoute)
    ensures RouteInfoFor(bindings, sep, up, globalRouteID, time, now, maxDelay) == Ok(NoRouteInfo)
    ensures RoutePathsFor(bindings, sep, up, globalRouteID) == Ok(None)
    ensures ServiceInfoFor(bindings, sep, up, globalRouteID) == Ok(None)
    ensures RouteVehiclesFor(bindings, sep, up, globalRouteID).Ok? && RouteVehiclesFor(bindings, sep, up, globalRouteID).value.keys == []
  {
    var (system, routeID) := RealID(sep, globalRouteID).value;
    var b := ModelForRoute(bindings, system, routeID, up.hasRoute);
    assert b == Binding(system, None, None);
    assert MergeRouteInfo(NoRouteInfo, NoRouteInfo, up.isSameStop, up.sortStops, false, now, maxDelay) == NoRouteInfo;
  }
}
