/**
  * The values the transit view passes around: what a provider answers for a
  * stop, a route or the route list, the feed bindings, and the providers
  * themselves. A key that may be unset is an `Option` field; an answer with
  * every key unset stands for the empty array (or `false`), which PHP treats
  * as false.
  */
module TransitTypes {
  import opened Wrappers
  import opened Dicts
  import opened ConfigSpec

  /** A provider-local or global route, stop or vehicle ID. */
  type Id = string

  // The answer records below hold only the keys the view reads or writes;
  // any other key of a provider's answer is not modelled.

  /** Times for one stop on one route (`getStopInfoForRoute`). */
  datatype StopTimes = StopTimes(arrives: Option<int>, predictions: Option<seq<int>>)

  /** One route serving a stop (an entry of `getStopInfo`'s `routes`). */
  datatype RouteAtStop = RouteAtStop(name: Option<string>, arrives: Option<int>, predictions: Option<seq<int>>)

  /** `getStopInfo`: the stop's name and the routes serving it, by route ID. */
  datatype StopInfo = StopInfo(name: Option<string>, routes: Option<Dict<Id, RouteAtStop>>)

  /** One stop of a route (an entry of `getRouteInfo`'s `stops`). */
  datatype StopOnRoute = StopOnRoute(
    name: Option<string>,
    arrives: Option<int>,
    hasTiming: bool,
    predictions: Option<seq<int>>,
    upcoming: Option<bool>)

  /** A stop reference inside the schedule-mode structures. */
  datatype StopRef = StopRef(id: Id)

  datatype Segment = Segment(stops: seq<StopRef>)

  datatype Direction = Direction(segments: seq<Segment>, stops: seq<StopRef>)

  /** `getRouteInfo`. */
  datatype RouteInfo = RouteInfo(
    name: Option<string>,
    description: Option<string>,
    frequency: Option<int>,
    live: Option<bool>,
    stops: Option<Dict<Id, StopOnRoute>>,
    directions: Option<seq<Direction>>,
    lastupdate: Option<int>)

  /** One entry of `getRoutes`. */
  datatype RouteSummary = RouteSummary(name: Option<string>, description: Option<string>, frequency: Option<int>, running: bool)

  /** One entry of `getRouteVehicles`. */
  datatype Vehicle = Vehicle(routeID: Option<Id>, nextStop: Option<Id>)

  /** A value the view passes through untouched (paths, images, service info). */
  datatype Opaque = Opaque(payload: string)

  /** The empty answers: `array()` or `false`. */
  const NoStopTimes := StopTimes(None, None)
  const NoStopInfo := StopInfo(None, None)
  const NoRouteInfo := RouteInfo(None, None, None, None, None, None, None)

  /** `count($a)` of an optional array: zero when unset. */
  function CountOf<V>(d: Option<Dict<Id, V>>): nat {
    match d
    case None => 0
    case Some(m) => |m.keys|
  }

  /** PHP's `$a < $b` where `$b` is set and `$a` may be null: null compares as `false` against a boolean-cast `$b`. */
  predicate LooseLess(a: Option<int>, b: int) {
    match a
    case None => b != 0
    case Some(x) => x < b
  }

  /** PHP's `$a <= $b` where either may be null. */
  predicate LooseAtMost(a: Option<int>, b: Option<int>) {
    match (a, b)
    case (None, _) => true
    case (Some(x), None) => x == 0
    case (Some(x), Some(y)) => x <= y
  }

  /**
    * A provider built by the data-model factory from a configured class, its
    * arguments, its field overrides and the daemon flag. `arguments` holds
    * the configured arguments as they were before `init` writes the
    * `FIELD_OVERRIDES` and `DAEMON_MODE` keys into the array it passes; those
    * two values are kept in `overrides` and `daemonMode`.
    */
  class TransitProvider {
    const cls: string
    const arguments: FieldMap
    const overrides: Overrides
    const daemonMode: bool

    constructor (cls: string, arguments: FieldMap, overrides: Overrides, daemonMode: bool)
      ensures this.cls == cls && this.arguments == arguments && this.overrides == overrides && this.daemonMode == daemonMode
    {
      this.cls := cls;
      this.arguments := arguments;
      this.overrides := overrides;
      this.daemonMode := daemonMode;
    }
  }

  /** One feed as the view holds it: its system and the providers it has (PHP `false` when absent). */
  datatype Binding = Binding(system: string, liveModel: Option<TransitProvider>, staticModel: Option<TransitProvider>)

  /** Whether a provider was built from a configured provider description. */
  predicate ProviderMatches(p: Option<TransitProvider>, c: Option<ParserConf>, daemonMode: bool) {
    match (p, c)
    case (None, None) => true
    case (Some(q), Some(d)) => q.cls == d.cls && q.arguments == d.arguments && q.overrides == d.overrides && q.daemonMode == daemonMode
    case _ => false
  }

  /**
    * The answers of the providers, which are outside this model: each query
    * of a provider, and the two static helpers `isSameStop` and `sortStops`
    * of the provider base class, about which nothing is assumed. A stop ID
    * given to `isSameStop` is absent where PHP passes `false` (the first or
    * last key of an empty array).
    */
  datatype Upstream = Upstream(
    hasRoute: (TransitProvider, Id) -> bool,
    hasStop: (TransitProvider, Id) -> bool,
    stopInfoForRoute: (TransitProvider, Id, Id) -> StopTimes,
    stopInfo: (TransitProvider, Id) -> StopInfo,
    routeInfo: (TransitProvider, Id, Option<int>) -> RouteInfo,
    routes: (TransitProvider, Option<int>) -> Dict<Id, RouteSummary>,
    routePaths: (TransitProvider, Id) -> Option<Opaque>,
    routeVehicles: (TransitProvider, Id) -> Dict<Id, Vehicle>,
    serviceInfo: (TransitProvider, Id) -> Option<Opaque>,
    mapImageForStop: (TransitProvider, Id, int, int) -> Option<Opaque>,
    mapImageForRoute: (TransitProvider, Id, int, int) -> Option<Opaque>,
    isSameStop: (Option<Id>, Option<Id>) -> bool,
    sortStops: (StopOnRoute, StopOnRoute) -> int)
}
