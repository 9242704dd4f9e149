/**
  * Turning a provider's local IDs into global view IDs: the keys of the
  * route, stop and vehicle arrays, the IDs inside vehicles, and the stop
  * references of the schedule-mode direction structures.
  */
module Remap {
  import opened Wrappers
  import opened Dicts
  import opened Strings
  import opened GlobalIds
  import opened TransitTypes

  /** The separator shares no character with the system name or the local ID, so the global ID splits back. */
  predicate Separable(sep: string, system: string, id: string) {
    |sep| > 0 && forall c :: c in sep ==> c !in system && c !in id
  }

  /**
    * The `foreach ($a as $id => $v) { $mapped[prefix . $id] = f($v); }`
    * loop of `remapStopInfo`, `remapRouteInfo`, `remapRoutes` and
    * `remapVehicles`: builds the array key by key in the source order.
    */
  method RemapKeys<V, W>(d: Dict<string, V>, prefix: string, f: V -> W) returns (r: Dict<string, W>)
    ensures r == Rekey(d, prefix, f)
  {
    r := Empty();
    var keys := d.keys;
    for i := 0 to |keys|
      invariant r.keys == PrefixAll(prefix, keys[..i])
      invariant forall k :: k in keys[..i] ==> prefix + k in r.vals && r.vals[prefix + k] == f(d.vals[k])
    {
      RemapStep(d, prefix, r, i);
      r := Put(r, prefix + keys[i], f(d.vals[keys[i]]));
    }
    assert keys[..|keys|] == keys;
    RekeyDetermined(d, prefix, f, r);
  }

  /** One iteration of the rekey loop: the next key is new, and the prefix grows by one. */
  lemma RemapStep<V, W>(d: Dict<string, V>, prefix: string, r: Dict<string, W>, i: nat)
    requires i < |d.keys|
    requires r.keys == PrefixAll(prefix, d.keys[..i])
    ensures d.keys[i] in d.vals
    ensures prefix + d.keys[i] !in r.vals
    ensures PrefixAll(prefix, d.keys[..i + 1]) == r.keys + [prefix + d.keys[i]]
    ensures forall x :: x in d.keys[..i + 1] <==> x in d.keys[..i] || x == d.keys[i]
  {
    var k := d.keys[i];
    assert k in d.keys;
    if prefix + k in r.vals {
      var j :| 0 <= j < i && r.keys[j] == prefix + k;
      PrefixInjective(prefix, d.keys[j], k);
      DistinctAt(d.keys, j, i);
    }
    assert d.keys[..i + 1] == d.keys[..i] + [k];
  }

  /** A dictionary with the keys and values `Rekey` promises is `Rekey`'s result. */
  lemma RekeyDetermined<V, W>(d: Dict<string, V>, prefix: string, f: V -> W, r: Dict<string, W>)
    requires r.keys == PrefixAll(prefix, d.keys)
    requires forall k :: k in d.keys ==> prefix + k in r.vals && r.vals[prefix + k] == f(d.vals[k])
    ensures r == Rekey(d, prefix, f)
  {
    var spec := Rekey(d, prefix, f);
    forall g | g in r.vals ensures g in spec.vals && r.vals[g] == spec.vals[g] {
      var j :| 0 <= j < |r.keys| && r.keys[j] == g;
      assert g == prefix + d.keys[j];
    }
    assert r.vals == spec.vals;
  }

  /** Every key of a remapped array is a global ID that `getRealID` splits into the system and a key of the original. */
  lemma RekeyRoundTrip<V, W>(sep: string, system: string, d: Dict<string, V>, f: V -> W)
    requires forall k :: k in d.vals ==> Separable(sep, system, k)
    ensures var r := Rekey(d, system + sep, f);
      forall g :: g in r.vals ==>
        RealID(sep, g).Ok? && RealID(sep, g).value.0 == system && RealID(sep, g).value.1 in d.vals &&
        r.vals[g] == f(d.vals[RealID(sep, g).value.1])
  {
    var r := Rekey(d, system + sep, f);
    forall g | g in r.vals
      ensures RealID(sep, g).Ok? && RealID(sep, g).value.0 == system && RealID(sep, g).value.1 in d.vals &&
        r.vals[g] == f(d.vals[RealID(sep, g).value.1])
    {
      var k := g[|system + sep|..];
      assert g == GlobalID(sep, system, k);
      RoundTripWithoutSeparatorChars(sep, system, k);
    }
  }

  /** Every key of the original reappears under its global ID. */
  lemma RekeyGlobalID<V, W>(sep: string, system: string, d: Dict<string, V>, f: V -> W, k: string)
    requires k in d.vals
    ensures GlobalID(sep, system, k) in Rekey(d, system + sep, f).vals
    ensures Rekey(d, system + sep, f).vals[GlobalID(sep, system, k)] == f(d.vals[k])
  {
    assert GlobalID(sep, system, k) == (system + sep) + k;
  }

  function Same<V>(v: V): V { v }

  /** `remapRoutes`. */
  function GlobalRoutes(sep: string, system: string, routes: Dict<Id, RouteSummary>): Dict<Id, RouteSummary> {
    Rekey(routes, system + sep, Same)
  }

  /** `remapStopInfo`: the route keys of a stop become global; nothing else changes. */
  function GlobalStopInfo(sep: string, system: string, info: StopInfo): (r: StopInfo)
    ensures r.name == info.name
    ensures r.routes.Some? <==> info.routes.Some?
    ensures info.routes.Some? ==> forall k :: k in info.routes.value.vals ==>
      GlobalID(sep, system, k) in r.routes.value.vals && r.routes.value.vals[GlobalID(sep, system, k)] == info.routes.value.vals[k]
    ensures info.routes.Some? ==> |r.routes.value.keys| == |info.routes.value.keys|
  {
    match info.routes
    case None => info
    case Some(routes) =>
      forall k | k in routes.vals ensures GlobalID(sep, system, k) in Rekey(routes, system + sep, Same).vals {
        RekeyGlobalID(sep, system, routes, Same, k);
      }
      info.(routes := Some(Rekey(routes, system + sep, Same)))
  }

  /** A vehicle's route and next stop, when set, become global IDs. */
  function GlobalVehicle(sep: string, system: string, v: Vehicle): (r: Vehicle)
    ensures r.routeID == if v.routeID.Some? then Some(GlobalID(sep, system, v.routeID.value)) else None
    ensures r.nextStop == if v.nextStop.Some? then Some(GlobalID(sep, system, v.nextStop.value)) else None
    ensures v.routeID.Some? && Separable(sep, system, v.routeID.value) ==> RealID(sep, r.routeID.value) == Ok((system, v.routeID.value))
    ensures v.nextStop.Some? && Separable(sep, system, v.nextStop.value) ==> RealID(sep, r.nextStop.value) == Ok((system, v.nextStop.value))
  {
    var routeID := match v.routeID
      case None => None
      case Some(id) => Some(GlobalID(sep, system, id));
    var nextStop := match v.nextStop
      case None => None
      case Some(id) => Some(GlobalID(sep, system, id));
    assert v.routeID.Some? && Separable(sep, system, v.routeID.value) ==> RealID(sep, routeID.value) == Ok((system, v.routeID.value)) by {
      if v.routeID.Some? && Separable(sep, system, v.routeID.value) {
        RoundTripWithoutSeparatorChars(sep, system, v.routeID.value);
      }
    }
    assert v.nextStop.Some? && Separable(sep, system, v.nextStop.value) ==> RealID(sep, nextStop.value) == Ok((system, v.nextStop.value)) by {
      if v.nextStop.Some? && Separable(sep, system, v.nextStop.value) {
        RoundTripWithoutSeparatorChars(sep, system, v.nextStop.value);
      }
    }
    Vehicle(routeID, nextStop)
  }

  /** `remapVehicles`: global vehicle IDs, and global IDs inside each vehicle. */
  function GlobalVehicles(sep: string, system: string, vehicles: Dict<Id, Vehicle>): Dict<Id, Vehicle> {
    Rekey(vehicles, system + sep, (v: Vehicle) => GlobalVehicle(sep, system, v))
  }

  /** The stop references of a segment or a direction, each with a global ID. */
  function GlobalRefs(sep: string, system: string, refs: seq<StopRef>): (r: seq<StopRef>)
    ensures |r| == |refs|
    ensures forall j :: 0 <= j < |refs| ==> r[j].id == GlobalID(sep, system, refs[j].id)
  {
    seq(|refs|, j requires 0 <= j < |refs| => StopRef(GlobalID(sep, system, refs[j].id)))
  }

  function GlobalDirection(sep: string, system: string, d: Direction): Direction {
    Direction(seq(|d.segments|, i requires 0 <= i < |d.segments| => Segment(GlobalRefs(sep, system, d.segments[i].stops))),
              GlobalRefs(sep, system, d.stops))
  }

  /** The schedule-mode structures of `remapRouteInfo`: same shape, every stop reference global. */
  function GlobalDirections(sep: string, system: string, ds: seq<Direction>): (r: seq<Direction>)
    ensures |r| == |ds|
    ensures forall d :: 0 <= d < |ds| ==>
      |r[d].segments| == |ds[d].segments| && |r[d].stops| == |ds[d].stops| &&
      (forall i :: 0 <= i < |ds[d].segments| ==> |r[d].segments[i].stops| == |ds[d].segments[i].stops|)
    ensures forall d, i, j :: 0 <= d < |ds| && 0 <= i < |ds[d].segments| && 0 <= j < |ds[d].segments[i].stops| ==>
      r[d].segments[i].stops[j].id == GlobalID(sep, system, ds[d].segments[i].stops[j].id)
    ensures forall d, j :: 0 <= d < |ds| && 0 <= j < |ds[d].stops| ==>
      r[d].stops[j].id == GlobalID(sep, system, ds[d].stops[j].id)
  {
    seq(|ds|, d requires 0 <= d < |ds| => GlobalDirection(sep, system, ds[d]))
  }

  /** `remapRouteInfo`: global stop keys and global stop references; nothing else changes. */
  function GlobalRouteInfo(sep: string, system: string, info: RouteInfo): (r: RouteInfo)
    ensures r.(stops := info.stops, directions := info.directions) == info
    ensures r.stops.Some? <==> info.stops.Some?
    ensures info.stops.Some? ==> forall k :: k in info.stops.value.vals ==>
      GlobalID(sep, system, k) in r.stops.value.vals && r.stops.value.vals[GlobalID(sep, system, k)] == info.stops.value.vals[k]
    ensures info.stops.Some? ==> |r.stops.value.keys| == |info.stops.value.keys|
    ensures r.directions == if info.directions.Some? then Some(GlobalDirections(sep, system, info.directions.value)) else None
  {
    var stops := match info.stops
      case None => None
      case Some(s) =>
        forall k | k in s.vals ensures GlobalID(sep, system, k) in Rekey(s, system + sep, Same).vals {
          RekeyGlobalID(sep, system, s, Same, k);
        }
        Some(Rekey(s, system + sep, Same));
    var directions := match info.directions
      case None => None
      case Some(ds) => Some(GlobalDirections(sep, system, ds));
    info.(stops := stops, directions := directions)
  }

  /** The innermost loops of `remapRouteInfo`, rewriting each reference's `id` in place. */
  method RemapRefs(sep: string, system: string, refs: seq<StopRef>) returns (r: seq<StopRef>)
    ensures r == GlobalRefs(sep, system, refs)
  {
    r := refs;
    for j := 0 to |r|
      invariant |r| == |refs|
      invariant forall e :: 0 <= e < j ==> r[e] == StopRef(GlobalID(sep, system, refs[e].id))
      invariant forall e :: j <= e < |r| ==> r[e] == refs[e]
    {
      r := r[j := r[j].(id := GlobalID(sep, system, r[j].id))];
    }
  }

  /** The direction loop of `remapRouteInfo`. */
  method RemapDirections(sep: string, system: string, ds: seq<Direction>) returns (r: seq<Direction>)
    ensures r == GlobalDirections(sep, system, ds)
  {
    r := ds;
    for d := 0 to |r|
      invariant |r| == |ds|
      invariant forall e :: 0 <= e < d ==> r[e] == GlobalDirection(sep, system, ds[e])
      invariant forall e :: d <= e < |r| ==> r[e] == ds[e]
    {
      var direction := r[d];
      var segments := direction.segments;
      for i := 0 to |segments|
        invariant |segments| == |direction.segments|
        invariant forall e :: 0 <= e < i ==> segments[e] == Segment(GlobalRefs(sep, system, direction.segments[e].stops))
        invariant forall e :: i <= e < |segments| ==> segments[e] == direction.segments[e]
      {
        var stops := RemapRefs(sep, system, segments[i].stops);
        segments := segments[i := segments[i].(stops := stops)];
      }
      var stops := RemapRefs(sep, system, direction.stops);
      r := r[d := Direction(segments, stops)];
    }
  }

  /**
    * Every stop key of the remapped route is a global ID that `getRealID`
    * splits into the system and a stop of the provider's answer.
    */
  lemma RouteStopsRoundTrip(sep: string, system: string, info: RouteInfo)
    requires info.stops.Some? && forall k :: k in info.stops.value.vals ==> Separable(sep, system, k)
    ensures var r := GlobalRouteInfo(sep, system, info);
      forall g :: g in r.stops.value.vals ==>
        RealID(sep, g).Ok? && RealID(sep, g).value.0 == system && RealID(sep, g).value.1 in info.stops.value.vals &&
        r.stops.value.vals[g] == info.stops.value.vals[RealID(sep, g).value.1]
  {
    RekeyRoundTrip(sep, system, info.stops.value, Same);
  }

  /** Every stop reference of the remapped directions splits back into the system and the original ID. */
  lemma DirectionsRoundTrip(sep: string, system: string, ds: seq<Direction>, d: nat, i: nat, j: nat)
    requires d < |ds| && i < |ds[d].segments| && j < |ds[d].segments[i].stops|
    requires Separable(sep, system, ds[d].segments[i].stops[j].id)
    ensures RealID(sep, GlobalDirections(sep, system, ds)[d].segments[i].stops[j].id) == Ok((system, ds[d].segments[i].stops[j].id))
  {
    RoundTripWithoutSeparatorChars(sep, system, ds[d].segments[i].stops[j].id);
  }
}
