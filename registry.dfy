/**
  * Which feed binding answers for a route or a stop. The bindings are
  * searched in configuration order; a binding of another system is skipped.
  */
module Registry {
  import opened Wrappers
  import opened TransitTypes

  /** A binding claims a route when it has the system and one of its providers has the route. */
  predicate ClaimsRoute(b: Binding, system: string, routeID: Id, hasRoute: (TransitProvider, Id) -> bool) {
    b.system == system &&
    ((b.liveModel.Some? && hasRoute(b.liveModel.value, routeID)) || (b.staticModel.Some? && hasRoute(b.staticModel.value, routeID)))
  }

  /** A binding claims a stop in the same way, through `hasStop`. */
  predicate ClaimsStop(b: Binding, system: string, stopID: Id, hasStop: (TransitProvider, Id) -> bool) {
    b.system == system &&
    ((b.liveModel.Some? && hasStop(b.liveModel.value, stopID)) || (b.staticModel.Some? && hasStop(b.staticModel.value, stopID)))
  }

  /**
    * `modelForRoute`: the first binding that claims the route, or a binding
    * of the requested system with no providers when none does.
    */
  function ModelForRoute(bindings: seq<Binding>, system: string, routeID: Id, hasRoute: (TransitProvider, Id) -> bool): (r: Binding)
    ensures r.system == system
    ensures (forall i :: 0 <= i < |bindings| ==> !ClaimsRoute(bindings[i], system, routeID, hasRoute)) ==> r == Binding(system, None, None)
    ensures (exists i :: 0 <= i < |bindings| && ClaimsRoute(bindings[i], system, routeID, hasRoute)) ==>
      exists i :: 0 <= i < |bindings| && r == bindings[i] && ClaimsRoute(r, system, routeID, hasRoute) &&
        (forall j :: 0 <= j < i ==> !ClaimsRoute(bindings[j], system, routeID, hasRoute))
  {
    if bindings == [] then Binding(system, None, None)
    else if ClaimsRoute(bindings[0], system, routeID, hasRoute) then bindings[0]
    else
      var tail := bindings[1..];
      var r := ModelForRoute(tail, system, routeID, hasRoute);
      assert forall i :: 0 < i < |bindings| ==> bindings[i] == tail[i - 1];
      assert (exists i :: 0 <= i < |bindings| && ClaimsRoute(bindings[i], system, routeID, hasRoute)) ==>
          exists i :: 0 <= i < |bindings| && r == bindings[i] && ClaimsRoute(r, system, routeID, hasRoute) &&
            (forall j :: 0 <= j < i ==> !ClaimsRoute(bindings[j], system, routeID, hasRoute)) by {
        if exists i :: 0 <= i < |bindings| && ClaimsRoute(bindings[i], system, routeID, hasRoute) {
          var k :| 0 <= k < |bindings| && ClaimsRoute(bindings[k], system, routeID, hasRoute);
          assert ClaimsRoute(tail[k - 1], system, routeID, hasRoute);
          var i :| 0 <= i < |tail| && r == tail[i] && ClaimsRoute(r, system, routeID, hasRoute) &&
            (forall j :: 0 <= j < i ==> !ClaimsRoute(tail[j], system, routeID, hasRoute));
          assert r == bindings[i + 1];
        }
      }
      r
  }

  /** `modelsForStop`: every binding that claims the stop, in configuration order. */
  function ModelsForStop(bindings: seq<Binding>, system: string, stopID: Id, hasStop: (TransitProvider, Id) -> bool): (r: seq<Binding>)
    ensures forall i :: 0 <= i < |r| ==> r[i] in bindings && ClaimsStop(r[i], system, stopID, hasStop)
    ensures forall i :: 0 <= i < |bindings| && ClaimsStop(bindings[i], system, stopID, hasStop) ==> bindings[i] in r
    ensures |r| <= |bindings|
  {
    if bindings == [] then []
    else
      var rest := ModelsForStop(bindings[1..], system, stopID, hasStop);
      assert forall i :: 0 < i < |bindings| ==> bindings[i] == bindings[1..][i - 1];
      if ClaimsStop(bindings[0], system, stopID, hasStop) then [bindings[0]] + rest else rest
  }

  /** The first binding listed is the first one in configuration order that claims the stop. */
  lemma {:induction false} ModelsForStopFirst(bindings: seq<Binding>, system: string, stopID: Id, hasStop: (TransitProvider, Id) -> bool)
    ensures var r := ModelsForStop(bindings, system, stopID, hasStop);
      r != [] ==>
        exists i :: 0 <= i < |bindings| && r[0] == bindings[i] &&
          (forall j :: 0 <= j < i ==> !ClaimsStop(bindings[j], system, stopID, hasStop))
  {
    if bindings != [] && !ClaimsStop(bindings[0], system, stopID, hasStop) {
      var tail := bindings[1..];
      var rest := ModelsForStop(tail, system, stopID, hasStop);
      ModelsForStopFirst(tail, system, stopID, hasStop);
      if rest != [] {
        var i :| 0 <= i < |tail| && rest[0] == tail[i] &&
          (forall j :: 0 <= j < i ==> !ClaimsStop(tail[j], system, stopID, hasStop));
        assert rest[0] == bindings[i + 1];
        assert forall j :: 0 < j < i + 1 ==> bindings[j] == tail[j - 1];
      }
    } else if bindings != [] {
      assert ModelsForStop(bindings, system, stopID, hasStop)[0] == bindings[0];
    }
  }

  /**
    * The filter keeps order and multiplicity: the bindings of a
    * concatenation are those of each part, one after the other, and a
    * single binding is kept exactly when it claims the stop.
    */
  lemma {:induction false} ModelsForStopAppend(a: seq<Binding>, b: seq<Binding>, system: string, stopID: Id, hasStop: (TransitProvider, Id) -> bool)
    ensures ModelsForStop(a + b, system, stopID, hasStop) == ModelsForStop(a, system, stopID, hasStop) + ModelsForStop(b, system, stopID, hasStop)
    ensures |a| == 1 ==> ModelsForStop(a, system, stopID, hasStop) == if ClaimsStop(a[0], system, stopID, hasStop) then a else []
  {
    if a != [] {
      assert (a + b)[0] == a[0] && (a + b)[1..] == a[1..] + b;
      ModelsForStopAppend(a[1..], b, system, stopID, hasStop);
      var rest := ModelsForStop(a[1..], system, stopID, hasStop);
      var tail := ModelsForStop(b, system, stopID, hasStop);
      if ClaimsStop(a[0], system, stopID, hasStop) {
        assert ModelsForStop(a + b, system, stopID, hasStop) == [a[0]] + (rest + tail);
        assert ModelsForStop(a, system, stopID, hasStop) == [a[0]] + rest;
      } else {
        assert ModelsForStop(a + b, system, stopID, hasStop) == rest + tail;
      }
    } else {
      assert a + b == b;
    }
    if |a| == 1 {
      assert a[1..] == [];
    }
  }

  /**
    * `modelForRoute` returns a binding that claims the route exactly when
    * one does; otherwise the empty binding has no provider to ask.
    */
  lemma ModelForRouteClaims(bindings: seq<Binding>, system: string, routeID: Id, hasRoute: (TransitProvider, Id) -> bool)
    ensures var r := ModelForRoute(bindings, system, routeID, hasRoute);
      ClaimsRoute(r, system, routeID, hasRoute) <==> exists i :: 0 <= i < |bindings| && ClaimsRoute(bindings[i], system, routeID, hasRoute)
    ensures var r := ModelForRoute(bindings, system, routeID, hasRoute);
      !ClaimsRoute(r, system, routeID, hasRoute) ==> r.liveModel.None? && r.staticModel.None?
  {
    var r := ModelForRoute(bindings, system, routeID, hasRoute);
    if !exists i :: 0 <= i < |bindings| && ClaimsRoute(bindings[i], system, routeID, hasRoute) {
      assert r == Binding(system, None, None);
    }
  }
}
