/**
  * How the view combines the route lists of the feeds (`getRoutes`): in each
  * feed the live list refreshed from the static one, with static-only routes
  * pulled in; across feeds, the first feed to list a route wins.
  */
module RoutesMerge {
  import opened Wrappers
  import opened Dicts
  import opened TransitTypes

  type Routes = Dict<Id, RouteSummary>

  /**
    * A live route the static list also has: replaced by the static entry when
    * not running; when running, it takes the static name and description, and
    * the static frequency unless that is 0 or unset.
    */
  function RefreshedRoute(live: RouteSummary, staticRoute: RouteSummary): (r: RouteSummary)
    ensures !live.running ==> r == staticRoute
    ensures live.running ==> r.running && r.name == staticRoute.name && r.description == staticRoute.description
    ensures live.running ==> r.frequency == if staticRoute.frequency.Some? && staticRoute.frequency.value != 0 then staticRoute.frequency else live.frequency
  {
    if !live.running then staticRoute
    else
      var named := live.(name := staticRoute.name, description := staticRoute.description);
      if staticRoute.frequency.Some? && staticRoute.frequency.value != 0 then named.(frequency := staticRoute.frequency) else named
  }

  /** Lines 438-452: each live route the static list has, refreshed; the order is the live one. */
  function Refreshed(routes: Routes, staticRoutes: Routes): (r: Routes)
    ensures r.keys == routes.keys && r.vals.Keys == routes.vals.Keys
    ensures forall k :: k in r.vals ==> r.vals[k] == if k in staticRoutes.vals then RefreshedRoute(routes.vals[k], staticRoutes.vals[k]) else routes.vals[k]
  {
    RawDict(routes.keys, map k | k in routes.vals :: if k in staticRoutes.vals then RefreshedRoute(routes.vals[k], staticRoutes.vals[k]) else routes.vals[k])
  }

  /**
    * One feed's routes from its live and static lists: the static list when
    * the live one is empty; otherwise the live routes refreshed, followed by
    * the static-only routes.
    */
  function CombineRoutes(live: Routes, staticRoutes: Routes): Routes {
    if |live.keys| == 0 then staticRoutes
    else AddMissing(Refreshed(live, staticRoutes), staticRoutes)
  }

  /**
    * A feed lists every route either of its lists has, and no other; a
    * route only the live list has keeps its live entry, a route only the
    * static list has its static entry, and a route both have is refreshed.
    */
  lemma CombinedRoutes(live: Routes, staticRoutes: Routes)
    ensures var r := CombineRoutes(live, staticRoutes);
      (forall k :: k in r.vals <==> k in live.vals || k in staticRoutes.vals) &&
      (forall k :: k in live.vals && k !in staticRoutes.vals ==> r.vals[k] == live.vals[k]) &&
      (forall k :: k !in live.vals && k in staticRoutes.vals ==> r.vals[k] == staticRoutes.vals[k]) &&
      (forall k :: k in live.vals && k in staticRoutes.vals ==> r.vals[k] == RefreshedRoute(live.vals[k], staticRoutes.vals[k]))
  {
    if |live.keys| == 0 {
      assert forall k :: k !in live.vals;
    }
  }

  /** With live routes, the live routes come first in their order, then the static-only ones in theirs. */
  lemma CombinedRouteOrder(live: Routes, staticRoutes: Routes)
    requires |live.keys| > 0
    ensures CombineRoutes(live, staticRoutes).keys == live.keys + FilterIn(staticRoutes.keys, staticRoutes.vals.Keys - live.vals.Keys)
  {
    assert Refreshed(live, staticRoutes).vals.Keys == live.vals.Keys;
  }

  /** A route the live list shows as not running reads exactly as the static list has it. */
  lemma StoppedRouteIsStatic(live: Routes, staticRoutes: Routes, k: Id)
    requires k in live.vals && !live.vals[k].running && k in staticRoutes.vals
    ensures k in CombineRoutes(live, staticRoutes).vals && CombineRoutes(live, staticRoutes).vals[k] == staticRoutes.vals[k]
  {
    CombinedRoutes(live, staticRoutes);
  }

  /** A feed's routes from the lists of the providers it has (`None`: no such provider). */
  function FeedRoutes(live: Option<Routes>, staticRoutes: Option<Routes>): (r: Routes)
    ensures staticRoutes.None? ==> r == live.GetOr(Empty())
    ensures staticRoutes.Some? ==> r == CombineRoutes(live.GetOr(Empty()), staticRoutes.value)
  {
    match staticRoutes
    case None => live.GetOr(Empty())
    case Some(st) => CombineRoutes(live.GetOr(Empty()), st)
  }

  /** `$allRoutes += $routes` over the feeds in configuration order. */
  function AllRoutes(perFeed: seq<Routes>): Routes {
    RoutesUpTo(perFeed, |perFeed|)
  }

  /** `$allRoutes` after the first `n` feeds. */
  function RoutesUpTo(perFeed: seq<Routes>, n: nat): Routes
    requires n <= |perFeed|
  {
    if n == 0 then Empty() else AddMissing(RoutesUpTo(perFeed, n - 1), perFeed[n - 1])
  }

  /** One more feed: its routes are added to those of the feeds before it. */
  lemma RoutesUpToNext(perFeed: seq<Routes>, i: nat)
    requires i < |perFeed|
    ensures RoutesUpTo(perFeed, i + 1) == AddMissing(RoutesUpTo(perFeed, i), perFeed[i])
  {
  }

  /**
    * The view lists a route exactly when some feed does, with the entry of
    * the first feed that lists it.
    */
  lemma AllRoutesFirstFeedWins(perFeed: seq<Routes>)
    ensures forall k :: k in AllRoutes(perFeed).vals <==> exists i :: 0 <= i < |perFeed| && k in perFeed[i].vals
    ensures forall k, i :: 0 <= i < |perFeed| && k in perFeed[i].vals && (forall j :: 0 <= j < i ==> k !in perFeed[j].vals) ==>
      k in AllRoutes(perFeed).vals && AllRoutes(perFeed).vals[k] == perFeed[i].vals[k]
  {
    forall k ensures k in AllRoutes(perFeed).vals <==> exists i :: 0 <= i < |perFeed| && k in perFeed[i].vals {
      RouteListedByAFeed(perFeed, |perFeed|, k);
      if exists i :: 0 <= i < |perFeed| && k in perFeed[i].vals {
        var i :| 0 <= i < |perFeed| && k in perFeed[i].vals;
        RouteKept(perFeed, |perFeed|, k, i);
      }
    }
    forall k, i | 0 <= i < |perFeed| && k in perFeed[i].vals && (forall j :: 0 <= j < i ==> k !in perFeed[j].vals)
      ensures k in AllRoutes(perFeed).vals && AllRoutes(perFeed).vals[k] == perFeed[i].vals[k]
    {
      RouteFromFirstFeed(perFeed, |perFeed|, k, i);
    }
  }

  /** After `n` feeds every listed route comes from one of them. */
  lemma {:induction false} RouteListedByAFeed(perFeed: seq<Routes>, n: nat, k: Id)
    requires n <= |perFeed|
    ensures k in RoutesUpTo(perFeed, n).vals ==> exists i :: 0 <= i < n && k in perFeed[i].vals
  {
    if n > 0 {
      var m := n - 1;
      RouteListedByAFeed(perFeed, m, k);
      assert RoutesUpTo(perFeed, n) == AddMissing(RoutesUpTo(perFeed, m), perFeed[m]);
    }
  }

  /** After `n` feeds every route one of them lists is listed. */
  lemma {:induction false} RouteKept(perFeed: seq<Routes>, n: nat, k: Id, i: nat)
    requires i < n <= |perFeed| && k in perFeed[i].vals
    ensures k in RoutesUpTo(perFeed, n).vals
  {
    var m := n - 1;
    assert RoutesUpTo(perFeed, n) == AddMissing(RoutesUpTo(perFeed, m), perFeed[m]);
    if i < m {
      RouteKept(perFeed, m, k, i);
    }
  }

  /** After `n` feeds a route has the entry of the first of them that lists it. */
  lemma {:induction false} RouteFromFirstFeed(perFeed: seq<Routes>, n: nat, k: Id, i: nat)
    requires i < n <= |perFeed| && k in perFeed[i].vals
    requires forall j :: 0 <= j < i ==> k !in perFeed[j].vals
    ensures k in RoutesUpTo(perFeed, n).vals && RoutesUpTo(perFeed, n).vals[k] == perFeed[i].vals[k]
  {
    var m := n - 1;
    assert RoutesUpTo(perFeed, n) == AddMissing(RoutesUpTo(perFeed, m), perFeed[m]);
    if i < m {
      RouteFromFirstFeed(perFeed, m, k, i);
    } else {
      RouteUnlisted(perFeed, m, k);
    }
  }

  /** A route none of the first `n` feeds lists is not listed after them. */
  lemma {:induction false} RouteUnlisted(perFeed: seq<Routes>, n: nat, k: Id)
    requires n <= |perFeed|
    requires forall j :: 0 <= j < n ==> k !in perFeed[j].vals
    ensures k !in RoutesUpTo(perFeed, n).vals
  {
    if n > 0 {
      var m := n - 1;
      RouteUnlisted(perFeed, m, k);
      assert k !in perFeed[m].vals;
      assert RoutesUpTo(perFeed, n) == AddMissing(RoutesUpTo(perFeed, m), perFeed[m]);
    }
  }

  //
  // The loops of getRoutes, as the source runs them
  //

  /** Lines 438-452: the refresh loop over the live routes. */
  method RefreshRoutes(routes: Routes, staticRoutes: Routes) returns (r: Routes)
    ensures r == Refreshed(routes, staticRoutes)
  {
    r := routes;
    var ids := routes.keys;
    for i := 0 to |ids|
      invariant r.keys == ids
      invariant forall p :: 0 <= p < i ==> r.vals[ids[p]] == Refreshed(routes, staticRoutes).vals[ids[p]]
      invariant forall p :: i <= p < |ids| ==> r.vals[ids[p]] == routes.vals[ids[p]]
    {
      var routeID := ids[i];
      forall p | 0 <= p < |ids| && p != i ensures ids[p] != routeID {
        DistinctAt(ids, p, i);
      }
      if routeID in staticRoutes.vals {
        var routeInfo := r.vals[routeID];
        if !routeInfo.running {
          r := Put(r, routeID, staticRoutes.vals[routeID]);
        } else {
          routeInfo := routeInfo.(name := staticRoutes.vals[routeID].name, description := staticRoutes.vals[routeID].description);
          var frequency := staticRoutes.vals[routeID].frequency;
          if frequency.Some? && frequency.value != 0 {
            routeInfo := routeInfo.(frequency := frequency);
          }
          r := Put(r, routeID, routeInfo);
        }
      }
    }
    assert forall k :: k in r.vals ==> exists p :: 0 <= p < |ids| && ids[p] == k;
  }

  /** Lines 454-458: static routes with no live entry appended, which is `$routes += $staticRoutes`. */
  method PullInStaticRoutes(routes: Routes, staticRoutes: Routes) returns (r: Routes)
    ensures r == AddMissing(routes, staticRoutes)
  {
    r := routes;
    var ids := staticRoutes.keys;
    for i := 0 to |ids|
      invariant r == AddEach(routes, staticRoutes, ids[..i])
    {
      var routeID := ids[i];
      AddEachNext(routes, staticRoutes, i);
      if routeID !in r.vals {
        r := Put(r, routeID, staticRoutes.vals[routeID]);
      }
    }
    assert ids[..|ids|] == ids;
    AddEachIsAddMissing(routes, staticRoutes);
  }

  /** Lines 434-459 for one feed that has a static provider. */
  method CombineFeedRoutes(routes: Routes, staticRoutes: Routes) returns (r: Routes)
    ensures r == CombineRoutes(routes, staticRoutes)
  {
    if |routes.keys| == 0 {
      r := staticRoutes;
    } else {
      r := RefreshRoutes(routes, staticRoutes);
      r := PullInStaticRoutes(r, staticRoutes);
    }
  }
}
