/**
  * How the view combines the live and the static answer about one route
  * (`getRouteInfo`): the route's fields, its stops annotated from the
  * static schedule and rotated to start at the static first stop, and the
  * `upcoming` flag of each stop.
  */
module RouteMerge {
  import opened Wrappers
  import opened Dicts
  import opened Strings
  import opened TransitTypes

  type Stops = Dict<Id, StopOnRoute>
  type SameStop = (Option<Id>, Option<Id>) -> bool
  type StopOrder = (StopOnRoute, StopOnRoute) -> int

  //
  // Annotating live stops from the static stops (lines 290-316)
  //

  /**
    * The static stop a live stop corresponds to: the same ID, or else the
    * part of the ID before its first underscore (some feeds add suffixes
    * such as `_ar`); none when neither is a static stop.
    */
  function StaticStopID(stopID: Id, staticStops: Option<Stops>): (r: Option<Id>)
    ensures r.Some? ==> staticStops.Some? && r.value in staticStops.value.vals
    ensures r.Some? ==> r.value == stopID || r.value == BeforeUnderscore(stopID)
    ensures staticStops.Some? && stopID in staticStops.value.vals ==> r == Some(stopID)
    ensures r.None? <==> staticStops.None? || (stopID !in staticStops.value.vals && BeforeUnderscore(stopID) !in staticStops.value.vals)
  {
    match staticStops
    case None => None
    case Some(ss) =>
      if stopID in ss.vals then Some(stopID)
      else if BeforeUnderscore(stopID) in ss.vals then Some(BeforeUnderscore(stopID))
      else None
  }

  /** A suffixed live ID such as `1234_ar` finds the static stop `1234`. */
  lemma SuffixedStopID(base: Id, suffix: Id, staticStops: Stops)
    requires '_' !in base
    requires base in staticStops.vals && base + "_" + suffix !in staticStops.vals
    ensures StaticStopID(base + "_" + suffix, Some(staticStops)) == Some(base)
  {
    assert base + "_" + suffix == base + ['_'] + suffix;
    ExplodeHead('_', base, suffix);
  }

  /**
    * A live stop with the static stop's name; and, when the live stop has no
    * timing and the static one has, the static arrival and predictions.
    */
  function Annotate(stop: StopOnRoute, staticStop: StopOnRoute): (r: StopOnRoute)
    ensures r.name == staticStop.name && r.hasTiming == stop.hasTiming && r.upcoming == stop.upcoming
    ensures !stop.hasTiming && staticStop.hasTiming ==> r.arrives == staticStop.arrives && r.predictions == staticStop.predictions
    ensures !(!stop.hasTiming && staticStop.hasTiming) ==> r.arrives == stop.arrives && r.predictions == stop.predictions
  {
    var named := stop.(name := staticStop.name);
    if !stop.hasTiming && staticStop.hasTiming then named.(arrives := staticStop.arrives, predictions := staticStop.predictions)
    else named
  }

  /** Live stop `k` after annotation (unchanged when no static stop corresponds). */
  function AnnotatedStop(live: Stops, staticStops: Option<Stops>, k: Id): StopOnRoute
    requires k in live.vals
  {
    match StaticStopID(k, staticStops)
    case None => live.vals[k]
    case Some(sid) => Annotate(live.vals[k], staticStops.value.vals[sid])
  }

  /** The static stop of each live stop that has one. */
  type Matches = map<Id, StopOnRoute>

  function StaticMatches(live: Stops, staticStops: Option<Stops>): (r: Matches)
    ensures forall k :: k in r <==> k in live.vals && StaticStopID(k, staticStops).Some?
    ensures forall k :: k in live.vals ==> Annotated(live, r, k) == AnnotatedStop(live, staticStops, k)
  {
    map k | k in live.vals && StaticStopID(k, staticStops).Some? :: staticStops.value.vals[StaticStopID(k, staticStops).value]
  }

  /** Live stop `k` after annotation from its static stop in `matches`. */
  function Annotated(live: Stops, matches: Matches, k: Id): StopOnRoute
    requires k in live.vals
  {
    if k in matches then Annotate(live.vals[k], matches[k]) else live.vals[k]
  }

  /** The static first stop: the first key of the static stops (`false` in PHP when there is none). */
  function FirstKey(staticStops: Option<Stops>): Option<Id> {
    if staticStops.Some? && staticStops.value.keys != [] then Some(staticStops.value.keys[0]) else None
  }

  /**
    * Among the first `n` live stops, the position of the first one that is
    * the static first stop, or `n` when none is.
    */
  function FirstMatch(ks: seq<Id>, first: Option<Id>, isSame: SameStop, n: nat): (m: nat)
    requires n <= |ks|
    ensures m <= n
  {
    if n == 0 then 0
    else
      var m := FirstMatch(ks, first, isSame, n - 1);
      if m < n - 1 then m else if isSame(Some(ks[n - 1]), first) then n - 1 else n
  }

  /** `FirstMatch` over one more stop. */
  lemma FirstMatchNext(ks: seq<Id>, first: Option<Id>, isSame: SameStop, i: nat)
    requires i < |ks|
    ensures var m := FirstMatch(ks, first, isSame, i);
      FirstMatch(ks, first, isSame, i + 1) == if m < i then m else if isSame(Some(ks[i]), first) then i else i + 1
  {
  }

  /** No stop before the position found is the first stop, and the one at it is. */
  lemma {:induction false} FirstMatchIsFirst(ks: seq<Id>, first: Option<Id>, isSame: SameStop, n: nat)
    requires n <= |ks|
    ensures var m := FirstMatch(ks, first, isSame, n);
      (forall p :: 0 <= p < m ==> !isSame(Some(ks[p]), first)) &&
      (m < n ==> isSame(Some(ks[m]), first))
  {
    if n > 0 {
      FirstMatchIsFirst(ks, first, isSame, n - 1);
    }
  }

  /** One stop of the walk annotated in place, when a static stop corresponds. */
  function AnnotateIn(live: Stops, matches: Matches, stops: Stops, k: Id): Stops
    requires k in live.vals
  {
    if k in matches then Put(stops, k, Annotated(live, matches, k)) else stops
  }

  /**
    * What a stop moved to the end holds. As written (`keepAnnotation` false)
    * it is the live stop as it was before annotation; with `keepAnnotation`
    * it is the annotated stop.
    */
  function Moved(live: Stops, matches: Matches, k: Id, keepAnnotation: bool): StopOnRoute
    requires k in live.vals
  {
    if keepAnnotation then Annotated(live, matches, k) else live.vals[k]
  }

  /** Every element of a slice is an element of the whole. */
  lemma InSlice<T>(s: seq<T>, a: nat, b: nat)
    requires a <= b <= |s|
    ensures forall x :: x in s[a..b] ==> x in s
  {
    forall x | x in s[a..b] ensures x in s {
      var j :| 0 <= j < b - a && s[a..b][j] == x;
      assert s[a + j] == x;
    }
  }

  /** No key before position `m` of a duplicate-free list occurs from `m` on. */
  lemma PrefixApart(ks: seq<Id>, m: nat)
    requires Distinct(ks) && m <= |ks|
    ensures forall x :: x in ks[..m] ==> x !in ks[m..]
  {
    forall x | x in ks[..m] ensures x !in ks[m..] {
      var p :| 0 <= p < m && ks[..m][p] == x;
      forall q | m <= q < |ks| ensures ks[q] != x {
        DistinctAt(ks, p, q);
      }
      assert forall j :: 0 <= j < |ks[m..]| ==> ks[m..][j] == ks[m + j];
    }
  }

  /**
    * The stops still on the route when the walk ends, `m` being the position
    * of the static first stop among the live stops: those from `m` on, in
    * their order, each annotated.
    */
  function Kept(live: Stops, matches: Matches, m: nat): (r: Stops)
    requires m <= |live.keys|
    ensures r.keys == live.keys[m..]
  {
    DistinctSlice(live.keys, m, |live.keys|);
    InSlice(live.keys, m, |live.keys|);
    assert live.keys[m..|live.keys|] == live.keys[m..];
    RawDict(live.keys[m..], map k | k in live.keys[m..] && k in live.vals :: Annotated(live, matches, k))
  }

  /** The stops waiting to be moved to the end: those before `m`, in their order, as `Moved` says. */
  function Waiting(live: Stops, matches: Matches, keepAnnotation: bool, m: nat): (r: Stops)
    requires m <= |live.keys|
    ensures r.keys == live.keys[..m]
  {
    DistinctSlice(live.keys, 0, m);
    InSlice(live.keys, 0, m);
    RawDict(live.keys[..m], map k | k in live.keys[..m] && k in live.vals :: Moved(live, matches, k, keepAnnotation))
  }

  /**
    * The keys during the walk, after `m` stops were moved: the rest stay in
    * their order, the moved ones wait in theirs.
    */
  ghost predicate WalkKeys(live: Stops, stops: Stops, moveToEnd: Stops, m: nat)
    requires m <= |live.keys|
  {
    stops.keys == live.keys[m..] && moveToEnd.keys == live.keys[..m]
  }

  /**
    * The values during the walk, after `i` stops of which `m` were moved: the
    * stops from `m` on, annotated up to `i` and as they came after it, and
    * the moved stops as `Moved` says.
    */
  ghost predicate WalkVals(live: Stops, matches: Matches, keepAnnotation: bool, stops: Stops, moveToEnd: Stops, i: nat, m: nat)
    requires m <= i <= |live.keys|
  {
    var ks := live.keys;
    (forall p :: m <= p < i ==> ValueAt(stops.vals, ks[p]) == Some(Annotated(live, matches, ks[p]))) &&
    (forall p :: i <= p < |ks| ==> ValueAt(stops.vals, ks[p]) == Some(live.vals[ks[p]])) &&
    (forall p :: 0 <= p < m ==> ValueAt(moveToEnd.vals, ks[p]) == Some(Moved(live, matches, ks[p], keepAnnotation)))
  }

  /** The value under a key, looked up in the map alone. */
  function ValueAt(vals: map<Id, StopOnRoute>, k: Id): Option<StopOnRoute> {
    if k in vals then Some(vals[k]) else None
  }

  lemma TakeOneMore<T>(s: seq<T>, i: nat)
    requires i < |s|
    ensures s[..i + 1] == s[..i] + [s[i]]
  {
  }

  /** Annotating the next stop `i` keeps the keys where they are. */
  lemma AnnotateKeys(live: Stops, matches: Matches, stops: Stops, moveToEnd: Stops, i: nat, m: nat)
    requires m <= i < |live.keys| && WalkKeys(live, stops, moveToEnd, m)
    ensures live.keys[i] in live.vals && live.keys[i] in stops.vals
    ensures WalkKeys(live, AnnotateIn(live, matches, stops, live.keys[i]), moveToEnd, m)
  {
    var ks := live.keys;
    assert ks[i] in ks;
    assert ks[m..][i - m] == ks[i];
  }

  /** Moving stop `i`, the first one left on the route, to the waiting ones. */
  lemma MoveKeys(live: Stops, matches: Matches, keepAnnotation: bool, stops: Stops, moveToEnd: Stops, i: nat)
    requires i < |live.keys| && WalkKeys(live, stops, moveToEnd, i)
    ensures live.keys[i] in live.vals
    ensures var k := live.keys[i];
      WalkKeys(live, Unset(stops, k), Put(moveToEnd, k, Moved(live, matches, k, keepAnnotation)), i + 1)
  {
    var ks := live.keys;
    assert ks[i] in ks;
    assert stops.keys[0] == ks[i];
    UnsetFirst(stops);
    assert ks[i..][1..] == ks[i + 1..];
    DistinctNotElsewhere(ks, i);
    TakeOneMore(ks, i);
  }

  /** A stop kept on the route: annotated in place. */
  lemma KeepVals(live: Stops, matches: Matches, keepAnnotation: bool, stops: Stops, moveToEnd: Stops, i: nat, m: nat)
    requires m <= i < |live.keys| && WalkVals(live, matches, keepAnnotation, stops, moveToEnd, i, m)
    ensures live.keys[i] in live.vals
    ensures WalkVals(live, matches, keepAnnotation, AnnotateIn(live, matches, stops, live.keys[i]), moveToEnd, i + 1, m)
  {
    var ks := live.keys;
    var k := ks[i];
    assert k in ks;
    assert ValueAt(stops.vals, k) == Some(live.vals[k]);
    var annotated := AnnotateIn(live, matches, stops, k);
    assert annotated.vals == stops.vals[k := Annotated(live, matches, k)];
    forall p | m <= p < i + 1 ensures ValueAt(annotated.vals, ks[p]) == Some(Annotated(live, matches, ks[p])) {
      if p != i { DistinctAt(ks, p, i); }
    }
    forall p | i + 1 <= p < |ks| ensures ValueAt(annotated.vals, ks[p]) == Some(live.vals[ks[p]]) {
      DistinctAt(ks, p, i);
    }
  }

  /** A stop moved: annotated, taken off the route and added to the waiting ones. */
  lemma MoveVals(live: Stops, matches: Matches, keepAnnotation: bool, stops: Stops, moveToEnd: Stops, i: nat)
    requires i < |live.keys| && WalkVals(live, matches, keepAnnotation, stops, moveToEnd, i, i)
    ensures live.keys[i] in live.vals
    ensures var k := live.keys[i];
      WalkVals(live, matches, keepAnnotation, Unset(AnnotateIn(live, matches, stops, k), k), Put(moveToEnd, k, Moved(live, matches, k, keepAnnotation)), i + 1, i + 1)
  {
    var ks := live.keys;
    var k := ks[i];
    assert k in ks;
    var kept := Unset(AnnotateIn(live, matches, stops, k), k);
    var moved := Put(moveToEnd, k, Moved(live, matches, k, keepAnnotation));
    forall p | i + 1 <= p < |ks| ensures ValueAt(kept.vals, ks[p]) == Some(live.vals[ks[p]]) {
      DistinctAt(ks, p, i);
    }
    forall p | 0 <= p < i + 1 ensures ValueAt(moved.vals, ks[p]) == Some(Moved(live, matches, ks[p], keepAnnotation)) {
      if p != i { DistinctAt(ks, p, i); }
    }
  }

  /** When the walk has seen every stop, the route is `Kept`; the waiting stops are `Waiting` (`WaitingDone`). */
  lemma KeptDone(live: Stops, matches: Matches, keepAnnotation: bool, stops: Stops, moveToEnd: Stops, m: nat)
    requires m <= |live.keys| && WalkKeys(live, stops, moveToEnd, m)
    requires WalkVals(live, matches, keepAnnotation, stops, moveToEnd, |live.keys|, m)
    ensures stops == Kept(live, matches, m)
  {
    var ks := live.keys;
    var kept := Kept(live, matches, m);
    forall j | 0 <= j < |stops.keys|
      ensures stops.keys[j] in stops.vals && stops.keys[j] in kept.vals && stops.vals[stops.keys[j]] == kept.vals[stops.keys[j]]
    {
      assert stops.keys[j] == ks[m + j] && kept.keys[j] == ks[m + j];
      assert ValueAt(stops.vals, ks[m + j]) == Some(Annotated(live, matches, ks[m + j]));
    }
    SameDict(stops, kept);
  }

  lemma WaitingDone(live: Stops, matches: Matches, keepAnnotation: bool, stops: Stops, moveToEnd: Stops, m: nat)
    requires m <= |live.keys| && WalkKeys(live, stops, moveToEnd, m)
    requires WalkVals(live, matches, keepAnnotation, stops, moveToEnd, |live.keys|, m)
    ensures moveToEnd == Waiting(live, matches, keepAnnotation, m)
  {
    var ks := live.keys;
    var waiting := Waiting(live, matches, keepAnnotation, m);
    forall j | 0 <= j < |moveToEnd.keys|
      ensures moveToEnd.keys[j] in moveToEnd.vals && moveToEnd.keys[j] in waiting.vals && moveToEnd.vals[moveToEnd.keys[j]] == waiting.vals[moveToEnd.keys[j]]
    {
      assert moveToEnd.keys[j] == ks[j] && waiting.keys[j] == ks[j];
      assert ValueAt(moveToEnd.vals, ks[j]) == Some(Moved(live, matches, ks[j], keepAnnotation));
    }
    SameDict(moveToEnd, waiting);
  }

  /**
    * `$stops += $moveToEnd` after the walk: the live stops rotated to start
    * at the first one that is the static first stop, each present once.
    */
  function Rotated(live: Stops, matches: Matches, first: Option<Id>, isSame: SameStop, keepAnnotation: bool): Stops {
    var m := FirstMatch(live.keys, first, isSame, |live.keys|);
    AddMissing(Kept(live, matches, m), Waiting(live, matches, keepAnnotation, m))
  }

  /**
    * The rotation: with `m` the position of the first live stop that is the
    * static first stop, the stops from `m` come first, then those before it;
    * the former are annotated, the latter are what `Moved` says.
    */
  lemma RotatedStops(live: Stops, matches: Matches, first: Option<Id>, isSame: SameStop, keepAnnotation: bool)
    ensures var ks := live.keys;
      var m := FirstMatch(ks, first, isSame, |ks|);
      var r := Rotated(live, matches, first, isSame, keepAnnotation);
      r.keys == ks[m..] + ks[..m] &&
      (forall p :: m <= p < |ks| ==> ks[p] in r.vals && r.vals[ks[p]] == Annotated(live, matches, ks[p])) &&
      (forall p :: 0 <= p < m ==> ks[p] in r.vals && r.vals[ks[p]] == Moved(live, matches, ks[p], keepAnnotation))
  {
    var ks := live.keys;
    var m := FirstMatch(ks, first, isSame, |ks|);
    var kept, waiting := Kept(live, matches, m), Waiting(live, matches, keepAnnotation, m);
    PrefixApart(ks, m);
    FilterInAll(waiting.keys, waiting.vals.Keys - kept.vals.Keys);
    forall p | m <= p < |ks| ensures ks[p] in ks[m..] && ks[p] in live.vals {
      assert ks[m..][p - m] == ks[p];
    }
    forall p | 0 <= p < m ensures ks[p] in ks[..m] && ks[p] in live.vals {
      assert ks[..m][p] == ks[p];
    }
  }

  //
  // uasort with the providers' stop order (line 327)
  //

  /** Places key `k` before the first key whose stop sorts after it. */
  function InsertKey(k: Id, ks: seq<Id>, vals: map<Id, StopOnRoute>, cmp: StopOrder): (r: seq<Id>)
    requires k in vals && forall x :: x in ks ==> x in vals
    ensures multiset(r) == multiset(ks) + multiset{k}
    ensures forall x :: x in r ==> x in vals
    ensures r != [] && (r[0] == k || (ks != [] && r[0] == ks[0]))
  {
    if ks == [] || cmp(vals[ks[0]], vals[k]) > 0 then [k] + ks
    else
      assert ks == [ks[0]] + ks[1..];
      [ks[0]] + InsertKey(k, ks[1..], vals, cmp)
  }

  function SortKeys(ks: seq<Id>, vals: map<Id, StopOnRoute>, cmp: StopOrder): (r: seq<Id>)
    requires forall x :: x in ks ==> x in vals
    ensures multiset(r) == multiset(ks)
    ensures forall x :: x in r ==> x in vals
  {
    if ks == [] then []
    else
      assert ks == ks[..|ks| - 1] + [ks[|ks| - 1]];
      var sorted := SortKeys(ks[..|ks| - 1], vals, cmp);
      SameElements(sorted, ks[..|ks| - 1]);
      InsertKey(ks[|ks| - 1], sorted, vals, cmp)
  }

  /**
    * `uasort`: the same entries with the keys reordered by the comparator;
    * the model sorts by stable insertion.
    */
  function UaSort(d: Stops, cmp: StopOrder): (r: Stops)
    ensures r.vals == d.vals
    ensures multiset(r.keys) == multiset(d.keys)
  {
    var ks := SortKeys(d.keys, d.vals, cmp);
    PermutationKeepsDistinct(d.keys, ks);
    SameElements(d.keys, ks);
    RawDict(ks, d.vals)
  }

  /** Neighbours are in the comparator's order. */
  ghost predicate SortedBy(ks: seq<Id>, vals: map<Id, StopOnRoute>, cmp: StopOrder)
    requires forall x :: x in ks ==> x in vals
  {
    forall i :: 0 <= i < |ks| - 1 ==> cmp(vals[ks[i]], vals[ks[i + 1]]) <= 0
  }

  /** A comparator that never says both "after" and "after" of a pair. */
  ghost predicate Consistent(cmp: StopOrder) {
    forall a: StopOnRoute, b: StopOnRoute :: cmp(a, b) > 0 ==> cmp(b, a) <= 0
  }

  lemma {:induction false} InsertKeySorted(k: Id, ks: seq<Id>, vals: map<Id, StopOnRoute>, cmp: StopOrder)
    requires k in vals && forall x :: x in ks ==> x in vals
    requires Consistent(cmp) && SortedBy(ks, vals, cmp)
    ensures SortedBy(InsertKey(k, ks, vals, cmp), vals, cmp)
  {
    if ks == [] || cmp(vals[ks[0]], vals[k]) > 0 {
    } else {
      var rest := InsertKey(k, ks[1..], vals, cmp);
      assert SortedBy(ks[1..], vals, cmp) by {
        forall i | 0 <= i < |ks[1..]| - 1 ensures cmp(vals[ks[1..][i]], vals[ks[1..][i + 1]]) <= 0 {
          assert ks[1..][i] == ks[i + 1] && ks[1..][i + 1] == ks[i + 2];
        }
      }
      InsertKeySorted(k, ks[1..], vals, cmp);
      var r := [ks[0]] + rest;
      forall i | 0 <= i < |r| - 1 ensures cmp(vals[r[i]], vals[r[i + 1]]) <= 0 {
        if i > 0 {
          assert r[i] == rest[i - 1] && r[i + 1] == rest[i];
        } else if rest[0] != k {
          assert rest[0] == ks[1];
        }
      }
    }
  }

  /** With a consistent comparator, `uasort` leaves every stop in order with its neighbour. */
  lemma {:induction false} UaSortSorted(d: Stops, cmp: StopOrder)
    requires Consistent(cmp)
    ensures SortedBy(UaSort(d, cmp).keys, d.vals, cmp)
  {
    SortKeysSorted(d.keys, d.vals, cmp);
  }

  lemma {:induction false} SortKeysSorted(ks: seq<Id>, vals: map<Id, StopOnRoute>, cmp: StopOrder)
    requires forall x :: x in ks ==> x in vals
    requires Consistent(cmp)
    ensures SortedBy(SortKeys(ks, vals, cmp), vals, cmp)
  {
    if ks != [] {
      assert ks == ks[..|ks| - 1] + [ks[|ks| - 1]];
      SortKeysSorted(ks[..|ks| - 1], vals, cmp);
      var sorted := SortKeys(ks[..|ks| - 1], vals, cmp);
      SameElements(sorted, ks[..|ks| - 1]);
      InsertKeySorted(ks[|ks| - 1], sorted, vals, cmp);
    }
  }

  //
  // The stops of the merged route (lines 281-328)
  //

  /** The stops walk as written: stops moved to the end lose their annotation. */
  function ReconcileStopsAsWritten(live: Stops, staticStops: Option<Stops>, isSame: SameStop, cmp: StopOrder): Stops {
    UaSort(Rotated(live, StaticMatches(live, staticStops), FirstKey(staticStops), isSame, false), cmp)
  }

  /** The stops walk as evidently intended: every live stop keeps its annotation. */
  function ReconcileStops(live: Stops, staticStops: Option<Stops>, isSame: SameStop, cmp: StopOrder): Stops {
    UaSort(Rotated(live, StaticMatches(live, staticStops), FirstKey(staticStops), isSame, true), cmp)
  }

  /**
    * The merged route has exactly the live stops, each once and each
    * annotated from its static stop; only their order changes.
    */
  lemma ReconciledStops(live: Stops, staticStops: Option<Stops>, isSame: SameStop, cmp: StopOrder)
    ensures var r := ReconcileStops(live, staticStops, isSame, cmp);
      multiset(r.keys) == multiset(live.keys) &&
      forall k :: k in live.vals ==> k in r.vals && r.vals[k] == AnnotatedStop(live, staticStops, k)
  {
    var ks := live.keys;
    var matches := StaticMatches(live, staticStops);
    var m := FirstMatch(ks, FirstKey(staticStops), isSame, |ks|);
    var rot := Rotated(live, matches, FirstKey(staticStops), isSame, true);
    RotatedStops(live, matches, FirstKey(staticStops), isSame, true);
    RotationMultiset(ks, m);
    forall k | k in live.vals ensures k in rot.vals && rot.vals[k] == AnnotatedStop(live, staticStops, k) {
      var p :| 0 <= p < |ks| && ks[p] == k;
    }
  }

  /**
    * As written, the merged route also has exactly the live stops, each
    * once; the stops from the static first stop on are annotated, the ones
    * before it are the live stops they were.
    */
  lemma ReconciledStopsAsWritten(live: Stops, staticStops: Option<Stops>, isSame: SameStop, cmp: StopOrder)
    ensures var r := ReconcileStopsAsWritten(live, staticStops, isSame, cmp);
      var ks := live.keys;
      var m := FirstMatch(ks, FirstKey(staticStops), isSame, |ks|);
      multiset(r.keys) == multiset(ks) &&
      (forall p :: m <= p < |ks| ==> ks[p] in r.vals && r.vals[ks[p]] == AnnotatedStop(live, staticStops, ks[p])) &&
      (forall p :: 0 <= p < m ==> ks[p] in r.vals && r.vals[ks[p]] == live.vals[ks[p]])
  {
    var ks := live.keys;
    var m := FirstMatch(ks, FirstKey(staticStops), isSame, |ks|);
    RotatedStops(live, StaticMatches(live, staticStops), FirstKey(staticStops), isSame, false);
    RotationMultiset(ks, m);
  }

  lemma RotationMultiset<T>(s: seq<T>, m: nat)
    requires m <= |s|
    ensures multiset(s[m..] + s[..m]) == multiset(s)
  {
    assert s == s[..m] + s[m..];
  }

  /**
    * A stop before the static first stop ends up, as written, as the live
    * stop it was, and as intended, annotated.
    */
  lemma MovedStops(live: Stops, staticStops: Option<Stops>, isSame: SameStop, cmp: StopOrder, p: nat)
    requires p < FirstMatch(live.keys, FirstKey(staticStops), isSame, |live.keys|)
    ensures var k := live.keys[p];
      k in live.vals &&
      k in ReconcileStopsAsWritten(live, staticStops, isSame, cmp).vals &&
      ReconcileStopsAsWritten(live, staticStops, isSame, cmp).vals[k] == live.vals[k] &&
      k in ReconcileStops(live, staticStops, isSame, cmp).vals &&
      ReconcileStops(live, staticStops, isSame, cmp).vals[k] == AnnotatedStop(live, staticStops, k)
  {
    assert live.keys[p] in live.keys;
    RotatedStops(live, StaticMatches(live, staticStops), FirstKey(staticStops), isSame, false);
    RotatedStops(live, StaticMatches(live, staticStops), FirstKey(staticStops), isSame, true);
  }

  /**
    * Live stops `s2`, `s1` against static stops `s1`, `s2`: `s2` comes before
    * the static first stop and is moved to the end where, as written, it
    * keeps its live name instead of the static one.
    */
  lemma MovedStopKeepsLiveName()
    ensures var r := ReconcileStopsAsWritten(TwoLiveStops(), Some(TwoStaticStops()), ExactlySame, NoOrder);
      "s2" in r.vals && r.vals["s2"].name == Some("two")
  {
    ExampleMovesFirstStop();
    MovedStops(TwoLiveStops(), Some(TwoStaticStops()), ExactlySame, NoOrder, 0);
  }

  /** With the annotation kept, the moved stop `s2` has the static name. */
  lemma MovedStopTakesStaticName()
    ensures var r := ReconcileStops(TwoLiveStops(), Some(TwoStaticStops()), ExactlySame, NoOrder);
      "s2" in r.vals && r.vals["s2"].name == Some("Second St")
  {
    ExampleMovesFirstStop();
    MovedStops(TwoLiveStops(), Some(TwoStaticStops()), ExactlySame, NoOrder, 0);
    assert StaticStopID("s2", Some(TwoStaticStops())) == Some("s2");
  }

  /** In the example only `s2` precedes the static first stop `s1`. */
  lemma ExampleMovesFirstStop()
    ensures TwoLiveStops().keys[0] == "s2"
    ensures FirstMatch(TwoLiveStops().keys, FirstKey(Some(TwoStaticStops())), ExactlySame, 2) == 1
  {
    var live := TwoLiveStops();
    assert FirstKey(Some(TwoStaticStops())) == Some("s1");
    assert "s2" != "s1";
    assert FirstMatch(live.keys, Some("s1"), ExactlySame, 1) == 1;
  }

  /** Stop identity by equal IDs. */
  function ExactlySame(a: Option<Id>, b: Option<Id>): bool {
    a == b
  }

  /** A comparator that orders nothing. */
  function NoOrder(a: StopOnRoute, b: StopOnRoute): int {
    0
  }

  /** The live stops of the example: `s2` before `s1`, with their live names. */
  function TwoLiveStops(): Stops {
    RawDict(["s2", "s1"], map["s2" := StopOnRoute(Some("two"), None, false, None, None), "s1" := StopOnRoute(Some("one"), None, false, None, None)])
  }

  /** The static stops of the example: `s1` first. */
  function TwoStaticStops(): Stops {
    RawDict(["s1", "s2"], map["s1" := StopOnRoute(Some("First St"), None, false, None, None), "s2" := StopOnRoute(Some("Second St"), None, false, None, None)])
  }

  //
  // The upcoming flags (lines 332-362)
  //

  function Abs(x: int): nat {
    if x < 0 then -x else x
  }

  /**
    * The stop before the first: the last stop, or the one before it when the
    * last stop is the first stop again (a loop route); none when there is no
    * such stop.
    */
  function FirstPrev(ks: seq<Id>, isSame: SameStop): (r: Option<Id>)
    ensures r.Some? ==> r.value in ks
  {
    if ks == [] then None
    else if isSame(Some(ks[0]), Some(ks[|ks| - 1])) then (if |ks| >= 2 then Some(ks[|ks| - 2]) else None)
    else Some(ks[|ks| - 1])
  }

  /** The arrival of a stop (unset when there is no such stop). */
  function ArrivalOf(stops: Stops, k: Option<Id>): Option<int> {
    if k.Some? && k.value in stops.vals then stops.vals[k.value].arrives else None
  }

  /**
    * A stop is upcoming when it arrives within the maximum delay of now and
    * no later than the stop before it; an unset arrival counts as 0 in the
    * difference and compares as PHP's `null`.
    */
  function UpcomingFlag(arrives: Option<int>, prevArrives: Option<int>, now: int, maxDelay: int): bool {
    Abs(arrives.GetOr(0) - now) < maxDelay && LooseAtMost(arrives, prevArrives)
  }

  /** The stop at position `i` after the marking: untouched when its flag is already set. */
  function Marked(stops: Stops, i: nat, isSame: SameStop, now: int, maxDelay: int): (r: StopOnRoute)
    requires i < |stops.keys|
    ensures r.(upcoming := None) == stops.vals[stops.keys[i]].(upcoming := None)
    ensures r.upcoming.Some?
    ensures stops.vals[stops.keys[i]].upcoming.Some? ==> r == stops.vals[stops.keys[i]]
  {
    var ks := stops.keys;
    var stop := stops.vals[ks[i]];
    if stop.upcoming.Some? then stop
    else
      var prev := if i == 0 then FirstPrev(ks, isSame) else Some(ks[i - 1]);
      stop.(upcoming := Some(UpcomingFlag(stop.arrives, ArrivalOf(stops, prev), now, maxDelay)))
  }

  /** The stop map with the first `n` stops marked. */
  function MarkFirst(stops: Stops, n: nat, isSame: SameStop, now: int, maxDelay: int): map<Id, StopOnRoute>
    requires n <= |stops.keys|
  {
    if n == 0 then stops.vals
    else MarkFirst(stops, n - 1, isSame, now, maxDelay)[stops.keys[n - 1] := Marked(stops, n - 1, isSame, now, maxDelay)]
  }

  lemma MarkFirstUnfold(stops: Stops, n: nat, isSame: SameStop, now: int, maxDelay: int)
    requires 0 < n <= |stops.keys|
    ensures stops.keys[n - 1] in stops.vals
    ensures MarkFirst(stops, n, isSame, now, maxDelay) ==
      MarkFirst(stops, n - 1, isSame, now, maxDelay)[stops.keys[n - 1] := Marked(stops, n - 1, isSame, now, maxDelay)]
  {
    assert stops.keys[n - 1] in stops.keys;
  }

  lemma MarkFirstNext(stops: Stops, i: nat, isSame: SameStop, now: int, maxDelay: int)
    requires i < |stops.keys|
    ensures MarkFirst(stops, i + 1, isSame, now, maxDelay) ==
      MarkFirst(stops, i, isSame, now, maxDelay)[stops.keys[i] := Marked(stops, i, isSame, now, maxDelay)]
  {
  }

  /** After marking the first `n` stops, every stop is still there, and the one at position `p` is marked exactly when `p < n`. */
  lemma {:induction false} MarkFirstAt(stops: Stops, n: nat, p: nat, isSame: SameStop, now: int, maxDelay: int)
    requires n <= |stops.keys| && p < |stops.keys|
    ensures MarkFirst(stops, n, isSame, now, maxDelay).Keys == stops.vals.Keys
    ensures MarkFirst(stops, n, isSame, now, maxDelay)[stops.keys[p]] ==
      if p < n then Marked(stops, p, isSame, now, maxDelay) else stops.vals[stops.keys[p]]
  {
    assert stops.keys[p] in stops.keys;
    if n > 0 {
      MarkFirstUnfold(stops, n, isSame, now, maxDelay);
      var m := n - 1;
      MarkFirstAt(stops, m, p, isSame, now, maxDelay);
      if p != m {
        DistinctAt(stops.keys, p, m);
      }
    }
  }

  lemma MarkFirstEffect(stops: Stops, n: nat, isSame: SameStop, now: int, maxDelay: int)
    requires n <= |stops.keys|
    ensures var r := MarkFirst(stops, n, isSame, now, maxDelay);
      r.Keys == stops.vals.Keys &&
      (forall p :: 0 <= p < n ==> r[stops.keys[p]] == Marked(stops, p, isSame, now, maxDelay)) &&
      (forall p :: n <= p < |stops.keys| ==> r[stops.keys[p]] == stops.vals[stops.keys[p]])
  {
    var r := MarkFirst(stops, n, isSame, now, maxDelay);
    forall p | 0 <= p < |stops.keys|
      ensures stops.keys[p] in r && r[stops.keys[p]] == if p < n then Marked(stops, p, isSame, now, maxDelay) else stops.vals[stops.keys[p]]
    {
      MarkFirstAt(stops, n, p, isSame, now, maxDelay);
    }
    if |stops.keys| > 0 {
      MarkFirstAt(stops, n, 0, isSame, now, maxDelay);
    } else {
      assert n == 0;
    }
  }

  /** Every stop of the route marked. */
  function WithUpcoming(stops: Stops, isSame: SameStop, now: int, maxDelay: int): (r: Stops)
    ensures r.keys == stops.keys
    ensures forall k :: k in r.vals ==> r.vals[k].upcoming.Some? && r.vals[k].(upcoming := None) == stops.vals[k].(upcoming := None)
    ensures forall k :: k in stops.vals && stops.vals[k].upcoming.Some? ==> r.vals[k] == stops.vals[k]
  {
    MarkFirstEffect(stops, |stops.keys|, isSame, now, maxDelay);
    var m := MarkFirst(stops, |stops.keys|, isSame, now, maxDelay);
    assert forall k :: k in m ==> exists p :: 0 <= p < |stops.keys| && stops.keys[p] == k;
    RawDict(stops.keys, m)
  }

  /** Marking twice changes nothing more: every flag is set after the first pass. */
  lemma WithUpcomingIdempotent(stops: Stops, isSame: SameStop, now: int, maxDelay: int)
    ensures WithUpcoming(WithUpcoming(stops, isSame, now, maxDelay), isSame, now, maxDelay) == WithUpcoming(stops, isSame, now, maxDelay)
  {
    var once := WithUpcoming(stops, isSame, now, maxDelay);
    var twice := WithUpcoming(once, isSame, now, maxDelay);
    assert twice.keys == once.keys;
    assert twice.vals == once.vals;
  }

  /** On a loop route, the first stop compares with the stop before the final return to it. */
  lemma LoopRoutePrev(stops: Stops, isSame: SameStop, now: int, maxDelay: int)
    requires |stops.keys| >= 3 && isSame(Some(stops.keys[0]), Some(stops.keys[|stops.keys| - 1]))
    requires stops.vals[stops.keys[0]].upcoming.None?
    ensures var ks := stops.keys;
      WithUpcoming(stops, isSame, now, maxDelay).vals[ks[0]].upcoming ==
        Some(UpcomingFlag(stops.vals[ks[0]].arrives, stops.vals[ks[|ks| - 2]].arrives, now, maxDelay))
  {
    var n := |stops.keys|;
    MarkFirstAt(stops, n, 0, isSame, now, maxDelay);
    assert WithUpcoming(stops, isSame, now, maxDelay).vals == MarkFirst(stops, n, isSame, now, maxDelay);
    assert stops.keys[n - 2] in stops.keys;
  }

  //
  // The merged route (lines 256-330)
  //

  /** A static name or description wins when it is not empty; a static frequency when it is not 0. */
  function OverlayRouteFields(info: RouteInfo, staticInfo: RouteInfo): (r: RouteInfo)
    ensures r.(name := info.name, description := info.description, frequency := info.frequency) == info
    ensures r.name == if staticInfo.name.Some? && |staticInfo.name.value| > 0 then staticInfo.name else info.name
    ensures r.description == if staticInfo.description.Some? && |staticInfo.description.value| > 0 then staticInfo.description else info.description
    ensures r.frequency == if staticInfo.frequency.Some? && staticInfo.frequency.value != 0 then staticInfo.frequency else info.frequency
  {
    var named := if staticInfo.name.Some? && |staticInfo.name.value| > 0 then info.(name := staticInfo.name) else info;
    var described := if staticInfo.description.Some? && |staticInfo.description.value| > 0 then named.(description := staticInfo.description) else named;
    if staticInfo.frequency.Some? && staticInfo.frequency.value != 0 then described.(frequency := staticInfo.frequency) else described
  }

  /**
    * The route before the upcoming flags: the live answer marked live, or
    * the static answer when the live one is empty; a live answer is
    * completed from a non-empty static answer. The source's walk over the
    * stops is the one with `keepAnnotation` false; `keepAnnotation` true is
    * the evidently intended one.
    */
  function CombineRouteInfo(live: RouteInfo, staticInfo: RouteInfo, isSame: SameStop, cmp: StopOrder, keepAnnotation: bool): (r: RouteInfo)
    ensures live == NoRouteInfo ==> r == staticInfo
    ensures live != NoRouteInfo ==> r.live == Some(true)
    ensures live != NoRouteInfo && staticInfo == NoRouteInfo ==> r == live.(live := Some(true))
    ensures live != NoRouteInfo && staticInfo != NoRouteInfo ==>
      r.(live := live.live, stops := live.stops) == OverlayRouteFields(live, staticInfo)
    ensures live != NoRouteInfo && staticInfo != NoRouteInfo && CountOf(live.stops) == 0 ==> r.stops == staticInfo.stops
  {
    if live == NoRouteInfo then staticInfo
    else
      var info := live.(live := Some(true));
      if staticInfo == NoRouteInfo then info
      else
        var fields := OverlayRouteFields(info, staticInfo);
        if CountOf(info.stops) == 0 then fields.(stops := staticInfo.stops)
        else if keepAnnotation then fields.(stops := Some(ReconcileStops(info.stops.value, staticInfo.stops, isSame, cmp)))
        else fields.(stops := Some(ReconcileStopsAsWritten(info.stops.value, staticInfo.stops, isSame, cmp)))
  }

  /** `getRouteInfo` before remapping: the combined route, its stops marked and its update time set. */
  function MergeRouteInfo(live: RouteInfo, staticInfo: RouteInfo, isSame: SameStop, cmp: StopOrder, keepAnnotation: bool, now: int, maxDelay: int): (r: RouteInfo)
    ensures r == NoRouteInfo <==> live == NoRouteInfo && staticInfo == NoRouteInfo
    ensures r != NoRouteInfo ==> r.lastupdate == Some(now)
    ensures r.stops.Some? ==> forall k :: k in r.stops.value.vals ==> r.stops.value.vals[k].upcoming.Some?
  {
    var info := CombineRouteInfo(live, staticInfo, isSame, cmp, keepAnnotation);
    if info == NoRouteInfo then info
    else
      var stops := match info.stops
        case None => None
        case Some(s) => Some(WithUpcoming(s, isSame, now, maxDelay));
      info.(stops := stops, lastupdate := Some(now))
  }

  /**
    * When both answers list stops, the merged route lists exactly the live
    * stops. Apart from its flag, each is annotated from the static stops,
    * except, as written, the stops before the static first stop, which stay
    * the live stops they were.
    */
  lemma MergedRouteStops(live: RouteInfo, staticInfo: RouteInfo, isSame: SameStop, cmp: StopOrder, keepAnnotation: bool, now: int, maxDelay: int)
    requires live != NoRouteInfo && staticInfo != NoRouteInfo && CountOf(live.stops) > 0
    ensures var r := MergeRouteInfo(live, staticInfo, isSame, cmp, keepAnnotation, now, maxDelay);
      var ks := live.stops.value.keys;
      var m := FirstMatch(ks, FirstKey(staticInfo.stops), isSame, |ks|);
      r.stops.Some? && multiset(r.stops.value.keys) == multiset(ks) &&
      forall p :: 0 <= p < |ks| ==>
        ks[p] in live.stops.value.vals && ks[p] in r.stops.value.vals &&
        r.stops.value.vals[ks[p]].(upcoming := None) ==
          (if keepAnnotation || m <= p then AnnotatedStop(live.stops.value, staticInfo.stops, ks[p]) else live.stops.value.vals[ks[p]]).(upcoming := None)
  {
    var ks := live.stops.value.keys;
    if keepAnnotation {
      ReconciledStops(live.stops.value, staticInfo.stops, isSame, cmp);
    } else {
      ReconciledStopsAsWritten(live.stops.value, staticInfo.stops, isSame, cmp);
    }
    forall p | 0 <= p < |ks| ensures ks[p] in live.stops.value.vals {
      assert ks[p] in ks;
    }
  }

  /** The merged route has a stop for every live stop and no other. */
  lemma MergedStopKeys(live: RouteInfo, staticInfo: RouteInfo, isSame: SameStop, cmp: StopOrder, keepAnnotation: bool, now: int, maxDelay: int)
    requires live != NoRouteInfo && staticInfo != NoRouteInfo && CountOf(live.stops) > 0
    ensures var r := MergeRouteInfo(live, staticInfo, isSame, cmp, keepAnnotation, now, maxDelay);
      r.stops.Some? && |r.stops.value.keys| == |live.stops.value.keys| &&
      forall k :: k in live.stops.value.vals ==> k in r.stops.value.vals
  {
    var r := MergeRouteInfo(live, staticInfo, isSame, cmp, keepAnnotation, now, maxDelay);
    var ks := live.stops.value.keys;
    MergedRouteStops(live, staticInfo, isSame, cmp, keepAnnotation, now, maxDelay);
    assert |r.stops.value.keys| == |ks| by {
      assert |multiset(r.stops.value.keys)| == |multiset(ks)|;
    }
    forall k | k in live.stops.value.vals ensures k in r.stops.value.vals {
      var p :| 0 <= p < |ks| && ks[p] == k;
    }
  }

  //
  // The loops of getRouteInfo, as the source runs them
  //

  /**
    * One turn of the walk: the stop at `i` is annotated and, when `move`,
    * queued for the end.
    */
  method WalkStep(live: Stops, staticStops: Option<Stops>, keepAnnotation: bool, stops: Stops, moveToEnd: Stops,
                  i: nat, ghost m: nat, move: bool) returns (stops': Stops, moveToEnd': Stops)
    requires m <= i < |live.keys| && (move ==> m == i)
    requires WalkKeys(live, stops, moveToEnd, m)
    requires WalkVals(live, StaticMatches(live, staticStops), keepAnnotation, stops, moveToEnd, i, m)
    ensures var m' := if move then i + 1 else m;
      WalkKeys(live, stops', moveToEnd', m') &&
      WalkVals(live, StaticMatches(live, staticStops), keepAnnotation, stops', moveToEnd', i + 1, m')
  {
    ghost var matches := StaticMatches(live, staticStops);
    var stopID := live.keys[i];
    AnnotateKeys(live, matches, stops, moveToEnd, i, m);
    KeepVals(live, matches, keepAnnotation, stops, moveToEnd, i, m);
    assert ValueAt(stops.vals, stopID) == Some(live.vals[stopID]);
    var stop := stops.vals[stopID];
    stops' := stops;
    var staticStopID := StaticStopID(stopID, staticStops);
    if staticStopID.Some? {
      stops' := Put(stops, stopID, Annotate(stops.vals[stopID], staticStops.value.vals[staticStopID.value]));
    }
    assert stops' == AnnotateIn(live, matches, stops, stopID);
    moveToEnd' := moveToEnd;
    if move {
      MoveKeys(live, matches, keepAnnotation, stops', moveToEnd, i);
      MoveVals(live, matches, keepAnnotation, stops, moveToEnd, i);
      moveToEnd' := Put(moveToEnd, stopID, if keepAnnotation then stops'.vals[stopID] else stop);
      stops' := Unset(stops', stopID);
    }
  }

  /**
    * Lines 287-324: the walk over the live stops. `$stop` is the live stop as
    * the loop found it; the source queues it (`keepAnnotation` false), the
    * evident intent queues the annotated stop (`keepAnnotation` true).
    */
  method WalkStops(live: Stops, staticStops: Option<Stops>, isSame: SameStop, keepAnnotation: bool) returns (stops: Stops, moveToEnd: Stops)
    ensures var matches := StaticMatches(live, staticStops);
      var m := FirstMatch(live.keys, FirstKey(staticStops), isSame, |live.keys|);
      stops == Kept(live, matches, m) && moveToEnd == Waiting(live, matches, keepAnnotation, m)
  {
    ghost var matches := StaticMatches(live, staticStops);
    var firstStop := FirstKey(staticStops);
    var foundFirstStop := false;
    stops := live;
    moveToEnd := Empty();
    var ids := live.keys;
    assert ids[0..] == ids;
    ghost var m := 0;
    for i := 0 to |ids|
      invariant m == FirstMatch(ids, firstStop, isSame, i) && foundFirstStop == (m < i)
      invariant WalkKeys(live, stops, moveToEnd, m)
      invariant WalkVals(live, matches, keepAnnotation, stops, moveToEnd, i, m)
    {
      FirstMatchNext(ids, firstStop, isSame, i);
      var move := !foundFirstStop && !isSame(Some(ids[i]), firstStop);
      stops, moveToEnd := WalkStep(live, staticStops, keepAnnotation, stops, moveToEnd, i, m, move);
      m := if move then i + 1 else m;
      foundFirstStop := !move;
    }
    KeptDone(live, matches, keepAnnotation, stops, moveToEnd, m);
    WaitingDone(live, matches, keepAnnotation, stops, moveToEnd, m);
  }

  /** Lines 336-359: the flag of every stop that has none. */
  method MarkUpcoming(stops: Stops, isSame: SameStop, now: int, maxDelay: int) returns (r: Stops)
    ensures r == WithUpcoming(stops, isSame, now, maxDelay)
  {
    var stopIDs := stops.keys;
    var firstStopPrevID := FirstPrev(stopIDs, isSame);
    r := stops;
    for index := 0 to |stopIDs|
      invariant r.keys == stops.keys && r.vals == MarkFirst(stops, index, isSame, now, maxDelay)
    {
      var stopID := stopIDs[index];
      MarkFirstAt(stops, index, index, isSame, now, maxDelay);
      MarkFirstNext(stops, index, isSame, now, maxDelay);
      assert stopID in stopIDs;
      if r.vals[stopID].upcoming.None? {
        var arrives := r.vals[stopID].arrives;
        var prevArrives := if index == 0 then ArrivalOf(stops, firstStopPrevID) else ArrivalOf(stops, Some(stopIDs[index - 1]));
        r := Put(r, stopID, r.vals[stopID].(upcoming := Some(UpcomingFlag(arrives, prevArrives, now, maxDelay))));
      } else {
        assert r.vals[stopID := r.vals[stopID]] == r.vals;
      }
    }
    MarkFirstEffect(stops, |stopIDs|, isSame, now, maxDelay);
  }
}
