/**
 backend/routeopt/routeopt.go: pickup-and-delivery routes. One route per shipment is seeded,
 routes are merged by savings, each is shortened by 2-opt, and routes are given to vehicles.

 Distances and durations are given functions of two matrix indices, and exact reals.
 */
module RouteOpt {
  import opened StableSort

  const DEPOT: nat := 0

  /** 1e-9: the slack in every comparison of loads and lengths. */
  const SLACK: real := 0.000000001

  datatype StopType = PICKUP | DELIVERY
  datatype Stop = Stop(stopID: string, shipmentID: string, kind: StopType, matrixIndex: nat, serviceMin: real)
  datatype Shipment = Shipment(id: string, pickup: Stop, delivery: Stop, weightKg: real, volumeCbm: real)
  datatype Vehicle = Vehicle(id: string, capacityKg: real, capacityCbm: real, maxDriveMin: real)

  /** The stops of a route, the depot implied at both ends, and the shipments it serves. */
  datatype Route = Route(stops: seq<Stop>, ids: seq<string>)

  type Matrix = (nat, nat) -> real
  type Shipments = map<string, Shipment>

  // ---- Pickup before delivery ----

  predicate PickedUpBefore(stops: seq<Stop>, i: nat)
    requires i < |stops|
  {
    exists j | 0 <= j < i :: stops[j].kind.PICKUP? && stops[j].shipmentID == stops[i].shipmentID
  }

  /** Every delivery comes after a pickup of its shipment. */
  predicate InOrder(stops: seq<Stop>) {
    forall i | 0 <= i < |stops| && stops[i].kind.DELIVERY? :: PickedUpBefore(stops, i)
  }

  method PickupBeforeDelivery(stops: seq<Stop>) returns (ok: bool)
    ensures ok <==> InOrder(stops)
  {
    var seenPickup: set<string> := {};
    for i := 0 to |stops|
      invariant forall id :: id in seenPickup <==> PickedUp(stops[..i], id)
      invariant forall k | 0 <= k < i && stops[k].kind.DELIVERY? :: PickedUpBefore(stops, k)
    {
      assert stops[..i + 1] == stops[..i] + [stops[i]];
      PickedUpGrows(stops[..i], stops[i]);
      if stops[i].kind.PICKUP? {
        seenPickup := seenPickup + {stops[i].shipmentID};
      } else if stops[i].shipmentID !in seenPickup {
        assert !PickedUpBefore(stops, i) by {
          if j :| 0 <= j < i && stops[j].kind.PICKUP? && stops[j].shipmentID == stops[i].shipmentID {
            assert stops[..i][j] == stops[j];
          }
        }
        return false;
      } else {
        var j :| 0 <= j < i && stops[..i][j].kind.PICKUP? && stops[..i][j].shipmentID == stops[i].shipmentID;
        assert stops[j].kind.PICKUP?;
      }
    }
    return true;
  }

  predicate PickedUp(stops: seq<Stop>, id: string) {
    exists j | 0 <= j < |stops| :: stops[j].kind.PICKUP? && stops[j].shipmentID == id
  }

  lemma PickedUpGrows(stops: seq<Stop>, last: Stop)
    ensures forall id :: PickedUp(stops + [last], id) <==>
      PickedUp(stops, id) || (last.kind.PICKUP? && last.shipmentID == id)
  {
    forall id
      ensures PickedUp(stops + [last], id) <==> PickedUp(stops, id) || (last.kind.PICKUP? && last.shipmentID == id)
    {
      var all := stops + [last];
      if j :| 0 <= j < |stops| && stops[j].kind.PICKUP? && stops[j].shipmentID == id {
        assert all[j] == stops[j];
      }
      assert all[|stops|] == last;
    }
  }

  // ---- Loads ----

  datatype Dim = KG | CBM

  function Amount(s: Shipment, dim: Dim): real {
    if dim.KG? then s.weightKg else s.volumeCbm
  }

  function Change(stop: Stop, byID: Shipments, dim: Dim): real {
    if stop.shipmentID !in byID then 0.0
    else if stop.kind.PICKUP? then Amount(byID[stop.shipmentID], dim)
    else -Amount(byID[stop.shipmentID], dim)
  }

  /** What the truck carries after these stops. */
  function Load(stops: seq<Stop>, byID: Shipments, dim: Dim): real {
    if stops == [] then 0.0
    else Load(stops[..|stops| - 1], byID, dim) + Change(stops[|stops| - 1], byID, dim)
  }

  function Max(a: real, b: real): real {
    if a >= b then a else b
  }

  function Peak(stops: seq<Stop>, byID: Shipments, dim: Dim): real {
    if stops == [] then 0.0
    else Max(Peak(stops[..|stops| - 1], byID, dim), Load(stops, byID, dim))
  }

  /** No stop of the route has more on board than the peak. */
  lemma {:induction false} PeakIsHighest(stops: seq<Stop>, byID: Shipments, dim: Dim, n: nat)
    requires n <= |stops|
    ensures Load(stops[..n], byID, dim) <= Peak(stops, byID, dim)
  {
    if n == |stops| {
      assert stops[..n] == stops;
    } else {
      assert stops[..|stops| - 1][..n] == stops[..n];
      PeakIsHighest(stops[..|stops| - 1], byID, dim, n);
    }
  }

  method PeakLoad(stops: seq<Stop>, byID: Shipments, dim: Dim) returns (peak: real)
    ensures peak == Peak(stops, byID, dim)
  {
    var load := 0.0;
    peak := 0.0;
    for i := 0 to |stops|
      invariant load == Load(stops[..i], byID, dim) && peak == Peak(stops[..i], byID, dim)
    {
      assert stops[..i + 1][..i] == stops[..i];
      PeakIsHighest(stops[..i], byID, dim, i);
      assert stops[..i][..i] == stops[..i];
      if stops[i].shipmentID in byID {
        var amount := Amount(byID[stops[i].shipmentID], dim);
        if stops[i].kind.PICKUP? {
          load := load + amount;
        } else {
          load := load - amount;
        }
        if load > peak {
          peak := load;
        }
      }
    }
    assert stops[..|stops|] == stops;
  }

  /** What is on board after a pickup at position i is within both limits. */
  predicate PickupFits(stops: seq<Stop>, byID: Shipments, capKg: real, capCbm: real, i: nat)
    requires i < |stops|
  {
    stops[i].kind.PICKUP? && stops[i].shipmentID in byID ==>
      Load(stops[..i + 1], byID, KG) <= capKg + SLACK && Load(stops[..i + 1], byID, CBM) <= capCbm + SLACK
  }

  predicate Carries(stops: seq<Stop>, byID: Shipments, capKg: real, capCbm: real) {
    forall i | 0 <= i < |stops| :: PickupFits(stops, byID, capKg, capCbm, i)
  }

  /** Nothing weighs or measures less than nothing. */
  predicate NothingNegative(byID: Shipments) {
    forall id | id in byID :: byID[id].weightKg >= 0.0 && byID[id].volumeCbm >= 0.0
  }

  /** After so many stops what is on board is within both limits. */
  predicate LoadFits(stops: seq<Stop>, byID: Shipments, capKg: real, capCbm: real, n: nat)
    requires n <= |stops|
  {
    Load(stops[..n], byID, KG) <= capKg + 0.000000001 && Load(stops[..n], byID, CBM) <= capCbm + 0.000000001
  }

  lemma {:induction false} LoadFitsUpTo(stops: seq<Stop>, byID: Shipments, capKg: real, capCbm: real, n: nat)
    requires NothingNegative(byID) && capKg >= 0.0 && capCbm >= 0.0
    requires n <= |stops| && Carries(stops, byID, capKg, capCbm)
    ensures LoadFits(stops, byID, capKg, capCbm, n)
  {
    if n > 0 {
      LoadFitsUpTo(stops, byID, capKg, capCbm, n - 1);
      assert stops[..n][..n - 1] == stops[..n - 1];
      assert PickupFits(stops, byID, capKg, capCbm, n - 1);
    }
  }

  /** Looking at the pickups is enough: the check passes exactly when both loads are within limits all the way. */
  lemma CarriesMeaning(stops: seq<Stop>, byID: Shipments, capKg: real, capCbm: real)
    requires NothingNegative(byID) && capKg >= 0.0 && capCbm >= 0.0
    ensures Carries(stops, byID, capKg, capCbm) <==>
      forall n | 0 <= n <= |stops| :: LoadFits(stops, byID, capKg, capCbm, n)
  {
    if Carries(stops, byID, capKg, capCbm) {
      forall n | 0 <= n <= |stops|
        ensures LoadFits(stops, byID, capKg, capCbm, n)
      {
        LoadFitsUpTo(stops, byID, capKg, capCbm, n);
      }
    } else {
      var i :| 0 <= i < |stops| && !PickupFits(stops, byID, capKg, capCbm, i);
      assert !LoadFits(stops, byID, capKg, capCbm, i + 1);
    }
  }

  method RouteFeasibleCapacity(stops: seq<Stop>, byID: Shipments, capKg: real, capCbm: real) returns (ok: bool)
    ensures ok <==> Carries(stops, byID, capKg, capCbm)
  {
    var loadKg, loadCbm := 0.0, 0.0;
    for i := 0 to |stops|
      invariant loadKg == Load(stops[..i], byID, KG) && loadCbm == Load(stops[..i], byID, CBM)
      invariant forall k | 0 <= k < i :: PickupFits(stops, byID, capKg, capCbm, k)
    {
      var stop := stops[i];
      assert stops[..i + 1][..i] == stops[..i];
      if stop.shipmentID !in byID {
        continue;
      }
      var s := byID[stop.shipmentID];
      if stop.kind.PICKUP? {
        loadKg, loadCbm := loadKg + s.weightKg, loadCbm + s.volumeCbm;
        if loadKg > capKg + SLACK || loadCbm > capCbm + SLACK {
          assert !PickupFits(stops, byID, capKg, capCbm, i);
          return false;
        }
      } else {
        loadKg, loadCbm := loadKg - s.weightKg, loadCbm - s.volumeCbm;
      }
    }
    return true;
  }

  // ---- Lengths ----

  /** From the first stop to the last. */
  function Inner(stops: seq<Stop>, d: Matrix): real {
    if |stops| <= 1 then 0.0
    else
      var n := |stops| - 1;
      Inner(stops[..n], d) + d(stops[n - 1].matrixIndex, stops[n].matrixIndex)
  }

  /** From the depot through the stops and back. */
  function Length(stops: seq<Stop>, d: Matrix): real
    requires stops != []
  {
    d(DEPOT, stops[0].matrixIndex) + Inner(stops, d) + d(stops[|stops| - 1].matrixIndex, DEPOT)
  }

  method RouteDistance(stops: seq<Stop>, d: Matrix) returns (total: real)
    requires stops != []
    ensures total == Length(stops, d)
  {
    total := d(DEPOT, stops[0].matrixIndex);
    for i := 0 to |stops| - 1
      invariant total == d(DEPOT, stops[0].matrixIndex) + Inner(stops[..i + 1], d)
    {
      assert stops[..i + 2][..i + 1] == stops[..i + 1];
      total := total + d(stops[i].matrixIndex, stops[i + 1].matrixIndex);
    }
    assert stops[..|stops|] == stops;
    total := total + d(stops[|stops| - 1].matrixIndex, DEPOT);
  }

  function Service(stops: seq<Stop>): real {
    if stops == [] then 0.0 else Service(stops[..|stops| - 1]) + stops[|stops| - 1].serviceMin
  }

  /** Driving and service time from the depot back to it. */
  function Duration(stops: seq<Stop>, t: Matrix): real
    requires stops != []
  {
    Length(stops, t) + Service(stops)
  }

  method RouteDurationMin(stops: seq<Stop>, t: Matrix) returns (total: real)
    requires stops != []
    ensures total == Duration(stops, t)
  {
    total := t(DEPOT, stops[0].matrixIndex);
    for i := 0 to |stops|
      invariant total == t(DEPOT, stops[0].matrixIndex) + Service(stops[..i])
        + (if i < |stops| then Inner(stops[..i + 1], t) else Inner(stops, t) + t(stops[|stops| - 1].matrixIndex, DEPOT))
    {
      assert stops[..i + 1][..i] == stops[..i];
      total := total + stops[i].serviceMin;
      var nextIndex := DEPOT;
      if i < |stops| - 1 {
        nextIndex := stops[i + 1].matrixIndex;
        assert stops[..i + 2][..i + 1] == stops[..i + 1];
      } else {
        assert stops[..i + 1] == stops;
      }
      total := total + t(stops[i].matrixIndex, nextIndex);
    }
    assert stops[..|stops|] == stops;
  }

  // ---- Routes and the shipments in them ----

  /** The pickups and deliveries of some shipments. */
  function Visits(ids: seq<string>, byID: Shipments): multiset<Stop> {
    if ids == [] then multiset{}
    else
      var id := ids[|ids| - 1];
      Visits(ids[..|ids| - 1], byID) + (if id in byID then multiset{byID[id].pickup, byID[id].delivery} else multiset{})
  }

  lemma {:induction false} VisitsConcat(a: seq<string>, b: seq<string>, byID: Shipments)
    ensures Visits(a + b, byID) == Visits(a, byID) + Visits(b, byID)
  {
    if b == [] {
      assert a + b == a;
    } else {
      assert (a + b)[..|a + b| - 1] == a + b[..|b| - 1];
      VisitsConcat(a, b[..|b| - 1], byID);
    }
  }

  /** A route visits exactly the stops of its shipments, each pickup before its delivery. */
  predicate Proper(r: Route, byID: Shipments) {
    r.stops != [] && multiset(r.stops) == Visits(r.ids, byID) && InOrder(r.stops)
  }

  predicate AllProper(routes: seq<Route>, byID: Shipments) {
    forall k | 0 <= k < |routes| :: Proper(routes[k], byID)
  }

  /** The shipments that routes serve, as often as they serve them. */
  function Placed(routes: seq<Route>): multiset<string> {
    PlacedUpTo(routes, |routes|)
  }

  function PlacedUpTo(routes: seq<Route>, n: nat): multiset<string>
    requires n <= |routes|
  {
    if n == 0 then multiset{} else PlacedUpTo(routes, n - 1) + multiset(routes[n - 1].ids)
  }

  // ---- Savings ----

  datatype Limits = Limits(capKg: real, capCbm: real, driveMin: real)
  datatype Problem = Problem(distances: Matrix, durations: Matrix, byID: Shipments, limits: Limits)

  /** A merged route is within some vehicle's reach: order, both loads and the working time. */
  predicate Feasible(stops: seq<Stop>, p: Problem)
    requires stops != []
  {
    && Carries(stops, p.byID, p.limits.capKg, p.limits.capCbm)
    && InOrder(stops)
    && Duration(stops, p.durations) <= p.limits.driveMin
  }

  /** The distance saved by driving from the end of a to the start of b instead of by the depot. */
  function SavingOf(a: Route, b: Route, d: Matrix): real
    requires a.stops != [] && b.stops != []
  {
    var lastA, firstB := a.stops[|a.stops| - 1].matrixIndex, b.stops[0].matrixIndex;
    d(lastA, DEPOT) + d(DEPOT, firstB) - d(lastA, firstB)
  }

  lemma {:induction false} InnerConcat(x: seq<Stop>, y: seq<Stop>, d: Matrix)
    requires x != [] && y != []
    ensures Inner(x + y, d) == Inner(x, d) + d(x[|x| - 1].matrixIndex, y[0].matrixIndex) + Inner(y, d)
  {
    var n := |y| - 1;
    assert (x + y)[..|x + y| - 1] == x + y[..n];
    if n == 0 {
      assert x + y[..n] == x;
    } else {
      InnerConcat(x, y[..n], d);
    }
  }

  lemma {:induction false} ServiceConcat(x: seq<Stop>, y: seq<Stop>)
    ensures Service(x + y) == Service(x) + Service(y)
  {
    if y == [] {
      assert x + y == x;
    } else {
      assert (x + y)[..|x + y| - 1] == x + y[..|y| - 1];
      ServiceConcat(x, y[..|y| - 1]);
    }
  }

  /** The saving of a merge is exactly what the two routes lose by it in length, or in time when taken of durations. */
  lemma MergeSaves(a: Route, b: Route, d: Matrix)
    requires a.stops != [] && b.stops != []
    ensures Length(a.stops + b.stops, d) == Length(a.stops, d) + Length(b.stops, d) - SavingOf(a, b, d)
    ensures Duration(a.stops + b.stops, d) == Duration(a.stops, d) + Duration(b.stops, d) - SavingOf(a, b, d)
  {
    InnerConcat(a.stops, b.stops, d);
    ServiceConcat(a.stops, b.stops);
  }

  /** Where it begins: a shipment by itself is driven to, across and back, and served at both ends. */
  lemma SeedLengthAndDuration(s: Shipment, d: Matrix)
    ensures var way := d(0, s.pickup.matrixIndex) + d(s.pickup.matrixIndex, s.delivery.matrixIndex)
        + d(s.delivery.matrixIndex, 0);
      && Length(SeedOf(s).stops, d) == way
      && Duration(SeedOf(s).stops, d) == way + s.pickup.serviceMin + s.delivery.serviceMin
  {
    var stops := [s.pickup, s.delivery];
    assert stops[..1] == [s.pickup] && [s.pickup][..0] == [];
    assert Inner([s.pickup], d) == 0.0 && Service([s.pickup]) == s.pickup.serviceMin;
  }

  predicate AllStop(routes: seq<Route>) {
    forall k | 0 <= k < |routes| :: routes[k].stops != []
  }

  predicate Mergeable(routes: seq<Route>, p: Problem, i: nat, j: nat)
    requires AllStop(routes)
  {
    && i < |routes| && j < |routes| && i != j
    && SavingOf(routes[i], routes[j], p.distances) > 0.0
    && Feasible(routes[i].stops + routes[j].stops, p)
  }

  function Merged(a: Route, b: Route): Route {
    Route(a.stops + b.stops, a.ids + b.ids)
  }

  /** The first n routes without those at i and j. */
  function Others(routes: seq<Route>, i: nat, j: nat, n: nat): seq<Route>
    requires n <= |routes|
  {
    if n == 0 then []
    else if n - 1 == i || n - 1 == j then Others(routes, i, j, n - 1)
    else Others(routes, i, j, n - 1) + [routes[n - 1]]
  }

  function WithMerged(routes: seq<Route>, i: nat, j: nat): seq<Route>
    requires i < |routes| && j < |routes|
  {
    Others(routes, i, j, |routes|) + [Merged(routes[i], routes[j])]
  }

  /** How often a route serves a shipment, if it is counted. */
  function Serves(r: Route, counted: bool, id: string): nat {
    if counted then multiset(r.ids)[id] else 0
  }

  /** How often the first n routes serve a shipment. */
  function ServedBefore(routes: seq<Route>, n: nat, id: string): nat
    requires n <= |routes|
  {
    if n == 0 then 0 else ServedBefore(routes, n - 1, id) + Serves(routes[n - 1], true, id)
  }

  lemma {:induction false} ServedIsPlaced(routes: seq<Route>, n: nat, id: string)
    requires n <= |routes|
    ensures ServedBefore(routes, n, id) == PlacedUpTo(routes, n)[id]
  {
    if n > 0 {
      ServedIsPlaced(routes, n - 1, id);
    }
  }

  function OthersServe(routes: seq<Route>, i: nat, j: nat, n: nat, id: string): nat
    requires n <= |routes|
  {
    if n == 0 then 0
    else OthersServe(routes, i, j, n - 1, id) + Serves(routes[n - 1], n - 1 != i && n - 1 != j, id)
  }

  lemma {:induction false} OthersServeIsPlaced(routes: seq<Route>, i: nat, j: nat, n: nat, id: string)
    requires n <= |routes|
    ensures OthersServe(routes, i, j, n, id) == Placed(Others(routes, i, j, n))[id]
  {
    if n > 0 {
      OthersServeIsPlaced(routes, i, j, n - 1, id);
      if n - 1 != i && n - 1 != j {
        PlacedAppend(Others(routes, i, j, n - 1), routes[n - 1]);
      }
    }
  }

  lemma {:induction false} OthersServeTheRest(routes: seq<Route>, i: nat, j: nat, n: nat, id: string)
    requires i < |routes| && j < |routes| && i != j && n <= |routes|
    ensures OthersServe(routes, i, j, n, id) + Serves(routes[i], i < n, id) + Serves(routes[j], j < n, id)
         == ServedBefore(routes, n, id)
  {
    if n > 0 {
      OthersServeTheRest(routes, i, j, n - 1, id);
    }
  }

  lemma {:induction false} OthersCount(routes: seq<Route>, i: nat, j: nat, n: nat)
    requires i < |routes| && j < |routes| && i != j && n <= |routes|
    ensures |Others(routes, i, j, n)| + (if i < n then 1 else 0) + (if j < n then 1 else 0) == n
  {
    if n > 0 {
      OthersCount(routes, i, j, n - 1);
    }
  }

  lemma PlacedAppend(routes: seq<Route>, r: Route)
    ensures Placed(routes + [r]) == Placed(routes) + multiset(r.ids)
  {
    SameIDsUpTo(routes + [r], routes, |routes|);
  }

  lemma {:induction false} SameIDsUpTo(a: seq<Route>, b: seq<Route>, n: nat)
    requires n <= |a| && n <= |b| && forall k | 0 <= k < n :: a[k].ids == b[k].ids
    ensures PlacedUpTo(a, n) == PlacedUpTo(b, n)
  {
    if n > 0 {
      SameIDsUpTo(a, b, n - 1);
    }
  }

  lemma {:induction false} OthersAreThere(routes: seq<Route>, i: nat, j: nat, n: nat)
    requires n <= |routes|
    ensures forall r | r in Others(routes, i, j, n) :: r in routes
  {
    if n > 0 {
      OthersAreThere(routes, i, j, n - 1);
    }
  }

  /** A merge moves no shipment in or out, and makes one route fewer. */
  lemma MergeKeepsShipments(routes: seq<Route>, i: nat, j: nat)
    requires i < |routes| && j < |routes| && i != j
    ensures Placed(WithMerged(routes, i, j)) == Placed(routes)
    ensures |WithMerged(routes, i, j)| == |routes| - 1
  {
    OthersCount(routes, i, j, |routes|);
    forall id: string
      ensures Placed(WithMerged(routes, i, j))[id] == Placed(routes)[id]
    {
      MergeKeepsShipment(routes, i, j, id);
    }
  }

  lemma MergeKeepsShipment(routes: seq<Route>, i: nat, j: nat, id: string)
    requires i < |routes| && j < |routes| && i != j
    ensures Placed(WithMerged(routes, i, j))[id] == Placed(routes)[id]
  {
    OthersServeTheRest(routes, i, j, |routes|, id);
    OthersServeIsPlaced(routes, i, j, |routes|, id);
    ServedIsPlaced(routes, |routes|, id);
    PlacedAppend(Others(routes, i, j, |routes|), Merged(routes[i], routes[j]));
    assert multiset(routes[i].ids + routes[j].ids) == multiset(routes[i].ids) + multiset(routes[j].ids);
  }

  /** Merging proper routes whose stops together are in order makes a proper route. */
  lemma MergeKeepsProper(a: Route, b: Route, byID: Shipments)
    requires Proper(a, byID) && Proper(b, byID) && InOrder(a.stops + b.stops)
    ensures Proper(Merged(a, b), byID)
  {
    VisitsConcat(a.ids, b.ids, byID);
  }

  datatype Saving = Saving(i: nat, j: nat, value: real)

  predicate Higher(a: Saving, b: Saving) {
    a.value > b.value
  }

  predicate IsSaving(x: Saving, routes: seq<Route>, d: Matrix)
    requires AllStop(routes)
  {
    x.i < |routes| && x.j < |routes| && x.i != x.j && x.value == SavingOf(routes[x.i], routes[x.j], d) > 0.0
  }

  method Savings(routes: seq<Route>, d: Matrix) returns (savings: seq<Saving>)
    requires AllStop(routes)
    ensures forall x :: x in savings <==> IsSaving(x, routes, d)
  {
    savings := [];
    for i := 0 to |routes|
      invariant forall x :: x in savings <==> IsSaving(x, routes, d) && x.i < i
    {
      for j := 0 to |routes|
        invariant forall x :: x in savings <==> IsSaving(x, routes, d) && (x.i < i || (x.i == i && x.j < j))
      {
        if i == j {
          continue;
        }
        var value := SavingOf(routes[i], routes[j], d);
        if value > 0.0 {
          savings := savings + [Saving(i, j, value)];
        }
      }
    }
  }

  /** The merge at i and j is feasible, and none that is saves more. */
  predicate BestMerge(routes: seq<Route>, p: Problem, i: nat, j: nat)
    requires AllStop(routes)
  {
    && Mergeable(routes, p, i, j)
    && forall x, y | 0 <= x < |routes| && 0 <= y < |routes| && Mergeable(routes, p, x, y) ::
         SavingOf(routes[x], routes[y], p.distances) <= SavingOf(routes[i], routes[j], p.distances)
  }

  predicate NothingMergeable(routes: seq<Route>, p: Problem)
    requires AllStop(routes)
  {
    forall i, j | 0 <= i < |routes| && 0 <= j < |routes| :: !Mergeable(routes, p, i, j)
  }

  method IsFeasible(stops: seq<Stop>, p: Problem) returns (ok: bool)
    requires stops != []
    ensures ok <==> Feasible(stops, p)
  {
    ok := RouteFeasibleCapacity(stops, p.byID, p.limits.capKg, p.limits.capCbm);
    if !ok {
      return;
    }
    ok := PickupBeforeDelivery(stops);
    if !ok {
      return;
    }
    var duration := RouteDurationMin(stops, p.durations);
    ok := !(duration > p.limits.driveMin);
  }

  lemma HigherIsAnOrder()
    ensures StrictWeakOrder(Higher)
  {
  }

  /** One round of merging: the best feasible merge is made, or there is none. */
  method MergeBest(routes: seq<Route>, p: Problem) returns (next: seq<Route>, improved: bool, i: nat, j: nat)
    requires AllStop(routes)
    ensures improved ==> BestMerge(routes, p, i, j) && next == WithMerged(routes, i, j)
    ensures !improved ==> NothingMergeable(routes, p) && next == routes
  {
    next, improved, i, j := routes, false, 0, 0;
    var savings := Savings(routes, p.distances);
    HigherIsAnOrder();
    SortOrdered(savings, Higher);
    var sorted := Sort(savings, Higher);
    forall x
      ensures x in sorted <==> IsSaving(x, routes, p.distances)
    {
      InSort(savings, Higher, x);
    }
    for n := 0 to |sorted|
      invariant !improved && next == routes
      invariant forall m | 0 <= m < n :: !Mergeable(routes, p, sorted[m].i, sorted[m].j)
    {
      var s := sorted[n];
      assert s in sorted;
      var ok := IsFeasible(routes[s.i].stops + routes[s.j].stops, p);
      if ok {
        BestIsFirst(routes, p, sorted, n);
        next := RemoveAndAppend(routes, s.i, s.j);
        return next, true, s.i, s.j;
      }
    }
    NoneInList(routes, p, sorted);
  }

  lemma BestIsFirst(routes: seq<Route>, p: Problem, sorted: seq<Saving>, n: nat)
    requires AllStop(routes) && n < |sorted| && Ordered(sorted, Higher)
    requires forall x :: x in sorted <==> IsSaving(x, routes, p.distances)
    requires forall m | 0 <= m < n :: !Mergeable(routes, p, sorted[m].i, sorted[m].j)
    requires IsSaving(sorted[n], routes, p.distances)
    requires Feasible(routes[sorted[n].i].stops + routes[sorted[n].j].stops, p)
    ensures BestMerge(routes, p, sorted[n].i, sorted[n].j)
  {
    forall x, y | 0 <= x < |routes| && 0 <= y < |routes| && Mergeable(routes, p, x, y)
      ensures SavingOf(routes[x], routes[y], p.distances) <= sorted[n].value
    {
      var s := Saving(x, y, SavingOf(routes[x], routes[y], p.distances));
      assert IsSaving(s, routes, p.distances);
      var m :| 0 <= m < |sorted| && sorted[m] == s;
      assert m >= n;
    }
  }

  lemma NoneInList(routes: seq<Route>, p: Problem, sorted: seq<Saving>)
    requires AllStop(routes)
    requires forall x :: x in sorted <==> IsSaving(x, routes, p.distances)
    requires forall m | 0 <= m < |sorted| :: !Mergeable(routes, p, sorted[m].i, sorted[m].j)
    ensures NothingMergeable(routes, p)
  {
    forall x, y | 0 <= x < |routes| && 0 <= y < |routes|
      ensures !Mergeable(routes, p, x, y)
    {
      if Mergeable(routes, p, x, y) {
        var s := Saving(x, y, SavingOf(routes[x], routes[y], p.distances));
        assert IsSaving(s, routes, p.distances);
      }
    }
  }

  method RemoveAndAppend(routes: seq<Route>, i: nat, j: nat) returns (next: seq<Route>)
    requires i < |routes| && j < |routes|
    ensures next == WithMerged(routes, i, j)
  {
    next := [];
    for n := 0 to |routes|
      invariant next == Others(routes, i, j, n)
    {
      if n == i || n == j {
        continue;
      }
      next := next + [routes[n]];
    }
    next := next + [Merged(routes[i], routes[j])];
  }

  /** A route as it was seeded, or one that was found feasible when it was merged. */
  predicate SeedOrFeasible(r: Route, seeds: seq<Route>, p: Problem) {
    || r in seeds
    || (&& r.stops != [] && InOrder(r.stops) && Carries(r.stops, p.byID, p.limits.capKg, p.limits.capCbm)
        && Duration(r.stops, p.durations) <= p.limits.driveMin)
  }

  predicate Sound(routes: seq<Route>, seeds: seq<Route>, p: Problem) {
    AllProper(routes, p.byID) && forall k | 0 <= k < |routes| :: SeedOrFeasible(routes[k], seeds, p)
  }

  lemma MergeKeepsSound(routes: seq<Route>, seeds: seq<Route>, p: Problem, i: nat, j: nat)
    requires Sound(routes, seeds, p) && i < |routes| && j < |routes|
    requires Feasible(routes[i].stops + routes[j].stops, p)
    ensures Sound(WithMerged(routes, i, j), seeds, p)
  {
    var next := WithMerged(routes, i, j);
    OthersAreThere(routes, i, j, |routes|);
    MergeKeepsProper(routes[i], routes[j], p.byID);
    forall k | 0 <= k < |next|
      ensures Proper(next[k], p.byID) && SeedOrFeasible(next[k], seeds, p)
    {
      if k < |next| - 1 {
        assert next[k] in Others(routes, i, j, |routes|);
        var m :| 0 <= m < |routes| && routes[m] == next[k];
        assert Proper(routes[m], p.byID);
      }
    }
  }

  /** One round: the feasible merge that saves most is made. */
  ghost predicate MergeStep(from: seq<Route>, to: seq<Route>, p: Problem) {
    AllStop(from) && exists i: nat, j: nat :: BestMerge(from, p, i, j) && to == WithMerged(from, i, j)
  }

  ghost predicate MergedBy(seeds: seq<Route>, rounds: seq<seq<Route>>, p: Problem) {
    rounds != [] && rounds[0] == seeds && forall k | 0 <= k < |rounds| - 1 :: MergeStep(rounds[k], rounds[k + 1], p)
  }

  /** The rounds lead from the seeds to routes of which no feasible merge saves anything. */
  ghost predicate MergedOut(seeds: seq<Route>, rounds: seq<seq<Route>>, p: Problem) {
    && MergedBy(seeds, rounds, p)
    && AllStop(rounds[|rounds| - 1]) && NothingMergeable(rounds[|rounds| - 1], p)
  }

  lemma RoundAdded(seeds: seq<Route>, rounds: seq<seq<Route>>, next: seq<Route>, p: Problem, i: nat, j: nat)
    requires MergedBy(seeds, rounds, p) && AllStop(rounds[|rounds| - 1])
    requires BestMerge(rounds[|rounds| - 1], p, i, j) && next == WithMerged(rounds[|rounds| - 1], i, j)
    ensures MergedBy(seeds, rounds + [next], p)
  {
    var more := rounds + [next];
    forall k | 0 <= k < |more| - 1
      ensures MergeStep(more[k], more[k + 1], p)
    {
      if k < |rounds| - 1 {
        assert MergeStep(rounds[k], rounds[k + 1], p);
      } else {
        assert MergeStep(rounds[k], next, p);
      }
    }
  }

  lemma ProperRoutesStop(routes: seq<Route>, byID: Shipments)
    requires AllProper(routes, byID)
    ensures AllStop(routes)
  {
    assert forall k | 0 <= k < |routes| :: Proper(routes[k], byID);
  }

  /**
   Ends, moves every shipment along, keeps every route proper, lets no merge exceed the limits, and
   stops only when no feasible merge would save anything; each round makes the best feasible merge.
   */
  method ClarkeWrightMerge(seeds: seq<Route>, p: Problem) returns (working: seq<Route>, ghost rounds: seq<seq<Route>>)
    requires AllProper(seeds, p.byID)
    ensures Placed(working) == Placed(seeds) && Sound(working, seeds, p)
    ensures MergedOut(seeds, rounds, p) && working == rounds[|rounds| - 1]
  {
    working, rounds := seeds, [seeds];
    ProperRoutesStop(seeds, p.byID);
    var improved := true;
    while improved
      invariant Placed(working) == Placed(seeds) && Sound(working, seeds, p) && AllStop(working)
      invariant MergedBy(seeds, rounds, p) && working == rounds[|rounds| - 1]
      invariant !improved ==> NothingMergeable(working, p)
      decreases |working|, improved
    {
      var next, i, j;
      next, improved, i, j := MergeBest(working, p);
      if improved {
        MergeKeepsShipments(working, i, j);
        MergeKeepsSound(working, seeds, p, i, j);
        RoundAdded(seeds, rounds, next, p, i, j);
        rounds := rounds + [next];
      }
      working := next;
      ProperRoutesStop(working, p.byID);
    }
  }

  // ---- 2-opt ----

  function Reversed(stops: seq<Stop>): seq<Stop> {
    if stops == [] then [] else [stops[|stops| - 1]] + Reversed(stops[..|stops| - 1])
  }

  function Swapped(stops: seq<Stop>, i: nat, k: nat): seq<Stop>
    requires i <= k < |stops|
  {
    stops[..i] + Reversed(stops[i..k + 1]) + stops[k + 1..]
  }

  method TwoOptSwap(stops: seq<Stop>, i: nat, k: nat) returns (out: seq<Stop>)
    requires i <= k < |stops|
    ensures out == Swapped(stops, i, k)
  {
    out := stops[..i];
    var x := k + 1;
    while x > i
      invariant i <= x <= k + 1
      invariant out + Reversed(stops[i..x]) == stops[..i] + Reversed(stops[i..k + 1])
    {
      x := x - 1;
      assert stops[i..x + 1] == stops[i..x] + [stops[x]];
      assert stops[i..x + 1][..x - i] == stops[i..x];
      out := out + [stops[x]];
    }
    assert stops[i..i] == [];
    out := out + stops[k + 1..];
  }

  lemma {:induction false} ReversedPermutes(stops: seq<Stop>)
    ensures multiset(Reversed(stops)) == multiset(stops)
  {
    if stops != [] {
      ReversedPermutes(stops[..|stops| - 1]);
      assert stops == stops[..|stops| - 1] + [stops[|stops| - 1]];
    }
  }

  lemma SwappedPermutes(stops: seq<Stop>, i: nat, k: nat)
    requires i <= k < |stops|
    ensures multiset(Swapped(stops, i, k)) == multiset(stops) && |Swapped(stops, i, k)| == |stops|
  {
    ReversedPermutes(stops[i..k + 1]);
    assert stops == stops[..i] + stops[i..k + 1] + stops[k + 1..];
    assert |multiset(Swapped(stops, i, k))| == |multiset(stops)|;
  }

  /** Reversing this stretch keeps every pickup before its delivery and shortens the route by more than the slack. */
  predicate Shortens(stops: seq<Stop>, d: Matrix, i: nat, k: nat)
    requires i <= k < |stops|
  {
    var candidate := Swapped(stops, i, k);
    candidate != [] && InOrder(candidate) && Length(candidate, d) < Length(stops, d) - SLACK
  }

  /** No reversal of a stretch shortens the route any more. */
  predicate TwoOptimal(stops: seq<Stop>, d: Matrix) {
    forall i, k | 0 <= i < k < |stops| :: !Shortens(stops, d, i, k)
  }

  // ---- Why 2-opt ends ----

  function Min(a: real, b: real): real {
    if a <= b then a else b
  }

  /** A leg shorter than or as short as every leg from this place to those of the stops, and zero. */
  function LeastFrom(from: nat, stops: seq<Stop>, d: Matrix): real {
    if stops == [] then Min(0.0, d(from, DEPOT))
    else Min(LeastFrom(from, stops[1..], d), d(from, stops[0].matrixIndex))
  }

  function LeastLeg(froms: seq<Stop>, stops: seq<Stop>, d: Matrix): real {
    if froms == [] then LeastFrom(DEPOT, stops, d)
    else Min(LeastLeg(froms[1..], stops, d), LeastFrom(froms[0].matrixIndex, stops, d))
  }

  lemma {:induction false} LeastFromIsLeast(from: nat, stops: seq<Stop>, d: Matrix)
    ensures LeastFrom(from, stops, d) <= 0.0 && LeastFrom(from, stops, d) <= d(from, DEPOT)
    ensures forall b | b in stops :: LeastFrom(from, stops, d) <= d(from, b.matrixIndex)
  {
    if stops != [] {
      LeastFromIsLeast(from, stops[1..], d);
      assert stops == [stops[0]] + stops[1..];
    }
  }

  lemma {:induction false} LeastLegIsLeast(froms: seq<Stop>, stops: seq<Stop>, d: Matrix)
    ensures var least := LeastLeg(froms, stops, d);
      && least <= 0.0
      && (forall b | b in stops :: least <= d(DEPOT, b.matrixIndex))
      && (forall a | a in froms :: least <= d(a.matrixIndex, DEPOT))
      && (forall a, b | a in froms && b in stops :: least <= d(a.matrixIndex, b.matrixIndex))
  {
    if froms == [] {
      LeastFromIsLeast(DEPOT, stops, d);
    } else {
      LeastLegIsLeast(froms[1..], stops, d);
      LeastFromIsLeast(froms[0].matrixIndex, stops, d);
      assert froms == [froms[0]] + froms[1..];
    }
  }

  function Times(n: nat, x: real): real {
    if n == 0 then 0.0 else Times(n - 1, x) + x
  }

  /** No order of the stops is shorter than this. */
  function Floor(stops: seq<Stop>, d: Matrix): real {
    Times(|stops| + 1, LeastLeg(stops, stops, d))
  }

  lemma {:induction false} InnerIsBounded(stops: seq<Stop>, d: Matrix, least: real)
    requires least <= 0.0 && forall a, b | a in stops && b in stops :: least <= d(a.matrixIndex, b.matrixIndex)
    requires stops != []
    ensures Inner(stops, d) >= Times(|stops| - 1, least)
  {
    if |stops| > 1 {
      var n := |stops| - 1;
      assert stops == stops[..n] + [stops[n]];
      InnerIsBounded(stops[..n], d, least);
      assert least <= d(stops[n - 1].matrixIndex, stops[n].matrixIndex);
    }
  }

  predicate LegsAtLeast(stops: seq<Stop>, d: Matrix, least: real) {
    && least <= 0.0
    && (forall b | b in stops :: least <= d(DEPOT, b.matrixIndex))
    && (forall a | a in stops :: least <= d(a.matrixIndex, DEPOT))
    && (forall a, b | a in stops && b in stops :: least <= d(a.matrixIndex, b.matrixIndex))
  }

  lemma LengthAtLeast(stops: seq<Stop>, d: Matrix, least: real)
    requires stops != [] && LegsAtLeast(stops, d, least)
    ensures Length(stops, d) >= Times(|stops| + 1, least)
  {
    InnerIsBounded(stops, d, least);
    assert Times(|stops|, least) == Times(|stops| - 1, least) + least;
    assert stops[0] in stops && stops[|stops| - 1] in stops;
  }

  lemma SameStops(stops: seq<Stop>, best: seq<Stop>, d: Matrix, least: real)
    requires multiset(best) == multiset(stops) && LegsAtLeast(stops, d, least)
    ensures LegsAtLeast(best, d, least)
  {
    forall a | a in best
      ensures a in stops
    {
      assert a in multiset(best);
    }
  }

  lemma LengthIsBounded(stops: seq<Stop>, best: seq<Stop>, d: Matrix)
    requires stops != [] && multiset(best) == multiset(stops) && |best| == |stops|
    ensures Length(best, d) >= Floor(stops, d)
  {
    var least := LeastLeg(stops, stops, d);
    LeastLegIsLeast(stops, stops, d);
    SameStops(stops, best, d, least);
    LengthAtLeast(best, d, least);
  }

  /** How many improvements there can still be. */
  ghost function Improvements(length: real, floor: real): int {
    ((length - floor) * 1000000000.0).Floor
  }

  lemma ImprovementsRunOut(before: real, after: real, floor: real)
    requires after < before - SLACK && floor <= after
    ensures 0 <= Improvements(after, floor) < Improvements(before, floor)
  {
    assert (before - floor) * 1000000000.0 > (after - floor) * 1000000000.0 + 1.0;
  }

  /** An order of the stops that keeps pickups before deliveries, and its length. */
  predicate Tour(stops: seq<Stop>, best: seq<Stop>, bestDist: real, d: Matrix)
    requires stops != []
  {
    && multiset(best) == multiset(stops) && |best| == |stops| && InOrder(best)
    && bestDist == Length(best, d)
  }

  /** Either something has been shortened since the round began, or nothing has changed. */
  predicate Progress(start: seq<Stop>, startDist: real, best: seq<Stop>, bestDist: real, improved: bool) {
    if improved then bestDist < startDist - SLACK else best == start && bestDist == startDist
  }

  predicate RowDone(best: seq<Stop>, d: Matrix, i: nat, k: nat)
    requires k <= |best|
  {
    forall y | i < y < k :: !Shortens(best, d, i, y)
  }

  /**
   Ends, keeps the stops and their order of pickups, never lengthens the route, and leaves no
   reversal that would shorten it. Routes of fewer than four stops are left alone.
   */
  method TwoOptImprove(stops: seq<Stop>, d: Matrix) returns (best: seq<Stop>)
    requires stops != [] && InOrder(stops)
    ensures multiset(best) == multiset(stops) && |best| == |stops| && InOrder(best)
    ensures Length(best, d) <= Length(stops, d)
    ensures |stops| < 4 ==> best == stops
    ensures |stops| >= 4 ==> TwoOptimal(best, d)
  {
    if |stops| < 4 {
      return stops;
    }
    best := stops;
    var bestDist := RouteDistance(best, d);
    var improved := true;
    while improved
      invariant Tour(stops, best, bestDist, d) && bestDist <= Length(stops, d)
      invariant !improved ==> TwoOptimal(best, d)
      decreases Improvements(bestDist, Floor(stops, d)), improved
    {
      best, bestDist, improved := TwoOptPass(stops, best, bestDist, d);
    }
  }

  /** One round over all pairs; what shortens is taken at once, and the round goes on from there. */
  method TwoOptPass(stops: seq<Stop>, start: seq<Stop>, startDist: real, d: Matrix)
    returns (best: seq<Stop>, bestDist: real, improved: bool)
    requires stops != [] && Tour(stops, start, startDist, d)
    ensures Tour(stops, best, bestDist, d) && Progress(start, startDist, best, bestDist, improved)
    ensures improved ==> 0 <= Improvements(bestDist, Floor(stops, d)) < Improvements(startDist, Floor(stops, d))
    ensures !improved ==> TwoOptimal(best, d)
  {
    best, bestDist, improved := start, startDist, false;
    for i := 0 to |best| - 1
      invariant Tour(stops, best, bestDist, d) && Progress(start, startDist, best, bestDist, improved)
      invariant !improved ==> forall x | 0 <= x < i :: RowDone(best, d, x, |best|)
    {
      best, bestDist, improved := TwoOptRow(stops, start, startDist, d, i, best, bestDist, improved);
    }
    if improved {
      LengthIsBounded(stops, best, d);
      ImprovementsRunOut(startDist, bestDist, Floor(stops, d));
    } else {
      forall i, k | 0 <= i < k < |best|
        ensures !Shortens(best, d, i, k)
      {
        assert RowDone(best, d, i, |best|);
      }
    }
  }

  /** The inner loop, for the pairs that begin at i. */
  method TwoOptRow(stops: seq<Stop>, ghost start: seq<Stop>, ghost startDist: real, d: Matrix, i: nat,
                   before: seq<Stop>, beforeDist: real, already: bool)
    returns (best: seq<Stop>, bestDist: real, improved: bool)
    requires stops != [] && i < |stops| && Tour(stops, before, beforeDist, d)
    requires Progress(start, startDist, before, beforeDist, already)
    ensures Tour(stops, best, bestDist, d) && Progress(start, startDist, best, bestDist, improved)
    ensures already ==> improved
    ensures !improved ==> RowDone(best, d, i, |best|)
  {
    best, bestDist, improved := before, beforeDist, already;
    for k := i + 1 to |best|
      invariant Tour(stops, best, bestDist, d) && Progress(start, startDist, best, bestDist, improved)
      invariant (already ==> improved) && (!improved ==> RowDone(best, d, i, k))
    {
      var took;
      best, bestDist, took := TwoOptTry(stops, best, bestDist, d, i, k);
      if took {
        improved := true;
      } else if !improved {
        RowDoneStep(best, d, i, k);
      }
    }
  }

  lemma RowDoneStep(best: seq<Stop>, d: Matrix, i: nat, k: nat)
    requires i < k < |best| && RowDone(best, d, i, k) && !Shortens(best, d, i, k)
    ensures RowDone(best, d, i, k + 1)
  {
  }

  /** One pair: its reversal is taken if it keeps the order and is shorter by more than the slack. */
  method TwoOptTry(stops: seq<Stop>, before: seq<Stop>, beforeDist: real, d: Matrix, i: nat, k: nat)
    returns (best: seq<Stop>, bestDist: real, took: bool)
    requires stops != [] && i < k < |stops| && Tour(stops, before, beforeDist, d)
    ensures Tour(stops, best, bestDist, d)
    ensures took ==> bestDist < beforeDist - SLACK
    ensures !took ==> best == before && bestDist == beforeDist
    ensures !took ==> !Shortens(before, d, i, k)
  {
    best, bestDist, took := before, beforeDist, false;
    var candidate := TwoOptSwap(best, i, k);
    SwappedPermutes(best, i, k);
    var ordered := PickupBeforeDelivery(candidate);
    if !ordered {
      return;
    }
    var dist := RouteDistance(candidate, d);
    if dist < bestDist - SLACK {
      best, bestDist, took := candidate, dist, true;
    }
  }

  // ---- Vehicles ----

  datatype Loaded = Loaded(route: Route, peakKg: real, peakCbm: real)
  datatype Assignment = Assignment(route: Route, vehicle: Vehicle)
  datatype Option<+T> = None | Some(value: T)

  predicate Heavier(a: Loaded, b: Loaded) {
    a.peakKg > b.peakKg
  }

  predicate SmallerTruck(a: Vehicle, b: Vehicle) {
    a.capacityKg < b.capacityKg
  }

  lemma TruckAndLoadOrders()
    ensures StrictWeakOrder(Heavier) && StrictWeakOrder(SmallerTruck)
  {
  }

  /** The vehicle can carry the route at its peak. */
  predicate Fits(v: Vehicle, r: Route, byID: Shipments) {
    v.capacityKg + SLACK >= Peak(r.stops, byID, KG) && v.capacityCbm + SLACK >= Peak(r.stops, byID, CBM)
  }

  predicate Weighed(l: Loaded, byID: Shipments) {
    l.peakKg == Peak(l.route.stops, byID, KG) && l.peakCbm == Peak(l.route.stops, byID, CBM)
  }

  function RoutesOf(given: seq<Assignment>): seq<Route> {
    seq(|given|, k requires 0 <= k < |given| => given[k].route)
  }

  /** What is counted over routes: how often they serve a shipment, or how often they are one route. */
  datatype Counted = Serving(id: string) | Being(route: Route)

  function Weight(r: Route, c: Counted): nat {
    match c
    case Serving(id) => multiset(r.ids)[id]
    case Being(route) => if r == route then 1 else 0
  }

  function Total(routes: seq<Route>, c: Counted): nat {
    if routes == [] then 0 else Total(routes[..|routes| - 1], c) + Weight(routes[|routes| - 1], c)
  }

  lemma TotalAppend(routes: seq<Route>, r: Route, c: Counted)
    ensures Total(routes + [r], c) == Total(routes, c) + Weight(r, c)
  {
    assert (routes + [r])[..|routes|] == routes;
  }

  lemma {:induction false} TotalServing(routes: seq<Route>, id: string)
    ensures Total(routes, Serving(id)) == Placed(routes)[id] == multiset(IDsOf(routes))[id]
  {
    if routes == [] {
    } else {
      var n := |routes| - 1;
      TotalServing(routes[..n], id);
      PlacedAppend(routes[..n], routes[n]);
      assert routes == routes[..n] + [routes[n]];
      assert multiset(IDsOf(routes[..n]) + routes[n].ids) == multiset(IDsOf(routes[..n])) + multiset(routes[n].ids);
    }
  }

  lemma {:induction false} TotalBeing(routes: seq<Route>, r: Route)
    ensures Total(routes, Being(r)) == multiset(routes)[r]
  {
    if routes == [] {
    } else {
      var n := |routes| - 1;
      TotalBeing(routes[..n], r);
      assert routes == routes[..n] + [routes[n]];
    }
  }

  /** The same over the routes of some loads. */
  function LoadsTotal(loads: seq<Loaded>, c: Counted): nat {
    if loads == [] then 0 else Weight(loads[0].route, c) + LoadsTotal(loads[1..], c)
  }

  lemma {:induction false} LoadsTotalInsert(x: Loaded, loads: seq<Loaded>, c: Counted)
    ensures LoadsTotal(Insert(x, loads, Heavier), c) == Weight(x.route, c) + LoadsTotal(loads, c)
  {
    if loads == [] || !Heavier(loads[0], x) {
      assert ([x] + loads)[1..] == loads;
    } else {
      LoadsTotalInsert(x, loads[1..], c);
      assert Insert(x, loads, Heavier)[1..] == Insert(x, loads[1..], Heavier);
    }
  }

  lemma {:induction false} LoadsTotalSorted(loads: seq<Loaded>, c: Counted)
    ensures LoadsTotal(Sort(loads, Heavier), c) == LoadsTotal(loads, c)
  {
    if loads != [] {
      LoadsTotalSorted(loads[1..], c);
      LoadsTotalInsert(loads[0], Sort(loads[1..], Heavier), c);
    }
  }

  lemma {:induction false} LoadsTotalAppend(loads: seq<Loaded>, x: Loaded, c: Counted)
    ensures LoadsTotal(loads + [x], c) == LoadsTotal(loads, c) + Weight(x.route, c)
  {
    if loads != [] {
      LoadsTotalAppend(loads[1..], x, c);
      assert (loads + [x])[1..] == loads[1..] + [x];
    } else {
      assert (loads + [x])[1..] == [];
    }
  }

  method WeighRoutes(routes: seq<Route>, byID: Shipments) returns (loads: seq<Loaded>)
    ensures |loads| == |routes|
    ensures forall k | 0 <= k < |loads| :: loads[k].route == routes[k] && Weighed(loads[k], byID)
    ensures forall c :: LoadsTotal(loads, c) == Total(routes, c)
  {
    loads := [];
    assert routes[..0] == [];
    for n := 0 to |routes|
      invariant |loads| == n
      invariant forall k | 0 <= k < n :: loads[k].route == routes[k] && Weighed(loads[k], byID)
      invariant forall c :: LoadsTotal(loads, c) == Total(routes[..n], c)
    {
      var kg := PeakLoad(routes[n].stops, byID, KG);
      var cbm := PeakLoad(routes[n].stops, byID, CBM);
      forall c: Counted
        ensures LoadsTotal(loads + [Loaded(routes[n], kg, cbm)], c) == Total(routes[..n] + [routes[n]], c)
      {
        LoadsTotalAppend(loads, Loaded(routes[n], kg, cbm), c);
        TotalAppend(routes[..n], routes[n], c);
      }
      assert routes[..n + 1] == routes[..n] + [routes[n]];
      loads := loads + [Loaded(routes[n], kg, cbm)];
    }
    assert routes[..|routes|] == routes;
  }

  predicate Takes(v: Vehicle, used: set<string>, l: Loaded) {
    v.id !in used && v.capacityKg + SLACK >= l.peakKg && v.capacityCbm + SLACK >= l.peakCbm
  }

  /** The first vehicle that is free and can carry the load. */
  method FirstFit(vehicles: seq<Vehicle>, used: set<string>, l: Loaded) returns (fit: Option<Vehicle>)
    requires Ordered(vehicles, SmallerTruck)
    ensures fit.Some? ==> fit.value in vehicles && Takes(fit.value, used, l)
    ensures fit.Some? ==> forall v | v in vehicles && Takes(v, used, l) :: fit.value.capacityKg <= v.capacityKg
    ensures fit.None? ==> forall v | v in vehicles :: !Takes(v, used, l)
  {
    for i := 0 to |vehicles|
      invariant forall k | 0 <= k < i :: !Takes(vehicles[k], used, l)
    {
      if vehicles[i].id in used {
        continue;
      }
      if vehicles[i].capacityKg + SLACK >= l.peakKg && vehicles[i].capacityCbm + SLACK >= l.peakCbm {
        assert forall k | i < k < |vehicles| :: !SmallerTruck(vehicles[k], vehicles[i]);
        return Some(vehicles[i]);
      }
    }
    return None;
  }

  predicate DistinctVehicles(given: seq<Assignment>) {
    forall i, j | 0 <= i < j < |given| :: given[i].vehicle.id != given[j].vehicle.id
  }

  /** Some route at least as heavy as this one has been given a vehicle of this name. */
  predicate GivenToHeavier(given: seq<Assignment>, vehicleID: string, peakKg: real, byID: Shipments) {
    exists k | 0 <= k < |given| ::
      given[k].vehicle.id == vehicleID && Peak(given[k].route.stops, byID, KG) >= peakKg
  }

  /** Every vehicle that could have carried the route carries one at least as heavy. */
  predicate RightlyLeft(r: Route, vehicles: seq<Vehicle>, given: seq<Assignment>, byID: Shipments) {
    forall v | v in vehicles && Fits(v, r, byID) :: GivenToHeavier(given, v.id, Peak(r.stops, byID, KG), byID)
  }

  function IDsOf(routes: seq<Route>): seq<string> {
    if routes == [] then [] else IDsOf(routes[..|routes| - 1]) + routes[|routes| - 1].ids
  }

  /** Every smaller vehicle that could have carried the route given out k-th was given out before it. */
  predicate SmallestFree(given: seq<Assignment>, k: nat, vehicles: seq<Vehicle>, byID: Shipments)
    requires k < |given|
  {
    forall v | v in vehicles && Fits(v, given[k].route, byID) && v.capacityKg < given[k].vehicle.capacityKg ::
      exists j | 0 <= j < k :: given[j].vehicle.id == v.id
  }

  predicate HeaviestFirst(given: seq<Assignment>, byID: Shipments) {
    forall j, k | 0 <= j < k < |given| :: Peak(given[j].route.stops, byID, KG) >= Peak(given[k].route.stops, byID, KG)
  }

  /** What holds of the vehicles given out for some of the loads, heaviest first. */
  ghost predicate GivenOut(routes: seq<Route>, vehicles: seq<Vehicle>, byID: Shipments, given: seq<Assignment>,
      left: seq<Route>) {
    && (forall a | a in given :: a.route in routes && a.vehicle in vehicles && Fits(a.vehicle, a.route, byID))
    && DistinctVehicles(given) && HeaviestFirst(given, byID)
    && (forall k | 0 <= k < |given| :: SmallestFree(given, k, vehicles, byID))
    && (forall r | r in left :: r in routes && RightlyLeft(r, vehicles, given, byID))
  }

  lemma RightlyLeftStays(r: Route, vehicles: seq<Vehicle>, given: seq<Assignment>, a: Assignment, byID: Shipments)
    requires RightlyLeft(r, vehicles, given, byID)
    ensures RightlyLeft(r, vehicles, given + [a], byID)
  {
    forall v | v in vehicles && Fits(v, r, byID)
      ensures GivenToHeavier(given + [a], v.id, Peak(r.stops, byID, KG), byID)
    {
      var k :| 0 <= k < |given|
        && given[k].vehicle.id == v.id && Peak(given[k].route.stops, byID, KG) >= Peak(r.stops, byID, KG);
      assert (given + [a])[k] == given[k];
    }
  }

  lemma LeftIsRight(r: Route, vehicles: seq<Vehicle>, used: set<string>, given: seq<Assignment>, byID: Shipments,
      l: Loaded)
    requires l.route == r && Weighed(l, byID) && forall v | v in vehicles :: !Takes(v, used, l)
    requires forall id | id in used :: GivenToHeavier(given, id, l.peakKg, byID)
    ensures RightlyLeft(r, vehicles, given, byID)
  {
  }

  lemma HeavierThanNext(given: seq<Assignment>, id: string, a: real, b: real, byID: Shipments)
    requires GivenToHeavier(given, id, a, byID) && a >= b
    ensures GivenToHeavier(given, id, b, byID)
  {
  }

  lemma IDsAppend(routes: seq<Route>, r: Route)
    ensures IDsOf(routes + [r]) == IDsOf(routes) + r.ids
  {
    assert (routes + [r])[..|routes|] == routes;
  }

  /** The count over the routes given out and those left. */
  function Dealt(given: seq<Assignment>, left: seq<Route>, c: Counted): nat {
    Total(RoutesOf(given), c) + Total(left, c)
  }

  lemma DealtGrows(given: seq<Assignment>, left: seq<Route>, a: Assignment, c: Counted)
    ensures Dealt(given + [a], left, c) == Dealt(given, left, c) + Weight(a.route, c)
    ensures Dealt(given, left + [a.route], c) == Dealt(given, left, c) + Weight(a.route, c)
  {
    assert RoutesOf(given + [a]) == RoutesOf(given) + [a.route];
    TotalAppend(RoutesOf(given), a.route, c);
    TotalAppend(left, a.route, c);
  }

  lemma SmallestFreeGrows(vehicles: seq<Vehicle>, byID: Shipments, given: seq<Assignment>, a: Assignment)
    requires forall k | 0 <= k < |given| :: SmallestFree(given, k, vehicles, byID)
    requires forall v | v in vehicles && Fits(v, a.route, byID) && v.capacityKg < a.vehicle.capacityKg ::
      exists j | 0 <= j < |given| :: given[j].vehicle.id == v.id
    ensures forall k | 0 <= k < |given + [a]| :: SmallestFree(given + [a], k, vehicles, byID)
  {
    var more := given + [a];
    forall k, v | 0 <= k < |more| && v in vehicles && Fits(v, more[k].route, byID)
        && v.capacityKg < more[k].vehicle.capacityKg
      ensures exists j | 0 <= j < k :: more[j].vehicle.id == v.id
    {
      if k < |given| {
        assert SmallestFree(given, k, vehicles, byID);
      }
      var j :| 0 <= j < k && given[j].vehicle.id == v.id;
      assert more[j] == given[j];
    }
  }

  lemma GivenOutGrows(routes: seq<Route>, vehicles: seq<Vehicle>, byID: Shipments, given: seq<Assignment>,
      left: seq<Route>, a: Assignment)
    requires GivenOut(routes, vehicles, byID, given, left)
    requires a.route in routes && a.vehicle in vehicles && Fits(a.vehicle, a.route, byID)
    requires forall k | 0 <= k < |given| :: given[k].vehicle.id != a.vehicle.id
    requires forall k | 0 <= k < |given| ::
      Peak(given[k].route.stops, byID, KG) >= Peak(a.route.stops, byID, KG)
    requires forall v | v in vehicles && Fits(v, a.route, byID) && v.capacityKg < a.vehicle.capacityKg ::
      exists j | 0 <= j < |given| :: given[j].vehicle.id == v.id
    ensures GivenOut(routes, vehicles, byID, given + [a], left)
  {
    SmallestFreeGrows(vehicles, byID, given, a);
    forall r | r in left
      ensures RightlyLeft(r, vehicles, given + [a], byID)
    {
      RightlyLeftStays(r, vehicles, given, a, byID);
    }
  }

  /** Each vehicle named carries a route at least this heavy. */
  ghost predicate AllCarry(used: set<string>, given: seq<Assignment>, peakKg: real, byID: Shipments) {
    forall id | id in used :: GivenToHeavier(given, id, peakKg, byID)
  }

  lemma AllCarryGrows(used: set<string>, given: seq<Assignment>, a: Assignment, peakKg: real, byID: Shipments)
    requires AllCarry(used, given, peakKg, byID) && Peak(a.route.stops, byID, KG) >= peakKg
    ensures AllCarry(used + {a.vehicle.id}, given + [a], peakKg, byID)
  {
    var more := given + [a];
    forall id | id in used + {a.vehicle.id}
      ensures GivenToHeavier(more, id, peakKg, byID)
    {
      if id in used {
        var k :| 0 <= k < |given| && given[k].vehicle.id == id && Peak(given[k].route.stops, byID, KG) >= peakKg;
        assert more[k] == given[k];
      } else {
        assert more[|given|] == a;
      }
    }
  }

  lemma AllCarryLess(used: set<string>, given: seq<Assignment>, more: real, less: real, byID: Shipments)
    requires AllCarry(used, given, more, byID) && less <= more
    ensures AllCarry(used, given, less, byID)
  {
    forall id | id in used
      ensures GivenToHeavier(given, id, less, byID)
    {
      HeavierThanNext(given, id, more, less, byID);
    }
  }

  /** The loads to be dealt out, heaviest first, and the vehicles, smallest first. */
  ghost predicate Lined(routes: seq<Route>, vehicles: seq<Vehicle>, byID: Shipments, loads: seq<Loaded>,
      trucks: seq<Vehicle>) {
    && (forall l | l in loads :: l.route in routes && Weighed(l, byID))
    && (forall v :: v in trucks <==> v in vehicles)
    && Ordered(loads, Heavier) && Ordered(trucks, SmallerTruck)
    && (forall c :: LoadsTotal(loads, c) == Total(routes, c))
  }

  method LineUp(routes: seq<Route>, vehicles: seq<Vehicle>, byID: Shipments)
    returns (loads: seq<Loaded>, trucks: seq<Vehicle>)
    ensures Lined(routes, vehicles, byID, loads, trucks)
  {
    var weighed := WeighRoutes(routes, byID);
    loads, trucks := Sort(weighed, Heavier), Sort(vehicles, SmallerTruck);
    TruckAndLoadOrders();
    SortOrdered(weighed, Heavier);
    SortOrdered(vehicles, SmallerTruck);
    forall l | l in loads
      ensures l.route in routes && Weighed(l, byID)
    {
      InSort(weighed, Heavier, l);
      var k :| 0 <= k < |weighed| && weighed[k] == l;
    }
    forall v
      ensures v in trucks <==> v in vehicles
    {
      InSort(vehicles, SmallerTruck, v);
    }
    forall c: Counted
      ensures LoadsTotal(loads, c) == Total(routes, c)
    {
      LoadsTotalSorted(weighed, c);
    }
  }

  /**
   Heaviest route first, smallest vehicle first. Every route is given out once or left; no vehicle
   gets two, or one it cannot carry at its peak; every smaller vehicle that could carry a route was
   given out before it; and a route is left only when every vehicle that could carry it carries one
   at least as heavy.
   */
  method AssignVehicles(routes: seq<Route>, vehicles: seq<Vehicle>, byID: Shipments)
    returns (given: seq<Assignment>, unassigned: seq<string>, left: seq<Route>)
    ensures GivenOut(routes, vehicles, byID, given, left)
    ensures unassigned == IDsOf(left)
    ensures multiset(RoutesOf(given)) + multiset(left) == multiset(routes)
    ensures Placed(RoutesOf(given)) + multiset(unassigned) == Placed(routes)
  {
    var loads, trucks := LineUp(routes, vehicles, byID);
    var used: set<string> := {};
    given, unassigned, left := [], [], [];
    NothingDealtYet(routes, vehicles, byID, loads);
    for n := 0 to |loads|
      invariant Dealing(routes, vehicles, byID, loads, n, given, left, used) && unassigned == IDsOf(left)
    {
      ghost var given0, left0 := given, left;
      var placed;
      given, placed, left, used := Deal(routes, vehicles, byID, loads[n], trucks, given, left, used);
      if !placed {
        IDsAppend(left[..|left| - 1], loads[n].route);
        unassigned := unassigned + loads[n].route.ids;
      }
      DealtOn(loads, n, given0, left0, given, left);
      NextLoad(routes, vehicles, byID, loads, n, given, left, used);
    }
    AllDealt(routes, loads, given, left);
  }

  lemma ShipmentIsDealt(routes: seq<Route>, given: seq<Assignment>, left: seq<Route>, id: string)
    requires Dealt(given, left, Serving(id)) == Total(routes, Serving(id))
    ensures Placed(RoutesOf(given))[id] + multiset(IDsOf(left))[id] == Placed(routes)[id]
  {
    TotalServing(RoutesOf(given), id);
    TotalServing(left, id);
    TotalServing(routes, id);
  }

  lemma RouteIsDealt(routes: seq<Route>, given: seq<Assignment>, left: seq<Route>, r: Route)
    requires Dealt(given, left, Being(r)) == Total(routes, Being(r))
    ensures multiset(RoutesOf(given))[r] + multiset(left)[r] == multiset(routes)[r]
  {
    TotalBeing(RoutesOf(given), r);
    TotalBeing(left, r);
    TotalBeing(routes, r);
  }

  lemma AllCounted(routes: seq<Route>, loads: seq<Loaded>, given: seq<Assignment>, left: seq<Route>, c: Counted)
    requires DealtUpTo(loads, |loads|, given, left) && LoadsTotal(loads, c) == Total(routes, c)
    ensures Dealt(given, left, c) == Total(routes, c)
  {
    assert loads[..|loads|] == loads;
  }

  lemma AllDealt(routes: seq<Route>, loads: seq<Loaded>, given: seq<Assignment>, left: seq<Route>)
    requires DealtUpTo(loads, |loads|, given, left) && forall c :: LoadsTotal(loads, c) == Total(routes, c)
    ensures multiset(RoutesOf(given)) + multiset(left) == multiset(routes)
    ensures Placed(RoutesOf(given)) + multiset(IDsOf(left)) == Placed(routes)
  {
    forall id: string
      ensures (Placed(RoutesOf(given)) + multiset(IDsOf(left)))[id] == Placed(routes)[id]
    {
      AllCounted(routes, loads, given, left, Serving(id));
      ShipmentIsDealt(routes, given, left, id);
    }
    forall r: Route
      ensures (multiset(RoutesOf(given)) + multiset(left))[r] == multiset(routes)[r]
    {
      AllCounted(routes, loads, given, left, Being(r));
      RouteIsDealt(routes, given, left, r);
    }
  }

  /** The state of the assignment before load n. */
  ghost predicate Dealing(routes: seq<Route>, vehicles: seq<Vehicle>, byID: Shipments, loads: seq<Loaded>, n: nat,
      given: seq<Assignment>, left: seq<Route>, used: set<string>) {
    && GivenOut(routes, vehicles, byID, given, left) && DealtUpTo(loads, n, given, left)
    && (forall k | 0 <= k < |given| :: given[k].vehicle.id in used)
    && (n < |loads| ==> AllCarry(used, given, loads[n].peakKg, byID) && NoneLighter(given, loads[n].peakKg, byID))
  }

  lemma NothingDealtYet(routes: seq<Route>, vehicles: seq<Vehicle>, byID: Shipments, loads: seq<Loaded>)
    ensures Dealing(routes, vehicles, byID, loads, 0, [], [], {})
  {
    assert RoutesOf([]) == [];
  }

  /** The next load is no heavier, so what holds of this one holds of it. */
  lemma NextLoad(routes: seq<Route>, vehicles: seq<Vehicle>, byID: Shipments, loads: seq<Loaded>, n: nat,
      given: seq<Assignment>, left: seq<Route>, used: set<string>)
    requires n < |loads| && Ordered(loads, Heavier)
    requires GivenOut(routes, vehicles, byID, given, left) && DealtUpTo(loads, n + 1, given, left)
    requires forall k | 0 <= k < |given| :: given[k].vehicle.id in used
    requires AllCarry(used, given, loads[n].peakKg, byID) && NoneLighter(given, loads[n].peakKg, byID)
    ensures Dealing(routes, vehicles, byID, loads, n + 1, given, left, used)
  {
    if n + 1 < |loads| {
      assert !Heavier(loads[n + 1], loads[n]);
      AllCarryLess(used, given, loads[n].peakKg, loads[n + 1].peakKg, byID);
    }
  }

  ghost predicate DealtUpTo(loads: seq<Loaded>, n: nat, given: seq<Assignment>, left: seq<Route>) {
    n <= |loads| && forall c :: Dealt(given, left, c) == LoadsTotal(loads[..n], c)
  }

  lemma DealtOn(loads: seq<Loaded>, n: nat, given: seq<Assignment>, left: seq<Route>, given': seq<Assignment>,
      left': seq<Route>)
    requires n < |loads| && DealtUpTo(loads, n, given, left)
    requires forall c :: Dealt(given', left', c) == Dealt(given, left, c) + Weight(loads[n].route, c)
    ensures DealtUpTo(loads, n + 1, given', left')
  {
    assert loads[..n + 1] == loads[..n] + [loads[n]];
    forall c: Counted
      ensures Dealt(given', left', c) == LoadsTotal(loads[..n + 1], c)
    {
      LoadsTotalAppend(loads[..n], loads[n], c);
    }
  }

  /** Every route given out is at least this heavy. */
  predicate NoneLighter(given: seq<Assignment>, peakKg: real, byID: Shipments) {
    forall k | 0 <= k < |given| :: Peak(given[k].route.stops, byID, KG) >= peakKg
  }

  /** One load: it goes to the first free vehicle that can carry it, or is left. */
  method Deal(routes: seq<Route>, vehicles: seq<Vehicle>, byID: Shipments, l: Loaded, trucks: seq<Vehicle>,
              before: seq<Assignment>, leftBefore: seq<Route>, usedBefore: set<string>)
    returns (given: seq<Assignment>, placed: bool, left: seq<Route>, used: set<string>)
    requires l.route in routes && Weighed(l, byID) && forall v :: v in trucks <==> v in vehicles
    requires Ordered(trucks, SmallerTruck) && NoneLighter(before, l.peakKg, byID)
    requires GivenOut(routes, vehicles, byID, before, leftBefore) && AllCarry(usedBefore, before, l.peakKg, byID)
    requires forall k | 0 <= k < |before| :: before[k].vehicle.id in usedBefore
    ensures GivenOut(routes, vehicles, byID, given, left) && AllCarry(used, given, l.peakKg, byID)
    ensures NoneLighter(given, l.peakKg, byID)
    ensures forall k | 0 <= k < |given| :: given[k].vehicle.id in used
    ensures left == if placed then leftBefore else leftBefore + [l.route]
    ensures forall c :: Dealt(given, left, c) == Dealt(before, leftBefore, c) + Weight(l.route, c)
  {
    given, left, used, placed := before, leftBefore, usedBefore, true;
    var fit := FirstFit(trucks, used, l);
    if fit.Some? {
      var a := Assignment(l.route, fit.value);
      forall c: Counted {
        DealtGrows(before, left, a, c);
      }
      SmallerAreUsed(vehicles, trucks, used, before, a, l, byID);
      GivenOutGrows(routes, vehicles, byID, before, left, a);
      AllCarryGrows(used, before, a, l.peakKg, byID);
      given, used := given + [a], used + {a.vehicle.id};
    } else {
      forall c: Counted {
        DealtGrows(given, leftBefore, Assignment(l.route, Vehicle("", 0.0, 0.0, 0.0)), c);
      }
      LeftIsRight(l.route, vehicles, used, given, byID, l);
      left, placed := left + [l.route], false;
    }
  }

  lemma SmallerAreUsed(vehicles: seq<Vehicle>, trucks: seq<Vehicle>, used: set<string>, given: seq<Assignment>,
      a: Assignment, l: Loaded, byID: Shipments)
    requires a.route == l.route && Weighed(l, byID) && forall v :: v in trucks <==> v in vehicles
    requires forall v | v in trucks && Takes(v, used, l) :: a.vehicle.capacityKg <= v.capacityKg
    requires AllCarry(used, given, l.peakKg, byID)
    ensures forall v | v in vehicles && Fits(v, a.route, byID) && v.capacityKg < a.vehicle.capacityKg ::
      exists j | 0 <= j < |given| :: given[j].vehicle.id == v.id
  {
    forall v | v in vehicles && Fits(v, a.route, byID) && v.capacityKg < a.vehicle.capacityKg
      ensures exists j | 0 <= j < |given| :: given[j].vehicle.id == v.id
    {
      assert v in trucks && v.id in used;
      assert GivenToHeavier(given, v.id, l.peakKg, byID);
    }
  }

  // ---- The whole run ----

  /** What a caller builds: a shipment's stops are its own, the first a pickup and the second a delivery. */
  predicate WellFormed(s: Shipment) {
    s.pickup.kind.PICKUP? && s.delivery.kind.DELIVERY? && s.pickup.shipmentID == s.id == s.delivery.shipmentID
  }

  predicate DistinctShipments(shipments: seq<Shipment>) {
    forall i, j | 0 <= i < j < |shipments| :: shipments[i].id != shipments[j].id
  }

  function SeedOf(s: Shipment): Route {
    Route([s.pickup, s.delivery], [s.id])
  }

  ghost predicate ByID(byID: Shipments, shipments: seq<Shipment>) {
    && (forall s | s in shipments :: s.id in byID && byID[s.id] == s)
    && (forall id | id in byID :: byID[id] in shipments && byID[id].id == id)
  }

  method IndexShipments(shipments: seq<Shipment>) returns (byID: Shipments)
    requires DistinctShipments(shipments)
    ensures ByID(byID, shipments)
  {
    byID := map[];
    for n := 0 to |shipments|
      invariant forall k | 0 <= k < n :: shipments[k].id in byID && byID[shipments[k].id] == shipments[k]
      invariant forall id | id in byID :: byID[id] in shipments && byID[id].id == id
    {
      byID := byID[shipments[n].id := shipments[n]];
    }
  }

  lemma SeedIsProper(s: Shipment, byID: Shipments)
    requires WellFormed(s) && s.id in byID && byID[s.id] == s
    ensures Proper(SeedOf(s), byID)
  {
    assert [s.id][..0] == [];
    assert multiset([s.pickup, s.delivery]) == multiset{s.pickup, s.delivery};
    assert PickedUpBefore([s.pickup, s.delivery], 1) by {
      assert [s.pickup, s.delivery][0].kind.PICKUP?;
    }
  }

  function IDs(shipments: seq<Shipment>): seq<string> {
    seq(|shipments|, k requires 0 <= k < |shipments| => shipments[k].id)
  }

  lemma ProperAppend(routes: seq<Route>, r: Route, byID: Shipments)
    requires AllProper(routes, byID) && Proper(r, byID)
    ensures AllProper(routes + [r], byID)
  {
  }

  lemma IDsGrow(shipments: seq<Shipment>, n: nat)
    requires n < |shipments|
    ensures multiset(IDs(shipments[..n + 1])) == multiset(IDs(shipments[..n])) + multiset([shipments[n].id])
  {
    assert IDs(shipments[..n + 1]) == IDs(shipments[..n]) + [shipments[n].id];
  }

  /** One route per shipment. */
  function Seeds(shipments: seq<Shipment>): seq<Route> {
    seq(|shipments|, k requires 0 <= k < |shipments| => SeedOf(shipments[k]))
  }

  lemma SeedsAreProper(shipments: seq<Shipment>, byID: Shipments)
    requires ByID(byID, shipments) && forall s | s in shipments :: WellFormed(s)
    ensures AllProper(Seeds(shipments), byID)
  {
    forall k | 0 <= k < |shipments|
      ensures Proper(Seeds(shipments)[k], byID)
    {
      SeedIsProper(shipments[k], byID);
    }
  }

  lemma {:induction false} SinglesPlaceAll(routes: seq<Route>, ids: seq<string>, n: nat)
    requires n <= |routes| == |ids| && forall k | 0 <= k < |routes| :: routes[k].ids == [ids[k]]
    ensures PlacedUpTo(routes, n) == multiset(ids[..n])
  {
    if n > 0 {
      SinglesPlaceAll(routes, ids, n - 1);
      assert ids[..n] == ids[..n - 1] + [ids[n - 1]];
    }
  }

  lemma SeedsPlaceAll(shipments: seq<Shipment>)
    ensures Placed(Seeds(shipments)) == multiset(IDs(shipments))
  {
    SinglesPlaceAll(Seeds(shipments), IDs(shipments), |shipments|);
    assert IDs(shipments)[..|shipments|] == IDs(shipments);
  }

  method Seed(shipments: seq<Shipment>) returns (seeds: seq<Route>)
    ensures seeds == Seeds(shipments)
  {
    seeds := [];
    for n := 0 to |shipments|
      invariant seeds == Seeds(shipments)[..n]
    {
      var s := shipments[n];
      seeds := seeds + [Route([s.pickup, s.delivery], [s.id])];
    }
  }

  predicate Within(v: Vehicle, limits: Limits) {
    v.capacityKg <= limits.capKg && v.capacityCbm <= limits.capCbm && v.maxDriveMin <= limits.driveMin
  }

  /** Each limit is some vehicle's. */
  predicate Attained(vehicles: seq<Vehicle>, limits: Limits) {
    && (exists v | v in vehicles :: v.capacityKg == limits.capKg)
    && (exists v | v in vehicles :: v.capacityCbm == limits.capCbm)
    && (exists v | v in vehicles :: v.maxDriveMin == limits.driveMin)
  }

  /** The largest of each limit over the vehicles. */
  method WidestLimits(vehicles: seq<Vehicle>) returns (limits: Limits)
    requires vehicles != []
    ensures (forall v | v in vehicles :: Within(v, limits)) && Attained(vehicles, limits)
  {
    var v := vehicles[0];
    limits := Limits(v.capacityKg, v.capacityCbm, v.maxDriveMin);
    for n := 1 to |vehicles|
      invariant (forall k | 0 <= k < n :: Within(vehicles[k], limits)) && Attained(vehicles, limits)
    {
      var u := vehicles[n];
      assert u in vehicles;
      limits := Limits(Max(limits.capKg, u.capacityKg), Max(limits.capCbm, u.capacityCbm),
        Max(limits.driveMin, u.maxDriveMin));
    }
  }

  /** 2-opt has done what it can for the route. */
  predicate Improved(r: Route, d: Matrix) {
    |r.stops| >= 4 ==> TwoOptimal(r.stops, d)
  }

  /** The same shipments by a way that is no longer and that 2-opt cannot shorten. */
  predicate ImprovementOf(better: Route, r: Route, d: Matrix) {
    && better.ids == r.ids && multiset(better.stops) == multiset(r.stops) && Improved(better, d)
    && (|r.stops| < 4 ==> better == r)
    && better.stops != [] && r.stops != [] && Length(better.stops, d) <= Length(r.stops, d)
  }

  method ImproveRoutes(routes: seq<Route>, d: Matrix, byID: Shipments) returns (better: seq<Route>)
    requires AllProper(routes, byID)
    ensures AllProper(better, byID) && Placed(better) == Placed(routes)
    ensures |better| == |routes| && forall k | 0 <= k < |better| :: ImprovementOf(better[k], routes[k], d)
  {
    better := [];
    for n := 0 to |routes|
      invariant |better| == n && AllProper(better, byID)
      invariant forall k | 0 <= k < n :: ImprovementOf(better[k], routes[k], d)
    {
      var r := ImproveRoute(routes[n], d, byID);
      ProperAppend(better, r, byID);
      better := better + [r];
    }
    SameIDsUpTo(better, routes, |routes|);
  }

  method ImproveRoute(r: Route, d: Matrix, byID: Shipments) returns (better: Route)
    requires Proper(r, byID)
    ensures Proper(better, byID) && ImprovementOf(better, r, d)
  {
    var stops := TwoOptImprove(r.stops, d);
    better := r.(stops := stops);
  }

  /** What is promised of every route given out. */
  ghost predicate GoodRoute(a: Assignment, vehicles: seq<Vehicle>, byID: Shipments, d: Matrix) {
    && a.vehicle in vehicles && Proper(a.route, byID) && Improved(a.route, d)
    && forall n | 0 <= n <= |a.route.stops| ::
         && Load(a.route.stops[..n], byID, KG) <= a.vehicle.capacityKg + SLACK
         && Load(a.route.stops[..n], byID, CBM) <= a.vehicle.capacityCbm + SLACK
  }

  lemma FittingRouteIsGood(a: Assignment, vehicles: seq<Vehicle>, byID: Shipments, d: Matrix)
    requires a.vehicle in vehicles && Proper(a.route, byID) && Improved(a.route, d) && Fits(a.vehicle, a.route, byID)
    ensures GoodRoute(a, vehicles, byID, d)
  {
    forall n | 0 <= n <= |a.route.stops|
      ensures Load(a.route.stops[..n], byID, KG) <= a.vehicle.capacityKg + SLACK
      ensures Load(a.route.stops[..n], byID, CBM) <= a.vehicle.capacityCbm + SLACK
    {
      PeakIsHighest(a.route.stops, byID, KG, n);
      PeakIsHighest(a.route.stops, byID, CBM, n);
    }
  }

  /** What a run of the solver went through. */
  datatype Plan = Plan(
    byID: Shipments,
    limits: Limits,
    rounds: seq<seq<Route>>,  // of merging
    better: seq<Route>,       // after 2-opt
    left: seq<Route>)         // not given out

  /**
   The shipments were seeded one to a route and merged, best feasible saving first and within the
   widest of the vehicles' limits, until none saved; then each route was shortened by 2-opt.
   */
  ghost predicate Routed(plan: Plan, shipments: seq<Shipment>, vehicles: seq<Vehicle>, p: Problem) {
    && p.byID == plan.byID && p.limits == plan.limits && ByID(plan.byID, shipments)
    && (forall v | v in vehicles :: Within(v, plan.limits)) && Attained(vehicles, plan.limits)
    && MergedOut(Seeds(shipments), plan.rounds, p)
    && |plan.better| == |plan.rounds[|plan.rounds| - 1]|
    && forall k | 0 <= k < |plan.better| ::
         ImprovementOf(plan.better[k], plan.rounds[|plan.rounds| - 1][k], p.distances)
  }

  /** Those routes were given out or left, each once; what was left, and only that, is unassigned. */
  ghost predicate DealtOut(plan: Plan, vehicles: seq<Vehicle>, given: seq<Assignment>, unassigned: seq<string>) {
    && multiset(RoutesOf(given)) + multiset(plan.left) == multiset(plan.better)
    && unassigned == IDsOf(plan.left)
    && DistinctVehicles(given) && HeaviestFirst(given, plan.byID)
    && (forall k | 0 <= k < |given| :: SmallestFree(given, k, vehicles, plan.byID))
    && forall r | r in plan.left :: RightlyLeft(r, vehicles, given, plan.byID)
  }

  /**
   Ends for every input with distinct shipments. Every shipment is served by exactly one route or
   left unassigned; a route serves its shipments' stops and no others, each pickup before its
   delivery; at no stop does it carry more than its vehicle can, to the slack; no vehicle gets two
   routes; and 2-opt can shorten none of them. With a shipment and a vehicle, the routes given out
   and those left are what merging and 2-opt made of the seeds, and what is left could not have
   been given out instead of something lighter.
   */
  method OptimizeRoutes(shipments: seq<Shipment>, vehicles: seq<Vehicle>, distances: Matrix, durations: Matrix)
    returns (given: seq<Assignment>, unassigned: seq<string>, ghost plan: Plan)
    requires DistinctShipments(shipments) && forall s | s in shipments :: WellFormed(s)
    ensures ByID(plan.byID, shipments)
    ensures Placed(RoutesOf(given)) + multiset(unassigned) == multiset(IDs(shipments))
    ensures forall a | a in given :: GoodRoute(a, vehicles, plan.byID, distances)
    ensures DistinctVehicles(given)
    ensures shipments == [] || vehicles == [] ==> given == [] && unassigned == IDs(shipments)
    ensures shipments != [] && vehicles != [] ==>
      && Routed(plan, shipments, vehicles, Problem(distances, durations, plan.byID, plan.limits))
      && DealtOut(plan, vehicles, given, unassigned)
  {
    var byID := IndexShipments(shipments);
    if |shipments| == 0 || |vehicles| == 0 {
      given, unassigned := [], IDs(shipments);
      plan := Plan(byID, Limits(0.0, 0.0, 0.0), [], [], []);
      assert RoutesOf(given) == [];
      return;
    }
    var seeds := Seed(shipments);
    SeedsAreProper(shipments, byID);
    SeedsPlaceAll(shipments);
    var limits := WidestLimits(vehicles);
    var merged;
    ghost var rounds;
    merged, rounds := ClarkeWrightMerge(seeds, Problem(distances, durations, byID, limits));
    var better := ImproveRoutes(merged, distances, byID);
    var left;
    given, unassigned, left := AssignVehicles(better, vehicles, byID);
    plan := Plan(byID, limits, rounds, better, left);
    forall a | a in given
      ensures GoodRoute(a, vehicles, byID, distances)
    {
      var k :| 0 <= k < |better| && better[k] == a.route;
      assert Proper(better[k], byID) && Improved(better[k], distances);
      FittingRouteIsGood(a, vehicles, byID, distances);
    }
  }

  /** A route is left for want of a vehicle: when nothing is given out, no vehicle can carry any of the routes. */
  lemma NothingGivenOnlyForWantOfVehicles(plan: Plan, vehicles: seq<Vehicle>, unassigned: seq<string>)
    requires DealtOut(plan, vehicles, [], unassigned)
    ensures forall r, v | r in plan.better && v in vehicles :: !Fits(v, r, plan.byID)
  {
    forall r, v | r in plan.better && v in vehicles
      ensures !Fits(v, r, plan.byID)
    {
      assert RoutesOf([]) == [];
      assert r in multiset(plan.better) && r in multiset(plan.left);
      assert RightlyLeft(r, vehicles, [], plan.byID);
    }
  }

  /** So each shipment is served once or unassigned once. */
  lemma EachShipmentOnce(shipments: seq<Shipment>, given: seq<Assignment>, unassigned: seq<string>, k: nat)
    requires DistinctShipments(shipments) && k < |shipments|
    requires Placed(RoutesOf(given)) + multiset(unassigned) == multiset(IDs(shipments))
    ensures Placed(RoutesOf(given))[shipments[k].id] + multiset(unassigned)[shipments[k].id] == 1
  {
    DistinctOnce(shipments, |shipments|, k);
    assert shipments[..|shipments|] == shipments;
    assert (Placed(RoutesOf(given)) + multiset(unassigned))[shipments[k].id] ==
      multiset(IDs(shipments))[shipments[k].id];
  }

  lemma OneOf(id: string, x: string)
    ensures multiset([id])[x] == if id == x then 1 else 0
  {
  }

  lemma {:induction false} DistinctOnce(shipments: seq<Shipment>, n: nat, k: nat)
    requires DistinctShipments(shipments) && k < |shipments| && n <= |shipments|
    ensures multiset(IDs(shipments[..n]))[shipments[k].id] == if k < n then 1 else 0
  {
    if n == 0 {
      assert IDs(shipments[..0]) == [];
    } else {
      DistinctOnce(shipments, n - 1, k);
      IDsGrow(shipments, n - 1);
      OneOf(shipments[n - 1].id, shipments[k].id);
    }
  }

  /**
   2-opt looks at order and length alone: it can turn a route that a vehicle carries, one shipment
   after the other, into a shorter one that it does not. Four places on a line, two loads of ten.
   */
  lemma TwoOptCanOverload(a: Shipment, b: Shipment)
    requires WellFormed(a) && WellFormed(b) && a.id != b.id
    requires a.weightKg == b.weightKg == 10.0 && a.volumeCbm == b.volumeCbm == 0.0
    requires a.pickup.matrixIndex == 1 && b.pickup.matrixIndex == 2 && a.delivery.matrixIndex == 3
      && b.delivery.matrixIndex == 4
    ensures var byID: Shipments := map[a.id := a, b.id := b];
      var stops := [a.pickup, a.delivery, b.pickup, b.delivery];
      && InOrder(stops) && Carries(stops, byID, 10.0, 0.0)
      && Shortens(stops, OnALine, 1, 2) && !Carries(Swapped(stops, 1, 2), byID, 10.0, 0.0)
  {
    var byID: Shipments := map[a.id := a, b.id := b];
    var stops, other := [a.pickup, a.delivery, b.pickup, b.delivery], [a.pickup, b.pickup, a.delivery, b.delivery];
    SwapOfFour(stops);
    InOrderOfFour(stops, a.id, b.id);
    InOrderOfFour(other, a.id, b.id);
    LoadsOfFour(a, b, byID);
    LengthsOfFour(stops, other);
    assert !PickupFits(other, byID, 10.0, 0.0, 1);
  }

  lemma SwapOfFour(stops: seq<Stop>)
    requires |stops| == 4
    ensures Swapped(stops, 1, 2) == [stops[0], stops[2], stops[1], stops[3]]
  {
    var two := stops[1..3];
    assert two == [stops[1], stops[2]] && two[..1] == [stops[1]] && [stops[1]][..0] == [];
    assert Reversed([stops[1]]) == [stops[1]];
    assert Reversed(two) == [stops[2], stops[1]];
  }

  lemma InOrderOfFour(stops: seq<Stop>, a: string, b: string)
    requires |stops| == 4 && stops[0].kind.PICKUP? && stops[0].shipmentID == a && stops[3].kind.DELIVERY?
      && stops[3].shipmentID == b
    requires || (stops[1].kind.DELIVERY? && stops[1].shipmentID == a && stops[2].kind.PICKUP?
      && stops[2].shipmentID == b)
             || (stops[1].kind.PICKUP? && stops[1].shipmentID == b && stops[2].kind.DELIVERY?
               && stops[2].shipmentID == a)
    ensures InOrder(stops)
  {
    if stops[1].kind.DELIVERY? {
      assert PickedUpBefore(stops, 1) && PickedUpBefore(stops, 3);
    } else {
      assert PickedUpBefore(stops, 2) && PickedUpBefore(stops, 3);
    }
  }

  lemma LoadsOfFour(a: Shipment, b: Shipment, byID: Shipments)
    requires WellFormed(a) && WellFormed(b) && a.id != b.id && byID == map[a.id := a, b.id := b]
    requires a.weightKg == b.weightKg == 10.0 && a.volumeCbm == b.volumeCbm == 0.0
    ensures Carries([a.pickup, a.delivery, b.pickup, b.delivery], byID, 10.0, 0.0)
    ensures Load([a.pickup, b.pickup, a.delivery, b.delivery][..2], byID, KG) == 20.0
  {
    var stops, other := [a.pickup, a.delivery, b.pickup, b.delivery], [a.pickup, b.pickup, a.delivery, b.delivery];
    FirstLoads(stops, byID, KG);
    FirstLoads(stops, byID, CBM);
    FirstLoads(other, byID, KG);
  }

  lemma FirstLoads(stops: seq<Stop>, byID: Shipments, dim: Dim)
    requires |stops| == 4
    ensures Load(stops[..1], byID, dim) == Change(stops[0], byID, dim)
    ensures Load(stops[..2], byID, dim) == Change(stops[0], byID, dim) + Change(stops[1], byID, dim)
    ensures Load(stops[..3], byID, dim) ==
      Change(stops[0], byID, dim) + Change(stops[1], byID, dim) + Change(stops[2], byID, dim)
  {
    assert stops[..1][..0] == [] && stops[..2][..1] == stops[..1] && stops[..3][..2] == stops[..2];
  }

  lemma LengthsOfFour(stops: seq<Stop>, other: seq<Stop>)
    requires |stops| == |other| == 4
    requires stops[0].matrixIndex == 1 && stops[1].matrixIndex == 3 && stops[2].matrixIndex == 2
      && stops[3].matrixIndex == 4
    requires other[0].matrixIndex == 1 && other[1].matrixIndex == 2 && other[2].matrixIndex == 3
      && other[3].matrixIndex == 4
    ensures Length(stops, OnALine) == 10.0 && Length(other, OnALine) == 8.0
  {
    InnerOfFour(stops, OnALine);
    InnerOfFour(other, OnALine);
  }

  lemma InnerOfFour(stops: seq<Stop>, d: Matrix)
    requires |stops| == 4
    ensures Inner(stops, d) ==
      d(stops[0].matrixIndex, stops[1].matrixIndex) + d(stops[1].matrixIndex, stops[2].matrixIndex)
                             + d(stops[2].matrixIndex, stops[3].matrixIndex)
  {
    assert stops[..3][..2] == stops[..2] && stops[..2][..1] == stops[..1];
    assert Inner(stops[..2], d) == d(stops[0].matrixIndex, stops[1].matrixIndex);
    assert Inner(stops[..3], d) == Inner(stops[..2], d) + d(stops[1].matrixIndex, stops[2].matrixIndex);
  }

  function OnALine(i: nat, j: nat): real {
    if i <= j then (j - i) as real else (i - j) as real
  }
}
