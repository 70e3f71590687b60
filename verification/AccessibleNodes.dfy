// What an accessibility result lists, and by which legs, read off the data.
module AccessibleNodes {
  import opened Network
  import F = ForwardScan
  import FX = ForwardExact
  import R = ReverseScan
  import N = AllNodes
  import J = Journeys
  import K = Calculators
  import G = ForwardEntries
  import E = AccessEntries
  import X = ReverseExits
  import V = Services

  // ---- Counting boardings -----------------------------------------------------------

  predicate Counts(infos: seq<J.TripInfo>, trip: nat) {
    trip < |infos| && !infos[trip].transferable
  }

  lemma {:induction false} BoardingsAre(infos: seq<J.TripInfo>, legs: seq<Leg>)
    ensures N.Boardings(infos, legs) == |set m: nat | m < |legs| && Counts(infos, legs[m].enter.trip)|
    decreases |legs|
  {
    var all := set m: nat | m < |legs| && Counts(infos, legs[m].enter.trip);
    if legs == [] {
      assert all == {};
    } else {
      var n := |legs| - 1;
      var rest := legs[..n];
      BoardingsAre(infos, rest);
      var before := set m: nat | m < |rest| && Counts(infos, rest[m].enter.trip);
      assert all == before + if Counts(infos, legs[n].enter.trip) then {n} else {};
    }
  }

  lemma {:induction false} RidesCountedAre(infos: seq<J.TripInfo>, journey: seq<JourneyStep>, k: nat)
    requires k <= |journey|
    ensures N.RidesCounted(infos, journey, k) ==
            |set m: nat | m < k && journey[m].Ride? && Counts(infos, journey[m].enter.trip)|
    decreases k
  {
    var all := set m: nat | m < k && journey[m].Ride? && Counts(infos, journey[m].enter.trip);
    if k == 0 {
      assert all == {};
    } else {
      var n := k - 1;
      RidesCountedAre(infos, journey, n);
      var before := set m: nat | m < n && journey[m].Ride? && Counts(infos, journey[m].enter.trip);
      assert all == before + if journey[n].Ride? && Counts(infos, journey[n].enter.trip) then {n} else {};
    }
  }

  // ---- Forward ----------------------------------------------------------------------

  // The legs that lead to the node, of which there is only one list, and what is
  // reported of them: the arrival, the time since the requested departure, and one less
  // than the boardings of modes that are not transferable.
  ghost predicate ReachedBy(infos: seq<J.TripInfo>, q: Query, cs: seq<Connection>, a: N.AccessibleNode, legs: seq<Leg>)
  {
    && (exists k :: G.Determined(q, cs, k, a.node, legs))
    && a.time == Last(legs).exit.arrivalTime && a.travelTime == a.time - q.departureTime <= q.maxTotalTravelTime
    && a.numberOfTransfers == |set m: nat | m < |legs| && Counts(infos, legs[m].enter.trip)| - 1
  }

  lemma ListedIsReached(net: K.Transit, q: Query, cs: seq<Connection>, j: nat, r: K.Result<seq<N.AccessibleNode>>,
                        m: nat)
    requires K.ForwardListed(net, q, cs, j, r) && r.Ok? && m < |r.value|
    ensures exists legs :: ReachedBy(net.infos, q, cs, r.value[m], legs)
  {
    var st := F.Scan(q, cs, 0, F.Initial(q), false);
    var a := r.value[m];
    assert N.Entry(net.infos, q, cs, j, st, a);
    var legs := FX.LegsTo(q, cs, j, st, st.egressSteps[a.node]);
    G.LegsDetermined(q, cs, j, a.node);
    BoardingsAre(net.infos, legs);
    assert ReachedBy(net.infos, q, cs, a, legs);
  }

  lemma ReachedOneWay(infos: seq<J.TripInfo>, q: Query, cs: seq<Connection>, a: N.AccessibleNode, legs: seq<Leg>,
                      b: N.AccessibleNode, other: seq<Leg>)
    requires ReachedBy(infos, q, cs, a, legs) && ReachedBy(infos, q, cs, b, other) && a.node == b.node
    ensures legs == other && a == b
  {
    var j :| G.Determined(q, cs, j, a.node, legs);
    var k :| G.Determined(q, cs, k, b.node, other);
    G.DeterminedOnce(q, cs, j, k, a.node, legs, other);
  }

  // The query fails if and only if no connection can be set out with.
  lemma FailsWithoutService(net: K.Transit, q: Query, cs: seq<Connection>, j: nat, r: K.Result<seq<N.AccessibleNode>>)
    requires K.ForwardListed(net, q, cs, j, r)
    ensures r == K.Failed(K.NoServiceFromOrigin) <==> forall c <- cs :: !V.CanSetOut(q, cs, c)
    ensures r.Failed? ==> r == K.Failed(K.NoServiceFromOrigin)
  {
    V.NothingReached(q, cs, false);
  }

  // ---- Reverse ----------------------------------------------------------------------

  // The boarding that survives at the node, when it is within the maximum.
  ghost predicate LeavesFrom(q: Query, rcs: seq<Connection>, n: nat, e: Connection) {
    && E.Survivor(q, rcs, K.UsableOverlay(q.tripCount), n, |rcs|, false) == Some(e)
    && q.arrivalTime - (e.departureTime - e.minWaitingTime) <= q.maxTotalTravelTime
  }

  // What is reported of a node: the requested arrival, the time from the departure of
  // that boarding less the connection's own minimum wait, and one less than the
  // boardings counted in the optimised form of the legs from there.
  ghost predicate LeftBy(infos: seq<J.TripInfo>, q: Query, rcs: seq<Connection>, a: N.AccessibleNode, tr: N.Trace) {
    && tr.legs != [] && LeavesFrom(q, rcs, a.node, tr.legs[0].enter)
    && (exists k :: X.Determined(q, rcs, K.UsableOverlay(q.tripCount), k, tr.legs, tr.rides, false))
    && a.time == q.arrivalTime
    && a.travelTime == q.arrivalTime - (tr.legs[0].enter.departureTime - tr.legs[0].enter.minWaitingTime)
    && a.numberOfTransfers ==
       |set m: nat | m < |tr.journey| && tr.journey[m].Ride? && Counts(infos, tr.journey[m].enter.trip)| - 1
  }

  lemma EntryIs(q: Query, rcs: seq<Connection>, n: nat)
    requires R.ValidReverse(q, rcs) && n < q.nodeCount
    ensures R.NoExits(K.UsableOverlay(q.tripCount))
    ensures var st := R.Scan(q, rcs, 0, R.Initial(q, K.UsableOverlay(q.tripCount)), false);
            E.Survivor(q, rcs, K.UsableOverlay(q.tripCount), n, |rcs|, false) ==
            if n in st.accessSteps then Some(st.accessSteps[n].enter) else None
  {
    E.EntryIsSurvivor(q, rcs, K.UsableOverlay(q.tripCount), n, false);
  }

  lemma ListedIsLeft(net: K.Transit, q: Query, rcs: seq<Connection>, traces: seq<N.Trace>,
                     r: K.Result<seq<N.AccessibleNode>>, m: nat)
    requires R.ValidReverse(q, rcs) && K.ReverseListed(net, q, rcs, traces, r) && r.Ok? && m < |r.value|
    ensures m < |traces| && LeftBy(net.infos, q, rcs, r.value[m], traces[m])
  {
    var overlay := K.UsableOverlay(q.tripCount);
    var st := R.Scan(q, rcs, 0, R.Initial(q, overlay), false);
    var a, tr := r.value[m], traces[m];
    assert Whole(N.ReverseEntry(net.timetable, net.infos, q, rcs, st, a, tr));
    assert a.node < q.nodeCount;
    EntryIs(q, rcs, a.node);
    X.LegsDetermined(q, rcs, overlay, a.node, tr.legs, tr.rides, false);
    RidesCountedAre(net.infos, tr.journey, |tr.journey|);
  }

  // A node is listed if and only if the boarding that survives there is within the
  // maximum.
  lemma ReverseListIsExact(net: K.Transit, q: Query, rcs: seq<Connection>, traces: seq<N.Trace>,
                           r: K.Result<seq<N.AccessibleNode>>, n: nat)
    requires R.ValidReverse(q, rcs) && K.ReverseListed(net, q, rcs, traces, r) && r.Ok? && n < q.nodeCount
    ensures (exists m: nat :: m < |r.value| && r.value[m].node == n) <==> exists e :: LeavesFrom(q, rcs, n, e)
  {
    var st := R.Scan(q, rcs, 0, R.Initial(q, K.UsableOverlay(q.tripCount)), false);
    EntryIs(q, rcs, n);
    N.OnlyListed(net.timetable, net.infos, q, rcs, st, q.nodeCount, r.value, traces);
    assert N.ReverseListed(q, st, n) <==> N.Holds(r.value, n);
    if n in st.accessSteps { assert LeavesFrom(q, rcs, n, st.accessSteps[n].enter) <==> N.ReverseListed(q, st, n); }
  }

  lemma ReverseFailsWithoutService(net: K.Transit, q: Query, rcs: seq<Connection>, traces: seq<N.Trace>,
                                   r: K.Result<seq<N.AccessibleNode>>)
    requires R.ValidReverse(q, rcs) && K.ReverseListed(net, q, rcs, traces, r)
    ensures r == K.Failed(K.NoServiceToDestination) <==>
            forall c <- rcs :: !V.CanComeIn(q, rcs, K.UsableOverlay(q.tripCount), c)
    ensures r.Failed? ==> r == K.Failed(K.NoServiceToDestination)
  {
    V.NothingComesIn(q, rcs, K.UsableOverlay(q.tripCount), false);
  }
}
