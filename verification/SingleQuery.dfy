// What a forward query returns, measured against all feasible journeys.
module SingleQuery {
  import opened Network
  import F = ForwardScan
  import FX = ForwardExact
  import R = ReverseScan
  import RX = ReverseExact
  import L = LatestDeparture
  import E = AccessEntries
  import X = ReverseExits
  import T = TwoPass
  import A = Answers
  import O = OptimizeJourney
  import J = Journeys
  import K = Calculators

  // A route is found exactly when some journey the forward scan can follow fits the
  // maximum total time, and its target is then the earliest arrival of those.
  lemma FoundExactly(q: Query, cs: seq<Connection>, rcs: seq<Connection>, found: bool, target: int)
    requires T.Composable(q, cs, rcs) && K.ForwardThenReverse(q, cs, rcs, found, target)
    ensures found <==> !FX.NoneScanned(q, cs)
    ensures found ==> FX.EarliestScanArrival(q, cs, target)
  {
    FX.SingleFollows(q, cs);
    if FX.ForwardResult(q, T.ForwardEnd(q, cs)).Some? {
      var legs := T.TwoPassFinds(q, cs, rcs);
    }
  }

  // Over all feasible journeys, where none is missed.
  lemma FoundAmongAll(q: Query, cs: seq<Connection>, rcs: seq<Connection>, found: bool, target: int)
    requires T.Composable(q, cs, rcs) && K.ForwardThenReverse(q, cs, rcs, found, target) && FX.NoneMissed(q, cs)
    ensures found <==> !FX.NoneWithinMax(q, cs)
    ensures found ==> FX.EarliestArrival(q, cs, target)
  {
    FoundExactly(q, cs, rcs, found, target);
    if found { FX.EarliestMissesNone(q, cs, target); } else { FX.NoneScannedMissesNone(q, cs); }
  }

  // The legs behind the route are a journey that arrives by the target, and the
  // optimised route leaves no earlier than requested and is there no later. The
  // target is the least arrival of the journeys the forward scan can follow.
  lemma RouteIsInTime(tt: O.Timetable, infos: seq<J.TripInfo>, q: Query, cs: seq<Connection>, rcs: seq<Connection>,
                      target: int, tr: A.Trace, o: A.Optimization, r: J.Route)
    requires T.ValidTwoPass(q, cs, rcs) && K.ForwardThenReverse(q, cs, rcs, true, target)
    requires A.Answers(tt, infos, T.ReverseQuery(q, target), rcs, tr, o, r)
    ensures FX.EarliestScanArrival(q, cs, target) && T.ArrivesBy(q, cs, tr.legs, target)
    ensures q.departureTime <= r.departureTime && r.arrivalTime <= target
  {
    FX.SingleFollows(q, cs);
    T.ReverseValid(q, rcs, target);
    A.RouteIsInWindow(tt, infos, T.ReverseQuery(q, target), rcs, tr, o, r);
    TraceArrives(q, cs, rcs, target, tr);
  }

  // Where no journey is missed, the legs arrive at the earliest time of all.
  lemma RouteIsEarliest(tt: O.Timetable, infos: seq<J.TripInfo>, q: Query, cs: seq<Connection>, rcs: seq<Connection>,
                        target: int, tr: A.Trace, o: A.Optimization, r: J.Route)
    requires T.ValidTwoPass(q, cs, rcs) && K.ForwardThenReverse(q, cs, rcs, true, target) && FX.NoneMissed(q, cs)
    requires A.Answers(tt, infos, T.ReverseQuery(q, target), rcs, tr, o, r)
    ensures Arrives(q, cs, tr.legs, target) && q.departureTime <= r.departureTime && r.arrivalTime <= target
    ensures forall legs, u | Arrives(q, cs, legs, u) :: target <= u
  {
    RouteIsInTime(tt, infos, q, cs, rcs, target, tr, o, r);
    FX.EarliestMissesNone(q, cs, target);
    T.ExactlyThen(q, cs, tr.legs, target);
  }

  lemma TraceArrives(q: Query, cs: seq<Connection>, rcs: seq<Connection>, target: int, tr: A.Trace)
    requires SameConnections(cs, rcs) && 0 <= q.departureTime && A.InWindow(T.ReverseQuery(q, target), rcs, tr)
    ensures T.ArrivesBy(q, cs, tr.legs, target)
  {
    T.SameJourneys(q, cs, rcs, target, tr.legs);
    var e, x := tr.legs[0].enter, Last(tr.legs).exit;
    assert Departs(q, e) by {
      assert NodeTime(e.departureNode, q.NodesAccess()[e.departureNode]) in q.accessFootpaths;
    }
    var w :| NodeTime(x.arrivalNode, w) in q.egressFootpaths && x.arrivalTime + w <= target;
    assert Arrives(q, cs, tr.legs, x.arrivalTime + w);
  }

  // ---- Queries for an arrival time ------------------------------------------------

  lemma AllTripsUsable(q: Query, rcs: seq<Connection>, legs: seq<Leg>)
    requires ValidConnections(q, rcs) && Chain(q, rcs, legs)
    ensures RX.AllUsable(K.UsableOverlay(q.tripCount), legs)
  {
    forall l <- legs ensures l.enter.trip < q.tripCount && K.UsableOverlay(q.tripCount)[l.enter.trip].usable {
      var k: nat :| k < |legs| && legs[k] == l;
      assert IsRide(q, rcs, legs[k].enter, legs[k].exit);
      assert ValidConnection(q, l.enter);
    }
  }

  // If some feasible chain leaves at s and is there in time, a route is found, and
  // it leaves no more than the slack before s.
  lemma ArriveByDepartsLate(q: Query, rcs: seq<Connection>, r: K.Result<J.Route>, tr: A.Trace, legs: seq<Leg>, d: int,
                            s: int)
    requires R.ValidReverse(q, rcs) && q.departureTime == -1 && L.SlackAtMost(q, rcs, d)
    requires K.ReverseOutcome(q, rcs, K.UsableOverlay(q.tripCount), r, tr)
    requires RX.Reaching(q, rcs, legs) && RX.InOrder(rcs, legs) && legs[0].enter.departureNode in q.NodesAccess()
    requires s == L.Start(q, legs[0].enter) && L.Admits(q, s - d)
    ensures r.Ok? && s - d <= r.value.departureTime
  {
    ArriveByFinds(q, rcs, legs, d, s);
  }

  lemma ArriveByFinds(q: Query, rcs: seq<Connection>, legs: seq<Leg>, d: int, s: int)
    requires R.ValidReverse(q, rcs) && q.departureTime == -1 && L.SlackAtMost(q, rcs, d)
    requires RX.Reaching(q, rcs, legs) && RX.InOrder(rcs, legs) && legs[0].enter.departureNode in q.NodesAccess()
    requires s == L.Start(q, legs[0].enter) && L.Admits(q, s - d)
    ensures var a := T.ReverseResult(q, T.ReverseEnd(q, rcs, K.UsableOverlay(q.tripCount)));
            a.Some? && s - d <= a.value.time
  {
    ArriveByStarts(q, rcs, legs, d, s);
    L.DepartsWithinSlack(q, rcs, K.UsableOverlay(q.tripCount), legs, d, s);
  }

  lemma ArriveByStarts(q: Query, rcs: seq<Connection>, legs: seq<Leg>, d: int, s: int)
    requires ValidQuery(q) && ValidConnections(q, rcs) && q.departureTime == -1 && L.SlackAtMost(q, rcs, d)
    requires RX.Reaching(q, rcs, legs) && RX.InOrder(rcs, legs) && legs[0].enter.departureNode in q.NodesAccess()
    requires s == L.Start(q, legs[0].enter) && 0 <= s - d
    ensures L.StartsChain(q, rcs, K.UsableOverlay(q.tripCount), legs, s)
  {
    AllTripsUsable(q, rcs, legs);
    assert IsRide(q, rcs, legs[0].enter, legs[0].exit);
    RX.WaitNonNegative(q, rcs, legs[0].enter);
  }

  // Exactly what is returned: the latest start over the boardings that survive at
  // the access nodes, and no route if none does.
  lemma ArriveByReturns(q: Query, rcs: seq<Connection>, r: K.Result<J.Route>, tr: A.Trace)
    requires R.ValidReverse(q, rcs) && K.ReverseOutcome(q, rcs, K.UsableOverlay(q.tripCount), r, tr)
    ensures r.Ok? <==> exists n, t :: E.LeavesAt(q, rcs, K.UsableOverlay(q.tripCount), n, t)
    ensures r.Ok? ==> exists n :: E.LeavesAt(q, rcs, K.UsableOverlay(q.tripCount), n, r.value.departureTime)
    ensures r.Ok? ==> forall n, t | E.LeavesAt(q, rcs, K.UsableOverlay(q.tripCount), n, t) :: t <= r.value.departureTime
  {
    E.ReturnsLatest(q, rcs, K.UsableOverlay(q.tripCount));
  }

  // ---- Which route ------------------------------------------------------------------

  // The route sets out for the survivor at its access node, the first in the list from
  // which to leave that late, and the data determine its legs and transfers from
  // there, up to the optimisation.
  lemma RouteIsDetermined(q: Query, rcs: seq<Connection>, overlay: seq<TripQueryData>, r: K.Result<J.Route>,
                          tr: A.Trace)
    requires R.ValidReverse(q, rcs) && |overlay| == q.tripCount && R.NoExits(overlay)
    requires K.ReverseOutcome(q, rcs, overlay, r, tr) && r.Ok?
    ensures E.LeavesAt(q, rcs, overlay, tr.start.node, tr.start.time)
    ensures exists j: nat :: j < |q.accessFootpaths| && E.IsFirstFrom(q, rcs, overlay, j, tr.start)
    ensures E.Survivor(q, rcs, overlay, tr.start.node, |rcs|, true) == Some(tr.legs[0].enter)
    ensures exists k :: X.Determined(q, rcs, overlay, k, tr.legs, tr.rides, true)
  {
    E.ReturnsLatest(q, rcs, overlay);
    E.AccessNodeFits(q, tr.start.node);
    E.EntryIsSurvivor(q, rcs, overlay, tr.start.node, true);
    X.LegsDetermined(q, rcs, overlay, tr.start.node, tr.legs, tr.rides, true);
  }

  // ---- Excluding more trips ---------------------------------------------------

  ghost predicate Narrows(q: Query, narrower: Query) {
    narrower == q.(disabledTrips := narrower.disabledTrips) && q.disabledTrips <= narrower.disabledTrips
  }

  lemma JourneyWhenNarrowed(q: Query, narrower: Query, cs: seq<Connection>, legs: seq<Leg>)
    requires Narrows(q, narrower) && Journey(narrower, cs, legs)
    ensures Journey(q, cs, legs)
  {
    assert forall k: nat | k < |legs| :: IsRide(narrower, cs, legs[k].enter, legs[k].exit);
    forall k: nat | k + 1 < |legs| ensures Handoff(q, legs[k].exit, legs[k + 1].enter) {
      SameHandoff(q, narrower, legs[k].exit, legs[k + 1].enter);
    }
    assert Departs(q, legs[0].enter);
  }

  lemma ForwardWhenNarrowed(q: Query, narrower: Query, cs: seq<Connection>)
    requires F.ValidForward(q, cs) && Narrows(q, narrower)
    ensures F.ValidForward(narrower, cs)
  {
    forall c <- cs ensures ValidConnection(narrower, c) && F.Fits(narrower, c) {
      assert ValidConnection(q, c) && F.Fits(q, c);
    }
  }

  lemma ReverseWhenNarrowed(q: Query, narrower: Query, rcs: seq<Connection>)
    requires R.ValidReverse(q, rcs) && Narrows(q, narrower)
    ensures R.ValidReverse(narrower, rcs)
  {
    forall c <- rcs ensures ValidConnection(narrower, c) && R.Fits(narrower, c) {
      assert ValidConnection(q, c) && R.Fits(q, c);
    }
  }

  lemma BoardingsWhenNarrowed(q: Query, narrower: Query, cs: seq<Connection>)
    requires Narrows(q, narrower) && T.FirstWaitsFit(q, cs) && T.BreakIsSafe(q, cs)
    ensures T.FirstWaitsFit(narrower, cs) && T.BreakIsSafe(narrower, cs)
  {
    assert narrower.NodesAccess() == q.NodesAccess();
    forall e ensures T.Boarding(narrower, cs, e) ==> T.Boarding(q, cs, e) {}
  }

  lemma ComposableWhenNarrowed(q: Query, narrower: Query, cs: seq<Connection>, rcs: seq<Connection>)
    requires T.Composable(q, cs, rcs) && Narrows(q, narrower)
    ensures T.Composable(narrower, cs, rcs)
  {
    ForwardWhenNarrowed(q, narrower, cs);
    ReverseWhenNarrowed(q, narrower, rcs);
    R.HandoffsStayOrdered(q, narrower, rcs);
    BoardingsWhenNarrowed(q, narrower, cs);
  }

  // What the scan can follow with more trips disabled it can follow without.
  lemma {:induction false} AdmittedWhenNarrowed(q: Query, narrower: Query, cs: seq<Connection>, c: Connection)
    requires Narrows(q, narrower) && c in cs && FX.Admitted(narrower, cs, c)
    ensures FX.Admitted(q, cs, c)
    decreases Pos(cs, c), 1
  {
    assert narrower.NodesAccess() == q.NodesAccess();
    if FX.WaitsTooLong(q, c) {
      var legs: seq<Leg>, t: int :| FX.ReachedSooner(narrower, cs, c, legs, t);
      ScannableWhenNarrowed(q, narrower, cs, Pos(cs, c), legs);
      assert FX.ReachedSooner(q, cs, c, legs, t);
    }
  }

  lemma {:induction false} ScannableWhenNarrowed(q: Query, narrower: Query, cs: seq<Connection>, p: nat, legs: seq<Leg>)
    requires Narrows(q, narrower) && FX.Scannable(narrower, cs, p, legs)
    ensures FX.Scannable(q, cs, p, legs)
    decreases p, 0
  {
    JourneyWhenNarrowed(q, narrower, cs, legs);
    forall l | l in legs ensures FX.Passable(q, cs, p, l) {
      assert FX.Passable(narrower, cs, p, l);
      AdmittedWhenNarrowed(q, narrower, cs, l.enter);
      AdmittedWhenNarrowed(q, narrower, cs, l.exit);
    }
  }

  // A query that found nothing finds nothing with more trips excluded either.
  lemma FailureIsInherited(q: Query, narrower: Query, cs: seq<Connection>, rcs: seq<Connection>,
                           target: int, found: bool, narrowerTarget: int)
    requires T.Composable(q, cs, rcs) && Narrows(q, narrower)
    requires K.ForwardThenReverse(q, cs, rcs, false, target)
    requires K.ForwardThenReverse(narrower, cs, rcs, found, narrowerTarget)
    ensures !found
  {
    ComposableWhenNarrowed(q, narrower, cs, rcs);
    FoundExactly(q, cs, rcs, false, target);
    FoundExactly(narrower, cs, rcs, found, narrowerTarget);
    forall legs, t | FX.ScanArrives(narrower, cs, legs, t)
      ensures t - narrower.departureTime > narrower.maxTotalTravelTime
    {
      ScannableWhenNarrowed(q, narrower, cs, |cs|, legs);
      assert FX.ScanArrives(q, cs, legs, t);
    }
  }
}
