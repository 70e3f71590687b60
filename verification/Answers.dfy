// What a returned route stands for, and what follows for the traveller.
module Answers {
  import opened Network
  import R = ReverseScan
  import RX = ReverseExact
  import O = OptimizeJourney
  import J = Journeys
  import T = TwoPass

  // How a route came about: where and when the traveller sets out, the legs
  // rebuilt from the reverse steps, and the same as rides with their transfers.
  datatype Trace = Trace(start: NodeTime, legs: seq<Leg>, rides: seq<JourneyStep>)

  // The optimised journey, which itinerary step each of its steps comes from, and
  // the rounds that led to it.
  datatype Optimization = Optimization(journey: seq<JourneyStep>, origin: seq<nat>, record: O.CompleteRun)

  const NOTHING_DONE := Optimization([], [], O.NO_RUN)

  // The rebuilt legs are a feasible chain inside the query's window.
  ghost predicate InWindow(q: Query, rcs: seq<Connection>, tr: Trace) {
    && RX.Reaching(q, rcs, tr.legs)
    && tr.start.node in q.NodesAccess() && tr.legs[0].enter.departureNode == tr.start.node
    && tr.start.time == tr.legs[0].enter.departureTime - q.NodesAccess()[tr.start.node] - q.Wait(tr.legs[0].enter)
    && 0 <= tr.start.time && (q.departureTime != -1 ==> q.departureTime <= tr.start.time)
    && q.arrivalTime - tr.start.time <= q.maxTotalTravelTime
    && J.RidesOf(q, tr.legs, tr.rides)
    && Last(tr.legs).exit.arrivalNode in q.NodesEgress()
  }

  // The legs and transfers are those of the steps left in the state st.
  ghost predicate FromSteps(st: R.ReverseState, tr: Trace) {
    tr.start.node in st.accessSteps && J.Behind(st, st.accessSteps[tr.start.node], tr.legs, tr.rides)
  }

  ghost function ItineraryOf(q: Query, tr: Trace): seq<JourneyStep>
    requires tr.start.node in q.NodesAccess() && tr.legs != [] && Last(tr.legs).exit.arrivalNode in q.NodesEgress()
  {
    J.Itinerary([Walk(q.NodesAccess()[tr.start.node])], tr.rides, q.NodesEgress()[Last(tr.legs).exit.arrivalNode])
  }

  ghost predicate Optimized(tt: O.Timetable, itinerary: seq<JourneyStep>, o: Optimization) {
    && O.WellFormed(tt, 1, itinerary) && O.WellFormed(tt, 1, o.journey)
    && O.Keeps(itinerary, o.journey, o.origin) && O.SameEnds(1, itinerary, o.journey)
    && O.Turns(o.record, tt, itinerary, o.journey)
  }

  ghost predicate Answers(tt: O.Timetable, infos: seq<J.TripInfo>, q: Query, rcs: seq<Connection>, tr: Trace,
                          o: Optimization, r: J.Route) {
    && InWindow(q, rcs, tr)
    && Optimized(tt, ItineraryOf(q, tr), o)
    && J.TotalsOf(infos, o.journey, tr.start.time, r)
  }

  lemma ItineraryEnds(q: Query, rcs: seq<Connection>, tr: Trace)
    requires InWindow(q, rcs, tr)
    ensures var it := ItineraryOf(q, tr);
            && |it| == |tr.rides| + 2 && |tr.rides| == |tr.legs| > 0
            && it[0] == Walk(q.NodesAccess()[tr.start.node])
            && it[1] == tr.rides[0] && it[1].Ride? && it[1].enter == tr.legs[0].enter
            && it[|it| - 2].Ride? && it[|it| - 2].exit == Last(tr.legs).exit
            && Last(it) == Walk(q.NodesEgress()[Last(tr.legs).exit.arrivalNode])
  {
    var access, egress := [Walk(q.NodesAccess()[tr.start.node])], q.NodesEgress()[Last(tr.legs).exit.arrivalNode];
    J.ItineraryAt(access, tr.rides, egress, 0);
    J.ItineraryAt(access, tr.rides, egress, |tr.rides| - 1);
  }

  // The egress walk is the one listed, so the chain is there in time.
  lemma ReachesInTime(q: Query, rcs: seq<Connection>, tr: Trace)
    requires ValidQuery(q) && InWindow(q, rcs, tr)
    ensures var x := Last(tr.legs).exit; x.arrivalTime + q.NodesEgress()[x.arrivalNode] <= q.arrivalTime
  {
    var x := Last(tr.legs).exit;
    var w :| NodeTime(x.arrivalNode, w) in q.egressFootpaths && x.arrivalTime + w <= q.arrivalTime;
    assert NodeTime(x.arrivalNode, q.NodesEgress()[x.arrivalNode]) in q.egressFootpaths;
    assert NodeTime(x.arrivalNode, w) == NodeTime(x.arrivalNode, q.NodesEgress()[x.arrivalNode]);
  }

  // Window safety, optimisation included: no earlier departure than requested,
  // no later arrival than the target, total time within the maximum; and the
  // first wait is the minimum wait of the first boarded connection.
  lemma RouteIsInWindow(tt: O.Timetable, infos: seq<J.TripInfo>, q: Query, rcs: seq<Connection>, tr: Trace,
                        o: Optimization, r: J.Route)
    requires ValidQuery(q) && Whole(Answers(tt, infos, q, rcs, tr, o, r))
    ensures 0 <= r.departureTime && (q.departureTime != -1 ==> q.departureTime <= r.departureTime)
    ensures r.arrivalTime <= q.arrivalTime
    ensures r.totalTravelTime == r.arrivalTime - r.departureTime <= q.maxTotalTravelTime
    ensures r.firstWaitingTime == q.Wait(tr.legs[0].enter)
    ensures r.arrivalTime <= Last(tr.legs).exit.arrivalTime + q.NodesEgress()[Last(tr.legs).exit.arrivalNode]
    ensures r.accessTravelTime == q.NodesAccess()[tr.legs[0].enter.departureNode]
    ensures r.egressTravelTime == q.NodesEgress()[Last(tr.legs).exit.arrivalNode]
    ensures var first, last := o.journey[1], o.journey[|o.journey| - 2];
            && first.enter == tr.legs[0].enter && last.exit.arrivalNode == Last(tr.legs).exit.arrivalNode
            && r.departureTime + r.accessTravelTime + r.firstWaitingTime == first.enter.departureTime
            && r.arrivalTime == last.exit.arrivalTime + r.egressTravelTime
  {
    ItineraryEnds(q, rcs, tr);
    ReachesInTime(q, rcs, tr);
  }

  // Every ride of the route is on a trip of some rebuilt leg, hence enabled.
  lemma RouteAvoidsDisabled(tt: O.Timetable, infos: seq<J.TripInfo>, q: Query, rcs: seq<Connection>, tr: Trace,
                            o: Optimization, r: J.Route)
    requires Answers(tt, infos, q, rcs, tr, o, r)
    ensures forall m: nat | m < |r.legs| :: r.legs[m].trip !in q.disabledTrips
  {
    forall m: nat | m < |r.legs| ensures r.legs[m].trip !in q.disabledTrips {
      RideAvoidsDisabled(tt, q, rcs, tr, o, m);
    }
  }

  lemma RideAvoidsDisabled(tt: O.Timetable, q: Query, rcs: seq<Connection>, tr: Trace, o: Optimization, m: nat)
    requires InWindow(q, rcs, tr) && Optimized(tt, ItineraryOf(q, tr), o) && m + 2 < |o.journey|
    ensures o.journey[m + 1].Ride? && o.journey[m + 1].enter.trip !in q.disabledTrips
  {
    var k := RideIsOnLeg(tt, q, rcs, tr, o, m);
  }

  // Each ride kept is on the trip of a rebuilt leg.
  lemma RideIsOnLeg(tt: O.Timetable, q: Query, rcs: seq<Connection>, tr: Trace, o: Optimization, m: nat)
      returns (k: nat)
    requires InWindow(q, rcs, tr) && Optimized(tt, ItineraryOf(q, tr), o) && m + 2 < |o.journey|
    ensures k < |tr.legs| && IsRide(q, rcs, tr.legs[k].enter, tr.legs[k].exit)
    ensures o.journey[m + 1].Ride? && o.journey[m + 1].enter.trip == tr.legs[k].enter.trip
  {
    var it := ItineraryOf(q, tr);
    k := o.origin[m + 1];
    assert O.PartOf(o.journey[m + 1], it[k]);
    assert it[k].Ride?;
    k := k - 1;
    J.ItineraryAt([Walk(q.NodesAccess()[tr.start.node])], tr.rides, q.NodesEgress()[Last(tr.legs).exit.arrivalNode], k);
    assert IsRide(q, rcs, tr.legs[k].enter, tr.legs[k].exit);
  }

  // ---- From the reverse labels to a route ---------------------------------------

  lemma WellFormedListed(tt: O.Timetable, infos: seq<J.TripInfo>, lo: nat, journey: seq<JourneyStep>)
    requires O.WellFormed(tt, lo, journey) && |infos| == |tt.forward|
    ensures forall s <- journey :: s.Ride? ==> s.enter.trip < |infos|
  {
    forall s | s in journey ensures s.Ride? ==> s.enter.trip < |infos| {
      var k: nat :| k < |journey| && journey[k] == s;
      assert O.RideOk(tt, journey[k]);
    }
  }

  // The legs behind the best access node, as rides between two walks.
  method RebuildItinerary(ghost tt: O.Timetable, ghost q: Query, ghost rcs: seq<Connection>, ghost k: nat,
                          ghost st: R.ReverseState,
                          nodesAccess: map<nat, int>, nodesEgress: map<nat, int>,
                          steps: seq<JourneyStep>, accessSteps: map<nat, RideStep>, best: NodeTime)
    returns (itinerary: seq<JourneyStep>, ghost tr: Trace)
    requires R.ValidReverse(q, rcs) && R.HandoffOrdered(q, rcs) && R.Sound(q, rcs, k, st) && J.Timetabled(tt, rcs)
    requires nodesAccess == q.NodesAccess() && nodesEgress == q.NodesEgress()
    requires accessSteps == st.accessSteps && steps == st.steps && T.ReverseResult(q, st) == Some(best)
    ensures InWindow(q, rcs, tr) && tr.start == best && FromSteps(st, tr)
    ensures itinerary == ItineraryOf(q, tr) && O.WellFormed(tt, 1, itinerary)
  {
    BestRides(q, rcs, k, st, best);
    var rides, egressNode := J.FollowSteps(q, rcs, k, st, steps, accessSteps[best.node]);
    tr := Trace(best, RX.LegsFrom(q, rcs, k, st, accessSteps[best.node]), rides);
    RidesInWindow(q, rcs, k, st, best, rides);
    RidesWellFormed(tt, q, rcs, k, st, accessSteps[best.node], rides, q.NodesAccess()[best.node],
                    q.NodesEgress()[egressNode]);
    itinerary := J.Itinerary([Walk(nodesAccess[best.node])], rides, nodesEgress[egressNode]);
  }

  lemma BestRides(q: Query, rcs: seq<Connection>, k: nat, st: R.ReverseState, best: NodeTime)
    requires R.ValidReverse(q, rcs) && R.HandoffOrdered(q, rcs) && R.Sound(q, rcs, k, st)
    requires T.ReverseResult(q, st) == Some(best)
    ensures best.node in q.NodesAccess() && best.node in st.accessSteps
    ensures R.RidesTo(q, rcs, k, st, st.accessSteps[best.node])
  {
    var legs := T.ReverseFeasible(q, rcs, k, st);
  }

  lemma RidesInWindow(q: Query, rcs: seq<Connection>, k: nat, st: R.ReverseState, best: NodeTime,
                      rides: seq<JourneyStep>)
    requires R.ValidReverse(q, rcs) && R.HandoffOrdered(q, rcs) && R.Sound(q, rcs, k, st)
    requires T.ReverseResult(q, st) == Some(best)
    requires best.node in st.accessSteps && R.RidesTo(q, rcs, k, st, st.accessSteps[best.node])
    requires var legs := RX.LegsFrom(q, rcs, k, st, st.accessSteps[best.node]);
             J.RidesOf(q, legs, rides) && Last(legs).exit.arrivalNode in q.NodesEgress()
    ensures InWindow(q, rcs, Trace(best, RX.LegsFrom(q, rcs, k, st, st.accessSteps[best.node]), rides))
  {
    var legs := T.ReverseFeasible(q, rcs, k, st);
    RebuiltInWindow(q, rcs, st, best, Trace(best, legs, rides));
  }

  lemma RidesWellFormed(tt: O.Timetable, q: Query, rcs: seq<Connection>, k: nat, st: R.ReverseState, first: JourneyStep,
                        rides: seq<JourneyStep>, access: int, egress: int)
    requires R.ValidReverse(q, rcs) && R.HandoffOrdered(q, rcs) && R.Sound(q, rcs, k, st) && J.Timetabled(tt, rcs)
    requires R.RidesTo(q, rcs, k, st, first) && J.RidesOf(q, RX.LegsFrom(q, rcs, k, st, first), rides)
    ensures O.WellFormed(tt, 1, J.Itinerary([Walk(access)], rides, egress))
  {
    RX.LegsFromReaching(q, rcs, k, st, first);
    J.ItineraryWellFormed(q, rcs, tt, RX.LegsFrom(q, rcs, k, st, first), rides, [Walk(access)], egress);
  }

  lemma RebuiltInWindow(q: Query, rcs: seq<Connection>, st: R.ReverseState, best: NodeTime, tr: Trace)
    requires T.Rebuilt(q, rcs, st, best, tr.legs) && tr.start == best
    requires J.RidesOf(q, tr.legs, tr.rides) && Last(tr.legs).exit.arrivalNode in q.NodesEgress()
    ensures InWindow(q, rcs, tr)
  {
  }

  // Optimising the itinerary and adding up its times.
  method FinishRoute(nodeCount: nat, tt: O.Timetable, infos: seq<J.TripInfo>, itinerary: seq<JourneyStep>,
                     departure: int)
    returns (r: J.Route, ghost o: Optimization)
    requires O.Valid(nodeCount, tt) && |infos| == |tt.forward| && O.WellFormed(tt, 1, itinerary)
    ensures Optimized(tt, itinerary, o)
    ensures J.TotalsOf(infos, o.journey, departure, r)
    ensures r.departureTime == departure && r.totalTravelTime == r.arrivalTime - departure
  {
    var journey, usedCases;
    ghost var origin, record;
    journey, usedCases, origin, record := O.Optimize(nodeCount, tt, 1, itinerary);
    WellFormedListed(tt, infos, 1, journey);
    r := J.Totals(infos, journey, departure);
    o := Optimization(journey, origin, record);
  }

  // Rebuilding, optimising and summing up from the best access node.
  method ReverseJourney(nodeCount: nat, tt: O.Timetable, infos: seq<J.TripInfo>, ghost q: Query,
                        ghost rcs: seq<Connection>,
                        ghost k: nat, ghost st: R.ReverseState, nodesAccess: map<nat, int>, nodesEgress: map<nat, int>,
                        steps: seq<JourneyStep>, accessSteps: map<nat, RideStep>, best: NodeTime)
    returns (r: J.Route, ghost tr: Trace, ghost o: Optimization)
    requires R.ValidReverse(q, rcs) && R.HandoffOrdered(q, rcs) && R.Sound(q, rcs, k, st) && J.Timetabled(tt, rcs)
    requires O.Valid(nodeCount, tt) && |infos| == |tt.forward|
    requires nodesAccess == q.NodesAccess() && nodesEgress == q.NodesEgress()
    requires accessSteps == st.accessSteps && steps == st.steps && T.ReverseResult(q, st) == Some(best)
    ensures Answers(tt, infos, q, rcs, tr, o, r)
    ensures tr.start == best && r.departureTime == best.time && FromSteps(st, tr)
  {
    var itinerary;
    itinerary, tr := RebuildItinerary(tt, q, rcs, k, st, nodesAccess, nodesEgress, steps, accessSteps, best);
    r, o := FinishRoute(nodeCount, tt, infos, itinerary, best.time);
  }
}
