// Accessibility results: every node reached by vehicle, with its arrival time
// and number of transfers.
module AllNodes {
  import opened Network
  import F = ForwardScan
  import FX = ForwardExact
  import R = ReverseScan
  import RX = ReverseExact
  import O = OptimizeJourney
  import J = Journeys

  datatype AccessibleNode = AccessibleNode(node: nat, time: int, travelTime: int, numberOfTransfers: int)

  // Legs on trips whose mode does not count as walking.
  function Boardings(infos: seq<J.TripInfo>, legs: seq<Leg>): nat {
    if legs == [] then 0
    else Boardings(infos, legs[..|legs| - 1]) +
         if Last(legs).enter.trip < |infos| && !infos[Last(legs).enter.trip].transferable then 1 else 0
  }

  // Following the steps from s back to an access node. Each step was scanned
  // before the boarding it leads to, so the loop ends.
  method CountTransfers(infos: seq<J.TripInfo>, ghost q: Query, ghost cs: seq<Connection>, ghost k: nat,
                        ghost st: F.ForwardState,
                        steps: seq<JourneyStep>, s: JourneyStep)
    returns (transfers: int, accessNode: nat)
    requires F.ValidForward(q, cs) && F.Sound(q, cs, k, st) && F.RodeFrom(q, cs, k, st, s)
    requires steps == st.steps && |infos| == q.tripCount
    ensures transfers == Boardings(infos, FX.LegsTo(q, cs, k, st, s)) - 1
    ensures accessNode in q.NodesAccess() && accessNode == FX.LegsTo(q, cs, k, st, s)[0].enter.departureNode
  {
    transfers, accessNode := -1, 0;
    var step := s;
    ghost var legs := FX.LegsTo(q, cs, k, st, s);
    while step.Ride?
      invariant step.Ride? ==>
        && F.RodeFrom(q, cs, k, st, step)
        && transfers + Boardings(infos, FX.LegsTo(q, cs, k, st, step)) == Boardings(infos, legs) - 1
        && FX.LegsTo(q, cs, k, st, step)[0] == legs[0]
      invariant step.Walk? ==>
                transfers == Boardings(infos, legs) - 1 && accessNode in q.NodesAccess() &&
                accessNode == legs[0].enter.departureNode
      decreases if step.Ride? && step.enter in cs then Pos(cs, step.enter) + 1 else 0
    {
      LegsToUnfold(q, cs, k, st, step);
      ghost var rest := FX.LegsTo(q, cs, k, st, step);
      if !infos[step.enter.trip].transferable {
        transfers := transfers + 1;
      }
      accessNode := step.enter.departureNode;
      step := steps[accessNode];
      if step.Ride? {
        assert rest[..|rest| - 1] == FX.LegsTo(q, cs, k, st, step);
      } else {
        assert rest[..0] == [];
      }
    }
  }

  lemma LegsToUnfold(q: Query, cs: seq<Connection>, k: nat, st: F.ForwardState, s: JourneyStep)
    requires F.ValidForward(q, cs) && F.Sound(q, cs, k, st) && F.RodeFrom(q, cs, k, st, s)
    ensures var e := s.enter;
            && e in cs && e.departureNode < q.nodeCount
            && var prev := st.steps[e.departureNode];
               if prev.Walk? then FX.LegsTo(q, cs, k, st, s) == [Leg(e, s.exit)] && e.departureNode in q.NodesAccess()
               else
                 && F.RodeFrom(q, cs, k, st, prev) && prev.enter in cs && Pos(cs, prev.enter) < Pos(cs, e)
                 && FX.LegsTo(q, cs, k, st, s) == FX.LegsTo(q, cs, k, st, prev) + [Leg(e, s.exit)]
  {
    var e := s.enter;
    assert F.TripOk(q, cs, k, st, e.trip) && F.StepOk(q, cs, k, st, e.departureNode);
    assert ValidConnection(q, e);
    var prev := st.steps[e.departureNode];
    if prev.Ride? { F.TripOrder(cs, prev.enter, prev.exit); }
  }

  ghost predicate InNodeOrder(bound: nat, nodes: seq<AccessibleNode>) {
    && (forall m: nat | m < |nodes| :: nodes[m].node < bound)
    && (forall i: nat, j: nat | i < j < |nodes| :: nodes[i].node < nodes[j].node)
  }

  ghost predicate Holds(nodes: seq<AccessibleNode>, n: nat) {
    exists m: nat :: m < |nodes| && nodes[m].node == n
  }

  lemma HoldsMore(nodes: seq<AccessibleNode>, a: AccessibleNode, n: nat)
    requires Holds(nodes, n) || n == a.node
    ensures Holds(nodes + [a], n)
  {
    var all := nodes + [a];
    if n == a.node {
      assert all[|nodes|].node == n;
    } else {
      var m: nat :| m < |nodes| && nodes[m].node == n;
      assert all[m].node == n;
    }
  }

  lemma InNodeOrderNext(n: nat, nodes: seq<AccessibleNode>, a: AccessibleNode)
    requires InNodeOrder(n, nodes) && a.node == n
    ensures InNodeOrder(n + 1, nodes + [a])
  {
  }

  // nodes holds the listed nodes below bound, in order, each once.
  ghost predicate Lists(infos: seq<J.TripInfo>, q: Query, cs: seq<Connection>, k: nat, st: F.ForwardState, bound: nat,
                        nodes: seq<AccessibleNode>)
    requires F.ValidForward(q, cs) && F.Sound(q, cs, k, st)
  {
    && Whole(Entries(infos, q, cs, k, st, nodes))
    && InNodeOrder(bound, nodes)
    && HoldsReached(q, st, bound, nodes)
  }

  ghost predicate Entries(infos: seq<J.TripInfo>, q: Query, cs: seq<Connection>, k: nat, st: F.ForwardState,
                          nodes: seq<AccessibleNode>)
    requires F.ValidForward(q, cs) && F.Sound(q, cs, k, st)
  {
    forall m: nat | m < |nodes| :: Entry(infos, q, cs, k, st, nodes[m])
  }

  ghost predicate HoldsReached(q: Query, st: F.ForwardState, bound: nat, nodes: seq<AccessibleNode>) {
    forall n: nat, t | n < bound && FX.ListedAt(q, st, n, t) :: Holds(nodes, n)
  }

  ghost predicate Entry(infos: seq<J.TripInfo>, q: Query, cs: seq<Connection>, k: nat, st: F.ForwardState,
                        a: AccessibleNode)
    requires F.ValidForward(q, cs) && F.Sound(q, cs, k, st)
  {
    && FX.ListedAt(q, st, a.node, a.time)
    && a.travelTime == a.time - q.departureTime
    && F.RodeFrom(q, cs, k, st, st.egressSteps[a.node])
    && a.numberOfTransfers == Boardings(infos, FX.LegsTo(q, cs, k, st, st.egressSteps[a.node])) - 1
  }

  method ForwardJourneyAllNodes(infos: seq<J.TripInfo>, ghost q: Query, ghost cs: seq<Connection>, ghost k: nat,
                                ghost st: F.ForwardState,
                                nodeCount: nat, departureTime: int, maxTotalTravelTime: int,
                                steps: seq<JourneyStep>, egressSteps: map<nat, RideStep>)
    returns (nodes: seq<AccessibleNode>)
    requires F.ValidForward(q, cs) && F.Sound(q, cs, k, st) && |infos| == q.tripCount
    requires steps == st.steps && egressSteps == st.egressSteps && departureTime == q.departureTime
    requires maxTotalTravelTime == q.maxTotalTravelTime && nodeCount == q.nodeCount
    ensures Lists(infos, q, cs, k, st, nodeCount, nodes)
  {
    nodes := [];
    for n := 0 to nodeCount
      invariant Lists(infos, q, cs, k, st, n, nodes)
    {
      var entry := ListReached(infos, q, cs, k, st, departureTime, maxTotalTravelTime, steps, egressSteps, n);
      if entry.Some? {
        ListsNext(infos, q, cs, k, st, n, nodes, entry.value);
        nodes := nodes + [entry.value];
      } else {
        ListsSkip(infos, q, cs, k, st, n, nodes);
      }
    }
  }

  method ListReached(infos: seq<J.TripInfo>, ghost q: Query, ghost cs: seq<Connection>, ghost k: nat,
                     ghost st: F.ForwardState,
                     departureTime: int, maxTotalTravelTime: int, steps: seq<JourneyStep>,
                         egressSteps: map<nat, RideStep>, n: nat)
    returns (entry: Option<AccessibleNode>)
    requires F.ValidForward(q, cs) && F.Sound(q, cs, k, st) && |infos| == q.tripCount
    requires steps == st.steps && egressSteps == st.egressSteps && departureTime == q.departureTime
    requires maxTotalTravelTime == q.maxTotalTravelTime
    ensures entry.None? ==> forall t :: !FX.ListedAt(q, st, n, t)
    ensures entry.Some? ==> entry.value.node == n && Whole(Entry(infos, q, cs, k, st, entry.value))
  {
    entry := None;
    if n in egressSteps {
      assert F.EgressOk(q, cs, k, st, n);
      var transfers, accessNode := CountTransfers(infos, q, cs, k, st, steps, egressSteps[n]);
      var arrival := egressSteps[n].exit.arrivalTime;
      if arrival - departureTime <= maxTotalTravelTime {
        entry := Some(AccessibleNode(n, arrival, arrival - departureTime, transfers));
      }
    }
  }

  lemma ListsSkip(infos: seq<J.TripInfo>, q: Query, cs: seq<Connection>, k: nat, st: F.ForwardState, n: nat,
                  nodes: seq<AccessibleNode>)
    requires F.ValidForward(q, cs) && F.Sound(q, cs, k, st)
    requires Lists(infos, q, cs, k, st, n, nodes) && forall t :: !FX.ListedAt(q, st, n, t)
    ensures Lists(infos, q, cs, k, st, n + 1, nodes)
  {
  }

  lemma ListsNext(infos: seq<J.TripInfo>, q: Query, cs: seq<Connection>, k: nat, st: F.ForwardState, n: nat,
                  nodes: seq<AccessibleNode>, a: AccessibleNode)
    requires F.ValidForward(q, cs) && F.Sound(q, cs, k, st)
    requires Lists(infos, q, cs, k, st, n, nodes) && Whole(Entry(infos, q, cs, k, st, a)) && a.node == n
    ensures Lists(infos, q, cs, k, st, n + 1, nodes + [a])
  {
    EntriesNext(infos, q, cs, k, st, nodes, a);
    InNodeOrderNext(n, nodes, a);
    HoldsReachedNext(q, st, n, nodes, a);
  }

  lemma EntriesNext(infos: seq<J.TripInfo>, q: Query, cs: seq<Connection>, k: nat, st: F.ForwardState,
                    nodes: seq<AccessibleNode>, a: AccessibleNode)
    requires F.ValidForward(q, cs) && F.Sound(q, cs, k, st)
    requires Whole(Entries(infos, q, cs, k, st, nodes)) && Whole(Entry(infos, q, cs, k, st, a))
    ensures Whole(Entries(infos, q, cs, k, st, nodes + [a]))
  {
    assert forall m: nat | m < |nodes| :: Entry(infos, q, cs, k, st, nodes[m]);
  }

  lemma HoldsReachedNext(q: Query, st: F.ForwardState, n: nat, nodes: seq<AccessibleNode>, a: AccessibleNode)
    requires HoldsReached(q, st, n, nodes) && a.node == n
    ensures HoldsReached(q, st, n + 1, nodes + [a])
  {
    forall x: nat, t | x < n + 1 && FX.ListedAt(q, st, x, t) ensures Holds(nodes + [a], x) {
      HoldsMore(nodes, a, x);
    }
  }

  // The result, read against the declarative definition: it lists exactly the nodes
  // some journey the scan can follow reaches by vehicle within the maximum total
  // time, each at its earliest arrival.
  lemma ListIsExact(infos: seq<J.TripInfo>, q: Query, cs: seq<Connection>, k: nat, nodes: seq<AccessibleNode>, n: nat,
                    t: int)
    requires F.ValidForward(q, cs) && n < q.nodeCount
    requires var st := F.Scan(q, cs, 0, F.Initial(q), false);
             F.Sound(q, cs, k, st) && Lists(infos, q, cs, k, st, q.nodeCount, nodes)
    ensures HoldsAt(nodes, n, t) <==> FX.EarliestScanned(q, cs, n, t)
  {
    var st := F.Scan(q, cs, 0, F.Initial(q), false);
    FX.AllNodesFollow(q, cs, n, t);
    if FX.ListedAt(q, st, n, t) {
      var m: nat :| m < |nodes| && nodes[m].node == n;
      assert Entry(infos, q, cs, k, st, nodes[m]);
    }
    if m: nat :| m < |nodes| && nodes[m].node == n && nodes[m].time == t {
      assert Entry(infos, q, cs, k, st, nodes[m]);
    }
  }

  ghost predicate HoldsAt(nodes: seq<AccessibleNode>, n: nat, t: int) {
    exists m: nat :: m < |nodes| && nodes[m].node == n && nodes[m].time == t
  }

  // Over all feasible journeys, where none is missed.
  lemma ListIsExactOverAll(infos: seq<J.TripInfo>, q: Query, cs: seq<Connection>, k: nat, nodes: seq<AccessibleNode>,
                           n: nat, t: int)
    requires F.ValidForward(q, cs) && FX.NoNodeMissed(q, cs) && n < q.nodeCount
    requires var st := F.Scan(q, cs, 0, F.Initial(q), false);
             F.Sound(q, cs, k, st) && Lists(infos, q, cs, k, st, q.nodeCount, nodes)
    ensures HoldsAt(nodes, n, t) <==> FX.EarliestWithinMax(q, cs, n, t)
  {
    ListIsExact(infos, q, cs, k, nodes, n, t);
    FX.AllNodesFollow(q, cs, n, t);
    FX.UnmissedIsEarliest(q, cs, n, t);
  }

  // No reachable connection, no node listed and none to list.
  lemma FailureIsExact(q: Query, cs: seq<Connection>, n: nat, t: int)
    requires F.ValidForward(q, cs)
    requires F.Scan(q, cs, 0, F.Initial(q), false).reachableCount == 0
    ensures !FX.EarliestScanned(q, cs, n, t) && (FX.NoNodeMissed(q, cs) ==> !FX.EarliestWithinMax(q, cs, n, t))
  {
    FX.AllNodesFollow(q, cs, n, t);
    FX.InitialInvariant(q, cs);
    var k := FX.ScanInvariant(q, cs, 0, F.Initial(q), false);
    if FX.NoNodeMissed(q, cs) { FX.UnmissedIsEarliest(q, cs, n, t); }
  }

  // ---- Reverse ------------------------------------------------------------------

  // Rides among the first m steps on trips whose mode does not count as walking.
  function RidesCounted(infos: seq<J.TripInfo>, journey: seq<JourneyStep>, m: nat): nat
    requires m <= |journey|
  {
    if m == 0 then 0
    else RidesCounted(infos, journey, m - 1) +
         if journey[m - 1].Ride? && journey[m - 1].enter.trip < |infos|
             && !infos[journey[m - 1].enter.trip].transferable then 1 else 0
  }

  // How an entry came about: the legs rebuilt from its step, and the optimised
  // itinerary with the step each of its steps comes from and the rounds behind it.
  datatype Trace = Trace(legs: seq<Leg>, rides: seq<JourneyStep>, journey: seq<JourneyStep>, origin: seq<nat>,
                         record: O.CompleteRun)

  ghost predicate ReverseEntry(tt: O.Timetable, infos: seq<J.TripInfo>, q: Query, rcs: seq<Connection>,
                               st: R.ReverseState,
                               a: AccessibleNode, tr: Trace)
  {
    && a.node in st.accessSteps && a.time == q.arrivalTime
    && Whole(Traced(tt, q, rcs, st, a.node, tr))
    && a.numberOfTransfers == RidesCounted(infos, tr.journey, |tr.journey|) - 1
    && a.travelTime == q.arrivalTime - BoardingTime(st.accessSteps[a.node].enter) <= q.maxTotalTravelTime
  }

  // The chain leads from the node to the destination in time, and the journey
  // is an optimised form of it.
  ghost predicate Traced(tt: O.Timetable, q: Query, rcs: seq<Connection>, st: R.ReverseState, n: nat, tr: Trace)
    requires n in st.accessSteps
  {
    && RX.Reaching(q, rcs, tr.legs) && J.Behind(st, st.accessSteps[n], tr.legs, tr.rides)
    && tr.legs[0].enter == st.accessSteps[n].enter && tr.legs[0].enter.departureNode == n
    && J.RidesOf(q, tr.legs, tr.rides) && Last(tr.legs).exit.arrivalNode in q.NodesEgress()
    && var it := J.Itinerary([], tr.rides, q.NodesEgress()[Last(tr.legs).exit.arrivalNode]);
    && O.WellFormed(tt, 0, it) && O.WellFormed(tt, 0, tr.journey)
    && O.Keeps(it, tr.journey, tr.origin) && O.SameEnds(0, it, tr.journey)
    && O.Turns(tr.record, tt, it, tr.journey)
  }

  // The original subtracts the connection's own minimum wait, even the -1 that
  // stands for "inherit".
  function BoardingTime(e: Connection): int {
    e.departureTime - e.minWaitingTime
  }

  ghost predicate ReverseListed(q: Query, st: R.ReverseState, n: nat) {
    n in st.accessSteps && q.arrivalTime - BoardingTime(st.accessSteps[n].enter) <= q.maxTotalTravelTime
  }

  ghost predicate ReverseLists(tt: O.Timetable, infos: seq<J.TripInfo>, q: Query, rcs: seq<Connection>,
                               st: R.ReverseState,
                               bound: nat, nodes: seq<AccessibleNode>, traces: seq<Trace>)
  {
    && Whole(ReverseEntries(tt, infos, q, rcs, st, nodes, traces))
    && InNodeOrder(bound, nodes)
    && HoldsListed(q, st, bound, nodes)
  }

  ghost predicate HoldsListed(q: Query, st: R.ReverseState, bound: nat, nodes: seq<AccessibleNode>) {
    forall n: nat | n < bound && ReverseListed(q, st, n) :: Holds(nodes, n)
  }

  lemma HoldsListedNext(q: Query, st: R.ReverseState, n: nat, nodes: seq<AccessibleNode>, a: AccessibleNode)
    requires HoldsListed(q, st, n, nodes) && a.node == n
    ensures HoldsListed(q, st, n + 1, nodes + [a])
  {
    forall x: nat | x < n + 1 && ReverseListed(q, st, x) ensures Holds(nodes + [a], x) {
      HoldsMore(nodes, a, x);
    }
  }

  ghost predicate ReverseEntries(tt: O.Timetable, infos: seq<J.TripInfo>, q: Query, rcs: seq<Connection>,
                                 st: R.ReverseState,
                                 nodes: seq<AccessibleNode>, traces: seq<Trace>)
  {
    && |traces| == |nodes|
    && (forall m: nat | m < |nodes| :: Whole(ReverseEntry(tt, infos, q, rcs, st, nodes[m], traces[m])))
  }

  method CountRides(infos: seq<J.TripInfo>, tt: O.Timetable, journey: seq<JourneyStep>) returns (transfers: int)
    requires O.WellFormed(tt, 0, journey) && |infos| == |tt.forward|
    ensures transfers == RidesCounted(infos, journey, |journey|) - 1
  {
    transfers := -1;
    for m := 0 to |journey|
      invariant transfers == RidesCounted(infos, journey, m) - 1
    {
      assert O.RideOk(tt, journey[m]);
      if journey[m].Ride? && !infos[journey[m].enter.trip].transferable {
        transfers := transfers + 1;
      }
    }
  }

  // From one node: rebuild, invert the transfers, optimise.
  method TraceBack(nodeCount: nat, tt: O.Timetable, ghost q: Query, ghost rcs: seq<Connection>, ghost k: nat,
                   ghost st: R.ReverseState,
                   nodesEgress: map<nat, int>, steps: seq<JourneyStep>, accessSteps: map<nat, RideStep>, n: nat)
    returns (journey: seq<JourneyStep>, ghost tr: Trace)
    requires R.ValidReverse(q, rcs) && R.HandoffOrdered(q, rcs) && R.Sound(q, rcs, k, st) && J.Timetabled(tt, rcs)
    requires O.Valid(nodeCount, tt) && nodesEgress == q.NodesEgress() && accessSteps == st.accessSteps
        && steps == st.steps
    requires n in accessSteps
    ensures tr.journey == journey && Whole(Traced(tt, q, rcs, st, n, tr))
    ensures O.WellFormed(tt, 0, journey) && journey[0].enter == accessSteps[n].enter
  {
    RX.AccessFeasible(q, rcs, k, st, n);
    var rides, egressNode := J.FollowSteps(q, rcs, k, st, steps, accessSteps[n]);
    ghost var legs := RX.LegsFrom(q, rcs, k, st, st.accessSteps[n]);
    RX.LegsFromFollows(q, rcs, k, st, st.accessSteps[n]);
    J.ItineraryWellFormed(q, rcs, tt, legs, rides, [], nodesEgress[egressNode]);
    var usedCases;
    ghost var origin, record;
    journey, usedCases, origin, record :=
      O.Optimize(nodeCount, tt, 0, J.Itinerary([], rides, nodesEgress[egressNode]));
    tr := Trace(legs, rides, journey, origin, record);
  }

  lemma EntryIs(tt: O.Timetable, infos: seq<J.TripInfo>, q: Query, rcs: seq<Connection>, st: R.ReverseState,
                a: AccessibleNode, tr: Trace)
    requires a.node in st.accessSteps && a.time == q.arrivalTime && Whole(Traced(tt, q, rcs, st, a.node, tr))
    requires a.numberOfTransfers == RidesCounted(infos, tr.journey, |tr.journey|) - 1
    requires a.travelTime == q.arrivalTime - BoardingTime(st.accessSteps[a.node].enter) <= q.maxTotalTravelTime
    ensures Whole(ReverseEntry(tt, infos, q, rcs, st, a, tr))
  {
  }

  method ListFrom(nodeCount: nat, tt: O.Timetable, infos: seq<J.TripInfo>, ghost q: Query, ghost rcs: seq<Connection>,
                  ghost k: nat, ghost st: R.ReverseState, arrivalTime: int, maxTotalTravelTime: int,
                  nodesEgress: map<nat, int>, steps: seq<JourneyStep>, accessSteps: map<nat, RideStep>, n: nat)
    returns (entry: Option<AccessibleNode>, ghost tr: Trace)
    requires R.ValidReverse(q, rcs) && R.HandoffOrdered(q, rcs) && R.Sound(q, rcs, k, st) && J.Timetabled(tt, rcs)
    requires O.Valid(nodeCount, tt) && |infos| == |tt.forward| && nodesEgress == q.NodesEgress()
    requires accessSteps == st.accessSteps && steps == st.steps
    requires arrivalTime == q.arrivalTime && maxTotalTravelTime == q.maxTotalTravelTime
    ensures entry.Some? <==> ReverseListed(q, st, n)
    ensures entry.Some? ==> entry.value.node == n && Whole(ReverseEntry(tt, infos, q, rcs, st, entry.value, tr))
  {
    entry, tr := None, Trace([], [], [], [], O.NO_RUN);
    if n in accessSteps {
      var journey;
      journey, tr := TraceBack(nodeCount, tt, q, rcs, k, st, nodesEgress, steps, accessSteps, n);
      var transfers := CountRides(infos, tt, journey);
      var departure := accessSteps[n].enter.departureTime - accessSteps[n].enter.minWaitingTime;
      if arrivalTime - departure <= maxTotalTravelTime {
        entry := Some(AccessibleNode(n, arrivalTime, arrivalTime - departure, transfers));
        EntryIs(tt, infos, q, rcs, st, entry.value, tr);
      }
    }
  }

  method ReverseJourneyAllNodes(nodeCount: nat, tt: O.Timetable, infos: seq<J.TripInfo>, ghost q: Query,
                                ghost rcs: seq<Connection>,
                                ghost k: nat, ghost st: R.ReverseState, arrivalTime: int, maxTotalTravelTime: int,
                                nodesEgress: map<nat, int>, steps: seq<JourneyStep>, accessSteps: map<nat, RideStep>)
    returns (nodes: seq<AccessibleNode>, ghost traces: seq<Trace>)
    requires R.ValidReverse(q, rcs) && R.HandoffOrdered(q, rcs) && R.Sound(q, rcs, k, st) && J.Timetabled(tt, rcs)
    requires O.Valid(nodeCount, tt) && |infos| == |tt.forward| && nodesEgress == q.NodesEgress()
    requires accessSteps == st.accessSteps && steps == st.steps
    requires arrivalTime == q.arrivalTime && maxTotalTravelTime == q.maxTotalTravelTime
    ensures ReverseLists(tt, infos, q, rcs, st, nodeCount, nodes, traces)
    ensures HoldsOnlyListed(q, st, nodeCount, nodes)
  {
    nodes, traces := [], [];
    for n := 0 to nodeCount
      invariant ReverseLists(tt, infos, q, rcs, st, n, nodes, traces)
    {
      var entry;
      ghost var tr;
      entry, tr := ListFrom(nodeCount, tt, infos, q, rcs, k, st, arrivalTime, maxTotalTravelTime, nodesEgress, steps,
                            accessSteps, n);
      if entry.Some? {
        ReverseListsNext(tt, infos, q, rcs, st, n, nodes, traces, entry.value, tr);
        nodes, traces := nodes + [entry.value], traces + [tr];
      } else {
        ReverseListsSkip(tt, infos, q, rcs, st, n, nodes, traces);
      }
    }
    OnlyListed(tt, infos, q, rcs, st, nodeCount, nodes, traces);
  }

  ghost predicate HoldsOnlyListed(q: Query, st: R.ReverseState, bound: nat, nodes: seq<AccessibleNode>) {
    forall n: nat | n < bound :: ReverseListed(q, st, n) <==> Holds(nodes, n)
  }

  lemma OnlyListed(tt: O.Timetable, infos: seq<J.TripInfo>, q: Query, rcs: seq<Connection>, st: R.ReverseState,
                   bound: nat,
                   nodes: seq<AccessibleNode>, traces: seq<Trace>)
    requires ReverseLists(tt, infos, q, rcs, st, bound, nodes, traces)
    ensures HoldsOnlyListed(q, st, bound, nodes)
  {
    forall m: nat | m < |nodes| ensures ReverseListed(q, st, nodes[m].node) {
      assert Whole(ReverseEntry(tt, infos, q, rcs, st, nodes[m], traces[m]));
    }
  }

  lemma ReverseListsSkip(tt: O.Timetable, infos: seq<J.TripInfo>, q: Query, rcs: seq<Connection>, st: R.ReverseState,
                         n: nat,
                         nodes: seq<AccessibleNode>, traces: seq<Trace>)
    requires ReverseLists(tt, infos, q, rcs, st, n, nodes, traces) && !ReverseListed(q, st, n)
    ensures ReverseLists(tt, infos, q, rcs, st, n + 1, nodes, traces)
  {
  }

  lemma ReverseListsNext(tt: O.Timetable, infos: seq<J.TripInfo>, q: Query, rcs: seq<Connection>, st: R.ReverseState,
                         n: nat,
                         nodes: seq<AccessibleNode>, traces: seq<Trace>, a: AccessibleNode, tr: Trace)
    requires ReverseLists(tt, infos, q, rcs, st, n, nodes, traces)
    requires Whole(ReverseEntry(tt, infos, q, rcs, st, a, tr)) && a.node == n
    ensures ReverseLists(tt, infos, q, rcs, st, n + 1, nodes + [a], traces + [tr])
  {
    InNodeOrderNext(n, nodes, a);
    HoldsListedNext(q, st, n, nodes, a);
    ReverseEntriesNext(tt, infos, q, rcs, st, nodes, traces, a, tr);
  }

  lemma ReverseEntriesNext(tt: O.Timetable, infos: seq<J.TripInfo>, q: Query, rcs: seq<Connection>, st: R.ReverseState,
                           nodes: seq<AccessibleNode>, traces: seq<Trace>, a: AccessibleNode, tr: Trace)
    requires Whole(ReverseEntries(tt, infos, q, rcs, st, nodes, traces))
    requires Whole(ReverseEntry(tt, infos, q, rcs, st, a, tr))
    ensures Whole(ReverseEntries(tt, infos, q, rcs, st, nodes + [a], traces + [tr]))
  {
  }
}
