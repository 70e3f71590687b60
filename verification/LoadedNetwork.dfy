// From the loaded schedules to an answer: the set of a scenario gives a valid
// request, and the answer is exact over the loaded connections themselves.
module LoadedNetworks {
  import opened Network
  import opened Filters
  import F = ForwardScan
  import FX = ForwardExact
  import R = ReverseScan
  import T = TwoPass
  import A = Answers
  import J = Journeys
  import C = ConnectionSets
  import K = Calculators
  import S = Sorting
  import TB = Timetables
  import TD = TransitDatas
  import Q = SingleQuery

  // What the loaders leave behind.
  datatype Schedules = Schedules(
    attributes: seq<TripAttributes>,
    tripIds: seq<nat>,
    uuid: nat -> nat,
    connections: seq<Connection>)

  function SchedulesOf(data: TD.TransitData): Schedules {
    Schedules(data.attributes, data.tripIds, data.uuid, data.connections)
  }

  // The scenario's share of the trips, of the two sorted lists, and of the loaded
  // connections in the order they were loaded.
  function TripsOf(d: Schedules, f: Filter): seq<nat> {
    S.Select(TD.KeepTrip(f, d.attributes), d.tripIds)
  }

  function Keep(d: Schedules, f: Filter): Connection -> bool {
    TD.KeepConnection(f, d.attributes, d.tripIds)
  }

  function ForwardOf(d: Schedules, f: Filter): seq<Connection> {
    S.Select(Keep(d, f), TB.Forward(d.uuid, d.connections))
  }

  function ReverseOf(d: Schedules, f: Filter): seq<Connection> {
    S.Select(Keep(d, f), TB.Reverse(d.uuid, d.connections))
  }

  function KeptOf(d: Schedules, f: Filter): seq<Connection> {
    S.Select(Keep(d, f), d.connections)
  }

  // The network holds what was loaded: trips numbered alike, each with its share
  // of the sorted lists.
  ghost predicate Holds(net: K.Transit, d: Schedules) {
    Whole(HoldsAll(net, d))
  }

  ghost predicate HoldsAll(net: K.Transit, d: Schedules) {
    && net.attributes == d.attributes && |d.attributes| == net.tripCount == |net.infos| == |net.timetable.forward|
    && (forall t <- d.tripIds :: t < |d.attributes|)
    && TB.Loaded(d.connections) && TB.WithinNodes(net.nodeCount, d.connections)
    && TB.AllNumbered(d.connections, net.tripCount) && TB.Shares(d.uuid, d.connections, net.timetable)
  }

  lemma TripsListed(d: Schedules, f: Filter)
    requires forall t <- d.tripIds :: t < |d.attributes|
    ensures forall t <- TripsOf(d, f) :: t in d.tripIds && t < |d.attributes|
  {
    forall t: nat | t in TripsOf(d, f) ensures t in d.tripIds && t < |d.attributes| {
      S.SelectIn<nat>(TD.KeepTrip(f, d.attributes), d.tripIds, t);
    }
  }

  ghost function QueryOf(net: K.Transit, d: Schedules, f: Filter, p: K.Parameters, access: seq<NodeTime>,
                         egress: seq<NodeTime>): Query
    requires Holds(net, d)
  {
    TripsListed(d, f);
    K.QueryFor(net, p, access, egress, TripsOf(d, f))
  }

  // What the request adds: valid footpaths, transfers and times, handoffs scanned
  // in order, and a departure hour within the index.
  ghost predicate Asks(net: K.Transit, d: Schedules, f: Filter, p: K.Parameters, access: seq<NodeTime>,
                       egress: seq<NodeTime>)
    requires Holds(net, d)
  {
    Whole(AsksAll(net, d, f, p, access, egress))
  }

  ghost predicate AsksAll(net: K.Transit, d: Schedules, f: Filter, p: K.Parameters, access: seq<NodeTime>,
                          egress: seq<NodeTime>)
    requires Holds(net, d)
  {
    var q := QueryOf(net, d, f, p, access, egress);
    && ValidQuery(q) && ValidConnections(q, d.connections) && R.HandoffOrdered(q, ReverseOf(d, f))
    && 0 <= p.timeOfTrip
    && (p.forward && p.timeOfTrip / 3600 == 32 ==>
          exists c <- ForwardOf(d, f) :: c.departureTime >= 32 * 3600)
  }

  // Both lists hold the kept connections, on the kept trips, in the scan orders.
  lemma ListsAreShares(d: Schedules, f: Filter)
    requires TB.Loaded(d.connections)
    ensures F.ForwardSorted(ForwardOf(d, f)) && R.ReverseSorted(ReverseOf(d, f))
    ensures SameConnections(ForwardOf(d, f), ReverseOf(d, f)) && SameConnections(KeptOf(d, f), ForwardOf(d, f))
    ensures forall c <- ReverseOf(d, f) :: c in d.connections && c.trip in TripsOf(d, f)
  {
    TB.FilteredForward(d.uuid, d.connections, Keep(d, f));
    TB.FilteredReverse(d.uuid, d.connections, Keep(d, f));
    TB.FilteredSame(d.uuid, d.connections, Keep(d, f));
    forall c ensures c in KeptOf(d, f) <==> c in ForwardOf(d, f) { S.SelectIn(Keep(d, f), d.connections, c); }
    forall c | c in ReverseOf(d, f) ensures c in d.connections && c.trip in TripsOf(d, f) {
      assert c in ForwardOf(d, f);
      S.SelectIn(TD.KeepTrip(f, d.attributes), d.tripIds, c.trip);
    }
  }

  lemma ListsAreValid(q: Query, d: Schedules, f: Filter)
    requires TB.Loaded(d.connections) && ValidQuery(q) && ValidConnections(q, d.connections)
    ensures F.ValidForward(q, ForwardOf(d, f)) && R.ValidReverse(q, ReverseOf(d, f))
  {
    ListsAreShares(d, f);
    forall c | c in ForwardOf(d, f) ensures c in d.connections { assert c in ReverseOf(d, f); }
    F.FitsAll(q, ForwardOf(d, f));
    R.FitsAll(q, ReverseOf(d, f));
  }

  // The set of a scenario over loaded data makes a valid request.
  lemma RequestIsValid(calculator: K.Calculator, d: Schedules, f: Filter, set_: C.ConnectionSet, p: K.Parameters,
                       access: seq<NodeTime>, egress: seq<NodeTime>)
    requires Holds(calculator.net, d) && Asks(calculator.net, d, f, p, access, egress)
    requires TD.FromScratch(set_, f, d.attributes, d.tripIds, TB.Forward(d.uuid, d.connections),
                            TB.Reverse(d.uuid, d.connections))
    ensures calculator.ValidRequest(p, set_, access, egress)
    ensures forall c <- set_.reverseConnections :: c.trip in set_.trips
  {
    TripsListed(d, f);
    ListsAreShares(d, f);
    ListsAreValid(QueryOf(calculator.net, d, f, p, access, egress), d, f);
    TB.TimetableIsValid(d.uuid, d.connections, calculator.net.nodeCount, calculator.net.timetable);
  }

  // ---- The answer, over the loaded connections ----------------------------------

  lemma SameArrivals(q: Query, cs: seq<Connection>, other: seq<Connection>, legs: seq<Leg>, t: int)
    requires SameConnections(cs, other)
    ensures Arrives(q, cs, legs, t) <==> Arrives(q, other, legs, t)
  {
  }

  lemma SameExtremes(q: Query, cs: seq<Connection>, other: seq<Connection>, t: int)
    requires SameConnections(cs, other)
    ensures FX.NoneWithinMax(q, cs) <==> FX.NoneWithinMax(q, other)
    ensures FX.EarliestArrival(q, cs, t) <==> FX.EarliestArrival(q, other, t)
  {
    forall legs, u ensures Arrives(q, cs, legs, u) <==> Arrives(q, other, legs, u) {
      SameArrivals(q, cs, other, legs, u);
    }
  }

  // A forward route exists if and only if some journey the scan can follow over the
  // scenario's connections fits the maximum; its target is the earliest arrival of
  // those. Where none is missed, that is over all journeys on what was loaded.
  ghost predicate ExactAnswer(q: Query, cs: seq<Connection>, kept: seq<Connection>, r: K.Result<J.Route>, target: int) {
    && (r.Ok? <==> !FX.NoneScanned(q, cs)) && (r.Ok? ==> FX.EarliestScanArrival(q, cs, target))
    && (FX.NoneMissed(q, cs) ==>
          (r.Ok? <==> !FX.NoneWithinMax(q, kept)) && (r.Ok? ==> FX.EarliestArrival(q, kept, target)))
  }

  lemma OutcomeIsExact(net: K.Transit, d: Schedules, f: Filter, q: Query, p: K.Parameters,
                       r: K.Result<J.Route>, target: int, tr: A.Trace, o: A.Optimization)
    requires TB.Loaded(d.connections) && p.forward && p.timeOfTrip / 3600 <= 32
    requires Whole(K.Outcome(net, q, p, ForwardOf(d, f), ReverseOf(d, f), r, target, tr, o))
    requires T.Composable(q, ForwardOf(d, f), ReverseOf(d, f))
    ensures ExactAnswer(q, ForwardOf(d, f), KeptOf(d, f), r, target)
  {
    ListsAreShares(d, f);
    Q.FoundExactly(q, ForwardOf(d, f), ReverseOf(d, f), r.Ok?, target);
    if FX.NoneMissed(q, ForwardOf(d, f)) {
      Q.FoundAmongAll(q, ForwardOf(d, f), ReverseOf(d, f), r.Ok?, target);
      SameExtremes(q, KeptOf(d, f), ForwardOf(d, f), target);
    }
  }

  // What the answer to the query is: what the passes determine, and exact if they
  // can be composed.
  ghost predicate Answered(net: K.Transit, d: Schedules, f: Filter, p: K.Parameters, access: seq<NodeTime>,
                           egress: seq<NodeTime>, r: K.Result<J.Route>, target: int, tr: A.Trace, o: A.Optimization)
    requires Holds(net, d)
  {
    var q := QueryOf(net, d, f, p, access, egress);
    && Whole(K.Outcome(net, q, p, ForwardOf(d, f), ReverseOf(d, f), r, target, tr, o))
    && (p.forward && p.timeOfTrip / 3600 <= 32 && T.Composable(q, ForwardOf(d, f), ReverseOf(d, f)) ==>
          ExactAnswer(q, ForwardOf(d, f), KeptOf(d, f), r, target))
  }

  lemma IsAnswered(net: K.Transit, d: Schedules, f: Filter, p: K.Parameters, access: seq<NodeTime>,
                   egress: seq<NodeTime>, r: K.Result<J.Route>, target: int, tr: A.Trace, o: A.Optimization)
    requires Holds(net, d)
    requires Whole(K.Outcome(net, QueryOf(net, d, f, p, access, egress), p, ForwardOf(d, f), ReverseOf(d, f), r,
                             target, tr, o))
    ensures Whole(Answered(net, d, f, p, access, egress, r, target, tr, o))
  {
    var q := QueryOf(net, d, f, p, access, egress);
    if p.forward && p.timeOfTrip / 3600 <= 32 && T.Composable(q, ForwardOf(d, f), ReverseOf(d, f)) {
      OutcomeIsExact(net, d, f, q, p, r, target, tr, o);
    }
  }

  // Looking up the scenario's connections, then answering the query on them.
  method AnswerScenario(data: TD.TransitData, calculator: K.Calculator, scenario: TD.Scenario, p: K.Parameters,
                        origin: seq<NodeTime>, destination: seq<NodeTime>)
    returns (r: K.Result<J.Route>, ghost target: int, ghost tr: A.Trace, ghost o: A.Optimization)
    requires data.Valid() && data.Knows(scenario) && Holds(calculator.net, SchedulesOf(data))
    requires Asks(calculator.net, SchedulesOf(data), scenario.ToFilter(), p, origin, destination)
    modifies data.one, data.all, calculator
    ensures data.CachesCorrect()
    ensures origin == [] || destination == [] ==> r.Failed?
    ensures origin != [] && destination != [] ==>
              Whole(Answered(calculator.net, SchedulesOf(data), scenario.ToFilter(), p, origin, destination, r,
                             target, tr, o))
  {
    ghost var d, f := SchedulesOf(data), scenario.ToFilter();
    var set_ := data.GetConnectionsForScenario(scenario);
    RequestIsValid(calculator, d, f, set_, p, origin, destination);
    r, target, tr, o := calculator.CalculateSingle(p, set_, origin, destination, true);
    if origin != [] && destination != [] {
      IsAnswered(calculator.net, d, f, p, origin, destination, r, target, tr, o);
    }
  }
}
