// The query engine: label vectors, overlays and footpath maps that the methods
// update in place, and the composition of the passes into a single query.
module Calculators {
  import opened Network
  import opened Filters
  import F = ForwardScan
  import FX = ForwardExact
  import R = ReverseScan
  import RX = ReverseExact
  import T = TwoPass
  import C = ConnectionSets
  import O = OptimizeJourney
  import J = Journeys
  import A = Answers
  import N = AllNodes
  import V = Services

  datatype Failure =
    | NoRoutingFound
    | NoAccessAtOrigin
    | NoAccessAtDestination
    | NoAccessAtOriginAndDestination
    | NoServiceFromOrigin
    | NoServiceToDestination

  datatype Result<+A> = Ok(value: A) | Failed(reason: Failure)

  // What does not change between queries.
  datatype Transit = Transit(
    nodeCount: nat,
    tripCount: nat,
    transfers: seq<seq<NodeTime>>,
    reverseTransfers: seq<seq<NodeTime>>,
    timetable: O.Timetable,
    infos: seq<J.TripInfo>,
    attributes: seq<TripAttributes>)

  datatype Parameters = Parameters(
    timeOfTrip: int,
    minWaitingTime: int,
    maxTotalTravelTime: int,
    maxTransferWalkingTime: int,
    maxFirstWaitingTime: int,
    forward: bool,
    filter: Filter)

  // The query a calculation answers.
  function QueryFor(net: Transit, p: Parameters, access: seq<NodeTime>, egress: seq<NodeTime>, trips: seq<nat>): Query
    requires forall t <- trips :: t < |net.attributes|
  {
    Query(net.nodeCount, net.tripCount, net.transfers, net.reverseTransfers, access, egress,
          if p.forward then p.timeOfTrip else -1, if p.forward then -1 else p.timeOfTrip,
          p.minWaitingTime, p.maxTotalTravelTime, p.maxTransferWalkingTime, p.maxFirstWaitingTime,
          Disabled(p.filter, net.attributes, trips))
  }

  // Field by field: the time asked for is the departure of a forward query and the
  // arrival of the other kind, -1 stands for the time not asked for, and the filter
  // disables trips of the set.
  lemma QueryAsks(net: Transit, p: Parameters, access: seq<NodeTime>, egress: seq<NodeTime>, trips: seq<nat>)
    requires forall t <- trips :: t < |net.attributes|
    ensures var q := QueryFor(net, p, access, egress, trips);
            && (if p.forward then q.departureTime == p.timeOfTrip && q.arrivalTime == -1
                else q.departureTime == -1 && q.arrivalTime == p.timeOfTrip)
            && q.accessFootpaths == access && q.egressFootpaths == egress
            && q.minWaitingTime == p.minWaitingTime && q.maxTotalTravelTime == p.maxTotalTravelTime
            && q.maxTransferWalkingTime == p.maxTransferWalkingTime && q.maxFirstWaitingTime == p.maxFirstWaitingTime
            && q.transfers == net.transfers && q.reverseTransfers == net.reverseTransfers
            && forall t <- q.disabledTrips :: t in trips && !Enabled(p.filter, net.attributes[t])
  {
  }

  class Calculator {
    const net: Transit

    var connectionSet: C.ConnectionSet
    var departureTimeSeconds: int
    var arrivalTimeSeconds: int
    var minAccessTravelTime: int
    var maxEgressTravelTime: int
    var maxAccessTravelTime: int
    var minEgressTravelTime: int
    var nodesTentativeTime: seq<int>
    var nodesReverseTentativeTime: seq<int>
    var nodesAccess: map<nat, int>
    var nodesEgress: map<nat, int>
    var tripsDisabled: set<nat>
    var tripsQueryOverlay: seq<TripQueryData>
    var accessFootpaths: seq<NodeTime>
    var egressFootpaths: seq<NodeTime>
    var forwardJourneysSteps: seq<JourneyStep>
    var reverseJourneysSteps: seq<JourneyStep>

    constructor (net: Transit, connectionSet: C.ConnectionSet)
      ensures this.net == net && this.connectionSet == connectionSet
    {
      this.net := net;
      this.connectionSet := connectionSet;
      departureTimeSeconds, arrivalTimeSeconds := -1, -1;
      minAccessTravelTime, maxEgressTravelTime, maxAccessTravelTime, minEgressTravelTime := MAX_INT, -1, -1, MAX_INT;
      nodesTentativeTime, nodesReverseTentativeTime := [], [];
      nodesAccess, nodesEgress, tripsDisabled, tripsQueryOverlay := map[], map[], {}, [];
      accessFootpaths, egressFootpaths, forwardJourneysSteps, reverseJourneysSteps := [], [], [], [];
    }

    ghost predicate SameNetwork(q: Query) {
      && q.nodeCount == net.nodeCount && q.tripCount == net.tripCount
      && q.transfers == net.transfers && q.reverseTransfers == net.reverseTransfers
    }

    // The query data derived from the footpath lists and filters agree with q.
    ghost predicate Prepared(q: Query)
      reads this`accessFootpaths, this`egressFootpaths, this`departureTimeSeconds, this`arrivalTimeSeconds,
            this`tripsDisabled,
            this`nodesAccess, this`nodesEgress, this`minAccessTravelTime, this`maxAccessTravelTime,
            this`minEgressTravelTime, this`maxEgressTravelTime
    {
      Whole(PreparedFields(q))
    }

    ghost predicate PreparedFields(q: Query)
      reads this`accessFootpaths, this`egressFootpaths, this`departureTimeSeconds, this`arrivalTimeSeconds,
            this`tripsDisabled, this`nodesAccess, this`nodesEgress, this`minAccessTravelTime, this`maxAccessTravelTime,
            this`minEgressTravelTime, this`maxEgressTravelTime
    {
      PreparedButArrival(q) && q.arrivalTime == arrivalTimeSeconds
    }

    ghost predicate PreparedButArrival(q: Query)
      reads this`accessFootpaths, this`egressFootpaths, this`departureTimeSeconds, this`tripsDisabled, this`nodesAccess,
            this`nodesEgress, this`minAccessTravelTime, this`maxAccessTravelTime, this`minEgressTravelTime,
            this`maxEgressTravelTime
    {
      && SameNetwork(q)
      && q.accessFootpaths == accessFootpaths && q.egressFootpaths == egressFootpaths
      && q.departureTime == departureTimeSeconds
      && q.disabledTrips == tripsDisabled
      && nodesAccess == q.NodesAccess() && nodesEgress == q.NodesEgress()
      && minAccessTravelTime == MinTime(accessFootpaths) && maxAccessTravelTime == MaxTime(accessFootpaths)
      && minEgressTravelTime == MinTime(egressFootpaths) && maxEgressTravelTime == MaxTime(egressFootpaths)
    }

    ghost function Forward(egressSteps: map<nat, RideStep>, reached: bool, tentative: int, count: nat): F.ForwardState
      reads this`nodesTentativeTime, this`forwardJourneysSteps, this`tripsQueryOverlay
    {
      F.ForwardState(nodesTentativeTime, forwardJourneysSteps, tripsQueryOverlay, egressSteps, reached, tentative,
                     count)
    }

    ghost function Reverse(accessSteps: map<nat, RideStep>, reached: bool, tentative: int, count: nat): R.ReverseState
      reads this`nodesReverseTentativeTime, this`reverseJourneysSteps, this`tripsQueryOverlay
    {
      R.ReverseState(nodesReverseTentativeTime, reverseJourneysSteps, tripsQueryOverlay, accessSteps, reached,
                     tentative, count)
    }

    // ---- Forward ------------------------------------------------------------------

    // One footpath after alighting from c.
    method RelaxForwardOne(ghost q: Query, p: Parameters, c: Connection, enter: Connection, fp: NodeTime,
                           egressSteps0: map<nat, RideStep>,
                           ghost reached: bool, ghost tentative: int, ghost count: nat)
      returns (egressSteps: map<nat, RideStep>)
      requires q.maxTransferWalkingTime == p.maxTransferWalkingTime && fp.node < q.nodeCount
      requires F.Sized(q, Forward(egressSteps0, reached, tentative, count))
      modifies this`nodesTentativeTime, this`forwardJourneysSteps
      ensures Forward(egressSteps, reached, tentative, count) ==
              F.RelaxOne(q, old(Forward(egressSteps0, reached, tentative, count)), c, enter, fp)
    {
      egressSteps := egressSteps0;
      var current := nodesTentativeTime[fp.node];
      if c.arrivalNode != fp.node && current < c.arrivalTime {
        return;
      }
      if fp.time <= p.maxTransferWalkingTime {
        if fp.time + c.arrivalTime < current {
          nodesTentativeTime := nodesTentativeTime[fp.node := fp.time + c.arrivalTime];
          forwardJourneysSteps := forwardJourneysSteps[fp.node := Ride(enter, c, fp.time)];
        }
        if c.arrivalNode == fp.node
            && (fp.node !in egressSteps || egressSteps[fp.node].exit.arrivalTime > c.arrivalTime) {
          egressSteps := egressSteps[fp.node := Ride(enter, c, fp.time)];
        }
      }
    }

    // The footpath loop after alighting from c.
    method RelaxForward(ghost q: Query, p: Parameters, c: Connection, enter: Connection,
                        egressSteps0: map<nat, RideStep>,
                        ghost reached: bool, ghost tentative: int, ghost count: nat)
      returns (egressSteps: map<nat, RideStep>)
      requires SameNetwork(q) && q.maxTransferWalkingTime == p.maxTransferWalkingTime
      requires F.Fits(q, c) && F.Sized(q, Forward(egressSteps0, reached, tentative, count))
      modifies this`nodesTentativeTime, this`forwardJourneysSteps
      ensures Forward(egressSteps, reached, tentative, count) ==
              F.Relax(q, old(Forward(egressSteps0, reached, tentative, count)), c, enter, q.transfers[c.arrivalNode])
    {
      egressSteps := egressSteps0;
      var fps := net.transfers[c.arrivalNode];
      ghost var goal := F.Relax(q, Forward(egressSteps, reached, tentative, count), c, enter, fps);
      var k := 0;
      assert fps[0..] == fps;
      while k < |fps|
        invariant 0 <= k <= |fps|
        invariant F.Sized(q, Forward(egressSteps, reached, tentative, count))
        invariant F.Relax(q, Forward(egressSteps, reached, tentative, count), c, enter, fps[k..]) == goal
      {
        assert fps[k] in fps && fps[k..][0] == fps[k] && fps[k..][1..] == fps[k + 1..];
        egressSteps := RelaxForwardOne(q, p, c, enter, fps[k], egressSteps, reached, tentative, count);
        k := k + 1;
      }
    }

    // May c be boarded, or is its trip already ridden?
    method IsReachable(ghost q: Query, p: Parameters, c: Connection, ghost st: F.ForwardState) returns (reachable: bool)
      requires nodesAccess == q.NodesAccess() && SameParameters(q, p) && F.Fits(q, c) && F.Sized(q, st)
      requires st.time == nodesTentativeTime && st.steps == forwardJourneysSteps && st.overlay == tripsQueryOverlay
      ensures reachable == F.Reachable(q, st, c)
    {
      var minWait := c.MinWaitingTimeOrDefault(p.minWaitingTime);
      var nodeTime := nodesTentativeTime[c.departureNode];
      var accessedFromOrigin := p.maxFirstWaitingTime > 0 && c.departureNode in nodesAccess
        && nodesAccess[c.departureNode] >= 0 && forwardJourneysSteps[c.departureNode].Walk?;
      reachable :=
        && (tripsQueryOverlay[c.trip].enter.Some? || nodeTime <= c.departureTime - minWait)
        && (!accessedFromOrigin || c.departureTime - nodeTime <= p.maxFirstWaitingTime);
    }

    method BoardForward(ghost q: Query, c: Connection, ghost st: F.ForwardState)
      requires F.Fits(q, c) && F.Sized(q, st)
      requires st.steps == forwardJourneysSteps && st.overlay == tripsQueryOverlay
      modifies this`tripsQueryOverlay
      ensures F.Boarded(q, st, c) == st.(overlay := tripsQueryOverlay)
    {
      if c.canBoard && tripsQueryOverlay[c.trip].enter.None? {
        var data := tripsQueryOverlay[c.trip];
        data := data.(usable := true, enter := Some(c));
        data := data.(enterTransferTime := forwardJourneysSteps[c.departureNode].transferTime);
        tripsQueryOverlay := tripsQueryOverlay[c.trip := data];
      }
    }

    method AlightForward(ghost q: Query, p: Parameters, c: Connection, egressSteps0: map<nat, RideStep>,
                         reached0: bool, tentative0: int, ghost count: nat)
      returns (egressSteps: map<nat, RideStep>, reached: bool, tentative: int)
      requires nodesEgress == q.NodesEgress() && SameNetwork(q) && SameParameters(q, p)
      requires F.Fits(q, c) && F.Sized(q, Forward(egressSteps0, reached0, tentative0, count))
      modifies this`nodesTentativeTime, this`forwardJourneysSteps
      ensures Forward(egressSteps, reached, tentative, count) ==
              F.Alighted(q, old(Forward(egressSteps0, reached0, tentative0, count)), c)
    {
      egressSteps, reached, tentative := egressSteps0, reached0, tentative0;
      if c.canUnboard && tripsQueryOverlay[c.trip].enter.Some? {
        if !reached && c.arrivalNode in nodesEgress && nodesEgress[c.arrivalNode] != -1 {
          reached, tentative := true, c.arrivalTime;
        }
        assert Forward(egressSteps, reached, tentative, count) ==
            F.NoteEgress(q, Forward(egressSteps0, reached0, tentative0, count), c);
        egressSteps := RelaxForward(q, p, c, tripsQueryOverlay[c.trip].enter.value, egressSteps, reached, tentative,
                                    count);
      }
    }

    // One connection that is late enough, enabled and not beyond a break.
    method ScanForward(ghost q: Query, p: Parameters, c: Connection, egressSteps0: map<nat, RideStep>,
                       reached0: bool, tentative0: int, count0: nat)
      returns (egressSteps: map<nat, RideStep>, reached: bool, tentative: int, count: nat)
      requires nodesAccess == q.NodesAccess() && nodesEgress == q.NodesEgress() && SameNetwork(q)
          && SameParameters(q, p)
      requires F.Scanned(q, c) && F.Fits(q, c) && F.Sized(q, Forward(egressSteps0, reached0, tentative0, count0))
      modifies this`nodesTentativeTime, this`forwardJourneysSteps, this`tripsQueryOverlay
      ensures Forward(egressSteps, reached, tentative, count) ==
              F.Process(q, old(Forward(egressSteps0, reached0, tentative0, count0)), c)
    {
      egressSteps, reached, tentative, count := egressSteps0, reached0, tentative0, count0;
      ghost var st := Forward(egressSteps, reached, tentative, count);
      var reachable := IsReachable(q, p, c, st);
      if reachable {
        BoardForward(q, c, st);
        egressSteps, reached, tentative := AlightForward(q, p, c, egressSteps, reached, tentative, count);
        count := count + 1;
      }
    }

    ghost predicate SameParameters(q: Query, p: Parameters) {
      && q.minWaitingTime == p.minWaitingTime && q.maxTotalTravelTime == p.maxTotalTravelTime
      && q.maxTransferWalkingTime == p.maxTransferWalkingTime && q.maxFirstWaitingTime == p.maxFirstWaitingTime
    }

    ghost predicate ReadyForward(q: Query)
      reads this`connectionSet, this`accessFootpaths, this`egressFootpaths, this`departureTimeSeconds,
            this`arrivalTimeSeconds,
            this`tripsDisabled, this`nodesAccess, this`nodesEgress, this`minAccessTravelTime, this`maxAccessTravelTime,
            this`minEgressTravelTime, this`maxEgressTravelTime
    {
      Whole(ForwardFields(q))
    }

    ghost predicate ForwardFields(q: Query)
      reads this`connectionSet, this`accessFootpaths, this`egressFootpaths, this`departureTimeSeconds,
            this`arrivalTimeSeconds,
            this`tripsDisabled, this`nodesAccess, this`nodesEgress, this`minAccessTravelTime, this`maxAccessTravelTime,
            this`minEgressTravelTime, this`maxEgressTravelTime
    {
      && Prepared(q) && connectionSet.Valid() && q.departureTime >= 0
      && F.ValidForward(q, connectionSet.forwardConnections)
      && (departureTimeSeconds / 3600 == 32 ==>
            exists c <- connectionSet.forwardConnections :: c.departureTime >= 32 * 3600)
    }

    // One iteration; the break on the first egress arrival is for a single
    // destination only.
    method StepForward(ghost q: Query, p: Parameters, single: bool, c: Connection, egressSteps0: map<nat, RideStep>,
                       reached0: bool, tentative0: int, count0: nat)
      returns (stopped: bool, egressSteps: map<nat, RideStep>, reached: bool, tentative: int, count: nat)
      requires Prepared(q) && SameParameters(q, p)
      requires F.Fits(q, c) && F.Sized(q, Forward(egressSteps0, reached0, tentative0, count0))
      modifies this`nodesTentativeTime, this`forwardJourneysSteps, this`tripsQueryOverlay
      ensures stopped == F.Stops(q, old(Forward(egressSteps0, reached0, tentative0, count0)), c, single)
      ensures Forward(egressSteps, reached, tentative, count) ==
              var st := old(Forward(egressSteps0, reached0, tentative0, count0));
                  if stopped then st else F.Process(q, st, c)
    {
      stopped, egressSteps, reached, tentative, count := false, egressSteps0, reached0, tentative0, count0;
      if c.departureTime >= departureTimeSeconds + minAccessTravelTime && c.trip !in tripsDisabled {
        if || (single && reached && maxEgressTravelTime >= 0 && tentative < MAX_INT
               && c.departureTime > tentative + maxEgressTravelTime)
           || c.departureTime - departureTimeSeconds > p.maxTotalTravelTime
        {
          stopped := true;
        } else {
          egressSteps, reached, tentative, count := ScanForward(q, p, c, egressSteps, reached, tentative, count);
        }
      }
    }

    // The main loop of both forward calculations, from position start.
    method ForwardLoop(ghost q: Query, p: Parameters, single: bool, start: nat)
      returns (egressSteps: map<nat, RideStep>, reached: bool, tentative: int, count: nat)
      requires Prepared(q) && SameParameters(q, p) && start <= |connectionSet.forwardConnections|
      requires forall c <- connectionSet.forwardConnections :: F.Fits(q, c)
      requires Forward(map[], false, MAX_INT, 0) == F.Initial(q)
      modifies this`nodesTentativeTime, this`forwardJourneysSteps, this`tripsQueryOverlay
      ensures Forward(egressSteps, reached, tentative, count) ==
              F.Scan(q, connectionSet.forwardConnections, start, F.Initial(q), single)
    {
      egressSteps, reached, tentative, count := map[], false, MAX_INT, 0;
      var cs := connectionSet.forwardConnections;
      var i := start;
      ghost var goal := F.Scan(q, cs, i, F.Initial(q), single);
      while i < |cs|
        invariant i <= |cs|
        invariant F.Sized(q, Forward(egressSteps, reached, tentative, count))
        invariant F.Scan(q, cs, i, Forward(egressSteps, reached, tentative, count), single) == goal
      {
        assert cs[i] in cs;
        F.ScanUnfold(q, cs, i, Forward(egressSteps, reached, tentative, count), single);
        var stopped;
        stopped, egressSteps, reached, tentative, count :=
            StepForward(q, p, single, cs[i], egressSteps, reached, tentative, count);
        if stopped {
          return;
        }
        i := i + 1;
      }
    }

    method ForwardFromHour(ghost q: Query, p: Parameters, single: bool)
      returns (egressSteps: map<nat, RideStep>, reached: bool, tentative: int, count: nat)
      requires ReadyForward(q) && SameParameters(q, p)
      requires Forward(map[], false, MAX_INT, 0) == F.Initial(q)
      modifies this`nodesTentativeTime, this`forwardJourneysSteps, this`tripsQueryOverlay
      ensures departureTimeSeconds / 3600 <= 32 ==>
                Forward(egressSteps, reached, tentative, count) ==
                    F.Scan(q, connectionSet.forwardConnections, 0, F.Initial(q), single)
      ensures departureTimeSeconds / 3600 > 32 ==>
          Forward(egressSteps, reached, tentative, count) == F.Initial(q)
    {
      var start := connectionSet.ForwardBegin(departureTimeSeconds / 3600);
      if departureTimeSeconds / 3600 <= 32 {
        C.ForwardIndexRefines(q, connectionSet.forwardConnections, start, F.Initial(q), single);
      }
      egressSteps, reached, tentative, count := ForwardLoop(q, p, single, start);
    }

    method ForwardCalculation(ghost q: Query, p: Parameters)
      returns (r: Result<Option<NodeTime>>, ghost st: F.ForwardState)
      requires ReadyForward(q) && SameParameters(q, p)
      requires Forward(map[], false, MAX_INT, 0) == F.Initial(q)
      modifies this`nodesTentativeTime, this`forwardJourneysSteps, this`tripsQueryOverlay
      ensures tripsQueryOverlay == st.overlay
      ensures departureTimeSeconds / 3600 <= 32 ==>
          st == F.Scan(q, connectionSet.forwardConnections, 0, F.Initial(q), true)
      ensures departureTimeSeconds / 3600 > 32 ==> st == F.Initial(q)
      ensures st.reachableCount == 0 <==> r == Failed(NoServiceFromOrigin)
      ensures r.Ok? ==> r.value == FX.ForwardResult(q, st)
      ensures r.Failed? ==> st.reachableCount == 0
    {
      var egressSteps, reached, tentative, count := ForwardFromHour(q, p, true);
      st := Forward(egressSteps, reached, tentative, count);
      if count == 0 {
        return Failed(NoServiceFromOrigin), st;
      }
      var best := FindBestEgress(q, p, st, egressSteps);
      r := Ok(best);
    }

    method FindBestEgress(ghost q: Query, p: Parameters, ghost st: F.ForwardState, egressSteps: map<nat, RideStep>)
      returns (best: Option<NodeTime>)
      requires Prepared(q) && SameParameters(q, p) && egressSteps == st.egressSteps
      ensures best == FX.BestEgress(q, st, |q.egressFootpaths|)
    {
      best := None;
      for m := 0 to |egressFootpaths|
        invariant best == FX.BestEgress(q, st, m)
      {
        var n := egressFootpaths[m].node;
        assert q.egressFootpaths[m] in q.egressFootpaths;
        best := PickEgress(q, p, st, egressSteps, best, NodeTime(n, nodesEgress[n]));
      }
    }

    method PickEgress(ghost q: Query, p: Parameters, ghost st: F.ForwardState, egressSteps: map<nat, RideStep>,
                      best0: Option<NodeTime>, fp: NodeTime)
      returns (best: Option<NodeTime>)
      requires q.departureTime == departureTimeSeconds && SameParameters(q, p) && egressSteps == st.egressSteps
      ensures best == FX.BetterEgress(q, st, best0, fp)
    {
      best := best0;
      if fp.node in egressSteps {
        var t := egressSteps[fp.node].exit.arrivalTime + fp.time;
        if && t >= 0 && t - departureTimeSeconds <= p.maxTotalTravelTime
           && t < (if best.Some? then best.value.time else MAX_INT) && t < MAX_INT
        {
          best := Some(NodeTime(fp.node, t));
        }
      }
    }

    // ---- Reverse ------------------------------------------------------------------

    // One footpath before boarding c.
    method RelaxReverseOne(ghost q: Query, p: Parameters, c: Connection, exit: Connection, fp: NodeTime,
                           accessSteps0: map<nat, RideStep>,
                           ghost reached: bool, ghost tentative: int, ghost count: nat)
      returns (accessSteps: map<nat, RideStep>)
      requires SameParameters(q, p) && q.departureTime == departureTimeSeconds && nodesAccess == q.NodesAccess()
      requires fp.node < q.nodeCount && R.Sized(q, Reverse(accessSteps0, reached, tentative, count))
      modifies this`nodesReverseTentativeTime, this`reverseJourneysSteps
      ensures Reverse(accessSteps, reached, tentative, count) ==
              R.RelaxOne(q, old(Reverse(accessSteps0, reached, tentative, count)), c, exit, fp)
    {
      accessSteps := accessSteps0;
      var minWait := c.MinWaitingTimeOrDefault(p.minWaitingTime);
      if c.departureNode != fp.node && nodesReverseTentativeTime[fp.node] > c.departureTime - minWait {
        return;
      }
      if fp.time <= p.maxTransferWalkingTime {
        if c.departureTime - fp.time - minWait >= nodesReverseTentativeTime[fp.node] {
          nodesReverseTentativeTime := nodesReverseTentativeTime[fp.node := c.departureTime - fp.time - minWait];
          reverseJourneysSteps := reverseJourneysSteps[fp.node := Ride(c, exit, fp.time)];
        }
        if c.departureNode == fp.node &&
           (fp.node !in accessSteps || accessSteps[fp.node].enter.departureTime <= c.departureTime - minWait)
        {
          var allowed := IsAccessAllowed(q, p, c);
          if allowed {
            accessSteps := accessSteps[fp.node := Ride(c, exit, 0)];
          }
        }
      }
    }

    method IsAccessAllowed(ghost q: Query, p: Parameters, c: Connection) returns (allowed: bool)
      requires SameParameters(q, p) && q.departureTime == departureTimeSeconds && nodesAccess == q.NodesAccess()
      ensures allowed == R.AccessAllowed(q, c)
    {
      var minWait := c.MinWaitingTimeOrDefault(p.minWaitingTime);
      if departureTimeSeconds == -1 {
        return true;
      }
      if c.departureNode !in nodesAccess {
        return false;
      }
      var access := nodesAccess[c.departureNode];
      allowed := c.departureTime - access - minWait >= departureTimeSeconds
        && (p.maxFirstWaitingTime < minWait
            || c.departureTime - departureTimeSeconds - access <= p.maxFirstWaitingTime);
    }

    method RelaxReverse(ghost q: Query, p: Parameters, c: Connection, exit: Connection,
                        accessSteps0: map<nat, RideStep>,
                        ghost reached: bool, ghost tentative: int, ghost count: nat)
      returns (accessSteps: map<nat, RideStep>)
      requires SameNetwork(q) && SameParameters(q, p) && q.departureTime == departureTimeSeconds
          && nodesAccess == q.NodesAccess()
      requires R.Fits(q, c) && R.Sized(q, Reverse(accessSteps0, reached, tentative, count))
      modifies this`nodesReverseTentativeTime, this`reverseJourneysSteps
      ensures Reverse(accessSteps, reached, tentative, count) ==
              R.Relax(q, old(Reverse(accessSteps0, reached, tentative, count)), c, exit,
                      q.reverseTransfers[c.departureNode])
    {
      accessSteps := accessSteps0;
      var fps := net.reverseTransfers[c.departureNode];
      ghost var goal := R.Relax(q, Reverse(accessSteps, reached, tentative, count), c, exit, fps);
      var k := 0;
      assert fps[0..] == fps;
      while k < |fps|
        invariant 0 <= k <= |fps|
        invariant R.Sized(q, Reverse(accessSteps, reached, tentative, count))
        invariant R.Relax(q, Reverse(accessSteps, reached, tentative, count), c, exit, fps[k..]) == goal
      {
        assert fps[k] in fps && fps[k..][0] == fps[k] && fps[k..][1..] == fps[k + 1..];
        accessSteps := RelaxReverseOne(q, p, c, exit, fps[k], accessSteps, reached, tentative, count);
        k := k + 1;
      }
    }

    // Choosing the trip's exit, or choosing it again for a shorter transfer.
    method ChooseExit(ghost q: Query, p: Parameters, c: Connection, ghost st: R.ReverseState)
      requires SameParameters(q, p) && R.Fits(q, c) && R.Sized(q, st)
      requires st.time == nodesReverseTentativeTime && st.steps == reverseJourneysSteps
          && st.overlay == tripsQueryOverlay
      modifies this`tripsQueryOverlay
      ensures R.ExitChosen(q, st, c) == st.(overlay := tripsQueryOverlay)
    {
      if c.canUnboard {
        var step := reverseJourneysSteps[c.arrivalNode];
        var data := tripsQueryOverlay[c.trip];
        if data.exit.None? {
          tripsQueryOverlay :=
              tripsQueryOverlay[c.trip := data.(exit := Some(c), exitTransferTime := step.transferTime)];
        } else if step.Ride? && step.transferTime >= 0 && step.transferTime < data.exitTransferTime {
          var minWait := step.enter.MinWaitingTimeOrDefault(p.minWaitingTime);
          if c.arrivalTime + minWait <= nodesReverseTentativeTime[c.arrivalNode] {
            tripsQueryOverlay :=
                tripsQueryOverlay[c.trip := data.(exit := Some(c), exitTransferTime := step.transferTime)];
          }
        }
      }
    }

    method BoardReverse(ghost q: Query, p: Parameters, c: Connection, accessSteps0: map<nat, RideStep>,
                        reached0: bool, tentative0: int, ghost count: nat)
      returns (accessSteps: map<nat, RideStep>, reached: bool, tentative: int)
      requires SameNetwork(q) && SameParameters(q, p) && q.departureTime == departureTimeSeconds
          && nodesAccess == q.NodesAccess()
      requires R.Fits(q, c) && R.Sized(q, Reverse(accessSteps0, reached0, tentative0, count))
      modifies this`nodesReverseTentativeTime, this`reverseJourneysSteps
      ensures Reverse(accessSteps, reached, tentative, count) ==
              R.Boarded(q, old(Reverse(accessSteps0, reached0, tentative0, count)), c)
    {
      accessSteps, reached, tentative := accessSteps0, reached0, tentative0;
      if c.canBoard && tripsQueryOverlay[c.trip].exit.Some? {
        if !reached && c.departureNode in nodesAccess && nodesAccess[c.departureNode] != -1 {
          reached, tentative := true, c.departureTime;
        }
        assert Reverse(accessSteps, reached, tentative, count) ==
            R.NoteAccess(q, Reverse(accessSteps0, reached0, tentative0, count), c);
        accessSteps := RelaxReverse(q, p, c, tripsQueryOverlay[c.trip].exit.value, accessSteps, reached, tentative,
                                    count);
      }
    }

    method ScanReverse(ghost q: Query, p: Parameters, ghost single: bool, c: Connection,
                       accessSteps0: map<nat, RideStep>,
                       reached0: bool, tentative0: int, count0: nat)
      returns (accessSteps: map<nat, RideStep>, reached: bool, tentative: int, count: nat)
      requires SameNetwork(q) && SameParameters(q, p) && q.departureTime == departureTimeSeconds
          && nodesAccess == q.NodesAccess()
      requires R.Fits(q, c) && R.Sized(q, Reverse(accessSteps0, reached0, tentative0, count0))
      requires R.Scanned(q, Reverse(accessSteps0, reached0, tentative0, count0), c, single)
      modifies this`nodesReverseTentativeTime, this`reverseJourneysSteps, this`tripsQueryOverlay
      ensures Reverse(accessSteps, reached, tentative, count) ==
              R.Process(q, old(Reverse(accessSteps0, reached0, tentative0, count0)), c, single)
    {
      accessSteps, reached, tentative, count := accessSteps0, reached0, tentative0, count0;
      if tripsQueryOverlay[c.trip].exit.Some? || nodesReverseTentativeTime[c.arrivalNode] >= c.arrivalTime {
        ghost var st := Reverse(accessSteps, reached, tentative, count);
        ChooseExit(q, p, c, st);
        accessSteps, reached, tentative := BoardReverse(q, p, c, accessSteps, reached, tentative, count);
        count := count + 1;
      }
    }

    method StepReverse(ghost q: Query, p: Parameters, single: bool, c: Connection, accessSteps0: map<nat, RideStep>,
                       reached0: bool, tentative0: int, count0: nat)
      returns (stopped: bool, accessSteps: map<nat, RideStep>, reached: bool, tentative: int, count: nat)
      requires Prepared(q) && SameParameters(q, p)
      requires R.Fits(q, c) && R.Sized(q, Reverse(accessSteps0, reached0, tentative0, count0))
      modifies this`nodesReverseTentativeTime, this`reverseJourneysSteps, this`tripsQueryOverlay
      ensures stopped == R.Stops(q, old(Reverse(accessSteps0, reached0, tentative0, count0)), c, single)
      ensures Reverse(accessSteps, reached, tentative, count) ==
              var st := old(Reverse(accessSteps0, reached0, tentative0, count0));
                  if stopped then st else R.Process(q, st, c, single)
    {
      stopped, accessSteps, reached, tentative, count := false, accessSteps0, reached0, tentative0, count0;
      if c.arrivalTime <= arrivalTimeSeconds - (if single then minEgressTravelTime else 0) {
        if tripsQueryOverlay[c.trip].usable && c.trip !in tripsDisabled {
          if || (single && reached && maxAccessTravelTime >= 0 && c.arrivalTime < tentative - maxAccessTravelTime)
             || arrivalTimeSeconds - c.arrivalTime > p.maxTotalTravelTime
          {
            stopped := true;
          } else {
            accessSteps, reached, tentative, count :=
                ScanReverse(q, p, single, c, accessSteps, reached, tentative, count);
          }
        }
      }
    }

    method ReverseLoop(ghost q: Query, p: Parameters, single: bool, start: nat, ghost overlay: seq<TripQueryData>)
      returns (accessSteps: map<nat, RideStep>, reached: bool, tentative: int, count: nat)
      requires Prepared(q) && SameParameters(q, p) && start <= |connectionSet.reverseConnections|
      requires forall c <- connectionSet.reverseConnections :: R.Fits(q, c)
      requires |overlay| == q.tripCount && Reverse(map[], false, -1, 0) == R.Initial(q, overlay)
      modifies this`nodesReverseTentativeTime, this`reverseJourneysSteps, this`tripsQueryOverlay
      ensures Reverse(accessSteps, reached, tentative, count) ==
              R.Scan(q, connectionSet.reverseConnections, start, R.Initial(q, overlay), single)
    {
      accessSteps, reached, tentative, count := map[], false, -1, 0;
      var rcs := connectionSet.reverseConnections;
      var i := start;
      ghost var goal := R.Scan(q, rcs, i, R.Initial(q, overlay), single);
      while i < |rcs|
        invariant i <= |rcs|
        invariant R.Sized(q, Reverse(accessSteps, reached, tentative, count))
        invariant R.Scan(q, rcs, i, Reverse(accessSteps, reached, tentative, count), single) == goal
      {
        assert rcs[i] in rcs;
        var stopped;
        stopped, accessSteps, reached, tentative, count :=
            StepReverse(q, p, single, rcs[i], accessSteps, reached, tentative, count);
        if stopped {
          return;
        }
        i := i + 1;
      }
    }

    ghost predicate ReadyReverse(q: Query)
      reads this`connectionSet, this`accessFootpaths, this`egressFootpaths, this`departureTimeSeconds,
            this`arrivalTimeSeconds,
            this`tripsDisabled, this`nodesAccess, this`nodesEgress, this`minAccessTravelTime, this`maxAccessTravelTime,
            this`minEgressTravelTime, this`maxEgressTravelTime
    {
      Whole(ReverseFields(q))
    }

    ghost predicate ReverseFields(q: Query)
      reads this`connectionSet, this`accessFootpaths, this`egressFootpaths, this`departureTimeSeconds,
            this`arrivalTimeSeconds,
            this`tripsDisabled, this`nodesAccess, this`nodesEgress, this`minAccessTravelTime, this`maxAccessTravelTime,
            this`minEgressTravelTime, this`maxEgressTravelTime
    {
      && Prepared(q) && connectionSet.Valid() && q.arrivalTime >= 0
      && R.ValidReverse(q, connectionSet.reverseConnections)
    }

    method ReverseFromHour(ghost q: Query, p: Parameters, single: bool, ghost overlay: seq<TripQueryData>)
      returns (accessSteps: map<nat, RideStep>, reached: bool, tentative: int, count: nat)
      requires ReadyReverse(q) && SameParameters(q, p)
      requires |overlay| == q.tripCount && Reverse(map[], false, -1, 0) == R.Initial(q, overlay)
      modifies this`nodesReverseTentativeTime, this`reverseJourneysSteps, this`tripsQueryOverlay
      ensures Reverse(accessSteps, reached, tentative, count) ==
              R.Scan(q, connectionSet.reverseConnections, 0, R.Initial(q, overlay), single)
    {
      var start := connectionSet.ReverseBegin(arrivalTimeSeconds / 3600 + 1);
      C.ReverseIndexRefines(q, connectionSet.reverseConnections, start, R.Initial(q, overlay), single);
      accessSteps, reached, tentative, count := ReverseLoop(q, p, single, start, overlay);
    }

    method PickAccess(ghost q: Query, p: Parameters, ghost st: R.ReverseState, accessSteps: map<nat, RideStep>,
                      best0: Option<NodeTime>, fp: NodeTime)
      returns (best: Option<NodeTime>)
      requires q.arrivalTime == arrivalTimeSeconds && SameParameters(q, p) && accessSteps == st.accessSteps
      ensures best == T.BetterAccess(q, st, best0, fp)
    {
      best := best0;
      if fp.node in accessSteps {
        var e := accessSteps[fp.node].enter;
        var t := e.departureTime - fp.time - e.MinWaitingTimeOrDefault(p.minWaitingTime);
        if && t >= 0 && arrivalTimeSeconds - t <= p.maxTotalTravelTime
           && t > (if best.Some? then best.value.time else -1) && t < MAX_INT
        {
          best := Some(NodeTime(fp.node, t));
        }
      }
    }

    method FindBestAccess(ghost q: Query, p: Parameters, ghost st: R.ReverseState, accessSteps: map<nat, RideStep>)
      returns (best: Option<NodeTime>)
      requires Prepared(q) && SameParameters(q, p) && accessSteps == st.accessSteps
      ensures best == T.BestAccess(q, st, |q.accessFootpaths|)
    {
      best := None;
      for m := 0 to |accessFootpaths|
        invariant best == T.BestAccess(q, st, m)
      {
        var n := accessFootpaths[m].node;
        assert q.accessFootpaths[m] in q.accessFootpaths;
        best := PickAccess(q, p, st, accessSteps, best, NodeTime(n, nodesAccess[n]));
      }
    }

    method ReverseCalculation(ghost q: Query, p: Parameters, ghost overlay: seq<TripQueryData>)
      returns (r: Result<Option<NodeTime>>, accessSteps: map<nat, RideStep>, ghost st: R.ReverseState)
      requires ReadyReverse(q) && SameParameters(q, p)
      requires |overlay| == q.tripCount && Reverse(map[], false, -1, 0) == R.Initial(q, overlay)
      modifies this`nodesReverseTentativeTime, this`reverseJourneysSteps, this`tripsQueryOverlay
      ensures st == R.Scan(q, connectionSet.reverseConnections, 0, R.Initial(q, overlay), true)
      ensures accessSteps == st.accessSteps && reverseJourneysSteps == st.steps
      ensures st.reachableCount == 0 <==> r == Failed(NoServiceToDestination)
      ensures r.Ok? ==> r.value == T.ReverseResult(q, st)
      ensures r.Failed? ==> st.reachableCount == 0
    {
      var reached, tentative, count;
      accessSteps, reached, tentative, count := ReverseFromHour(q, p, true, overlay);
      st := Reverse(accessSteps, reached, tentative, count);
      if count == 0 {
        return Failed(NoServiceToDestination), accessSteps, st;
      }
      var best := FindBestAccess(q, p, st, accessSteps);
      r := Ok(best);
    }

    // ---- Preparing a query --------------------------------------------------------

    method AddAccess(k: nat)
      requires ListsNodes(net.nodeCount, accessFootpaths) && k < |accessFootpaths|
      requires nodesAccess == MapTo(accessFootpaths, k)
          && Labelled(net.nodeCount, nodesAccess, departureTimeSeconds, true, MAX_INT, nodesTentativeTime,
                      forwardJourneysSteps)
      requires minAccessTravelTime == MinTo(accessFootpaths, k) && maxAccessTravelTime == MaxTo(accessFootpaths, k)
      modifies this`nodesAccess, this`forwardJourneysSteps, this`nodesTentativeTime, this`minAccessTravelTime,
               this`maxAccessTravelTime
      ensures nodesAccess == MapTo(accessFootpaths, k + 1)
          && Labelled(net.nodeCount, nodesAccess, departureTimeSeconds, true, MAX_INT, nodesTentativeTime,
                      forwardJourneysSteps)
      ensures minAccessTravelTime == MinTo(accessFootpaths, k + 1)
          && maxAccessTravelTime == MaxTo(accessFootpaths, k + 1)
    {
      var fp := accessFootpaths[k];
      assert fp in accessFootpaths;
      MapStep(accessFootpaths, k);
      LabelledStep(net.nodeCount, nodesAccess, departureTimeSeconds, true, MAX_INT, nodesTentativeTime,
                   forwardJourneysSteps, fp);
      if fp.node !in nodesAccess {
        nodesAccess := nodesAccess[fp.node := fp.time];
      }
      forwardJourneysSteps := forwardJourneysSteps[fp.node := Walk(fp.time)];
      nodesTentativeTime := nodesTentativeTime[fp.node := departureTimeSeconds + fp.time];
      if fp.time < minAccessTravelTime {
        minAccessTravelTime := fp.time;
      }
      if fp.time > maxAccessTravelTime {
        maxAccessTravelTime := fp.time;
      }
    }

    method ClearAccess()
      modifies this`nodesAccess, this`forwardJourneysSteps, this`nodesTentativeTime, this`minAccessTravelTime,
               this`maxAccessTravelTime
      ensures nodesAccess == map[] && minAccessTravelTime == MAX_INT && maxAccessTravelTime == -1
      ensures Labelled(net.nodeCount, nodesAccess, departureTimeSeconds, true, MAX_INT, nodesTentativeTime,
                       forwardJourneysSteps)
    {
      nodesAccess := map[];
      forwardJourneysSteps := seq(net.nodeCount, _ => Walk(-1));
      nodesTentativeTime := seq(net.nodeCount, _ => MAX_INT);
      minAccessTravelTime, maxAccessTravelTime := MAX_INT, -1;
    }

    // Walks from the origin: map, initial labels and steps, extreme times.
    method LoadAccess()
      requires ListsNodes(net.nodeCount, accessFootpaths)
      modifies this`nodesAccess, this`forwardJourneysSteps, this`nodesTentativeTime, this`minAccessTravelTime,
               this`maxAccessTravelTime
      ensures nodesAccess == TimeMap(accessFootpaths)
      ensures minAccessTravelTime == MinTime(accessFootpaths) && maxAccessTravelTime == MaxTime(accessFootpaths)
      ensures nodesTentativeTime == TimeLabels(net.nodeCount, nodesAccess, departureTimeSeconds, true, MAX_INT)
      ensures forwardJourneysSteps == StepLabels(net.nodeCount, nodesAccess)
    {
      ClearAccess();
      for k := 0 to |accessFootpaths|
        invariant nodesAccess == MapTo(accessFootpaths, k)
        invariant minAccessTravelTime == MinTo(accessFootpaths, k) && maxAccessTravelTime == MaxTo(accessFootpaths, k)
        invariant Labelled(net.nodeCount, nodesAccess, departureTimeSeconds, true, MAX_INT, nodesTentativeTime,
                           forwardJourneysSteps)
      {
        AddAccess(k);
      }
      LabelledIs(net.nodeCount, nodesAccess, departureTimeSeconds, true, MAX_INT, nodesTentativeTime,
                 forwardJourneysSteps);
    }

    method AddEgress(k: nat)
      requires ListsNodes(net.nodeCount, egressFootpaths) && k < |egressFootpaths|
      requires nodesEgress == MapTo(egressFootpaths, k)
          && Labelled(net.nodeCount, nodesEgress, arrivalTimeSeconds, false, -1, nodesReverseTentativeTime,
                      reverseJourneysSteps)
      requires minEgressTravelTime == MinTo(egressFootpaths, k) && maxEgressTravelTime == MaxTo(egressFootpaths, k)
      modifies this`nodesEgress, this`reverseJourneysSteps, this`nodesReverseTentativeTime, this`minEgressTravelTime,
               this`maxEgressTravelTime
      ensures nodesEgress == MapTo(egressFootpaths, k + 1)
          && Labelled(net.nodeCount, nodesEgress, arrivalTimeSeconds, false, -1, nodesReverseTentativeTime,
                      reverseJourneysSteps)
      ensures minEgressTravelTime == MinTo(egressFootpaths, k + 1)
          && maxEgressTravelTime == MaxTo(egressFootpaths, k + 1)
    {
      var fp := egressFootpaths[k];
      assert fp in egressFootpaths;
      MapStep(egressFootpaths, k);
      LabelledStep(net.nodeCount, nodesEgress, arrivalTimeSeconds, false, -1, nodesReverseTentativeTime,
                   reverseJourneysSteps, fp);
      if fp.node !in nodesEgress {
        nodesEgress := nodesEgress[fp.node := fp.time];
      }
      reverseJourneysSteps := reverseJourneysSteps[fp.node := Walk(fp.time)];
      nodesReverseTentativeTime := nodesReverseTentativeTime[fp.node := arrivalTimeSeconds - fp.time];
      if fp.time < minEgressTravelTime {
        minEgressTravelTime := fp.time;
      }
      if fp.time > maxEgressTravelTime {
        maxEgressTravelTime := fp.time;
      }
    }

    method ClearEgress()
      modifies this`nodesEgress, this`reverseJourneysSteps, this`nodesReverseTentativeTime, this`minEgressTravelTime,
               this`maxEgressTravelTime
      ensures nodesEgress == map[] && minEgressTravelTime == MAX_INT && maxEgressTravelTime == -1
      ensures Labelled(net.nodeCount, nodesEgress, arrivalTimeSeconds, false, -1, nodesReverseTentativeTime,
                       reverseJourneysSteps)
    {
      nodesEgress := map[];
      reverseJourneysSteps := seq(net.nodeCount, _ => Walk(-1));
      nodesReverseTentativeTime := seq(net.nodeCount, _ => -1);
      minEgressTravelTime, maxEgressTravelTime := MAX_INT, -1;
    }

    // Walks to the destination.
    method LoadEgress()
      requires ListsNodes(net.nodeCount, egressFootpaths)
      modifies this`nodesEgress, this`reverseJourneysSteps, this`nodesReverseTentativeTime, this`minEgressTravelTime,
               this`maxEgressTravelTime
      ensures nodesEgress == TimeMap(egressFootpaths)
      ensures minEgressTravelTime == MinTime(egressFootpaths) && maxEgressTravelTime == MaxTime(egressFootpaths)
      ensures nodesReverseTentativeTime == TimeLabels(net.nodeCount, nodesEgress, arrivalTimeSeconds, false, -1)
      ensures reverseJourneysSteps == StepLabels(net.nodeCount, nodesEgress)
    {
      ClearEgress();
      for k := 0 to |egressFootpaths|
        invariant nodesEgress == MapTo(egressFootpaths, k)
        invariant minEgressTravelTime == MinTo(egressFootpaths, k) && maxEgressTravelTime == MaxTo(egressFootpaths, k)
        invariant Labelled(net.nodeCount, nodesEgress, arrivalTimeSeconds, false, -1, nodesReverseTentativeTime,
                           reverseJourneysSteps)
      {
        AddEgress(k);
      }
      LabelledIs(net.nodeCount, nodesEgress, arrivalTimeSeconds, false, -1, nodesReverseTentativeTime,
                 reverseJourneysSteps);
    }

    // Trips of the scenario that the query's own filter disables.
    method ResetFilters(p: Parameters)
      requires forall t <- connectionSet.trips :: t < |net.attributes|
      modifies this`tripsDisabled
      ensures tripsDisabled == Disabled(p.filter, net.attributes, connectionSet.trips)
    {
      tripsDisabled := {};
      var trips := connectionSet.trips;
      for k := 0 to |trips|
        invariant forall t <- trips[..k] :: t < |net.attributes|
        invariant tripsDisabled == Disabled(p.filter, net.attributes, trips[..k])
      {
        assert trips[k] in trips;
        assert trips[..k + 1] == trips[..k] + [trips[k]];
        var enabled := IsEnabled(p.filter, net.attributes[trips[k]]);
        if !enabled {
          tripsDisabled := tripsDisabled + {trips[k]};
        }
      }
      assert trips[..|trips|] == trips;
    }

    // The origin's side of a reset; ok is false when no access walk was found.
    method ResetOrigin(origin: Option<seq<NodeTime>>, resetAccessPaths: bool) returns (ok: bool)
      requires ListsNodes(net.nodeCount, Used(resetAccessPaths, origin, accessFootpaths))
      requires !resetAccessPaths ==> origin.Some?
      modifies this`accessFootpaths, this`nodesAccess, this`forwardJourneysSteps, this`nodesTentativeTime,
               this`minAccessTravelTime, this`maxAccessTravelTime
      ensures accessFootpaths == Used(resetAccessPaths, origin, old(accessFootpaths))
      ensures ok <==> !(resetAccessPaths && origin == Some([]))
      ensures nodesAccess == TimeMap(accessFootpaths)
      ensures minAccessTravelTime == MinTime(accessFootpaths) && maxAccessTravelTime == MaxTime(accessFootpaths)
      ensures origin.Some? ==>
        && nodesTentativeTime == TimeLabels(net.nodeCount, nodesAccess, departureTimeSeconds, true, MAX_INT)
        && forwardJourneysSteps == StepLabels(net.nodeCount, nodesAccess)
    {
      ok := true;
      if resetAccessPaths {
        accessFootpaths := [];
      }
      forwardJourneysSteps := [];
      nodesAccess, minAccessTravelTime, maxAccessTravelTime := map[], MAX_INT, -1;
      if origin.Some? {
        if resetAccessPaths {
          accessFootpaths := origin.value;
          ok := |accessFootpaths| > 0;
        }
        LoadAccess();
      }
    }

    method ResetDestination(destination: Option<seq<NodeTime>>, resetAccessPaths: bool) returns (ok: bool)
      requires ListsNodes(net.nodeCount, Used(resetAccessPaths, destination, egressFootpaths))
      requires !resetAccessPaths ==> destination.Some?
      modifies this`egressFootpaths, this`nodesEgress, this`reverseJourneysSteps, this`nodesReverseTentativeTime,
               this`minEgressTravelTime, this`maxEgressTravelTime
      ensures egressFootpaths == Used(resetAccessPaths, destination, old(egressFootpaths))
      ensures ok <==> !(resetAccessPaths && destination == Some([]))
      ensures nodesEgress == TimeMap(egressFootpaths)
      ensures minEgressTravelTime == MinTime(egressFootpaths) && maxEgressTravelTime == MaxTime(egressFootpaths)
      ensures destination.Some? ==>
        && nodesReverseTentativeTime == TimeLabels(net.nodeCount, nodesEgress, arrivalTimeSeconds, false, -1)
        && reverseJourneysSteps == StepLabels(net.nodeCount, nodesEgress)
    {
      ok := true;
      if resetAccessPaths {
        egressFootpaths := [];
      }
      reverseJourneysSteps := [];
      nodesEgress, minEgressTravelTime, maxEgressTravelTime := map[], MAX_INT, -1;
      if destination.Some? {
        if resetAccessPaths {
          egressFootpaths := destination.value;
          ok := |egressFootpaths| > 0;
        }
        LoadEgress();
      }
    }

    // Both sides of a reset, each with its own failure.
    method ResetFootpaths(origin: Option<seq<NodeTime>>, destination: Option<seq<NodeTime>>, resetAccessPaths: bool)
      returns (r: Result<()>)
      requires ListsNodes(net.nodeCount, Used(resetAccessPaths, origin, accessFootpaths))
      requires ListsNodes(net.nodeCount, Used(resetAccessPaths, destination, egressFootpaths))
      requires !resetAccessPaths ==> origin.Some? && destination.Some?
      modifies this`accessFootpaths, this`nodesAccess, this`forwardJourneysSteps, this`nodesTentativeTime,
               this`minAccessTravelTime, this`maxAccessTravelTime,
               this`egressFootpaths, this`nodesEgress, this`reverseJourneysSteps, this`nodesReverseTentativeTime,
               this`minEgressTravelTime, this`maxEgressTravelTime
      ensures accessFootpaths == Used(resetAccessPaths, origin, old(accessFootpaths))
      ensures egressFootpaths == Used(resetAccessPaths, destination, old(egressFootpaths))
      ensures AccessAnswer(resetAccessPaths && origin == Some([]), resetAccessPaths && destination == Some([]), r)
      ensures AccessLoaded(origin.Some?) && EgressLoaded(destination.Some?)
    {
      var accessOk := ResetOrigin(origin, resetAccessPaths);
      var egressOk := ResetDestination(destination, resetAccessPaths);
      if !egressOk && !accessOk {
        r := Failed(NoAccessAtOriginAndDestination);
      } else if !accessOk {
        r := Failed(NoAccessAtOrigin);
      } else if !egressOk {
        r := Failed(NoAccessAtDestination);
      } else {
        r := Ok(());
      }
    }

    // Which side lacks access decides the failure.
    ghost predicate AccessAnswer(noOrigin: bool, noDestination: bool, r: Result<()>) {
      if noOrigin && noDestination then r == Failed(NoAccessAtOriginAndDestination)
      else if noOrigin then r == Failed(NoAccessAtOrigin)
      else if noDestination then r == Failed(NoAccessAtDestination)
      else r.Ok?
    }

    ghost predicate AccessLoaded(labelled: bool)
      reads this`accessFootpaths, this`nodesAccess, this`forwardJourneysSteps, this`nodesTentativeTime,
            this`minAccessTravelTime, this`maxAccessTravelTime, this`departureTimeSeconds
    {
      && nodesAccess == TimeMap(accessFootpaths)
      && minAccessTravelTime == MinTime(accessFootpaths) && maxAccessTravelTime == MaxTime(accessFootpaths)
      && (labelled ==>
            && nodesTentativeTime == TimeLabels(net.nodeCount, nodesAccess, departureTimeSeconds, true, MAX_INT)
            && forwardJourneysSteps == StepLabels(net.nodeCount, nodesAccess))
    }

    ghost predicate EgressLoaded(labelled: bool)
      reads this`egressFootpaths, this`nodesEgress, this`reverseJourneysSteps, this`nodesReverseTentativeTime,
            this`minEgressTravelTime, this`maxEgressTravelTime, this`arrivalTimeSeconds
    {
      && nodesEgress == TimeMap(egressFootpaths)
      && minEgressTravelTime == MinTime(egressFootpaths) && maxEgressTravelTime == MaxTime(egressFootpaths)
      && (labelled ==>
            && nodesReverseTentativeTime == TimeLabels(net.nodeCount, nodesEgress, arrivalTimeSeconds, false, -1)
            && reverseJourneysSteps == StepLabels(net.nodeCount, nodesEgress))
    }

    method StartQuery(p: Parameters, connectionSet: C.ConnectionSet)
      modifies this`connectionSet, this`tripsQueryOverlay, this`departureTimeSeconds, this`arrivalTimeSeconds
      ensures this.connectionSet == connectionSet && tripsQueryOverlay == FreshOverlay(net.tripCount)
      ensures departureTimeSeconds == (if p.forward then p.timeOfTrip else -1)
      ensures arrivalTimeSeconds == (if p.forward then -1 else p.timeOfTrip)
    {
      this.connectionSet := connectionSet;
      tripsQueryOverlay := FreshOverlay(net.tripCount);
      departureTimeSeconds, arrivalTimeSeconds := -1, -1;
      if p.forward {
        departureTimeSeconds := p.timeOfTrip;
      } else {
        arrivalTimeSeconds := p.timeOfTrip;
      }
    }

    // Everything a query starts from. The footpath lists are what the geographic
    // filter found for the given points; without new access paths the previous
    // lists stay.
    method Reset(p: Parameters, connectionSet: C.ConnectionSet, origin: Option<seq<NodeTime>>,
                 destination: Option<seq<NodeTime>>,
                 resetAccessPaths: bool)
      returns (r: Result<()>)
      requires ListsNodes(net.nodeCount, Used(resetAccessPaths, origin, accessFootpaths))
      requires ListsNodes(net.nodeCount, Used(resetAccessPaths, destination, egressFootpaths))
      requires !resetAccessPaths ==> origin.Some? && destination.Some?
      modifies this
      ensures this.connectionSet == connectionSet
      ensures accessFootpaths == Used(resetAccessPaths, origin, old(accessFootpaths))
      ensures egressFootpaths == Used(resetAccessPaths, destination, old(egressFootpaths))
      ensures r.Failed? <==> resetAccessPaths && (origin == Some([]) || destination == Some([]))
      ensures resetAccessPaths && origin == Some([]) && destination == Some([]) ==>
                r == Failed(NoAccessAtOriginAndDestination)
      ensures resetAccessPaths && origin == Some([]) && destination != Some([]) ==> r == Failed(NoAccessAtOrigin)
      ensures resetAccessPaths && origin != Some([]) && destination == Some([]) ==> r == Failed(NoAccessAtDestination)
      ensures AccessLoaded(origin.Some?) && EgressLoaded(destination.Some?)
      ensures departureTimeSeconds == (if p.forward then p.timeOfTrip else -1)
      ensures arrivalTimeSeconds == (if p.forward then -1 else p.timeOfTrip)
      ensures tripsQueryOverlay == FreshOverlay(net.tripCount)
    {
      StartQuery(p, connectionSet);
      r := ResetFootpaths(origin, destination, resetAccessPaths);
    }

    // After a successful reset the fields agree with the query asked for.
    lemma ResetPrepares(p: Parameters, q: Query, forwardLabels: bool, reverseLabels: bool)
      requires forall t <- connectionSet.trips :: t < |net.attributes|
      requires AccessLoaded(forwardLabels) && EgressLoaded(reverseLabels)
      requires departureTimeSeconds == (if p.forward then p.timeOfTrip else -1)
      requires arrivalTimeSeconds == (if p.forward then -1 else p.timeOfTrip)
      requires tripsQueryOverlay == FreshOverlay(net.tripCount)
      requires tripsDisabled == Disabled(p.filter, net.attributes, connectionSet.trips)
      requires q == QueryFor(net, p, accessFootpaths, egressFootpaths, connectionSet.trips)
      ensures Prepared(q) && SameParameters(q, p)
      ensures forwardLabels ==> Forward(map[], false, MAX_INT, 0) == F.Initial(q)
      ensures reverseLabels ==> Reverse(map[], false, -1, 0) == R.Initial(q, tripsQueryOverlay)
    {
    }

    // ---- A single query -----------------------------------------------------------

    // What the data must satisfy for steps to be followed to the destination.
    ghost predicate Followable(q: Query, rcs: seq<Connection>) {
      && R.HandoffOrdered(q, rcs)
      && O.Valid(net.nodeCount, net.timetable) && J.Timetabled(net.timetable, rcs)
      && |net.infos| == |net.timetable.forward|
    }

    // The reverse labels are in place, and steps can be followed.
    ghost predicate ReadyToReturn(q: Query, p: Parameters, overlay: seq<TripQueryData>)
      reads this
    {
      && ReadyReverse(q) && SameParameters(q, p) && Followable(q, connectionSet.reverseConnections)
      && |overlay| == q.tripCount && R.NoExits(overlay) && Reverse(map[], false, -1, 0) == R.Initial(q, overlay)
    }

    method CalculateSingleReverse(ghost q: Query, p: Parameters, ghost overlay: seq<TripQueryData>)
      returns (r: Result<J.Route>, ghost tr: A.Trace, ghost o: A.Optimization)
      requires Whole(ReadyToReturn(q, p, overlay))
      modifies this`nodesReverseTentativeTime, this`reverseJourneysSteps, this`tripsQueryOverlay
      ensures Whole(ReverseOutcome(q, connectionSet.reverseConnections, overlay, r, tr))
      ensures r.Ok? ==> Justified(net, q, connectionSet.reverseConnections, tr, o, r.value)
    {
      ghost var rcs := connectionSet.reverseConnections;
      tr, o := A.Trace(NodeTime(0, 0), [], []), A.NOTHING_DONE;
      var start, accessSteps;
      ghost var st, k;
      start, accessSteps, st, k := LatestStart(q, p, overlay);
      if start.Failed? {
        r := Failed(start.reason);
      } else {
        var route;
        route, tr, o := A.ReverseJourney(net.nodeCount, net.timetable, net.infos, q, rcs, k, st, nodesAccess,
                                         nodesEgress,
                                         reverseJourneysSteps, accessSteps, start.value);
        r := Ok(route);
      }
      ReverseIsDone(q, rcs, overlay, st, r, tr);
    }

    // The reverse scan and its best access node.
    method LatestStart(ghost q: Query, p: Parameters, ghost overlay: seq<TripQueryData>)
      returns (start: Result<NodeTime>, accessSteps: map<nat, RideStep>, ghost st: R.ReverseState, ghost k: nat)
      requires ReadyReverse(q) && SameParameters(q, p) && R.HandoffOrdered(q, connectionSet.reverseConnections)
      requires |overlay| == q.tripCount && R.NoExits(overlay) && Reverse(map[], false, -1, 0) == R.Initial(q, overlay)
      modifies this`nodesReverseTentativeTime, this`reverseJourneysSteps, this`tripsQueryOverlay
      ensures R.HandoffOrdered(q, connectionSet.reverseConnections)
          && R.Sound(q, connectionSet.reverseConnections, k, st)
      ensures st == T.ReverseEnd(q, connectionSet.reverseConnections, overlay)
      ensures accessSteps == st.accessSteps && reverseJourneysSteps == st.steps
      ensures StartIs(q, st, start)
    {
      ghost var rcs := connectionSet.reverseConnections;
      RX.InitialInvariant(q, rcs, overlay, true);
      k := RX.ScanInvariant(q, rcs, 0, R.Initial(q, overlay), true);
      var best;
      best, accessSteps, st := ReverseCalculation(q, p, overlay);
      if best.Failed? {
        start := Failed(best.reason);
      } else if best.value.None? {
        start := Failed(NoRoutingFound);
      } else {
        start := Ok(best.value.value);
      }
    }

    // Egress labels again, now from the arrival time the forward pass found.
    method RelabelEgress(arrival: int)
      requires nodesEgress == TimeMap(egressFootpaths) && ListsNodes(net.nodeCount, egressFootpaths)
      requires nodesReverseTentativeTime == TimeLabels(net.nodeCount, nodesEgress, arrivalTimeSeconds, false, -1)
      modifies this`arrivalTimeSeconds, this`nodesReverseTentativeTime
      ensures arrivalTimeSeconds == arrival
      ensures nodesReverseTentativeTime == TimeLabels(net.nodeCount, nodesEgress, arrival, false, -1)
    {
      arrivalTimeSeconds := arrival;
      for k := 0 to |egressFootpaths|
        invariant arrivalTimeSeconds == arrival
        invariant Relabelled(net.nodeCount, egressFootpaths, k, nodesEgress, arrival, nodesReverseTentativeTime)
      {
        var fp := egressFootpaths[k];
        RelabelStep(net.nodeCount, egressFootpaths, k, nodesEgress, arrival, nodesReverseTentativeTime);
        nodesReverseTentativeTime := nodesReverseTentativeTime[fp.node := arrivalTimeSeconds - fp.time];
      }
      RelabelledAll(net.nodeCount, egressFootpaths, nodesEgress, arrival, nodesReverseTentativeTime);
    }

    method MakeAllUsable()
      requires tripsQueryOverlay == FreshOverlay(net.tripCount)
      modifies this`tripsQueryOverlay
      ensures |tripsQueryOverlay| == net.tripCount
      ensures forall t: nat | t < net.tripCount :: tripsQueryOverlay[t] == FRESH_TRIP.(usable := true)
    {
      for k := 0 to net.tripCount
        invariant |tripsQueryOverlay| == net.tripCount
        invariant forall t: nat | t < net.tripCount ::
                    tripsQueryOverlay[t] == if t < k then FRESH_TRIP.(usable := true) else FRESH_TRIP
      {
        tripsQueryOverlay := tripsQueryOverlay[k := tripsQueryOverlay[k].(usable := true)];
      }
    }

    // The reverse pass from the arrival time of the forward pass.
    // The reverse labels are in place for the query, over data the scan can follow.
    ghost predicate ReverseWaiting(q: Query, p: Parameters)
      reads this`connectionSet, this`accessFootpaths, this`egressFootpaths, this`departureTimeSeconds,
            this`arrivalTimeSeconds,
            this`tripsDisabled, this`nodesAccess, this`nodesEgress, this`minAccessTravelTime, this`maxAccessTravelTime,
            this`minEgressTravelTime, this`maxEgressTravelTime, this`nodesReverseTentativeTime,
                this`reverseJourneysSteps
    {
      Whole(WaitingFields(q, p))
    }

    ghost predicate WaitingFields(q: Query, p: Parameters)
      reads this`connectionSet, this`accessFootpaths, this`egressFootpaths, this`departureTimeSeconds,
            this`arrivalTimeSeconds,
            this`tripsDisabled, this`nodesAccess, this`nodesEgress, this`minAccessTravelTime, this`maxAccessTravelTime,
            this`minEgressTravelTime, this`maxEgressTravelTime, this`nodesReverseTentativeTime,
                this`reverseJourneysSteps
    {
      && Prepared(q) && SameParameters(q, p) && connectionSet.Valid()
      && R.ValidReverse(q, connectionSet.reverseConnections) && Followable(q, connectionSet.reverseConnections)
      && nodesReverseTentativeTime == TimeLabels(net.nodeCount, nodesEgress, arrivalTimeSeconds, false, -1)
      && reverseJourneysSteps == StepLabels(net.nodeCount, nodesEgress)
    }

    lemma WaitingIsReady(q: Query, p: Parameters)
      requires ReverseWaiting(q, p) && q.arrivalTime >= 0
      requires |tripsQueryOverlay| == q.tripCount && R.NoExits(tripsQueryOverlay)
      ensures Whole(ReadyToReturn(q, p, tripsQueryOverlay))
    {
    }

    method ReverseAfterForward(ghost q: Query, p: Parameters, ghost st: F.ForwardState, arrival: int)
      returns (r: Result<J.Route>, ghost tr: A.Trace, ghost o: A.Optimization)
      requires ReverseWaiting(q, p) && p.forward && p.timeOfTrip == q.departureTime && tripsQueryOverlay == st.overlay
      requires Whole(ForwardDone(q, connectionSet.forwardConnections, st, Ok(arrival)))
      modifies this`arrivalTimeSeconds, this`nodesReverseTentativeTime, this`reverseJourneysSteps,
               this`tripsQueryOverlay
      ensures Whole(Outcome(net, q, p, connectionSet.forwardConnections, connectionSet.reverseConnections, r, arrival,
                            tr, o))
    {
      ForwardDoneFacts(q, connectionSet.forwardConnections, st, Ok(arrival));
      r, tr, o := ReverseFrom(q, p, arrival);
      FoundOutcome(net, q, p, connectionSet.forwardConnections, connectionSet.reverseConnections, st, r, arrival, tr,
                   o);
    }

    method ReverseFrom(ghost q: Query, p: Parameters, arrival: int)
      returns (r: Result<J.Route>, ghost tr: A.Trace, ghost o: A.Optimization)
      requires ReverseWaiting(q, p) && arrival >= 0
      requires |tripsQueryOverlay| == q.tripCount && R.NoExits(tripsQueryOverlay)
      modifies this`arrivalTimeSeconds, this`nodesReverseTentativeTime, this`reverseJourneysSteps,
               this`tripsQueryOverlay
      ensures Whole(ReverseOutcome(T.ReverseQuery(q, arrival), connectionSet.reverseConnections,
                                   old(tripsQueryOverlay), r, tr))
      ensures r.Ok? ==>
        Justified(net, T.ReverseQuery(q, arrival), connectionSet.reverseConnections, tr, o, r.value)
    {
      BeginReverse(q, p, arrival);
      r, tr, o := CalculateSingleReverse(T.ReverseQuery(q, arrival), p, tripsQueryOverlay);
    }

    method BeginReverse(ghost q: Query, p: Parameters, arrival: int)
      requires ReverseWaiting(q, p) && arrival >= 0
      requires |tripsQueryOverlay| == q.tripCount && R.NoExits(tripsQueryOverlay)
      modifies this`arrivalTimeSeconds, this`nodesReverseTentativeTime
      ensures Whole(ReadyToReturn(T.ReverseQuery(q, arrival), p, tripsQueryOverlay))
    {
      assert ListsNodes(net.nodeCount, egressFootpaths) by {
        assert ValidFootpaths(q, q.egressFootpaths);
      }
      assert Whole(PreparedButArrival(q));
      RelabelEgress(arrival);
      RelabelledIsReady(q, p, arrival);
    }

    lemma RelabelledIsInitial(q: Query, arrival: int)
      requires Whole(PreparedButArrival(q)) && |tripsQueryOverlay| == q.tripCount
      requires nodesReverseTentativeTime == TimeLabels(net.nodeCount, nodesEgress, arrival, false, -1)
      requires reverseJourneysSteps == StepLabels(net.nodeCount, nodesEgress)
      ensures Reverse(map[], false, -1, 0) == R.Initial(T.ReverseQuery(q, arrival), tripsQueryOverlay)
    {
    }

    // With the labels for the new arrival time in place, the reverse pass can run.
    lemma RelabelledIsReady(q: Query, p: Parameters, arrival: int)
      requires Whole(PreparedButArrival(q)) && SameParameters(q, p) && connectionSet.Valid()
      requires R.ValidReverse(q, connectionSet.reverseConnections)
      requires Followable(q, connectionSet.reverseConnections)
      requires arrivalTimeSeconds == arrival >= 0
      requires |tripsQueryOverlay| == q.tripCount && R.NoExits(tripsQueryOverlay)
      requires nodesReverseTentativeTime == TimeLabels(net.nodeCount, nodesEgress, arrival, false, -1)
      requires reverseJourneysSteps == StepLabels(net.nodeCount, nodesEgress)
      ensures Whole(ReadyToReturn(T.ReverseQuery(q, arrival), p, tripsQueryOverlay))
    {
      T.ReverseValid(q, connectionSet.reverseConnections, arrival);
      R.HandoffsStayOrdered(q, T.ReverseQuery(q, arrival), connectionSet.reverseConnections);
      RelabelledIsInitial(q, arrival);
    }

    // The forward labels are in place.
    ghost predicate ReadyToGo(q: Query, p: Parameters)
      reads this
    {
      ReadyForward(q) && SameParameters(q, p) && Forward(map[], false, MAX_INT, 0) == F.Initial(q)
    }

    // The forward pass alone.
    method ArrivalTime(ghost q: Query, p: Parameters) returns (arrival: Result<int>, ghost st: F.ForwardState)
      requires Whole(ReadyToGo(q, p))
      modifies this`nodesTentativeTime, this`forwardJourneysSteps, this`tripsQueryOverlay
      ensures tripsQueryOverlay == st.overlay
      ensures Whole(ForwardDone(q, connectionSet.forwardConnections, st, arrival))
    {
      var best;
      best, st := ForwardCalculation(q, p);
      if best.Failed? {
        arrival := Failed(best.reason);
      } else if best.value.None? {
        arrival := Failed(NoRoutingFound);
      } else {
        arrival := Ok(best.value.value.time);
      }
      ForwardIsDone(q, connectionSet.forwardConnections, st, arrival);
    }

    // The forward pass, then the reverse pass from its arrival time.
    method SingleForward(ghost q: Query, p: Parameters)
      returns (r: Result<J.Route>, ghost target: int, ghost tr: A.Trace, ghost o: A.Optimization)
      requires Whole(ReadyToGo(q, p)) && ReverseWaiting(q, p) && p.forward && p.timeOfTrip == q.departureTime
      modifies this`arrivalTimeSeconds, this`nodesReverseTentativeTime, this`reverseJourneysSteps,
               this`tripsQueryOverlay, this`nodesTentativeTime, this`forwardJourneysSteps
      ensures Whole(Outcome(net, q, p, connectionSet.forwardConnections, connectionSet.reverseConnections, r, target,
                            tr, o))
    {
      target, tr, o := 0, A.Trace(NodeTime(0, 0), [], []), A.NOTHING_DONE;
      var arrival;
      ghost var st;
      arrival, st := ArrivalTime(q, p);
      if arrival.Failed? {
        r := Failed(arrival.reason);
        FailedOutcome(net, q, p, connectionSet.forwardConnections, connectionSet.reverseConnections, st, r, target,
                      tr, o);
      } else {
        target := arrival.value;
        r, tr, o := ReverseAfterForward(q, p, st, arrival.value);
      }
    }

    // What a single query must be given.
    ghost predicate ValidRequest(p: Parameters, set_: C.ConnectionSet, access: seq<NodeTime>, egress: seq<NodeTime>)
    {
      Whole(RequestFacts(p, set_, access, egress))
    }

    ghost predicate RequestFacts(p: Parameters, set_: C.ConnectionSet, access: seq<NodeTime>, egress: seq<NodeTime>)
    {
      && set_.Valid() && (forall t <- set_.trips :: t < |net.attributes|) && 0 <= p.timeOfTrip
      && (p.forward && p.timeOfTrip / 3600 == 32 ==>
            exists c <- set_.forwardConnections :: c.departureTime >= 32 * 3600)
      && var q := QueryFor(net, p, access, egress, set_.trips);
      && F.ValidForward(q, set_.forwardConnections) && R.ValidReverse(q, set_.reverseConnections)
      && SameConnections(set_.forwardConnections, set_.reverseConnections)
      && Followable(q, set_.reverseConnections)
    }

    // The reverse pass alone, from a requested arrival time.
    method SingleReverse(ghost q: Query, p: Parameters)
      returns (r: Result<J.Route>, ghost tr: A.Trace, ghost o: A.Optimization)
      requires ReverseWaiting(q, p) && q.arrivalTime >= 0 && q.tripCount == net.tripCount
      requires tripsQueryOverlay == FreshOverlay(net.tripCount)
      modifies this`nodesReverseTentativeTime, this`reverseJourneysSteps, this`tripsQueryOverlay
      ensures Whole(ReverseOutcome(q, connectionSet.reverseConnections, UsableOverlay(net.tripCount), r, tr))
      ensures r.Ok? ==> Justified(net, q, connectionSet.reverseConnections, tr, o, r.value)
    {
      MakeAllUsable();
      UsableOverlayIs(net.tripCount, tripsQueryOverlay);
      WaitingIsReady(q, p);
      r, tr, o := CalculateSingleReverse(q, p, tripsQueryOverlay);
    }

    // Both labellings are in place for the query q, over valid data.
    ghost predicate QueryReady(q: Query, p: Parameters)
      reads this
    {
      Whole(QueryFields(q, p))
    }

    ghost predicate QueryFields(q: Query, p: Parameters)
      reads this
    {
      && Prepared(q) && SameParameters(q, p) && connectionSet.Valid()
      && F.ValidForward(q, connectionSet.forwardConnections) && R.ValidReverse(q, connectionSet.reverseConnections)
      && Followable(q, connectionSet.reverseConnections) && ListsNodes(net.nodeCount, egressFootpaths)
      && tripsQueryOverlay == FreshOverlay(net.tripCount)
      && AccessLoaded(true) && EgressLoaded(true)
      && 0 <= p.timeOfTrip && q.departureTime == (if p.forward then p.timeOfTrip else -1)
      && q.arrivalTime == (if p.forward then -1 else p.timeOfTrip)
      && (p.forward && p.timeOfTrip / 3600 == 32 ==>
            exists c <- connectionSet.forwardConnections :: c.departureTime >= 32 * 3600)
    }

    lemma QueryIsReady(q: Query, p: Parameters)
      requires QueryReady(q, p)
      ensures p.forward ==> Whole(ReadyToGo(q, p)) && q.departureTime == p.timeOfTrip
      ensures !p.forward ==> q.arrivalTime == p.timeOfTrip >= 0
      ensures ReverseWaiting(q, p) && q.tripCount == net.tripCount
      ensures tripsQueryOverlay == FreshOverlay(net.tripCount)
    {
    }

    // Running a prepared query in the direction asked for.
    method RunQuery(ghost q: Query, p: Parameters)
      returns (r: Result<J.Route>, ghost target: int, ghost tr: A.Trace, ghost o: A.Optimization)
      requires QueryReady(q, p)
      modifies this`arrivalTimeSeconds, this`nodesReverseTentativeTime, this`reverseJourneysSteps,
               this`tripsQueryOverlay,
               this`nodesTentativeTime, this`forwardJourneysSteps
      ensures Whole(Outcome(net, q, p, connectionSet.forwardConnections, connectionSet.reverseConnections, r, target,
                            tr, o))
    {
      QueryIsReady(q, p);
      if p.forward {
        r, target, tr, o := SingleForward(q, p);
      } else {
        r, tr, o := SingleReverse(q, p);
        target := p.timeOfTrip;
        assert q == T.ReverseQuery(q, target);
      }
    }

    ghost predicate WasReset(p: Parameters)
      reads this`accessFootpaths, this`nodesAccess, this`forwardJourneysSteps, this`nodesTentativeTime,
            this`minAccessTravelTime, this`maxAccessTravelTime, this`departureTimeSeconds, this`egressFootpaths,
            this`nodesEgress, this`reverseJourneysSteps, this`nodesReverseTentativeTime, this`minEgressTravelTime,
            this`maxEgressTravelTime, this`arrivalTimeSeconds, this`tripsQueryOverlay
    {
      && AccessLoaded(true) && EgressLoaded(true)
      && departureTimeSeconds == (if p.forward then p.timeOfTrip else -1)
      && arrivalTimeSeconds == (if p.forward then -1 else p.timeOfTrip)
      && tripsQueryOverlay == FreshOverlay(net.tripCount)
    }

    // After a reset for a valid request the query can be run.
    lemma RequestIsReady(p: Parameters, q: Query)
      requires ValidRequest(p, connectionSet, accessFootpaths, egressFootpaths)
      requires Whole(WasReset(p)) && tripsDisabled == Disabled(p.filter, net.attributes, connectionSet.trips)
      requires q == QueryFor(net, p, accessFootpaths, egressFootpaths, connectionSet.trips)
      ensures QueryReady(q, p)
    {
      ResetPrepares(p, q, true, true);
      assert ListsNodes(net.nodeCount, egressFootpaths) by {
        assert ValidFootpaths(q, q.egressFootpaths);
      }
    }

    method ResetAndFilter(p: Parameters, set_: C.ConnectionSet, origin: seq<NodeTime>, destination: seq<NodeTime>,
                          resetAccessPaths: bool)
      returns (r: Result<()>)
      requires ListsNodes(net.nodeCount, Used(resetAccessPaths, Some(origin), accessFootpaths))
      requires ListsNodes(net.nodeCount, Used(resetAccessPaths, Some(destination), egressFootpaths))
      requires forall t <- set_.trips :: t < |net.attributes|
      modifies this
      ensures connectionSet == set_
      ensures accessFootpaths == Used(resetAccessPaths, Some(origin), old(accessFootpaths))
      ensures egressFootpaths == Used(resetAccessPaths, Some(destination), old(egressFootpaths))
      ensures AccessAnswer(resetAccessPaths && origin == [], resetAccessPaths && destination == [], r)
      ensures r.Ok? ==> Whole(WasReset(p)) && tripsDisabled == Disabled(p.filter, net.attributes, set_.trips)
    {
      r := Reset(p, set_, Some(origin), Some(destination), resetAccessPaths);
      if r.Ok? {
        assert Whole(WasReset(p));
        ResetFilters(p);
      }
    }

    lemma RequestListsNodes(p: Parameters, set_: C.ConnectionSet, access: seq<NodeTime>, egress: seq<NodeTime>)
      requires ValidRequest(p, set_, access, egress)
      ensures ListsNodes(net.nodeCount, access) && ListsNodes(net.nodeCount, egress)
      ensures forall t <- set_.trips :: t < |net.attributes|
    {
      var q := QueryFor(net, p, access, egress, set_.trips);
      assert ValidFootpaths(q, q.accessFootpaths) && ValidFootpaths(q, q.egressFootpaths);
    }

    method PrepareQuery(p: Parameters, set_: C.ConnectionSet, origin: seq<NodeTime>, destination: seq<NodeTime>,
                        resetAccessPaths: bool)
      returns (r: Result<()>)
      requires ValidRequest(p, set_, Used(resetAccessPaths, Some(origin), accessFootpaths),
                            Used(resetAccessPaths, Some(destination), egressFootpaths))
      modifies this
      ensures connectionSet == set_
      ensures accessFootpaths == Used(resetAccessPaths, Some(origin), old(accessFootpaths))
      ensures egressFootpaths == Used(resetAccessPaths, Some(destination), old(egressFootpaths))
      ensures AccessAnswer(resetAccessPaths && origin == [], resetAccessPaths && destination == [], r)
      ensures r.Ok? ==> QueryReady(QueryFor(net, p, accessFootpaths, egressFootpaths, set_.trips), p)
    {
      RequestListsNodes(p, set_, Used(resetAccessPaths, Some(origin), accessFootpaths),
                        Used(resetAccessPaths, Some(destination), egressFootpaths));
      r := ResetAndFilter(p, set_, origin, destination, resetAccessPaths);
      if r.Ok? {
        RequestIsReady(p, QueryFor(net, p, accessFootpaths, egressFootpaths, set_.trips));
      }
    }

    // A query from origin to destination. Whatever is returned is a feasible
    // chain of rides inside the window, optimised and summed up, and for forward
    // queries its existence and target are what the two passes determine.
    method CalculateSingle(p: Parameters, set_: C.ConnectionSet, origin: seq<NodeTime>, destination: seq<NodeTime>,
                           resetAccessPaths: bool)
      returns (r: Result<J.Route>, ghost target: int, ghost tr: A.Trace, ghost o: A.Optimization)
      requires ValidRequest(p, set_, Used(resetAccessPaths, Some(origin), accessFootpaths),
                            Used(resetAccessPaths, Some(destination), egressFootpaths))
      modifies this
      ensures connectionSet == set_
      ensures accessFootpaths == (if resetAccessPaths then origin else old(accessFootpaths))
      ensures egressFootpaths == (if resetAccessPaths then destination else old(egressFootpaths))
      ensures resetAccessPaths && origin == [] && destination == [] ==> r == Failed(NoAccessAtOriginAndDestination)
      ensures resetAccessPaths && origin == [] && destination != [] ==> r == Failed(NoAccessAtOrigin)
      ensures resetAccessPaths && origin != [] && destination == [] ==> r == Failed(NoAccessAtDestination)
      ensures !(resetAccessPaths && (origin == [] || destination == [])) ==>
        Whole(Outcome(net, QueryFor(net, p, accessFootpaths, egressFootpaths, set_.trips), p,
                      set_.forwardConnections, set_.reverseConnections, r, target, tr, o))
    {
      target, tr, o := p.timeOfTrip, A.Trace(NodeTime(0, 0), [], []), A.NOTHING_DONE;
      var prepared := PrepareQuery(p, set_, origin, destination, resetAccessPaths);
      if prepared.Failed? {
        return Failed(prepared.reason), target, tr, o;
      }
      ghost var q := QueryFor(net, p, accessFootpaths, egressFootpaths, set_.trips);
      r, target, tr, o := RunQuery(q, p);
    }

    // ---- All nodes ------------------------------------------------------------------

    method ForwardCalculationAllNodes(ghost q: Query, p: Parameters)
      returns (r: Result<()>, egressSteps: map<nat, RideStep>, ghost st: F.ForwardState)
      requires ReadyForward(q) && SameParameters(q, p)
      requires Forward(map[], false, MAX_INT, 0) == F.Initial(q)
      modifies this`nodesTentativeTime, this`forwardJourneysSteps, this`tripsQueryOverlay
      ensures egressSteps == st.egressSteps && forwardJourneysSteps == st.steps
      ensures st == if departureTimeSeconds / 3600 <= 32 then
          F.Scan(q, connectionSet.forwardConnections, 0, F.Initial(q), false)
                    else F.Initial(q)
      ensures r == if st.reachableCount == 0 then Failed(NoServiceFromOrigin) else Ok(())
    {
      var reached, tentative, count;
      egressSteps, reached, tentative, count := ForwardFromHour(q, p, false);
      st := Forward(egressSteps, reached, tentative, count);
      if count == 0 {
        return Failed(NoServiceFromOrigin), egressSteps, st;
      }
      r := Ok(());
    }

    method ReverseCalculationAllNodes(ghost q: Query, p: Parameters, ghost overlay: seq<TripQueryData>)
      returns (r: Result<()>, accessSteps: map<nat, RideStep>, ghost st: R.ReverseState)
      requires ReadyReverse(q) && SameParameters(q, p)
      requires |overlay| == q.tripCount && Reverse(map[], false, -1, 0) == R.Initial(q, overlay)
      modifies this`nodesReverseTentativeTime, this`reverseJourneysSteps, this`tripsQueryOverlay
      ensures st == R.Scan(q, connectionSet.reverseConnections, 0, R.Initial(q, overlay), false)
      ensures accessSteps == st.accessSteps && reverseJourneysSteps == st.steps && nodesReverseTentativeTime == st.time
      ensures r == if st.reachableCount == 0 then Failed(NoServiceToDestination) else Ok(())
    {
      var reached, tentative, count;
      accessSteps, reached, tentative, count := ReverseFromHour(q, p, false, overlay);
      st := Reverse(accessSteps, reached, tentative, count);
      if count == 0 {
        return Failed(NoServiceToDestination), accessSteps, st;
      }
      r := Ok(());
    }

    method AllNodesForward(ghost q: Query, p: Parameters)
      returns (r: Result<seq<N.AccessibleNode>>, ghost k: nat)
      requires ReadyForward(q) && SameParameters(q, p) && |net.infos| == net.tripCount
      requires Forward(map[], false, MAX_INT, 0) == F.Initial(q)
      modifies this`nodesTentativeTime, this`forwardJourneysSteps, this`tripsQueryOverlay
      ensures departureTimeSeconds / 3600 <= 32 ==>
          ForwardListed(net, q, connectionSet.forwardConnections, k, r)
      ensures departureTimeSeconds / 3600 > 32 ==> r == Failed(NoServiceFromOrigin)
    {
      ghost var cs := connectionSet.forwardConnections;
      FX.InitialInvariant(q, cs);
      k := FX.ScanInvariant(q, cs, 0, F.Initial(q), false);
      var outcome, egressSteps;
      ghost var st;
      outcome, egressSteps, st := ForwardCalculationAllNodes(q, p);
      if outcome.Failed? {
        return Failed(outcome.reason), k;
      }
      var nodes := N.ForwardJourneyAllNodes(net.infos, q, cs, k, st, net.nodeCount, departureTimeSeconds,
                                            p.maxTotalTravelTime,
                                            forwardJourneysSteps, egressSteps);
      r := Ok(nodes);
    }

    method AllNodesReverse(ghost q: Query, p: Parameters)
      returns (r: Result<seq<N.AccessibleNode>>, ghost traces: seq<N.Trace>)
      requires ReadyReverse(q) && SameParameters(q, p) && Followable(q, connectionSet.reverseConnections)
      requires tripsQueryOverlay == FreshOverlay(net.tripCount)
      requires nodesReverseTentativeTime == TimeLabels(net.nodeCount, nodesEgress, arrivalTimeSeconds, false, -1)
      requires reverseJourneysSteps == StepLabels(net.nodeCount, nodesEgress)
      modifies this`nodesReverseTentativeTime, this`reverseJourneysSteps, this`tripsQueryOverlay
      ensures Whole(ReverseListed(net, q, connectionSet.reverseConnections, traces, r))
    {
      ghost var rcs := connectionSet.reverseConnections;
      MakeAllUsable();
      ghost var overlay := tripsQueryOverlay;
      UsableOverlayIs(net.tripCount, overlay);
      ghost var k := ReverseScanSound(q, rcs, overlay);
      traces := [];
      var outcome, accessSteps;
      ghost var st;
      outcome, accessSteps, st := ReverseCalculationAllNodes(q, p, overlay);
      if outcome.Failed? {
        return Failed(outcome.reason), traces;
      }
      var nodes;
      nodes, traces := N.ReverseJourneyAllNodes(net.nodeCount, net.timetable, net.infos, q, rcs, k, st,
                                                arrivalTimeSeconds,
                                                p.maxTotalTravelTime, nodesEgress, reverseJourneysSteps, accessSteps);
      r := Ok(nodes);
    }

    // What an accessibility query must be given.
    ghost predicate ValidPlace(p: Parameters, set_: C.ConnectionSet, place: seq<NodeTime>)
    {
      Whole(PlaceFacts(p, set_, place))
    }

    ghost predicate PlaceFacts(p: Parameters, set_: C.ConnectionSet, place: seq<NodeTime>)
    {
      && set_.Valid() && (forall t <- set_.trips :: t < |net.attributes|) && 0 <= p.timeOfTrip
      && (p.forward && p.timeOfTrip / 3600 == 32 ==>
            exists c <- set_.forwardConnections :: c.departureTime >= 32 * 3600)
      && |net.infos| == net.tripCount
      && var q := PlaceQuery(net, p, place, set_.trips);
      && F.ValidForward(q, set_.forwardConnections) && R.ValidReverse(q, set_.reverseConnections)
      && Followable(q, set_.reverseConnections)
    }

    method PreparePlace(p: Parameters, set_: C.ConnectionSet, place: seq<NodeTime>) returns (r: Result<()>)
      requires ValidPlace(p, set_, place)
      modifies this
      ensures connectionSet == set_ && AccessAnswer(p.forward && place == [], !p.forward && place == [], r)
      ensures r.Ok? ==>
                Prepared(PlaceQuery(net, p, place, set_.trips)) &&
                tripsQueryOverlay == FreshOverlay(net.tripCount)
      ensures r.Ok? ==> AccessLoaded(p.forward) && EgressLoaded(!p.forward)
    {
      var origin, destination := if p.forward then Some(place) else None, if p.forward then None else Some(place);
      r := Reset(p, set_, origin, destination, true);
      if r.Ok? {
        ResetFilters(p);
        ResetPrepares(p, PlaceQuery(net, p, place, set_.trips), p.forward, !p.forward);
      }
    }

    // Every node within reach of a place, or from which the place is in reach.
    method CalculateAllNodes(p: Parameters, set_: C.ConnectionSet, place: seq<NodeTime>)
      returns (r: Result<seq<N.AccessibleNode>>, ghost k: nat, ghost traces: seq<N.Trace>)
      requires ValidPlace(p, set_, place)
      modifies this
      ensures place == [] && p.forward ==> r == Failed(NoAccessAtOrigin)
      ensures place == [] && !p.forward ==> r == Failed(NoAccessAtDestination)
      ensures place != [] && p.forward && p.timeOfTrip / 3600 <= 32 ==>
                ForwardListed(net, PlaceQuery(net, p, place, set_.trips), set_.forwardConnections, k, r)
      ensures place != [] && p.forward && p.timeOfTrip / 3600 > 32 ==> r == Failed(NoServiceFromOrigin)
      ensures place != [] && !p.forward ==>
                Whole(ReverseListed(net, PlaceQuery(net, p, place, set_.trips), set_.reverseConnections, traces, r))
    {
      k, traces := 0, [];
      var prepared := PreparePlace(p, set_, place);
      if prepared.Failed? {
        return Failed(prepared.reason), k, traces;
      }
      if p.forward {
        r, k := AllNodesForward(PlaceQuery(net, p, place, set_.trips), p);
      } else {
        r, traces := AllNodesReverse(PlaceQuery(net, p, place, set_.trips), p);
      }
    }
  }

  // ---- Accessibility results --------------------------------------------------

  function PlaceQuery(net: Transit, p: Parameters, place: seq<NodeTime>, trips: seq<nat>): Query
    requires forall t <- trips :: t < |net.attributes|
  {
    QueryFor(net, p, if p.forward then place else [], if p.forward then [] else place, trips)
  }

  // The nodes listed are the entries of the plain scan over the whole list.
  ghost predicate ForwardListed(net: Transit, q: Query, cs: seq<Connection>, k: nat, r: Result<seq<N.AccessibleNode>>) {
    && F.ValidForward(q, cs)
    && var st := F.Scan(q, cs, 0, F.Initial(q), false);
    && F.Sound(q, cs, k, st)
    && (st.reachableCount == 0 <==> r == Failed(NoServiceFromOrigin))
    && (st.reachableCount != 0 <==> r.Ok?)
    && (r.Ok? ==> N.Lists(net.infos, q, cs, k, st, q.nodeCount, r.value))
  }

  function UsableOverlay(tripCount: nat): seq<TripQueryData> {
    seq(tripCount, _ => FRESH_TRIP.(usable := true))
  }

  lemma UsableOverlayIs(tripCount: nat, overlay: seq<TripQueryData>)
    requires |overlay| == tripCount && forall t: nat | t < tripCount :: overlay[t] == FRESH_TRIP.(usable := true)
    ensures overlay == UsableOverlay(tripCount) && R.NoExits(overlay)
  {
  }

  lemma ReverseScanSound(q: Query, rcs: seq<Connection>, overlay: seq<TripQueryData>) returns (k: nat)
    requires R.ValidReverse(q, rcs) && |overlay| == q.tripCount && R.NoExits(overlay)
    ensures R.Sound(q, rcs, k, R.Scan(q, rcs, 0, R.Initial(q, overlay), false))
  {
    RX.InitialInvariant(q, rcs, overlay, false);
    k := RX.ScanInvariant(q, rcs, 0, R.Initial(q, overlay), false);
  }

  ghost predicate ReverseListed(net: Transit, q: Query, rcs: seq<Connection>, traces: seq<N.Trace>,
                                r: Result<seq<N.AccessibleNode>>) {
    && (forall c <- rcs :: R.Fits(q, c))
    && var st := R.Scan(q, rcs, 0, R.Initial(q, UsableOverlay(q.tripCount)), false);
    && (st.reachableCount == 0 <==> r == Failed(NoServiceToDestination))
    && (st.reachableCount != 0 <==> r.Ok?)
    && (r.Ok? ==> N.ReverseLists(net.timetable, net.infos, q, rcs, st, q.nodeCount, r.value, traces))
  }

  // ---- Footpath maps and labels -------------------------------------------------

  ghost predicate ListsNodes(nodeCount: nat, fps: seq<NodeTime>) {
    && (forall fp <- fps :: fp.node < nodeCount)
    && Unique(fps)
  }

  ghost predicate Unique(fps: seq<NodeTime>) {
    forall a <- fps, b <- fps :: a.node == b.node ==> a == b
  }

  // With each node listed once, it does not matter which entry wins.
  lemma MapStep(fps: seq<NodeTime>, k: nat)
    requires k < |fps| && Unique(fps)
    ensures MapTo(fps, k + 1) == MapTo(fps, k)[fps[k].node := fps[k].time]
  {
    var n, m := fps[k].node, MapTo(fps, k);
    MapToLists(fps, k);
    if n in m {
      assert NodeTime(n, m[n]) in fps && fps[k] in fps;
    }
  }

  lemma LabelledStep(nodeCount: nat, walks: map<nat, int>, base: int, plus: bool, default: int,
                     times: seq<int>, steps: seq<JourneyStep>, fp: NodeTime)
    requires Labelled(nodeCount, walks, base, plus, default, times, steps) && fp.node < nodeCount
    ensures Labelled(nodeCount, walks[fp.node := fp.time], base, plus, default,
                     times[fp.node := Label(base, plus, fp.time)], steps[fp.node := Walk(fp.time)])
  {
  }

  // Labels base plus or minus walk where there is a walk, the default elsewhere.
  ghost predicate Labelled(nodeCount: nat, walks: map<nat, int>, base: int, plus: bool, default: int,
                           times: seq<int>, steps: seq<JourneyStep>) {
    && |times| == |steps| == nodeCount
    && (forall n: nat | n < nodeCount :: times[n] == if n in walks then Label(base, plus, walks[n]) else default)
    && (forall n: nat | n < nodeCount :: steps[n] == Walk(if n in walks then walks[n] else -1))
  }

  function Used(resetAccessPaths: bool, given: Option<seq<NodeTime>>, previous: seq<NodeTime>): seq<NodeTime> {
    if !resetAccessPaths then previous else if given.Some? then given.value else []
  }

  lemma LabelledIs(nodeCount: nat, walks: map<nat, int>, base: int, plus: bool, default: int, times: seq<int>,
                   steps: seq<JourneyStep>)
    requires Labelled(nodeCount, walks, base, plus, default, times, steps)
    ensures times == TimeLabels(nodeCount, walks, base, plus, default) && steps == StepLabels(nodeCount, walks)
  {
  }

  // The first k egress nodes carry labels for the new arrival time.
  ghost predicate Relabelled(nodeCount: nat, fps: seq<NodeTime>, k: nat, walks: map<nat, int>, after: int,
                             times: seq<int>)
    requires k <= |fps|
  {
    && |times| == nodeCount
    && (forall j: nat | j < k ::
          fps[j].node < nodeCount && fps[j].node in walks &&
          times[fps[j].node] == after - walks[fps[j].node])
    && (forall n: nat | n < nodeCount && n !in walks :: times[n] == -1)
  }

  lemma RelabelStep(nodeCount: nat, fps: seq<NodeTime>, k: nat, walks: map<nat, int>, after: int, times: seq<int>)
    requires k < |fps| && Relabelled(nodeCount, fps, k, walks, after, times)
    requires walks == TimeMap(fps) && ListsNodes(nodeCount, fps)
    ensures fps[k].node < nodeCount
        && Relabelled(nodeCount, fps, k + 1, walks, after, times[fps[k].node := after - fps[k].time])
  {
    var n := fps[k].node;
    assert fps[k] in fps;
    assert NodeTime(n, walks[n]) in fps;
    assert walks[n] == fps[k].time;
  }

  lemma RelabelledAll(nodeCount: nat, fps: seq<NodeTime>, walks: map<nat, int>, after: int, times: seq<int>)
    requires Relabelled(nodeCount, fps, |fps|, walks, after, times) && walks == TimeMap(fps)
    ensures times == TimeLabels(nodeCount, walks, after, false, -1)
  {
    forall n: nat | n < nodeCount && n in walks ensures times[n] == after - walks[n] {
      assert NodeTime(n, walks[n]) in fps;
      var j: nat :| j < |fps| && fps[j] == NodeTime(n, walks[n]);
    }
  }

  ghost predicate ReverseFinds(q: Query, rcs: seq<Connection>, overlay: seq<TripQueryData>) {
    && |overlay| == q.tripCount && (forall c <- rcs :: R.Fits(q, c))
    && T.ReverseResult(q, T.ReverseEnd(q, rcs, overlay)).Some?
  }

  // What the reverse scan starts from, or why there is nothing.
  ghost predicate StartIs(q: Query, st: R.ReverseState, start: Result<NodeTime>) {
    start == if st.reachableCount == 0 then Failed(NoServiceToDestination)
             else if T.ReverseResult(q, st).None? then Failed(NoRoutingFound)
             else Ok(T.ReverseResult(q, st).value)
  }

  // The outcome of the reverse pass alone: a route if it finds an access node, from
  // the steps left behind it and leaving at its start; else the reason why not.
  ghost predicate ReverseOutcome(q: Query, rcs: seq<Connection>, overlay: seq<TripQueryData>, r: Result<J.Route>,
                                 tr: A.Trace) {
    && (r.Ok? <==> ReverseFinds(q, rcs, overlay))
    && (r.Ok? ==>
          var st := T.ReverseEnd(q, rcs, overlay);
          && r.value.departureTime == T.ReverseResult(q, st).value.time
          && tr.start == T.ReverseResult(q, st).value && A.FromSteps(st, tr))
    && (r.Failed? ==>
          r.reason == if V.NoServiceTo(q, rcs, overlay) then NoServiceToDestination else NoRoutingFound)
  }

  lemma ReverseIsDone(q: Query, rcs: seq<Connection>, overlay: seq<TripQueryData>, st: R.ReverseState,
                      r: Result<J.Route>, tr: A.Trace)
    requires R.ValidReverse(q, rcs) && |overlay| == q.tripCount && R.NoExits(overlay)
    requires st == T.ReverseEnd(q, rcs, overlay)
    requires r.Failed? ==> StartIs(q, st, Failed(r.reason))
    requires r.Ok? ==> StartIs(q, st, Ok(tr.start)) && r.value.departureTime == tr.start.time && A.FromSteps(st, tr)
    ensures Whole(ReverseOutcome(q, rcs, overlay, r, tr))
  {
    V.NothingComesIn(q, rcs, overlay, true);
  }

  // What a query returns: a route that answers it, whose existence, departure and
  // target are what the passes run for its direction determine; or why there is none.
  ghost predicate Outcome(net: Transit, q: Query, p: Parameters, cs: seq<Connection>, rcs: seq<Connection>,
                          r: Result<J.Route>, target: int, tr: A.Trace, o: A.Optimization) {
    && (r.Ok? ==> Justified(net, T.ReverseQuery(q, target), rcs, tr, o, r.value))
    && (p.forward && p.timeOfTrip / 3600 <= 32 ==>
          Whole(ForwardThenReverse(q, cs, rcs, r.Ok?, target)) && Whole(ForwardOutcome(q, cs, rcs, r, tr)))
    && (p.forward && p.timeOfTrip / 3600 > 32 ==> r == Failed(NoServiceFromOrigin))
    && (!p.forward ==> target == p.timeOfTrip && Whole(ReverseOutcome(q, rcs, UsableOverlay(net.tripCount), r, tr)))
  }

  // The reverse pass from the arrival the forward pass finds, or why it finds none.
  ghost predicate ForwardOutcome(q: Query, cs: seq<Connection>, rcs: seq<Connection>, r: Result<J.Route>, tr: A.Trace)
  {
    && (forall c <- cs :: F.Fits(q, c))
    && var f := T.ForwardEnd(q, cs);
    && var b := FX.ForwardResult(q, f);
    && (b.None? ==> r == Failed(if V.NoServiceFrom(q, cs) then NoServiceFromOrigin else NoRoutingFound))
    && (b.Some? ==> ReverseOutcome(T.ReverseQuery(q, b.value.time), rcs, f.overlay, r, tr))
  }

  // What the forward pass leaves: its state, and the best arrival in it.
  ghost predicate ForwardDone(q: Query, cs: seq<Connection>, st: F.ForwardState, arrival: Result<int>) {
    && (forall c <- cs :: F.Fits(q, c))
    && (q.departureTime / 3600 <= 32 ==> st == F.Scan(q, cs, 0, F.Initial(q), true))
    && (q.departureTime / 3600 > 32 ==> arrival == Failed(NoServiceFromOrigin))
    && R.NoExits(st.overlay) && |st.overlay| == q.tripCount
    && (arrival.Ok? <==> FX.ForwardResult(q, st).Some?)
    && (arrival.Ok? ==> arrival.value == FX.ForwardResult(q, st).value.time >= 0)
    && (arrival.Failed? && q.departureTime / 3600 <= 32 ==>
          arrival.reason == if V.NoServiceFrom(q, cs) then NoServiceFromOrigin else NoRoutingFound)
  }

  lemma ForwardDoneFacts(q: Query, cs: seq<Connection>, st: F.ForwardState, arrival: Result<int>)
    requires Whole(ForwardDone(q, cs, st, arrival))
    ensures R.NoExits(st.overlay) && |st.overlay| == q.tripCount
    ensures arrival.Ok? ==> arrival.value >= 0
  {
  }

  lemma ForwardIsDone(q: Query, cs: seq<Connection>, st: F.ForwardState, arrival: Result<int>)
    requires F.ValidForward(q, cs) && q.departureTime >= 0
    requires st == if q.departureTime / 3600 <= 32 then F.Scan(q, cs, 0, F.Initial(q), true) else F.Initial(q)
    requires arrival == if st.reachableCount == 0 then Failed(NoServiceFromOrigin)
                        else if FX.ForwardResult(q, st).None? then Failed(NoRoutingFound)
                        else Ok(FX.ForwardResult(q, st).value.time)
    ensures Whole(ForwardDone(q, cs, st, arrival))
  {
    ForwardEndFacts(q, cs, st);
    V.NothingReached(q, cs, true);
  }

  lemma FailedOutcome(net: Transit, q: Query, p: Parameters, cs: seq<Connection>, rcs: seq<Connection>,
                      st: F.ForwardState, r: Result<J.Route>, target: int, tr: A.Trace, o: A.Optimization)
    requires p.forward && p.timeOfTrip == q.departureTime && r.Failed?
    requires Whole(ForwardDone(q, cs, st, Failed(r.reason)))
    ensures Whole(Outcome(net, q, p, cs, rcs, r, target, tr, o))
  {
  }

  lemma FoundPasses(q: Query, cs: seq<Connection>, rcs: seq<Connection>, st: F.ForwardState, r: Result<J.Route>,
                    target: int, tr: A.Trace)
    requires q.departureTime / 3600 <= 32 && Whole(ForwardDone(q, cs, st, Ok(target)))
    requires Whole(ReverseOutcome(T.ReverseQuery(q, target), rcs, st.overlay, r, tr))
    ensures Whole(ForwardThenReverse(q, cs, rcs, r.Ok?, target)) && Whole(ForwardOutcome(q, cs, rcs, r, tr))
  {
  }

  lemma FoundOutcome(net: Transit, q: Query, p: Parameters, cs: seq<Connection>, rcs: seq<Connection>,
                     st: F.ForwardState, r: Result<J.Route>, target: int, tr: A.Trace, o: A.Optimization)
    requires p.forward && p.timeOfTrip == q.departureTime && Whole(ForwardDone(q, cs, st, Ok(target)))
    requires Whole(ReverseOutcome(T.ReverseQuery(q, target), rcs, st.overlay, r, tr))
    requires r.Ok? ==> Justified(net, T.ReverseQuery(q, target), rcs, tr, o, r.value)
    ensures Whole(Outcome(net, q, p, cs, rcs, r, target, tr, o))
  {
    if q.departureTime / 3600 <= 32 { FoundPasses(q, cs, rcs, st, r, target, tr); }
  }

  // The outcome of both passes run one after the other.
  ghost predicate ForwardThenReverse(q: Query, cs: seq<Connection>, rcs: seq<Connection>, found: bool, target: int) {
    && (forall c <- cs :: F.Fits(q, c))
    && ReverseAfter(q, T.ForwardEnd(q, cs), rcs, found, target)
  }

  ghost predicate ReverseAfter(q: Query, f: F.ForwardState, rcs: seq<Connection>, found: bool, target: int) {
    var b := FX.ForwardResult(q, f);
    && (found ==> b.Some? && target == b.value.time)
    && (found <==> b.Some? && ReverseFinds(T.ReverseQuery(q, b.value.time), rcs, f.overlay))
  }

  // The route answers the query.
  ghost predicate Justified(net: Transit, q: Query, rcs: seq<Connection>, tr: A.Trace, o: A.Optimization, r: J.Route) {
    Whole(A.Answers(net.timetable, net.infos, q, rcs, tr, o, r))
  }

  // What the reverse pass needs of the state the forward pass leaves.
  lemma ForwardEndFacts(q: Query, cs: seq<Connection>, st: F.ForwardState)
    requires F.ValidForward(q, cs) && q.departureTime >= 0
    requires st == F.Initial(q) || st == F.Scan(q, cs, 0, F.Initial(q), true)
    ensures R.NoExits(st.overlay) && |st.overlay| == q.tripCount
    ensures FX.ForwardResult(q, st).Some? ==> FX.ForwardResult(q, st).value.time >= 0
  {
    FX.InitialInvariant(q, cs);
    var k := FX.ScanInvariant(q, cs, 0, F.Initial(q), true);
    var i := if st == F.Initial(q) then 0 else k;
    T.ForwardOverlayFresh(q, cs, i, st);
    FX.SoundInRange(q, cs, i, st);
    FX.BestEgressIsLeast(q, st, |q.egressFootpaths|);
  }
}
