// Rebuilding an itinerary from the reverse steps, and adding up its times.
module Journeys {
  import opened Network
  import R = ReverseScan
  import RX = ReverseExact
  import O = OptimizeJourney

  // ---- Following the steps ------------------------------------------------------

  // Leg m is followed by a footpath of the given length that leaves time for the
  // minimum wait of leg m + 1.
  ghost predicate TransferFits(q: Query, legs: seq<Leg>, m: nat, t: int)
    requires m + 1 < |legs|
  {
    && Footpath(q, legs[m].exit.arrivalNode, legs[m + 1].enter.departureNode, t)
    && legs[m].exit.arrivalTime + t + q.Wait(legs[m + 1].enter) <= legs[m + 1].enter.departureTime
  }

  // rides holds the legs, each with the transfer that follows it.
  ghost predicate RidesOf(q: Query, legs: seq<Leg>, rides: seq<JourneyStep>) {
    && |rides| == |legs|
    && (forall m: nat | m < |legs| ::
          rides[m].Ride? && rides[m].enter == legs[m].enter &&
          rides[m].exit == legs[m].exit)
    && (forall m: nat | m + 1 < |legs| :: TransferFits(q, legs, m, rides[m].transferTime))
  }

  // The legs seen so far are joined by the steps held at their exits, each ride
  // with the transfer of the step at its exit; step is the one to go on with.
  ghost predicate Joined(st: R.ReverseState, first: JourneyStep, seen: seq<Leg>, rides: seq<JourneyStep>,
                         step: JourneyStep) {
    && |rides| == |seen|
    && (if seen == [] then step == first else first.Ride? && seen[0] == Leg(first.enter, first.exit))
    && (forall m: nat | m + 1 < |seen| :: RX.ContinuesWith(st, seen, m))
    && (forall m: nat | m + 1 < |seen| :: CarriesTransfer(st, seen, rides, m))
    && (seen != [] ==> HoldsStep(st, Last(seen), step))
  }

  ghost predicate HoldsStep(st: R.ReverseState, l: Leg, step: JourneyStep) {
    l.exit.arrivalNode < |st.steps| && st.steps[l.exit.arrivalNode] == step
  }

  ghost predicate CarriesTransfer(st: R.ReverseState, legs: seq<Leg>, rides: seq<JourneyStep>, m: nat)
    requires m < |legs| == |rides|
  {
    var n := legs[m].exit.arrivalNode;
    n < |st.steps| && rides[m].Ride? && rides[m].transferTime == st.steps[n].transferTime
  }

  // legs and rides are what following the steps from first visits.
  ghost predicate Behind(st: R.ReverseState, first: JourneyStep, legs: seq<Leg>, rides: seq<JourneyStep>) {
    && RX.Follows(st, first, legs) && |rides| == |legs|
    && forall m: nat | m + 1 < |legs| :: CarriesTransfer(st, legs, rides, m)
  }

  lemma JoinedNext(st: R.ReverseState, first: JourneyStep, seen: seq<Leg>, rides: seq<JourneyStep>, step: JourneyStep)
    requires Joined(st, first, seen, rides, step) && step.Ride? && (forall r <- rides :: r.Ride?)
    requires step.exit.arrivalNode < |st.steps|
    ensures var l := Leg(step.enter, step.exit);
            Joined(st, first, seen + [l], Extended(rides, step), st.steps[step.exit.arrivalNode])
  {
    var all, r := seen + [Leg(step.enter, step.exit)], Extended(rides, step);
    forall m: nat | m + 1 < |all| ensures RX.ContinuesWith(st, all, m) && CarriesTransfer(st, all, r, m) {
      if m + 1 < |seen| {
        assert RX.ContinuesWith(st, seen, m) && CarriesTransfer(st, seen, rides, m);
        assert rides[m] in rides && r[m] == rides[m] && all[m] == seen[m];
      } else {
        assert Last(rides) in rides && r[m] == Last(rides).(transferTime := step.transferTime) && all[m] == Last(seen);
      }
    }
  }

  lemma JoinedAll(st: R.ReverseState, first: JourneyStep, legs: seq<Leg>, rides: seq<JourneyStep>, step: JourneyStep)
    requires Whole(Joined(st, first, legs, rides, step)) && step.Walk? && legs != []
    ensures Behind(st, first, legs, rides)
  {
  }

  lemma LegsFromUnfold(q: Query, rcs: seq<Connection>, k: nat, st: R.ReverseState, s: JourneyStep)
    requires R.ValidReverse(q, rcs) && R.HandoffOrdered(q, rcs) && R.Sound(q, rcs, k, st) && R.RidesTo(q, rcs, k, st, s)
    ensures var next := st.steps[s.exit.arrivalNode];
            if next.Walk? then RX.LegsFrom(q, rcs, k, st, s) == [Leg(s.enter, s.exit)]
                && s.exit.arrivalNode in q.NodesEgress()
            else
              && R.RidesTo(q, rcs, k, st, next) && Pos(rcs, next.enter) < Pos(rcs, s.enter)
              && RX.LegsFrom(q, rcs, k, st, s) == [Leg(s.enter, s.exit)] + RX.LegsFrom(q, rcs, k, st, next)
              && Footpath(q, s.exit.arrivalNode, next.enter.departureNode, next.transferTime)
              && s.exit.arrivalTime + next.transferTime + q.Wait(next.enter) <= next.enter.departureTime
  {
    RX.NextStep(q, rcs, k, st, s.exit);
    R.TripOrder(rcs, s.enter, s.exit);
  }

  // From the exit x, the step's footpath leads in time to its boarding.
  ghost predicate LeadsTo(q: Query, x: Connection, s: JourneyStep) {
    && s.Ride? && Footpath(q, x.arrivalNode, s.enter.departureNode, s.transferTime)
    && x.arrivalTime + s.transferTime + q.Wait(s.enter) <= s.enter.departureTime
  }

  // One more ride; the ride before it gets the transfer that leads to it.
  function Extended(rides: seq<JourneyStep>, s: JourneyStep): seq<JourneyStep>
    requires forall r <- rides :: r.Ride?
  {
    (if rides == [] then [] else rides[|rides| - 1 := Last(rides).(transferTime := s.transferTime)]) + [s]
  }

  lemma RidesAppend(q: Query, legs: seq<Leg>, rides: seq<JourneyStep>, s: JourneyStep)
    requires RidesOf(q, legs, rides) && s.Ride? && (legs != [] ==> LeadsTo(q, Last(legs).exit, s))
    ensures forall r <- rides :: r.Ride?
    ensures RidesOf(q, legs + [Leg(s.enter, s.exit)], Extended(rides, s))
  {
    var all, r := legs + [Leg(s.enter, s.exit)], Extended(rides, s);
    forall m: nat | m + 1 < |all| ensures TransferFits(q, all, m, r[m].transferTime) {
      if m + 1 < |legs| { assert TransferFits(q, legs, m, rides[m].transferTime); }
    }
  }

  // The state of the loop below: the legs seen so far are in rides, the rest
  // starts at step.
  ghost predicate Following(q: Query, rcs: seq<Connection>, k: nat, st: R.ReverseState, legs: seq<Leg>,
                            seen: seq<Leg>, rides: seq<JourneyStep>, step: JourneyStep, egressNode: nat)
    requires R.ValidReverse(q, rcs) && R.HandoffOrdered(q, rcs) && R.Sound(q, rcs, k, st)
  {
    && RidesOf(q, seen, rides)
    && if step.Ride? then
         && R.RidesTo(q, rcs, k, st, step) && legs == seen + RX.LegsFrom(q, rcs, k, st, step)
         && (seen != [] ==> LeadsTo(q, Last(seen).exit, step))
       else legs == seen && legs != [] && egressNode == Last(legs).exit.arrivalNode && egressNode in q.NodesEgress()
  }

  lemma FollowOne(q: Query, rcs: seq<Connection>, k: nat, st: R.ReverseState, legs: seq<Leg>,
                  seen: seq<Leg>, rides: seq<JourneyStep>, step: JourneyStep, egressNode: nat)
    requires R.ValidReverse(q, rcs) && R.HandoffOrdered(q, rcs) && R.Sound(q, rcs, k, st)
    requires Following(q, rcs, k, st, legs, seen, rides, step, egressNode) && step.Ride?
    ensures forall r <- rides :: r.Ride?
    ensures var n := step.exit.arrivalNode; var next := st.steps[n];
            && Following(q, rcs, k, st, legs, seen + [Leg(step.enter, step.exit)], Extended(rides, step), next, n)
            && (next.Ride? ==> next.enter in rcs && Pos(rcs, next.enter) < Pos(rcs, step.enter))
  {
    LegsFromUnfold(q, rcs, k, st, step);
    RidesAppend(q, seen, rides, step);
    var next := st.steps[step.exit.arrivalNode];
    var l := Leg(step.enter, step.exit);
    if next.Ride? {
      SplitLegs(legs, seen, l, RX.LegsFrom(q, rcs, k, st, next));
    } else {
      assert Last(seen + [l]) == l;
    }
  }

  lemma SplitLegs(legs: seq<Leg>, seen: seq<Leg>, l: Leg, rest: seq<Leg>)
    requires legs == seen + ([l] + rest)
    ensures legs == (seen + [l]) + rest && Last(seen + [l]) == l
  {
  }

  // The loop that follows the steps from the access entry. It terminates, ends at
  // an egress node, and visits exactly the legs the steps stand for.
  method FollowSteps(ghost q: Query, ghost rcs: seq<Connection>, ghost k: nat, ghost st: R.ReverseState,
                     steps: seq<JourneyStep>, first: JourneyStep)
    returns (rides: seq<JourneyStep>, egressNode: nat)
    requires R.ValidReverse(q, rcs) && R.HandoffOrdered(q, rcs) && R.Sound(q, rcs, k, st)
    requires steps == st.steps && R.RidesTo(q, rcs, k, st, first)
    ensures RidesOf(q, RX.LegsFrom(q, rcs, k, st, first), rides)
    ensures egressNode == Last(RX.LegsFrom(q, rcs, k, st, first)).exit.arrivalNode && egressNode in q.NodesEgress()
    ensures Behind(st, first, RX.LegsFrom(q, rcs, k, st, first), rides)
  {
    ghost var legs := RX.LegsFrom(q, rcs, k, st, first);
    ghost var seen: seq<Leg> := [];
    rides, egressNode := [], 0;
    var step := first;
    while step.Ride?
      invariant Following(q, rcs, k, st, legs, seen, rides, step, egressNode)
      invariant Whole(Joined(st, first, seen, rides, step))
      decreases if step.Ride? && step.enter in rcs then Pos(rcs, step.enter) + 1 else 0
    {
      FollowOne(q, rcs, k, st, legs, seen, rides, step, egressNode);
      JoinedNext(st, first, seen, rides, step);
      ghost var extended := Extended(rides, step);
      if |rides| > 0 {
        rides := rides[|rides| - 1 := rides[|rides| - 1].(transferTime := step.transferTime)];
      }
      rides := rides + [step];
      assert rides == extended;
      seen := seen + [Leg(step.enter, step.exit)];
      egressNode := step.exit.arrivalNode;
      step := steps[egressNode];
    }
    JoinedAll(st, first, seen, rides, step);
  }

  // ---- The itinerary is a well-formed journey ----------------------------------

  ghost predicate Timetabled(tt: O.Timetable, cs: seq<Connection>) {
    forall c <- cs :: O.OnTrip(tt, c)
  }

  lemma {:induction false} LegsInOrder(q: Query, rcs: seq<Connection>, legs: seq<Leg>, j: nat, k: nat)
    requires R.ValidReverse(q, rcs) && Chain(q, rcs, legs) && j < k < |legs|
    ensures legs[j].exit.arrivalTime <= legs[k].enter.departureTime
    decreases k
  {
    var p: nat := k - 1;
    assert Handoff(q, legs[p].exit, legs[p + 1].enter);
    assert IsRide(q, rcs, legs[p].enter, legs[p].exit) && IsRide(q, rcs, legs[k].enter, legs[k].exit);
    RX.HandoffTime(q, rcs, legs[p].exit, legs[k].enter);
    if j < p {
      LegsInOrder(q, rcs, legs, j, p);
      RX.RideTime(q, rcs, legs[p].enter, legs[p].exit);
    }
  }

  // [access walk] rides [egress walk], as handed to the optimisation.
  function Itinerary(access: seq<JourneyStep>, rides: seq<JourneyStep>, egressTime: int): seq<JourneyStep> {
    access + rides + [Walk(egressTime)]
  }

  lemma ItineraryWellFormed(q: Query, rcs: seq<Connection>, tt: O.Timetable, legs: seq<Leg>, rides: seq<JourneyStep>,
                            access: seq<JourneyStep>, egressTime: int)
    requires R.ValidReverse(q, rcs) && Timetabled(tt, rcs) && Chain(q, rcs, legs) && legs != []
    requires RidesOf(q, legs, rides) && |access| <= 1 && (forall s <- access :: s.Walk?)
    ensures O.WellFormed(tt, |access|, Itinerary(access, rides, egressTime))
  {
    forall m: nat | m < |rides| ensures rides[m].Ride? && O.RideOk(tt, rides[m]) {
      ItineraryRideOk(q, rcs, tt, legs, rides, m);
    }
    forall i: nat, j: nat | i < j < |rides| ensures O.Before(rides[i], rides[j]) {
      ItineraryBefore(q, rcs, legs, rides, i, j);
    }
    WalksAround(tt, rides, access, egressTime);
  }

  // Walks before and after leave rides in order well formed.
  lemma WalksAround(tt: O.Timetable, rides: seq<JourneyStep>, access: seq<JourneyStep>, egressTime: int)
    requires rides != [] && |access| <= 1 && (forall s <- access :: s.Walk?)
    requires forall m: nat | m < |rides| :: rides[m].Ride? && O.RideOk(tt, rides[m])
    requires forall i: nat, j: nat {:trigger O.Before(rides[i], rides[j])} | i < j < |rides| ::
        O.Before(rides[i], rides[j])
    ensures O.WellFormed(tt, |access|, Itinerary(access, rides, egressTime))
  {
    var lo, journey := |access|, Itinerary(access, rides, egressTime);
    ItineraryShape(access, rides, egressTime);
    forall m: nat | m < |journey| ensures O.RideOk(tt, journey[m]) {
      if lo <= m < |journey| - 1 { ItineraryAt(access, rides, egressTime, m - lo); }
    }
    forall i: nat, j: nat | i < j < |journey| ensures O.Before(journey[i], journey[j]) {
      if lo <= i && j < |journey| - 1 {
        ItineraryAt(access, rides, egressTime, i - lo);
        ItineraryAt(access, rides, egressTime, j - lo);
        assert O.Before(rides[i - lo], rides[j - lo]);
      }
    }
  }

  lemma ItineraryBefore(q: Query, rcs: seq<Connection>, legs: seq<Leg>, rides: seq<JourneyStep>, i: nat, j: nat)
    requires R.ValidReverse(q, rcs) && Chain(q, rcs, legs) && RidesOf(q, legs, rides) && i < j < |legs|
    ensures O.Before(rides[i], rides[j])
  {
    LegsInOrder(q, rcs, legs, i, j);
  }

  lemma ItineraryAt(access: seq<JourneyStep>, rides: seq<JourneyStep>, egressTime: int, m: nat)
    requires m < |rides|
    ensures Itinerary(access, rides, egressTime)[|access| + m] == rides[m]
  {
  }

  lemma ItineraryShape(access: seq<JourneyStep>, rides: seq<JourneyStep>, egressTime: int)
    requires |access| <= 1 && (forall s <- access :: s.Walk?) && rides != [] && (forall s <- rides :: s.Ride?)
    ensures O.Shape(|access|, Itinerary(access, rides, egressTime))
  {
    var lo, journey := |access|, Itinerary(access, rides, egressTime);
    forall m: nat | m < |journey| ensures journey[m].Ride? <==> lo <= m < |journey| - 1 {
      if m < lo { assert journey[m] == access[m] && access[m] in access; }
      else if m < |journey| - 1 { assert journey[m] == rides[m - lo] && rides[m - lo] in rides; }
      else { assert journey[m] == Walk(egressTime); }
    }
  }

  lemma ItineraryRideOk(q: Query, rcs: seq<Connection>, tt: O.Timetable, legs: seq<Leg>, rides: seq<JourneyStep>,
                        m: nat)
    requires Timetabled(tt, rcs) && Chain(q, rcs, legs) && RidesOf(q, legs, rides) && m < |legs|
    ensures O.RideOk(tt, rides[m])
  {
    assert IsRide(q, rcs, legs[m].enter, legs[m].exit);
  }

  // ---- Totals ------------------------------------------------------------------

  // What the totals need to know about a trip: its line, whether its mode counts
  // as walking, and for how many segments the path knows distances.
  datatype TripInfo = TripInfo(transferable: bool, segments: nat)

  datatype Ridden = Ridden(trip: nat, boardingIndex: int, unboardingIndex: int)

  datatype Route = Route(
    departureTime: int,
    arrivalTime: int,
    totalTravelTime: int,
    totalInVehicleTime: int,
    totalNonTransitTravelTime: int,
    numberOfBoardings: int,
    numberOfTransfers: int,
    transferWalkingTime: int,
    accessTravelTime: int,
    egressTravelTime: int,
    transferWaitingTime: int,
    firstWaitingTime: int,
    totalWaitingTime: int,
    legs: seq<Ridden>)

  predicate CountsAsWalking(infos: seq<TripInfo>, s: JourneyStep) {
    && s.Ride? && s.enter.trip < |infos| && infos[s.enter.trip].transferable
    && s.exit.sequenceInTrip - 1 < infos[s.enter.trip].segments
  }

  predicate CountsAsBoarding(infos: seq<TripInfo>, s: JourneyStep) {
    s.Ride? && s.enter.trip < |infos| && !infos[s.enter.trip].transferable
  }

  function Sum(s: seq<int>): int {
    if s == [] then 0 else Sum(s[..|s| - 1]) + Last(s)
  }

  lemma SumNext(s: seq<int>, k: nat)
    requires k < |s|
    ensures Sum(s[..k + 1]) == Sum(s[..k]) + s[k]
  {
    assert s[..k + 1][..k] == s[..k];
  }

  // What each ride takes.
  ghost function RideTimes(journey: seq<JourneyStep>): seq<int>
    requires O.Shape(1, journey)
  {
    seq(|journey| - 2, m requires 0 <= m < |journey| - 2 =>
      journey[m + 1].exit.arrivalTime - journey[m + 1].enter.departureTime)
  }

  // The same, only for the rides counted as walking.
  ghost function WalkedTimes(infos: seq<TripInfo>, journey: seq<JourneyStep>): seq<int>
    requires O.Shape(1, journey)
  {
    seq(|journey| - 2, m requires 0 <= m < |journey| - 2 =>
      if CountsAsWalking(infos, journey[m + 1])
      then journey[m + 1].exit.arrivalTime - journey[m + 1].enter.departureTime else 0)
  }

  // What the transfer after each ride but the last takes, and the wait after it.
  ghost function TransferWalks(journey: seq<JourneyStep>): seq<int>
    requires O.Shape(1, journey)
  {
    seq(|journey| - 3, m requires 0 <= m < |journey| - 3 => journey[m + 1].transferTime)
  }

  ghost function TransferWaits(journey: seq<JourneyStep>): seq<int>
    requires O.Shape(1, journey)
  {
    seq(|journey| - 3, m requires 0 <= m < |journey| - 3 =>
      journey[m + 2].enter.departureTime - journey[m + 1].exit.arrivalTime - journey[m + 1].transferTime)
  }

  // The steps up to step k that count as boardings.
  ghost function Boarded(infos: seq<TripInfo>, journey: seq<JourneyStep>, k: nat): set<nat>
    requires k < |journey|
  {
    set m: nat | m <= k && CountsAsBoarding(infos, journey[m])
  }

  lemma BoardedNext(infos: seq<TripInfo>, journey: seq<JourneyStep>, k: nat)
    requires k + 1 < |journey|
    ensures |Boarded(infos, journey, k + 1)| ==
            |Boarded(infos, journey, k)| + if CountsAsBoarding(infos, journey[k + 1]) then 1 else 0
  {
    assert Boarded(infos, journey, k + 1) ==
           Boarded(infos, journey, k) + if CountsAsBoarding(infos, journey[k + 1]) then {k + 1} else {};
  }

  // Between the first boarding and the k-th alighting all time is spent riding,
  // walking a transfer or waiting after one.
  lemma {:induction false} TimeAddsUp(journey: seq<JourneyStep>, k: nat)
    requires O.Shape(1, journey) && 1 <= k <= |journey| - 2
    ensures journey[k].exit.arrivalTime - journey[1].enter.departureTime ==
            Sum(RideTimes(journey)[..k]) + Sum(TransferWalks(journey)[..k - 1]) + Sum(TransferWaits(journey)[..k - 1])
    decreases k
  {
    SumNext(RideTimes(journey), k - 1);
    if k > 1 {
      TimeAddsUp(journey, k - 1);
      SumNext(TransferWalks(journey), k - 2);
      SumNext(TransferWaits(journey), k - 2);
    }
  }

  ghost predicate TotalsOf(infos: seq<TripInfo>, journey: seq<JourneyStep>, bestDeparture: int, r: Route)
    requires O.Shape(1, journey)
  {
    var n := |journey|;
    && r.departureTime == bestDeparture
    && r.arrivalTime == journey[n - 2].exit.arrivalTime + journey[n - 1].transferTime
    && r.totalTravelTime == r.arrivalTime - r.departureTime
    && r.totalInVehicleTime == Sum(RideTimes(journey))
    && r.transferWaitingTime == Sum(TransferWaits(journey))
    && r.transferWalkingTime == Sum(TransferWalks(journey)) + Sum(WalkedTimes(infos, journey))
    // conservation of time
    && r.totalTravelTime == r.totalInVehicleTime + r.totalWaitingTime +
        r.totalNonTransitTravelTime - Sum(WalkedTimes(infos, journey))
    && r.totalNonTransitTravelTime == r.accessTravelTime + r.transferWalkingTime + r.egressTravelTime
    && r.totalWaitingTime == r.firstWaitingTime + r.transferWaitingTime
    && r.firstWaitingTime == journey[1].enter.departureTime - bestDeparture - journey[0].transferTime
    && r.accessTravelTime == journey[0].transferTime && r.egressTravelTime == journey[n - 1].transferTime
    && r.numberOfBoardings == |Boarded(infos, journey, n - 2)|
    && r.numberOfTransfers == (if r.numberOfBoardings == 0 then 0 else r.numberOfBoardings - 1)
    && |r.legs| == n - 2 && Lists(journey, r.legs)
  }

  // The first rides, by their trips and the positions they cover.
  ghost predicate Lists(journey: seq<JourneyStep>, legs: seq<Ridden>)
    requires O.Shape(1, journey)
  {
    && |legs| <= |journey| - 2
    && forall m: nat | m < |legs| ::
         legs[m] == Ridden(journey[m + 1].enter.trip, journey[m + 1].enter.sequenceInTrip - 1,
                           journey[m + 1].exit.sequenceInTrip - 1)
  }

  lemma ListsNext(journey: seq<JourneyStep>, legs: seq<Ridden>, s: JourneyStep)
    requires O.Shape(1, journey) && Whole(Lists(journey, legs)) && |legs| < |journey| - 2 && s == journey[|legs| + 1]
    ensures Whole(Lists(journey, legs + [Ridden(s.enter.trip, s.enter.sequenceInTrip - 1, s.exit.sequenceInTrip - 1)]))
  {
  }

  // The same sums with each term written out. Ride m is step m + 1, and the wait
  // before a ride after the first starts where the previous transfer ends.
  lemma TimesMean(infos: seq<TripInfo>, journey: seq<JourneyStep>, bestDeparture: int, r: Route)
    requires O.Shape(1, journey) && TotalsOf(infos, journey, bestDeparture, r)
    ensures var n := |journey| - 2;
            && r.totalInVehicleTime ==
               Sum(seq(n, m requires 0 <= m < n =>
                 journey[m + 1].exit.arrivalTime - journey[m + 1].enter.departureTime))
            && r.transferWaitingTime ==
               Sum(seq(n - 1, m requires 0 <= m < n - 1 =>
                 journey[m + 2].enter.departureTime -
                 (journey[m + 1].exit.arrivalTime + journey[m + 1].transferTime)))
  {
    var n := |journey| - 2;
    assert RideTimes(journey) ==
           seq(n, m requires 0 <= m < n => journey[m + 1].exit.arrivalTime - journey[m + 1].enter.departureTime);
    assert TransferWaits(journey) ==
           seq(n - 1, m requires 0 <= m < n - 1 =>
             journey[m + 2].enter.departureTime - (journey[m + 1].exit.arrivalTime + journey[m + 1].transferTime));
  }

  // A transfer is walked after every ride but the last; rides whose mode is
  // transferable and whose distances are known count as walking as well.
  lemma WalkingMeans(infos: seq<TripInfo>, journey: seq<JourneyStep>, bestDeparture: int, r: Route)
    requires O.Shape(1, journey) && TotalsOf(infos, journey, bestDeparture, r)
    ensures var n := |journey| - 2;
            r.transferWalkingTime ==
            Sum(seq(n - 1, m requires 0 <= m < n - 1 => journey[m + 1].transferTime)) +
            Sum(seq(n, m requires 0 <= m < n =>
              var s := journey[m + 1];
              if s.enter.trip < |infos| && infos[s.enter.trip].transferable &&
                 s.exit.sequenceInTrip - 1 < infos[s.enter.trip].segments
              then s.exit.arrivalTime - s.enter.departureTime else 0))
  {
    var n := |journey| - 2;
    assert TransferWalks(journey) == seq(n - 1, m requires 0 <= m < n - 1 => journey[m + 1].transferTime);
    assert WalkedTimes(infos, journey) ==
           seq(n, m requires 0 <= m < n =>
             var s := journey[m + 1];
             if s.enter.trip < |infos| && infos[s.enter.trip].transferable &&
                s.exit.sequenceInTrip - 1 < infos[s.enter.trip].segments
             then s.exit.arrivalTime - s.enter.departureTime else 0);
  }

  // The boardings are the rides on modes that are not transferable.
  lemma BoardingsMean(infos: seq<TripInfo>, journey: seq<JourneyStep>, bestDeparture: int, r: Route)
    requires O.Shape(1, journey) && TotalsOf(infos, journey, bestDeparture, r)
    ensures r.numberOfBoardings ==
            |set m: nat | 1 <= m < |journey| - 1 && journey[m].enter.trip < |infos| &&
                          !infos[journey[m].enter.trip].transferable|
  {
    assert Boarded(infos, journey, |journey| - 2) ==
           set m: nat | 1 <= m < |journey| - 1 && journey[m].enter.trip < |infos| &&
                        !infos[journey[m].enter.trip].transferable;
  }

  // What has been added up after the first k rides, the last of them at step k.
  ghost function Riding(journey: seq<JourneyStep>, k: nat): int
    requires O.Shape(1, journey) && k <= |journey| - 2
  {
    Sum(RideTimes(journey)[..k])
  }

  ghost function Waiting(journey: seq<JourneyStep>, k: nat): int
    requires O.Shape(1, journey) && k <= |journey| - 2
  {
    Sum(TransferWaits(journey)[..if k == 0 then 0 else k - 1])
  }

  ghost function Walking(infos: seq<TripInfo>, journey: seq<JourneyStep>, k: nat): int
    requires O.Shape(1, journey) && k <= |journey| - 2
  {
    Sum(TransferWalks(journey)[..if k < |journey| - 2 then k else |journey| - 3]) +
    Sum(WalkedTimes(infos, journey)[..k])
  }

  lemma RidesNext(infos: seq<TripInfo>, journey: seq<JourneyStep>, k: nat)
    requires O.Shape(1, journey) && k < |journey| - 2
    ensures var s := journey[k + 1]; var ride := s.exit.arrivalTime - s.enter.departureTime;
            && Riding(journey, k + 1) == Riding(journey, k) + ride
            && Walking(infos, journey, k + 1) ==
               Walking(infos, journey, k) + (if CountsAsWalking(infos, s) then ride else 0) +
               (if k < |journey| - 3 then s.transferTime else 0)
    ensures var s := journey[k + 1];
            && Waiting(journey, k + 1) ==
               Waiting(journey, k) +
               (if k == 0 then 0
                else s.enter.departureTime - journey[k].exit.arrivalTime - journey[k].transferTime)
            && |Boarded(infos, journey, k + 1)| ==
               |Boarded(infos, journey, k)| + if CountsAsBoarding(infos, s) then 1 else 0
  {
    SumNext(RideTimes(journey), k);
    SumNext(WalkedTimes(infos, journey), k);
    if k < |journey| - 3 { SumNext(TransferWalks(journey), k); }
    if k > 0 { SumNext(TransferWaits(journey), k - 1); }
    BoardedNext(infos, journey, k);
  }

  lemma AllRides(infos: seq<TripInfo>, journey: seq<JourneyStep>)
    requires O.Shape(1, journey)
    ensures var n := |journey| - 2;
            && Riding(journey, n) == Sum(RideTimes(journey)) && Waiting(journey, n) == Sum(TransferWaits(journey))
            && Walking(infos, journey, n) == Sum(TransferWalks(journey)) + Sum(WalkedTimes(infos, journey))
            && journey[n].exit.arrivalTime - journey[1].enter.departureTime ==
               Riding(journey, n) + Waiting(journey, n) + Sum(TransferWalks(journey))
  {
    var n := |journey| - 2;
    assert RideTimes(journey)[..n] == RideTimes(journey) && TransferWaits(journey)[..n - 1] == TransferWaits(journey);
    assert TransferWalks(journey)[..n - 1] == TransferWalks(journey);
    assert WalkedTimes(infos, journey)[..n] == WalkedTimes(infos, journey);
    TimeAddsUp(journey, n);
  }

  lemma NoRides(infos: seq<TripInfo>, journey: seq<JourneyStep>)
    requires O.Shape(1, journey)
    ensures Riding(journey, 0) == Waiting(journey, 0) == Walking(infos, journey, 0) == 0
    ensures |Boarded(infos, journey, 0)| == 0
  {
    assert Boarded(infos, journey, 0) == {};
  }

  lemma TotalsDone(infos: seq<TripInfo>, journey: seq<JourneyStep>, bestDeparture: int, r: Route)
    requires O.Shape(1, journey)
    requires var n := |journey| - 2;
             && r.totalInVehicleTime == Riding(journey, n) && r.transferWaitingTime == Waiting(journey, n)
             && r.transferWalkingTime == Walking(infos, journey, n)
             && r.numberOfBoardings == |Boarded(infos, journey, n)|
    requires r.departureTime == bestDeparture && r.totalTravelTime == r.arrivalTime - bestDeparture
    requires r.arrivalTime == journey[|journey| - 2].exit.arrivalTime + r.egressTravelTime
    requires r.accessTravelTime == journey[0].transferTime && r.egressTravelTime == Last(journey).transferTime
    requires r.firstWaitingTime == journey[1].enter.departureTime - bestDeparture - journey[0].transferTime
    requires r.totalWaitingTime == r.firstWaitingTime + r.transferWaitingTime
    requires r.totalNonTransitTravelTime == r.accessTravelTime + r.transferWalkingTime + r.egressTravelTime
    requires r.numberOfTransfers == (if r.numberOfBoardings == 0 then 0 else r.numberOfBoardings - 1)
    requires |r.legs| == |journey| - 2 && Whole(Lists(journey, r.legs))
    ensures Whole(TotalsOf(infos, journey, bestDeparture, r))
  {
    AllRides(infos, journey);
  }

  method Totals(infos: seq<TripInfo>, journey: seq<JourneyStep>, bestDeparture: int) returns (r: Route)
    requires O.Shape(1, journey)
    requires forall s <- journey :: s.Ride? ==> s.enter.trip < |infos|
    ensures Whole(TotalsOf(infos, journey, bestDeparture, r))
  {
    var n := |journey|;
    var inVehicle, walking, waiting, transferWalking, transferWaiting := 0, 0, 0, 0, 0;
    var transferArrival, arrival, accessWaiting, accessWalking, egressWalking, transfers := -1, -1, -1, -1, -1, -1;
    var legs: seq<Ridden> := [];
    NoRides(infos, journey);
    for i := 0 to n
      invariant |legs| == if i == 0 then 0 else if i == n then n - 2 else i - 1
      invariant inVehicle == Riding(journey, |legs|) && transferWalking == Walking(infos, journey, |legs|)
      invariant transferWaiting == Waiting(journey, |legs|) && transfers == |Boarded(infos, journey, |legs|)| - 1
      invariant i == 0 ==> walking == waiting == transferWalking == 0
      invariant 1 <= i ==> accessWalking == journey[0].transferTime
      invariant i == 1 ==> waiting == transferWaiting == 0 && transferArrival == bestDeparture + accessWalking
      invariant 2 <= i < n ==> arrival == journey[i - 1].exit.arrivalTime
                               && transferArrival == arrival + journey[i - 1].transferTime
      invariant i == n ==> arrival == journey[n - 2].exit.arrivalTime + journey[n - 1].transferTime
                           && egressWalking == journey[n - 1].transferTime
      invariant 1 <= i ==> walking == accessWalking + transferWalking + if i == n then egressWalking else 0
      invariant 2 <= i ==> waiting == accessWaiting + transferWaiting
                           && accessWaiting == journey[1].enter.departureTime - bestDeparture - journey[0].transferTime
      invariant Whole(Lists(journey, legs))
    {
      var s := journey[i];
      if s.Ride? {
        ListsNext(journey, legs, s);
        RidesNext(infos, journey, i - 1);
        var transferTime, departure := s.transferTime, s.enter.departureTime;
        arrival := s.exit.arrivalTime;
        var ride, wait := arrival - departure, departure - transferArrival;
        transferArrival := arrival + transferTime;
        inVehicle := inVehicle + ride;
        waiting := waiting + wait;
        var info := infos[s.enter.trip];
        if !info.transferable {
          transfers := transfers + 1;
        }
        legs := legs + [Ridden(s.enter.trip, s.enter.sequenceInTrip - 1, s.exit.sequenceInTrip - 1)];
        if s.exit.sequenceInTrip - 1 < info.segments {
          if info.transferable {
            walking := walking + ride;
            transferWalking := transferWalking + ride;
          }
        }
        if i == 1 {
          accessWaiting := wait;
        } else {
          transferWaiting := transferWaiting + wait;
        }
        if i < n - 2 {
          transferWalking := transferWalking + transferTime;
          walking := walking + transferTime;
        }
      } else {
        var transferTime := s.transferTime;
        walking := walking + transferTime;
        if i == 0 {
          transferArrival := bestDeparture + transferTime;
          accessWalking := transferTime;
        } else {
          egressWalking := transferTime;
          transferArrival := arrival + transferTime;
          arrival := transferArrival;
        }
      }
    }
    r := Route(bestDeparture, arrival, arrival - bestDeparture, inVehicle, walking, transfers + 1,
               if transfers == -1 then 0 else transfers, transferWalking, accessWalking, egressWalking,
               transferWaiting, accessWaiting, waiting, legs);
    TotalsDone(infos, journey, bestDeparture, r);
  }
}
