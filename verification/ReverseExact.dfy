// The reverse scan: its labels are exact over the chains it can follow, its steps
// form feasible chains to the destination, and its access entries lose at most one
// minimum wait.
module ReverseExact {
  import opened Network
  import opened ReverseScan

  // ---- Chains to the destination --------------------------------------------

  ghost predicate Finishes(q: Query, x: Connection) {
    exists w :: NodeTime(x.arrivalNode, w) in q.egressFootpaths && x.arrivalTime + w <= q.arrivalTime
  }

  // legs bring the traveller to the destination by the arrival time.
  ghost predicate Reaching(q: Query, cs: seq<Connection>, legs: seq<Leg>) {
    legs != [] && Chain(q, cs, legs) && Finishes(q, Last(legs).exit)
  }

  ghost predicate AllUsable(overlay: seq<TripQueryData>, legs: seq<Leg>) {
    forall l <- legs :: l.enter.trip < |overlay| && overlay[l.enter.trip].usable
  }

  // e is scanned before x.
  ghost predicate Before(rcs: seq<Connection>, e: Connection, x: Connection) {
    e in rcs && x in rcs && Pos(rcs, e) < Pos(rcs, x)
  }

  ghost predicate InOrder(rcs: seq<Connection>, legs: seq<Leg>) {
    forall k: nat | k + 1 < |legs| :: Before(rcs, legs[k + 1].enter, legs[k].exit)
  }

  // A chain to the destination the scan can follow: over usable trips, with each
  // boarding scanned before the exit that hands over to it.
  ghost predicate Traceable(q: Query, rcs: seq<Connection>, overlay: seq<TripQueryData>, legs: seq<Leg>) {
    Reaching(q, rcs, legs) && AllUsable(overlay, legs) && InOrder(rcs, legs)
  }

  ghost predicate Starts(q: Query, rcs: seq<Connection>, overlay: seq<TripQueryData>, e: Connection) {
    e in rcs && exists legs: seq<Leg> :: StartsWith(q, rcs, overlay, e, legs)
  }

  ghost predicate StartsWith(q: Query, rcs: seq<Connection>, overlay: seq<TripQueryData>, e: Connection,
                             legs: seq<Leg>) {
    Traceable(q, rcs, overlay, legs) && legs[0].enter == e
  }

  // Alighting from x the traveller can still be taken to the destination.
  ghost predicate Lives(q: Query, rcs: seq<Connection>, overlay: seq<TripQueryData>, x: Connection) {
    && x in rcs && x.canUnboard && x.trip !in q.disabledTrips && x.trip < |overlay| && overlay[x.trip].usable
    && (Finishes(q, x) || exists e :: GoesOn(q, rcs, overlay, x, e))
  }

  ghost predicate GoesOn(q: Query, rcs: seq<Connection>, overlay: seq<TripQueryData>, x: Connection, e: Connection) {
    Starts(q, rcs, overlay, e) && Before(rcs, e, x) && Handoff(q, x, e)
  }

  ghost predicate SameUsable(overlay: seq<TripQueryData>, other: seq<TripQueryData>) {
    |overlay| == |other| && forall t: nat | t < |overlay| :: overlay[t].usable == other[t].usable
  }

  lemma StartsAlike(q: Query, rcs: seq<Connection>, overlay: seq<TripQueryData>, other: seq<TripQueryData>,
                    e: Connection)
    requires SameUsable(overlay, other)
    ensures Starts(q, rcs, overlay, e) <==> Starts(q, rcs, other, e)
  {
    forall legs ensures StartsWith(q, rcs, overlay, e, legs) <==> StartsWith(q, rcs, other, e, legs) {
      assert AllUsable(overlay, legs) <==> AllUsable(other, legs);
    }
  }

  lemma LivesAlike(q: Query, rcs: seq<Connection>, overlay: seq<TripQueryData>, other: seq<TripQueryData>,
                   x: Connection)
    requires SameUsable(overlay, other)
    ensures Lives(q, rcs, overlay, x) <==> Lives(q, rcs, other, x)
  {
    forall e ensures GoesOn(q, rcs, overlay, x, e) <==> GoesOn(q, rcs, other, x, e) {
      StartsAlike(q, rcs, overlay, other, e);
    }
  }

  lemma InOrderCons(rcs: seq<Connection>, l: Leg, legs: seq<Leg>)
    requires legs != [] && InOrder(rcs, legs) && Before(rcs, legs[0].enter, l.exit)
    ensures InOrder(rcs, [l] + legs)
  {
    var all := [l] + legs;
    forall k: nat | k + 1 < |all| ensures Before(rcs, all[k + 1].enter, all[k].exit) {
      if k > 0 { assert Before(rcs, legs[k - 1 + 1].enter, legs[k - 1].exit); }
    }
  }

  // A ride to a live exit starts a chain.
  lemma RideStarts(q: Query, rcs: seq<Connection>, overlay: seq<TripQueryData>, c: Connection, x: Connection)
    requires IsRide(q, rcs, c, x) && Lives(q, rcs, overlay, x)
    ensures Starts(q, rcs, overlay, c)
  {
    var l := Leg(c, x);
    if Finishes(q, x) {
      assert StartsWith(q, rcs, overlay, c, [l]);
    } else {
      var e :| GoesOn(q, rcs, overlay, x, e);
      var legs: seq<Leg> :| StartsWith(q, rcs, overlay, e, legs);
      ChainCons(q, rcs, l, legs);
      InOrderCons(rcs, l, legs);
      assert StartsWith(q, rcs, overlay, c, [l] + legs);
    }
  }

  // And every start is one.
  lemma StartRides(q: Query, rcs: seq<Connection>, overlay: seq<TripQueryData>, legs: seq<Leg>)
    requires Traceable(q, rcs, overlay, legs)
    ensures IsRide(q, rcs, legs[0].enter, legs[0].exit) && Lives(q, rcs, overlay, legs[0].exit)
  {
    var l := legs[0];
    assert l in legs && IsRide(q, rcs, l.enter, l.exit);
    if |legs| > 1 {
      TailTraceable(q, rcs, overlay, legs);
      assert StartsWith(q, rcs, overlay, legs[1].enter, legs[1..]);
      assert GoesOn(q, rcs, overlay, l.exit, legs[1].enter);
    }
  }

  lemma TailReaching(q: Query, rcs: seq<Connection>, legs: seq<Leg>)
    requires Reaching(q, rcs, legs) && |legs| > 1
    ensures Reaching(q, rcs, legs[1..]) && Handoff(q, legs[0].exit, legs[1].enter)
    ensures IsRide(q, rcs, legs[0].enter, legs[0].exit) && IsRide(q, rcs, legs[1].enter, legs[1].exit)
  {
    var tail := legs[1..];
    assert Handoff(q, legs[0].exit, legs[0 + 1].enter);
    assert IsRide(q, rcs, legs[0].enter, legs[0].exit) && IsRide(q, rcs, legs[1].enter, legs[1].exit);
    forall k: nat | k + 1 < |tail| ensures Handoff(q, tail[k].exit, tail[k + 1].enter) {
      assert Handoff(q, legs[k + 1].exit, legs[k + 1 + 1].enter);
    }
  }

  lemma TailTraceable(q: Query, rcs: seq<Connection>, overlay: seq<TripQueryData>, legs: seq<Leg>)
    requires Traceable(q, rcs, overlay, legs) && |legs| > 1
    ensures Traceable(q, rcs, overlay, legs[1..]) && Handoff(q, legs[0].exit, legs[1].enter)
    ensures Before(rcs, legs[1].enter, legs[0].exit)
  {
    TailReaching(q, rcs, legs);
    assert Before(rcs, legs[0 + 1].enter, legs[0].exit);
    forall k: nat | k + 1 < |legs[1..]| ensures Before(rcs, legs[1..][k + 1].enter, legs[1..][k].exit) {
      assert Before(rcs, legs[k + 1 + 1].enter, legs[k + 1].exit);
    }
  }

  // All rides of a chain are over by the arrival time less the shortest egress.
  lemma {:induction false} ReachingInTime(q: Query, rcs: seq<Connection>, legs: seq<Leg>)
    requires ValidReverse(q, rcs) && Reaching(q, rcs, legs)
    ensures legs[0].enter.arrivalTime <= legs[0].exit.arrivalTime <= q.arrivalTime - MinTime(q.egressFootpaths)
    ensures legs[0].exit.arrivalTime <= q.arrivalTime
    ensures legs[0].exit.arrivalTime <= Last(legs).exit.arrivalTime
    decreases |legs|
  {
    if |legs| > 1 {
      TailReaching(q, rcs, legs);
      RideTime(q, rcs, legs[0].enter, legs[0].exit);
      ReachingInTime(q, rcs, legs[1..]);
      HandoffTime(q, rcs, legs[0].exit, legs[1].enter);
      WaitNonNegative(q, rcs, legs[1].enter);
    } else {
      assert IsRide(q, rcs, legs[0].enter, legs[0].exit);
      RideTime(q, rcs, legs[0].enter, legs[0].exit);
      FinishTime(q, legs[0].exit);
    }
  }

  lemma FinishTime(q: Query, x: Connection)
    requires ValidQuery(q) && Finishes(q, x)
    ensures x.arrivalTime <= q.arrivalTime - MinTime(q.egressFootpaths) && x.arrivalTime <= q.arrivalTime
  {
    var w :| NodeTime(x.arrivalNode, w) in q.egressFootpaths && x.arrivalTime + w <= q.arrivalTime;
    assert 0 <= NodeTime(x.arrivalNode, w).time;
    assert MinTime(q.egressFootpaths) <= NodeTime(x.arrivalNode, w).time;
  }

  lemma LivesInTime(q: Query, rcs: seq<Connection>, overlay: seq<TripQueryData>, x: Connection)
    requires ValidReverse(q, rcs) && Lives(q, rcs, overlay, x)
    ensures x.arrivalTime <= q.arrivalTime - MinTime(q.egressFootpaths) && x.arrivalTime <= q.arrivalTime
  {
    if Finishes(q, x) {
      FinishTime(q, x);
    } else {
      var e :| GoesOn(q, rcs, overlay, x, e);
      var legs: seq<Leg> :| StartsWith(q, rcs, overlay, e, legs);
      ReachingInTime(q, rcs, legs);
      HandoffTime(q, rcs, x, e);
      WaitNonNegative(q, rcs, e);
    }
  }

  // With handoffs in scan order every chain of usable rides can be followed.
  lemma ReachingTraceable(q: Query, rcs: seq<Connection>, overlay: seq<TripQueryData>, legs: seq<Leg>)
    requires HandoffOrdered(q, rcs) && Reaching(q, rcs, legs) && AllUsable(overlay, legs)
    ensures Traceable(q, rcs, overlay, legs)
  {
    forall k: nat | k + 1 < |legs| ensures Before(rcs, legs[k + 1].enter, legs[k].exit) {
      assert IsRide(q, rcs, legs[k].enter, legs[k].exit) && IsRide(q, rcs, legs[k + 1].enter, legs[k + 1].exit);
      var x, e := legs[k].exit, legs[k + 1].enter;
      assert rcs[Pos(rcs, x)] == x && rcs[Pos(rcs, e)] == e;
    }
  }

  // ---- Completeness ---------------------------------------------------------

  ghost predicate Relaxed(q: Query, st: ReverseState, e: Connection)
    requires Sized(q, st) && Fits(q, e)
  {
    && (forall fp <- q.reverseTransfers[e.departureNode] :: fp.time <= q.maxTransferWalkingTime ==>
          st.time[fp.node] >= e.departureTime - fp.time - q.Wait(e))
    && (AccessAllowed(q, e) ==>
          && e.departureNode in st.accessSteps
          && st.accessSteps[e.departureNode].enter.departureTime >= e.departureTime - q.Wait(e))
  }

  ghost predicate ExitNoted(q: Query, rcs: seq<Connection>, st: ReverseState, j: nat)
    requires Sized(q, st) && j < |rcs| && Fits(q, rcs[j])
  {
    Lives(q, rcs, st.overlay, rcs[j]) ==> st.overlay[rcs[j].trip].exit.Some?
  }

  ghost predicate Covered(q: Query, rcs: seq<Connection>, st: ReverseState, j: nat)
    requires Sized(q, st) && j < |rcs| && Fits(q, rcs[j])
  {
    Starts(q, rcs, st.overlay, rcs[j]) ==> Relaxed(q, st, rcs[j])
  }

  ghost predicate Complete(q: Query, rcs: seq<Connection>, i: nat, st: ReverseState)
    requires forall c <- rcs :: Fits(q, c)
  {
    && i <= |rcs| && Sized(q, st)
    && (forall fp <- q.egressFootpaths :: fp.node < q.nodeCount ==> st.time[fp.node] >= q.arrivalTime - fp.time)
    && (forall j: nat | j < i :: ExitNoted(q, rcs, st, j))
    && (forall j: nat | j < i :: Covered(q, rcs, st, j))
  }

  // Every ride behind a label, an exit or an entry can be followed to the
  // destination, whatever the steps say by now.
  ghost predicate Backed(q: Query, rcs: seq<Connection>, st: ReverseState)
    requires Sized(q, st)
  {
    && (forall n: nat | n < q.nodeCount :: StepBacked(q, rcs, st, n))
    && (forall t: nat | t < q.tripCount :: ExitBacked(q, rcs, st, t))
    && (forall n | n in st.accessSteps :: Starts(q, rcs, st.overlay, st.accessSteps[n].enter))
  }

  ghost predicate StepBacked(q: Query, rcs: seq<Connection>, st: ReverseState, n: nat)
    requires Sized(q, st) && n < q.nodeCount
  {
    st.steps[n].Ride? ==> Starts(q, rcs, st.overlay, st.steps[n].enter)
  }

  ghost predicate ExitBacked(q: Query, rcs: seq<Connection>, st: ReverseState, t: nat)
    requires Sized(q, st) && t < q.tripCount
  {
    st.overlay[t].exit.Some? ==> Lives(q, rcs, st.overlay, st.overlay[t].exit.value)
  }

  ghost predicate NoteOk(q: Query, rcs: seq<Connection>, i: nat, st: ReverseState) {
    st.reachedAccess ==>
      exists c :: NotedBy(q, rcs, i, st, c)
  }

  // c, a boarding at an access node of the prefix, set the early-stopping bound.
  ghost predicate NotedBy(q: Query, rcs: seq<Connection>, i: nat, st: ReverseState, c: Connection) {
    && c in rcs && InPrefix(rcs, i, c) && c.canBoard && c.trip !in q.disabledTrips
    && c.departureNode in q.NodesAccess() && c.departureTime == st.tentativeAccessDeparture
    && Fits(q, c) && Sized(q, st) && Relaxed(q, st, c)
  }

  ghost predicate CountOk(st: ReverseState) {
    st.reachableCount == 0 ==> st.accessSteps == map[]
  }

  // Rides recorded so far arrive within the look-back from the target time.
  ghost predicate Recent(q: Query, st: ReverseState) {
    && (forall n: nat | n < |st.steps| && st.steps[n].Ride? ::
          q.arrivalTime - st.steps[n].enter.arrivalTime <= q.maxTotalTravelTime)
    && (forall n | n in st.accessSteps ::
          q.arrivalTime - st.accessSteps[n].enter.arrivalTime <= q.maxTotalTravelTime)
  }

  // Access entries move to later departures only.
  ghost predicate Delays(q: Query, st: ReverseState, r: ReverseState) {
    forall n | n in st.accessSteps ::
      n in r.accessSteps && r.accessSteps[n].enter.departureTime >= st.accessSteps[n].enter.departureTime
  }

  ghost predicate ChangedBy(q: Query, st: ReverseState, r: ReverseState, e: Connection, n: nat)
    requires Sized(q, st) && Sized(q, r) && n < q.nodeCount
  {
    r.time[n] == st.time[n] ||
    exists t :: Footpath(q, n, e.departureNode, t) && r.time[n] == e.departureTime - t - q.Wait(e)
  }

  ghost predicate Effect(q: Query, st: ReverseState, r: ReverseState, e: Connection)
    requires Sized(q, st) && Sized(q, r)
  {
    && (forall n: nat | n < q.nodeCount :: r.time[n] >= st.time[n])
    && (forall n: nat | n < q.nodeCount :: ChangedBy(q, st, r, e, n))
    && Delays(q, st, r)
    && (q.arrivalTime - e.arrivalTime <= q.maxTotalTravelTime && Recent(q, st) ==> Recent(q, r))
  }

  ghost predicate SameStops(st: ReverseState, r: ReverseState) {
    && r.overlay == st.overlay
    && r.reachedAccess == st.reachedAccess && r.tentativeAccessDeparture == st.tentativeAccessDeparture
  }

  lemma RelaxOneEffect(q: Query, st: ReverseState, e: Connection, x: Connection, fp: NodeTime)
    requires ValidTransfers(q) && Sized(q, st) && Fits(q, e) && fp in q.reverseTransfers[e.departureNode]
    requires 0 <= q.Wait(e)
    ensures var r := RelaxOne(q, st, e, x, fp);
            && Effect(q, st, r, e) && SameStops(st, r)
            && (fp.time <= q.maxTransferWalkingTime ==> r.time[fp.node] >= e.departureTime - fp.time - q.Wait(e))
            && (fp == NodeTime(e.departureNode, 0) && 0 <= q.maxTransferWalkingTime && AccessAllowed(q, e) ==>
                  e.departureNode in r.accessSteps &&
                  r.accessSteps[e.departureNode].enter.departureTime >= e.departureTime - q.Wait(e))
  {
    assert 0 <= fp.time;
    assert NodeTime(e.departureNode, fp.time) in q.transfers[fp.node] by {
      assert fp == NodeTime(fp.node, fp.time);
    }
    var r := RelaxOne(q, st, e, x, fp);
    forall n: nat | n < q.nodeCount ensures ChangedBy(q, st, r, e, n) {
      if r.time[n] != st.time[n] {
        assert Footpath(q, n, e.departureNode, fp.time);
      }
    }
  }

  lemma EffectTrans(q: Query, st: ReverseState, st1: ReverseState, r: ReverseState, e: Connection)
    requires Sized(q, st) && Sized(q, st1) && Sized(q, r)
    requires Effect(q, st, st1, e) && Effect(q, st1, r, e)
    ensures Effect(q, st, r, e)
  {
    forall n: nat | n < q.nodeCount ensures ChangedBy(q, st, r, e, n) {
      assert ChangedBy(q, st, st1, e, n) && ChangedBy(q, st1, r, e, n);
    }
  }

  lemma {:induction false} RelaxEffect(q: Query, st: ReverseState, e: Connection, x: Connection, fps: seq<NodeTime>)
    requires ValidTransfers(q) && Sized(q, st) && Fits(q, e) && 0 <= q.maxTransferWalkingTime && 0 <= q.Wait(e)
    requires forall fp <- fps :: fp in q.reverseTransfers[e.departureNode]
    ensures var r := Relax(q, st, e, x, fps);
            && Effect(q, st, r, e) && SameStops(st, r)
            && (forall fp <- fps :: fp.time <= q.maxTransferWalkingTime ==>
                  r.time[fp.node] >= e.departureTime - fp.time - q.Wait(e))
            && (NodeTime(e.departureNode, 0) in fps && AccessAllowed(q, e) ==>
                  e.departureNode in r.accessSteps &&
                  r.accessSteps[e.departureNode].enter.departureTime >= e.departureTime - q.Wait(e))
    decreases |fps|
  {
    if fps != [] {
      var st1 := RelaxOne(q, st, e, x, fps[0]);
      RelaxOneEffect(q, st, e, x, fps[0]);
      RelaxEffect(q, st1, e, x, fps[1..]);
      EffectTrans(q, st, st1, Relax(q, st, e, x, fps), e);
    }
  }

  lemma BoardedEffect(q: Query, st: ReverseState, c: Connection)
    requires ValidTransfers(q) && Sized(q, st) && Fits(q, c) && 0 <= q.maxTransferWalkingTime && 0 <= q.Wait(c)
    ensures var r := Boarded(q, st, c);
            && Effect(q, st, r, c) && r.overlay == st.overlay
            && (c.canBoard && st.overlay[c.trip].exit.Some? ==> Relaxed(q, r, c))
            && (!c.canBoard ==> r.time == st.time)
  {
    if c.canBoard && st.overlay[c.trip].exit.Some? {
      var st1 := NoteAccess(q, st, c);
      RelaxEffect(q, st1, c, st1.overlay[c.trip].exit.value, q.reverseTransfers[c.departureNode]);
      assert NodeTime(c.departureNode, 0) in q.transfers[c.departureNode];
      assert NodeTime(c.departureNode, 0) in q.reverseTransfers[c.departureNode];
      EffectTrans(q, st, st1, Boarded(q, st, c), c);
    }
  }

  ghost predicate TripsKept(q: Query, st: ReverseState, r: ReverseState)
    requires Sized(q, st) && Sized(q, r)
  {
    forall t: nat | t < q.tripCount ::
      r.overlay[t].usable == st.overlay[t].usable && (st.overlay[t].exit.Some? ==> r.overlay[t].exit.Some?)
  }

  // What one iteration does, seen from the labels.
  lemma ProcessEffect(q: Query, st: ReverseState, c: Connection, single: bool)
    requires ValidTransfers(q) && Sized(q, st) && Fits(q, c) && 0 <= q.maxTransferWalkingTime && 0 <= q.Wait(c)
    ensures var r := Process(q, st, c, single);
            && Effect(q, st, r, c) && TripsKept(q, st, r)
            && (!c.canBoard ==> r.time == st.time)
            && (Scanned(q, st, c, single) && Reachable(q, st, c) && c.canUnboard ==> r.overlay[c.trip].exit.Some?)
            && (Scanned(q, st, c, single) && Reachable(q, st, c) && c.canBoard && r.overlay[c.trip].exit.Some? ==>
                  Relaxed(q, r, c))
  {
    if Scanned(q, st, c, single) && Reachable(q, st, c) {
      var st1 := ExitChosen(q, st, c);
      BoardedEffect(q, st1, c);
      EffectOnLabels(q, st, st1, Boarded(q, st1, c), Process(q, st, c, single), c);
    }
  }

  // Choosing an exit changes the overlay only, counting changes the count only.
  lemma EffectOnLabels(q: Query, st: ReverseState, st1: ReverseState, r1: ReverseState, r: ReverseState, e: Connection)
    requires Sized(q, st) && Sized(q, st1) && Sized(q, r1) && Sized(q, r) && Effect(q, st1, r1, e)
    requires st1 == st.(overlay := st1.overlay) && r == r1.(reachableCount := r.reachableCount)
    ensures Effect(q, st, r, e)
  {
    forall n: nat | n < q.nodeCount ensures ChangedBy(q, st, r, e, n) {
      assert ChangedBy(q, st1, r1, e, n);
    }
  }

  lemma WaitNonNegative(q: Query, rcs: seq<Connection>, c: Connection)
    requires ValidQuery(q) && ValidConnections(q, rcs) && c in rcs
    ensures 0 <= q.Wait(c) && 0 <= c.departureTime <= c.arrivalTime
  {
    assert ValidConnection(q, c);
  }

  lemma RelaxedKept(q: Query, st: ReverseState, r: ReverseState, c: Connection, e: Connection)
    requires Sized(q, st) && Sized(q, r) && Fits(q, c) && Relaxed(q, st, c) && Effect(q, st, r, e)
    ensures Relaxed(q, r, c)
  {
  }

  // From a live exit the label of its node was set by what was scanned before.
  lemma LivesContinues(q: Query, rcs: seq<Connection>, i: nat, st: ReverseState, x: Connection)
    requires ValidReverse(q, rcs) && Complete(q, rcs, i, st) && Lives(q, rcs, st.overlay, x) && Pos(rcs, x) <= i
    ensures Continues(q, st, x)
  {
    assert Fits(q, x);
    if !Finishes(q, x) {
      var e :| GoesOn(q, rcs, st.overlay, x, e);
      assert Covered(q, rcs, st, Pos(rcs, e));
      HandoffContinues(q, st, x, e);
    }
  }

  lemma LiveExitNoted(q: Query, rcs: seq<Connection>, i: nat, st: ReverseState, single: bool)
    requires ValidReverse(q, rcs) && i < |rcs| && Complete(q, rcs, i, st) && Fits(q, rcs[i])
    requires Lives(q, rcs, st.overlay, rcs[i])
    ensures Scanned(q, st, rcs[i], single) && Reachable(q, st, rcs[i])
    ensures Process(q, st, rcs[i], single).overlay[rcs[i].trip].exit.Some?
  {
    PosAt(rcs, i);
    WaitNonNegative(q, rcs, rcs[i]);
    LivesInTime(q, rcs, st.overlay, rcs[i]);
    LivesContinues(q, rcs, i, st, rcs[i]);
    ProcessEffect(q, st, rcs[i], single);
  }

  lemma StartRelaxed(q: Query, rcs: seq<Connection>, i: nat, st: ReverseState, single: bool)
    requires ValidReverse(q, rcs) && i < |rcs| && Complete(q, rcs, i, st) && Fits(q, rcs[i])
    requires Starts(q, rcs, st.overlay, rcs[i])
    ensures Relaxed(q, Process(q, st, rcs[i], single), rcs[i])
  {
    var c := rcs[i];
    PosAt(rcs, i);
    WaitNonNegative(q, rcs, c);
    var legs: seq<Leg> :| StartsWith(q, rcs, st.overlay, c, legs);
    StartRides(q, rcs, st.overlay, legs);
    ReachingInTime(q, rcs, legs);
    var x := legs[0].exit;
    RideTime(q, rcs, c, x);
    if x == c { LiveExitNoted(q, rcs, i, st, single); } else { ExitBefore(q, rcs, i, st, x); }
    ProcessEffect(q, st, c, single);
  }

  lemma ExitBefore(q: Query, rcs: seq<Connection>, i: nat, st: ReverseState, x: Connection)
    requires ValidReverse(q, rcs) && i < |rcs| && Complete(q, rcs, i, st)
    requires Lives(q, rcs, st.overlay, x) && Pos(rcs, x) <= i && x != rcs[i]
    ensures x.trip < q.tripCount && st.overlay[x.trip].exit.Some?
  {
    assert Fits(q, x);
    assert ExitNoted(q, rcs, st, Pos(rcs, x));
  }

  lemma ExitNotedKept(q: Query, rcs: seq<Connection>, i: nat, j: nat, st: ReverseState, single: bool)
    requires ValidReverse(q, rcs) && j <= i < |rcs| && Complete(q, rcs, i, st) && Fits(q, rcs[i]) && Fits(q, rcs[j])
    ensures ExitNoted(q, rcs, Process(q, st, rcs[i], single), j)
  {
    var r := Process(q, st, rcs[i], single);
    WaitNonNegative(q, rcs, rcs[i]);
    ProcessEffect(q, st, rcs[i], single);
    LivesAlike(q, rcs, st.overlay, r.overlay, rcs[j]);
    if j < i {
      assert ExitNoted(q, rcs, st, j);
    } else if Lives(q, rcs, st.overlay, rcs[i]) {
      LiveExitNoted(q, rcs, i, st, single);
    }
  }

  lemma CoveredKept(q: Query, rcs: seq<Connection>, i: nat, j: nat, st: ReverseState, single: bool)
    requires ValidReverse(q, rcs) && j <= i < |rcs| && Complete(q, rcs, i, st) && Fits(q, rcs[i]) && Fits(q, rcs[j])
    ensures Covered(q, rcs, Process(q, st, rcs[i], single), j)
  {
    var r := Process(q, st, rcs[i], single);
    WaitNonNegative(q, rcs, rcs[i]);
    ProcessEffect(q, st, rcs[i], single);
    StartsAlike(q, rcs, st.overlay, r.overlay, rcs[j]);
    if j < i {
      assert Covered(q, rcs, st, j);
      if Relaxed(q, st, rcs[j]) { RelaxedKept(q, st, r, rcs[j], rcs[i]); }
    } else if Starts(q, rcs, st.overlay, rcs[i]) {
      StartRelaxed(q, rcs, i, st, single);
    }
  }

  lemma ProcessComplete(q: Query, rcs: seq<Connection>, i: nat, st: ReverseState, single: bool)
    requires ValidReverse(q, rcs) && i < |rcs| && Complete(q, rcs, i, st)
    ensures Complete(q, rcs, i + 1, Process(q, st, rcs[i], single))
  {
    var e, next := rcs[i], i + 1;
    assert e in rcs;
    WaitNonNegative(q, rcs, e);
    ProcessEffect(q, st, e, single);
    forall j: nat | j < next ensures ExitNoted(q, rcs, Process(q, st, e, single), j) {
      ExitNotedKept(q, rcs, i, j, st, single);
    }
    forall j: nat | j < next ensures Covered(q, rcs, Process(q, st, e, single), j) {
      CoveredKept(q, rcs, i, j, st, single);
    }
  }

  // ---- What is recorded can be followed ---------------------------------------

  // An exit whose node's label allows it is live.
  lemma LabelLives(q: Query, rcs: seq<Connection>, i: nat, st: ReverseState, x: Connection)
    requires ValidReverse(q, rcs) && Sound(q, rcs, i, st) && Backed(q, rcs, st)
    requires x in rcs && i <= Pos(rcs, x) && x.canUnboard && x.trip !in q.disabledTrips
    requires Fits(q, x) && st.overlay[x.trip].usable && x.arrivalTime <= st.time[x.arrivalNode]
    ensures Lives(q, rcs, st.overlay, x)
  {
    var n := x.arrivalNode;
    assert StepOk(q, rcs, i, st, n) && StepBacked(q, rcs, st, n);
    WaitNonNegative(q, rcs, x);
    match st.steps[n]
    case Walk(_) =>
      assert NodeTime(n, q.NodesEgress()[n]) in q.egressFootpaths;
    case Ride(e, _, f) =>
      assert Handoff(q, x, e);
      assert GoesOn(q, rcs, st.overlay, x, e);
  }

  // Overlays with the same usable trips, all else as before.
  lemma BackedIgnores(q: Query, rcs: seq<Connection>, st: ReverseState, r: ReverseState)
    requires Sized(q, st) && Sized(q, r) && Backed(q, rcs, st) && SameUsable(st.overlay, r.overlay)
    requires r.steps == st.steps && r.accessSteps == st.accessSteps
    requires forall t: nat | t < q.tripCount :: r.overlay[t].exit == st.overlay[t].exit || ExitBacked(q, rcs, r, t)
    ensures Backed(q, rcs, r)
  {
    forall n: nat | n < q.nodeCount ensures StepBacked(q, rcs, r, n) {
      assert StepBacked(q, rcs, st, n);
      if r.steps[n].Ride? { StartsAlike(q, rcs, st.overlay, r.overlay, r.steps[n].enter); }
    }
    forall t: nat | t < q.tripCount ensures ExitBacked(q, rcs, r, t) {
      assert ExitBacked(q, rcs, st, t);
      if r.overlay[t].exit.Some? { LivesAlike(q, rcs, st.overlay, r.overlay, r.overlay[t].exit.value); }
    }
    forall n | n in r.accessSteps ensures Starts(q, rcs, r.overlay, r.accessSteps[n].enter) {
      StartsAlike(q, rcs, st.overlay, r.overlay, r.accessSteps[n].enter);
    }
  }

  lemma RelaxOneBacked(q: Query, rcs: seq<Connection>, st: ReverseState, c: Connection, x: Connection, fp: NodeTime)
    requires Sized(q, st) && Backed(q, rcs, st) && Starts(q, rcs, st.overlay, c) && fp.node < q.nodeCount
    ensures Backed(q, rcs, RelaxOne(q, st, c, x, fp)) && RelaxOne(q, st, c, x, fp).overlay == st.overlay
  {
    var r := RelaxOne(q, st, c, x, fp);
    forall n: nat | n < q.nodeCount ensures StepBacked(q, rcs, r, n) { assert StepBacked(q, rcs, st, n); }
    forall t: nat | t < q.tripCount ensures ExitBacked(q, rcs, r, t) { assert ExitBacked(q, rcs, st, t); }
  }

  lemma {:induction false} RelaxBacked(q: Query, rcs: seq<Connection>, st: ReverseState, c: Connection, x: Connection,
                                       fps: seq<NodeTime>)
    requires Sized(q, st) && Backed(q, rcs, st) && Starts(q, rcs, st.overlay, c)
    requires forall fp <- fps :: fp.node < q.nodeCount
    ensures Backed(q, rcs, Relax(q, st, c, x, fps))
    decreases |fps|
  {
    if fps != [] {
      RelaxOneBacked(q, rcs, st, c, x, fps[0]);
      RelaxBacked(q, rcs, RelaxOne(q, st, c, x, fps[0]), c, x, fps[1..]);
    }
  }

  // The exit taken at position i is live.
  lemma ExitTakenLives(q: Query, rcs: seq<Connection>, i: nat, st: ReverseState, single: bool)
    requires ValidReverse(q, rcs) && i < |rcs| && Sound(q, rcs, i, st) && Backed(q, rcs, st) && Fits(q, rcs[i])
    requires Scanned(q, st, rcs[i], single) && Reachable(q, st, rcs[i])
    requires rcs[i].canUnboard && TakesExit(q, st, rcs[i])
    ensures Lives(q, rcs, st.overlay, rcs[i])
  {
    var c := rcs[i];
    PosAt(rcs, i);
    var step := st.steps[c.arrivalNode];
    assert StepOk(q, rcs, i, st, c.arrivalNode);
    if step.Ride? { WaitNonNegative(q, rcs, step.enter); }
    LabelLives(q, rcs, i, st, c);
  }

  lemma ExitChosenBacked(q: Query, rcs: seq<Connection>, i: nat, st: ReverseState, single: bool)
    requires ValidReverse(q, rcs) && i < |rcs| && Sound(q, rcs, i, st) && Backed(q, rcs, st) && Fits(q, rcs[i])
    requires Scanned(q, st, rcs[i], single) && Reachable(q, st, rcs[i])
    ensures Backed(q, rcs, ExitChosen(q, st, rcs[i])) && SameUsable(st.overlay, ExitChosen(q, st, rcs[i]).overlay)
  {
    var c, r := rcs[i], ExitChosen(q, st, rcs[i]);
    if c.canUnboard && TakesExit(q, st, c) {
      ExitTakenLives(q, rcs, i, st, single);
      LivesAlike(q, rcs, st.overlay, r.overlay, c);
      assert ExitBacked(q, rcs, r, c.trip);
    }
    BackedIgnores(q, rcs, st, r);
  }

  // The boarding at position i, to the exit its trip has by then, starts a chain.
  lemma BoardingStarts(q: Query, rcs: seq<Connection>, i: nat, st: ReverseState, single: bool)
    requires ValidReverse(q, rcs) && i < |rcs| && Sound(q, rcs, i, st) && Backed(q, rcs, st) && Fits(q, rcs[i])
    requires Scanned(q, st, rcs[i], single) && Reachable(q, st, rcs[i]) && rcs[i].canBoard
    requires ExitChosen(q, st, rcs[i]).overlay[rcs[i].trip].exit.Some?
    ensures Starts(q, rcs, ExitChosen(q, st, rcs[i]).overlay, rcs[i])
  {
    var c, r := rcs[i], ExitChosen(q, st, rcs[i]);
    PosAt(rcs, i);
    ExitChosenBacked(q, rcs, i, st, single);
    assert TripOk(q, rcs, i, st, c.trip) && ExitBacked(q, rcs, r, c.trip);
    var x := r.overlay[c.trip].exit.value;
    TripOrder(rcs, c, x);
    RideStarts(q, rcs, r.overlay, c, x);
  }

  lemma ProcessBacked(q: Query, rcs: seq<Connection>, i: nat, st: ReverseState, single: bool)
    requires ValidReverse(q, rcs) && i < |rcs| && Sound(q, rcs, i, st) && Backed(q, rcs, st) && Fits(q, rcs[i])
    ensures Backed(q, rcs, Process(q, st, rcs[i], single))
  {
    var c := rcs[i];
    if Scanned(q, st, c, single) && Reachable(q, st, c) {
      var st1 := ExitChosen(q, st, c);
      ExitChosenBacked(q, rcs, i, st, single);
      if c.canBoard && st1.overlay[c.trip].exit.Some? { BoardingStarts(q, rcs, i, st, single); }
      BoardedBacked(q, rcs, st1, c);
      CountBacked(q, rcs, Boarded(q, st1, c), Process(q, st, c, single));
    }
  }

  lemma BoardedBacked(q: Query, rcs: seq<Connection>, st: ReverseState, c: Connection)
    requires Sized(q, st) && Fits(q, c) && Backed(q, rcs, st)
    requires c.canBoard && st.overlay[c.trip].exit.Some? ==> Starts(q, rcs, st.overlay, c)
    ensures Backed(q, rcs, Boarded(q, st, c))
  {
    if c.canBoard && st.overlay[c.trip].exit.Some? {
      var st1 := NoteAccess(q, st, c);
      BackedIgnores(q, rcs, st, st1);
      RelaxBacked(q, rcs, st1, c, st.overlay[c.trip].exit.value, q.reverseTransfers[c.departureNode]);
    }
  }

  lemma CountBacked(q: Query, rcs: seq<Connection>, st: ReverseState, r: ReverseState)
    requires Sized(q, st) && Backed(q, rcs, st) && r == st.(reachableCount := r.reachableCount)
    ensures Backed(q, rcs, r)
  {
    BackedIgnores(q, rcs, st, r);
  }

  lemma ProcessNotes(q: Query, rcs: seq<Connection>, i: nat, st: ReverseState, single: bool)
    requires ValidReverse(q, rcs) && i < |rcs| && Sized(q, st)
    requires NoteOk(q, rcs, i, st) && CountOk(st)
    ensures NoteOk(q, rcs, i + 1, Process(q, st, rcs[i], single)) && CountOk(Process(q, st, rcs[i], single))
  {
    var e := rcs[i];
    assert e in rcs;
    PosAt(rcs, i);
    WaitNonNegative(q, rcs, e);
    ProcessEffect(q, st, e, single);
    var r := Process(q, st, e, single);
    if st.reachedAccess {
      var c :| NotedBy(q, rcs, i, st, c);
      RelaxedKept(q, st, r, c, e);
      KeepsNote(q, st, e, single);
      assert NotedBy(q, rcs, i + 1, r, c);
    } else {
      KeepsNote(q, st, e, single);
      if r.reachedAccess {
        assert NotedBy(q, rcs, i + 1, r, e);
      }
    }
  }

  lemma KeepsNote(q: Query, st: ReverseState, c: Connection, single: bool)
    requires ValidTransfers(q) && Sized(q, st) && Fits(q, c) && 0 <= q.maxTransferWalkingTime && 0 <= q.Wait(c)
    ensures var r := Process(q, st, c, single);
            if st.reachedAccess then r.reachedAccess && r.tentativeAccessDeparture == st.tentativeAccessDeparture
            else r.reachedAccess ==>
              && Scanned(q, st, c, single) && Reachable(q, st, c) && c.canBoard && r.overlay[c.trip].exit.Some?
              && c.departureNode in q.NodesAccess() && r.tentativeAccessDeparture == c.departureTime
  {
    if Scanned(q, st, c, single) && Reachable(q, st, c) {
      var st1 := ExitChosen(q, st, c);
      if c.canBoard && st1.overlay[c.trip].exit.Some? {
        RelaxEffect(q, NoteAccess(q, st1, c), c, st1.overlay[c.trip].exit.value, q.reverseTransfers[c.departureNode]);
      }
    }
  }

  // ---- The whole scan -------------------------------------------------------

  ghost predicate Invariant(q: Query, rcs: seq<Connection>, i: nat, st: ReverseState, single: bool)
    requires forall c <- rcs :: Fits(q, c)
  {
    Whole(Kept(q, rcs, i, st, single))
  }

  ghost predicate Kept(q: Query, rcs: seq<Connection>, i: nat, st: ReverseState, single: bool)
    requires forall c <- rcs :: Fits(q, c)
  {
    && Sound(q, rcs, i, st)
    && Recent(q, st) && NoteOk(q, rcs, i, st) && CountOk(st)
    && Complete(q, rcs, i, st) && Backed(q, rcs, st)
  }

  lemma InitialInvariant(q: Query, rcs: seq<Connection>, overlay: seq<TripQueryData>, single: bool)
    requires ValidReverse(q, rcs) && |overlay| == q.tripCount && NoExits(overlay)
    ensures Invariant(q, rcs, 0, Initial(q, overlay), single)
  {
    InitialSound(q, rcs, overlay);
    forall fp <- q.egressFootpaths
      ensures fp.node < q.nodeCount ==> Initial(q, overlay).time[fp.node] >= q.arrivalTime - fp.time
    {
      assert NodeTime(fp.node, q.NodesEgress()[fp.node]) in q.egressFootpaths;
    }
  }

  lemma ProcessRecent(q: Query, st: ReverseState, c: Connection, single: bool)
    requires ValidTransfers(q) && Sized(q, st) && Fits(q, c) && 0 <= q.maxTransferWalkingTime && 0 <= q.Wait(c)
    requires !Stops(q, st, c, single) && Recent(q, st)
    ensures Recent(q, Process(q, st, c, single))
  {
    if Scanned(q, st, c, single) { ProcessEffect(q, st, c, single); }
  }

  lemma ProcessKeeps(q: Query, rcs: seq<Connection>, i: nat, st: ReverseState, single: bool)
    requires ValidReverse(q, rcs) && i < |rcs| && Invariant(q, rcs, i, st, single)
    requires Fits(q, rcs[i]) && !Stops(q, st, rcs[i], single)
    ensures Invariant(q, rcs, i + 1, Process(q, st, rcs[i], single), single)
    ensures Raises(q, st, Process(q, st, rcs[i], single))
  {
    assert rcs[i] in rcs;
    WaitNonNegative(q, rcs, rcs[i]);
    ProcessSound(q, rcs, i, st, single);
    ProcessRecent(q, st, rcs[i], single);
    ProcessNotes(q, rcs, i, st, single);
    ProcessComplete(q, rcs, i, st, single);
    ProcessBacked(q, rcs, i, st, single);
  }

  lemma RaisesTrans(q: Query, st: ReverseState, st1: ReverseState, r: ReverseState)
    requires Sized(q, st) && Sized(q, st1) && Sized(q, r) && Raises(q, st, st1) && Raises(q, st1, r)
    ensures Raises(q, st, r)
  {
  }

  lemma {:induction false} ScanInvariant(q: Query, rcs: seq<Connection>, i: nat, st: ReverseState, single: bool)
    returns (k: nat)
    requires ValidReverse(q, rcs) && i <= |rcs| && Invariant(q, rcs, i, st, single)
    ensures i <= k <= |rcs| && Invariant(q, rcs, k, Scan(q, rcs, i, st, single), single)
    ensures k < |rcs| ==> Fits(q, rcs[k]) && Stops(q, Scan(q, rcs, i, st, single), rcs[k], single)
    ensures Raises(q, st, Scan(q, rcs, i, st, single))
    decreases |rcs| - i
  {
    if i == |rcs| || Stops(q, st, rcs[i], single) {
      k := i;
      if i < |rcs| { assert rcs[i] in rcs; }
    } else {
      assert rcs[i] in rcs;
      ProcessKeeps(q, rcs, i, st, single);
      k := ScanInvariant(q, rcs, i + 1, Process(q, st, rcs[i], single), single);
      RaisesTrans(q, st, Process(q, st, rcs[i], single), Scan(q, rcs, i, st, single));
    }
  }

  // ---- Following the steps ----------------------------------------------------

  // From a live exit, either the destination is a walk away or the next step's
  // ride can be boarded, and it was scanned earlier.
  lemma NextStep(q: Query, rcs: seq<Connection>, i: nat, st: ReverseState, x: Connection)
    requires ValidReverse(q, rcs) && HandoffOrdered(q, rcs) && Sound(q, rcs, i, st)
    requires x in rcs && x.canUnboard && Continues(q, st, x)
    ensures var s := st.steps[x.arrivalNode];
            if s.Walk? then x.arrivalNode in q.NodesEgress()
                && x.arrivalTime + q.NodesEgress()[x.arrivalNode] <= q.arrivalTime
            else RidesTo(q, rcs, i, st, s) && Pos(rcs, s.enter) < Pos(rcs, x) && Handoff(q, x, s.enter)
                 && Footpath(q, x.arrivalNode, s.enter.departureNode, s.transferTime)
                 && x.arrivalTime + s.transferTime + q.Wait(s.enter) <= s.enter.departureTime
  {
    assert StepOk(q, rcs, i, st, x.arrivalNode);
    WaitNonNegative(q, rcs, x);
    var s := st.steps[x.arrivalNode];
    if s.Ride? {
      assert Handoff(q, x, s.enter);
      assert rcs[Pos(rcs, x)] == x && rcs[Pos(rcs, s.enter)] == s.enter;
    }
  }

  // The legs obtained by following the steps from s: each ride's exit node
  // holds the step to continue with.
  ghost function LegsFrom(q: Query, rcs: seq<Connection>, i: nat, st: ReverseState, s: JourneyStep): (legs: seq<Leg>)
    requires ValidReverse(q, rcs) && HandoffOrdered(q, rcs) && Sound(q, rcs, i, st) && RidesTo(q, rcs, i, st, s)
    ensures legs != [] && legs[0] == Leg(s.enter, s.exit)
    decreases Pos(rcs, s.enter)
  {
    NextStep(q, rcs, i, st, s.exit);
    TripOrder(rcs, s.enter, s.exit);
    var next := st.steps[s.exit.arrivalNode];
    [Leg(s.enter, s.exit)] + if next.Walk? then [] else LegsFrom(q, rcs, i, st, next)
  }

  lemma ChainCons(q: Query, cs: seq<Connection>, l: Leg, legs: seq<Leg>)
    requires legs != [] && Chain(q, cs, legs) && IsRide(q, cs, l.enter, l.exit) && Handoff(q, l.exit, legs[0].enter)
    ensures Chain(q, cs, [l] + legs) && Last([l] + legs) == Last(legs)
  {
    var all := [l] + legs;
    forall k: nat | k + 1 < |all| ensures Handoff(q, all[k].exit, all[k + 1].enter) {
      if k > 0 { assert all[k] == legs[k - 1] && all[k + 1] == legs[k - 1 + 1]; }
    }
  }

  // Feasibility: following the steps gives a feasible chain of usable trips
  // that is at the destination in time.
  lemma {:induction false} LegsFromReaching(q: Query, rcs: seq<Connection>, i: nat, st: ReverseState, s: JourneyStep)
    requires ValidReverse(q, rcs) && HandoffOrdered(q, rcs) && Sound(q, rcs, i, st) && RidesTo(q, rcs, i, st, s)
    ensures Reaching(q, rcs, LegsFrom(q, rcs, i, st, s))
    ensures AllUsable(st.overlay, LegsFrom(q, rcs, i, st, s))
    decreases Pos(rcs, s.enter)
  {
    NextStep(q, rcs, i, st, s.exit);
    TripOrder(rcs, s.enter, s.exit);
    var next := st.steps[s.exit.arrivalNode];
    if next.Walk? {
      assert NodeTime(s.exit.arrivalNode, q.NodesEgress()[s.exit.arrivalNode]) in q.egressFootpaths;
      assert LegsFrom(q, rcs, i, st, s) == [Leg(s.enter, s.exit)];
    } else {
      LegsFromReaching(q, rcs, i, st, next);
      ChainCons(q, rcs, Leg(s.enter, s.exit), LegsFrom(q, rcs, i, st, next));
    }
  }

  // The step held by leg m's exit node is the ride of leg m + 1.
  ghost predicate ContinuesWith(st: ReverseState, legs: seq<Leg>, m: nat)
    requires m + 1 < |legs|
  {
    var n := legs[m].exit.arrivalNode;
    n < |st.steps| && st.steps[n].Ride? && legs[m + 1] == Leg(st.steps[n].enter, st.steps[n].exit)
  }

  // legs is what following the steps from s visits: every exit node holds the
  // next ride, the last one holds none.
  ghost predicate Follows(st: ReverseState, s: JourneyStep, legs: seq<Leg>) {
    && s.Ride? && legs != [] && legs[0] == Leg(s.enter, s.exit)
    && (forall m: nat | m + 1 < |legs| :: ContinuesWith(st, legs, m))
    && Last(legs).exit.arrivalNode < |st.steps| && st.steps[Last(legs).exit.arrivalNode].Walk?
  }

  lemma FollowsCons(st: ReverseState, s: JourneyStep, legs: seq<Leg>)
    requires s.Ride? && s.exit.arrivalNode < |st.steps| && Follows(st, st.steps[s.exit.arrivalNode], legs)
    ensures Follows(st, s, [Leg(s.enter, s.exit)] + legs)
  {
    var all := [Leg(s.enter, s.exit)] + legs;
    assert Last(all) == Last(legs);
    forall m: nat | m + 1 < |all| ensures ContinuesWith(st, all, m) {
      if m > 0 { assert ContinuesWith(st, legs, m - 1); }
    }
  }

  lemma {:induction false} LegsFromFollows(q: Query, rcs: seq<Connection>, i: nat, st: ReverseState, s: JourneyStep)
    requires ValidReverse(q, rcs) && HandoffOrdered(q, rcs) && Sound(q, rcs, i, st) && RidesTo(q, rcs, i, st, s)
    ensures Follows(st, s, LegsFrom(q, rcs, i, st, s))
    decreases Pos(rcs, s.enter)
  {
    NextStep(q, rcs, i, st, s.exit);
    TripOrder(rcs, s.enter, s.exit);
    var next := st.steps[s.exit.arrivalNode];
    if next.Walk? {
      assert LegsFrom(q, rcs, i, st, s) == [Leg(s.enter, s.exit)];
    } else {
      LegsFromFollows(q, rcs, i, st, next);
      FollowsCons(st, s, LegsFrom(q, rcs, i, st, next));
    }
  }

  // ---- From chains to labels ------------------------------------------------

  lemma HandoffTime(q: Query, rcs: seq<Connection>, x: Connection, e: Connection)
    requires ValidQuery(q) && ValidConnections(q, rcs) && x in rcs && e in rcs && Handoff(q, x, e)
    ensures x.arrivalTime <= e.departureTime - q.Wait(e) <= e.departureTime
  {
    assert ValidConnection(q, x) && ValidConnection(q, e);
    var t :| Footpath(q, x.arrivalNode, e.departureNode, t) && x.arrivalTime + t + q.Wait(e) <= e.departureTime;
    assert NodeTime(e.departureNode, t) in q.transfers[x.arrivalNode];
  }

  lemma RideTime(q: Query, rcs: seq<Connection>, e: Connection, x: Connection)
    requires ValidReverse(q, rcs) && IsRide(q, rcs, e, x)
    ensures Pos(rcs, x) <= Pos(rcs, e) && 0 <= e.departureTime <= e.arrivalTime <= x.arrivalTime
  {
    TripOrder(rcs, e, x);
    SortedAt(rcs, Pos(rcs, x), e);
    WaitNonNegative(q, rcs, e);
  }

  lemma HandoffContinues(q: Query, st: ReverseState, x: Connection, e: Connection)
    requires ValidTransfers(q) && Sized(q, st) && Fits(q, x) && Fits(q, e) && Relaxed(q, st, e) && Handoff(q, x, e)
    ensures Continues(q, st, x)
  {
    var t :| Footpath(q, x.arrivalNode, e.departureNode, t) && x.arrivalTime + t + q.Wait(e) <= e.departureTime;
    assert NodeTime(x.arrivalNode, t) in q.reverseTransfers[e.departureNode];
    assert NodeTime(x.arrivalNode, t).time <= q.maxTransferWalkingTime;
  }

  // Every chain the scan can follow whose first boarding precedes position k has
  // been followed up to that boarding.
  lemma ReachingFollowed(q: Query, rcs: seq<Connection>, k: nat, st: ReverseState, legs: seq<Leg>)
    requires ValidReverse(q, rcs) && Complete(q, rcs, k, st)
    requires Traceable(q, rcs, st.overlay, legs) && InPrefix(rcs, k, legs[0].enter)
    ensures Fits(q, legs[0].enter) && Relaxed(q, st, legs[0].enter)
  {
    assert StartsWith(q, rcs, st.overlay, legs[0].enter, legs);
    assert Covered(q, rcs, st, Pos(rcs, legs[0].enter));
  }

  // ---- Main results: all nodes ----------------------------------------------

  // Leaving node n at time t still reaches the destination in time: on foot, or
  // by a chain of usable trips that does not look back too far.
  ghost predicate CanLeaveAt(q: Query, rcs: seq<Connection>, overlay: seq<TripQueryData>, n: nat, t: int) {
    || (exists w :: NodeTime(n, w) in q.egressFootpaths && t == q.arrivalTime - w)
    || (exists legs: seq<Leg>, f: int :: LeavesAt(q, rcs, overlay, legs, n, f, t))
  }

  ghost predicate LeavesAt(q: Query, rcs: seq<Connection>, overlay: seq<TripQueryData>, legs: seq<Leg>, n: nat,
                           f: int, t: int) {
    LeavesBy(q, rcs, overlay, legs, n, f) && t == legs[0].enter.departureTime - f - q.Wait(legs[0].enter)
  }

  ghost predicate LeavesBy(q: Query, rcs: seq<Connection>, overlay: seq<TripQueryData>, legs: seq<Leg>, n: nat,
                           f: int) {
    && Reaching(q, rcs, legs) && AllUsable(overlay, legs)
    && Footpath(q, n, legs[0].enter.departureNode, f)
    && q.arrivalTime - legs[0].enter.arrivalTime <= q.maxTotalTravelTime
  }

  ghost predicate LatestLeave(q: Query, rcs: seq<Connection>, overlay: seq<TripQueryData>, n: nat, t: int) {
    CanLeaveAt(q, rcs, overlay, n, t) && forall u | CanLeaveAt(q, rcs, overlay, n, u) :: u <= t
  }

  // The same by a chain the scan can follow.
  ghost predicate TracedLeaveAt(q: Query, rcs: seq<Connection>, overlay: seq<TripQueryData>, n: nat, t: int) {
    || (exists w :: NodeTime(n, w) in q.egressFootpaths && t == q.arrivalTime - w)
    || (exists legs: seq<Leg>, f: int :: TracedAt(q, rcs, overlay, legs, n, f, t))
  }

  ghost predicate TracedAt(q: Query, rcs: seq<Connection>, overlay: seq<TripQueryData>, legs: seq<Leg>, n: nat,
                           f: int, t: int) {
    LeavesAt(q, rcs, overlay, legs, n, f, t) && InOrder(rcs, legs)
  }

  ghost predicate LatestTraced(q: Query, rcs: seq<Connection>, overlay: seq<TripQueryData>, n: nat, t: int) {
    TracedLeaveAt(q, rcs, overlay, n, t) && forall u | TracedLeaveAt(q, rcs, overlay, n, u) :: u <= t
  }

  // A chain that does not look back too far starts before the break.
  lemma RecentFollowed(q: Query, rcs: seq<Connection>, k: nat, st: ReverseState, legs: seq<Leg>)
    requires ValidReverse(q, rcs) && Complete(q, rcs, k, st)
    requires k < |rcs| ==> Fits(q, rcs[k]) && Stops(q, st, rcs[k], false)
    requires Traceable(q, rcs, st.overlay, legs)
    requires q.arrivalTime - legs[0].enter.arrivalTime <= q.maxTotalTravelTime
    ensures Fits(q, legs[0].enter) && Relaxed(q, st, legs[0].enter)
  {
    var e := legs[0].enter;
    assert IsRide(q, rcs, e, legs[0].exit);
    if Pos(rcs, e) >= k { SortedAt(rcs, k, e); }
    ReachingFollowed(q, rcs, k, st, legs);
  }

  lemma LabelIsUpperBound(q: Query, rcs: seq<Connection>, k: nat, st: ReverseState, n: nat, u: int)
    requires ValidReverse(q, rcs) && Complete(q, rcs, k, st)
    requires k < |rcs| ==> Fits(q, rcs[k]) && Stops(q, st, rcs[k], false)
    requires n < q.nodeCount && TracedLeaveAt(q, rcs, st.overlay, n, u)
    ensures u <= st.time[n]
  {
    if legs: seq<Leg>, f: int :| TracedAt(q, rcs, st.overlay, legs, n, f, u) {
      RecentFollowed(q, rcs, k, st, legs);
      assert NodeTime(n, f) in q.reverseTransfers[legs[0].enter.departureNode];
      assert NodeTime(n, f).time <= q.maxTransferWalkingTime;
    } else {
      var w :| NodeTime(n, w) in q.egressFootpaths && u == q.arrivalTime - w;
      assert NodeTime(n, w).node == n;
    }
  }

  lemma LabelIsReached(q: Query, rcs: seq<Connection>, k: nat, st: ReverseState, n: nat)
    requires ValidReverse(q, rcs) && Sound(q, rcs, k, st) && Recent(q, st) && Backed(q, rcs, st)
    requires n < q.nodeCount && st.time[n] >= 0
    ensures TracedLeaveAt(q, rcs, st.overlay, n, st.time[n])
  {
    assert StepOk(q, rcs, k, st, n) && StepBacked(q, rcs, st, n);
    match st.steps[n]
    case Walk(_) =>
      assert NodeTime(n, q.NodesEgress()[n]) in q.egressFootpaths;
    case Ride(e, x, f) =>
      var legs: seq<Leg> :| StartsWith(q, rcs, st.overlay, e, legs);
      assert TracedAt(q, rcs, st.overlay, legs, n, f, st.time[n]);
  }

  lemma ScanOverlay(q: Query, rcs: seq<Connection>, overlay: seq<TripQueryData>, other: seq<TripQueryData>, n: nat,
                    t: int)
    requires SameUsable(overlay, other)
    ensures TracedLeaveAt(q, rcs, overlay, n, t) <==> TracedLeaveAt(q, rcs, other, n, t)
  {
    forall legs, f ensures TracedAt(q, rcs, overlay, legs, n, f, t) <==> TracedAt(q, rcs, other, legs, n, f, t) {
      assert AllUsable(overlay, legs) <==> AllUsable(other, legs);
    }
  }

  // On every network: labels >= 0 are exactly the latest times at which the node can
  // be left by a chain the scan can follow.
  lemma LabelsFollow(q: Query, rcs: seq<Connection>, overlay: seq<TripQueryData>, n: nat, t: nat)
    requires ValidReverse(q, rcs) && |overlay| == q.tripCount && NoExits(overlay) && n < q.nodeCount
    ensures Scan(q, rcs, 0, Initial(q, overlay), false).time[n] == t <==> LatestTraced(q, rcs, overlay, n, t)
  {
    InitialInvariant(q, rcs, overlay, false);
    var st := Initial(q, overlay);
    var r := Scan(q, rcs, 0, st, false);
    var k := ScanInvariant(q, rcs, 0, st, false);
    forall u ensures TracedLeaveAt(q, rcs, overlay, n, u) <==> TracedLeaveAt(q, rcs, r.overlay, n, u) {
      ScanOverlay(q, rcs, overlay, r.overlay, n, u);
    }
    forall u | TracedLeaveAt(q, rcs, overlay, n, u) ensures u <= r.time[n] {
      LabelIsUpperBound(q, rcs, k, r, n, u);
    }
    if r.time[n] >= 0 { LabelIsReached(q, rcs, k, r, n); }
  }

  // ---- Over all chains --------------------------------------------------------

  // Whenever the node can be left in time, it can be left no earlier by a chain the
  // scan can follow.
  ghost predicate NoneMissedAt(q: Query, rcs: seq<Connection>, overlay: seq<TripQueryData>, n: nat) {
    forall t: nat | CanLeaveAt(q, rcs, overlay, n, t) :: MatchedAt(q, rcs, overlay, n, t)
  }

  ghost predicate MatchedAt(q: Query, rcs: seq<Connection>, overlay: seq<TripQueryData>, n: nat, t: int) {
    exists u :: TracedLeaveAt(q, rcs, overlay, n, u) && t <= u
  }

  ghost predicate LabelExact(q: Query, rcs: seq<Connection>, overlay: seq<TripQueryData>, n: nat)
    requires n < q.nodeCount && |overlay| == q.tripCount && forall c <- rcs :: Fits(q, c)
  {
    forall t: nat :: LabelIs(q, rcs, overlay, n, t) <==> LatestLeave(q, rcs, overlay, n, t)
  }

  ghost predicate LabelIs(q: Query, rcs: seq<Connection>, overlay: seq<TripQueryData>, n: nat, t: int)
    requires n < q.nodeCount && |overlay| == q.tripCount && forall c <- rcs :: Fits(q, c)
  {
    Scan(q, rcs, 0, Initial(q, overlay), false).time[n] == t
  }

  lemma TracedCanLeave(q: Query, rcs: seq<Connection>, overlay: seq<TripQueryData>, n: nat, t: int)
    requires TracedLeaveAt(q, rcs, overlay, n, t)
    ensures CanLeaveAt(q, rcs, overlay, n, t)
  {
    if legs: seq<Leg>, f: int :| TracedAt(q, rcs, overlay, legs, n, f, t) {
      assert LeavesAt(q, rcs, overlay, legs, n, f, t);
    }
  }

  lemma LeavesInTime(q: Query, rcs: seq<Connection>, overlay: seq<TripQueryData>, n: nat, t: int)
    requires ValidReverse(q, rcs) && CanLeaveAt(q, rcs, overlay, n, t)
    ensures t <= q.arrivalTime
  {
    if legs: seq<Leg>, f: int :| LeavesAt(q, rcs, overlay, legs, n, f, t) {
      ReachingInTime(q, rcs, legs);
      WaitNonNegative(q, rcs, legs[0].enter);
      assert 0 <= NodeTime(legs[0].enter.departureNode, f).time;
    } else {
      var w :| NodeTime(n, w) in q.egressFootpaths && t == q.arrivalTime - w;
      assert 0 <= NodeTime(n, w).time;
    }
  }

  // Among the times at which n can be left, from t on, there is a latest one.
  lemma {:induction false} SomeLatest(q: Query, rcs: seq<Connection>, overlay: seq<TripQueryData>, n: nat, t: int)
    returns (u: int)
    requires ValidReverse(q, rcs) && CanLeaveAt(q, rcs, overlay, n, t)
    ensures t <= u && LatestLeave(q, rcs, overlay, n, u)
    decreases q.arrivalTime - t
  {
    if v :| CanLeaveAt(q, rcs, overlay, n, v) && t < v {
      LeavesInTime(q, rcs, overlay, n, v);
      u := SomeLatest(q, rcs, overlay, n, v);
    } else {
      u := t;
    }
  }

  // A label is exact over all chains if and only if none is missed.
  lemma LabelsExactly(q: Query, rcs: seq<Connection>, overlay: seq<TripQueryData>, n: nat)
    requires ValidReverse(q, rcs) && |overlay| == q.tripCount && NoExits(overlay) && n < q.nodeCount
    ensures LabelExact(q, rcs, overlay, n) <==> NoneMissedAt(q, rcs, overlay, n)
  {
    if LabelExact(q, rcs, overlay, n) {
      forall t: nat | CanLeaveAt(q, rcs, overlay, n, t) ensures MatchedAt(q, rcs, overlay, n, t) {
        var u := SomeLatest(q, rcs, overlay, n, t);
        assert LabelIs(q, rcs, overlay, n, u);
        LabelsFollow(q, rcs, overlay, n, u);
      }
    }
    if NoneMissedAt(q, rcs, overlay, n) {
      forall t: nat ensures LabelIs(q, rcs, overlay, n, t) <==> LatestLeave(q, rcs, overlay, n, t) {
        LabelsFollow(q, rcs, overlay, n, t);
        UnmissedIsLatest(q, rcs, overlay, n, t);
      }
    }
  }

  lemma UnmissedIsLatest(q: Query, rcs: seq<Connection>, overlay: seq<TripQueryData>, n: nat, t: nat)
    requires NoneMissedAt(q, rcs, overlay, n)
    ensures LatestTraced(q, rcs, overlay, n, t) <==> LatestLeave(q, rcs, overlay, n, t)
  {
    if LatestTraced(q, rcs, overlay, n, t) {
      TracedCanLeave(q, rcs, overlay, n, t);
      forall u | CanLeaveAt(q, rcs, overlay, n, u) ensures u <= t {
        if u >= 0 { MatchedIsEarlier(q, rcs, overlay, n, t, u); }
      }
    }
    if LatestLeave(q, rcs, overlay, n, t) {
      assert MatchedAt(q, rcs, overlay, n, t);
      forall u | TracedLeaveAt(q, rcs, overlay, n, u) ensures u <= t { TracedCanLeave(q, rcs, overlay, n, u); }
    }
  }

  lemma MatchedIsEarlier(q: Query, rcs: seq<Connection>, overlay: seq<TripQueryData>, n: nat, t: int, u: int)
    requires LatestTraced(q, rcs, overlay, n, t) && MatchedAt(q, rcs, overlay, n, u)
    ensures u <= t
  {
    var v :| TracedLeaveAt(q, rcs, overlay, n, v) && u <= v;
  }

  lemma OrderedTraced(q: Query, rcs: seq<Connection>, overlay: seq<TripQueryData>, n: nat, t: int)
    requires HandoffOrdered(q, rcs) && CanLeaveAt(q, rcs, overlay, n, t)
    ensures TracedLeaveAt(q, rcs, overlay, n, t)
  {
    if legs: seq<Leg>, f: int :| LeavesAt(q, rcs, overlay, legs, n, f, t) {
      ReachingTraceable(q, rcs, overlay, legs);
      assert TracedAt(q, rcs, overlay, legs, n, f, t);
    }
  }

  // With handoffs in scan order none is missed.
  lemma LabelsExact(q: Query, rcs: seq<Connection>, overlay: seq<TripQueryData>, n: nat)
    requires ValidReverse(q, rcs) && HandoffOrdered(q, rcs)
    requires |overlay| == q.tripCount && NoExits(overlay) && n < q.nodeCount
    ensures LabelExact(q, rcs, overlay, n)
  {
    forall t: nat | CanLeaveAt(q, rcs, overlay, n, t) ensures MatchedAt(q, rcs, overlay, n, t) {
      OrderedTraced(q, rcs, overlay, n, t);
    }
    LabelsExactly(q, rcs, overlay, n);
  }

  // ---- Access entries -----------------------------------------------------------

  // Bounded slack: the boarding kept at a node departs at most one minimum wait
  // before any boarding there from which the scan can follow a chain.
  lemma AccessSlack(q: Query, rcs: seq<Connection>, overlay: seq<TripQueryData>, legs: seq<Leg>)
    requires ValidReverse(q, rcs) && |overlay| == q.tripCount && NoExits(overlay) && q.departureTime == -1
    requires Traceable(q, rcs, overlay, legs)
    requires q.arrivalTime - legs[0].enter.departureTime <= q.maxTotalTravelTime
    ensures var r := Scan(q, rcs, 0, Initial(q, overlay), false);
            var c := legs[0].enter;
            c.departureNode in r.accessSteps &&
            c.departureTime - q.Wait(c) <= r.accessSteps[c.departureNode].enter.departureTime
  {
    InitialInvariant(q, rcs, overlay, false);
    var st := Initial(q, overlay);
    var r := Scan(q, rcs, 0, st, false);
    var k := ScanInvariant(q, rcs, 0, st, false);
    StillTraceable(q, rcs, st, r, legs);
    SlackAtEnd(q, rcs, k, r, legs);
  }

  lemma StillTraceable(q: Query, rcs: seq<Connection>, st: ReverseState, r: ReverseState, legs: seq<Leg>)
    requires Sized(q, st) && Sized(q, r) && Raises(q, st, r) && Traceable(q, rcs, st.overlay, legs)
    ensures Traceable(q, rcs, r.overlay, legs)
  {
  }

  lemma SlackAtEnd(q: Query, rcs: seq<Connection>, k: nat, r: ReverseState, legs: seq<Leg>)
    requires ValidReverse(q, rcs) && Complete(q, rcs, k, r) && q.departureTime == -1
    requires k < |rcs| ==> Fits(q, rcs[k]) && Stops(q, r, rcs[k], false)
    requires Traceable(q, rcs, r.overlay, legs)
    requires q.arrivalTime - legs[0].enter.departureTime <= q.maxTotalTravelTime
    ensures var c := legs[0].enter;
            c.departureNode in r.accessSteps &&
            c.departureTime - q.Wait(c) <= r.accessSteps[c.departureNode].enter.departureTime
  {
    assert IsRide(q, rcs, legs[0].enter, legs[0].exit);
    RideTime(q, rcs, legs[0].enter, legs[0].exit);
    RecentFollowed(q, rcs, k, r, legs);
  }

  // Every entry kept is a boarding at its node that starts a chain.
  lemma AccessStarts(q: Query, rcs: seq<Connection>, k: nat, st: ReverseState, n: nat)
    requires Sound(q, rcs, k, st) && Backed(q, rcs, st) && n in st.accessSteps
    ensures var e := st.accessSteps[n].enter;
            && Starts(q, rcs, st.overlay, e) && InPrefix(rcs, k, e) && e.departureNode == n && AccessAllowed(q, e)
  {
    assert AccessOk(q, rcs, k, st, n);
  }

  // With handoffs in scan order, the steps behind the entry are such a chain.
  lemma AccessFeasible(q: Query, rcs: seq<Connection>, k: nat, st: ReverseState, n: nat)
    requires ValidReverse(q, rcs) && HandoffOrdered(q, rcs) && Sound(q, rcs, k, st) && n in st.accessSteps
    ensures RidesTo(q, rcs, k, st, st.accessSteps[n])
    ensures var legs := LegsFrom(q, rcs, k, st, st.accessSteps[n]);
            Reaching(q, rcs, legs) && AllUsable(st.overlay, legs) && legs[0].enter.departureNode == n
  {
    assert AccessOk(q, rcs, k, st, n);
    LegsFromReaching(q, rcs, k, st, st.accessSteps[n]);
  }
}
