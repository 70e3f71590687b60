// A single query runs the forward scan, then the reverse scan from the arrival
// time found, over the trips the forward scan boarded.
module TwoPass {
  import opened Network
  import F = ForwardScan
  import FX = ForwardExact
  import R = ReverseScan
  import RX = ReverseExact

  // ---- The loop over the access footpaths -----------------------------------

  function AccessDeparture(q: Query, st: R.ReverseState, fp: NodeTime): int
    requires fp.node in st.accessSteps
  {
    var e := st.accessSteps[fp.node].enter;
    e.departureTime - fp.time - q.Wait(e)
  }

  ghost predicate CanStart(q: Query, st: R.ReverseState, fp: NodeTime) {
    && fp.node in st.accessSteps
    && 0 <= AccessDeparture(q, st, fp) < MAX_INT
    && q.arrivalTime - AccessDeparture(q, st, fp) <= q.maxTotalTravelTime
  }

  function BetterAccess(q: Query, st: R.ReverseState, best: Option<NodeTime>, fp: NodeTime): Option<NodeTime> {
    if fp.node in st.accessSteps then
      var t := AccessDeparture(q, st, fp);
      if && 0 <= t && q.arrivalTime - t <= q.maxTotalTravelTime
         && t > (if best.Some? then best.value.time else -1) && t < MAX_INT
      then Some(NodeTime(fp.node, t)) else best
    else best
  }

  function BestAccess(q: Query, st: R.ReverseState, m: nat): Option<NodeTime>
    requires m <= |q.accessFootpaths|
  {
    if m == 0 then None
    else
      var n := q.accessFootpaths[m - 1].node;
      assert q.accessFootpaths[m - 1] in q.accessFootpaths;
      BetterAccess(q, st, BestAccess(q, st, m - 1), NodeTime(n, q.NodesAccess()[n]))
  }

  function ReverseResult(q: Query, st: R.ReverseState): Option<NodeTime> {
    if st.reachableCount == 0 then None else BestAccess(q, st, |q.accessFootpaths|)
  }

  // best leaves from an access node at the latest start of the first m.
  ghost predicate LatestStart(q: Query, st: R.ReverseState, best: Option<NodeTime>, m: nat)
    requires m <= |q.accessFootpaths|
  {
    && (forall j: nat | j < m && CanStart(q, st, q.accessFootpaths[j]) ::
          AtLeast(best, AccessDeparture(q, st, q.accessFootpaths[j])))
    && (best.Some? ==> exists j: nat :: j < m && StartsAt(q, st, q.accessFootpaths[j], best.value))
  }

  ghost predicate StartsAt(q: Query, st: R.ReverseState, fp: NodeTime, a: NodeTime) {
    CanStart(q, st, fp) && a == NodeTime(fp.node, AccessDeparture(q, st, fp))
  }

  ghost predicate AtLeast(best: Option<NodeTime>, t: int) {
    best.Some? && best.value.time >= t
  }

  lemma BetterAccessStarts(q: Query, st: R.ReverseState, best: Option<NodeTime>, fp: NodeTime)
    requires ValidFootpaths(q, q.accessFootpaths) && fp in q.accessFootpaths
    ensures var r := BetterAccess(q, st, best, fp);
            && (r == best || (r.Some? && StartsAt(q, st, fp, r.value)))
            && (forall t :: AtLeast(best, t) ==> AtLeast(r, t))
            && (CanStart(q, st, fp) ==> AtLeast(r, AccessDeparture(q, st, fp)))
  {
  }

  lemma {:induction false} BestAccessIsLatest(q: Query, st: R.ReverseState, m: nat)
    requires ValidFootpaths(q, q.accessFootpaths) && m <= |q.accessFootpaths|
    ensures LatestStart(q, st, BestAccess(q, st, m), m)
    decreases m
  {
    if m > 0 {
      BestAccessIsLatest(q, st, m - 1);
      var fp := q.accessFootpaths[m - 1];
      assert NodeTime(fp.node, q.NodesAccess()[fp.node]) in q.accessFootpaths;
      assert fp == NodeTime(fp.node, q.NodesAccess()[fp.node]);
      BetterAccessStarts(q, st, BestAccess(q, st, m - 1), q.accessFootpaths[m - 1]);
    }
  }

  // Of equal starts it is the first footpath's: those before it leave earlier.
  ghost predicate IsEarliest(q: Query, st: R.ReverseState, j: nat, a: NodeTime)
    requires j < |q.accessFootpaths|
  {
    && StartsAt(q, st, q.accessFootpaths[j], a)
    && forall i: nat | i < j && CanStart(q, st, q.accessFootpaths[i]) ::
         AccessDeparture(q, st, q.accessFootpaths[i]) < a.time
  }

  lemma {:induction false} BestAccessIsFirst(q: Query, st: R.ReverseState, m: nat)
    requires ValidFootpaths(q, q.accessFootpaths) && m <= |q.accessFootpaths|
    ensures var best := BestAccess(q, st, m);
            best.Some? ==> exists j: nat :: j < m && IsEarliest(q, st, j, best.value)
    decreases m
  {
    if m > 0 {
      BestAccessIsFirst(q, st, m - 1);
      BestAccessIsLatest(q, st, m - 1);
      var was, best := BestAccess(q, st, m - 1), BestAccess(q, st, m);
      var fp := q.accessFootpaths[m - 1];
      assert NodeTime(fp.node, q.NodesAccess()[fp.node]) in q.accessFootpaths;
      assert fp == NodeTime(fp.node, q.NodesAccess()[fp.node]);
      if best != was { LaterIsEarliest(q, st, was, m - 1, best.value); }
    }
  }

  // A footpath that beats the best so far beats all before it.
  lemma LaterIsEarliest(q: Query, st: R.ReverseState, was: Option<NodeTime>, j: nat, a: NodeTime)
    requires j < |q.accessFootpaths| && LatestStart(q, st, was, j) && StartsAt(q, st, q.accessFootpaths[j], a)
    requires was.Some? ==> was.value.time < a.time
    ensures IsEarliest(q, st, j, a)
  {
  }

  // ---- Hypotheses -----------------------------------------------------------

  ghost predicate ValidTwoPass(q: Query, cs: seq<Connection>, rcs: seq<Connection>) {
    && F.ValidForward(q, cs)
    && R.ValidReverse(q, rcs)
    && SameConnections(cs, rcs)
    && 0 <= q.departureTime
  }

  // A boarding at an access node, on an enabled trip.
  ghost predicate Boarding(q: Query, cs: seq<Connection>, e: Connection) {
    e in cs && e.canBoard && e.trip !in q.disabledTrips && e.departureNode in q.NodesAccess()
  }

  // Leaving when requested, the traveller is there in time.
  predicate CanCatch(q: Query, e: Connection)
    requires e.departureNode in q.NodesAccess()
  {
    q.departureTime + q.NodesAccess()[e.departureNode] + q.Wait(e) <= e.departureTime
  }

  // The reverse scan's own test of the first wait.
  predicate FirstWaitFits(q: Query, e: Connection)
    requires e.departureNode in q.NodesAccess()
  {
    || q.maxFirstWaitingTime < q.Wait(e)
    || e.departureTime - q.departureTime - q.NodesAccess()[e.departureNode] <= q.maxFirstWaitingTime
  }

  // The reverse scan refuses no boarding for its first wait.
  ghost predicate FirstWaitsFit(q: Query, cs: seq<Connection>) {
    forall e | Boarding(q, cs, e) && CanCatch(q, e) :: FirstWaitFits(q, e)
  }

  // The reverse scan breaks once arrivals fall a longest access walk below the
  // first boarding c it saw at an access node. If that hides a boarding e that can
  // be caught, then c can be caught too.
  ghost predicate BreakIsSafe(q: Query, cs: seq<Connection>) {
    forall c, e | Boarding(q, cs, c) && Boarding(q, cs, e) && CanCatch(q, e) &&
                  e.arrivalTime < c.departureTime - MaxTime(q.accessFootpaths) ::
      CanCatch(q, c)
  }

  // Neither the first-wait limit nor the break makes the second pass refuse what
  // the first one accepts.
  ghost predicate Composable(q: Query, cs: seq<Connection>, rcs: seq<Connection>) {
    && ValidTwoPass(q, cs, rcs)
    && R.HandoffOrdered(q, rcs) && FirstWaitsFit(q, cs) && BreakIsSafe(q, cs)
  }

  // Sufficient for the first wait: no limit, or every boarding imposes more.
  lemma LimitBelowWaitsFits(q: Query, cs: seq<Connection>)
    requires forall e | Boarding(q, cs, e) :: q.maxFirstWaitingTime < q.Wait(e)
    ensures FirstWaitsFit(q, cs)
  {
  }

  lemma NoLimitFits(q: Query, cs: seq<Connection>)
    requires ValidQuery(q) && q.maxFirstWaitingTime < 0
    ensures FirstWaitsFit(q, cs)
  {
  }

  ghost predicate UniformWaits(q: Query, cs: seq<Connection>) {
    forall c <- cs, e <- cs :: q.Wait(c) == q.Wait(e)
  }

  lemma AccessWalk(q: Query, n: nat)
    requires ValidQuery(q) && n in q.NodesAccess()
    ensures NodeTime(n, q.NodesAccess()[n]) in q.accessFootpaths
    ensures 0 <= q.NodesAccess()[n] <= MaxTime(q.accessFootpaths)
  {
    var fp := NodeTime(n, q.NodesAccess()[n]);
    assert fp in q.accessFootpaths;
    assert fp.time <= MaxTime(q.accessFootpaths);
  }

  // Sufficient for the break: equal waits.
  lemma UniformWaitsAreSafe(q: Query, cs: seq<Connection>)
    requires ValidQuery(q) && ValidConnections(q, cs) && UniformWaits(q, cs)
    ensures BreakIsSafe(q, cs)
  {
    forall c, e | Boarding(q, cs, c) && Boarding(q, cs, e) && CanCatch(q, e) &&
                  e.arrivalTime < c.departureTime - MaxTime(q.accessFootpaths)
      ensures CanCatch(q, c)
    {
      assert ValidConnection(q, e);
      AccessWalk(q, c.departureNode);
      AccessWalk(q, e.departureNode);
    }
  }

  // ---- The reverse scan finds an access node --------------------------------

  function ReverseQuery(q: Query, t: int): Query {
    q.(arrivalTime := t)
  }

  lemma SameJourneys(q: Query, cs: seq<Connection>, rcs: seq<Connection>, t: int, legs: seq<Leg>)
    requires SameConnections(cs, rcs)
    ensures Chain(q, cs, legs) <==> Chain(ReverseQuery(q, t), rcs, legs)
  {
    var q2 := ReverseQuery(q, t);
    forall k: nat | k < |legs|
      ensures IsRide(q, cs, legs[k].enter, legs[k].exit) <==> IsRide(q2, rcs, legs[k].enter, legs[k].exit)
    {
    }
    forall k: nat | k + 1 < |legs|
      ensures Handoff(q, legs[k].exit, legs[k + 1].enter) <==> Handoff(q2, legs[k].exit, legs[k + 1].enter)
    {
      SameHandoff(q, q2, legs[k].exit, legs[k + 1].enter);
    }
  }

  lemma BoardingsStay(q: Query, cs: seq<Connection>, rcs: seq<Connection>, t: int)
    requires SameConnections(cs, rcs) && FirstWaitsFit(q, cs) && BreakIsSafe(q, cs)
    ensures FirstWaitsFit(ReverseQuery(q, t), rcs) && BreakIsSafe(ReverseQuery(q, t), rcs)
  {
    var q2 := ReverseQuery(q, t);
    assert q2.NodesAccess() == q.NodesAccess();
    forall e ensures Boarding(q2, rcs, e) <==> Boarding(q, cs, e) {}
  }

  // The first boarding of a journey can be caught at its access node.
  lemma DepartureCaught(q: Query, cs: seq<Connection>, e: Connection)
    requires ValidQuery(q) && Departs(q, e)
    ensures e.departureNode in q.NodesAccess() && CanCatch(q, e)
  {
    var t :| NodeTime(e.departureNode, t) in q.accessFootpaths && q.departureTime + t + q.Wait(e) <= e.departureTime;
    assert NodeTime(e.departureNode, t).node in q.NodesAccess();
    assert NodeTime(e.departureNode, q.NodesAccess()[e.departureNode]) in q.accessFootpaths;
  }

  // What can be caught may be recorded at its access node.
  lemma CaughtAllowed(q: Query, cs: seq<Connection>, e: Connection)
    requires Boarding(q, cs, e) && CanCatch(q, e) && FirstWaitsFit(q, cs)
    ensures R.AccessAllowed(q, e)
  {
  }

  lemma AccessRecorded(q: Query, rcs: seq<Connection>, k: nat, r: R.ReverseState, legs: seq<Leg>)
    requires R.ValidReverse(q, rcs) && FirstWaitsFit(q, rcs) && BreakIsSafe(q, rcs)
    requires k <= |rcs| && RX.Invariant(q, rcs, k, r, true)
    requires k < |rcs| ==> R.Fits(q, rcs[k]) && R.Stops(q, r, rcs[k], true)
    requires RX.Traceable(q, rcs, r.overlay, legs) && Departs(q, legs[0].enter)
    requires q.arrivalTime - q.departureTime <= q.maxTotalTravelTime
    ensures exists n :: n in q.NodesAccess() && n in r.accessSteps
  {
    var e := legs[0].enter;
    assert IsRide(q, rcs, e, legs[0].exit);
    DepartureCaught(q, rcs, e);
    if R.InPrefix(rcs, k, e) {
      ScannedRecorded(q, rcs, k, r, legs);
    } else {
      HiddenRecorded(q, rcs, k, r, e);
    }
  }

  lemma ScannedRecorded(q: Query, rcs: seq<Connection>, k: nat, r: R.ReverseState, legs: seq<Leg>)
    requires R.ValidReverse(q, rcs) && FirstWaitsFit(q, rcs)
    requires RX.Complete(q, rcs, k, r)
    requires RX.Traceable(q, rcs, r.overlay, legs) && R.InPrefix(rcs, k, legs[0].enter)
    requires Boarding(q, rcs, legs[0].enter) && CanCatch(q, legs[0].enter)
    ensures legs[0].enter.departureNode in r.accessSteps
  {
    CaughtAllowed(q, rcs, legs[0].enter);
    RX.ReachingFollowed(q, rcs, k, r, legs);
  }

  lemma HiddenRecorded(q: Query, rcs: seq<Connection>, k: nat, r: R.ReverseState, e: Connection)
    requires R.ValidReverse(q, rcs) && FirstWaitsFit(q, rcs) && BreakIsSafe(q, rcs)
    requires k <= |rcs| && RX.NoteOk(q, rcs, k, r) && R.Sized(q, r)
    requires k < |rcs| ==> R.Fits(q, rcs[k]) && R.Stops(q, r, rcs[k], true)
    requires Boarding(q, rcs, e) && CanCatch(q, e) && !R.InPrefix(rcs, k, e)
    requires q.arrivalTime - q.departureTime <= q.maxTotalTravelTime
    ensures exists n :: n in q.NodesAccess() && n in r.accessSteps
  {
    HiddenByBreak(q, rcs, k, r, e);
    NotedRecorded(q, rcs, k, r, e);
  }

  lemma NotedRecorded(q: Query, rcs: seq<Connection>, k: nat, r: R.ReverseState, e: Connection)
    requires FirstWaitsFit(q, rcs) && BreakIsSafe(q, rcs) && RX.NoteOk(q, rcs, k, r) && r.reachedAccess
    requires Boarding(q, rcs, e) && CanCatch(q, e)
    requires forall c | RX.NotedBy(q, rcs, k, r, c) :: e.arrivalTime < c.departureTime - MaxTime(q.accessFootpaths)
    ensures exists n :: n in q.NodesAccess() && n in r.accessSteps
  {
    var c :| RX.NotedBy(q, rcs, k, r, c);
    CaughtAllowed(q, rcs, c);
  }

  // A boarding that can be caught but was not scanned: the break fired before it.
  lemma HiddenByBreak(q: Query, rcs: seq<Connection>, k: nat, r: R.ReverseState, e: Connection)
    requires R.ValidReverse(q, rcs) && k <= |rcs| && RX.NoteOk(q, rcs, k, r) && R.Sized(q, r)
    requires k < |rcs| ==> R.Fits(q, rcs[k]) && R.Stops(q, r, rcs[k], true)
    requires Boarding(q, rcs, e) && CanCatch(q, e) && !R.InPrefix(rcs, k, e)
    requires q.arrivalTime - q.departureTime <= q.maxTotalTravelTime
    ensures r.reachedAccess
    ensures forall c | RX.NotedBy(q, rcs, k, r, c) :: e.arrivalTime < c.departureTime - MaxTime(q.accessFootpaths)
  {
    R.SortedAt(rcs, k, e);
    RX.WaitNonNegative(q, rcs, e);
    AccessWalk(q, e.departureNode);
  }

  // A recorded entry respects the requested departure, so it is a valid start.
  lemma RecordedCanStart(q: Query, rcs: seq<Connection>, k: nat, r: R.ReverseState, n: nat)
    requires R.ValidReverse(q, rcs) && R.Sound(q, rcs, k, r)
    requires n in q.NodesAccess() && n in r.accessSteps
    requires 0 <= q.departureTime && q.arrivalTime - q.departureTime <= q.maxTotalTravelTime
    ensures CanStart(q, r, NodeTime(n, q.NodesAccess()[n]))
  {
    assert R.AccessOk(q, rcs, k, r, n);
    var e := r.accessSteps[n].enter;
    assert ValidConnection(q, e);
    assert NodeTime(n, q.NodesAccess()[n]) in q.accessFootpaths;
  }

  lemma AccessFound(q: Query, rcs: seq<Connection>, k: nat, r: R.ReverseState, n: nat)
    requires R.ValidReverse(q, rcs) && R.Sound(q, rcs, k, r) && RX.CountOk(r)
    requires n in q.NodesAccess() && n in r.accessSteps
    requires 0 <= q.departureTime && q.arrivalTime - q.departureTime <= q.maxTotalTravelTime
    ensures ReverseResult(q, r).Some?
  {
    RecordedCanStart(q, rcs, k, r, n);
    BestAccessIsLatest(q, r, |q.accessFootpaths|);
    var fp := NodeTime(n, q.NodesAccess()[n]);
    assert fp in q.accessFootpaths;
    var j: nat :| j < |q.accessFootpaths| && q.accessFootpaths[j] == fp;
    assert CanStart(q, r, q.accessFootpaths[j]);
  }

  // ---- What a returned access node stands for -------------------------------

  // The journey rebuilt from the steps, its requested window and its times.
  ghost predicate Rebuilt(q: Query, cs: seq<Connection>, r: R.ReverseState, a: NodeTime, legs: seq<Leg>) {
    && a.node in r.accessSteps && a.node in q.NodesAccess()
    && RX.Follows(r, r.accessSteps[a.node], legs)
    && RX.Reaching(q, cs, legs) && RX.AllUsable(r.overlay, legs)
    && legs[0].enter.departureNode == a.node
    && a.time == legs[0].enter.departureTime - q.NodesAccess()[a.node] - q.Wait(legs[0].enter)
    && 0 <= a.time && (q.departureTime != -1 ==> q.departureTime <= a.time)
    && q.arrivalTime - a.time <= q.maxTotalTravelTime
  }

  lemma ResultNode(q: Query, r: R.ReverseState) returns (n: nat)
    requires ValidQuery(q) && ReverseResult(q, r).Some?
    ensures n == ReverseResult(q, r).value.node && n in r.accessSteps && n in q.NodesAccess()
  {
    BestAccessIsLatest(q, r, |q.accessFootpaths|);
    var j: nat :| j < |q.accessFootpaths| && StartsAt(q, r, q.accessFootpaths[j], ReverseResult(q, r).value);
    n := q.accessFootpaths[j].node;
    assert NodeTime(n, q.accessFootpaths[j].time) in q.accessFootpaths;
  }

  // Whatever the limits, a returned access node starts a chain that is at the
  // destination by the arrival time, inside the window.
  lemma ReverseFeasible(q: Query, rcs: seq<Connection>, k: nat, r: R.ReverseState) returns (legs: seq<Leg>)
    requires R.ValidReverse(q, rcs) && R.HandoffOrdered(q, rcs) && R.Sound(q, rcs, k, r)
    requires ReverseResult(q, r).Some?
    ensures Rebuilt(q, rcs, r, ReverseResult(q, r).value, legs)
    ensures R.RidesTo(q, rcs, k, r, r.accessSteps[ReverseResult(q, r).value.node])
    ensures legs == RX.LegsFrom(q, rcs, k, r, r.accessSteps[ReverseResult(q, r).value.node])
  {
    var a := ReverseResult(q, r).value;
    BestAccessIsLatest(q, r, |q.accessFootpaths|);
    var j: nat :| j < |q.accessFootpaths| && StartsAt(q, r, q.accessFootpaths[j], a);
    var fp := q.accessFootpaths[j];
    assert fp in q.accessFootpaths;
    assert NodeTime(fp.node, q.NodesAccess()[fp.node]) in q.accessFootpaths;
    assert R.AccessOk(q, rcs, k, r, a.node);
    RX.AccessFeasible(q, rcs, k, r, a.node);
    legs := RX.LegsFrom(q, rcs, k, r, r.accessSteps[a.node]);
    RX.LegsFromFollows(q, rcs, k, r, r.accessSteps[a.node]);
  }

  // ---- The two-pass theorem --------------------------------------------------

  function ForwardEnd(q: Query, cs: seq<Connection>): F.ForwardState
    requires forall c <- cs :: F.Fits(q, c)
  {
    F.Scan(q, cs, 0, F.Initial(q), true)
  }

  function ReverseEnd(q: Query, rcs: seq<Connection>, overlay: seq<TripQueryData>): R.ReverseState
    requires |overlay| == q.tripCount && forall c <- rcs :: R.Fits(q, c)
  {
    R.Scan(q, rcs, 0, R.Initial(q, overlay), true)
  }

  lemma ForwardOverlayFresh(q: Query, cs: seq<Connection>, k: nat, st: F.ForwardState)
    requires F.Sound(q, cs, k, st)
    ensures R.NoExits(st.overlay)
  {
    forall t: nat | t < |st.overlay| ensures st.overlay[t].exit == None {
      assert F.TripOk(q, cs, k, st, t);
    }
  }

  // The journey behind the forward arrival, over usable trips.
  lemma ForwardJourney(q: Query, cs: seq<Connection>) returns (legs: seq<Leg>)
    requires F.ValidForward(q, cs)
    requires FX.ForwardResult(q, ForwardEnd(q, cs)).Some?
    ensures var t := FX.ForwardResult(q, ForwardEnd(q, cs)).value.time;
            FX.ScanArrives(q, cs, legs, t) && t - q.departureTime <= q.maxTotalTravelTime
    ensures RX.AllUsable(ForwardEnd(q, cs).overlay, legs) && R.NoExits(ForwardEnd(q, cs).overlay)
  {
    var st := ForwardEnd(q, cs);
    FX.InitialInvariant(q, cs);
    var k := FX.ScanInvariant(q, cs, 0, F.Initial(q), true);
    legs := FX.ReturnedJourney(q, cs, k, st);
    forall l | l in legs ensures l.enter.trip < |st.overlay| && st.overlay[l.enter.trip].usable {
      assert FX.UsesTrip(q, st, l);
    }
    ForwardOverlayFresh(q, cs, k, st);
  }

  lemma ReverseValid(q: Query, rcs: seq<Connection>, t: int)
    requires R.ValidReverse(q, rcs)
    ensures R.ValidReverse(ReverseQuery(q, t), rcs)
  {
    var q2 := ReverseQuery(q, t);
    forall c <- rcs ensures ValidConnection(q2, c) && R.Fits(q2, c) {
      assert ValidConnection(q, c) && R.Fits(q, c);
    }
  }

  // Whenever the forward scan returns an arrival time, the reverse scan from it
  // finds an access node, and the rebuilt journey is feasible, leaves no earlier
  // than requested and arrives by that time, exactly then if no journey is earlier.
  lemma TwoPassFinds(q: Query, cs: seq<Connection>, rcs: seq<Connection>) returns (legs: seq<Leg>)
    requires Composable(q, cs, rcs)
    requires FX.ForwardResult(q, ForwardEnd(q, cs)).Some?
    ensures var t := FX.ForwardResult(q, ForwardEnd(q, cs)).value.time;
            var q2 := ReverseQuery(q, t);
            R.ValidReverse(q2, rcs) &&
            var r := ReverseEnd(q2, rcs, ForwardEnd(q, cs).overlay);
            var a := ReverseResult(q2, r);
            && a.Some? && q.departureTime <= a.value.time
            && Rebuilt(q2, rcs, r, a.value, legs) && ArrivesBy(q, cs, legs, t)
            && (FX.NoneMissed(q, cs) ==> Arrives(q, cs, legs, t))
  {
    var f := ForwardEnd(q, cs);
    var t := FX.ForwardResult(q, f).value.time;
    var direct := ForwardJourney(q, cs);
    legs := TwoPassReverse(q, cs, rcs, f.overlay, t, direct);
    if FX.NoneMissed(q, cs) {
      FX.SingleExactly(q, cs);
      ExactlyThen(q, cs, legs, t);
    }
  }

  ghost predicate ArrivesBy(q: Query, cs: seq<Connection>, legs: seq<Leg>, t: int) {
    exists u :: Arrives(q, cs, legs, u) && u <= t
  }

  lemma ExactlyThen(q: Query, cs: seq<Connection>, legs: seq<Leg>, t: int)
    requires FX.EarliestArrival(q, cs, t) && ArrivesBy(q, cs, legs, t)
    ensures Arrives(q, cs, legs, t)
  {
    var u :| Arrives(q, cs, legs, u) && u <= t;
    assert u == t;
  }

  lemma TwoPassReverse(q: Query, cs: seq<Connection>, rcs: seq<Connection>, overlay: seq<TripQueryData>, t: int,
                       direct: seq<Leg>)
    returns (legs: seq<Leg>)
    requires Composable(q, cs, rcs)
    requires |overlay| == q.tripCount && R.NoExits(overlay) && RX.AllUsable(overlay, direct)
    requires Arrives(q, cs, direct, t) && t - q.departureTime <= q.maxTotalTravelTime
    ensures R.ValidReverse(ReverseQuery(q, t), rcs)
    ensures var q2 := ReverseQuery(q, t);
            var r := ReverseEnd(q2, rcs, overlay);
            var a := ReverseResult(q2, r);
            && a.Some? && q.departureTime <= a.value.time
            && Rebuilt(q2, rcs, r, a.value, legs) && ArrivesBy(q, cs, legs, t)
  {
    var q2 := ReverseQuery(q, t);
    ReverseValid(q, rcs, t);
    R.HandoffsStayOrdered(q, q2, rcs);
    BoardingsStay(q, cs, rcs, t);
    RX.InitialInvariant(q2, rcs, overlay, true);
    var k := RX.ScanInvariant(q2, rcs, 0, R.Initial(q2, overlay), true);
    var r := ReverseEnd(q2, rcs, overlay);
    DirectReaching(q, cs, rcs, t, direct);
    RX.ReachingTraceable(q2, rcs, r.overlay, direct);
    AccessRecorded(q2, rcs, k, r, direct);
    var n :| n in q2.NodesAccess() && n in r.accessSteps;
    AccessFound(q2, rcs, k, r, n);
    legs := ReverseFeasible(q2, rcs, k, r);
    RebuiltArrives(q, cs, rcs, t, r, ReverseResult(q2, r).value, legs);
  }

  lemma DirectReaching(q: Query, cs: seq<Connection>, rcs: seq<Connection>, t: int, legs: seq<Leg>)
    requires SameConnections(cs, rcs) && Arrives(q, cs, legs, t)
    ensures RX.Reaching(ReverseQuery(q, t), rcs, legs) && Departs(ReverseQuery(q, t), legs[0].enter)
  {
    SameJourneys(q, cs, rcs, t, legs);
  }

  // A rebuilt journey is a journey of the forward problem that arrives by t.
  lemma RebuiltArrives(q: Query, cs: seq<Connection>, rcs: seq<Connection>, t: int, r: R.ReverseState, a: NodeTime,
                       legs: seq<Leg>)
    requires SameConnections(cs, rcs) && 0 <= q.departureTime
    requires Rebuilt(ReverseQuery(q, t), rcs, r, a, legs)
    ensures ArrivesBy(q, cs, legs, t)
  {
    SameJourneys(q, cs, rcs, t, legs);
    var e, x := legs[0].enter, Last(legs).exit;
    assert Departs(q, e) by {
      assert NodeTime(e.departureNode, q.NodesAccess()[e.departureNode]) in q.accessFootpaths;
    }
    var w :| NodeTime(x.arrivalNode, w) in q.egressFootpaths && x.arrivalTime + w <= t;
    assert Arrives(q, cs, legs, x.arrivalTime + w);
  }
}
