// How late a returned route departs: within a slack that only the minimum waits
// decide of the latest start any feasible chain allows.
module LatestDeparture {
  import opened Network
  import R = ReverseScan
  import RX = ReverseExact
  import T = TwoPass

  // d covers one minimum wait, and any two waits less any third.
  ghost predicate SlackAtMost(q: Query, rcs: seq<Connection>, d: int) {
    && (forall r <- rcs :: q.Wait(r) <= d)
    && (forall c <- rcs, e <- rcs, r <- rcs :: q.Wait(c) + q.Wait(r) <= d + q.Wait(e))
  }

  // Equal waits: one of them.
  lemma EqualWaitsSlack(q: Query, rcs: seq<Connection>, w: int)
    requires forall c <- rcs :: q.Wait(c) == w
    ensures SlackAtMost(q, rcs, w)
  {
  }

  // Any waits: twice the longest.
  lemma BoundedWaitsSlack(q: Query, rcs: seq<Connection>, w: int)
    requires ValidQuery(q) && forall c <- rcs :: q.Wait(c) <= w
    ensures SlackAtMost(q, rcs, 2 * w)
  {
    forall c | c in rcs ensures 0 <= q.Wait(c) <= w {}
  }

  // legs is a usable chain to the destination in time, from the access node at s.
  ghost predicate StartsChain(q: Query, rcs: seq<Connection>, overlay: seq<TripQueryData>, legs: seq<Leg>, s: int) {
    && RX.Traceable(q, rcs, overlay, legs)
    && legs[0].enter.departureNode in q.NodesAccess()
    && s == Start(q, legs[0].enter)
    && q.departureTime <= s
  }

  // When the traveller must leave to catch e.
  function Start(q: Query, e: Connection): int
    requires e.departureNode in q.NodesAccess()
  {
    e.departureTime - q.NodesAccess()[e.departureNode] - q.Wait(e)
  }

  // No requested departure, or one the reverse scan handles without loss.
  ghost predicate FreeStart(q: Query, rcs: seq<Connection>) {
    q.departureTime == -1 || (0 <= q.departureTime && T.FirstWaitsFit(q, rcs) && T.BreakIsSafe(q, rcs))
  }

  // Between t and the arrival lies no more than the maximum.
  ghost predicate Admits(q: Query, t: int) {
    0 <= t && q.arrivalTime - t <= q.maxTotalTravelTime
  }

  // An entry recorded at a node for c, or one that replaced it, starts late enough.
  lemma EntryStarts(q: Query, rcs: seq<Connection>, k: nat, r: R.ReverseState, c: Connection, t: int)
    requires R.ValidReverse(q, rcs) && R.Sound(q, rcs, k, r)
    requires c in rcs && R.Fits(q, c) && RX.Relaxed(q, r, c) && R.AccessAllowed(q, c)
    requires c.departureNode in q.NodesAccess() && Admits(q, t)
    requires forall e <- rcs :: t <= Start(q, c) - q.Wait(e)
    ensures var fp := NodeTime(c.departureNode, q.NodesAccess()[c.departureNode]);
            fp in q.accessFootpaths && T.CanStart(q, r, fp) && t <= T.AccessDeparture(q, r, fp)
  {
    var n := c.departureNode;
    T.AccessWalk(q, n);
    assert R.AccessOk(q, rcs, k, r, n);
    var e := r.accessSteps[n].enter;
    assert e in rcs;
    assert ValidConnection(q, e);
    RX.WaitNonNegative(q, rcs, e);
  }

  lemma BestIsNoEarlier(q: Query, r: R.ReverseState, fp: NodeTime, t: int)
    requires ValidQuery(q) && RX.CountOk(r)
    requires fp in q.accessFootpaths && T.CanStart(q, r, fp) && t <= T.AccessDeparture(q, r, fp)
    ensures T.ReverseResult(q, r).Some? && t <= T.ReverseResult(q, r).value.time
  {
    T.BestAccessIsLatest(q, r, |q.accessFootpaths|);
    var j: nat :| j < |q.accessFootpaths| && q.accessFootpaths[j] == fp;
    assert T.CanStart(q, r, q.accessFootpaths[j]);
  }

  // A recorded boarding that may be taken makes the result start by t or later.
  lemma ResultStarts(q: Query, rcs: seq<Connection>, k: nat, r: R.ReverseState, c: Connection, t: int)
    requires R.ValidReverse(q, rcs) && R.Sound(q, rcs, k, r) && RX.CountOk(r) && FreeStart(q, rcs)
    requires T.Boarding(q, rcs, c) && T.CanCatch(q, c) && R.Fits(q, c) && RX.Relaxed(q, r, c)
    requires Admits(q, t) && forall e <- rcs :: t <= Start(q, c) - q.Wait(e)
    ensures T.ReverseResult(q, r).Some? && t <= T.ReverseResult(q, r).value.time
  {
    if q.departureTime != -1 { T.CaughtAllowed(q, rcs, c); }
    EntryStarts(q, rcs, k, r, c, t);
    BestIsNoEarlier(q, r, NodeTime(c.departureNode, q.NodesAccess()[c.departureNode]), t);
  }

  // The break fired before e: the boarding it was computed from starts later.
  lemma NotedStartsLater(q: Query, rcs: seq<Connection>, c: Connection, e: Connection, d: int)
    requires R.ValidReverse(q, rcs) && FreeStart(q, rcs) && SlackAtMost(q, rcs, d)
    requires T.Boarding(q, rcs, c) && T.Boarding(q, rcs, e) && T.CanCatch(q, e) && 0 <= Start(q, e) - d
    requires e.arrivalTime < c.departureTime - MaxTime(q.accessFootpaths)
    ensures T.CanCatch(q, c) && forall r <- rcs :: Start(q, e) - d <= Start(q, c) - q.Wait(r)
  {
    T.AccessWalk(q, c.departureNode);
    T.AccessWalk(q, e.departureNode);
    RX.WaitNonNegative(q, rcs, e);
    forall r | r in rcs ensures Start(q, e) - d <= Start(q, c) - q.Wait(r) {
      assert q.Wait(c) + q.Wait(r) <= d + q.Wait(e);
    }
    assert Start(q, e) - d <= Start(q, c) - q.Wait(c);
    RX.WaitNonNegative(q, rcs, c);
  }

  // Where the scan ended, some access entry starts no earlier than s - d.
  lemma StartFound(q: Query, rcs: seq<Connection>, k: nat, r: R.ReverseState, legs: seq<Leg>, d: int, s: int)
    requires R.ValidReverse(q, rcs) && FreeStart(q, rcs) && SlackAtMost(q, rcs, d)
    requires k <= |rcs| && RX.Invariant(q, rcs, k, r, true)
    requires k < |rcs| ==> R.Fits(q, rcs[k]) && R.Stops(q, r, rcs[k], true)
    requires StartsChain(q, rcs, r.overlay, legs, s) && Admits(q, s - d)
    ensures T.ReverseResult(q, r).Some? && s - d <= T.ReverseResult(q, r).value.time
  {
    var e := legs[0].enter;
    assert IsRide(q, rcs, e, legs[0].exit);
    assert T.CanCatch(q, e);
    if R.InPrefix(rcs, k, e) {
      RX.ReachingFollowed(q, rcs, k, r, legs);
      ResultStarts(q, rcs, k, r, e, s - d);
    } else {
      HiddenByBreak(q, rcs, k, r, e, d);
      var c :| RX.NotedBy(q, rcs, k, r, c);
      NotedStartsLater(q, rcs, c, e, d);
      ResultStarts(q, rcs, k, r, c, s - d);
    }
  }

  // A boarding not scanned though the window admits its start: the break fired.
  lemma HiddenByBreak(q: Query, rcs: seq<Connection>, k: nat, r: R.ReverseState, e: Connection, d: int)
    requires R.ValidReverse(q, rcs) && k <= |rcs| && RX.NoteOk(q, rcs, k, r) && R.Sized(q, r)
    requires k < |rcs| ==> R.Fits(q, rcs[k]) && R.Stops(q, r, rcs[k], true)
    requires T.Boarding(q, rcs, e) && !R.InPrefix(rcs, k, e) && SlackAtMost(q, rcs, d) && Admits(q, Start(q, e) - d)
    ensures r.reachedAccess
    ensures forall c | RX.NotedBy(q, rcs, k, r, c) :: e.arrivalTime < c.departureTime - MaxTime(q.accessFootpaths)
  {
    R.SortedAt(rcs, k, e);
    RX.WaitNonNegative(q, rcs, e);
    T.AccessWalk(q, e.departureNode);
  }

  // Whatever chain of usable rides reaches the destination in time, leaving at s:
  // the reverse calculation finds a start, and no more than the slack before s.
  lemma DepartsWithinSlack(q: Query, rcs: seq<Connection>, overlay: seq<TripQueryData>, legs: seq<Leg>, d: int, s: int)
    requires R.ValidReverse(q, rcs) && FreeStart(q, rcs) && SlackAtMost(q, rcs, d)
    requires |overlay| == q.tripCount && R.NoExits(overlay)
    requires StartsChain(q, rcs, overlay, legs, s) && Admits(q, s - d)
    ensures var a := T.ReverseResult(q, T.ReverseEnd(q, rcs, overlay));
            a.Some? && s - d <= a.value.time
  {
    RX.InitialInvariant(q, rcs, overlay, true);
    var k := RX.ScanInvariant(q, rcs, 0, R.Initial(q, overlay), true);
    var r := T.ReverseEnd(q, rcs, overlay);
    RX.StillTraceable(q, rcs, R.Initial(q, overlay), r, legs);
    StartFound(q, rcs, k, r, legs, d, s);
  }
}
