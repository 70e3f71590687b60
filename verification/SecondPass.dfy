// Exactly when the second pass finds an access node, on every network: some
// boarding that may be recorded must not be hidden by the break.
module SecondPasses {
  import opened Network
  import F = ForwardScan
  import FX = ForwardExact
  import R = ReverseScan
  import RX = ReverseExact
  import T = TwoPass
  import K = Calculators
  import B = BoardedTrips

  // e is boarded at an access node, and the scan can follow a chain of usable rides
  // from there to the destination in time.
  ghost predicate Starts(q: Query, rcs: seq<Connection>, overlay: seq<TripQueryData>, e: Connection) {
    e.departureNode in q.NodesAccess() && RX.Starts(q, rcs, overlay, e)
  }

  // The first of them in scan order, which fixes the bound of the break.
  ghost predicate IsFirst(q: Query, rcs: seq<Connection>, overlay: seq<TripQueryData>, c: Connection) {
    Starts(q, rcs, overlay, c) && forall b | Starts(q, rcs, overlay, b) :: Pos(rcs, c) <= Pos(rcs, b)
  }

  ghost predicate Hidden(q: Query, rcs: seq<Connection>, overlay: seq<TripQueryData>, e: Connection) {
    exists c :: IsFirst(q, rcs, overlay, c) && e.arrivalTime < c.departureTime - MaxTime(q.accessFootpaths)
  }

  // A boarding from which the second pass can return.
  ghost predicate OpenStart(q: Query, rcs: seq<Connection>, overlay: seq<TripQueryData>, e: Connection) {
    Starts(q, rcs, overlay, e) && R.AccessAllowed(q, e) && !Hidden(q, rcs, overlay, e)
  }

  // ---- What the scan knows of the first start -------------------------------

  ghost predicate FirstKnown(q: Query, rcs: seq<Connection>, overlay: seq<TripQueryData>, i: nat, st: R.ReverseState) {
    if st.reachedAccess then
      && (exists c :: NotedFirst(q, rcs, overlay, st, c))
      && (forall b | Starts(q, rcs, overlay, b) && Pos(rcs, b) < i :: Above(q, st, b))
    else
      forall b | Starts(q, rcs, overlay, b) :: i <= Pos(rcs, b)
  }

  // The break does not fire at b.
  ghost predicate Above(q: Query, st: R.ReverseState, b: Connection) {
    b.arrivalTime >= st.tentativeAccessDeparture - MaxTime(q.accessFootpaths)
  }

  ghost predicate NotedFirst(q: Query, rcs: seq<Connection>, overlay: seq<TripQueryData>, st: R.ReverseState,
                             c: Connection) {
    IsFirst(q, rcs, overlay, c) && c.departureTime == st.tentativeAccessDeparture
  }

  ghost predicate Known(q: Query, rcs: seq<Connection>, overlay: seq<TripQueryData>, i: nat, st: R.ReverseState)
    requires forall c <- rcs :: R.Fits(q, c)
  {
    RX.Invariant(q, rcs, i, st, true) && RX.SameUsable(overlay, st.overlay) && FirstKnown(q, rcs, overlay, i, st)
  }

  lemma StartsStay(q: Query, rcs: seq<Connection>, overlay: seq<TripQueryData>, st: R.ReverseState, e: Connection)
    requires RX.SameUsable(overlay, st.overlay)
    ensures RX.Starts(q, rcs, overlay, e) <==> RX.Starts(q, rcs, st.overlay, e)
  {
    RX.StartsAlike(q, rcs, overlay, st.overlay, e);
  }

  // A start is a connection the scan looks at.
  lemma StartScanned(q: Query, rcs: seq<Connection>, overlay: seq<TripQueryData>, st: R.ReverseState, e: Connection)
    requires R.ValidReverse(q, rcs) && R.Sized(q, st) && RX.SameUsable(overlay, st.overlay)
    requires Starts(q, rcs, overlay, e)
    ensures R.Fits(q, e) && R.Scanned(q, st, e, true) && e.canBoard
  {
    var legs: seq<Leg> :| RX.StartsWith(q, rcs, overlay, e, legs);
    RX.ReachingInTime(q, rcs, legs);
    assert IsRide(q, rcs, legs[0].enter, legs[0].exit);
    assert legs[0] in legs;
  }

  // When a start has been processed, its trip has an exit.
  lemma StartHasExit(q: Query, rcs: seq<Connection>, i: nat, st: R.ReverseState, e: Connection)
    requires R.ValidReverse(q, rcs) && RX.Complete(q, rcs, i, st)
    requires RX.Starts(q, rcs, st.overlay, e) && R.InPrefix(rcs, i, e)
    ensures e.trip < q.tripCount && st.overlay[e.trip].exit.Some?
  {
    var legs: seq<Leg> :| RX.StartsWith(q, rcs, st.overlay, e, legs);
    RX.StartRides(q, rcs, st.overlay, legs);
    var x := legs[0].exit;
    RX.RideTime(q, rcs, e, x);
    assert R.Fits(q, x);
    assert RX.ExitNoted(q, rcs, st, Pos(rcs, x));
  }

  // A scanned boarding whose trip ends up with an exit has set the bound, now or before.
  lemma BoardingNoted(q: Query, st: R.ReverseState, c: Connection)
    requires ValidQuery(q) && R.Sized(q, st) && R.Fits(q, c) && 0 <= q.Wait(c)
    requires R.Scanned(q, st, c, true) && c.canBoard && c.departureNode in q.NodesAccess()
    requires R.Process(q, st, c, true).overlay[c.trip].exit.Some?
    ensures R.Process(q, st, c, true).reachedAccess
  {
    T.AccessWalk(q, c.departureNode);
    if R.Reachable(q, st, c) {
      var st1 := R.ExitChosen(q, st, c);
      RX.BoardedEffect(q, st1, c);
      if st1.overlay[c.trip].exit.Some? {
        RX.RelaxEffect(q, R.NoteAccess(q, st1, c), c, st1.overlay[c.trip].exit.value,
                       q.reverseTransfers[c.departureNode]);
      }
    }
  }

  // A trip's exit noted in the prefix makes the boarding at position i a start.
  lemma BoardingStarts(q: Query, rcs: seq<Connection>, overlay: seq<TripQueryData>, i: nat, r: R.ReverseState)
    requires R.ValidReverse(q, rcs) && i < |rcs| && R.Sound(q, rcs, i + 1, r) && RX.Backed(q, rcs, r)
    requires RX.SameUsable(overlay, r.overlay)
    requires rcs[i].canBoard && rcs[i].trip !in q.disabledTrips && rcs[i].departureNode in q.NodesAccess()
    requires R.Fits(q, rcs[i]) && r.overlay[rcs[i].trip].exit.Some?
    ensures Starts(q, rcs, overlay, rcs[i])
  {
    var c := rcs[i];
    R.PosAt(rcs, i);
    assert R.TripOk(q, rcs, i + 1, r, c.trip) && RX.ExitBacked(q, rcs, r, c.trip);
    var x := r.overlay[c.trip].exit.value;
    R.TripOrder(rcs, c, x);
    RX.RideStarts(q, rcs, r.overlay, c, x);
    StartsStay(q, rcs, overlay, r, c);
  }

  // ---- One iteration ----------------------------------------------------------

  lemma KnownBefore(q: Query, rcs: seq<Connection>, overlay: seq<TripQueryData>, i: nat, st: R.ReverseState,
                    r: R.ReverseState)
    requires R.ValidReverse(q, rcs) && i < |rcs| && R.Sized(q, st)
    requires RX.SameUsable(overlay, st.overlay) && FirstKnown(q, rcs, overlay, i, st) && st.reachedAccess
    requires r.reachedAccess && r.tentativeAccessDeparture == st.tentativeAccessDeparture
    requires R.Fits(q, rcs[i]) && !R.Stops(q, st, rcs[i], true)
    ensures FirstKnown(q, rcs, overlay, i + 1, r)
  {
    var c :| NotedFirst(q, rcs, overlay, st, c);
    assert NotedFirst(q, rcs, overlay, r, c);
    T.AccessWalk(q, c.departureNode);
    forall b | Starts(q, rcs, overlay, b) && Pos(rcs, b) < i + 1 ensures Above(q, r, b) {
      if Pos(rcs, b) == i { PassedAbove(q, rcs, overlay, i, st, b); }
      assert Above(q, st, b);
    }
  }

  lemma PassedAbove(q: Query, rcs: seq<Connection>, overlay: seq<TripQueryData>, i: nat, st: R.ReverseState,
                    b: Connection)
    requires R.ValidReverse(q, rcs) && i < |rcs| && R.Sized(q, st)
    requires RX.SameUsable(overlay, st.overlay) && st.reachedAccess && 0 <= MaxTime(q.accessFootpaths)
    requires R.Fits(q, rcs[i]) && !R.Stops(q, st, rcs[i], true)
    requires Starts(q, rcs, overlay, b) && Pos(rcs, b) == i
    ensures Above(q, st, b)
  {
    StartScanned(q, rcs, overlay, st, b);
  }

  lemma KnownNow(q: Query, rcs: seq<Connection>, overlay: seq<TripQueryData>, i: nat, st: R.ReverseState,
                 r: R.ReverseState)
    requires R.ValidReverse(q, rcs) && i < |rcs| && FirstKnown(q, rcs, overlay, i, st) && !st.reachedAccess
    requires r.reachedAccess && r.tentativeAccessDeparture == rcs[i].departureTime
    requires Starts(q, rcs, overlay, rcs[i])
    ensures FirstKnown(q, rcs, overlay, i + 1, r)
  {
    var c := rcs[i];
    R.PosAt(rcs, i);
    assert NotedFirst(q, rcs, overlay, r, c);
    T.AccessWalk(q, c.departureNode);
    RX.WaitNonNegative(q, rcs, c);
    forall b | Starts(q, rcs, overlay, b) && Pos(rcs, b) < i + 1 ensures Above(q, r, b) {
      assert Pos(rcs, b) == i && b == c;
    }
  }

  lemma KnownNotYet(q: Query, rcs: seq<Connection>, overlay: seq<TripQueryData>, i: nat, st: R.ReverseState)
    requires R.ValidReverse(q, rcs) && i < |rcs| && R.Sized(q, st)
    requires R.Fits(q, rcs[i]) && RX.SameUsable(overlay, st.overlay)
    requires FirstKnown(q, rcs, overlay, i, st) && !st.reachedAccess
    requires var r := R.Process(q, st, rcs[i], true);
             RX.Complete(q, rcs, i + 1, r) && RX.SameUsable(overlay, r.overlay) && !r.reachedAccess
    ensures FirstKnown(q, rcs, overlay, i + 1, R.Process(q, st, rcs[i], true))
  {
    var c, r := rcs[i], R.Process(q, st, rcs[i], true);
    R.PosAt(rcs, i);
    RX.WaitNonNegative(q, rcs, c);
    forall b | Starts(q, rcs, overlay, b) ensures i + 1 <= Pos(rcs, b) {
      if Pos(rcs, b) == i {
        StartsStay(q, rcs, overlay, r, b);
        StartScanned(q, rcs, overlay, st, b);
        StartHasExit(q, rcs, i + 1, r, b);
        BoardingNoted(q, st, c);
      }
    }
  }

  lemma ProcessKnows(q: Query, rcs: seq<Connection>, overlay: seq<TripQueryData>, i: nat, st: R.ReverseState)
    requires R.ValidReverse(q, rcs) && i < |rcs| && Known(q, rcs, overlay, i, st)
    requires R.Fits(q, rcs[i]) && !R.Stops(q, st, rcs[i], true)
    ensures Known(q, rcs, overlay, i + 1, R.Process(q, st, rcs[i], true))
  {
    var c, r := rcs[i], R.Process(q, st, rcs[i], true);
    RX.ProcessKeeps(q, rcs, i, st, true);
    RX.WaitNonNegative(q, rcs, c);
    RX.KeepsNote(q, st, c, true);
    if st.reachedAccess {
      KnownBefore(q, rcs, overlay, i, st, r);
    } else if r.reachedAccess {
      BoardingStarts(q, rcs, overlay, i, r);
      KnownNow(q, rcs, overlay, i, st, r);
    } else {
      KnownNotYet(q, rcs, overlay, i, st);
    }
  }

  lemma {:induction false} ScanKnows(q: Query, rcs: seq<Connection>, overlay: seq<TripQueryData>, i: nat,
                                     st: R.ReverseState)
    returns (k: nat)
    requires R.ValidReverse(q, rcs) && i <= |rcs| && Known(q, rcs, overlay, i, st)
    ensures i <= k <= |rcs| && Known(q, rcs, overlay, k, R.Scan(q, rcs, i, st, true))
    ensures k < |rcs| ==> R.Fits(q, rcs[k]) && R.Stops(q, R.Scan(q, rcs, i, st, true), rcs[k], true)
    decreases |rcs| - i
  {
    if i == |rcs| || R.Stops(q, st, rcs[i], true) {
      k := i;
      if i < |rcs| { assert rcs[i] in rcs; }
    } else {
      assert rcs[i] in rcs;
      ProcessKnows(q, rcs, overlay, i, st);
      k := ScanKnows(q, rcs, overlay, i + 1, R.Process(q, st, rcs[i], true));
    }
  }

  // ---- The whole pass ---------------------------------------------------------

  // A requested departure and arrival that fit the maximum.
  ghost predicate Window(q: Query) {
    0 <= q.departureTime && q.arrivalTime - q.departureTime <= q.maxTotalTravelTime
  }

  // A start that may be recorded but was not scanned is hidden.
  lemma UnscannedHidden(q: Query, rcs: seq<Connection>, overlay: seq<TripQueryData>, k: nat, r: R.ReverseState,
                        e: Connection)
    requires R.ValidReverse(q, rcs) && Window(q)
    requires k <= |rcs| && Known(q, rcs, overlay, k, r)
    requires k < |rcs| ==> R.Fits(q, rcs[k]) && R.Stops(q, r, rcs[k], true)
    requires Starts(q, rcs, overlay, e) && R.AccessAllowed(q, e) && k <= Pos(rcs, e)
    ensures Hidden(q, rcs, overlay, e)
  {
    R.SortedAt(rcs, k, e);
    T.AccessWalk(q, e.departureNode);
    RX.WaitNonNegative(q, rcs, e);
    var c :| NotedFirst(q, rcs, overlay, r, c);
  }

  // An open start has been recorded where the scan ended.
  lemma OpenRecorded(q: Query, rcs: seq<Connection>, overlay: seq<TripQueryData>, k: nat, r: R.ReverseState,
                     e: Connection)
    requires R.ValidReverse(q, rcs) && Window(q)
    requires k <= |rcs| && Known(q, rcs, overlay, k, r)
    requires k < |rcs| ==> R.Fits(q, rcs[k]) && R.Stops(q, r, rcs[k], true)
    requires OpenStart(q, rcs, overlay, e)
    ensures e.departureNode in r.accessSteps
  {
    if k <= Pos(rcs, e) { UnscannedHidden(q, rcs, overlay, k, r, e); }
    StartsStay(q, rcs, overlay, r, e);
    assert RX.Covered(q, rcs, r, Pos(rcs, e));
  }

  lemma RecordedStarts(q: Query, rcs: seq<Connection>, overlay: seq<TripQueryData>, k: nat, r: R.ReverseState, n: nat)
    requires R.Sound(q, rcs, k, r) && RX.Backed(q, rcs, r) && RX.SameUsable(overlay, r.overlay)
    requires n in r.accessSteps && n in q.NodesAccess()
    ensures var e := r.accessSteps[n].enter;
            Starts(q, rcs, overlay, e) && R.AccessAllowed(q, e) && Pos(rcs, e) < k
  {
    RX.AccessStarts(q, rcs, k, r, n);
    StartsStay(q, rcs, overlay, r, r.accessSteps[n].enter);
  }

  // No start that was scanned is hidden.
  lemma ScannedNotHidden(q: Query, rcs: seq<Connection>, overlay: seq<TripQueryData>, k: nat, r: R.ReverseState,
                         e: Connection)
    requires FirstKnown(q, rcs, overlay, k, r) && Starts(q, rcs, overlay, e) && Pos(rcs, e) < k
    ensures !Hidden(q, rcs, overlay, e)
  {
    assert Above(q, r, e);
    var d :| NotedFirst(q, rcs, overlay, r, d);
    forall c | IsFirst(q, rcs, overlay, c) ensures c == d {
      assert rcs[Pos(rcs, c)] == c && rcs[Pos(rcs, d)] == d;
    }
  }

  // Whatever entry the scan recorded is an open start.
  lemma RecordedIsOpen(q: Query, rcs: seq<Connection>, overlay: seq<TripQueryData>, k: nat, r: R.ReverseState, n: nat)
    requires R.ValidReverse(q, rcs) && Known(q, rcs, overlay, k, r)
    requires n in r.accessSteps && n in q.NodesAccess()
    ensures OpenStart(q, rcs, overlay, r.accessSteps[n].enter)
  {
    RecordedStarts(q, rcs, overlay, k, r, n);
    ScannedNotHidden(q, rcs, overlay, k, r, r.accessSteps[n].enter);
  }

  // With a requested departure, and for any first-wait limit, the reverse pass
  // finds an access node if and only if some start is open.
  lemma FindsExactly(q: Query, rcs: seq<Connection>, overlay: seq<TripQueryData>)
    requires R.ValidReverse(q, rcs) && Window(q)
    requires |overlay| == q.tripCount && R.NoExits(overlay)
    ensures T.ReverseResult(q, T.ReverseEnd(q, rcs, overlay)).Some? <==> exists e :: OpenStart(q, rcs, overlay, e)
  {
    RX.InitialInvariant(q, rcs, overlay, true);
    var k := ScanKnows(q, rcs, overlay, 0, R.Initial(q, overlay));
    var r := T.ReverseEnd(q, rcs, overlay);
    if T.ReverseResult(q, r).Some? {
      var n := T.ResultNode(q, r);
      RecordedIsOpen(q, rcs, overlay, k, r, n);
    }
    if e :| OpenStart(q, rcs, overlay, e) {
      OpenRecorded(q, rcs, overlay, k, r, e);
      T.AccessFound(q, rcs, k, r, e.departureNode);
    }
  }

  // ---- Both passes --------------------------------------------------------------

  lemma ForwardWindow(q: Query, cs: seq<Connection>)
    requires F.ValidForward(q, cs) && 0 <= q.departureTime
    ensures R.NoExits(T.ForwardEnd(q, cs).overlay) && |T.ForwardEnd(q, cs).overlay| == q.tripCount
    ensures var b := FX.ForwardResult(q, T.ForwardEnd(q, cs));
            b.Some? ==> Window(T.ReverseQuery(q, b.value.time))
  {
    FX.InitialInvariant(q, cs);
    var k := FX.ScanInvariant(q, cs, 0, F.Initial(q), true);
    var st := T.ForwardEnd(q, cs);
    T.ForwardOverlayFresh(q, cs, k, st);
    FX.SoundInRange(q, cs, k, st);
    FX.BestEgressIsLeast(q, st, |q.egressFootpaths|);
  }

  // Only which trips are usable matters.
  lemma OpenAlike(q: Query, rcs: seq<Connection>, overlay: seq<TripQueryData>, other: seq<TripQueryData>, e: Connection)
    requires RX.SameUsable(overlay, other)
    ensures OpenStart(q, rcs, overlay, e) <==> OpenStart(q, rcs, other, e)
  {
    forall b ensures Starts(q, rcs, overlay, b) <==> Starts(q, rcs, other, b) {
      RX.StartsAlike(q, rcs, overlay, other, b);
    }
    forall c ensures IsFirst(q, rcs, overlay, c) <==> IsFirst(q, rcs, other, c) {}
  }

  // The trips that can be boarded in the first pass, before its break.
  ghost function BoardedOverlay(q: Query, cs: seq<Connection>): (overlay: seq<TripQueryData>)
    ensures |overlay| == q.tripCount
    ensures forall t: nat | t < q.tripCount :: overlay[t].usable <==> B.IsBoarded(q, cs, t)
  {
    seq(q.tripCount, t requires 0 <= t < q.tripCount => FRESH_TRIP.(usable := B.IsBoarded(q, cs, t)))
  }

  // t is the earliest arrival the first pass can find, and e a start open to the
  // second pass that looks back from it over the trips that can be boarded.
  ghost predicate Answerable(q: Query, cs: seq<Connection>, rcs: seq<Connection>, t: int, e: Connection) {
    FX.EarliestScanArrival(q, cs, t) && OpenStart(T.ReverseQuery(q, t), rcs, BoardedOverlay(q, cs), e)
  }

  lemma SecondFinds(q: Query, cs: seq<Connection>, rcs: seq<Connection>, t: int)
    requires T.ValidTwoPass(q, cs, rcs)
    requires FX.ForwardResult(q, T.ForwardEnd(q, cs)).Some? && t == FX.ForwardResult(q, T.ForwardEnd(q, cs)).value.time
    ensures K.ReverseFinds(T.ReverseQuery(q, t), rcs, T.ForwardEnd(q, cs).overlay) <==>
            exists e :: OpenStart(T.ReverseQuery(q, t), rcs, BoardedOverlay(q, cs), e)
  {
    var q2, overlay, boarded := T.ReverseQuery(q, t), T.ForwardEnd(q, cs).overlay, BoardedOverlay(q, cs);
    ForwardWindow(q, cs);
    T.ReverseValid(q, rcs, t);
    FindsExactly(q2, rcs, overlay);
    forall trip: nat | trip < q.tripCount ensures overlay[trip].usable == boarded[trip].usable {
      B.UsableIffBoarded(q, cs, trip);
    }
    forall e ensures OpenStart(q2, rcs, overlay, e) <==> OpenStart(q2, rcs, boarded, e) {
      OpenAlike(q2, rcs, overlay, boarded, e);
    }
  }

  // On every network and for every first-wait limit, a forward query finds a route
  // exactly if the data make it answerable, and its target is then that arrival.
  lemma FoundIffOpen(q: Query, cs: seq<Connection>, rcs: seq<Connection>, found: bool, target: int)
    requires T.ValidTwoPass(q, cs, rcs)
    requires K.ForwardThenReverse(q, cs, rcs, found, target)
    ensures found <==> exists t, e :: Answerable(q, cs, rcs, t, e)
    ensures found ==> FX.EarliestScanArrival(q, cs, target)
  {
    FX.SingleFollows(q, cs);
    var b := FX.ForwardResult(q, T.ForwardEnd(q, cs));
    if b.Some? {
      var t := b.value.time;
      SecondFinds(q, cs, rcs, t);
      if found {
        var e :| OpenStart(T.ReverseQuery(q, t), rcs, BoardedOverlay(q, cs), e);
        assert Answerable(q, cs, rcs, t, e);
      }
      if u, e :| Answerable(q, cs, rcs, u, e) {
        EarliestIsUnique(q, cs, t, u);
      }
    }
  }

  lemma EarliestIsUnique(q: Query, cs: seq<Connection>, t: int, u: int)
    requires FX.EarliestScanArrival(q, cs, t) && FX.EarliestScanArrival(q, cs, u)
    ensures t == u
  {
  }
}
