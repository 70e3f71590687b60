// When a scan reaches no connection at all, which is what the failures "no service"
// stand for.
module Services {
  import opened Network
  import F = ForwardScan
  import R = ReverseScan
  import RX = ReverseExact

  // ---- From the origin ------------------------------------------------------------

  // c runs, can be caught on foot from the origin, neither after too long a wait nor
  // too late for the query.
  ghost predicate CanSetOut(q: Query, cs: seq<Connection>, c: Connection) {
    && c in cs && c.trip !in q.disabledTrips && Departs(q, c)
    && (q.maxFirstWaitingTime > 0 && c.departureNode in q.NodesAccess() ==>
          c.departureTime - (q.departureTime + q.NodesAccess()[c.departureNode]) <= q.maxFirstWaitingTime)
    && c.departureTime - q.departureTime <= q.maxTotalTravelTime
  }

  ghost predicate NoServiceFrom(q: Query, cs: seq<Connection>) {
    forall c <- cs :: !CanSetOut(q, cs, c)
  }

  lemma ReachedFirst(q: Query, cs: seq<Connection>, c: Connection)
    requires F.ValidForward(q, cs) && c in cs && F.Fits(q, c)
        && c.departureTime - q.departureTime <= q.maxTotalTravelTime
    ensures F.Scanned(q, c) && F.Reachable(q, F.Initial(q), c) <==> CanSetOut(q, cs, c)
  {
    var n := c.departureNode;
    assert ValidConnection(q, c);
    if n in q.NodesAccess() {
      assert NodeTime(n, q.NodesAccess()[n]) in q.accessFootpaths;
    }
    if Departs(q, c) {
      var t :| NodeTime(n, t) in q.accessFootpaths && q.departureTime + t + q.Wait(c) <= c.departureTime;
      assert NodeTime(n, t).node in q.NodesAccess();
    }
  }

  lemma {:induction false} CountGrows(q: Query, cs: seq<Connection>, i: nat, st: F.ForwardState, single: bool)
    requires F.ValidForward(q, cs) && i <= |cs| && F.Sized(q, st)
    ensures F.Scan(q, cs, i, st, single).reachableCount >= st.reachableCount
    decreases |cs| - i
  {
    if i < |cs| && !F.Stops(q, st, cs[i], single) {
      assert cs[i] in cs;
      ProcessCounts(q, st, cs[i]);
      CountGrows(q, cs, i + 1, F.Process(q, st, cs[i]), single);
    }
  }

  lemma ProcessCounts(q: Query, st: F.ForwardState, c: Connection)
    requires ValidQuery(q) && F.Sized(q, st) && F.Fits(q, c)
    ensures var r := F.Process(q, st, c);
            if F.Scanned(q, c) && F.Reachable(q, st, c) then r.reachableCount == st.reachableCount + 1 else r == st
  {
    if F.Scanned(q, c) && F.Reachable(q, st, c) { AlightedCounts(q, F.Boarded(q, st, c), c); }
  }

  lemma AlightedCounts(q: Query, st: F.ForwardState, c: Connection)
    requires F.Sized(q, st) && F.Fits(q, c)
    ensures F.Alighted(q, st, c).reachableCount == st.reachableCount
  {
    if c.canUnboard && st.overlay[c.trip].enter.Some? {
      RelaxCounts(q, F.NoteEgress(q, st, c), c, st.overlay[c.trip].enter.value, q.transfers[c.arrivalNode]);
    }
  }

  lemma {:induction false} RelaxCounts(q: Query, st: F.ForwardState, c: Connection, e: Connection, fps: seq<NodeTime>)
    requires F.Sized(q, st) && forall fp <- fps :: fp.node < q.nodeCount
    ensures F.Relax(q, st, c, e, fps).reachableCount == st.reachableCount
    decreases |fps|
  {
    if fps != [] { RelaxCounts(q, F.RelaxOne(q, st, c, e, fps[0]), c, e, fps[1..]); }
  }

  lemma {:induction false} CountFrom(q: Query, cs: seq<Connection>, i: nat, single: bool)
    requires F.ValidForward(q, cs) && i <= |cs|
    ensures F.Scan(q, cs, i, F.Initial(q), single).reachableCount == 0 <==>
            forall j: nat | i <= j < |cs| :: !CanSetOut(q, cs, cs[j])
    decreases |cs| - i
  {
    var st := F.Initial(q);
    if i < |cs| {
      var c := cs[i];
      assert c in cs;
      if F.Stops(q, st, c, single) {
        forall j: nat | i <= j < |cs| ensures !CanSetOut(q, cs, cs[j]) {
          assert cs[i].departureTime <= cs[j].departureTime;
        }
      } else {
        ProcessCounts(q, st, c);
        CountGrows(q, cs, i + 1, F.Process(q, st, c), single);
        if c.departureTime - q.departureTime <= q.maxTotalTravelTime { ReachedFirst(q, cs, c); }
        if F.Process(q, st, c) == st { CountFrom(q, cs, i + 1, single); }
      }
    }
  }

  // A forward scan counts no connection if and only if none can be set out with.
  lemma NothingReached(q: Query, cs: seq<Connection>, single: bool)
    requires F.ValidForward(q, cs)
    ensures F.Scan(q, cs, 0, F.Initial(q), single).reachableCount == 0 <==> NoServiceFrom(q, cs)
  {
    CountFrom(q, cs, 0, single);
  }

  // ---- To the destination -----------------------------------------------------------

  // x runs on a usable trip, the destination is a walk from it in time, and it is
  // not too early for the query.
  ghost predicate CanComeIn(q: Query, rcs: seq<Connection>, overlay: seq<TripQueryData>, x: Connection) {
    && x in rcs && x.trip !in q.disabledTrips && x.trip < |overlay| && overlay[x.trip].usable
    && RX.Finishes(q, x) && q.arrivalTime - x.arrivalTime <= q.maxTotalTravelTime
  }

  ghost predicate NoServiceTo(q: Query, rcs: seq<Connection>, overlay: seq<TripQueryData>) {
    forall x <- rcs :: !CanComeIn(q, rcs, overlay, x)
  }

  lemma ReachedLast(q: Query, rcs: seq<Connection>, overlay: seq<TripQueryData>, x: Connection, single: bool)
    requires R.ValidReverse(q, rcs) && |overlay| == q.tripCount && R.NoExits(overlay)
    requires x in rcs && R.Fits(q, x) && q.arrivalTime - x.arrivalTime <= q.maxTotalTravelTime
    ensures R.Scanned(q, R.Initial(q, overlay), x, single) && R.Reachable(q, R.Initial(q, overlay), x) <==>
            CanComeIn(q, rcs, overlay, x)
  {
    var n := x.arrivalNode;
    RX.WaitNonNegative(q, rcs, x);
    if n in q.NodesEgress() {
      assert NodeTime(n, q.NodesEgress()[n]) in q.egressFootpaths;
    }
    if RX.Finishes(q, x) {
      RX.FinishTime(q, x);
      var t :| NodeTime(n, t) in q.egressFootpaths && x.arrivalTime + t <= q.arrivalTime;
      assert NodeTime(n, t).node in q.NodesEgress();
    }
  }

  lemma {:induction false} ReverseCountGrows(q: Query, rcs: seq<Connection>, i: nat, st: R.ReverseState, single: bool)
    requires R.ValidReverse(q, rcs) && i <= |rcs| && R.Sized(q, st)
    ensures R.Scan(q, rcs, i, st, single).reachableCount >= st.reachableCount
    decreases |rcs| - i
  {
    if i < |rcs| && !R.Stops(q, st, rcs[i], single) {
      assert rcs[i] in rcs;
      ReverseProcessCounts(q, st, rcs[i], single);
      ReverseCountGrows(q, rcs, i + 1, R.Process(q, st, rcs[i], single), single);
    }
  }

  lemma ReverseProcessCounts(q: Query, st: R.ReverseState, c: Connection, single: bool)
    requires R.Sized(q, st) && R.Fits(q, c)
    ensures var r := R.Process(q, st, c, single);
            if R.Scanned(q, st, c, single) && R.Reachable(q, st, c) then r.reachableCount == st.reachableCount + 1
            else r == st
  {
    if R.Scanned(q, st, c, single) && R.Reachable(q, st, c) {
      var st1 := R.ExitChosen(q, st, c);
      if c.canBoard && st1.overlay[c.trip].exit.Some? {
        ReverseRelaxCounts(q, R.NoteAccess(q, st1, c), c, st1.overlay[c.trip].exit.value,
                           q.reverseTransfers[c.departureNode]);
      }
    }
  }

  lemma {:induction false} ReverseRelaxCounts(q: Query, st: R.ReverseState, c: Connection, x: Connection,
                                              fps: seq<NodeTime>)
    requires R.Sized(q, st) && forall fp <- fps :: fp.node < q.nodeCount
    ensures R.Relax(q, st, c, x, fps).reachableCount == st.reachableCount
    decreases |fps|
  {
    if fps != [] { ReverseRelaxCounts(q, R.RelaxOne(q, st, c, x, fps[0]), c, x, fps[1..]); }
  }

  lemma {:induction false} ReverseCountFrom(q: Query, rcs: seq<Connection>, overlay: seq<TripQueryData>, i: nat,
                                            single: bool)
    requires R.ValidReverse(q, rcs) && |overlay| == q.tripCount && R.NoExits(overlay) && i <= |rcs|
    ensures R.Scan(q, rcs, i, R.Initial(q, overlay), single).reachableCount == 0 <==>
            forall j: nat | i <= j < |rcs| :: !CanComeIn(q, rcs, overlay, rcs[j])
    decreases |rcs| - i
  {
    var st := R.Initial(q, overlay);
    if i < |rcs| {
      var c := rcs[i];
      assert c in rcs;
      if R.Stops(q, st, c, single) {
        forall j: nat | i <= j < |rcs| ensures !CanComeIn(q, rcs, overlay, rcs[j]) {
          assert rcs[i].arrivalTime >= rcs[j].arrivalTime;
        }
      } else {
        ReverseProcessCounts(q, st, c, single);
        ReverseCountGrows(q, rcs, i + 1, R.Process(q, st, c, single), single);
        if q.arrivalTime - c.arrivalTime <= q.maxTotalTravelTime { ReachedLast(q, rcs, overlay, c, single); }
        if R.Process(q, st, c, single) == st { ReverseCountFrom(q, rcs, overlay, i + 1, single); }
      }
    }
  }

  // A reverse scan counts no connection if and only if none can be come in with.
  lemma NothingComesIn(q: Query, rcs: seq<Connection>, overlay: seq<TripQueryData>, single: bool)
    requires R.ValidReverse(q, rcs) && |overlay| == q.tripCount && R.NoExits(overlay)
    ensures R.Scan(q, rcs, 0, R.Initial(q, overlay), single).reachableCount == 0 <==> NoServiceTo(q, rcs, overlay)
  {
    ReverseCountFrom(q, rcs, overlay, 0, single);
  }
}
