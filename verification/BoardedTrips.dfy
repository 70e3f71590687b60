// Which trips the first pass leaves usable for the second one, and when a route
// is found, read off the data alone.
module BoardedTrips {
  import opened Network
  import opened ForwardScan
  import opened ForwardExact

  // ---- The first alighting at an egress node, and the break ------------------

  // A journey the scan can follow ends with x at an egress node.
  ghost predicate Ends(q: Query, cs: seq<Connection>, x: Connection) {
    && x in cs && x.arrivalNode in q.NodesEgress()
    && exists legs: seq<Leg> :: EndsWith(q, cs, x, legs)
  }

  ghost predicate EndsWith(q: Query, cs: seq<Connection>, x: Connection, legs: seq<Leg>) {
    Scannable(q, cs, |cs|, legs) && Last(legs).exit == x
  }

  // The first of them in scan order, which fixes the bound of the break.
  ghost predicate IsFirstEnd(q: Query, cs: seq<Connection>, x: Connection) {
    Ends(q, cs, x) && forall y | Ends(q, cs, y) :: Pos(cs, x) <= Pos(cs, y)
  }

  // c departs too late to be looked at.
  ghost predicate Beyond(q: Query, cs: seq<Connection>, c: Connection) {
    || c.departureTime - q.departureTime > q.maxTotalTravelTime
    || exists x :: IsFirstEnd(q, cs, x) && c.departureTime > x.arrivalTime + MaxTime(q.egressFootpaths)
  }

  // ---- The boarded trips ------------------------------------------------------

  // c can be boarded from the origin, or after a journey the scan followed before it.
  ghost predicate Boards(q: Query, cs: seq<Connection>, c: Connection) {
    && c in cs && Scanned(q, c) && c.canBoard && Admitted(q, cs, c)
    && (Departs(q, c) || exists legs: seq<Leg> :: BoardsAfter(q, cs, c, legs))
  }

  ghost predicate BoardsAfter(q: Query, cs: seq<Connection>, c: Connection, legs: seq<Leg>)
    requires c in cs
  {
    Scannable(q, cs, Pos(cs, c), legs) && Handoff(q, Last(legs).exit, c)
  }

  ghost predicate IsBoarded(q: Query, cs: seq<Connection>, t: nat) {
    exists c: Connection :: c.trip == t && Boards(q, cs, c) && !Beyond(q, cs, c)
  }

  // ---- What the scan knows of the first end -----------------------------------

  ghost predicate FirstEndKnown(q: Query, cs: seq<Connection>, i: nat, st: ForwardState) {
    if st.reachedEgress then exists x :: NotedEnd(q, cs, st, x)
    else forall y | Ends(q, cs, y) :: i <= Pos(cs, y)
  }

  ghost predicate NotedEnd(q: Query, cs: seq<Connection>, st: ForwardState, x: Connection) {
    IsFirstEnd(q, cs, x) && x.arrivalTime == st.tentativeEgressArrival
  }

  // No connection looked at lies beyond the break.
  ghost predicate NotBeyond(q: Query, cs: seq<Connection>, j: nat)
    requires j < |cs|
  {
    Scanned(q, cs[j]) ==> !Beyond(q, cs, cs[j])
  }

  ghost predicate Known(q: Query, cs: seq<Connection>, i: nat, st: ForwardState)
    requires forall c <- cs :: Fits(q, c)
  {
    && i <= |cs| && Invariant(q, cs, i, st) && FirstEndKnown(q, cs, i, st)
    && forall j: nat | j < i :: NotBeyond(q, cs, j)
  }

  lemma EgressWalk(q: Query, n: nat)
    requires ValidQuery(q) && n in q.NodesEgress()
    ensures 0 <= q.NodesEgress()[n] <= MaxTime(q.egressFootpaths)
  {
    var fp := NodeTime(n, q.NodesEgress()[n]);
    assert fp in q.egressFootpaths;
    assert 0 <= fp.time <= MaxTime(q.egressFootpaths);
  }

  // ---- One iteration ------------------------------------------------------------

  // The bound is set once, by a ride to an egress node.
  lemma KeepsEnd(q: Query, st: ForwardState, c: Connection)
    requires ValidTransfers(q) && Sized(q, st) && Fits(q, c) && 0 <= q.maxTransferWalkingTime
    ensures var r := Process(q, st, c);
            if st.reachedEgress then r.reachedEgress && r.tentativeEgressArrival == st.tentativeEgressArrival
            else r.reachedEgress ==>
              && Scanned(q, c) && Reachable(q, st, c) && c.canUnboard && r.overlay[c.trip].enter.Some?
              && c.arrivalNode in q.NodesEgress() && r.tentativeEgressArrival == c.arrivalTime
  {
    if Scanned(q, c) && Reachable(q, st, c) {
      var st1 := Boarded(q, st, c);
      if c.canUnboard && st1.overlay[c.trip].enter.Some? {
        RelaxEffect(q, NoteEgress(q, st1, c), c, st1.overlay[c.trip].enter.value, q.transfers[c.arrivalNode]);
      }
    }
  }

  lemma EndNoted(q: Query, st: ForwardState, c: Connection)
    requires ValidQuery(q) && Sized(q, st) && Fits(q, c)
    requires Scanned(q, c) && Reachable(q, st, c) && c.canUnboard && c.arrivalNode in q.NodesEgress()
    requires Process(q, st, c).overlay[c.trip].enter.Some?
    ensures Process(q, st, c).reachedEgress
  {
    EgressWalk(q, c.arrivalNode);
    var st1 := Boarded(q, st, c);
    AlightedEffect(q, st1, c);
    RelaxEffect(q, NoteEgress(q, st1, c), c, st1.overlay[c.trip].enter.value, q.transfers[c.arrivalNode]);
  }

  // A trip entered in the prefix makes the alighting at position i an end.
  lemma AlightingEnds(q: Query, cs: seq<Connection>, i: nat, r: ForwardState)
    requires ValidForward(q, cs) && i < |cs| && Sound(q, cs, i + 1, r) && Honest(q, cs, r) && Fits(q, cs[i])
    requires cs[i].canUnboard && cs[i].arrivalNode in q.NodesEgress() && Admitted(q, cs, cs[i])
    requires r.overlay[cs[i].trip].enter.Some?
    ensures Ends(q, cs, cs[i])
  {
    var c, next := cs[i], i + 1;
    PosAt(cs, i);
    assert TripOk(q, cs, next, r, c.trip);
    var e := r.overlay[c.trip].enter.value;
    TripOrder(cs, e, c);
    var s := Ride(e, c, 0);
    assert RodeFrom(q, cs, next, r, s);
    LegsToScannable(q, cs, next, r, s);
    ScannableMore(q, cs, next, |cs|, LegsTo(q, cs, next, r, s));
    assert EndsWith(q, cs, c, LegsTo(q, cs, next, r, s));
  }

  // An end is scanned, and once it has been, its trip is entered.
  lemma EndExited(q: Query, cs: seq<Connection>, i: nat, r: ForwardState, x: Connection)
    requires ValidForward(q, cs) && Sound(q, cs, i, r) && Complete(q, cs, i, r)
    requires Ends(q, cs, x) && Pos(cs, x) < i
    ensures Fits(q, x) && Exited(q, cs, r, Pos(cs, x)) && r.overlay[x.trip].enter.Some?
  {
    var legs: seq<Leg> :| EndsWith(q, cs, x, legs);
    ScannableUpTo(q, cs, |cs|, i, legs);
    JourneyFollowed(q, cs, i, r, legs);
  }

  lemma ExitedReachable(q: Query, cs: seq<Connection>, i: nat, st: ForwardState)
    requires ValidForward(q, cs) && i < |cs| && Sound(q, cs, i, st) && Complete(q, cs, i, st) && Fits(q, cs[i])
    requires Exited(q, cs, Process(q, st, cs[i]), i)
    ensures Reachable(q, st, cs[i])
  {
    var c := cs[i];
    assert c in cs;
    ProcessEffect(q, st, c);
    if FirstWaitLimited(q, st, c) { AdmittedPasses(q, cs, i, st); }
  }

  lemma FirstEndNotYet(q: Query, cs: seq<Connection>, i: nat, st: ForwardState)
    requires ValidForward(q, cs) && i < |cs| && Sound(q, cs, i, st) && Complete(q, cs, i, st) && Fits(q, cs[i])
    requires FirstEndKnown(q, cs, i, st) && !st.reachedEgress
    requires var r := Process(q, st, cs[i]);
             Sound(q, cs, i + 1, r) && Complete(q, cs, i + 1, r) && !r.reachedEgress
    ensures FirstEndKnown(q, cs, i + 1, Process(q, st, cs[i]))
  {
    var c, r, next := cs[i], Process(q, st, cs[i]), i + 1;
    forall y | Ends(q, cs, y) ensures next <= Pos(cs, y) {
      if Pos(cs, y) == i {
        EndExited(q, cs, next, r, y);
        ExitedReachable(q, cs, i, st);
        EndNoted(q, st, c);
      }
    }
  }

  lemma FirstEndNow(q: Query, cs: seq<Connection>, i: nat, st: ForwardState, r: ForwardState)
    requires ForwardSorted(cs) && i < |cs| && FirstEndKnown(q, cs, i, st) && !st.reachedEgress
    requires r.reachedEgress && r.tentativeEgressArrival == cs[i].arrivalTime && Ends(q, cs, cs[i])
    ensures FirstEndKnown(q, cs, i + 1, r)
  {
    PosAt(cs, i);
    assert NotedEnd(q, cs, r, cs[i]);
  }

  lemma FirstEndBefore(q: Query, cs: seq<Connection>, i: nat, st: ForwardState, r: ForwardState)
    requires FirstEndKnown(q, cs, i, st) && st.reachedEgress
    requires r.reachedEgress && r.tentativeEgressArrival == st.tentativeEgressArrival
    ensures FirstEndKnown(q, cs, i + 1, r)
  {
    var x :| NotedEnd(q, cs, st, x);
    assert NotedEnd(q, cs, r, x);
  }

  lemma FirstIsUnique(q: Query, cs: seq<Connection>, x: Connection, y: Connection)
    requires IsFirstEnd(q, cs, x) && IsFirstEnd(q, cs, y)
    ensures x == y
  {
    assert cs[Pos(cs, x)] == x && cs[Pos(cs, y)] == y;
  }

  // The break fires at a connection exactly if it lies beyond.
  lemma StopsIffBeyond(q: Query, cs: seq<Connection>, i: nat, st: ForwardState)
    requires ValidForward(q, cs) && i < |cs| && FirstEndKnown(q, cs, i, st) && Scanned(q, cs[i])
    ensures Stops(q, st, cs[i], true) <==> Beyond(q, cs, cs[i])
  {
    var c := cs[i];
    if st.reachedEgress {
      var x :| NotedEnd(q, cs, st, x);
      assert ValidConnection(q, x);
      EgressWalk(q, x.arrivalNode);
      forall y | IsFirstEnd(q, cs, y) ensures y == x { FirstIsUnique(q, cs, x, y); }
    } else {
      forall y | IsFirstEnd(q, cs, y) ensures c.departureTime <= y.arrivalTime + MaxTime(q.egressFootpaths) {
        SortedAt(cs, i, y);
        assert ValidConnection(q, y);
        EgressWalk(q, y.arrivalNode);
      }
    }
  }

  lemma ProcessKnows(q: Query, cs: seq<Connection>, i: nat, st: ForwardState)
    requires ValidForward(q, cs) && i < |cs| && Known(q, cs, i, st) && !Stops(q, st, cs[i], true)
    ensures Known(q, cs, i + 1, Process(q, st, cs[i]))
  {
    var c, r := cs[i], Process(q, st, cs[i]);
    assert c in cs;
    ProcessKeeps(q, cs, i, st);
    KeepsEnd(q, st, c);
    if Scanned(q, c) { StopsIffBeyond(q, cs, i, st); }
    if st.reachedEgress {
      FirstEndBefore(q, cs, i, st, r);
    } else if r.reachedEgress {
      PassedIsAdmitted(q, cs, i, st);
      AlightingEnds(q, cs, i, r);
      FirstEndNow(q, cs, i, st, r);
    } else {
      FirstEndNotYet(q, cs, i, st);
    }
  }

  lemma {:induction false} ScanKnows(q: Query, cs: seq<Connection>, i: nat, st: ForwardState) returns (k: nat)
    requires ValidForward(q, cs) && Known(q, cs, i, st)
    ensures i <= k && Known(q, cs, k, Scan(q, cs, i, st, true))
    ensures k < |cs| ==> Stops(q, Scan(q, cs, i, st, true), cs[k], true)
    decreases |cs| - i
  {
    if i == |cs| || Stops(q, st, cs[i], true) {
      k := i;
    } else {
      ProcessKnows(q, cs, i, st);
      k := ScanKnows(q, cs, i + 1, Process(q, st, cs[i]));
    }
  }

  // ---- Usable trips ---------------------------------------------------------------

  lemma WalkScanned(q: Query, e: Connection)
    requires ValidQuery(q) && ValidConnection(q, e) && e.trip !in q.disabledTrips && Departs(q, e)
    ensures Scanned(q, e)
  {
  }

  // Whatever trip the scan entered it entered at a connection that can be boarded.
  lemma EnteredBoards(q: Query, cs: seq<Connection>, k: nat, r: ForwardState, t: nat, e: Connection)
    requires ValidForward(q, cs) && k <= |cs| && Sound(q, cs, k, r) && Honest(q, cs, r)
    requires t < q.tripCount && r.overlay[t].enter == Some(e)
    ensures e.trip == t && InPrefix(cs, k, e) && Boards(q, cs, e)
  {
    EnterBehind(q, cs, k, r, t, e);
    assert TripOk(q, cs, k, r, t) && EnterAdmitted(q, cs, r, t);
    assert ValidConnection(q, e);
    var prev := r.steps[e.departureNode];
    if prev.Ride? {
      assert StepAdmitted(q, cs, r, e.departureNode);
      LegsToScannable(q, cs, k, r, prev);
      var legs := LegsTo(q, cs, k, r, prev);
      ScannableUpTo(q, cs, k, Pos(cs, e), legs);
      JourneyScanned(q, cs, legs);
      LastRide(q, cs, legs);
      HandoffTime(q, cs, prev.exit, e);
      assert BoardsAfter(q, cs, e, legs);
    } else {
      WalkScanned(q, e);
    }
  }

  // A boarding that is not beyond the break was looked at.
  lemma BoardingSeen(q: Query, cs: seq<Connection>, k: nat, r: ForwardState, c: Connection)
    requires ValidForward(q, cs) && k <= |cs| && FirstEndKnown(q, cs, k, r)
    requires k < |cs| ==> Stops(q, r, cs[k], true)
    requires c in cs && !Beyond(q, cs, c)
    ensures Pos(cs, c) < k
  {
    if k <= Pos(cs, c) {
      SortedAt(cs, k, c);
      StopsIffBeyond(q, cs, k, r);
    }
  }

  // ... and has its trip entered, there or before.
  lemma BoardingEntered(q: Query, cs: seq<Connection>, k: nat, r: ForwardState, c: Connection)
    requires ValidForward(q, cs) && k <= |cs| && Sound(q, cs, k, r) && Complete(q, cs, k, r)
    requires Boards(q, cs, c) && Pos(cs, c) < k
    ensures Fits(q, c) && EnteredBy(q, cs, r, Pos(cs, c))
  {
    var j := Pos(cs, c);
    assert Fits(q, c);
    if Departs(q, c) {
      assert BoardedFirst(q, cs, r, j);
    } else {
      var legs: seq<Leg> :| BoardsAfter(q, cs, c, legs);
      ScannableMore(q, cs, j, k, legs);
      JourneyFollowed(q, cs, k, r, legs);
      LastPassable(q, cs, j, legs);
      assert BoardedNext(q, cs, r, Pos(cs, Last(legs).exit), j);
    }
  }

  lemma LastPassable(q: Query, cs: seq<Connection>, p: nat, legs: seq<Leg>)
    requires Scannable(q, cs, p, legs)
    ensures Last(legs).exit in cs && Pos(cs, Last(legs).exit) < p
  {
    assert Last(legs) in legs;
    assert Passable(q, cs, p, Last(legs));
  }

  // The trips the single scan leaves usable are exactly those that can be boarded
  // before the break.
  lemma UsableIffBoarded(q: Query, cs: seq<Connection>, t: nat)
    requires ValidForward(q, cs) && t < q.tripCount
    ensures Scan(q, cs, 0, Initial(q), true).overlay[t].usable <==> IsBoarded(q, cs, t)
  {
    InitialInvariant(q, cs);
    var k := ScanKnows(q, cs, 0, Initial(q));
    var r := Scan(q, cs, 0, Initial(q), true);
    assert TripOk(q, cs, k, r, t);
    if r.overlay[t].usable {
      var e := r.overlay[t].enter.value;
      EnteredBoards(q, cs, k, r, t, e);
      assert NotBeyond(q, cs, Pos(cs, e));
    }
    if c: Connection :| c.trip == t && Boards(q, cs, c) && !Beyond(q, cs, c) {
      BoardingSeen(q, cs, k, r, c);
      BoardingEntered(q, cs, k, r, c);
    }
  }
}
