// Which boarding the reverse scan leaves at each access node, and so exactly what
// it returns, on every network.
module AccessEntries {
  import opened Network
  import R = ReverseScan
  import RX = ReverseExact
  import T = TwoPass
  import L = LatestDeparture
  import S = SecondPasses
  import X = ReverseExits

  // A start that may be recorded, and that neither break keeps from being scanned. The
  // scan for all nodes records at every node and has only the second break.
  ghost predicate Recordable(q: Query, rcs: seq<Connection>, overlay: seq<TripQueryData>, e: Connection, single: bool) {
    && RX.Starts(q, rcs, overlay, e) && R.AccessAllowed(q, e)
    && q.arrivalTime - e.arrivalTime <= q.maxTotalTravelTime
    && (single ==> e.departureNode in q.NodesAccess() && !S.Hidden(q, rcs, overlay, e))
  }

  // c takes the place of what was recorded if it departs a minimum wait later.
  predicate Replaces(q: Query, was: Option<Connection>, c: Connection) {
    was.None? || was.value.departureTime <= c.departureTime - q.Wait(c)
  }

  ghost function After(q: Query, rcs: seq<Connection>, overlay: seq<TripQueryData>, was: Option<Connection>,
                       c: Connection, n: nat, single: bool): Option<Connection> {
    if c.departureNode == n && Recordable(q, rcs, overlay, c, single) && Replaces(q, was, c) then Some(c) else was
  }

  // What the first i connections leave at node n.
  ghost function Survivor(q: Query, rcs: seq<Connection>, overlay: seq<TripQueryData>, n: nat, i: nat, single: bool):
      (s: Option<Connection>)
    requires i <= |rcs|
    ensures s.Some? ==> s.value.departureNode == n
  {
    if i == 0 then None
    else After(q, rcs, overlay, Survivor(q, rcs, overlay, n, i - 1, single), rcs[i - 1], n, single)
  }

  lemma {:induction false} SurvivorIsRecordable(q: Query, rcs: seq<Connection>, overlay: seq<TripQueryData>, n: nat,
                                                i: nat, single: bool)
    requires i <= |rcs|
    ensures var s := Survivor(q, rcs, overlay, n, i, single); s.Some? ==> Recordable(q, rcs, overlay, s.value, single)
    decreases i
  {
    if i > 0 { SurvivorIsRecordable(q, rcs, overlay, n, i - 1, single); }
  }

  // Connection i takes the node over, in the terms of the data: it boards there and
  // starts a chain, may be recorded, is within the maximum and not hidden, and what was
  // there before departs no later than a minimum wait before it.
  lemma SurvivorNext(q: Query, rcs: seq<Connection>, overlay: seq<TripQueryData>, n: nat, i: nat, single: bool)
    requires i < |rcs|
    ensures var c, was := rcs[i], Survivor(q, rcs, overlay, n, i, single);
            Survivor(q, rcs, overlay, n, i + 1, single) ==
            if && c.departureNode == n && RX.Starts(q, rcs, overlay, c)
               && (q.departureTime != -1 ==>
                     && n in q.NodesAccess() && q.departureTime + q.NodesAccess()[n] + q.Wait(c) <= c.departureTime
                     && (q.maxFirstWaitingTime < q.Wait(c) ||
                         c.departureTime - q.departureTime - q.NodesAccess()[n] <= q.maxFirstWaitingTime))
               && q.arrivalTime - c.arrivalTime <= q.maxTotalTravelTime
               && (single ==> n in q.NodesAccess() && !S.Hidden(q, rcs, overlay, c))
               && (was.Some? ==> was.value.departureTime + q.Wait(c) <= c.departureTime)
            then Some(c) else was
  {
  }

  function Entry(st: R.ReverseState, n: nat): Option<Connection> {
    if n in st.accessSteps then Some(st.accessSteps[n].enter) else None
  }

  // ---- One boarding ---------------------------------------------------------------

  // Relaxing touches the entry of c's own node only.
  lemma {:induction false} RelaxElsewhere(q: Query, st: R.ReverseState, c: Connection, x: Connection,
                                          fps: seq<NodeTime>, n: nat)
    requires R.Sized(q, st) && (forall fp <- fps :: fp.node < q.nodeCount)
    requires n != c.departureNode || !R.AccessAllowed(q, c) || !Replaces(q, Entry(st, n), c)
    ensures Entry(R.Relax(q, st, c, x, fps), n) == Entry(st, n)
    decreases |fps|
  {
    if fps != [] { RelaxElsewhere(q, R.RelaxOne(q, st, c, x, fps[0]), c, x, fps[1..], n); }
  }

  lemma {:induction false} RelaxStays(q: Query, st: R.ReverseState, c: Connection, x: Connection, fps: seq<NodeTime>)
    requires R.Sized(q, st) && (forall fp <- fps :: fp.node < q.nodeCount)
    requires Entry(st, c.departureNode) == Some(c)
    ensures Entry(R.Relax(q, st, c, x, fps), c.departureNode) == Some(c)
    decreases |fps|
  {
    if fps != [] { RelaxStays(q, R.RelaxOne(q, st, c, x, fps[0]), c, x, fps[1..]); }
  }

  lemma {:induction false} RelaxRecords(q: Query, st: R.ReverseState, c: Connection, x: Connection, fps: seq<NodeTime>)
    requires R.Sized(q, st) && (forall fp <- fps :: fp.node < q.nodeCount) && 0 <= q.maxTransferWalkingTime
    requires NodeTime(c.departureNode, 0) in fps && R.AccessAllowed(q, c)
    requires Replaces(q, Entry(st, c.departureNode), c)
    ensures Entry(R.Relax(q, st, c, x, fps), c.departureNode) == Some(c)
    decreases |fps|
  {
    var st1 := R.RelaxOne(q, st, c, x, fps[0]);
    if Entry(st1, c.departureNode) == Some(c) {
      RelaxStays(q, st1, c, x, fps[1..]);
    } else {
      assert fps[0] != NodeTime(c.departureNode, 0);
      RelaxRecords(q, st1, c, x, fps[1..]);
    }
  }

  // A scanned boarding with an exit is recorded if it is allowed and replaces what was.
  lemma BoardedEntry(q: Query, st: R.ReverseState, c: Connection, n: nat)
    requires ValidQuery(q) && R.Sized(q, st) && R.Fits(q, c) && n < q.nodeCount
    requires c.canBoard && st.overlay[c.trip].exit.Some?
    ensures Entry(R.Boarded(q, st, c), n) ==
            if c.departureNode == n && R.AccessAllowed(q, c) && Replaces(q, Entry(st, n), c) then Some(c)
            else Entry(st, n)
  {
    var st1, x := R.NoteAccess(q, st, c), st.overlay[c.trip].exit.value;
    if c.departureNode == n && R.AccessAllowed(q, c) && Replaces(q, Entry(st, n), c) {
      assert NodeTime(n, 0) in q.transfers[n] && NodeTime(n, 0) in q.reverseTransfers[n];
      RelaxRecords(q, st1, c, x, q.reverseTransfers[n]);
    } else {
      RelaxElsewhere(q, st1, c, x, q.reverseTransfers[c.departureNode], n);
    }
  }

  // ---- One iteration --------------------------------------------------------------

  lemma BoardingRecords(q: Query, st: R.ReverseState, c: Connection, n: nat, single: bool)
    requires ValidQuery(q) && R.Sized(q, st) && R.Fits(q, c) && n < q.nodeCount
    ensures Entry(R.Process(q, st, c, single), n) ==
            if && X.IsBoarding(q, st, c, single) && c.departureNode == n && R.AccessAllowed(q, c)
               && Replaces(q, Entry(st, n), c)
            then Some(c) else Entry(st, n)
  {
    if X.IsBoarding(q, st, c, single) { BoardedEntry(q, R.ExitChosen(q, st, c), c, n); }
  }

  // A boarding is scanned, with an exit, exactly when it starts a chain, and then no
  // break has kept it from being scanned.
  lemma RecordsIffRecordable(q: Query, rcs: seq<Connection>, overlay: seq<TripQueryData>, i: nat, st: R.ReverseState,
                             single: bool)
    requires R.ValidReverse(q, rcs) && i < |rcs| && X.Knows(q, rcs, overlay, i, st, single)
    requires R.Fits(q, rcs[i]) && !R.Stops(q, st, rcs[i], single)
    requires single ==> rcs[i].departureNode in q.NodesAccess()
    ensures X.IsBoarding(q, st, rcs[i], single) && R.AccessAllowed(q, rcs[i]) <==>
            Recordable(q, rcs, overlay, rcs[i], single)
  {
    X.BoardsIffStarts(q, rcs, overlay, i, st, single);
    X.StopsIffBreaks(q, rcs, overlay, i, st, single);
  }

  lemma ProcessEntry(q: Query, rcs: seq<Connection>, overlay: seq<TripQueryData>, i: nat, st: R.ReverseState, n: nat,
                     single: bool)
    requires R.ValidReverse(q, rcs) && i < |rcs| && X.Knows(q, rcs, overlay, i, st, single)
    requires R.Fits(q, rcs[i]) && !R.Stops(q, st, rcs[i], single) && n < q.nodeCount
    requires single ==> n in q.NodesAccess()
    ensures Entry(R.Process(q, st, rcs[i], single), n) == After(q, rcs, overlay, Entry(st, n), rcs[i], n, single)
  {
    BoardingRecords(q, st, rcs[i], n, single);
    if rcs[i].departureNode == n { RecordsIffRecordable(q, rcs, overlay, i, st, single); }
  }

  // ---- The whole scan -------------------------------------------------------------

  ghost predicate Ready(q: Query, rcs: seq<Connection>, overlay: seq<TripQueryData>, i: nat, st: R.ReverseState, n: nat,
                        single: bool)
    requires forall c <- rcs :: R.Fits(q, c)
  {
    && i <= |rcs| && X.Knows(q, rcs, overlay, i, st, single) && n < q.nodeCount && (single ==> n in q.NodesAccess())
    && Entry(st, n) == Survivor(q, rcs, overlay, n, i, single)
  }

  lemma ReadyNext(q: Query, rcs: seq<Connection>, overlay: seq<TripQueryData>, i: nat, st: R.ReverseState, n: nat,
                  single: bool)
    requires R.ValidReverse(q, rcs) && i < |rcs| && R.Sized(q, st) && Whole(Ready(q, rcs, overlay, i, st, n, single))
    requires R.Fits(q, rcs[i]) && !R.Stops(q, st, rcs[i], single)
    ensures Whole(Ready(q, rcs, overlay, i + 1, R.Process(q, st, rcs[i], single), n, single))
  {
    X.KnowsNext(q, rcs, overlay, i, st, single);
    ProcessEntry(q, rcs, overlay, i, st, n, single);
  }

  // The scan ended at position k.
  ghost predicate Ended(q: Query, rcs: seq<Connection>, k: nat, r: R.ReverseState, single: bool) {
    R.Sized(q, r) && k <= |rcs| && (k < |rcs| ==> R.Fits(q, rcs[k]) && R.Stops(q, r, rcs[k], single))
  }

  lemma {:induction false} ScanEntry(q: Query, rcs: seq<Connection>, overlay: seq<TripQueryData>, i: nat,
                                     st: R.ReverseState, n: nat, single: bool)
    returns (k: nat)
    requires R.ValidReverse(q, rcs) && i <= |rcs| && R.Sized(q, st) && Whole(Ready(q, rcs, overlay, i, st, n, single))
    ensures Whole(Ended(q, rcs, k, R.Scan(q, rcs, i, st, single), single))
    ensures Whole(Ready(q, rcs, overlay, k, R.Scan(q, rcs, i, st, single), n, single))
    decreases |rcs| - i
  {
    if i == |rcs| || R.Stops(q, st, rcs[i], single) {
      k := i;
      if i < |rcs| { assert rcs[i] in rcs; }
    } else {
      assert rcs[i] in rcs;
      ReadyNext(q, rcs, overlay, i, st, n, single);
      k := ScanEntry(q, rcs, overlay, i + 1, R.Process(q, st, rcs[i], single), n, single);
    }
  }

  // Where the scan stopped, nothing recordable follows.
  lemma NothingFollows(q: Query, rcs: seq<Connection>, overlay: seq<TripQueryData>, k: nat, r: R.ReverseState, j: nat,
                       single: bool)
    requires R.ValidReverse(q, rcs) && k <= j < |rcs| && X.Knows(q, rcs, overlay, k, r, single)
    requires R.Fits(q, rcs[k]) && R.Stops(q, r, rcs[k], single)
    ensures !Recordable(q, rcs, overlay, rcs[j], single)
  {
    X.StopsIffBreaks(q, rcs, overlay, k, r, single);
    R.PosAt(rcs, j);
    R.SortedAt(rcs, k, rcs[j]);
  }

  lemma {:induction false} SurvivorSettled(q: Query, rcs: seq<Connection>, overlay: seq<TripQueryData>, n: nat,
                                           k: nat, i: nat, single: bool)
    requires k <= i <= |rcs| && forall j: nat | k <= j < i :: !Recordable(q, rcs, overlay, rcs[j], single)
    ensures Survivor(q, rcs, overlay, n, i, single) == Survivor(q, rcs, overlay, n, k, single)
    decreases i
  {
    if k < i {
      SurvivorSettled(q, rcs, overlay, n, k, i - 1, single);
      SurvivorSkips(q, rcs, overlay, n, i, single);
    }
  }

  lemma SurvivorSkips(q: Query, rcs: seq<Connection>, overlay: seq<TripQueryData>, n: nat, i: nat, single: bool)
    requires 0 < i <= |rcs| && !Recordable(q, rcs, overlay, rcs[i - 1], single)
    ensures Survivor(q, rcs, overlay, n, i, single) == Survivor(q, rcs, overlay, n, i - 1, single)
  {
  }

  // On every network and for all limits, the entry of an access node, or of any node
  // in the scan for all nodes, is the survivor of the recordable boardings there.
  lemma EntryIsSurvivor(q: Query, rcs: seq<Connection>, overlay: seq<TripQueryData>, n: nat, single: bool)
    requires R.ValidReverse(q, rcs) && |overlay| == q.tripCount && R.NoExits(overlay)
    requires n < q.nodeCount && (single ==> n in q.NodesAccess())
    ensures Entry(X.End(q, rcs, overlay, single), n) == Survivor(q, rcs, overlay, n, |rcs|, single)
  {
    RX.InitialInvariant(q, rcs, overlay, single);
    var k := ScanEntry(q, rcs, overlay, 0, R.Initial(q, overlay), n, single);
    var r := X.End(q, rcs, overlay, single);
    forall j: nat | k <= j < |rcs| ensures !Recordable(q, rcs, overlay, rcs[j], single) {
      NothingFollows(q, rcs, overlay, k, r, j, single);
    }
    SurvivorSettled(q, rcs, overlay, n, k, |rcs|, single);
  }

  // ---- What the query returns -----------------------------------------------------

  // A traveller who walks to the survivor of access node n leaves at time t, within
  // the maximum.
  ghost predicate LeavesAt(q: Query, rcs: seq<Connection>, overlay: seq<TripQueryData>, n: nat, t: int) {
    && n in q.NodesAccess()
    && var s := Survivor(q, rcs, overlay, n, |rcs|, true);
       s.Some? && t == L.Start(q, s.value) && 0 <= t < MAX_INT && q.arrivalTime - t <= q.maxTotalTravelTime
  }

  // The result is the latest start over the survivors, and there is none exactly if
  // no survivor can be used.
  ghost predicate IsLatest(q: Query, rcs: seq<Connection>, overlay: seq<TripQueryData>, result: Option<NodeTime>) {
    && (result.None? <==> forall n, t :: !LeavesAt(q, rcs, overlay, n, t))
    && (result.Some? ==> LeavesAt(q, rcs, overlay, result.value.node, result.value.time))
    && (result.Some? ==> forall n, t | LeavesAt(q, rcs, overlay, n, t) :: t <= result.value.time)
    && (result.Some? ==> exists j: nat :: j < |q.accessFootpaths| && IsFirstFrom(q, rcs, overlay, j, result.value))
  }

  // Of the nodes that allow that start, the first one in the list of footpaths.
  ghost predicate IsFirstFrom(q: Query, rcs: seq<Connection>, overlay: seq<TripQueryData>, j: nat, a: NodeTime)
    requires j < |q.accessFootpaths|
  {
    && q.accessFootpaths[j].node == a.node
    && forall i: nat, t | i < j && LeavesAt(q, rcs, overlay, q.accessFootpaths[i].node, t) :: t < a.time
  }

  lemma AccessNodeFits(q: Query, n: nat)
    requires ValidQuery(q) && n in q.NodesAccess()
    ensures n < q.nodeCount
  {
    T.AccessWalk(q, n);
    assert NodeTime(n, q.NodesAccess()[n]).node < q.nodeCount;
  }

  // What can be started from at the end of the scan is what leaves from a survivor.
  lemma CanStartIffLeaves(q: Query, rcs: seq<Connection>, overlay: seq<TripQueryData>, n: nat)
    requires R.ValidReverse(q, rcs) && |overlay| == q.tripCount && R.NoExits(overlay)
    requires n in q.NodesAccess()
    ensures var r, fp := T.ReverseEnd(q, rcs, overlay), NodeTime(n, q.NodesAccess()[n]);
            if T.CanStart(q, r, fp) then LeavesAt(q, rcs, overlay, n, T.AccessDeparture(q, r, fp))
            else forall t :: !LeavesAt(q, rcs, overlay, n, t)
  {
    AccessNodeFits(q, n);
    EntryIsSurvivor(q, rcs, overlay, n, true);
    EntryLeaves(q, rcs, overlay, T.ReverseEnd(q, rcs, overlay), n);
  }

  lemma EntryLeaves(q: Query, rcs: seq<Connection>, overlay: seq<TripQueryData>, r: R.ReverseState, n: nat)
    requires n in q.NodesAccess() && Entry(r, n) == Survivor(q, rcs, overlay, n, |rcs|, true)
    ensures var fp := NodeTime(n, q.NodesAccess()[n]);
            if T.CanStart(q, r, fp) then LeavesAt(q, rcs, overlay, n, T.AccessDeparture(q, r, fp))
            else forall t :: !LeavesAt(q, rcs, overlay, n, t)
  {
  }

  lemma ReturnsLatest(q: Query, rcs: seq<Connection>, overlay: seq<TripQueryData>)
    requires R.ValidReverse(q, rcs) && |overlay| == q.tripCount && R.NoExits(overlay)
    ensures IsLatest(q, rcs, overlay, T.ReverseResult(q, T.ReverseEnd(q, rcs, overlay)))
  {
    var r := T.ReverseEnd(q, rcs, overlay);
    RX.InitialInvariant(q, rcs, overlay, true);
    var k := RX.ScanInvariant(q, rcs, 0, R.Initial(q, overlay), true);
    T.BestAccessIsLatest(q, r, |q.accessFootpaths|);
    forall n, t | LeavesAt(q, rcs, overlay, n, t) ensures T.AtLeast(T.ReverseResult(q, r), t) {
      LeavesNoLater(q, rcs, overlay, n, t);
    }
    var a := T.ReverseResult(q, r);
    if a.Some? {
      var j: nat :| j < |q.accessFootpaths| && T.StartsAt(q, r, q.accessFootpaths[j], a.value);
      var fp := q.accessFootpaths[j];
      assert fp in q.accessFootpaths;
      assert NodeTime(fp.node, q.NodesAccess()[fp.node]) in q.accessFootpaths;
      CanStartIffLeaves(q, rcs, overlay, fp.node);
      ReturnsFirst(q, rcs, overlay, a.value);
    }
  }

  lemma ReturnsFirst(q: Query, rcs: seq<Connection>, overlay: seq<TripQueryData>, a: NodeTime)
    requires R.ValidReverse(q, rcs) && |overlay| == q.tripCount && R.NoExits(overlay)
    requires T.ReverseResult(q, T.ReverseEnd(q, rcs, overlay)) == Some(a)
    ensures exists j: nat :: j < |q.accessFootpaths| && IsFirstFrom(q, rcs, overlay, j, a)
  {
    var r := T.ReverseEnd(q, rcs, overlay);
    T.BestAccessIsFirst(q, r, |q.accessFootpaths|);
    var j: nat :| j < |q.accessFootpaths| && T.IsEarliest(q, r, j, a);
    forall i: nat, t | i < j && LeavesAt(q, rcs, overlay, q.accessFootpaths[i].node, t) ensures t < a.time {
      var fp := q.accessFootpaths[i];
      assert NodeTime(fp.node, q.NodesAccess()[fp.node]) in q.accessFootpaths && fp in q.accessFootpaths;
      CanStartIffLeaves(q, rcs, overlay, fp.node);
      assert T.CanStart(q, r, fp);
    }
    assert IsFirstFrom(q, rcs, overlay, j, a);
  }

  lemma LeavesNoLater(q: Query, rcs: seq<Connection>, overlay: seq<TripQueryData>, n: nat, t: int)
    requires R.ValidReverse(q, rcs) && |overlay| == q.tripCount && R.NoExits(overlay)
    requires LeavesAt(q, rcs, overlay, n, t)
    ensures T.AtLeast(T.ReverseResult(q, T.ReverseEnd(q, rcs, overlay)), t)
  {
    var r := T.ReverseEnd(q, rcs, overlay);
    RX.InitialInvariant(q, rcs, overlay, true);
    var k := RX.ScanInvariant(q, rcs, 0, R.Initial(q, overlay), true);
    CanStartIffLeaves(q, rcs, overlay, n);
    T.AccessWalk(q, n);
    L.BestIsNoEarlier(q, r, NodeTime(n, q.NodesAccess()[n]), t);
  }

  // ---- When it is the latest departure ----------------------------------------------

  // Some chain of usable rides that leaves at t takes the traveller to the
  // destination in time and within the maximum.
  ghost predicate CanLeave(q: Query, rcs: seq<Connection>, overlay: seq<TripQueryData>, e: Connection, t: int) {
    && S.Starts(q, rcs, overlay, e) && R.AccessAllowed(q, e) && t == L.Start(q, e)
    && 0 <= t < MAX_INT && q.arrivalTime - t <= q.maxTotalTravelTime
  }

  ghost predicate LatestOfAll(q: Query, rcs: seq<Connection>, overlay: seq<TripQueryData>, t: int) {
    && (exists e :: CanLeave(q, rcs, overlay, e, t))
    && (forall e, u | CanLeave(q, rcs, overlay, e, u) :: u <= t)
  }

  lemma SurvivorCanLeave(q: Query, rcs: seq<Connection>, overlay: seq<TripQueryData>, n: nat, t: int)
    requires LeavesAt(q, rcs, overlay, n, t)
    ensures CanLeave(q, rcs, overlay, Survivor(q, rcs, overlay, n, |rcs|, true).value, t)
  {
    SurvivorIsRecordable(q, rcs, overlay, n, |rcs|, true);
  }

  // The latest departure of all is returned if and only if a boarding that allows it
  // survives at its access node.
  lemma LatestIffSurvives(q: Query, rcs: seq<Connection>, overlay: seq<TripQueryData>, t: int)
    requires R.ValidReverse(q, rcs) && |overlay| == q.tripCount && R.NoExits(overlay)
    requires LatestOfAll(q, rcs, overlay, t)
    ensures var a := T.ReverseResult(q, T.ReverseEnd(q, rcs, overlay));
            a.Some? && a.value.time == t <==> exists n :: LeavesAt(q, rcs, overlay, n, t)
  {
    ReturnsLatest(q, rcs, overlay);
    var a := T.ReverseResult(q, T.ReverseEnd(q, rcs, overlay));
    if a.Some? { SurvivorCanLeave(q, rcs, overlay, a.value.node, a.value.time); }
  }
}
