// The reverse scan: connections by decreasing arrival time, latest departure
// labels, over the trips the overlay marks usable.
module ReverseScan {
  import opened Network

  datatype ReverseState = ReverseState(
    time: seq<int>,
    steps: seq<JourneyStep>,
    overlay: seq<TripQueryData>,
    accessSteps: map<nat, RideStep>,
    reachedAccess: bool,
    tentativeAccessDeparture: int,
    reachableCount: nat)

  predicate Sized(q: Query, st: ReverseState) {
    |st.time| == |st.steps| == q.nodeCount && |st.overlay| == q.tripCount
  }

  predicate Fits(q: Query, c: Connection) {
    && c.departureNode < q.nodeCount && c.arrivalNode < q.nodeCount && c.trip < q.tripCount
    && c.departureNode < |q.reverseTransfers|
    && forall fp <- q.reverseTransfers[c.departureNode] :: fp.node < q.nodeCount
  }

  function Initial(q: Query, overlay: seq<TripQueryData>): (st: ReverseState)
    requires |overlay| == q.tripCount
    ensures Sized(q, st)
  {
    ReverseState(
      TimeLabels(q.nodeCount, q.NodesEgress(), q.arrivalTime, false, -1),
      StepLabels(q.nodeCount, q.NodesEgress()),
      overlay, map[], false, -1, 0)
  }

  // Connections the loop looks at; the all-nodes scan does not subtract the
  // shortest egress walk.
  predicate Scanned(q: Query, st: ReverseState, c: Connection, single: bool)
    requires Sized(q, st) && Fits(q, c)
  {
    && c.arrivalTime <= q.arrivalTime - (if single then MinTime(q.egressFootpaths) else 0)
    && st.overlay[c.trip].usable && c.trip !in q.disabledTrips
  }

  predicate Reachable(q: Query, st: ReverseState, c: Connection)
    requires Sized(q, st) && Fits(q, c)
  {
    st.overlay[c.trip].exit.Some? || st.time[c.arrivalNode] >= c.arrivalTime
  }

  // The trip has no exit yet, or c offers a shorter transfer that can still be made.
  predicate TakesExit(q: Query, st: ReverseState, c: Connection)
    requires Sized(q, st) && Fits(q, c)
  {
    var step := st.steps[c.arrivalNode];
    || st.overlay[c.trip].exit.None?
    || (&& step.Ride? && 0 <= step.transferTime < st.overlay[c.trip].exitTransferTime
        && c.arrivalTime + q.Wait(step.enter) <= st.time[c.arrivalNode])
  }

  function ExitChosen(q: Query, st: ReverseState, c: Connection): (r: ReverseState)
    requires Sized(q, st) && Fits(q, c)
    ensures Sized(q, r)
  {
    if c.canUnboard && TakesExit(q, st, c) then
      var data := st.overlay[c.trip].(exit := Some(c), exitTransferTime := st.steps[c.arrivalNode].transferTime);
      st.(overlay := st.overlay[c.trip := data])
    else st
  }

  // The walk from the origin and the first wait fit before the departure of c.
  predicate AccessAllowed(q: Query, c: Connection) {
    q.departureTime == -1 ||
    (&& c.departureNode in q.NodesAccess()
     && c.departureTime - q.NodesAccess()[c.departureNode] - q.Wait(c) >= q.departureTime
     && (|| q.maxFirstWaitingTime < q.Wait(c)
         || c.departureTime - q.departureTime - q.NodesAccess()[c.departureNode] <= q.maxFirstWaitingTime))
  }

  function RelaxOne(q: Query, st: ReverseState, c: Connection, exit: Connection, fp: NodeTime): (r: ReverseState)
    requires Sized(q, st) && fp.node < q.nodeCount
    ensures Sized(q, r)
  {
    if c.departureNode != fp.node && st.time[fp.node] > c.departureTime - q.Wait(c) then st
    else if fp.time > q.maxTransferWalkingTime then st
    else
      var t := c.departureTime - fp.time - q.Wait(c);
      var st1 := if t >= st.time[fp.node]
                 then st.(time := st.time[fp.node := t], steps := st.steps[fp.node := Ride(c, exit, fp.time)])
                 else st;
      if && c.departureNode == fp.node
         && (fp.node !in st.accessSteps || st.accessSteps[fp.node].enter.departureTime <= c.departureTime - q.Wait(c))
         && AccessAllowed(q, c)
      then st1.(accessSteps := st1.accessSteps[fp.node := Ride(c, exit, 0)])
      else st1
  }

  function Relax(q: Query, st: ReverseState, c: Connection, exit: Connection, fps: seq<NodeTime>): (r: ReverseState)
    requires Sized(q, st) && forall fp <- fps :: fp.node < q.nodeCount
    ensures Sized(q, r)
    decreases |fps|
  {
    if fps == [] then st else Relax(q, RelaxOne(q, st, c, exit, fps[0]), c, exit, fps[1..])
  }

  // The first boarding at an access node fixes the early-stopping bound, whether
  // or not it can be caught from the origin.
  function NoteAccess(q: Query, st: ReverseState, c: Connection): (r: ReverseState)
    requires Sized(q, st)
    ensures Sized(q, r)
  {
    if !st.reachedAccess && c.departureNode in q.NodesAccess() && q.NodesAccess()[c.departureNode] != -1
    then st.(reachedAccess := true, tentativeAccessDeparture := c.departureTime)
    else st
  }

  function Boarded(q: Query, st: ReverseState, c: Connection): (r: ReverseState)
    requires Sized(q, st) && Fits(q, c)
    ensures Sized(q, r)
  {
    if c.canBoard && st.overlay[c.trip].exit.Some?
    then Relax(q, NoteAccess(q, st, c), c, st.overlay[c.trip].exit.value, q.reverseTransfers[c.departureNode])
    else st
  }

  function Process(q: Query, st: ReverseState, c: Connection, single: bool): (r: ReverseState)
    requires Sized(q, st) && Fits(q, c)
    ensures Sized(q, r)
  {
    if Scanned(q, st, c, single) && Reachable(q, st, c) then
      var r := Boarded(q, ExitChosen(q, st, c), c);
      r.(reachableCount := r.reachableCount + 1)
    else st
  }

  predicate Stops(q: Query, st: ReverseState, c: Connection, single: bool)
    requires Sized(q, st) && Fits(q, c)
  {
    && Scanned(q, st, c, single)
    && (|| (&& single && st.reachedAccess && MaxTime(q.accessFootpaths) >= 0
            && c.arrivalTime < st.tentativeAccessDeparture - MaxTime(q.accessFootpaths))
        || q.arrivalTime - c.arrivalTime > q.maxTotalTravelTime)
  }

  function Scan(q: Query, rcs: seq<Connection>, i: nat, st: ReverseState, single: bool): (r: ReverseState)
    requires i <= |rcs| && Sized(q, st) && forall c <- rcs :: Fits(q, c)
    ensures Sized(q, r)
    decreases |rcs| - i
  {
    if i == |rcs| || Stops(q, st, rcs[i], single) then st
    else Scan(q, rcs, i + 1, Process(q, st, rcs[i], single), single)
  }

  lemma ScanUnfold(q: Query, rcs: seq<Connection>, i: nat, st: ReverseState, single: bool)
    requires i < |rcs| && Sized(q, st) && forall c <- rcs :: Fits(q, c)
    ensures Scan(q, rcs, i, st, single) ==
            if Stops(q, st, rcs[i], single) then st else Scan(q, rcs, i + 1, Process(q, st, rcs[i], single), single)
  {
  }

  // ---- Order of the list --------------------------------------------------

  ghost predicate ReverseSorted(rcs: seq<Connection>) {
    && (forall j, k | 0 <= j < k < |rcs| :: rcs[j].arrivalTime >= rcs[k].arrivalTime)
    && (forall j, k | 0 <= j < k < |rcs| :: rcs[j].trip == rcs[k].trip ==>
        rcs[j].sequenceInTrip > rcs[k].sequenceInTrip)
  }

  ghost predicate ValidReverse(q: Query, rcs: seq<Connection>) {
    ValidQuery(q) && ValidConnections(q, rcs) && ReverseSorted(rcs) && forall c <- rcs :: Fits(q, c)
  }

  lemma FitsAll(q: Query, rcs: seq<Connection>)
    requires ValidQuery(q) && ValidConnections(q, rcs)
    ensures forall c <- rcs :: Fits(q, c)
  {
    forall c <- rcs ensures Fits(q, c) { assert ValidConnection(q, c); }
  }

  lemma PosAt(rcs: seq<Connection>, j: nat)
    requires ReverseSorted(rcs) && j < |rcs|
    ensures Pos(rcs, rcs[j]) == j
  {
    assert rcs[Pos(rcs, rcs[j])] == rcs[j];
  }

  lemma SortedAt(rcs: seq<Connection>, j: nat, c: Connection)
    requires ReverseSorted(rcs) && c in rcs && j <= Pos(rcs, c)
    ensures rcs[j].arrivalTime >= c.arrivalTime
  {
    if j < Pos(rcs, c) { assert rcs[j].arrivalTime >= rcs[Pos(rcs, c)].arrivalTime; }
  }

  lemma TripOrder(rcs: seq<Connection>, a: Connection, b: Connection)
    requires ReverseSorted(rcs) && a in rcs && b in rcs && a.trip == b.trip
    ensures Pos(rcs, a) >= Pos(rcs, b) <==> a.sequenceInTrip <= b.sequenceInTrip
  {
  }

  // A connection that hands over to another one is scanned after it.
  ghost predicate HandoffOrdered(q: Query, rcs: seq<Connection>) {
    forall j, k | 0 <= j <= k < |rcs| :: rcs[j].canUnboard && rcs[k].canBoard ==> !Handoff(q, rcs[j], rcs[k])
  }

  lemma HandoffsStayOrdered(q: Query, other: Query, rcs: seq<Connection>)
    requires SameWalks(q, other) && HandoffOrdered(q, rcs)
    ensures HandoffOrdered(other, rcs)
  {
    forall j, k | 0 <= j <= k < |rcs| && rcs[j].canUnboard && rcs[k].canBoard
      ensures !Handoff(other, rcs[j], rcs[k])
    {
      SameHandoff(q, other, rcs[j], rcs[k]);
    }
  }

  lemma StepPositiveOrdersHandoffs(q: Query, rcs: seq<Connection>)
    requires ValidReverse(q, rcs) && EachStepPositive(q, rcs)
    ensures HandoffOrdered(q, rcs)
  {
    forall j, k | 0 <= j <= k < |rcs| && rcs[j].canUnboard && rcs[k].canBoard
      ensures !Handoff(q, rcs[j], rcs[k])
    {
      var x, e := rcs[j], rcs[k];
      assert x in rcs && e in rcs;
      assert ValidConnection(q, x) && ValidConnection(q, e);
      forall t | Footpath(q, x.arrivalNode, e.departureNode, t)
        ensures x.arrivalTime + t + q.Wait(e) > e.departureTime
      {
        assert NodeTime(e.departureNode, t) in q.transfers[x.arrivalNode];
      }
    }
  }

  // ---- Soundness ------------------------------------------------------------

  ghost predicate InPrefix(rcs: seq<Connection>, i: nat, c: Connection) {
    c in rcs && Pos(rcs, c) < i
  }

  // From x's exit node the destination can still be reached.
  ghost predicate Continues(q: Query, st: ReverseState, x: Connection)
    requires Sized(q, st)
  {
    x.arrivalNode < q.nodeCount && x.arrivalTime <= st.time[x.arrivalNode]
  }

  ghost predicate RidesTo(q: Query, rcs: seq<Connection>, i: nat, st: ReverseState, s: JourneyStep)
    requires Sized(q, st)
  {
    && s.Ride?
    && IsRide(q, rcs, s.enter, s.exit)
    && s.enter.trip < q.tripCount && st.overlay[s.enter.trip].usable
    && InPrefix(rcs, i, s.enter)
    && Continues(q, st, s.exit)
  }

  ghost predicate StepOk(q: Query, rcs: seq<Connection>, i: nat, st: ReverseState, n: nat)
    requires Sized(q, st) && n < q.nodeCount
  {
    match st.steps[n]
    case Walk(_) => st.time[n] == if n in q.NodesEgress() then q.arrivalTime - q.NodesEgress()[n] else -1
    case Ride(e, x, t) =>
      && RidesTo(q, rcs, i, st, st.steps[n])
      && Footpath(q, n, e.departureNode, t)
      && st.time[n] == e.departureTime - t - q.Wait(e)
  }

  ghost predicate TripOk(q: Query, rcs: seq<Connection>, i: nat, st: ReverseState, t: nat)
    requires Sized(q, st) && t < q.tripCount
  {
    st.overlay[t].exit.Some? ==>
      var x := st.overlay[t].exit.value;
      x.trip == t && x.canUnboard && InPrefix(rcs, i, x) && Continues(q, st, x)
  }

  ghost predicate AccessOk(q: Query, rcs: seq<Connection>, i: nat, st: ReverseState, n: nat)
    requires Sized(q, st) && n in st.accessSteps
  {
    && RidesTo(q, rcs, i, st, st.accessSteps[n])
    && st.accessSteps[n].enter.departureNode == n
    && AccessAllowed(q, st.accessSteps[n].enter)
  }

  ghost predicate Sound(q: Query, rcs: seq<Connection>, i: nat, st: ReverseState) {
    && Sized(q, st)
    && (forall n: nat | n < q.nodeCount :: StepOk(q, rcs, i, st, n))
    && (forall t: nat | t < q.tripCount :: TripOk(q, rcs, i, st, t))
    && (forall n | n in st.accessSteps :: AccessOk(q, rcs, i, st, n))
  }

  ghost predicate NoExits(overlay: seq<TripQueryData>) {
    forall t: nat | t < |overlay| :: overlay[t].exit == None
  }

  lemma InitialSound(q: Query, rcs: seq<Connection>, overlay: seq<TripQueryData>)
    requires ValidQuery(q) && |overlay| == q.tripCount && NoExits(overlay)
    ensures Sound(q, rcs, 0, Initial(q, overlay))
  {
  }

  // Labels only go up; which trips are usable does not change.
  ghost predicate Raises(q: Query, st: ReverseState, r: ReverseState)
    requires Sized(q, st) && Sized(q, r)
  {
    && (forall n: nat | n < q.nodeCount :: r.time[n] >= st.time[n])
    && (forall t: nat | t < q.tripCount :: r.overlay[t].usable == st.overlay[t].usable)
  }

  lemma SoundMono(q: Query, rcs: seq<Connection>, i: nat, st: ReverseState)
    requires Sound(q, rcs, i, st)
    ensures Sound(q, rcs, i + 1, st)
  {
    var next := i + 1;
    forall t: nat | t < q.tripCount ensures TripOk(q, rcs, next, st, t) {
      assert TripOk(q, rcs, i, st, t);
    }
    forall n: nat | n < q.nodeCount ensures StepOk(q, rcs, next, st, n) {
      assert StepOk(q, rcs, i, st, n);
    }
    forall n | n in st.accessSteps ensures AccessOk(q, rcs, next, st, n) {
      assert AccessOk(q, rcs, i, st, n);
    }
  }

  // Soundness does not look at the counter and the stopping data.
  lemma SoundIgnores(q: Query, rcs: seq<Connection>, i: nat, st: ReverseState, r: ReverseState)
    requires Sound(q, rcs, i, st)
    requires r.time == st.time && r.steps == st.steps && r.overlay == st.overlay && r.accessSteps == st.accessSteps
    ensures Sound(q, rcs, i, r)
  {
    forall t: nat | t < q.tripCount ensures TripOk(q, rcs, i, r, t) {
      assert TripOk(q, rcs, i, st, t);
    }
    forall n: nat | n < q.nodeCount ensures StepOk(q, rcs, i, r, n) {
      assert StepOk(q, rcs, i, st, n);
    }
    forall n | n in r.accessSteps ensures AccessOk(q, rcs, i, r, n) {
      assert AccessOk(q, rcs, i, st, n);
    }
  }

  lemma ExitContinues(q: Query, rcs: seq<Connection>, i: nat, st: ReverseState, c: Connection)
    requires ValidReverse(q, rcs) && c in rcs && Sound(q, rcs, i, st)
    requires Reachable(q, st, c) && TakesExit(q, st, c)
    ensures Continues(q, st, c)
  {
    assert StepOk(q, rcs, i, st, c.arrivalNode);
    if st.overlay[c.trip].exit.Some? {
      var e := st.steps[c.arrivalNode].enter;
      assert ValidConnection(q, e);
    }
  }

  lemma ExitChosenSound(q: Query, rcs: seq<Connection>, i: nat, st: ReverseState, c: Connection)
    requires Sound(q, rcs, i, st) && Fits(q, c) && InPrefix(rcs, i, c)
    requires c.canUnboard && TakesExit(q, st, c) ==> Continues(q, st, c)
    ensures Sound(q, rcs, i, ExitChosen(q, st, c))
    ensures Raises(q, st, ExitChosen(q, st, c))
  {
    var r := ExitChosen(q, st, c);
    forall t: nat | t < q.tripCount ensures TripOk(q, rcs, i, r, t) {
      assert TripOk(q, rcs, i, st, t);
    }
    forall n: nat | n < q.nodeCount ensures StepOk(q, rcs, i, r, n) {
      assert StepOk(q, rcs, i, st, n);
    }
    forall n | n in r.accessSteps ensures AccessOk(q, rcs, i, r, n) {
      assert AccessOk(q, rcs, i, st, n);
    }
  }

  // What RelaxOne is called with: boarding at c and riding to the trip's exit x.
  ghost predicate CanRelax(q: Query, rcs: seq<Connection>, i: nat, st: ReverseState, c: Connection, x: Connection) {
    && Sound(q, rcs, i, st)
    && Fits(q, c)
    && RidesTo(q, rcs, i, st, Ride(c, x, 0))
    && st.overlay[c.trip].exit == Some(x)
  }

  lemma RelaxOneKeepsTrips(q: Query, rcs: seq<Connection>, i: nat, st: ReverseState, c: Connection, x: Connection,
                           fp: NodeTime)
    requires CanRelax(q, rcs, i, st, c, x) && fp.node < q.nodeCount
    ensures var r := RelaxOne(q, st, c, x, fp);
            Raises(q, st, r) && forall t: nat | t < q.tripCount :: TripOk(q, rcs, i, r, t)
  {
    var r := RelaxOne(q, st, c, x, fp);
    forall t: nat | t < q.tripCount ensures TripOk(q, rcs, i, r, t) {
      assert TripOk(q, rcs, i, st, t);
    }
  }

  lemma RelaxOneKeepsSteps(q: Query, rcs: seq<Connection>, i: nat, st: ReverseState, c: Connection, x: Connection,
                           fp: NodeTime)
    requires CanRelax(q, rcs, i, st, c, x) && fp.node < q.nodeCount
    requires Footpath(q, fp.node, c.departureNode, fp.time) || fp.time > q.maxTransferWalkingTime
    ensures forall n: nat | n < q.nodeCount :: StepOk(q, rcs, i, RelaxOne(q, st, c, x, fp), n)
  {
    forall n: nat | n < q.nodeCount ensures StepOk(q, rcs, i, RelaxOne(q, st, c, x, fp), n) {
      RelaxOneKeepsStep(q, rcs, i, st, c, x, fp, n);
    }
  }

  lemma RelaxOneKeepsStep(q: Query, rcs: seq<Connection>, i: nat, st: ReverseState, c: Connection, x: Connection,
                          fp: NodeTime, n: nat)
    requires CanRelax(q, rcs, i, st, c, x) && fp.node < q.nodeCount && n < q.nodeCount
    requires Footpath(q, fp.node, c.departureNode, fp.time) || fp.time > q.maxTransferWalkingTime
    ensures StepOk(q, rcs, i, RelaxOne(q, st, c, x, fp), n)
  {
    assert StepOk(q, rcs, i, st, n);
  }

  lemma RelaxOneKeepsAccess(q: Query, rcs: seq<Connection>, i: nat, st: ReverseState, c: Connection, x: Connection,
                            fp: NodeTime)
    requires CanRelax(q, rcs, i, st, c, x) && fp.node < q.nodeCount
    ensures var r := RelaxOne(q, st, c, x, fp); forall n | n in r.accessSteps :: AccessOk(q, rcs, i, r, n)
  {
    var r := RelaxOne(q, st, c, x, fp);
    forall n | n in r.accessSteps ensures AccessOk(q, rcs, i, r, n) {
      if n in st.accessSteps { assert AccessOk(q, rcs, i, st, n); }
    }
  }

  lemma RelaxOneSound(q: Query, rcs: seq<Connection>, i: nat, st: ReverseState, c: Connection, x: Connection,
                      fp: NodeTime)
    requires ValidTransfers(q) && CanRelax(q, rcs, i, st, c, x) && fp in q.reverseTransfers[c.departureNode]
    ensures CanRelax(q, rcs, i, RelaxOne(q, st, c, x, fp), c, x)
    ensures Raises(q, st, RelaxOne(q, st, c, x, fp))
  {
    assert NodeTime(c.departureNode, fp.time) in q.transfers[fp.node] by {
      assert fp == NodeTime(fp.node, fp.time);
    }
    RelaxOneKeepsTrips(q, rcs, i, st, c, x, fp);
    RelaxOneKeepsSteps(q, rcs, i, st, c, x, fp);
    RelaxOneKeepsAccess(q, rcs, i, st, c, x, fp);
  }

  lemma {:induction false} RelaxSound(q: Query, rcs: seq<Connection>, i: nat, st: ReverseState, c: Connection,
                                      x: Connection, fps: seq<NodeTime>)
    requires ValidTransfers(q) && CanRelax(q, rcs, i, st, c, x)
    requires forall fp <- fps :: fp in q.reverseTransfers[c.departureNode]
    ensures var r := Relax(q, st, c, x, fps); Sound(q, rcs, i, r) && Raises(q, st, r)
    decreases |fps|
  {
    if fps != [] {
      RelaxOneSound(q, rcs, i, st, c, x, fps[0]);
      RelaxSound(q, rcs, i, RelaxOne(q, st, c, x, fps[0]), c, x, fps[1..]);
    }
  }

  lemma BoardedSound(q: Query, rcs: seq<Connection>, i: nat, st: ReverseState, c: Connection)
    requires ValidReverse(q, rcs) && c in rcs && Sound(q, rcs, i, st)
    requires i == Pos(rcs, c) + 1 && c.trip !in q.disabledTrips && st.overlay[c.trip].usable
    ensures Sound(q, rcs, i, Boarded(q, st, c)) && Raises(q, st, Boarded(q, st, c))
  {
    if c.canBoard && st.overlay[c.trip].exit.Some? {
      var x := st.overlay[c.trip].exit.value;
      assert TripOk(q, rcs, i, st, c.trip);
      TripOrder(rcs, c, x);
      var st1 := NoteAccess(q, st, c);
      SoundIgnores(q, rcs, i, st, st1);
      RelaxSound(q, rcs, i, st1, c, x, q.reverseTransfers[c.departureNode]);
    }
  }

  lemma ProcessSound(q: Query, rcs: seq<Connection>, i: nat, st: ReverseState, single: bool)
    requires ValidReverse(q, rcs) && i < |rcs| && Sound(q, rcs, i, st)
    ensures Sound(q, rcs, i + 1, Process(q, st, rcs[i], single))
    ensures Raises(q, st, Process(q, st, rcs[i], single))
  {
    var c := rcs[i];
    assert c in rcs;
    PosAt(rcs, i);
    SoundMono(q, rcs, i, st);
    if Scanned(q, st, c, single) && Reachable(q, st, c) {
      if TakesExit(q, st, c) { ExitContinues(q, rcs, i, st, c); }
      ExitChosenSound(q, rcs, i + 1, st, c);
      var st1 := ExitChosen(q, st, c);
      BoardedSound(q, rcs, i + 1, st1, c);
      SoundIgnores(q, rcs, i + 1, Boarded(q, st1, c), Process(q, st, c, single));
    }
  }
}
