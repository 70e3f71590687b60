// The forward scan: connections by departure time, earliest arrival labels.
module ForwardScan {
  import opened Network

  datatype ForwardState = ForwardState(
    time: seq<int>,
    steps: seq<JourneyStep>,
    overlay: seq<TripQueryData>,
    egressSteps: map<nat, RideStep>,
    reachedEgress: bool,
    tentativeEgressArrival: int,
    reachableCount: nat)

  predicate Sized(q: Query, st: ForwardState) {
    |st.time| == |st.steps| == q.nodeCount && |st.overlay| == q.tripCount
  }

  predicate Fits(q: Query, c: Connection) {
    && c.departureNode < q.nodeCount && c.arrivalNode < q.nodeCount && c.trip < q.tripCount
    && c.arrivalNode < |q.transfers|
    && forall fp <- q.transfers[c.arrivalNode] :: fp.node < q.nodeCount
  }

  function Initial(q: Query): (st: ForwardState)
    ensures Sized(q, st)
  {
    ForwardState(
      TimeLabels(q.nodeCount, q.NodesAccess(), q.departureTime, true, MAX_INT),
      StepLabels(q.nodeCount, q.NodesAccess()),
      FreshOverlay(q.tripCount),
      map[], false, MAX_INT, 0)
  }

  // Connections the loop looks at: late enough, on an enabled trip.
  predicate Scanned(q: Query, c: Connection) {
    c.departureTime >= q.departureTime + MinTime(q.accessFootpaths) && c.trip !in q.disabledTrips
  }

  predicate FirstWaitLimited(q: Query, st: ForwardState, c: Connection)
    requires Sized(q, st) && Fits(q, c)
  {
    && q.maxFirstWaitingTime > 0
    && c.departureNode in q.NodesAccess()
    && q.NodesAccess()[c.departureNode] >= 0
    && st.steps[c.departureNode].Walk?
  }

  predicate Reachable(q: Query, st: ForwardState, c: Connection)
    requires Sized(q, st) && Fits(q, c)
  {
    && (st.overlay[c.trip].enter.Some? || st.time[c.departureNode] <= c.departureTime - q.Wait(c))
    && (FirstWaitLimited(q, st, c) ==>
          c.departureTime - st.time[c.departureNode] <= q.maxFirstWaitingTime)
  }

  function Board(q: Query, st: ForwardState, c: Connection): (r: ForwardState)
    requires Sized(q, st) && Fits(q, c)
    ensures Sized(q, r)
  {
    var data := st.overlay[c.trip].(usable := true, enter := Some(c),
                                    enterTransferTime := st.steps[c.departureNode].transferTime);
    st.(overlay := st.overlay[c.trip := data])
  }

  function RelaxOne(q: Query, st: ForwardState, c: Connection, enter: Connection, fp: NodeTime): (r: ForwardState)
    requires Sized(q, st) && fp.node < q.nodeCount
    ensures Sized(q, r)
  {
    var current := st.time[fp.node];
    if c.arrivalNode != fp.node && current < c.arrivalTime then st
    else if fp.time > q.maxTransferWalkingTime then st
    else
      var st1 := if fp.time + c.arrivalTime < current
                 then st.(time := st.time[fp.node := fp.time + c.arrivalTime],
                          steps := st.steps[fp.node := Ride(enter, c, fp.time)])
                 else st;
      if c.arrivalNode == fp.node &&
         (fp.node !in st.egressSteps || st.egressSteps[fp.node].exit.arrivalTime > c.arrivalTime)
      then st1.(egressSteps := st1.egressSteps[fp.node := Ride(enter, c, fp.time)])
      else st1
  }

  function Relax(q: Query, st: ForwardState, c: Connection, enter: Connection, fps: seq<NodeTime>): (r: ForwardState)
    requires Sized(q, st) && forall fp <- fps :: fp.node < q.nodeCount
    ensures Sized(q, r)
    decreases |fps|
  {
    if fps == [] then st else Relax(q, RelaxOne(q, st, c, enter, fps[0]), c, enter, fps[1..])
  }

  // The first alighting at an egress node fixes the early-stopping bound.
  function NoteEgress(q: Query, st: ForwardState, c: Connection): (r: ForwardState)
    requires Sized(q, st)
    ensures Sized(q, r)
  {
    if !st.reachedEgress && c.arrivalNode in q.NodesEgress() && q.NodesEgress()[c.arrivalNode] != -1
    then st.(reachedEgress := true, tentativeEgressArrival := c.arrivalTime)
    else st
  }

  function Boarded(q: Query, st: ForwardState, c: Connection): (r: ForwardState)
    requires Sized(q, st) && Fits(q, c)
    ensures Sized(q, r)
  {
    if c.canBoard && st.overlay[c.trip].enter.None? then Board(q, st, c) else st
  }

  function Alighted(q: Query, st: ForwardState, c: Connection): (r: ForwardState)
    requires Sized(q, st) && Fits(q, c)
    ensures Sized(q, r)
  {
    if c.canUnboard && st.overlay[c.trip].enter.Some?
    then Relax(q, NoteEgress(q, st, c), c, st.overlay[c.trip].enter.value, q.transfers[c.arrivalNode])
    else st
  }

  function Process(q: Query, st: ForwardState, c: Connection): (r: ForwardState)
    requires Sized(q, st) && Fits(q, c)
    ensures Sized(q, r)
  {
    if Scanned(q, c) && Reachable(q, st, c) then
      var r := Alighted(q, Boarded(q, st, c), c);
      r.(reachableCount := r.reachableCount + 1)
    else st
  }

  // The two breaks; the all-nodes scan has only the second one.
  predicate Stops(q: Query, st: ForwardState, c: Connection, single: bool) {
    && Scanned(q, c)
    && (|| (&& single && st.reachedEgress && MaxTime(q.egressFootpaths) >= 0
            && st.tentativeEgressArrival < MAX_INT
            && c.departureTime > st.tentativeEgressArrival + MaxTime(q.egressFootpaths))
        || c.departureTime - q.departureTime > q.maxTotalTravelTime)
  }

  // The loop from position i on.
  function Scan(q: Query, cs: seq<Connection>, i: nat, st: ForwardState, single: bool): (r: ForwardState)
    requires i <= |cs| && Sized(q, st) && forall c <- cs :: Fits(q, c)
    ensures Sized(q, r)
    decreases |cs| - i
  {
    if i == |cs| || Stops(q, st, cs[i], single) then st
    else Scan(q, cs, i + 1, Process(q, st, cs[i]), single)
  }

  lemma ScanUnfold(q: Query, cs: seq<Connection>, i: nat, st: ForwardState, single: bool)
    requires i < |cs| && Sized(q, st) && forall c <- cs :: Fits(q, c)
    ensures Scan(q, cs, i, st, single) ==
            if Stops(q, st, cs[i], single) then st else Scan(q, cs, i + 1, Process(q, st, cs[i]), single)
  {
  }

  // ---- Order of the list --------------------------------------------------

  ghost predicate ForwardSorted(cs: seq<Connection>) {
    && (forall j, k | 0 <= j < k < |cs| :: cs[j].departureTime <= cs[k].departureTime)
    && (forall j, k | 0 <= j < k < |cs| :: cs[j].trip == cs[k].trip ==> cs[j].sequenceInTrip < cs[k].sequenceInTrip)
  }

  // A connection that hands over to another one is scanned before it.
  ghost predicate HandoffOrdered(q: Query, cs: seq<Connection>) {
    forall j, k | 0 <= j <= k < |cs| :: cs[j].canBoard && cs[k].canUnboard ==> !Handoff(q, cs[k], cs[j])
  }

  ghost predicate ValidForward(q: Query, cs: seq<Connection>) {
    ValidQuery(q) && ValidConnections(q, cs) && ForwardSorted(cs) && forall c <- cs :: Fits(q, c)
  }

  lemma PosAt(cs: seq<Connection>, j: nat)
    requires ForwardSorted(cs) && j < |cs|
    ensures Pos(cs, cs[j]) == j
  {
    assert cs[Pos(cs, cs[j])] == cs[j];
  }

  lemma SortedAt(cs: seq<Connection>, j: nat, c: Connection)
    requires ForwardSorted(cs) && c in cs && j <= Pos(cs, c)
    ensures cs[j].departureTime <= c.departureTime
  {
    if j < Pos(cs, c) { assert cs[j].departureTime <= cs[Pos(cs, c)].departureTime; }
  }

  // Same trip: scan order is sequence order.
  lemma TripOrder(cs: seq<Connection>, a: Connection, b: Connection)
    requires ForwardSorted(cs) && a in cs && b in cs && a.trip == b.trip
    ensures Pos(cs, a) <= Pos(cs, b) <==> a.sequenceInTrip <= b.sequenceInTrip
  {
  }

  lemma HandoffsStayOrdered(q: Query, other: Query, cs: seq<Connection>)
    requires SameWalks(q, other) && HandoffOrdered(q, cs)
    ensures HandoffOrdered(other, cs)
  {
    forall j, k | 0 <= j <= k < |cs| && cs[j].canBoard && cs[k].canUnboard
      ensures !Handoff(other, cs[k], cs[j])
    {
      SameHandoff(q, other, cs[k], cs[j]);
    }
  }

  lemma PositiveStepOrdersHandoffs(q: Query, cs: seq<Connection>)
    requires ValidForward(q, cs) && PositiveStep(q, cs)
    ensures HandoffOrdered(q, cs)
  {
    forall j, k | 0 <= j <= k < |cs| && cs[j].canBoard && cs[k].canUnboard
      ensures !Handoff(q, cs[k], cs[j])
    {
      var x, e := cs[k], cs[j];
      assert x in cs && e in cs;
      assert ValidConnection(q, x) && ValidConnection(q, e);
      forall t | Footpath(q, x.arrivalNode, e.departureNode, t)
        ensures x.arrivalTime + t + q.Wait(e) > e.departureTime
      {
        assert NodeTime(e.departureNode, t) in q.transfers[x.arrivalNode];
      }
    }
  }

  // ---- Soundness: every label is backed by a boarded ride ----------------

  ghost predicate InPrefix(cs: seq<Connection>, i: nat, c: Connection) {
    c in cs && Pos(cs, c) < i
  }

  ghost predicate RodeFrom(q: Query, cs: seq<Connection>, i: nat, st: ForwardState, s: JourneyStep)
    requires Sized(q, st)
  {
    && s.Ride?
    && s.enter.trip < q.tripCount
    && st.overlay[s.enter.trip].enter == Some(s.enter)
    && IsRide(q, cs, s.enter, s.exit)
    && InPrefix(cs, i, s.exit)
  }

  ghost predicate StepOk(q: Query, cs: seq<Connection>, i: nat, st: ForwardState, n: nat)
    requires Sized(q, st) && n < q.nodeCount
  {
    match st.steps[n]
    case Walk(_) => st.time[n] == if n in q.NodesAccess() then q.departureTime + q.NodesAccess()[n] else MAX_INT
    case Ride(e, x, t) =>
      && RodeFrom(q, cs, i, st, st.steps[n])
      && Footpath(q, x.arrivalNode, n, t)
      && st.time[n] == x.arrivalTime + t
  }

  ghost predicate TripOk(q: Query, cs: seq<Connection>, i: nat, st: ForwardState, t: nat)
    requires Sized(q, st) && t < q.tripCount
  {
    && st.overlay[t].exit == None
    && (st.overlay[t].usable <==> st.overlay[t].enter.Some?)
    && (st.overlay[t].enter.Some? ==>
          var e := st.overlay[t].enter.value;
          && e.trip == t && t !in q.disabledTrips && e.canBoard
          && InPrefix(cs, i, e)
          && e.departureNode < q.nodeCount
          && st.time[e.departureNode] <= e.departureTime - q.Wait(e)
          && (st.steps[e.departureNode].Ride? ==> InPrefix(cs, Pos(cs, e), st.steps[e.departureNode].exit)))
  }

  ghost predicate EgressOk(q: Query, cs: seq<Connection>, i: nat, st: ForwardState, n: nat)
    requires Sized(q, st) && n in st.egressSteps
  {
    RodeFrom(q, cs, i, st, st.egressSteps[n]) && st.egressSteps[n].exit.arrivalNode == n
  }

  ghost predicate Sound(q: Query, cs: seq<Connection>, i: nat, st: ForwardState) {
    && Sized(q, st)
    && (forall n: nat | n < q.nodeCount :: StepOk(q, cs, i, st, n))
    && (forall t: nat | t < q.tripCount :: TripOk(q, cs, i, st, t))
    && (forall n | n in st.egressSteps :: EgressOk(q, cs, i, st, n))
  }

  lemma FitsAll(q: Query, cs: seq<Connection>)
    requires ValidQuery(q) && ValidConnections(q, cs)
    ensures forall c <- cs :: Fits(q, c)
  {
    forall c <- cs ensures Fits(q, c) { assert ValidConnection(q, c); }
  }

  lemma InitialSound(q: Query, cs: seq<Connection>)
    requires ValidQuery(q)
    ensures Sound(q, cs, 0, Initial(q))
  {
  }

  lemma BoardSound(q: Query, cs: seq<Connection>, i: nat, st: ForwardState)
    requires ValidForward(q, cs) && i < |cs| && Sound(q, cs, i, st)
    requires Scanned(q, cs[i]) && Reachable(q, st, cs[i])
    ensures Sound(q, cs, i + 1, Boarded(q, st, cs[i]))
  {
    var c, next := cs[i], i + 1;
    assert c in cs;
    var r := Boarded(q, st, c);
    forall t: nat | t < q.tripCount ensures TripOk(q, cs, next, r, t) { BoardKeepsTrip(q, cs, i, st, t); }
    forall n: nat | n < q.nodeCount ensures StepOk(q, cs, next, r, n) { BoardKeepsStep(q, cs, i, st, n); }
    forall n | n in r.egressSteps ensures EgressOk(q, cs, next, r, n) {
      assert EgressOk(q, cs, i, st, n);
    }
  }

  lemma BoardKeepsTrip(q: Query, cs: seq<Connection>, i: nat, st: ForwardState, t: nat)
    requires ValidForward(q, cs) && i < |cs| && Sound(q, cs, i, st) && t < q.tripCount
    requires Fits(q, cs[i]) && Scanned(q, cs[i]) && Reachable(q, st, cs[i])
    ensures TripOk(q, cs, i + 1, Boarded(q, st, cs[i]), t)
  {
    PosAt(cs, i);
    assert TripOk(q, cs, i, st, t);
    assert StepOk(q, cs, i, st, cs[i].departureNode);
  }

  lemma BoardKeepsStep(q: Query, cs: seq<Connection>, i: nat, st: ForwardState, n: nat)
    requires ValidForward(q, cs) && i < |cs| && Sound(q, cs, i, st) && n < q.nodeCount
    requires Fits(q, cs[i]) && Reachable(q, st, cs[i])
    ensures StepOk(q, cs, i + 1, Boarded(q, st, cs[i]), n)
  {
    assert StepOk(q, cs, i, st, n);
  }

  // The node where a trip was boarded keeps its label and step.
  ghost predicate Freezes(q: Query, st: ForwardState, r: ForwardState)
    requires Sized(q, st) && Sized(q, r)
  {
    forall t: nat | t < q.tripCount && st.overlay[t].enter.Some? ::
      && r.overlay[t].enter == st.overlay[t].enter
      && var n := st.overlay[t].enter.value.departureNode;
         n < q.nodeCount && r.time[n] == st.time[n] && r.steps[n] == st.steps[n]
  }

  lemma RelaxOneFreezes(q: Query, cs: seq<Connection>, i: nat, st: ForwardState, enter: Connection, fp: NodeTime)
    requires ValidForward(q, cs) && i < |cs| && Sound(q, cs, i + 1, st)
    requires Fits(q, cs[i]) && fp in q.transfers[cs[i].arrivalNode]
    ensures Freezes(q, st, RelaxOne(q, st, cs[i], enter, fp))
  {
    var c, next := cs[i], i + 1;
    assert c in cs && ValidConnection(q, c);
    forall t: nat | t < q.tripCount && st.overlay[t].enter.Some?
      ensures var b := st.overlay[t].enter.value;
              b.departureNode < q.nodeCount && st.time[b.departureNode] <= c.arrivalTime + fp.time
    {
      assert TripOk(q, cs, next, st, t);
      var b := st.overlay[t].enter.value;
      assert ValidConnection(q, b);
    }
  }

  // What RelaxOne is called with: c closes a ride begun at the trip's boarding e.
  ghost predicate CanRelax(q: Query, cs: seq<Connection>, i: nat, st: ForwardState, c: Connection, e: Connection) {
    && Sound(q, cs, i, st)
    && Fits(q, c)
    && st.overlay[c.trip].enter == Some(e)
    && IsRide(q, cs, e, c) && InPrefix(cs, i, c)
  }

  lemma RelaxOneKeepsTrips(q: Query, cs: seq<Connection>, i: nat, st: ForwardState, c: Connection, e: Connection,
                           fp: NodeTime)
    requires CanRelax(q, cs, i, st, c, e) && fp in q.transfers[c.arrivalNode]
    requires Freezes(q, st, RelaxOne(q, st, c, e, fp))
    ensures forall t: nat | t < q.tripCount :: TripOk(q, cs, i, RelaxOne(q, st, c, e, fp), t)
  {
    var r := RelaxOne(q, st, c, e, fp);
    forall t: nat | t < q.tripCount ensures TripOk(q, cs, i, r, t) {
      assert TripOk(q, cs, i, st, t);
    }
  }

  lemma RelaxOneKeepsSteps(q: Query, cs: seq<Connection>, i: nat, st: ForwardState, c: Connection, e: Connection,
                           fp: NodeTime)
    requires CanRelax(q, cs, i, st, c, e) && fp in q.transfers[c.arrivalNode]
    ensures forall n: nat | n < q.nodeCount :: StepOk(q, cs, i, RelaxOne(q, st, c, e, fp), n)
  {
    forall n: nat | n < q.nodeCount ensures StepOk(q, cs, i, RelaxOne(q, st, c, e, fp), n) {
      RelaxOneKeepsStep(q, cs, i, st, c, e, fp, n);
    }
  }

  lemma RelaxOneKeepsStep(q: Query, cs: seq<Connection>, i: nat, st: ForwardState, c: Connection, e: Connection,
                          fp: NodeTime, n: nat)
    requires CanRelax(q, cs, i, st, c, e) && fp in q.transfers[c.arrivalNode] && n < q.nodeCount
    ensures StepOk(q, cs, i, RelaxOne(q, st, c, e, fp), n)
  {
    assert StepOk(q, cs, i, st, n);
  }

  lemma RelaxOneKeepsEgress(q: Query, cs: seq<Connection>, i: nat, st: ForwardState, c: Connection, e: Connection,
                            fp: NodeTime)
    requires CanRelax(q, cs, i, st, c, e) && fp in q.transfers[c.arrivalNode]
    ensures var r := RelaxOne(q, st, c, e, fp); forall n | n in r.egressSteps :: EgressOk(q, cs, i, r, n)
  {
    var r := RelaxOne(q, st, c, e, fp);
    forall n | n in r.egressSteps ensures EgressOk(q, cs, i, r, n) {
      if n in st.egressSteps { assert EgressOk(q, cs, i, st, n); }
    }
  }

  lemma RelaxOneSound(q: Query, cs: seq<Connection>, i: nat, st: ForwardState, c: Connection, e: Connection,
                      fp: NodeTime)
    requires ValidForward(q, cs) && i < |cs| && c == cs[i]
    requires CanRelax(q, cs, i + 1, st, c, e) && fp in q.transfers[c.arrivalNode]
    ensures Sound(q, cs, i + 1, RelaxOne(q, st, c, e, fp))
    ensures Freezes(q, st, RelaxOne(q, st, c, e, fp))
  {
    RelaxOneFreezes(q, cs, i, st, e, fp);
    RelaxOneKeepsTrips(q, cs, i + 1, st, c, e, fp);
    RelaxOneKeepsSteps(q, cs, i + 1, st, c, e, fp);
    RelaxOneKeepsEgress(q, cs, i + 1, st, c, e, fp);
  }

  lemma {:induction false} RelaxSound(q: Query, cs: seq<Connection>, i: nat, st: ForwardState, c: Connection,
                                      e: Connection, fps: seq<NodeTime>)
    requires ValidForward(q, cs) && i < |cs| && c == cs[i]
    requires CanRelax(q, cs, i + 1, st, c, e)
    requires forall fp <- fps :: fp in q.transfers[c.arrivalNode]
    ensures var r := Relax(q, st, c, e, fps); Sound(q, cs, i + 1, r) && Freezes(q, st, r)
    decreases |fps|
  {
    if fps == [] {
      SoundFreezes(q, cs, i + 1, st);
    } else {
      RelaxOneSound(q, cs, i, st, c, e, fps[0]);
      RelaxSound(q, cs, i, RelaxOne(q, st, c, e, fps[0]), c, e, fps[1..]);
    }
  }

  lemma ProcessSound(q: Query, cs: seq<Connection>, i: nat, st: ForwardState)
    requires ValidForward(q, cs) && i < |cs| && Sound(q, cs, i, st)
    ensures Sound(q, cs, i + 1, Process(q, st, cs[i]))
    ensures Freezes(q, st, Process(q, st, cs[i]))
  {
    var c, next := cs[i], i + 1;
    assert c in cs;
    SoundMono(q, cs, i, st);
    SoundFreezes(q, cs, i, st);
    if Scanned(q, c) && Reachable(q, st, c) {
      BoardSound(q, cs, i, st);
      var st1 := Boarded(q, st, c);
      assert Freezes(q, st, st1);
      AlightSound(q, cs, i, st1);
      SoundIgnores(q, cs, next, Alighted(q, st1, c), Process(q, st, c));
    }
  }

  lemma AlightSound(q: Query, cs: seq<Connection>, i: nat, st: ForwardState)
    requires ValidForward(q, cs) && i < |cs| && Sound(q, cs, i + 1, st)
    ensures Sound(q, cs, i + 1, Alighted(q, st, cs[i])) && Freezes(q, st, Alighted(q, st, cs[i]))
  {
    var c, next := cs[i], i + 1;
    assert c in cs;
    SoundFreezes(q, cs, next, st);
    if c.canUnboard && st.overlay[c.trip].enter.Some? {
      var e := st.overlay[c.trip].enter.value;
      var st1 := NoteEgress(q, st, c);
      SoundIgnores(q, cs, next, st, st1);
      PosAt(cs, i);
      assert TripOk(q, cs, next, st1, c.trip);
      TripOrder(cs, e, c);
      RelaxSound(q, cs, i, st1, c, e, q.transfers[c.arrivalNode]);
    }
  }

  lemma SoundFreezes(q: Query, cs: seq<Connection>, i: nat, st: ForwardState)
    requires Sound(q, cs, i, st)
    ensures Freezes(q, st, st)
  {
    forall t: nat | t < q.tripCount && st.overlay[t].enter.Some?
      ensures st.overlay[t].enter.value.departureNode < q.nodeCount
    {
      assert TripOk(q, cs, i, st, t);
    }
  }

  lemma SoundMono(q: Query, cs: seq<Connection>, i: nat, st: ForwardState)
    requires Sound(q, cs, i, st)
    ensures Sound(q, cs, i + 1, st)
  {
    var next := i + 1;
    forall t: nat | t < q.tripCount ensures TripOk(q, cs, next, st, t) {
      assert TripOk(q, cs, i, st, t);
    }
    forall n: nat | n < q.nodeCount ensures StepOk(q, cs, next, st, n) {
      assert StepOk(q, cs, i, st, n);
    }
    forall n | n in st.egressSteps ensures EgressOk(q, cs, next, st, n) {
      assert EgressOk(q, cs, i, st, n);
    }
  }

  // Soundness does not look at the counters and the stopping data.
  lemma SoundIgnores(q: Query, cs: seq<Connection>, i: nat, st: ForwardState, r: ForwardState)
    requires Sound(q, cs, i, st)
    requires r.time == st.time && r.steps == st.steps && r.overlay == st.overlay && r.egressSteps == st.egressSteps
    ensures Sound(q, cs, i, r)
  {
    forall t: nat | t < q.tripCount ensures TripOk(q, cs, i, r, t) {
      assert TripOk(q, cs, i, st, t);
    }
    forall n: nat | n < q.nodeCount ensures StepOk(q, cs, i, r, n) {
      assert StepOk(q, cs, i, st, n);
    }
    forall n | n in r.egressSteps ensures EgressOk(q, cs, i, r, n) {
      assert EgressOk(q, cs, i, st, n);
    }
  }
}
