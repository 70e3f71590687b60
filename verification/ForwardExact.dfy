// The forward scan computes exactly the earliest arrivals of the journeys it can
// follow, and stopping early loses nothing.
module ForwardExact {
  import opened Network
  import opened ForwardScan

  // ---- The journeys the scan can follow -------------------------------------

  // x is scanned before e.
  ghost predicate Before(cs: seq<Connection>, x: Connection, e: Connection) {
    x in cs && e in cs && Pos(cs, x) < Pos(cs, e)
  }

  ghost predicate InOrder(cs: seq<Connection>, legs: seq<Leg>) {
    forall k: nat | k + 1 < |legs| :: Before(cs, legs[k].exit, legs[k + 1].enter)
  }

  // Walking to its node takes the traveller there longer before c than the
  // first-wait limit, if there is one, allows.
  predicate WaitsTooLong(q: Query, c: Connection) {
    && q.maxFirstWaitingTime > 0 && c.departureNode in q.NodesAccess()
    && c.departureTime - (q.departureTime + q.NodesAccess()[c.departureNode]) > q.maxFirstWaitingTime
  }

  // The scan passes over a connection that waits too long, even on a trip already
  // boarded, unless rides scanned before take the traveller to its node sooner
  // than the walk.
  ghost predicate Admitted(q: Query, cs: seq<Connection>, c: Connection)
    requires c in cs
    decreases Pos(cs, c), 3
  {
    WaitsTooLong(q, c) ==> exists legs: seq<Leg>, t: int :: ReachedSooner(q, cs, c, legs, t)
  }

  ghost predicate ReachedSooner(q: Query, cs: seq<Connection>, c: Connection, legs: seq<Leg>, t: int)
    requires c in cs && c.departureNode in q.NodesAccess()
    decreases Pos(cs, c), 2
  {
    && Scannable(q, cs, Pos(cs, c), legs)
    && Footpath(q, Last(legs).exit.arrivalNode, c.departureNode, t)
    && Last(legs).exit.arrivalTime + t < q.departureTime + q.NodesAccess()[c.departureNode]
  }

  // A journey over admitted connections before position p, handed over in order.
  ghost predicate Scannable(q: Query, cs: seq<Connection>, p: nat, legs: seq<Leg>)
    ensures Scannable(q, cs, p, legs) ==> legs != []
    decreases p, 1
  {
    Journey(q, cs, legs) && InOrder(cs, legs) && forall l <- legs :: Passable(q, cs, p, l)
  }

  ghost predicate Passable(q: Query, cs: seq<Connection>, p: nat, l: Leg)
    decreases p, 0
  {
    && l.enter in cs && Pos(cs, l.enter) < p && Admitted(q, cs, l.enter)
    && l.exit in cs && Pos(cs, l.exit) < p && Admitted(q, cs, l.exit)
  }

  lemma NoLimitAdmits(q: Query, cs: seq<Connection>, c: Connection)
    requires q.maxFirstWaitingTime <= 0 && c in cs
    ensures Admitted(q, cs, c)
  {
  }

  // ---- Completeness: everything scanned so far has been taken into account --

  ghost predicate Relaxed(q: Query, st: ForwardState, x: Connection)
    requires Sized(q, st) && Fits(q, x)
  {
    && (forall fp <- q.transfers[x.arrivalNode] :: fp.time <= q.maxTransferWalkingTime ==>
          st.time[fp.node] <= x.arrivalTime + fp.time)
    && x.arrivalNode in st.egressSteps
    && st.egressSteps[x.arrivalNode].exit.arrivalTime <= x.arrivalTime
  }

  ghost predicate EnteredBy(q: Query, cs: seq<Connection>, st: ForwardState, j: nat)
    requires Sized(q, st) && j < |cs| && Fits(q, cs[j])
  {
    var enter := st.overlay[cs[j].trip].enter;
    enter.Some? && InPrefix(cs, j + 1, enter.value)
  }

  // c could be alighted from: its trip was boarded at or before position j.
  ghost predicate Exited(q: Query, cs: seq<Connection>, st: ForwardState, j: nat)
    requires Sized(q, st) && j < |cs| && Fits(q, cs[j])
  {
    Scanned(q, cs[j]) && cs[j].canUnboard && Admitted(q, cs, cs[j]) && EnteredBy(q, cs, st, j)
  }

  ghost predicate CanEnter(q: Query, cs: seq<Connection>, j: nat)
    requires j < |cs|
  {
    Scanned(q, cs[j]) && cs[j].canBoard && Admitted(q, cs, cs[j])
  }

  ghost predicate BoardedFirst(q: Query, cs: seq<Connection>, st: ForwardState, j: nat)
    requires Sized(q, st) && j < |cs| && Fits(q, cs[j])
  {
    CanEnter(q, cs, j) && Departs(q, cs[j]) ==> EnteredBy(q, cs, st, j)
  }

  ghost predicate BoardedNext(q: Query, cs: seq<Connection>, st: ForwardState, m: nat, j: nat)
    requires Sized(q, st) && m < j < |cs| && Fits(q, cs[m]) && Fits(q, cs[j])
  {
    CanEnter(q, cs, j) && Exited(q, cs, st, m) && Handoff(q, cs[m], cs[j]) ==> EnteredBy(q, cs, st, j)
  }

  ghost predicate Covered(q: Query, cs: seq<Connection>, st: ForwardState, j: nat)
    requires Sized(q, st) && j < |cs| && Fits(q, cs[j])
  {
    Exited(q, cs, st, j) ==> Relaxed(q, st, cs[j])
  }

  ghost predicate Complete(q: Query, cs: seq<Connection>, i: nat, st: ForwardState)
    requires forall c <- cs :: Fits(q, c)
  {
    && i <= |cs| && Sized(q, st)
    && (forall fp <- q.accessFootpaths :: fp.node < q.nodeCount ==> st.time[fp.node] <= q.departureTime + fp.time)
    && (forall j: nat | j < i :: BoardedFirst(q, cs, st, j))
    && (forall m: nat, j: nat | m < j < i :: BoardedNext(q, cs, st, m, j))
    && (forall j: nat | j < i :: Covered(q, cs, st, j))
  }

  // Every ride behind a label is between admitted connections, and a label of an
  // access node set by a ride is better than the walk.
  ghost predicate Honest(q: Query, cs: seq<Connection>, st: ForwardState)
    requires Sized(q, st)
  {
    && (forall t: nat | t < q.tripCount :: EnterAdmitted(q, cs, st, t))
    && (forall n: nat | n < q.nodeCount :: StepAdmitted(q, cs, st, n))
    && (forall n | n in st.egressSteps :: IsAdmitted(q, cs, st.egressSteps[n].exit))
  }

  ghost predicate EnterAdmitted(q: Query, cs: seq<Connection>, st: ForwardState, t: nat)
    requires Sized(q, st) && t < q.tripCount
  {
    st.overlay[t].enter.Some? ==> IsAdmitted(q, cs, st.overlay[t].enter.value)
  }

  ghost predicate IsAdmitted(q: Query, cs: seq<Connection>, x: Connection) {
    x in cs && Admitted(q, cs, x)
  }

  ghost predicate StepAdmitted(q: Query, cs: seq<Connection>, st: ForwardState, n: nat)
    requires Sized(q, st) && n < q.nodeCount
  {
    && (st.steps[n].Ride? ==> IsAdmitted(q, cs, st.steps[n].exit))
    && (n in q.NodesAccess() ==> st.time[n] <= q.departureTime + q.NodesAccess()[n])
    && (st.steps[n].Ride? && n in q.NodesAccess() ==> st.time[n] < q.departureTime + q.NodesAccess()[n])
  }

  ghost predicate TentativeOk(q: Query, st: ForwardState) {
    st.reachedEgress ==>
      exists n :: n in q.NodesEgress() && n in st.egressSteps &&
                  st.egressSteps[n].exit.arrivalTime <= st.tentativeEgressArrival
  }

  ghost predicate CountOk(st: ForwardState) {
    st.reachableCount == 0 ==> st.egressSteps == map[]
  }

  // Labels only go down.
  ghost predicate Lowers(q: Query, st: ForwardState, r: ForwardState)
    requires Sized(q, st) && Sized(q, r)
  {
    && (forall n: nat | n < q.nodeCount :: r.time[n] <= st.time[n])
    && (forall n | n in st.egressSteps ::
          n in r.egressSteps && r.egressSteps[n].exit.arrivalTime <= st.egressSteps[n].exit.arrivalTime)
  }

  // A label that changed was set from c by a footpath.
  ghost predicate ChangedBy(q: Query, st: ForwardState, r: ForwardState, c: Connection, n: nat)
    requires Sized(q, st) && Sized(q, r) && n < q.nodeCount
  {
    r.time[n] == st.time[n] || exists t :: Footpath(q, c.arrivalNode, n, t) && r.time[n] == c.arrivalTime + t
  }

  lemma RelaxOneEffect(q: Query, st: ForwardState, c: Connection, e: Connection, fp: NodeTime)
    requires ValidTransfers(q) && Sized(q, st) && Fits(q, c) && fp in q.transfers[c.arrivalNode]
    ensures var r := RelaxOne(q, st, c, e, fp);
            && Lowers(q, st, r) && r.overlay == st.overlay
            && r.reachedEgress == st.reachedEgress && r.tentativeEgressArrival == st.tentativeEgressArrival
            && (fp.time <= q.maxTransferWalkingTime ==> r.time[fp.node] <= c.arrivalTime + fp.time)
            && (fp == NodeTime(c.arrivalNode, 0) && 0 <= q.maxTransferWalkingTime ==>
                  c.arrivalNode in r.egressSteps && r.egressSteps[c.arrivalNode].exit.arrivalTime <= c.arrivalTime)
            && forall n: nat | n < q.nodeCount :: ChangedBy(q, st, r, c, n)
  {
    assert 0 <= fp.time;
    var r := RelaxOne(q, st, c, e, fp);
    forall n: nat | n < q.nodeCount ensures ChangedBy(q, st, r, c, n) {
      if r.time[n] != st.time[n] {
        assert Footpath(q, c.arrivalNode, n, fp.time);
      }
    }
  }

  lemma {:induction false} RelaxEffect(q: Query, st: ForwardState, c: Connection, e: Connection, fps: seq<NodeTime>)
    requires ValidTransfers(q) && Sized(q, st) && Fits(q, c) && 0 <= q.maxTransferWalkingTime
    requires forall fp <- fps :: fp in q.transfers[c.arrivalNode]
    ensures var r := Relax(q, st, c, e, fps);
            && Lowers(q, st, r) && r.overlay == st.overlay
            && r.reachedEgress == st.reachedEgress && r.tentativeEgressArrival == st.tentativeEgressArrival
            && (forall fp <- fps :: fp.time <= q.maxTransferWalkingTime ==> r.time[fp.node] <= c.arrivalTime + fp.time)
            && (NodeTime(c.arrivalNode, 0) in fps ==>
                  c.arrivalNode in r.egressSteps && r.egressSteps[c.arrivalNode].exit.arrivalTime <= c.arrivalTime)
            && forall n: nat | n < q.nodeCount :: ChangedBy(q, st, r, c, n)
    decreases |fps|
  {
    if fps != [] {
      var st1 := RelaxOne(q, st, c, e, fps[0]);
      RelaxOneEffect(q, st, c, e, fps[0]);
      RelaxEffect(q, st1, c, e, fps[1..]);
      var r := Relax(q, st, c, e, fps);
      forall n: nat | n < q.nodeCount ensures ChangedBy(q, st, r, c, n) {
        assert ChangedBy(q, st, st1, c, n) && ChangedBy(q, st1, r, c, n);
      }
    }
  }

  lemma AlightedEffect(q: Query, st: ForwardState, c: Connection)
    requires ValidTransfers(q) && Sized(q, st) && Fits(q, c) && 0 <= q.maxTransferWalkingTime
    ensures var r := Alighted(q, st, c);
            && Lowers(q, st, r) && r.overlay == st.overlay
            && (c.canUnboard && st.overlay[c.trip].enter.Some? ==> Relaxed(q, r, c))
            && (!c.canUnboard ==> r.time == st.time)
            && forall n: nat | n < q.nodeCount :: ChangedBy(q, st, r, c, n)
  {
    if c.canUnboard && st.overlay[c.trip].enter.Some? {
      var st1 := NoteEgress(q, st, c);
      RelaxEffect(q, st1, c, st1.overlay[c.trip].enter.value, q.transfers[c.arrivalNode]);
      forall n: nat | n < q.nodeCount ensures ChangedBy(q, st, Alighted(q, st, c), c, n) {
        assert ChangedBy(q, st1, Alighted(q, st, c), c, n);
      }
    }
  }

  ghost predicate EntersKept(q: Query, st: ForwardState, r: ForwardState, c: Connection)
    requires Sized(q, st) && Sized(q, r)
  {
    forall t: nat | t < q.tripCount ::
      if st.overlay[t].enter.Some? then r.overlay[t].enter == st.overlay[t].enter
      else r.overlay[t].enter.None? || (t == c.trip && r.overlay[t].enter == Some(c))
  }

  // What one iteration does, seen from the labels.
  lemma ProcessEffect(q: Query, st: ForwardState, c: Connection)
    requires ValidTransfers(q) && Sized(q, st) && Fits(q, c) && 0 <= q.maxTransferWalkingTime
    ensures var r := Process(q, st, c);
            && Lowers(q, st, r) && EntersKept(q, st, r, c)
            && (!c.canUnboard ==> r.time == st.time)
            && (forall n: nat | n < q.nodeCount :: ChangedBy(q, st, r, c, n))
            && (Scanned(q, c) && Reachable(q, st, c) && c.canBoard ==> r.overlay[c.trip].enter.Some?)
            && (Scanned(q, c) && Reachable(q, st, c) && c.canUnboard && r.overlay[c.trip].enter.Some? ==>
                Relaxed(q, r, c))
  {
    if Scanned(q, c) && Reachable(q, st, c) {
      var st1 := Boarded(q, st, c);
      AlightedEffect(q, st1, c);
      var r := Alighted(q, st1, c);
      forall n: nat | n < q.nodeCount ensures ChangedBy(q, st, Process(q, st, c), c, n) {
        assert ChangedBy(q, st1, r, c, n);
      }
    }
  }

  // ---- The first-wait test and the admitted connections ---------------------

  lemma AdmittedPasses(q: Query, cs: seq<Connection>, i: nat, st: ForwardState)
    requires ValidForward(q, cs) && i < |cs| && Sound(q, cs, i, st) && Complete(q, cs, i, st) && Fits(q, cs[i])
    requires Admitted(q, cs, cs[i]) && FirstWaitLimited(q, st, cs[i])
    ensures cs[i].departureTime - st.time[cs[i].departureNode] <= q.maxFirstWaitingTime
  {
    var c := cs[i];
    PosAt(cs, i);
    assert StepOk(q, cs, i, st, c.departureNode);
    if WaitsTooLong(q, c) {
      var legs: seq<Leg>, t: int :| ReachedSooner(q, cs, c, legs, t);
      JourneyFollowed(q, cs, i, st, legs);
      WalkedTo(q, st, Last(legs).exit, c.departureNode, t);
    }
  }

  lemma WalkedTo(q: Query, st: ForwardState, x: Connection, n: nat, t: int)
    requires Sized(q, st) && Fits(q, x) && Relaxed(q, st, x) && Footpath(q, x.arrivalNode, n, t)
    ensures n < q.nodeCount && st.time[n] <= x.arrivalTime + t
  {
    assert NodeTime(n, t) in q.transfers[x.arrivalNode];
  }

  lemma PassedIsAdmitted(q: Query, cs: seq<Connection>, i: nat, st: ForwardState)
    requires ValidForward(q, cs) && i < |cs| && Sound(q, cs, i, st) && Honest(q, cs, st) && Fits(q, cs[i])
    requires FirstWaitLimited(q, st, cs[i]) ==>
               cs[i].departureTime - st.time[cs[i].departureNode] <= q.maxFirstWaitingTime
    ensures Admitted(q, cs, cs[i])
  {
    var c := cs[i];
    PosAt(cs, i);
    var n := c.departureNode;
    assert StepOk(q, cs, i, st, n) && StepAdmitted(q, cs, st, n);
    if WaitsTooLong(q, c) {
      assert NodeTime(n, q.NodesAccess()[n]) in q.accessFootpaths;
      var s := st.steps[n];
      LegsToJourney(q, cs, i, st, s);
      LegsToScannable(q, cs, i, st, s);
      assert ReachedSooner(q, cs, c, LegsTo(q, cs, i, st, s), s.transferTime);
    }
  }

  // ---- One iteration keeps what holds ----------------------------------------

  lemma RelaxOneHonest(q: Query, cs: seq<Connection>, st: ForwardState, c: Connection, e: Connection, fp: NodeTime)
    requires Sized(q, st) && Honest(q, cs, st) && IsAdmitted(q, cs, c) && fp.node < q.nodeCount
    ensures Honest(q, cs, RelaxOne(q, st, c, e, fp))
  {
    var r := RelaxOne(q, st, c, e, fp);
    forall n: nat | n < q.nodeCount ensures StepAdmitted(q, cs, r, n) { assert StepAdmitted(q, cs, st, n); }
    forall t: nat | t < q.tripCount ensures EnterAdmitted(q, cs, r, t) { assert EnterAdmitted(q, cs, st, t); }
  }

  lemma {:induction false} RelaxHonest(q: Query, cs: seq<Connection>, st: ForwardState, c: Connection, e: Connection,
                                       fps: seq<NodeTime>)
    requires Sized(q, st) && Honest(q, cs, st) && IsAdmitted(q, cs, c) && forall fp <- fps :: fp.node < q.nodeCount
    ensures Honest(q, cs, Relax(q, st, c, e, fps))
    decreases |fps|
  {
    if fps != [] {
      RelaxOneHonest(q, cs, st, c, e, fps[0]);
      RelaxHonest(q, cs, RelaxOne(q, st, c, e, fps[0]), c, e, fps[1..]);
    }
  }

  // The labels and steps alone decide.
  lemma HonestIgnores(q: Query, cs: seq<Connection>, st: ForwardState, r: ForwardState)
    requires Sized(q, st) && Sized(q, r) && Honest(q, cs, st)
    requires r.time == st.time && r.steps == st.steps && r.egressSteps == st.egressSteps
    requires forall t: nat | t < q.tripCount :: r.overlay[t] == st.overlay[t] || EnterAdmitted(q, cs, r, t)
    ensures Honest(q, cs, r)
  {
    forall n: nat | n < q.nodeCount ensures StepAdmitted(q, cs, r, n) { assert StepAdmitted(q, cs, st, n); }
    forall t: nat | t < q.tripCount ensures EnterAdmitted(q, cs, r, t) { assert EnterAdmitted(q, cs, st, t); }
  }

  lemma ProcessHonest(q: Query, cs: seq<Connection>, i: nat, st: ForwardState)
    requires ValidForward(q, cs) && i < |cs| && Sound(q, cs, i, st) && Honest(q, cs, st)
    ensures Honest(q, cs, Process(q, st, cs[i]))
  {
    var c := cs[i];
    assert c in cs;
    if Scanned(q, c) && Reachable(q, st, c) {
      PassedIsAdmitted(q, cs, i, st);
      var st1 := Boarded(q, st, c);
      HonestIgnores(q, cs, st, st1);
      if c.canUnboard && st1.overlay[c.trip].enter.Some? {
        var st2 := NoteEgress(q, st1, c);
        HonestIgnores(q, cs, st1, st2);
        RelaxHonest(q, cs, st2, c, st2.overlay[c.trip].enter.value, q.transfers[c.arrivalNode]);
      }
      HonestIgnores(q, cs, Alighted(q, st1, c), Process(q, st, c));
    }
  }

  // An enterable connection whose node is reached in time has its trip boarded.
  lemma ReachableEntered(q: Query, cs: seq<Connection>, i: nat, st: ForwardState)
    requires ValidForward(q, cs) && i < |cs| && Sound(q, cs, i, st) && Complete(q, cs, i, st) && Fits(q, cs[i])
    requires CanEnter(q, cs, i) && st.time[cs[i].departureNode] <= cs[i].departureTime - q.Wait(cs[i])
    ensures EnteredBy(q, cs, Process(q, st, cs[i]), i)
  {
    var c, next := cs[i], i + 1;
    assert c in cs;
    if FirstWaitLimited(q, st, c) { AdmittedPasses(q, cs, i, st); }
    ProcessEffect(q, st, c);
    ProcessSound(q, cs, i, st);
    assert TripOk(q, cs, next, Process(q, st, c), c.trip);
  }

  lemma EnteredStays(q: Query, cs: seq<Connection>, i: nat, j: nat, st: ForwardState)
    requires ValidForward(q, cs) && j < i < |cs| && Sized(q, st) && Fits(q, cs[j]) && Fits(q, cs[i])
    ensures EnteredBy(q, cs, Process(q, st, cs[i]), j) <==> EnteredBy(q, cs, st, j)
  {
    assert cs[i] in cs && cs[j] in cs;
    ProcessEffect(q, st, cs[i]);
    PosAt(cs, i);
    var r := Process(q, st, cs[i]);
    if EnteredBy(q, cs, r, j) { assert r.overlay[cs[j].trip].enter != Some(cs[i]); }
  }

  lemma BoardedFirstKept(q: Query, cs: seq<Connection>, i: nat, j: nat, st: ForwardState)
    requires ValidForward(q, cs) && i < |cs| && Sound(q, cs, i, st) && Complete(q, cs, i, st)
    requires j <= i && Fits(q, cs[i]) && Fits(q, cs[j]) && (j < i ==> BoardedFirst(q, cs, st, j))
    ensures BoardedFirst(q, cs, Process(q, st, cs[i]), j)
  {
    if j < i {
      EnteredStays(q, cs, i, j, st);
    } else if CanEnter(q, cs, i) && Departs(q, cs[i]) {
      DepartureReached(q, cs, i, st, cs[i]);
      ReachableEntered(q, cs, i, st);
    }
  }

  lemma BoardedNextKept(q: Query, cs: seq<Connection>, i: nat, m: nat, j: nat, st: ForwardState)
    requires ValidForward(q, cs) && i < |cs| && Sound(q, cs, i, st) && Complete(q, cs, i, st)
    requires m < j <= i && Fits(q, cs[i]) && Fits(q, cs[m]) && Fits(q, cs[j])
    requires j < i ==> BoardedNext(q, cs, st, m, j)
    ensures BoardedNext(q, cs, Process(q, st, cs[i]), m, j)
  {
    EnteredStays(q, cs, i, m, st);
    if j < i {
      EnteredStays(q, cs, i, j, st);
    } else if CanEnter(q, cs, i) && Exited(q, cs, st, m) && Handoff(q, cs[m], cs[i]) {
      assert Covered(q, cs, st, m);
      HandedOver(q, st, cs[m], cs[i]);
      ReachableEntered(q, cs, i, st);
    }
  }

  lemma CoveredKept(q: Query, cs: seq<Connection>, i: nat, j: nat, st: ForwardState)
    requires ValidForward(q, cs) && i < |cs| && Sound(q, cs, i, st) && Complete(q, cs, i, st)
    requires j <= i && Fits(q, cs[i]) && Fits(q, cs[j]) && (j < i ==> Covered(q, cs, st, j))
    ensures Covered(q, cs, Process(q, st, cs[i]), j)
  {
    var c, r := cs[i], Process(q, st, cs[i]);
    assert c in cs;
    ProcessEffect(q, st, c);
    if j < i {
      EnteredStays(q, cs, i, j, st);
    } else if Exited(q, cs, r, i) {
      if FirstWaitLimited(q, st, c) { AdmittedPasses(q, cs, i, st); }
      assert st.overlay[c.trip].enter.Some? || r.overlay[c.trip].enter == Some(c);
      assert Reachable(q, st, c);
    }
  }

  lemma ProcessComplete(q: Query, cs: seq<Connection>, i: nat, st: ForwardState)
    requires ValidForward(q, cs) && i < |cs| && Sound(q, cs, i, st) && Complete(q, cs, i, st)
    ensures Complete(q, cs, i + 1, Process(q, st, cs[i]))
  {
    assert cs[i] in cs;
    ProcessEffect(q, st, cs[i]);
    var r, next := Process(q, st, cs[i]), i + 1;
    forall j: nat | j < next ensures BoardedFirst(q, cs, r, j) && Covered(q, cs, r, j) {
      assert j < i ==> BoardedFirst(q, cs, st, j) && Covered(q, cs, st, j);
      BoardedFirstKept(q, cs, i, j, st);
      CoveredKept(q, cs, i, j, st);
    }
    forall m: nat, j: nat | m < j < next ensures BoardedNext(q, cs, r, m, j) {
      assert j < i ==> BoardedNext(q, cs, st, m, j);
      BoardedNextKept(q, cs, i, m, j, st);
    }
  }

  // ---- The whole scan -------------------------------------------------------

  lemma InitialComplete(q: Query, cs: seq<Connection>)
    requires ValidQuery(q) && forall c <- cs :: Fits(q, c)
    ensures Complete(q, cs, 0, Initial(q)) && Honest(q, cs, Initial(q))
  {
    forall fp <- q.accessFootpaths
      ensures fp.node < q.nodeCount ==> Initial(q).time[fp.node] <= q.departureTime + fp.time
    {
      assert NodeTime(fp.node, q.NodesAccess()[fp.node]) in q.accessFootpaths;
    }
  }

  ghost predicate Invariant(q: Query, cs: seq<Connection>, i: nat, st: ForwardState)
    requires forall c <- cs :: Fits(q, c)
  {
    Whole(Kept(q, cs, i, st))
  }

  ghost predicate Kept(q: Query, cs: seq<Connection>, i: nat, st: ForwardState)
    requires forall c <- cs :: Fits(q, c)
  {
    && Sound(q, cs, i, st)
    && TentativeOk(q, st) && CountOk(st)
    && Complete(q, cs, i, st) && Honest(q, cs, st)
  }

  lemma InitialInvariant(q: Query, cs: seq<Connection>)
    requires ValidQuery(q) && forall c <- cs :: Fits(q, c)
    ensures Invariant(q, cs, 0, Initial(q))
  {
    InitialSound(q, cs);
    InitialComplete(q, cs);
  }

  lemma ProcessTentative(q: Query, st: ForwardState, c: Connection)
    requires ValidTransfers(q) && Sized(q, st) && Fits(q, c) && 0 <= q.maxTransferWalkingTime
    requires TentativeOk(q, st) && CountOk(st)
    ensures TentativeOk(q, Process(q, st, c)) && CountOk(Process(q, st, c))
  {
    if Scanned(q, c) && Reachable(q, st, c) {
      var st1 := Boarded(q, st, c);
      if c.canUnboard && st1.overlay[c.trip].enter.Some? {
        var st2 := NoteEgress(q, st1, c);
        RelaxEffect(q, st2, c, st2.overlay[c.trip].enter.value, q.transfers[c.arrivalNode]);
        assert NodeTime(c.arrivalNode, 0) in q.transfers[c.arrivalNode];
        var r := Process(q, st, c);
        if st1.reachedEgress {
          var n :| n in q.NodesEgress() && n in st.egressSteps &&
                   st.egressSteps[n].exit.arrivalTime <= st.tentativeEgressArrival;
          assert n in r.egressSteps;
        }
      }
    }
  }

  lemma ProcessKeeps(q: Query, cs: seq<Connection>, i: nat, st: ForwardState)
    requires ValidForward(q, cs) && i < |cs|
    requires Invariant(q, cs, i, st)
    ensures Invariant(q, cs, i + 1, Process(q, st, cs[i]))
  {
    assert cs[i] in cs;
    ProcessSound(q, cs, i, st);
    ProcessTentative(q, st, cs[i]);
    ProcessComplete(q, cs, i, st);
    ProcessHonest(q, cs, i, st);
  }

  // The scan ends at a position k where all that precedes is accounted for, and
  // either nothing follows or a break fired.
  lemma {:induction false} ScanInvariant(q: Query, cs: seq<Connection>, i: nat, st: ForwardState, single: bool)
    returns (k: nat)
    requires ValidForward(q, cs) && i <= |cs|
    requires Invariant(q, cs, i, st)
    ensures i <= k <= |cs| && Invariant(q, cs, k, Scan(q, cs, i, st, single))
    ensures k < |cs| ==> Stops(q, Scan(q, cs, i, st, single), cs[k], single)
    decreases |cs| - i
  {
    if i == |cs| || Stops(q, st, cs[i], single) {
      k := i;
    } else {
      ProcessKeeps(q, cs, i, st);
      k := ScanInvariant(q, cs, i + 1, Process(q, st, cs[i]), single);
    }
  }

  // ---- From journeys to labels ----------------------------------------------

  lemma HandoffTime(q: Query, cs: seq<Connection>, x: Connection, e: Connection)
    requires ValidQuery(q) && ValidConnections(q, cs) && x in cs && e in cs && Handoff(q, x, e)
    ensures x.arrivalTime <= e.departureTime - q.Wait(e) <= e.departureTime
  {
    assert ValidConnection(q, x) && ValidConnection(q, e);
    var t :| Footpath(q, x.arrivalNode, e.departureNode, t) && x.arrivalTime + t + q.Wait(e) <= e.departureTime;
    assert NodeTime(e.departureNode, t) in q.transfers[x.arrivalNode];
  }

  lemma RideTime(q: Query, cs: seq<Connection>, e: Connection, x: Connection)
    requires ValidForward(q, cs) && IsRide(q, cs, e, x)
    ensures Pos(cs, e) <= Pos(cs, x) && e.departureTime <= x.departureTime <= x.arrivalTime
  {
    TripOrder(cs, e, x);
    assert ValidConnection(q, x);
  }

  lemma PrefixJourney(q: Query, cs: seq<Connection>, legs: seq<Leg>)
    requires Journey(q, cs, legs) && |legs| > 1
    ensures Journey(q, cs, legs[..|legs| - 1])
    ensures Handoff(q, legs[|legs| - 2].exit, Last(legs).enter)
  {
    var k: nat := |legs| - 2;
    assert Handoff(q, legs[k].exit, legs[k + 1].enter);
  }

  // Nothing in a journey departs before the earliest access.
  lemma {:induction false} JourneyScanned(q: Query, cs: seq<Connection>, legs: seq<Leg>)
    requires ValidForward(q, cs) && Journey(q, cs, legs)
    ensures Scanned(q, Last(legs).enter) && Scanned(q, Last(legs).exit)
    ensures legs[0].enter.departureTime <= Last(legs).enter.departureTime
    decreases |legs|
  {
    var l := Last(legs);
    RideTime(q, cs, l.enter, l.exit);
    if |legs| == 1 {
      assert ValidConnection(q, l.enter);
    } else {
      PrefixJourney(q, cs, legs);
      JourneyScanned(q, cs, legs[..|legs| - 1]);
      var p := legs[|legs| - 2];
      RideTime(q, cs, p.enter, p.exit);
      HandoffTime(q, cs, p.exit, l.enter);
    }
  }

  // A ride entered in time has been followed to its exit.
  lemma RideFollowed(q: Query, cs: seq<Connection>, k: nat, st: ForwardState, e: Connection, x: Connection)
    requires ValidForward(q, cs) && Sound(q, cs, k, st) && Complete(q, cs, k, st)
    requires IsRide(q, cs, e, x) && InPrefix(cs, k, x) && Scanned(q, x) && Admitted(q, cs, x)
    requires Fits(q, e) && EnteredBy(q, cs, st, Pos(cs, e))
    ensures Fits(q, x) && Exited(q, cs, st, Pos(cs, x)) && Relaxed(q, st, x)
    ensures e.trip < q.tripCount && st.overlay[e.trip].usable
  {
    RideTime(q, cs, e, x);
    assert Fits(q, x);
    assert Covered(q, cs, st, Pos(cs, x));
    assert TripOk(q, cs, k, st, e.trip);
  }

  lemma HandedOver(q: Query, st: ForwardState, x: Connection, e: Connection)
    requires Sized(q, st) && Fits(q, x) && Relaxed(q, st, x) && Handoff(q, x, e)
    ensures e.departureNode < q.nodeCount && st.time[e.departureNode] <= e.departureTime - q.Wait(e)
  {
    var t :| Footpath(q, x.arrivalNode, e.departureNode, t) && x.arrivalTime + t + q.Wait(e) <= e.departureTime;
    assert NodeTime(e.departureNode, t) in q.transfers[x.arrivalNode];
  }

  lemma HandoffPos(q: Query, cs: seq<Connection>, x: Connection, e: Connection)
    requires HandoffOrdered(q, cs) && x in cs && e in cs && x.canUnboard && e.canBoard && Handoff(q, x, e)
    ensures Pos(cs, x) < Pos(cs, e)
  {
    assert cs[Pos(cs, x)] == x && cs[Pos(cs, e)] == e;
  }

  // The first ride's boarding node is labelled by the walk from the origin.
  lemma DepartureReached(q: Query, cs: seq<Connection>, k: nat, st: ForwardState, e: Connection)
    requires ValidQuery(q) && forall c <- cs :: Fits(q, c)
    requires Complete(q, cs, k, st) && Departs(q, e)
    ensures e.departureNode < q.nodeCount && st.time[e.departureNode] <= e.departureTime - q.Wait(e)
  {
  }

  // What "followed" means for a journey.
  ghost predicate Followed(q: Query, cs: seq<Connection>, st: ForwardState, legs: seq<Leg>)
    requires legs != []
  {
    var l := Last(legs);
    && l.exit in cs && Sized(q, st) && Fits(q, l.exit)
    && Exited(q, cs, st, Pos(cs, l.exit)) && Relaxed(q, st, l.exit)
    && l.enter.trip < q.tripCount && st.overlay[l.enter.trip].usable
  }

  lemma PrefixScannable(q: Query, cs: seq<Connection>, p: nat, legs: seq<Leg>)
    requires ValidForward(q, cs) && Scannable(q, cs, p, legs) && |legs| > 1
    ensures Scannable(q, cs, p, legs[..|legs| - 1]) && Handoff(q, Last(legs[..|legs| - 1]).exit, Last(legs).enter)
    ensures Before(cs, Last(legs[..|legs| - 1]).exit, Last(legs).enter)
  {
    PrefixJourney(q, cs, legs);
    var k: nat := |legs| - 2;
    assert Before(cs, legs[k].exit, legs[k + 1].enter);
  }

  // The legs of a journey handed over in order lie before its last exit.
  lemma {:induction false} LegsUpTo(q: Query, cs: seq<Connection>, legs: seq<Leg>, m: nat)
    requires ValidForward(q, cs) && Chain(q, cs, legs) && InOrder(cs, legs) && m < |legs|
    ensures legs[m].enter in cs && legs[m].exit in cs && Last(legs).exit in cs
    ensures Pos(cs, legs[m].enter) <= Pos(cs, legs[m].exit) <= Pos(cs, Last(legs).exit)
    decreases |legs| - m
  {
    assert IsRide(q, cs, legs[m].enter, legs[m].exit);
    RideTime(q, cs, legs[m].enter, legs[m].exit);
    if m + 1 < |legs| {
      assert Before(cs, legs[m].exit, legs[m + 1].enter);
      LegsUpTo(q, cs, legs, m + 1);
    }
  }

  // So a scannable journey lies before the first position after its last exit.
  lemma ScannableUpTo(q: Query, cs: seq<Connection>, p: nat, k: nat, legs: seq<Leg>)
    requires ValidForward(q, cs) && Scannable(q, cs, p, legs) && InPrefix(cs, k, Last(legs).exit)
    ensures Scannable(q, cs, k, legs)
  {
    forall l | l in legs ensures Passable(q, cs, k, l) {
      var m: nat :| m < |legs| && legs[m] == l;
      LegsUpTo(q, cs, legs, m);
      assert Passable(q, cs, p, l);
    }
  }

  lemma ScannableMore(q: Query, cs: seq<Connection>, p: nat, k: nat, legs: seq<Leg>)
    requires Scannable(q, cs, p, legs) && p <= k
    ensures Scannable(q, cs, k, legs)
  {
    forall l | l in legs ensures Passable(q, cs, k, l) { assert Passable(q, cs, p, l); }
  }

  lemma LastRide(q: Query, cs: seq<Connection>, legs: seq<Leg>)
    requires ValidForward(q, cs) && Journey(q, cs, legs)
    ensures IsRide(q, cs, Last(legs).enter, Last(legs).exit) && ValidConnection(q, Last(legs).exit)
    ensures Last(legs).exit.departureTime <= Last(legs).exit.arrivalTime
  {
    assert IsRide(q, cs, legs[|legs| - 1].enter, legs[|legs| - 1].exit);
    assert ValidConnection(q, Last(legs).exit);
  }

  // Every scannable journey before position k has been followed.
  lemma {:induction false} JourneyFollowed(q: Query, cs: seq<Connection>, k: nat, st: ForwardState, legs: seq<Leg>)
    requires ValidForward(q, cs) && Sound(q, cs, k, st) && Complete(q, cs, k, st)
    requires Scannable(q, cs, k, legs)
    ensures Followed(q, cs, st, legs)
    decreases |legs|
  {
    var l := Last(legs);
    assert l in legs && IsRide(q, cs, l.enter, l.exit);
    JourneyScanned(q, cs, legs);
    var j := Pos(cs, l.enter);
    if |legs| == 1 {
      assert BoardedFirst(q, cs, st, j);
    } else {
      PrefixScannable(q, cs, k, legs);
      JourneyFollowed(q, cs, k, st, legs[..|legs| - 1]);
      assert BoardedNext(q, cs, st, Pos(cs, Last(legs[..|legs| - 1]).exit), j);
    }
    RideFollowed(q, cs, k, st, l.enter, l.exit);
  }

  ghost predicate UsesTrip(q: Query, st: ForwardState, l: Leg) {
    l.enter.trip < q.tripCount && l.enter.trip < |st.overlay| && st.overlay[l.enter.trip].usable
  }

  // ---- From labels to journeys ----------------------------------------------

  // The chain a journey step stands for, read through the steps of the nodes
  // where its trips were boarded.
  ghost function LegsTo(q: Query, cs: seq<Connection>, i: nat, st: ForwardState, s: JourneyStep): (legs: seq<Leg>)
    requires ValidForward(q, cs) && Sound(q, cs, i, st) && RodeFrom(q, cs, i, st, s)
    ensures legs != [] && Last(legs) == Leg(s.enter, s.exit)
    decreases Pos(cs, s.enter)
  {
    EnterBehind(q, cs, i, st, s.enter.trip, s.enter);
    var prev := st.steps[s.enter.departureNode];
    if prev.Walk? then [Leg(s.enter, s.exit)]
    else LegsTo(q, cs, i, st, prev) + [Leg(s.enter, s.exit)]
  }

  // The boarding e of trip t was reached from the origin, or by a ride scanned before.
  lemma EnterBehind(q: Query, cs: seq<Connection>, i: nat, st: ForwardState, t: nat, e: Connection)
    requires ValidForward(q, cs) && Sound(q, cs, i, st) && t < q.tripCount && st.overlay[t].enter == Some(e)
    ensures e.departureNode < q.nodeCount
    ensures var prev := st.steps[e.departureNode];
            if prev.Walk? then Departs(q, e)
            else && RodeFrom(q, cs, i, st, prev) && Before(cs, prev.exit, e) && Handoff(q, prev.exit, e)
                 && Pos(cs, prev.enter) < Pos(cs, e)
  {
    assert TripOk(q, cs, i, st, t) && StepOk(q, cs, i, st, e.departureNode);
    assert ValidConnection(q, e);
    var prev := st.steps[e.departureNode];
    if prev.Walk? {
      assert e.departureNode in q.NodesAccess();
      assert NodeTime(e.departureNode, q.NodesAccess()[e.departureNode]) in q.accessFootpaths;
    } else {
      TripOrder(cs, prev.enter, prev.exit);
      assert Handoff(q, prev.exit, e) by {
        assert Footpath(q, prev.exit.arrivalNode, e.departureNode, prev.transferTime);
      }
    }
  }

  lemma JourneySnoc(q: Query, cs: seq<Connection>, legs: seq<Leg>, l: Leg)
    requires Journey(q, cs, legs) && IsRide(q, cs, l.enter, l.exit) && Handoff(q, Last(legs).exit, l.enter)
    ensures Journey(q, cs, legs + [l])
  {
    var all := legs + [l];
    forall k: nat | k + 1 < |all| ensures Handoff(q, all[k].exit, all[k + 1].enter) {
      if k + 1 < |legs| { assert Handoff(q, legs[k].exit, legs[k + 1].enter); }
    }
  }

  lemma {:induction false} LegsToJourney(q: Query, cs: seq<Connection>, i: nat, st: ForwardState, s: JourneyStep)
    requires ValidForward(q, cs) && Sound(q, cs, i, st) && RodeFrom(q, cs, i, st, s)
    ensures Journey(q, cs, LegsTo(q, cs, i, st, s))
    decreases Pos(cs, s.enter)
  {
    EnterBehind(q, cs, i, st, s.enter.trip, s.enter);
    var prev := st.steps[s.enter.departureNode];
    if prev.Ride? {
      LegsToJourney(q, cs, i, st, prev);
      JourneySnoc(q, cs, LegsTo(q, cs, i, st, prev), Leg(s.enter, s.exit));
    }
  }

  lemma InOrderSnoc(cs: seq<Connection>, legs: seq<Leg>, l: Leg)
    requires legs != [] && InOrder(cs, legs) && Before(cs, Last(legs).exit, l.enter)
    ensures InOrder(cs, legs + [l])
  {
    var all := legs + [l];
    forall k: nat | k + 1 < |all| ensures Before(cs, all[k].exit, all[k + 1].enter) {
      if k + 1 < |legs| { assert Before(cs, legs[k].exit, legs[k + 1].enter); }
    }
  }

  // The chain is one the scan can follow, on trips it has boarded.
  lemma {:induction false} LegsToScannable(q: Query, cs: seq<Connection>, i: nat, st: ForwardState, s: JourneyStep)
    requires ValidForward(q, cs) && Sound(q, cs, i, st) && Honest(q, cs, st)
    requires RodeFrom(q, cs, i, st, s) && IsAdmitted(q, cs, s.exit)
    ensures Scannable(q, cs, i, LegsTo(q, cs, i, st, s))
    ensures forall l <- LegsTo(q, cs, i, st, s) :: UsesTrip(q, st, l)
    decreases Pos(cs, s.enter)
  {
    var e := s.enter;
    StepBehind(q, cs, i, st, s);
    LegsToJourney(q, cs, i, st, s);
    var prev := st.steps[e.departureNode];
    if prev.Ride? {
      LegsToScannable(q, cs, i, st, prev);
      InOrderSnoc(cs, LegsTo(q, cs, i, st, prev), Leg(e, s.exit));
    }
  }

  // The last leg, and the ride before it.
  lemma StepBehind(q: Query, cs: seq<Connection>, i: nat, st: ForwardState, s: JourneyStep)
    requires ValidForward(q, cs) && Sound(q, cs, i, st) && Honest(q, cs, st)
    requires RodeFrom(q, cs, i, st, s) && IsAdmitted(q, cs, s.exit)
    ensures s.enter.departureNode < q.nodeCount
    ensures Passable(q, cs, i, Leg(s.enter, s.exit)) && UsesTrip(q, st, Leg(s.enter, s.exit))
    ensures var prev := st.steps[s.enter.departureNode];
            prev.Ride? ==>
              && RodeFrom(q, cs, i, st, prev) && IsAdmitted(q, cs, prev.exit)
              && Before(cs, prev.exit, s.enter) && Pos(cs, prev.enter) < Pos(cs, s.enter)
  {
    var e := s.enter;
    EnterBehind(q, cs, i, st, s.enter.trip, s.enter);
    assert TripOk(q, cs, i, st, e.trip);
    assert EnterAdmitted(q, cs, st, e.trip) && StepAdmitted(q, cs, st, e.departureNode);
    TripOrder(cs, e, s.exit);
  }

  // ---- Main results: all nodes ----------------------------------------------

  // What the all-nodes result lists: node n, reached by vehicle at t.
  predicate ListedAt(q: Query, st: ForwardState, n: nat, t: int) {
    && n in st.egressSteps && st.egressSteps[n].exit.arrivalTime == t
    && t - q.departureTime <= q.maxTotalTravelTime
  }

  ghost predicate EarliestWithinMax(q: Query, cs: seq<Connection>, n: nat, t: int) {
    && (exists legs :: Reaches(q, cs, legs, n, t))
    && (forall legs, u :: Reaches(q, cs, legs, n, u) ==> t <= u)
    && t - q.departureTime <= q.maxTotalTravelTime
  }

  // The same over the journeys the scan can follow.
  ghost predicate ScanReaches(q: Query, cs: seq<Connection>, legs: seq<Leg>, n: nat, t: int) {
    Scannable(q, cs, |cs|, legs) && Reaches(q, cs, legs, n, t)
  }

  ghost predicate EarliestScanned(q: Query, cs: seq<Connection>, n: nat, t: int) {
    && (exists legs :: ScanReaches(q, cs, legs, n, t))
    && (forall legs, u :: ScanReaches(q, cs, legs, n, u) ==> t <= u)
    && t - q.departureTime <= q.maxTotalTravelTime
  }

  lemma EgressJourney(q: Query, cs: seq<Connection>, k: nat, st: ForwardState, n: nat) returns (legs: seq<Leg>)
    requires ValidForward(q, cs) && k <= |cs| && Sound(q, cs, k, st) && Honest(q, cs, st) && n in st.egressSteps
    ensures ScanReaches(q, cs, legs, n, st.egressSteps[n].exit.arrivalTime)
    ensures Scannable(q, cs, k, legs) && forall l <- legs :: UsesTrip(q, st, l)
  {
    assert EgressOk(q, cs, k, st, n);
    LegsToScannable(q, cs, k, st, st.egressSteps[n]);
    legs := LegsTo(q, cs, k, st, st.egressSteps[n]);
  }

  lemma LastWithinMax(q: Query, cs: seq<Connection>, k: nat, x: Connection)
    requires ForwardSorted(cs) && x in cs && x.departureTime <= x.arrivalTime && k <= |cs|
    requires k < |cs| ==> cs[k].departureTime - q.departureTime > q.maxTotalTravelTime
    requires x.arrivalTime - q.departureTime <= q.maxTotalTravelTime
    ensures InPrefix(cs, k, x)
  {
    if k <= Pos(cs, x) { SortedAt(cs, k, x); }
  }

  // A journey arriving early enough to be within the maximum was scanned.
  lemma WithinMaxFollowed(q: Query, cs: seq<Connection>, k: nat, st: ForwardState, legs: seq<Leg>)
    requires ValidForward(q, cs) && ScannedUpTo(q, cs, k, st)
    requires Scannable(q, cs, |cs|, legs) && Last(legs).exit.arrivalTime - q.departureTime <= q.maxTotalTravelTime
    ensures Last(legs).exit.arrivalNode in st.egressSteps
    ensures st.egressSteps[Last(legs).exit.arrivalNode].exit.arrivalTime <= Last(legs).exit.arrivalTime
  {
    LastRide(q, cs, legs);
    LastWithinMax(q, cs, k, Last(legs).exit);
    ScannableUpTo(q, cs, |cs|, k, legs);
    JourneyFollowed(q, cs, k, st, legs);
  }

  // The state after an all-nodes scan that ended at position k.
  ghost predicate ScannedUpTo(q: Query, cs: seq<Connection>, k: nat, st: ForwardState)
    requires forall c <- cs :: Fits(q, c)
  {
    && k <= |cs| && Sound(q, cs, k, st) && Complete(q, cs, k, st) && Honest(q, cs, st)
    && (k < |cs| ==> cs[k].departureTime - q.departureTime > q.maxTotalTravelTime)
  }

  // On every network and for every first-wait limit: a node is recorded at t within
  // the maximum exactly if t is the earliest arrival there of the journeys the scan
  // can follow.
  lemma AllNodesFollow(q: Query, cs: seq<Connection>, n: nat, t: int)
    requires ValidForward(q, cs)
    ensures ListedAt(q, Scan(q, cs, 0, Initial(q), false), n, t) <==> EarliestScanned(q, cs, n, t)
  {
    InitialInvariant(q, cs);
    var k := ScanInvariant(q, cs, 0, Initial(q), false);
    var r := Scan(q, cs, 0, Initial(q), false);
    if ListedAt(q, r, n, t) { ListedIsEarliest(q, cs, k, r, n, t); }
    if EarliestScanned(q, cs, n, t) { EarliestIsListed(q, cs, k, r, n, t); }
  }

  lemma ListedIsEarliest(q: Query, cs: seq<Connection>, k: nat, r: ForwardState, n: nat, t: int)
    requires ValidForward(q, cs) && ScannedUpTo(q, cs, k, r) && ListedAt(q, r, n, t)
    ensures EarliestScanned(q, cs, n, t)
  {
    var found := EgressJourney(q, cs, k, r, n);
    forall legs, u | ScanReaches(q, cs, legs, n, u) ensures t <= u {
      if u < t { WithinMaxFollowed(q, cs, k, r, legs); }
    }
  }

  lemma EarliestIsListed(q: Query, cs: seq<Connection>, k: nat, r: ForwardState, n: nat, t: int)
    requires ValidForward(q, cs) && ScannedUpTo(q, cs, k, r) && EarliestScanned(q, cs, n, t)
    ensures ListedAt(q, r, n, t)
  {
    var legs :| ScanReaches(q, cs, legs, n, t);
    WithinMaxFollowed(q, cs, k, r, legs);
    var found := EgressJourney(q, cs, k, r, n);
    assert ScanReaches(q, cs, found, n, r.egressSteps[n].exit.arrivalTime);
  }

  // Every journey to a node within the maximum is matched by one the scan can
  // follow that is there no later.
  ghost predicate NoNodeMissed(q: Query, cs: seq<Connection>) {
    forall legs, n, t | Reaches(q, cs, legs, n, t) && t - q.departureTime <= q.maxTotalTravelTime ::
      MatchedAt(q, cs, n, t)
  }

  ghost predicate MatchedAt(q: Query, cs: seq<Connection>, n: nat, t: int) {
    exists legs, u :: ScanReaches(q, cs, legs, n, u) && u <= t
  }

  ghost predicate NodesExact(q: Query, cs: seq<Connection>)
    requires forall c <- cs :: Fits(q, c)
  {
    forall n, t :: ListedAt(q, Scan(q, cs, 0, Initial(q), false), n, t) <==> EarliestWithinMax(q, cs, n, t)
  }

  // Among the journeys to n arriving by t there is an earliest one.
  lemma {:induction false} SomeEarliest(q: Query, cs: seq<Connection>, n: nat, legs: seq<Leg>, t: int) returns (u: int)
    requires ValidForward(q, cs) && Reaches(q, cs, legs, n, t) && t - q.departureTime <= q.maxTotalTravelTime
    ensures u <= t && EarliestWithinMax(q, cs, n, u)
    decreases t
  {
    LastRide(q, cs, legs);
    if other, v :| Reaches(q, cs, other, n, v) && v < t {
      u := SomeEarliest(q, cs, n, other, v);
    } else {
      u := t;
    }
  }

  // The all-nodes scan is exact over all journeys if and only if none is missed.
  lemma AllNodesExactly(q: Query, cs: seq<Connection>)
    requires ValidForward(q, cs)
    ensures NodesExact(q, cs) <==> NoNodeMissed(q, cs)
  {
    if NodesExact(q, cs) { ExactMissesNoNode(q, cs); }
    if NoNodeMissed(q, cs) {
      forall n, t
        ensures ListedAt(q, Scan(q, cs, 0, Initial(q), false), n, t) <==> EarliestWithinMax(q, cs, n, t)
      {
        UnmissedIsEarliest(q, cs, n, t);
      }
    }
  }

  lemma ExactMissesNoNode(q: Query, cs: seq<Connection>)
    requires ValidForward(q, cs) && NodesExact(q, cs)
    ensures NoNodeMissed(q, cs)
  {
    forall legs, n, t | Reaches(q, cs, legs, n, t) && t - q.departureTime <= q.maxTotalTravelTime
      ensures MatchedAt(q, cs, n, t)
    {
      var u := SomeEarliest(q, cs, n, legs, t);
      AllNodesFollow(q, cs, n, u);
    }
  }

  lemma UnmissedIsEarliest(q: Query, cs: seq<Connection>, n: nat, t: int)
    requires ValidForward(q, cs) && NoNodeMissed(q, cs)
    ensures ListedAt(q, Scan(q, cs, 0, Initial(q), false), n, t) <==> EarliestWithinMax(q, cs, n, t)
  {
    AllNodesFollow(q, cs, n, t);
    if EarliestScanned(q, cs, n, t) { ScannedIsEarliest(q, cs, n, t); }
    if EarliestWithinMax(q, cs, n, t) { EarliestIsScanned(q, cs, n, t); }
  }

  lemma ScannedIsEarliest(q: Query, cs: seq<Connection>, n: nat, t: int)
    requires NoNodeMissed(q, cs) && EarliestScanned(q, cs, n, t)
    ensures EarliestWithinMax(q, cs, n, t)
  {
    forall legs, u | Reaches(q, cs, legs, n, u) ensures t <= u {
      if u - q.departureTime <= q.maxTotalTravelTime { MatchedIsLater(q, cs, n, t, u); }
    }
  }

  lemma MatchedIsLater(q: Query, cs: seq<Connection>, n: nat, t: int, u: int)
    requires EarliestScanned(q, cs, n, t) && MatchedAt(q, cs, n, u)
    ensures t <= u
  {
    var legs, v :| ScanReaches(q, cs, legs, n, v) && v <= u;
  }

  lemma EarliestIsScanned(q: Query, cs: seq<Connection>, n: nat, t: int)
    requires NoNodeMissed(q, cs) && EarliestWithinMax(q, cs, n, t)
    ensures EarliestScanned(q, cs, n, t)
  {
    var found :| Reaches(q, cs, found, n, t);
    assert MatchedAt(q, cs, n, t);
    var legs, u :| ScanReaches(q, cs, legs, n, u) && u <= t;
    assert u == t;
  }

  // ---- Where every journey can be followed ------------------------------------

  lemma JourneyInOrder(q: Query, cs: seq<Connection>, legs: seq<Leg>)
    requires HandoffOrdered(q, cs) && Chain(q, cs, legs)
    ensures InOrder(cs, legs)
  {
    forall k: nat | k + 1 < |legs| ensures Before(cs, legs[k].exit, legs[k + 1].enter) {
      assert IsRide(q, cs, legs[k].enter, legs[k].exit) && IsRide(q, cs, legs[k + 1].enter, legs[k + 1].exit);
      HandoffPos(q, cs, legs[k].exit, legs[k + 1].enter);
    }
  }

  // No first-wait limit, and all handoffs in scan order.
  ghost predicate Exactable(q: Query, cs: seq<Connection>) {
    HandoffOrdered(q, cs) && q.maxFirstWaitingTime <= 0
  }

  lemma JourneyScannable(q: Query, cs: seq<Connection>, legs: seq<Leg>)
    requires ValidForward(q, cs) && Exactable(q, cs) && Journey(q, cs, legs)
    ensures Scannable(q, cs, |cs|, legs)
  {
    JourneyInOrder(q, cs, legs);
    forall l | l in legs ensures Passable(q, cs, |cs|, l) {
      var k: nat :| k < |legs| && legs[k] == l;
      assert IsRide(q, cs, legs[k].enter, legs[k].exit);
      NoLimitAdmits(q, cs, l.enter);
      NoLimitAdmits(q, cs, l.exit);
    }
  }

  lemma NodesOrderedNotMissed(q: Query, cs: seq<Connection>)
    requires ValidForward(q, cs) && Exactable(q, cs)
    ensures NoNodeMissed(q, cs)
  {
    forall legs, n, t | Reaches(q, cs, legs, n, t) && t - q.departureTime <= q.maxTotalTravelTime
      ensures MatchedAt(q, cs, n, t)
    {
      JourneyScannable(q, cs, legs);
      assert ScanReaches(q, cs, legs, n, t);
    }
  }

  lemma AllNodesExact(q: Query, cs: seq<Connection>)
    requires ValidForward(q, cs) && Exactable(q, cs)
    ensures NodesExact(q, cs)
  {
    NodesOrderedNotMissed(q, cs);
    AllNodesExactly(q, cs);
  }

  // ---- Main results: single destination -------------------------------------

  // One egress footpath against the best so far.
  function BetterEgress(q: Query, st: ForwardState, best: Option<NodeTime>, fp: NodeTime): Option<NodeTime> {
    if fp.node in st.egressSteps then
      var t := st.egressSteps[fp.node].exit.arrivalTime + fp.time;
      if && 0 <= t && t - q.departureTime <= q.maxTotalTravelTime
         && t < (if best.Some? then best.value.time else MAX_INT) && t < MAX_INT
      then Some(NodeTime(fp.node, t)) else best
    else best
  }

  // The loop over the egress footpaths, first m of them.
  function BestEgress(q: Query, st: ForwardState, m: nat): Option<NodeTime>
    requires m <= |q.egressFootpaths|
  {
    if m == 0 then None
    else
      var n := q.egressFootpaths[m - 1].node;
      assert q.egressFootpaths[m - 1] in q.egressFootpaths;
      BetterEgress(q, st, BestEgress(q, st, m - 1), NodeTime(n, q.NodesEgress()[n]))
  }

  // The egress labels offer arrival t through footpath fp.
  ghost predicate Offers(q: Query, st: ForwardState, fp: NodeTime, t: int) {
    && fp.node in st.egressSteps
    && t == st.egressSteps[fp.node].exit.arrivalTime + fp.time
    && t - q.departureTime <= q.maxTotalTravelTime
  }

  ghost predicate InRange(q: Query, st: ForwardState) {
    forall n, fp | n in st.egressSteps && fp in q.egressFootpaths ::
      0 <= st.egressSteps[n].exit.arrivalTime + fp.time < MAX_INT
  }

  lemma SoundInRange(q: Query, cs: seq<Connection>, k: nat, st: ForwardState)
    requires ValidForward(q, cs) && Sound(q, cs, k, st)
    ensures InRange(q, st)
  {
    forall n, fp | n in st.egressSteps && fp in q.egressFootpaths
      ensures 0 <= st.egressSteps[n].exit.arrivalTime + fp.time < MAX_INT
    {
      assert EgressOk(q, cs, k, st, n);
      assert ValidConnection(q, st.egressSteps[n].exit);
    }
  }

  ghost predicate LeastOffer(q: Query, st: ForwardState, m: nat)
    requires m <= |q.egressFootpaths|
  {
    var best := BestEgress(q, st, m);
    && (forall j: nat, t | j < m && Offers(q, st, q.egressFootpaths[j], t) :: AtMost(best, t))
    && (best.Some? ==> exists j: nat :: j < m && q.egressFootpaths[j].node == best.value.node &&
                                        Offers(q, st, q.egressFootpaths[j], best.value.time))
  }

  ghost predicate AtMost(best: Option<NodeTime>, t: int) {
    best.Some? && best.value.time <= t
  }

  lemma BetterEgressOffers(q: Query, st: ForwardState, best: Option<NodeTime>, fp: NodeTime)
    requires ValidFootpaths(q, q.egressFootpaths) && InRange(q, st) && fp in q.egressFootpaths
    ensures var r := BetterEgress(q, st, best, fp);
            && (r == best || (r.Some? && r.value.node == fp.node && Offers(q, st, fp, r.value.time)))
            && (forall t :: AtMost(best, t) ==> AtMost(r, t))
            && (forall t :: Offers(q, st, fp, t) ==> AtMost(r, t))
  {
    if fp.node in st.egressSteps {
      assert 0 <= st.egressSteps[fp.node].exit.arrivalTime + fp.time < MAX_INT;
    }
  }

  lemma {:induction false} BestEgressIsLeast(q: Query, st: ForwardState, m: nat)
    requires ValidFootpaths(q, q.egressFootpaths) && InRange(q, st) && m <= |q.egressFootpaths|
    ensures LeastOffer(q, st, m)
    decreases m
  {
    if m > 0 {
      BestEgressIsLeast(q, st, m - 1);
      var fp := q.egressFootpaths[m - 1];
      assert NodeTime(fp.node, q.NodesEgress()[fp.node]) in q.egressFootpaths;
      assert fp == NodeTime(fp.node, q.NodesEgress()[fp.node]);
      BetterEgressOffers(q, st, BestEgress(q, st, m - 1), q.egressFootpaths[m - 1]);
    }
  }

  ghost predicate NoneWithinMax(q: Query, cs: seq<Connection>) {
    forall legs, t | Arrives(q, cs, legs, t) :: t - q.departureTime > q.maxTotalTravelTime
  }

  // t is the earliest arrival over all journeys within the maximum total time.
  ghost predicate EarliestArrival(q: Query, cs: seq<Connection>, t: int) {
    && t - q.departureTime <= q.maxTotalTravelTime
    && (exists legs :: Arrives(q, cs, legs, t))
    && (forall legs, u | Arrives(q, cs, legs, u) :: t <= u)
  }

  function ForwardResult(q: Query, r: ForwardState): Option<NodeTime> {
    if r.reachableCount == 0 then None else BestEgress(q, r, |q.egressFootpaths|)
  }

  ghost predicate OfferAtMost(q: Query, st: ForwardState, t: int) {
    exists j: nat, u :: j < |q.egressFootpaths| && Offers(q, st, q.egressFootpaths[j], u) && u <= t
  }

  lemma OfferMade(q: Query, st: ForwardState, fp: NodeTime, t: int)
    requires fp in q.egressFootpaths && fp.node in st.egressSteps
    requires st.egressSteps[fp.node].exit.arrivalTime + fp.time <= t && t - q.departureTime <= q.maxTotalTravelTime
    ensures OfferAtMost(q, st, t)
  {
    var j: nat :| j < |q.egressFootpaths| && q.egressFootpaths[j] == fp;
    assert Offers(q, st, q.egressFootpaths[j], st.egressSteps[fp.node].exit.arrivalTime + fp.time);
  }

  // When the scan broke off at c, no later ride leads anywhere better.
  lemma BeyondBreak(q: Query, st: ForwardState, c: Connection, t: int)
    requires TentativeOk(q, st) && Stops(q, st, c, true)
    requires c.departureTime <= t && t - q.departureTime <= q.maxTotalTravelTime
    ensures OfferAtMost(q, st, t)
  {
    var n :| n in q.NodesEgress() && n in st.egressSteps &&
             st.egressSteps[n].exit.arrivalTime <= st.tentativeEgressArrival;
    OfferMade(q, st, NodeTime(n, q.NodesEgress()[n]), t);
  }

  // A journey the scan can follow is no better than what the labels offer, even
  // when its last ride comes after the break.
  lemma BestBeatsJourney(q: Query, cs: seq<Connection>, k: nat, st: ForwardState, legs: seq<Leg>, t: int)
    requires ValidForward(q, cs)
    requires k <= |cs| && Invariant(q, cs, k, st) && (k < |cs| ==> Stops(q, st, cs[k], true))
    requires ScanArrives(q, cs, legs, t) && t - q.departureTime <= q.maxTotalTravelTime
    ensures OfferAtMost(q, st, t)
  {
    var x := Last(legs).exit;
    RideTime(q, cs, Last(legs).enter, x);
    var w :| NodeTime(x.arrivalNode, w) in q.egressFootpaths && t == x.arrivalTime + w;
    if InPrefix(cs, k, x) {
      ScannableUpTo(q, cs, |cs|, k, legs);
      JourneyFollowed(q, cs, k, st, legs);
      OfferMade(q, st, NodeTime(x.arrivalNode, w), t);
    } else {
      SortedAt(cs, k, x);
      BeyondBreak(q, st, cs[k], t);
    }
  }

  lemma LeastBeatsOffer(q: Query, st: ForwardState, t: int)
    requires LeastOffer(q, st, |q.egressFootpaths|) && CountOk(st) && OfferAtMost(q, st, t)
    ensures AtMost(ForwardResult(q, st), t)
  {
    var j: nat, u :| j < |q.egressFootpaths| && Offers(q, st, q.egressFootpaths[j], u) && u <= t;
    assert AtMost(BestEgress(q, st, |q.egressFootpaths|), u);
  }

  // The offer behind the returned arrival is a journey made of scanned rides, on
  // trips the scan has boarded.
  lemma OfferedJourney(q: Query, cs: seq<Connection>, k: nat, st: ForwardState, fp: NodeTime, t: int)
      returns (legs: seq<Leg>)
    requires ValidForward(q, cs) && k <= |cs| && Sound(q, cs, k, st) && Honest(q, cs, st)
    requires fp in q.egressFootpaths && Offers(q, st, fp, t)
    ensures ScanArrives(q, cs, legs, t) && forall l <- legs :: UsesTrip(q, st, l)
  {
    legs := EgressJourney(q, cs, k, st, fp.node);
    assert NodeTime(Last(legs).exit.arrivalNode, fp.time) in q.egressFootpaths;
  }

  ghost predicate ScanArrives(q: Query, cs: seq<Connection>, legs: seq<Leg>, t: int) {
    Scannable(q, cs, |cs|, legs) && Arrives(q, cs, legs, t)
  }

  ghost predicate NoneScanned(q: Query, cs: seq<Connection>) {
    forall legs, t | ScanArrives(q, cs, legs, t) :: t - q.departureTime > q.maxTotalTravelTime
  }

  ghost predicate EarliestScanArrival(q: Query, cs: seq<Connection>, t: int) {
    && t - q.departureTime <= q.maxTotalTravelTime
    && (exists legs :: ScanArrives(q, cs, legs, t))
    && (forall legs, u | ScanArrives(q, cs, legs, u) :: t <= u)
  }

  // Both breaks on, on every network and for every first-wait limit: the arrival
  // found is the minimum over the journeys within the maximum total time that the
  // scan can follow, and none is found only if there is none.
  lemma SingleFollows(q: Query, cs: seq<Connection>)
    requires ValidForward(q, cs)
    ensures var b := ForwardResult(q, Scan(q, cs, 0, Initial(q), true));
            if b.Some? then EarliestScanArrival(q, cs, b.value.time) else NoneScanned(q, cs)
  {
    InitialInvariant(q, cs);
    var k := ScanInvariant(q, cs, 0, Initial(q), true);
    ScanEndExact(q, cs, k, Scan(q, cs, 0, Initial(q), true));
  }

  lemma ScanEndExact(q: Query, cs: seq<Connection>, k: nat, r: ForwardState)
    requires ValidForward(q, cs)
    requires k <= |cs| && Invariant(q, cs, k, r) && (k < |cs| ==> Stops(q, r, cs[k], true))
    ensures var b := ForwardResult(q, r);
            if b.Some? then EarliestScanArrival(q, cs, b.value.time) else NoneScanned(q, cs)
  {
    var b := ForwardResult(q, r);
    SoundInRange(q, cs, k, r);
    BestEgressIsLeast(q, r, |q.egressFootpaths|);
    forall legs, t | ScanArrives(q, cs, legs, t) && t - q.departureTime <= q.maxTotalTravelTime
      ensures AtMost(b, t)
    {
      BestBeatsJourney(q, cs, k, r, legs, t);
      LeastBeatsOffer(q, r, t);
    }
    if b.Some? {
      var legs := ReturnedJourney(q, cs, k, r);
    }
  }

  lemma ReturnedJourney(q: Query, cs: seq<Connection>, k: nat, r: ForwardState) returns (legs: seq<Leg>)
    requires ValidForward(q, cs) && k <= |cs| && Sound(q, cs, k, r) && Honest(q, cs, r) && ForwardResult(q, r).Some?
    ensures var t := ForwardResult(q, r).value.time;
            && ScanArrives(q, cs, legs, t) && t - q.departureTime <= q.maxTotalTravelTime
            && forall l <- legs :: UsesTrip(q, r, l)
  {
    var b := ForwardResult(q, r).value;
    SoundInRange(q, cs, k, r);
    BestEgressIsLeast(q, r, |q.egressFootpaths|);
    var j: nat :| j < |q.egressFootpaths| && q.egressFootpaths[j].node == b.node
                  && Offers(q, r, q.egressFootpaths[j], b.time);
    legs := OfferedJourney(q, cs, k, r, q.egressFootpaths[j], b.time);
  }

  // Every journey within the maximum is matched by one the scan can follow that
  // is there no later.
  ghost predicate NoneMissed(q: Query, cs: seq<Connection>) {
    forall legs, t | Arrives(q, cs, legs, t) && t - q.departureTime <= q.maxTotalTravelTime :: Matched(q, cs, t)
  }

  ghost predicate Matched(q: Query, cs: seq<Connection>, t: int) {
    exists legs, u :: ScanArrives(q, cs, legs, u) && u <= t
  }

  ghost predicate ArrivalExact(q: Query, cs: seq<Connection>)
    requires forall c <- cs :: Fits(q, c)
  {
    var b := ForwardResult(q, Scan(q, cs, 0, Initial(q), true));
    if b.Some? then EarliestArrival(q, cs, b.value.time) else NoneWithinMax(q, cs)
  }

  // The single scan is exact over all journeys if and only if none is missed.
  lemma SingleExactly(q: Query, cs: seq<Connection>)
    requires ValidForward(q, cs)
    ensures ArrivalExact(q, cs) <==> NoneMissed(q, cs)
  {
    SingleFollows(q, cs);
    var b := ForwardResult(q, Scan(q, cs, 0, Initial(q), true));
    if b.Some? {
      EarliestMissesNone(q, cs, b.value.time);
    } else {
      NoneScannedMissesNone(q, cs);
    }
  }

  lemma EarliestMissesNone(q: Query, cs: seq<Connection>, t: int)
    requires EarliestScanArrival(q, cs, t)
    ensures EarliestArrival(q, cs, t) <==> NoneMissed(q, cs)
  {
    if EarliestArrival(q, cs, t) {
      forall legs, u | Arrives(q, cs, legs, u) && u - q.departureTime <= q.maxTotalTravelTime
        ensures Matched(q, cs, u)
      {
        var found :| ScanArrives(q, cs, found, t);
      }
    }
    if NoneMissed(q, cs) {
      forall legs, u | Arrives(q, cs, legs, u) ensures t <= u {}
    }
  }

  lemma NoneScannedMissesNone(q: Query, cs: seq<Connection>)
    requires NoneScanned(q, cs)
    ensures NoneWithinMax(q, cs) <==> NoneMissed(q, cs)
  {
    if NoneMissed(q, cs) {
      forall legs, t | Arrives(q, cs, legs, t) ensures t - q.departureTime > q.maxTotalTravelTime {}
    }
  }

  // With handoffs in scan order and no first-wait limit no journey is missed.
  lemma OrderedNotMissed(q: Query, cs: seq<Connection>)
    requires ValidForward(q, cs) && Exactable(q, cs)
    ensures NoneMissed(q, cs)
  {
    forall legs, t | Arrives(q, cs, legs, t) && t - q.departureTime <= q.maxTotalTravelTime
      ensures Matched(q, cs, t)
    {
      JourneyScannable(q, cs, legs);
      assert ScanArrives(q, cs, legs, t);
    }
  }

  lemma SingleExact(q: Query, cs: seq<Connection>)
    requires ValidForward(q, cs) && Exactable(q, cs)
    ensures ArrivalExact(q, cs)
  {
    OrderedNotMissed(q, cs);
    SingleExactly(q, cs);
  }

  // Label freezing: once a trip is boarded at a node, no later connection changes
  // that node's label or step.
  lemma {:induction false} ScanFreezes(q: Query, cs: seq<Connection>, i: nat, st: ForwardState, single: bool)
    requires ValidForward(q, cs) && i <= |cs| && Sound(q, cs, i, st)
    ensures Freezes(q, st, Scan(q, cs, i, st, single))
    decreases |cs| - i
  {
    if i == |cs| || Stops(q, st, cs[i], single) {
      SoundFreezes(q, cs, i, st);
    } else {
      assert cs[i] in cs;
      ProcessSound(q, cs, i, st);
      ScanFreezes(q, cs, i + 1, Process(q, st, cs[i]), single);
      FreezesTrans(q, st, Process(q, st, cs[i]), Scan(q, cs, i, st, single));
    }
  }

  lemma FreezesTrans(q: Query, st: ForwardState, st1: ForwardState, r: ForwardState)
    requires Sized(q, st) && Sized(q, st1) && Sized(q, r) && Freezes(q, st, st1) && Freezes(q, st1, r)
    ensures Freezes(q, st, r)
  {
  }
}
