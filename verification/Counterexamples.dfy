// Where the code falls short: concrete data on which the scans miss a feasible
// journey, showing that the hypotheses of the exactness results are needed.
module Counterexamples {
  import opened Network
  import F = ForwardScan
  import FX = ForwardExact
  import R = ReverseScan
  import RX = ReverseExact
  import T = TwoPass
  import L = LatestDeparture

  function SelfTransfers(n: nat): seq<seq<NodeTime>> {
    seq(n, i requires 0 <= i => [NodeTime(i, 0)])
  }

  // ---- A wait-free connection handed over to by an instantaneous one ----------

  // x: node 0 to node 1, with the query's positive wait and this running time; e:
  // node 1 to node 2, as soon as its own minimum wait allows, on the trip sorted
  // first. With both zero, e comes before x in the list.
  datatype Instant = Instant(defaultWait: int, run: int, wait: int)

  ghost predicate SmallInstant(p: Instant) {
    1 <= p.defaultWait < 0x8000 && 0 <= p.run < 0x1000_0000 && 0 <= p.wait < 0x8000
  }

  function InstantQuery(p: Instant): Query {
    Query(3, 2, SelfTransfers(3), SelfTransfers(3), [NodeTime(0, 0)], [NodeTime(2, 0)],
          0, -1, p.defaultWait, MAX_INT, 100, -1, {})
  }

  function InstantX(p: Instant): Connection {
    Connection(0, 1, p.defaultWait, p.defaultWait + p.run, 1, true, true, 1, -1)
  }

  function InstantE(p: Instant): Connection {
    var ready := p.defaultWait + p.run + p.wait;
    Connection(1, 2, ready, ready + 100, 0, true, true, 1, p.wait)
  }

  function InstantList(p: Instant): seq<Connection> {
    if p.run == 0 && p.wait == 0 then [InstantE(p), InstantX(p)] else [InstantX(p), InstantE(p)]
  }

  lemma InstantMembers(p: Instant)
    ensures forall c :: c in InstantList(p) <==> c == InstantX(p) || c == InstantE(p)
  {
    var cs := InstantList(p);
    assert cs[0] in cs && cs[1] in cs;
  }

  // What the proofs below use of the query.
  ghost predicate InstantSetup(p: Instant, q: Query) {
    && SmallInstant(p) && q.nodeCount == 3 && q.tripCount == 2 && |q.transfers| == |q.reverseTransfers| == 3
    && (forall n: nat | n < 3 :: q.transfers[n] == [NodeTime(n, 0)])
    && (forall n: nat | n < 3 :: q.reverseTransfers[n] == [NodeTime(n, 0)])
    && q.accessFootpaths == [NodeTime(0, 0)] && q.egressFootpaths == [NodeTime(2, 0)]
    && q.departureTime == 0 && q.minWaitingTime == p.defaultWait && q.maxTotalTravelTime == MAX_INT
    && q.maxTransferWalkingTime == 100 && q.maxFirstWaitingTime == -1 && q.disabledTrips == {}
  }

  lemma InstantQueryValid(p: Instant, q: Query)
    requires InstantSetup(p, q)
    ensures ValidQuery(q)
  {
    forall a: nat, b: nat, t: int | a < 3 && b < 3
      ensures NodeTime(b, t) in q.transfers[a] <==> NodeTime(a, t) in q.reverseTransfers[b]
    {
      assert q.transfers[a] == [NodeTime(a, 0)] && q.reverseTransfers[b] == [NodeTime(b, 0)];
    }
  }

  lemma InstantWalks(p: Instant, q: Query)
    requires InstantSetup(p, q)
    ensures q.NodesAccess() == map[0 := 0] && q.NodesEgress() == map[2 := 0] && MinTime(q.accessFootpaths) == 0
  {
    OneWalk(NodeTime(0, 0));
    OneWalk(NodeTime(2, 0));
  }

  lemma InstantConnectionValid(p: Instant, q: Query, c: Connection)
    requires InstantSetup(p, q) && (c == InstantX(p) || c == InstantE(p))
    ensures ValidConnection(q, c) && F.Fits(q, c)
  {
    assert q.transfers[c.arrivalNode] == [NodeTime(c.arrivalNode, 0)];
  }

  lemma InstantListValid(p: Instant, q: Query)
    requires InstantSetup(p, q)
    ensures F.ValidForward(q, InstantList(p))
  {
    InstantQueryValid(p, q);
    InstantMembers(p);
    forall c | c in InstantList(p) ensures ValidConnection(q, c) && F.Fits(q, c) {
      InstantConnectionValid(p, q, c);
    }
    InstantSorted(p);
  }

  lemma InstantSorted(p: Instant)
    requires SmallInstant(p)
    ensures F.ForwardSorted(InstantList(p))
  {
  }

  lemma InstantSteps(p: Instant, q: Query)
    requires InstantSetup(p, q)
    ensures EachStepPositive(q, InstantList(p))
    ensures PositiveStep(q, InstantList(p)) <==> p.run > 0 || p.wait > 0
  {
    InstantMembers(p);
    assert InstantX(p) in InstantList(p) && InstantE(p) in InstantList(p);
    assert q.Wait(InstantX(p)) == p.defaultWait && q.Wait(InstantE(p)) == p.wait;
  }

  lemma InstantReachable(p: Instant, q: Query)
    requires InstantSetup(p, q)
    ensures !FX.NoneWithinMax(q, InstantList(p))
  {
    var x, e := InstantX(p), InstantE(p);
    var legs := [Leg(x, x), Leg(e, e)];
    InstantMembers(p);
    assert Handoff(q, x, e) by {
      assert q.transfers[1] == [NodeTime(1, 0)];
      assert Footpath(q, 1, 1, 0);
    }
    assert Departs(q, x) by { assert q.accessFootpaths[0] == NodeTime(0, 0); }
    assert q.egressFootpaths[0] == NodeTime(2, 0);
    assert NodeTime(Last(legs).exit.arrivalNode, 0) in q.egressFootpaths;
    assert Arrives(q, InstantList(p), legs, e.arrivalTime);
  }

  // With both zero: e is not reachable when it is looked at, x only reaches node 1.
  lemma InstantScan(p: Instant, q: Query)
    requires InstantSetup(p, q) && p.run == 0 && p.wait == 0 && forall c <- InstantList(p) :: F.Fits(q, c)
    ensures 2 !in T.ForwardEnd(q, InstantList(p)).egressSteps
  {
    var cs, x, e := InstantList(p), InstantX(p), InstantE(p);
    InstantWalks(p, q);
    var s0 := F.Initial(q);
    assert cs[0] == e && cs[1] == x;
    assert F.Process(q, s0, e) == s0;
    InstantStepX(p, q, s0);
    var s1 := F.Process(q, s0, x);
    assert F.Scan(q, cs, 2, s1, true) == s1;
    assert F.Scan(q, cs, 1, s0, true) == s1;
    assert F.Scan(q, cs, 0, s0, true) == s1;
  }

  lemma InstantStepX(p: Instant, q: Query, s0: F.ForwardState)
    requires InstantSetup(p, q) && F.Sized(q, s0) && F.Fits(q, InstantX(p)) && s0.egressSteps == map[]
    ensures 2 !in F.Process(q, s0, InstantX(p)).egressSteps
  {
    var x := InstantX(p);
    var b := F.NoteEgress(q, F.Boarded(q, s0, x), x);
    assert q.transfers[1] == [NodeTime(1, 0)] && q.transfers[1][1..] == [];
    assert forall enter :: F.Relax(q, b, x, enter, q.transfers[1]) == F.RelaxOne(q, b, x, enter, NodeTime(1, 0));
  }

  lemma NoEgressNoResult(q: Query, r: F.ForwardState, fp: NodeTime)
    requires q.egressFootpaths == [fp] && fp.node !in r.egressSteps
    ensures FX.ForwardResult(q, r).None?
  {
    assert FX.BestEgress(q, r, 0).None?;
    assert q.egressFootpaths[0] == fp;
    assert FX.BestEgress(q, r, 1).None?;
  }

  ghost predicate ForwardFinds(q: Query, cs: seq<Connection>) {
    (forall c <- cs :: F.Fits(q, c)) && FX.ForwardResult(q, T.ForwardEnd(q, cs)).Some?
  }

  // Positive min wait or running time of each connection by itself is not enough:
  // a journey exists for all numbers, but the forward scan returns one only if
  // x takes time or e imposes a wait.
  lemma InstantHandoffIsMissed(p: Instant)
    requires SmallInstant(p)
    ensures F.ValidForward(InstantQuery(p), InstantList(p)) && EachStepPositive(InstantQuery(p), InstantList(p))
    ensures !FX.NoneWithinMax(InstantQuery(p), InstantList(p))
    ensures ForwardFinds(InstantQuery(p), InstantList(p)) <==> p.run > 0 || p.wait > 0
    ensures FX.NoneMissed(InstantQuery(p), InstantList(p)) <==> p.run > 0 || p.wait > 0
  {
    var q := InstantQuery(p);
    assert InstantSetup(p, q);
    InstantListValid(p, q);
    InstantSteps(p, q);
    InstantReachable(p, q);
    InstantOutcome(p, q, InstantList(p));
  }

  lemma InstantOutcome(p: Instant, q: Query, cs: seq<Connection>)
    requires InstantSetup(p, q) && cs == InstantList(p) && F.ValidForward(q, cs) && !FX.NoneWithinMax(q, cs)
    requires p.run > 0 || p.wait > 0 ==> PositiveStep(q, cs)
    ensures ForwardFinds(q, cs) <==> p.run > 0 || p.wait > 0
    ensures FX.NoneMissed(q, cs) <==> p.run > 0 || p.wait > 0
  {
    if p.run > 0 || p.wait > 0 {
      FoundWithPositiveSteps(q, cs);
    } else {
      InstantMissed(p, q, cs);
      NotFoundIsMissed(q, cs);
    }
  }

  lemma NotFoundIsMissed(q: Query, cs: seq<Connection>)
    requires F.ValidForward(q, cs) && !FX.NoneWithinMax(q, cs) && !ForwardFinds(q, cs)
    ensures !FX.NoneMissed(q, cs)
  {
    FX.SingleExactly(q, cs);
  }

  lemma FoundWithPositiveSteps(q: Query, cs: seq<Connection>)
    requires F.ValidForward(q, cs) && PositiveStep(q, cs) && q.maxFirstWaitingTime <= 0 && !FX.NoneWithinMax(q, cs)
    ensures ForwardFinds(q, cs) && FX.NoneMissed(q, cs)
  {
    F.PositiveStepOrdersHandoffs(q, cs);
    FX.OrderedNotMissed(q, cs);
    UnmissedIsFound(q, cs);
  }

  lemma UnmissedIsFound(q: Query, cs: seq<Connection>)
    requires F.ValidForward(q, cs) && !FX.NoneWithinMax(q, cs) && FX.NoneMissed(q, cs)
    ensures ForwardFinds(q, cs)
  {
    FX.SingleFollows(q, cs);
    if FX.ForwardResult(q, T.ForwardEnd(q, cs)).None? { FX.NoneScannedMissesNone(q, cs); }
  }

  lemma InstantMissed(p: Instant, q: Query, cs: seq<Connection>)
    requires InstantSetup(p, q) && cs == InstantList(p) && p.run == 0 && p.wait == 0 && forall c <- cs :: F.Fits(q, c)
    ensures !ForwardFinds(q, cs)
  {
    InstantScan(p, q);
    NoEgressNoResult(q, T.ForwardEnd(q, cs), NodeTime(2, 0));
  }

  // ---- The reverse break can fire before any allowed access -------------------

  // Waits of the two boardings at access nodes, running time of the second one
  // (e), access walks to both and the longest access walk.
  datatype Spread = Spread(waitC: int, waitE: int, run: int, accessC: int, accessE: int, longest: int)

  ghost predicate InRange(p: Spread) {
    && 0 <= p.waitC < 0x8000 && 0 <= p.waitE < 0x8000 && 1 <= p.run < 0x1000_0000
    && 0 <= p.accessC <= p.longest < 0x1000_0000 && 0 <= p.accessE <= p.longest
  }

  // The inequality of T.BreakIsSafe, for these numbers.
  ghost predicate Safe(p: Spread) {
    p.accessC + p.waitC <= p.accessE + p.waitE + p.run + p.longest + 1
  }

  // e leads from access node 0 to node 1; there a trip starts that passes the
  // access node 2 (connection c) on its way to the destination, node 3.
  function SpreadQuery(p: Spread): Query {
    Query(5, 2, SelfTransfers(5), SelfTransfers(5),
          [NodeTime(0, p.accessE), NodeTime(2, p.accessC), NodeTime(4, p.longest)], [NodeTime(3, 0)],
          0, -1, 0, MAX_INT, 100, -1, {})
  }

  function SpreadConnections(p: Spread): (Connection, Connection, Connection) {
    var dep := p.accessE + p.waitE;
    var arr := dep + p.run;
    (Connection(0, 1, dep, arr, 0, true, true, 1, p.waitE),
     Connection(1, 2, arr, arr + 1, 1, true, false, 1, 0),
     Connection(2, 3, arr + p.longest + 1, arr + p.longest + 2, 1, true, true, 2, p.waitC))
  }

  // What the proofs below use of a query of this shape and its connections.
  ghost predicate Setup(p: Spread, q: Query, e: Connection, b: Connection, c: Connection) {
    && InRange(p)
    && q.nodeCount == 5 && q.tripCount == 2 && |q.transfers| == |q.reverseTransfers| == 5
    && (forall n: nat | n < 5 :: q.transfers[n] == [NodeTime(n, 0)])
    && (forall n: nat | n < 5 :: q.reverseTransfers[n] == [NodeTime(n, 0)])
    && q.accessFootpaths == [NodeTime(0, p.accessE), NodeTime(2, p.accessC), NodeTime(4, p.longest)]
    && q.egressFootpaths == [NodeTime(3, 0)]
    && q.departureTime == 0 && q.minWaitingTime == 0 && q.maxTotalTravelTime == MAX_INT
    && q.maxTransferWalkingTime == 100 && q.maxFirstWaitingTime == -1 && q.disabledTrips == {}
    && (e, b, c) == SpreadConnections(p)
  }

  ghost predicate Walks(p: Spread, q: Query) {
    && q.NodesAccess() == map[0 := p.accessE, 2 := p.accessC, 4 := p.longest]
    && q.NodesEgress() == map[3 := 0]
    && MaxTime(q.accessFootpaths) == p.longest && MinTime(q.egressFootpaths) == 0
  }

  lemma ThreeWalks(x: NodeTime, y: NodeTime, z: NodeTime)
    requires x.node != y.node && y.node != z.node && x.node != z.node
    ensures TimeMap([x, y, z]) == map[x.node := x.time, y.node := y.time, z.node := z.time]
  {
    assert [x, y, z][1..] == [y, z];
    TwoWalks(y, z);
  }

  lemma TwoWalks(y: NodeTime, z: NodeTime)
    requires y.node != z.node
    ensures TimeMap([y, z]) == map[y.node := y.time, z.node := z.time]
  {
    assert [y, z][1..] == [z] && [z][1..] == [];
    assert TimeMap([z]) == map[z.node := z.time];
  }

  lemma LongestOfThree(x: NodeTime, y: NodeTime, z: NodeTime)
    requires 0 <= x.time <= z.time && 0 <= y.time <= z.time
    ensures MaxTime([x, y, z]) == z.time
  {
    var l := [x, y, z];
    assert l[2] == z;
    forall fp | fp in l ensures fp.time <= z.time { assert fp == x || fp == y || fp == z; }
  }

  lemma OneWalk(x: NodeTime)
    requires x.time < MAX_INT
    ensures TimeMap([x]) == map[x.node := x.time] && MinTime([x]) == x.time
  {
    assert [x][1..] == [] && [x][0] in [x];
  }

  lemma SetupWalks(p: Spread, q: Query, e: Connection, b: Connection, c: Connection)
    requires Setup(p, q, e, b, c)
    ensures Walks(p, q)
  {
    var x, y, z := NodeTime(0, p.accessE), NodeTime(2, p.accessC), NodeTime(4, p.longest);
    ThreeWalks(x, y, z);
    LongestOfThree(x, y, z);
    OneWalk(NodeTime(3, 0));
  }

  lemma SetupTransfersValid(q: Query)
    requires q.nodeCount == 5 && |q.transfers| == |q.reverseTransfers| == 5
    requires forall n: nat | n < 5 :: q.transfers[n] == [NodeTime(n, 0)]
    requires forall n: nat | n < 5 :: q.reverseTransfers[n] == [NodeTime(n, 0)]
    ensures ValidTransfers(q)
  {
    forall m: nat, n: nat, t: int | m < 5 && n < 5
      ensures NodeTime(n, t) in q.transfers[m] <==> NodeTime(m, t) in q.reverseTransfers[n]
    {
      assert q.transfers[m] == [NodeTime(m, 0)] && q.reverseTransfers[n] == [NodeTime(n, 0)];
    }
  }

  lemma SetupFootpathsValid(q: Query, x: NodeTime, y: NodeTime, z: NodeTime, bound: int)
    requires q.nodeCount == 5 && x.node == 0 && y.node == 2 && z.node == 4
    requires 0 <= x.time < bound && 0 <= y.time < bound && 0 <= z.time < bound <= MAX_INT
    ensures ValidFootpaths(q, [x, y, z]) && forall fp <- [x, y, z] :: fp.time < bound
  {
    var l := [x, y, z];
    forall fp | fp in l ensures fp == x || fp == y || fp == z {}
  }

  lemma SetupQueryValid(p: Spread, q: Query, e: Connection, b: Connection, c: Connection)
    requires Setup(p, q, e, b, c)
    ensures ValidQuery(q)
  {
    SetupTransfersValid(q);
    SetupFootpathsValid(q, NodeTime(0, p.accessE), NodeTime(2, p.accessC), NodeTime(4, p.longest), 0x1000_0000);
    assert ValidFootpaths(q, q.egressFootpaths) by {
      forall fp | fp in q.egressFootpaths ensures fp == NodeTime(3, 0) {}
    }
  }

  lemma SetupConnectionValid(p: Spread, q: Query, e: Connection, b: Connection, c: Connection, x: Connection)
    requires Setup(p, q, e, b, c) && (x == e || x == b || x == c)
    ensures ValidConnection(q, x) && F.Fits(q, x) && R.Fits(q, x) && x.departureTime < x.arrivalTime
  {
    assert q.transfers[x.arrivalNode] == [NodeTime(x.arrivalNode, 0)];
    assert q.reverseTransfers[x.departureNode] == [NodeTime(x.departureNode, 0)];
  }

  lemma ThreeSorted(e: Connection, b: Connection, c: Connection)
    requires e.departureTime <= b.departureTime <= c.departureTime
    requires e.arrivalTime <= b.arrivalTime <= c.arrivalTime
    requires e.trip != b.trip && b.trip == c.trip && b.sequenceInTrip < c.sequenceInTrip
    ensures F.ForwardSorted([e, b, c]) && R.ReverseSorted([c, b, e]) && SameConnections([e, b, c], [c, b, e])
  {
    var cs, rcs := [e, b, c], [c, b, e];
    forall x ensures x in cs <==> x in rcs {
      assert x in cs <==> x == e || x == b || x == c;
      assert x in rcs <==> x == e || x == b || x == c;
    }
  }

  lemma SetupValid(p: Spread, q: Query, e: Connection, b: Connection, c: Connection)
    requires Setup(p, q, e, b, c)
    ensures T.ValidTwoPass(q, [e, b, c], [c, b, e])
    ensures PositiveStep(q, [e, b, c])
  {
    SetupQueryValid(p, q, e, b, c);
    ThreeSorted(e, b, c);
    forall x | x == e || x == b || x == c
      ensures ValidConnection(q, x) && F.Fits(q, x) && R.Fits(q, x) && x.departureTime < x.arrivalTime
    {
      SetupConnectionValid(p, q, e, b, c, x);
    }
    ThreeValid(q, e, b, c);
  }

  lemma ThreeValid(q: Query, e: Connection, b: Connection, c: Connection)
    requires forall x | x == e || x == b || x == c ::
               ValidConnection(q, x) && F.Fits(q, x) && R.Fits(q, x) && x.departureTime < x.arrivalTime
    ensures ValidConnections(q, [e, b, c]) && ValidConnections(q, [c, b, e])
    ensures (forall x <- [e, b, c] :: F.Fits(q, x)) && (forall x <- [c, b, e] :: R.Fits(q, x))
    ensures PositiveStep(q, [e, b, c])
  {
    forall x | x in [e, b, c] ensures x == e || x == b || x == c {}
    forall x | x in [c, b, e] ensures x == e || x == b || x == c {}
  }

  lemma SetupJourney(p: Spread, q: Query, e: Connection, b: Connection, c: Connection)
    requires Setup(p, q, e, b, c)
    ensures Arrives(q, [e, b, c], [Leg(e, e), Leg(b, c)], c.arrivalTime)
  {
    var cs, legs := [e, b, c], [Leg(e, e), Leg(b, c)];
    assert cs[0] == e && cs[1] == b && cs[2] == c;
    assert Handoff(q, e, b) by {
      assert q.transfers[1] == [NodeTime(1, 0)];
      assert Footpath(q, 1, 1, 0);
    }
    assert Departs(q, e) by { assert q.accessFootpaths[0] == NodeTime(0, p.accessE); }
    assert q.egressFootpaths[0] == NodeTime(3, 0);
    assert NodeTime(Last(legs).exit.arrivalNode, 0) in q.egressFootpaths;
  }

  lemma SetupArrival(p: Spread, q: Query, e: Connection, b: Connection, c: Connection, legs: seq<Leg>, t: int)
    requires Setup(p, q, e, b, c) && Arrives(q, [e, b, c], legs, t)
    ensures t == c.arrivalTime && Last(legs).enter.trip == 1
  {
    var cs, l := [e, b, c], Last(legs);
    assert IsRide(q, cs, l.enter, l.exit);
    var w :| NodeTime(l.exit.arrivalNode, w) in q.egressFootpaths && t == l.exit.arrivalTime + w;
    assert NodeTime(l.exit.arrivalNode, w) == NodeTime(3, 0);
    assert l.exit == e || l.exit == b || l.exit == c;
  }

  // Only c arrives at the destination, so that is the forward result.
  lemma SetupForward(p: Spread, q: Query, e: Connection, b: Connection, c: Connection, cs: seq<Connection>)
    requires Setup(p, q, e, b, c) && cs == [e, b, c] && F.ValidForward(q, cs) && PositiveStep(q, cs)
    ensures FX.ForwardResult(q, T.ForwardEnd(q, cs)).Some?
    ensures FX.ForwardResult(q, T.ForwardEnd(q, cs)).value.time == c.arrivalTime
    ensures R.NoExits(T.ForwardEnd(q, cs).overlay) && T.ForwardEnd(q, cs).overlay[1].usable
  {
    F.PositiveStepOrdersHandoffs(q, cs);
    FX.SingleExact(q, cs);
    SetupFound(p, q, e, b, c, FX.ForwardResult(q, T.ForwardEnd(q, cs)));
    var legs := T.ForwardJourney(q, cs);
    SetupArrival(p, q, e, b, c, legs, FX.ForwardResult(q, T.ForwardEnd(q, cs)).value.time);
    assert Last(legs) in legs;
  }

  lemma SetupFound(p: Spread, q: Query, e: Connection, b: Connection, c: Connection, r: Option<NodeTime>)
    requires Setup(p, q, e, b, c) && (r.None? ==> FX.NoneWithinMax(q, [e, b, c]))
    ensures r.Some?
  {
    SetupJourney(p, q, e, b, c);
  }

  // The reverse query: same shape, looking back from c's arrival.
  ghost predicate ReverseSetup(p: Spread, q: Query, e: Connection, b: Connection, c: Connection) {
    && Setup(p, q, e, b, c) && q.arrivalTime == c.arrivalTime
    && R.Fits(q, e) && R.Fits(q, b) && R.Fits(q, c)
  }

  ghost predicate Noted(q: Query, st: R.ReverseState, c: Connection) {
    && R.Sized(q, st) && st.accessSteps == map[]
    && st.reachedAccess && st.tentativeAccessDeparture == c.departureTime
  }

  lemma OneFootpath(q: Query, st: R.ReverseState, c: Connection, x: Connection, n: nat)
    requires R.Sized(q, st) && n < q.nodeCount && n < |q.reverseTransfers| && q.reverseTransfers[n] == [NodeTime(n, 0)]
    ensures R.Relax(q, st, c, x, q.reverseTransfers[n]) == R.RelaxOne(q, st, c, x, NodeTime(n, 0))
  {
    assert q.reverseTransfers[n][1..] == [];
  }

  // c is at an access node, but departs too early to be caught from there.
  lemma CNotAllowed(p: Spread, q: Query, e: Connection, b: Connection, c: Connection)
    requires Setup(p, q, e, b, c) && !Safe(p)
    ensures c.departureNode in q.NodesAccess() && q.NodesAccess()[c.departureNode] != -1
    ensures !R.AccessAllowed(q, c)
  {
    SetupWalks(p, q, e, b, c);
  }

  lemma RelaxNotAllowed(q: Query, st: R.ReverseState, c: Connection, x: Connection, n: nat)
    requires R.Sized(q, st) && n < q.nodeCount && n < |q.reverseTransfers| && q.reverseTransfers[n] == [NodeTime(n, 0)]
    requires !R.AccessAllowed(q, c)
    ensures var r := R.Relax(q, st, c, x, q.reverseTransfers[n]);
            && r.accessSteps == st.accessSteps && r.reachedAccess == st.reachedAccess
            && r.tentativeAccessDeparture == st.tentativeAccessDeparture
  {
    OneFootpath(q, st, c, x, n);
  }

  lemma SetupStepC(p: Spread, q: Query, e: Connection, b: Connection, c: Connection, s0: R.ReverseState)
    requires ReverseSetup(p, q, e, b, c) && !Safe(p) && R.Sized(q, s0) && s0.overlay[1].usable
        && s0.overlay[1].exit.None?
    requires s0.time[3] == c.arrivalTime && !s0.reachedAccess && s0.accessSteps == map[]
    ensures !R.Stops(q, s0, c, true)
    ensures Noted(q, R.Process(q, s0, c, true), c)
  {
    CNotAllowed(p, q, e, b, c);
    SetupWalks(p, q, e, b, c);
    assert R.Scanned(q, s0, c, true) && R.Reachable(q, s0, c);
    NotedC(q, s0, c);
  }

  lemma NotedC(q: Query, s0: R.ReverseState, c: Connection)
    requires R.Sized(q, s0) && R.Fits(q, c) && q.reverseTransfers[c.departureNode] == [NodeTime(c.departureNode, 0)]
    requires R.Scanned(q, s0, c, true) && R.Reachable(q, s0, c) && c.canBoard && c.canUnboard
    requires s0.overlay[c.trip].exit.None? && !s0.reachedAccess && s0.accessSteps == map[]
    requires c.departureNode in q.NodesAccess() && q.NodesAccess()[c.departureNode] != -1 && !R.AccessAllowed(q, c)
    ensures Noted(q, R.Process(q, s0, c, true), c)
  {
    var st := R.NoteAccess(q, R.ExitChosen(q, s0, c), c);
    RelaxNotAllowed(q, st, c, c, c.departureNode);
  }

  lemma SetupStepB(p: Spread, q: Query, e: Connection, b: Connection, c: Connection, s1: R.ReverseState)
    requires ReverseSetup(p, q, e, b, c) && Noted(q, s1, c)
    ensures !R.Stops(q, s1, b, true)
    ensures Noted(q, R.Process(q, s1, b, true), c)
  {
    SetupWalks(p, q, e, b, c);
    assert !R.AccessAllowed(q, b);
    if s1.overlay[1].exit.Some? {
      OneFootpath(q, s1, b, s1.overlay[1].exit.value, 1);
    }
  }

  lemma SetupStepE(p: Spread, q: Query, e: Connection, b: Connection, c: Connection, s2: R.ReverseState)
    requires ReverseSetup(p, q, e, b, c) && Noted(q, s2, c)
    ensures R.Stops(q, s2, e, true) || R.Process(q, s2, e, true) == s2
  {
    SetupWalks(p, q, e, b, c);
  }

  lemma SetupReverse(p: Spread, q: Query, e: Connection, b: Connection, c: Connection, overlay: seq<TripQueryData>)
    requires ReverseSetup(p, q, e, b, c) && !Safe(p) && |overlay| == 2 && overlay[1].usable && overlay[1].exit.None?
    requires forall x <- [c, b, e] :: R.Fits(q, x)
    ensures T.ReverseResult(q, T.ReverseEnd(q, [c, b, e], overlay)).None?
  {
    var rcs := [c, b, e];
    var s0 := R.Initial(q, overlay);
    SetupWalks(p, q, e, b, c);
    SetupStepC(p, q, e, b, c, s0);
    var s1 := R.Process(q, s0, c, true);
    SetupStepB(p, q, e, b, c, s1);
    var s2 := R.Process(q, s1, b, true);
    SetupStepE(p, q, e, b, c, s2);
    assert R.Scan(q, rcs, 3, s2, true) == s2;
    assert R.Scan(q, rcs, 2, s2, true) == s2;
    assert R.Scan(q, rcs, 1, s1, true) == s2;
    assert R.Scan(q, rcs, 0, s0, true) == s2;
    NoAccessNoResult(q, s2, |q.accessFootpaths|);
  }

  lemma {:induction false} NoAccessNoResult(q: Query, r: R.ReverseState, m: nat)
    requires r.accessSteps == map[] && m <= |q.accessFootpaths|
    ensures T.BestAccess(q, r, m).None?
    decreases m
  {
    if m > 0 { NoAccessNoResult(q, r, m - 1); }
  }

  // The first pass finds an arrival, the second no access node, although nothing
  // else than the named guard stands in the way.
  ghost predicate SecondPassFails(q: Query, cs: seq<Connection>, rcs: seq<Connection>) {
    && T.ValidTwoPass(q, cs, rcs) && F.HandoffOrdered(q, cs) && R.HandoffOrdered(q, rcs)
    && q.maxFirstWaitingTime <= 0
    && var f := T.ForwardEnd(q, cs);
    && FX.ForwardResult(q, f).Some?
    && var q2 := T.ReverseQuery(q, FX.ForwardResult(q, f).value.time);
    && (forall x <- rcs :: R.Fits(q2, x))
    && T.ReverseResult(q2, T.ReverseEnd(q2, rcs, f.overlay)).None?
  }

  // T.BreakIsSafe cannot be weakened: for all numbers that violate it there is a
  // query, its handoffs scanned in order and without a first-wait limit, whose
  // forward scan finds an arrival and whose reverse scan finds no access node.
  lemma BreakBoundIsTight(p: Spread)
    requires InRange(p) && !Safe(p)
    ensures var (e, b, c) := SpreadConnections(p);
            SecondPassFails(SpreadQuery(p), [e, b, c], [c, b, e])
  {
    var q := SpreadQuery(p);
    var (e, b, c) := SpreadConnections(p);
    assert Setup(p, q, e, b, c);
    SetupFails(p, q, e, b, c);
  }

  lemma SetupOrdered(p: Spread, q: Query, e: Connection, b: Connection, c: Connection)
    requires Setup(p, q, e, b, c)
    ensures T.ValidTwoPass(q, [e, b, c], [c, b, e]) && PositiveStep(q, [e, b, c])
    ensures F.HandoffOrdered(q, [e, b, c]) && R.HandoffOrdered(q, [c, b, e])
    ensures T.FirstWaitsFit(q, [e, b, c])
  {
    SetupValid(p, q, e, b, c);
    F.PositiveStepOrdersHandoffs(q, [e, b, c]);
    assert EachStepPositive(q, [c, b, e]) by {
      forall x | x in [c, b, e] ensures x in [e, b, c] {}
    }
    R.StepPositiveOrdersHandoffs(q, [c, b, e]);
    T.NoLimitFits(q, [e, b, c]);
  }

  lemma SetupFails(p: Spread, q: Query, e: Connection, b: Connection, c: Connection)
    requires Setup(p, q, e, b, c) && !Safe(p)
    ensures SecondPassFails(q, [e, b, c], [c, b, e])
  {
    var cs, rcs := [e, b, c], [c, b, e];
    SetupOrdered(p, q, e, b, c);
    SetupForward(p, q, e, b, c, cs);
    var q2 := T.ReverseQuery(q, c.arrivalTime);
    T.ReverseValid(q, rcs, c.arrivalTime);
    assert rcs[0] in rcs && rcs[1] in rcs && rcs[2] in rcs;
    SetupReverse(p, q2, e, b, c, T.ForwardEnd(q, cs).overlay);
  }

  // The guard is the inequality: e can be caught and lies beyond the break of c,
  // and c can be caught if and only if the inequality holds.
  lemma SetupGuard(p: Spread, q: Query, e: Connection, b: Connection, c: Connection)
    requires Setup(p, q, e, b, c)
    ensures T.BreakIsSafe(q, [e, b, c]) <==> Safe(p)
  {
    SetupWalks(p, q, e, b, c);
    var cs := [e, b, c];
    forall x ensures T.Boarding(q, cs, x) <==> x == e || x == c {
      assert x in cs <==> x == e || x == b || x == c;
    }
    assert T.CanCatch(q, e) && e.arrivalTime < c.departureTime - p.longest;
    assert T.CanCatch(q, c) <==> Safe(p);
  }

  // On this network the second pass fails exactly when the guard is violated.
  lemma BreakBoundIsExact(p: Spread)
    requires InRange(p)
    ensures var (e, b, c) := SpreadConnections(p);
            var q, cs, rcs := SpreadQuery(p), [e, b, c], [c, b, e];
            && (SecondPassFails(q, cs, rcs) <==> !Safe(p))
            && (T.BreakIsSafe(q, cs) <==> Safe(p))
  {
    var q := SpreadQuery(p);
    var (e, b, c) := SpreadConnections(p);
    assert Setup(p, q, e, b, c);
    SetupGuard(p, q, e, b, c);
    if Safe(p) {
      SetupSucceeds(p, q, e, b, c);
    } else {
      SetupFails(p, q, e, b, c);
    }
  }

  lemma SetupSucceeds(p: Spread, q: Query, e: Connection, b: Connection, c: Connection)
    requires Setup(p, q, e, b, c) && Safe(p)
    ensures !SecondPassFails(q, [e, b, c], [c, b, e])
  {
    var cs, rcs := [e, b, c], [c, b, e];
    SetupOrdered(p, q, e, b, c);
    SetupGuard(p, q, e, b, c);
    SetupForward(p, q, e, b, c, cs);
    var legs := T.TwoPassFinds(q, cs, rcs);
  }

  // ---- A first-wait limit of zero ------------------------------------------------

  // One direct connection, slack seconds after it can first be caught. The forward
  // scan reads a limit of zero as no limit, the reverse scan as a limit.
  datatype ZeroLimit = ZeroLimit(walk: int, wait: int, slack: int)

  ghost predicate SmallZeroLimit(p: ZeroLimit) {
    0 <= p.walk < 0x1000_0000 && 0 <= p.wait < 0x8000 && 0 <= p.slack < 0x1000_0000
  }

  function ZeroLimitQuery(p: ZeroLimit): Query {
    Query(2, 1, SelfTransfers(2), SelfTransfers(2), [NodeTime(0, p.walk)], [NodeTime(1, 0)],
          0, -1, 0, MAX_INT, 100, 0, {})
  }

  function Direct(p: ZeroLimit): Connection {
    var departure := p.walk + p.wait + p.slack;
    Connection(0, 1, departure, departure + 1, 0, true, true, 1, p.wait)
  }

  ghost predicate ZeroLimitSetup(p: ZeroLimit, q: Query) {
    && SmallZeroLimit(p) && q.nodeCount == 2 && q.tripCount == 1 && |q.transfers| == |q.reverseTransfers| == 2
    && (forall n: nat | n < 2 :: q.transfers[n] == [NodeTime(n, 0)])
    && (forall n: nat | n < 2 :: q.reverseTransfers[n] == [NodeTime(n, 0)])
    && q.accessFootpaths == [NodeTime(0, p.walk)] && q.egressFootpaths == [NodeTime(1, 0)]
    && q.departureTime == 0 && q.minWaitingTime == 0 && q.maxTotalTravelTime == MAX_INT
    && q.maxTransferWalkingTime == 100 && q.maxFirstWaitingTime == 0 && q.disabledTrips == {}
  }

  lemma ZeroLimitWalks(p: ZeroLimit, q: Query)
    requires ZeroLimitSetup(p, q)
    ensures q.NodesAccess() == map[0 := p.walk] && q.NodesEgress() == map[1 := 0]
    ensures MinTime(q.egressFootpaths) == 0
  {
    OneWalk(NodeTime(0, p.walk));
    OneWalk(NodeTime(1, 0));
  }

  lemma ZeroLimitQueryValid(p: ZeroLimit, q: Query)
    requires ZeroLimitSetup(p, q)
    ensures ValidQuery(q)
  {
    forall a: nat, b: nat, t: int | a < 2 && b < 2
      ensures NodeTime(b, t) in q.transfers[a] <==> NodeTime(a, t) in q.reverseTransfers[b]
    {
      assert q.transfers[a] == [NodeTime(a, 0)] && q.reverseTransfers[b] == [NodeTime(b, 0)];
    }
  }

  lemma DirectValid(p: ZeroLimit, q: Query, c: Connection)
    requires ZeroLimitSetup(p, q) && c == Direct(p)
    ensures T.ValidTwoPass(q, [c], [c])
    ensures F.HandoffOrdered(q, [c]) && R.HandoffOrdered(q, [c])
  {
    ZeroLimitQueryValid(p, q);
    assert q.transfers[1] == [NodeTime(1, 0)] && q.reverseTransfers[0] == [NodeTime(0, 0)];
    assert ValidConnection(q, c);
    F.PositiveStepOrdersHandoffs(q, [c]);
    R.StepPositiveOrdersHandoffs(q, [c]);
  }

  // The guard: zero is below the wait, or there is nothing to wait for.
  lemma ZeroLimitGuard(p: ZeroLimit, q: Query, c: Connection)
    requires ZeroLimitSetup(p, q) && c == Direct(p)
    ensures T.FirstWaitsFit(q, [c]) <==> p.wait > 0 || p.slack == 0
    ensures T.BreakIsSafe(q, [c])
  {
    ZeroLimitWalks(p, q);
    forall x ensures T.Boarding(q, [c], x) <==> x == c {
      assert x in [c] <==> x == c;
    }
    assert T.CanCatch(q, c);
    assert T.FirstWaitFits(q, c) <==> p.wait > 0 || p.slack == 0;
  }

  lemma DirectReachable(p: ZeroLimit, q: Query, c: Connection)
    requires ZeroLimitSetup(p, q) && c == Direct(p)
    ensures Arrives(q, [c], [Leg(c, c)], c.arrivalTime)
  {
    assert [c][0] == c;
    assert Departs(q, c) by { assert q.accessFootpaths[0] == NodeTime(0, p.walk); }
    assert q.egressFootpaths[0] == NodeTime(1, 0);
    var legs := [Leg(c, c)];
    assert NodeTime(Last(legs).exit.arrivalNode, 0) in q.egressFootpaths;
  }

  lemma DirectForward(p: ZeroLimit, q: Query, c: Connection)
    requires ZeroLimitSetup(p, q) && c == Direct(p) && F.ValidForward(q, [c]) && F.HandoffOrdered(q, [c])
    ensures FX.ForwardResult(q, T.ForwardEnd(q, [c])).Some?
  {
    FX.SingleExact(q, [c]);
    DirectReachable(p, q, c);
  }

  // The only boarding is refused, whatever the trips' scratch data.
  lemma DirectRefused(p: ZeroLimit, q: Query, c: Connection, overlay: seq<TripQueryData>)
    requires ZeroLimitSetup(p, q.(arrivalTime := -1)) && c == Direct(p) && p.wait == 0 && p.slack > 0
    requires |overlay| == 1 && forall x <- [c] :: R.Fits(q, x)
    ensures T.ReverseResult(q, T.ReverseEnd(q, [c], overlay)).None?
  {
    assert q.NodesAccess() == q.(arrivalTime := -1).NodesAccess();
    ZeroLimitWalks(p, q.(arrivalTime := -1));
    assert !R.AccessAllowed(q, c);
    var s0 := R.Initial(q, overlay);
    var s1 := R.Process(q, s0, c, true);
    RefusedKeepsAccess(q, s0, c);
    assert R.Scan(q, [c], 1, s1, true) == s1;
    R.ScanUnfold(q, [c], 0, s0, true);
    NoAccessNoResult(q, s0, |q.accessFootpaths|);
    NoAccessNoResult(q, s1, |q.accessFootpaths|);
  }

  lemma RefusedKeepsAccess(q: Query, st: R.ReverseState, c: Connection)
    requires R.Sized(q, st) && R.Fits(q, c) && q.reverseTransfers[c.departureNode] == [NodeTime(c.departureNode, 0)]
    requires !R.AccessAllowed(q, c)
    ensures R.Process(q, st, c, true).accessSteps == st.accessSteps
  {
    if R.Scanned(q, st, c, true) && R.Reachable(q, st, c) {
      var st1 := R.ExitChosen(q, st, c);
      if c.canBoard && st1.overlay[c.trip].exit.Some? {
        RelaxNotAllowed(q, R.NoteAccess(q, st1, c), c, st1.overlay[c.trip].exit.value, c.departureNode);
      }
    }
  }

  // With a limit of zero the second pass refuses what the first one found if and
  // only if the connection imposes no wait and leaves later than it can be caught.
  lemma ZeroLimitIsRead(p: ZeroLimit)
    requires SmallZeroLimit(p)
    ensures var q, cs := ZeroLimitQuery(p), [Direct(p)];
            && (SecondPassFails(q, cs, cs) <==> p.wait == 0 && p.slack > 0)
            && (T.FirstWaitsFit(q, cs) <==> p.wait > 0 || p.slack == 0)
            && T.BreakIsSafe(q, cs)
  {
    var q := ZeroLimitQuery(p);
    assert ZeroLimitSetup(p, q);
    ZeroLimitOutcome(p, q, Direct(p));
  }

  lemma ZeroLimitOutcome(p: ZeroLimit, q: Query, c: Connection)
    requires ZeroLimitSetup(p, q) && c == Direct(p) && q.arrivalTime == -1
    ensures SecondPassFails(q, [c], [c]) <==> p.wait == 0 && p.slack > 0
    ensures T.FirstWaitsFit(q, [c]) <==> p.wait > 0 || p.slack == 0
    ensures T.BreakIsSafe(q, [c])
  {
    DirectValid(p, q, c);
    ZeroLimitGuard(p, q, c);
    DirectForward(p, q, c);
    if p.wait == 0 && p.slack > 0 {
      var f := T.ForwardEnd(q, [c]);
      var t := FX.ForwardResult(q, f).value.time;
      T.ReverseValid(q, [c], t);
      DirectRefused(p, T.ReverseQuery(q, t), c, f.overlay);
    } else {
      var legs := T.TwoPassFinds(q, [c], [c]);
    }
  }

  // ---- A faster connection that departs later --------------------------------------

  // Two direct connections from the access node 0 to the egress node 1: one that
  // leaves at first and arrives on time, one that leaves gain later and is there
  // a second before. The reverse scan meets the slow one first.
  datatype Overtaking = Overtaking(wait: int, first: int, gain: int, arrival: int)

  ghost predicate PossibleOvertaking(p: Overtaking) {
    1 <= p.wait < 0x8000 && p.wait <= p.first && 1 <= p.gain && p.first + p.gain < p.arrival < 0x1000_0000
  }

  function OvertakingQuery(p: Overtaking): Query {
    Query(2, 2, SelfTransfers(2), SelfTransfers(2), [NodeTime(0, 0)], [NodeTime(1, 0)],
          -1, p.arrival, p.wait, MAX_INT, 100, -1, {})
  }

  function Slow(p: Overtaking): Connection {
    Connection(0, 1, p.first, p.arrival, 0, true, true, 1, -1)
  }

  function Fast(p: Overtaking): Connection {
    Connection(0, 1, p.first + p.gain, p.arrival - 1, 1, true, true, 1, -1)
  }

  function OvertakingOverlay(): seq<TripQueryData> {
    [FRESH_TRIP.(usable := true), FRESH_TRIP.(usable := true)]
  }

  ghost predicate OvertakingSetup(p: Overtaking, q: Query) {
    && PossibleOvertaking(p) && q.nodeCount == 2 && q.tripCount == 2 && |q.transfers| == |q.reverseTransfers| == 2
    && (forall n: nat | n < 2 :: q.transfers[n] == [NodeTime(n, 0)])
    && (forall n: nat | n < 2 :: q.reverseTransfers[n] == [NodeTime(n, 0)])
    && q.accessFootpaths == [NodeTime(0, 0)] && q.egressFootpaths == [NodeTime(1, 0)]
    && q.departureTime == -1 && q.arrivalTime == p.arrival && q.minWaitingTime == p.wait
        && q.maxTotalTravelTime == MAX_INT
    && q.maxTransferWalkingTime == 100 && q.maxFirstWaitingTime == -1 && q.disabledTrips == {}
  }

  lemma OvertakingWalks(p: Overtaking, q: Query)
    requires OvertakingSetup(p, q)
    ensures q.NodesAccess() == map[0 := 0] && q.NodesEgress() == map[1 := 0]
    ensures MinTime(q.egressFootpaths) == 0 && MaxTime(q.accessFootpaths) == 0
  {
    OneWalk(NodeTime(0, 0));
    OneWalk(NodeTime(1, 0));
    LongestOfOne(NodeTime(0, 0));
  }

  lemma LongestOfOne(x: NodeTime)
    requires 0 <= x.time
    ensures MaxTime([x]) == x.time
  {
    assert [x][0] in [x];
  }

  lemma OvertakingQueryValid(p: Overtaking, q: Query)
    requires OvertakingSetup(p, q)
    ensures ValidQuery(q)
  {
    forall a: nat, b: nat, t: int | a < 2 && b < 2
      ensures NodeTime(b, t) in q.transfers[a] <==> NodeTime(a, t) in q.reverseTransfers[b]
    {
      assert q.transfers[a] == [NodeTime(a, 0)] && q.reverseTransfers[b] == [NodeTime(b, 0)];
    }
  }

  lemma OvertakingConnectionValid(p: Overtaking, q: Query, c: Connection)
    requires OvertakingSetup(p, q) && (c == Slow(p) || c == Fast(p))
    ensures ValidConnection(q, c) && R.Fits(q, c)
  {
    assert q.transfers[1] == [NodeTime(1, 0)] && q.reverseTransfers[0] == [NodeTime(0, 0)];
  }

  lemma OvertakingValid(p: Overtaking, q: Query)
    requires OvertakingSetup(p, q)
    ensures R.ValidReverse(q, [Slow(p), Fast(p)]) && EachStepPositive(q, [Slow(p), Fast(p)])
    ensures L.SlackAtMost(q, [Slow(p), Fast(p)], p.wait)
  {
    var rcs := [Slow(p), Fast(p)];
    OvertakingQueryValid(p, q);
    forall c | c in rcs ensures (c == Slow(p) || c == Fast(p)) && ValidConnection(q, c) && R.Fits(q, c) {
      assert c == Slow(p) || c == Fast(p);
      OvertakingConnectionValid(p, q, c);
    }
  }

  // One boarding at node 0 on a trip of its own, with no requested departure.
  lemma BoardingStep(q: Query, st: R.ReverseState, c: Connection)
    requires R.Sized(q, st) && R.Fits(q, c) && q.reverseTransfers[c.departureNode] == [NodeTime(c.departureNode, 0)]
    requires R.Scanned(q, st, c, true) && R.Reachable(q, st, c) && c.canBoard && c.canUnboard
    requires st.overlay[c.trip].exit.None? && q.departureTime == -1 && 0 <= q.maxTransferWalkingTime
    requires c.departureNode != c.arrivalNode
    ensures var r := R.Process(q, st, c, true); var n := c.departureNode;
            && r.reachableCount == st.reachableCount + 1
            && r.accessSteps == (if n !in st.accessSteps
                                 || st.accessSteps[n].enter.departureTime <= c.departureTime - q.Wait(c)
                                 then st.accessSteps[n := Ride(c, c, 0)] else st.accessSteps)
            && r.time[c.arrivalNode] == st.time[c.arrivalNode]
            && (forall t: nat | t < q.tripCount && t != c.trip :: r.overlay[t] == st.overlay[t])
            && r.tentativeAccessDeparture == R.NoteAccess(q, st, c).tentativeAccessDeparture
  {
    var st1 := R.NoteAccess(q, R.ExitChosen(q, st, c), c);
    OneFootpath(q, st1, c, c, c.departureNode);
  }

  lemma OvertakingScan(p: Overtaking, q: Query)
    requires OvertakingSetup(p, q) && forall c <- [Slow(p), Fast(p)] :: R.Fits(q, c)
    ensures var r := T.ReverseEnd(q, [Slow(p), Fast(p)], OvertakingOverlay());
            && r.reachableCount == 2
            && r.accessSteps == map[0 := if p.gain < p.wait then Ride(Slow(p), Slow(p), 0)
                                    else Ride(Fast(p), Fast(p), 0)]
  {
    var rcs, slow, fast := [Slow(p), Fast(p)], Slow(p), Fast(p);
    OvertakingWalks(p, q);
    assert rcs[0] == slow && rcs[1] == fast && slow in rcs && fast in rcs;
    assert q.reverseTransfers[0] == [NodeTime(0, 0)];
    var s0 := R.Initial(q, OvertakingOverlay());
    assert s0.time[1] == p.arrival;
    BoardingStep(q, s0, slow);
    var s1 := R.Process(q, s0, slow, true);
    assert s1.tentativeAccessDeparture <= p.first;
    BoardingStep(q, s1, fast);
    var s2 := R.Process(q, s1, fast, true);
    assert R.Scan(q, rcs, 2, s2, true) == s2;
    R.ScanUnfold(q, rcs, 1, s1, true);
    R.ScanUnfold(q, rcs, 0, s0, true);
  }

  lemma OvertakingResult(p: Overtaking, q: Query, r: R.ReverseState)
    requires OvertakingSetup(p, q) && r.reachableCount == 2
    requires r.accessSteps == map[0 := if p.gain < p.wait then Ride(Slow(p), Slow(p), 0) else Ride(Fast(p), Fast(p), 0)]
    ensures T.ReverseResult(q, r) ==
        Some(NodeTime(0, if p.gain < p.wait then p.first - p.wait else p.first + p.gain - p.wait))
  {
    OvertakingWalks(p, q);
    assert q.accessFootpaths[0] == NodeTime(0, 0);
    assert T.BestAccess(q, r, 0) == None;
    assert T.BestAccess(q, r, 1) == T.BetterAccess(q, r, None, NodeTime(0, 0));
  }

  lemma FastChain(p: Overtaking, q: Query)
    requires OvertakingSetup(p, q)
    ensures L.StartsChain(q, [Slow(p), Fast(p)], OvertakingOverlay(), [Leg(Fast(p), Fast(p))],
                          p.first + p.gain - p.wait)
  {
    OvertakingWalks(p, q);
    var rcs, x, legs := [Slow(p), Fast(p)], Fast(p), [Leg(Fast(p), Fast(p))];
    assert rcs[1] == x && x in rcs;
    assert RX.Finishes(q, x) by {
      assert q.egressFootpaths[0] == NodeTime(1, 0);
      assert NodeTime(x.arrivalNode, 0) in q.egressFootpaths;
    }
    assert forall k: nat | k < |legs| :: IsRide(q, rcs, legs[k].enter, legs[k].exit);
  }

  // The slack of L.DepartsWithinSlack is real: the faster connection, which
  // allows a start gain later, is preferred if and only if gain is at least a
  // minimum wait.
  lemma LatestStartIsLost(p: Overtaking)
    requires PossibleOvertaking(p)
    ensures var q, rcs := OvertakingQuery(p), [Slow(p), Fast(p)];
            && R.ValidReverse(q, rcs) && EachStepPositive(q, rcs) && L.SlackAtMost(q, rcs, p.wait)
            && L.StartsChain(q, rcs, OvertakingOverlay(), [Leg(Fast(p), Fast(p))], p.first + p.gain - p.wait)
            && T.ReverseResult(q, T.ReverseEnd(q, rcs, OvertakingOverlay())) ==
               Some(NodeTime(0, if p.gain < p.wait then p.first - p.wait else p.first + p.gain - p.wait))
  {
    var q := OvertakingQuery(p);
    assert OvertakingSetup(p, q);
    OvertakingValid(p, q);
    FastChain(p, q);
    OvertakingEnd(p, q);
  }

  lemma OvertakingEnd(p: Overtaking, q: Query)
    requires OvertakingSetup(p, q) && forall c <- [Slow(p), Fast(p)] :: R.Fits(q, c)
    ensures T.ReverseResult(q, T.ReverseEnd(q, [Slow(p), Fast(p)], OvertakingOverlay())) ==
            Some(NodeTime(0, if p.gain < p.wait then p.first - p.wait else p.first + p.gain - p.wait))
  {
    OvertakingScan(p, q);
    OvertakingResult(p, q, T.ReverseEnd(q, [Slow(p), Fast(p)], OvertakingOverlay()));
  }

  // ---- Steps that lead nowhere ------------------------------------------------------

  // One connection from the access node 0 to the egress node 1, with this running
  // time and minimum wait; the two nodes are a footpath of no time apart.
  datatype Loop = Loop(leave: int, run: int, wait: int)

  ghost predicate SmallLoop(p: Loop) {
    0 <= p.wait < 0x8000 && p.wait <= p.leave < 0x1000_0000 && 0 <= p.run < 0x1000_0000
  }

  function BothNodes(first: nat): seq<NodeTime> {
    [NodeTime(first, 0), NodeTime(if first == 0 then 1 else 0, 0)]
  }

  lemma BothListed(first: nat, n: nat, t: int)
    requires first < 2
    ensures NodeTime(n, t) in BothNodes(first) <==> n < 2 && t == 0
  {
    assert BothNodes(first)[0] == NodeTime(first, 0) && BothNodes(first)[1] == NodeTime(1 - first, 0);
  }

  function LoopQuery(p: Loop): Query {
    Query(2, 1, [BothNodes(0), BothNodes(1)], [BothNodes(0), BothNodes(1)], [NodeTime(0, 0)], [NodeTime(1, 0)],
          -1, p.leave + p.run, 0, MAX_INT, 100, -1, {})
  }

  function Only(p: Loop): Connection {
    Connection(0, 1, p.leave, p.leave + p.run, 0, true, true, 1, p.wait)
  }

  function LoopOverlay(): seq<TripQueryData> {
    [FRESH_TRIP.(usable := true)]
  }

  ghost predicate LoopSetup(p: Loop, q: Query) {
    && SmallLoop(p) && q.nodeCount == 2 && q.tripCount == 1
    && q.transfers == q.reverseTransfers == [BothNodes(0), BothNodes(1)]
    && q.accessFootpaths == [NodeTime(0, 0)] && q.egressFootpaths == [NodeTime(1, 0)]
    && q.departureTime == -1 && q.arrivalTime == p.leave + p.run && q.minWaitingTime == 0
    && q.maxTotalTravelTime == MAX_INT && q.maxTransferWalkingTime == 100 && q.maxFirstWaitingTime == -1
    && q.disabledTrips == {}
  }

  lemma LoopWalks(p: Loop, q: Query)
    requires LoopSetup(p, q)
    ensures q.NodesAccess() == map[0 := 0] && q.NodesEgress() == map[1 := 0]
    ensures MinTime(q.egressFootpaths) == 0 && MaxTime(q.accessFootpaths) == 0
  {
    OneWalk(NodeTime(0, 0));
    OneWalk(NodeTime(1, 0));
    LongestOfOne(NodeTime(0, 0));
  }

  lemma LoopQueryValid(p: Loop, q: Query)
    requires LoopSetup(p, q)
    ensures ValidQuery(q)
  {
    LoopTransfersValid(q);
  }

  lemma LoopTransfersValid(q: Query)
    requires q.nodeCount == 2 && q.transfers == q.reverseTransfers == [BothNodes(0), BothNodes(1)]
    ensures ValidTransfers(q)
  {
    forall n: nat, fp | n < 2 && fp in BothNodes(n) ensures fp.node < 2 && fp.time == 0 {
      BothListed(n, fp.node, fp.time);
    }
    forall a: nat, b: nat, t: int | a < 2 && b < 2
      ensures NodeTime(b, t) in q.transfers[a] <==> NodeTime(a, t) in q.reverseTransfers[b]
    {
      assert q.transfers[a] == BothNodes(a) && q.reverseTransfers[b] == BothNodes(b);
      BothListed(a, b, t);
      BothListed(b, a, t);
    }
  }

  lemma LoopValid(p: Loop, q: Query)
    requires LoopSetup(p, q)
    ensures R.ValidReverse(q, [Only(p)])
  {
    LoopQueryValid(p, q);
    assert ValidConnection(q, Only(p)) && R.Fits(q, Only(p));
  }

  // The connection hands over to itself if it takes no time and imposes no wait.
  lemma LoopHandoff(p: Loop, q: Query)
    requires LoopSetup(p, q) && R.ValidReverse(q, [Only(p)])
    ensures R.HandoffOrdered(q, [Only(p)]) <==> p.run > 0 || p.wait > 0
  {
    var c := Only(p);
    if p.run > 0 || p.wait > 0 {
      R.StepPositiveOrdersHandoffs(q, [c]);
    } else {
      assert q.transfers[1][1] == NodeTime(0, 0);
      assert Handoff(q, c, c) by { assert Footpath(q, 1, 0, 0); }
      assert [c][0] == c;
    }
  }

  lemma TwoFootpaths(q: Query, st: R.ReverseState, c: Connection, x: Connection, a: NodeTime, b: NodeTime)
    requires R.Sized(q, st) && a.node < q.nodeCount && b.node < q.nodeCount
    ensures R.Relax(q, st, c, x, [a, b]) == R.RelaxOne(q, R.RelaxOne(q, st, c, x, a), c, x, b)
  {
    var st1 := R.RelaxOne(q, st, c, x, a);
    assert [a, b][1..] == [b] && [b][1..] == [];
    assert R.Relax(q, st1, c, x, [b]) == R.RelaxOne(q, st1, c, x, b);
  }

  // The second footpath leads back to the egress node: its label is set again, by
  // the ride itself, if that is no worse.
  lemma LoopRelaxed(p: Loop, q: Query, st: R.ReverseState)
    requires LoopSetup(p, q) && R.Sized(q, st) && st.accessSteps == map[]
    requires st.time == [-1, p.leave + p.run] && st.steps[1].Walk?
    ensures var c := Only(p);
            var r := R.Relax(q, st, c, c, [NodeTime(0, 0), NodeTime(1, 0)]);
            && r.accessSteps == map[0 := Ride(c, c, 0)] && r.reachableCount == st.reachableCount
            && r.steps[1] == (if p.run > 0 || p.wait > 0 then st.steps[1] else Ride(c, c, 0))
  {
    TwoFootpaths(q, st, Only(p), Only(p), NodeTime(0, 0), NodeTime(1, 0));
    LoopWalks(p, q);
  }

  ghost predicate LoopEnd(p: Loop, r: R.ReverseState) {
    && SmallLoop(p) && r.reachableCount == 1 && r.accessSteps == map[0 := Ride(Only(p), Only(p), 0)] && |r.steps| == 2
    && if p.run > 0 || p.wait > 0 then r.steps[1].Walk? else r.steps[1] == Ride(Only(p), Only(p), 0)
  }

  lemma LoopScan(p: Loop, q: Query)
    requires LoopSetup(p, q) && forall c <- [Only(p)] :: R.Fits(q, c)
    ensures LoopEnd(p, T.ReverseEnd(q, [Only(p)], LoopOverlay()))
  {
    var c, rcs := Only(p), [Only(p)];
    LoopWalks(p, q);
    assert rcs[0] == c && c in rcs && q.reverseTransfers[0] == [NodeTime(0, 0), NodeTime(1, 0)];
    var s0 := R.Initial(q, LoopOverlay());
    assert s0.time == [-1, p.leave + p.run];
    LoopRelaxed(p, q, R.NoteAccess(q, R.ExitChosen(q, s0, c), c));
    var s1 := R.Process(q, s0, c, true);
    assert R.Scan(q, rcs, 1, s1, true) == s1;
    R.ScanUnfold(q, rcs, 0, s0, true);
  }

  // A start is found for all numbers, but the steps behind it lead to the destination
  // if and only if the connection takes time or imposes a wait; else they come back
  // to the same ride for ever. That is when handoffs are not in scan order.
  lemma StepsCanLoop(p: Loop)
    requires SmallLoop(p)
    ensures var q, rcs := LoopQuery(p), [Only(p)];
            && R.ValidReverse(q, rcs)
            && var r := T.ReverseEnd(q, rcs, LoopOverlay());
            && T.ReverseResult(q, r) == Some(NodeTime(0, p.leave - p.wait)) && 0 in r.accessSteps
            && ((exists legs :: RX.Follows(r, r.accessSteps[0], legs)) <==> p.run > 0 || p.wait > 0)
            && (R.HandoffOrdered(q, rcs) <==> p.run > 0 || p.wait > 0)
  {
    var q, rcs := LoopQuery(p), [Only(p)];
    assert LoopSetup(p, q);
    LoopValid(p, q);
    LoopHandoff(p, q);
    LoopScan(p, q);
    var r := T.ReverseEnd(q, rcs, LoopOverlay());
    LoopResult(p, q, r);
    LoopFollowed(p, r);
  }

  lemma LoopResult(p: Loop, q: Query, r: R.ReverseState)
    requires LoopSetup(p, q) && LoopEnd(p, r)
    ensures T.ReverseResult(q, r) == Some(NodeTime(0, p.leave - p.wait))
  {
    LoopWalks(p, q);
    assert q.accessFootpaths[0] == NodeTime(0, 0);
    assert T.BestAccess(q, r, 0) == None;
    assert T.BestAccess(q, r, 1) == T.BetterAccess(q, r, None, NodeTime(0, 0));
  }

  lemma LoopFollowed(p: Loop, r: R.ReverseState)
    requires LoopEnd(p, r)
    ensures (exists legs :: RX.Follows(r, r.accessSteps[0], legs)) <==> p.run > 0 || p.wait > 0
  {
    var c := Only(p);
    if p.run > 0 || p.wait > 0 {
      assert RX.Follows(r, r.accessSteps[0], [Leg(c, c)]);
    } else {
      forall legs ensures !RX.Follows(r, r.accessSteps[0], legs) { LoopsForEver(p, r, legs); }
    }
  }

  lemma LoopsForEver(p: Loop, r: R.ReverseState, legs: seq<Leg>)
    requires LoopEnd(p, r) && p.run == p.wait == 0
    ensures !RX.Follows(r, r.accessSteps[0], legs)
  {
    if RX.Follows(r, r.accessSteps[0], legs) { StillLooping(p, r, legs, |legs| - 1); }
  }

  lemma {:induction false} StillLooping(p: Loop, r: R.ReverseState, legs: seq<Leg>, m: nat)
    requires LoopEnd(p, r) && p.run == p.wait == 0 && RX.Follows(r, r.accessSteps[0], legs) && m < |legs|
    ensures legs[m] == Leg(Only(p), Only(p))
    decreases m
  {
    if m > 0 {
      StillLooping(p, r, legs, m - 1);
      assert RX.ContinuesWith(r, legs, m - 1);
    }
  }
}
