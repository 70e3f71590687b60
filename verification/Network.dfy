// The data every calculation reads (connections, footpaths, query parameters)
// and the declarative notion of a journey the two scans are measured against.
module Network {

  datatype Option<+T> = None | Some(value: T)

  const MAX_INT: int := 0x7fff_ffff

  // One vehicle movement between two consecutive nodes of a trip. A negative
  // minWaitingTime means "inherit the query's".
  datatype Connection = Connection(
    departureNode: nat,
    arrivalNode: nat,
    departureTime: int,
    arrivalTime: int,
    trip: nat,
    canBoard: bool,
    canUnboard: bool,
    sequenceInTrip: int,
    minWaitingTime: int)
  {
    function MinWaitingTimeOrDefault(default: int): int {
      if minWaitingTime >= 0 then minWaitingTime else default
    }
  }

  datatype NodeTime = NodeTime(node: nat, time: int)

  // A step has both connections or neither: the constructors and setters of
  // the original never produce a half-filled step.
  datatype JourneyStep =
    | Walk(transferTime: int)
    | Ride(enter: Connection, exit: Connection, transferTime: int)

  const NO_CONNECTION := Connection(0, 0, 0, 0, 0, false, false, 0, 0)

  type RideStep = s: JourneyStep | s.Ride? witness Ride(NO_CONNECTION, NO_CONNECTION, 0)

  // Scratch data of one trip during a query.
  datatype TripQueryData = TripQueryData(
    usable: bool,
    enter: Option<Connection>,
    enterTransferTime: int,
    exit: Option<Connection>,
    exitTransferTime: int)

  const FRESH_TRIP := TripQueryData(false, None, MAX_INT, None, MAX_INT)

  datatype Query = Query(
    nodeCount: nat,
    tripCount: nat,
    transfers: seq<seq<NodeTime>>,
    reverseTransfers: seq<seq<NodeTime>>,
    accessFootpaths: seq<NodeTime>,
    egressFootpaths: seq<NodeTime>,
    departureTime: int,
    arrivalTime: int,
    minWaitingTime: int,
    maxTotalTravelTime: int,
    maxTransferWalkingTime: int,
    maxFirstWaitingTime: int,
    disabledTrips: set<nat>)
  {
    function Wait(c: Connection): int {
      c.MinWaitingTimeOrDefault(minWaitingTime)
    }

    function NodesAccess(): map<nat, int> { TimeMap(accessFootpaths) }

    function NodesEgress(): map<nat, int> { TimeMap(egressFootpaths) }
  }

  // unordered_map::emplace for the first k footpaths: the first entry of a node stays.
  function MapTo(footpaths: seq<NodeTime>, k: nat): map<nat, int>
    requires k <= |footpaths|
  {
    if k == 0 then map[]
    else
      var m := MapTo(footpaths, k - 1);
      if footpaths[k - 1].node in m then m else m[footpaths[k - 1].node := footpaths[k - 1].time]
  }

  lemma {:induction false} MapToLists(footpaths: seq<NodeTime>, k: nat)
    requires k <= |footpaths|
    ensures forall j: nat | j < k :: footpaths[j].node in MapTo(footpaths, k)
    ensures forall n <- MapTo(footpaths, k) :: NodeTime(n, MapTo(footpaths, k)[n]) in footpaths
    decreases k
  {
    if k > 0 {
      MapToLists(footpaths, k - 1);
      assert footpaths[k - 1] in footpaths;
    }
  }

  function TimeMap(footpaths: seq<NodeTime>): (m: map<nat, int>)
    ensures forall fp <- footpaths :: fp.node in m
    ensures forall n <- m :: NodeTime(n, m[n]) in footpaths
  {
    MapToLists(footpaths, |footpaths|);
    MapTo(footpaths, |footpaths|)
  }

  // Shortest and longest of the first k footpaths.
  function MinTo(footpaths: seq<NodeTime>, k: nat): int
    requires k <= |footpaths|
  {
    if k == 0 then MAX_INT
    else
      var rest := MinTo(footpaths, k - 1);
      if footpaths[k - 1].time < rest then footpaths[k - 1].time else rest
  }

  function MaxTo(footpaths: seq<NodeTime>, k: nat): int
    requires k <= |footpaths|
  {
    if k == 0 then -1
    else
      var rest := MaxTo(footpaths, k - 1);
      if footpaths[k - 1].time > rest then footpaths[k - 1].time else rest
  }

  lemma {:induction false} ExtremesBound(footpaths: seq<NodeTime>, k: nat)
    requires k <= |footpaths|
    ensures forall j: nat | j < k :: MinTo(footpaths, k) <= footpaths[j].time <= MaxTo(footpaths, k)
    ensures MinTo(footpaths, k) == MAX_INT || exists j: nat :: j < k && footpaths[j].time == MinTo(footpaths, k)
    ensures MaxTo(footpaths, k) == -1 || exists j: nat :: j < k && footpaths[j].time == MaxTo(footpaths, k)
    decreases k
  {
    if k > 0 { ExtremesBound(footpaths, k - 1); }
  }

  function MinTime(footpaths: seq<NodeTime>): (t: int)
    ensures forall fp <- footpaths :: t <= fp.time
    ensures t == MAX_INT || exists fp <- footpaths :: fp.time == t
  {
    ExtremesBound(footpaths, |footpaths|);
    MinTo(footpaths, |footpaths|)
  }

  function MaxTime(footpaths: seq<NodeTime>): (t: int)
    ensures forall fp <- footpaths :: fp.time <= t
    ensures t == -1 || exists fp <- footpaths :: fp.time == t
  {
    ExtremesBound(footpaths, |footpaths|);
    MaxTo(footpaths, |footpaths|)
  }

  // ---- Initial labels -----------------------------------------------------

  function Label(base: int, plus: bool, walk: int): int {
    if plus then base + walk else base - walk
  }

  // base plus or minus the walk where there is one, the default elsewhere.
  function TimeLabels(nodeCount: nat, walks: map<nat, int>, base: int, plus: bool, default: int): seq<int> {
    seq(nodeCount, n requires 0 <= n => if n in walks then Label(base, plus, walks[n]) else default)
  }

  function StepLabels(nodeCount: nat, walks: map<nat, int>): seq<JourneyStep> {
    seq(nodeCount, n requires 0 <= n => Walk(if n in walks then walks[n] else -1))
  }

  function FreshOverlay(tripCount: nat): seq<TripQueryData> {
    seq(tripCount, _ => FRESH_TRIP)
  }

  // ---- Well-formed data -------------------------------------------------

  ghost predicate ValidFootpaths(q: Query, footpaths: seq<NodeTime>) {
    && (forall fp <- footpaths :: fp.node < q.nodeCount && 0 <= fp.time < MAX_INT)
    && (forall a <- footpaths, b <- footpaths :: a.node == b.node ==> a == b)
  }

  ghost predicate ValidTransfers(q: Query) {
    && |q.transfers| == |q.reverseTransfers| == q.nodeCount
    && (forall n: nat | n < q.nodeCount :: forall fp <- q.transfers[n] ::
          fp.node < q.nodeCount && 0 <= fp.time)
    && (forall n: nat | n < q.nodeCount :: forall fp <- q.reverseTransfers[n] ::
          fp.node < q.nodeCount && 0 <= fp.time)
    && (forall n: nat | n < q.nodeCount :: NodeTime(n, 0) in q.transfers[n])
    && (forall a: nat, b: nat, t: int | a < q.nodeCount && b < q.nodeCount ::
          NodeTime(b, t) in q.transfers[a] <==> NodeTime(a, t) in q.reverseTransfers[b])
  }

  ghost predicate ValidQuery(q: Query) {
    && ValidTransfers(q)
    && ValidFootpaths(q, q.accessFootpaths)
    && ValidFootpaths(q, q.egressFootpaths)
    && 0 <= q.minWaitingTime < 0x8000
    && 0 <= q.maxTransferWalkingTime
    && (forall fp <- q.accessFootpaths :: q.departureTime + fp.time < MAX_INT)
  }

  ghost predicate ValidConnection(q: Query, c: Connection) {
    && c.departureNode < q.nodeCount
    && c.arrivalNode < q.nodeCount
    && c.trip < q.tripCount
    && 0 <= c.departureTime <= c.arrivalTime < MAX_INT
    && -1 <= c.minWaitingTime < 0x8000
    && (c.arrivalNode < |q.transfers| ==>
          forall fp <- q.transfers[c.arrivalNode] :: c.arrivalTime + fp.time < MAX_INT)
    && (forall fp <- q.egressFootpaths :: c.arrivalTime + fp.time < MAX_INT)
  }

  ghost predicate ValidConnections(q: Query, cs: seq<Connection>) {
    forall c <- cs :: ValidConnection(q, c)
  }

  // ---- Journeys ---------------------------------------------------------

  datatype Leg = Leg(enter: Connection, exit: Connection)

  // A ride on one enabled trip, boarding and alighting where that is allowed.
  ghost predicate IsRide(q: Query, cs: seq<Connection>, enter: Connection, exit: Connection) {
    && enter in cs && exit in cs
    && enter.trip == exit.trip
    && enter.trip !in q.disabledTrips
    && enter.sequenceInTrip <= exit.sequenceInTrip
    && enter.canBoard && exit.canUnboard
  }

  ghost predicate Footpath(q: Query, a: nat, b: nat, t: int) {
    a < |q.transfers| && NodeTime(b, t) in q.transfers[a] && t <= q.maxTransferWalkingTime
  }

  // Alighting from x, one footpath, the minimum wait, then boarding e.
  ghost predicate Handoff(q: Query, x: Connection, e: Connection) {
    exists t :: Footpath(q, x.arrivalNode, e.departureNode, t) &&
                x.arrivalTime + t + q.Wait(e) <= e.departureTime
  }

  // Two queries that agree on all a handoff depends on.
  ghost predicate SameWalks(q: Query, other: Query) {
    && other.transfers == q.transfers && other.maxTransferWalkingTime == q.maxTransferWalkingTime
    && other.minWaitingTime == q.minWaitingTime
  }

  lemma SameHandoff(q: Query, other: Query, x: Connection, e: Connection)
    requires SameWalks(q, other)
    ensures Handoff(q, x, e) <==> Handoff(other, x, e)
  {
    forall t ensures Footpath(q, x.arrivalNode, e.departureNode, t) <==>
        Footpath(other, x.arrivalNode, e.departureNode, t) {}
  }

  ghost predicate Chain(q: Query, cs: seq<Connection>, legs: seq<Leg>) {
    && (forall k: nat | k < |legs| :: IsRide(q, cs, legs[k].enter, legs[k].exit))
    && (forall k: nat | k + 1 < |legs| :: Handoff(q, legs[k].exit, legs[k + 1].enter))
  }

  // The origin reaches e in time, walking to one of its access nodes.
  ghost predicate Departs(q: Query, e: Connection) {
    exists t :: NodeTime(e.departureNode, t) in q.accessFootpaths &&
                q.departureTime + t + q.Wait(e) <= e.departureTime
  }

  ghost predicate Journey(q: Query, cs: seq<Connection>, legs: seq<Leg>) {
    legs != [] && Chain(q, cs, legs) && Departs(q, legs[0].enter)
  }

  // A long conjunction stated, carried and used as one proposition, so that the
  // verifier does not take it apart clause by clause.
  ghost predicate Whole(fact: bool) {
    fact == true
  }

  function Last<T>(s: seq<T>): T
    requires s != []
  {
    s[|s| - 1]
  }

  // legs reach node n by vehicle at time t.
  ghost predicate Reaches(q: Query, cs: seq<Connection>, legs: seq<Leg>, n: nat, t: int) {
    Journey(q, cs, legs) && Last(legs).exit.arrivalNode == n && Last(legs).exit.arrivalTime == t
  }

  // legs bring the traveller to the destination at time t.
  ghost predicate Arrives(q: Query, cs: seq<Connection>, legs: seq<Leg>, t: int) {
    && Journey(q, cs, legs)
    && exists w :: NodeTime(Last(legs).exit.arrivalNode, w) in q.egressFootpaths &&
                   t == Last(legs).exit.arrivalTime + w
  }

  // ---- Hypotheses on the connections ------------------------------------

  // Any two connections: the first one takes time or the second one imposes a
  // wait. Either "all running times positive" or "all waits positive" implies it.
  ghost predicate PositiveStep(q: Query, cs: seq<Connection>) {
    forall x <- cs, e <- cs :: x.departureTime < x.arrivalTime || 0 < q.Wait(e)
  }

  // The weaker reading, one connection at a time.
  ghost predicate EachStepPositive(q: Query, cs: seq<Connection>) {
    forall c <- cs :: c.departureTime < c.arrivalTime || 0 < q.Wait(c)
  }

  ghost predicate SameConnections(cs: seq<Connection>, rcs: seq<Connection>) {
    forall c :: c in cs <==> c in rcs
  }

  ghost function Pos(cs: seq<Connection>, c: Connection): (j: nat)
    requires c in cs
    ensures j < |cs| && cs[j] == c
  {
    var j: nat :| j < |cs| && cs[j] == c; j
  }
}
