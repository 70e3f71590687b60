// Which rides the forward scan leaves behind each label and each node it lists, and
// so which legs an accessibility result counts.
module ForwardEntries {
  import opened Network
  import opened ForwardScan
  import opened ForwardExact
  import B = BoardedTrips

  // ---- How the traveller comes to a node ------------------------------------------

  // A journey the scan can follow ends with x.
  ghost predicate Alights(q: Query, cs: seq<Connection>, x: Connection) {
    x in cs && exists legs: seq<Leg> :: B.EndsWith(q, cs, x, legs)
  }

  // Such an x, one of the first i connections of the scan, and a footpath of length f
  // from there to node n.
  ghost predicate Offers(q: Query, cs: seq<Connection>, n: nat, i: nat, x: Connection, f: int) {
    Alights(q, cs, x) && Pos(cs, x) < i && Footpath(q, x.arrivalNode, n, f)
  }

  // When the traveller is there by walking from the origin.
  function WalkArrival(q: Query, n: nat): int {
    if n in q.NodesAccess() then q.departureTime + q.NodesAccess()[n] else MAX_INT
  }

  // Sooner is better, and of equals what is scanned earlier.
  ghost predicate NoBetter(cs: seq<Connection>, y: Connection, g: int, x: Connection, f: int)
    requires x in cs && y in cs
  {
    || x.arrivalTime + f < y.arrivalTime + g
    || (x.arrivalTime + f == y.arrivalTime + g && Pos(cs, x) <= Pos(cs, y))
  }

  ghost predicate IsInward(q: Query, cs: seq<Connection>, n: nat, i: nat, x: Connection, f: int) {
    && Offers(q, cs, n, i, x, f) && x.arrivalTime + f < WalkArrival(q, n)
    && forall y, g | Offers(q, cs, n, i, y, g) :: NoBetter(cs, y, g, x, f)
  }

  ghost predicate OnlyWalks(q: Query, cs: seq<Connection>, n: nat, i: nat) {
    forall x, f | Offers(q, cs, n, i, x, f) :: WalkArrival(q, n) <= x.arrivalTime + f
  }

  // x is where the traveller first alights at node n, and of equals the one scanned first.
  ghost predicate IsReach(q: Query, cs: seq<Connection>, n: nat, i: nat, x: Connection) {
    && AlightsAt(q, cs, n, i, x)
    && forall y | AlightsAt(q, cs, n, i, y) ::
         x.arrivalTime < y.arrivalTime || (x.arrivalTime == y.arrivalTime && Pos(cs, x) <= Pos(cs, y))
  }

  ghost predicate AlightsAt(q: Query, cs: seq<Connection>, n: nat, i: nat, x: Connection) {
    Alights(q, cs, x) && x.arrivalNode == n && Pos(cs, x) < i
  }

  // The first boarding of its trip in scan order.
  ghost predicate IsFirstBoarding(q: Query, cs: seq<Connection>, e: Connection) {
    B.Boards(q, cs, e) && forall b | B.Boards(q, cs, b) && b.trip == e.trip :: Pos(cs, e) <= Pos(cs, b)
  }

  // ---- The state of the scan, read off the data --------------------------------------

  ghost predicate LabelIs(q: Query, cs: seq<Connection>, i: nat, st: ForwardState, n: nat)
    requires Sized(q, st) && n < q.nodeCount
  {
    Whole(LabelFacts(q, cs, i, st, n))
  }

  ghost predicate LabelFacts(q: Query, cs: seq<Connection>, i: nat, st: ForwardState, n: nat)
    requires Sized(q, st) && n < q.nodeCount
  {
    match st.steps[n]
    case Ride(_, x, f) => IsInward(q, cs, n, i, x, f) && st.time[n] == x.arrivalTime + f
    case Walk(w) =>
      && OnlyWalks(q, cs, n, i) && st.time[n] == WalkArrival(q, n)
      && w == if n in q.NodesAccess() then q.NodesAccess()[n] else -1
  }

  function Reached(st: ForwardState, n: nat): Option<Connection> {
    if n in st.egressSteps then Some(st.egressSteps[n].exit) else None
  }

  // reached is where the traveller first alights at the node, if anywhere.
  ghost predicate FirstReached(q: Query, cs: seq<Connection>, n: nat, i: nat, reached: Option<Connection>) {
    match reached
    case Some(x) => IsReach(q, cs, n, i, x)
    case None => forall x :: !AlightsAt(q, cs, n, i, x)
  }

  ghost predicate ReachIs(q: Query, cs: seq<Connection>, i: nat, st: ForwardState, n: nat) {
    Whole(FirstReached(q, cs, n, i, Reached(st, n)))
  }

  ghost predicate Tracks(q: Query, cs: seq<Connection>, i: nat, st: ForwardState) {
    && Sized(q, st)
    && (forall n: nat | n < q.nodeCount :: LabelIs(q, cs, i, st, n))
    && (forall n: nat | n < q.nodeCount :: ReachIs(q, cs, i, st, n))
  }

  lemma InitialTracks(q: Query, cs: seq<Connection>)
    requires ValidForward(q, cs)
    ensures Tracks(q, cs, 0, Initial(q))
  {
  }

  // Whatever trip has been boarded was boarded at its first boarding.
  lemma FirstBoarded(q: Query, cs: seq<Connection>, i: nat, st: ForwardState, t: nat, e: Connection)
    requires ValidForward(q, cs) && i <= |cs| && Invariant(q, cs, i, st)
    requires t < q.tripCount && st.overlay[t].enter == Some(e)
    ensures e.trip == t && IsFirstBoarding(q, cs, e)
  {
    B.EnteredBoards(q, cs, i, st, t, e);
    forall b | B.Boards(q, cs, b) && b.trip == t ensures Pos(cs, e) <= Pos(cs, b) {
      if Pos(cs, b) < i { B.BoardingEntered(q, cs, i, st, b); }
    }
  }

  // ---- Relaxing the footpaths of one alighting -----------------------------------------

  // Offers of what was scanned before c, and of c by the footpaths done so far.
  ghost predicate OffersSoFar(q: Query, cs: seq<Connection>, n: nat, i: nat, c: Connection, done: seq<NodeTime>,
                              x: Connection, f: int) {
    Offers(q, cs, n, i, x, f) || (x == c && NodeTime(n, f) in done && f <= q.maxTransferWalkingTime)
  }

  ghost predicate LabelSoFar(q: Query, cs: seq<Connection>, i: nat, c: Connection, done: seq<NodeTime>,
                             st: ForwardState, n: nat)
    requires Sized(q, st) && n < q.nodeCount && c in cs
  {
    Whole(LabelSoFarFacts(q, cs, i, c, done, st, n))
  }

  ghost predicate LabelSoFarFacts(q: Query, cs: seq<Connection>, i: nat, c: Connection, done: seq<NodeTime>,
                                  st: ForwardState, n: nat)
    requires Sized(q, st) && n < q.nodeCount && c in cs
  {
    match st.steps[n]
    case Ride(_, x, f) =>
      && OffersSoFar(q, cs, n, i, c, done, x, f) && st.time[n] == x.arrivalTime + f < WalkArrival(q, n)
      && forall y, g | OffersSoFar(q, cs, n, i, c, done, y, g) :: NoBetter(cs, y, g, x, f)
    case Walk(w) =>
      && st.time[n] == WalkArrival(q, n) && w == (if n in q.NodesAccess() then q.NodesAccess()[n] else -1)
      && forall y, g | OffersSoFar(q, cs, n, i, c, done, y, g) :: WalkArrival(q, n) <= y.arrivalTime + g
  }

  lemma RelaxOneSoFar(q: Query, cs: seq<Connection>, i: nat, c: Connection, done: seq<NodeTime>, st: ForwardState,
                      e: Connection, fp: NodeTime, n: nat)
    requires Sized(q, st) && n < q.nodeCount && c in cs && i <= Pos(cs, c) && 0 <= fp.time && fp.node < q.nodeCount
    requires LabelSoFar(q, cs, i, c, done, st, n)
    ensures LabelSoFar(q, cs, i, c, done + [fp], RelaxOne(q, st, c, e, fp), n)
  {
    forall y, g
      ensures OffersSoFar(q, cs, n, i, c, done + [fp], y, g) <==>
              || OffersSoFar(q, cs, n, i, c, done, y, g)
              || (y == c && fp == NodeTime(n, g) && g <= q.maxTransferWalkingTime)
    {
    }
  }

  lemma {:induction false} RelaxSoFar(q: Query, cs: seq<Connection>, i: nat, c: Connection, done: seq<NodeTime>,
                                      st: ForwardState, e: Connection, fps: seq<NodeTime>, n: nat)
    requires Sized(q, st) && n < q.nodeCount && c in cs && i <= Pos(cs, c)
    requires forall fp <- fps :: 0 <= fp.time && fp.node < q.nodeCount
    requires LabelSoFar(q, cs, i, c, done, st, n)
    ensures LabelSoFar(q, cs, i, c, done + fps, Relax(q, st, c, e, fps), n)
    decreases |fps|
  {
    if fps == [] {
      assert done + fps == done;
    } else {
      RelaxOneSoFar(q, cs, i, c, done, st, e, fps[0], n);
      RelaxSoFar(q, cs, i, c, done + [fps[0]], RelaxOne(q, st, c, e, fps[0]), e, fps[1..], n);
      assert done + [fps[0]] + fps[1..] == done + fps;
    }
  }

  lemma NoneSoFar(q: Query, cs: seq<Connection>, i: nat, c: Connection, st: ForwardState, n: nat)
    requires Sized(q, st) && n < q.nodeCount && c in cs && LabelIs(q, cs, i, st, n)
    ensures LabelSoFar(q, cs, i, c, [], st, n)
  {
    forall x, f ensures OffersSoFar(q, cs, n, i, c, [], x, f) <==> Offers(q, cs, n, i, x, f) {}
  }

  lemma OffersNext(q: Query, cs: seq<Connection>, i: nat, n: nat, x: Connection, f: int)
    requires ValidForward(q, cs) && i < |cs| && Alights(q, cs, cs[i]) && n < q.nodeCount && Fits(q, cs[i])
    ensures Offers(q, cs, n, i + 1, x, f) <==>
            OffersSoFar(q, cs, n, i, cs[i], q.transfers[cs[i].arrivalNode], x, f)
  {
    PosAt(cs, i);
    assert x in cs && Pos(cs, x) == i ==> x == cs[i];
  }

  lemma LabelDone(q: Query, cs: seq<Connection>, i: nat, r: ForwardState, n: nat)
    requires ValidForward(q, cs) && i < |cs| && Sized(q, r) && n < q.nodeCount && Fits(q, cs[i])
    requires Alights(q, cs, cs[i])
    requires LabelSoFar(q, cs, i, cs[i], q.transfers[cs[i].arrivalNode], r, n)
    ensures LabelIs(q, cs, i + 1, r, n)
  {
    var c, next, fps := cs[i], i + 1, q.transfers[cs[i].arrivalNode];
    forall x, f ensures Offers(q, cs, n, next, x, f) <==> OffersSoFar(q, cs, n, i, c, fps, x, f) {
      OffersNext(q, cs, i, n, x, f);
    }
  }

  // An alighting brings the labels up to date.
  lemma AlightedLabel(q: Query, cs: seq<Connection>, i: nat, st: ForwardState, e: Connection, n: nat)
    requires ValidForward(q, cs) && i < |cs| && Sized(q, st) && Fits(q, cs[i]) && n < q.nodeCount
    requires Alights(q, cs, cs[i]) && LabelIs(q, cs, i, st, n)
    ensures LabelIs(q, cs, i + 1, Relax(q, st, cs[i], e, q.transfers[cs[i].arrivalNode]), n)
  {
    var c, fps := cs[i], q.transfers[cs[i].arrivalNode];
    PosAt(cs, i);
    NoneSoFar(q, cs, i, c, st, n);
    RelaxSoFar(q, cs, i, c, [], st, e, fps, n);
    assert [] + fps == fps;
    LabelDone(q, cs, i, Relax(q, st, c, e, fps), n);
  }

  // A connection nobody alights from offers nothing.
  lemma NoAlightingLabel(q: Query, cs: seq<Connection>, i: nat, st: ForwardState, r: ForwardState, n: nat)
    requires ForwardSorted(cs) && i < |cs| && Sized(q, st) && Sized(q, r) && n < q.nodeCount
    requires !Alights(q, cs, cs[i]) && LabelIs(q, cs, i, st, n)
    requires r.time[n] == st.time[n] && r.steps[n] == st.steps[n]
    ensures LabelIs(q, cs, i + 1, r, n)
  {
    var next := i + 1;
    PosAt(cs, i);
    forall x, f ensures Offers(q, cs, n, next, x, f) <==> Offers(q, cs, n, i, x, f) {
      assert x in cs && Pos(cs, x) == i ==> x == cs[i];
    }
  }

  // ---- The node reached ---------------------------------------------------------------

  predicate Replaces(was: Option<Connection>, c: Connection) {
    was.None? || was.value.arrivalTime > c.arrivalTime
  }

  lemma {:induction false} RelaxElsewhere(q: Query, st: ForwardState, c: Connection, e: Connection,
                                          fps: seq<NodeTime>, n: nat)
    requires Sized(q, st) && forall fp <- fps :: fp.node < q.nodeCount
    requires n != c.arrivalNode || !Replaces(Reached(st, n), c)
    ensures Reached(Relax(q, st, c, e, fps), n) == Reached(st, n)
    decreases |fps|
  {
    if fps != [] { RelaxElsewhere(q, RelaxOne(q, st, c, e, fps[0]), c, e, fps[1..], n); }
  }

  lemma {:induction false} RelaxReaches(q: Query, st: ForwardState, c: Connection, e: Connection, fps: seq<NodeTime>)
    requires Sized(q, st) && (forall fp <- fps :: fp.node < q.nodeCount) && 0 <= q.maxTransferWalkingTime
    requires NodeTime(c.arrivalNode, 0) in fps && Replaces(Reached(st, c.arrivalNode), c)
    ensures Reached(Relax(q, st, c, e, fps), c.arrivalNode) == Some(c)
    decreases |fps|
  {
    var st1 := RelaxOne(q, st, c, e, fps[0]);
    if Reached(st1, c.arrivalNode) == Some(c) {
      RelaxElsewhere(q, st1, c, e, fps[1..], c.arrivalNode);
    } else {
      assert fps[0] != NodeTime(c.arrivalNode, 0);
      RelaxReaches(q, st1, c, e, fps[1..]);
    }
  }

  lemma AlightedReach(q: Query, cs: seq<Connection>, i: nat, st: ForwardState, e: Connection, n: nat)
    requires ValidForward(q, cs) && i < |cs| && Sized(q, st) && Fits(q, cs[i]) && n < q.nodeCount
    requires Alights(q, cs, cs[i]) && ReachIs(q, cs, i, st, n)
    ensures ReachIs(q, cs, i + 1, Relax(q, st, cs[i], e, q.transfers[cs[i].arrivalNode]), n)
  {
    var c, next, fps := cs[i], i + 1, q.transfers[cs[i].arrivalNode];
    PosAt(cs, i);
    forall x ensures AlightsAt(q, cs, n, next, x) <==> AlightsAt(q, cs, n, i, x) || (x == c && c.arrivalNode == n) {
      assert x in cs && Pos(cs, x) == i ==> x == c;
    }
    if n == c.arrivalNode && Replaces(Reached(st, n), c) {
      assert NodeTime(n, 0) in fps;
      RelaxReaches(q, st, c, e, fps);
    } else {
      RelaxElsewhere(q, st, c, e, fps, n);
    }
  }

  lemma NoAlightingReach(q: Query, cs: seq<Connection>, i: nat, st: ForwardState, r: ForwardState, n: nat)
    requires ForwardSorted(cs) && i < |cs| && !Alights(q, cs, cs[i]) && ReachIs(q, cs, i, st, n)
    requires r.egressSteps == st.egressSteps
    ensures ReachIs(q, cs, i + 1, r, n)
  {
    var next := i + 1;
    PosAt(cs, i);
    forall x ensures AlightsAt(q, cs, n, next, x) <==> AlightsAt(q, cs, n, i, x) {
      assert x in cs && Pos(cs, x) == i ==> x == cs[i];
    }
    assert Reached(r, n) == Reached(st, n);
  }

  // ---- One iteration --------------------------------------------------------------------

  // The footpaths of c are relaxed: it is looked at, lets alight, and its trip is boarded.
  ghost predicate IsAlighting(q: Query, st: ForwardState, c: Connection)
    requires Sized(q, st) && Fits(q, c)
  {
    Scanned(q, c) && Reachable(q, st, c) && c.canUnboard && Boarded(q, st, c).overlay[c.trip].enter.Some?
  }

  // That is when a journey the scan can follow ends with it.
  lemma AlightsExactly(q: Query, cs: seq<Connection>, i: nat, st: ForwardState)
    requires ValidForward(q, cs) && i < |cs| && Invariant(q, cs, i, st) && Fits(q, cs[i])
    ensures IsAlighting(q, st, cs[i]) <==> Alights(q, cs, cs[i])
  {
    if IsAlighting(q, st, cs[i]) { AlightingEnds(q, cs, i, st); }
    if Alights(q, cs, cs[i]) { EndAlights(q, cs, i, st); }
  }

  lemma EndAlights(q: Query, cs: seq<Connection>, i: nat, st: ForwardState)
    requires ValidForward(q, cs) && i < |cs| && Invariant(q, cs, i, st) && Fits(q, cs[i])
    requires Alights(q, cs, cs[i])
    ensures IsAlighting(q, st, cs[i])
  {
    var c, next, r := cs[i], i + 1, Process(q, st, cs[i]);
    PosAt(cs, i);
    ProcessKeeps(q, cs, i, st);
    var legs: seq<Leg> :| B.EndsWith(q, cs, c, legs);
    FollowedThere(q, cs, next, r, legs);
    B.ExitedReachable(q, cs, i, st);
    BoardingKeeps(q, st, c);
  }

  lemma FollowedThere(q: Query, cs: seq<Connection>, i: nat, st: ForwardState, legs: seq<Leg>)
    requires ValidForward(q, cs) && i <= |cs| && Invariant(q, cs, i, st)
    requires Scannable(q, cs, |cs|, legs) && InPrefix(cs, i, Last(legs).exit)
    ensures Fits(q, Last(legs).exit) && Exited(q, cs, st, Pos(cs, Last(legs).exit))
  {
    ScannableUpTo(q, cs, |cs|, i, legs);
    JourneyFollowed(q, cs, i, st, legs);
  }

  lemma BoardingKeeps(q: Query, st: ForwardState, c: Connection)
    requires ValidQuery(q) && Sized(q, st) && Fits(q, c) && Scanned(q, c) && Reachable(q, st, c)
    ensures Process(q, st, c).overlay == Boarded(q, st, c).overlay
  {
    AlightedEffect(q, Boarded(q, st, c), c);
  }

  lemma AlightingEnds(q: Query, cs: seq<Connection>, i: nat, st: ForwardState)
    requires ValidForward(q, cs) && i < |cs| && Invariant(q, cs, i, st) && Fits(q, cs[i])
    requires IsAlighting(q, st, cs[i])
    ensures Alights(q, cs, cs[i])
  {
    var c, next, r := cs[i], i + 1, Process(q, st, cs[i]);
    PosAt(cs, i);
    PassedIsAdmitted(q, cs, i, st);
    ProcessKeeps(q, cs, i, st);
    BoardingKeeps(q, st, c);
    assert TripOk(q, cs, next, r, c.trip);
    var e := r.overlay[c.trip].enter.value;
    TripOrder(cs, e, c);
    var s := Ride(e, c, 0);
    assert RodeFrom(q, cs, next, r, s);
    LegsToScannable(q, cs, next, r, s);
    ScannableMore(q, cs, next, |cs|, LegsTo(q, cs, next, r, s));
    assert B.EndsWith(q, cs, c, LegsTo(q, cs, next, r, s));
  }

  // What an iteration leaves of the labels and the nodes reached.
  lemma ProcessIs(q: Query, st: ForwardState, c: Connection)
    requires ValidQuery(q) && Sized(q, st) && Fits(q, c)
    ensures var r, st1 := Process(q, st, c), NoteEgress(q, Boarded(q, st, c), c);
            if IsAlighting(q, st, c)
            then var l := Relax(q, st1, c, st1.overlay[c.trip].enter.value, q.transfers[c.arrivalNode]);
                 r.time == l.time && r.steps == l.steps && r.egressSteps == l.egressSteps
            else r.time == st.time && r.steps == st.steps && r.egressSteps == st.egressSteps
    ensures var st1 := NoteEgress(q, Boarded(q, st, c), c);
            st1.time == st.time && st1.steps == st.steps && st1.egressSteps == st.egressSteps
  {
  }

  lemma SameLabel(q: Query, cs: seq<Connection>, i: nat, st: ForwardState, r: ForwardState, n: nat)
    requires Sized(q, st) && Sized(q, r) && n < q.nodeCount && r.time == st.time && r.steps == st.steps
    requires LabelIs(q, cs, i, st, n)
    ensures LabelIs(q, cs, i, r, n)
  {
  }

  lemma SameReach(q: Query, cs: seq<Connection>, i: nat, st: ForwardState, r: ForwardState, n: nat)
    requires r.egressSteps == st.egressSteps && ReachIs(q, cs, i, st, n)
    ensures ReachIs(q, cs, i, r, n)
  {
    assert Reached(r, n) == Reached(st, n);
  }

  lemma ProcessLabels(q: Query, cs: seq<Connection>, i: nat, st: ForwardState, n: nat)
    requires ValidForward(q, cs) && i < |cs| && Invariant(q, cs, i, st) && Fits(q, cs[i]) && n < q.nodeCount
    requires Sized(q, st) && LabelIs(q, cs, i, st, n)
    ensures LabelIs(q, cs, i + 1, Process(q, st, cs[i]), n)
  {
    var c, r, st1 := cs[i], Process(q, st, cs[i]), NoteEgress(q, Boarded(q, st, cs[i]), cs[i]);
    AlightsExactly(q, cs, i, st);
    ProcessIs(q, st, c);
    if IsAlighting(q, st, c) {
      var e := st1.overlay[c.trip].enter.value;
      SameLabel(q, cs, i, st, st1, n);
      AlightedLabel(q, cs, i, st1, e, n);
      SameLabel(q, cs, i + 1, Relax(q, st1, c, e, q.transfers[c.arrivalNode]), r, n);
    } else {
      NoAlightingLabel(q, cs, i, st, r, n);
    }
  }

  lemma ProcessReaches(q: Query, cs: seq<Connection>, i: nat, st: ForwardState, n: nat)
    requires ValidForward(q, cs) && i < |cs| && Invariant(q, cs, i, st) && Fits(q, cs[i]) && n < q.nodeCount
    requires Sized(q, st) && ReachIs(q, cs, i, st, n)
    ensures ReachIs(q, cs, i + 1, Process(q, st, cs[i]), n)
  {
    var c, r, st1 := cs[i], Process(q, st, cs[i]), NoteEgress(q, Boarded(q, st, cs[i]), cs[i]);
    AlightsExactly(q, cs, i, st);
    ProcessIs(q, st, c);
    if IsAlighting(q, st, c) {
      ReachesByAlighting(q, cs, i, st, st1, r, st1.overlay[c.trip].enter.value, n);
    } else {
      NoAlightingReach(q, cs, i, st, r, n);
    }
  }

  lemma ReachesByAlighting(q: Query, cs: seq<Connection>, i: nat, st: ForwardState, st1: ForwardState, r: ForwardState,
                           e: Connection, n: nat)
    requires ValidForward(q, cs) && i < |cs| && Sized(q, st1) && Fits(q, cs[i]) && n < q.nodeCount
    requires Alights(q, cs, cs[i]) && ReachIs(q, cs, i, st, n) && st1.egressSteps == st.egressSteps
    requires r.egressSteps == Relax(q, st1, cs[i], e, q.transfers[cs[i].arrivalNode]).egressSteps
    ensures ReachIs(q, cs, i + 1, r, n)
  {
    SameReach(q, cs, i, st, st1, n);
    AlightedReach(q, cs, i, st1, e, n);
    SameReach(q, cs, i + 1, Relax(q, st1, cs[i], e, q.transfers[cs[i].arrivalNode]), r, n);
  }

  // ---- The whole scan ---------------------------------------------------------------------

  ghost predicate Follows(q: Query, cs: seq<Connection>, i: nat, st: ForwardState)
    requires forall c <- cs :: Fits(q, c)
  {
    Sized(q, st) && Invariant(q, cs, i, st) && Tracks(q, cs, i, st)
  }

  lemma FollowsNext(q: Query, cs: seq<Connection>, i: nat, st: ForwardState)
    requires ValidForward(q, cs) && i < |cs| && Whole(Follows(q, cs, i, st))
    ensures Whole(Follows(q, cs, i + 1, Process(q, st, cs[i])))
  {
    var r, next := Process(q, st, cs[i]), i + 1;
    assert cs[i] in cs;
    ProcessKeeps(q, cs, i, st);
    forall n: nat | n < q.nodeCount ensures LabelIs(q, cs, next, r, n) { ProcessLabels(q, cs, i, st, n); }
    forall n: nat | n < q.nodeCount ensures ReachIs(q, cs, next, r, n) { ProcessReaches(q, cs, i, st, n); }
  }

  // The scan for all nodes looks no further than position k: what departs there is
  // later than the maximum allows.
  ghost predicate EndsAt(q: Query, cs: seq<Connection>, k: nat) {
    NoneLate(q, cs, k) && (k < |cs| ==> TooLate(q, cs[k]))
  }

  ghost predicate NoneLate(q: Query, cs: seq<Connection>, k: nat) {
    k <= |cs| && forall j: nat | j < k :: !TooLate(q, cs[j])
  }

  predicate TooLate(q: Query, c: Connection) {
    && c.departureTime >= q.departureTime + MinTime(q.accessFootpaths) && c.trip !in q.disabledTrips
    && c.departureTime - q.departureTime > q.maxTotalTravelTime
  }

  lemma {:induction false} ScanTracks(q: Query, cs: seq<Connection>, i: nat, st: ForwardState) returns (k: nat)
    requires ValidForward(q, cs) && Whole(NoneLate(q, cs, i)) && Sized(q, st) && Whole(Follows(q, cs, i, st))
    ensures Whole(EndsAt(q, cs, k)) && Whole(Follows(q, cs, k, Scan(q, cs, i, st, false)))
    decreases |cs| - i
  {
    if i == |cs| || Stops(q, st, cs[i], false) {
      k := i;
    } else {
      assert cs[i] in cs;
      FollowsNext(q, cs, i, st);
      k := ScanTracks(q, cs, i + 1, Process(q, st, cs[i]));
    }
  }

  // On every network: what every label, step and node reached is where the scan ends,
  // read off the data.
  lemma EndIsTracked(q: Query, cs: seq<Connection>) returns (k: nat)
    requires ValidForward(q, cs)
    ensures Whole(EndsAt(q, cs, k)) && Whole(Follows(q, cs, k, Scan(q, cs, 0, Initial(q), false)))
  {
    InitialInvariant(q, cs);
    InitialTracks(q, cs);
    k := ScanTracks(q, cs, 0, Initial(q));
  }

  // ---- The legs behind a node ---------------------------------------------------------------

  // Leg m starts after leg m - 1 and a footpath, which is the soonest way to be there.
  ghost predicate ComesFrom(q: Query, cs: seq<Connection>, k: nat, legs: seq<Leg>, m: nat)
    requires 0 < m < |legs|
  {
    var n, x := legs[m].enter.departureNode, legs[m - 1].exit;
    exists f :: IsInward(q, cs, n, k, x, f)
  }

  // Every leg boards where its trip can first be boarded, after the ride that is soonest
  // there, and the first leg where nothing is sooner than the walk.
  ghost predicate LedTo(q: Query, cs: seq<Connection>, k: nat, legs: seq<Leg>) {
    && legs != [] && (forall l <- legs :: IsFirstBoarding(q, cs, l.enter) && l.enter.trip == l.exit.trip)
    && (forall m: nat | 0 < m < |legs| :: ComesFrom(q, cs, k, legs, m))
    && OnlyWalks(q, cs, legs[0].enter.departureNode, k)
  }

  // The last leg ends where the traveller first alights at the node: that determines
  // the legs, from the last one back.
  ghost predicate Determined(q: Query, cs: seq<Connection>, k: nat, n: nat, legs: seq<Leg>) {
    EndsAt(q, cs, k) && Whole(LedTo(q, cs, k, legs)) && legs != [] && IsReach(q, cs, n, k, Last(legs).exit)
  }

  lemma LedToNext(q: Query, cs: seq<Connection>, k: nat, legs: seq<Leg>, l: Leg, f: int)
    requires LedTo(q, cs, k, legs) && IsFirstBoarding(q, cs, l.enter) && l.enter.trip == l.exit.trip
    requires IsInward(q, cs, l.enter.departureNode, k, Last(legs).exit, f)
    ensures LedTo(q, cs, k, legs + [l])
  {
    var all := legs + [l];
    forall m: nat | 0 < m < |all| ensures ComesFrom(q, cs, k, all, m) {
      if m < |legs| {
        assert ComesFrom(q, cs, k, legs, m);
        assert all[m] == legs[m] && all[m - 1] == legs[m - 1];
      } else {
        assert all[m - 1] == Last(legs) && IsInward(q, cs, all[m].enter.departureNode, k, all[m - 1].exit, f);
      }
    }
  }

  lemma LedToFirst(q: Query, cs: seq<Connection>, k: nat, l: Leg)
    requires IsFirstBoarding(q, cs, l.enter) && l.enter.trip == l.exit.trip
    requires OnlyWalks(q, cs, l.enter.departureNode, k)
    ensures LedTo(q, cs, k, [l])
  {
  }

  lemma {:induction false} LegsLed(q: Query, cs: seq<Connection>, k: nat, st: ForwardState, s: JourneyStep)
    requires ValidForward(q, cs) && k <= |cs| && Whole(Follows(q, cs, k, st))
    requires Sound(q, cs, k, st) && RodeFrom(q, cs, k, st, s)
    ensures Whole(LedTo(q, cs, k, LegsTo(q, cs, k, st, s)))
    decreases Pos(cs, s.enter)
  {
    var e := s.enter;
    EnterBehind(q, cs, k, st, e.trip, e);
    FollowedNode(q, cs, k, st, e.departureNode, e.trip, e);
    var prev := st.steps[e.departureNode];
    if prev.Ride? {
      LegsLed(q, cs, k, st, prev);
      LedToNext(q, cs, k, LegsTo(q, cs, k, st, prev), Leg(e, s.exit), prev.transferTime);
    } else {
      LedToFirst(q, cs, k, Leg(e, s.exit));
    }
  }

  lemma FollowedNode(q: Query, cs: seq<Connection>, k: nat, st: ForwardState, n: nat, t: nat, e: Connection)
    requires ValidForward(q, cs) && k <= |cs| && Sized(q, st) && Whole(Follows(q, cs, k, st))
    requires n < q.nodeCount && t < q.tripCount && st.overlay[t].enter == Some(e)
    ensures IsFirstBoarding(q, cs, e)
    ensures var s := st.steps[n];
            if s.Ride? then IsInward(q, cs, n, k, s.exit, s.transferTime) else OnlyWalks(q, cs, n, k)
  {
    FirstBoarded(q, cs, k, st, t, e);
    assert LabelIs(q, cs, k, st, n);
  }

  // On every network: the legs behind a listed node are determined by the data.
  lemma LegsDetermined(q: Query, cs: seq<Connection>, j: nat, n: nat)
    requires ValidForward(q, cs) && n < q.nodeCount
    requires var st := Scan(q, cs, 0, Initial(q), false);
             Sound(q, cs, j, st) && n in st.egressSteps && RodeFrom(q, cs, j, st, st.egressSteps[n])
    ensures var st := Scan(q, cs, 0, Initial(q), false);
            exists k :: Determined(q, cs, k, n, LegsTo(q, cs, j, st, st.egressSteps[n]))
  {
    var st := Scan(q, cs, 0, Initial(q), false);
    var k := EndIsTracked(q, cs);
    assert EgressOk(q, cs, k, st, n) && ReachIs(q, cs, k, st, n);
    LegsLed(q, cs, k, st, st.egressSteps[n]);
    SameLegs(q, cs, j, k, st, st.egressSteps[n]);
    assert Determined(q, cs, k, n, LegsTo(q, cs, k, st, st.egressSteps[n]));
  }

  lemma {:induction false} SameLegs(q: Query, cs: seq<Connection>, i: nat, k: nat, st: ForwardState, s: JourneyStep)
    requires ValidForward(q, cs) && Sound(q, cs, i, st) && RodeFrom(q, cs, i, st, s)
    requires Sound(q, cs, k, st) && RodeFrom(q, cs, k, st, s)
    ensures LegsTo(q, cs, i, st, s) == LegsTo(q, cs, k, st, s)
    decreases Pos(cs, s.enter)
  {
    EnterBehind(q, cs, i, st, s.enter.trip, s.enter);
    EnterBehind(q, cs, k, st, s.enter.trip, s.enter);
    var prev := st.steps[s.enter.departureNode];
    if prev.Ride? { SameLegs(q, cs, i, k, st, prev); }
  }

  // ---- There is only one such list of legs --------------------------------------------------

  lemma OneInward(q: Query, cs: seq<Connection>, n: nat, k: nat, x: Connection, f: int, y: Connection, g: int)
    requires IsInward(q, cs, n, k, x, f) && IsInward(q, cs, n, k, y, g)
    ensures x == y
  {
    assert NoBetter(cs, x, f, y, g) && NoBetter(cs, y, g, x, f);
    assert cs[Pos(cs, x)] == x && cs[Pos(cs, y)] == y;
  }

  lemma OneReach(q: Query, cs: seq<Connection>, n: nat, k: nat, x: Connection, y: Connection)
    requires IsReach(q, cs, n, k, x) && IsReach(q, cs, n, k, y)
    ensures x == y
  {
    assert cs[Pos(cs, x)] == x && cs[Pos(cs, y)] == y;
  }

  lemma OneBoarding(q: Query, cs: seq<Connection>, d: Connection, e: Connection)
    requires IsFirstBoarding(q, cs, d) && IsFirstBoarding(q, cs, e) && d.trip == e.trip
    ensures d == e
  {
    assert cs[Pos(cs, d)] == d && cs[Pos(cs, e)] == e;
  }

  lemma OneEnd(q: Query, cs: seq<Connection>, j: nat, k: nat)
    requires EndsAt(q, cs, j) && EndsAt(q, cs, k)
    ensures j == k
  {
  }

  // Counted from the last leg.
  function FromEnd(legs: seq<Leg>, m: nat): Leg
    requires m < |legs|
  {
    legs[|legs| - 1 - m]
  }

  lemma LegOf(q: Query, cs: seq<Connection>, k: nat, legs: seq<Leg>, m: nat)
    requires Whole(LedTo(q, cs, k, legs)) && m < |legs|
    ensures IsFirstBoarding(q, cs, legs[m].enter) && legs[m].enter.trip == legs[m].exit.trip
    ensures if m == 0 then OnlyWalks(q, cs, legs[0].enter.departureNode, k) else ComesFrom(q, cs, k, legs, m)
  {
    assert legs[m] in legs;
  }

  lemma {:induction false} SameFromEnd(q: Query, cs: seq<Connection>, k: nat, a: seq<Leg>, b: seq<Leg>, m: nat)
    requires Whole(LedTo(q, cs, k, a)) && Whole(LedTo(q, cs, k, b)) && m < |a| && m < |b|
    requires Last(a).exit == Last(b).exit
    ensures FromEnd(a, m) == FromEnd(b, m)
    decreases m
  {
    if m > 0 {
      SameFromEnd(q, cs, k, a, b, m - 1);
      LegOf(q, cs, k, a, |a| - m);
      LegOf(q, cs, k, b, |b| - m);
      SameBefore(q, cs, k, a, b, |a| - m, |b| - m);
    }
    LegOf(q, cs, k, a, |a| - 1 - m);
    LegOf(q, cs, k, b, |b| - 1 - m);
    OneBoarding(q, cs, FromEnd(a, m).enter, FromEnd(b, m).enter);
  }

  lemma SameBefore(q: Query, cs: seq<Connection>, k: nat, a: seq<Leg>, b: seq<Leg>, i: nat, j: nat)
    requires 0 < i < |a| && 0 < j < |b| && ComesFrom(q, cs, k, a, i) && ComesFrom(q, cs, k, b, j) && a[i] == b[j]
    ensures a[i - 1].exit == b[j - 1].exit
  {
    var n, x, y := a[i].enter.departureNode, a[i - 1].exit, b[j - 1].exit;
    var f :| IsInward(q, cs, n, k, x, f);
    var g :| IsInward(q, cs, n, k, y, g);
    OneInward(q, cs, n, k, x, f, y, g);
  }

  // A list cannot be a proper end of another one: it starts where nothing is sooner
  // than the walk, the other one goes on to a ride that is.
  lemma NoLonger(q: Query, cs: seq<Connection>, k: nat, a: seq<Leg>, b: seq<Leg>)
    requires Whole(LedTo(q, cs, k, a)) && Whole(LedTo(q, cs, k, b)) && a != [] && b != []
    requires Last(a).exit == Last(b).exit
    ensures |b| <= |a|
  {
    LegOf(q, cs, k, a, 0);
    if |a| < |b| {
      SameFromEnd(q, cs, k, a, b, |a| - 1);
      RidesIn(q, cs, k, b, |b| - |a|);
    }
  }

  lemma RidesIn(q: Query, cs: seq<Connection>, k: nat, legs: seq<Leg>, m: nat)
    requires Whole(LedTo(q, cs, k, legs)) && 0 < m < |legs|
    ensures !OnlyWalks(q, cs, legs[m].enter.departureNode, k)
  {
    LegOf(q, cs, k, legs, m);
    var n, x := legs[m].enter.departureNode, legs[m - 1].exit;
    var f :| IsInward(q, cs, n, k, x, f);
    assert Offers(q, cs, n, k, x, f);
  }

  lemma DeterminedOnce(q: Query, cs: seq<Connection>, j: nat, k: nat, n: nat, a: seq<Leg>, b: seq<Leg>)
    requires Determined(q, cs, j, n, a) && Determined(q, cs, k, n, b)
    ensures j == k && a == b
  {
    OneEnd(q, cs, j, k);
    OneReach(q, cs, n, k, Last(a).exit, Last(b).exit);
    NoLonger(q, cs, k, a, b);
    NoLonger(q, cs, k, b, a);
    forall i: nat | i < |a| ensures a[i] == b[i] {
      SameFromEnd(q, cs, k, a, b, |a| - 1 - i);
      assert FromEnd(a, |a| - 1 - i) == a[i] && FromEnd(b, |a| - 1 - i) == b[i];
    }
  }
}
