// Which exit each trip ends with in the reverse scan, and so which legs a route has.
module ReverseExits {
  import opened Network
  import R = ReverseScan
  import RX = ReverseExact
  import T = TwoPass
  import S = SecondPasses
  import J = Journeys

  // ---- Where the traveller goes on from a node --------------------------------

  // One of the first i connections of the scan, e, starts a chain and is a footpath
  // of length f from node n.
  ghost predicate Offers(q: Query, rcs: seq<Connection>, overlay: seq<TripQueryData>, n: nat, i: nat, e: Connection,
                         f: int) {
    RX.Starts(q, rcs, overlay, e) && Pos(rcs, e) < i && Footpath(q, n, e.departureNode, f)
  }

  // When the traveller must leave a node to walk f and board e.
  function Leave(q: Query, e: Connection, f: int): int {
    e.departureTime - f - q.Wait(e)
  }

  // When the traveller must leave a node to walk to the destination, -1 if that is no walk away.
  function WalkLeave(q: Query, n: nat): int {
    if n in q.NodesEgress() then q.arrivalTime - q.NodesEgress()[n] else -1
  }

  // Leaving later is better, and of equals what is scanned later.
  ghost predicate IsOnward(q: Query, rcs: seq<Connection>, overlay: seq<TripQueryData>, n: nat, i: nat, e: Connection,
                           f: int) {
    && Offers(q, rcs, overlay, n, i, e, f) && WalkLeave(q, n) <= Leave(q, e, f)
    && forall e2, f2 | Offers(q, rcs, overlay, n, i, e2, f2) :: NoBetter(q, rcs, e2, f2, e, f)
  }

  ghost predicate NoBetter(q: Query, rcs: seq<Connection>, e2: Connection, f2: int, e: Connection, f: int)
    requires e2 in rcs && e in rcs
  {
    || Leave(q, e2, f2) < Leave(q, e, f)
    || (Leave(q, e2, f2) == Leave(q, e, f) && Pos(rcs, e2) <= Pos(rcs, e))
  }

  ghost predicate OnlyWalks(q: Query, rcs: seq<Connection>, overlay: seq<TripQueryData>, n: nat, i: nat) {
    forall e, f | Offers(q, rcs, overlay, n, i, e, f) :: Leave(q, e, f) < WalkLeave(q, n)
  }

  // ---- The exit of a trip -----------------------------------------------------

  // After alighting from x, as it looks when x is scanned, the walk takes w.
  ghost predicate OnwardWalk(q: Query, rcs: seq<Connection>, overlay: seq<TripQueryData>, x: Connection, w: int)
    requires x in rcs
  {
    var n, i := x.arrivalNode, Pos(rcs, x);
    || (exists e :: IsOnward(q, rcs, overlay, n, i, e, w))
    || (OnlyWalks(q, rcs, overlay, n, i) && n in q.NodesEgress() && w == q.NodesEgress()[n])
  }

  // The first exit of the trip, in scan order, from which the destination is reached.
  ghost predicate IsFirstExit(q: Query, rcs: seq<Connection>, overlay: seq<TripQueryData>, x: Connection) {
    && RX.Lives(q, rcs, overlay, x)
    && forall y | RX.Lives(q, rcs, overlay, y) && y.trip == x.trip :: Pos(rcs, x) <= Pos(rcs, y)
  }

  // A later one is considered if its transfer leaves another minimum wait to spare.
  ghost predicate IsSpare(q: Query, rcs: seq<Connection>, overlay: seq<TripQueryData>, x: Connection) {
    && RX.Lives(q, rcs, overlay, x)
    && exists e, f :: SpareOnward(q, rcs, overlay, x, e, f)
  }

  ghost predicate SpareOnward(q: Query, rcs: seq<Connection>, overlay: seq<TripQueryData>, x: Connection,
                              e: Connection, f: int)
    requires x in rcs
  {
    && IsOnward(q, rcs, overlay, x.arrivalNode, Pos(rcs, x), e, f)
    && x.arrivalTime + q.Wait(e) + f + q.Wait(e) <= e.departureTime
  }

  ghost predicate Considered(q: Query, rcs: seq<Connection>, overlay: seq<TripQueryData>, t: nat, i: nat,
                             x: Connection, w: int) {
    && x in rcs && Pos(rcs, x) < i && x.trip == t && OnwardWalk(q, rcs, overlay, x, w)
    && (IsFirstExit(q, rcs, overlay, x) || IsSpare(q, rcs, overlay, x))
  }

  // Of the exits considered among the first i connections, the one with the shortest
  // walk after it, and of equals the one scanned first.
  ghost predicate IsExit(q: Query, rcs: seq<Connection>, overlay: seq<TripQueryData>, t: nat, i: nat, x: Connection,
                         w: int) {
    && Considered(q, rcs, overlay, t, i, x, w)
    && forall y, v | Considered(q, rcs, overlay, t, i, y, v) :: w < v || (w == v && Pos(rcs, x) <= Pos(rcs, y))
  }

  // ---- The state of the scan, read off the data ---------------------------------

  ghost predicate LabelIs(q: Query, rcs: seq<Connection>, overlay: seq<TripQueryData>, i: nat, st: R.ReverseState,
                          n: nat)
    requires R.Sized(q, st) && n < q.nodeCount
  {
    Whole(LabelFacts(q, rcs, overlay, i, st, n))
  }

  ghost predicate LabelFacts(q: Query, rcs: seq<Connection>, overlay: seq<TripQueryData>, i: nat, st: R.ReverseState,
                          n: nat)
    requires R.Sized(q, st) && n < q.nodeCount
  {
    match st.steps[n]
    case Ride(e, _, f) => IsOnward(q, rcs, overlay, n, i, e, f) && st.time[n] == Leave(q, e, f)
    case Walk(w) =>
      && OnlyWalks(q, rcs, overlay, n, i) && st.time[n] == WalkLeave(q, n)
      && w == if n in q.NodesEgress() then q.NodesEgress()[n] else -1
  }

  ghost predicate ExitIs(q: Query, rcs: seq<Connection>, overlay: seq<TripQueryData>, i: nat, st: R.ReverseState,
                         t: nat)
    requires R.Sized(q, st) && t < q.tripCount
  {
    Whole(ExitFacts(q, rcs, overlay, i, st, t))
  }

  ghost predicate ExitFacts(q: Query, rcs: seq<Connection>, overlay: seq<TripQueryData>, i: nat, st: R.ReverseState,
                         t: nat)
    requires R.Sized(q, st) && t < q.tripCount
  {
    var data := st.overlay[t];
    match data.exit
    case Some(x) => IsExit(q, rcs, overlay, t, i, x, data.exitTransferTime)
    case None => forall x | RX.Lives(q, rcs, overlay, x) && x.trip == t :: i <= Pos(rcs, x)
  }

  // The exit recorded with a boarding is the one its trip had when it was scanned.
  ghost predicate RideIs(q: Query, rcs: seq<Connection>, overlay: seq<TripQueryData>, s: JourneyStep) {
    s.Ride? ==> s.enter in rcs && HasExit(q, rcs, overlay, s.enter.trip, Pos(rcs, s.enter) + 1, s.exit)
  }

  ghost predicate HasExit(q: Query, rcs: seq<Connection>, overlay: seq<TripQueryData>, t: nat, i: nat, x: Connection) {
    var chosen := TripExit(q, rcs, overlay, t, i);
    chosen.Some? && chosen.value.exit == x
  }

  datatype Chosen = Chosen(exit: Connection, walk: int)

  // The exit of a trip after the first i connections, and the walk after it.
  ghost function TripExit(q: Query, rcs: seq<Connection>, overlay: seq<TripQueryData>, t: nat, i: nat):
      (c: Option<Chosen>)
    ensures c.Some? ==> Whole(IsExit(q, rcs, overlay, t, i, c.value.exit, c.value.walk))
  {
    if exists x, w :: IsExit(q, rcs, overlay, t, i, x, w)
    then var x, w :| IsExit(q, rcs, overlay, t, i, x, w); Some(Chosen(x, w))
    else None
  }

  lemma ExitBeats(q: Query, rcs: seq<Connection>, overlay: seq<TripQueryData>, t: nat, i: nat, x: Connection, w: int,
                  y: Connection, v: int)
    requires Whole(IsExit(q, rcs, overlay, t, i, x, w)) && Whole(IsExit(q, rcs, overlay, t, i, y, v))
    ensures x in rcs && y in rcs && (w < v || (w == v && Pos(rcs, x) <= Pos(rcs, y)))
  {
    assert Considered(q, rcs, overlay, t, i, y, v);
  }

  lemma OneExit(q: Query, rcs: seq<Connection>, overlay: seq<TripQueryData>, t: nat, i: nat, x: Connection, w: int,
                y: Connection, v: int)
    requires Whole(IsExit(q, rcs, overlay, t, i, x, w)) && Whole(IsExit(q, rcs, overlay, t, i, y, v))
    ensures x == y
  {
    ExitBeats(q, rcs, overlay, t, i, x, w, y, v);
    ExitBeats(q, rcs, overlay, t, i, y, v, x, w);
    assert rcs[Pos(rcs, x)] == x && rcs[Pos(rcs, y)] == y;
  }

  // There is no other one.
  lemma TripExitIs(q: Query, rcs: seq<Connection>, overlay: seq<TripQueryData>, t: nat, i: nat, x: Connection, w: int)
    requires Whole(IsExit(q, rcs, overlay, t, i, x, w))
    ensures HasExit(q, rcs, overlay, t, i, x)
  {
    assert TripExit(q, rcs, overlay, t, i).Some?;
    var c := TripExit(q, rcs, overlay, t, i).value;
    OneExit(q, rcs, overlay, t, i, x, w, c.exit, c.walk);
  }

  ghost predicate Tracks(q: Query, rcs: seq<Connection>, overlay: seq<TripQueryData>, i: nat, st: R.ReverseState) {
    && R.Sized(q, st)
    && (forall n: nat | n < q.nodeCount :: LabelIs(q, rcs, overlay, i, st, n))
    && (forall t: nat | t < q.tripCount :: ExitIs(q, rcs, overlay, i, st, t))
    && RidesAre(q, rcs, overlay, st)
  }

  lemma InitialTracks(q: Query, rcs: seq<Connection>, overlay: seq<TripQueryData>)
    requires R.ValidReverse(q, rcs) && |overlay| == q.tripCount && R.NoExits(overlay)
    ensures Tracks(q, rcs, overlay, 0, R.Initial(q, overlay))
  {
  }

  // ---- Relaxing the footpaths of one boarding ------------------------------------

  // Offers of what was scanned before c, and of c by the footpaths done so far.
  ghost predicate OffersSoFar(q: Query, rcs: seq<Connection>, overlay: seq<TripQueryData>, n: nat, i: nat,
                              c: Connection, done: seq<NodeTime>, e: Connection, f: int) {
    || Offers(q, rcs, overlay, n, i, e, f)
    || (e == c && NodeTime(n, f) in done && f <= q.maxTransferWalkingTime)
  }

  ghost predicate LabelSoFar(q: Query, rcs: seq<Connection>, overlay: seq<TripQueryData>, i: nat, c: Connection,
                             done: seq<NodeTime>, st: R.ReverseState, n: nat)
    requires R.Sized(q, st) && n < q.nodeCount && c in rcs
  {
    Whole(LabelSoFarFacts(q, rcs, overlay, i, c, done, st, n))
  }

  ghost predicate LabelSoFarFacts(q: Query, rcs: seq<Connection>, overlay: seq<TripQueryData>, i: nat, c: Connection,
                             done: seq<NodeTime>, st: R.ReverseState, n: nat)
    requires R.Sized(q, st) && n < q.nodeCount && c in rcs
  {
    match st.steps[n]
    case Ride(e, _, f) =>
      && OffersSoFar(q, rcs, overlay, n, i, c, done, e, f) && WalkLeave(q, n) <= Leave(q, e, f) == st.time[n]
      && forall e2, f2 | OffersSoFar(q, rcs, overlay, n, i, c, done, e2, f2) :: NoBetter(q, rcs, e2, f2, e, f)
    case Walk(w) =>
      && st.time[n] == WalkLeave(q, n) && w == (if n in q.NodesEgress() then q.NodesEgress()[n] else -1)
      && forall e2, f2 | OffersSoFar(q, rcs, overlay, n, i, c, done, e2, f2) :: Leave(q, e2, f2) < WalkLeave(q, n)
  }

  lemma RelaxOneSoFar(q: Query, rcs: seq<Connection>, overlay: seq<TripQueryData>, i: nat, c: Connection,
                      done: seq<NodeTime>, st: R.ReverseState, x: Connection, fp: NodeTime, n: nat)
    requires R.Sized(q, st) && n < q.nodeCount && c in rcs && i <= Pos(rcs, c) && 0 <= fp.time && fp.node < q.nodeCount
    requires LabelSoFar(q, rcs, overlay, i, c, done, st, n)
    ensures LabelSoFar(q, rcs, overlay, i, c, done + [fp], R.RelaxOne(q, st, c, x, fp), n)
  {
    var r := R.RelaxOne(q, st, c, x, fp);
    forall e2, f2
      ensures OffersSoFar(q, rcs, overlay, n, i, c, done + [fp], e2, f2) <==>
              || OffersSoFar(q, rcs, overlay, n, i, c, done, e2, f2)
              || (e2 == c && fp == NodeTime(n, f2) && f2 <= q.maxTransferWalkingTime)
    {
    }
  }

  lemma {:induction false} RelaxSoFar(q: Query, rcs: seq<Connection>, overlay: seq<TripQueryData>, i: nat,
                                      c: Connection, done: seq<NodeTime>, st: R.ReverseState, x: Connection,
                                      fps: seq<NodeTime>, n: nat)
    requires R.Sized(q, st) && n < q.nodeCount && c in rcs && i <= Pos(rcs, c)
    requires forall fp <- fps :: 0 <= fp.time && fp.node < q.nodeCount
    requires LabelSoFar(q, rcs, overlay, i, c, done, st, n)
    ensures LabelSoFar(q, rcs, overlay, i, c, done + fps, R.Relax(q, st, c, x, fps), n)
    decreases |fps|
  {
    if fps == [] {
      assert done + fps == done;
    } else {
      RelaxOneSoFar(q, rcs, overlay, i, c, done, st, x, fps[0], n);
      RelaxSoFar(q, rcs, overlay, i, c, done + [fps[0]], R.RelaxOne(q, st, c, x, fps[0]), x, fps[1..], n);
      assert done + [fps[0]] + fps[1..] == done + fps;
    }
  }

  lemma OffersNext(q: Query, rcs: seq<Connection>, overlay: seq<TripQueryData>, i: nat, n: nat, e: Connection, f: int)
    requires R.ValidReverse(q, rcs) && i < |rcs| && RX.Starts(q, rcs, overlay, rcs[i]) && n < q.nodeCount
    requires rcs[i].departureNode < q.nodeCount
    ensures Offers(q, rcs, overlay, n, i + 1, e, f) <==>
            OffersSoFar(q, rcs, overlay, n, i, rcs[i], q.reverseTransfers[rcs[i].departureNode], e, f)
  {
    R.PosAt(rcs, i);
    assert e in rcs && Pos(rcs, e) == i ==> e == rcs[i];
  }

  // A boarding that starts a chain brings the labels up to date.
  lemma BoardedLabel(q: Query, rcs: seq<Connection>, overlay: seq<TripQueryData>, i: nat, st: R.ReverseState,
                     x: Connection, n: nat)
    requires R.ValidReverse(q, rcs) && i < |rcs| && R.Sized(q, st) && R.Fits(q, rcs[i]) && n < q.nodeCount
    requires RX.Starts(q, rcs, overlay, rcs[i]) && LabelIs(q, rcs, overlay, i, st, n)
    ensures var fps := q.reverseTransfers[rcs[i].departureNode];
            LabelIs(q, rcs, overlay, i + 1, R.Relax(q, st, rcs[i], x, fps), n)
  {
    var c := rcs[i];
    R.PosAt(rcs, i);
    var fps := q.reverseTransfers[c.departureNode];
    NoneSoFar(q, rcs, overlay, i, c, st, n);
    RelaxSoFar(q, rcs, overlay, i, c, [], st, x, fps, n);
    assert [] + fps == fps;
    LabelDone(q, rcs, overlay, i, R.Relax(q, st, c, x, fps), n);
  }

  lemma NoneSoFar(q: Query, rcs: seq<Connection>, overlay: seq<TripQueryData>, i: nat, c: Connection,
                  st: R.ReverseState, n: nat)
    requires R.Sized(q, st) && n < q.nodeCount && c in rcs && LabelIs(q, rcs, overlay, i, st, n)
    ensures LabelSoFar(q, rcs, overlay, i, c, [], st, n)
  {
    forall e, f ensures OffersSoFar(q, rcs, overlay, n, i, c, [], e, f) <==> Offers(q, rcs, overlay, n, i, e, f) {}
  }

  lemma LabelDone(q: Query, rcs: seq<Connection>, overlay: seq<TripQueryData>, i: nat, r: R.ReverseState, n: nat)
    requires R.ValidReverse(q, rcs) && i < |rcs| && R.Sized(q, r) && n < q.nodeCount && R.Fits(q, rcs[i])
    requires RX.Starts(q, rcs, overlay, rcs[i])
    requires LabelSoFar(q, rcs, overlay, i, rcs[i], q.reverseTransfers[rcs[i].departureNode], r, n)
    ensures LabelIs(q, rcs, overlay, i + 1, r, n)
  {
    var c, next, fps := rcs[i], i + 1, q.reverseTransfers[rcs[i].departureNode];
    forall e, f
      ensures Offers(q, rcs, overlay, n, next, e, f) <==> OffersSoFar(q, rcs, overlay, n, i, c, fps, e, f)
    {
      OffersNext(q, rcs, overlay, i, n, e, f);
    }
  }

  // A connection that starts no chain offers nothing.
  lemma NoStartLabel(q: Query, rcs: seq<Connection>, overlay: seq<TripQueryData>, i: nat, st: R.ReverseState,
                     r: R.ReverseState, n: nat)
    requires R.ReverseSorted(rcs) && i < |rcs| && R.Sized(q, st) && R.Sized(q, r) && n < q.nodeCount
    requires !RX.Starts(q, rcs, overlay, rcs[i]) && LabelIs(q, rcs, overlay, i, st, n)
    requires r.time[n] == st.time[n] && r.steps[n] == st.steps[n]
    ensures LabelIs(q, rcs, overlay, i + 1, r, n)
  {
    R.PosAt(rcs, i);
    forall e, f ensures Offers(q, rcs, overlay, n, i + 1, e, f) <==> Offers(q, rcs, overlay, n, i, e, f) {
      assert e in rcs && Pos(rcs, e) == i ==> e == rcs[i];
    }
  }

  // ---- Choosing the exit ----------------------------------------------------------

  // What the label of the exit's node says when it is scanned.
  lemma WalkAhead(q: Query, rcs: seq<Connection>, overlay: seq<TripQueryData>, i: nat, st: R.ReverseState)
    requires R.ValidReverse(q, rcs) && i < |rcs| && R.Sized(q, st) && R.Fits(q, rcs[i])
    requires LabelIs(q, rcs, overlay, i, st, rcs[i].arrivalNode)
    requires 0 <= rcs[i].arrivalTime <= st.time[rcs[i].arrivalNode]
    ensures OnwardWalk(q, rcs, overlay, rcs[i], st.steps[rcs[i].arrivalNode].transferTime)
  {
    R.PosAt(rcs, i);
    var n := rcs[i].arrivalNode;
    if st.steps[n].Ride? {
      assert IsOnward(q, rcs, overlay, n, i, st.steps[n].enter, st.steps[n].transferTime);
    }
  }

  // There is only one walk ahead.
  lemma OneWalkAhead(q: Query, rcs: seq<Connection>, overlay: seq<TripQueryData>, x: Connection, w: int, v: int)
    requires x in rcs && OnwardWalk(q, rcs, overlay, x, w) && OnwardWalk(q, rcs, overlay, x, v)
    ensures w == v
  {
    var n, i := x.arrivalNode, Pos(rcs, x);
    if e, d :| IsOnward(q, rcs, overlay, n, i, e, w) && IsOnward(q, rcs, overlay, n, i, d, v) {
      OneOnward(q, rcs, overlay, n, i, e, w, d, v);
    }
  }

  lemma OneOnward(q: Query, rcs: seq<Connection>, overlay: seq<TripQueryData>, n: nat, i: nat, e: Connection, w: int,
                  d: Connection, v: int)
    requires IsOnward(q, rcs, overlay, n, i, e, w) && IsOnward(q, rcs, overlay, n, i, d, v)
    ensures e == d && w == v
  {
    assert NoBetter(q, rcs, e, w, d, v) && NoBetter(q, rcs, d, v, e, w);
    assert rcs[Pos(rcs, e)] == e && rcs[Pos(rcs, d)] == d;
  }

  // The re-selection test of the original.
  lemma SpareTest(q: Query, rcs: seq<Connection>, overlay: seq<TripQueryData>, i: nat, st: R.ReverseState)
    requires R.ValidReverse(q, rcs) && i < |rcs| && R.Sized(q, st) && R.Fits(q, rcs[i])
    requires LabelIs(q, rcs, overlay, i, st, rcs[i].arrivalNode) && RX.Lives(q, rcs, overlay, rcs[i])
    ensures var s := st.steps[rcs[i].arrivalNode];
            IsSpare(q, rcs, overlay, rcs[i]) <==>
            s.Ride? && rcs[i].arrivalTime + q.Wait(s.enter) <= st.time[rcs[i].arrivalNode]
  {
    R.PosAt(rcs, i);
    var c, n := rcs[i], rcs[i].arrivalNode;
    var s := st.steps[n];
    if s.Ride? && c.arrivalTime + q.Wait(s.enter) <= st.time[n] {
      assert SpareOnward(q, rcs, overlay, c, s.enter, s.transferTime);
    }
    if e, f :| SpareOnward(q, rcs, overlay, c, e, f) {
      assert Offers(q, rcs, overlay, n, i, e, f);
      if s.Ride? {
        assert NoBetter(q, rcs, e, f, s.enter, s.transferTime) && NoBetter(q, rcs, s.enter, s.transferTime, e, f);
        assert rcs[Pos(rcs, e)] == e && rcs[Pos(rcs, s.enter)] == s.enter;
      }
    }
  }

  // A trip none of whose connections was at position i keeps its exit.
  lemma OtherTrip(q: Query, rcs: seq<Connection>, overlay: seq<TripQueryData>, i: nat, st: R.ReverseState,
                  r: R.ReverseState, t: nat)
    requires R.ReverseSorted(rcs) && i < |rcs| && R.Sized(q, st) && R.Sized(q, r) && t < q.tripCount
    requires ExitIs(q, rcs, overlay, i, st, t) && r.overlay[t] == st.overlay[t]
    requires rcs[i].trip == t ==> st.overlay[t].exit.Some? || !RX.Lives(q, rcs, overlay, rcs[i])
    requires rcs[i].trip == t && st.overlay[t].exit.Some? ==>
               forall w | OnwardWalk(q, rcs, overlay, rcs[i], w) && IsSpare(q, rcs, overlay, rcs[i]) ::
                 st.overlay[t].exitTransferTime <= w
    ensures ExitIs(q, rcs, overlay, i + 1, r, t)
  {
    var c, next := rcs[i], i + 1;
    R.PosAt(rcs, i);
    if st.overlay[t].exit.Some? {
      var x, w := st.overlay[t].exit.value, st.overlay[t].exitTransferTime;
      forall y, v | Considered(q, rcs, overlay, t, next, y, v)
        ensures w < v || (w == v && Pos(rcs, x) <= Pos(rcs, y))
      {
        if Pos(rcs, y) == i {
          assert y == c;
          LaterIsNotFirst(q, rcs, overlay, t, i, x, w, c);
        } else {
          assert Considered(q, rcs, overlay, t, i, y, v);
        }
      }
      assert Considered(q, rcs, overlay, t, next, x, w);
    } else {
      forall x | RX.Lives(q, rcs, overlay, x) && x.trip == t ensures next <= Pos(rcs, x) {
        assert Pos(rcs, x) == i ==> x == c;
      }
    }
  }

  // Once a trip has an exit, the next one scanned is not its first.
  lemma LaterIsNotFirst(q: Query, rcs: seq<Connection>, overlay: seq<TripQueryData>, t: nat, i: nat, x: Connection,
                        w: int, c: Connection)
    requires Considered(q, rcs, overlay, t, i, x, w) && c in rcs && i <= Pos(rcs, c) && c.trip == t
    ensures !IsFirstExit(q, rcs, overlay, c)
  {
  }

  // The connection at position i becomes the exit of its trip.
  lemma ExitTaken(q: Query, rcs: seq<Connection>, overlay: seq<TripQueryData>, i: nat, st: R.ReverseState,
                  r: R.ReverseState, w: int)
    requires R.ReverseSorted(rcs) && i < |rcs| && R.Sized(q, st) && R.Sized(q, r) && rcs[i].trip < q.tripCount
    requires ExitIs(q, rcs, overlay, i, st, rcs[i].trip)
    requires RX.Lives(q, rcs, overlay, rcs[i]) && OnwardWalk(q, rcs, overlay, rcs[i], w)
    requires st.overlay[rcs[i].trip].exit.Some? ==>
               IsSpare(q, rcs, overlay, rcs[i]) && w < st.overlay[rcs[i].trip].exitTransferTime
    requires r.overlay[rcs[i].trip].exit == Some(rcs[i]) && r.overlay[rcs[i].trip].exitTransferTime == w
    ensures ExitIs(q, rcs, overlay, i + 1, r, rcs[i].trip)
  {
    var c, t, next := rcs[i], rcs[i].trip, i + 1;
    R.PosAt(rcs, i);
    assert Considered(q, rcs, overlay, t, next, c, w);
    forall y, v | Considered(q, rcs, overlay, t, next, y, v)
      ensures w < v || (w == v && Pos(rcs, c) <= Pos(rcs, y))
    {
      if Pos(rcs, y) == i {
        assert y == c;
        OneWalkAhead(q, rcs, overlay, c, w, v);
      } else {
        assert Considered(q, rcs, overlay, t, i, y, v);
      }
    }
  }

  // ---- One iteration ----------------------------------------------------------------

  // The scan's invariants, over the same usable trips.
  ghost predicate Ready(q: Query, rcs: seq<Connection>, overlay: seq<TripQueryData>, i: nat, st: R.ReverseState)
    requires forall c <- rcs :: R.Fits(q, c)
  {
    Whole(ReadyFacts(q, rcs, overlay, i, st))
  }

  ghost predicate ReadyFacts(q: Query, rcs: seq<Connection>, overlay: seq<TripQueryData>, i: nat, st: R.ReverseState)
    requires forall c <- rcs :: R.Fits(q, c)
  {
    && R.Sound(q, rcs, i, st) && RX.Complete(q, rcs, i, st) && RX.Backed(q, rcs, st)
    && RX.SameUsable(overlay, st.overlay)
  }

  // What exit the connection at position i leaves its trip with.
  lemma ChosenExit(q: Query, rcs: seq<Connection>, overlay: seq<TripQueryData>, i: nat, st: R.ReverseState,
                   single: bool)
    requires R.ValidReverse(q, rcs) && i < |rcs| && Ready(q, rcs, overlay, i, st) && R.Fits(q, rcs[i])
    requires LabelIs(q, rcs, overlay, i, st, rcs[i].arrivalNode) && ExitIs(q, rcs, overlay, i, st, rcs[i].trip)
    requires R.Scanned(q, st, rcs[i], single) && R.Reachable(q, st, rcs[i])
    ensures ExitIs(q, rcs, overlay, i + 1, R.ExitChosen(q, st, rcs[i]), rcs[i].trip)
  {
    var c, r := rcs[i], R.ExitChosen(q, st, rcs[i]);
    var s := st.steps[c.arrivalNode];
    R.PosAt(rcs, i);
    RX.WaitNonNegative(q, rcs, c);
    RX.LivesAlike(q, rcs, overlay, st.overlay, c);
    assert R.StepOk(q, rcs, i, st, c.arrivalNode);
    if s.Ride? {
      RX.WaitNonNegative(q, rcs, s.enter);
      FootpathTime(q, c.arrivalNode, s.enter.departureNode, s.transferTime);
    }
    if c.canUnboard && R.TakesExit(q, st, c) {
      RX.LabelLives(q, rcs, i, st, c);
      WalkAhead(q, rcs, overlay, i, st);
      SpareTest(q, rcs, overlay, i, st);
      ExitTaken(q, rcs, overlay, i, st, r, s.transferTime);
    } else {
      NotTaken(q, rcs, overlay, i, st);
      OtherTrip(q, rcs, overlay, i, st, r, c.trip);
    }
  }

  lemma FootpathTime(q: Query, n: nat, m: nat, f: int)
    requires ValidTransfers(q) && n < q.nodeCount && Footpath(q, n, m, f)
    ensures 0 <= f && m < q.nodeCount
  {
    assert 0 <= NodeTime(m, f).time && NodeTime(m, f).node < q.nodeCount;
  }

  // Not taken: it cannot be left at, or the trip has an exit with a walk no longer.
  lemma NotTaken(q: Query, rcs: seq<Connection>, overlay: seq<TripQueryData>, i: nat, st: R.ReverseState)
    requires R.ValidReverse(q, rcs) && i < |rcs| && Ready(q, rcs, overlay, i, st) && R.Fits(q, rcs[i])
    requires LabelIs(q, rcs, overlay, i, st, rcs[i].arrivalNode)
    requires !(rcs[i].canUnboard && R.TakesExit(q, st, rcs[i]))
    ensures st.overlay[rcs[i].trip].exit.Some? || !RX.Lives(q, rcs, overlay, rcs[i])
    ensures forall w | OnwardWalk(q, rcs, overlay, rcs[i], w) && IsSpare(q, rcs, overlay, rcs[i]) ::
              st.overlay[rcs[i].trip].exitTransferTime <= w
  {
    var c := rcs[i];
    var s := st.steps[c.arrivalNode];
    if RX.Lives(q, rcs, overlay, c) && IsSpare(q, rcs, overlay, c) {
      RX.WaitNonNegative(q, rcs, c);
      SpareTest(q, rcs, overlay, i, st);
      assert R.StepOk(q, rcs, i, st, c.arrivalNode);
      RX.WaitNonNegative(q, rcs, s.enter);
      FootpathTime(q, c.arrivalNode, s.enter.departureNode, s.transferTime);
      WalkAhead(q, rcs, overlay, i, st);
      forall w | OnwardWalk(q, rcs, overlay, c, w) ensures st.overlay[c.trip].exitTransferTime <= w {
        OneWalkAhead(q, rcs, overlay, c, w, s.transferTime);
      }
    }
  }

  // A connection that is not reachable leaves its trip as it was.
  lemma UnreachableExit(q: Query, rcs: seq<Connection>, overlay: seq<TripQueryData>, i: nat, st: R.ReverseState,
                        single: bool)
    requires R.ValidReverse(q, rcs) && i < |rcs| && Ready(q, rcs, overlay, i, st) && R.Fits(q, rcs[i])
    requires ExitIs(q, rcs, overlay, i, st, rcs[i].trip)
    requires !(R.Scanned(q, st, rcs[i], single) && R.Reachable(q, st, rcs[i]))
    ensures ExitIs(q, rcs, overlay, i + 1, st, rcs[i].trip)
  {
    RX.LivesAlike(q, rcs, overlay, st.overlay, rcs[i]);
    if RX.Lives(q, rcs, overlay, rcs[i]) { RX.LiveExitNoted(q, rcs, i, st, single); }
    OtherTrip(q, rcs, overlay, i, st, st, rcs[i].trip);
  }

  // The boarding happens: it is scanned and its trip has an exit.
  ghost predicate IsBoarding(q: Query, st: R.ReverseState, c: Connection, single: bool)
    requires R.Sized(q, st) && R.Fits(q, c)
  {
    && R.Scanned(q, st, c, single) && R.Reachable(q, st, c) && c.canBoard
    && R.ExitChosen(q, st, c).overlay[c.trip].exit.Some?
  }

  // That is when it starts a chain.
  lemma BoardsIffStarts(q: Query, rcs: seq<Connection>, overlay: seq<TripQueryData>, i: nat, st: R.ReverseState,
                        single: bool)
    requires R.ValidReverse(q, rcs) && i < |rcs| && Ready(q, rcs, overlay, i, st) && R.Fits(q, rcs[i])
    ensures IsBoarding(q, st, rcs[i], single) <==> RX.Starts(q, rcs, overlay, rcs[i])
  {
    var c := rcs[i];
    RX.StartsAlike(q, rcs, overlay, st.overlay, c);
    if IsBoarding(q, st, c, single) {
      RX.BoardingStarts(q, rcs, i, st, single);
      RX.ExitChosenBacked(q, rcs, i, st, single);
      RX.StartsAlike(q, rcs, st.overlay, R.ExitChosen(q, st, c).overlay, c);
    }
    if RX.Starts(q, rcs, overlay, c) { StartBoards(q, rcs, overlay, i, st, single); }
  }

  lemma StartBoards(q: Query, rcs: seq<Connection>, overlay: seq<TripQueryData>, i: nat, st: R.ReverseState,
                    single: bool)
    requires R.ValidReverse(q, rcs) && i < |rcs| && RX.Complete(q, rcs, i, st) && R.Fits(q, rcs[i])
    requires RX.Starts(q, rcs, st.overlay, rcs[i])
    ensures IsBoarding(q, st, rcs[i], single)
  {
    var c := rcs[i];
    R.PosAt(rcs, i);
    var legs: seq<Leg> :| RX.StartsWith(q, rcs, st.overlay, c, legs);
    RX.StartRides(q, rcs, st.overlay, legs);
    RX.ReachingInTime(q, rcs, legs);
    var x := legs[0].exit;
    RX.RideTime(q, rcs, c, x);
    if x == c { RX.LiveExitNoted(q, rcs, i, st, single); } else { RX.ExitBefore(q, rcs, i, st, x); }
  }

  // Whatever boarding the rides recorded came from, the exit is the one noted.
  ghost predicate RidesAre(q: Query, rcs: seq<Connection>, overlay: seq<TripQueryData>, st: R.ReverseState)
    requires R.Sized(q, st)
  {
    && (forall n: nat | n < q.nodeCount :: RideIs(q, rcs, overlay, st.steps[n]))
    && (forall n | n in st.accessSteps :: RideIs(q, rcs, overlay, st.accessSteps[n]))
  }

  lemma {:induction false} RelaxRides(q: Query, rcs: seq<Connection>, overlay: seq<TripQueryData>, st: R.ReverseState,
                                      c: Connection, x: Connection, fps: seq<NodeTime>)
    requires R.Sized(q, st) && Whole(RidesAre(q, rcs, overlay, st)) && RideIs(q, rcs, overlay, Ride(c, x, 0))
    requires forall fp <- fps :: fp.node < q.nodeCount
    ensures Whole(RidesAre(q, rcs, overlay, R.Relax(q, st, c, x, fps)))
    decreases |fps|
  {
    if fps != [] {
      RelaxOneRides(q, rcs, overlay, st, c, x, fps[0]);
      RelaxRides(q, rcs, overlay, R.RelaxOne(q, st, c, x, fps[0]), c, x, fps[1..]);
    }
  }

  lemma RelaxOneRides(q: Query, rcs: seq<Connection>, overlay: seq<TripQueryData>, st: R.ReverseState, c: Connection,
                      x: Connection, fp: NodeTime)
    requires R.Sized(q, st) && Whole(RidesAre(q, rcs, overlay, st)) && RideIs(q, rcs, overlay, Ride(c, x, 0))
    requires fp.node < q.nodeCount
    ensures Whole(RidesAre(q, rcs, overlay, R.RelaxOne(q, st, c, x, fp)))
  {
    RelaxOneOrigin(q, st, c, x, fp);
    assert RideIs(q, rcs, overlay, Ride(c, x, fp.time));
  }

  // Every step held afterwards is held before or is this boarding.
  lemma RelaxOneOrigin(q: Query, st: R.ReverseState, c: Connection, x: Connection, fp: NodeTime)
    requires R.Sized(q, st) && fp.node < q.nodeCount
    ensures var r := R.RelaxOne(q, st, c, x, fp);
            && R.Sized(q, r)
            && (forall n: nat | n < q.nodeCount :: r.steps[n] == st.steps[n] || r.steps[n] == Ride(c, x, fp.time))
            && (forall n | n in r.accessSteps ::
                  r.accessSteps[n] == Ride(c, x, 0) || (n in st.accessSteps && r.accessSteps[n] == st.accessSteps[n]))
  {
  }

  lemma ProcessLabels(q: Query, rcs: seq<Connection>, overlay: seq<TripQueryData>, i: nat, st: R.ReverseState, n: nat,
                      single: bool)
    requires R.ValidReverse(q, rcs) && i < |rcs| && Ready(q, rcs, overlay, i, st) && R.Fits(q, rcs[i])
    requires n < q.nodeCount && LabelIs(q, rcs, overlay, i, st, n)
    ensures LabelIs(q, rcs, overlay, i + 1, R.Process(q, st, rcs[i], single), n)
  {
    var c, r := rcs[i], R.Process(q, st, rcs[i], single);
    BoardsIffStarts(q, rcs, overlay, i, st, single);
    if IsBoarding(q, st, c, single) {
      var st1 := R.NoteAccess(q, R.ExitChosen(q, st, c), c);
      var x := R.ExitChosen(q, st, c).overlay[c.trip].exit.value;
      BoardedLabel(q, rcs, overlay, i, st1, x, n);
      SameLabel(q, rcs, overlay, i + 1, R.Relax(q, st1, c, x, q.reverseTransfers[c.departureNode]), r, n);
    } else {
      NoStartLabel(q, rcs, overlay, i, st, r, n);
    }
  }

  lemma SameLabel(q: Query, rcs: seq<Connection>, overlay: seq<TripQueryData>, i: nat, st: R.ReverseState,
                  r: R.ReverseState, n: nat)
    requires R.Sized(q, st) && R.Sized(q, r) && n < q.nodeCount && LabelIs(q, rcs, overlay, i, st, n)
    requires r.time == st.time && r.steps == st.steps
    ensures LabelIs(q, rcs, overlay, i, r, n)
  {
  }

  lemma ProcessOverlay(q: Query, st: R.ReverseState, c: Connection, single: bool)
    requires ValidQuery(q) && R.Sized(q, st) && R.Fits(q, c) && 0 <= q.Wait(c)
    ensures R.Process(q, st, c, single).overlay ==
            if R.Scanned(q, st, c, single) && R.Reachable(q, st, c) then R.ExitChosen(q, st, c).overlay else st.overlay
  {
    if R.Scanned(q, st, c, single) && R.Reachable(q, st, c) { RX.BoardedEffect(q, R.ExitChosen(q, st, c), c); }
  }

  lemma ProcessExits(q: Query, rcs: seq<Connection>, overlay: seq<TripQueryData>, i: nat, st: R.ReverseState, t: nat,
                     single: bool)
    requires R.ValidReverse(q, rcs) && i < |rcs| && Ready(q, rcs, overlay, i, st) && R.Fits(q, rcs[i])
    requires t < q.tripCount && LabelIs(q, rcs, overlay, i, st, rcs[i].arrivalNode)
    requires ExitIs(q, rcs, overlay, i, st, t)
    ensures ExitIs(q, rcs, overlay, i + 1, R.Process(q, st, rcs[i], single), t)
  {
    var c, r := rcs[i], R.Process(q, st, rcs[i], single);
    RX.WaitNonNegative(q, rcs, c);
    ProcessOverlay(q, st, c, single);
    if t != c.trip {
      OtherTrip(q, rcs, overlay, i, st, r, t);
    } else if R.Scanned(q, st, c, single) && R.Reachable(q, st, c) {
      ChosenExit(q, rcs, overlay, i, st, single);
      SameExit(q, rcs, overlay, i + 1, R.ExitChosen(q, st, c), r, t);
    } else {
      UnreachableExit(q, rcs, overlay, i, st, single);
    }
  }

  lemma SameExit(q: Query, rcs: seq<Connection>, overlay: seq<TripQueryData>, i: nat, st: R.ReverseState,
                 r: R.ReverseState, t: nat)
    requires R.Sized(q, st) && R.Sized(q, r) && t < q.tripCount && ExitIs(q, rcs, overlay, i, st, t)
    requires r.overlay[t] == st.overlay[t]
    ensures ExitIs(q, rcs, overlay, i, r, t)
  {
  }

  lemma BoardedRides(q: Query, rcs: seq<Connection>, overlay: seq<TripQueryData>, st: R.ReverseState, c: Connection)
    requires R.Sized(q, st) && R.Fits(q, c) && Whole(RidesAre(q, rcs, overlay, st))
    requires c.canBoard && st.overlay[c.trip].exit.Some? ==>
               RideIs(q, rcs, overlay, Ride(c, st.overlay[c.trip].exit.value, 0))
    ensures Whole(RidesAre(q, rcs, overlay, R.Boarded(q, st, c)))
  {
    if c.canBoard && st.overlay[c.trip].exit.Some? {
      var st1 := R.NoteAccess(q, st, c);
      SameRides(q, rcs, overlay, st, st1);
      RelaxRides(q, rcs, overlay, st1, c, st.overlay[c.trip].exit.value, q.reverseTransfers[c.departureNode]);
    }
  }

  lemma ProcessRides(q: Query, rcs: seq<Connection>, overlay: seq<TripQueryData>, i: nat, st: R.ReverseState,
                     single: bool)
    requires R.ValidReverse(q, rcs) && i < |rcs| && R.Sized(q, st) && R.Fits(q, rcs[i])
    requires Whole(RidesAre(q, rcs, overlay, st))
    requires ExitIs(q, rcs, overlay, i + 1, R.Process(q, st, rcs[i], single), rcs[i].trip)
    ensures Whole(RidesAre(q, rcs, overlay, R.Process(q, st, rcs[i], single)))
  {
    var c := rcs[i];
    RX.WaitNonNegative(q, rcs, c);
    ProcessOverlay(q, st, c, single);
    if R.Scanned(q, st, c, single) && R.Reachable(q, st, c) {
      var st1 := R.ExitChosen(q, st, c);
      if c.canBoard && st1.overlay[c.trip].exit.Some? {
        NotedRide(q, rcs, overlay, i, R.Process(q, st, c, single), st1.overlay[c.trip].exit.value);
      }
      SameRides(q, rcs, overlay, st, st1);
      BoardedRides(q, rcs, overlay, st1, c);
      SameRides(q, rcs, overlay, R.Boarded(q, st1, c), R.Process(q, st, c, single));
    }
  }

  lemma NotedRide(q: Query, rcs: seq<Connection>, overlay: seq<TripQueryData>, i: nat, r: R.ReverseState,
                  x: Connection)
    requires R.ReverseSorted(rcs) && i < |rcs| && R.Sized(q, r) && rcs[i].trip < q.tripCount
    requires ExitIs(q, rcs, overlay, i + 1, r, rcs[i].trip) && r.overlay[rcs[i].trip].exit == Some(x)
    ensures RideIs(q, rcs, overlay, Ride(rcs[i], x, 0))
  {
    R.PosAt(rcs, i);
    TripExitIs(q, rcs, overlay, rcs[i].trip, i + 1, x, r.overlay[rcs[i].trip].exitTransferTime);
  }

  lemma SameRides(q: Query, rcs: seq<Connection>, overlay: seq<TripQueryData>, st: R.ReverseState, r: R.ReverseState)
    requires R.Sized(q, st) && R.Sized(q, r) && Whole(RidesAre(q, rcs, overlay, st))
    requires r.steps == st.steps && r.accessSteps == st.accessSteps
    ensures Whole(RidesAre(q, rcs, overlay, r))
  {
  }

  lemma ProcessTracks(q: Query, rcs: seq<Connection>, overlay: seq<TripQueryData>, i: nat, st: R.ReverseState,
                      single: bool)
    requires R.ValidReverse(q, rcs) && i < |rcs| && Ready(q, rcs, overlay, i, st) && R.Fits(q, rcs[i])
    requires Tracks(q, rcs, overlay, i, st)
    ensures Tracks(q, rcs, overlay, i + 1, R.Process(q, st, rcs[i], single))
  {
    var r, next := R.Process(q, st, rcs[i], single), i + 1;
    forall n: nat | n < q.nodeCount ensures LabelIs(q, rcs, overlay, next, r, n) {
      ProcessLabels(q, rcs, overlay, i, st, n, single);
    }
    forall t: nat | t < q.tripCount ensures ExitIs(q, rcs, overlay, next, r, t) {
      ProcessExits(q, rcs, overlay, i, st, t, single);
    }
    ProcessRides(q, rcs, overlay, i, st, single);
  }

  // ---- The whole scan -----------------------------------------------------------------

  // The scan looks no further than position j: what arrives there is too early, or
  // hidden by the first boarding at an access node.
  ghost predicate Breaks(q: Query, rcs: seq<Connection>, overlay: seq<TripQueryData>, j: nat, single: bool)
    requires j < |rcs|
  {
    var c := rcs[j];
    && c.arrivalTime <= q.arrivalTime - (if single then MinTime(q.egressFootpaths) else 0)
    && c.trip !in q.disabledTrips && c.trip < |overlay| && overlay[c.trip].usable
    && (q.arrivalTime - c.arrivalTime > q.maxTotalTravelTime || (single && S.Hidden(q, rcs, overlay, c)))
  }

  ghost predicate EndsAt(q: Query, rcs: seq<Connection>, overlay: seq<TripQueryData>, k: nat, single: bool) {
    && k <= |rcs| && (forall j: nat | j < k :: !Breaks(q, rcs, overlay, j, single))
    && (k < |rcs| ==> Breaks(q, rcs, overlay, k, single))
  }

  lemma StopsIffBreaks(q: Query, rcs: seq<Connection>, overlay: seq<TripQueryData>, i: nat, st: R.ReverseState,
                       single: bool)
    requires R.ValidReverse(q, rcs) && i < |rcs| && R.Sized(q, st) && R.Fits(q, rcs[i])
    requires RX.SameUsable(overlay, st.overlay) && (single ==> S.FirstKnown(q, rcs, overlay, i, st))
    ensures R.Stops(q, st, rcs[i], single) <==> Breaks(q, rcs, overlay, i, single)
  {
    if single {
      if st.reachedAccess { NotedHides(q, rcs, overlay, st, rcs[i]); } else { NothingHides(q, rcs, overlay, i, st); }
    }
  }

  lemma NotedHides(q: Query, rcs: seq<Connection>, overlay: seq<TripQueryData>, st: R.ReverseState, c: Connection)
    requires ValidQuery(q) && st.reachedAccess && exists d :: S.NotedFirst(q, rcs, overlay, st, d)
    ensures 0 <= MaxTime(q.accessFootpaths)
    ensures S.Hidden(q, rcs, overlay, c) <==>
            c.arrivalTime < st.tentativeAccessDeparture - MaxTime(q.accessFootpaths)
  {
    var d :| S.NotedFirst(q, rcs, overlay, st, d);
    T.AccessWalk(q, d.departureNode);
    forall e | S.IsFirst(q, rcs, overlay, e) ensures e == d {
      assert rcs[Pos(rcs, e)] == e && rcs[Pos(rcs, d)] == d;
    }
  }

  lemma NothingHides(q: Query, rcs: seq<Connection>, overlay: seq<TripQueryData>, i: nat, st: R.ReverseState)
    requires R.ValidReverse(q, rcs) && i < |rcs| && !st.reachedAccess && S.FirstKnown(q, rcs, overlay, i, st)
    ensures !S.Hidden(q, rcs, overlay, rcs[i])
  {
    forall e | S.IsFirst(q, rcs, overlay, e)
      ensures rcs[i].arrivalTime >= e.departureTime - MaxTime(q.accessFootpaths)
    {
      R.SortedAt(rcs, i, e);
      RX.WaitNonNegative(q, rcs, e);
      T.AccessWalk(q, e.departureNode);
    }
  }

  // The scan's invariants, and, where one start ends it early, what is known of that.
  ghost predicate Knows(q: Query, rcs: seq<Connection>, overlay: seq<TripQueryData>, i: nat, st: R.ReverseState,
                        single: bool)
    requires forall c <- rcs :: R.Fits(q, c)
  {
    && RX.Invariant(q, rcs, i, st, single) && RX.SameUsable(overlay, st.overlay)
    && (single ==> S.FirstKnown(q, rcs, overlay, i, st))
  }

  lemma KnowsNext(q: Query, rcs: seq<Connection>, overlay: seq<TripQueryData>, i: nat, st: R.ReverseState, single: bool)
    requires R.ValidReverse(q, rcs) && i < |rcs| && Knows(q, rcs, overlay, i, st, single)
    requires R.Fits(q, rcs[i]) && !R.Stops(q, st, rcs[i], single)
    ensures Knows(q, rcs, overlay, i + 1, R.Process(q, st, rcs[i], single), single)
  {
    RX.ProcessKeeps(q, rcs, i, st, single);
    if single { S.ProcessKnows(q, rcs, overlay, i, st); }
  }

  ghost predicate Follows(q: Query, rcs: seq<Connection>, overlay: seq<TripQueryData>, i: nat, st: R.ReverseState,
                          single: bool)
    requires forall c <- rcs :: R.Fits(q, c)
  {
    && Knows(q, rcs, overlay, i, st, single) && Tracks(q, rcs, overlay, i, st)
    && i <= |rcs| && forall j: nat | j < i :: !Breaks(q, rcs, overlay, j, single)
  }

  lemma FollowsNext(q: Query, rcs: seq<Connection>, overlay: seq<TripQueryData>, i: nat, st: R.ReverseState,
                    single: bool)
    requires R.ValidReverse(q, rcs) && i < |rcs| && R.Sized(q, st) && Whole(Follows(q, rcs, overlay, i, st, single))
    requires R.Fits(q, rcs[i]) && !R.Stops(q, st, rcs[i], single)
    ensures Whole(Follows(q, rcs, overlay, i + 1, R.Process(q, st, rcs[i], single), single))
  {
    StopsIffBreaks(q, rcs, overlay, i, st, single);
    KnowsNext(q, rcs, overlay, i, st, single);
    ProcessTracks(q, rcs, overlay, i, st, single);
  }

  lemma FollowsEnds(q: Query, rcs: seq<Connection>, overlay: seq<TripQueryData>, i: nat, st: R.ReverseState,
                    single: bool)
    requires R.ValidReverse(q, rcs) && i <= |rcs| && R.Sized(q, st) && Whole(Follows(q, rcs, overlay, i, st, single))
    requires i < |rcs| ==> R.Fits(q, rcs[i]) && R.Stops(q, st, rcs[i], single)
    ensures EndsAt(q, rcs, overlay, i, single) && Tracks(q, rcs, overlay, i, st)
  {
    if i < |rcs| { StopsIffBreaks(q, rcs, overlay, i, st, single); }
  }

  lemma {:induction false} ScanTracks(q: Query, rcs: seq<Connection>, overlay: seq<TripQueryData>, i: nat,
                                      st: R.ReverseState, single: bool)
    returns (k: nat)
    requires R.ValidReverse(q, rcs) && i <= |rcs| && R.Sized(q, st) && Whole(Follows(q, rcs, overlay, i, st, single))
    ensures Whole(EndsAt(q, rcs, overlay, k, single))
        && Whole(Tracks(q, rcs, overlay, k, R.Scan(q, rcs, i, st, single)))
    decreases |rcs| - i
  {
    if i == |rcs| || R.Stops(q, st, rcs[i], single) {
      k := i;
      if i < |rcs| { assert rcs[i] in rcs; }
      FollowsEnds(q, rcs, overlay, i, st, single);
    } else {
      assert rcs[i] in rcs;
      FollowsNext(q, rcs, overlay, i, st, single);
      k := ScanTracks(q, rcs, overlay, i + 1, R.Process(q, st, rcs[i], single), single);
    }
  }

  function End(q: Query, rcs: seq<Connection>, overlay: seq<TripQueryData>, single: bool): R.ReverseState
    requires |overlay| == q.tripCount && forall c <- rcs :: R.Fits(q, c)
  {
    R.Scan(q, rcs, 0, R.Initial(q, overlay), single)
  }

  // On every network: what every label, step, exit and recorded ride is where the
  // scan ends, read off the data.
  lemma EndIsTracked(q: Query, rcs: seq<Connection>, overlay: seq<TripQueryData>, single: bool) returns (k: nat)
    requires R.ValidReverse(q, rcs) && |overlay| == q.tripCount && R.NoExits(overlay)
    ensures Whole(EndsAt(q, rcs, overlay, k, single)) 
            && Whole(Tracks(q, rcs, overlay, k, End(q, rcs, overlay, single)))
  {
    RX.InitialInvariant(q, rcs, overlay, single);
    InitialTracks(q, rcs, overlay);
    k := ScanTracks(q, rcs, overlay, 0, R.Initial(q, overlay), single);
  }

  // ---- The legs of a route ------------------------------------------------------------

  // Leg m alights where its trip's exit was when it was boarded.
  ghost predicate LegChosen(q: Query, rcs: seq<Connection>, overlay: seq<TripQueryData>, l: Leg) {
    l.enter in rcs && HasExit(q, rcs, overlay, l.enter.trip, Pos(rcs, l.enter) + 1, l.exit)
  }

  // From there the traveller goes on to leg m + 1, by a walk of w.
  ghost predicate GoesOnTo(q: Query, rcs: seq<Connection>, overlay: seq<TripQueryData>, k: nat, legs: seq<Leg>, m: nat,
                           w: int)
    requires m + 1 < |legs|
  {
    IsOnward(q, rcs, overlay, legs[m].exit.arrivalNode, k, legs[m + 1].enter, w)
  }

  // Every leg alights at its trip's exit and goes on to the next one, and the last one
  // ends where nothing is better than the walk.
  ghost predicate LeadsOn(q: Query, rcs: seq<Connection>, overlay: seq<TripQueryData>, k: nat, legs: seq<Leg>,
                          rides: seq<JourneyStep>) {
    && legs != [] && |rides| == |legs|
    && (forall l <- legs :: LegChosen(q, rcs, overlay, l))
    && (forall m: nat | m + 1 < |legs| ::
          rides[m].Ride? && GoesOnTo(q, rcs, overlay, k, legs, m, rides[m].transferTime))
    && OnlyWalks(q, rcs, overlay, Last(legs).exit.arrivalNode, k)
  }

  // So every leg, every transfer and the end of the legs are determined by the first
  // boarding and by the data.
  ghost predicate Determined(q: Query, rcs: seq<Connection>, overlay: seq<TripQueryData>, k: nat, legs: seq<Leg>,
                             rides: seq<JourneyStep>, single: bool) {
    EndsAt(q, rcs, overlay, k, single) && Whole(LeadsOn(q, rcs, overlay, k, legs, rides))
  }

  lemma TrackedRides(q: Query, rcs: seq<Connection>, overlay: seq<TripQueryData>, k: nat, st: R.ReverseState)
    requires R.Sized(q, st) && Whole(Tracks(q, rcs, overlay, k, st))
    ensures Whole(RidesAre(q, rcs, overlay, st))
  {
  }

  lemma TrackedNode(q: Query, rcs: seq<Connection>, overlay: seq<TripQueryData>, k: nat, st: R.ReverseState, n: nat)
    requires R.Sized(q, st) && Whole(Tracks(q, rcs, overlay, k, st)) && n < q.nodeCount
    ensures LabelIs(q, rcs, overlay, k, st, n)
  {
  }

  lemma FirstLegChosen(q: Query, rcs: seq<Connection>, overlay: seq<TripQueryData>, st: R.ReverseState,
                       s: JourneyStep, legs: seq<Leg>)
    requires RideIs(q, rcs, overlay, s) && RX.Follows(st, s, legs)
    ensures LegChosen(q, rcs, overlay, legs[0])
  {
  }

  lemma NextLegChosen(q: Query, rcs: seq<Connection>, overlay: seq<TripQueryData>, st: R.ReverseState,
                      legs: seq<Leg>, m: nat)
    requires R.Sized(q, st) && Whole(RidesAre(q, rcs, overlay, st)) && m + 1 < |legs| && RX.ContinuesWith(st, legs, m)
    ensures LegChosen(q, rcs, overlay, legs[m + 1])
  {
    assert RideIs(q, rcs, overlay, st.steps[legs[m].exit.arrivalNode]);
  }

  lemma TransferChosen(q: Query, rcs: seq<Connection>, overlay: seq<TripQueryData>, k: nat, st: R.ReverseState,
                       legs: seq<Leg>, rides: seq<JourneyStep>, m: nat)
    requires R.Sized(q, st) && m + 1 < |legs| == |rides| && legs[m].exit.arrivalNode < q.nodeCount
    requires RX.ContinuesWith(st, legs, m) && J.CarriesTransfer(st, legs, rides, m)
    requires LabelIs(q, rcs, overlay, k, st, legs[m].exit.arrivalNode)
    ensures rides[m].Ride? && GoesOnTo(q, rcs, overlay, k, legs, m, rides[m].transferTime)
  {
  }

  lemma LegsChosen(q: Query, rcs: seq<Connection>, overlay: seq<TripQueryData>, st: R.ReverseState, s: JourneyStep,
                   legs: seq<Leg>)
    requires R.Sized(q, st) && Whole(RidesAre(q, rcs, overlay, st))
    requires RideIs(q, rcs, overlay, s) && RX.Follows(st, s, legs)
    ensures forall l <- legs :: LegChosen(q, rcs, overlay, l)
  {
    FirstLegChosen(q, rcs, overlay, st, s, legs);
    forall m: nat | 0 < m < |legs| ensures LegChosen(q, rcs, overlay, legs[m]) {
      var p: nat := m - 1;
      assert RX.ContinuesWith(st, legs, p);
      NextLegChosen(q, rcs, overlay, st, legs, p);
    }
  }

  lemma TransfersChosen(q: Query, rcs: seq<Connection>, overlay: seq<TripQueryData>, k: nat, st: R.ReverseState,
                        s: JourneyStep, legs: seq<Leg>, rides: seq<JourneyStep>)
    requires R.Sized(q, st) && Whole(Tracks(q, rcs, overlay, k, st)) && J.Behind(st, s, legs, rides)
    ensures forall m: nat | m + 1 < |legs| ::
              rides[m].Ride? && GoesOnTo(q, rcs, overlay, k, legs, m, rides[m].transferTime)
  {
    forall m: nat | m + 1 < |legs|
      ensures rides[m].Ride? && GoesOnTo(q, rcs, overlay, k, legs, m, rides[m].transferTime)
    {
      assert RX.ContinuesWith(st, legs, m) && J.CarriesTransfer(st, legs, rides, m);
      TrackedNode(q, rcs, overlay, k, st, legs[m].exit.arrivalNode);
      TransferChosen(q, rcs, overlay, k, st, legs, rides, m);
    }
  }

  lemma LastLegEnds(q: Query, rcs: seq<Connection>, overlay: seq<TripQueryData>, k: nat, st: R.ReverseState,
                    s: JourneyStep, legs: seq<Leg>)
    requires R.Sized(q, st) && Whole(Tracks(q, rcs, overlay, k, st)) && RX.Follows(st, s, legs)
    ensures OnlyWalks(q, rcs, overlay, Last(legs).exit.arrivalNode, k)
  {
    TrackedNode(q, rcs, overlay, k, st, Last(legs).exit.arrivalNode);
  }

  lemma LegsLeadOn(q: Query, rcs: seq<Connection>, overlay: seq<TripQueryData>, k: nat, st: R.ReverseState,
                   s: JourneyStep, legs: seq<Leg>, rides: seq<JourneyStep>)
    requires R.Sized(q, st) && Whole(Tracks(q, rcs, overlay, k, st))
    requires RideIs(q, rcs, overlay, s) && J.Behind(st, s, legs, rides)
    ensures Whole(LeadsOn(q, rcs, overlay, k, legs, rides))
  {
    TrackedRides(q, rcs, overlay, k, st);
    LegsChosen(q, rcs, overlay, st, s, legs);
    TransfersChosen(q, rcs, overlay, k, st, s, legs, rides);
    LastLegEnds(q, rcs, overlay, k, st, s, legs);
    LeadsOnIs(q, rcs, overlay, k, legs, rides);
  }

  lemma LeadsOnIs(q: Query, rcs: seq<Connection>, overlay: seq<TripQueryData>, k: nat, legs: seq<Leg>,
                  rides: seq<JourneyStep>)
    requires legs != [] && |rides| == |legs| && (forall l <- legs :: LegChosen(q, rcs, overlay, l))
    requires forall m: nat | m + 1 < |legs| ::
               rides[m].Ride? && GoesOnTo(q, rcs, overlay, k, legs, m, rides[m].transferTime)
    requires OnlyWalks(q, rcs, overlay, Last(legs).exit.arrivalNode, k)
    ensures Whole(LeadsOn(q, rcs, overlay, k, legs, rides))
  {
  }

  lemma EntryRide(q: Query, rcs: seq<Connection>, overlay: seq<TripQueryData>, k: nat, st: R.ReverseState, n: nat)
    requires R.Sized(q, st) && Whole(Tracks(q, rcs, overlay, k, st)) && n in st.accessSteps
    ensures RideIs(q, rcs, overlay, st.accessSteps[n])
  {
  }

  // On every network: the legs behind a recorded boarding alight at the noted exits,
  // walk on by the best footpaths and end where nothing is better than the walk.
  lemma LegsDetermined(q: Query, rcs: seq<Connection>, overlay: seq<TripQueryData>, n: nat, legs: seq<Leg>,
                       rides: seq<JourneyStep>, single: bool)
    requires R.ValidReverse(q, rcs) && |overlay| == q.tripCount && R.NoExits(overlay)
    requires var st := End(q, rcs, overlay, single);
             n in st.accessSteps && J.Behind(st, st.accessSteps[n], legs, rides)
    ensures exists k :: Determined(q, rcs, overlay, k, legs, rides, single)
  {
    var st := End(q, rcs, overlay, single);
    var k := EndIsTracked(q, rcs, overlay, single);
    EntryRide(q, rcs, overlay, k, st, n);
    LegsLeadOn(q, rcs, overlay, k, st, st.accessSteps[n], legs, rides);
    assert Determined(q, rcs, overlay, k, legs, rides, single);
  }

  // ---- There is only one such list of legs --------------------------------------------

  lemma OneEnd(q: Query, rcs: seq<Connection>, overlay: seq<TripQueryData>, j: nat, k: nat, single: bool)
    requires EndsAt(q, rcs, overlay, j, single) && EndsAt(q, rcs, overlay, k, single)
    ensures j == k
  {
  }

  lemma LegOf(q: Query, rcs: seq<Connection>, overlay: seq<TripQueryData>, k: nat, legs: seq<Leg>,
              rides: seq<JourneyStep>, m: nat)
    requires Whole(LeadsOn(q, rcs, overlay, k, legs, rides)) && m < |legs|
    ensures |rides| == |legs|
    ensures if m + 1 < |legs| then rides[m].Ride? && GoesOnTo(q, rcs, overlay, k, legs, m, rides[m].transferTime)
            else OnlyWalks(q, rcs, overlay, legs[m].exit.arrivalNode, k)
  {
  }

  lemma LegExit(q: Query, rcs: seq<Connection>, overlay: seq<TripQueryData>, k: nat, legs: seq<Leg>,
                rides: seq<JourneyStep>, m: nat)
    requires Whole(LeadsOn(q, rcs, overlay, k, legs, rides)) && m < |legs|
    ensures Whole(LegChosen(q, rcs, overlay, legs[m]))
  {
    assert legs[m] in legs;
  }

  lemma SameExitFrom(q: Query, rcs: seq<Connection>, overlay: seq<TripQueryData>, l: Leg, m: Leg)
    requires Whole(LegChosen(q, rcs, overlay, l)) && Whole(LegChosen(q, rcs, overlay, m)) && l.enter == m.enter
    ensures l.exit == m.exit
  {
  }

  // Two lists that board the same connection at m alight together, and go on together
  // or both end.
  lemma SameNext(q: Query, rcs: seq<Connection>, overlay: seq<TripQueryData>, k: nat, a: seq<Leg>,
                 ra: seq<JourneyStep>, b: seq<Leg>, rb: seq<JourneyStep>, m: nat)
    requires Whole(LeadsOn(q, rcs, overlay, k, a, ra)) && Whole(LeadsOn(q, rcs, overlay, k, b, rb))
    requires m < |a| && m < |b| && a[m].enter == b[m].enter
    ensures a[m] == b[m] && (m + 1 < |a| <==> m + 1 < |b|) && |ra| == |a| && |rb| == |b|
    ensures m + 1 < |a| && m + 1 < |b| ==>
              ra[m].Ride? && rb[m].Ride? && ra[m].transferTime == rb[m].transferTime && a[m + 1].enter == b[m + 1].enter
  {
    LegOf(q, rcs, overlay, k, a, ra, m);
    LegOf(q, rcs, overlay, k, b, rb, m);
    LegExit(q, rcs, overlay, k, a, ra, m);
    LegExit(q, rcs, overlay, k, b, rb, m);
    SameExitFrom(q, rcs, overlay, a[m], b[m]);
    if m + 1 < |a| && m + 1 < |b| {
      SameOnward(q, rcs, overlay, k, a, b, m, ra[m].transferTime, rb[m].transferTime);
    } else if m + 1 < |a| {
      NotOnlyWalks(q, rcs, overlay, a[m].exit.arrivalNode, k, a[m + 1].enter, ra[m].transferTime);
    } else if m + 1 < |b| {
      NotOnlyWalks(q, rcs, overlay, b[m].exit.arrivalNode, k, b[m + 1].enter, rb[m].transferTime);
    }
  }

  lemma SameOnward(q: Query, rcs: seq<Connection>, overlay: seq<TripQueryData>, k: nat, a: seq<Leg>, b: seq<Leg>,
                   m: nat, w: int, v: int)
    requires m + 1 < |a| && m + 1 < |b| && a[m] == b[m]
    requires GoesOnTo(q, rcs, overlay, k, a, m, w) && GoesOnTo(q, rcs, overlay, k, b, m, v)
    ensures w == v && a[m + 1].enter == b[m + 1].enter
  {
    OneOnward(q, rcs, overlay, a[m].exit.arrivalNode, k, a[m + 1].enter, w, b[m + 1].enter, v);
  }

  lemma NotOnlyWalks(q: Query, rcs: seq<Connection>, overlay: seq<TripQueryData>, n: nat, k: nat, e: Connection, f: int)
    requires IsOnward(q, rcs, overlay, n, k, e, f)
    ensures !OnlyWalks(q, rcs, overlay, n, k)
  {
    assert Offers(q, rcs, overlay, n, k, e, f);
  }

  lemma {:induction false} SameUpTo(q: Query, rcs: seq<Connection>, overlay: seq<TripQueryData>, k: nat, a: seq<Leg>,
                                    ra: seq<JourneyStep>, b: seq<Leg>, rb: seq<JourneyStep>, m: nat)
    requires Whole(LeadsOn(q, rcs, overlay, k, a, ra)) && Whole(LeadsOn(q, rcs, overlay, k, b, rb))
    requires a != [] && b != [] && a[0].enter == b[0].enter && m < |a|
    ensures m < |b| && a[m].enter == b[m].enter
    decreases m
  {
    if m > 0 {
      SameUpTo(q, rcs, overlay, k, a, ra, b, rb, m - 1);
      SameNext(q, rcs, overlay, k, a, ra, b, rb, m - 1);
    }
  }

  lemma DeterminedOnce(q: Query, rcs: seq<Connection>, overlay: seq<TripQueryData>, j: nat, k: nat, a: seq<Leg>,
                       ra: seq<JourneyStep>, b: seq<Leg>, rb: seq<JourneyStep>, single: bool)
    requires Determined(q, rcs, overlay, j, a, ra, single) && Determined(q, rcs, overlay, k, b, rb, single)
    requires a != [] && b != [] && a[0].enter == b[0].enter
    ensures j == k && a == b && |ra| == |rb| == |a|
    ensures forall m: nat | m + 1 < |a| ::
              ra[m].Ride? && rb[m].Ride? && ra[m].transferTime == rb[m].transferTime
  {
    OneEnd(q, rcs, overlay, j, k, single);
    SameUpTo(q, rcs, overlay, k, a, ra, b, rb, |a| - 1);
    SameUpTo(q, rcs, overlay, k, b, rb, a, ra, |b| - 1);
    forall m: nat | m < |a|
      ensures a[m] == b[m] && |ra| == |rb| == |a|
      ensures m + 1 < |a| ==> ra[m].Ride? && rb[m].Ride? && ra[m].transferTime == rb[m].transferTime
    {
      SameUpTo(q, rcs, overlay, k, a, ra, b, rb, m);
      SameNext(q, rcs, overlay, k, a, ra, b, rb, m);
    }
    assert a[0] == b[0];
  }
}
