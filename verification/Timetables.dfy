// The two orders of the connections and the per-trip lists built from them.
module Timetables {
  import opened Network
  import S = Sorting
  import F = ForwardScan
  import R = ReverseScan
  import O = OptimizeJourney
  import J = Journeys

  // ---- The two comparisons ------------------------------------------------------

  // uuid gives each trip's identifier, which breaks ties of time.
  function DepartsFirst(uuid: nat -> nat): (Connection, Connection) -> bool {
    (a: Connection, b: Connection) =>
      if a.departureTime != b.departureTime then a.departureTime < b.departureTime
      else if uuid(a.trip) != uuid(b.trip) then uuid(a.trip) < uuid(b.trip)
      else a.sequenceInTrip < b.sequenceInTrip
  }

  function ArrivesLast(uuid: nat -> nat): (Connection, Connection) -> bool {
    (a: Connection, b: Connection) =>
      if a.arrivalTime != b.arrivalTime then a.arrivalTime > b.arrivalTime
      else if uuid(a.trip) != uuid(b.trip) then uuid(a.trip) > uuid(b.trip)
      else a.sequenceInTrip > b.sequenceInTrip
  }

  lemma OrdersAreStrictWeak(uuid: nat -> nat)
    ensures S.StrictWeakOrder(DepartsFirst(uuid)) && S.StrictWeakOrder(ArrivesLast(uuid))
  {
    forall a, b, c ensures S.Ordered(DepartsFirst(uuid), a, b, c) {}
    forall a, b, c ensures S.Ordered(ArrivesLast(uuid), a, b, c) {}
  }

  // ---- What the schedule loader provides --------------------------------------------

  // Two connections of one trip are the same or follow each other in time.
  ghost predicate InSequence(a: Connection, b: Connection) {
    a.trip == b.trip ==>
      && (a.sequenceInTrip == b.sequenceInTrip ==> a == b)
      && (a.sequenceInTrip < b.sequenceInTrip ==> a.arrivalTime <= b.departureTime)
      && (a.sequenceInTrip + 1 == b.sequenceInTrip ==> a.arrivalNode == b.departureNode)
  }

  ghost predicate Loaded(connections: seq<Connection>) {
    && (forall c :: multiset(connections)[c] <= 1)
    && (forall c <- connections :: c.departureTime <= c.arrivalTime)
    && (forall a <- connections, b <- connections :: InSequence(a, b))
  }

  // The connections of trip t are numbered from 1 to n without gaps.
  ghost predicate Numbered(connections: seq<Connection>, t: nat, n: nat) {
    && (forall c <- connections :: c.trip == t ==> 1 <= c.sequenceInTrip <= n)
    && (forall k: nat | 1 <= k <= n :: HasNumber(connections, t, k))
  }

  ghost predicate HasNumber(connections: seq<Connection>, t: nat, k: nat) {
    exists c <- connections :: c.trip == t && c.sequenceInTrip == k
  }

  // ---- Sorted lists -------------------------------------------------------------

  predicate ScannedBefore(a: Connection, b: Connection) {
    a.departureTime <= b.departureTime && (a.trip == b.trip ==> a.sequenceInTrip < b.sequenceInTrip)
  }

  predicate ReverseScannedBefore(a: Connection, b: Connection) {
    a.arrivalTime >= b.arrivalTime && (a.trip == b.trip ==> a.sequenceInTrip > b.sequenceInTrip)
  }

  lemma ListedOnce(connections: seq<Connection>, s: seq<Connection>, j: nat, k: nat)
    requires multiset(s) == multiset(connections) && (forall c :: multiset(connections)[c] <= 1) && j < k < |s|
    ensures s[j] != s[k] && s[j] in connections && s[k] in connections
  {
    assert s[j] in multiset(connections) && s[k] in multiset(connections);
    assert s == s[..k] + [s[k]] + s[k + 1..];
    assert s[j] in s[..k];
    assert multiset(s)[s[k]] <= 1;
  }

  function Forward(uuid: nat -> nat, connections: seq<Connection>): seq<Connection> {
    S.StableSort(DepartsFirst(uuid), connections)
  }

  function Reverse(uuid: nat -> nat, connections: seq<Connection>): seq<Connection> {
    S.StableSort(ArrivesLast(uuid), connections)
  }

  // The sorted list holds the same connections, in the order the forward scan needs.
  lemma ForwardIsSorted(uuid: nat -> nat, connections: seq<Connection>)
    requires Loaded(connections)
    ensures multiset(Forward(uuid, connections)) == multiset(connections)
    ensures S.Pairwise(ScannedBefore, Forward(uuid, connections))
  {
    OrdersAreStrictWeak(uuid);
    S.StableSortSorts(DepartsFirst(uuid), connections);
    var s := Forward(uuid, connections);
    forall j, k | 0 <= j < k < |s| ensures ScannedBefore(s[j], s[k]) {
      ListedOnce(connections, s, j, k);
      assert InSequence(s[j], s[k]) && InSequence(s[k], s[j]);
      assert !DepartsFirst(uuid)(s[k], s[j]);
    }
  }

  lemma ReverseIsSorted(uuid: nat -> nat, connections: seq<Connection>)
    requires Loaded(connections)
    ensures multiset(Reverse(uuid, connections)) == multiset(connections)
    ensures S.Pairwise(ReverseScannedBefore, Reverse(uuid, connections))
  {
    OrdersAreStrictWeak(uuid);
    S.StableSortSorts(ArrivesLast(uuid), connections);
    var s := Reverse(uuid, connections);
    forall j, k | 0 <= j < k < |s| ensures ReverseScannedBefore(s[j], s[k]) {
      ListedOnce(connections, s, j, k);
      assert InSequence(s[j], s[k]) && InSequence(s[k], s[j]);
      assert !ArrivesLast(uuid)(s[k], s[j]);
    }
  }

  // The whole order: by departure, then by the trip's identifier, then by the number
  // in the trip; two places can be alike only for trips that share an identifier.
  lemma ForwardOrder(uuid: nat -> nat, connections: seq<Connection>, j: nat, k: nat)
    requires Loaded(connections) && j < k < |Forward(uuid, connections)|
    ensures var a, b := Forward(uuid, connections)[j], Forward(uuid, connections)[k];
            || a.departureTime < b.departureTime
            || (a.departureTime == b.departureTime && uuid(a.trip) < uuid(b.trip))
            || (a.departureTime == b.departureTime && uuid(a.trip) == uuid(b.trip) &&
                a.sequenceInTrip <= b.sequenceInTrip && (a.trip == b.trip ==> a.sequenceInTrip < b.sequenceInTrip))
  {
    OrdersAreStrictWeak(uuid);
    S.StableSortSorts(DepartsFirst(uuid), connections);
    ForwardIsSorted(uuid, connections);
    var s := Forward(uuid, connections);
    assert !DepartsFirst(uuid)(s[k], s[j]) && ScannedBefore(s[j], s[k]);
  }

  // The reverse one: by arrival, identifier and number, each from the last.
  lemma ReverseOrder(uuid: nat -> nat, connections: seq<Connection>, j: nat, k: nat)
    requires Loaded(connections) && j < k < |Reverse(uuid, connections)|
    ensures var a, b := Reverse(uuid, connections)[j], Reverse(uuid, connections)[k];
            || a.arrivalTime > b.arrivalTime
            || (a.arrivalTime == b.arrivalTime && uuid(a.trip) > uuid(b.trip))
            || (a.arrivalTime == b.arrivalTime && uuid(a.trip) == uuid(b.trip) &&
                a.sequenceInTrip >= b.sequenceInTrip && (a.trip == b.trip ==> a.sequenceInTrip > b.sequenceInTrip))
  {
    OrdersAreStrictWeak(uuid);
    S.StableSortSorts(ArrivesLast(uuid), connections);
    ReverseIsSorted(uuid, connections);
    var s := Reverse(uuid, connections);
    assert !ArrivesLast(uuid)(s[k], s[j]) && ReverseScannedBefore(s[j], s[k]);
  }

  // ---- Per-trip lists --------------------------------------------------------------

  function OfTrip(t: nat): Connection -> bool {
    (c: Connection) => c.trip == t
  }

  predicate Earlier(a: Connection, b: Connection) {
    a.sequenceInTrip < b.sequenceInTrip
  }

  function Mirror<T>(s: seq<T>): seq<T> {
    if s == [] then [] else [s[|s| - 1]] + Mirror(s[..|s| - 1])
  }

  lemma {:induction false} MirrorAt<T>(s: seq<T>)
    ensures |Mirror(s)| == |s| && multiset(Mirror(s)) == multiset(s)
    ensures forall k | 0 <= k < |s| :: Mirror(s)[|s| - 1 - k] == s[k]
    decreases |s|
  {
    if s != [] {
      MirrorAt(s[..|s| - 1]);
      assert s == s[..|s| - 1] + [s[|s| - 1]];
    }
  }

  lemma EarlierIsOrder()
    ensures S.StrictWeakOrder(Earlier)
  {
    forall a, b, c ensures S.Ordered(Earlier, a, b, c) {}
  }

  lemma TripOnly(t: nat, s: seq<Connection>)
    ensures forall c <- S.Select(OfTrip(t), s) :: c in s && c.trip == t
  {
    forall c <- S.Select(OfTrip(t), s) ensures c in s && c.trip == t { S.SelectIn(OfTrip(t), s, c); }
  }

  // A trip's forward list is in sequence order, and its reverse list the mirror.
  lemma TripListsMirror(uuid: nat -> nat, connections: seq<Connection>, t: nat)
    requires Loaded(connections)
    ensures var fw := S.Select(OfTrip(t), Forward(uuid, connections));
            var rv := S.Select(OfTrip(t), Reverse(uuid, connections));
            S.Pairwise(Earlier, fw) && rv == Mirror(fw)
  {
    ForwardIsSorted(uuid, connections);
    ReverseIsSorted(uuid, connections);
    var fw := S.Select(OfTrip(t), Forward(uuid, connections));
    var rv := S.Select(OfTrip(t), Reverse(uuid, connections));
    S.SelectPairwise(ScannedBefore, OfTrip(t), Forward(uuid, connections));
    S.SelectPairwise(ReverseScannedBefore, OfTrip(t), Reverse(uuid, connections));
    TripOnly(t, Forward(uuid, connections));
    TripOnly(t, Reverse(uuid, connections));
    S.SelectPermutes(OfTrip(t), Forward(uuid, connections), Reverse(uuid, connections));
    TripMirror(t, fw, rv);
    MirrorMirror(rv, fw);
  }

  lemma MirrorInOrder(t: nat, rv: seq<Connection>, j: nat, k: nat)
    requires S.Pairwise(ReverseScannedBefore, rv) && j < k < |rv| && forall c <- rv :: c.trip == t
    ensures !Earlier(rv[j], rv[k])
  {
    assert rv[j] in rv && rv[k] in rv && ReverseScannedBefore(rv[j], rv[k]);
  }

  lemma TripMirror(t: nat, fw: seq<Connection>, rv: seq<Connection>)
    requires S.Pairwise(ScannedBefore, fw) && S.Pairwise(ReverseScannedBefore, rv) && multiset(fw) == multiset(rv)
    requires (forall c <- fw :: c.trip == t) && (forall c <- rv :: c.trip == t)
    ensures S.Pairwise(Earlier, fw) && fw == Mirror(rv)
  {
    EarlierIsOrder();
    MirrorAt(rv);
    forall j, k | 0 <= j < k < |fw| ensures Earlier(fw[j], fw[k]) {
      assert fw[j] in fw && fw[k] in fw && ScannedBefore(fw[j], fw[k]);
    }
    var m := Mirror(rv);
    forall j: nat, k: nat | j < k < |m| ensures !Earlier(m[k], m[j]) {
      MirrorInOrder(t, rv, |m| - 1 - k, |m| - 1 - j);
    }
    forall a, b | a in fw && b in fw ensures S.Comparable(Earlier, a, b) {
      var j :| 0 <= j < |fw| && fw[j] == a;
      var k :| 0 <= k < |fw| && fw[k] == b;
    }
    S.SortedUnique(Earlier, fw, m);
  }

  lemma MirrorMirror<T>(s: seq<T>, t: seq<T>)
    requires t == Mirror(s)
    ensures s == Mirror(t)
  {
    MirrorAt(s);
    MirrorAt(t);
    forall k | 0 <= k < |s| ensures s[k] == Mirror(t)[k] {
      assert Mirror(t)[|t| - 1 - (|s| - 1 - k)] == t[|s| - 1 - k];
    }
  }

  // Numbered from 1 without gaps, the connection at position k is number k + 1.
  lemma {:induction false} NumberAt(connections: seq<Connection>, t: nat, n: nat, fw: seq<Connection>, k: nat)
    requires Numbered(connections, t, n) && S.Pairwise(Earlier, fw) && k < |fw|
    requires forall c :: c in fw <==> c in connections && c.trip == t
    ensures fw[k].sequenceInTrip == k + 1
    decreases k
  {
    forall j: nat | j < k ensures fw[j].sequenceInTrip == j + 1 { NumberAt(connections, t, n, fw, j); }
    assert fw[k] in fw;
    assert 1 <= fw[k].sequenceInTrip <= n;
    assert k > 0 ==> Earlier(fw[k - 1], fw[k]);
    assert HasNumber(connections, t, k + 1);
    var c :| c in connections && c.trip == t && c.sequenceInTrip == k + 1;
    assert c in fw;
    var j :| 0 <= j < |fw| && fw[j] == c;
    if j > k { assert Earlier(fw[k], fw[j]); }
  }

  ghost predicate WithinNodes(nodeCount: nat, connections: seq<Connection>) {
    forall c <- connections :: c.departureNode < nodeCount && c.arrivalNode < nodeCount
  }

  // The lists of a trip are what rebuilding and optimising a journey rely on.
  lemma TripListsValid(uuid: nat -> nat, connections: seq<Connection>, nodeCount: nat, t: nat, n: nat)
    requires Loaded(connections) && Numbered(connections, t, n) && WithinNodes(nodeCount, connections)
    ensures O.ValidTrip(nodeCount, t, S.Select(OfTrip(t), Forward(uuid, connections)),
                        S.Select(OfTrip(t), Reverse(uuid, connections)))
  {
    var fw := S.Select(OfTrip(t), Forward(uuid, connections));
    TripListsMirror(uuid, connections, t);
    MirrorAt(fw);
    TripMembers(uuid, connections, t);
    forall s: nat | s < |fw| ensures PlacedAt(connections, t, fw, s) {
      NumberAt(connections, t, n, fw, s);
      assert fw[s] in fw;
    }
    PlacedIsValid(connections, nodeCount, t, fw, S.Select(OfTrip(t), Reverse(uuid, connections)));
  }

  ghost predicate PlacedAt(connections: seq<Connection>, t: nat, fw: seq<Connection>, s: nat)
    requires s < |fw|
  {
    fw[s] in connections && fw[s].trip == t && fw[s].sequenceInTrip == s + 1
  }

  lemma PlacedIsValid(connections: seq<Connection>, nodeCount: nat, t: nat, fw: seq<Connection>, rv: seq<Connection>)
    requires Loaded(connections) && WithinNodes(nodeCount, connections)
    requires |rv| == |fw| && forall s: nat | s < |fw| :: rv[|fw| - 1 - s] == fw[s]
    requires forall s: nat | s < |fw| :: PlacedAt(connections, t, fw, s)
    ensures O.ValidTrip(nodeCount, t, fw, rv)
  {
    forall s: nat | 0 < s < |fw|
      ensures fw[s - 1].arrivalNode == fw[s].departureNode && fw[s - 1].arrivalTime <= fw[s].departureTime
    {
      assert PlacedAt(connections, t, fw, s - 1) && PlacedAt(connections, t, fw, s);
      assert InSequence(fw[s - 1], fw[s]);
    }
    forall s: nat | s < |fw|
      ensures fw[s].departureNode < nodeCount && fw[s].arrivalNode < nodeCount
          && fw[s].departureTime <= fw[s].arrivalTime
      ensures fw[s].sequenceInTrip == s + 1 && fw[s].trip == t
    {
      assert PlacedAt(connections, t, fw, s);
    }
  }

  lemma TripMembers(uuid: nat -> nat, connections: seq<Connection>, t: nat)
    requires Loaded(connections)
    ensures forall c :: c in S.Select(OfTrip(t), Forward(uuid, connections)) <==> c in connections && c.trip == t
  {
    ForwardIsSorted(uuid, connections);
    forall c ensures c in S.Select(OfTrip(t), Forward(uuid, connections)) <==> c in connections && c.trip == t {
      S.SelectIn(OfTrip(t), Forward(uuid, connections), c);
      assert c in multiset(connections) <==> c in connections;
      assert c in multiset(Forward(uuid, connections)) <==> c in Forward(uuid, connections);
    }
  }

  // Every connection is found in its trip's list by its number.
  lemma FoundByNumber(uuid: nat -> nat, connections: seq<Connection>, n: nat, tt: O.Timetable, c: Connection)
    requires Loaded(connections) && c in connections && c.trip < |tt.forward| && Numbered(connections, c.trip, n)
    requires tt.forward[c.trip] == S.Select(OfTrip(c.trip), Forward(uuid, connections))
    ensures O.OnTrip(tt, c)
  {
    var fw := tt.forward[c.trip];
    TripListsMirror(uuid, connections, c.trip);
    TripMembers(uuid, connections, c.trip);
    assert c in fw;
    var j: nat :| j < |fw| && fw[j] == c;
    NumberAt(connections, c.trip, n, fw, j);
    assert c == fw[c.sequenceInTrip - 1];
  }

  ghost predicate AllNumbered(connections: seq<Connection>, tripCount: nat) {
    && (forall c <- connections :: c.trip < tripCount)
    && (forall t: nat | t < tripCount :: NumberedFromOne(connections, t))
  }

  ghost predicate NumberedFromOne(connections: seq<Connection>, t: nat) {
    exists n: nat :: Numbered(connections, t, n)
  }

  // tt holds every trip's share of the two sorted lists.
  ghost predicate Shares(uuid: nat -> nat, connections: seq<Connection>, tt: O.Timetable) {
    && |tt.forward| == |tt.reverse|
    && (forall t: nat | t < |tt.forward| :: tt.forward[t] == S.Select(OfTrip(t), Forward(uuid, connections)))
    && (forall t: nat | t < |tt.reverse| :: tt.reverse[t] == S.Select(OfTrip(t), Reverse(uuid, connections)))
  }

  // Everything the rebuilding and the optimisation of journeys rest on follows
  // from how schedules are loaded.
  lemma TimetableIsValid(uuid: nat -> nat, connections: seq<Connection>, nodeCount: nat, tt: O.Timetable)
    requires Loaded(connections) && WithinNodes(nodeCount, connections) && AllNumbered(connections, |tt.forward|)
    requires Shares(uuid, connections, tt)
    ensures O.Valid(nodeCount, tt) && J.Timetabled(tt, connections)
  {
    forall t: nat | t < |tt.forward| ensures O.ValidTrip(nodeCount, t, tt.forward[t], tt.reverse[t]) {
      assert NumberedFromOne(connections, t);
      var n: nat :| Numbered(connections, t, n);
      TripListsValid(uuid, connections, nodeCount, t, n);
    }
    forall c | c in connections ensures O.OnTrip(tt, c) {
      assert NumberedFromOne(connections, c.trip);
      var n: nat :| Numbered(connections, c.trip, n);
      FoundByNumber(uuid, connections, n, tt, c);
    }
  }

  // ---- A scenario's share ------------------------------------------------------------

  lemma FilteredForward(uuid: nat -> nat, connections: seq<Connection>, keep: Connection -> bool)
    requires Loaded(connections)
    ensures F.ForwardSorted(S.Select(keep, Forward(uuid, connections)))
  {
    ForwardIsSorted(uuid, connections);
    S.SelectPairwise(ScannedBefore, keep, Forward(uuid, connections));
    var s := S.Select(keep, Forward(uuid, connections));
    assert forall j, k | 0 <= j < k < |s| :: ScannedBefore(s[j], s[k]);
  }

  lemma FilteredReverse(uuid: nat -> nat, connections: seq<Connection>, keep: Connection -> bool)
    requires Loaded(connections)
    ensures R.ReverseSorted(S.Select(keep, Reverse(uuid, connections)))
  {
    ReverseIsSorted(uuid, connections);
    S.SelectPairwise(ReverseScannedBefore, keep, Reverse(uuid, connections));
    var s := S.Select(keep, Reverse(uuid, connections));
    assert forall j, k | 0 <= j < k < |s| :: ReverseScannedBefore(s[j], s[k]);
  }

  // Both lists hold exactly the connections kept.
  lemma FilteredSame(uuid: nat -> nat, connections: seq<Connection>, keep: Connection -> bool)
    requires Loaded(connections)
    ensures SameConnections(S.Select(keep, Forward(uuid, connections)), S.Select(keep, Reverse(uuid, connections)))
    ensures forall c :: c in S.Select(keep, Forward(uuid, connections)) <==> c in connections && keep(c)
  {
    ForwardIsSorted(uuid, connections);
    ReverseIsSorted(uuid, connections);
    forall c
      ensures c in S.Select(keep, Forward(uuid, connections)) <==> c in connections && keep(c)
      ensures c in S.Select(keep, Reverse(uuid, connections)) <==> c in connections && keep(c)
    {
      S.SelectIn(keep, Forward(uuid, connections), c);
      S.SelectIn(keep, Reverse(uuid, connections), c);
      assert c in multiset(Forward(uuid, connections)) <==> c in Forward(uuid, connections);
      assert c in multiset(Reverse(uuid, connections)) <==> c in Reverse(uuid, connections);
      assert c in multiset(connections) <==> c in connections;
    }
  }
}
