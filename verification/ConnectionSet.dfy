// The connections of a scenario in both scan orders, with an index by hour of
// day. Iterators are modelled by positions, the end iterator by the length.
module ConnectionSets {
  import opened Network
  import F = ForwardScan
  import R = ReverseScan

  const BEGIN_HOUR: int := 0
  const END_HOUR: int := 32

  // k is where departures at or after the hour begin.
  ghost predicate BeginsAtDepartureHour(cs: seq<Connection>, hour: int, k: nat) {
    && k <= |cs|
    && (forall j: nat | j < k :: cs[j].departureTime < hour * 3600)
    && (forall j: nat | k <= j < |cs| :: cs[j].departureTime >= hour * 3600)
  }

  // k is where arrivals at or before the hour begin.
  ghost predicate BeginsAtArrivalHour(rcs: seq<Connection>, hour: int, k: nat) {
    && k <= |rcs|
    && (forall j: nat | j < k :: rcs[j].arrivalTime > hour * 3600)
    && (forall j: nat | k <= j < |rcs| :: rcs[j].arrivalTime <= hour * 3600)
  }

  // The last |cache| hours of the table, hour 0 excepted, hold their positions.
  ghost predicate ReverseIndexed(rcs: seq<Connection>, cache: seq<nat>) {
    forall m: nat | m < |cache| && END_HOUR - |cache| + m >= 1 ::
      BeginsAtArrivalHour(rcs, END_HOUR - |cache| + m, cache[m])
  }

  lemma ReverseIndexedCons(rcs: seq<Connection>, cache: seq<nat>, k: nat)
    requires ReverseIndexed(rcs, cache)
    requires END_HOUR - |cache| - 1 >= 1 ==> BeginsAtArrivalHour(rcs, END_HOUR - |cache| - 1, k)
    ensures ReverseIndexed(rcs, [k] + cache)
  {
    var all := [k] + cache;
    forall m: nat | m < |all| && END_HOUR - |all| + m >= 1
      ensures BeginsAtArrivalHour(rcs, END_HOUR - |all| + m, all[m])
    {
      if m > 0 { assert all[m] == cache[m - 1]; }
    }
  }

  class ConnectionSet {
    const trips: seq<nat>
    const forwardConnections: seq<Connection>
    const reverseConnections: seq<Connection>
    const forwardCache: seq<nat>
    const reverseCache: seq<nat>

    ghost predicate Valid() {
      && F.ForwardSorted(forwardConnections) && R.ReverseSorted(reverseConnections)
      && |forwardCache| >= END_HOUR && |reverseCache| == END_HOUR
      && (forall h: nat | h < |forwardCache| :: BeginsAtDepartureHour(forwardConnections, h, forwardCache[h]))
      && ReverseIndexed(reverseConnections, reverseCache)
      && reverseCache[0] == |reverseConnections|
      && (|forwardCache| > END_HOUR <==> exists c <- forwardConnections :: c.departureTime >= END_HOUR * 3600)
    }

    constructor (trips: seq<nat>, forwardConnections: seq<Connection>, reverseConnections: seq<Connection>)
      requires F.ForwardSorted(forwardConnections) && R.ReverseSorted(reverseConnections)
      ensures Valid()
      ensures this.trips == trips
      ensures this.forwardConnections == forwardConnections && this.reverseConnections == reverseConnections
    {
      this.trips := trips;
      this.forwardConnections := forwardConnections;
      this.reverseConnections := reverseConnections;
      var byDeparture := IndexDepartures(forwardConnections);
      var byArrival := IndexArrivals(reverseConnections);
      this.forwardCache, this.reverseCache := byDeparture, byArrival;
    }

    static method IndexDepartures(forwardConnections: seq<Connection>) returns (forwardCache: seq<nat>)
      requires F.ForwardSorted(forwardConnections)
      ensures |forwardCache| >= 32
      ensures forall h: nat | h < |forwardCache| :: BeginsAtDepartureHour(forwardConnections, h, forwardCache[h])
      ensures |forwardCache| > 32 <==> exists c <- forwardConnections :: c.departureTime >= 32 * 3600
    {
      forwardCache := [];
      var currentHour := BEGIN_HOUR;
      var i := 0;
      while i < |forwardConnections|
        invariant 0 <= i <= |forwardConnections| && |forwardCache| == currentHour
        invariant forall h: nat | h < currentHour :: BeginsAtDepartureHour(forwardConnections, h, forwardCache[h])
        invariant forall j: nat | j < i :: forwardConnections[j].departureTime < currentHour * 3600
        invariant currentHour > 0 ==> exists c <- forwardConnections :: c.departureTime >= (currentHour - 1) * 3600
      {
        while forwardConnections[i].departureTime >= currentHour * 3600
          invariant |forwardCache| == currentHour
          invariant forall h: nat | h < currentHour :: BeginsAtDepartureHour(forwardConnections, h, forwardCache[h])
          invariant forall j: nat | j < i :: forwardConnections[j].departureTime < currentHour * 3600
          invariant currentHour > 0 ==> exists c <- forwardConnections :: c.departureTime >= (currentHour - 1) * 3600
          decreases forwardConnections[i].departureTime - currentHour * 3600
        {
          assert forwardConnections[i] in forwardConnections;
          assert BeginsAtDepartureHour(forwardConnections, currentHour, i);
          forwardCache := forwardCache + [i];
          currentHour := currentHour + 1;
        }
        i := i + 1;
      }
      while currentHour < END_HOUR
        invariant |forwardCache| == currentHour
        invariant forall h: nat | h < currentHour :: BeginsAtDepartureHour(forwardConnections, h, forwardCache[h])
        invariant forall j: nat | j < |forwardConnections| :: forwardConnections[j].departureTime < currentHour * 3600
        invariant currentHour > END_HOUR ==> exists c <- forwardConnections ::
            c.departureTime >= (currentHour - 1) * 3600
      {
        assert BeginsAtDepartureHour(forwardConnections, currentHour, |forwardConnections|);
        forwardCache := forwardCache + [|forwardConnections|];
        currentHour := currentHour + 1;
      }
    }

    static method IndexArrivals(reverseConnections: seq<Connection>) returns (reverseCache: seq<nat>)
      requires R.ReverseSorted(reverseConnections)
      ensures |reverseCache| == 32 && reverseCache[0] == |reverseConnections|
      ensures ReverseIndexed(reverseConnections, reverseCache)
    {
      reverseCache := [];
      var currentHour := END_HOUR - 1;
      var i := 0;
      while i < |reverseConnections|
        invariant 0 <= i <= |reverseConnections|
        invariant BEGIN_HOUR <= currentHour < END_HOUR && |reverseCache| == END_HOUR - 1 - currentHour
        invariant ReverseIndexed(reverseConnections, reverseCache)
        invariant currentHour > 0 ==> forall j: nat | j < i :: reverseConnections[j].arrivalTime > currentHour * 3600
      {
        while reverseConnections[i].arrivalTime <= currentHour * 3600 && currentHour > BEGIN_HOUR
          invariant BEGIN_HOUR <= currentHour < END_HOUR && |reverseCache| == END_HOUR - 1 - currentHour
          invariant ReverseIndexed(reverseConnections, reverseCache)
          invariant currentHour > 0 ==> forall j: nat | j < i :: reverseConnections[j].arrivalTime > currentHour * 3600
          decreases currentHour
        {
          ReverseIndexedCons(reverseConnections, reverseCache, i);
          reverseCache := [i] + reverseCache;
          currentHour := currentHour - 1;
        }
        i := i + 1;
      }
      while currentHour >= BEGIN_HOUR
        invariant BEGIN_HOUR - 1 <= currentHour < END_HOUR && |reverseCache| == END_HOUR - 1 - currentHour
        invariant ReverseIndexed(reverseConnections, reverseCache)
        invariant currentHour > 0 ==> forall j: nat | j < |reverseConnections| ::
            reverseConnections[j].arrivalTime > currentHour * 3600
        invariant currentHour < 0 ==> reverseCache[0] == |reverseConnections|
      {
        ReverseIndexedCons(reverseConnections, reverseCache, |reverseConnections|);
        reverseCache := [|reverseConnections|] + reverseCache;
        currentHour := currentHour - 1;
      }
    }

    // Hour 32 passes the bound check of the original but lies in the table only
    // when some connection departs then or later.
    function ForwardBegin(hour: int): (k: nat)
      requires Valid()
      requires hour == 32 ==> exists c <- forwardConnections :: c.departureTime >= 32 * 3600
      ensures 0 <= hour <= 32 ==> BeginsAtDepartureHour(forwardConnections, hour, k)
      ensures !(0 <= hour <= 32) ==> k == |forwardConnections|
    {
      if hour > END_HOUR || hour < BEGIN_HOUR then |forwardConnections| else forwardCache[hour]
    }

    function ReverseBegin(hour: int): (k: nat)
      requires Valid()
      ensures 1 <= hour < 32 ==> BeginsAtArrivalHour(reverseConnections, hour, k)
      ensures hour <= 0 ==> k == |reverseConnections|
      ensures hour >= 32 ==> k == 0
    {
      if hour < BEGIN_HOUR then |reverseConnections|
      else if hour > END_HOUR - 1 then 0
      else reverseCache[hour]
    }
  }

  // ---- Starting at the index is starting at the first connection --------------

  lemma {:induction false} SkipForward(q: Query, cs: seq<Connection>, i: nat, k: nat, st: F.ForwardState, single: bool)
    requires i <= k <= |cs| && F.Sized(q, st) && forall c <- cs :: F.Fits(q, c)
    requires forall j: nat | i <= j < k :: !F.Scanned(q, cs[j])
    ensures F.Scan(q, cs, i, st, single) == F.Scan(q, cs, k, st, single)
    decreases k - i
  {
    if i < k { SkipForward(q, cs, i + 1, k, st, single); }
  }

  lemma {:induction false} SkipReverse(q: Query, rcs: seq<Connection>, i: nat, k: nat, st: R.ReverseState, single: bool)
    requires i <= k <= |rcs| && R.Sized(q, st) && forall c <- rcs :: R.Fits(q, c)
    requires forall j: nat | i <= j < k ::
        rcs[j].arrivalTime > q.arrivalTime - (if single then MinTime(q.egressFootpaths) else 0)
    ensures R.Scan(q, rcs, i, st, single) == R.Scan(q, rcs, k, st, single)
    decreases k - i
  {
    if i < k { SkipReverse(q, rcs, i + 1, k, st, single); }
  }

  lemma ShortestWalk(q: Query, footpaths: seq<NodeTime>)
    requires ValidFootpaths(q, footpaths)
    ensures 0 <= MinTime(footpaths)
  {
  }

  lemma ForwardIndexRefines(q: Query, cs: seq<Connection>, k: nat, st: F.ForwardState, single: bool)
    requires ValidFootpaths(q, q.accessFootpaths) && F.Sized(q, st) && forall c <- cs :: F.Fits(q, c)
    requires 0 <= q.departureTime && BeginsAtDepartureHour(cs, q.departureTime / 3600, k)
    ensures F.Scan(q, cs, k, st, single) == F.Scan(q, cs, 0, st, single)
  {
    ShortestWalk(q, q.accessFootpaths);
    SkipForward(q, cs, 0, k, st, single);
  }

  lemma ReverseIndexRefines(q: Query, rcs: seq<Connection>, k: nat, st: R.ReverseState, single: bool)
    requires ValidFootpaths(q, q.egressFootpaths) && R.Sized(q, st) && forall c <- rcs :: R.Fits(q, c)
    requires 0 <= q.arrivalTime && (k == 0 || BeginsAtArrivalHour(rcs, q.arrivalTime / 3600 + 1, k))
    ensures R.Scan(q, rcs, k, st, single) == R.Scan(q, rcs, 0, st, single)
  {
    ShortestWalk(q, q.egressFootpaths);
    SkipReverse(q, rcs, 0, k, st, single);
  }
}
