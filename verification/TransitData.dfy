// The connections of the whole network, sorted and shared out to the trips, and
// the connection sets of scenarios with their caches.
module TransitDatas {
  import opened Network
  import opened Filters
  import S = Sorting
  import TB = Timetables
  import C = ConnectionSets
  import F = ForwardScan
  import R = ReverseScan

  datatype Scenario = Scenario(
    uuid: nat,
    servicesList: seq<nat>,
    onlyLines: seq<nat>,
    onlyModes: seq<nat>,
    onlyAgencies: seq<nat>,
    exceptLines: seq<nat>,
    exceptModes: seq<nat>,
    exceptAgencies: seq<nat>)
  {
    function ToFilter(): Filter {
      Filter(servicesList, onlyLines, onlyModes, onlyAgencies, [], exceptLines, exceptModes, exceptAgencies)
    }
  }

  // ---- Caches -----------------------------------------------------------------------

  // Remembers the last scenario asked for.
  class ScenarioConnectionCacheOne {
    var lastUuid: Option<nat>
    var lastConnection: Option<C.ConnectionSet>

    constructor ()
      ensures Cached() == map[]
    {
      lastUuid, lastConnection := None, None;
    }

    ghost function Cached(): map<nat, C.ConnectionSet>
      reads this
    {
      if lastUuid.Some? && lastConnection.Some? then map[lastUuid.value := lastConnection.value] else map[]
    }

    method Get(uuid: nat) returns (r: Option<C.ConnectionSet>)
      ensures r == if uuid in Cached() then Some(Cached()[uuid]) else None
    {
      if lastUuid == Some(uuid) {
        r := lastConnection;
      } else {
        r := None;
      }
    }

    method Set(uuid: nat, cache: C.ConnectionSet)
      modifies this
      ensures Cached() == map[uuid := cache]
    {
      lastUuid, lastConnection := Some(uuid), Some(cache);
    }
  }

  // Remembers every scenario asked for.
  class ScenarioConnectionCacheAll {
    var connectionSets: map<nat, C.ConnectionSet>

    constructor ()
      ensures connectionSets == map[]
    {
      connectionSets := map[];
    }

    method Get(uuid: nat) returns (r: Option<C.ConnectionSet>)
      ensures r == if uuid in connectionSets then Some(connectionSets[uuid]) else None
    {
      if uuid in connectionSets {
        r := Some(connectionSets[uuid]);
      } else {
        r := None;
      }
    }

    method Set(uuid: nat, cache: C.ConnectionSet)
      modifies this
      ensures connectionSets == old(connectionSets)[uuid := cache]
    {
      connectionSets := connectionSets[uuid := cache];
    }
  }

  // ---- Filtering from scratch ---------------------------------------------------------

  // Trips numbered like their attributes.
  predicate TripEnabled(f: Filter, attributes: seq<TripAttributes>, t: nat) {
    t < |attributes| && Enabled(f, attributes[t])
  }

  function KeepTrip(f: Filter, attributes: seq<TripAttributes>): nat -> bool {
    (t: nat) => TripEnabled(f, attributes, t)
  }

  function KeepConnection(f: Filter, attributes: seq<TripAttributes>, tripIds: seq<nat>): Connection -> bool {
    (c: Connection) => c.trip in tripIds && TripEnabled(f, attributes, c.trip)
  }

  // set_ holds what order-preserving filtering of the sorted lists gives.
  ghost predicate FromScratch(set_: C.ConnectionSet, f: Filter, attributes: seq<TripAttributes>, tripIds: seq<nat>,
                              forward: seq<Connection>, reverse: seq<Connection>) {
    && set_.Valid()
    && set_.trips == S.Select(KeepTrip(f, attributes), tripIds)
    && set_.forwardConnections == S.Select(KeepConnection(f, attributes, tripIds), forward)
    && set_.reverseConnections == S.Select(KeepConnection(f, attributes, tripIds), reverse)
  }

  class TransitData {
    const attributes: seq<TripAttributes>
    // the trips in the order of the map that holds them, and their identifiers
    const tripIds: seq<nat>
    const uuid: nat -> nat
    const connections: seq<Connection>
    const scenarios: map<nat, Scenario>
    const cacheAll: bool
    const one: ScenarioConnectionCacheOne
    const all: ScenarioConnectionCacheAll
    var forwardConnections: seq<Connection>
    var reverseConnections: seq<Connection>
    var tripForward: seq<seq<Connection>>
    var tripReverse: seq<seq<Connection>>

    constructor (attributes: seq<TripAttributes>, tripIds: seq<nat>, uuid: nat -> nat, connections: seq<Connection>,
                 scenarios: map<nat, Scenario>, cacheAll: bool)
      requires TB.Loaded(connections) && forall c <- connections :: c.trip < |attributes|
      requires forall t <- tripIds :: t < |attributes|
      ensures Valid() && fresh(one) && fresh(all)
      ensures this.attributes == attributes && this.tripIds == tripIds && this.uuid == uuid
      ensures this.connections == connections && this.scenarios == scenarios && this.cacheAll == cacheAll
    {
      this.attributes, this.tripIds, this.uuid := attributes, tripIds, uuid;
      this.connections, this.scenarios, this.cacheAll := connections, scenarios, cacheAll;
      one := new ScenarioConnectionCacheOne();
      all := new ScenarioConnectionCacheAll();
      forwardConnections, reverseConnections := [], [];
      tripForward, tripReverse := seq(|attributes|, _ => []), seq(|attributes|, _ => []);
      new;
      GenerateForwardAndReverseConnections();
    }

    // Both global lists are sorted, every trip has its share of each.
    ghost predicate Generated()
      reads this`forwardConnections, this`reverseConnections, this`tripForward, this`tripReverse
    {
      && TB.Loaded(connections)
      && forwardConnections == TB.Forward(uuid, connections) && reverseConnections == TB.Reverse(uuid, connections)
      && |tripForward| == |tripReverse| == |attributes|
      && (forall t: nat | t < |attributes| :: tripForward[t] == S.Select(TB.OfTrip(t), forwardConnections))
      && (forall t: nat | t < |attributes| :: tripReverse[t] == S.Select(TB.OfTrip(t), reverseConnections))
    }

    // A scenario is known by its identifier.
    ghost predicate Knows(scenario: Scenario) {
      scenario.uuid in scenarios && scenarios[scenario.uuid] == scenario
    }

    // set_ is what filtering from scratch gives for the scenario.
    ghost predicate Correct(uuid: nat, set_: C.ConnectionSet)
      reads this`forwardConnections, this`reverseConnections
    {
      uuid in scenarios && FromScratch(set_, scenarios[uuid].ToFilter(), attributes, tripIds, forwardConnections,
                                       reverseConnections)
    }

    // Whatever is cached for a scenario is what filtering gives for it.
    ghost predicate CachesCorrect()
      reads this`forwardConnections, this`reverseConnections, one, all
    {
      && (forall u <- one.Cached() :: Correct(u, one.Cached()[u]))
      && (forall u <- all.connectionSets :: Correct(u, all.connectionSets[u]))
    }

    ghost predicate Valid()
      reads this, one, all
    {
      && Generated() && CachesCorrect()
      && forall t <- tripIds :: t < |attributes|
    }

    // Sort a copy in each order, then hand the connections to their trips.
    method GenerateForwardAndReverseConnections()
      requires TB.Loaded(connections) && forall c <- connections :: c.trip < |attributes|
      requires tripForward == tripReverse == seq(|attributes|, _ => [])
      modifies this
      ensures Generated()
    {
      forwardConnections := S.StableSort(TB.DepartsFirst(uuid), connections);
      reverseConnections := S.StableSort(TB.ArrivesLast(uuid), connections);
      TB.ForwardIsSorted(uuid, connections);
      TB.ReverseIsSorted(uuid, connections);
      SameMembers(connections, forwardConnections);
      SameMembers(connections, reverseConnections);
      tripForward := Assign(|attributes|, forwardConnections, tripForward);
      tripReverse := Assign(|attributes|, reverseConnections, tripReverse);
    }

    static method Assign(tripCount: nat, cs: seq<Connection>, lists0: seq<seq<Connection>>)
        returns (lists: seq<seq<Connection>>)
      requires |lists0| == tripCount && forall c <- cs :: c.trip < tripCount
      ensures |lists| == tripCount
      ensures forall t: nat | t < tripCount :: lists[t] == lists0[t] + S.Select(TB.OfTrip(t), cs)
    {
      lists := lists0;
      for k := 0 to |cs|
        invariant |lists| == tripCount
        invariant forall t: nat | t < tripCount :: lists[t] == lists0[t] + S.Select(TB.OfTrip(t), cs[..k])
      {
        var c := cs[k];
        assert cs[..k + 1] == cs[..k] + [c];
        forall t: nat | t < tripCount
          ensures S.Select(TB.OfTrip(t), cs[..k + 1]) == S.Select(TB.OfTrip(t), cs[..k]) + if c.trip == t then [c]
              else []
        {
          S.SelectLast(TB.OfTrip(t), cs[..k], c);
        }
        lists := lists[c.trip := lists[c.trip] + [c]];
      }
      assert cs[..|cs|] == cs;
    }

    static method EnabledTrips(f: Filter, attributes: seq<TripAttributes>, tripIds: seq<nat>)
      returns (tripsEnabled: map<nat, bool>, cachedTrips: seq<nat>)
      requires forall t <- tripIds :: t < |attributes|
      ensures tripsEnabled.Keys == set t | t in tripIds
      ensures forall t <- tripsEnabled :: tripsEnabled[t] == TripEnabled(f, attributes, t)
      ensures cachedTrips == S.Select(KeepTrip(f, attributes), tripIds)
    {
      tripsEnabled, cachedTrips := map[], [];
      for k := 0 to |tripIds|
        invariant tripsEnabled.Keys == set t | t in tripIds[..k]
        invariant forall t <- tripsEnabled :: tripsEnabled[t] == TripEnabled(f, attributes, t)
        invariant cachedTrips == S.Select(KeepTrip(f, attributes), tripIds[..k])
      {
        var t := tripIds[k];
        assert tripIds[..k + 1] == tripIds[..k] + [t] && t in tripIds;
        S.SelectLast(KeepTrip(f, attributes), tripIds[..k], t);
        var enabled := IsEnabled(f, attributes[t]);
        tripsEnabled := tripsEnabled[t := enabled];
        if enabled {
          cachedTrips := cachedTrips + [t];
        }
      }
      assert tripIds[..|tripIds|] == tripIds;
    }

    // A trip missing from the map reads as disabled.
    static method KeepEnabled(ghost keep: Connection -> bool, tripsEnabled: map<nat, bool>, cs: seq<Connection>)
        returns (kept: seq<Connection>)
      requires forall c <- cs :: keep(c) == (c.trip in tripsEnabled && tripsEnabled[c.trip])
      ensures kept == S.Select(keep, cs)
    {
      kept := [];
      for k := 0 to |cs|
        invariant kept == S.Select(keep, cs[..k])
      {
        assert cs[..k + 1] == cs[..k] + [cs[k]] && cs[k] in cs;
        S.SelectLast(keep, cs[..k], cs[k]);
        if cs[k].trip in tripsEnabled && tripsEnabled[cs[k].trip] {
          kept := kept + [cs[k]];
        }
      }
      assert cs[..|cs|] == cs;
    }

    // The set computed without a cache.
    method Compute(scenario: Scenario) returns (r: C.ConnectionSet)
      requires Generated() && (forall t <- tripIds :: t < |attributes|) && Knows(scenario)
      ensures Correct(scenario.uuid, r)
    {
      var f := scenario.ToFilter();
      ghost var keep := KeepConnection(f, attributes, tripIds);
      var tripsEnabled, cachedTrips := EnabledTrips(f, attributes, tripIds);
      var forward := KeepEnabled(keep, tripsEnabled, forwardConnections);
      var reverse := KeepEnabled(keep, tripsEnabled, reverseConnections);
      TB.FilteredForward(uuid, connections, keep);
      TB.FilteredReverse(uuid, connections, keep);
      r := new C.ConnectionSet(cachedTrips, forward, reverse);
    }

    // With either cache the caller gets what filtering from scratch gives, and
    // so does every later caller.
    method GetConnectionsForScenario(scenario: Scenario) returns (r: C.ConnectionSet)
      requires Valid() && Knows(scenario)
      modifies one, all
      ensures CachesCorrect() && Correct(scenario.uuid, r)
    {
      var cached := Lookup(scenario);
      if cached.Some? {
        return cached.value;
      }
      r := ComputeAndRemember(scenario);
    }

    method Lookup(scenario: Scenario) returns (cached: Option<C.ConnectionSet>)
      requires CachesCorrect() && Knows(scenario)
      ensures cached.Some? ==> Correct(scenario.uuid, cached.value)
    {
      if cacheAll {
        cached := all.Get(scenario.uuid);
      } else {
        cached := one.Get(scenario.uuid);
      }
    }

    method ComputeAndRemember(scenario: Scenario) returns (r: C.ConnectionSet)
      requires Generated() && CachesCorrect() && (forall t <- tripIds :: t < |attributes|) && Knows(scenario)
      modifies one, all
      ensures CachesCorrect() && Correct(scenario.uuid, r)
    {
      r := Compute(scenario);
      if cacheAll {
        all.Set(scenario.uuid, r);
      } else {
        one.Set(scenario.uuid, r);
      }
    }

    // Any run of queries over unchanged data.
    method AnswerAll(queries: seq<Scenario>) returns (sets: seq<C.ConnectionSet>)
      requires Valid() && forall s <- queries :: Knows(s)
      modifies one, all
      ensures CachesCorrect() && |sets| == |queries|
      ensures forall k: nat | k < |sets| :: Correct(queries[k].uuid, sets[k])
    {
      sets := [];
      for k := 0 to |queries|
        invariant CachesCorrect() && |sets| == k
        invariant forall j: nat | j < k :: Correct(queries[j].uuid, sets[j])
      {
        assert queries[k] in queries;
        var r := GetConnectionsForScenario(queries[k]);
        sets := sets + [r];
      }
    }
  }

  lemma SameMembers(s: seq<Connection>, t: seq<Connection>)
    requires multiset(s) == multiset(t)
    ensures SameConnections(s, t)
  {
    forall c ensures c in s <==> c in t {
      assert c in multiset(s) <==> c in multiset(t);
    }
  }

  // The trips of a scenario's set: those of the network on a service, line, mode and
  // agency that no list of the scenario leaves out.
  lemma SetHoldsTrip(set_: C.ConnectionSet, scenario: Scenario, attributes: seq<TripAttributes>, tripIds: seq<nat>,
                     forward: seq<Connection>, reverse: seq<Connection>, t: nat)
    requires FromScratch(set_, scenario.ToFilter(), attributes, tripIds, forward, reverse)
    ensures t in set_.trips <==>
            && t in tripIds && t < |attributes|
            && var a := attributes[t];
               && (scenario.servicesList == [] || a.service in scenario.servicesList)
               && (scenario.onlyLines == [] || a.line in scenario.onlyLines) && a.line !in scenario.exceptLines
               && (scenario.onlyModes == [] || a.mode in scenario.onlyModes) && a.mode !in scenario.exceptModes
               && (scenario.onlyAgencies == [] || a.agency in scenario.onlyAgencies)
               && a.agency !in scenario.exceptAgencies
  {
    S.SelectIn(KeepTrip(scenario.ToFilter(), attributes), tripIds, t);
  }

  // What a set filtered from scratch offers to a calculation: both lists hold the
  // same connections, all on trips of the set, in the two scan orders.
  lemma SetIsCoherent(set_: C.ConnectionSet, f: Filter, attributes: seq<TripAttributes>, tripIds: seq<nat>,
                      uuid: nat -> nat, connections: seq<Connection>)
    requires TB.Loaded(connections)
    requires FromScratch(set_, f, attributes, tripIds, TB.Forward(uuid, connections), TB.Reverse(uuid, connections))
    ensures SameConnections(set_.forwardConnections, set_.reverseConnections)
    ensures forall c :: c in set_.forwardConnections <==> c in connections && c.trip in set_.trips
    ensures F.ForwardSorted(set_.forwardConnections) && R.ReverseSorted(set_.reverseConnections)
  {
    TB.FilteredSame(uuid, connections, KeepConnection(f, attributes, tripIds));
    forall c ensures c in set_.forwardConnections <==> c in connections && c.trip in set_.trips {
      S.SelectIn(KeepTrip(f, attributes), tripIds, c.trip);
    }
  }
}
