// Which trips a scenario or a query lets through.
module Filters {

  datatype TripAttributes = TripAttributes(service: nat, line: nat, mode: nat, agency: nat)

  // Empty "only" lists let everything through. A scenario has no exceptServices.
  datatype Filter = Filter(
    onlyServices: seq<nat>,
    onlyLines: seq<nat>,
    onlyModes: seq<nat>,
    onlyAgencies: seq<nat>,
    exceptServices: seq<nat>,
    exceptLines: seq<nat>,
    exceptModes: seq<nat>,
    exceptAgencies: seq<nat>)

  const NO_FILTER := Filter([], [], [], [], [], [], [], [])

  predicate Lets(only: seq<nat>, except: seq<nat>, x: nat) {
    (only == [] || x in only) && x !in except
  }

  predicate Enabled(f: Filter, a: TripAttributes) {
    && Lets(f.onlyServices, f.exceptServices, a.service)
    && Lets(f.onlyLines, f.exceptLines, a.line)
    && Lets(f.onlyModes, f.exceptModes, a.mode)
    && Lets(f.onlyAgencies, f.exceptAgencies, a.agency)
  }

  // The chain of tests of the original, one list at a time.
  method IsEnabled(f: Filter, a: TripAttributes) returns (enabled: bool)
    ensures enabled == Enabled(f, a)
    ensures enabled <==>
            && (f.onlyServices == [] || a.service in f.onlyServices) && a.service !in f.exceptServices
            && (f.onlyLines == [] || a.line in f.onlyLines) && a.line !in f.exceptLines
            && (f.onlyModes == [] || a.mode in f.onlyModes) && a.mode !in f.exceptModes
            && (f.onlyAgencies == [] || a.agency in f.onlyAgencies) && a.agency !in f.exceptAgencies
  {
    enabled := true;
    if enabled && |f.onlyServices| > 0 {
      if a.service !in f.onlyServices { enabled := false; }
    }
    if enabled && |f.onlyLines| > 0 {
      if a.line !in f.onlyLines { enabled := false; }
    }
    if enabled && |f.onlyModes| > 0 {
      if a.mode !in f.onlyModes { enabled := false; }
    }
    if enabled && |f.onlyAgencies| > 0 {
      if a.agency !in f.onlyAgencies { enabled := false; }
    }
    if enabled && |f.exceptServices| > 0 {
      if a.service in f.exceptServices { enabled := false; }
    }
    if enabled && |f.exceptLines| > 0 {
      if a.line in f.exceptLines { enabled := false; }
    }
    if enabled && |f.exceptModes| > 0 {
      if a.mode in f.exceptModes { enabled := false; }
    }
    if enabled && |f.exceptAgencies| > 0 {
      if a.agency in f.exceptAgencies { enabled := false; }
    }
  }

  // The trips of the list that the filter disables.
  function Disabled(f: Filter, attributes: seq<TripAttributes>, trips: seq<nat>): set<nat>
    requires forall t <- trips :: t < |attributes|
  {
    set t | t in trips && !Enabled(f, attributes[t])
  }

  // A trip of the list is disabled if and only if one of its four attributes is
  // missing from a list that admits or present on one that excludes.
  lemma DisabledExactly(f: Filter, attributes: seq<TripAttributes>, trips: seq<nat>, t: nat)
    requires (forall t <- trips :: t < |attributes|) && t in trips
    ensures var a := attributes[t];
            t in Disabled(f, attributes, trips) <==>
            || (f.onlyServices != [] && a.service !in f.onlyServices) || a.service in f.exceptServices
            || (f.onlyLines != [] && a.line !in f.onlyLines) || a.line in f.exceptLines
            || (f.onlyModes != [] && a.mode !in f.onlyModes) || a.mode in f.exceptModes
            || (f.onlyAgencies != [] && a.agency !in f.onlyAgencies) || a.agency in f.exceptAgencies
  {
  }

  // Excluding more lines can only disable more trips.
  lemma MoreExclusionsDisableMore(f: Filter, g: Filter, attributes: seq<TripAttributes>, trips: seq<nat>)
    requires forall t <- trips :: t < |attributes|
    requires g == f.(exceptLines := g.exceptLines) && forall l <- f.exceptLines :: l in g.exceptLines
    ensures Disabled(f, attributes, trips) <= Disabled(g, attributes, trips)
  {
  }
}
