# trRouting: a verified model of the transit routing engine

trRouting answers transit queries with the Connection Scan Algorithm. This
project models its engine in Dafny and proves what the engine is for: that the
scans find what a declarative notion of a *feasible journey* says they should,
that what is returned keeps its promises, and that the indexes, filters, caches
and searches around the scans do not change the answers.

A journey (`Network.Arrives`, `Network.Reaches`) is a walk to an access node, a
chain of rides each on one enabled trip in sequence order, boarded and left where
that is allowed, one footpath between consecutive rides, every minimum wait
respected, and a walk from an egress node. Nothing in that definition mentions
labels, steps, breaks, indexes or usable trips.

| files | what they hold |
|---|---|
| `Network` | connections, queries, journeys, the hypotheses on the data |
| `ForwardScan`, `ForwardExact` | one iteration and the whole forward scan; soundness, label freezing, exactness |
| `ReverseScan`, `ReverseExact` | the same for the reverse scan with its exit re-selection and access entries |
| `BoardedTrips` | which trips the first pass boards before its break, read off the data |
| `ForwardEntries`, `ReverseExits` | which rides the scans leave behind each node and each trip, and so which legs a result has, read off the data |
| `Service` | when a scan reaches no connection at all |
| `TwoPass`, `SecondPass`, `SingleQuery` | forward pass, then reverse pass over the trips it boarded; what a forward query returns |
| `Counterexamples` | data on which the scans miss a journey, and exactly when |
| `ConnectionSet` | the hour index |
| `OptimizeJourney`, `Journeys`, `Answers` | rebuilding, rewriting and summing up itineraries |
| `AllNodes`, `AccessibleNodes` | accessibility lists; what they list and by which legs |
| `LatestDeparture`, `AccessEntry` | how late a query for an arrival time departs; what it returns exactly |
| `Calculator` | the engine as a class whose methods update label vectors, overlays and maps in place |
| `Sorting`, `Timetables`, `TransitData`, `Filters` | sort orders, per-trip lists, scenario sets and their caches, filters |
| `LoadedNetwork` | from the loaded connections to the answer of a query, as one theorem |
| `Combinations`, `Alternatives` | combinations of lines and the search for alternative routes |
| `QueryString`, `ScopeRunner` | percent encoding, query strings, the scope counter |

The loops of `Calculator` are proved equal to pure folds (`ForwardScan.Scan`,
`ReverseScan.Scan`), and the theorems are about those folds. Node, trip and line
references are their local numbers. Footpaths found by the geographic filter are
arguments; the connection set of the scenario is one too, and `LoadedNetwork`
supplies it from the loaded connections.

## What is exact, and under which hypotheses

Data is well formed as the loaders make it: connections of a trip numbered from 1
and chained, departures before arrivals, each node transferable to itself in no
time, the two transfer tables converse to each other, access and egress nodes
listed once, times below `MAX_INT`, minimum waits in a `short`, walking factor 1.

**The forward scan** looks at each connection once, in the order of the list. What
it can follow (`ForwardExact.Scannable`) is a journey whose every exit comes before
the next boarding in that order, over admitted connections. Every connection is
admitted when there is no first-wait limit. With a limit, the scan passes over a
connection that leaves too long after the walk to its node, even on a trip already
boarded, unless rides scanned before take the traveller there sooner than the walk
(`ForwardExact.Admitted`, connection_scan_algorithm/src/forward_calculation.cpp:69-89).
Over these journeys both forward scans are exact on every network and for every
limit (`ForwardExact.SingleFollows`, `ForwardExact.AllNodesFollow`). Over all
feasible journeys a scan is exact if and only if every journey within the maximum
is matched by one it can follow that is no later (`ForwardExact.SingleExactly`,
`ForwardExact.AllNodesExactly`).

That holds when there is no limit and all handoffs are in scan order, for which it
is enough that of any two connections the first takes time or the second imposes a
wait (`Network.PositiveStep`). That each connection by itself has a positive wait or
a positive running time is **not** enough: with an instantaneous connection `x`
handing over to a wait-free connection `e` that is sorted before it, the scan looks
at `e` too early (`Counterexamples.InstantHandoffIsMissed`; the loader gives
wait-free connections to trips of transferable modes,
src/trips_and_connections_cache_fetcher.cpp:116).

**The reverse scan** can follow a chain to the destination whose every boarding comes
before the exit that hands over to it, in the order of its own list
(`ReverseExact.Traceable`). On every network its labels are exact over these chains
(`ReverseExact.LabelsFollow`), and over all chains if and only if none is missed
(`ReverseExact.LabelsExactly`). That holds with handoffs in scan order, which a
positive wait or running time of each connection implies. The steps it leaves are
another matter: they may come back to the same ride for ever, so that no itinerary
can be rebuilt (`Counterexamples.StepsCanLoop`,
connection_scan_algorithm/src/reverse_journey.cpp:45-58). Whatever follows steps is
therefore proved with handoffs in scan order.

**The second pass** looks back from the arrival found over the trips the first pass
boarded. It breaks once arrivals fall a longest access walk below the departure of
the first boarding it saw at an access node, even if the traveller cannot catch that
boarding, and it applies its own test of the first wait, which reads a limit of 0
where the forward scan does not
(connection_scan_algorithm/src/reverse_calculation.cpp:60-63 and 166-168 against
forward_calculation.cpp:71; the parser of parameters maps values `<= 0` to -1,
connection_scan_algorithm/src/parameters/common_parameters.cpp:175-178). On every
network and for every limit a forward query finds a route if and only if some start
passes that test and is not hidden by that break, over the trips that can be boarded
in the first pass before its own break; all of this is read off the data
(`SecondPasses.FoundIffOpen`, `BoardedTrips.UsableIffBoarded`).

`TwoPass.Composable` is a simpler condition that suffices: handoffs are in reverse
scan order, so that the second pass can follow what the first one found; no boarding
that can be caught is refused for its first wait (`TwoPass.FirstWaitsFit`), and if the break
hides a boarding that can be caught, then the one it was computed from can be caught
too (`TwoPass.BreakIsSafe`). Then a route is found exactly if some journey the scan
can follow fits the maximum. A negative limit, or one below every wait, refuses no
boarding (`TwoPass.NoLimitFits`, `TwoPass.LimitBelowWaitsFits`);
`Counterexamples.ZeroLimitIsRead` shows when a limit of 0 does. Equal waits make the
break safe (`TwoPass.UniformWaitsAreSafe`), and `Counterexamples.BreakBoundIsExact`
is a family of networks on which the second pass fails exactly when it is not.

**A query for an arrival time** may not return the latest departure: a boarding kept
at an access node is replaced only by one that leaves at least its own minimum wait
later (`Counterexamples.LatestStartIsLost`). Which boarding survives at each node is
determined on every network (`AccessEntries.EntryIsSurvivor`), the route returned
starts at the best survivor (`SingleQuery.ArriveByReturns`), and that is the latest
departure of all if and only if a boarding that allows it survives
(`AccessEntries.LatestIffSurvives`). What is lost is at most one minimum wait when
all waits are equal and twice the longest wait otherwise
(`SingleQuery.ArriveByDepartsLate`, `LatestDeparture.EqualWaitsSlack`,
`LatestDeparture.BoundedWaitsSlack`).

**Which route.** Beyond its times, the route itself is determined by the data, on
every network. The first boarding is the survivor at the access node, which is the
first in the list of those that allow the start. Each leg ends at the exit its trip
had when it was boarded: the first one in scan order from which the destination is
reached, or a later one with a shorter walk after it, if that transfer leaves another
minimum wait to spare (`ReverseExits.IsExit`,
connection_scan_algorithm/src/reverse_calculation.cpp:79-107). From there the
traveller goes on by the boarding that can be left for latest, and the legs end where
none beats the walk to the destination. There is only one such list of legs
(`ReverseExits.LegsDetermined`, `ReverseExits.DeterminedOnce`,
`SingleQuery.RouteIsDetermined`), and what the optimiser makes of it is stated over
the connections of the rides (`OptimizeJourney.NothingRemains` and the lemmas on each
case). The same holds for the legs an accessibility result counts
(`ForwardEntries.LegsDetermined`, `AccessibleNodes.ListedIsReached`,
`AccessibleNodes.ListedIsLeft`).

**Why there is none.** Each reason of failure is given exactly when it applies: a
list of footpaths is empty, no connection can be set out with, or come in with, or
neither (`Calculators.Calculator.CalculateSingle`, `Services.NothingReached`,
`Services.NothingComesIn`).

Long conjunctions are stated and carried as one proposition by `Network.Whole`,
which is the identity on booleans.

## Model

| member | source | states |
|---|---|---|
| ForwardScan.ProcessSound | connection_scan_algorithm/src/forward_calculation.cpp:39-156 | one iteration keeps: every label, step, boarded trip and egress entry stands for rides scanned before, boarded in time, on enabled trips; and nothing at a boarded node changes |
| ForwardScan.RelaxOneFreezes | connection_scan_algorithm/src/forward_calculation.cpp:112-152 | relaxing a footpath of the next connection never changes the label or step of a node where some trip is boarded |
| ForwardExact.ScanFreezes | connection_scan_algorithm/src/forward_calculation.cpp:220-330 | over the whole rest of a scan, the label and step of a node where some trip is boarded stay as they are |
| ForwardScan.PositiveStepOrdersHandoffs | connection_scan_algorithm/src/forward_calculation.cpp:76-89 | with positive steps, taken over pairs, a connection that hands over to another is always scanned before it |
| ForwardExact.ProcessComplete | connection_scan_algorithm/src/forward_calculation.cpp:39-156 | one iteration keeps completeness, for every first-wait limit: every admitted connection of the prefix that a followed journey hands over to has boarded its trip, and every one that can then be alighted from has relaxed its footpaths |
| ForwardExact.AdmittedPasses | connection_scan_algorithm/src/forward_calculation.cpp:69-89 | an admitted connection passes the scan's own test of the first wait, which reads the label of its node |
| ForwardExact.PassedIsAdmitted | connection_scan_algorithm/src/forward_calculation.cpp:69-89 | and only admitted connections do |
| ForwardExact.ScanInvariant | connection_scan_algorithm/src/forward_calculation.cpp:36-158 | a scan from any position ends at the list's end or at a connection that fires a break, sound, complete and with a correct first egress arrival |
| ForwardExact.JourneyFollowed | connection_scan_algorithm/src/forward_calculation.cpp:76-152 | every journey the scan can follow inside the scanned prefix has been followed: its last exit is relaxed and its trip boarded no later |
| ForwardExact.LegsToJourney | connection_scan_algorithm/src/forward_journey.cpp:284-297 | following steps back from any recorded ride terminates, strictly decreasing scan position, at an access node, and the legs met form a feasible journey |
| ForwardExact.LegsToScannable | connection_scan_algorithm/src/forward_journey.cpp:284-297 | that journey is one the scan can follow, on trips it has boarded |
| ForwardExact.AllNodesExact | connection_scan_algorithm/src/forward_calculation.cpp:201-336 | with handoffs in scan order and no limit, the all-nodes scan records a node at a time within the maximum if and only if that is the earliest arrival by vehicle of any feasible journey there |
| ForwardExact.AllNodesFollow | connection_scan_algorithm/src/forward_calculation.cpp:201-336 | on every network and for every limit, it records a node at a time within the maximum if and only if that is the earliest arrival there of the journeys it can follow |
| ForwardExact.AllNodesExactly | connection_scan_algorithm/src/forward_calculation.cpp:201-336 | on every network and for every limit, it is exact over all feasible journeys if and only if each within the maximum is matched by one it can follow that is no later |
| ForwardEntries.EndIsTracked | connection_scan_algorithm/src/forward_calculation.cpp:201-336 | on every network, where the all-nodes scan ends every label is the earliest arrival and every step its ride and footpath, and every recorded node has its earliest alighting, what was scanned first winning ties |
| ForwardEntries.FirstBoarded | connection_scan_algorithm/src/forward_calculation.cpp:91-97 | a trip is boarded at the first connection in scan order where it can be |
| ForwardEntries.LegsDetermined | connection_scan_algorithm/src/forward_journey.cpp:284-297 | on every network, the legs behind a recorded node end with its earliest alighting; each boards where its trip first can be, after the ride and footpath that are soonest there, the first one where nothing is sooner than the walk |
| ForwardEntries.DeterminedOnce | connection_scan_algorithm/src/forward_journey.cpp:284-297 | there is only one such list of legs for a node |
| ForwardExact.BestEgressIsLeast | connection_scan_algorithm/src/forward_calculation.cpp:172-191 | the egress loop returns the least admissible arrival over the egress footpaths, and none only if there is none |
| ForwardExact.SingleExact | connection_scan_algorithm/src/forward_calculation.cpp:13-198 | with handoffs in scan order and no limit, the arrival returned is the minimum over all feasible journeys within the maximum total time, and none is returned only if there is none |
| ForwardExact.SingleFollows | connection_scan_algorithm/src/forward_calculation.cpp:13-198 | on every network and for every limit, early stopping loses nothing: the arrival returned is the minimum over the journeys within the maximum total time that the scan can follow, and none is returned only if there is none |
| ForwardExact.SingleExactly | connection_scan_algorithm/src/forward_calculation.cpp:13-198 | on every network and for every limit, that is exact over all feasible journeys if and only if each within the maximum is matched by one the scan can follow that is no later |
| ReverseScan.StepPositiveOrdersHandoffs | connection_scan_algorithm/src/reverse_calculation.cpp:71-77 | with each step positive, the connection handed over to is scanned before the one handing over, in the reverse order |
| ReverseScan.ProcessSound | connection_scan_algorithm/src/reverse_calculation.cpp:45-181 | one iteration, exit re-selection included, keeps: every step, exit and access entry continues to the destination in time over rides scanned before |
| ReverseExact.ProcessComplete | connection_scan_algorithm/src/reverse_calculation.cpp:45-181 | on every network, one iteration keeps completeness: every exit of the prefix from which a chain can be followed has its trip's exit noted, and every boarding that starts such a chain has relaxed its footpaths and its access entry |
| ReverseExact.ProcessBacked | connection_scan_algorithm/src/reverse_calculation.cpp:45-181 | on every network, one iteration keeps: every ride behind a label, every exit and every access entry can be followed to the destination over usable trips, whatever the steps behind it say by then |
| ReverseExact.ReachingFollowed | connection_scan_algorithm/src/reverse_calculation.cpp:71-177 | every chain of usable rides the scan can follow that reaches the destination in time and starts in the scanned prefix has been followed up to its first boarding |
| ReverseExact.LegsFromReaching | connection_scan_algorithm/src/reverse_journey.cpp:45-58 | with handoffs in scan order, following reverse steps terminates at an egress node and gives a feasible chain on usable trips that is at the destination in time |
| ReverseExact.LabelsExact | connection_scan_algorithm/src/reverse_calculation.cpp:223-382 | with handoffs in scan order, a label of the all-nodes scan is t >= 0 if and only if t is the latest time one can leave the node and still arrive in time, looking back no further than the maximum total time |
| ReverseExact.LabelsFollow | connection_scan_algorithm/src/reverse_calculation.cpp:223-382 | on every network, a label of the all-nodes scan is t >= 0 if and only if t is the latest time one can leave the node, by a chain the scan can follow, and still arrive in time, looking back no further than the maximum total time |
| ReverseExact.LabelsExactly | connection_scan_algorithm/src/reverse_calculation.cpp:223-382 | on every network, the label of a node is exact over all chains of usable rides if and only if whenever the node can be left in time it can be left no earlier by a chain the scan can follow |
| ReverseExact.AccessSlack | connection_scan_algorithm/src/reverse_calculation.cpp:338-367 | on every network, the boarding recorded at a node departs no earlier than c.departure - wait(c) for every c there that starts a chain the scan can follow and departs within the maximum |
| ReverseExact.AccessFeasible | connection_scan_algorithm/src/reverse_calculation.cpp:145-174 | with handoffs in scan order, the steps behind every recorded access entry are a feasible chain at its node that reaches the destination in time |
| ReverseExact.AccessStarts | connection_scan_algorithm/src/reverse_calculation.cpp:145-174 | on every network, every recorded access entry is an admissible boarding at its node that starts a chain the scan can follow |
| ReverseExits.EndIsTracked | connection_scan_algorithm/src/reverse_calculation.cpp:12-182 | on every network, where either reverse scan ends every label is the latest leaving time and every step its boarding and footpath, what was scanned later winning ties; every trip's exit is the one with the shortest walk after it among its first exit and the later ones whose transfer leaves another minimum wait to spare, the one scanned first winning ties; and every recorded ride has the exit its trip had when it was boarded |
| ReverseExits.TripExitIs | connection_scan_algorithm/src/reverse_calculation.cpp:79-107 | at any point of the scan a trip has no more than one such exit |
| ReverseExits.StopsIffBreaks | connection_scan_algorithm/src/reverse_calculation.cpp:46-63 | a break fires at a connection if and only if it arrives too early for the maximum or, in the single scan, is hidden by the first boarding at an access node |
| ReverseExits.LegsDetermined | connection_scan_algorithm/src/reverse_journey.cpp:39-58 | on every network, the legs followed from a recorded boarding alight at those exits, go on by the boarding that can be left for latest and its footpath, and end where none beats the walk to the destination |
| ReverseExits.DeterminedOnce | connection_scan_algorithm/src/reverse_journey.cpp:39-58 | no two lists of legs with the same first boarding are like that, and their transfers are the same |
| Services.NothingReached | connection_scan_algorithm/src/forward_calculation.cpp:162-165 | a forward scan, for one or all nodes, reaches no connection if and only if none on an enabled trip can be caught on foot, without too long a first wait, within the maximum |
| Services.NothingComesIn | connection_scan_algorithm/src/reverse_calculation.cpp:186-189 | a reverse scan reaches no connection if and only if none on a usable and enabled trip arrives, within the maximum, at a node from which the destination is a walk away in time |
| TwoPass.BestAccessIsLatest | connection_scan_algorithm/src/reverse_calculation.cpp:190-213 | the access loop returns the latest admissible start over the access footpaths, and none only if there is none |
| TwoPass.BestAccessIsFirst | connection_scan_algorithm/src/reverse_calculation.cpp:190-213 | of equal starts it returns the one of the first footpath in the list |
| TwoPass.ReverseFeasible | connection_scan_algorithm/src/reverse_calculation.cpp:193-219 | whatever the limits, a returned access node starts a chain on usable trips that leaves no earlier than requested, arrives by the target and fits the maximum |
| TwoPass.UniformWaitsAreSafe | connection_scan_algorithm/src/reverse_calculation.cpp:60-63 | with equal minimum waits, whatever the break hides, the boarding it was computed from can be caught |
| TwoPass.NoLimitFits | connection_scan_algorithm/src/reverse_calculation.cpp:163-169 | a negative first-wait limit refuses no boarding |
| TwoPass.LimitBelowWaitsFits | connection_scan_algorithm/src/reverse_calculation.cpp:163-169 | nor does one below the minimum wait of every boarding at an access node |
| TwoPass.AccessRecorded | connection_scan_algorithm/src/reverse_calculation.cpp:60-174 | if a chain of usable rides that the scan can follow can be caught, and the break hides no boarding without another that can be caught, the reverse scan records an access entry |
| TwoPass.TwoPassFinds | connection_scan_algorithm/src/calculator.cpp:41-61 | for composable queries, whenever the forward scan returns T, the reverse scan from T over the trips it boarded finds an access node, and the rebuilt journey is feasible, leaves no earlier than requested and arrives by T, and exactly at T where no journey is missed |
| BoardedTrips.StopsIffBeyond | connection_scan_algorithm/src/forward_calculation.cpp:55-60 | the break fires at a connection if and only if it departs beyond the maximum, or a longest egress walk after the first alighting in scan order at an egress node that ends a journey the scan can follow |
| BoardedTrips.UsableIffBoarded | connection_scan_algorithm/src/forward_calculation.cpp:91-97 | a trip is left usable by the single scan if and only if it can be boarded, from the origin or after a journey the scan followed, at a connection not beyond the break |
| SecondPasses.ProcessKnows | connection_scan_algorithm/src/reverse_calculation.cpp:41-181 | one iteration keeps: the bound of the break, once set, is the departure of the first boarding in scan order at an access node from which the destination is reached in time, no scanned one lies below it, and it is set as soon as one was scanned |
| SecondPasses.FindsExactly | connection_scan_algorithm/src/reverse_calculation.cpp:12-220 | on every network, for any first-wait limit and any usable trips, a reverse scan with a requested departure within the maximum finds an access node if and only if some boarding that starts a chain it can follow passes the scan's own test of access and is not hidden by the break |
| SecondPasses.FoundIffOpen | connection_scan_algorithm/src/calculator.cpp:28-75 | on every network and for every limit, a forward query finds a route if and only if there is an earliest arrival of the journeys the first pass can follow and a start open to the second pass from it, over the trips that can be boarded before the first break; the target is then that arrival |
| Counterexamples.InstantHandoffIsMissed | connection_scan_algorithm/src/forward_calculation.cpp:76-89 | for all numbers a journey exists on a two-connection network with each step positive, and the forward scan returns one, and no journey is missed, if and only if the first connection takes time or the second imposes a wait |
| Counterexamples.BreakBoundIsTight | connection_scan_algorithm/src/reverse_calculation.cpp:60-63 | for all numbers violating the guard there is a query whose forward scan finds an arrival and whose reverse scan finds no access node, with every other condition of the composition met |
| Counterexamples.BreakBoundIsExact | connection_scan_algorithm/src/reverse_calculation.cpp:60-63 | on that family of networks, for all numbers, the second pass fails if and only if one inequality is violated, which is the guard of the break there |
| Counterexamples.ZeroLimitIsRead | connection_scan_algorithm/src/reverse_calculation.cpp:163-169 | for all numbers on a network of one connection and a limit of 0, the second pass fails if and only if the connection imposes no wait and leaves later than it can be caught; the condition on first waits says exactly that |
| Counterexamples.LatestStartIsLost | connection_scan_algorithm/src/reverse_calculation.cpp:151-171 | for all numbers on a network of two direct connections, the faster one, which leaves later, is returned if and only if it leaves later by at least a minimum wait |
| Counterexamples.StepsCanLoop | connection_scan_algorithm/src/reverse_journey.cpp:45-58 | for all numbers on a network of one connection between nodes no time apart, a start is found, and the steps behind it lead to the destination if and only if the connection takes time or imposes a wait, which is when handoffs are in scan order |
| AccessEntries.EntryIsSurvivor | connection_scan_algorithm/src/reverse_calculation.cpp:145-174 | on every network and for all limits, the boarding recorded at an access node at the end, or at any node by the scan for all nodes, is the survivor, in scan order, of the boardings that start a chain to the destination, may be recorded and are not hidden, each replacing an earlier one exactly if it departs at least its own minimum wait later |
| AccessEntries.SurvivorNext | connection_scan_algorithm/src/reverse_calculation.cpp:145-174 | whether the next connection takes a node over, condition by condition: it boards there and starts a chain, can be caught from the requested departure without too long a first wait, is within the maximum, is not hidden, and departs at least its own minimum wait after what was recorded before |
| AccessEntries.ReturnsLatest | connection_scan_algorithm/src/reverse_calculation.cpp:190-213 | the scan returns the latest start over the survivors within the maximum, at the first access node in the list that allows it, and none exactly if no survivor can be used |
| AccessEntries.LatestIffSurvives | connection_scan_algorithm/src/reverse_calculation.cpp:145-213 | the latest start that any chain of usable rides allows is returned if and only if a boarding that allows it survives |
| LatestDeparture.EqualWaitsSlack | connection_scan_algorithm/src/reverse_calculation.cpp:151-171 | with equal minimum waits the slack below is one wait |
| LatestDeparture.BoundedWaitsSlack | connection_scan_algorithm/src/reverse_calculation.cpp:151-171 | with waits of at most w it is no more than 2 w |
| LatestDeparture.DepartsWithinSlack | connection_scan_algorithm/src/reverse_calculation.cpp:12-220 | if a chain of usable rides that the scan can follow leaves at s and reaches the destination in time, the reverse scan returns a start no earlier than s less the slack |
| SingleQuery.FoundExactly | connection_scan_algorithm/src/calculator.cpp:28-75 | a composable forward query finds a route if and only if some journey the scan can follow fits the maximum, and its target is then the earliest arrival of those |
| SingleQuery.FoundAmongAll | connection_scan_algorithm/src/calculator.cpp:28-75 | where no journey is missed, the same over all feasible journeys |
| SingleQuery.RouteIsInTime | connection_scan_algorithm/src/calculator.cpp:41-61 | on every network and for every limit, the legs behind a returned route are a journey that arrives by the target, the least arrival of the journeys the scan can follow, and the optimised route leaves no earlier than requested and is there no later |
| SingleQuery.RouteIsEarliest | connection_scan_algorithm/src/calculator.cpp:41-61 | where no journey is missed, the legs behind the returned route arrive at the earliest possible time |
| SingleQuery.FailureIsInherited | connection_scan_algorithm/src/resets.cpp:287-322 | a composable forward query that finds nothing finds nothing with more trips disabled, whether or not journeys are missed |
| SingleQuery.ScannableWhenNarrowed | connection_scan_algorithm/src/resets.cpp:287-322 | a journey the scan can follow with more trips disabled is one it can follow without |
| SingleQuery.ArriveByReturns | connection_scan_algorithm/src/calculator.cpp:76-115 | a query for an arrival time finds a route exactly if some survivor at an access node can be used, and departs at the latest start over them |
| SingleQuery.ArriveByDepartsLate | connection_scan_algorithm/src/calculator.cpp:76-115 | if some feasible chain that the scan can follow leaves at s and is there by the requested time, a query for that time finds a route, and it departs no earlier than s less the slack |
| SingleQuery.RouteIsDetermined | connection_scan_algorithm/src/reverse_journey.cpp:39-72 | a route returned sets out for the survivor at the first access node in the list that allows its departure, and its legs and transfers before optimisation are the only ones the data allow from there |
| SingleQuery.ComposableWhenNarrowed | connection_scan_algorithm/src/resets.cpp:287-322 | a composable query stays composable with more trips disabled |
| ConnectionSets.ConnectionSet.constructor | src/connection_set.cpp:32-82 | both hour tables hold, for each of their hours, where departures from it on, or arrivals up to it, begin |
| ConnectionSets.ConnectionSet.IndexDepartures | src/connection_set.cpp:33-54 | every entry is where departures at or after its hour begin; the table covers hours 0 to 31, and hour 32 exactly when some departure is at or after it |
| ConnectionSets.ConnectionSet.IndexArrivals | src/connection_set.cpp:56-73 | every entry from hour 1 on is where arrivals at or before its hour begin; hour 0 is the end |
| ConnectionSets.ConnectionSet.ForwardBegin | src/connection_set.cpp:11-18 | the position where departures from the hour on begin, the end for hours outside 0 to 32 |
| ConnectionSets.ConnectionSet.ReverseBegin | src/connection_set.cpp:20-29 | the position where arrivals up to the hour begin, the start for hours above 31, the end for hours up to 0 |
| ConnectionSets.ForwardIndexRefines | connection_scan_algorithm/src/forward_calculation.cpp:32-40 | starting the forward scan at the index gives the same final state as starting at the first connection |
| ConnectionSets.ReverseIndexRefines | connection_scan_algorithm/src/reverse_calculation.cpp:37-46 | starting the reverse scan at the index gives the same final state as starting at the first connection |
| OptimizeJourney.CollectInBetween | connection_scan_algorithm/src/optimize_journey.cpp:89-97 | a node is listed if and only if it is neither end of the ride and some connection of the ride after the first departs from it |
| OptimizeJourney.InBetweenInOrder | connection_scan_algorithm/src/optimize_journey.cpp:89-97 | they are listed in ride order, each as often as it is departed from |
| OptimizeJourney.AppliesExactly | connection_scan_algorithm/src/optimize_journey.cpp:99-170 | what each of the four cases means, over the connections of the two rides |
| OptimizeJourney.FindCase | connection_scan_algorithm/src/optimize_journey.cpp:99-170 | the case found for a pair of steps really applies there with an unignored node, and none is found only if none applies |
| OptimizeJourney.Find | connection_scan_algorithm/src/optimize_journey.cpp:55-185 | the first pair of steps with an applicable case, or none if every pair is settled |
| OptimizeJourney.FirstIsFound | connection_scan_algorithm/src/optimize_journey.cpp:55-185 | a round takes the pair whose later step comes first, then whose earlier step does, then the lowest case |
| OptimizeJourney.FirstCommonIsFound | connection_scan_algorithm/src/optimize_journey.cpp:142-163 | in case 4 the earlier ride passes the node found no later than any other common node that is not ignored |
| OptimizeJourney.LineCutDoes | connection_scan_algorithm/src/optimize_journey.cpp:189-227 | a round of case 1: the earlier ride ends at its last stop at the node, and the later ride goes, or what lies between when they are not adjacent; if that stop is closed the node is ignored |
| OptimizeJourney.LateBoardingDoes | connection_scan_algorithm/src/optimize_journey.cpp:229-255 | a round of case 2: the later ride is boarded at its last departure from the node and its transfer set to nothing, or the node is ignored |
| OptimizeJourney.EarlyAlightingDoes | connection_scan_algorithm/src/optimize_journey.cpp:257-283 | a round of case 3: the earlier ride ends at its last stop at the node and the later one's transfer is set to nothing, or the node is ignored |
| OptimizeJourney.SegmentCutDoes | connection_scan_algorithm/src/optimize_journey.cpp:285-334 | a round of case 4 that edits: the earlier ride is left and the later one boarded at the node, where from there on no stop at it is closed; the node is ignored exactly if some departure of the later ride from it is closed |
| OptimizeJourney.SegmentCutEarliest | connection_scan_algorithm/src/optimize_journey.cpp:299-317 | the stop alighted at is the earliest such one |
| OptimizeJourney.SegmentBoardsEarliest | connection_scan_algorithm/src/optimize_journey.cpp:318-333 | and so is the departure boarded |
| OptimizeJourney.SegmentKeptDoes | connection_scan_algorithm/src/optimize_journey.cpp:285-334 | a round of case 4 that does not edit ignores the node, and the last stop there of one of the rides is closed |
| OptimizeJourney.CutLine | connection_scan_algorithm/src/optimize_journey.cpp:189-227 | cutting a superfluous line keeps the journey well formed and a reduction of the original, and shortens it or ignores the node |
| OptimizeJourney.BoardLater | connection_scan_algorithm/src/optimize_journey.cpp:229-255 | boarding later keeps the same, and shortens the rides or ignores the node |
| OptimizeJourney.AlightEarlier | connection_scan_algorithm/src/optimize_journey.cpp:257-283 | alighting earlier keeps the same, and shortens the rides or ignores the node |
| OptimizeJourney.CutSegment | connection_scan_algorithm/src/optimize_journey.cpp:285-334 | joining two rides at a common node keeps the same, and shortens the rides or ignores the node |
| OptimizeJourney.Optimize | connection_scan_algorithm/src/optimize_journey.cpp:35-344 | terminates on every well-formed journey; each surviving leg is a boardable and alightable part of its own original leg, legs stay in order, first boarding and last alighting node are unchanged, arrival is never later, and nothing is left to rewrite unless the boarding rewrite ended the loop; the result and the cases used are those of one recorded run of rounds, each rewriting at the first applicable pair, from the original to a state where none applies or the loop ends |
| OptimizeJourney.NothingRemains | connection_scan_algorithm/src/optimize_journey.cpp:55-185 | over the connections of any two rides left, unless case 2 ended the run and ignored nodes apart: the earlier ride passes neither end of the later one, the later one does not pass the end of the earlier one, and no node is passed by both |
| Journeys.FollowSteps | connection_scan_algorithm/src/reverse_journey.cpp:44-58 | the loop ends at an egress node; its rides are the legs behind the first step, each followed by the transfer of the step at its exit, a walk to the next boarding, which departs no earlier than that walk plus its minimum wait |
| Journeys.ItineraryWellFormed | connection_scan_algorithm/src/reverse_journey.cpp:60-74 | the rebuilt itinerary, walks included, is a journey the optimiser accepts |
| Journeys.Totals | connection_scan_algorithm/src/reverse_journey.cpp:78-262 | every total is the sum of its terms over the rides, and time is conserved: travel time is in-vehicle plus waiting plus non-transit time, minus rides counted in both; boardings, transfers and legs are those of the journey |
| Journeys.TimesMean | connection_scan_algorithm/src/reverse_journey.cpp:98-107 | term by term: in-vehicle time is the sum of the rides' times, and transfer waiting the sum over every ride after the first of its departure less the previous ride's arrival and transfer |
| Journeys.WalkingMeans | connection_scan_algorithm/src/reverse_journey.cpp:127-174 | transfer walking is the sum of the transfers after every ride but the last, plus the rides counted as walking |
| Journeys.BoardingsMean | connection_scan_algorithm/src/reverse_journey.cpp:109-112 | boardings are the rides on modes that are not transferable |
| Journeys.TimeAddsUp | connection_scan_algorithm/src/reverse_journey.cpp:98-174 | from the first boarding to any later alighting all time is spent riding, walking a transfer or waiting after one |
| Answers.RouteIsInWindow | connection_scan_algorithm/src/reverse_journey.cpp:204-245 | for any first-wait limit and after optimisation, a route departs no earlier than requested, arrives no later than the target, lasts no longer than the maximum, and first waits the minimum wait of its first boarding; its access and egress times are those of the walks to its first boarding and from its last alighting, and its departure and arrival add up with them |
| Answers.RouteAvoidsDisabled | connection_scan_algorithm/src/resets.cpp:320-322 | no ride of a route, optimised or not, is on a disabled trip |
| Answers.RebuildItinerary | connection_scan_algorithm/src/reverse_journey.cpp:39-72 | from the best access node the legs rebuilt are a feasible chain inside the window, and the itinerary is those legs between the access and egress walks |
| Answers.ReverseJourney | connection_scan_algorithm/src/reverse_journey.cpp:14-265 | the route sums up the result of a complete run of the optimiser on the itinerary of a feasible chain inside the window, starting at the best access node, and its legs and transfers are those of the steps behind that node's entry |
| AllNodes.CountTransfers | connection_scan_algorithm/src/forward_journey.cpp:279-297 | the loop ends at an access node, having counted the non-transferable rides of the journey to the node, less one |
| AllNodes.ForwardJourneyAllNodes | connection_scan_algorithm/src/forward_journey.cpp:267-322 | the list holds, in node order and each once, exactly the recorded nodes within the maximum, with arrival, travel time and transfers |
| AllNodes.ListIsExact | connection_scan_algorithm/src/forward_journey.cpp:276-315 | on every network and for every limit, a node is listed at t if and only if t is the earliest arrival by vehicle there, within the maximum, of the journeys the scan can follow |
| AllNodes.ListIsExactOverAll | connection_scan_algorithm/src/forward_journey.cpp:276-315 | where no journey is missed, the same over all feasible journeys |
| AllNodes.FailureIsExact | connection_scan_algorithm/src/forward_calculation.cpp:334-336 | when no connection was reachable, no journey the scan can follow, and where none is missed no journey at all, reaches any node within the maximum |
| AllNodes.ReverseJourneyAllNodes | connection_scan_algorithm/src/reverse_journey.cpp:268-345 | the list holds, in node order and each once, exactly the nodes whose entry passes the original's time test, each backed by a feasible chain that arrives in time and by the result of a complete run of the optimiser on its itinerary |
| AccessibleNodes.ListedIsReached | connection_scan_algorithm/src/forward_journey.cpp:276-315 | each node listed is reported with the arrival of the legs the data determine for it, the time since the requested departure, and one less than the number of those legs on modes that are not transferable |
| AccessibleNodes.ReachedOneWay | connection_scan_algorithm/src/forward_journey.cpp:276-315 | no other legs and no other report of that node do |
| AccessibleNodes.FailsWithoutService | connection_scan_algorithm/src/forward_calculation.cpp:334-336 | a forward accessibility query fails if and only if no connection can be set out with, and then with that reason |
| AccessibleNodes.ListedIsLeft | connection_scan_algorithm/src/reverse_journey.cpp:276-340 | each node of a reverse list is reported with the boarding that survives there, the time from its departure less the connection's own minimum wait, and one less than the boardings counted in the optimised form of the legs the data determine from it |
| AccessibleNodes.ReverseListIsExact | connection_scan_algorithm/src/reverse_journey.cpp:276-340 | a node is in a reverse list if and only if the boarding that survives there is within the maximum |
| AccessibleNodes.ReverseFailsWithoutService | connection_scan_algorithm/src/reverse_calculation.cpp:378-381 | a reverse accessibility query fails if and only if no connection can be come in with, and then with that reason |
| Filters.IsEnabled | connection_scan_algorithm/src/resets.cpp:235-319 | a trip is enabled if and only if every non-empty "only" list names its service, line, mode and agency and no "except" list names one of them |
| Filters.DisabledExactly | connection_scan_algorithm/src/resets.cpp:231-324 | a trip of the set is disabled if and only if one of the eight lists leaves it out |
| Filters.MoreExclusionsDisableMore | connection_scan_algorithm/src/resets.cpp:287-293 | excluding more lines disables at least the same trips |
| Calculators.Calculator.RelaxForward | connection_scan_algorithm/src/forward_calculation.cpp:112-152 | the footpath loop leaves the label vectors and egress map as the specification of relaxation says |
| Calculators.Calculator.ScanForward | connection_scan_algorithm/src/forward_calculation.cpp:63-155 | one reachable-connection step in place is one step of the specification |
| Calculators.Calculator.ForwardLoop | connection_scan_algorithm/src/forward_calculation.cpp:34-158 | the loop with its breaks leaves exactly the state of the specified scan |
| Calculators.Calculator.ForwardCalculation | connection_scan_algorithm/src/forward_calculation.cpp:13-198 | the result of the whole unindexed scan: no service from the origin if nothing was reachable, no routing if no egress node was reached within the maximum, else the best egress |
| Calculators.Calculator.ForwardCalculationAllNodes | connection_scan_algorithm/src/forward_calculation.cpp:201-336 | the state of the whole unindexed all-nodes scan, and no service if nothing was reachable |
| Calculators.Calculator.ChooseExit | connection_scan_algorithm/src/reverse_calculation.cpp:79-107 | first exit or re-selected exit, with its transfer time, as the step of the specified scan whose exits ReverseExits.EndIsTracked reads off the data |
| Calculators.Calculator.RelaxReverse | connection_scan_algorithm/src/reverse_calculation.cpp:124-176 | the reverse footpath loop leaves labels, steps and access entries as specified |
| Calculators.Calculator.ReverseLoop | connection_scan_algorithm/src/reverse_calculation.cpp:41-182 | the loop with its breaks leaves exactly the state of the specified reverse scan |
| Calculators.Calculator.ReverseCalculation | connection_scan_algorithm/src/reverse_calculation.cpp:12-220 | the result of the whole unindexed reverse scan: no service to the destination if nothing was reachable, else the best access or none |
| Calculators.Calculator.ReverseCalculationAllNodes | connection_scan_algorithm/src/reverse_calculation.cpp:223-382 | the state of the whole unindexed all-nodes reverse scan, and no service if nothing was reachable |
| Calculators.Calculator.LoadAccess | connection_scan_algorithm/src/resets.cpp:76-102 | access map, labels, steps, shortest and longest walk are those of the access footpaths |
| Calculators.Calculator.LoadEgress | connection_scan_algorithm/src/resets.cpp:112-141 | egress map, labels, steps, shortest and longest walk are those of the egress footpaths |
| Calculators.Calculator.ResetFilters | connection_scan_algorithm/src/resets.cpp:231-324 | the disabled trips are exactly the set's trips that the query's filter rejects |
| Calculators.Calculator.Reset | connection_scan_algorithm/src/resets.cpp:20-151 | every field is as a query starts from, previous footpaths kept when asked; it fails exactly when a fresh footpath list is empty, with no access at the origin, at the destination or at both as those lists are |
| Calculators.Calculator.RelabelEgress | connection_scan_algorithm/src/calculator.cpp:54-59 | the egress labels are those of the new arrival time, all others untouched |
| Calculators.Calculator.CalculateSingleReverse | connection_scan_algorithm/src/calculator.cpp:93-115 | a route is returned if and only if the specified reverse scan finds an access node; it answers the query by the steps behind that node's entry; otherwise the reason is no service to the destination if no connection can be come in with, else no routing |
| Calculators.Calculator.CalculateSingle | connection_scan_algorithm/src/calculator.cpp:28-90 | any route returned is a feasible chain inside the window, optimised and summed, its legs those of the steps; for forward queries its existence and target are those of the two specified passes, for the others its existence and departure are those of the specified reverse scan with all trips usable; every failure has its reason exactly: which footpath list is empty, no service from the origin (or a departure after hour 32), no service to the destination, or no routing |
| Calculators.Calculator.CalculateAllNodes | connection_scan_algorithm/src/calculator.cpp:117-166 | forward: the list of the plain scan over the whole set, or no service from the origin; reverse: the list of the plain reverse scan with all trips usable, or no service to the destination; an empty list of footpaths is no access at the place asked for |
| Calculators.QueryAsks | connection_scan_algorithm/src/calculator.cpp:28-40 | what a query asks, field by field: the time of trip is the departure or the arrival, the limits are the parameters', the disabled trips those of the set the filter leaves out |
| Timetables.ForwardIsSorted | src/transit_data.cpp:156-200 | the forward list is a permutation of the connections, by departure, and by sequence within a trip |
| Timetables.ReverseIsSorted | src/transit_data.cpp:201-229 | the reverse list is a permutation of the connections, by arrival downwards, and by sequence downwards within a trip |
| Timetables.ForwardOrder | src/transit_data.cpp:172-200 | the whole forward order: departure, then the trip's identifier, then the number in the trip |
| Timetables.ReverseOrder | src/transit_data.cpp:202-229 | the whole reverse order: arrival, identifier and number, each downwards |
| Timetables.TripListsMirror | src/transit_data.cpp:236-249 | a trip's forward list is in sequence order and its reverse list is the exact mirror |
| Timetables.TimetableIsValid | src/transit_data.cpp:153-249 | from connections as loaded, the per-trip lists satisfy everything rebuilding and optimising journeys relies on |
| TransitDatas.TransitData.GenerateForwardAndReverseConnections | src/transit_data.cpp:153-260 | both global lists are the sorted lists, and every trip has exactly its share of each, in order |
| TransitDatas.TransitData.Compute | src/transit_data.cpp:351-468 | the set holds the enabled trips and, in the order of both lists, exactly their connections |
| TransitDatas.SetHoldsTrip | src/transit_data.cpp:351-442 | a trip is in a scenario's set if and only if the scenario's non-empty lists of services, lines, modes and agencies name it and none of its except lists does |
| TransitDatas.TransitData.GetConnectionsForScenario | src/transit_data.cpp:345-472 | with either cache the set returned is what filtering from scratch gives, and what is cached stays so |
| TransitDatas.TransitData.AnswerAll | src/connection_cache.cpp:10-41 | over any run of queries on unchanged data, every set returned is what filtering from scratch gives |
| TransitDatas.SetIsCoherent | src/transit_data.cpp:443-468 | both lists of a set hold the same connections, exactly those of its trips, in the two scan orders |
| LoadedNetworks.RequestIsValid | src/transit_data.cpp:345-472 | over connections as loaded, the set of a scenario and footpaths, times and handoffs as asked for make a request the calculator accepts |
| LoadedNetworks.OutcomeIsExact | connection_scan_algorithm/src/calculator.cpp:28-75 | for composable forward queries up to hour 32 a route exists if and only if some journey the scan can follow over the scenario's connections fits the maximum, and its target is the earliest arrival of those; where none is missed, the same over all journeys on the loaded connections that the scenario keeps |
| LoadedNetworks.AnswerScenario | connection_scan_algorithm/src/resets.cpp:221-225 | looking up a scenario's set, from either cache or from scratch, and calculating on it gives that answer over the loaded connections, and leaves the caches correct |
| TransitDatas.ScenarioConnectionCacheOne.Get | src/connection_cache.cpp:10-17 | the last set, if it was cached for this scenario |
| TransitDatas.ScenarioConnectionCacheOne.Set | src/connection_cache.cpp:19-23 | this scenario's set is the only one cached |
| TransitDatas.ScenarioConnectionCacheAll.Get | src/connection_cache.cpp:26-35 | the set cached for this scenario, if any |
| TransitDatas.ScenarioConnectionCacheAll.Set | src/connection_cache.cpp:37-41 | this scenario's set is cached, the others kept |
| Combination.Combinations.constructor | include/combinations.hpp:15-22 | the output is, in order, the elements picked by each index selection of size M |
| Combination.Combinations.Generate | include/combinations.hpp:44-64 | appends every way of filling the remaining slots, in order, leaving the slots before untouched |
| Combination.SelectionsExact | include/combinations.hpp:44-64 | the selections are exactly the strictly increasing index lists of that size and range |
| Combination.SelectionsOrdered | include/combinations.hpp:44-64 | they come in lexicographic order |
| Combination.SelectionsDistinct | include/combinations.hpp:8-12 | none comes twice |
| Combination.SelectionsCount | include/combinations.hpp:33-33 | there are binomial(N, M) of them |
| Combination.BinomialClosed | include/combinations.hpp:33-33 | that number is N! / (M! (N - M)!) |
| Alternatives.BudgetAdmitsFastest | connection_scan_algorithm/src/alternatives_routing.cpp:126-135 | the travel-time limit for alternatives is at least the fastest travel time and at most the query's maximum |
| Alternatives.BudgetIs | connection_scan_algorithm/src/alternatives_routing.cpp:126-135 | the limit in numbers: for the largest k with 4 k at most 7 times the travel time plus, in a forward query, 4 times the time until departure, it is k, or 1800 if k is less, or the travel time plus 3600 if k is more, and never above the query's maximum |
| Alternatives.ExcludingAsks | connection_scan_algorithm/src/alternatives_routing.cpp:136-160 | a further calculation asks what the first one asked, with that limit, and disables exactly the set's trips on the lines excluded by the query or by the combination |
| Alternatives.AnswerAvoids | connection_scan_algorithm/src/alternatives_routing.cpp:189-195 | no route boards a line excluded for its run |
| Alternatives.MatchesFailed | connection_scan_algorithm/src/alternatives_routing.cpp:236-253 | true if and only if the combination includes every line of some failed one |
| Alternatives.Consider | connection_scan_algorithm/src/alternatives_routing.cpp:233-259 | a new combination is queued unless it includes a failed one, no queued combination repeats an earlier one, and what is seen is queued or passed over |
| Alternatives.Extend | connection_scan_algorithm/src/alternatives_routing.cpp:224-261 | afterwards every non-empty selection of the route's lines, with the combination excluded, has been seen, and those queued are queued in the same order |
| Alternatives.FirstCombinations | connection_scan_algorithm/src/alternatives_routing.cpp:170-181 | every non-empty selection of the fastest route's lines is queued, smaller ones first and those of a size in lexicographic order |
| Alternatives.Round | connection_scan_algorithm/src/alternatives_routing.cpp:186-280 | one calculation keeps every invariant of the search and counts itself |
| Alternatives.SearchAll | connection_scan_algorithm/src/alternatives_routing.cpp:183-281 | the loop over the growing worklist terminates, and unless a limit was met every queued combination was calculated |
| Alternatives.AlternativesRouting | connection_scan_algorithm/src/alternatives_routing.cpp:87-296 | the first route, or the failure, is the answer of the query itself; at most 50 routes from at most 200 calculations, no two with the same lines, each avoiding what its run excluded and within the limit; for composable forward queries a calculation succeeds if and only if, with the lines of its combination excluded, some journey the scan can follow is within the limit; unless a limit on the numbers was met every queued combination was calculated |
| Alternatives.SelectionSeen | connection_scan_algorithm/src/alternatives_routing.cpp:224-261 | every way to pick some lines of a route found, with what was excluded when it was found, is queued or includes every line of a failed combination |
| Alternatives.QueuedIs | connection_scan_algorithm/src/alternatives_routing.cpp:170-261 | every queued combination is such a pick |
| Alternatives.QueuedInOrder | connection_scan_algorithm/src/alternatives_routing.cpp:170-261 | the queue holds the picks of earlier routes first, of a route the smaller ones first, and of a size in lexicographic order |
| Alternatives.PrunedFindsNothing | connection_scan_algorithm/src/alternatives_routing.cpp:234-259 | for composable forward queries, a combination passed over would have found no route |
| QueryStrings.Encode | include/utility.hpp:71-86 | the concatenation of each byte kept if unreserved, else written as a triplet |
| QueryStrings.EncodesEach | include/utility.hpp:77-82 | letters, digits and - . _ ~ are kept, any other byte becomes % and two upper-case hexadecimal digits |
| QueryStrings.Decode | include/utility.hpp:89-107 | triplets, plus signs and other bytes decoded in turn, a triplet's digits read as strtol does, truncated ones kept |
| QueryStrings.DecodesForm | include/utility.hpp:89-107 | form text decodes to what its pieces stand for: plus signs to spaces, triplets with digits in either case to their bytes, other bytes to themselves |
| QueryStrings.DecodesMalformed | include/utility.hpp:94-98 | what two characters after % decode to when they are not two digits |
| QueryStrings.DecodesTruncated | include/utility.hpp:94-103 | a % without two characters after it stays as it is |
| QueryStrings.DecodeUndoesEncode | include/utility.hpp:71-107 | decoding undoes encoding on every byte string |
| QueryStrings.EncodeUndoesDecodeExactly | include/utility.hpp:71-107 | encoding undoes decoding if and only if the text is in normal form |
| QueryStrings.Create | include/utility.hpp:114-124 | the fields' texts joined by ampersands, in order |
| QueryStrings.TextExactly | include/utility.hpp:114-124 | each field adds its name, '=' and encoded value, after an '&' but for the first |
| QueryStrings.Parse | include/utility.hpp:127-161 | the fields of the segments between ampersands, split at their first equals sign, nameless ones dropped |
| QueryStrings.FieldsExactly | include/utility.hpp:127-161 | a text is taken apart at every '&', each segment at its first '='; without one the value is empty, without a name there is no field |
| QueryStrings.QueryStringRoundTrip | include/utility.hpp:114-161 | parsing a created query string gives all fields back if and only if every name is non-empty and has neither '&' nor '='; parsing never yields another name |
| ScopeRunners.RunIsSafe | include/utility.hpp:433-476 | in every reachable state the counter counts the live locks, or is -1 with none live, and a stop has returned only then |
| ScopeRunners.StopWaits | include/utility.hpp:466-475 | stop swaps in -1 only when no lock is live |
| ScopeRunners.StopIsFinal | include/utility.hpp:455-475 | after any stop has returned, in every later state of every interleaving no lock is live and none is granted |
| ScopeRunners.DeniedAfterStop | include/utility.hpp:455-475 | a lock is denied only after some stop has swapped 0 for -1 |
| ScopeRunners.StoppedAfterSwap | include/utility.hpp:466-475 | and a stop has returned only then |

## Left out

- Itineraries on networks with a handoff out of reverse scan order: the original may then follow steps for ever (Counterexamples.StepsCanLoop), so rebuilding, and the calculator as a whole, are proved with handoffs in that order.
- Feasibility of transfers after the rewriting of a journey: the code does not keep it (connection_scan_algorithm/src/optimize_journey.cpp:216-219 and 278).
- AllNodes.ReverseJourneyAllNodes: the travel time is the original's, which subtracts the raw minimum wait even when it is -1 (connection_scan_algorithm/src/reverse_journey.cpp:325-327); nothing is claimed about what it measures.
- Distances and the texts of steps: distances mix a -1 sentinel with accumulation.
- Calculators.Calculator.Reset: origin and destination footpaths come as lists, the filter part follows in PrepareQuery, and without an origin or destination the corresponding walk map is cleared rather than kept, which no calculation of that query reads; queries built from origin-destination survey trips are not modelled.
- Calculators.Calculator.CalculateSingle: asks for a non-negative time of trip, and at departure hour 32 for a connection at or after that hour, without which the original reads outside its table.
- Alternatives.AlternativesRouting: the ratio 1.75 is exact, floating-point rounding is not modelled; the initial combinations may repeat when the fastest route boards a line twice, as in the code.
- forwardJourneyStep for a single route: the code notes that it can only throw (connection_scan_algorithm/src/calculator.cpp:66-70).
- Walking speed factors other than 1: the parameters fix it.
- Scenario caches after data updates: the code does not invalidate them, so runs are over unchanged data.
- TransitDatas.TransitData.GetConnectionsForScenario: the reader and writer locks of the caches are not modelled.
- QueryStrings.Parse: fields are kept in order; the case-insensitive look-up of the multimap is not modelled.
- The trip-based algorithm, survey-trip routing, cache fetchers, geographic filters, the HTTP server, JSON conversion and program options.
