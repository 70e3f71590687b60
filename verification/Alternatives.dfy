// Further routes found by excluding combinations of the lines already used.
module Alternatives {
  import opened Network
  import opened Filters
  import F = ForwardScan
  import FX = ForwardExact
  import R = ReverseScan
  import T = TwoPass
  import A = Answers
  import J = Journeys
  import C = ConnectionSets
  import K = Calculators
  import Q = SingleQuery
  import S = Sorting
  import CB = Combination

  const MAX_ALTERNATIVES: int := 200
  const MAX_VALID_ALTERNATIVES: int := 50
  const MIN_MAX_TRAVEL_TIME: int := 1800
  const MAX_ADDED_TRAVEL_TIME: int := 3600

  // Lines are their local identifiers, by which they are sorted.
  type Lines = seq<nat>

  predicate SmallerUid(a: nat, b: nat) { a < b }

  lemma UidsAreOrdered()
    ensures S.StrictWeakOrder(SmallerUid) && forall s :: S.Total(SmallerUid, s)
  {
    forall a, b, c ensures S.Ordered(SmallerUid, a, b, c) {}
  }

  function Sort(lines: Lines): Lines {
    S.StableSort(SmallerUid, lines)
  }

  lemma SortKeeps(lines: Lines)
    ensures multiset(Sort(lines)) == multiset(lines) && forall l :: l in Sort(lines) <==> l in lines
  {
    UidsAreOrdered();
    S.StableSortSorts(SmallerUid, lines);
    forall l ensures l in Sort(lines) <==> l in lines {
      assert l in multiset(Sort(lines)) <==> l in multiset(lines);
    }
  }

  // ---- Parameters of the further calculations ----------------------------------------

  // Integer part of a quotient, rounding towards zero.
  function Truncated(a: int, b: int): int
    requires b > 0
  {
    if a >= 0 then a / b else -((-a) / b)
  }

  // 1.75 times the fastest travel time, plus the time until it departs, between
  // bounds.
  function Budget(p: K.Parameters, fastest: J.Route): int {
    var scaled := Truncated(7 * fastest.totalTravelTime +
                            4 * (if p.forward then fastest.departureTime - p.timeOfTrip else 0), 4);
    var bounded :=
      if scaled < MIN_MAX_TRAVEL_TIME then MIN_MAX_TRAVEL_TIME
      else if scaled > fastest.totalTravelTime + MAX_ADDED_TRAVEL_TIME then
          fastest.totalTravelTime + MAX_ADDED_TRAVEL_TIME
      else scaled;
    if bounded < p.maxTotalTravelTime then bounded else p.maxTotalTravelTime
  }

  // The limit, for the largest k with four k at most seven times the travel time
  // plus four times the time until departure: never above the maximum, otherwise k,
  // or the bound it oversteps.
  lemma BudgetIs(p: K.Parameters, fastest: J.Route, k: int)
    requires var weighted := 7 * fastest.totalTravelTime +
                             if p.forward then 4 * (fastest.departureTime - p.timeOfTrip) else 0;
             4 * k <= weighted < 4 * (k + 1)
    ensures var travel, most, limit := fastest.totalTravelTime, p.maxTotalTravelTime, Budget(p, fastest);
            && limit <= most
            && (k < 1800 ==> limit == if most <= 1800 then most else 1800)
            && (1800 <= k <= travel + 3600 ==> limit == if most <= k then most else k)
            && (1800 <= k && travel + 3600 < k ==> limit == if most <= travel + 3600 then most else travel + 3600)
  {
  }

  lemma BudgetAdmitsFastest(p: K.Parameters, fastest: J.Route)
    requires 0 <= fastest.totalTravelTime <= p.maxTotalTravelTime
    requires p.forward ==> p.timeOfTrip <= fastest.departureTime
    ensures fastest.totalTravelTime <= Budget(p, fastest) <= p.maxTotalTravelTime
  {
  }

  // The new parameters carry over no filter but the excluded lines.
  function Excluding(p: K.Parameters, budget: int, combination: Lines): K.Parameters {
    p.(maxTotalTravelTime := budget, filter := NO_FILTER.(exceptLines := p.filter.exceptLines + combination))
  }

  // What stays the same over a search.
  datatype Context = Context(
    net: K.Transit, p: K.Parameters, budget: int, access: seq<NodeTime>, egress: seq<NodeTime>,
    trips: seq<nat>, cs: seq<Connection>, rcs: seq<Connection>)

  ghost predicate ValidContext(x: Context) {
    && (forall t <- x.trips :: t < |x.net.attributes|)
    && (forall c <- x.rcs :: c.trip in x.trips)
  }

  function QueryExcluding(x: Context, combination: Lines): Query
    requires forall t <- x.trips :: t < |x.net.attributes|
  {
    K.QueryFor(x.net, Excluding(x.p, x.budget, combination), x.access, x.egress, x.trips)
  }

  // Every further calculation asks what the first one asked, but for the limit and
  // the trips left out: those on the excluded lines, and no others.
  lemma ExcludingAsks(x: Context, combination: Lines)
    requires forall t <- x.trips :: t < |x.net.attributes|
    ensures var q, first := QueryExcluding(x, combination), K.QueryFor(x.net, x.p, x.access, x.egress, x.trips);
            && q == first.(maxTotalTravelTime := x.budget, disabledTrips := q.disabledTrips)
            && forall t: nat :: t in q.disabledTrips <==>
                 && t in x.trips
                 && (x.net.attributes[t].line in x.p.filter.exceptLines || x.net.attributes[t].line in combination)
  {
    var q := QueryExcluding(x, combination);
    forall t: nat
      ensures t in q.disabledTrips <==>
              && t in x.trips
              && (x.net.attributes[t].line in x.p.filter.exceptLines || x.net.attributes[t].line in combination)
    {
      if t in x.trips { DisabledExactly(Excluding(x.p, x.budget, combination).filter, x.net.attributes, x.trips, t); }
    }
  }

  // ---- Routes and their lines --------------------------------------------------------

  predicate Listed(attributes: seq<TripAttributes>, r: J.Route) {
    forall leg <- r.legs :: leg.trip < |attributes|
  }

  function LinesOf(attributes: seq<TripAttributes>, r: J.Route): (lines: Lines)
    requires Listed(attributes, r)
    ensures |lines| == |r.legs|
    ensures forall m: nat | m < |lines| :: r.legs[m].trip < |attributes| && lines[m] == attributes[r.legs[m].trip].line
  {
    assert forall m: nat | m < |r.legs| :: r.legs[m] in r.legs;
    seq(|r.legs|, m requires 0 <= m < |r.legs| && r.legs[m].trip < |attributes| => attributes[r.legs[m].trip].line)
  }

  ghost predicate Avoids(attributes: seq<TripAttributes>, r: J.Route, lines: Lines) {
    Listed(attributes, r) && forall l <- LinesOf(attributes, r) :: l !in lines
  }

  // Every ride of an answer is on a trip of the set that no filter disables.
  lemma AnswerAvoids(x: Context, p: K.Parameters, t: int, tr: A.Trace, o: A.Optimization, r: J.Route)
    requires ValidContext(x)
    requires A.Answers(x.net.timetable, x.net.infos,
                       T.ReverseQuery(K.QueryFor(x.net, p, x.access, x.egress, x.trips), t), x.rcs, tr, o, r)
    ensures Avoids(x.net.attributes, r, p.filter.exceptLines) && r.legs != []
  {
    var q := T.ReverseQuery(K.QueryFor(x.net, p, x.access, x.egress, x.trips), t);
    forall m: nat | m < |r.legs| ensures LegAvoiding(x.net.attributes, r.legs[m], p.filter.exceptLines) {
      LegAvoids(x, p, q, tr, o, r, m);
    }
    HasLegs(x, q, tr, o, r);
    LegsAvoid(x.net.attributes, r, p.filter.exceptLines);
  }

  ghost predicate LegAvoiding(attributes: seq<TripAttributes>, leg: J.Ridden, lines: Lines) {
    leg.trip < |attributes| && attributes[leg.trip].line !in lines
  }

  lemma LegsAvoid(attributes: seq<TripAttributes>, r: J.Route, lines: Lines)
    requires forall m: nat | m < |r.legs| :: LegAvoiding(attributes, r.legs[m], lines)
    ensures Avoids(attributes, r, lines)
  {
    forall leg <- r.legs ensures leg.trip < |attributes| {
      var m: nat :| m < |r.legs| && r.legs[m] == leg;
      assert LegAvoiding(attributes, r.legs[m], lines);
    }
    forall l <- LinesOf(attributes, r) ensures l !in lines {
      var m: nat :| m < |r.legs| && LinesOf(attributes, r)[m] == l;
      assert LegAvoiding(attributes, r.legs[m], lines);
    }
  }

  lemma HasLegs(x: Context, q: Query, tr: A.Trace, o: A.Optimization, r: J.Route)
    requires A.Answers(x.net.timetable, x.net.infos, q, x.rcs, tr, o, r)
    ensures r.legs != []
  {
    assert |r.legs| == |o.journey| - 2;
  }

  lemma LegAvoids(x: Context, p: K.Parameters, q: Query, tr: A.Trace, o: A.Optimization, r: J.Route, m: nat)
    requires ValidContext(x) && q.disabledTrips == Disabled(p.filter, x.net.attributes, x.trips) && m < |r.legs|
    requires A.Answers(x.net.timetable, x.net.infos, q, x.rcs, tr, o, r)
    ensures LegAvoiding(x.net.attributes, r.legs[m], p.filter.exceptLines)
  {
    A.RouteAvoidsDisabled(x.net.timetable, x.net.infos, q, x.rcs, tr, o, r);
    var k := A.RideIsOnLeg(x.net.timetable, q, x.rcs, tr, o, m);
    assert tr.legs[k].enter in x.rcs;
  }

  // ---- The state of a search ----------------------------------------------------------

  datatype Search = Search(
    all: seq<Lines>,
    failed: seq<Lines>,
    memo: set<Lines>,
    found: set<Lines>,
    routes: seq<J.Route>,
    count: int,
    sequence: int)

  // One calculation: the combination excluded and what came of it.
  datatype Calculation = Calculation(combination: Lines, result: K.Result<J.Route>)

  // Where a queued combination comes from: a selection of the lines of a route.
  datatype Origin = Origin(route: nat, sel: seq<nat>)

  // Not kept by the original: the combination each route was found under, the
  // combinations passed over, the calculations, the number of first combinations,
  // where those queued come from.
  datatype History = History(under: seq<Lines>, pruned: seq<Lines>, runs: seq<Calculation>, first: nat,
                             origins: seq<Origin>)

  // The calculation under this combination found nothing.
  ghost predicate Failing(x: Context, combination: Lines)
    requires ValidContext(x)
  {
    x.p.forward && x.p.timeOfTrip / 3600 <= 32 ==>
      var q := QueryExcluding(x, combination);
      K.ForwardThenReverse(q, x.cs, x.rcs, false, 0)
  }

  // The result is what a single query with these parameters gives.
  ghost predicate Answered(x: Context, p: K.Parameters, result: K.Result<J.Route>) {
    && (forall t <- x.trips :: t < |x.net.attributes|)
    && var q := K.QueryFor(x.net, p, x.access, x.egress, x.trips);
       exists target, tr, o :: K.Outcome(x.net, q, p, x.cs, x.rcs, result, target, tr, o)
  }

  // The calculation answers for its combination.
  ghost predicate Decides(x: Context, run: Calculation) {
    Answered(x, Excluding(x.p, x.budget, run.combination), run.result)
  }

  predicate Includes(combination: Lines, part: Lines) {
    forall l <- part :: l in combination
  }

  // Routes: within the limits, avoiding what their run excluded, no two with the
  // same lines.
  ghost predicate RoutesOk(x: Context, s: Search, h: History) {
    && |h.under| == |s.routes| <= MAX_VALID_ALTERNATIVES && s.routes != []
    && (forall i: nat | i < |s.routes| :: RouteOk(x, s.routes[i], h.under[i]))
    && (forall i: nat | 0 < i < |s.routes| :: s.routes[i].totalTravelTime <= x.budget)
    && (forall i: nat, j: nat | i < j < |s.routes| :: Differ(x, s.routes[i], s.routes[j]))
    && (forall i: nat | i < |s.routes| ::
          Listed(x.net.attributes, s.routes[i]) &&
          Sort(LinesOf(x.net.attributes, s.routes[i])) in s.found)
    && (forall lines <- s.found :: FoundBy(x, s.routes, lines))
  }

  ghost predicate FoundBy(x: Context, routes: seq<J.Route>, lines: Lines) {
    exists i: nat :: i < |routes| && Listed(x.net.attributes, routes[i])
        && Sort(LinesOf(x.net.attributes, routes[i])) == lines
  }

  ghost predicate RouteOk(x: Context, r: J.Route, under: Lines) {
    r.legs != [] && Avoids(x.net.attributes, r, x.p.filter.exceptLines + under)
  }

  ghost predicate Differ(x: Context, a: J.Route, b: J.Route) {
    && Listed(x.net.attributes, a) && Listed(x.net.attributes, b)
    && multiset(LinesOf(x.net.attributes, a)) != multiset(LinesOf(x.net.attributes, b))
  }

  ghost predicate CountersOk(s: Search, h: History) {
    && s.sequence == |s.routes| + 1
    && s.count == |h.runs| + 1 && 2 <= s.count <= MAX_ALTERNATIVES
  }

  // A failed calculation is on the list of failures; the lines of a successful one
  // are those of some route returned.
  ghost predicate RunsOk(x: Context, s: Search, h: History) {
    && (forall run <- h.runs :: RunOk(x, s, run))
    && (forall k: nat | 0 < k < |h.runs| :: ForQueued(s.all, h.runs[k], k))
  }

  // The first calculation excludes nothing; calculation k is for the k-th
  // combination queued.
  ghost predicate ForQueued(all: seq<Lines>, run: Calculation, k: nat) {
    0 < k <= |all| && run.combination == all[k - 1]
  }

  ghost predicate RunOk(x: Context, s: Search, run: Calculation) {
    match run.result
    case Failed(_) => run.combination in s.failed
    case Ok(r) => RouteOk(x, r, run.combination) && exists i: nat :: i < |s.routes| && SameLines(x, s.routes[i], r)
  }

  ghost predicate SameLines(x: Context, a: J.Route, b: J.Route) {
    && Listed(x.net.attributes, a) && Listed(x.net.attributes, b)
    && multiset(LinesOf(x.net.attributes, a)) == multiset(LinesOf(x.net.attributes, b))
  }

  // A combination seen is queued or passed over; passed over only if it includes
  // a failed one.
  ghost predicate WorklistOk(s: Search, h: History) {
    && (forall c :: c in s.memo <==> c in s.all || c in h.pruned)
    && (forall g <- h.pruned :: exists f <- s.failed :: Includes(g, f))
    && h.first <= |s.all|
    && (forall j: nat | h.first <= j < |s.all| :: NewAt(s.all, j))
  }

  // Not in the list before.
  ghost predicate NewAt(all: seq<Lines>, j: nat)
    requires j < |all|
  {
    all[j] !in all[..j]
  }

  ghost predicate FailuresOk(x: Context, s: Search)
    requires ValidContext(x)
  {
    forall f <- s.failed :: Failing(x, f)
  }

  // Every selection of the lines, with the combination, has been seen.
  ghost predicate Covered(lines: Lines, combination: Lines, memo: set<Lines>) {
    forall k: nat | 1 <= k <= |lines| :: CoveredSize(lines, combination, k, memo)
  }

  ghost predicate CoveredSize(lines: Lines, combination: Lines, k: nat, memo: set<Lines>) {
    forall sel | CB.IsSelection(0, |lines|, k, sel) :: Seen(lines, combination, sel, memo)
  }

  ghost predicate Seen(lines: Lines, combination: Lines, sel: seq<nat>, memo: set<Lines>) {
    CB.Below(lines, sel) && Sort(CB.Pick(lines, sel) + combination) in memo
  }

  ghost predicate CoverageOk(x: Context, s: Search, h: History) {
    && |h.under| == |s.routes|
    && (forall i: nat | i < |s.routes| ::
          Listed(x.net.attributes, s.routes[i])
              && Covered(Sort(LinesOf(x.net.attributes, s.routes[i])), h.under[i], s.memo))
  }

  // Earlier routes first, then smaller selections, then in lexicographic order.
  ghost predicate ComesFirst(a: Origin, b: Origin) {
    || a.route < b.route
    || (a.route == b.route && (|a.sel| < |b.sel| || (|a.sel| == |b.sel| && CB.Less(a.sel, b.sel))))
  }

  ghost predicate InOrder(origins: seq<Origin>) {
    forall j: nat, k: nat | j < k < |origins| :: ComesFirst(origins[j], origins[k])
  }

  // c is that selection of the lines, with the combination.
  ghost predicate ComesBy(lines: Lines, combination: Lines, c: Lines, sel: seq<nat>) {
    && 1 <= |sel| && CB.IsSelection(0, |lines|, |sel|, sel) && CB.Below(lines, sel)
    && c == Sort(CB.Pick(lines, sel) + combination)
  }

  // What was queued from position start on comes from the route's lines.
  ghost predicate QueuedFrom(all: seq<Lines>, origins: seq<Origin>, start: nat, route: nat, lines: Lines,
                             combination: Lines) {
    && |origins| == |all| && start <= |all|
    && forall j: nat | start <= j < |all| ::
         origins[j].route == route && ComesBy(lines, combination, all[j], origins[j].sel)
  }

  // All come from earlier routes or from selections smaller than k, or are among the
  // first m of size k.
  ghost predicate UpTo(origins: seq<Origin>, route: nat, k: nat, sels: seq<seq<nat>>, m: nat)
    requires m <= |sels|
  {
    forall o <- origins ::
      o.route < route || (o.route == route && (|o.sel| < k || (|o.sel| == k && o.sel in sels[..m])))
  }

  ghost predicate QueueAt(all: seq<Lines>, origins: seq<Origin>, start: nat, route: nat, lines: Lines,
                          combination: Lines, k: nat, sels: seq<seq<nat>>, m: nat)
    requires m <= |sels|
  {
    && QueuedFrom(all, origins, start, route, lines, combination) && InOrder(origins)
    && UpTo(origins, route, k, sels, m)
  }

  lemma QueueNext(all: seq<Lines>, origins: seq<Origin>, start: nat, route: nat, lines: Lines, combination: Lines,
                  k: nat, sels: seq<seq<nat>>, m: nat, c: Lines)
    requires 1 <= k && sels == CB.Selections(0, |lines|, k) && m < |sels|
    requires Whole(QueueAt(all, origins, start, route, lines, combination, k, sels, m))
    requires CB.Below(lines, sels[m]) && c == Sort(CB.Pick(lines, sels[m]) + combination)
    ensures Whole(QueueAt(all, origins, start, route, lines, combination, k, sels, m + 1))
    ensures Whole(QueueAt(all + [c], origins + [Origin(route, sels[m])], start, route, lines, combination, k, sels,
                          m + 1))
  {
    var o := Origin(route, sels[m]);
    CB.SelectionsExact(0, |lines|, k, sels[m]);
    CB.SelectionsOrdered(0, |lines|, k);
    assert sels[..m + 1] == sels[..m] + [sels[m]];
    forall j: nat | j < |origins| ensures ComesFirst(origins[j], o) { assert origins[j] in origins; }
  }

  // All selections of size k done, the next size begins.
  lemma QueueGrows(all: seq<Lines>, origins: seq<Origin>, start: nat, route: nat, lines: Lines, combination: Lines,
                   k: nat, sels: seq<seq<nat>>)
    requires Whole(QueueAt(all, origins, start, route, lines, combination, k, sels, |sels|))
    ensures Whole(QueueAt(all, origins, start, route, lines, combination, k + 1, [], 0))
  {
  }

  lemma QueueStarts(all: seq<Lines>, origins: seq<Origin>, start: nat, route: nat, lines: Lines, combination: Lines,
                    k: nat, sels: seq<seq<nat>>)
    requires Whole(QueueAt(all, origins, start, route, lines, combination, k, [], 0))
    ensures Whole(QueueAt(all, origins, start, route, lines, combination, k, sels, 0))
  {
  }

  lemma QueueEnds(all: seq<Lines>, origins: seq<Origin>, start: nat, route: nat, lines: Lines, combination: Lines,
                  k: nat)
    requires Whole(QueueAt(all, origins, start, route, lines, combination, k, [], 0))
    ensures Whole(QueuedFrom(all, origins, start, route, lines, combination)) && InOrder(origins)
  {
  }

  ghost predicate QueueOk(x: Context, s: Search, h: History) {
    && |h.origins| == |s.all| && |h.under| == |s.routes| && InOrder(h.origins)
    && forall j: nat | j < |s.all| :: OriginOk(x, s, h, j)
  }

  ghost predicate OriginOk(x: Context, s: Search, h: History, j: nat)
    requires j < |h.origins| == |s.all| && |h.under| == |s.routes|
  {
    var o := h.origins[j];
    && o.route < |s.routes| && Listed(x.net.attributes, s.routes[o.route])
    && ComesBy(Sort(LinesOf(x.net.attributes, s.routes[o.route])), h.under[o.route], s.all[j], o.sel)
  }

  // ---- Queueing combinations ------------------------------------------------------------

  // Does the combination include one that failed?
  method MatchesFailed(combination: Lines, failed: seq<Lines>) returns (matches: bool)
    ensures matches <==> exists f <- failed :: Includes(combination, f)
  {
    matches := false;
    for i := 0 to |failed|
      invariant !matches && forall j: nat | j < i :: !Includes(combination, failed[j])
    {
      var all := true;
      for j := 0 to |failed[i]|
        invariant all && forall m: nat | m < j :: failed[i][m] in combination
      {
        if failed[i][j] !in combination {
          all := false;
          break;
        }
      }
      if all {
        assert failed[i] in failed && Includes(combination, failed[i]);
        return true;
      }
    }
  }

  // Only the worklist grows.
  ghost predicate Grown(s: Search, s': Search) {
    s' == s.(all := s'.all, memo := s'.memo) && s.memo <= s'.memo && s.all <= s'.all
  }

  method Consider(s: Search, ghost h: History, combination: Lines, ghost o: Origin)
    returns (s': Search, ghost h': History)
    requires WorklistOk(s, h)
    ensures WorklistOk(s', h') && Grown(s, s') && h' == h.(pruned := h'.pruned, origins := h'.origins)
    ensures combination in s'.memo
    ensures if s'.all == s.all then h'.origins == h.origins
            else s'.all == s.all + [combination] && h'.origins == h.origins + [o]
  {
    s', h' := s, h;
    if combination !in s.memo {
      var matches := MatchesFailed(combination, s.failed);
      if !matches {
        NewAtEnd(s.all, combination);
        s' := s.(all := s.all + [combination], memo := s.memo + {combination});
        h' := h.(origins := h.origins + [o]);
      } else {
        s', h' := s.(memo := s.memo + {combination}), h.(pruned := h.pruned + [combination]);
      }
    }
  }

  lemma NewAtEnd(all: seq<Lines>, c: Lines)
    requires c !in all
    ensures NewAt(all + [c], |all|)
    ensures forall j: nat | j < |all| && NewAt(all, j) :: NewAt(all + [c], j)
  {
    var more := all + [c];
    assert more[..|all|] == all;
    forall j: nat | j < |all| && NewAt(all, j) ensures NewAt(more, j) {
      assert more[..j] == all[..j];
    }
  }

  // All selections of a route's lines, together with the combination excluded.
  method Extend(s: Search, ghost h: History, lines: Lines, combination: Lines, ghost route: nat)
    returns (s': Search, ghost h': History)
    requires WorklistOk(s, h) && |h.origins| == |s.all| && InOrder(h.origins)
    requires forall o <- h.origins :: o.route < route
    ensures WorklistOk(s', h') && Grown(s, s') && h' == h.(pruned := h'.pruned, origins := h'.origins)
    ensures Covered(lines, combination, s'.memo)
    ensures h.origins <= h'.origins && InOrder(h'.origins)
    ensures Whole(QueuedFrom(s'.all, h'.origins, |s.all|, route, lines, combination))
  {
    s', h' := s, h;
    for k := 1 to |lines| + 1
      invariant WorklistOk(s', h') && Grown(s, s') && h' == h.(pruned := h'.pruned, origins := h'.origins)
      invariant forall m: nat | 1 <= m < k :: CoveredSize(lines, combination, m, s'.memo)
      invariant h.origins <= h'.origins
      invariant Whole(QueueAt(s'.all, h'.origins, |s.all|, route, lines, combination, k, [], 0))
    {
      ghost var before := s'.memo;
      s', h' := ExtendBySize(s', h', lines, combination, k, |s.all|, route);
      forall m: nat | 1 <= m < k ensures CoveredSize(lines, combination, m, s'.memo) {
        CoveredMore(lines, combination, m, before, s'.memo);
      }
    }
    QueueEnds(s'.all, h'.origins, |s.all|, route, lines, combination, |lines| + 1);
  }

  lemma CoveredMore(lines: Lines, combination: Lines, k: nat, memo: set<Lines>, more: set<Lines>)
    requires CoveredSize(lines, combination, k, memo) && memo <= more
    ensures CoveredSize(lines, combination, k, more)
  {
    forall sel | CB.IsSelection(0, |lines|, k, sel) ensures Seen(lines, combination, sel, more) {
      assert Seen(lines, combination, sel, memo);
    }
  }

  method ExtendBySize(s: Search, ghost h: History, lines: Lines, combination: Lines, k: nat, ghost start: nat,
                      ghost route: nat)
    returns (s': Search, ghost h': History)
    requires WorklistOk(s, h) && 1 <= k
    requires Whole(QueueAt(s.all, h.origins, start, route, lines, combination, k, [], 0))
    ensures WorklistOk(s', h') && Grown(s, s') && h' == h.(pruned := h'.pruned, origins := h'.origins)
    ensures CoveredSize(lines, combination, k, s'.memo)
    ensures Whole(QueueAt(s'.all, h'.origins, start, route, lines, combination, k + 1, [], 0))
    ensures h.origins <= h'.origins
  {
    s', h' := s, h;
    var combinations := new CB.Combinations(lines, k);
    var out := combinations.out;
    ghost var sels := CB.Selections(0, |lines|, k);
    WaysPick(lines, k, out);
    QueueStarts(s.all, h.origins, start, route, lines, combination, k, sels);
    for m := 0 to |out|
      invariant WorklistOk(s', h') && Grown(s, s') && h' == h.(pruned := h'.pruned, origins := h'.origins)
      invariant FirstSeen(out, m, combination, s'.memo)
      invariant Whole(QueueAt(s'.all, h'.origins, start, route, lines, combination, k, sels, m))
      invariant h.origins <= h'.origins
    {
      QueueNext(s'.all, h'.origins, start, route, lines, combination, k, sels, m, Sort(out[m] + combination));
      ghost var before := s'.memo;
      s', h' := Consider(s', h', Sort(out[m] + combination), Origin(route, sels[m]));
      FirstSeenNext(out, m, combination, before, s'.memo);
    }
    OutCovers(lines, combination, k, out, s'.memo);
    QueueGrows(s'.all, h'.origins, start, route, lines, combination, k, sels);
  }

  // The combinations come as the selections do.
  lemma WaysPick(lines: Lines, k: nat, out: seq<Lines>)
    requires out == CB.Ways(lines, [], 0, k)
    ensures var sels := CB.Selections(0, |lines|, k);
            && |out| == |sels|
            && forall m: nat | m < |out| :: CB.Below(lines, sels[m]) && out[m] == CB.Pick(lines, sels[m])
  {
    CB.SelectionsInRange(lines, 0, k);
    forall m: nat | m < |out| ensures out[m] == CB.Pick(lines, CB.Selections(0, |lines|, k)[m]) {
      assert out[m] == [] + CB.Pick(lines, CB.Selections(0, |lines|, k)[m]);
    }
  }

  ghost predicate FirstSeen(out: seq<Lines>, m: nat, combination: Lines, memo: set<Lines>) {
    m <= |out| && forall j: nat | j < m :: Sort(out[j] + combination) in memo
  }

  lemma FirstSeenNext(out: seq<Lines>, m: nat, combination: Lines, memo: set<Lines>, more: set<Lines>)
    requires FirstSeen(out, m, combination, memo) && m < |out| && memo <= more && Sort(out[m] + combination) in more
    ensures FirstSeen(out, m + 1, combination, more)
  {
  }

  lemma OutCovers(lines: Lines, combination: Lines, k: nat, out: seq<Lines>, memo: set<Lines>)
    requires out == CB.Ways(lines, [], 0, k)
    requires FirstSeen(out, |out|, combination, memo)
    ensures CoveredSize(lines, combination, k, memo)
  {
    forall sel | CB.IsSelection(0, |lines|, k, sel) ensures Seen(lines, combination, sel, memo) {
      CB.SelectionsExact(0, |lines|, k, sel);
      var j: nat :| j < |CB.Selections(0, |lines|, k)| && CB.Selections(0, |lines|, k)[j] == sel;
      assert out[j] == [] + CB.Pick(lines, sel);
      assert out[j] == CB.Pick(lines, sel);
    }
  }

  // The first combinations, queued without looking for repeats.
  method FirstCombinations(lines: Lines) returns (all: seq<Lines>, memo: set<Lines>, ghost origins: seq<Origin>)
    ensures forall c :: c in memo <==> c in all
    ensures Covered(lines, [], memo)
    ensures Whole(QueuedFrom(all, origins, 0, 0, lines, [])) && InOrder(origins)
  {
    all, memo, origins := [], {}, [];
    for k := 1 to |lines| + 1
      invariant forall c :: c in memo <==> c in all
      invariant forall m: nat | 1 <= m < k :: CoveredSize(lines, [], m, memo)
      invariant Whole(QueueAt(all, origins, 0, 0, lines, [], k, [], 0))
    {
      ghost var before := memo;
      all, memo, origins := FirstBySize(lines, k, all, memo, origins);
      forall m: nat | 1 <= m < k ensures CoveredSize(lines, [], m, memo) {
        CoveredMore(lines, [], m, before, memo);
      }
    }
    QueueEnds(all, origins, 0, 0, lines, [], |lines| + 1);
  }

  method FirstBySize(lines: Lines, k: nat, all0: seq<Lines>, memo0: set<Lines>, ghost origins0: seq<Origin>)
      returns (all: seq<Lines>, memo: set<Lines>, ghost origins: seq<Origin>)
    requires 1 <= k && forall c :: c in memo0 <==> c in all0
    requires Whole(QueueAt(all0, origins0, 0, 0, lines, [], k, [], 0))
    ensures (forall c :: c in memo <==> c in all) && memo0 <= memo
    ensures CoveredSize(lines, [], k, memo)
    ensures Whole(QueueAt(all, origins, 0, 0, lines, [], k + 1, [], 0))
  {
    all, memo, origins := all0, memo0, origins0;
    var combinations := new CB.Combinations(lines, k);
    var out := combinations.out;
    ghost var sels := CB.Selections(0, |lines|, k);
    WaysPick(lines, k, out);
    QueueStarts(all, origins, 0, 0, lines, [], k, sels);
    for m := 0 to |out|
      invariant (forall c :: c in memo <==> c in all) && memo0 <= memo
      invariant FirstSeen(out, m, [], memo)
      invariant Whole(QueueAt(all, origins, 0, 0, lines, [], k, sels, m))
    {
      var combination := Sort(out[m]);
      assert out[m] + [] == out[m];
      FirstSeenNext(out, m, [], memo, memo + {combination});
      QueueNext(all, origins, 0, 0, lines, [], k, sels, m, combination);
      all, memo, origins := all + [combination], memo + {combination}, origins + [Origin(0, sels[m])];
    }
    OutCovers(lines, [], k, out, memo);
    QueueGrows(all, origins, 0, 0, lines, [], k, sels);
  }

  // ---- One round --------------------------------------------------------------------------

  // Every invariant of the search.
  ghost predicate SearchOk(x: Context, s: Search, h: History) {
    Whole(Consistent(x, s, h))
  }

  ghost predicate Consistent(x: Context, s: Search, h: History) {
    && ValidContext(x)
    && RoutesOk(x, s, h) && CountersOk(s, h) && WorklistOk(s, h) && FailuresOk(x, s) && CoverageOk(x, s, h)
        && RunsOk(x, s, h) && QueueOk(x, s, h)
  }

  // The calculator, the request and the context speak of the same search.
  ghost predicate Agrees(x: Context, calculator: K.Calculator, p: K.Parameters, set_: C.ConnectionSet)
    reads calculator
  {
    Whole(SameSearch(x, calculator, p, set_))
  }

  ghost predicate SameSearch(x: Context, calculator: K.Calculator, p: K.Parameters, set_: C.ConnectionSet)
    reads calculator
  {
    && ValidContext(x) && x.net == calculator.net && x.p == p
    && x.access == calculator.accessFootpaths && x.egress == calculator.egressFootpaths
    && x.trips == set_.trips && x.cs == set_.forwardConnections && x.rcs == set_.reverseConnections
    && calculator.ValidRequest(p, set_, calculator.accessFootpaths, calculator.egressFootpaths)
  }

  lemma ExcludingIsValid(x: Context, calculator: K.Calculator, p: K.Parameters, set_: C.ConnectionSet, budget: int,
                         combination: Lines)
    requires Agrees(x, calculator, p, set_)
    ensures calculator.ValidRequest(Excluding(p, budget, combination), set_, calculator.accessFootpaths,
                                    calculator.egressFootpaths)
  {
    var q := K.QueryFor(calculator.net, p, calculator.accessFootpaths, calculator.egressFootpaths, set_.trips);
    var q2 := K.QueryFor(calculator.net, Excluding(p, budget, combination), calculator.accessFootpaths,
                         calculator.egressFootpaths, set_.trips);
    SameData(q, q2, set_.forwardConnections, set_.reverseConnections);
    R.HandoffsStayOrdered(q, q2, set_.reverseConnections);
  }

  lemma SameData(q: Query, q2: Query, cs: seq<Connection>, rcs: seq<Connection>)
    requires F.ValidForward(q, cs) && R.ValidReverse(q, rcs)
    requires q2 == q.(maxTotalTravelTime := q2.maxTotalTravelTime, disabledTrips := q2.disabledTrips)
    ensures F.ValidForward(q2, cs) && R.ValidReverse(q2, rcs)
  {
    forall c <- cs ensures ValidConnection(q2, c) && F.Fits(q2, c) { assert ValidConnection(q, c) && F.Fits(q, c); }
    forall c <- rcs ensures ValidConnection(q2, c) && R.Fits(q2, c) { assert ValidConnection(q, c) && R.Fits(q, c); }
  }

  method Calculate(ghost x: Context, calculator: K.Calculator, p: K.Parameters, set_: C.ConnectionSet, budget: int,
                   combination: Lines)
    returns (r: K.Result<J.Route>)
    requires Agrees(x, calculator, p, set_) && x.budget == budget
    modifies calculator
    ensures Agrees(x, calculator, p, set_)
    ensures r.Ok? ==> RouteOk(x, r.value, combination) && r.value.totalTravelTime <= budget
    ensures r.Failed? ==> Failing(x, combination)
    ensures Whole(Decides(x, Calculation(combination, r)))
  {
    ExcludingIsValid(x, calculator, p, set_, budget, combination);
    var p2 := Excluding(p, budget, combination);
    ghost var target, tr, o;
    r, target, tr, o := calculator.CalculateSingle(p2, set_, [], [], false);
    OutcomeMeans(x, combination, r, target, tr, o);
    if r.Ok? {
      AnswerAvoids(x, p2, target, tr, o, r.value);
      AnswerInBudget(x, combination, target, tr, o, r.value);
    }
  }

  lemma OutcomeMeans(x: Context, combination: Lines, r: K.Result<J.Route>, target: int, tr: A.Trace, o: A.Optimization)
    requires ValidContext(x)
    requires Whole(K.Outcome(x.net, QueryExcluding(x, combination), Excluding(x.p, x.budget, combination), x.cs, x.rcs,
                             r, target, tr, o))
    ensures r.Failed? ==> Failing(x, combination)
    ensures Decides(x, Calculation(combination, r))
    ensures r.Ok? ==> Whole(A.Answers(x.net.timetable, x.net.infos,
                                      T.ReverseQuery(QueryExcluding(x, combination), target),
                                      x.rcs, tr, o, r.value))
  {
  }

  lemma AnswerInBudget(x: Context, combination: Lines, t: int, tr: A.Trace, o: A.Optimization, r: J.Route)
    requires ValidContext(x) && ValidQuery(QueryExcluding(x, combination))
    requires Whole(A.Answers(x.net.timetable, x.net.infos, T.ReverseQuery(QueryExcluding(x, combination), t), x.rcs,
                             tr, o, r))
    ensures r.totalTravelTime <= x.budget
  {
    A.RouteIsInWindow(x.net.timetable, x.net.infos, T.ReverseQuery(QueryExcluding(x, combination), t), x.rcs, tr, o, r);
  }

  lemma NewRouteDiffers(x: Context, s: Search, h: History, r: J.Route)
    requires RoutesOk(x, s, h) && Listed(x.net.attributes, r) && Sort(LinesOf(x.net.attributes, r)) !in s.found
    ensures forall i: nat | i < |s.routes| :: Differ(x, s.routes[i], r)
  {
    UidsAreOrdered();
    forall i: nat | i < |s.routes| ensures Differ(x, s.routes[i], r) {
      S.SortCanonical(SmallerUid, LinesOf(x.net.attributes, s.routes[i]), LinesOf(x.net.attributes, r));
    }
  }

  lemma RouteAdded(x: Context, s: Search, h: History, r: J.Route, combination: Lines, s': Search, h': History)
    requires RoutesOk(x, s, h) && |s.routes| < MAX_VALID_ALTERNATIVES
    requires RouteOk(x, r, combination) && r.totalTravelTime <= x.budget
        && Sort(LinesOf(x.net.attributes, r)) !in s.found
    requires s'.routes == s.routes + [r] && s'.found == s.found + {Sort(LinesOf(x.net.attributes, r))}
    requires h'.under == h.under + [combination]
    ensures RoutesOk(x, s', h')
  {
    NewRouteDiffers(x, s, h, r);
    forall lines <- s'.found ensures FoundBy(x, s'.routes, lines) {
      FoundByAdded(x, s.routes, r, lines, lines in s.found);
    }
  }

  lemma FoundByAdded(x: Context, routes: seq<J.Route>, r: J.Route, lines: Lines, before: bool)
    requires if before then FoundBy(x, routes, lines) else
              Listed(x.net.attributes, r) &&
              lines == Sort(LinesOf(x.net.attributes, r))
    ensures FoundBy(x, routes + [r], lines)
  {
    var more := routes + [r];
    if before {
      var i: nat :| i < |routes| && Listed(x.net.attributes, routes[i])
          && Sort(LinesOf(x.net.attributes, routes[i])) == lines;
      assert more[i] == routes[i];
    } else {
      assert more[|routes|] == r;
    }
  }

  // Earlier calculations stay accounted for as the search grows.
  lemma RunsKept(x: Context, s: Search, h: History, s': Search, h': History)
    requires RunsOk(x, s, h) && s.all <= s'.all && s.failed <= s'.failed && s.routes <= s'.routes && h'.runs == h.runs
    ensures RunsOk(x, s', h')
  {
    forall run <- h'.runs ensures RunOk(x, s', run) {
      assert RunOk(x, s, run);
      if run.result.Ok? {
        var i: nat :| i < |s.routes| && SameLines(x, s.routes[i], run.result.value);
        assert s'.routes[i] == s.routes[i];
      }
    }
  }

  // The calculation just made is for the next queued combination.
  lemma RunsNext(x: Context, s: Search, h: History, run: Calculation, h': History)
    requires RunsOk(x, s, h) && RunOk(x, s, run) && h'.runs == h.runs + [run]
    requires 0 < |h.runs| <= |s.all| && run.combination == s.all[|h.runs| - 1]
    ensures RunsOk(x, s, h')
  {
  }

  // The route found is new or has the lines of one returned before.
  lemma FoundBefore(x: Context, s: Search, h: History, r: J.Route)
    requires RoutesOk(x, s, h) && Listed(x.net.attributes, r) && Sort(LinesOf(x.net.attributes, r)) in s.found
    ensures exists i: nat :: i < |s.routes| && SameLines(x, s.routes[i], r)
  {
    assert FoundBy(x, s.routes, Sort(LinesOf(x.net.attributes, r)));
    var i: nat :| i < |s.routes| && Listed(x.net.attributes, s.routes[i])
                  && Sort(LinesOf(x.net.attributes, s.routes[i])) == Sort(LinesOf(x.net.attributes, r));
    UidsAreOrdered();
    S.SortCanonical(SmallerUid, LinesOf(x.net.attributes, s.routes[i]), LinesOf(x.net.attributes, r));
    assert SameLines(x, s.routes[i], r);
  }

  lemma CoverageAdded(x: Context, s: Search, h: History, r: J.Route, combination: Lines, s': Search, h': History)
    requires CoverageOk(x, s, h) && Listed(x.net.attributes, r)
    requires s'.routes == s.routes + [r] && h'.under == h.under + [combination] && s.memo <= s'.memo
    requires Covered(Sort(LinesOf(x.net.attributes, r)), combination, s'.memo)
    ensures CoverageOk(x, s', h')
  {
    forall i: nat | i < |s'.routes|
      ensures Listed(x.net.attributes, s'.routes[i])
          && Covered(Sort(LinesOf(x.net.attributes, s'.routes[i])), h'.under[i], s'.memo)
    {
      if i < |s.routes| {
        var lines := Sort(LinesOf(x.net.attributes, s.routes[i]));
        forall k: nat | 1 <= k <= |lines| ensures CoveredSize(lines, h.under[i], k, s'.memo) {
          CoveredMore(lines, h.under[i], k, s.memo, s'.memo);
        }
      }
    }
  }

  // A new route and the combinations it gives rise to.
  method AddRoute(ghost x: Context, s: Search, ghost h: History, lines: Lines, combination: Lines, r: J.Route)
    returns (s': Search, ghost h': History)
    requires SearchOk(x, s, h) && |s.routes| < MAX_VALID_ALTERNATIVES
    requires RouteOk(x, r, combination) && r.totalTravelTime <= x.budget
    requires lines == Sort(LinesOf(x.net.attributes, r)) && lines !in s.found
    ensures SearchOk(x, s', h') && s.all <= s'.all && s'.failed == s.failed && s'.count == s.count && h'.runs == h.runs
    ensures s'.routes == s.routes + [r]
  {
    OriginsBefore(x, s, h);
    s', h' := Extend(s, h, lines, combination, |s.routes|);
    s' := s'.(routes := s.routes + [r], found := s.found + {lines}, sequence := s.sequence + 1);
    h' := h'.(under := h.under + [combination]);
    AddedIsOk(x, s, h, lines, combination, r, s', h');
  }

  // What adding a route changes, the queue of combinations apart.
  ghost predicate Added(x: Context, s: Search, h: History, lines: Lines, combination: Lines, r: J.Route, s': Search,
                        h': History) {
    && s'.routes == s.routes + [r] && s'.found == s.found + {lines} && s'.sequence == s.sequence + 1
    && s'.failed == s.failed && s'.count == s.count && s.all <= s'.all && s.memo <= s'.memo
    && h'.under == h.under + [combination] && h'.runs == h.runs
    && WorklistOk(s', h') && Covered(lines, combination, s'.memo)
    && h.origins <= h'.origins && InOrder(h'.origins)
    && QueuedFrom(s'.all, h'.origins, |s.all|, |s.routes|, lines, combination)
  }

  lemma OriginsBefore(x: Context, s: Search, h: History)
    requires SearchOk(x, s, h)
    ensures |h.origins| == |s.all| && InOrder(h.origins) && forall o <- h.origins :: o.route < |s.routes|
  {
    forall o | o in h.origins ensures o.route < |s.routes| {
      var j: nat :| j < |h.origins| && h.origins[j] == o;
      assert OriginOk(x, s, h, j);
    }
  }

  lemma QueueAdded(x: Context, s: Search, h: History, lines: Lines, combination: Lines, r: J.Route, s': Search,
                   h': History)
    requires QueueOk(x, s, h) && Listed(x.net.attributes, r) && lines == Sort(LinesOf(x.net.attributes, r))
    requires s'.routes == s.routes + [r] && h'.under == h.under + [combination] && s.all <= s'.all
    requires h.origins <= h'.origins && InOrder(h'.origins)
    requires QueuedFrom(s'.all, h'.origins, |s.all|, |s.routes|, lines, combination)
    ensures QueueOk(x, s', h')
  {
    forall j: nat | j < |s'.all| ensures OriginOk(x, s', h', j) {
      if j < |s.all| { assert OriginOk(x, s, h, j) && h'.origins[j] == h.origins[j] && s'.all[j] == s.all[j]; }
    }
  }

  // Only the queue, the routes and what they were found under matter to it.
  lemma QueueKept(x: Context, s: Search, h: History, s': Search, h': History)
    requires QueueOk(x, s, h) && s'.all == s.all && s'.routes == s.routes
    requires h'.under == h.under && h'.origins == h.origins
    ensures QueueOk(x, s', h')
  {
    forall j: nat | j < |s'.all| ensures OriginOk(x, s', h', j) { assert OriginOk(x, s, h, j); }
  }

  lemma AddedIsOk(x: Context, s: Search, h: History, lines: Lines, combination: Lines, r: J.Route, s': Search,
                  h': History)
    requires SearchOk(x, s, h) && |s.routes| < MAX_VALID_ALTERNATIVES
    requires RouteOk(x, r, combination) && r.totalTravelTime <= x.budget && Listed(x.net.attributes, r)
    requires lines == Sort(LinesOf(x.net.attributes, r)) && lines !in s.found
    requires Whole(Added(x, s, h, lines, combination, r, s', h'))
    ensures SearchOk(x, s', h')
  {
    RouteAdded(x, s, h, r, combination, s', h');
    CoverageAdded(x, s, h, r, combination, s', h');
    RunsKept(x, s, h, s', h');
    QueueAdded(x, s, h, lines, combination, r, s', h');
  }

  // What one calculation changes: a failure is noted; a route with new lines is
  // returned; nothing else is.
  ghost predicate Noted(x: Context, s: Search, run: Calculation, s': Search) {
    match run.result
    case Failed(_) => s' == s.(failed := s.failed + [run.combination], count := s.count + 1)
    case Ok(r) =>
      && s'.failed == s.failed && s'.count == s.count + 1 && Listed(x.net.attributes, r)
      && s'.routes == if Sort(LinesOf(x.net.attributes, r)) in s.found then s.routes else s.routes + [r]
  }

  // One calculation, for the queued combination all[i].
  method Round(ghost x: Context, calculator: K.Calculator, p: K.Parameters, set_: C.ConnectionSet, budget: int,
               s: Search, ghost h: History, i: nat)
    returns (s': Search, ghost h': History)
    requires Agrees(x, calculator, p, set_) && x.budget == budget && SearchOk(x, s, h)
    requires s.count < MAX_ALTERNATIVES && |s.routes| < MAX_VALID_ALTERNATIVES
    requires i < |s.all| && |h.runs| == i + 1
    modifies calculator
    ensures Agrees(x, calculator, p, set_) && SearchOk(x, s', h')
    ensures s.all <= s'.all && s.routes <= s'.routes && |h'.runs| == |h.runs| + 1
    ensures h.runs <= h'.runs && Noted(x, s, h'.runs[|h.runs|], s') && Whole(Decides(x, h'.runs[|h.runs|]))
  {
    var r := Calculate(x, calculator, p, set_, budget, s.all[i]);
    s', h' := Record(x, calculator.net.attributes, s, h, i, r);
  }

  method Record(ghost x: Context, attributes: seq<TripAttributes>, s: Search, ghost h: History, i: nat,
                r: K.Result<J.Route>)
    returns (s': Search, ghost h': History)
    requires SearchOk(x, s, h) && s.count < MAX_ALTERNATIVES && |s.routes| < MAX_VALID_ALTERNATIVES
        && attributes == x.net.attributes
    requires i < |s.all| && |h.runs| == i + 1
    requires r.Ok? ==> RouteOk(x, r.value, s.all[i]) && r.value.totalTravelTime <= x.budget
    requires r.Failed? ==> Failing(x, s.all[i])
    ensures SearchOk(x, s', h')
    ensures s.all <= s'.all && s.routes <= s'.routes && h'.runs == h.runs + [Calculation(s.all[i], r)]
    ensures Noted(x, s, Calculation(s.all[i], r), s')
  {
    s', h' := Note(x, attributes, s, h, s.all[i], r);
    ghost var run := Calculation(s.all[i], r);
    Counted(x, s', h', run);
    s', h' := s'.(count := s'.count + 1), h'.(runs := h'.runs + [run]);
  }

  lemma Counted(x: Context, s: Search, h: History, run: Calculation)
    requires SearchOk(x, s, h) && RunOk(x, s, run) && s.count < MAX_ALTERNATIVES
    requires 0 < |h.runs| <= |s.all| && run.combination == s.all[|h.runs| - 1]
    ensures SearchOk(x, s.(count := s.count + 1), h.(runs := h.runs + [run]))
  {
    RunsCounted(x, s, h, run);
    CountingKeeps(x, s, h, run);
    QueueKept(x, s, h, s.(count := s.count + 1), h.(runs := h.runs + [run]));
  }

  // The rest does not look at the count and the runs.
  lemma CountingKeeps(x: Context, s: Search, h: History, run: Calculation)
    requires RoutesOk(x, s, h) && WorklistOk(s, h) && CoverageOk(x, s, h)
    ensures var s', h' := s.(count := s.count + 1), h.(runs := h.runs + [run]);
            RoutesOk(x, s', h') && WorklistOk(s', h') && CoverageOk(x, s', h')
  {
  }

  lemma RunsCounted(x: Context, s: Search, h: History, run: Calculation)
    requires RunsOk(x, s, h) && RunOk(x, s, run)
    requires 0 < |h.runs| <= |s.all| && run.combination == s.all[|h.runs| - 1]
    ensures RunsOk(x, s.(count := s.count + 1), h.(runs := h.runs + [run]))
  {
    var h' := h.(runs := h.runs + [run]);
    RunsNext(x, s, h, run, h');
    RunsKept(x, s, h', s.(count := s.count + 1), h');
  }

  method Note(ghost x: Context, attributes: seq<TripAttributes>, s: Search, ghost h: History, combination: Lines,
              r: K.Result<J.Route>)
    returns (s': Search, ghost h': History)
    requires SearchOk(x, s, h) && |s.routes| < MAX_VALID_ALTERNATIVES && attributes == x.net.attributes
    requires r.Ok? ==> RouteOk(x, r.value, combination) && r.value.totalTravelTime <= x.budget
    requires r.Failed? ==> Failing(x, combination)
    ensures SearchOk(x, s', h') && RunOk(x, s', Calculation(combination, r))
    ensures s.all <= s'.all && s.routes <= s'.routes && h'.runs == h.runs
    ensures Noted(x, s, Calculation(combination, r), s'.(count := s'.count + 1))
  {
    s', h' := s, h;
    if r.Ok? {
      var lines := Sort(LinesOf(attributes, r.value));
      SortKeeps(LinesOf(attributes, r.value));
      if |lines| > 0 && lines !in s.found {
        s', h' := AddRoute(x, s, h, lines, combination, r.value);
        assert SameLines(x, s'.routes[|s.routes|], r.value);
      } else {
        assert |lines| == |multiset(lines)|;
        FoundBefore(x, s, h, r.value);
      }
    } else {
      s' := FailedWith(x, s, h, combination);
    }
  }

  method FailedWith(ghost x: Context, s: Search, ghost h: History, combination: Lines) returns (s': Search)
    requires SearchOk(x, s, h) && Failing(x, combination)
    ensures SearchOk(x, s', h) && s' == s.(failed := s.failed + [combination])
  {
    s' := s.(failed := s.failed + [combination]);
    FailureNoted(x, s, h, combination);
  }

  lemma FailureNoted(x: Context, s: Search, h: History, combination: Lines)
    requires SearchOk(x, s, h) && Failing(x, combination)
    ensures SearchOk(x, s.(failed := s.failed + [combination]), h)
  {
    var s' := s.(failed := s.failed + [combination]);
    forall g <- h.pruned ensures exists f <- s'.failed :: Includes(g, f) {
      var f :| f in s.failed && Includes(g, f);
      assert f in s'.failed;
    }
    RunsKept(x, s, h, s', h);
    QueueKept(x, s, h, s', h);
  }

  // ---- The search -------------------------------------------------------------------------

  datatype AlternativesResult = AlternativesResult(alternatives: seq<J.Route>, totalAlternativesCalculated: int)

  // Unless a limit was met, every queued combination was calculated.
  ghost predicate Exhausted(s: Search, h: History) {
    s.count < MAX_ALTERNATIVES && |s.routes| < MAX_VALID_ALTERNATIVES ==> |h.runs| == |s.all| + 1
  }

  // Every calculation after the first answers for its combination.
  ghost predicate AllDecide(x: Context, runs: seq<Calculation>) {
    forall k: nat | 0 < k < |runs| :: Decides(x, runs[k])
  }

  lemma OneMoreDecides(x: Context, runs: seq<Calculation>, more: seq<Calculation>)
    requires Whole(AllDecide(x, runs)) && |more| == |runs| + 1 && runs <= more && Whole(Decides(x, more[|runs|]))
    ensures Whole(AllDecide(x, more))
  {
    forall k: nat | 0 < k < |more| ensures Decides(x, more[k]) {
      if k < |runs| { assert more[k] == runs[k]; }
    }
  }

  method SearchAll(ghost x: Context, calculator: K.Calculator, p: K.Parameters, set_: C.ConnectionSet, budget: int,
                   s0: Search, ghost h0: History)
    returns (s: Search, ghost h: History)
    requires Agrees(x, calculator, p, set_) && x.budget == budget && SearchOk(x, s0, h0) && s0.count == 2
    modifies calculator
    requires |h0.runs| == 1
    ensures SearchOk(x, s, h) && Exhausted(s, h) && s0.routes <= s.routes && Whole(AllDecide(x, h.runs))
  {
    s, h := s0, h0;
    var i := 0;
    while i < |s.all|
      invariant 0 <= i <= |s.all| && SearchOk(x, s, h) && Agrees(x, calculator, p, set_)
      invariant s0.routes <= s.routes && Whole(AllDecide(x, h.runs))
      invariant s.count < MAX_ALTERNATIVES && |s.routes| < MAX_VALID_ALTERNATIVES ==> |h.runs| == i + 1
      decreases MAX_ALTERNATIVES - s.count, |s.all| - i
    {
      if s.count < MAX_ALTERNATIVES && s.sequence - 1 < MAX_VALID_ALTERNATIVES {
        ghost var runs := h.runs;
        s, h := Round(x, calculator, p, set_, budget, s, h, i);
        OneMoreDecides(x, runs, h.runs);
      }
      i := i + 1;
    }
  }

  // The first calculation answers the query itself.
  ghost predicate FirstAnswer(x: Context, r: K.Result<J.Route>) {
    if x.access == [] && x.egress == [] then r == K.Failed(K.NoAccessAtOriginAndDestination)
    else if x.access == [] then r == K.Failed(K.NoAccessAtOrigin)
    else if x.egress == [] then r == K.Failed(K.NoAccessAtDestination)
    else Answered(x, x.p, r)
  }

  method Fastest(calculator: K.Calculator, p: K.Parameters, set_: C.ConnectionSet, origin: seq<NodeTime>,
                 destination: seq<NodeTime>)
    returns (r: K.Result<J.Route>)
    requires calculator.ValidRequest(p, set_, origin, destination)
    requires forall c <- set_.reverseConnections :: c.trip in set_.trips
    modifies calculator
    ensures r.Ok? ==>
      var x := Context(calculator.net, p, Budget(p, r.value), origin, destination,
                       set_.trips, set_.forwardConnections, set_.reverseConnections);
      Agrees(x, calculator, p, set_) && RouteOk(x, r.value, [])
    ensures FirstAnswer(Context(calculator.net, p, 0, origin, destination,
                                set_.trips, set_.forwardConnections, set_.reverseConnections), r)
  {
    ghost var target, tr, o;
    r, target, tr, o := calculator.CalculateSingle(p, set_, origin, destination, true);
    if r.Ok? {
      ghost var x := Context(calculator.net, p, Budget(p, r.value), origin, destination,
                             set_.trips, set_.forwardConnections, set_.reverseConnections);
      FirstAgrees(x, calculator, p, set_);
      FirstRouteOk(x, target, tr, o, r.value);
    }
  }

  lemma FirstAgrees(x: Context, calculator: K.Calculator, p: K.Parameters, set_: C.ConnectionSet)
    requires calculator.ValidRequest(p, set_, calculator.accessFootpaths, calculator.egressFootpaths)
    requires x == Context(calculator.net, p, x.budget, calculator.accessFootpaths, calculator.egressFootpaths,
                          set_.trips, set_.forwardConnections, set_.reverseConnections)
    requires forall c <- set_.reverseConnections :: c.trip in set_.trips
    ensures Agrees(x, calculator, p, set_)
  {
  }

  lemma FirstRouteOk(x: Context, t: int, tr: A.Trace, o: A.Optimization, r: J.Route)
    requires ValidContext(x)
    requires A.Answers(x.net.timetable, x.net.infos,
                       T.ReverseQuery(K.QueryFor(x.net, x.p, x.access, x.egress, x.trips), t), x.rcs, tr, o, r)
    ensures RouteOk(x, r, [])
  {
    AnswerAvoids(x, x.p, t, tr, o, r);
    assert x.p.filter.exceptLines + [] == x.p.filter.exceptLines;
  }

  // Calculation k, for a forward query that composes, succeeds exactly when without
  // the lines of its combination the scan can follow some journey within the limit.
  ghost predicate IsDecided(x: Context, run: Calculation) {
    ValidContext(x) && x.p.forward && x.p.timeOfTrip / 3600 <= 32
        && T.Composable(QueryExcluding(x, []), x.cs, x.rcs) ==>
      (run.result.Ok? <==> exists legs, t :: FX.ScanArrives(QueryExcluding(x, run.combination), x.cs, legs, t) &&
                                             t - x.p.timeOfTrip <= x.budget)
  }

  lemma CalculationDecides(x: Context, run: Calculation)
    requires Decides(x, run)
    ensures IsDecided(x, run)
  {
    if && ValidContext(x) && x.p.forward && x.p.timeOfTrip / 3600 <= 32
       && T.Composable(QueryExcluding(x, []), x.cs, x.rcs) {
      var q := QueryExcluding(x, run.combination);
      MoreExcluded(x, [], run.combination);
      Q.ComposableWhenNarrowed(QueryExcluding(x, []), q, x.cs, x.rcs);
      var target, tr, o :| K.Outcome(x.net, q, Excluding(x.p, x.budget, run.combination), x.cs, x.rcs, run.result,
                                     target, tr, o);
      Q.FoundExactly(q, x.cs, x.rcs, run.result.Ok?, target);
    }
  }

  lemma AllDecided(x: Context, runs: seq<Calculation>)
    requires Whole(AllDecide(x, runs))
    ensures forall k: nat | 0 < k < |runs| :: IsDecided(x, runs[k])
  {
    forall k: nat | 0 < k < |runs| ensures IsDecided(x, runs[k]) { CalculationDecides(x, runs[k]); }
  }

  // The fastest route first, then those found by excluding lines: at most 50 routes
  // from at most 200 calculations, and every queued combination calculated unless a
  // limit was met.
  method AlternativesRouting(calculator: K.Calculator, p: K.Parameters, set_: C.ConnectionSet, origin: seq<NodeTime>,
                             destination: seq<NodeTime>)
    returns (result: K.Result<AlternativesResult>, ghost s: Search, ghost h: History)
    requires calculator.ValidRequest(p, set_, origin, destination)
    requires forall c <- set_.reverseConnections :: c.trip in set_.trips
    modifies calculator
    ensures result.Ok? ==> result.value == AlternativesResult(s.routes, s.count) && s.routes != []
    ensures FirstAnswer(Context(calculator.net, p, 0, origin, destination,
                                set_.trips, set_.forwardConnections, set_.reverseConnections),
                        if result.Ok? then K.Ok(s.routes[0]) else K.Failed(result.reason))
    ensures result.Ok? ==>
      var x := Context(calculator.net, p, Budget(p, s.routes[0]), origin, destination,
                       set_.trips, set_.forwardConnections, set_.reverseConnections);
      SearchOk(x, s, h) && forall k: nat | 0 < k < |h.runs| :: IsDecided(x, h.runs[k])
    ensures result.Ok? ==>
      && |s.routes| <= 50 && s.count == |h.runs| + 1 <= 200
      && (|s.routes| < 50 && s.count < 200 ==> |h.runs| == |s.all| + 1)
  {
    s, h := Search([], [], {}, {}, [], 0, 0), History([], [], [], 0, []);
    var r := Fastest(calculator, p, set_, origin, destination);
    if r.Failed? {
      return K.Failed(r.reason), s, h;
    }
    var budget := Budget(p, r.value);
    ghost var x := Context(calculator.net, p, budget, origin, destination,
                           set_.trips, set_.forwardConnections, set_.reverseConnections);
    var s0;
    s0, h := StartSearch(x, calculator.net.attributes, r.value);
    var end;
    end, h := SearchAll(x, calculator, p, set_, budget, s0, h);
    s := end;
    result := K.Ok(AlternativesResult(end.routes, end.count));
    AllDecided(x, h.runs);
  }

  lemma FirstQueue(x: Context, s: Search, h: History, r: J.Route, lines: Lines)
    requires Listed(x.net.attributes, r) && lines == Sort(LinesOf(x.net.attributes, r))
    requires s.routes == [r] && h.under == [[]] && InOrder(h.origins)
    requires Whole(QueuedFrom(s.all, h.origins, 0, 0, lines, []))
    ensures QueueOk(x, s, h)
  {
  }

  method StartSearch(ghost x: Context, attributes: seq<TripAttributes>, r: J.Route)
      returns (s: Search, ghost h: History)
    requires ValidContext(x) && attributes == x.net.attributes && RouteOk(x, r, [])
    ensures SearchOk(x, s, h) && s.count == 2 && s.routes == [r] && |h.runs| == 1
  {
    var lines := Sort(LinesOf(attributes, r));
    ghost var origins;
    var all, memo;
    all, memo, origins := FirstCombinations(lines);
    s := Search(all, [], memo, {lines}, [r], 2, 2);
    h := History([[]], [], [Calculation([], K.Ok(r))], |all|, origins);
    FirstQueue(x, s, h, r, lines);
    assert SameLines(x, s.routes[0], r);
  }

  // Every way to pick some of the lines of a route found, added to what was excluded
  // when it was found, has been queued, or passed over as including a failure.
  lemma SelectionSeen(x: Context, s: Search, h: History, i: nat, sel: seq<nat>)
    requires SearchOk(x, s, h) && i < |s.routes| && Listed(x.net.attributes, s.routes[i])
    requires var lines := Sort(LinesOf(x.net.attributes, s.routes[i]));
             && sel != [] && |sel| <= |lines| && (forall k: nat | k < |sel| :: sel[k] < |lines|)
             && forall j: nat, k: nat | j < k < |sel| :: sel[j] < sel[k]
    ensures |h.under| == |s.routes|
    ensures var lines := Sort(LinesOf(x.net.attributes, s.routes[i]));
            var c := Sort(seq(|sel|, k requires 0 <= k < |sel| && sel[k] < |lines| => lines[sel[k]]) + h.under[i]);
            c in s.all || exists f <- s.failed :: forall l <- f :: l in c
  {
    var lines := Sort(LinesOf(x.net.attributes, s.routes[i]));
    assert CoveredSize(lines, h.under[i], |sel|, s.memo);
    assert CB.IsSelection(0, |lines|, |sel|, sel);
    assert Seen(lines, h.under[i], sel, s.memo);
    assert CB.Pick(lines, sel) == seq(|sel|, k requires 0 <= k < |sel| && sel[k] < |lines| => lines[sel[k]]);
    var c := Sort(CB.Pick(lines, sel) + h.under[i]);
    if c in h.pruned {
      var f :| f in s.failed && Includes(c, f);
    }
  }

  // What was queued, in order: combination j is the lines of route a picked at rising
  // positions, with what was excluded when the route was found.
  lemma QueuedIs(x: Context, s: Search, h: History, j: nat)
    requires SearchOk(x, s, h) && j < |s.all|
    ensures |h.origins| == |s.all| && |h.under| == |s.routes|
    ensures var o := h.origins[j];
            && o.route < |s.routes| && Listed(x.net.attributes, s.routes[o.route])
            && var lines := Sort(LinesOf(x.net.attributes, s.routes[o.route]));
            && o.sel != [] && (forall k: nat | k < |o.sel| :: o.sel[k] < |lines|)
            && (forall m: nat, k: nat | m < k < |o.sel| :: o.sel[m] < o.sel[k])
            && s.all[j] == Sort(seq(|o.sel|, k requires 0 <= k < |o.sel| && o.sel[k] < |lines| => lines[o.sel[k]]) +
                                h.under[o.route])
  {
    assert OriginOk(x, s, h, j);
    var o := h.origins[j];
    var lines := Sort(LinesOf(x.net.attributes, s.routes[o.route]));
    assert CB.Pick(lines, o.sel) ==
           seq(|o.sel|, k requires 0 <= k < |o.sel| && o.sel[k] < |lines| => lines[o.sel[k]]);
  }

  // Of two, the one queued first comes from an earlier route, or picks fewer lines of
  // the same route, or the same number of them and an earlier line where they differ.
  lemma QueuedInOrder(x: Context, s: Search, h: History, j: nat, k: nat) returns (p: nat)
    requires SearchOk(x, s, h) && j < k < |s.all|
    ensures |h.origins| == |s.all|
    ensures var a, b := h.origins[j], h.origins[k];
            || a.route < b.route
            || (a.route == b.route && |a.sel| < |b.sel|)
            || (a.route == b.route && p < |a.sel| == |b.sel| && a.sel[..p] == b.sel[..p] && a.sel[p] < b.sel[p])
  {
    p := 0;
    assert ComesFirst(h.origins[j], h.origins[k]);
    var a, b := h.origins[j], h.origins[k];
    if a.route == b.route && |a.sel| == |b.sel| { p := CB.LessAt(a.sel, b.sel); }
  }

  // ---- Pruning loses nothing ------------------------------------------------------------------

  lemma MoreExcluded(x: Context, f: Lines, g: Lines)
    requires ValidContext(x) && Includes(g, f)
    ensures Q.Narrows(QueryExcluding(x, f), QueryExcluding(x, g))
  {
    var a, b := Excluding(x.p, x.budget, f).filter, Excluding(x.p, x.budget, g).filter;
    MoreExclusionsDisableMore(a, b, x.net.attributes, x.trips);
  }

  // A combination passed over would have found nothing.
  lemma PrunedFindsNothing(x: Context, s: Search, h: History, g: Lines, found: bool, target: int)
    requires SearchOk(x, s, h) && g in h.pruned
    requires x.p.forward && x.p.timeOfTrip / 3600 <= 32 && T.Composable(QueryExcluding(x, []), x.cs, x.rcs)
    requires K.ForwardThenReverse(QueryExcluding(x, g), x.cs, x.rcs, found, target)
    ensures !found
  {
    var f :| f in s.failed && Includes(g, f);
    MoreExcluded(x, [], f);
    MoreExcluded(x, f, g);
    Q.ComposableWhenNarrowed(QueryExcluding(x, []), QueryExcluding(x, f), x.cs, x.rcs);
    assert Failing(x, f);
    Q.FailureIsInherited(QueryExcluding(x, f), QueryExcluding(x, g), x.cs, x.rcs, 0, found, target);
  }
}
