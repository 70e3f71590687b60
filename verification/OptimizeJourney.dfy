// Rewriting an itinerary: cutting superfluous lines and segments, boarding
// later or alighting earlier where two rides meet at a common node.
module OptimizeJourney {
  import opened Network

  // Every trip's connections in sequence order, and the same list mirrored.
  datatype Timetable = Timetable(forward: seq<seq<Connection>>, reverse: seq<seq<Connection>>)

  ghost predicate ValidTrip(nodeCount: nat, t: nat, cs: seq<Connection>, rcs: seq<Connection>) {
    && |rcs| == |cs|
    && (forall s: nat | s < |cs| :: rcs[|cs| - 1 - s] == cs[s])
    && (forall s: nat | s < |cs| :: cs[s].sequenceInTrip == s + 1 && cs[s].trip == t)
    && (forall s: nat | s < |cs| :: cs[s].departureNode < nodeCount && cs[s].arrivalNode < nodeCount)
    && (forall s: nat | s < |cs| :: cs[s].departureTime <= cs[s].arrivalTime)
    && (forall s: nat | 0 < s < |cs| :: cs[s - 1].arrivalNode == cs[s].departureNode
                                     && cs[s - 1].arrivalTime <= cs[s].departureTime)
  }

  ghost predicate Valid(nodeCount: nat, tt: Timetable) {
    && |tt.forward| == |tt.reverse|
    && forall t: nat | t < |tt.forward| :: ValidTrip(nodeCount, t, tt.forward[t], tt.reverse[t])
  }

  lemma {:induction false} TripTimes(nodeCount: nat, t: nat, cs: seq<Connection>, rcs: seq<Connection>, a: nat, b: nat)
    requires ValidTrip(nodeCount, t, cs, rcs) && a <= b < |cs|
    ensures cs[a].departureTime <= cs[b].departureTime && cs[a].arrivalTime <= cs[b].arrivalTime
    decreases b - a
  {
    if a < b { TripTimes(nodeCount, t, cs, rcs, a, b - 1); }
  }

  // ---- Well-formed journeys -------------------------------------------------

  ghost predicate OnTrip(tt: Timetable, c: Connection) {
    && c.trip < |tt.forward| && 1 <= c.sequenceInTrip <= |tt.forward[c.trip]|
    && tt.forward[c.trip][c.sequenceInTrip - 1] == c
  }

  ghost predicate RideOk(tt: Timetable, s: JourneyStep) {
    s.Ride? ==>
      && OnTrip(tt, s.enter) && OnTrip(tt, s.exit) && s.enter.trip == s.exit.trip
      && s.enter.sequenceInTrip <= s.exit.sequenceInTrip
      && s.enter.canBoard && s.exit.canUnboard
  }

  ghost predicate Before(a: JourneyStep, b: JourneyStep) {
    a.Ride? && b.Ride? ==> a.exit.arrivalTime <= b.enter.departureTime
  }

  // lo walks (none or the access), at least one ride, the egress walk.
  ghost predicate Shape(lo: nat, journey: seq<JourneyStep>) {
    && lo <= 1 && |journey| >= lo + 2
    && (forall k: nat | k < |journey| :: journey[k].Ride? <==> lo <= k < |journey| - 1)
  }

  ghost predicate WellFormed(tt: Timetable, lo: nat, journey: seq<JourneyStep>) {
    && Shape(lo, journey)
    && (forall k: nat | k < |journey| :: RideOk(tt, journey[k]))
    && (forall j: nat, k: nat {:trigger Before(journey[j], journey[k])} | j < k < |journey| ::
        Before(journey[j], journey[k]))
  }

  // s covers part of the ride o, or is the same walk.
  ghost predicate PartOf(s: JourneyStep, o: JourneyStep) {
    if s.Walk? then s == o
    else
      && o.Ride? && s.enter.trip == o.enter.trip
      && o.enter.sequenceInTrip <= s.enter.sequenceInTrip
      && s.exit.sequenceInTrip <= o.exit.sequenceInTrip
  }

  ghost predicate Increasing(origin: seq<nat>, j: nat, k: nat)
    requires j < |origin| && k < |origin|
  {
    origin[j] < origin[k]
  }

  // journey keeps, in order, parts of the steps of original numbered by origin.
  ghost predicate Keeps(original: seq<JourneyStep>, journey: seq<JourneyStep>, origin: seq<nat>) {
    && |origin| == |journey|
    && (forall k: nat | k < |origin| :: origin[k] < |original| && PartOf(journey[k], original[origin[k]]))
    && (forall j: nat, k: nat | j < k < |origin| :: Increasing(origin, j, k))
  }

  // Same start, same end, and no later there.
  ghost predicate SameEnds(lo: nat, original: seq<JourneyStep>, journey: seq<JourneyStep>)
    requires Shape(lo, original) && Shape(lo, journey)
  {
    && (lo == 1 ==> journey[0] == original[0])
    && Last(journey) == Last(original)
    && journey[lo].enter == original[lo].enter
    && journey[|journey| - 2].exit.arrivalNode == original[|original| - 2].exit.arrivalNode
    && journey[|journey| - 2].exit.arrivalTime <= original[|original| - 2].exit.arrivalTime
  }

  // ---- Measures ---------------------------------------------------------------

  function RideLength(s: JourneyStep): nat {
    if s.Ride? && s.enter.sequenceInTrip <= s.exit.sequenceInTrip
    then s.exit.sequenceInTrip - s.enter.sequenceInTrip + 1 else 0
  }

  function TotalLength(journey: seq<JourneyStep>): nat {
    if journey == [] then 0 else RideLength(journey[0]) + TotalLength(journey[1..])
  }

  lemma {:induction false} TotalConcat(a: seq<JourneyStep>, b: seq<JourneyStep>)
    ensures TotalLength(a + b) == TotalLength(a) + TotalLength(b)
    decreases |a|
  {
    if a == [] {
      assert a + b == b;
    } else {
      assert (a + b)[1..] == a[1..] + b;
      TotalConcat(a[1..], b);
    }
  }

  lemma TotalUpdate(journey: seq<JourneyStep>, k: nat, s: JourneyStep)
    requires k < |journey|
    ensures TotalLength(journey[k := s]) == TotalLength(journey) - RideLength(journey[k]) + RideLength(s)
  {
    var a, b := journey[..k], journey[k + 1..];
    TotalConcat(a, [journey[k]] + b);
    TotalConcat(a, [s] + b);
    TotalConcat([journey[k]], b);
    TotalConcat([s], b);
    assert journey == a + ([journey[k]] + b);
    assert journey[k := s] == a + ([s] + b);
    assert [journey[k]][1..] == [] && [s][1..] == [];
    assert TotalLength([journey[k]]) == RideLength(journey[k]) && TotalLength([s]) == RideLength(s);
  }

  function Erase(journey: seq<JourneyStep>, a: nat, b: nat): seq<JourneyStep>
    requires a <= b <= |journey|
  {
    journey[..a] + journey[b..]
  }

  lemma TotalErase(journey: seq<JourneyStep>, a: nat, b: nat)
    requires a <= b <= |journey|
    ensures TotalLength(Erase(journey, a, b)) <= TotalLength(journey)
  {
    SplitTwice(journey, a, b);
    TotalConcat(journey[..a], journey[b..]);
    TotalConcat(journey[..a], journey[a..b] + journey[b..]);
    TotalConcat(journey[a..b], journey[b..]);
  }

  lemma SplitTwice<T>(s: seq<T>, a: nat, b: nat)
    requires a <= b <= |s|
    ensures s == s[..a] + (s[a..b] + s[b..])
  {
  }

  // ---- In-between nodes -------------------------------------------------------

  // The nodes the ride passes, boarding and alighting nodes left out: departure
  // nodes of the connections at positions from, .., to - 1 of the trip.
  function Passed(cs: seq<Connection>, first: nat, last: nat, from: nat, to: nat): seq<nat>
    requires from <= to <= |cs|
  {
    if from == to then []
    else
      var n := cs[to - 1].departureNode;
      Passed(cs, first, last, from, to - 1) + if n != first && n != last then [n] else []
  }

  ghost function InBetween(tt: Timetable, s: JourneyStep): seq<nat>
    requires RideOk(tt, s)
  {
    if s.Walk? then []
    else Passed(tt.forward[s.enter.trip], s.enter.departureNode, s.exit.arrivalNode, s.enter.sequenceInTrip,
                s.exit.sequenceInTrip)
  }

  // ps are the positions from, .., to - 1 where the trip departs from neither end, in order.
  ghost predicate ArePositions(cs: seq<Connection>, first: nat, last: nat, from: nat, to: nat, ps: seq<nat>) {
    && from <= to <= |cs| && (forall k: nat | k < |ps| :: from <= ps[k] < to)
    && (forall j: nat, k: nat | j < k < |ps| :: ps[j] < ps[k])
    && (forall p: nat | from <= p < to :: p in ps <==> cs[p].departureNode != first && cs[p].departureNode != last)
  }

  function NodesAt(cs: seq<Connection>, ps: seq<nat>): seq<nat>
    requires forall k: nat | k < |ps| :: ps[k] < |cs|
  {
    seq(|ps|, k requires 0 <= k < |ps| => cs[ps[k]].departureNode)
  }

  ghost predicate ListsPositions(cs: seq<Connection>, first: nat, last: nat, from: nat, to: nat, ps: seq<nat>,
                                 nodes: seq<nat>) {
    ArePositions(cs, first, last, from, to, ps) && nodes == NodesAt(cs, ps)
  }

  // Position to comes next: it is listed unless an end departs there.
  lemma PositionsNext(cs: seq<Connection>, first: nat, last: nat, from: nat, to: nat, ps: seq<nat>, nodes: seq<nat>)
    requires from <= to < |cs| && Whole(ListsPositions(cs, first, last, from, to, ps, nodes))
    ensures var n, next := cs[to].departureNode, to + 1;
            if n != first && n != last
            then Whole(ListsPositions(cs, first, last, from, next, ps + [to], nodes + [n]))
            else Whole(ListsPositions(cs, first, last, from, next, ps, nodes))
  {
  }

  lemma {:induction false} PassedInOrder(cs: seq<Connection>, first: nat, last: nat, from: nat, to: nat)
    returns (ps: seq<nat>)
    requires from <= to <= |cs|
    ensures Whole(ListsPositions(cs, first, last, from, to, ps, Passed(cs, first, last, from, to)))
  {
    ps := [];
    if from < to {
      var before := PassedInOrder(cs, first, last, from, to - 1);
      PositionsNext(cs, first, last, from, to - 1, before, Passed(cs, first, last, from, to - 1));
      var n := cs[to - 1].departureNode;
      if n != first && n != last {
        ps := before + [to - 1];
      } else {
        ps := before;
        assert Passed(cs, first, last, from, to) == Passed(cs, first, last, from, to - 1) + [];
      }
    }
  }

  // They are listed in ride order: ps are the positions after the ride's first that
  // depart from neither end, increasing, and the list is what they depart from.
  lemma InBetweenInOrder(tt: Timetable, s: JourneyStep) returns (ps: seq<nat>)
    requires RideOk(tt, s) && s.Ride?
    ensures forall k: nat | k < |ps| :: s.enter.sequenceInTrip <= ps[k] < s.exit.sequenceInTrip
    ensures forall j: nat, k: nat | j < k < |ps| :: ps[j] < ps[k]
    ensures forall p: nat | s.enter.sequenceInTrip <= p < s.exit.sequenceInTrip ::
              p in ps <==> tt.forward[s.enter.trip][p].departureNode != s.enter.departureNode &&
                           tt.forward[s.enter.trip][p].departureNode != s.exit.arrivalNode
    ensures |InBetween(tt, s)| == |ps|
    ensures forall k: nat | k < |ps| :: InBetween(tt, s)[k] == tt.forward[s.enter.trip][ps[k]].departureNode
  {
    ps := PassedInOrder(tt.forward[s.enter.trip], s.enter.departureNode, s.exit.arrivalNode, s.enter.sequenceInTrip,
                        s.exit.sequenceInTrip);
  }

  // Which nodes those are: where some connection of the ride after the first one
  // departs, the two ends of the ride left out.
  lemma InBetweenExactly(tt: Timetable, s: JourneyStep, n: nat)
    requires RideOk(tt, s) && s.Ride?
    ensures n in InBetween(tt, s) <==>
            && n != s.enter.departureNode && n != s.exit.arrivalNode
            && exists p: nat :: s.enter.sequenceInTrip <= p < s.exit.sequenceInTrip &&
                                tt.forward[s.enter.trip][p].departureNode == n
  {
    var nodes := InBetween(tt, s);
    var ps := InBetweenInOrder(tt, s);
    if n in nodes {
      var k: nat :| k < |nodes| && nodes[k] == n;
      assert ps[k] in ps;
    }
    if p: nat :| s.enter.sequenceInTrip <= p < s.exit.sequenceInTrip && tt.forward[s.enter.trip][p].departureNode == n {
      if n != s.enter.departureNode && n != s.exit.arrivalNode {
        var k: nat :| k < |ps| && ps[k] == p;
        assert nodes[k] == n;
      }
    }
  }

  method CollectInBetween(tt: Timetable, s: JourneyStep) returns (nodes: seq<nat>)
    requires RideOk(tt, s) && s.Ride?
    ensures nodes == InBetween(tt, s)
    ensures forall n: nat :: n in nodes <==>
              && n != s.enter.departureNode && n != s.exit.arrivalNode
              && exists p: nat :: s.enter.sequenceInTrip <= p < s.exit.sequenceInTrip &&
                                  tt.forward[s.enter.trip][p].departureNode == n
  {
    var cs := tt.forward[s.enter.trip];
    var first, last := s.enter.departureNode, s.exit.arrivalNode;
    var startIdx, endIdx := s.enter.sequenceInTrip - 1, s.exit.sequenceInTrip - 1;
    nodes := [];
    var idx := startIdx + 1;
    while idx <= endIdx
      invariant startIdx + 1 <= idx <= endIdx + 1
      invariant nodes == Passed(cs, first, last, startIdx + 1, idx)
    {
      var n := cs[idx].departureNode;
      if n != first && n != last {
        nodes := nodes + [n];
      }
      idx := idx + 1;
    }
    forall n: nat
      ensures n in nodes <==>
              && n != s.enter.departureNode && n != s.exit.arrivalNode
              && exists p: nat :: s.enter.sequenceInTrip <= p < s.exit.sequenceInTrip &&
                                  tt.forward[s.enter.trip][p].departureNode == n
    {
      InBetweenExactly(tt, s, n);
    }
  }

  // ---- Finding the next case ----------------------------------------------------

  // 1: cut a superfluous line, 2: boarded too soon, 3: gone too far, 4: cut a
  // superfluous segment; -1: nothing found.
  datatype Finding = Finding(case_: int, node: nat, from: nat, to: nat)

  const NOTHING := Finding(-1, 0, 0, 0)

  // Node n makes case_ applicable to the rides i < j.
  ghost predicate Applies(tt: Timetable, journey: seq<JourneyStep>, case_: int, n: nat, i: nat, j: nat)
    requires i < |journey| && j < |journey| && RideOk(tt, journey[i]) && RideOk(tt, journey[j])
  {
    && journey[i].Ride? && journey[j].Ride?
    && match case_
       case 1 => n == journey[j].exit.arrivalNode && n in InBetween(tt, journey[i])
       case 2 => n == journey[i].exit.arrivalNode && n in InBetween(tt, journey[j])
       case 3 => n == journey[j].enter.departureNode && n in InBetween(tt, journey[i])
       case 4 => n in InBetween(tt, journey[i]) && n in InBetween(tt, journey[j])
       case _ => false
  }

  ghost predicate FoundOk(tt: Timetable, journey: seq<JourneyStep>, ignored: seq<nat>, f: Finding)
    requires forall k: nat | k < |journey| :: RideOk(tt, journey[k])
  {
    f.case_ != -1 ==>
      f.from < f.to < |journey| && f.node !in ignored && Applies(tt, journey, f.case_, f.node, f.from, f.to)
  }

  // No case is left between steps i and j, ignored nodes apart.
  ghost predicate Settled(tt: Timetable, journey: seq<JourneyStep>, ignored: seq<nat>, i: nat, j: nat)
    requires i < |journey| && j < |journey| && RideOk(tt, journey[i]) && RideOk(tt, journey[j])
  {
    forall case_, n | n !in ignored :: !Applies(tt, journey, case_, n, i, j)
  }

  // The first node of a that is also in b and not ignored.
  ghost predicate IsFirstCommon(a: seq<nat>, b: seq<nat>, ignored: seq<nat>, node: nat) {
    && node in b && node !in ignored
    && exists k: nat :: k < |a| && a[k] == node && forall m: nat | m < k :: a[m] !in b || a[m] in ignored
  }

  method FirstCommon(a: seq<nat>, b: seq<nat>, ignored: seq<nat>) returns (found: bool, node: nat)
    ensures found ==> IsFirstCommon(a, b, ignored, node)
    ensures !found ==> forall n <- a :: n !in b || n in ignored
  {
    found, node := false, 0;
    for k := 0 to |a|
      invariant forall m: nat | m < k :: a[m] !in b || a[m] in ignored
    {
      if a[k] in b && a[k] !in ignored {
        return true, a[k];
      }
    }
  }

  // Of the cases that apply to the pair, the one with the lowest number, and for
  // case 4 the first node in the order of the earlier ride.
  ghost predicate FirstCase(tt: Timetable, journey: seq<JourneyStep>, ignored: seq<nat>, f: Finding)
    requires f.from < |journey| && f.to < |journey| && RideOk(tt, journey[f.from]) && RideOk(tt, journey[f.to])
  {
    && (forall case_, n | case_ < f.case_ && n !in ignored :: !Applies(tt, journey, case_, n, f.from, f.to))
    && (f.case_ == 4 ==> IsFirstCommon(InBetween(tt, journey[f.from]), InBetween(tt, journey[f.to]), ignored, f.node))
  }

  // f names the first pair of steps, by the later step and then the earlier one,
  // to which some case applies, and the first such case.
  ghost predicate FirstFinding(tt: Timetable, journey: seq<JourneyStep>, ignored: seq<nat>, f: Finding)
    requires forall k: nat | k < |journey| :: RideOk(tt, journey[k])
  {
    if f.case_ == -1 then AllSettled(tt, journey, ignored)
    else
      && FoundOk(tt, journey, ignored, f) && FirstCase(tt, journey, ignored, f)
      && (forall i: nat, j: nat | i < j < f.to :: Settled(tt, journey, ignored, i, j))
      && (forall i: nat | i < f.from :: Settled(tt, journey, ignored, i, f.to))
  }

  ghost predicate AllSettled(tt: Timetable, journey: seq<JourneyStep>, ignored: seq<nat>)
    requires forall k: nat | k < |journey| :: RideOk(tt, journey[k])
  {
    forall i: nat, j: nat | i < j < |journey| :: Settled(tt, journey, ignored, i, j)
  }

  // The four tests on one pair of steps, in the order of the original.
  method FindCase(tt: Timetable, journey: seq<JourneyStep>, ignored: seq<nat>, i: nat, j: nat,
                  lastI: Option<nat>, lastJ: nat, firstJ: nat, betweenI: seq<nat>, betweenJ: seq<nat>)
    returns (f: Finding)
    requires i < j < |journey| && RideOk(tt, journey[i]) && RideOk(tt, journey[j]) && journey[j].Ride?
    requires lastI == if journey[i].Ride? then Some(journey[i].exit.arrivalNode) else None
    requires lastJ == journey[j].exit.arrivalNode && firstJ == journey[j].enter.departureNode
    requires betweenI == InBetween(tt, journey[i]) && betweenJ == InBetween(tt, journey[j])
    ensures f.case_ == -1 || 1 <= f.case_ <= 4
    ensures f.case_ == -1 ==> f == NOTHING && Settled(tt, journey, ignored, i, j)
    ensures f.case_ != -1 ==>
              f.from == i && f.to == j && f.node !in ignored &&
              Applies(tt, journey, f.case_, f.node, i, j)
    ensures f.case_ != -1 ==> FirstCase(tt, journey, ignored, f)
  {
    f := NOTHING;
    if |betweenI| > 0 && lastJ in betweenI && lastJ !in ignored {
      return Finding(1, lastJ, i, j);
    }
    if |betweenJ| > 0 && lastI.Some? && lastI.value in betweenJ && lastI.value !in ignored {
      return Finding(2, lastI.value, i, j);
    }
    if |betweenI| > 0 && firstJ in betweenI && firstJ !in ignored {
      return Finding(3, firstJ, i, j);
    }
    if |betweenI| > 0 && |betweenJ| > 0 {
      var found, node := FirstCommon(betweenI, betweenJ, ignored);
      if found {
        return Finding(4, node, i, j);
      }
    }
  }

  method Find(tt: Timetable, journey: seq<JourneyStep>, ignored: seq<nat>) returns (f: Finding)
    requires forall k: nat | k < |journey| :: RideOk(tt, journey[k])
    ensures FirstFinding(tt, journey, ignored, f) && (f.case_ == -1 || 1 <= f.case_ <= 4)
  {
    f := NOTHING;
    var lasts: seq<Option<nat>> := [];
    var betweens: seq<seq<nat>> := [];
    for j := 0 to |journey|
      invariant |lasts| == |betweens| == j
      invariant forall k: nat | k < j :: lasts[k] == if journey[k].Ride? then Some(journey[k].exit.arrivalNode)
          else None
      invariant forall k: nat | k < j :: betweens[k] == InBetween(tt, journey[k])
      invariant forall i: nat, k: nat | i < k < j :: Settled(tt, journey, ignored, i, k)
    {
      if journey[j].Ride? {
        var last, first := journey[j].exit.arrivalNode, journey[j].enter.departureNode;
        lasts := lasts + [Some(last)];
        var between := CollectInBetween(tt, journey[j]);
        betweens := betweens + [between];
        for i := 0 to j
          invariant forall k: nat | k < i :: Settled(tt, journey, ignored, k, j)
        {
          f := FindCase(tt, journey, ignored, i, j, lasts[i], last, first, betweens[i], between);
          if f.case_ >= 0 {
            return;
          }
        }
      } else {
        lasts := lasts + [None];
        betweens := betweens + [[]];
      }
    }
    f := NOTHING;
  }

  // ---- Edits --------------------------------------------------------------------

  // The ride may be cut down to this step: same trip, inside the ride.
  ghost predicate Trims(tt: Timetable, s: JourneyStep, o: JourneyStep) {
    s.Ride? && o.Ride? && RideOk(tt, s) && PartOf(s, o)
  }

  lemma TrimTimes(nodeCount: nat, tt: Timetable, s: JourneyStep, o: JourneyStep)
    requires Valid(nodeCount, tt) && RideOk(tt, o) && Trims(tt, s, o)
    ensures o.enter.departureTime <= s.enter.departureTime && s.exit.arrivalTime <= o.exit.arrivalTime
    ensures RideLength(s) <= RideLength(o)
  {
    var t := o.enter.trip;
    var cs := tt.forward[t];
    TripTimes(nodeCount, t, cs, tt.reverse[t], o.enter.sequenceInTrip - 1, s.enter.sequenceInTrip - 1);
    TripTimes(nodeCount, t, cs, tt.reverse[t], s.exit.sequenceInTrip - 1, o.exit.sequenceInTrip - 1);
  }

  // Replacing a ride by a part of it keeps the journey well formed.
  lemma TrimKeeps(nodeCount: nat, tt: Timetable, lo: nat, original: seq<JourneyStep>, journey: seq<JourneyStep>,
                  origin: seq<nat>, k: nat, s: JourneyStep)
    requires Valid(nodeCount, tt) && WellFormed(tt, lo, journey) && Keeps(original, journey, origin)
    requires k < |journey| && Trims(tt, s, journey[k])
    ensures WellFormed(tt, lo, journey[k := s]) && Keeps(original, journey[k := s], origin)
  {
    var r := journey[k := s];
    assert RideOk(tt, journey[k]);
    TrimTimes(nodeCount, tt, s, journey[k]);
    forall i: nat, j: nat | i < j < |r| ensures Before(r[i], r[j]) {
      assert Before(journey[i], journey[j]);
    }
    forall m: nat | m < |origin| ensures origin[m] < |original| && PartOf(r[m], original[origin[m]]) {
      assert PartOf(journey[m], original[origin[m]]);
    }
  }

  // Erasing rides after the first one keeps the journey well formed.
  lemma EraseKeeps(tt: Timetable, lo: nat, original: seq<JourneyStep>, journey: seq<JourneyStep>, origin: seq<nat>,
                   a: nat, b: nat)
    requires WellFormed(tt, lo, journey) && Keeps(original, journey, origin)
    requires lo < a <= b < |journey|
    ensures WellFormed(tt, lo, Erase(journey, a, b))
    ensures Keeps(original, Erase(journey, a, b), origin[..a] + origin[b..])
  {
    var r := Erase(journey, a, b);
    var o := origin[..a] + origin[b..];
    forall i: nat, j: nat | i < j < |r| ensures Before(r[i], r[j]) && Increasing(o, i, j) {
      var i', j' := if i < a then i else i + b - a, if j < a then j else j + b - a;
      assert Before(journey[i'], journey[j']) && Increasing(origin, i', j');
    }
    forall m: nat | m < |o| ensures o[m] < |original| && PartOf(r[m], original[o[m]]) {
      var m' := if m < a then m else m + b - a;
      assert PartOf(journey[m'], original[origin[m']]);
    }
    forall m: nat | m < |r| ensures RideOk(tt, r[m]) {
      assert RideOk(tt, journey[if m < a then m else m + b - a]);
    }
  }

  // ---- Searching a ride from its end ------------------------------------------

  // The range of positions of a ride on its trip.
  ghost predicate InRide(s: JourneyStep, p: nat) {
    s.Ride? && s.enter.sequenceInTrip - 1 <= p < s.exit.sequenceInTrip
  }

  // A passed node is where some connection of the ride, not the last one,
  // arrives, and where the next one departs, which is not the first.
  lemma PassedNode(nodeCount: nat, tt: Timetable, s: JourneyStep, node: nat) returns (p: nat)
    requires Valid(nodeCount, tt) && RideOk(tt, s) && node in InBetween(tt, s)
    ensures s.Ride? && InRide(s, p) && InRide(s, p + 1) && s.enter.sequenceInTrip <= p + 1 < s.exit.sequenceInTrip
    ensures tt.forward[s.enter.trip][p].arrivalNode == node == tt.forward[s.enter.trip][p + 1].departureNode
    ensures node != s.enter.departureNode && node != s.exit.arrivalNode && node < nodeCount
  {
    var cs := tt.forward[s.enter.trip];
    assert ValidTrip(nodeCount, s.enter.trip, cs, tt.reverse[s.enter.trip]);
    InBetweenExactly(tt, s, node);
    var q: nat :| s.enter.sequenceInTrip <= q < s.exit.sequenceInTrip && cs[q].departureNode == node;
    assert cs[q - 1].arrivalNode == cs[q].departureNode;
    p := q - 1;
  }

  // c is the last connection of the ride that arrives at the node.
  ghost predicate LastArrivalAt(tt: Timetable, s: JourneyStep, node: nat, c: Connection) {
    && OnTrip(tt, c) && s.Ride? && c.trip == s.enter.trip && InRide(s, c.sequenceInTrip - 1) && c.arrivalNode == node
    && (forall p: nat | c.sequenceInTrip <= p < s.exit.sequenceInTrip && p < |tt.forward[c.trip]| ::
          tt.forward[c.trip][p].arrivalNode != node)
  }

  // c is the last connection of the ride that departs from the node.
  ghost predicate LastDepartureAt(tt: Timetable, s: JourneyStep, node: nat, c: Connection) {
    && OnTrip(tt, c) && s.Ride? && c.trip == s.enter.trip && InRide(s, c.sequenceInTrip - 1) && c.departureNode == node
    && (forall p: nat | c.sequenceInTrip <= p < s.exit.sequenceInTrip && p < |tt.forward[c.trip]| ::
          tt.forward[c.trip][p].departureNode != node)
  }

  method LastArrival(nodeCount: nat, tt: Timetable, s: JourneyStep, node: nat) returns (c: Option<Connection>)
    requires Valid(nodeCount, tt) && s.Ride? && RideOk(tt, s)
    ensures c.Some? ==> LastArrivalAt(tt, s, node, c.value)
    ensures c.None? ==> forall p: nat | InRide(s, p) :: tt.forward[s.enter.trip][p].arrivalNode != node
  {
    var t := s.enter.trip;
    ghost var cs := tt.forward[t];
    var rcs := tt.reverse[t];
    assert ValidTrip(nodeCount, t, cs, rcs);
    var startIdx, endIdx := s.enter.sequenceInTrip - 1, s.exit.sequenceInTrip - 1;
    var idx := |rcs| - 1 - endIdx;
    while idx <= |rcs| - 1 - startIdx
      invariant |rcs| - 1 - endIdx <= idx <= |rcs| - startIdx
      invariant forall p: nat | |rcs| - idx <= p <= endIdx :: cs[p].arrivalNode != node
    {
      assert rcs[idx] == cs[|rcs| - 1 - idx] by { assert rcs[|cs| - 1 - (|rcs| - 1 - idx)] == cs[|rcs| - 1 - idx]; }
      if rcs[idx].arrivalNode == node {
        return Some(rcs[idx]);
      }
      idx := idx + 1;
    }
    c := None;
  }

  method LastDeparture(nodeCount: nat, tt: Timetable, s: JourneyStep, node: nat) returns (c: Option<Connection>)
    requires Valid(nodeCount, tt) && s.Ride? && RideOk(tt, s)
    ensures c.Some? ==> LastDepartureAt(tt, s, node, c.value)
    ensures c.None? ==> forall p: nat | InRide(s, p) :: tt.forward[s.enter.trip][p].departureNode != node
  {
    var t := s.enter.trip;
    ghost var cs := tt.forward[t];
    var rcs := tt.reverse[t];
    assert ValidTrip(nodeCount, t, cs, rcs);
    var startIdx, endIdx := s.enter.sequenceInTrip - 1, s.exit.sequenceInTrip - 1;
    var idx := |rcs| - 1 - endIdx;
    while idx <= |rcs| - 1 - startIdx
      invariant |rcs| - 1 - endIdx <= idx <= |rcs| - startIdx
      invariant forall p: nat | |rcs| - idx <= p <= endIdx :: cs[p].departureNode != node
    {
      assert rcs[idx] == cs[|rcs| - 1 - idx] by { assert rcs[|cs| - 1 - (|rcs| - 1 - idx)] == cs[|rcs| - 1 - idx]; }
      if rcs[idx].departureNode == node {
        return Some(rcs[idx]);
      }
      idx := idx + 1;
    }
    c := None;
  }

  // Position p of the ride arrives at the node, and like every later arrival there
  // lets alight.
  ghost predicate OpenExit(tt: Timetable, s: JourneyStep, node: nat, p: nat)
    requires s.Ride? && RideOk(tt, s)
  {
    && InRide(s, p) && tt.forward[s.enter.trip][p].arrivalNode == node
    && (forall r: nat | p <= r && InRide(s, r) && tt.forward[s.enter.trip][r].arrivalNode == node ::
          tt.forward[s.enter.trip][r].canUnboard)
  }

  // The same for departures and boarding.
  ghost predicate OpenEntry(tt: Timetable, s: JourneyStep, node: nat, p: nat)
    requires s.Ride? && RideOk(tt, s)
  {
    && InRide(s, p) && tt.forward[s.enter.trip][p].departureNode == node
    && (forall r: nat | p <= r && InRide(s, r) && tt.forward[s.enter.trip][r].departureNode == node ::
          tt.forward[s.enter.trip][r].canBoard)
  }

  // c is the earliest open exit at the node, none if there is none.
  ghost predicate EarliestExit(tt: Timetable, s: JourneyStep, node: nat, c: Option<Connection>)
    requires s.Ride? && RideOk(tt, s)
  {
    if c.None? then forall p: nat :: !OpenExit(tt, s, node, p)
    else
      && OnTrip(tt, c.value) && c.value.trip == s.enter.trip && OpenExit(tt, s, node, c.value.sequenceInTrip - 1)
      && (forall p: nat | OpenExit(tt, s, node, p) :: c.value.sequenceInTrip - 1 <= p)
  }

  ghost predicate EarliestEntry(tt: Timetable, s: JourneyStep, node: nat, c: Connection)
    requires s.Ride? && RideOk(tt, s)
  {
    && OnTrip(tt, c) && c.trip == s.enter.trip && OpenEntry(tt, s, node, c.sequenceInTrip - 1)
    && (forall p: nat | OpenEntry(tt, s, node, p) :: c.sequenceInTrip - 1 <= p)
  }

  // First loop of case 4: from the end of the ride, the earliest arrival at the
  // node before one that cannot be alighted from.
  method CommonExit(nodeCount: nat, tt: Timetable, s: JourneyStep, node: nat) returns (c: Option<Connection>)
    requires Valid(nodeCount, tt) && s.Ride? && RideOk(tt, s)
    ensures EarliestExit(tt, s, node, c)
  {
    var t := s.enter.trip;
    ghost var cs := tt.forward[t];
    var rcs := tt.reverse[t];
    assert ValidTrip(nodeCount, t, cs, rcs);
    var startIdx, endIdx := s.enter.sequenceInTrip - 1, s.exit.sequenceInTrip - 1;
    var idx := |rcs| - 1 - endIdx;
    c := None;
    while idx <= |rcs| - 1 - startIdx
      invariant |rcs| - 1 - endIdx <= idx <= |rcs| - startIdx
      invariant forall p: nat | |rcs| - idx <= p <= endIdx && cs[p].arrivalNode == node ::
                  cs[p].canUnboard && c.Some? && c.value.sequenceInTrip - 1 <= p
      invariant c.Some? ==>
                |rcs| - idx <= c.value.sequenceInTrip - 1 <= endIdx &&
                cs[c.value.sequenceInTrip - 1] == c.value &&
                c.value.trip == t && c.value.arrivalNode == node
    {
      ghost var at := |rcs| - 1 - idx;
      assert rcs[idx] == cs[at] by { assert rcs[|cs| - 1 - at] == cs[at]; }
      if rcs[idx].arrivalNode == node {
        if rcs[idx].canUnboard {
          c := Some(rcs[idx]);
        } else {
          assert InRide(s, at) && !cs[at].canUnboard;
          break;
        }
      }
      idx := idx + 1;
    }
  }

  // ---- One round ------------------------------------------------------------------

  // journey is a well-formed reduction of original.
  ghost predicate Ready(nodeCount: nat, tt: Timetable, lo: nat, original: seq<JourneyStep>, journey: seq<JourneyStep>,
                        origin: seq<nat>) {
    Whole(Reduces(nodeCount, tt, lo, original, journey, origin))
  }

  ghost predicate Reduces(nodeCount: nat, tt: Timetable, lo: nat, original: seq<JourneyStep>,
                          journey: seq<JourneyStep>, origin: seq<nat>) {
    && Valid(nodeCount, tt) && WellFormed(tt, lo, original) && WellFormed(tt, lo, journey)
    && Keeps(original, journey, origin) && SameEnds(lo, original, journey)
  }

  // Alighting earlier, at a connection of the ride that arrives elsewhere.
  lemma ExitTrims(tt: Timetable, s: JourneyStep, c: Connection)
    requires s.Ride? && RideOk(tt, s) && OnTrip(tt, c) && c.trip == s.enter.trip && InRide(s, c.sequenceInTrip - 1)
    requires c.canUnboard && c.arrivalNode != s.exit.arrivalNode
    ensures Trims(tt, s.(exit := c), s) && RideLength(s.(exit := c)) < RideLength(s)
  {
  }

  // Boarding later, at a connection of the ride that departs elsewhere.
  lemma EnterTrims(tt: Timetable, s: JourneyStep, c: Connection, transferTime: int)
    requires s.Ride? && RideOk(tt, s) && OnTrip(tt, c) && c.trip == s.enter.trip && InRide(s, c.sequenceInTrip - 1)
    requires c.canBoard && c.departureNode != s.enter.departureNode
    ensures var cut := s.(enter := c, transferTime := transferTime);
        Trims(tt, cut, s) && RideLength(cut) < RideLength(s)
  {
  }

  // c, on the ride s but not its end, arrives at the node and lets alight.
  ghost predicate CanAlight(tt: Timetable, s: JourneyStep, node: nat, c: Connection) {
    && s.Ride? && OnTrip(tt, c) && c.trip == s.enter.trip && InRide(s, c.sequenceInTrip - 1)
    && c.arrivalNode == node != s.exit.arrivalNode && c.canUnboard
  }

  // Trimming a ride, but neither the start of the first nor the end of the last.
  lemma TrimReady(nodeCount: nat, tt: Timetable, lo: nat, original: seq<JourneyStep>, journey: seq<JourneyStep>,
                  origin: seq<nat>, k: nat, s: JourneyStep)
    requires Ready(nodeCount, tt, lo, original, journey, origin)
    requires k < |journey| && Trims(tt, s, journey[k])
    requires (k == lo ==> s.enter == journey[k].enter) && (k == |journey| - 2 ==> s.exit == journey[k].exit)
    ensures Ready(nodeCount, tt, lo, original, journey[k := s], origin)
    ensures TotalLength(journey[k := s]) == TotalLength(journey) - RideLength(journey[k]) + RideLength(s)
  {
    TrimKeeps(nodeCount, tt, lo, original, journey, origin, k, s);
    TrimEnds(lo, original, journey, k, s);
    TotalUpdate(journey, k, s);
  }

  lemma TrimEnds(lo: nat, original: seq<JourneyStep>, journey: seq<JourneyStep>, k: nat, s: JourneyStep)
    requires Shape(lo, original) && Shape(lo, journey) && SameEnds(lo, original, journey)
    requires k < |journey| && s.Ride? && journey[k].Ride?
    requires (k == lo ==> s.enter == journey[k].enter) && (k == |journey| - 2 ==> s.exit == journey[k].exit)
    ensures Shape(lo, journey[k := s]) && SameEnds(lo, original, journey[k := s])
  {
    var r := journey[k := s];
    assert Last(r) == Last(journey);
    assert r[lo].enter == journey[lo].enter;
    assert r[|r| - 2].exit == journey[|journey| - 2].exit;
  }

  // Erasing rides k + 1, .., b - 1 and trimming the end of ride k before them. If
  // the last ride goes, the trimmed one must end where it did.
  function Cut(journey: seq<JourneyStep>, k: nat, b: nat, s: JourneyStep): seq<JourneyStep>
    requires k < b <= |journey|
  {
    Erase(journey, k + 1, b)[k := s]
  }

  lemma CutReady(nodeCount: nat, tt: Timetable, lo: nat, original: seq<JourneyStep>, journey: seq<JourneyStep>,
                 origin: seq<nat>, k: nat, b: nat, s: JourneyStep)
    requires Ready(nodeCount, tt, lo, original, journey, origin)
    requires lo <= k < k + 1 < b < |journey| && Trims(tt, s, journey[k]) && s.enter == journey[k].enter
    requires b == |journey| - 1 ==> s.exit.arrivalNode == journey[b - 1].exit.arrivalNode
    ensures Ready(nodeCount, tt, lo, original, Cut(journey, k, b, s), origin[..k + 1] + origin[b..])
    ensures TotalLength(Cut(journey, k, b, s)) <= TotalLength(journey) - RideLength(journey[k]) + RideLength(s)
  {
    CutKeeps(nodeCount, tt, lo, original, journey, origin, k, b, s);
    CutLength(journey, k, b, s);
    CutArrival(nodeCount, tt, lo, journey, k, b, s);
    CutEnds(lo, original, journey, k, b, s);
  }

  lemma CutKeeps(nodeCount: nat, tt: Timetable, lo: nat, original: seq<JourneyStep>, journey: seq<JourneyStep>,
                 origin: seq<nat>, k: nat, b: nat, s: JourneyStep)
    requires Valid(nodeCount, tt) && WellFormed(tt, lo, journey) && Keeps(original, journey, origin)
    requires lo <= k < k + 1 < b < |journey| && Trims(tt, s, journey[k])
    ensures WellFormed(tt, lo, Cut(journey, k, b, s))
    ensures Keeps(original, Cut(journey, k, b, s), origin[..k + 1] + origin[b..])
  {
    EraseKeeps(tt, lo, original, journey, origin, k + 1, b);
    assert Erase(journey, k + 1, b)[k] == journey[k];
    TrimKeeps(nodeCount, tt, lo, original, Erase(journey, k + 1, b), origin[..k + 1] + origin[b..], k, s);
  }

  lemma CutLength(journey: seq<JourneyStep>, k: nat, b: nat, s: JourneyStep)
    requires k + 1 < b < |journey|
    ensures TotalLength(Cut(journey, k, b, s)) <= TotalLength(journey) - RideLength(journey[k]) + RideLength(s)
  {
    TotalErase(journey, k + 1, b);
    TotalUpdate(Erase(journey, k + 1, b), k, s);
  }

  // The ride before the erased ones was over before they began.
  lemma CutArrival(nodeCount: nat, tt: Timetable, lo: nat, journey: seq<JourneyStep>, k: nat, b: nat, s: JourneyStep)
    requires Valid(nodeCount, tt) && WellFormed(tt, lo, journey)
    requires lo <= k < k + 1 < b < |journey| && Trims(tt, s, journey[k])
    ensures s.exit.arrivalTime <= journey[b - 1].exit.arrivalTime
  {
    var l := journey[b - 1];
    assert RideOk(tt, journey[k]) && RideOk(tt, l) && Before(journey[k], l);
    TrimTimes(nodeCount, tt, s, journey[k]);
    RideTimes(nodeCount, tt, l);
  }

  lemma CutEnds(lo: nat, original: seq<JourneyStep>, journey: seq<JourneyStep>, k: nat, b: nat, s: JourneyStep)
    requires Shape(lo, original) && Shape(lo, journey) && SameEnds(lo, original, journey)
    requires lo <= k < k + 1 < b < |journey| && s.Ride? && s.enter == journey[k].enter
    requires b == |journey| - 1 ==> s.exit.arrivalNode == journey[b - 1].exit.arrivalNode &&
                                    s.exit.arrivalTime <= journey[b - 1].exit.arrivalTime
    ensures Shape(lo, Cut(journey, k, b, s))
    ensures SameEnds(lo, original, Cut(journey, k, b, s))
  {
    var r := Cut(journey, k, b, s);
    assert Last(r) == Last(journey);
    assert r[|r| - 2] == if b == |journey| - 1 then s else journey[|journey| - 2];
    assert r[lo].enter == journey[lo].enter;
  }

  lemma RideTimes(nodeCount: nat, tt: Timetable, s: JourneyStep)
    requires Valid(nodeCount, tt) && s.Ride? && RideOk(tt, s)
    ensures s.enter.departureTime <= s.exit.arrivalTime
  {
    var t := s.enter.trip;
    TripTimes(nodeCount, t, tt.forward[t], tt.reverse[t], s.enter.sequenceInTrip - 1, s.exit.sequenceInTrip - 1);
    var first := tt.forward[t][s.enter.sequenceInTrip - 1];
    assert first.departureTime <= first.arrivalTime;
  }

  // A round shortened the rides, or put the node on the ignored list.
  ghost predicate Progress(journey: seq<JourneyStep>, ignored: seq<nat>, node: nat, journey': seq<JourneyStep>,
                           ignored': seq<nat>) {
    && TotalLength(journey') <= TotalLength(journey)
    && (ignored' == ignored || ignored' == ignored + [node])
    && (TotalLength(journey') < TotalLength(journey) || ignored' == ignored + [node])
  }

  ghost predicate CanApply(nodeCount: nat, tt: Timetable, lo: nat, original: seq<JourneyStep>,
                           journey: seq<JourneyStep>,
                           origin: seq<nat>, ignored: seq<nat>, f: Finding) {
    Ready(nodeCount, tt, lo, original, journey, origin) && FoundOk(tt, journey, ignored, f) && f.case_ != -1
  }

  // The last arrival at a node the ride passes: it exists, and is not the end.
  method PassedArrival(nodeCount: nat, tt: Timetable, s: JourneyStep, node: nat) returns (c: Connection)
    requires Valid(nodeCount, tt) && s.Ride? && RideOk(tt, s) && node in InBetween(tt, s)
    ensures LastArrivalAt(tt, s, node, c) && node != s.exit.arrivalNode
  {
    ghost var p := PassedNode(nodeCount, tt, s, node);
    var found := LastArrival(nodeCount, tt, s, node);
    c := found.value;
  }

  method PassedDeparture(nodeCount: nat, tt: Timetable, s: JourneyStep, node: nat) returns (c: Connection)
    requires Valid(nodeCount, tt) && s.Ride? && RideOk(tt, s) && node in InBetween(tt, s)
    ensures LastDepartureAt(tt, s, node, c) && node != s.enter.departureNode
  {
    ghost var p := PassedNode(nodeCount, tt, s, node);
    var found := LastDeparture(nodeCount, tt, s, node);
    assert InRide(s, p + 1);
    c := found.value;
  }

  // The edit is made if the connection allows it; otherwise the node is ignored.
  ghost predicate Outcome(journey: seq<JourneyStep>, ignored: seq<nat>, node: nat, allowed: bool,
                          edited: seq<JourneyStep>,
                          journey': seq<JourneyStep>, ignored': seq<nat>, used: bool) {
    && used == allowed
    && journey' == (if allowed then edited else journey)
    && ignored' == (if allowed then ignored else ignored + [node])
  }

  function LineCut(journey: seq<JourneyStep>, f: Finding, c: Connection): seq<JourneyStep>
    requires f.from < f.to < |journey| && journey[f.from].Ride?
  {
    Cut(journey, f.from, CutEnd(f), journey[f.from].(exit := c))
  }

  // Adjacent rides: the later one goes. Otherwise only what lies between.
  function CutEnd(f: Finding): nat {
    if f.to - f.from == 1 then f.to + 1 else f.to
  }

  function BoardedAt(journey: seq<JourneyStep>, f: Finding, c: Connection): seq<JourneyStep>
    requires f.to < |journey| && journey[f.to].Ride?
  {
    journey[f.to := journey[f.to].(enter := c, transferTime := 0)]
  }

  function AlightedAt(journey: seq<JourneyStep>, f: Finding, c: Connection): seq<JourneyStep>
    requires f.from < f.to < |journey| && journey[f.from].Ride?
  {
    journey[f.from := journey[f.from].(exit := c)][f.to := journey[f.to].(transferTime := 0)]
  }

  // What one round of cases 1 to 3 does.
  ghost predicate Edited(tt: Timetable, journey: seq<JourneyStep>, ignored: seq<nat>, f: Finding, c: Connection,
                         journey': seq<JourneyStep>, ignored': seq<nat>, used: bool) {
    && f.from < f.to < |journey| && journey[f.from].Ride? && journey[f.to].Ride?
    && match f.case_
       case 1 =>
         LastArrivalAt(tt, journey[f.from], f.node, c) &&
         Outcome(journey, ignored, f.node, c.canUnboard, LineCut(journey, f, c), journey', ignored', used)
       case 2 =>
         LastDepartureAt(tt, journey[f.to], f.node, c) &&
         Outcome(journey, ignored, f.node, c.canBoard, BoardedAt(journey, f, c), journey', ignored', used)
       case 3 =>
         LastArrivalAt(tt, journey[f.from], f.node, c) &&
         Outcome(journey, ignored, f.node, c.canUnboard, AlightedAt(journey, f, c), journey', ignored', used)
       case _ => false
  }

  // Case 1: alight from the earlier ride where the later one ends, and drop the
  // later ride, or only what lies between when they are not adjacent.
  method CutLine(nodeCount: nat, tt: Timetable, ghost lo: nat, ghost original: seq<JourneyStep>,
                 journey: seq<JourneyStep>,
                 ghost origin: seq<nat>, ignored: seq<nat>, f: Finding)
    returns (journey': seq<JourneyStep>, ghost origin': seq<nat>, ignored': seq<nat>, used: bool, ghost cut: Connection)
    requires CanApply(nodeCount, tt, lo, original, journey, origin, ignored, f) && f.case_ == 1
    ensures Ready(nodeCount, tt, lo, original, journey', origin')
    ensures Progress(journey, ignored, f.node, journey', ignored')
    ensures Whole(Edited(tt, journey, ignored, f, cut, journey', ignored', used))
  {
    journey', origin', ignored', used := journey, origin, ignored, false;
    var s := journey[f.from];
    assert RideOk(tt, s) && RideOk(tt, journey[f.to]);
    var c := PassedArrival(nodeCount, tt, s, f.node);
    cut := c;
    assert journey[f.from].Ride? && journey[f.to].Ride?;
    if !c.canUnboard {
      ignored' := ignored + [f.node];
    } else {
      used := true;
      var b := CutEnd(f);
      CutLineBounds(tt, lo, journey, f, c, b);
      CutLineDone(nodeCount, tt, lo, original, journey, origin, ignored, f, b, s.(exit := c));
      journey' := Cut(journey, f.from, b, s.(exit := c));
      origin' := origin[..f.from + 1] + origin[b..];
    }
  }

  lemma CutLineDone(nodeCount: nat, tt: Timetable, lo: nat, original: seq<JourneyStep>, journey: seq<JourneyStep>,
                    origin: seq<nat>, ignored: seq<nat>, f: Finding, b: nat, s: JourneyStep)
    requires Ready(nodeCount, tt, lo, original, journey, origin)
    requires lo <= f.from < f.from + 1 < b < |journey| && Trims(tt, s, journey[f.from])
        && s.enter == journey[f.from].enter
    requires RideLength(s) < RideLength(journey[f.from])
    requires b == |journey| - 1 ==> s.exit.arrivalNode == journey[b - 1].exit.arrivalNode
    ensures Ready(nodeCount, tt, lo, original, Cut(journey, f.from, b, s), origin[..f.from + 1] + origin[b..])
    ensures Progress(journey, ignored, f.node, Cut(journey, f.from, b, s), ignored)
  {
    CutReady(nodeCount, tt, lo, original, journey, origin, f.from, b, s);
  }

  // The positions erased in case 1, and where the trimmed ride then ends.
  lemma CutLineBounds(tt: Timetable, lo: nat, journey: seq<JourneyStep>, f: Finding, c: Connection, b: nat)
    requires Shape(lo, journey) && f.from < f.to < |journey| && journey[f.from].Ride? && journey[f.to].Ride?
    requires RideOk(tt, journey[f.from]) && f.node == journey[f.to].exit.arrivalNode
    requires CanAlight(tt, journey[f.from], f.node, c)
    requires b == CutEnd(f)
    ensures lo < f.from + 1 < b < |journey|
    ensures var s := journey[f.from].(exit := c);
            && Trims(tt, s, journey[f.from]) && RideLength(s) < RideLength(journey[f.from])
            && (b == |journey| - 1 ==> s.exit.arrivalNode == journey[b - 1].exit.arrivalNode)
  {
    ExitTrims(tt, journey[f.from], c);
  }

  // Case 2: board the later ride where the earlier one ends.
  method BoardLater(nodeCount: nat, tt: Timetable, ghost lo: nat, ghost original: seq<JourneyStep>,
                    journey: seq<JourneyStep>,
                    ghost origin: seq<nat>, ignored: seq<nat>, f: Finding)
    returns (journey': seq<JourneyStep>, ignored': seq<nat>, used: bool, ghost cut: Connection)
    requires CanApply(nodeCount, tt, lo, original, journey, origin, ignored, f) && f.case_ == 2
    ensures Ready(nodeCount, tt, lo, original, journey', origin)
    ensures Progress(journey, ignored, f.node, journey', ignored')
    ensures Whole(Edited(tt, journey, ignored, f, cut, journey', ignored', used))
  {
    journey', ignored', used := journey, ignored, false;
    var s := journey[f.to];
    assert RideOk(tt, s) && RideOk(tt, journey[f.from]);
    var c := PassedDeparture(nodeCount, tt, s, f.node);
    cut := c;
    if !c.canBoard {
      ignored' := ignored + [f.node];
    } else {
      used := true;
      EnterTrims(tt, s, c, 0);
      TrimReady(nodeCount, tt, lo, original, journey, origin, f.to, s.(enter := c, transferTime := 0));
      journey' := journey[f.to := s.(enter := c, transferTime := 0)];
    }
  }

  // Case 3: alight from the earlier ride where the later one is boarded.
  method AlightEarlier(nodeCount: nat, tt: Timetable, ghost lo: nat, ghost original: seq<JourneyStep>,
                       journey: seq<JourneyStep>,
                       ghost origin: seq<nat>, ignored: seq<nat>, f: Finding)
    returns (journey': seq<JourneyStep>, ignored': seq<nat>, used: bool, ghost cut: Connection)
    requires CanApply(nodeCount, tt, lo, original, journey, origin, ignored, f) && f.case_ == 3
    ensures Ready(nodeCount, tt, lo, original, journey', origin)
    ensures Progress(journey, ignored, f.node, journey', ignored')
    ensures Whole(Edited(tt, journey, ignored, f, cut, journey', ignored', used))
  {
    journey', ignored', used := journey, ignored, false;
    var s := journey[f.from];
    assert RideOk(tt, s) && RideOk(tt, journey[f.to]);
    var c := PassedArrival(nodeCount, tt, s, f.node);
    cut := c;
    if !c.canUnboard {
      ignored' := ignored + [f.node];
    } else {
      used := true;
      ExitTrims(tt, s, c);
      TrimReady(nodeCount, tt, lo, original, journey, origin, f.from, s.(exit := c));
      journey' := journey[f.from := s.(exit := c)];
      var rest := journey[f.to].(transferTime := 0);
      TrimReady(nodeCount, tt, lo, original, journey', origin, f.to, rest);
      journey' := journey'[f.to := rest];
    }
  }

  // Both rides of case 4 trimmed to meet at the node.
  ghost predicate Joined(tt: Timetable, journey: seq<JourneyStep>, f: Finding, exit: Connection, r: seq<JourneyStep>)
    requires f.from < f.to < |journey|
  {
    && journey[f.from].Ride? && journey[f.to].Ride?
    && |r| == |journey| && r[f.to].Ride?
    && r == journey[f.from := journey[f.from].(exit := exit)][f.to := journey[f.to].(enter := r[f.to].enter)]
    && var c := r[f.to].enter;
    && OnTrip(tt, c) && c.trip == journey[f.to].enter.trip && InRide(journey[f.to], c.sequenceInTrip - 1)
    && c.departureNode == f.node && c.canBoard
  }

  lemma JoinedReady(nodeCount: nat, tt: Timetable, lo: nat, original: seq<JourneyStep>, journey: seq<JourneyStep>,
                    origin: seq<nat>, f: Finding, exit: Connection, r: seq<JourneyStep>)
    requires Ready(nodeCount, tt, lo, original, journey, origin) && f.from < f.to < |journey|
    requires Joined(tt, journey, f, exit, r) && CanAlight(tt, journey[f.from], f.node, exit)
    requires f.node != journey[f.to].enter.departureNode
    ensures Ready(nodeCount, tt, lo, original, r, origin) && TotalLength(r) < TotalLength(journey)
  {
    var s, e := journey[f.from], journey[f.to];
    assert RideOk(tt, s) && RideOk(tt, e);
    ExitTrims(tt, s, exit);
    EnterTrims(tt, e, r[f.to].enter, e.transferTime);
    var mid := journey[f.from := s.(exit := exit)];
    TrimReady(nodeCount, tt, lo, original, journey, origin, f.from, s.(exit := exit));
    assert e.(enter := r[f.to].enter, transferTime := e.transferTime) == r[f.to];
    TrimReady(nodeCount, tt, lo, original, mid, origin, f.to, r[f.to]);
  }

  // Some departure of the ride from the node that does not let board.
  ghost predicate Blocked(tt: Timetable, s: JourneyStep, node: nat)
    requires s.Ride? && RideOk(tt, s)
  {
    exists p: nat :: InRide(s, p) && tt.forward[s.enter.trip][p].departureNode == node
        && !tt.forward[s.enter.trip][p].canBoard
  }

  // What the second loop leaves, given the exit: both rides meet at the earliest
  // open entry if there is one, and the node is ignored if anything blocked it.
  ghost predicate JoinedAt(tt: Timetable, journey: seq<JourneyStep>, ignored: seq<nat>, f: Finding,
                           exit: Option<Connection>,
                           journey': seq<JourneyStep>, ignored': seq<nat>, uses: nat)
    requires f.from < f.to < |journey| && journey[f.to].Ride? && RideOk(tt, journey[f.to])
  {
    && (uses > 0 <==> exit.Some? && exists p: nat :: OpenEntry(tt, journey[f.to], f.node, p))
    && (uses == 0 ==> journey' == journey)
    && (uses > 0 ==>
          Joined(tt, journey, f, exit.value, journey') &&
          EarliestEntry(tt, journey[f.to], f.node, journey'[f.to].enter))
    && ignored' == (if exit.None? || Blocked(tt, journey[f.to], f.node) then ignored + [f.node] else ignored)
  }

  // The departures of the later ride from position bound on have been looked at:
  // all could be boarded, and the earliest one is.
  ghost predicate JoinedFrom(tt: Timetable, journey: seq<JourneyStep>, f: Finding, exit: Option<Connection>,
                             r: seq<JourneyStep>,
                             uses: nat, bound: int)
    requires f.from < f.to < |journey| && journey[f.from].Ride? && journey[f.to].Ride? && RideOk(tt, journey[f.to])
  {
    var s := journey[f.to];
    && s.enter.sequenceInTrip - 1 <= bound <= s.exit.sequenceInTrip
    && (uses == 0 ==> r == journey)
    && (uses > 0 ==> exit.Some? && Joined(tt, journey, f, exit.value, r) && bound <= r[f.to].enter.sequenceInTrip - 1)
    && (forall p: nat | bound <= p && InRide(s, p) && tt.forward[s.enter.trip][p].departureNode == f.node ::
          tt.forward[s.enter.trip][p].canBoard && uses > 0 && r[f.to].enter.sequenceInTrip - 1 <= p)
  }

  lemma JoinSkips(tt: Timetable, journey: seq<JourneyStep>, f: Finding, exit: Option<Connection>, r: seq<JourneyStep>,
                  uses: nat, bound: int)
    requires f.from < f.to < |journey| && journey[f.from].Ride? && journey[f.to].Ride? && RideOk(tt, journey[f.to])
    requires Whole(JoinedFrom(tt, journey, f, exit, r, uses, bound)) && bound >= journey[f.to].enter.sequenceInTrip
    requires tt.forward[journey[f.to].enter.trip][bound - 1].departureNode != f.node
    ensures Whole(JoinedFrom(tt, journey, f, exit, r, uses, bound - 1))
  {
  }

  function JoinEdit(journey: seq<JourneyStep>, f: Finding, exit: Connection, enter: Connection): seq<JourneyStep>
    requires f.from < f.to < |journey| && journey[f.from].Ride? && journey[f.to].Ride?
  {
    journey[f.from := journey[f.from].(exit := exit)][f.to := journey[f.to].(enter := enter)]
  }

  lemma JoinTakes(tt: Timetable, journey: seq<JourneyStep>, f: Finding, exit: Connection, r: seq<JourneyStep>,
                  uses: nat, bound: int, c: Connection)
    requires f.from < f.to < |journey| && journey[f.from].Ride? && journey[f.to].Ride? && RideOk(tt, journey[f.to])
    requires Whole(JoinedFrom(tt, journey, f, Some(exit), r, uses, bound))
    requires bound >= journey[f.to].enter.sequenceInTrip
    requires c == tt.forward[journey[f.to].enter.trip][bound - 1] && c.sequenceInTrip == bound
        && c.trip == journey[f.to].enter.trip
    requires c.departureNode == f.node && c.canBoard
    ensures |r| == |journey| && r[f.from].Ride? && r[f.to].Ride?
        && JoinEdit(r, f, exit, c) == JoinEdit(journey, f, exit, c)
    ensures Whole(JoinedFrom(tt, journey, f, Some(exit), JoinEdit(journey, f, exit, c), uses + 1, bound - 1))
  {
  }

  // Second loop of case 4: from the end of the later ride, board at each
  // departure from the node until one does not allow it.
  method JoinAt(nodeCount: nat, tt: Timetable, journey: seq<JourneyStep>, ignored: seq<nat>, f: Finding,
                exit: Option<Connection>)
    returns (journey': seq<JourneyStep>, ignored': seq<nat>, uses: nat)
    requires Valid(nodeCount, tt) && f.from < f.to < |journey| && journey[f.from].Ride? && journey[f.to].Ride?
    requires RideOk(tt, journey[f.to]) && f.node in InBetween(tt, journey[f.to])
    ensures Whole(JoinedAt(tt, journey, ignored, f, exit, journey', ignored', uses))
  {
    journey', ignored', uses := journey, ignored, 0;
    var s := journey[f.to];
    var t := s.enter.trip;
    ghost var cs := tt.forward[t];
    var rcs := tt.reverse[t];
    assert ValidTrip(nodeCount, t, cs, rcs);
    var startIdx, endIdx := s.enter.sequenceInTrip - 1, s.exit.sequenceInTrip - 1;
    var idx := |rcs| - 1 - endIdx;
    while idx <= |rcs| - 1 - startIdx
      invariant |rcs| - 1 - endIdx <= idx <= |rcs| - startIdx
      invariant ignored' == ignored && Whole(JoinedFrom(tt, journey, f, exit, journey', uses, |rcs| - idx))
    {
      var c := rcs[idx];
      ghost var bound := |rcs| - idx;
      assert c == cs[bound - 1] by { assert rcs[|cs| - 1 - (bound - 1)] == cs[bound - 1]; }
      if c.departureNode == f.node {
        if exit.Some? && c.canBoard {
          JoinTakes(tt, journey, f, exit.value, journey', uses, bound, c);
          uses := uses + 1;
          journey' := JoinEdit(journey', f, exit.value, c);
        } else {
          ignored' := ignored' + [f.node];
          JoinEnds(nodeCount, tt, journey, ignored, f, exit, journey', uses, bound, true);
          return;
        }
      } else {
        JoinSkips(tt, journey, f, exit, journey', uses, bound);
      }
      idx := idx + 1;
    }
    JoinEnds(nodeCount, tt, journey, ignored, f, exit, journey', uses, startIdx, false);
  }

  // The departure before bound blocked, or there is none left.
  lemma JoinEnds(nodeCount: nat, tt: Timetable, journey: seq<JourneyStep>, ignored: seq<nat>, f: Finding,
                 exit: Option<Connection>, r: seq<JourneyStep>, uses: nat, bound: int, blocked: bool)
    requires Valid(nodeCount, tt)
    requires f.from < f.to < |journey| && journey[f.from].Ride? && journey[f.to].Ride? && RideOk(tt, journey[f.to])
    requires Whole(JoinedFrom(tt, journey, f, exit, r, uses, bound))
    requires f.node in InBetween(tt, journey[f.to])
    requires !blocked ==> bound == journey[f.to].enter.sequenceInTrip - 1
    requires blocked ==> && bound >= journey[f.to].enter.sequenceInTrip
                         && var c := tt.forward[journey[f.to].enter.trip][bound - 1];
                            c.departureNode == f.node && (exit.None? || !c.canBoard)
    ensures Whole(JoinedAt(tt, journey, ignored, f, exit, r, if blocked then ignored + [f.node] else ignored, uses))
  {
    var s := journey[f.to];
    var before := PassedNode(nodeCount, tt, s, f.node);
    var passed := before + 1;
    assert InRide(s, passed) && tt.forward[s.enter.trip][passed].departureNode == f.node;
    if blocked { assert InRide(s, bound - 1); }
    forall p: nat | exit.Some? && OpenEntry(tt, s, f.node, p) ensures bound <= p {}
    if uses > 0 { assert OpenEntry(tt, s, f.node, r[f.to].enter.sequenceInTrip - 1); }
  }

  // Case 4: alight from the earlier ride and board the later one at a node both pass.
  method CutSegment(nodeCount: nat, tt: Timetable, ghost lo: nat, ghost original: seq<JourneyStep>,
                    journey: seq<JourneyStep>,
                    ghost origin: seq<nat>, ignored: seq<nat>, f: Finding)
    returns (journey': seq<JourneyStep>, ignored': seq<nat>, uses: nat, ghost exit: Option<Connection>)
    requires CanApply(nodeCount, tt, lo, original, journey, origin, ignored, f) && f.case_ == 4
    ensures Ready(nodeCount, tt, lo, original, journey', origin)
    ensures Progress(journey, ignored, f.node, journey', ignored')
    ensures Whole(SegmentCut(tt, journey, ignored, f, exit, journey', ignored', uses))
  {
    assert RideOk(tt, journey[f.from]) && RideOk(tt, journey[f.to]);
    var common := CommonExit(nodeCount, tt, journey[f.from], f.node);
    exit := common;
    journey', ignored', uses := JoinAt(nodeCount, tt, journey, ignored, f, common);
    SegmentReady(nodeCount, tt, lo, original, journey, origin, ignored, f, common, journey', ignored', uses);
  }

  ghost predicate SegmentCut(tt: Timetable, journey: seq<JourneyStep>, ignored: seq<nat>, f: Finding,
                             exit: Option<Connection>,
                             journey': seq<JourneyStep>, ignored': seq<nat>, uses: nat) {
    && f.from < f.to < |journey| && journey[f.from].Ride? && journey[f.to].Ride?
    && RideOk(tt, journey[f.from]) && RideOk(tt, journey[f.to])
    && EarliestExit(tt, journey[f.from], f.node, exit)
    && JoinedAt(tt, journey, ignored, f, exit, journey', ignored', uses)
  }

  lemma SegmentReady(nodeCount: nat, tt: Timetable, lo: nat, original: seq<JourneyStep>, journey: seq<JourneyStep>,
                     origin: seq<nat>,
                     ignored: seq<nat>, f: Finding, exit: Option<Connection>, journey': seq<JourneyStep>,
                         ignored': seq<nat>, uses: nat)
    requires CanApply(nodeCount, tt, lo, original, journey, origin, ignored, f) && f.case_ == 4
    requires SegmentCut(tt, journey, ignored, f, exit, journey', ignored', uses)
    ensures Ready(nodeCount, tt, lo, original, journey', origin)
    ensures Progress(journey, ignored, f.node, journey', ignored')
  {
    var p := PassedNode(nodeCount, tt, journey[f.from], f.node);
    var p' := PassedNode(nodeCount, tt, journey[f.to], f.node);
    if uses > 0 {
      assert CanAlight(tt, journey[f.from], f.node, exit.value);
      JoinedReady(nodeCount, tt, lo, original, journey, origin, f, exit.value, journey');
    } else {
      NothingOpen(tt, journey[f.to], f.node, exit, p' + 1);
    }
  }

  // If nothing is open at a node that is passed, something blocks it.
  lemma NothingOpen(tt: Timetable, s: JourneyStep, node: nat, exit: Option<Connection>, p: nat)
    requires s.Ride? && RideOk(tt, s) && InRide(s, p) && tt.forward[s.enter.trip][p].departureNode == node
    requires exit.Some? ==> forall r: nat :: !OpenEntry(tt, s, node, r)
    ensures exit.None? || Blocked(tt, s, node)
  {
    if exit.Some? { assert !OpenEntry(tt, s, node, p); }
  }

  // ---- The whole optimisation -------------------------------------------------

  ghost function Open(nodeCount: nat, ignored: seq<nat>): set<nat> {
    set n: nat | n < nodeCount && n !in ignored
  }

  lemma OpenShrinks(nodeCount: nat, ignored: seq<nat>, n: nat)
    requires n < nodeCount && n !in ignored
    ensures Open(nodeCount, ignored + [n]) < Open(nodeCount, ignored)
  {
    assert n in Open(nodeCount, ignored);
  }

  // A case found names a node of the network.
  lemma FoundNode(nodeCount: nat, tt: Timetable, journey: seq<JourneyStep>, ignored: seq<nat>, f: Finding)
    requires Valid(nodeCount, tt) && (forall k: nat | k < |journey| :: RideOk(tt, journey[k]))
    requires FoundOk(tt, journey, ignored, f) && f.case_ != -1
    ensures f.node < nodeCount && f.node !in ignored
  {
    if f.case_ == 2 {
      var p := PassedNode(nodeCount, tt, journey[f.to], f.node);
    } else {
      var p := PassedNode(nodeCount, tt, journey[f.from], f.node);
    }
  }

  // What applying a finding does, exactly; used lists the edits made.
  ghost predicate RoundDone(tt: Timetable, journey: seq<JourneyStep>, ignored: seq<nat>, f: Finding,
                            journey': seq<JourneyStep>, ignored': seq<nat>, used: seq<int>) {
    && (forall u <- used :: u == f.case_)
    && if f.case_ == 4 then exists exit :: SegmentCut(tt, journey, ignored, f, exit, journey', ignored', |used|)
       else exists c :: EditedOnce(tt, journey, ignored, f, c, journey', ignored', used)
  }

  ghost predicate EditedOnce(tt: Timetable, journey: seq<JourneyStep>, ignored: seq<nat>, f: Finding, c: Connection,
                             journey': seq<JourneyStep>, ignored': seq<nat>, used: seq<int>) {
    |used| <= 1 && Whole(Edited(tt, journey, ignored, f, c, journey', ignored', |used| == 1))
  }

  // Applying what Find returned.
  method ApplyCase(nodeCount: nat, tt: Timetable, ghost lo: nat, ghost original: seq<JourneyStep>,
                   journey: seq<JourneyStep>,
                   ghost origin: seq<nat>, ignored: seq<nat>, f: Finding)
    returns (journey': seq<JourneyStep>, ghost origin': seq<nat>, ignored': seq<nat>, used: seq<int>)
    requires CanApply(nodeCount, tt, lo, original, journey, origin, ignored, f) && 1 <= f.case_ <= 4
    ensures Ready(nodeCount, tt, lo, original, journey', origin')
    ensures Progress(journey, ignored, f.node, journey', ignored')
    ensures Whole(RoundDone(tt, journey, ignored, f, journey', ignored', used))
  {
    origin' := origin;
    if f.case_ == 4 {
      var uses;
      ghost var exit;
      journey', ignored', uses, exit := CutSegment(nodeCount, tt, lo, original, journey, origin, ignored, f);
      used := seq(uses, _ => 4);
      SegmentIsDone(tt, journey, ignored, f, exit, journey', ignored', uses, used);
    } else {
      journey', origin', ignored', used := ApplySimple(nodeCount, tt, lo, original, journey, origin, ignored, f);
    }
  }

  method ApplySimple(nodeCount: nat, tt: Timetable, ghost lo: nat, ghost original: seq<JourneyStep>,
                     journey: seq<JourneyStep>,
                     ghost origin: seq<nat>, ignored: seq<nat>, f: Finding)
    returns (journey': seq<JourneyStep>, ghost origin': seq<nat>, ignored': seq<nat>, used: seq<int>)
    requires CanApply(nodeCount, tt, lo, original, journey, origin, ignored, f) && 1 <= f.case_ <= 3
    ensures Ready(nodeCount, tt, lo, original, journey', origin')
    ensures Progress(journey, ignored, f.node, journey', ignored')
    ensures Whole(RoundDone(tt, journey, ignored, f, journey', ignored', used))
  {
    origin' := origin;
    var once: bool;
    ghost var cut;
    if f.case_ == 1 {
      journey', origin', ignored', once, cut := CutLine(nodeCount, tt, lo, original, journey, origin, ignored, f);
    } else if f.case_ == 2 {
      journey', ignored', once, cut := BoardLater(nodeCount, tt, lo, original, journey, origin, ignored, f);
    } else {
      journey', ignored', once, cut := AlightEarlier(nodeCount, tt, lo, original, journey, origin, ignored, f);
    }
    used := if once then [f.case_] else [];
    EditedIsDone(tt, journey, ignored, f, cut, journey', ignored', once, used);
  }

  lemma SegmentIsDone(tt: Timetable, journey: seq<JourneyStep>, ignored: seq<nat>, f: Finding, exit: Option<Connection>,
                      journey': seq<JourneyStep>, ignored': seq<nat>, uses: nat, used: seq<int>)
    requires f.case_ == 4 && Whole(SegmentCut(tt, journey, ignored, f, exit, journey', ignored', uses))
    requires |used| == uses && forall u <- used :: u == 4
    ensures Whole(RoundDone(tt, journey, ignored, f, journey', ignored', used))
  {
  }

  lemma EditedIsDone(tt: Timetable, journey: seq<JourneyStep>, ignored: seq<nat>, f: Finding, c: Connection,
                     journey': seq<JourneyStep>, ignored': seq<nat>, once: bool, used: seq<int>)
    requires f.case_ != 4 && Whole(Edited(tt, journey, ignored, f, c, journey', ignored', once))
    requires used == if once then [f.case_] else []
    ensures Whole(RoundDone(tt, journey, ignored, f, journey', ignored', used))
  {
    assert (|used| == 1) == once;
    assert EditedOnce(tt, journey, ignored, f, c, journey', ignored', used);
  }

  lemma RoundShrinks(nodeCount: nat, journey: seq<JourneyStep>, ignored: seq<nat>, node: nat,
                     journey': seq<JourneyStep>, ignored': seq<nat>)
    requires node < nodeCount && node !in ignored && Progress(journey, ignored, node, journey', ignored')
    ensures TotalLength(journey') < TotalLength(journey) ||
            (TotalLength(journey') == TotalLength(journey) && Open(nodeCount, ignored') < Open(nodeCount, ignored))
  {
    OpenShrinks(nodeCount, ignored, node);
  }

  lemma StartReady(nodeCount: nat, tt: Timetable, lo: nat, original: seq<JourneyStep>, origin: seq<nat>)
    requires Valid(nodeCount, tt) && WellFormed(tt, lo, original)
    requires |origin| == |original| && forall k: nat | k < |original| :: origin[k] == k
    ensures Ready(nodeCount, tt, lo, original, original, origin)
  {
  }

  // ---- Runs ---------------------------------------------------------------------

  // The state between two rounds, and a run from a first state on.
  datatype Stage = Stage(journey: seq<JourneyStep>, ignored: seq<nat>, used: seq<int>)

  datatype Run = Start(stage: Stage) | Step(before: Run, f: Finding, edits: seq<int>, stage: Stage)

  ghost predicate OneRound(tt: Timetable, a: Stage, f: Finding, edits: seq<int>, b: Stage) {
    && (forall k: nat | k < |a.journey| :: RideOk(tt, a.journey[k]))
    && f.case_ != -1 && FirstFinding(tt, a.journey, a.ignored, f)
    && b.used == a.used + edits && RoundDone(tt, a.journey, a.ignored, f, b.journey, b.ignored, edits)
  }

  // Every round applies the first finding of its stage; none follows one of case 2.
  ghost predicate IsRun(tt: Timetable, original: seq<JourneyStep>, run: Run) {
    match run
    case Start(stage) => stage == Stage(original, [], [])
    case Step(before, f, edits, stage) =>
          IsRun(tt, original, before) && Unfinished(before) &&
          OneRound(tt, before.stage, f, edits, stage)
  }

  predicate Unfinished(run: Run) {
    run.Start? || run.f.case_ != 2
  }

  // Case 2 ends a run; otherwise it ends when nothing is left to find.
  ghost predicate Ended(tt: Timetable, run: Run) {
    !Unfinished(run) || Whole(NothingLeft(tt, run.stage))
  }

  // A run with its timetable and first journey, which has ended.
  datatype RunRecord = RunRecord(tt: Timetable, original: seq<JourneyStep>, run: Run)

  ghost predicate Complete(r: RunRecord) {
    IsRun(r.tt, r.original, r.run) && Ended(r.tt, r.run)
  }

  const NO_RUN := RunRecord(Timetable([], []), [], Start(Stage([], [], [])))

  type CompleteRun = r: RunRecord | Complete(r) witness NO_RUN

  // record tells how the optimiser turned one journey into the other.
  predicate Turns(record: CompleteRun, tt: Timetable, original: seq<JourneyStep>, journey: seq<JourneyStep>) {
    record.tt == tt && record.original == original && record.run.stage.journey == journey
  }

  ghost predicate NothingLeft(tt: Timetable, stage: Stage) {
    && (forall k: nat | k < |stage.journey| :: RideOk(tt, stage.journey[k]))
    && AllSettled(tt, stage.journey, stage.ignored)
  }

  // What each case means, over the connections of the two rides.
  lemma AppliesExactly(tt: Timetable, journey: seq<JourneyStep>, case_: int, n: nat, i: nat, j: nat)
    requires i < |journey| && j < |journey| && RideOk(tt, journey[i]) && RideOk(tt, journey[j])
    requires journey[i].Ride? && journey[j].Ride?
    ensures var a, b := journey[i], journey[j];
            var byA := n != a.enter.departureNode && n != a.exit.arrivalNode &&
                       exists p: nat :: a.enter.sequenceInTrip <= p < a.exit.sequenceInTrip &&
                                        tt.forward[a.enter.trip][p].departureNode == n;
            var byB := n != b.enter.departureNode && n != b.exit.arrivalNode &&
                       exists p: nat :: b.enter.sequenceInTrip <= p < b.exit.sequenceInTrip &&
                                        tt.forward[b.enter.trip][p].departureNode == n;
            Applies(tt, journey, case_, n, i, j) <==>
            || (case_ == 1 && n == b.exit.arrivalNode && byA)
            || (case_ == 2 && n == a.exit.arrivalNode && byB)
            || (case_ == 3 && n == b.enter.departureNode && byA)
            || (case_ == 4 && byA && byB)
  {
    InBetweenExactly(tt, journey[i], n);
    InBetweenExactly(tt, journey[j], n);
  }

  // Between the rides i < j of a journey the optimiser leaves, unless it stopped
  // after case 2, over their connections and ignored nodes apart: the first passes
  // neither end of the second, the second does not pass the end of the first, and
  // no node is passed by both.
  lemma NothingRemains(record: CompleteRun, i: nat, j: nat)
    requires record.run.Start? || record.run.f.case_ != 2
    requires var journey := record.run.stage.journey; i < j < |journey| && journey[i].Ride? && journey[j].Ride?
    ensures var journey, ignored, trips := record.run.stage.journey, record.run.stage.ignored, record.tt.forward;
            var a, b := journey[i], journey[j];
            && RideOk(record.tt, a) && RideOk(record.tt, b)
            && (forall p: nat | a.enter.sequenceInTrip <= p < a.exit.sequenceInTrip ::
                  var n := trips[a.enter.trip][p].departureNode;
                  n == a.enter.departureNode || n == a.exit.arrivalNode || n in ignored ||
                  (n != b.exit.arrivalNode && n != b.enter.departureNode))
            && (forall p: nat | b.enter.sequenceInTrip <= p < b.exit.sequenceInTrip ::
                  var n := trips[b.enter.trip][p].departureNode;
                  n == b.enter.departureNode || n == b.exit.arrivalNode || n in ignored || n != a.exit.arrivalNode)
            && (forall p: nat, r: nat | a.enter.sequenceInTrip <= p < a.exit.sequenceInTrip &&
                                        b.enter.sequenceInTrip <= r < b.exit.sequenceInTrip ::
                  var n := trips[a.enter.trip][p].departureNode;
                  n == a.enter.departureNode || n == a.exit.arrivalNode || n in ignored ||
                  n == b.enter.departureNode || n == b.exit.arrivalNode || n != trips[b.enter.trip][r].departureNode)
  {
    var tt, journey, ignored := record.tt, record.run.stage.journey, record.run.stage.ignored;
    assert NothingLeft(tt, record.run.stage);
    assert Settled(tt, journey, ignored, i, j);
    forall p: nat | PassesAt(tt, journey[i], p) && tt.forward[journey[i].enter.trip][p].departureNode !in ignored
      ensures var n := tt.forward[journey[i].enter.trip][p].departureNode;
              && n != journey[j].exit.arrivalNode && n != journey[j].enter.departureNode
                  && n !in InBetween(tt, journey[j])
    {
      var n := tt.forward[journey[i].enter.trip][p].departureNode;
      PassedThere(tt, journey[i], p);
      assert !Applies(tt, journey, 1, n, i, j) && !Applies(tt, journey, 3, n, i, j)
          && !Applies(tt, journey, 4, n, i, j);
    }
    forall p: nat | PassesAt(tt, journey[j], p) && tt.forward[journey[j].enter.trip][p].departureNode !in ignored
      ensures tt.forward[journey[j].enter.trip][p].departureNode != journey[i].exit.arrivalNode
      ensures tt.forward[journey[j].enter.trip][p].departureNode in InBetween(tt, journey[j])
    {
      PassedThere(tt, journey[j], p);
      assert !Applies(tt, journey, 2, tt.forward[journey[j].enter.trip][p].departureNode, i, j);
    }
  }

  // Position p of the ride, not its first, departs from neither end.
  ghost predicate PassesAt(tt: Timetable, s: JourneyStep, p: nat) {
    && s.Ride? && RideOk(tt, s) && s.enter.sequenceInTrip <= p < s.exit.sequenceInTrip
    && var n := tt.forward[s.enter.trip][p].departureNode; n != s.enter.departureNode && n != s.exit.arrivalNode
  }

  lemma PassedThere(tt: Timetable, s: JourneyStep, p: nat)
    requires PassesAt(tt, s, p)
    ensures tt.forward[s.enter.trip][p].departureNode in InBetween(tt, s)
  {
    InBetweenExactly(tt, s, tt.forward[s.enter.trip][p].departureNode);
  }

  // A round applies the first case there is: of the pairs to which one applies, the
  // one whose later step comes first, then whose earlier step does, then the lowest.
  lemma FirstIsFound(tt: Timetable, a: Stage, f: Finding, edits: seq<int>, b: Stage, case_: int, n: nat, i: nat, j: nat)
    requires Whole(OneRound(tt, a, f, edits, b)) && i < j < |a.journey| && n !in a.ignored
    requires RideOk(tt, a.journey[i]) && RideOk(tt, a.journey[j]) && Applies(tt, a.journey, case_, n, i, j)
    ensures f.to < j || (f.to == j && (f.from < i || (f.from == i && f.case_ <= case_)))
  {
    assert j < f.to || (j == f.to && i < f.from) ==> Settled(tt, a.journey, a.ignored, i, j);
  }

  // In case 4 the earlier ride passes the node found no later than any other common one.
  lemma FirstCommonIsFound(tt: Timetable, a: Stage, f: Finding, edits: seq<int>, b: Stage, n: nat, p: nat)
    returns (r: nat)
    requires Whole(OneRound(tt, a, f, edits, b)) && f.case_ == 4 && f.from < f.to < |a.journey| && n !in a.ignored
    requires RideOk(tt, a.journey[f.from]) && RideOk(tt, a.journey[f.to])
    requires Applies(tt, a.journey, 4, n, f.from, f.to)
    requires var s := a.journey[f.from];
             s.enter.sequenceInTrip <= p < s.exit.sequenceInTrip && tt.forward[s.enter.trip][p].departureNode == n
    ensures var s := a.journey[f.from];
            s.enter.sequenceInTrip <= r <= p && tt.forward[s.enter.trip][r].departureNode == f.node
  {
    r := FirstCommonPosition(tt, a.journey[f.from], InBetween(tt, a.journey[f.to]), a.ignored, f.node, n, p);
  }

  lemma FirstCommonPosition(tt: Timetable, s: JourneyStep, others: seq<nat>, ignored: seq<nat>, node: nat, n: nat,
                            p: nat)
    returns (r: nat)
    requires s.Ride? && RideOk(tt, s) && IsFirstCommon(InBetween(tt, s), others, ignored, node)
    requires n in InBetween(tt, s) && n in others && n !in ignored
    requires s.enter.sequenceInTrip <= p < s.exit.sequenceInTrip && tt.forward[s.enter.trip][p].departureNode == n
    ensures s.enter.sequenceInTrip <= r <= p && tt.forward[s.enter.trip][r].departureNode == node
  {
    var ps := InBetweenInOrder(tt, s);
    InBetweenExactly(tt, s, n);
    var nodes := InBetween(tt, s);
    var k: nat :| k < |nodes| && nodes[k] == node &&
                  forall m: nat | m < k :: nodes[m] !in others || nodes[m] in ignored;
    var m: nat :| m < |ps| && ps[m] == p;
    assert nodes[m] == n;
    r := ps[k];
    assert m != k ==> k < m;
  }

  lemma OneEdit(f: Finding, edits: seq<int>)
    requires |edits| <= 1 && forall u <- edits :: u == f.case_
    ensures edits == if |edits| == 1 then [f.case_] else []
  {
    if |edits| == 1 { assert edits[0] in edits && edits[0] == f.case_ && edits == [edits[0]]; }
  }

  // What cases 1 to 3 used: the connection to alight from or to board.
  lemma SimpleEdit(tt: Timetable, a: Stage, f: Finding, edits: seq<int>, b: Stage) returns (c: Connection)
    requires Whole(OneRound(tt, a, f, edits, b)) && f.case_ != 4
    ensures f.from < f.to < |a.journey| && a.journey[f.from].Ride? && a.journey[f.to].Ride?
    ensures RideOk(tt, a.journey[f.from]) && RideOk(tt, a.journey[f.to])
    ensures Edited(tt, a.journey, a.ignored, f, c, b.journey, b.ignored, |edits| == 1)
    ensures edits == if |edits| == 1 then [f.case_] else []
  {
    c :| EditedOnce(tt, a.journey, a.ignored, f, c, b.journey, b.ignored, edits);
    OneEdit(f, edits);
  }

  // Case 1: the earlier ride is left at its last stop at the node, if that lets
  // alight; the later ride goes, or what lies between when they are not adjacent.
  lemma LineCutDoes(tt: Timetable, a: Stage, f: Finding, edits: seq<int>, b: Stage) returns (p: nat)
    requires Whole(OneRound(tt, a, f, edits, b)) && f.case_ == 1
    ensures f.from < f.to < |a.journey| && a.journey[f.from].Ride? && RideOk(tt, a.journey[f.from])
    ensures var s := a.journey[f.from]; var cs := tt.forward[s.enter.trip];
            && s.enter.sequenceInTrip - 1 <= p < s.exit.sequenceInTrip && cs[p].arrivalNode == f.node
            && (forall r: nat | p < r < s.exit.sequenceInTrip :: cs[r].arrivalNode != f.node)
            && if cs[p].canUnboard
               then
                 && edits == [1] && b.ignored == a.ignored
                 && b.journey == a.journey[..f.from] + [s.(exit := cs[p])] +
                                 a.journey[if f.to == f.from + 1 then f.to + 1 else f.to..]
               else edits == [] && b.journey == a.journey && b.ignored == a.ignored + [f.node]
  {
    var c := SimpleEdit(tt, a, f, edits, b);
    p := c.sequenceInTrip - 1;
  }

  // Case 2: the later ride is boarded at its last departure from the node, if that
  // lets board, with no transfer to walk after it.
  lemma LateBoardingDoes(tt: Timetable, a: Stage, f: Finding, edits: seq<int>, b: Stage) returns (p: nat)
    requires Whole(OneRound(tt, a, f, edits, b)) && f.case_ == 2
    ensures f.from < f.to < |a.journey| && a.journey[f.to].Ride? && RideOk(tt, a.journey[f.to])
    ensures var s := a.journey[f.to]; var cs := tt.forward[s.enter.trip];
            && s.enter.sequenceInTrip - 1 <= p < s.exit.sequenceInTrip && cs[p].departureNode == f.node
            && (forall r: nat | p < r < s.exit.sequenceInTrip :: cs[r].departureNode != f.node)
            && if cs[p].canBoard
               then edits == [2] && b.ignored == a.ignored && b.journey == a.journey[f.to := Ride(cs[p], s.exit, 0)]
               else edits == [] && b.journey == a.journey && b.ignored == a.ignored + [f.node]
  {
    var c := SimpleEdit(tt, a, f, edits, b);
    p := c.sequenceInTrip - 1;
  }

  // Case 3: the earlier ride is left at its last stop at the node, if that lets
  // alight; the transfer after the later ride is set to nothing.
  lemma EarlyAlightingDoes(tt: Timetable, a: Stage, f: Finding, edits: seq<int>, b: Stage) returns (p: nat)
    requires Whole(OneRound(tt, a, f, edits, b)) && f.case_ == 3
    ensures f.from < f.to < |a.journey| && a.journey[f.from].Ride? && a.journey[f.to].Ride?
    ensures RideOk(tt, a.journey[f.from])
    ensures var s, t := a.journey[f.from], a.journey[f.to]; var cs := tt.forward[s.enter.trip];
            && s.enter.sequenceInTrip - 1 <= p < s.exit.sequenceInTrip && cs[p].arrivalNode == f.node
            && (forall r: nat | p < r < s.exit.sequenceInTrip :: cs[r].arrivalNode != f.node)
            && if cs[p].canUnboard
               then
                 && edits == [3] && b.ignored == a.ignored
                 && b.journey == a.journey[f.from := Ride(s.enter, cs[p], s.transferTime)]
                                          [f.to := Ride(t.enter, t.exit, 0)]
               else edits == [] && b.journey == a.journey && b.ignored == a.ignored + [f.node]
  {
    var c := SimpleEdit(tt, a, f, edits, b);
    p := c.sequenceInTrip - 1;
  }

  // What case 4 used: the exit and the entry, when it edits.
  lemma SegmentEdit(tt: Timetable, a: Stage, f: Finding, edits: seq<int>, b: Stage) returns (exit: Option<Connection>)
    requires Whole(OneRound(tt, a, f, edits, b)) && f.case_ == 4
    ensures f.from < f.to < |a.journey| && a.journey[f.from].Ride? && a.journey[f.to].Ride?
    ensures RideOk(tt, a.journey[f.from]) && RideOk(tt, a.journey[f.to])
    ensures EarliestExit(tt, a.journey[f.from], f.node, exit)
    ensures Whole(JoinedAt(tt, a.journey, a.ignored, f, exit, b.journey, b.ignored, |edits|))
  {
    exit :| SegmentCut(tt, a.journey, a.ignored, f, exit, b.journey, b.ignored, |edits|);
  }

  lemma JoinedMeans(tt: Timetable, journey: seq<JourneyStep>, ignored: seq<nat>, f: Finding, exit: Option<Connection>,
                    r: seq<JourneyStep>, ignored': seq<nat>, uses: nat)
    requires f.from < f.to < |journey| && journey[f.from].Ride? && journey[f.to].Ride? && RideOk(tt, journey[f.to])
    requires Whole(JoinedAt(tt, journey, ignored, f, exit, r, ignored', uses)) && uses > 0
    ensures exit.Some? && |r| == |journey| && r[f.to].Ride?
    ensures EarliestEntry(tt, journey[f.to], f.node, r[f.to].enter)
    ensures r == journey[f.from := journey[f.from].(exit := exit.value)]
                        [f.to := journey[f.to].(enter := r[f.to].enter)]
    ensures ignored' == if Blocked(tt, journey[f.to], f.node) then ignored + [f.node] else ignored
  {
  }

  lemma ExitPosition(tt: Timetable, s: JourneyStep, node: nat, c: Connection) returns (p: nat)
    requires s.Ride? && RideOk(tt, s) && EarliestExit(tt, s, node, Some(c))
    ensures var cs := tt.forward[s.enter.trip];
            && s.enter.sequenceInTrip - 1 <= p < s.exit.sequenceInTrip && cs[p] == c && c.arrivalNode == node
            && (forall k: nat | p <= k < s.exit.sequenceInTrip && cs[k].arrivalNode == node :: cs[k].canUnboard)
  {
    p := c.sequenceInTrip - 1;
  }

  lemma EntryPosition(tt: Timetable, s: JourneyStep, node: nat, c: Connection) returns (p: nat)
    requires s.Ride? && RideOk(tt, s) && EarliestEntry(tt, s, node, c)
    ensures var cs := tt.forward[s.enter.trip];
            && s.enter.sequenceInTrip - 1 <= p < s.exit.sequenceInTrip && cs[p] == c && c.departureNode == node
            && (forall k: nat | p <= k < s.exit.sequenceInTrip && cs[k].departureNode == node :: cs[k].canBoard)
  {
    p := c.sequenceInTrip - 1;
  }

  lemma BlockedExactly(tt: Timetable, s: JourneyStep, node: nat)
    requires s.Ride? && RideOk(tt, s)
    ensures Blocked(tt, s, node) <==>
            exists k: nat :: s.enter.sequenceInTrip - 1 <= k < s.exit.sequenceInTrip &&
                             tt.forward[s.enter.trip][k].departureNode == node && !tt.forward[s.enter.trip][k].canBoard
  {
    forall k: nat ensures InRide(s, k) <==> s.enter.sequenceInTrip - 1 <= k < s.exit.sequenceInTrip {}
  }

  // Case 4, when it edits: both rides are trimmed to meet at the node, the earlier
  // one left at position p and the later one boarded at position r; from there on
  // no stop at the node is closed. The node is ignored as well if one before r is.
  lemma SegmentCutDoes(tt: Timetable, a: Stage, f: Finding, edits: seq<int>, b: Stage) returns (p: nat, r: nat)
    requires Whole(OneRound(tt, a, f, edits, b)) && f.case_ == 4 && edits != []
    ensures f.from < f.to < |a.journey| && a.journey[f.from].Ride? && a.journey[f.to].Ride?
    ensures RideOk(tt, a.journey[f.from]) && RideOk(tt, a.journey[f.to])
    ensures var s := a.journey[f.from]; var cs := tt.forward[s.enter.trip];
            && s.enter.sequenceInTrip - 1 <= p < s.exit.sequenceInTrip && cs[p].arrivalNode == f.node
            && (forall k: nat | p <= k < s.exit.sequenceInTrip && cs[k].arrivalNode == f.node :: cs[k].canUnboard)
    ensures var s := a.journey[f.to]; var cs := tt.forward[s.enter.trip];
            && s.enter.sequenceInTrip - 1 <= r < s.exit.sequenceInTrip && cs[r].departureNode == f.node
            && (forall k: nat | r <= k < s.exit.sequenceInTrip && cs[k].departureNode == f.node :: cs[k].canBoard)
    ensures var s, t := a.journey[f.from], a.journey[f.to];
            b.journey == a.journey[f.from := Ride(s.enter, tt.forward[s.enter.trip][p], s.transferTime)]
                                  [f.to := Ride(tt.forward[t.enter.trip][r], t.exit, t.transferTime)]
    ensures var t := a.journey[f.to];
            b.ignored == if exists k: nat :: t.enter.sequenceInTrip - 1 <= k < t.exit.sequenceInTrip &&
                                             tt.forward[t.enter.trip][k].departureNode == f.node &&
                                             !tt.forward[t.enter.trip][k].canBoard
                         then a.ignored + [f.node] else a.ignored
  {
    var exit := SegmentEdit(tt, a, f, edits, b);
    JoinedMeans(tt, a.journey, a.ignored, f, exit, b.journey, b.ignored, |edits|);
    p := ExitPosition(tt, a.journey[f.from], f.node, exit.value);
    r := EntryPosition(tt, a.journey[f.to], f.node, b.journey[f.to].enter);
    BlockedExactly(tt, a.journey[f.to], f.node);
  }

  // Those are the earliest: any stop there before them has a closed one at or after it.
  lemma SegmentCutEarliest(tt: Timetable, a: Stage, f: Finding, edits: seq<int>, b: Stage, m: nat)
    requires Whole(OneRound(tt, a, f, edits, b)) && f.case_ == 4 && edits != []
    ensures f.from < f.to < |a.journey| == |b.journey| && a.journey[f.from].Ride? && RideOk(tt, a.journey[f.from])
    ensures b.journey[f.from].Ride?
    ensures var s := a.journey[f.from]; var cs := tt.forward[s.enter.trip];
            s.enter.sequenceInTrip - 1 <= m < s.exit.sequenceInTrip && cs[m].arrivalNode == f.node &&
            m < b.journey[f.from].exit.sequenceInTrip - 1 ==>
            exists k: nat :: m <= k < s.exit.sequenceInTrip && cs[k].arrivalNode == f.node && !cs[k].canUnboard
  {
    var exit := SegmentEdit(tt, a, f, edits, b);
    JoinedMeans(tt, a.journey, a.ignored, f, exit, b.journey, b.ignored, |edits|);
    assert OpenExit(tt, a.journey[f.from], f.node, m) ==> exit.value.sequenceInTrip - 1 <= m;
  }

  lemma SegmentBoardsEarliest(tt: Timetable, a: Stage, f: Finding, edits: seq<int>, b: Stage, m: nat)
    requires Whole(OneRound(tt, a, f, edits, b)) && f.case_ == 4 && edits != []
    ensures f.from < f.to < |a.journey| == |b.journey| && a.journey[f.to].Ride? && RideOk(tt, a.journey[f.to])
    ensures b.journey[f.to].Ride?
    ensures var s := a.journey[f.to]; var cs := tt.forward[s.enter.trip];
            s.enter.sequenceInTrip - 1 <= m < s.exit.sequenceInTrip && cs[m].departureNode == f.node &&
            m < b.journey[f.to].enter.sequenceInTrip - 1 ==>
            exists k: nat :: m <= k < s.exit.sequenceInTrip && cs[k].departureNode == f.node && !cs[k].canBoard
  {
    var exit := SegmentEdit(tt, a, f, edits, b);
    JoinedMeans(tt, a.journey, a.ignored, f, exit, b.journey, b.ignored, |edits|);
    assert OpenEntry(tt, a.journey[f.to], f.node, m) ==> b.journey[f.to].enter.sequenceInTrip - 1 <= m;
  }

  // When it does not, the node is ignored: the last stop there of one of the rides is closed.
  lemma SegmentKeptDoes(nodeCount: nat, tt: Timetable, a: Stage, f: Finding, b: Stage) returns (p: nat, r: nat)
    requires Valid(nodeCount, tt) && Whole(OneRound(tt, a, f, [], b)) && f.case_ == 4
    ensures f.from < f.to < |a.journey| && a.journey[f.from].Ride? && a.journey[f.to].Ride?
    ensures RideOk(tt, a.journey[f.from]) && RideOk(tt, a.journey[f.to])
    ensures b.journey == a.journey && b.ignored == a.ignored + [f.node]
    ensures var s := a.journey[f.from]; var cs := tt.forward[s.enter.trip];
            && s.enter.sequenceInTrip - 1 <= p < s.exit.sequenceInTrip && cs[p].arrivalNode == f.node
            && (forall k: nat | p < k < s.exit.sequenceInTrip :: cs[k].arrivalNode != f.node)
    ensures var s := a.journey[f.to]; var cs := tt.forward[s.enter.trip];
            && s.enter.sequenceInTrip - 1 <= r < s.exit.sequenceInTrip && cs[r].departureNode == f.node
            && (forall k: nat | r < k < s.exit.sequenceInTrip :: cs[k].departureNode != f.node)
    ensures !tt.forward[a.journey[f.from].enter.trip][p].canUnboard
        || !tt.forward[a.journey[f.to].enter.trip][r].canBoard
  {
    var exit := SegmentEdit(tt, a, f, [], b);
    var s, t := a.journey[f.from], a.journey[f.to];
    var p0 := PassedNode(nodeCount, tt, s, f.node);
    var r0 := PassedNode(nodeCount, tt, t, f.node);
    p := LastArriving(tt.forward[s.enter.trip], f.node, p0, s.exit.sequenceInTrip);
    r := LastDeparting(tt.forward[t.enter.trip], f.node, r0 + 1, t.exit.sequenceInTrip);
    KeptMeans(tt, a.journey, a.ignored, f, exit, b.journey, b.ignored, p, r);
  }

  lemma KeptMeans(tt: Timetable, journey: seq<JourneyStep>, ignored: seq<nat>, f: Finding, exit: Option<Connection>,
                  journey': seq<JourneyStep>, ignored': seq<nat>, p: nat, r: nat)
    requires f.from < f.to < |journey| && journey[f.from].Ride? && journey[f.to].Ride?
    requires RideOk(tt, journey[f.from]) && RideOk(tt, journey[f.to])
    requires EarliestExit(tt, journey[f.from], f.node, exit)
    requires Whole(JoinedAt(tt, journey, ignored, f, exit, journey', ignored', 0))
    requires var s := journey[f.from]; var cs := tt.forward[s.enter.trip];
             && InRide(s, p) && cs[p].arrivalNode == f.node
             && forall k: nat | p < k < s.exit.sequenceInTrip :: cs[k].arrivalNode != f.node
    requires var s := journey[f.to]; var cs := tt.forward[s.enter.trip];
             && InRide(s, r) && cs[r].departureNode == f.node
             && forall k: nat | r < k < s.exit.sequenceInTrip :: cs[k].departureNode != f.node
    ensures journey' == journey && ignored' == ignored + [f.node]
    ensures !tt.forward[journey[f.from].enter.trip][p].canUnboard || !tt.forward[journey[f.to].enter.trip][r].canBoard
  {
    if exit.None? { assert !OpenExit(tt, journey[f.from], f.node, p); }
    else { assert !OpenEntry(tt, journey[f.to], f.node, r); }
  }

  lemma {:induction false} LastArriving(cs: seq<Connection>, n: nat, p: nat, end: nat) returns (k: nat)
    requires p < end <= |cs| && cs[p].arrivalNode == n
    ensures p <= k < end && cs[k].arrivalNode == n && forall m: nat | k < m < end :: cs[m].arrivalNode != n
    decreases end - p
  {
    k := p;
    if m: nat :| p < m < end && cs[m].arrivalNode == n { k := LastArriving(cs, n, m, end); }
  }

  lemma {:induction false} LastDeparting(cs: seq<Connection>, n: nat, p: nat, end: nat) returns (k: nat)
    requires p < end <= |cs| && cs[p].departureNode == n
    ensures p <= k < end && cs[k].departureNode == n && forall m: nat | k < m < end :: cs[m].departureNode != n
    decreases end - p
  {
    k := p;
    if m: nat :| p < m < end && cs[m].departureNode == n { k := LastDeparting(cs, n, m, end); }
  }

  // Find, then apply: one round.
  method FindAndApply(nodeCount: nat, tt: Timetable, ghost lo: nat, ghost original: seq<JourneyStep>,
                      journey: seq<JourneyStep>,
                      ghost origin: seq<nat>, ignored: seq<nat>, ghost usedCases: seq<int>)
    returns (f: Finding, journey': seq<JourneyStep>, ghost origin': seq<nat>, ignored': seq<nat>, edits: seq<int>)
    requires Ready(nodeCount, tt, lo, original, journey, origin)
    ensures Ready(nodeCount, tt, lo, original, journey', origin')
    ensures f.case_ == -1 ==> journey' == journey && ignored' == ignored && edits == []
    ensures f.case_ == -1 ==> Whole(NothingLeft(tt, Stage(journey, ignored, usedCases)))
    ensures f.case_ != -1 ==>
        Whole(OneRound(tt, Stage(journey, ignored, usedCases), f, edits, Stage(journey', ignored', usedCases + edits)))
    ensures f.case_ == -1 || 1 <= f.case_ <= 4
    ensures f.case_ != -1 ==> TotalLength(journey') <= TotalLength(journey)
    ensures f.case_ != -1 ==>
              TotalLength(journey') < TotalLength(journey) ||
              Open(nodeCount, ignored') < Open(nodeCount, ignored)
  {
    journey', origin', ignored', edits := journey, origin, ignored, [];
    f := Find(tt, journey, ignored);
    if f.case_ != -1 {
      FoundNode(nodeCount, tt, journey, ignored, f);
      journey', origin', ignored', edits := ApplyCase(nodeCount, tt, lo, original, journey, origin, ignored, f);
      RoundShrinks(nodeCount, journey, ignored, f.node, journey', ignored');
      RoundIs(tt, Stage(journey, ignored, usedCases), f, edits, Stage(journey', ignored', usedCases + edits));
    }
  }

  lemma RoundIs(tt: Timetable, a: Stage, f: Finding, edits: seq<int>, b: Stage)
    requires (forall k: nat | k < |a.journey| :: RideOk(tt, a.journey[k])) && f.case_ != -1
    requires Whole(FirstFinding(tt, a.journey, a.ignored, f)) && b.used == a.used + edits
    requires Whole(RoundDone(tt, a.journey, a.ignored, f, b.journey, b.ignored, edits))
    ensures Whole(OneRound(tt, a, f, edits, b))
  {
  }

  // The run so far led to this stage, and has ended or not.
  ghost predicate RunAt(tt: Timetable, original: seq<JourneyStep>, run: Run, stage: Stage, ended: bool) {
    IsRun(tt, original, run) && run.stage == stage && if ended then Ended(tt, run) else Unfinished(run)
  }

  lemma RunStep(tt: Timetable, original: seq<JourneyStep>, run: Run, stage: Stage, f: Finding, edits: seq<int>,
                stage': Stage)
    requires Whole(RunAt(tt, original, run, stage, false)) && f.case_ != -1
        && Whole(OneRound(tt, stage, f, edits, stage'))
    ensures Whole(RunAt(tt, original, Step(run, f, edits, stage'), stage', f.case_ == 2))
  {
  }

  lemma RunEnd(tt: Timetable, original: seq<JourneyStep>, run: Run, stage: Stage)
    requires Whole(RunAt(tt, original, run, stage, false)) && Whole(NothingLeft(tt, stage))
    ensures Whole(RunAt(tt, original, run, stage, true))
  {
  }

  lemma NothingAdded<T>(s: seq<T>, t: seq<T>)
    ensures t == [] ==> s + t == s
  {
  }

  function Recorded(run: Run, f: Finding, edits: seq<int>, stage: Stage): Run {
    if f.case_ == -1 then run else Step(run, f, edits, stage)
  }

  lemma RunNext(tt: Timetable, original: seq<JourneyStep>, run: Run, stage: Stage, f: Finding, edits: seq<int>,
                stage': Stage)
    requires Whole(RunAt(tt, original, run, stage, false))
    requires f.case_ == -1 ==> stage' == stage && Whole(NothingLeft(tt, stage))
    requires f.case_ != -1 ==> Whole(OneRound(tt, stage, f, edits, stage'))
    ensures Whole(RunAt(tt, original, Recorded(run, f, edits, stage'), stage', f.case_ == -1 || f.case_ == 2))
  {
    if f.case_ == -1 {
      RunEnd(tt, original, run, stage);
    } else {
      RunStep(tt, original, run, stage, f, edits, stage');
    }
  }

  lemma RunIs(tt: Timetable, original: seq<JourneyStep>, run: Run, stage: Stage)
    requires Whole(RunAt(tt, original, run, stage, true))
    ensures Complete(RunRecord(tt, original, run)) && run.stage == stage
  {
  }

  // The same, recorded in the run.
  method OptimizeRound(nodeCount: nat, tt: Timetable, ghost lo: nat, ghost original: seq<JourneyStep>,
                       journey: seq<JourneyStep>,
                       ghost origin: seq<nat>, ignored: seq<nat>, usedCases: seq<int>, ghost run: Run)
    returns (case_: int, journey': seq<JourneyStep>, ghost origin': seq<nat>, ignored': seq<nat>, usedCases': seq<int>,
             ghost run': Run)
    requires Ready(nodeCount, tt, lo, original, journey, origin)
    requires Whole(RunAt(tt, original, run, Stage(journey, ignored, usedCases), false))
    ensures Ready(nodeCount, tt, lo, original, journey', origin')
    ensures Whole(RunAt(tt, original, run', Stage(journey', ignored', usedCases'), case_ == -1 || case_ == 2))
    ensures (case_ == -1 || 1 <= case_ <= 4) && TotalLength(journey') <= TotalLength(journey)
    ensures case_ == -1 ==> journey' == journey && ignored' == ignored
    ensures case_ != -1 ==>
              TotalLength(journey') < TotalLength(journey) ||
              Open(nodeCount, ignored') < Open(nodeCount, ignored)
  {
    var f, edits;
    f, journey', origin', ignored', edits :=
        FindAndApply(nodeCount, tt, lo, original, journey, origin, ignored, usedCases);
    usedCases' := usedCases + edits;
    NothingAdded(usedCases, edits);
    case_ := f.case_;
    run' := Recorded(run, f, edits, Stage(journey', ignored', usedCases'));
    RunNext(tt, original, run, Stage(journey, ignored, usedCases), f, edits, Stage(journey', ignored', usedCases'));
  }

  // Rounds until nothing is found or a ride was boarded later. On every
  // well-formed journey this terminates; what remains are parts of the original
  // rides in order, with the same first boarding, the same final alighting node
  // and no later arrival there.
  method Optimize(nodeCount: nat, tt: Timetable, ghost lo: nat, original: seq<JourneyStep>)
    returns (journey: seq<JourneyStep>, usedCases: seq<int>, ghost origin: seq<nat>, ghost record: CompleteRun)
    requires Valid(nodeCount, tt) && WellFormed(tt, lo, original)
    ensures WellFormed(tt, lo, journey) && Keeps(original, journey, origin) && SameEnds(lo, original, journey)
    ensures TotalLength(journey) <= TotalLength(original)
    ensures Turns(record, tt, original, journey) && record.run.stage.used == usedCases
  {
    var ignoredNodes;
    ghost var run;
    journey, usedCases, origin, ignoredNodes, run := OptimizeLoop(nodeCount, tt, lo, original);
    RunIs(tt, original, run, Stage(journey, ignoredNodes, usedCases));
    record := RunRecord(tt, original, run);
  }

  method OptimizeLoop(nodeCount: nat, tt: Timetable, ghost lo: nat, original: seq<JourneyStep>)
    returns (journey: seq<JourneyStep>, usedCases: seq<int>, ghost origin: seq<nat>, ignoredNodes: seq<nat>,
             ghost run: Run)
    requires Valid(nodeCount, tt) && WellFormed(tt, lo, original)
    ensures Ready(nodeCount, tt, lo, original, journey, origin)
    ensures TotalLength(journey) <= TotalLength(original)
    ensures Whole(RunAt(tt, original, run, Stage(journey, ignoredNodes, usedCases), true))
  {
    journey, usedCases := original, [];
    origin := seq(|original|, k => k);
    StartReady(nodeCount, tt, lo, original, origin);
    var case_, started := -1, false;
    ignoredNodes := [];
    run := Start(Stage(original, [], []));
    while !started || case_ >= 0
      invariant Ready(nodeCount, tt, lo, original, journey, origin)
      invariant TotalLength(journey) <= TotalLength(original)
      invariant Whole(RunAt(tt, original, run, Stage(journey, ignoredNodes, usedCases), started && case_ < 0))
      decreases TotalLength(journey), Open(nodeCount, ignoredNodes), if !started || case_ >= 0 then 1 else 0
    {
      started := true;
      case_, journey, origin, ignoredNodes, usedCases, run :=
        OptimizeRound(nodeCount, tt, lo, original, journey, origin, ignoredNodes, usedCases, run);
      if case_ == 2 {
        case_ := -1;
      }
    }
  }
}
