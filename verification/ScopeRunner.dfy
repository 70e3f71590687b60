// The scope counter shared by handlers and the thread that stops them: every
// thread's next atomic step, in any interleaving.
module ScopeRunners {

  // Where a thread stands. Trying holds the counter as last read.
  datatype Thread =
    | Outside
    | Trying(expected: int)
    | Holding
    | Denied
    | Stopping
    | Stopped

  datatype State = State(count: int, threads: seq<Thread>)

  function Initial(n: nat): State {
    State(0, seq(n, _ => Outside))
  }

  predicate Moved(s: State, s': State, i: nat, t: Thread, count: int) {
    i < |s.threads| && s' == State(count, s.threads[i := t])
  }

  // continue_lock reads the counter.
  predicate Load(s: State, s': State, i: nat) {
    i < |s.threads| && (s.threads[i].Outside? || s.threads[i].Denied?) && Moved(s, s', i, Trying(s.count), s.count)
  }

  // Its compare-and-swap succeeds: the lock is granted.
  predicate Grant(s: State, s': State, i: nat) {
    && i < |s.threads| && s.threads[i].Trying? && s.threads[i].expected >= 0
    && s.count == s.threads[i].expected && Moved(s, s', i, Holding, s.count + 1)
  }

  // It fails, possibly for no reason, and reads the counter again.
  predicate Retry(s: State, s': State, i: nat) {
    i < |s.threads| && s.threads[i].Trying? && s.threads[i].expected >= 0 && Moved(s, s', i, Trying(s.count), s.count)
  }

  // It read a negative counter: no lock.
  predicate Deny(s: State, s': State, i: nat) {
    i < |s.threads| && s.threads[i].Trying? && s.threads[i].expected < 0 && Moved(s, s', i, Denied, s.count)
  }

  // The destructor of the lock.
  predicate Release(s: State, s': State, i: nat) {
    i < |s.threads| && s.threads[i].Holding? && Moved(s, s', i, Outside, s.count - 1)
  }

  predicate StartStop(s: State, s': State, i: nat) {
    i < |s.threads| && s.threads[i].Outside? && Moved(s, s', i, Stopping, s.count)
  }

  // stop swaps 0 for -1 and returns.
  predicate StopSwaps(s: State, s': State, i: nat) {
    i < |s.threads| && s.threads[i].Stopping? && s.count == 0 && Moved(s, s', i, Stopped, -1)
  }

  // The swap fails: return if someone else has stopped, else go round again.
  predicate StopFails(s: State, s': State, i: nat) {
    && i < |s.threads| && s.threads[i].Stopping?
    && Moved(s, s', i, if s.count < 0 then Stopped else Stopping, s.count)
  }

  predicate Step(s: State, s': State, i: nat) {
    || Load(s, s', i) || Grant(s, s', i) || Retry(s, s', i) || Deny(s, s', i)
    || Release(s, s', i) || StartStop(s, s', i) || StopSwaps(s, s', i) || StopFails(s, s', i)
  }

  ghost predicate Next(s: State, s': State) {
    exists i: nat :: Step(s, s', i)
  }

  ghost predicate IsRun(run: seq<State>, n: nat) {
    && run != [] && run[0] == Initial(n)
    && forall k: nat | k + 1 < |run| :: Next(run[k], run[k + 1])
  }

  // ---- The invariant --------------------------------------------------------------

  function Holders(threads: seq<Thread>): nat {
    if threads == [] then 0 else Holders(threads[..|threads| - 1]) + if threads[|threads| - 1].Holding? then 1 else 0
  }

  lemma {:induction false} HoldersUpdate(threads: seq<Thread>, i: nat, t: Thread)
    requires i < |threads|
    ensures Holders(threads[i := t]) == Holders(threads) - (if threads[i].Holding? then 1 else 0) +
        (if t.Holding? then 1 else 0)
    decreases |threads|
  {
    var n := |threads| - 1;
    if i < n {
      HoldersUpdate(threads[..n], i, t);
      assert threads[i := t][..n] == threads[..n][i := t];
    } else {
      assert threads[i := t][..n] == threads[..n];
    }
  }

  lemma {:induction false} HolderCounts(threads: seq<Thread>, i: nat)
    requires i < |threads| && threads[i].Holding?
    ensures Holders(threads) > 0
    decreases |threads|
  {
    if i < |threads| - 1 { HolderCounts(threads[..|threads| - 1], i); }
  }

  lemma {:induction false} NobodyHolds(n: nat)
    ensures Holders(Initial(n).threads) == 0
    decreases n
  {
    if n > 0 {
      NobodyHolds(n - 1);
      assert Initial(n).threads[..n - 1] == Initial(n - 1).threads;
    }
  }

  // The counter counts the locks until it is -1; then there are none, and only
  // then has a stop returned.
  ghost predicate Safe(s: State) {
    && (s.count >= 0 ==> Holders(s.threads) == s.count)
    && (s.count < 0 ==> s.count == -1 && Holders(s.threads) == 0)
    && ((exists i: nat :: i < |s.threads| && s.threads[i].Stopped?) ==> s.count < 0)
  }

  lemma StepIsSafe(s: State, s': State)
    requires Safe(s) && Next(s, s')
    ensures Safe(s') && (s.count < 0 ==> s'.count < 0)
  {
    var i: nat :| Step(s, s', i);
    HoldersUpdate(s.threads, i, s'.threads[i]);
    if s.threads[i].Holding? { HolderCounts(s.threads, i); }
    assert forall j: nat | j < |s'.threads| && j != i :: s'.threads[j] == s.threads[j];
  }

  lemma {:induction false} RunIsSafe(run: seq<State>, n: nat, k: nat)
    requires IsRun(run, n) && k < |run|
    ensures Safe(run[k])
    decreases k
  {
    if k == 0 {
      NobodyHolds(n);
    } else {
      RunIsSafe(run, n, k - 1);
      var p: nat := k - 1;
      assert Next(run[p], run[p + 1]);
      StepIsSafe(run[p], run[k]);
    }
  }

  lemma {:induction false} StaysStopped(run: seq<State>, n: nat, j: nat, k: nat)
    requires IsRun(run, n) && j <= k < |run| && run[j].count < 0
    ensures run[k].count < 0
    decreases k
  {
    if j < k {
      var p: nat := k - 1;
      StaysStopped(run, n, j, p);
      RunIsSafe(run, n, p);
      assert Next(run[p], run[p + 1]);
      StepIsSafe(run[p], run[k]);
    }
  }

  // Once some stop has returned, no lock is live and none is ever granted again.
  lemma StopIsFinal(run: seq<State>, n: nat, j: nat, k: nat, stopper: nat, i: nat)
    requires IsRun(run, n) && j <= k < |run| && stopper < |run[j].threads| && run[j].threads[stopper].Stopped?
    requires i < |run[k].threads|
    ensures !run[k].threads[i].Holding?
    ensures k + 1 < |run| ==> !Grant(run[k], run[k + 1], i)
  {
    RunIsSafe(run, n, j);
    StaysStopped(run, n, j, k);
    RunIsSafe(run, n, k);
    if run[k].threads[i].Holding? { HolderCounts(run[k].threads, i); }
  }

  // A stop returns only when every lock granted before has been released.
  lemma StopWaits(run: seq<State>, n: nat, k: nat, i: nat)
    requires IsRun(run, n) && k + 1 < |run| && StopSwaps(run[k], run[k + 1], i)
    ensures forall m: nat | m < |run[k].threads| :: !run[k].threads[m].Holding?
  {
    RunIsSafe(run, n, k);
    forall m: nat | m < |run[k].threads| ensures !run[k].threads[m].Holding? {
      if run[k].threads[m].Holding? { HolderCounts(run[k].threads, m); }
    }
  }

  // ---- What a stop is needed for -------------------------------------------------------

  // Step j of the run is where thread i swaps in -1.
  ghost predicate SwapsAt(run: seq<State>, j: nat, i: nat) {
    j + 1 < |run| && StopSwaps(run[j], run[j + 1], i)
  }

  ghost predicate SwappedBefore(run: seq<State>, k: nat) {
    exists j: nat, i: nat :: j < k && SwapsAt(run, j, i)
  }

  // A negative counter, in the state or as some thread read it, comes from a stop.
  ghost predicate ReadsNegative(s: State, i: nat) {
    s.count < 0 || (i < |s.threads| && (s.threads[i].Denied? || (s.threads[i].Trying? && s.threads[i].expected < 0)))
  }

  lemma {:induction false} NegativeMeansSwapped(run: seq<State>, n: nat, k: nat, i: nat)
    requires IsRun(run, n) && k < |run| && ReadsNegative(run[k], i)
    ensures SwappedBefore(run, k)
    decreases k
  {
    if k > 0 {
      var p: nat := k - 1;
      assert Next(run[p], run[p + 1]);
      var m: nat :| Step(run[p], run[p + 1], m);
      RunIsSafe(run, n, p);
      if ReadsNegative(run[p], i) {
        NegativeMeansSwapped(run, n, p, i);
        var j: nat, stopper: nat :| j < p && SwapsAt(run, j, stopper);
        assert j < k && SwapsAt(run, j, stopper);
      } else {
        NegativeIsNew(run[p], run[k], m, i);
        assert p < k && SwapsAt(run, p, m);
      }
    }
  }

  lemma NegativeIsNew(s: State, s': State, m: nat, i: nat)
    requires Safe(s) && Step(s, s', m) && !ReadsNegative(s, i) && ReadsNegative(s', i)
    ensures StopSwaps(s, s', m)
  {
    if s.threads[m].Holding? { HolderCounts(s.threads, m); }
  }

  // A lock is denied only after some stop has swapped in -1.
  lemma DeniedAfterStop(run: seq<State>, n: nat, k: nat, i: nat)
    requires IsRun(run, n) && k + 1 < |run| && Deny(run[k], run[k + 1], i)
    ensures exists j: nat, m: nat ::
              j < k && SwapsAt(run, j, m) && run[j].threads[m].Stopping? && run[j].count == 0 && run[j + 1].count == -1
  {
    NegativeMeansSwapped(run, n, k, i);
    var j: nat, m: nat :| j < k && SwapsAt(run, j, m);
  }

  // A stop returns only then as well: no thread has stopped before the swap.
  lemma StoppedAfterSwap(run: seq<State>, n: nat, k: nat, i: nat)
    requires IsRun(run, n) && k < |run| && i < |run[k].threads| && run[k].threads[i].Stopped?
    ensures SwappedBefore(run, k)
  {
    RunIsSafe(run, n, k);
    NegativeMeansSwapped(run, n, k, i);
  }
}
