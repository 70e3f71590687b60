// All ways of choosing M elements of a list, in order.
module Combination {
  import opened Network

  // ---- Selections of indices ----------------------------------------------------

  // The selections of m indices in i..n: those that start with i, then the rest.
  function Selections(i: nat, n: nat, m: nat): seq<seq<nat>>
    decreases if i <= n then n - i else 0
  {
    if m == 0 then [[]]
    else if i >= n then []
    else Prefixed(i, Selections(i + 1, n, m - 1)) + Selections(i + 1, n, m)
  }

  function Prefixed(i: nat, sels: seq<seq<nat>>): seq<seq<nat>> {
    seq(|sels|, k requires 0 <= k < |sels| => [i] + sels[k])
  }

  ghost predicate IsSelection(i: nat, n: nat, m: nat, sel: seq<nat>) {
    && |sel| == m
    && (forall k: nat | k < m :: i <= sel[k] < n)
    && (forall j: nat, k: nat | j < k < m :: sel[j] < sel[k])
  }

  lemma PrefixedSelection(i: nat, n: nat, m: nat, sel: seq<nat>)
    requires i < n && m > 0 && |sel| > 0 && sel[0] == i
    ensures IsSelection(i, n, m, sel) <==> IsSelection(i + 1, n, m - 1, sel[1..])
  {
    var rest := sel[1..];
    if IsSelection(i + 1, n, m - 1, rest) {
      forall k: nat | k < m ensures i <= sel[k] < n && (0 < k ==> i < sel[k]) {
        if k > 0 { assert sel[k] == rest[k - 1]; }
      }
      forall j: nat, k: nat | j < k < m ensures sel[j] < sel[k] {
        assert sel[k] == rest[k - 1];
        if j > 0 { assert sel[j] == rest[j - 1]; }
      }
    }
    if IsSelection(i, n, m, sel) {
      forall k: nat | k < m - 1 ensures i + 1 <= rest[k] < n { assert sel[0] < sel[k + 1]; }
    }
  }

  lemma LaterSelection(i: nat, n: nat, m: nat, sel: seq<nat>)
    requires m > 0
    ensures IsSelection(i + 1, n, m, sel) <==> IsSelection(i, n, m, sel) && |sel| > 0 && sel[0] != i
  {
    if IsSelection(i, n, m, sel) && sel[0] != i {
      forall k: nat | k < m ensures i + 1 <= sel[k] { if k > 0 { assert sel[0] < sel[k]; } }
    }
  }

  // What stands at position k is a selection.
  lemma {:induction false} SelectionAt(i: nat, n: nat, m: nat, k: nat)
    requires k < |Selections(i, n, m)|
    ensures IsSelection(i, n, m, Selections(i, n, m)[k])
    decreases if i <= n then n - i else 0
  {
    if m > 0 {
      var first := Selections(i + 1, n, m - 1);
      if k < |first| {
        SelectionAt(i + 1, n, m - 1, k);
        assert ([i] + first[k])[1..] == first[k];
        PrefixedSelection(i, n, m, [i] + first[k]);
      } else {
        SelectionAt(i + 1, n, m, k - |first|);
        LaterSelection(i, n, m, Selections(i + 1, n, m)[k - |first|]);
      }
    }
  }

  // Every selection stands at some position.
  lemma {:induction false} SelectionStands(i: nat, n: nat, m: nat, sel: seq<nat>) returns (k: nat)
    requires IsSelection(i, n, m, sel)
    ensures k < |Selections(i, n, m)| && Selections(i, n, m)[k] == sel
    decreases if i <= n then n - i else 0
  {
    if m == 0 {
      k := 0;
    } else {
      assert i <= sel[0] < n;
      if sel[0] == i {
        PrefixedSelection(i, n, m, sel);
        k := SelectionStands(i + 1, n, m - 1, sel[1..]);
        assert [i] + sel[1..] == sel;
      } else {
        LaterSelection(i, n, m, sel);
        k := SelectionStands(i + 1, n, m, sel);
        k := |Selections(i + 1, n, m - 1)| + k;
      }
    }
  }

  // Exactly the strictly increasing index lists of the right length and range.
  lemma SelectionsExact(i: nat, n: nat, m: nat, sel: seq<nat>)
    ensures sel in Selections(i, n, m) <==> IsSelection(i, n, m, sel)
  {
    if sel in Selections(i, n, m) {
      var k: nat :| k < |Selections(i, n, m)| && Selections(i, n, m)[k] == sel;
      SelectionAt(i, n, m, k);
    }
    if IsSelection(i, n, m, sel) {
      var k := SelectionStands(i, n, m, sel);
    }
  }

  // Lexicographic order; being strict it rules out repeats.
  ghost predicate Less(a: seq<nat>, b: seq<nat>) {
    |a| > 0 && |b| > 0 && (a[0] < b[0] || (a[0] == b[0] && Less(a[1..], b[1..])))
  }

  lemma {:induction false} LessIrreflexive(a: seq<nat>)
    ensures !Less(a, a)
    decreases |a|
  {
    if |a| > 0 { LessIrreflexive(a[1..]); }
  }

  // The first position where they differ decides.
  lemma {:induction false} LessAt(a: seq<nat>, b: seq<nat>) returns (p: nat)
    requires Less(a, b)
    ensures p < |a| && p < |b| && a[..p] == b[..p] && a[p] < b[p]
    decreases |a|
  {
    p := 0;
    if a[0] == b[0] {
      var r := LessAt(a[1..], b[1..]);
      p := r + 1;
      assert a[..p] == [a[0]] + a[1..][..r] && b[..p] == [b[0]] + b[1..][..r];
    }
  }

  ghost predicate Lexicographic(sels: seq<seq<nat>>) {
    forall j: nat, k: nat | j < k < |sels| :: Less(sels[j], sels[k])
  }

  lemma PrefixedOrdered(i: nat, sels: seq<seq<nat>>)
    requires Lexicographic(sels)
    ensures Lexicographic(Prefixed(i, sels)) && forall sel <- Prefixed(i, sels) :: |sel| > 0 && sel[0] == i
  {
    var p := Prefixed(i, sels);
    forall j: nat, k: nat | j < k < |p| ensures Less(p[j], p[k]) {
      assert p[j][1..] == sels[j] && p[k][1..] == sels[k];
    }
  }

  lemma LaterOrdered(i: nat, first: seq<seq<nat>>, rest: seq<seq<nat>>)
    requires Lexicographic(first) && Lexicographic(rest)
    requires (forall sel <- first :: |sel| > 0 && sel[0] == i) && (forall sel <- rest :: |sel| > 0 && sel[0] > i)
    ensures Lexicographic(first + rest)
  {
    var all := first + rest;
    forall j: nat, k: nat | j < k < |all| ensures Less(all[j], all[k]) {
      if j < |first| <= k {
        assert all[j] in first && all[k] in rest;
      }
    }
  }

  // In lexicographic order, hence no selection twice.
  lemma {:induction false} SelectionsOrdered(i: nat, n: nat, m: nat)
    ensures Lexicographic(Selections(i, n, m))
    decreases if i <= n then n - i else 0
  {
    if m > 0 && i < n {
      SelectionsOrdered(i + 1, n, m - 1);
      SelectionsOrdered(i + 1, n, m);
      PrefixedOrdered(i, Selections(i + 1, n, m - 1));
      forall sel <- Selections(i + 1, n, m) ensures |sel| > 0 && sel[0] > i { SelectionsExact(i + 1, n, m, sel); }
      LaterOrdered(i, Prefixed(i, Selections(i + 1, n, m - 1)), Selections(i + 1, n, m));
    }
  }

  lemma SelectionsDistinct(i: nat, n: nat, m: nat, j: nat, k: nat)
    requires j < k < |Selections(i, n, m)|
    ensures Selections(i, n, m)[j] != Selections(i, n, m)[k]
  {
    SelectionsOrdered(i, n, m);
    LessIrreflexive(Selections(i, n, m)[j]);
  }

  function Binomial(n: nat, k: nat): nat {
    if k == 0 then 1 else if n == 0 then 0 else Binomial(n - 1, k - 1) + Binomial(n - 1, k)
  }

  function Factorial(n: nat): nat {
    if n == 0 then 1 else n * Factorial(n - 1)
  }

  lemma {:induction false} SelectionsCount(i: nat, n: nat, m: nat)
    requires i <= n
    ensures |Selections(i, n, m)| == Binomial(n - i, m)
    decreases n - i
  {
    if m > 0 && i < n {
      SelectionsCount(i + 1, n, m - 1);
      SelectionsCount(i + 1, n, m);
    }
  }

  lemma {:induction false} TooFew(n: nat, k: nat)
    requires n < k
    ensures Binomial(n, k) == 0
    decreases n
  {
    if n > 0 {
      TooFew(n - 1, k - 1);
      TooFew(n - 1, k);
    }
  }

  // The closed form of the count: n! / (k! (n - k)!).
  lemma {:induction false} BinomialClosed(n: nat, k: nat)
    requires k <= n
    ensures Binomial(n, k) * (Factorial(k) * Factorial(n - k)) == Factorial(n)
    decreases n
  {
    if k == 0 {
    } else if k == n {
      BinomialClosed(n - 1, k - 1);
      TooFew(n - 1, n);
      assert Binomial(n, k) == Binomial(n - 1, k - 1);
      BinomialStep(1 * Factorial(n - 1), n, Binomial(n - 1, k - 1), Factorial(n - 1));
    } else {
      BinomialClosed(n - 1, k - 1);
      BinomialClosed(n - 1, k);
      BinomialSum(Binomial(n - 1, k - 1), Binomial(n - 1, k), k, n - k, Factorial(k - 1), Factorial(n - k - 1),
                  Factorial(n - 1));
    }
  }

  lemma BinomialStep(f: int, n: int, b: int, g: int)
    requires b * (g * 1) == f && f == g
    ensures b * ((n * g) * 1) == n * g
  {
    calc {
      b * ((n * g) * 1);
      n * (b * g);
      n * g;
    }
  }

  lemma BinomialSum(a: int, b: int, k: int, l: int, f: int, g: int, h: int)
    requires a * (f * (l * g)) == h && b * ((k * f) * g) == h
    ensures (a + b) * ((k * f) * (l * g)) == (k + l) * h
  {
    calc {
      (a + b) * ((k * f) * (l * g));
      a * ((k * f) * (l * g)) + b * ((k * f) * (l * g));
      { assert a * ((k * f) * (l * g)) == k * (a * (f * (l * g))); }
      k * h + b * ((k * f) * (l * g));
      { assert b * ((k * f) * (l * g)) == l * (b * ((k * f) * g)); }
      k * h + l * h;
    }
  }

  // ---- The elements selected -----------------------------------------------------

  ghost predicate InRange<T>(s: seq<T>, sels: seq<seq<nat>>) {
    forall sel <- sels :: Below(s, sel)
  }

  predicate Below<T>(s: seq<T>, sel: seq<nat>) {
    forall k: nat | k < |sel| :: sel[k] < |s|
  }

  function Pick<T>(s: seq<T>, sel: seq<nat>): seq<T>
    requires Below(s, sel)
  {
    seq(|sel|, k requires 0 <= k < |sel| => s[sel[k]])
  }

  // Each selection picked from s, behind the elements chosen already.
  ghost function Emit<T>(s: seq<T>, chosen: seq<T>, sels: seq<seq<nat>>): (r: seq<seq<T>>)
    requires InRange(s, sels)
    ensures |r| == |sels| && forall k: nat | k < |r| :: Below(s, sels[k]) && r[k] == chosen + Pick(s, sels[k])
  {
    assert forall k: nat | k < |sels| :: sels[k] in sels;
    seq(|sels|, k requires 0 <= k < |sels| => chosen + Pick(s, sels[k]))
  }

  lemma SelectionsInRange<T>(s: seq<T>, i: nat, m: nat)
    ensures InRange(s, Selections(i, |s|, m))
  {
    forall sel <- Selections(i, |s|, m) ensures Below(s, sel) { SelectionsExact(i, |s|, m, sel); }
  }

  // Every way of adding m elements of s from position i on.
  ghost function Ways<T>(s: seq<T>, chosen: seq<T>, i: nat, m: nat): seq<seq<T>> {
    SelectionsInRange(s, i, m);
    Emit(s, chosen, Selections(i, |s|, m))
  }

  // Choosing s[i] next and going on, then leaving it out.
  lemma EmitStep<T>(s: seq<T>, chosen: seq<T>, i: nat, m: nat)
    requires i < |s|
    ensures Ways(s, chosen, i, m + 1) == Ways(s, chosen + [s[i]], i + 1, m) + Ways(s, chosen, i + 1, m + 1)
  {
    SelectionsInRange(s, i, m + 1);
    SelectionsInRange(s, i + 1, m);
    SelectionsInRange(s, i + 1, m + 1);
    var sels, starting := Selections(i, |s|, m + 1), Selections(i + 1, |s|, m);
    var left := Emit(s, chosen, sels);
    var right := Emit(s, chosen + [s[i]], starting);
    forall k: nat | k < |right| ensures left[k] == right[k] {
      assert sels[k] == [i] + starting[k];
      assert Pick(s, sels[k]) == [s[i]] + Pick(s, starting[k]);
    }
  }

  lemma Regroup<T>(a: seq<T>, b: seq<T>, c: seq<T>)
    ensures (a + b) + c == a + (b + c)
  {
  }

  lemma NoneLeft<T>(s: seq<T>, chosen: seq<T>, i: nat, m: nat)
    requires i <= |s| < i + m
    ensures Ways(s, chosen, i, m) == []
  {
    SelectionsCount(i, |s|, m);
    TooFew(|s| - i, m);
  }

  lemma NothingToAdd<T>(s: seq<T>, chosen: seq<T>, i: nat)
    ensures Ways(s, chosen, i, 0) == [chosen]
  {
    assert chosen + Pick(s, []) == chosen;
  }

  ghost predicate Filled<T>(partial: seq<Option<T>>, k: nat) {
    k <= |partial| && forall j: nat | j < k :: partial[j].Some?
  }

  function Values<T>(partial: seq<Option<T>>, k: nat): seq<T>
    requires Filled(partial, k)
  {
    seq(k, j requires 0 <= j < k && Filled(partial, k) => partial[j].value)
  }

  lemma ValuesNext<T>(partial: seq<Option<T>>, k: nat, x: T)
    requires Filled(partial, k) && k < |partial|
    ensures var p := partial[k := Some(x)];
            Filled(p, k + 1) && Values(p, k) == Values(partial, k) && Values(p, k + 1) == Values(partial, k) + [x]
  {
  }

  class Combinations<T> {
    const N: nat
    const M: nat
    const elements: seq<T>
    var partial: seq<Option<T>>
    var out: seq<seq<T>>

    constructor (s: seq<T>, m: nat)
      requires 1 <= m
      ensures out == Ways(s, [], 0, m)
    {
      N, M, elements := |s|, m, s;
      partial, out := seq(m, _ => None), [];
      new;
      Generate(0, N - 1, M - 1);
    }

    // Every way of filling the remaining m + 1 slots from elements[i..j].
    method Generate(i: nat, j: int, m: nat)
      requires |partial| == M && m < M && Filled(partial, M - m - 1) && i <= |elements| == N && j == N - 1
      modifies this`partial, this`out
      ensures |partial| == M && Filled(partial, M - m - 1)
          && Values(partial, M - m - 1) == old(Values(partial, M - m - 1))
      ensures out == old(out) + Ways(elements, old(Values(partial, M - m - 1)), i, m + 1)
      decreases m, 1
    {
      var z := i;
      ghost var chosen := Values(partial, M - m - 1);
      ghost var goal := out + Ways(elements, chosen, i, m + 1);
      while z < j - m + 1
        invariant i <= z <= N && (z <= j - m + 1 || z == i)
        invariant |partial| == M && Filled(partial, M - m - 1) && Values(partial, M - m - 1) == chosen
        invariant out + Ways(elements, chosen, z, m + 1) == goal
      {
        EmitStep(elements, chosen, z, m);
        Regroup(out, Ways(elements, chosen + [elements[z]], z + 1, m), Ways(elements, chosen, z + 1, m + 1));
        Try(z, j, m);
        z := z + 1;
      }
      NoneLeft(elements, chosen, z, m + 1);
    }

    // One round: elements[z] in the next slot, then all ways of going on.
    method Try(z: nat, j: int, m: nat)
      requires |partial| == M && m < M && Filled(partial, M - m - 1) && z < |elements| == N && j == N - 1
      modifies this`partial, this`out
      ensures |partial| == M && Filled(partial, M - m - 1)
          && Values(partial, M - m - 1) == old(Values(partial, M - m - 1))
      ensures out == old(out) + Ways(elements, old(Values(partial, M - m - 1)) + [elements[z]], z + 1, m)
      decreases m, 0
    {
      ValuesNext(partial, M - m - 1, elements[z]);
      partial := partial[M - m - 1 := Some(elements[z])];
      ghost var chosen := Values(partial, M - m);
      if m > 0 {
        Generate(z + 1, j, m - 1);
        assert Values(partial, M - m - 1) == Values(partial, M - m)[..M - m - 1];
      } else {
        var full := Collect();
        NothingToAdd(elements, full, z + 1);
        out := out + [full];
      }
    }

    method Collect() returns (full: seq<T>)
      requires Filled(partial, |partial|)
      ensures full == Values(partial, |partial|)
    {
      full := [];
      for k := 0 to |partial|
        invariant full == Values(partial, k)
      {
        full := full + [partial[k].value];
      }
    }
  }
}
