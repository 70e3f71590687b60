// Stable sorting by a comparison, as the standard library offers it.
module Sorting {

  // A strict weak order: the comparisons a sort may be given.
  ghost predicate StrictWeakOrder<T(!new)>(lt: (T, T) -> bool) {
    forall a, b, c :: Ordered(lt, a, b, c)
  }

  ghost predicate Ordered<T>(lt: (T, T) -> bool, a: T, b: T, c: T) {
    !lt(a, a) && (lt(a, b) && lt(b, c) ==> lt(a, c)) && (!lt(a, b) && !lt(b, c) ==> !lt(a, c))
  }

  // x goes behind everything that need not come after it.
  function Insert<T>(lt: (T, T) -> bool, s: seq<T>, x: T): seq<T> {
    if s == [] || !lt(x, s[|s| - 1]) then s + [x]
    else Insert(lt, s[..|s| - 1], x) + [s[|s| - 1]]
  }

  function StableSort<T>(lt: (T, T) -> bool, s: seq<T>): seq<T> {
    if s == [] then [] else Insert(lt, StableSort(lt, s[..|s| - 1]), s[|s| - 1])
  }

  ghost predicate Sorted<T>(lt: (T, T) -> bool, s: seq<T>) {
    forall j, k | 0 <= j < k < |s| :: !lt(s[k], s[j])
  }

  // Nothing in s must come after x.
  ghost predicate NoneAfter<T>(lt: (T, T) -> bool, s: seq<T>, x: T) {
    forall j | 0 <= j < |s| :: !lt(x, s[j])
  }

  lemma SortedLast<T(!new)>(lt: (T, T) -> bool, s: seq<T>, x: T)
    requires Sorted(lt, s) && NoneAfter(lt, s, x)
    ensures Sorted(lt, s + [x])
  {
  }

  lemma {:induction false} InsertPermutes<T>(lt: (T, T) -> bool, s: seq<T>, x: T)
    ensures multiset(Insert(lt, s, x)) == multiset(s) + multiset{x}
    decreases |s|
  {
    if s != [] && lt(x, s[|s| - 1]) {
      InsertPermutes(lt, s[..|s| - 1], x);
      assert s == s[..|s| - 1] + [s[|s| - 1]];
    }
  }

  lemma {:induction false} InsertSorted<T(!new)>(lt: (T, T) -> bool, s: seq<T>, x: T)
    requires StrictWeakOrder(lt) && Sorted(lt, s)
    ensures Sorted(lt, Insert(lt, s, x))
    decreases |s|
  {
    if s == [] {
    } else if lt(x, s[|s| - 1]) {
      InsertSorted(lt, s[..|s| - 1], x);
      InsertBelow(lt, s, x);
      SortedLast(lt, Insert(lt, s[..|s| - 1], x), s[|s| - 1]);
    } else {
      forall j | 0 <= j < |s| ensures !lt(x, s[j]) {
        assert Ordered(lt, x, s[|s| - 1], s[j]);
      }
      SortedLast(lt, s, x);
    }
  }

  // Nothing in the list with x inserted must come after its last element.
  lemma InsertBelow<T(!new)>(lt: (T, T) -> bool, s: seq<T>, x: T)
    requires StrictWeakOrder(lt) && Sorted(lt, s) && s != [] && lt(x, s[|s| - 1])
    ensures NoneAfter(lt, Insert(lt, s[..|s| - 1], x), s[|s| - 1])
  {
    var last, rest := s[|s| - 1], s[..|s| - 1];
    var r := Insert(lt, rest, x);
    InsertPermutes(lt, rest, x);
    forall j | 0 <= j < |r| ensures !lt(last, r[j]) {
      assert r[j] in multiset(r);
      if r[j] == x {
        assert Ordered(lt, x, last, x);
      } else {
        assert r[j] in multiset(rest);
        var k :| 0 <= k < |rest| && rest[k] == r[j];
        assert s[k] == r[j];
      }
    }
  }

  // The result is a sorted rearrangement.
  lemma {:induction false} StableSortSorts<T(!new)>(lt: (T, T) -> bool, s: seq<T>)
    requires StrictWeakOrder(lt)
    ensures Sorted(lt, StableSort(lt, s)) && multiset(StableSort(lt, s)) == multiset(s)
    decreases |s|
  {
    if s != [] {
      var last, rest := s[|s| - 1], s[..|s| - 1];
      StableSortSorts(lt, rest);
      InsertSorted(lt, StableSort(lt, rest), last);
      InsertPermutes(lt, StableSort(lt, rest), last);
      assert s == rest + [last];
    }
  }

  function Select<T>(p: T -> bool, s: seq<T>): seq<T> {
    if s == [] then []
    else Select(p, s[..|s| - 1]) + if p(s[|s| - 1]) then [s[|s| - 1]] else []
  }

  lemma SelectLast<T>(p: T -> bool, s: seq<T>, x: T)
    ensures Select(p, s + [x]) == Select(p, s) + if p(x) then [x] else []
  {
    assert (s + [x])[..|s|] == s;
  }

  ghost predicate Total<T>(lt: (T, T) -> bool, s: seq<T>) {
    forall a <- s, b <- s :: Comparable(lt, a, b)
  }

  ghost predicate Comparable<T>(lt: (T, T) -> bool, a: T, b: T) {
    a == b || lt(a, b) || lt(b, a)
  }

  lemma LastIsLargest<T(!new)>(lt: (T, T) -> bool, s: seq<T>, t: seq<T>)
    requires StrictWeakOrder(lt) && Sorted(lt, s) && Sorted(lt, t) && multiset(s) == multiset(t) && s != [] && t != []
    ensures !lt(s[|s| - 1], t[|t| - 1])
  {
    var y := t[|t| - 1];
    assert y in multiset(s);
    var k :| 0 <= k < |s| && s[k] == y;
    assert Ordered(lt, y, y, y);
  }

  lemma DropLast<T>(s: seq<T>)
    requires s != []
    ensures var n := |s| - 1; s == s[..n] + [s[n]] && multiset(s[..n]) == multiset(s) - multiset{s[n]}
  {
    assert s == s[..|s| - 1] + [s[|s| - 1]];
  }

  // Of elements the order tells apart there is one sorted arrangement.
  lemma {:induction false} SortedUnique<T(!new)>(lt: (T, T) -> bool, s: seq<T>, t: seq<T>)
    requires StrictWeakOrder(lt) && Total(lt, s)
    requires Sorted(lt, s) && Sorted(lt, t) && multiset(s) == multiset(t)
    ensures s == t
    decreases |s|
  {
    assert |s| == |multiset(s)| && |t| == |multiset(t)|;
    if s != [] {
      var n := |s| - 1;
      LastIsLargest(lt, s, t);
      LastIsLargest(lt, t, s);
      assert t[n] in multiset(s) && s[n] in s;
      assert Comparable(lt, s[n], t[n]);
      DropLast(s);
      DropLast(t);
      SortedUnique(lt, s[..n], t[..n]);
    }
  }

  lemma SortCanonical<T(!new)>(lt: (T, T) -> bool, s: seq<T>, t: seq<T>)
    requires StrictWeakOrder(lt) && Total(lt, s)
    ensures StableSort(lt, s) == StableSort(lt, t) <==> multiset(s) == multiset(t)
  {
    StableSortSorts(lt, s);
    StableSortSorts(lt, t);
    if multiset(s) == multiset(t) {
      assert forall x :: x in StableSort(lt, s) ==> x in multiset(StableSort(lt, s));
      assert Total(lt, StableSort(lt, s));
      SortedUnique(lt, StableSort(lt, s), StableSort(lt, t));
    }
  }

  // ---- Filtering -----------------------------------------------------------------

  lemma {:induction false} SelectIn<T>(p: T -> bool, s: seq<T>, x: T)
    ensures x in Select(p, s) <==> x in s && p(x)
    decreases |s|
  {
    if s != [] {
      SelectIn(p, s[..|s| - 1], x);
      assert s == s[..|s| - 1] + [s[|s| - 1]];
    }
  }

  ghost predicate Pairwise<T>(before: (T, T) -> bool, s: seq<T>) {
    forall j, k {:trigger s[j], s[k]} | 0 <= j < k < |s| :: before(s[j], s[k])
  }

  // A selection keeps every relation between earlier and later elements.
  lemma {:induction false} SelectPairwise<T>(before: (T, T) -> bool, p: T -> bool, s: seq<T>)
    requires Pairwise(before, s)
    ensures Pairwise(before, Select(p, s))
    decreases |s|
  {
    if s != [] {
      var last, rest := s[|s| - 1], s[..|s| - 1];
      SelectPairwise(before, p, rest);
      var r := Select(p, rest);
      forall j | 0 <= j < |r| ensures before(r[j], last) {
        assert r[j] in r;
        SelectIn(p, rest, r[j]);
        var k :| 0 <= k < |rest| && rest[k] == r[j];
        assert s[k] == r[j];
      }
    }
  }

  lemma {:induction false} SelectCount<T>(p: T -> bool, s: seq<T>, x: T)
    ensures multiset(Select(p, s))[x] == if p(x) then multiset(s)[x] else 0
    decreases |s|
  {
    if s != [] {
      SelectCount(p, s[..|s| - 1], x);
      assert s == s[..|s| - 1] + [s[|s| - 1]];
    }
  }

  // Selecting from two arrangements of the same elements.
  lemma SelectPermutes<T(!new)>(p: T -> bool, s: seq<T>, t: seq<T>)
    requires multiset(s) == multiset(t)
    ensures multiset(Select(p, s)) == multiset(Select(p, t))
  {
    forall x ensures multiset(Select(p, s))[x] == multiset(Select(p, t))[x] {
      SelectCount(p, s, x);
      SelectCount(p, t, x);
    }
  }
}
