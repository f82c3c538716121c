/** Shared vocabulary: optional results, sequence helpers, byte-string order and
    the search and sort routines the service takes from Go's standard library. */
module Basics {

  datatype Option<+T> = None | Some(value: T)

  function Last<T>(xs: seq<T>): T
    requires xs != []
  {
    xs[|xs| - 1]
  }

  /** The last n elements, or all of them when there are fewer. */
  function LastN<T>(xs: seq<T>, n: nat): seq<T> {
    if |xs| <= n then xs else xs[|xs| - n..]
  }

  function Keep<T>(xs: seq<T>, p: T -> bool): seq<T> {
    if xs == [] then []
    else
      var before := Keep(xs[..|xs| - 1], p);
      if p(Last(xs)) then before + [Last(xs)] else before
  }

  ghost predicate Distinct<T>(xs: seq<T>) {
    forall i, j :: 0 <= i < j < |xs| ==> xs[i] != xs[j]
  }

  /** The multiset of a sequence, one element at a time. */
  lemma MultisetSplit<T>(xs: seq<T>)
    requires xs != []
    ensures multiset(xs) == multiset{xs[0]} + multiset(xs[1..])
  {
    assert xs == [xs[0]] + xs[1..];
  }

  lemma SplitAround<T>(xs: seq<T>, i: nat)
    requires i < |xs|
    ensures xs == xs[..i] + [xs[i]] + xs[i + 1..]
  {
  }

  lemma MultisetRemove<T>(xs: seq<T>, i: nat)
    requires i < |xs|
    ensures multiset(xs[..i] + xs[i + 1..]) == multiset(xs) - multiset{xs[i]}
  {
    assert xs == xs[..i] + [xs[i]] + xs[i + 1..];
  }

  /** Of two permutations, the second holds the last element of the first somewhere, and
      without it they are permutations still. */
  lemma PermutedLast<T>(xs: seq<T>, ys: seq<T>) returns (j: nat)
    requires multiset(xs) == multiset(ys) && xs != []
    ensures j < |ys| && ys[j] == Last(xs)
    ensures multiset(xs[..|xs| - 1]) == multiset(ys[..j] + ys[j + 1..])
  {
    assert Last(xs) in multiset(ys);
    j :| 0 <= j < |ys| && ys[j] == Last(xs);
    MultisetRemove(ys, j);
    MultisetRemove(xs, |xs| - 1);
    assert xs[..|xs| - 1] + xs[|xs|..] == xs[..|xs| - 1];
  }

  lemma PermutedEmpty<T>(ys: seq<T>)
    requires multiset(ys) == multiset{}
    ensures ys == []
  {
    assert |multiset(ys)| == 0;
  }

  lemma {:induction false} KeepAppend<T>(xs: seq<T>, ys: seq<T>, p: T -> bool)
    ensures Keep(xs + ys, p) == Keep(xs, p) + Keep(ys, p)
  {
    if ys == [] {
      assert xs + ys == xs;
    } else {
      var before, y := ys[..|ys| - 1], Last(ys);
      assert (xs + ys)[..|xs + ys| - 1] == xs + before;
      KeepAppend(xs, before, p);
      assert Keep(xs, p) + Keep(before, p) + [y] == Keep(xs, p) + (Keep(before, p) + [y]);
    }
  }

  lemma {:induction false} KeepAll<T>(xs: seq<T>, p: T -> bool)
    requires forall i :: 0 <= i < |xs| ==> p(xs[i])
    ensures Keep(xs, p) == xs
  {
    if xs != [] {
      KeepAll(xs[..|xs| - 1], p);
    }
  }

  // ── Byte-string order (Go's < on strings) ────────

  predicate StrLess(a: string, b: string) {
    b != [] && (a == [] || a[0] < b[0] || (a[0] == b[0] && StrLess(a[1..], b[1..])))
  }

  /** The first k characters agree, and then a ends or has the smaller character. */
  predicate LessAt(a: string, b: string, k: nat) {
    k <= |a| && k < |b| && a[..k] == b[..k] && (k == |a| || a[k] < b[k])
  }

  lemma SameFirst(a: string, b: string, k: nat)
    requires 0 < k <= |a| && k <= |b| && a[..k] == b[..k]
    ensures a[0] == b[0]
  {
    assert a[0] == a[..k][0] && b[0] == b[..k][0];
  }

  /** That is: they agree up to somewhere, and there a ends or has the smaller character. */
  lemma {:induction false} StrLessExactly(a: string, b: string)
    ensures StrLess(a, b) <==> exists k: nat :: LessAt(a, b, k)
  {
    if a == [] || b == [] || a[0] != b[0] {
      assert b != [] && (a == [] || a[0] < b[0]) ==> LessAt(a, b, 0);
      forall k: nat | LessAt(a, b, k) ensures k == 0 {
        if k > 0 {
          SameFirst(a, b, k);
        }
      }
    } else {
      StrLessExactly(a[1..], b[1..]);
      forall k: nat ensures LessAt(a[1..], b[1..], k) <==> LessAt(a, b, k + 1) {
        if k < |a| && k + 1 < |b| {
          assert a[..k + 1] == [a[0]] + a[1..][..k] && b[..k + 1] == [b[0]] + b[1..][..k];
        }
      }
      forall k: nat | LessAt(a, b, k) ensures k > 0 && LessAt(a[1..], b[1..], k - 1) {
      }
    }
  }

  lemma {:induction false} StrLessIrreflexive(a: string)
    ensures !StrLess(a, a)
  {
    if a != [] {
      StrLessIrreflexive(a[1..]);
    }
  }

  lemma {:induction false} StrLessTransitive(a: string, b: string, c: string)
    requires StrLess(a, b) && StrLess(b, c)
    ensures StrLess(a, c)
  {
    if a != [] && a[0] == b[0] && b[0] == c[0] {
      StrLessTransitive(a[1..], b[1..], c[1..]);
    }
  }

  lemma {:induction false} StrLessTotal(a: string, b: string)
    ensures StrLess(a, b) || a == b || StrLess(b, a)
  {
    if a != [] && b != [] && a[0] == b[0] {
      StrLessTotal(a[1..], b[1..]);
      assert a == [a[0]] + a[1..] && b == [b[0]] + b[1..];
    }
  }

  // ── sort.Search ────────

  /** The smallest index from k on that satisfies p, or n when there is none. */
  function FirstIndex(n: nat, k: nat, p: nat -> bool): (i: nat)
    requires k <= n
    ensures k <= i <= n
    ensures forall j :: k <= j < i ==> !p(j)
    ensures i < n ==> p(i)
    decreases n - k
  {
    if k == n || p(k) then k else FirstIndex(n, k + 1, p)
  }

  ghost predicate Monotone(n: nat, p: nat -> bool) {
    forall i, j :: 0 <= i <= j < n && p(i) ==> p(j)
  }

  /** Binary search as sort.Search runs it: on a monotone predicate it finds the
      same index a left-to-right scan would. */
  method Search(n: nat, p: nat -> bool) returns (i: nat)
    requires Monotone(n, p)
    ensures i == FirstIndex(n, 0, p)
  {
    i := 0;
    var j := n;
    while i < j
      invariant 0 <= i <= j <= n
      invariant i > 0 ==> !p(i - 1)
      invariant j < n ==> p(j)
    {
      var h := (i + j) / 2;
      if !p(h) {
        i := h + 1;
      } else {
        j := h;
      }
    }
    assert forall m: nat :: m < i ==> !p(m);
  }

  // ── sort.Slice on elements that are pairwise ordered ────────

  ghost predicate StrictlySorted<T(!new)>(xs: seq<T>, less: (T, T) -> bool) {
    forall i, j :: 0 <= i < j < |xs| ==> less(xs[i], xs[j])
  }

  ghost predicate StrictOrderOn<T(!new)>(s: set<T>, less: (T, T) -> bool) {
    && (forall x :: x in s ==> !less(x, x))
    && (forall x, y, z :: x in s && y in s && z in s && less(x, y) && less(y, z) ==> less(x, z))
    && (forall x, y :: x in s && y in s && x != y ==> less(x, y) || less(y, x))
  }

  ghost function Elements<T>(xs: seq<T>): set<T> {
    set x | x in xs
  }

  lemma NoElements<T>(xs: seq<T>)
    ensures Elements(xs) == {} <==> xs == []
  {
    assert xs != [] ==> xs[0] in Elements(xs);
  }

  /** The first element of a strictly sorted sequence does not occur again. */
  lemma SortedHead<T(!new)>(xs: seq<T>, less: (T, T) -> bool)
    requires xs != []
    requires StrictOrderOn(Elements(xs), less) && StrictlySorted(xs, less)
    ensures StrictlySorted(xs[1..], less)
    ensures Elements(xs[1..]) == Elements(xs) - {xs[0]}
  {
    forall x | x in xs[1..] ensures x != xs[0] {
      var k :| 0 <= k < |xs| - 1 && xs[1..][k] == x;
      assert less(xs[0], xs[k + 1]) && xs[0] in Elements(xs);
    }
    forall x ensures x in Elements(xs) <==> x == xs[0] || x in xs[1..] {
      assert xs == [xs[0]] + xs[1..];
    }
  }

  lemma SortedHeadsAgree<T(!new)>(xs: seq<T>, ys: seq<T>, less: (T, T) -> bool)
    requires xs != [] && ys != []
    requires StrictOrderOn(Elements(xs), less)
    requires Elements(xs) == Elements(ys)
    requires StrictlySorted(xs, less) && StrictlySorted(ys, less)
    ensures xs[0] == ys[0]
  {
    var x, y := xs[0], ys[0];
    assert x in Elements(xs) && y in Elements(ys);
    assert x in ys && y in xs;
    var i :| 0 <= i < |xs| && xs[i] == y;
    var j :| 0 <= j < |ys| && ys[j] == x;
    assert i == 0 || less(x, y);
    assert j == 0 || less(y, x);
  }

  /** A strictly sorted sequence is determined by its elements, so neither the
      sorting algorithm nor the order it was handed the elements in can show. */
  lemma {:induction false} SortedUnique<T(!new)>(xs: seq<T>, ys: seq<T>, less: (T, T) -> bool)
    requires StrictOrderOn(Elements(xs), less)
    requires Elements(xs) == Elements(ys)
    requires StrictlySorted(xs, less) && StrictlySorted(ys, less)
    ensures xs == ys
  {
    if xs == [] || ys == [] {
      NoElements(xs);
      NoElements(ys);
    } else {
      SortedHeadsAgree(xs, ys, less);
      SortedHead(xs, less);
      SortedHead(ys, less);
      SortedUnique(xs[1..], ys[1..], less);
      assert xs == [xs[0]] + xs[1..] && ys == [ys[0]] + ys[1..];
    }
  }

  /** Puts x before the first element that is not less than it. */
  function Insert<T>(xs: seq<T>, x: T, less: (T, T) -> bool): seq<T> {
    if xs == [] || !less(xs[0], x) then [x] + xs else [xs[0]] + Insert(xs[1..], x, less)
  }

  lemma {:induction false} InsertSorted<T(!new)>(xs: seq<T>, x: T, less: (T, T) -> bool, s: set<T>)
    requires StrictOrderOn(s, less)
    requires Elements(xs) <= s && x in s && x !in xs
    requires StrictlySorted(xs, less)
    ensures StrictlySorted(Insert(xs, x, less), less)
    ensures Elements(Insert(xs, x, less)) == Elements(xs) + {x}
  {
    if xs != [] {
      var head, rest := xs[0], xs[1..];
      assert xs == [head] + rest && head in Elements(xs);
      if less(head, x) {
        assert forall y :: y in rest ==> y in xs;
        InsertSorted(rest, x, less, s);
        var more := Insert(rest, x, less);
        forall y | y in more ensures less(head, y) {
          assert y in Elements(more);
        }
      } else {
        forall y | y in xs ensures less(x, y) {
          assert less(x, head) && y in Elements(xs);
          assert y == head || less(head, y);
        }
      }
    }
  }

  /** Sorts a finite set by a strict order, whatever order the set is read in. */
  method SortSet<T(==, !new)>(s: set<T>, less: (T, T) -> bool) returns (out: seq<T>)
    requires StrictOrderOn(s, less)
    ensures StrictlySorted(out, less)
    ensures Elements(out) == s
  {
    out := [];
    var rest := s;
    while rest != {}
      invariant rest <= s
      invariant Elements(out) == s - rest
      invariant StrictlySorted(out, less)
      decreases rest
    {
      var x :| x in rest;
      rest := rest - {x};
      assert x !in Elements(out);
      InsertSorted(out, x, less, s);
      out := Insert(out, x, less);
    }
  }

  lemma {:induction false} Sortable<T(!new)>(s: set<T>, less: (T, T) -> bool)
    requires StrictOrderOn(s, less)
    ensures exists xs :: StrictlySorted(xs, less) && Elements(xs) == s
  {
    if s == {} {
      NoElements<T>([]);
      assert StrictlySorted<T>([], less);
    } else {
      var x :| x in s;
      Sortable(s - {x}, less);
      var xs :| StrictlySorted(xs, less) && Elements(xs) == s - {x};
      assert x !in Elements(xs);
      InsertSorted(xs, x, less, s);
    }
  }

  // ── sort.Slice where elements may tie ────────

  ghost predicate WeakOrder<T(!new)>(less: (T, T) -> bool) {
    && (forall a, b :: less(a, b) ==> !less(b, a))
    && (forall a, b, c :: !less(b, a) && !less(c, b) ==> !less(c, a))
  }

  ghost predicate Ordered<T>(xs: seq<T>, less: (T, T) -> bool) {
    forall i, j :: 0 <= i < j < |xs| ==> !less(xs[j], xs[i])
  }

  lemma {:induction false} InsertContents<T>(xs: seq<T>, x: T, less: (T, T) -> bool)
    ensures multiset(Insert(xs, x, less)) == multiset{x} + multiset(xs)
  {
    if xs != [] && less(xs[0], x) {
      InsertContents(xs[1..], x, less);
      MultisetSplit(xs);
    }
  }

  lemma OrderedCons<T(!new)>(x: T, xs: seq<T>, less: (T, T) -> bool)
    requires Ordered(xs, less) && forall y :: y in multiset(xs) ==> !less(y, x)
    ensures Ordered([x] + xs, less)
  {
    forall i | 0 <= i < |xs| ensures !less(xs[i], x) {
      assert xs[i] in multiset(xs);
    }
  }

  lemma {:induction false} InsertOrdered<T(!new)>(xs: seq<T>, x: T, less: (T, T) -> bool)
    requires WeakOrder(less) && Ordered(xs, less)
    ensures Ordered(Insert(xs, x, less), less)
  {
    if xs == [] {
    } else if less(xs[0], x) {
      InsertOrdered(xs[1..], x, less);
      InsertContents(xs[1..], x, less);
      OrderedCons(xs[0], Insert(xs[1..], x, less), less);
    } else {
      forall y | y in multiset(xs) ensures !less(y, x) {
        assert y == xs[0] || !less(y, xs[0]);
      }
      OrderedCons(x, xs, less);
    }
  }

  /** Sorts, in some order where elements tie. */
  method SortBy<T(!new)>(xs: seq<T>, less: (T, T) -> bool) returns (out: seq<T>)
    requires WeakOrder(less)
    ensures Ordered(out, less) && multiset(out) == multiset(xs)
  {
    out := [];
    for i := 0 to |xs|
      invariant Ordered(out, less) && multiset(out) == multiset(xs[..i])
    {
      assert xs[..i + 1] == xs[..i] + [xs[i]];
      InsertOrdered(out, xs[i], less);
      InsertContents(out, xs[i], less);
      out := Insert(out, xs[i], less);
    }
    assert xs[..|xs|] == xs;
  }
}
