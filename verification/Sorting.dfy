/**
  Sorting as the program relies on it: a stable sort as a function, an unstable
  sort as any ordered rearrangement, and when that rearrangement is unique.
 */
module Sorting {
  ghost predicate TotalPreorder<T(!new)>(leq: (T, T) -> bool) {
    && (forall x, y :: leq(x, y) || leq(y, x))
    && (forall x, y, z :: leq(x, y) && leq(y, z) ==> leq(x, z))
  }

  ghost predicate SortedBy<T>(s: seq<T>, leq: (T, T) -> bool) {
    forall i, j :: 0 <= i < j < |s| ==> leq(s[i], s[j])
  }

  ghost predicate SortOf<T>(r: seq<T>, s: seq<T>, leq: (T, T) -> bool) {
    SortedBy(r, leq) && multiset(r) == multiset(s)
  }

  function Insert<T>(x: T, s: seq<T>, leq: (T, T) -> bool): (r: seq<T>)
    ensures multiset(r) == multiset([x] + s) && |r| == |s| + 1
  {
    if s == [] then [x]
    else if leq(x, s[0]) then [x] + s
    else
      assert s == [s[0]] + s[1..];
      [s[0]] + Insert(x, s[1..], leq)
  }

  /** The stable sort: equal items keep their order. */
  function StableSort<T>(s: seq<T>, leq: (T, T) -> bool): (r: seq<T>)
    ensures multiset(r) == multiset(s) && |r| == |s|
  {
    if s == [] then []
    else
      assert s == [s[0]] + s[1..];
      Insert(s[0], StableSort(s[1..], leq), leq)
  }

  lemma InMultiset<T>(s: seq<T>, x: T)
    ensures x in s <==> x in multiset(s)
  {}

  /** An item below everything in a sorted sequence can go in front of it. */
  lemma HeadBelow<T(!new)>(x: T, s: seq<T>, leq: (T, T) -> bool)
    requires TotalPreorder(leq) && SortedBy(s, leq)
    requires s != [] ==> leq(x, s[0])
    ensures SortedBy([x] + s, leq)
  {
    forall j | 0 <= j < |s| ensures leq(x, s[j]) {
      if j > 0 {
        assert leq(s[0], s[j]);
      }
    }
  }

  lemma {:induction false} InsertSorted<T(!new)>(x: T, s: seq<T>, leq: (T, T) -> bool)
    requires TotalPreorder(leq) && SortedBy(s, leq)
    ensures SortedBy(Insert(x, s, leq), leq)
  {
    if s != [] {
      if leq(x, s[0]) {
        HeadBelow(x, s, leq);
      } else {
        var rest := Insert(x, s[1..], leq);
        InsertSorted(x, s[1..], leq);
        forall y | y in rest ensures leq(s[0], y) {
          InMultiset(rest, y);
          InMultiset([x] + s[1..], y);
        }
        HeadBelow(s[0], rest, leq);
      }
    }
  }

  lemma {:induction false} StableSortSorts<T(!new)>(s: seq<T>, leq: (T, T) -> bool)
    requires TotalPreorder(leq)
    ensures SortedBy(StableSort(s, leq), leq)
  {
    if s != [] {
      StableSortSorts(s[1..], leq);
      InsertSorted(s[0], StableSort(s[1..], leq), leq);
    }
  }

  lemma SortedTail<T>(s: seq<T>, leq: (T, T) -> bool)
    requires SortedBy(s, leq) && s != []
    ensures SortedBy(s[1..], leq)
    ensures forall x <- s[1..] :: leq(s[0], x)
  {}

  /** Sorting sorted items changes nothing. */
  lemma {:induction false} StableSortIdempotent<T>(s: seq<T>, leq: (T, T) -> bool)
    requires SortedBy(s, leq)
    ensures StableSort(s, leq) == s
  {
    if s != [] {
      SortedTail(s, leq);
      hide SortedBy;
      StableSortIdempotent(s[1..], leq);
      if |s| > 1 {
        assert s[1] in s[1..];
      }
      assert s == [s[0]] + s[1..];
    }
  }

  /** The items that satisfy p, in order. */
  function Filter<T>(s: seq<T>, p: T -> bool): (r: seq<T>)
    ensures forall x <- r :: p(x) && x in s
  {
    if s == [] then []
    else if p(s[0]) then [s[0]] + Filter(s[1..], p)
    else Filter(s[1..], p)
  }

  lemma {:induction false} FilterInsert<T(!new)>(x: T, s: seq<T>, leq: (T, T) -> bool, p: T -> bool)
    requires forall a, b :: p(a) && p(b) ==> leq(a, b)
    ensures Filter(Insert(x, s, leq), p) == if p(x) then [x] + Filter(s, p) else Filter(s, p)
  {
    var r := Insert(x, s, leq);
    if s == [] {
      assert r[1..] == [];
    } else if leq(x, s[0]) {
      assert r[1..] == s;
    } else {
      FilterInsert(x, s[1..], leq, p);
      assert r[1..] == Insert(x, s[1..], leq);
    }
  }

  /** Stability: items of one equivalence class come out in their original order. */
  lemma {:induction false} StableSortIsStable<T(!new)>(s: seq<T>, leq: (T, T) -> bool, p: T -> bool)
    requires forall a, b :: p(a) && p(b) ==> leq(a, b)
    ensures Filter(StableSort(s, leq), p) == Filter(s, p)
  {
    if s != [] {
      StableSortIsStable(s[1..], leq, p);
      FilterInsert(s[0], StableSort(s[1..], leq), leq, p);
    }
  }

  /** Two sorted rearrangements agree when the order tells their items apart. */
  lemma {:induction false} SortedUnique<T(!new)>(a: seq<T>, b: seq<T>, leq: (T, T) -> bool)
    requires SortedBy(a, leq) && SortedBy(b, leq) && multiset(a) == multiset(b)
    requires forall x, y :: x in a && y in a && leq(x, y) && leq(y, x) ==> x == y
    ensures a == b
  {
    assert |a| == |multiset(a)| == |multiset(b)| == |b|;
    if a != [] {
      SortedTail(a, leq);
      SortedTail(b, leq);
      HeadsAgree(a, b, leq);
      assert a == [a[0]] + a[1..] && b == [b[0]] + b[1..];
      assert multiset(a[1..]) == multiset(a) - multiset{a[0]};
      assert multiset(b[1..]) == multiset(b) - multiset{b[0]};
      hide SortedBy;
      SortedUnique(a[1..], b[1..], leq);
    }
  }

  lemma HeadsAgree<T(!new)>(a: seq<T>, b: seq<T>, leq: (T, T) -> bool)
    requires a != [] && b != [] && multiset(a) == multiset(b)
    requires (forall x <- a[1..] :: leq(a[0], x)) && (forall x <- b[1..] :: leq(b[0], x))
    requires forall x, y :: x in a && y in a && leq(x, y) && leq(y, x) ==> x == y
    ensures a[0] == b[0]
  {
    InMultiset(b, a[0]);
    InMultiset(a, a[0]);
    InMultiset(a, b[0]);
    InMultiset(b, b[0]);
    assert a == [a[0]] + a[1..] && b == [b[0]] + b[1..];
    assert forall x <- a :: x == a[0] || x in a[1..];
    assert forall x <- b :: x == b[0] || x in b[1..];
  }

  /** Sorting undoes a permutation when the order tells the items apart. */
  lemma SortUndoesPermutation<T(!new)>(a: seq<T>, b: seq<T>, leq: (T, T) -> bool)
    requires TotalPreorder(leq) && multiset(a) == multiset(b)
    requires forall x, y :: x in a && y in a && leq(x, y) && leq(y, x) ==> x == y
    ensures StableSort(a, leq) == StableSort(b, leq)
  {
    hide StableSort, TotalPreorder;
    StableSortSorts(a, leq);
    StableSortSorts(b, leq);
    forall x ensures x in StableSort(a, leq) <==> x in a {
      InMultiset(StableSort(a, leq), x);
      InMultiset(a, x);
    }
    SortedUnique(StableSort(a, leq), StableSort(b, leq), leq);
  }

  /** An unstable sort promises no more than an ordered rearrangement. */
  method UnstableSort<T(!new)>(s: seq<T>, leq: (T, T) -> bool) returns (r: seq<T>)
    requires TotalPreorder(leq)
    ensures SortOf(r, s, leq)
  {
    r := StableSort(s, leq);
    StableSortSorts(s, leq);
  }

  // ----- mapping -----

  function MapSeq<T, U>(s: seq<T>, f: T -> U): (r: seq<U>)
    ensures |r| == |s| && forall i :: 0 <= i < |s| ==> r[i] == f(s[i])
  {
    seq(|s|, i requires 0 <= i < |s| => f(s[i]))
  }

  lemma MapCons<T, U>(x: T, s: seq<T>, f: T -> U)
    ensures multiset(MapSeq([x] + s, f)) == multiset{f(x)} + multiset(MapSeq(s, f))
  {
    assert MapSeq([x] + s, f) == [f(x)] + MapSeq(s, f);
  }

  lemma InsertStep<T>(x: T, s: seq<T>, leq: (T, T) -> bool)
    ensures s == [] || leq(x, s[0]) ==> Insert(x, s, leq) == [x] + s
    ensures s != [] && !leq(x, s[0]) ==> Insert(x, s, leq) == [s[0]] + Insert(x, s[1..], leq)
  {}

  lemma {:induction false} MapInsert<T, U>(x: T, s: seq<T>, leq: (T, T) -> bool, f: T -> U)
    ensures multiset(MapSeq(Insert(x, s, leq), f)) == multiset{f(x)} + multiset(MapSeq(s, f))
  {
    hide MapSeq, Insert;
    InsertStep(x, s, leq);
    if s == [] || leq(x, s[0]) {
      MapCons(x, s, f);
    } else {
      var rest := Insert(x, s[1..], leq);
      MapInsert(x, s[1..], leq, f);
      MapCons(s[0], rest, f);
      MapCons(s[0], s[1..], f);
      assert s == [s[0]] + s[1..];
    }
  }

  /** Sorting and mapping: the same values, in some order. */
  lemma {:induction false} MapSorted<T, U>(s: seq<T>, leq: (T, T) -> bool, f: T -> U)
    ensures multiset(MapSeq(StableSort(s, leq), f)) == multiset(MapSeq(s, f))
  {
    hide MapSeq, Insert;
    if s != [] {
      MapSorted(s[1..], leq, f);
      MapInsert(s[0], StableSort(s[1..], leq), leq, f);
      MapCons(s[0], s[1..], f);
      assert s == [s[0]] + s[1..];
    }
  }

  lemma WithoutOne<T>(s: seq<T>, i: nat)
    requires i < |s|
    ensures multiset(s[..i] + s[i + 1..]) == multiset(s) - multiset{s[i]}
  {
    assert s == s[..i] + ([s[i]] + s[i + 1..]);
  }

  lemma HeadsCancel<T>(a: seq<T>, b: seq<T>, i: nat)
    requires a != [] && i < |b| && b[i] == a[0] && multiset(a) == multiset(b)
    ensures multiset(a[1..]) == multiset(b[..i] + b[i + 1..])
  {
    WithoutOne(a, 0);
    WithoutOne(b, i);
    assert a[..0] + a[1..] == a[1..];
  }

  lemma SomewhereElse<T>(a: seq<T>, b: seq<T>) returns (i: nat)
    requires a != [] && multiset(a) == multiset(b)
    ensures i < |b| && b[i] == a[0]
  {
    InMultiset(a, a[0]);
    InMultiset(b, a[0]);
    i :| 0 <= i < |b| && b[i] == a[0];
  }

  /** Rearranging a sequence rearranges what it maps to. */
  lemma {:induction false} MapPermuted<T, U>(a: seq<T>, b: seq<T>, f: T -> U)
    requires multiset(a) == multiset(b)
    ensures multiset(MapSeq(a, f)) == multiset(MapSeq(b, f))
    decreases |a|
  {
    assert |a| == |multiset(a)| == |multiset(b)| == |b|;
    if a != [] {
      var i := SomewhereElse(a, b);
      HeadsCancel(a, b, i);
      MapPermuted(a[1..], b[..i] + b[i + 1..], f);
      MapWithoutOne(b, f, i);
      MapCons(a[0], a[1..], f);
      assert a == [a[0]] + a[1..];
    }
  }

  lemma MapWithoutOne<T, U>(s: seq<T>, f: T -> U, i: nat)
    requires i < |s|
    ensures multiset(MapSeq(s, f)) == multiset{f(s[i])} + multiset(MapSeq(s[..i] + s[i + 1..], f))
  {
    var r := MapSeq(s, f);
    assert r == r[..i] + ([r[i]] + r[i + 1..]);
    assert MapSeq(s[..i] + s[i + 1..], f) == r[..i] + r[i + 1..];
  }

  // ----- filters -----

  lemma {:induction false} FilterMembers<T(!new)>(s: seq<T>, p: T -> bool)
    ensures forall x :: x in Filter(s, p) <==> x in s && p(x)
  {
    if s != [] {
      FilterMembers(s[1..], p);
      assert s == [s[0]] + s[1..];
    }
  }

  lemma {:induction false} FilterConcat<T>(a: seq<T>, b: seq<T>, p: T -> bool)
    ensures Filter(a + b, p) == Filter(a, p) + Filter(b, p)
  {
    if a == [] {
      assert a + b == b;
    } else {
      assert (a + b)[1..] == a[1..] + b;
      FilterConcat(a[1..], b, p);
    }
  }

  lemma {:induction false} FilterAll<T>(a: seq<T>, p: T -> bool)
    requires forall x <- a :: p(x)
    ensures Filter(a, p) == a
  {
    if a != [] {
      FilterAll(a[1..], p);
    }
  }

  lemma {:induction false} FilterNone<T>(a: seq<T>, p: T -> bool)
    requires forall x <- a :: !p(x)
    ensures Filter(a, p) == []
  {
    if a != [] {
      FilterNone(a[1..], p);
    }
  }

  lemma {:induction false} FilterCount<T>(s: seq<T>, p: T -> bool, x: T)
    ensures multiset(Filter(s, p))[x] == if p(x) then multiset(s)[x] else 0
  {
    if s != [] {
      FilterCount(s[1..], p, x);
      assert s == [s[0]] + s[1..];
      assert multiset(s) == multiset{s[0]} + multiset(s[1..]);
    }
  }

  /** Rearranging a sequence rearranges what a filter keeps. */
  lemma FilterPermuted<T(!new)>(a: seq<T>, b: seq<T>, p: T -> bool)
    requires multiset(a) == multiset(b)
    ensures multiset(Filter(a, p)) == multiset(Filter(b, p))
  {
    var kept, other := Filter(a, p), Filter(b, p);
    forall x ensures multiset(kept)[x] == multiset(other)[x] {
      FilterCount(a, p, x);
      FilterCount(b, p, x);
    }
    assert multiset(kept) <= multiset(other) && multiset(other) <= multiset(kept);
  }
}
