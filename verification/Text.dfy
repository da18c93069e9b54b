/**
  Strings as the program orders and prints them. A string is a sequence of
  characters, each standing for one byte; comparison is byte-wise.
 */
module Text {
  import opened Wrappers
  import opened Sorting

  predicate StrLeq(a: string, b: string) {
    if a == "" then true
    else if b == "" then false
    else a[0] < b[0] || (a[0] == b[0] && StrLeq(a[1..], b[1..]))
  }

  lemma {:induction false} StrReflexive(a: string)
    ensures StrLeq(a, a)
  {
    if a != "" {
      StrReflexive(a[1..]);
    }
  }

  lemma {:induction false} StrTotal(a: string, b: string)
    ensures StrLeq(a, b) || StrLeq(b, a)
  {
    if a != "" && b != "" {
      StrTotal(a[1..], b[1..]);
    }
  }

  lemma {:induction false} StrAntisymmetric(a: string, b: string)
    requires StrLeq(a, b) && StrLeq(b, a)
    ensures a == b
  {
    if a != "" && b != "" {
      StrAntisymmetric(a[1..], b[1..]);
      assert a == [a[0]] + a[1..] && b == [b[0]] + b[1..];
    }
  }

  lemma {:induction false} StrTransitive(a: string, b: string, c: string)
    requires StrLeq(a, b) && StrLeq(b, c)
    ensures StrLeq(a, c)
  {
    if a != "" && b != "" && c != "" && a[0] == b[0] && b[0] == c[0] {
      StrTransitive(a[1..], b[1..], c[1..]);
    }
  }

  lemma StrOrder()
    ensures TotalPreorder(StrLeq)
  {
    hide StrLeq;
    forall x, y ensures StrLeq(x, y) || StrLeq(y, x) {
      StrTotal(x, y);
    }
    forall x, y, z | StrLeq(x, y) && StrLeq(y, z) ensures StrLeq(x, z) {
      StrTransitive(x, y, z);
    }
  }

  lemma SortedStringsUnique(a: seq<string>, b: seq<string>)
    requires SortedBy(a, StrLeq) && SortedBy(b, StrLeq) && multiset(a) == multiset(b)
    ensures a == b
  {
    hide StrLeq;
    forall x, y | x in a && y in a && StrLeq(x, y) && StrLeq(y, x) ensures x == y {
      StrAntisymmetric(x, y);
    }
    SortedUnique(a, b, StrLeq);
  }

  /** Permutations of strings sort to the same list. */
  lemma PermutedStringsSort(a: seq<string>, b: seq<string>)
    requires multiset(a) == multiset(b)
    ensures StableSort(a, StrLeq) == StableSort(b, StrLeq)
  {
    StrOrder();
    hide StrLeq, StableSort;
    forall x, y | StrLeq(x, y) && StrLeq(y, x) ensures x == y {
      StrAntisymmetric(x, y);
    }
    SortUndoesPermutation(a, b, StrLeq);
  }

  // ----- the keys of an ordered map, in iteration order -----

  lemma {:induction false} LeastExists(s: set<string>) returns (least: string)
    requires s != {}
    ensures least in s && forall x <- s :: StrLeq(least, x)
    decreases |s|
  {
    hide StrLeq;
    var x :| x in s;
    if s == {x} {
      least := x;
      StrReflexive(x);
    } else {
      var y := LeastExists(s - {x});
      StrTotal(x, y);
      StrReflexive(x);
      if StrLeq(x, y) {
        least := x;
        forall z | z in s ensures StrLeq(x, z) {
          if z != x {
            StrTransitive(x, y, z);
          }
        }
      } else {
        least := y;
      }
    }
  }

  /** Below everything in the set. */
  predicate IsLeast(k: string, s: set<string>) {
    k in s && forall x <- s :: StrLeq(k, x)
  }

  lemma LeastIsUnique(s: set<string>)
    ensures forall k, l :: IsLeast(k, s) && IsLeast(l, s) ==> k == l
  {
    hide StrLeq;
    forall k, l | IsLeast(k, s) && IsLeast(l, s) ensures k == l {
      StrAntisymmetric(k, l);
    }
  }

  lemma SomeIsLeast(s: set<string>)
    requires s != {}
    ensures exists k :: k in s && IsLeast(k, s)
  {
    hide StrLeq;
    var k := LeastExists(s);
    assert IsLeast(k, s);
  }

  function Least(s: set<string>): (least: string)
    requires s != {}
    ensures IsLeast(least, s)
  {
    SomeIsLeast(s);
    LeastIsUnique(s);
    var k :| k in s && IsLeast(k, s);
    k
  }

  /** A set of strings in ascending order. */
  function Ascending(s: set<string>): (r: seq<string>)
    ensures forall x :: x in r <==> x in s
    ensures NoDuplicates(r)
    ensures |r| == |s|
    decreases |s|
  {
    if s == {} then []
    else
      var k := Least(s);
      [k] + Ascending(s - {k})
  }

  ghost predicate NoDuplicates<T>(s: seq<T>) {
    forall i, j :: 0 <= i < j < |s| ==> s[i] != s[j]
  }

  /** Listings of the same things without duplicates are rearrangements of each other. */
  lemma {:induction false} SameListing<T>(a: seq<T>, b: seq<T>)
    requires NoDuplicates(a) && NoDuplicates(b) && forall x :: x in a <==> x in b
    ensures multiset(a) == multiset(b)
  {
    forall x ensures multiset(a)[x] == multiset(b)[x] {
      CountOnce(a, x);
      CountOnce(b, x);
    }
  }

  lemma {:induction false} CountOnce<T>(a: seq<T>, x: T)
    requires NoDuplicates(a)
    ensures multiset(a)[x] == if x in a then 1 else 0
  {
    if a != [] {
      var front := a[..|a| - 1];
      assert a == front + [a[|a| - 1]];
      CountOnce(front, x);
    }
  }

  // ----- decimal text -----

  function Digit(d: nat): char
    requires d < 10
  {
    ('0' as int + d) as char
  }

  function NatToString(n: nat): (s: string)
    ensures s != ""
  {
    if n < 10 then [Digit(n)] else NatToString(n / 10) + [Digit(n % 10)]
  }

  function IntToString(n: int): string {
    if n < 0 then "-" + NatToString(-n) else NatToString(n)
  }

  /** Items joined by a separator. */
  function Join(items: seq<string>, sep: string): string {
    if items == [] then ""
    else if |items| == 1 then items[0]
    else Join(items[..|items| - 1], sep) + sep + items[|items| - 1]
  }
}
