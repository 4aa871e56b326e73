/**
 * `toSorted` with `localeCompare` and `[...new Set(xs)]`, as scripts/control-ui-i18n.ts and
 * scripts/protocol-gen-swift.ts use them. The comparison is any total order on strings.
 */
module Sorting {

  type Order = (string, string) -> bool

  ghost predicate IsTotal(le: Order) {
    && (forall a, b :: le(a, b) || le(b, a))
    && (forall a, b :: le(a, b) && le(b, a) ==> a == b)
    && (forall a, b, c :: le(a, b) && le(b, c) ==> le(a, c))
  }

  /** The order of character codes. */
  predicate CodeOrder(a: string, b: string) {
    a == "" || (b != "" && (a[0] < b[0] || (a[0] == b[0] && CodeOrder(a[1..], b[1..]))))
  }

  function Insert<T>(x: T, sorted: seq<T>, key: T -> string, le: Order): seq<T> {
    if sorted == [] || le(key(x), key(sorted[0])) then [x] + sorted
    else [sorted[0]] + Insert(x, sorted[1..], key, le)
  }

  function Sort<T>(xs: seq<T>, key: T -> string, le: Order): seq<T> {
    if xs == [] then [] else Insert(xs[0], Sort(xs[1..], key, le), key, le)
  }

  /** Every element once, in the order of first occurrence. */
  function Dedupe<T(==)>(xs: seq<T>): seq<T> {
    if xs == [] then []
    else
      var before := Dedupe(xs[..|xs| - 1]);
      if xs[|xs| - 1] in before then before else before + [xs[|xs| - 1]]
  }

  ghost predicate Sorted<T>(xs: seq<T>, key: T -> string, le: Order) {
    forall i, j | 0 <= i < j < |xs| :: le(key(xs[i]), key(xs[j]))
  }

  ghost predicate DistinctKeys<T>(xs: seq<T>, key: T -> string) {
    forall i, j | 0 <= i < j < |xs| :: key(xs[i]) != key(xs[j])
  }

  ghost function IndexOf<T>(xs: seq<T>, x: T): (i: nat)
    requires x in xs
    ensures i < |xs| && xs[i] == x
  {
    if xs[0] == x then 0 else 1 + IndexOf(xs[1..], x)
  }

  lemma {:induction false} InsertKeepsMembers<T>(x: T, xs: seq<T>, key: T -> string, le: Order)
    ensures multiset(Insert(x, xs, key, le)) == multiset{x} + multiset(xs)
  {
    if xs != [] && !le(key(x), key(xs[0])) {
      InsertKeepsMembers(x, xs[1..], key, le);
      assert xs == [xs[0]] + xs[1..];
    }
  }

  /** An element in front of a sorted sequence that it is not above. */
  lemma SortedBehind<T>(first: T, tail: seq<T>, key: T -> string, le: Order)
    requires Sorted(tail, key, le) && forall y | y in tail :: le(key(first), key(y))
    ensures Sorted([first] + tail, key, le)
  {
  }

  lemma {:induction false} InsertSorts<T>(x: T, sorted: seq<T>, key: T -> string, le: Order)
    requires IsTotal(le) && Sorted(sorted, key, le)
    ensures Sorted(Insert(x, sorted, key, le), key, le)
  {
    if sorted != [] && !le(key(x), key(sorted[0])) {
      InsertSorts(x, sorted[1..], key, le);
      var tail := Insert(x, sorted[1..], key, le);
      InsertKeepsMembers(x, sorted[1..], key, le);
      forall y | y in tail ensures le(key(sorted[0]), key(y)) {
        assert y in multiset(tail);
        if y != x {
          var i := IndexOf(sorted[1..], y);
          assert sorted[i + 1] == y;
        }
      }
      SortedBehind(sorted[0], tail, key, le);
    }
  }

  /** Sorting orders the elements and keeps each as often as it was there. */
  lemma {:induction false} SortSorts<T>(xs: seq<T>, key: T -> string, le: Order)
    requires IsTotal(le)
    ensures Sorted(Sort(xs, key, le), key, le)
    ensures multiset(Sort(xs, key, le)) == multiset(xs)
  {
    if xs == [] {
    } else {
      SortSorts(xs[1..], key, le);
      InsertSorts(xs[0], Sort(xs[1..], key, le), key, le);
      InsertKeepsMembers(xs[0], Sort(xs[1..], key, le), key, le);
      assert xs == [xs[0]] + xs[1..];
    }
  }

  lemma SortMembers<T>(xs: seq<T>, key: T -> string, le: Order)
    requires IsTotal(le)
    ensures |Sort(xs, key, le)| == |xs|
    ensures forall x :: x in Sort(xs, key, le) <==> x in xs
  {
    SortSorts(xs, key, le);
    assert |multiset(Sort(xs, key, le))| == |multiset(xs)|;
    forall x ensures x in Sort(xs, key, le) <==> x in xs {
      assert x in multiset(Sort(xs, key, le)) <==> x in multiset(xs);
    }
  }

  lemma {:induction false} SortOfSorted<T>(xs: seq<T>, key: T -> string, le: Order)
    requires IsTotal(le) && Sorted(xs, key, le)
    ensures Sort(xs, key, le) == xs
  {
    if xs == [] {
    } else {
      SortOfSorted(xs[1..], key, le);
      assert xs == [xs[0]] + xs[1..];
    }
  }

  lemma SomeMember<T>(xs: seq<T>)
    requires xs != []
    ensures exists x :: x in xs
  {
    assert xs[0] in xs;
  }

  lemma HeadIsNotInTail<T>(xs: seq<T>, key: T -> string, x: T)
    requires DistinctKeys(xs, key) && xs != [] && x in xs[1..]
    ensures x != xs[0]
  {
    var i :| 0 <= i < |xs[1..]| && xs[1..][i] == x;
    assert xs[i + 1] == x;
  }

  /** With distinct keys there is only one sorted sequence of given elements. */
  lemma {:induction false} SortedIsUnique<T>(xs: seq<T>, ys: seq<T>, key: T -> string, le: Order)
    requires IsTotal(le) && Sorted(xs, key, le) && Sorted(ys, key, le)
    requires DistinctKeys(xs, key) && DistinctKeys(ys, key)
    requires forall x :: x in xs <==> x in ys
    ensures xs == ys
  {
    if xs == [] {
      if ys != [] {
        SomeMember(ys);
        assert false;
      }
    } else {
      assert xs[0] in ys;
      assert ys[0] in xs;
      var i :| 0 <= i < |ys| && ys[i] == xs[0];
      var j :| 0 <= j < |xs| && xs[j] == ys[0];
      assert le(key(xs[0]), key(ys[0])) && le(key(ys[0]), key(xs[0]));
      assert xs[0] == ys[0];
      forall x ensures x in xs[1..] <==> x in ys[1..] {
        if x in xs[1..] { HeadIsNotInTail(xs, key, x); assert x in ys; }
        if x in ys[1..] { HeadIsNotInTail(ys, key, x); assert x in xs; }
      }
      SortedIsUnique(xs[1..], ys[1..], key, le);
      assert xs == [xs[0]] + xs[1..];
    }
  }

  lemma {:induction false} InsertKeepsDistinctKeys<T>(x: T, xs: seq<T>, key: T -> string, le: Order)
    requires DistinctKeys(xs, key) && forall y | y in xs :: key(y) != key(x)
    ensures DistinctKeys(Insert(x, xs, key, le), key)
    ensures forall y :: y in Insert(x, xs, key, le) <==> y == x || y in xs
  {
    if xs != [] && !le(key(x), key(xs[0])) {
      InsertKeepsDistinctKeys(x, xs[1..], key, le);
      assert xs == [xs[0]] + xs[1..];
      var tail := Insert(x, xs[1..], key, le);
      forall i | 0 <= i < |tail| ensures key(tail[i]) != key(xs[0]) {
        assert tail[i] in tail && xs[0] in xs;
        if tail[i] != x {
          var j := IndexOf(xs[1..], tail[i]);
          assert xs[j + 1] == tail[i];
        }
      }
    }
  }

  lemma {:induction false} SortKeepsDistinctKeys<T>(xs: seq<T>, key: T -> string, le: Order)
    requires DistinctKeys(xs, key)
    ensures DistinctKeys(Sort(xs, key, le), key)
    ensures forall x :: x in Sort(xs, key, le) <==> x in xs
  {
    if xs == [] {
    } else {
      var tail := xs[1..];
      var sorted := Sort(tail, key, le);
      SortKeepsDistinctKeys(tail, key, le);
      assert forall y :: y in sorted <==> y in tail;
      forall y | y in sorted ensures key(y) != key(xs[0]) {
        var i := IndexOf(tail, y);
        assert xs[i + 1] == y;
      }
      InsertKeepsDistinctKeys(xs[0], sorted, key, le);
      assert xs == [xs[0]] + tail;
    }
  }

  /** Sorting does not depend on the order in which distinct keys arrive. */
  lemma SortIsCanonical<T>(xs: seq<T>, ys: seq<T>, key: T -> string, le: Order)
    requires IsTotal(le)
    requires DistinctKeys(xs, key) && DistinctKeys(ys, key)
    requires forall x :: x in xs <==> x in ys
    ensures Sort(xs, key, le) == Sort(ys, key, le)
  {
    SortKeepsDistinctKeys(xs, key, le);
    SortKeepsDistinctKeys(ys, key, le);
    SortSorts(xs, key, le);
    SortSorts(ys, key, le);
    SortMembers(xs, key, le);
    SortMembers(ys, key, le);
    SortedIsUnique(Sort(xs, key, le), Sort(ys, key, le), key, le);
  }

  lemma {:induction false} DedupeMembers<T>(xs: seq<T>)
    ensures forall x :: x in Dedupe(xs) <==> x in xs
    ensures forall i, j | 0 <= i < j < |Dedupe(xs)| :: Dedupe(xs)[i] != Dedupe(xs)[j]
  {
    if xs == [] {
    } else {
      DedupeMembers(xs[..|xs| - 1]);
      assert xs == xs[..|xs| - 1] + [xs[|xs| - 1]];
    }
  }

  /** `[...new Set(xs)].toSorted(...)` */
  function SortedSet(xs: seq<string>, le: Order): seq<string> {
    Sort(Dedupe(xs), (x: string) => x, le)
  }

  /** Two lists give the same sorted set exactly when they have the same members. */
  lemma SortedSetIsCanonical(xs: seq<string>, ys: seq<string>, le: Order)
    requires IsTotal(le)
    ensures SortedSet(xs, le) == SortedSet(ys, le) <==> forall x :: x in xs <==> x in ys
    ensures forall x :: x in SortedSet(xs, le) <==> x in xs
  {
    var id := (x: string) => x;
    DedupeMembers(xs);
    DedupeMembers(ys);
    SortMembers(Dedupe(xs), id, le);
    SortMembers(Dedupe(ys), id, le);
    if forall x :: x in xs <==> x in ys {
      assert forall x :: x in Dedupe(xs) <==> x in Dedupe(ys);
      SortIsCanonical(Dedupe(xs), Dedupe(ys), id, le);
    }
    if SortedSet(xs, le) == SortedSet(ys, le) {
      forall x ensures x in xs <==> x in ys {
        assert x in SortedSet(xs, le) <==> x in Dedupe(xs);
        assert x in SortedSet(ys, le) <==> x in Dedupe(ys);
      }
    }
  }

  lemma {:induction false} CodeOrderIsTotalOn(a: string, b: string, c: string)
    ensures CodeOrder(a, b) || CodeOrder(b, a)
    ensures CodeOrder(a, b) && CodeOrder(b, a) ==> a == b
    ensures CodeOrder(a, b) && CodeOrder(b, c) ==> CodeOrder(a, c)
  {
    if a != "" && b != "" {
      CodeOrderIsTotalOn(a[1..], b[1..], if c != "" then c[1..] else c);
      assert a == [a[0]] + a[1..] && b == [b[0]] + b[1..];
    }
  }

  lemma CodeOrderIsTotal()
    ensures IsTotal(CodeOrder)
  {
    forall a, b, c
      ensures CodeOrder(a, b) || CodeOrder(b, a)
      ensures CodeOrder(a, b) && CodeOrder(b, a) ==> a == b
      ensures CodeOrder(a, b) && CodeOrder(b, c) ==> CodeOrder(a, c)
    {
      CodeOrderIsTotalOn(a, b, c);
    }
  }
}
