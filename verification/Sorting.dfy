/**
 The contract of `Array.prototype.sort` with a comparator (sections 23.1.3.30 and 23.1.3.30.2
 of ECMA-262): the result is implementation-defined unless the comparator is consistent, and
 is the stable sort when it is.
 */
module Sorting {
  import opened Lists

  ghost predicate Consistent<T(!new)>(cmp: (T, T) -> int) {
    && (forall a :: cmp(a, a) == 0)
    && (forall a, b :: cmp(a, b) < 0 <==> cmp(b, a) > 0)
    && (forall a, b, c :: cmp(a, b) <= 0 && cmp(b, c) <= 0 ==> cmp(a, c) <= 0)
  }

  ghost predicate Ordered<T>(s: seq<T>, cmp: (T, T) -> int) {
    forall i, j :: 0 <= i < j < |s| ==> cmp(s[i], s[j]) <= 0
  }

  /** The elements of s that tie with x, in the order in which they occur. */
  function Ties<T>(s: seq<T>, x: T, cmp: (T, T) -> int): seq<T> {
    if s == [] then []
    else if cmp(s[0], x) == 0 then [s[0]] + Ties(s[1..], x, cmp)
    else Ties(s[1..], x, cmp)
  }

  /** out is the stable sort of s: in order, and every class of tied elements kept as it was. */
  ghost predicate StableSort<T(!new)>(s: seq<T>, out: seq<T>, cmp: (T, T) -> int) {
    && Ordered(out, cmp)
    && multiset(out) == multiset(s)
    && forall x :: Ties(out, x, cmp) == Ties(s, x, cmp)
  }

  function Insert<T>(x: T, s: seq<T>, cmp: (T, T) -> int): seq<T> {
    if s == [] || cmp(x, s[0]) <= 0 then [x] + s else [s[0]] + Insert(x, s[1..], cmp)
  }

  function Sort<T>(s: seq<T>, cmp: (T, T) -> int): seq<T> {
    if s == [] then [] else Insert(s[0], Sort(s[1..], cmp), cmp)
  }

  lemma {:induction false} InsertElements<T>(x: T, s: seq<T>, cmp: (T, T) -> int)
    ensures multiset(Insert(x, s, cmp)) == multiset{x} + multiset(s)
  {
    if s == [] || cmp(x, s[0]) <= 0 {
    } else {
      InsertElements(x, s[1..], cmp);
      assert s == [s[0]] + s[1..];
    }
  }

  lemma {:induction false} InsertMembers<T>(x: T, s: seq<T>, cmp: (T, T) -> int)
    ensures forall y :: y in Insert(x, s, cmp) ==> y == x || y in s
  {
    if s == [] || cmp(x, s[0]) <= 0 {
    } else {
      InsertMembers(x, s[1..], cmp);
    }
  }

  lemma OrderedCons<T(!new)>(x: T, s: seq<T>, cmp: (T, T) -> int)
    requires Ordered(s, cmp) && forall y :: y in s ==> cmp(x, y) <= 0
    ensures Ordered([x] + s, cmp)
  {
    forall i, j | 0 <= i < j < |[x] + s| ensures cmp(([x] + s)[i], ([x] + s)[j]) <= 0 {
      assert ([x] + s)[j] == s[j - 1];
      assert i > 0 ==> ([x] + s)[i] == s[i - 1];
    }
  }

  lemma {:induction false} InsertKeepsOrder<T(!new)>(x: T, s: seq<T>, cmp: (T, T) -> int)
    requires Consistent(cmp) && Ordered(s, cmp)
    ensures Ordered(Insert(x, s, cmp), cmp)
  {
    if s == [] {
    } else if cmp(x, s[0]) <= 0 {
      forall y | y in s ensures cmp(x, y) <= 0 {
        HeadFirst(s, y, cmp);
      }
      OrderedCons(x, s, cmp);
    } else {
      InsertKeepsOrder(x, s[1..], cmp);
      InsertMembers(x, s[1..], cmp);
      forall y | y in Insert(x, s[1..], cmp) ensures cmp(s[0], y) <= 0 {
        if y in s[1..] {
          HeadFirst(s, y, cmp);
        }
      }
      OrderedCons(s[0], Insert(x, s[1..], cmp), cmp);
    }
  }

  lemma HeadFirst<T(!new)>(s: seq<T>, y: T, cmp: (T, T) -> int)
    requires Consistent(cmp) && Ordered(s, cmp) && y in s
    ensures cmp(s[0], y) <= 0
  {
    var k :| 0 <= k < |s| && s[k] == y;
    if k > 0 {
      assert cmp(s[0], s[k]) <= 0;
    }
  }

  lemma {:induction false} InsertTies<T(!new)>(x: T, s: seq<T>, y: T, cmp: (T, T) -> int)
    requires Consistent(cmp) && Ordered(s, cmp)
    ensures Ties(Insert(x, s, cmp), y, cmp) == Ties([x] + s, y, cmp)
  {
    assert ([x] + s)[1..] == s;
    if s == [] || cmp(x, s[0]) <= 0 {
    } else {
      InsertTies(x, s[1..], y, cmp);
      var tail := Insert(x, s[1..], cmp);
      assert ([s[0]] + tail)[1..] == tail;
      assert ([x] + s[1..])[1..] == s[1..];
      assert !(cmp(s[0], y) == 0 && cmp(x, y) == 0);
    }
  }

  lemma {:induction false} SortOrders<T(!new)>(s: seq<T>, cmp: (T, T) -> int)
    requires Consistent(cmp)
    ensures Ordered(Sort(s, cmp), cmp)
    ensures multiset(Sort(s, cmp)) == multiset(s)
  {
    if s != [] {
      SortOrders(s[1..], cmp);
      InsertKeepsOrder(s[0], Sort(s[1..], cmp), cmp);
      InsertElements(s[0], Sort(s[1..], cmp), cmp);
      assert s == [s[0]] + s[1..];
    }
  }

  lemma {:induction false} SortKeepsTies<T(!new)>(s: seq<T>, y: T, cmp: (T, T) -> int)
    requires Consistent(cmp)
    ensures Ties(Sort(s, cmp), y, cmp) == Ties(s, y, cmp)
  {
    if s != [] {
      var rest := Sort(s[1..], cmp);
      SortOrders(s[1..], cmp);
      SortKeepsTies(s[1..], y, cmp);
      InsertTies(s[0], rest, y, cmp);
      assert ([s[0]] + rest)[1..] == rest;
    }
  }

  lemma SortIsStableSort<T(!new)>(s: seq<T>, cmp: (T, T) -> int)
    requires Consistent(cmp)
    ensures StableSort(s, Sort(s, cmp), cmp)
  {
    SortOrders(s, cmp);
    forall y ensures Ties(Sort(s, cmp), y, cmp) == Ties(s, y, cmp) {
      SortKeepsTies(s, y, cmp);
    }
  }

  lemma {:induction false} TiesComplete<T(!new)>(s: seq<T>, x: T, cmp: (T, T) -> int)
    ensures forall y :: y in Ties(s, x, cmp) <==> y in s && cmp(y, x) == 0
  {
    if s != [] {
      TiesComplete(s[1..], x, cmp);
      assert s == [s[0]] + s[1..];
    }
  }

  lemma SameTiesNonEmpty<T(!new)>(a: seq<T>, b: seq<T>, cmp: (T, T) -> int)
    requires Consistent(cmp) && a != []
    requires forall x :: Ties(a, x, cmp) == Ties(b, x, cmp)
    ensures b != []
  {
    TiesComplete(a, a[0], cmp);
    assert a[0] in Ties(b, a[0], cmp);
  }

  /** A consistent comparator leaves only one possible answer, whatever the algorithm. */
  lemma {:induction false} StableSortIsUnique<T(!new)>(a: seq<T>, b: seq<T>, cmp: (T, T) -> int)
    requires Consistent(cmp) && Ordered(a, cmp) && Ordered(b, cmp)
    requires forall x :: Ties(a, x, cmp) == Ties(b, x, cmp)
    ensures a == b
  {
    if a == [] {
      if b != [] {
        SameTiesNonEmpty(b, a, cmp);
      }
    } else {
      SameTiesNonEmpty(a, b, cmp);
      HeadsAgree(a, b, cmp);
      forall x ensures Ties(a[1..], x, cmp) == Ties(b[1..], x, cmp) {
        assert Ties(a, x, cmp) == Ties(b, x, cmp);
        if cmp(a[0], x) == 0 {
          assert Ties(a[1..], x, cmp) == Ties(a, x, cmp)[1..];
          assert Ties(b[1..], x, cmp) == Ties(b, x, cmp)[1..];
        }
      }
      StableSortIsUnique(a[1..], b[1..], cmp);
    }
  }

  lemma HeadsAgree<T(!new)>(a: seq<T>, b: seq<T>, cmp: (T, T) -> int)
    requires Consistent(cmp) && Ordered(a, cmp) && Ordered(b, cmp) && a != [] && b != []
    requires forall x :: Ties(a, x, cmp) == Ties(b, x, cmp)
    ensures a[0] == b[0]
  {
    HeadBelow(a, b, cmp);
    HeadBelow(b, a, cmp);
    assert cmp(a[0], b[0]) == 0;
    assert Ties(a, a[0], cmp)[0] == a[0] && Ties(b, a[0], cmp)[0] == b[0];
  }

  lemma HeadBelow<T(!new)>(a: seq<T>, b: seq<T>, cmp: (T, T) -> int)
    requires Consistent(cmp) && Ordered(a, cmp) && a != [] && b != []
    requires forall x :: Ties(a, x, cmp) == Ties(b, x, cmp)
    ensures cmp(a[0], b[0]) <= 0
  {
    TiesComplete(b, b[0], cmp);
    TiesComplete(a, b[0], cmp);
    assert b[0] in Ties(a, b[0], cmp);
    var k :| 0 <= k < |a| && a[k] == b[0];
    assert k == 0 || cmp(a[0], a[k]) <= 0;
  }

  /** The part of a total order that makes sorted lists unique. */
  ghost predicate Antisymmetric<T(!new)>(cmp: (T, T) -> int) {
    && (forall x :: cmp(x, x) == 0)
    && (forall x, y :: cmp(x, y) <= 0 && cmp(y, x) <= 0 ==> x == y)
  }

  lemma FirstIsLeast<T(!new)>(s: seq<T>, x: T, cmp: (T, T) -> int)
    requires Antisymmetric(cmp) && Ordered(s, cmp) && x in s
    ensures cmp(s[0], x) <= 0
  {
    var k :| 0 <= k < |s| && s[k] == x;
    assert k == 0 || cmp(s[0], s[k]) <= 0;
  }

  lemma TailMultiset<T>(a: seq<T>, b: seq<T>)
    requires a != [] && b != [] && a[0] == b[0] && multiset(a) == multiset(b)
    ensures multiset(a[1..]) == multiset(b[1..])
  {
    assert a == [a[0]] + a[1..] && b == [b[0]] + b[1..];
    assert multiset(a[1..]) == multiset(a) - multiset{a[0]};
    assert multiset(b[1..]) == multiset(b) - multiset{b[0]};
  }

  /** Where ties are equalities, the order alone fixes the result. */
  lemma {:induction false} OrderedIsUnique<T(!new)>(a: seq<T>, b: seq<T>, cmp: (T, T) -> int)
    requires Antisymmetric(cmp)
    requires Ordered(a, cmp) && Ordered(b, cmp) && multiset(a) == multiset(b)
    ensures a == b
  {
    assert |a| == |multiset(a)| == |multiset(b)| == |b|;
    if a != [] {
      assert a[0] == b[0] by {
        assert a[0] in multiset(b) && b[0] in multiset(a);
        FirstIsLeast(a, b[0], cmp);
        FirstIsLeast(b, a[0], cmp);
      }
      TailMultiset(a, b);
      OrderedIsUnique(a[1..], b[1..], cmp);
    }
  }

  lemma OrderedEnds<T>(s: seq<T>, x: T, cmp: (T, T) -> int)
    requires Ordered(s, cmp) && x in s && cmp(x, x) == 0
    ensures cmp(s[0], x) <= 0 && cmp(x, s[|s| - 1]) <= 0
  {
    var k :| 0 <= k < |s| && s[k] == x;
    assert k == 0 || cmp(s[0], s[k]) <= 0;
    assert k == |s| - 1 || cmp(s[k], s[|s| - 1]) <= 0;
  }

  lemma {:induction false} FirstTie<T>(s: seq<T>, x: T, cmp: (T, T) -> int, k: nat)
    requires k < |s| && cmp(s[k], x) == 0 && forall i :: 0 <= i < k ==> cmp(s[i], x) != 0
    ensures Ties(s, x, cmp) != [] && Ties(s, x, cmp)[0] == s[k]
  {
    if k > 0 {
      FirstTie(s[1..], x, cmp, k - 1);
    }
  }

  /** The first of the least elements comes out first. */
  lemma FirstLeastLeads<T(!new)>(s: seq<T>, out: seq<T>, k: nat, cmp: (T, T) -> int)
    requires StableSort(s, out, cmp) && k < |s| && cmp(s[k], s[k]) == 0
    requires forall i :: 0 <= i < |s| ==> cmp(s[k], s[i]) <= 0
    requires forall i :: 0 <= i < |s| && cmp(s[i], s[k]) <= 0 && cmp(s[k], s[i]) <= 0 ==> cmp(s[i], s[k]) == 0
    requires forall i :: 0 <= i < k ==> cmp(s[i], s[k]) != 0
    ensures out != [] && out[0] == s[k]
  {
    assert s[k] in multiset(out);
    OrderedEnds(out, s[k], cmp);
    assert out[0] in multiset(s);
    var i :| 0 <= i < |s| && s[i] == out[0];
    assert cmp(out[0], s[k]) == 0;
    FirstTie(s, s[k], cmp, k);
    FirstTie(out, s[k], cmp, 0);
    assert Ties(out, s[k], cmp) == Ties(s, s[k], cmp);
  }
}
