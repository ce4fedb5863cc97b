/** Facts about sequences that several components share. */
module Lists {

  datatype Option<+T> = None | Some(value: T)

  function RemoveAt<T>(s: seq<T>, i: nat): seq<T>
    requires i < |s|
  {
    s[..i] + s[i + 1..]
  }

  /** No value occurs twice. */
  ghost predicate Distinct<T>(s: seq<T>) {
    forall i, j :: 0 <= i < j < |s| ==> s[i] != s[j]
  }

  /** `new Set(s)`. */
  function Elements<T>(s: seq<T>): set<T> {
    set x | x in s
  }

  /** `new Set(s).size === s.length` is the page's test for "no duplicates"; it is exact. */
  lemma {:induction false} SizeTestIsDistinct<T>(s: seq<T>)
    ensures |Elements(s)| <= |s|
    ensures |Elements(s)| == |s| <==> Distinct(s)
  {
    if s == [] {
      assert Elements(s) == {};
    } else {
      var front, last := s[..|s| - 1], s[|s| - 1];
      SizeTestIsDistinct(front);
      assert s == front + [last];
      assert Elements(s) == Elements(front) + {last};
      if last in front {
        assert Elements(s) == Elements(front);
        var i :| 0 <= i < |front| && front[i] == last;
        assert s[i] == s[|s| - 1];
      } else if Distinct(front) {
        forall i, j | 0 <= i < j < |s| ensures s[i] != s[j] {
          assert s[i] == front[i];
        }
      } else {
        var i, j :| 0 <= i < j < |front| && front[i] == front[j];
        assert s[i] == s[j];
      }
    }
  }

  /** In a list without duplicates every value counts at most once. */
  lemma {:induction false} DistinctMultiplicity<T>(s: seq<T>, x: T)
    requires Distinct(s)
    ensures multiset(s)[x] == if x in s then 1 else 0
  {
    if s != [] {
      assert s == [s[0]] + s[1..];
      DistinctMultiplicity(s[1..], x);
      if x == s[0] {
        assert x !in s[1..];
      }
    }
  }

  /** Two duplicate-free lists of one length, one inside the other, are permutations of each other. */
  lemma {:induction false} SameSizeInclusion<T>(s: seq<T>, t: seq<T>)
    requires Distinct(s) && Distinct(t) && |s| == |t|
    requires forall x :: x in s ==> x in t
    ensures multiset(s) == multiset(t)
  {
    SizeTestIsDistinct(s);
    SizeTestIsDistinct(t);
    assert Elements(s) <= Elements(t);
    SubsetOfSameSize(Elements(s), Elements(t));
    forall x ensures multiset(s)[x] == multiset(t)[x] {
      DistinctMultiplicity(s, x);
      DistinctMultiplicity(t, x);
      assert x in s <==> x in Elements(s);
      assert x in t <==> x in Elements(t);
    }
  }

  lemma SubsetOfSameSize<T>(a: set<T>, b: set<T>)
    requires a <= b && |a| == |b|
    ensures a == b
  {
    assert |b| == |a| + |b - a| by { assert b == a + (b - a); }
  }

  /** Being duplicate-free only depends on the multiset of elements. */
  lemma DistinctOfPermutation<T>(s: seq<T>, t: seq<T>)
    requires multiset(s) == multiset(t) && Distinct(s)
    ensures Distinct(t)
  {
    SizeTestIsDistinct(s);
    SizeTestIsDistinct(t);
    assert |s| == |multiset(s)| == |multiset(t)| == |t|;
    assert Elements(s) == Elements(t) by {
      forall x ensures x in s <==> x in t {
        assert x in s <==> x in multiset(s);
        assert x in t <==> x in multiset(t);
      }
    }
  }

  lemma SubsetSize<T>(a: set<T>, b: set<T>)
    requires a <= b
    ensures |a| <= |b|
  {
    assert b == a + (b - a);
  }

  function Reverse<T>(s: seq<T>): (r: seq<T>)
    ensures |r| == |s|
    ensures forall i :: 0 <= i < |s| ==> r[i] == s[|s| - 1 - i]
  {
    if s == [] then [] else Reverse(s[1..]) + [s[0]]
  }

  lemma {:induction false} ReverseMultiset<T>(s: seq<T>)
    ensures multiset(Reverse(s)) == multiset(s)
  {
    if s != [] {
      ReverseMultiset(s[1..]);
      assert s == [s[0]] + s[1..];
    }
  }
}
