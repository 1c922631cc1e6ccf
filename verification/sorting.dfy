/**
 * `Array.prototype.sort(comparefn)` (ECMA-262, 2023, section 23.1.3.30):
 * the standard requires a stable sort, and when the comparator is
 * consistent the result is fully determined. `SortBy` is a stable
 * insertion sort that serves as the reference definition; the lemmas show
 * that it returns a sorted permutation in which equal elements keep their
 * input order, and that it is the only sequence with those properties.
 */
module Sorting {
  import opened Js
  import opened Lists

  /** The sign of a comparator result. */
  function Sign(x: real): int
  {
    if x < 0.0 then -1 else if x > 0.0 then 1 else 0
  }

  /** `a` may stay before `b`: the comparator does not put `a` after `b`. */
  predicate Le<T>(cmp: (T, T) -> real, a: T, b: T)
  {
    cmp(a, b) <= 0.0
  }

  /**
   * A consistent comparator in the sense of ECMA-262: swapping the
   * arguments flips the sign, and "not after" is transitive.
   */
  ghost predicate Consistent<T(!new)>(cmp: (T, T) -> real)
  {
    && (forall a, b {:trigger Le(cmp, a, b)} :: Sign(cmp(a, b)) == -Sign(cmp(b, a)))
    && (forall a, b, c {:trigger Le(cmp, a, b), Le(cmp, b, c)} ::
          Le(cmp, a, b) && Le(cmp, b, c) ==> Le(cmp, a, c))
  }

  lemma Flip<T(!new)>(cmp: (T, T) -> real, a: T, b: T)
    requires Consistent(cmp)
    ensures Sign(cmp(a, b)) == -Sign(cmp(b, a))
  {
    assert Le(cmp, a, b) || !Le(cmp, a, b);
  }

  lemma Trans<T(!new)>(cmp: (T, T) -> real, a: T, b: T, c: T)
    requires Consistent(cmp)
    requires cmp(a, b) <= 0.0 && cmp(b, c) <= 0.0
    ensures cmp(a, c) <= 0.0
  {
    assert Le(cmp, a, b) && Le(cmp, b, c);
    assert Le(cmp, a, c);
  }

  /** No element is placed after an element the comparator puts after it. */
  ghost predicate Sorted<T>(s: seq<T>, cmp: (T, T) -> real)
  {
    forall i, j :: 0 <= i < j < |s| ==> cmp(s[i], s[j]) <= 0.0
  }

  /** The elements of `s` that compare equal to `z`, in their order in `s`. */
  function ClassOf<T>(s: seq<T>, z: T, cmp: (T, T) -> real): seq<T>
  {
    Filter(s, y => cmp(y, z) == 0.0)
  }

  /** What the standard asks of the result `r` of sorting `s`: sorted, and stable. */
  ghost predicate IsStableSortOf<T(!new)>(r: seq<T>, s: seq<T>, cmp: (T, T) -> real)
  {
    Sorted(r, cmp) && forall z :: ClassOf(r, z, cmp) == ClassOf(s, z, cmp)
  }

  /** Inserts `x` after every trailing element that is not after it. */
  function Insert<T>(x: T, s: seq<T>, cmp: (T, T) -> real): (r: seq<T>)
    ensures |r| == |s| + 1
  {
    if s == [] then [x]
    else if cmp(s[|s| - 1], x) <= 0.0 then s + [x]
    else Insert(x, s[..|s| - 1], cmp) + [s[|s| - 1]]
  }

  /** Stable insertion sort: each element in input order is inserted into the sorted prefix. */
  function SortBy<T>(s: seq<T>, cmp: (T, T) -> real): (r: seq<T>)
    ensures |r| == |s|
  {
    if s == [] then []
    else Insert(s[|s| - 1], SortBy(s[..|s| - 1], cmp), cmp)
  }

  lemma {:induction false} InsertPermutes<T>(x: T, s: seq<T>, cmp: (T, T) -> real)
    ensures multiset(Insert(x, s, cmp)) == multiset(s) + multiset{x}
  {
    if s != [] && cmp(s[|s| - 1], x) > 0.0 {
      InsertPermutes(x, s[..|s| - 1], cmp);
      assert s == s[..|s| - 1] + [s[|s| - 1]];
    }
  }

  /** The result of `SortBy` is a permutation of its input. */
  lemma {:induction false} SortByPermutes<T>(s: seq<T>, cmp: (T, T) -> real)
    ensures multiset(SortBy(s, cmp)) == multiset(s)
  {
    if s != [] {
      SortByPermutes(s[..|s| - 1], cmp);
      InsertPermutes(s[|s| - 1], SortBy(s[..|s| - 1], cmp), cmp);
      assert s == s[..|s| - 1] + [s[|s| - 1]];
    }
  }

  lemma Reflexive<T(!new)>(cmp: (T, T) -> real, a: T)
    requires Consistent(cmp)
    ensures cmp(a, a) == 0.0
  {
    Flip(cmp, a, a);
  }

  lemma {:induction false} InsertSorted<T(!new)>(x: T, s: seq<T>, cmp: (T, T) -> real)
    requires Consistent(cmp) && Sorted(s, cmp)
    ensures Sorted(Insert(x, s, cmp), cmp)
  {
    if s == [] {
    } else {
      var n := |s| - 1;
      var last := s[n];
      if cmp(last, x) <= 0.0 {
        forall i | 0 <= i < |s|
          ensures cmp(s[i], x) <= 0.0
        {
          if i < n {
            Trans(cmp, s[i], last, x);
          }
        }
      } else {
        var init := s[..n];
        InsertSorted(x, init, cmp);
        InsertPermutes(x, init, cmp);
        var t := Insert(x, init, cmp);
        Flip(cmp, last, x);
        forall i | 0 <= i < |t|
          ensures cmp(t[i], last) <= 0.0
        {
          assert t[i] in multiset(t);
          if t[i] != x {
            assert t[i] in multiset(init);
            var k :| 0 <= k < n && init[k] == t[i];
            assert cmp(s[k], s[n]) <= 0.0;
          }
        }
        assert Insert(x, s, cmp) == t + [last];
      }
    }
  }

  /** The result of `SortBy` is sorted. */
  lemma {:induction false} SortBySorted<T(!new)>(s: seq<T>, cmp: (T, T) -> real)
    requires Consistent(cmp)
    ensures Sorted(SortBy(s, cmp), cmp)
  {
    if s != [] {
      SortBySorted(s[..|s| - 1], cmp);
      InsertSorted(s[|s| - 1], SortBy(s[..|s| - 1], cmp), cmp);
    }
  }

  /** An element moved past `last` never overtakes a member of its own class. */
  lemma NotBothInClass<T(!new)>(x: T, last: T, z: T, cmp: (T, T) -> real)
    requires Consistent(cmp) && cmp(last, x) > 0.0
    ensures !(cmp(x, z) == 0.0 && cmp(last, z) == 0.0)
  {
    if cmp(x, z) == 0.0 && cmp(last, z) == 0.0 {
      Flip(cmp, x, z);
      Trans(cmp, last, z, x);
    }
  }

  lemma InsertClassStep<T>(t: seq<T>, init: seq<T>, x: T, last: T, z: T, cmp: (T, T) -> real)
    requires ClassOf(t, z, cmp) == ClassOf(init, z, cmp) + (if cmp(x, z) == 0.0 then [x] else [])
    requires !(cmp(x, z) == 0.0 && cmp(last, z) == 0.0)
    ensures ClassOf(t + [last], z, cmp)
         == ClassOf(init + [last], z, cmp) + (if cmp(x, z) == 0.0 then [x] else [])
  {
    ClassOfSnoc(t, last, z, cmp);
    ClassOfSnoc(init, last, z, cmp);
  }

  lemma {:induction false} InsertClass<T(!new)>(x: T, s: seq<T>, z: T, cmp: (T, T) -> real)
    requires Consistent(cmp)
    ensures ClassOf(Insert(x, s, cmp), z, cmp)
         == ClassOf(s, z, cmp) + (if cmp(x, z) == 0.0 then [x] else [])
  {
    if s == [] {
      ClassOfSnoc(s, x, z, cmp);
      assert Insert(x, s, cmp) == s + [x];
    } else if cmp(s[|s| - 1], x) <= 0.0 {
      ClassOfSnoc(s, x, z, cmp);
    } else {
      var n := |s| - 1;
      var last, init := s[n], s[..n];
      assert s == init + [last];
      InsertClass(x, init, z, cmp);
      NotBothInClass(x, last, z, cmp);
      InsertClassStep(Insert(x, init, cmp), init, x, last, z, cmp);
    }
  }

  /** Elements that compare equal keep their input order: the sort is stable. */
  lemma {:induction false} SortByStable<T(!new)>(s: seq<T>, z: T, cmp: (T, T) -> real)
    requires Consistent(cmp)
    ensures ClassOf(SortBy(s, cmp), z, cmp) == ClassOf(s, z, cmp)
  {
    if s != [] {
      var n := |s| - 1;
      SortByStable(s[..n], z, cmp);
      InsertClass(s[n], SortBy(s[..n], cmp), z, cmp);
      assert s == s[..n] + [s[n]];
      FilterAppend(s[..n], [s[n]], y => cmp(y, z) == 0.0);
      assert [s[n]][..0] == [];
    }
  }

  /** `SortBy` meets what the standard asks of a sort. */
  lemma SortByIsStableSort<T(!new)>(s: seq<T>, cmp: (T, T) -> real)
    requires Consistent(cmp)
    ensures IsStableSortOf(SortBy(s, cmp), s, cmp)
  {
    SortBySorted(s, cmp);
    forall z
      ensures ClassOf(SortBy(s, cmp), z, cmp) == ClassOf(s, z, cmp)
    {
      SortByStable(s, z, cmp);
    }
  }

  lemma ClassOfSnoc<T>(s: seq<T>, x: T, z: T, cmp: (T, T) -> real)
    ensures ClassOf(s + [x], z, cmp) == ClassOf(s, z, cmp) + (if cmp(x, z) == 0.0 then [x] else [])
  {
    FilterAppend(s, [x], y => cmp(y, z) == 0.0);
    assert [x][..0] == [];
  }

  /** The last element of a non-empty sorted sequence is not before any other. */
  lemma LastIsGreatest<T(!new)>(r: seq<T>, i: nat, cmp: (T, T) -> real)
    requires Consistent(cmp) && Sorted(r, cmp) && i < |r|
    ensures cmp(r[i], r[|r| - 1]) <= 0.0
  {
    if i == |r| - 1 {
      Reflexive(cmp, r[i]);
    }
  }

  lemma OwnClassNonEmpty<T(!new)>(r: seq<T>, cmp: (T, T) -> real)
    requires Consistent(cmp) && r != []
    ensures ClassOf(r, r[0], cmp) != []
  {
    Reflexive(cmp, r[0]);
    assert r[0] in ClassOf(r, r[0], cmp);
  }

  /** The last of `r1` occurs in `r2`, so it is not after the last of a sorted `r2`. */
  lemma LastNotAfterLast<T(!new)>(r1: seq<T>, r2: seq<T>, cmp: (T, T) -> real)
    requires Consistent(cmp) && Sorted(r2, cmp) && r1 != [] && r2 != []
    requires ClassOf(r1, r1[|r1| - 1], cmp) == ClassOf(r2, r1[|r1| - 1], cmp)
    ensures cmp(r1[|r1| - 1], r2[|r2| - 1]) <= 0.0
  {
    var x1 := r1[|r1| - 1];
    Reflexive(cmp, x1);
    var c := ClassOf(r2, x1, cmp);
    assert x1 in c;
    var k :| 0 <= k < |c| && c[k] == x1;
    assert c[k] in r2;
    var i2 :| 0 <= i2 < |r2| && r2[i2] == x1;
    LastIsGreatest(r2, i2, cmp);
  }

  /** A sequence ending in `x` has `x` last in its class of `x`'s equals. */
  lemma ClassEndsWith<T>(r: seq<T>, x: T, last: T, cmp: (T, T) -> real)
    requires r != [] && r[|r| - 1] == last && cmp(last, x) == 0.0
    ensures ClassOf(r, x, cmp) == ClassOf(r[..|r| - 1], x, cmp) + [last]
  {
    assert r == r[..|r| - 1] + [last];
    ClassOfSnoc(r[..|r| - 1], last, x, cmp);
  }

  /** Sorted sequences with the same classes end with the same element. */
  lemma SameLast<T(!new)>(r1: seq<T>, r2: seq<T>, cmp: (T, T) -> real)
    requires Consistent(cmp)
    requires Sorted(r1, cmp) && Sorted(r2, cmp) && r1 != [] && r2 != []
    requires forall z :: ClassOf(r1, z, cmp) == ClassOf(r2, z, cmp)
    ensures r1[|r1| - 1] == r2[|r2| - 1]
  {
    var x1, x2 := r1[|r1| - 1], r2[|r2| - 1];
    LastNotAfterLast(r1, r2, cmp);
    LastNotAfterLast(r2, r1, cmp);
    Flip(cmp, x1, x2);
    Reflexive(cmp, x1);
    ClassEndsWith(r1, x1, x1, cmp);
    ClassEndsWith(r2, x1, x2, cmp);
    var w := ClassOf(r1, x1, cmp);
    assert w[|w| - 1] == x1 && w[|w| - 1] == x2;
  }

  /** Dropping the same last element from both sides keeps the classes equal. */
  lemma ClassesOfPrefix<T(!new)>(p1: seq<T>, p2: seq<T>, x: T, cmp: (T, T) -> real)
    requires forall z :: ClassOf(p1 + [x], z, cmp) == ClassOf(p2 + [x], z, cmp)
    ensures forall z :: ClassOf(p1, z, cmp) == ClassOf(p2, z, cmp)
  {
    forall z
      ensures ClassOf(p1, z, cmp) == ClassOf(p2, z, cmp)
    {
      ClassOfSnoc(p1, x, z, cmp);
      ClassOfSnoc(p2, x, z, cmp);
      var tail := if cmp(x, z) == 0.0 then [x] else [];
      var c1, c2 := ClassOf(p1, z, cmp), ClassOf(p2, z, cmp);
      assert c1 + tail == c2 + tail;
      assert c1 == (c1 + tail)[..|c1|];
    }
  }

  /**
   * Two sorted sequences with the same elements in each class of equal
   * elements are the same sequence: a stable sort has only one result.
   */
  lemma {:induction false} StableSortUnique<T(!new)>(r1: seq<T>, r2: seq<T>, cmp: (T, T) -> real)
    requires Consistent(cmp)
    requires Sorted(r1, cmp) && Sorted(r2, cmp)
    requires forall z :: ClassOf(r1, z, cmp) == ClassOf(r2, z, cmp)
    ensures r1 == r2
    decreases |r1| + |r2|
  {
    if r1 == [] || r2 == [] {
      if r1 != [] {
        OwnClassNonEmpty(r1, cmp);
      } else if r2 != [] {
        OwnClassNonEmpty(r2, cmp);
      }
    } else {
      var n1, n2 := |r1| - 1, |r2| - 1;
      SameLast(r1, r2, cmp);
      var x := r1[n1];
      var p1, p2 := r1[..n1], r2[..n2];
      assert r1 == p1 + [x] && r2 == p2 + [x];
      ClassesOfPrefix(p1, p2, x, cmp);
      StableSortUnique(p1, p2, cmp);
    }
  }

  /** `SortBy` gives the one and only stable sort of its input. */
  lemma StableSortIsSortBy<T(!new)>(r: seq<T>, s: seq<T>, cmp: (T, T) -> real)
    requires Consistent(cmp)
    ensures IsStableSortOf(r, s, cmp) <==> r == SortBy(s, cmp)
  {
    SortByIsStableSort(s, cmp);
    if IsStableSortOf(r, s, cmp) {
      StableSortUnique(r, SortBy(s, cmp), cmp);
    }
  }

  /** A sorted sequence is left as it is. */
  lemma {:induction false} SortBySortedIsIdentity<T>(s: seq<T>, cmp: (T, T) -> real)
    requires Sorted(s, cmp)
    ensures SortBy(s, cmp) == s
  {
    if s != [] {
      var n := |s| - 1;
      SortBySortedIsIdentity(s[..n], cmp);
      assert s == s[..n] + [s[n]];
      if n > 0 {
        assert cmp(s[n - 1], s[n]) <= 0.0;
      }
    }
  }

  /** Sorting twice by the same comparator gives the same result as sorting once. */
  lemma SortByIdempotent<T(!new)>(s: seq<T>, cmp: (T, T) -> real)
    requires Consistent(cmp)
    ensures SortBy(SortBy(s, cmp), cmp) == SortBy(s, cmp)
  {
    SortBySorted(s, cmp);
    SortBySortedIsIdentity(SortBy(s, cmp), cmp);
  }

  /** `a.sort(cmp)`: sorts the array object in place, as `SortBy` orders its contents. */
  method SortArray<T>(a: JsArray<T>, cmp: (T, T) -> real)
    modifies a
    ensures a.elems == SortBy(old(a.elems), cmp)
  {
    a.elems := SortBy(a.elems, cmp);
  }
}
