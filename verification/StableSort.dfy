/** std::stable_sort, by its defining properties: an insertion sort, and the proof
    that any other stable sorting of the same sequence gives the same result. */
module StableSort {

  /** Asymmetric, and "not less" is transitive: a strict weak order. */
  ghost predicate StrictWeak<T(!new)>(less: (T, T) -> bool) {
    && (forall a, b :: !(less(a, b) && less(b, a)))
    && (forall a, b, c :: !less(a, b) && !less(b, c) ==> !less(a, c))
  }

  /** The same among the elements of s. */
  ghost predicate StrictWeakOn<T(!new)>(s: seq<T>, less: (T, T) -> bool) {
    && (forall a, b :: a in s && b in s ==> !(less(a, b) && less(b, a)))
    && (forall a, b, c :: a in s && b in s && c in s && !less(a, b) && !less(b, c) ==> !less(a, c))
  }

  ghost predicate Equivalent<T>(less: (T, T) -> bool, a: T, b: T) {
    !less(a, b) && !less(b, a)
  }

  ghost predicate Sorted<T>(s: seq<T>, less: (T, T) -> bool) {
    forall i, j :: 0 <= i < j < |s| ==> !less(s[j], s[i])
  }

  /** Inserts x behind everything that is not greater. */
  function Insert<T>(s: seq<T>, x: T, less: (T, T) -> bool): seq<T> {
    if s == [] || !less(x, s[|s| - 1]) then s + [x]
    else Insert(s[..|s| - 1], x, less) + [s[|s| - 1]]
  }

  function Sort<T>(s: seq<T>, less: (T, T) -> bool): seq<T> {
    if s == [] then [] else Insert(Sort(s[..|s| - 1], less), s[|s| - 1], less)
  }

  /** The elements equivalent to x, in order. */
  ghost function Class<T>(s: seq<T>, x: T, less: (T, T) -> bool): seq<T> {
    if s == [] then []
    else if Equivalent(less, s[0], x) then [s[0]] + Class(s[1..], x, less)
    else Class(s[1..], x, less)
  }

  lemma {:induction false} ClassConcat<T>(a: seq<T>, b: seq<T>, x: T, less: (T, T) -> bool)
    ensures Class(a + b, x, less) == Class(a, x, less) + Class(b, x, less)
  {
    if a == [] {
      assert a + b == b;
    } else {
      ClassConcat(a[1..], b, x, less);
      assert (a + b)[1..] == a[1..] + b;
    }
  }

  lemma {:induction false} InsertMembers<T(!new)>(s: seq<T>, x: T, less: (T, T) -> bool)
    ensures forall y :: y in Insert(s, x, less) ==> y in s || y == x
    ensures multiset(Insert(s, x, less)) == multiset(s) + multiset{x}
  {
    if s != [] && less(x, s[|s| - 1]) {
      var n := |s| - 1;
      InsertMembers(s[..n], x, less);
      assert s == s[..n] + [s[n]];
    }
  }

  lemma AppendSorted<T(!new)>(s: seq<T>, x: T, less: (T, T) -> bool)
    requires Sorted(s, less) && forall y :: y in s ==> !less(x, y)
    ensures Sorted(s + [x], less)
  {
    assert forall i :: 0 <= i < |s| ==> !less(x, s[i]);
  }

  lemma WeakOnPart<T(!new)>(all: seq<T>, part: seq<T>, less: (T, T) -> bool)
    requires StrictWeakOn(all, less) && forall y :: y in part ==> y in all
    ensures StrictWeakOn(part, less)
  {
  }

  lemma {:induction false} InsertSorted<T(!new)>(s: seq<T>, x: T, less: (T, T) -> bool)
    requires StrictWeakOn(s + [x], less) && Sorted(s, less)
    ensures Sorted(Insert(s, x, less), less)
  {
    var all, n := s + [x], |s| - 1;
    assert x in all && forall y :: y in s ==> y in all;
    if s == [] || !less(x, s[n]) {
      forall y | y in s ensures !less(x, y) {
        var i :| 0 <= i < |s| && s[i] == y;
        assert s[n] in all && !less(x, s[n]) && (i < n ==> !less(s[n], y));
      }
      AppendSorted(s, x, less);
    } else {
      assert s == s[..n] + [s[n]] && s[n] in s;
      WeakOnPart(all, s[..n] + [x], less);
      InsertSorted(s[..n], x, less);
      InsertMembers(s[..n], x, less);
      forall y | y in Insert(s[..n], x, less) ensures !less(s[n], y) {
        assert y in all;
      }
      AppendSorted(Insert(s[..n], x, less), s[n], less);
    }
  }

  /** Sort gives a sorted permutation as soon as the order is a strict weak one on what it sorts. */
  lemma {:induction false} SortSorts<T(!new)>(s: seq<T>, less: (T, T) -> bool)
    requires StrictWeakOn(s, less)
    ensures Sorted(Sort(s, less), less) && multiset(Sort(s, less)) == multiset(s)
    ensures forall x :: x in Sort(s, less) <==> x in s
  {
    if s != [] {
      var n := |s| - 1;
      var t := Sort(s[..n], less);
      assert s == s[..n] + [s[n]];
      SortSorts(s[..n], less);
      assert forall y :: y in t + [s[n]] ==> y in s;
      InsertSorted(t, s[n], less);
      InsertMembers(t, s[n], less);
    }
    assert forall x :: x in Sort(s, less) <==> x in multiset(Sort(s, less));
  }

  /** Elements of which none is less than another keep their places. */
  lemma {:induction false} SortKeepsEquivalent<T(!new)>(s: seq<T>, less: (T, T) -> bool)
    requires forall a, b :: a in s && b in s ==> !less(a, b)
    ensures Sort(s, less) == s
  {
    if s != [] {
      SortKeepsEquivalent(s[..|s| - 1], less);
      assert s == s[..|s| - 1] + [s[|s| - 1]];
    }
  }

  lemma {:induction false} InsertClass<T(!new)>(s: seq<T>, x: T, y: T, less: (T, T) -> bool)
    requires StrictWeak(less)
    ensures Class(Insert(s, x, less), y, less) == Class(s + [x], y, less)
  {
    if s == [] || !less(x, s[|s| - 1]) {
    } else {
      var n := |s| - 1;
      InsertClass(s[..n], x, y, less);
      assert s == s[..n] + [s[n]];
      ClassConcat(s[..n], [x], y, less);
      ClassConcat(Insert(s[..n], x, less), [s[n]], y, less);
      ClassConcat(s[..n], [s[n]], y, less);
      ClassConcat(s, [x], y, less);
    }
  }

  /** Sort keeps equivalent elements in order. */
  lemma {:induction false} SortIsStable<T(!new)>(s: seq<T>, less: (T, T) -> bool)
    requires StrictWeak(less)
    ensures forall x :: Class(Sort(s, less), x, less) == Class(s, x, less)
  {
    if s != [] {
      var n := |s| - 1;
      SortIsStable(s[..n], less);
      assert s == s[..n] + [s[n]];
      forall x ensures Class(Sort(s, less), x, less) == Class(s, x, less) {
        InsertClass(Sort(s[..n], less), s[n], x, less);
        ClassConcat(Sort(s[..n], less), [s[n]], x, less);
        ClassConcat(s[..n], [s[n]], x, less);
      }
    }
  }

  lemma SortIsStableSort<T(!new)>(s: seq<T>, less: (T, T) -> bool)
    requires StrictWeak(less)
    ensures Sorted(Sort(s, less), less) && multiset(Sort(s, less)) == multiset(s)
    ensures forall x :: Class(Sort(s, less), x, less) == Class(s, x, less)
  {
    SortSorts(s, less);
    SortIsStable(s, less);
  }

  lemma {:induction false} ClassMember<T>(s: seq<T>, x: T, less: (T, T) -> bool)
    ensures forall k :: 0 <= k < |Class(s, x, less)| ==>
              Class(s, x, less)[k] in s && Equivalent(less, Class(s, x, less)[k], x)
  {
    if s != [] {
      ClassMember(s[1..], x, less);
    }
  }

  /** There is only one stable sorting. */
  lemma {:induction false} StableSortIsUnique<T(!new)>(r: seq<T>, u: seq<T>, less: (T, T) -> bool)
    requires StrictWeak(less) && Sorted(r, less) && Sorted(u, less)
    requires |r| == |u| && forall x :: Class(r, x, less) == Class(u, x, less)
    ensures r == u
    decreases |r|
  {
    if r != [] {
      var x := r[0];
      assert Class(r, x, less)[0] == x;
      ClassMember(u, x, less);
      assert x in u;
      var y := u[0];
      assert Class(u, y, less)[0] == y;
      ClassMember(r, y, less);
      assert y in r;
      assert !less(x, y) && !less(y, x);
      assert x == y;
      forall z ensures Class(r[1..], z, less) == Class(u[1..], z, less) {
        var tail := Class(r, z, less);
        assert tail == Class(u, z, less);
        if Equivalent(less, x, z) {
          assert tail[1..] == Class(r[1..], z, less);
          assert tail[1..] == Class(u[1..], z, less);
        }
      }
      StableSortIsUnique(r[1..], u[1..], less);
      assert r == [r[0]] + r[1..] && u == [u[0]] + u[1..];
    }
  }
}
