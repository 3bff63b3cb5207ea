/** Vocabulary shared by every component model: optional values, results, and
    sequences of distinct elements. */
module Basics {

  datatype Option<+T> = None | Some(value: T)

  datatype Result<+T, +E> = Ok(value: T) | Err(error: E)

  ghost predicate Distinct<T>(s: seq<T>) {
    forall i, j :: 0 <= i < j < |s| ==> s[i] != s[j]
  }

  /** The elements of s that are not in dead, in order. */
  ghost function Without<T(!new)>(s: seq<T>, dead: set<T>): seq<T> {
    if s == [] then []
    else Without(s[..|s| - 1], dead) + if s[|s| - 1] in dead then [] else [s[|s| - 1]]
  }

  lemma {:induction false} WithoutMembers<T(!new)>(s: seq<T>, dead: set<T>)
    ensures forall x :: x in Without(s, dead) <==> x in s && x !in dead
  {
    if s != [] {
      WithoutMembers(s[..|s| - 1], dead);
      assert s == s[..|s| - 1] + [s[|s| - 1]];
    }
  }

  lemma {:induction false} WithoutConcat<T(!new)>(a: seq<T>, b: seq<T>, dead: set<T>)
    ensures Without(a + b, dead) == Without(a, dead) + Without(b, dead)
  {
    if b == [] {
      assert a + b == a;
    } else {
      WithoutConcat(a, b[..|b| - 1], dead);
      assert (a + b)[..|a + b| - 1] == a + b[..|b| - 1];
    }
  }

  lemma {:induction false} WithoutNothing<T(!new)>(s: seq<T>, dead: set<T>)
    requires forall x :: x in s ==> x !in dead
    ensures Without(s, dead) == s
  {
    if s != [] {
      WithoutNothing(s[..|s| - 1], dead);
      assert s == s[..|s| - 1] + [s[|s| - 1]];
    }
  }

  lemma {:induction false} WithoutAll<T(!new)>(s: seq<T>, dead: set<T>)
    requires forall x :: x in s ==> x in dead
    ensures Without(s, dead) == []
  {
    if s != [] {
      WithoutAll(s[..|s| - 1], dead);
    }
  }

  lemma {:induction false} WithoutOne<T(!new)>(s: seq<T>, k: nat)
    requires k < |s| && Distinct(s)
    ensures Without(s, {s[k]}) == s[..k] + s[k + 1..]
  {
    var n := |s| - 1;
    if k == n {
      WithoutNothing(s[..n], {s[k]});
    } else {
      WithoutOne(s[..n], k);
      assert s[..n][..k] == s[..k];
      assert s[..n][k + 1..] + [s[n]] == s[k + 1..];
    }
  }

  lemma {:induction false} WithoutDistinct<T(!new)>(s: seq<T>, dead: set<T>)
    requires Distinct(s)
    ensures Distinct(Without(s, dead))
  {
    if s != [] {
      WithoutDistinct(s[..|s| - 1], dead);
      WithoutMembers(s[..|s| - 1], dead);
    }
  }
}
