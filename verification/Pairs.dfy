/** Lists of key-value pairs, as search parameters and header fields keep them. */
module Pairs {
  import opened Bytes
  import opened StableSort

  type Pair = (ByteString, ByteString)

  function Erase(list: seq<Pair>, name: ByteString): seq<Pair> {
    if list == [] then []
    else (if list[0].0 == name then [] else [list[0]]) + Erase(list[1..], name)
  }

  function GetAll(list: seq<Pair>, name: ByteString): seq<ByteString> {
    if list == [] then []
    else (if list[0].0 == name then [list[0].1] else []) + GetAll(list[1..], name)
  }

  lemma {:induction false} EraseMeaning(list: seq<Pair>, name: ByteString, other: ByteString)
    ensures GetAll(Erase(list, name), other) == if other == name then [] else GetAll(list, other)
  {
    if list != [] {
      EraseMeaning(list[1..], name, other);
      if list[0].0 == name {
        assert Erase(list, name) == Erase(list[1..], name);
      } else {
        assert Erase(list, name)[1..] == Erase(list[1..], name);
      }
    }
  }

  lemma {:induction false} GetAllConcat(a: seq<Pair>, b: seq<Pair>, name: ByteString)
    ensures GetAll(a + b, name) == GetAll(a, name) + GetAll(b, name)
  {
    if a == [] {
      assert a + b == b;
    } else {
      var first := if a[0].0 == name then [a[0].1] else [];
      GetAllConcat(a[1..], b, name);
      assert (a + b)[1..] == a[1..] + b;
      assert GetAll(a + b, name) == first + (GetAll(a[1..], name) + GetAll(b, name));
      assert GetAll(a, name) == first + GetAll(a[1..], name);
    }
  }

  // ----- the order of keys -----

  /** Byte-wise order of keys. */
  predicate Less(a: ByteString, b: ByteString) {
    b != [] && (a == [] || a[0] < b[0] || (a[0] == b[0] && Less(a[1..], b[1..])))
  }

  lemma {:induction false} LessOrder(a: ByteString, b: ByteString, c: ByteString)
    ensures !(Less(a, b) && Less(b, a))
    ensures !Less(a, b) && !Less(b, c) ==> !Less(a, c)
  {
    if a != [] && b != [] {
      LessOrder(a[1..], b[1..], if c == [] then [] else c[1..]);
    }
  }

  lemma {:induction false} LessTotal(a: ByteString, b: ByteString)
    ensures Less(a, b) || Less(b, a) || a == b
  {
    if a != [] && b != [] {
      LessTotal(a[1..], b[1..]);
      assert a == [a[0]] + a[1..] && b == [b[0]] + b[1..];
    }
  }

  /** The order is the dictionary's: at the first place where the keys differ the smaller byte decides, and
      a key comes before its continuations. */
  lemma {:induction false} LessMeaning(a: ByteString, b: ByteString)
    ensures Less(a, b) <==> exists k: nat :: SmallerAt(a, b, k)
  {
    if a == [] {
      assert b != [] ==> SmallerAt(a, b, 0);
    } else if b == [] {
      assert !Less(a, b);
    } else if a[0] != b[0] {
      assert SmallerAt(a, b, 0) <==> a[0] < b[0];
      forall k: nat | k > 0
        ensures !SmallerAt(a, b, k)
      {
        assert k <= |a| && k < |b| ==> a[..k][0] == a[0] && b[..k][0] == b[0];
      }
    } else {
      LessMeaning(a[1..], b[1..]);
      LessBehind(a, b);
      hide SmallerAt;
      if k: nat :| SmallerAt(a[1..], b[1..], k) {
        assert SmallerAt(a, b, k + 1);
      }
      if k: nat :| SmallerAt(a, b, k) {
        assert SmallerAt(a[1..], b[1..], k - 1);
      }
    }
  }

  /** a and b agree up to k; there a ends and b goes on, or a has the smaller byte. */
  predicate SmallerAt(a: ByteString, b: ByteString, k: nat) {
    k <= |a| && k < |b| && a[..k] == b[..k] && (k == |a| || a[k] < b[k])
  }

  lemma LessBehind(a: ByteString, b: ByteString)
    requires a != [] && b != [] && a[0] == b[0]
    ensures forall k: nat :: k > 0 ==> SmallerAt(a, b, k) == SmallerAt(a[1..], b[1..], k - 1)
    ensures !SmallerAt(a, b, 0)
  {
    forall k: nat | k > 0
      ensures SmallerAt(a, b, k) == SmallerAt(a[1..], b[1..], k - 1)
    {
      if k <= |a| && k < |b| {
        assert a[..k] == [a[0]] + a[1..][..k - 1] && b[..k] == [b[0]] + b[1..][..k - 1];
        assert a[1..][..k - 1] == a[..k][1..] && b[1..][..k - 1] == b[..k][1..];
      }
    }
  }

  predicate KeyLess(p: Pair, q: Pair) {
    Less(p.0, q.0)
  }

  lemma KeyLessIsStrictWeak()
    ensures StrictWeak(KeyLess)
  {
    forall p: Pair, q: Pair, r: Pair
      ensures !(KeyLess(p, q) && KeyLess(q, p)) && (!KeyLess(p, q) && !KeyLess(q, r) ==> !KeyLess(p, r))
    {
      LessOrder(p.0, q.0, r.0);
    }
  }

  /** Sorting by key keeps, for each key, its values in order. */
  lemma SortMeaning(list: seq<Pair>, name: ByteString)
    ensures Sorted(Sort(list, KeyLess), KeyLess) && multiset(Sort(list, KeyLess)) == multiset(list)
    ensures GetAll(Sort(list, KeyLess), name) == GetAll(list, name)
  {
    KeyLessIsStrictWeak();
    SortIsStableSort(list, KeyLess);
    ClassIsGetAll(list, name);
    ClassIsGetAll(Sort(list, KeyLess), name);
  }

  lemma {:induction false} ClassIsGetAll(list: seq<Pair>, name: ByteString)
    ensures var c := Class(list, (name, []), KeyLess);
            |c| == |GetAll(list, name)| && forall k :: 0 <= k < |c| ==> c[k].1 == GetAll(list, name)[k]
  {
    if list != [] {
      ClassIsGetAll(list[1..], name);
      LessTotal(list[0].0, name);
      LessOrder(name, name, name);
    }
  }
}
