/** Comparison of nodes by document order, and the sets of nodes built on it. */
module DocumentOrder {
  import opened Basics
  import opened Dom
  import opened StableSort

  /** A node of one of several documents. */
  datatype Ref = Ref(doc: nat, path: Path)

  /** The node and its ancestors, the root last. */
  function Ancestors(n: Ref): (r: seq<Ref>)
    ensures |r| == |n.path| + 1
    ensures forall k :: 0 <= k < |r| ==> r[k] == Ref(n.doc, n.path[..|n.path| - k])
    decreases |n.path|
  {
    if n.path == [] then [n] else [n] + Ancestors(Ref(n.doc, Parent(n.path)))
  }

  method AncestorChain(n: Ref) returns (chain: seq<Ref>)
    ensures chain == Ancestors(n)
  {
    chain := [];
    var p := Some(n);
    assert n.path[..|n.path|] == n.path;
    while p.Some?
      invariant |chain| <= |n.path| + 1
      invariant forall k :: 0 <= k < |chain| ==> chain[k] == Ref(n.doc, n.path[..|n.path| - k])
      invariant p == if |chain| == |n.path| + 1 then None else Some(Ref(n.doc, n.path[..|n.path| - |chain|]))
      decreases |n.path| + 1 - |chain|
    {
      chain := chain + [p.value];
      if p.value.path == [] {
        p := None;
      } else {
        assert Parent(p.value.path) == n.path[..|n.path| - |chain|];
        p := Some(Ref(p.value.doc, Parent(p.value.path)));
      }
    }
  }

  lemma FirstStep(a: Path, b: Path)
    ensures a == [] && b != [] ==> Before(a, b)
    ensures a != [] && b != [] && a[0] != b[0] ==> (Before(a, b) <==> a[0] < b[0])
  {
  }

  /** The order of two paths that agree on their first n - 1 steps and no further:
      an ancestor comes first, else the siblings at step n decide. */
  lemma {:induction false} DecideOrder(a: Path, b: Path, n: nat)
    requires 0 < n <= |a| + 1 && n <= |b| + 1 && a != b && a[..n - 1] == b[..n - 1]
    requires n <= |a| && n <= |b| ==> a[..n] != b[..n]
    ensures Before(a, b) <==> !Before(b, a)
    ensures n == |a| + 1 ==> Before(a, b)
    ensures n == |b| + 1 ==> Before(b, a)
    ensures n <= |a| && n <= |b| ==>
              && Parent(a[..n]) == Parent(b[..n])
              && (Last(b[..n]) < Last(a[..n]) <==> Before(b, a))
  {
    hide Before;
    var p, x, y := a[..n - 1], a[n - 1..], b[n - 1..];
    assert a == p + x && b == p + y;
    BeforeUnder(p, x, y);
    BeforeUnder(p, y, x);
    BeforeStrict(x, y);
    FirstStep(x, y);
    FirstStep(y, x);
    if n <= |a| && n <= |b| {
      assert a[..n] == p + [a[n - 1]] && b[..n] == p + [b[n - 1]];
    }
  }

  /** The number of ancestors that a and b share, counted from the root. */
  method SharedAncestors(a: Ref, b: Ref, pa: seq<Ref>, pb: seq<Ref>) returns (n: nat)
    requires pa == Ancestors(a) && pb == Ancestors(b)
    ensures n <= |pa| && n <= |pb| && (n > 0 <==> a.doc == b.doc)
    ensures n > 0 ==> a.path[..n - 1] == b.path[..n - 1]
    ensures n < |pa| && n < |pb| && a.doc == b.doc ==> a.path[..n] != b.path[..n]
  {
    var ia, ib := |pa|, |pb|;
    while ia > 0 && ib > 0 && pa[ia - 1] == pb[ib - 1]
      invariant 0 <= ia <= |pa| && 0 <= ib <= |pb| && |pa| - ia == |pb| - ib
      invariant ia < |pa| ==> a.doc == b.doc && a.path[..|pa| - ia - 1] == b.path[..|pb| - ib - 1]
    {
      ia, ib := ia - 1, ib - 1;
    }
    n := |pa| - ia;
  }

  /** Walks back from ca to its earlier siblings, looking for cb. */
  method ComesAfterSibling(ca: Path, cb: Path) returns (found: bool)
    requires ca != [] && cb != [] && Parent(ca) == Parent(cb)
    ensures found <==> Last(cb) < Last(ca)
  {
    var s := ca;
    while Last(s) > 0
      invariant s != [] && Parent(s) == Parent(ca) && Last(s) <= Last(ca)
      invariant !(Last(s) <= Last(cb) < Last(ca))
      decreases Last(s)
    {
      s := Sibling(s, Last(s) - 1);
      assert s == Parent(s) + [Last(s)] && cb == Parent(cb) + [Last(cb)];
      if s == cb {
        return true;
      }
    }
    return false;
  }

  /** Negative, zero or positive as a comes before, is, or comes after b; zero for
      nodes of different documents. */
  method DocOrderCmp(a: Ref, b: Ref) returns (r: int)
    ensures a.doc == b.doc ==> (r < 0 <==> Before(a.path, b.path)) && (r > 0 <==> Before(b.path, a.path))
    ensures r == 0 <==> a == b || a.doc != b.doc
    ensures r < 0 <==> RefLess(a, b)
  {
    BeforeStrict(a.path, b.path);
    if a == b {
      return 0;
    }
    var pa := AncestorChain(a);
    var pb := AncestorChain(b);
    var n := SharedAncestors(a, b, pa, pb);
    var ia, ib := |pa| - n, |pb| - n;
    if a.doc == b.doc {
      DecideOrder(a.path, b.path, n);
    }
    if ia == 0 {
      return -1;
    }
    if ib == 0 {
      return 1;
    }
    if ia >= |pa| || ib >= |pb| || pa[ia] != pb[ib] {
      return 0;
    }
    var after := ComesAfterSibling(pa[ia - 1].path, pb[ib - 1].path);
    return if after then 1 else -1;
  }

  // ----- sorting node sets -----

  /** What the sort asks of two nodes: DocOrderCmp is negative. */
  predicate RefLess(a: Ref, b: Ref) {
    a.doc == b.doc && Before(a.path, b.path)
  }

  ghost predicate OneTree(nodes: seq<Ref>) {
    forall a, b :: a in nodes && b in nodes ==> a.doc == b.doc
  }

  ghost predicate OneNodeATree(nodes: seq<Ref>) {
    forall a, b :: a in nodes && b in nodes && a.doc == b.doc ==> a == b
  }

  /** The comparison is fit for sorting exactly on nodes of one tree, or of different trees each: a node
      of another tree is equivalent to two nodes that are not equivalent to each other. */
  lemma SortableExactly(nodes: seq<Ref>)
    ensures StrictWeakOn(nodes, RefLess) <==> OneTree(nodes) || OneNodeATree(nodes)
  {
    if OneTree(nodes) || OneNodeATree(nodes) {
      SortableInOneTree(nodes);
    } else {
      var a, b :| a in nodes && b in nodes && a.doc != b.doc;
      var c, d :| c in nodes && d in nodes && c.doc == d.doc && c != d;
      BeforeStrict(c.path, d.path);
      NotSortable(nodes, c, d, if a.doc == c.doc then b else a);
    }
  }

  lemma NotSortable(nodes: seq<Ref>, c: Ref, d: Ref, other: Ref)
    requires c in nodes && d in nodes && other in nodes && c.doc == d.doc != other.doc
    requires RefLess(c, d) || RefLess(d, c)
    ensures !StrictWeakOn(nodes, RefLess)
  {
    assert !RefLess(c, other) && !RefLess(other, d) && !RefLess(d, other) && !RefLess(other, c);
  }

  lemma SortableInOneTree(nodes: seq<Ref>)
    requires OneTree(nodes) || OneNodeATree(nodes)
    ensures StrictWeakOn(nodes, RefLess)
  {
    forall a, b | a in nodes && b in nodes
      ensures !(RefLess(a, b) && RefLess(b, a))
    {
      BeforeStrict(a.path, b.path);
    }
    forall a, b, c | a in nodes && b in nodes && c in nodes
      ensures !RefLess(a, b) && !RefLess(b, c) ==> !RefLess(a, c)
    {
      BeforeStrict(a.path, b.path);
      BeforeStrict(b.path, c.path);
      BeforeStrict(a.path, c.path);
      BeforeTransitive(c.path, b.path, a.path);
    }
  }

  function Unique(s: seq<Ref>): seq<Ref> {
    if |s| < 2 then s
    else if s[0] == s[1] then Unique(s[1..])
    else [s[0]] + Unique(s[1..])
  }

  ghost predicate StrictlyAscending(s: seq<Ref>) {
    forall i, j :: 0 <= i < j < |s| ==> RefLess(s[i], s[j])
  }

  lemma HeadIsMember<T>(s: seq<T>)
    ensures s == [] || s[0] in s
  {
  }

  lemma {:induction false} UniqueMembers(s: seq<Ref>)
    ensures forall p :: p in Unique(s) <==> p in s
    ensures s != [] ==> Unique(s) != [] && Unique(s)[0] == s[0]
  {
    if |s| >= 2 {
      UniqueMembers(s[1..]);
      assert s == [s[0]] + s[1..];
    }
  }

  lemma {:induction false} UniqueAscends(s: seq<Ref>)
    requires OneTree(s) && Sorted(s, RefLess)
    ensures StrictlyAscending(Unique(s))
  {
    if |s| >= 2 {
      assert s[1..] == s[1..|s|] && forall p :: p in s[1..] ==> p in s;
      UniqueAscends(s[1..]);
      UniqueMembers(s[1..]);
      if s[0] != s[1] {
        forall q | q in Unique(s[1..])
          ensures RefLess(s[0], q)
        {
          var j :| 1 <= j < |s| && s[j] == q;
          LessThanLater(s, j);
        }
      }
    }
  }

  lemma LessThanLater(s: seq<Ref>, j: nat)
    requires OneTree(s) && Sorted(s, RefLess) && 1 <= j < |s| && s[0] != s[1]
    ensures RefLess(s[0], s[j])
  {
    assert s[0] in s && s[1] in s && s[j] in s;
    BeforeStrict(s[0].path, s[1].path);
    BeforeStrict(s[0].path, s[j].path);
    BeforeStrict(s[1].path, s[j].path);
    BeforeTransitive(s[0].path, s[1].path, s[j].path);
  }

  lemma LessIrreflexive(a: Ref, b: Ref)
    ensures !RefLess(a, a) && !(RefLess(a, b) && RefLess(b, a))
  {
    BeforeStrict(a.path, a.path);
    BeforeStrict(a.path, b.path);
  }

  /** A strictly ascending sequence is determined by its set of elements. */
  lemma {:induction false} AscendingIsCanonical(r: seq<Ref>, u: seq<Ref>)
    requires StrictlyAscending(r) && StrictlyAscending(u) && forall p :: p in r <==> p in u
    ensures r == u
    decreases |r|
  {
    HeadIsMember(r);
    HeadIsMember(u);
    if r != [] && u != [] {
      assert u[0] in r && r[0] in u;
      LessIrreflexive(r[0], u[0]);
      assert r[0] == u[0];
      assert r == [r[0]] + r[1..] && u == [u[0]] + u[1..];
      forall p
        ensures p in r[1..] <==> p in u[1..]
      {
        LessIrreflexive(r[0], p);
        assert (p in r <==> p == r[0] || p in r[1..]) && (p in u <==> p == u[0] || p in u[1..]);
        assert p in r[1..] ==> RefLess(r[0], p);
        assert p in u[1..] ==> RefLess(u[0], p);
      }
      AscendingIsCanonical(r[1..], u[1..]);
    }
  }

  /** Nodes that the comparison can sort. Those of one tree come out without repetition, in document
      order; of nodes from a tree each, only repetitions side by side are dropped. */
  method UniqueSort(nodes: seq<Ref>) returns (r: seq<Ref>)
    requires StrictWeakOn(nodes, RefLess)
    ensures forall p :: p in r <==> p in nodes
    ensures OneTree(nodes) ==> StrictlyAscending(r)
    ensures !OneTree(nodes) ==> r == Unique(nodes)
  {
    r := Sort(nodes, RefLess);
    SortSorts(nodes, RefLess);
    SortableExactly(nodes);
    UniqueMembers(r);
    if OneTree(nodes) {
      UniqueAscends(r);
    } else {
      forall a, b | a in nodes && b in nodes
        ensures !RefLess(a, b)
      {
        LessIrreflexive(a, b);
      }
      SortKeepsEquivalent(nodes, RefLess);
    }
    r := Unique(r);
  }

  /** For nodes of one tree, strictly ascending means by position in the tree's preorder. */
  lemma AscendingIsPreorder(t: Tree, r: seq<Ref>)
    requires OneTree(r) && forall p :: p in r ==> Has(t, p.path)
    ensures StrictlyAscending(r)
            <==> forall i, j :: 0 <= i < j < |r| ==> Position(t, r[i].path) < Position(t, r[j].path)
  {
    forall i, j | 0 <= i < j < |r|
      ensures RefLess(r[i], r[j]) <==> Position(t, r[i].path) < Position(t, r[j].path)
    {
      assert r[i] in r && r[j] in r;
      BeforeIsPreorder(t, r[i].path, r[j].path);
    }
  }

  // ----- removing duplicates, order kept -----

  /** s without the elements that occur earlier in it. */
  function FirstOccurrences(s: seq<Ref>): seq<Ref> {
    if s == [] then []
    else
      var n := |s| - 1;
      FirstOccurrences(s[..n]) + if s[n] in s[..n] then [] else [s[n]]
  }

  lemma {:induction false} FirstOccurrencesDistinct(s: seq<Ref>)
    ensures Distinct(FirstOccurrences(s))
    ensures forall x :: x in FirstOccurrences(s) <==> x in s
  {
    if s != [] {
      FirstOccurrencesDistinct(s[..|s| - 1]);
      assert s == s[..|s| - 1] + [s[|s| - 1]];
    }
  }

  /** The first occurrences stay where they were among themselves: what a beginning of the list leaves is
      a beginning of what the list leaves. */
  lemma {:induction false} FirstOccurrencesGrow(a: seq<Ref>, b: seq<Ref>)
    ensures FirstOccurrences(a) <= FirstOccurrences(a + b)
    ensures |b| == 1 ==> FirstOccurrences(a + b) == FirstOccurrences(a) + if b[0] in a then [] else b
    decreases |b|
  {
    if b == [] {
      assert a + b == a;
    } else {
      var n := |b| - 1;
      assert (a + b)[..|a + b| - 1] == a + b[..n];
      FirstOccurrencesGrow(a, b[..n]);
      if n == 0 {
        assert a + b[..n] == a && b == [b[0]];
      }
    }
  }

  method RemoveDups(nodes: seq<Ref>) returns (out: seq<Ref>)
    ensures out == FirstOccurrences(nodes)
    ensures Distinct(out) && forall x :: x in out <==> x in nodes
  {
    var seen := {};
    out := [];
    for k := 0 to |nodes|
      invariant out == FirstOccurrences(nodes[..k])
      invariant seen == set x | x in nodes[..k]
    {
      assert nodes[..k + 1][..k] == nodes[..k];
      if nodes[k] !in seen {
        out := out + [nodes[k]];
      }
      seen := seen + {nodes[k]};
    }
    assert nodes[..|nodes|] == nodes;
    FirstOccurrencesDistinct(nodes);
  }
}
