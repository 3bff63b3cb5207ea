/** A document tree. A node is named by its path from the root: the child index
    taken at each level. Parent, previous and next sibling and first child, the
    pointers that the program follows, are then operations on paths. */
module Dom {

  datatype Tree = Node(element: bool, children: seq<Tree>)

  type Path = seq<nat>

  predicate Has(t: Tree, p: Path)
    decreases |p|
  {
    p == [] || (p[0] < |t.children| && Has(t.children[p[0]], p[1..]))
  }

  function At(t: Tree, p: Path): Tree
    requires Has(t, p)
    decreases |p|
  {
    if p == [] then t else At(t.children[p[0]], p[1..])
  }

  predicate IsElement(t: Tree, p: Path) {
    Has(t, p) && At(t, p).element
  }

  function Parent(p: Path): Path
    requires p != []
  {
    p[..|p| - 1]
  }

  function Last(p: Path): nat
    requires p != []
  {
    p[|p| - 1]
  }

  /** The sibling of p at index k. */
  function Sibling(p: Path, k: nat): Path
    requires p != []
  {
    Parent(p) + [k]
  }

  lemma {:induction false} HasConcat(t: Tree, p: Path, q: Path)
    ensures Has(t, p + q) <==> Has(t, p) && Has(At(t, p), q)
    ensures Has(t, p + q) ==> At(t, p + q) == At(At(t, p), q)
    decreases |p|
  {
    if p == [] {
      assert p + q == q;
    } else {
      assert (p + q)[1..] == p[1..] + q;
      if p[0] < |t.children| {
        HasConcat(t.children[p[0]], p[1..], q);
      }
    }
  }

  lemma HasPrefix(t: Tree, p: Path, n: nat)
    requires Has(t, p) && n <= |p|
    ensures Has(t, p[..n])
  {
    assert p[..n] + p[n..] == p;
    HasConcat(t, p[..n], p[n..]);
  }

  /** Children of p, and siblings of a node. */
  lemma HasChild(t: Tree, p: Path, k: nat)
    requires Has(t, p)
    ensures Has(t, p + [k]) <==> k < |At(t, p).children|
    ensures Has(t, p + [k]) ==> At(t, p + [k]) == At(t, p).children[k]
  {
    HasConcat(t, p, [k]);
    if k < |At(t, p).children| {
      assert [k][1..] == [];
    }
  }

  // ----- document order -----

  predicate Before(a: Path, b: Path)
    decreases |a|
  {
    if b == [] then false
    else if a == [] then true
    else a[0] < b[0] || (a[0] == b[0] && Before(a[1..], b[1..]))
  }

  lemma {:induction false} BeforeStrict(a: Path, b: Path)
    ensures !(Before(a, b) && Before(b, a)) && (a == b ==> !Before(a, b))
    ensures a != b ==> Before(a, b) || Before(b, a)
    decreases |a|
  {
    if a != [] && b != [] {
      BeforeStrict(a[1..], b[1..]);
      assert a == [a[0]] + a[1..] && b == [b[0]] + b[1..];
    }
  }

  lemma {:induction false} BeforeTransitive(a: Path, b: Path, c: Path)
    ensures Before(a, b) && Before(b, c) ==> Before(a, c)
    decreases |a|
  {
    if a != [] && b != [] && c != [] {
      BeforeTransitive(a[1..], b[1..], c[1..]);
    }
  }

  lemma {:induction false} BeforeUnder(p: Path, a: Path, b: Path)
    ensures Before(p + a, p + b) <==> Before(a, b)
    decreases |p|
  {
    if p == [] {
      assert p + a == a && p + b == b;
    } else {
      BeforeUnder(p[1..], a, b);
      assert (p + a)[1..] == p[1..] + a && (p + b)[1..] == p[1..] + b;
    }
  }

  // ----- preorder -----

  /** The nodes of t in preorder, named below prefix. */
  function Preorder(t: Tree, prefix: Path): seq<Path>
    decreases t, 1, 0
  {
    [prefix] + PreorderFrom(t, prefix, 0)
  }

  /** The subtrees of t from child k on. */
  function PreorderFrom(t: Tree, prefix: Path, k: nat): seq<Path>
    requires k <= |t.children|
    decreases t, 0, |t.children| - k
  {
    if k == |t.children| then []
    else Preorder(t.children[k], prefix + [k]) + PreorderFrom(t, prefix, k + 1)
  }

  ghost predicate Ascending(s: seq<Path>) {
    forall i, j :: 0 <= i < j < |s| ==> Before(s[i], s[j])
  }

  lemma {:induction false} PreorderMembers(t: Tree, prefix: Path, p: Path)
    ensures p in Preorder(t, prefix) <==> prefix <= p && Has(t, p[|prefix|..])
    decreases t, 1, 0
  {
    PreorderFromMembers(t, prefix, 0, p);
    if prefix <= p && |p| > |prefix| {
      assert p[|prefix|..][0] == p[|prefix|];
    }
    if p == prefix {
      assert p[|prefix|..] == [];
      assert Preorder(t, prefix)[0] == p;
    } else {
      assert prefix <= p ==> |p| > |prefix|;
    }
  }

  lemma {:induction false} PreorderFromMembers(t: Tree, prefix: Path, k: nat, p: Path)
    requires k <= |t.children|
    ensures p in PreorderFrom(t, prefix, k) <==>
            prefix <= p && |p| > |prefix| && p[|prefix|] >= k && Has(t, p[|prefix|..])
    decreases t, 0, |t.children| - k
  {
    if prefix <= p && |p| > |prefix| {
      assert p[|prefix|..][0] == p[|prefix|];
      assert p[|prefix|..][1..] == p[|prefix| + 1..];
    }
    if k < |t.children| {
      PreorderMembers(t.children[k], prefix + [k], p);
      PreorderFromMembers(t, prefix, k + 1, p);
      assert prefix + [k] <= p <==> prefix <= p && |p| > |prefix| && p[|prefix|] == k;
    }
  }

  lemma {:induction false} PreorderAscending(t: Tree, prefix: Path)
    ensures Ascending(Preorder(t, prefix))
    decreases t, 1, 0
  {
    PreorderFromAscending(t, prefix, 0);
    var rest := PreorderFrom(t, prefix, 0);
    forall j | 0 <= j < |rest| ensures Before(prefix, rest[j]) {
      PreorderFromMembers(t, prefix, 0, rest[j]);
      BeforeUnder(prefix, [], rest[j][|prefix|..]);
      assert prefix + [] == prefix && prefix + rest[j][|prefix|..] == rest[j];
    }
  }

  lemma {:induction false} PreorderFromAscending(t: Tree, prefix: Path, k: nat)
    requires k <= |t.children|
    ensures Ascending(PreorderFrom(t, prefix, k))
    decreases t, 0, |t.children| - k
  {
    if k < |t.children| {
      var a, b := Preorder(t.children[k], prefix + [k]), PreorderFrom(t, prefix, k + 1);
      PreorderAscending(t.children[k], prefix + [k]);
      PreorderFromAscending(t, prefix, k + 1);
      forall i, j | 0 <= i < |a| && 0 <= j < |b| ensures Before(a[i], b[j]) {
        PreorderMembers(t.children[k], prefix + [k], a[i]);
        PreorderFromMembers(t, prefix, k + 1, b[j]);
        var x, y := a[i][|prefix|..], b[j][|prefix|..];
        assert a[i][|prefix|] == k;
        BeforeUnder(prefix, x, y);
        assert prefix + x == a[i] && prefix + y == b[j];
      }
    }
  }

  /** Place of a node in the document's preorder. */
  ghost function Position(t: Tree, p: Path): (i: nat)
    requires Has(t, p)
    ensures i < |Preorder(t, [])| && Preorder(t, [])[i] == p
  {
    PreorderMembers(t, [], p);
    assert p[0..] == p;
    var i :| 0 <= i < |Preorder(t, [])| && Preorder(t, [])[i] == p;
    i
  }

  /** Comparing paths is comparing preorder positions. */
  lemma BeforeIsPreorder(t: Tree, a: Path, b: Path)
    requires Has(t, a) && Has(t, b)
    ensures Before(a, b) <==> Position(t, a) < Position(t, b)
    ensures a == b <==> Position(t, a) == Position(t, b)
  {
    PreorderAscending(t, []);
    BeforeStrict(a, b);
  }
}
