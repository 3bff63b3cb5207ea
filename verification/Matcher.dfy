/** The matcher and the query as the program runs them: walks along parent and
    sibling links, and a traversal with an explicit stack. */
module Matcher {
  import opened Dom
  import opened Selectors

  /** 1-based position among the parent's elements; -1 without a parent or for a
      node that is not an element. */
  method ChildIndex(t: Tree, el: Path) returns (idx: int)
    requires Has(t, el)
    ensures el != [] && IsElement(t, el) ==> Last(el) < |Siblings(t, el)| && idx == PositionOf(t, el, false)
    ensures el == [] || !IsElement(t, el) ==> idx == -1
  {
    if el == [] {
      return -1;
    }
    SiblingFacts(t, el);
    ghost var nodes := Siblings(t, el);
    idx := 0;
    var k := 0;
    while Has(t, Sibling(el, k))
      invariant k <= |nodes| && idx == Elements(nodes[..k])
      invariant IsElement(t, el) ==> k <= Last(el)
      decreases |nodes| - k
    {
      assert nodes[..k + 1][..k] == nodes[..k];
      if At(t, Sibling(el, k)).element {
        idx := idx + 1;
        if Sibling(el, k) == el {
          return;
        }
      }
      assert el == Sibling(el, Last(el));
      k := k + 1;
    }
    return -1;
  }

  /** 1-based position from the end, counted along the next links. */
  method LastIndex(t: Tree, el: Path) returns (pos: int)
    requires IsElement(t, el) && el != []
    ensures Last(el) < |Siblings(t, el)| && pos == PositionOf(t, el, true)
  {
    SiblingFacts(t, el);
    ghost var nodes := Siblings(t, el);
    ghost var from := Last(el) + 1;
    pos := 1;
    var k := Last(el) + 1;
    while Has(t, Sibling(el, k))
      invariant from <= k <= |nodes| && pos == 1 + Elements(nodes[from..k])
      decreases |nodes| - k
    {
      assert nodes[from..k + 1][..k - from] == nodes[from..k];
      if At(t, Sibling(el, k)).element {
        pos := pos + 1;
      }
      k := k + 1;
    }
    assert nodes[from..k] == nodes[from..];
  }

  method IsMatch(t: Tree, chain: seq<Simple>, i: nat, el: Path, depth: nat) returns (r: bool)
    requires i < |chain| && IsElement(t, el)
    ensures r == MatchChain(t, chain, i, el, depth)
    decreases Left(depth), 1
  {
    if depth > MAX_DEPTH {
      return false;
    }
    var head: nat := i;
    while head > 0 && chain[head].combinator == Close
      invariant head <= i && HeadOf(chain, head) == HeadOf(chain, i)
    {
      head := head - 1;
    }
    var s := head;
    while s <= i
      invariant head <= s <= i + 1
      invariant forall j :: head <= j < s ==> MatchSimple(t, chain[j], el, depth)
    {
      var ok := IsSimpleMatch(t, chain[s], el, depth);
      if !ok {
        return false;
      }
      s := s + 1;
    }
    if head == 0 {
      return true;
    }
    match chain[head].combinator {
      case Descendant => r := AncestorMatches(t, chain, head, el, depth);
      case Child => r := ParentMatches(t, chain, head, el, depth);
      case NextSibling => r := PreviousMatches(t, chain, head, el, depth);
      case LaterSibling => r := EarlierMatches(t, chain, head, el, depth);
      case _ => r := false;
    }
  }

  /** The left part of the chain matches some node that stands to el as it should. */
  ghost predicate LeftMatches(t: Tree, chain: seq<Simple>, head: nat, el: Path, depth: nat)
    requires 0 < head < |chain|
  {
    exists y :: Related(t, chain[head].combinator, y, el) && IsElement(t, y) && MatchChain(t, chain, head - 1, y, depth + 1)
  }

  method AncestorMatches(t: Tree, chain: seq<Simple>, head: nat, el: Path, depth: nat) returns (r: bool)
    requires 0 < head < |chain| && IsElement(t, el) && chain[head].combinator == Descendant && depth <= MAX_DEPTH
    ensures r == LeftMatches(t, chain, head, el, depth)
    decreases Left(depth), 0
  {
    var n := |el|;
    while n > 0
      invariant n <= |el|
      invariant forall y :: y < el && |y| >= n && IsElement(t, y) ==> !MatchChain(t, chain, head - 1, y, depth + 1)
    {
      n := n - 1;
      var p := el[..n];
      assert forall y :: y < el && |y| == n ==> y == p;
      if IsElement(t, p) {
        var m := IsMatch(t, chain, head - 1, p, depth + 1);
        if m {
          assert Related(t, Descendant, p, el);
          return true;
        }
      }
    }
    return false;
  }

  method ParentMatches(t: Tree, chain: seq<Simple>, head: nat, el: Path, depth: nat) returns (r: bool)
    requires 0 < head < |chain| && IsElement(t, el) && chain[head].combinator == Child && depth <= MAX_DEPTH
    ensures r == LeftMatches(t, chain, head, el, depth)
    decreases Left(depth), 0
  {
    if el == [] || !IsElement(t, Parent(el)) {
      return false;
    }
    r := IsMatch(t, chain, head - 1, Parent(el), depth + 1);
    assert Related(t, Child, Parent(el), el);
  }

  lemma SiblingByIndex(y: Path, x: Path)
    requires x != [] && |y| == |x| && Parent(y) == Parent(x)
    ensures y == Sibling(x, Last(y))
  {
    assert y == Parent(y) + [Last(y)];
  }

  method PreviousMatches(t: Tree, chain: seq<Simple>, head: nat, el: Path, depth: nat) returns (r: bool)
    requires 0 < head < |chain| && IsElement(t, el) && chain[head].combinator == NextSibling && depth <= MAX_DEPTH
    ensures r == LeftMatches(t, chain, head, el, depth)
    decreases Left(depth), 0
  {
    if el == [] {
      return false;
    }
    forall y | |y| == |el| && Parent(y) == Parent(el) ensures y == Sibling(el, Last(y)) {
      SiblingByIndex(y, el);
    }
    var k := Last(el);
    while k > 0
      invariant k <= Last(el)
      invariant forall m: nat :: k <= m < Last(el) ==> !IsElement(t, Sibling(el, m))
    {
      k := k - 1;
      var p := Sibling(el, k);
      if IsElement(t, p) {
        r := IsMatch(t, chain, head - 1, p, depth + 1);
        assert Related(t, NextSibling, p, el);
        assert forall y :: Related(t, NextSibling, y, el) && IsElement(t, y) ==> Last(y) == k;
        return;
      }
    }
    return false;
  }

  method EarlierMatches(t: Tree, chain: seq<Simple>, head: nat, el: Path, depth: nat) returns (r: bool)
    requires 0 < head < |chain| && IsElement(t, el) && chain[head].combinator == LaterSibling && depth <= MAX_DEPTH
    ensures r == LeftMatches(t, chain, head, el, depth)
    decreases Left(depth), 0
  {
    if el == [] {
      return false;
    }
    var k := Last(el);
    while k > 0
      invariant k <= Last(el)
      invariant forall y :: Related(t, LaterSibling, y, el) && Last(y) >= k && IsElement(t, y) ==>
                  !MatchChain(t, chain, head - 1, y, depth + 1)
    {
      k := k - 1;
      var p := Sibling(el, k);
      forall y | Related(t, LaterSibling, y, el) && Last(y) == k ensures y == p {
        SiblingByIndex(y, el);
      }
      if IsElement(t, p) {
        var m := IsMatch(t, chain, head - 1, p, depth + 1);
        if m {
          assert Related(t, LaterSibling, p, el);
          return true;
        }
      }
    }
    return false;
  }

  method IsSimpleMatch(t: Tree, simple: Simple, el: Path, depth: nat) returns (r: bool)
    requires IsElement(t, el) && depth <= MAX_DEPTH
    ensures r == MatchSimple(t, simple, el, depth)
    decreases Left(depth), 0
  {
    match simple {
      case Universal(_) => r := true;
      case Leaf(_, holds) => r := holds(el);
      case NthChild(_, a, b) =>
        var idx := ChildIndex(t, el);
        r := idx >= 0 && AnbMatch(a, b, idx);
        AnbMeaning(a, b, idx);
      case NthLastChild(_, a, b) =>
        var idx := ChildIndex(t, el);
        if idx < 0 {
          r := false;
        } else {
          var pos := LastIndex(t, el);
          r := AnbMatch(a, b, pos);
          AnbMeaning(a, b, pos);
        }
      case Not(_, list) =>
        var m := IsAnyMatch(t, list, el, depth + 1);
        r := !m;
      case Is(_, list) => r := IsAnyMatch(t, list, el, depth + 1);
      case HasMatch(_, list) => r := HasDescendantMatch(t, list, el, depth + 1);
    }
  }

  method IsAnyMatch(t: Tree, list: seq<Chain>, el: Path, depth: nat) returns (r: bool)
    requires IsElement(t, el)
    ensures r == MatchAny(t, list, el, depth)
    decreases Left(depth), 2
  {
    if depth > MAX_DEPTH {
      return false;
    }
    for l := 0 to |list|
      invariant forall m :: 0 <= m < l && list[m].parts != [] ==>
                  !MatchChain(t, list[m].parts, |list[m].parts| - 1, el, depth)
    {
      if list[l].parts != [] {
        var m := IsMatch(t, list[l].parts, |list[l].parts| - 1, el, depth);
        if m {
          return true;
        }
      }
    }
    return false;
  }

  method HasDescendantMatch(t: Tree, list: seq<Chain>, el: Path, depth: nat) returns (r: bool)
    requires Has(t, el)
    ensures r == MatchDescendant(t, list, el, depth)
    decreases Left(depth), 3
  {
    if depth > MAX_DEPTH {
      return false;
    }
    var k := 0;
    forall m: nat ensures Has(t, el + [m]) <==> m < |At(t, el).children| {
      HasChild(t, el, m);
    }
    while Has(t, el + [k])
      invariant k <= |At(t, el).children|
      invariant forall m :: 0 <= m < k && IsElement(t, el + [m]) ==>
                  !MatchAny(t, list, el + [m], depth) && !MatchDescendant(t, list, el + [m], depth + 1)
      decreases |At(t, el).children| - k
    {
      if At(t, el + [k]).element {
        var m := IsAnyMatch(t, list, el + [k], depth);
        if m {
          return true;
        }
        var d := HasDescendantMatch(t, list, el + [k], depth + 1);
        if d {
          return true;
        }
      }
      k := k + 1;
    }
    return false;
  }

  // ----- traversal -----

  const MAX_NODES: nat := 100000

  /** The nodes below root, in preorder. */
  function Descendants(t: Tree, root: Path): seq<Path>
    requires Has(t, root)
  {
    Preorder(At(t, root), root)[1..]
  }

  ghost function Matching(t: Tree, list: seq<Chain>, nodes: seq<Path>): seq<Path> {
    if nodes == [] then []
    else
      var n := nodes[|nodes| - 1];
      Matching(t, list, nodes[..|nodes| - 1]) + Hit(t, list, n)
  }

  ghost predicate AllIn(t: Tree, nodes: seq<Path>) {
    forall k :: 0 <= k < |nodes| ==> Has(t, nodes[k])
  }

  /** What a stack still stands for: the subtrees of its nodes, the top one first. */
  ghost function Pending(t: Tree, stack: seq<Path>): seq<Path>
    requires AllIn(t, stack)
  {
    if stack == [] then []
    else
      var n := stack[|stack| - 1];
      Preorder(At(t, n), n) + Pending(t, stack[..|stack| - 1])
  }

  /** The children k, k+1, ... of n, the last one first. */
  ghost predicate ChildrenReversed(t: Tree, n: Path, k: nat, top: seq<Path>)
    requires Has(t, n)
  {
    var len := |At(t, n).children|;
    && |top| == len - k
    && forall j :: 0 <= j < |top| ==> top[j] == n + [len - 1 - j] && Has(t, top[j])
  }

  /** Pushing the children in reverse puts their subtrees on top, in order. */
  lemma {:induction false} PendingChildren(t: Tree, stack: seq<Path>, n: Path, k: nat, top: seq<Path>)
    requires Has(t, n) && k <= |At(t, n).children| && ChildrenReversed(t, n, k, top)
    requires AllIn(t, stack)
    ensures AllIn(t, stack + top)
    ensures Pending(t, stack + top) == PreorderFrom(At(t, n), n, k) + Pending(t, stack)
    decreases |top|
  {
    hide Has, At, Preorder;
    if top == [] {
      assert stack + top == stack;
    } else {
      var rest, full, c := top[..|top| - 1], stack + top, n + [k];
      PendingChildren(t, stack, n, k + 1, rest);
      assert full[..|full| - 1] == stack + rest && full[|full| - 1] == c;
      HasChild(t, n, k);
      assert AllIn(t, full);
      var a, b := Preorder(At(t, c), c), PreorderFrom(At(t, n), n, k + 1);
      assert Pending(t, full) == a + (b + Pending(t, stack));
      assert PreorderFrom(At(t, n), n, k) == a + b;
    }
  }

  lemma PopPending(t: Tree, stack: seq<Path>)
    requires stack != [] && AllIn(t, stack)
    ensures var n, rest := stack[|stack| - 1], stack[..|stack| - 1];
            && Pending(t, stack) == Preorder(At(t, n), n) + Pending(t, rest)
            && Pending(t, stack) == [n] + (Descendants(t, n) + Pending(t, rest))
  {
  }

  method PushChildren(t: Tree, stack: seq<Path>, n: Path) returns (r: seq<Path>)
    requires Has(t, n) && AllIn(t, stack)
    ensures AllIn(t, r)
    ensures Pending(t, r) == Descendants(t, n) + Pending(t, stack)
  {
    r := stack;
    var len := |At(t, n).children|;
    for k := 0 to len
      invariant |r| == |stack| + k && r[..|stack|] == stack
      invariant forall j :: 0 <= j < k ==> r[|stack| + j] == n + [j]
    {
      r := r + [n + [k]];
    }
    r := ReverseFrom(r, |stack|);
    ghost var top := r[|stack|..];
    assert r == stack + top;
    forall k: nat ensures Has(t, n + [k]) <==> k < len {
      HasChild(t, n, k);
    }
    PendingChildren(t, stack, n, 0, top);
  }

  /** Reverses the part of the stack that begins at base. */
  method ReverseFrom(stack: seq<Path>, base: nat) returns (r: seq<Path>)
    requires base <= |stack|
    ensures |r| == |stack| && r[..base] == stack[..base]
    ensures forall j :: base <= j < |stack| ==> r[j] == stack[|stack| - 1 - (j - base)]
  {
    r := stack;
    var lo, hi := base, |stack|;
    while lo + 1 < hi
      invariant base <= lo <= hi + 1 && hi <= |stack| && lo - base == |stack| - hi
      invariant |r| == |stack| && r[..base] == stack[..base]
      invariant forall j :: base <= j < lo ==> r[j] == stack[|stack| - 1 - (j - base)]
      invariant forall j :: hi <= j < |stack| ==> r[j] == stack[|stack| - 1 - (j - base)]
      invariant forall j :: lo <= j < hi ==> r[j] == stack[j]
    {
      r := r[lo := r[hi - 1]][hi - 1 := r[lo]];
      lo, hi := lo + 1, hi - 1;
    }
  }

  ghost function Take(s: seq<Path>, n: nat): seq<Path> {
    if n < |s| then s[..n] else s
  }

  /** The matching elements among the first 100000 nodes below root, in preorder,
      after root itself when it is asked for and matches. */
  method QueryAll(t: Tree, root: Path, list: seq<Chain>, includeSelf: bool) returns (out: seq<Path>)
    requires Has(t, root)
    ensures out == Matching(t, list, if includeSelf then [root] else [])
                   + Matching(t, list, Take(Descendants(t, root), MAX_NODES))
  {
    hide Has, At, MatchAny, Hit;
    out := [];
    if includeSelf {
      out := Collect(t, root, list, out);
    }
    ghost var self, all := out, Descendants(t, root);
    assert self == Matching(t, list, if includeSelf then [root] else []) by {
      assert [root][..0] == [];
    }
    var visited := 0;
    var stack := PushChildren(t, [], root);
    while stack != [] && visited < MAX_NODES
      invariant AllIn(t, stack)
      invariant visited <= |all| && visited <= MAX_NODES && Pending(t, stack) == all[visited..]
      invariant out == self + Matching(t, list, all[..visited])
      decreases |all| - visited
    {
      visited := visited + 1;
      ghost var before, was := out, Pending(t, stack);
      stack, out := Visit(t, list, stack, out);
      NextVisited(all, visited, was, Pending(t, stack));
      MatchingNext(t, list, all, visited, Pending(t, stack), self, before, out);
    }
    if stack == [] {
      assert all[visited..] == [];
      assert all[..visited] == all;
    }
  }

  /** Pops the top node, collects it if it matches, and pushes its children. */
  method Visit(t: Tree, list: seq<Chain>, stack: seq<Path>, out: seq<Path>) returns (rest: seq<Path>, r: seq<Path>)
    requires stack != [] && AllIn(t, stack)
    ensures AllIn(t, rest) && Pending(t, stack) == [stack[|stack| - 1]] + Pending(t, rest)
    ensures r == out + Hit(t, list, Pending(t, stack)[0])
  {
    var n := stack[|stack| - 1];
    PopPending(t, stack);
    r := Collect(t, n, list, out);
    rest := PushChildren(t, stack[..|stack| - 1], n);
  }

  ghost function Hit(t: Tree, list: seq<Chain>, n: Path): seq<Path> {
    if IsElement(t, n) && MatchAny(t, list, n, 0) then [n] else []
  }

  lemma NextVisited(all: seq<Path>, visited: nat, was: seq<Path>, rest: seq<Path>)
    requires 0 < visited <= |all| + 1 && all[visited - 1..] == was && was != [] && was[1..] == rest
    ensures visited <= |all| && all[visited - 1] == was[0] && all[visited..] == rest
  {
  }

  lemma MatchingNext(t: Tree, list: seq<Chain>, all: seq<Path>, visited: nat, rest: seq<Path>,
                     self: seq<Path>, before: seq<Path>, after: seq<Path>)
    requires 0 < visited <= |all| && all[visited..] == rest
    requires before == self + Matching(t, list, all[..visited - 1])
    requires after == before + Hit(t, list, all[visited - 1])
    ensures after == self + Matching(t, list, all[..visited])
  {
    assert all[..visited][..visited - 1] == all[..visited - 1];
  }

  /** Appends the node if it is an element that matches. */
  method Collect(t: Tree, n: Path, list: seq<Chain>, out: seq<Path>) returns (r: seq<Path>)
    requires Has(t, n)
    ensures r == out + Hit(t, list, n)
  {
    r := out;
    if IsElement(t, n) {
      var m := IsAnyMatch(t, list, n, 0);
      if m {
        r := r + [n];
      }
    }
  }

  lemma {:induction false} MatchingMembers(t: Tree, list: seq<Chain>, nodes: seq<Path>)
    requires Ascending(nodes)
    ensures Ascending(Matching(t, list, nodes))
    ensures forall p :: p in Matching(t, list, nodes) <==> p in nodes && IsElement(t, p) && MatchAny(t, list, p, 0)
  {
    hide MatchAny, IsElement, Before;
    if nodes != [] {
      var n := |nodes| - 1;
      MatchingMembers(t, list, nodes[..n]);
      assert nodes == nodes[..n] + [nodes[n]];
      assert forall p :: p in nodes[..n] ==> Before(p, nodes[n]);
      assert forall p :: p in Matching(t, list, nodes[..n]) ==> Before(p, nodes[n]);
    }
  }

  lemma DescendantsAre(t: Tree, root: Path, p: Path)
    requires Has(t, root)
    ensures p in Descendants(t, root) <==> root < p && Has(t, p)
  {
    PreorderFromMembers(At(t, root), root, 0, p);
    if root <= p {
      assert root + p[|root|..] == p;
      HasConcat(t, root, p[|root|..]);
    }
  }

  /** A query that visits every node returns exactly the elements below root that the selector selects
      within the budget, each once, in document order. */
  lemma QueryIsBounded(t: Tree, root: Path, list: seq<Chain>)
    requires Has(t, root) && Proper(t) && |Descendants(t, root)| <= MAX_NODES
    ensures var out := Matching(t, list, Take(Descendants(t, root), MAX_NODES));
            && Ascending(out)
            && forall p :: p in out <==> root < p && IsElement(t, p) && AnyIn(t, list, p, MAX_DEPTH)
  {
    var nodes := Descendants(t, root);
    PreorderAscending(At(t, root), root);
    MatchingMembers(t, list, nodes);
    forall p
      ensures p in nodes <==> root < p && Has(t, p)
    {
      DescendantsAre(t, root, p);
    }
    forall p | IsElement(t, p)
      ensures MatchAny(t, list, p, 0) <==> AnyIn(t, list, p, MAX_DEPTH)
    {
      MatcherIsBounded(t, list, p);
    }
  }

  /** When the budget suffices at each of them, those are exactly the selected elements. */
  lemma QueryMeaning(t: Tree, root: Path, list: seq<Chain>)
    requires Has(t, root) && Proper(t) && |Descendants(t, root)| <= MAX_NODES
    requires forall p :: root < p && IsElement(t, p) ==> FitsList(t, list, p, MAX_DEPTH)
    ensures var out := Matching(t, list, Take(Descendants(t, root), MAX_NODES));
            && Ascending(out)
            && forall p :: p in out <==> root < p && IsElement(t, p) && SelectedByAny(t, list, p)
  {
    QueryIsBounded(t, root, list);
    forall p | root < p && IsElement(t, p)
      ensures AnyIn(t, list, p, MAX_DEPTH) <==> SelectedByAny(t, list, p)
    {
      FitsAny(t, list, p, MAX_DEPTH);
    }
  }
}
