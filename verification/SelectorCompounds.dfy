/** Selectors by compounds: what a chain selects and matches, said without looking for the places where
    its compounds begin. */
module SelectorCompounds {
  import opened Dom
  import opened Selectors

  /** A compound begins where HeadOf says: everything behind that place up to i is joined to its left
      neighbour, and the simple selector there is the first or begins a new compound. */
  lemma {:induction false} CompoundBegins(chain: seq<Simple>, i: nat)
    requires i < |chain|
    ensures var h := HeadOf(chain, i);
            && h <= i && (forall j :: h < j <= i ==> chain[j].combinator == Close)
            && (h == 0 || chain[h].combinator != Close)
    decreases i
  {
    if i > 0 && chain[i].combinator == Close {
      CompoundBegins(chain, i - 1);
    }
  }

  /** No other place is like that. */
  lemma {:induction false} HeadIs(chain: seq<Simple>, i: nat, h: nat)
    requires h <= i < |chain| && (forall j :: h < j <= i ==> chain[j].combinator == Close)
    requires h == 0 || chain[h].combinator != Close
    ensures HeadOf(chain, i) == h
    decreases i
  {
    if h < i {
      HeadIs(chain, i - 1, h);
    }
  }

  // ----- what the combinators mean in the tree -----

  lemma {:induction false} ElementsSplit(nodes: seq<Tree>, i: nat, j: nat)
    requires i <= j <= |nodes|
    ensures Elements(nodes[..j]) == Elements(nodes[..i]) + Elements(nodes[i..j])
    decreases j - i
  {
    if i < j {
      ElementsSplit(nodes, i, j - 1);
      assert nodes[..j][..j - 1] == nodes[..j - 1] && nodes[i..j][..j - 1 - i] == nodes[i..j - 1];
      assert nodes[..j][j - 1] == nodes[i..j][j - 1 - i];
    }
  }

  lemma {:induction false} NoElements(nodes: seq<Tree>)
    ensures Elements(nodes) == 0 <==> forall k :: 0 <= k < |nodes| ==> !nodes[k].element
  {
    if nodes != [] {
      var n := |nodes| - 1;
      NoElements(nodes[..n]);
      assert nodes == nodes[..n] + [nodes[n]];
    }
  }

  /** Of two element children of one parent: how their positions compare. */
  lemma PositionsCompare(t: Tree, y: Path, x: Path)
    requires IsElement(t, x) && IsElement(t, y) && x != [] && |y| == |x| && Parent(y) == Parent(x) && Last(y) < Last(x)
    ensures Last(x) < |Siblings(t, x)| && Last(y) < |Siblings(t, y)| && Siblings(t, y) == Siblings(t, x)
    ensures PositionOf(t, x, false) == PositionOf(t, y, false) + 1 + Elements(Siblings(t, x)[Last(y) + 1..Last(x)])
  {
    SiblingFacts(t, x);
    SiblingFacts(t, y);
    var nodes := Siblings(t, x);
    ElementsSplit(nodes, Last(y) + 1, Last(x));
    assert nodes[..Last(y) + 1][..Last(y)] == nodes[..Last(y)];
  }

  /** + joins an element to the one with the position before it, and ~ to every one with a smaller one. */
  lemma SiblingCombinators(t: Tree, y: Path, x: Path)
    requires IsElement(t, x) && IsElement(t, y) && x != [] && y != []
    ensures Last(x) < |Siblings(t, x)| && Last(y) < |Siblings(t, y)|
    ensures Related(t, NextSibling, y, x)
            <==> |y| == |x| && Parent(y) == Parent(x) && PositionOf(t, x, false) == PositionOf(t, y, false) + 1
    ensures Related(t, LaterSibling, y, x)
            <==> |y| == |x| && Parent(y) == Parent(x) && PositionOf(t, y, false) < PositionOf(t, x, false)
  {
    SiblingFacts(t, x);
    SiblingFacts(t, y);
    if |y| == |x| && Parent(y) == Parent(x) {
      if Last(y) < Last(x) {
        PositionsCompare(t, y, x);
        BetweenSiblings(t, y, x);
      } else if Last(x) < Last(y) {
        PositionsCompare(t, x, y);
      } else {
        assert y == Sibling(y, Last(y)) == Sibling(x, Last(x)) == x;
      }
    }
  }

  lemma BetweenSiblings(t: Tree, y: Path, x: Path)
    requires IsElement(t, x) && IsElement(t, y) && x != [] && |y| == |x| && Parent(y) == Parent(x) && Last(y) < Last(x)
    ensures Last(x) < |Siblings(t, x)|
    ensures NearestBefore(t, y, x) <==> Elements(Siblings(t, x)[Last(y) + 1..Last(x)]) == 0
  {
    SiblingFacts(t, x);
    var nodes, from := Siblings(t, x), Last(y) + 1;
    NoElements(nodes[from..Last(x)]);
    assert forall k :: from <= k < Last(x) ==> (IsElement(t, Sibling(x, k)) <==> nodes[k].element);
    assert forall k :: from <= k < Last(x) ==> nodes[from..Last(x)][k - from] == nodes[k];
  }

  /** > joins an element to its parent, and the blank to its parent and whatever the blank joins that to. */
  lemma AncestorCombinators(t: Tree, y: Path, x: Path)
    ensures Related(t, Child, y, x) <==> y < x && |x| == |y| + 1
    ensures Related(t, Descendant, y, x) <==> x != [] && (Related(t, Child, y, x) || Related(t, Descendant, y, Parent(x)))
  {
    if x != [] {
      assert x == Parent(x) + [Last(x)];
    }
  }

  /** Counted from the front and from the back, the positions of an element add up to the number of elements
      among its siblings and one. */
  lemma PositionsAddUp(t: Tree, x: Path)
    requires IsElement(t, x) && x != []
    ensures Last(x) < |Siblings(t, x)|
    ensures PositionOf(t, x, false) + PositionOf(t, x, true) == Elements(Siblings(t, x)) + 1
  {
    SiblingFacts(t, x);
    var nodes, k := Siblings(t, x), Last(x);
    ElementsSplit(nodes, k + 1, |nodes|);
    assert nodes[..|nodes|] == nodes && nodes[k + 1..|nodes|] == nodes[k + 1..];
    assert nodes[..k + 1][..k] == nodes[..k];
  }

  // ----- chains as sequences of compounds -----

  type Compound = seq<Simple>

  ghost predicate IsCompound(c: Compound) {
    c != [] && forall j :: 0 < j < |c| ==> c[j].combinator == Close
  }

  /** Each compound but the first begins with a combinator that is not Close. */
  ghost predicate AreCompounds(cs: seq<Compound>) {
    && cs != [] && (forall k :: 0 <= k < |cs| ==> IsCompound(cs[k]))
    && (forall k :: 0 < k < |cs| ==> cs[k] != [] && cs[k][0].combinator != Close)
  }

  function Joined(cs: seq<Compound>): seq<Simple> {
    if cs == [] then [] else Joined(cs[..|cs| - 1]) + cs[|cs| - 1]
  }

  /** Every part of the compound holds at x. */
  ghost predicate Passes(t: Tree, c: Compound, x: Path) {
    forall s :: s in c ==> Holds(t, s, x)
  }

  /** x is an element that passes the last compound, and from which the combinator leads back to an
      element that the compounds before it select. */
  ghost predicate SelectedBack(t: Tree, cs: seq<Compound>, x: Path)
    decreases |cs|
  {
    && cs != [] && IsElement(t, x)
    && var n := |cs| - 1;
       && Passes(t, cs[n], x)
       && (n == 0 || (cs[n] != [] && exists y :: Related(t, cs[n][0].combinator, y, x) && SelectedBack(t, cs[..n], y)))
  }

  lemma BeginsBehind(a: seq<Simple>, b: Compound)
    requires IsCompound(b) && (a != [] ==> b != [] && b[0].combinator != Close)
    ensures b != [] && a + b != [] && HeadOf(a + b, |a + b| - 1) == |a| && (a + b)[|a|] == b[0]
  {
    forall j | |a| < j < |a + b|
      ensures (a + b)[j].combinator == Close
    {
      assert (a + b)[j] == b[j - |a|];
    }
    HeadIs(a + b, |a + b| - 1, |a|);
  }

  lemma LastBegins(cs: seq<Compound>)
    requires AreCompounds(cs)
    ensures Joined(cs) != [] && HeadOf(Joined(cs), |Joined(cs)| - 1) == |Joined(cs[..|cs| - 1])|
  {
    if |cs| == 1 {
      assert Joined(cs[..0]) == [];
    }
    BeginsBehind(Joined(cs[..|cs| - 1]), cs[|cs| - 1]);
  }

  lemma FrontCompounds(cs: seq<Compound>)
    requires AreCompounds(cs) && |cs| > 1
    ensures AreCompounds(cs[..|cs| - 1]) && Joined(cs[..|cs| - 1]) != []
  {
    LastBegins(cs[..|cs| - 1]);
  }

  lemma HeadInFront(a: seq<Simple>, b: seq<Simple>, i: nat)
    requires i < |a|
    ensures HeadOf(a + b, i) == HeadOf(a, i)
  {
    CompoundBegins(a, i);
    HeadIs(a + b, i, HeadOf(a, i));
  }

  /** What stands behind i does not matter to what the chain up to i selects. */
  lemma {:induction false} SelectedInFront(t: Tree, a: seq<Simple>, b: seq<Simple>, i: nat)
    requires i < |a|
    ensures Selected(t, a + b, i) == Selected(t, a, i)
    decreases i
  {
    hide Holds;
    HeadInFront(a, b, i);
    var h := HeadOf(a, i);
    if h > 0 {
      SelectedInFront(t, a, b, h - 1);
    }
    assert forall j :: h <= j <= i ==> (a + b)[j] == a[j];
  }

  ghost predicate HoldFrom(t: Tree, chain: seq<Simple>, h: nat, x: Path) {
    forall j :: h <= j < |chain| ==> Holds(t, chain[j], x)
  }

  lemma PassesBehind(t: Tree, a: seq<Simple>, b: seq<Simple>, x: Path)
    ensures HoldFrom(t, a + b, |a|, x) <==> Passes(t, b, x)
  {
    hide Holds;
    var chain := a + b;
    if forall j :: |a| <= j < |chain| ==> Holds(t, chain[j], x) {
      forall s | s in b ensures Holds(t, s, x) {
        var j :| 0 <= j < |b| && b[j] == s;
        assert chain[|a| + j] == s;
      }
    }
    if forall s :: s in b ==> Holds(t, s, x) {
      forall j | |a| <= j < |chain| ensures Holds(t, chain[j], x) {
        assert chain[j] == b[j - |a|] && b[j - |a|] in b;
      }
    }
  }

  lemma PropagatedFrom(t: Tree, s: set<Path>, c: Combinator, x: Path)
    ensures x in Propagate(t, s, c) <==> IsElement(t, x) && exists y :: y in s && Related(t, c, y, x)
  {
    AllElementsAre(t, x);
  }

  lemma SelectedLast(t: Tree, chain: seq<Simple>, x: Path)
    requires chain != []
    ensures var i := |chain| - 1; var h := HeadOf(chain, i);
            x in Selected(t, chain, i)
            <==> && (if h == 0 then IsElement(t, x) else x in Propagate(t, Selected(t, chain, h - 1), chain[h].combinator))
                 && HoldFrom(t, chain, h, x)
  {
    hide Holds, Related;
    AllElementsAre(t, x);
  }

  /** A compound behind a chain: what it adds to the selection. */
  lemma TwoParts(t: Tree, a: seq<Simple>, b: Compound, x: Path)
    requires IsCompound(b) && (a != [] ==> b != [] && b[0].combinator != Close)
    ensures a + b != []
    ensures x in Selected(t, a + b, |a + b| - 1)
            <==> && IsElement(t, x) && Passes(t, b, x)
                 && (a == [] || exists y :: y in Selected(t, a, |a| - 1) && Related(t, b[0].combinator, y, x))
  {
    BeginsBehind(a, b);
    PassesBehind(t, a, b, x);
    hide Holds, Related, Selected, Propagate, HeadOf, IsCompound, Passes, HoldFrom;
    SelectedLast(t, a + b, x);
    if a != [] {
      SelectedInFront(t, a, b, |a| - 1);
      PropagatedFrom(t, Selected(t, a, |a| - 1), b[0].combinator, x);
    }
  }

  lemma LastStep(t: Tree, cs: seq<Compound>, x: Path)
    requires AreCompounds(cs)
    ensures Joined(cs) != [] && (|cs| > 1 ==> Joined(cs[..|cs| - 1]) != [])
    ensures var n, front, chain := |cs| - 1, Joined(cs[..|cs| - 1]), Joined(cs);
            x in Selected(t, chain, |chain| - 1)
            <==> && IsElement(t, x) && Passes(t, cs[n], x)
                 && (n == 0 || exists y :: y in Selected(t, front, |front| - 1) && Related(t, cs[n][0].combinator, y, x))
  {
    hide Holds, Related, Selected, Passes;
    var n := |cs| - 1;
    if n > 0 {
      FrontCompounds(cs);
    } else {
      assert Joined(cs[..n]) == [];
    }
    TwoParts(t, Joined(cs[..n]), cs[n], x);
  }

  /** The chain of the compounds selects what the compounds select from right to left. */
  lemma {:induction false} CompoundsSelect(t: Tree, cs: seq<Compound>, x: Path)
    requires AreCompounds(cs)
    ensures Joined(cs) != [] && (x in Selected(t, Joined(cs), |Joined(cs)| - 1) <==> SelectedBack(t, cs, x))
    decreases |cs|
  {
    hide Holds, Related, Selected, Joined, Passes;
    var n := |cs| - 1;
    LastStep(t, cs, x);
    if n > 0 {
      FrontCompounds(cs);
      var front := Joined(cs[..n]);
      forall y
        ensures y in Selected(t, front, |front| - 1) <==> SelectedBack(t, cs[..n], y)
      {
        CompoundsSelect(t, cs[..n], y);
      }
    }
  }

  lemma OneMore(front: seq<Compound>, c: Compound) returns (cs: seq<Compound>)
    requires AreCompounds(front) && IsCompound(c) && c != [] && c[0].combinator != Close
    ensures AreCompounds(cs) && Joined(cs) == Joined(front) + c
  {
    cs := front + [c];
    assert cs[..|front|] == front && cs[|front|] == c;
    forall k | 0 <= k < |cs|
      ensures IsCompound(cs[k]) && (k > 0 ==> cs[k] != [] && cs[k][0].combinator != Close)
    {
      assert k < |front| ==> cs[k] == front[k];
    }
  }

  lemma CutAtHead(chain: seq<Simple>)
    requires chain != []
    ensures var h := HeadOf(chain, |chain| - 1);
            && chain == chain[..h] + chain[h..] && IsCompound(chain[h..]) && (h > 0 ==> chain[h].combinator != Close)
  {
    CompoundBegins(chain, |chain| - 1);
  }

  lemma Alone(c: Compound)
    requires IsCompound(c)
    ensures AreCompounds([c]) && Joined([c]) == c
  {
    var cs := [c];
    assert cs[0] == c && cs[..0] == [] && [] + c == c && Joined([]) == [];
  }

  /** Every chain is made of compounds, so nothing is said of fewer chains than there are. */
  lemma {:induction false} Split(chain: seq<Simple>) returns (cs: seq<Compound>)
    requires chain != []
    ensures AreCompounds(cs) && Joined(cs) == chain
    decreases |chain|
  {
    hide AreCompounds, IsCompound, Joined, HeadOf;
    var h := HeadOf(chain, |chain| - 1);
    CutAtHead(chain);
    if h == 0 {
      assert chain[0..] == chain;
      Alone(chain);
      cs := [chain];
    } else {
      var front := Split(chain[..h]);
      cs := OneMore(front, chain[h..]);
    }
  }

  // ----- what the matcher does with them -----

  ghost predicate FlatCompounds(cs: seq<Compound>) {
    forall j :: 0 <= j < |Joined(cs)| ==> Flat(Joined(cs)[j])
  }

  lemma {:induction false} CombinatorsOf(cs: seq<Compound>, b: Compound)
    requires AreCompounds(cs)
    ensures Joined(cs) != [] && Compounds(Joined(cs) + b, |Joined(cs)| - 1) == |cs| - 1
    decreases |cs|
  {
    var n := |cs| - 1;
    LastBegins(cs);
    HeadInFront(Joined(cs), b, |Joined(cs)| - 1);
    if n > 0 {
      FrontCompounds(cs);
      CombinatorsOf(cs[..n], cs[n] + b);
      assert Joined(cs[..n]) + (cs[n] + b) == Joined(cs) + b;
    } else {
      assert Joined(cs[..n]) == [];
    }
  }

  /** Without nested lists: an element is matched exactly when its last compound and, back through the
      combinators, all others are passed, each as a whole, and there are at most 65 of them. */
  lemma MatchesCompounds(t: Tree, cs: seq<Compound>, el: Path)
    requires Proper(t) && IsElement(t, el) && AreCompounds(cs) && FlatCompounds(cs)
    ensures Joined(cs) != []
    ensures MatchChain(t, Joined(cs), |Joined(cs)| - 1, el, 0) <==> SelectedBack(t, cs, el) && |cs| <= MAX_DEPTH + 1
  {
    hide MatchChain, Selected, SelectedBack;
    var chain := Joined(cs);
    CompoundsSelect(t, cs, el);
    CombinatorsOf(cs, []);
    assert chain + [] == chain;
    FlatChainIs(t, chain, |chain| - 1, el, 0);
  }

  /** A single compound is matched exactly when each of its parts holds at the element. */
  lemma OneCompound(t: Tree, chain: seq<Simple>, el: Path)
    requires Proper(t) && IsElement(t, el) && chain != []
    requires (forall j :: 0 < j < |chain| ==> chain[j].combinator == Close) && forall j :: 0 <= j < |chain| ==> Flat(chain[j])
    ensures MatchChain(t, chain, |chain| - 1, el, 0) <==> forall s :: s in chain ==> Holds(t, s, el)
  {
    hide MatchChain, Holds;
    var cs := [chain];
    assert cs[..0] == [] && Joined(cs) == [] + chain == chain;
    MatchesCompounds(t, cs, el);
  }

  ghost predicate MadeOf(chain: seq<Simple>, cs: seq<Compound>) {
    AreCompounds(cs) && Joined(cs) == chain
  }

  /** :not(), :is() and :has() included, and whatever the budget: a chain selects the element exactly
      if the compounds that it consists of do. */
  lemma SelectedByCompounds(t: Tree, chain: Chain, x: Path)
    requires chain.parts != []
    ensures SelectedByChain(t, chain, x) <==> exists cs :: MadeOf(chain.parts, cs) && SelectedBack(t, cs, x)
  {
    hide Selected, SelectedBack, AreCompounds, Joined;
    var cs := Split(chain.parts);
    CompoundsSelect(t, cs, x);
    assert MadeOf(chain.parts, cs);
    forall other | MadeOf(chain.parts, other)
      ensures SelectedBack(t, other, x) <==> x in Selected(t, chain.parts, |chain.parts| - 1)
    {
      CompoundsSelect(t, other, x);
    }
  }
}
