/** CSS selectors: what they select, and the right-to-left backtracking matcher. */
module Selectors {
  import opened Dom

  /** How a simple selector relates to the one on its left: Close keeps it in the
      same compound, the others start a new compound. */
  datatype Combinator = Close | Descendant | Child | NextSibling | LaterSibling | Unsupported

  /** A simple selector. Leaf stands for the tests on name, id, class, attributes,
      text and scope, each a fixed property of the node. */
  datatype Simple =
    | Universal(combinator: Combinator)
    | Leaf(combinator: Combinator, holds: Path -> bool)
    | NthChild(combinator: Combinator, a: int, b: int)
    | NthLastChild(combinator: Combinator, a: int, b: int)
    | Not(combinator: Combinator, list: seq<Chain>)
    | Is(combinator: Combinator, list: seq<Chain>)
    | HasMatch(combinator: Combinator, list: seq<Chain>)

  /** One alternative of a selector list: simple selectors, leftmost first. */
  datatype Chain = Chain(parts: seq<Simple>)

  const MAX_DEPTH: nat := 64

  // ----- element positions and an+b -----

  function Elements(nodes: seq<Tree>): nat {
    if nodes == [] then 0
    else Elements(nodes[..|nodes| - 1]) + if nodes[|nodes| - 1].element then 1 else 0
  }

  /** The children of the node's parent. */
  function Siblings(t: Tree, el: Path): seq<Tree>
    requires Has(t, el) && el != []
  {
    HasPrefix(t, el, |el| - 1);
    At(t, Parent(el)).children
  }

  lemma SiblingFacts(t: Tree, el: Path)
    requires Has(t, el) && el != []
    ensures Last(el) < |Siblings(t, el)| && At(t, el) == Siblings(t, el)[Last(el)]
    ensures forall k: nat :: Has(t, Sibling(el, k)) <==> k < |Siblings(t, el)|
    ensures forall k :: 0 <= k < |Siblings(t, el)| ==> At(t, Sibling(el, k)) == Siblings(t, el)[k]
  {
    HasPrefix(t, el, |el| - 1);
    assert el == Sibling(el, Last(el));
    HasChild(t, Parent(el), Last(el));
    forall k: nat ensures Has(t, Sibling(el, k)) <==> k < |Siblings(t, el)|
             ensures Has(t, Sibling(el, k)) ==> At(t, Sibling(el, k)) == Siblings(t, el)[k]
    {
      HasChild(t, Parent(el), k);
    }
  }

  /** Division that truncates toward zero. */
  function TruncDiv(x: int, y: int): int
    requires y != 0
  {
    if (x >= 0) == (y > 0) then (if x >= 0 then x else -x) / (if y > 0 then y else -y)
    else -((if x >= 0 then x else -x) / (if y > 0 then y else -y))
  }

  function AnbMatch(a: int, b: int, n: int): bool {
    if a == 0 then n == b
    else
      var m := TruncDiv(n - b, a);
      m >= 0 && a * m + b == n
  }

  /** The test holds exactly for the positions that a*m + b reaches with m >= 0. */
  lemma AnbMeaning(a: int, b: int, n: int)
    ensures AnbMatch(a, b, n) <==> exists m: nat :: a * m + b == n
  {
    if a == 0 {
      assert n == b ==> a * 0 + b == n;
    } else if m: nat :| a * m + b == n {
      TruncDivExact(a, m);
    }
  }

  lemma TruncDivExact(a: int, m: nat)
    requires a != 0
    ensures TruncDiv(a * m, a) == m
  {
    var d := if a > 0 then a else -a;
    if a > 0 {
      DivExact(m, a);
    } else {
      DivExact(m, d);
      assert -(a * m) == m * d;
      assert a * m <= 0 by { assert m * d >= 0; }
    }
  }

  lemma DivExact(m: nat, d: nat)
    requires d > 0
    ensures m * d / d == m && m * d >= 0 && d * m == m * d
  {
    var q, r := m * d / d, m * d % d;
    assert m * d == d * q + r;
    assert d * (m - q) == r;
    MulBounds(d, m - q);
  }

  lemma MulBounds(d: int, k: int)
    requires d > 0
    ensures k >= 1 ==> d * k >= d
    ensures k <= -1 ==> d * k <= -d
    ensures d * k == k * d
  {
    if k >= 1 {
      assert d * (k - 1) >= 0;
    } else if k <= -1 {
      assert d * (-1 - k) >= 0;
    }
  }

  // ----- what a selector selects -----

  /** Where the compound that ends at i begins. */
  function HeadOf(chain: seq<Simple>, i: nat): (h: nat)
    requires i < |chain|
    ensures h <= i
  {
    if i > 0 && chain[i].combinator == Close then HeadOf(chain, i - 1) else i
  }

  ghost predicate NearestBefore(t: Tree, y: Path, x: Path) {
    && x != [] && |y| == |x| && Parent(y) == Parent(x) && Last(y) < Last(x)
    && forall k :: Last(y) < k < Last(x) ==> !IsElement(t, Sibling(x, k))
  }

  /** y stands to x as the combinator says. */
  ghost predicate Related(t: Tree, c: Combinator, y: Path, x: Path) {
    match c
    case Descendant => y < x
    case Child => x != [] && y == Parent(x)
    case NextSibling => NearestBefore(t, y, x)
    case LaterSibling => x != [] && |y| == |x| && Parent(y) == Parent(x) && Last(y) < Last(x)
    case _ => false
  }

  ghost function AllElements(t: Tree): set<Path> {
    set x | x in Preorder(t, []) && IsElement(t, x)
  }

  lemma AllElementsAre(t: Tree, x: Path)
    ensures x in AllElements(t) <==> IsElement(t, x)
  {
    PreorderMembers(t, [], x);
    assert x[0..] == x;
  }

  /** The elements reached from those in s through the combinator. */
  ghost function Propagate(t: Tree, s: set<Path>, c: Combinator): set<Path> {
    set x | x in AllElements(t) && exists y :: y in s && Related(t, c, y, x)
  }

  /** The elements selected by the part of the chain up to i, from left to right:
      those reached from what the left part selects, and passing the compound. */
  ghost function Selected(t: Tree, chain: seq<Simple>, i: nat): set<Path>
    requires i < |chain|
    decreases chain, i
  {
    var h := HeadOf(chain, i);
    var candidates := if h == 0 then AllElements(t)
                      else Propagate(t, Selected(t, chain, h - 1), chain[h].combinator);
    set x | x in candidates && forall j :: h <= j <= i ==> Holds(t, chain[j], x)
  }

  ghost predicate SelectedByChain(t: Tree, chain: Chain, x: Path)
    decreases chain
  {
    chain.parts != [] && x in Selected(t, chain.parts, |chain.parts| - 1)
  }

  ghost predicate SelectedByAny(t: Tree, list: seq<Chain>, x: Path)
    decreases list, 0
  {
    exists l :: 0 <= l < |list| && SelectedByChain(t, list[l], x)
  }

  /** Some element below x is selected. */
  ghost predicate SelectedBelow(t: Tree, list: seq<Chain>, x: Path)
    decreases list, 1
  {
    exists d :: x < d && IsElement(t, d) && SelectedByAny(t, list, d)
  }

  /** The position of an element among its parent's elements, from the front or the back. */
  ghost function PositionOf(t: Tree, x: Path, fromEnd: bool): nat
    requires Has(t, x) && x != [] && Last(x) < |Siblings(t, x)|
  {
    var nodes := Siblings(t, x);
    1 + Elements(if fromEnd then nodes[Last(x) + 1..] else nodes[..Last(x)])
  }

  ghost predicate AtPosition(t: Tree, x: Path, a: int, b: int, fromEnd: bool) {
    && Has(t, x) && x != []
    && Last(x) < |Siblings(t, x)|
    && exists m: nat :: a * m + b == PositionOf(t, x, fromEnd)
  }

  ghost predicate Holds(t: Tree, simple: Simple, x: Path)
    decreases simple
  {
    match simple
    case Universal(_) => true
    case Leaf(_, holds) => holds(x)
    case NthChild(_, a, b) => AtPosition(t, x, a, b, false)
    case NthLastChild(_, a, b) => AtPosition(t, x, a, b, true)
    case Not(_, list) => !SelectedByAny(t, list, x)
    case Is(_, list) => SelectedByAny(t, list, x)
    case HasMatch(_, list) => SelectedBelow(t, list, x)
  }

  // ----- the matcher, right to left, with a budget of nested calls -----

  function Left(depth: nat): nat {
    if depth > MAX_DEPTH then 0 else MAX_DEPTH + 1 - depth
  }

  /** Does el match the part of the chain that ends with the compound at i? */
  ghost predicate MatchChain(t: Tree, chain: seq<Simple>, i: nat, el: Path, depth: nat)
    requires i < |chain| && Has(t, el)
    decreases Left(depth), 1
  {
    && depth <= MAX_DEPTH
    && var h := HeadOf(chain, i);
       && (forall j :: h <= j <= i ==> MatchSimple(t, chain[j], el, depth))
       && (h == 0 || exists y :: Related(t, chain[h].combinator, y, el) && IsElement(t, y) && MatchChain(t, chain, h - 1, y, depth + 1))
  }

  ghost predicate MatchSimple(t: Tree, simple: Simple, el: Path, depth: nat)
    requires Has(t, el)
    decreases Left(depth), 0
  {
    match simple
    case Not(_, list) => !(depth <= MAX_DEPTH && MatchAny(t, list, el, depth + 1))
    case Is(_, list) => depth <= MAX_DEPTH && MatchAny(t, list, el, depth + 1)
    case HasMatch(_, list) => depth <= MAX_DEPTH && MatchDescendant(t, list, el, depth + 1)
    case _ => Holds(t, simple, el)
  }

  ghost predicate MatchAny(t: Tree, list: seq<Chain>, el: Path, depth: nat)
    requires Has(t, el)
    decreases Left(depth), 2
  {
    && depth <= MAX_DEPTH
    && exists l :: 0 <= l < |list| && list[l].parts != [] && MatchChain(t, list[l].parts, |list[l].parts| - 1, el, depth)
  }

  /** Is there a matching element below el, looking only inside elements? */
  ghost predicate MatchDescendant(t: Tree, list: seq<Chain>, el: Path, depth: nat)
    requires Has(t, el)
    decreases Left(depth), 3
  {
    && depth <= MAX_DEPTH
    && exists k :: IsElement(t, el + [k]) &&
         (MatchAny(t, list, el + [k], depth) || MatchDescendant(t, list, el + [k], depth + 1))
  }

  lemma SelectedAreElements(t: Tree, chain: seq<Simple>, i: nat, x: Path)
    requires i < |chain|
    ensures x in Selected(t, chain, i) ==> IsElement(t, x)
  {
    AllElementsAre(t, x);
  }

  // ----- what the budget leaves of a selector -----

  // The same propagation from left to right, where every combinator and every nested list costs one
  // unit of the budget, and :has() one for each level that it descends.

  ghost function SelectedIn(t: Tree, chain: seq<Simple>, i: nat, budget: int): set<Path>
    requires i < |chain|
    decreases chain, i
  {
    var h := HeadOf(chain, i);
    var candidates := if h == 0 then AllElements(t)
                      else Propagate(t, SelectedIn(t, chain, h - 1, budget - 1), chain[h].combinator);
    set x | budget >= 0 && x in candidates && forall j :: h <= j <= i ==> HoldsIn(t, chain[j], x, budget)
  }

  ghost predicate ChainIn(t: Tree, chain: Chain, x: Path, budget: int)
    decreases chain
  {
    chain.parts != [] && x in SelectedIn(t, chain.parts, |chain.parts| - 1, budget)
  }

  ghost predicate AnyIn(t: Tree, list: seq<Chain>, x: Path, budget: int)
    decreases list, 0
  {
    exists l :: 0 <= l < |list| && ChainIn(t, list[l], x, budget)
  }

  ghost predicate BelowIn(t: Tree, list: seq<Chain>, x: Path, budget: int)
    decreases list, 1
  {
    exists d :: x < d && IsElement(t, d) && AnyIn(t, list, d, budget - (|d| - |x|))
  }

  ghost predicate HoldsIn(t: Tree, simple: Simple, x: Path, budget: int)
    decreases simple
  {
    match simple
    case Not(_, list) => !AnyIn(t, list, x, budget - 1)
    case Is(_, list) => AnyIn(t, list, x, budget - 1)
    case HasMatch(_, list) => BelowIn(t, list, x, budget)
    case _ => Holds(t, simple, x)
  }

  lemma SelectedInElements(t: Tree, chain: seq<Simple>, i: nat, budget: int, x: Path)
    requires i < |chain|
    ensures x in SelectedIn(t, chain, i, budget) ==> IsElement(t, x) && budget >= 0
  {
    AllElementsAre(t, x);
  }

  lemma NothingWithoutBudget(t: Tree, list: seq<Chain>, x: Path, budget: int)
    requires budget < 0
    ensures !AnyIn(t, list, x, budget)
  {
    forall l | 0 <= l < |list|
      ensures !ChainIn(t, list[l], x, budget)
    {
      if list[l].parts != [] {
        SelectedInElements(t, list[l].parts, |list[l].parts| - 1, budget, x);
      }
    }
  }

  // ----- the matcher decides exactly that -----

  /** Text and comments are leaves: below the root only elements have children. */
  ghost predicate Proper(t: Tree) {
    forall p :: Has(t, p) && p != [] && At(t, p).children != [] ==> At(t, p).element
  }

  lemma {:induction false} ChainIs(t: Tree, chain: seq<Simple>, i: nat, el: Path, depth: nat)
    requires Proper(t) && i < |chain| && IsElement(t, el)
    ensures MatchChain(t, chain, i, el, depth) <==> el in SelectedIn(t, chain, i, MAX_DEPTH - depth)
    decreases Left(depth), 1
  {
    hide MatchSimple, HoldsIn;
    if depth <= MAX_DEPTH {
      var h := HeadOf(chain, i);
      forall j | h <= j <= i
        ensures MatchSimple(t, chain[j], el, depth) <==> HoldsIn(t, chain[j], el, MAX_DEPTH - depth)
      {
        SimpleIs(t, chain[j], el, depth);
      }
      AllElementsAre(t, el);
      if h > 0 {
        LeftIs(t, chain, h, el, depth);
      }
    }
  }

  /** What matches left of a combinator is what it propagates. */
  lemma {:induction false} LeftIs(t: Tree, chain: seq<Simple>, h: nat, el: Path, depth: nat)
    requires Proper(t) && 0 < h < |chain| && IsElement(t, el) && depth <= MAX_DEPTH
    ensures el in Propagate(t, SelectedIn(t, chain, h - 1, MAX_DEPTH - depth - 1), chain[h].combinator) <==>
              exists y :: Related(t, chain[h].combinator, y, el) && IsElement(t, y) && MatchChain(t, chain, h - 1, y, depth + 1)
    decreases Left(depth), 0
  {
    hide MatchChain, SelectedIn;
    AllElementsAre(t, el);
    var c, left := chain[h].combinator, SelectedIn(t, chain, h - 1, MAX_DEPTH - depth - 1);
    if y :| y in left && Related(t, c, y, el) {
      SelectedInElements(t, chain, h - 1, MAX_DEPTH - depth - 1, y);
      ChainIs(t, chain, h - 1, y, depth + 1);
    }
    if y :| Related(t, c, y, el) && IsElement(t, y) && MatchChain(t, chain, h - 1, y, depth + 1) {
      ChainIs(t, chain, h - 1, y, depth + 1);
    }
  }

  lemma {:induction false} SimpleIs(t: Tree, simple: Simple, el: Path, depth: nat)
    requires Proper(t) && IsElement(t, el) && depth <= MAX_DEPTH
    ensures MatchSimple(t, simple, el, depth) <==> HoldsIn(t, simple, el, MAX_DEPTH - depth)
    decreases Left(depth), 0
  {
    hide MatchAny, AnyIn, MatchDescendant, BelowIn, Holds;
    match simple
    case Not(_, list) => AnyIs(t, list, el, depth + 1);
    case Is(_, list) => AnyIs(t, list, el, depth + 1);
    case HasMatch(_, list) => DescendantIs(t, list, el, depth + 1);
    case _ =>
  }

  lemma {:induction false} AnyIs(t: Tree, list: seq<Chain>, el: Path, depth: nat)
    requires Proper(t) && IsElement(t, el)
    ensures MatchAny(t, list, el, depth) <==> AnyIn(t, list, el, MAX_DEPTH - depth)
    decreases Left(depth), 2
  {
    hide MatchChain, SelectedIn;
    if depth > MAX_DEPTH {
      NothingWithoutBudget(t, list, el, MAX_DEPTH - depth);
    } else {
      forall l | 0 <= l < |list| && list[l].parts != []
        ensures MatchChain(t, list[l].parts, |list[l].parts| - 1, el, depth) <==> ChainIn(t, list[l], el, MAX_DEPTH - depth)
      {
        ChainIs(t, list[l].parts, |list[l].parts| - 1, el, depth);
      }
    }
  }

  /** The search of :has() tries every element below el, each with what its level leaves of the budget. */
  lemma {:induction false} DescendantIs(t: Tree, list: seq<Chain>, el: Path, depth: nat)
    requires Proper(t) && Has(t, el)
    ensures MatchDescendant(t, list, el, depth) <==> BelowIn(t, list, el, MAX_DEPTH - depth + 1)
    decreases Left(depth), 4
  {
    if depth > MAX_DEPTH {
      forall d | el < d
        ensures !AnyIn(t, list, d, MAX_DEPTH - depth + 1 - (|d| - |el|))
      {
        NothingWithoutBudget(t, list, d, MAX_DEPTH - depth + 1 - (|d| - |el|));
      }
    } else {
      hide MatchAny, AnyIn, BelowIn;
      BelowByChild(t, list, el, MAX_DEPTH - depth + 1);
      forall k: nat | IsElement(t, el + [k])
        ensures MatchAny(t, list, el + [k], depth) <==> AnyIn(t, list, el + [k], MAX_DEPTH - depth)
        ensures MatchDescendant(t, list, el + [k], depth + 1) <==> BelowIn(t, list, el + [k], MAX_DEPTH - depth)
      {
        AnyIs(t, list, el + [k], depth);
        DescendantIs(t, list, el + [k], depth + 1);
      }
    }
  }

  /** Below el means at or below one of its children that is an element. */
  lemma BelowByChild(t: Tree, list: seq<Chain>, el: Path, budget: int)
    requires Proper(t)
    ensures BelowIn(t, list, el, budget) <==>
              exists k: nat :: IsElement(t, el + [k]) &&
                (AnyIn(t, list, el + [k], budget - 1) || BelowIn(t, list, el + [k], budget - 1))
  {
    hide AnyIn;
    if BelowIn(t, list, el, budget) {
      var d :| el < d && IsElement(t, d) && AnyIn(t, list, d, budget - (|d| - |el|));
      FirstStep(t, el, d);
    }
  }

  lemma FirstStep(t: Tree, el: Path, d: Path)
    requires Proper(t) && el < d && IsElement(t, d)
    ensures IsElement(t, el + [d[|el|]]) && (d == el + [d[|el|]] || el + [d[|el|]] < d)
  {
    var c := el + [d[|el|]];
    assert c == d[..|c|];
    HasPrefix(t, d, |c|);
    if c != d {
      assert c + d[|c|..] == d;
      HasConcat(t, c, d[|c|..]);
      assert d[|c|..][0] < |At(t, c).children|;
    }
  }

  /** For every tree and every selector list, nested as it may be. */
  lemma MatcherIsBounded(t: Tree, list: seq<Chain>, el: Path)
    requires Proper(t) && IsElement(t, el)
    ensures MatchAny(t, list, el, 0) <==> AnyIn(t, list, el, MAX_DEPTH)
  {
    hide MatchAny, AnyIn;
    AnyIs(t, list, el, 0);
  }

  // ----- selectors without :not() -----

  predicate Positive(simple: Simple)
    decreases simple
  {
    match simple
    case Not(_, _) => false
    case Is(_, list) => PositiveList(list)
    case HasMatch(_, list) => PositiveList(list)
    case _ => true
  }

  predicate PositiveList(list: seq<Chain>)
    decreases list
  {
    forall l :: 0 <= l < |list| ==> PositiveChain(list[l])
  }

  predicate PositiveChain(chain: Chain)
    decreases chain
  {
    forall j :: 0 <= j < |chain.parts| ==> Positive(chain.parts[j])
  }

  /** What the budget leaves was selected anyway. */
  lemma {:induction false} PositiveChainSound(t: Tree, chain: seq<Simple>, i: nat, x: Path, budget: int)
    requires i < |chain| && (forall j :: 0 <= j < |chain| ==> Positive(chain[j]))
    ensures x in SelectedIn(t, chain, i, budget) ==> x in Selected(t, chain, i)
    decreases chain, i
  {
    hide HoldsIn, Holds, Positive;
    var h := HeadOf(chain, i);
    forall j | h <= j <= i
      ensures HoldsIn(t, chain[j], x, budget) ==> Holds(t, chain[j], x)
    {
      PositiveHoldsSound(t, chain[j], x, budget);
    }
    if h > 0 {
      var left, all := SelectedIn(t, chain, h - 1, budget - 1), Selected(t, chain, h - 1);
      forall y | y in left
        ensures y in all
      {
        PositiveChainSound(t, chain, h - 1, y, budget - 1);
      }
    }
  }

  lemma {:induction false} PositiveHoldsSound(t: Tree, simple: Simple, x: Path, budget: int)
    requires Positive(simple)
    ensures HoldsIn(t, simple, x, budget) ==> Holds(t, simple, x)
    decreases simple
  {
    hide AnyIn, SelectedByAny;
    match simple
    case Is(_, list) => PositiveIsSound(t, list, x, budget - 1);
    case HasMatch(_, list) =>
      if BelowIn(t, list, x, budget) {
        var d :| x < d && IsElement(t, d) && AnyIn(t, list, d, budget - (|d| - |x|));
        PositiveIsSound(t, list, d, budget - (|d| - |x|));
      }
    case _ =>
  }

  lemma {:induction false} PositiveIsSound(t: Tree, list: seq<Chain>, x: Path, budget: int)
    requires PositiveList(list)
    ensures AnyIn(t, list, x, budget) ==> SelectedByAny(t, list, x)
    decreases list
  {
    hide ChainIn, SelectedByChain, PositiveChain;
    forall l | 0 <= l < |list|
      ensures ChainIn(t, list[l], x, budget) ==> SelectedByChain(t, list[l], x)
    {
      PositiveOneSound(t, list[l], x, budget);
    }
  }

  lemma {:induction false} PositiveOneSound(t: Tree, chain: Chain, x: Path, budget: int)
    requires PositiveChain(chain)
    ensures ChainIn(t, chain, x, budget) ==> SelectedByChain(t, chain, x)
    decreases chain
  {
    hide SelectedIn, Selected;
    if chain.parts != [] {
      PositiveChainSound(t, chain.parts, |chain.parts| - 1, x, budget);
    }
  }

  /** More budget leaves more. */
  lemma {:induction false} PositiveChainGrows(t: Tree, chain: seq<Simple>, i: nat, x: Path, b: int, c: int)
    requires i < |chain| && (forall j :: 0 <= j < |chain| ==> Positive(chain[j])) && b <= c
    ensures x in SelectedIn(t, chain, i, b) ==> x in SelectedIn(t, chain, i, c)
    decreases chain, i
  {
    hide HoldsIn, Positive;
    var h := HeadOf(chain, i);
    forall j | h <= j <= i
      ensures HoldsIn(t, chain[j], x, b) ==> HoldsIn(t, chain[j], x, c)
    {
      PositiveHoldsGrows(t, chain[j], x, b, c);
    }
    if h > 0 {
      var less, more := SelectedIn(t, chain, h - 1, b - 1), SelectedIn(t, chain, h - 1, c - 1);
      forall y | y in less
        ensures y in more
      {
        PositiveChainGrows(t, chain, h - 1, y, b - 1, c - 1);
      }
    }
  }

  lemma {:induction false} PositiveHoldsGrows(t: Tree, simple: Simple, x: Path, b: int, c: int)
    requires Positive(simple) && b <= c
    ensures HoldsIn(t, simple, x, b) ==> HoldsIn(t, simple, x, c)
    decreases simple
  {
    hide AnyIn;
    match simple
    case Is(_, list) => PositiveGrows(t, list, x, b - 1, c - 1);
    case HasMatch(_, list) =>
      if BelowIn(t, list, x, b) {
        var d :| x < d && IsElement(t, d) && AnyIn(t, list, d, b - (|d| - |x|));
        PositiveGrows(t, list, d, b - (|d| - |x|), c - (|d| - |x|));
      }
    case _ =>
  }

  lemma {:induction false} PositiveGrows(t: Tree, list: seq<Chain>, x: Path, b: int, c: int)
    requires PositiveList(list) && b <= c
    ensures AnyIn(t, list, x, b) ==> AnyIn(t, list, x, c)
    decreases list
  {
    hide ChainIn, PositiveChain;
    forall l | 0 <= l < |list|
      ensures ChainIn(t, list[l], x, b) ==> ChainIn(t, list[l], x, c)
    {
      PositiveOneGrows(t, list[l], x, b, c);
    }
  }

  lemma {:induction false} PositiveOneGrows(t: Tree, chain: Chain, x: Path, b: int, c: int)
    requires PositiveChain(chain) && b <= c
    ensures ChainIn(t, chain, x, b) ==> ChainIn(t, chain, x, c)
    decreases chain
  {
    hide SelectedIn;
    if chain.parts != [] {
      PositiveChainGrows(t, chain.parts, |chain.parts| - 1, x, b, c);
    }
  }

  /** A selected element passes its compound, and something left of it selected it. */
  lemma SelectedParts(t: Tree, chain: seq<Simple>, i: nat, x: Path) returns (y: Path)
    requires i < |chain| && x in Selected(t, chain, i)
    ensures x in AllElements(t) && forall j :: HeadOf(chain, i) <= j <= i ==> Holds(t, chain[j], x)
    ensures HeadOf(chain, i) > 0 ==>
              y in Selected(t, chain, HeadOf(chain, i) - 1) && Related(t, chain[HeadOf(chain, i)].combinator, y, x)
  {
    hide Holds;
    var h := HeadOf(chain, i);
    y := x;
    if h > 0 {
      var left := Selected(t, chain, h - 1);
      y :| y in left && Related(t, chain[h].combinator, y, x);
    }
  }

  lemma InFirstCompound(t: Tree, chain: seq<Simple>, i: nat, x: Path, b: nat)
    requires i < |chain| && HeadOf(chain, i) == 0 && x in AllElements(t)
    requires forall j :: 0 <= j <= i ==> HoldsIn(t, chain[j], x, b)
    ensures x in SelectedIn(t, chain, i, b)
  {
    hide HoldsIn;
  }

  /** Some budget suffices for a selected element. */
  lemma {:induction false} EnoughForChain(t: Tree, chain: seq<Simple>, i: nat, x: Path) returns (b: nat)
    requires i < |chain| && (forall j :: 0 <= j < |chain| ==> Positive(chain[j])) && x in Selected(t, chain, i)
    ensures x in SelectedIn(t, chain, i, b)
    decreases chain, i, 1
  {
    hide Selected, SelectedIn, Holds, HoldsIn, Positive;
    var y := SelectedParts(t, chain, i, x);
    b := EnoughForCompound(t, chain, HeadOf(chain, i), i, x);
    if HeadOf(chain, i) > 0 {
      var c := EnoughForChain(t, chain, HeadOf(chain, i) - 1, y);
      b := JoinLeft(t, chain, i, x, b, y, c);
    } else {
      InFirstCompound(t, chain, i, x, b);
    }
  }

  lemma JoinLeft(t: Tree, chain: seq<Simple>, i: nat, x: Path, b: nat, y: Path, c: nat) returns (most: nat)
    requires i < |chain| && (forall j :: 0 <= j < |chain| ==> Positive(chain[j])) && HeadOf(chain, i) > 0
    requires x in AllElements(t) && forall j :: HeadOf(chain, i) <= j <= i ==> HoldsIn(t, chain[j], x, b)
    requires y in SelectedIn(t, chain, HeadOf(chain, i) - 1, c) && Related(t, chain[HeadOf(chain, i)].combinator, y, x)
    ensures x in SelectedIn(t, chain, i, most)
  {
    hide HoldsIn, Positive;
    var h := HeadOf(chain, i);
    most := 1 + if b > c then b else c;
    PositiveChainGrows(t, chain, h - 1, y, c, most - 1);
    forall j | h <= j <= i
      ensures HoldsIn(t, chain[j], x, most)
    {
      PositiveHoldsGrows(t, chain[j], x, b, most);
    }
  }

  lemma {:induction false} EnoughForCompound(t: Tree, chain: seq<Simple>, h: nat, i: nat, x: Path) returns (b: nat)
    requires i < |chain| && (forall j :: 0 <= j < |chain| ==> Positive(chain[j]))
    requires forall j :: h <= j <= i ==> Holds(t, chain[j], x)
    ensures forall j :: h <= j <= i ==> HoldsIn(t, chain[j], x, b)
    decreases chain, i, 0
  {
    hide Holds, HoldsIn, Positive;
    b := 0;
    for k := 0 to i + 1
      invariant forall j :: h <= j < k ==> HoldsIn(t, chain[j], x, b)
    {
      if k >= h {
        var c := EnoughToHold(t, chain[k], x);
        var most := if b > c then b else c;
        forall j | h <= j <= k
          ensures HoldsIn(t, chain[j], x, most)
        {
          PositiveHoldsGrows(t, chain[j], x, if j == k then c else b, most);
        }
        b := most;
      }
    }
  }

  lemma {:induction false} EnoughToHold(t: Tree, simple: Simple, x: Path) returns (b: nat)
    requires Positive(simple) && Holds(t, simple, x)
    ensures HoldsIn(t, simple, x, b)
    decreases simple
  {
    b := 0;
    match simple
    case Is(_, list) =>
      b := EnoughForAny(t, list, x);
      b := b + 1;
    case HasMatch(_, list) =>
      var d :| x < d && IsElement(t, d) && SelectedByAny(t, list, d);
      b := EnoughForAny(t, list, d);
      b := b + |d| - |x|;
    case _ =>
  }

  lemma {:induction false} EnoughForAny(t: Tree, list: seq<Chain>, x: Path) returns (b: nat)
    requires PositiveList(list) && SelectedByAny(t, list, x)
    ensures AnyIn(t, list, x, b)
    decreases list
  {
    hide ChainIn, SelectedByChain, PositiveChain;
    var l :| 0 <= l < |list| && SelectedByChain(t, list[l], x);
    b := EnoughForOne(t, list[l], x);
  }

  lemma {:induction false} EnoughForOne(t: Tree, chain: Chain, x: Path) returns (b: nat)
    requires PositiveChain(chain) && SelectedByChain(t, chain, x)
    ensures ChainIn(t, chain, x, b)
    decreases chain
  {
    hide Selected, SelectedIn;
    b := EnoughForChain(t, chain.parts, |chain.parts| - 1, x);
  }

  lemma PositiveHasBudget(t: Tree, list: seq<Chain>, x: Path)
    requires PositiveList(list)
    ensures SelectedByAny(t, list, x) <==> exists b: nat :: AnyIn(t, list, x, b)
  {
    hide AnyIn, SelectedByAny;
    if SelectedByAny(t, list, x) {
      var b := EnoughForAny(t, list, x);
      assert AnyIn(t, list, x, b);
    }
    if b: nat :| AnyIn(t, list, x, b) {
      PositiveIsSound(t, list, x, b);
    }
  }

  /** Without :not(), whatever the tree's depth: an accepted element is selected, and a selected one is
      missed only because the least budget that it takes exceeds 64. */
  lemma PositiveNeedsBudget(t: Tree, list: seq<Chain>, x: Path)
    requires Proper(t) && IsElement(t, x) && PositiveList(list)
    ensures MatchAny(t, list, x, 0) ==> SelectedByAny(t, list, x)
    ensures SelectedByAny(t, list, x) <==> exists b: nat :: AnyIn(t, list, x, b)
    ensures MatchAny(t, list, x, 0) <==> exists b: nat :: b <= MAX_DEPTH && AnyIn(t, list, x, b)
  {
    hide MatchAny, AnyIn, SelectedByAny;
    MatcherIsBounded(t, list, x);
    PositiveIsSound(t, list, x, MAX_DEPTH);
    PositiveHasBudget(t, list, x);
    if b: nat :| b <= MAX_DEPTH && AnyIn(t, list, x, b) {
      PositiveGrows(t, list, x, b, MAX_DEPTH);
    }
  }

  // ----- the budget suffices -----

  /** Whatever the simple selector looks at around x fits the budget. For :has() that is: some target
      fits; or every element below does, each with what its level leaves; or, when no :not() can turn
      a shortage into a match, there is no target at all. */
  ghost predicate FitsSimple(t: Tree, simple: Simple, x: Path, budget: int)
    decreases simple
  {
    match simple
    case Not(_, list) => FitsList(t, list, x, budget - 1)
    case Is(_, list) => FitsList(t, list, x, budget - 1)
    case HasMatch(_, list) =>
      || (exists d :: x < d && IsElement(t, d) && SelectedByAny(t, list, d) && FitsList(t, list, d, budget - (|d| - |x|)))
      || (forall d :: x < d && IsElement(t, d) ==> FitsList(t, list, d, budget - (|d| - |x|)))
      || (PositiveList(list) && !SelectedBelow(t, list, x))
    case _ => true
  }

  /** So do the compound at i and, one unit cheaper, the left part at everything it may be tried on. */
  ghost predicate FitsChain(t: Tree, chain: seq<Simple>, i: nat, x: Path, budget: int)
    requires i < |chain|
    decreases chain, i
  {
    var h := HeadOf(chain, i);
    && budget >= 0
    && (forall j :: h <= j <= i ==> FitsSimple(t, chain[j], x, budget))
    && (h == 0 || forall y :: Related(t, chain[h].combinator, y, x) && IsElement(t, y) ==>
                    FitsChain(t, chain, h - 1, y, budget - 1))
  }

  ghost predicate FitsOne(t: Tree, chain: Chain, x: Path, budget: int)
    decreases chain
  {
    chain.parts == [] || FitsChain(t, chain.parts, |chain.parts| - 1, x, budget)
  }

  ghost predicate FitsList(t: Tree, list: seq<Chain>, x: Path, budget: int)
    decreases list
  {
    forall l :: 0 <= l < |list| ==> FitsOne(t, list[l], x, budget)
  }

  lemma {:induction false} FitsChainIs(t: Tree, chain: seq<Simple>, i: nat, x: Path, budget: int)
    requires i < |chain| && IsElement(t, x) && FitsChain(t, chain, i, x, budget)
    ensures x in SelectedIn(t, chain, i, budget) <==> x in Selected(t, chain, i)
    decreases chain, i, 0
  {
    hide HoldsIn, Holds, FitsSimple;
    var h := HeadOf(chain, i);
    forall j | h <= j <= i
      ensures HoldsIn(t, chain[j], x, budget) <==> Holds(t, chain[j], x)
    {
      FitsHolds(t, chain[j], x, budget);
    }
    if h > 0 {
      FitsLeft(t, chain, h, x, budget - 1);
    }
  }

  lemma {:induction false} FitsLeft(t: Tree, chain: seq<Simple>, h: nat, x: Path, budget: int)
    requires 0 < h < |chain|
    requires forall y :: Related(t, chain[h].combinator, y, x) && IsElement(t, y) ==> FitsChain(t, chain, h - 1, y, budget)
    ensures x in Propagate(t, SelectedIn(t, chain, h - 1, budget), chain[h].combinator)
            <==> x in Propagate(t, Selected(t, chain, h - 1), chain[h].combinator)
    decreases chain, h - 1, 1
  {
    hide Selected, SelectedIn, FitsChain;
    var less, all := SelectedIn(t, chain, h - 1, budget), Selected(t, chain, h - 1);
    forall y | Related(t, chain[h].combinator, y, x)
      ensures y in less <==> y in all
    {
      SelectedInElements(t, chain, h - 1, budget, y);
      SelectedAreElements(t, chain, h - 1, y);
      if IsElement(t, y) {
        FitsChainIs(t, chain, h - 1, y, budget);
      }
    }
  }

  lemma {:induction false} FitsHolds(t: Tree, simple: Simple, x: Path, budget: int)
    requires IsElement(t, x) && FitsSimple(t, simple, x, budget)
    ensures HoldsIn(t, simple, x, budget) <==> Holds(t, simple, x)
    decreases simple
  {
    hide AnyIn, SelectedByAny, BelowIn, SelectedBelow;
    match simple
    case Not(_, list) => FitsAny(t, list, x, budget - 1);
    case Is(_, list) => FitsAny(t, list, x, budget - 1);
    case HasMatch(_, list) => FitsBelow(t, list, x, budget, simple);
    case _ =>
  }

  lemma {:induction false} FitsBelow(t: Tree, list: seq<Chain>, x: Path, budget: int, simple: Simple)
    requires simple.HasMatch? && simple.list == list && FitsSimple(t, simple, x, budget)
    ensures BelowIn(t, list, x, budget) <==> SelectedBelow(t, list, x)
    decreases list, 1
  {
    hide AnyIn, SelectedByAny, FitsList;
    if d :| x < d && IsElement(t, d) && SelectedByAny(t, list, d) && FitsList(t, list, d, budget - (|d| - |x|)) {
      FitsAny(t, list, d, budget - (|d| - |x|));
    } else if forall d :: x < d && IsElement(t, d) ==> FitsList(t, list, d, budget - (|d| - |x|)) {
      forall d | x < d && IsElement(t, d)
        ensures AnyIn(t, list, d, budget - (|d| - |x|)) <==> SelectedByAny(t, list, d)
      {
        FitsAny(t, list, d, budget - (|d| - |x|));
      }
    } else if BelowIn(t, list, x, budget) {
      var d :| x < d && IsElement(t, d) && AnyIn(t, list, d, budget - (|d| - |x|));
      PositiveIsSound(t, list, d, budget - (|d| - |x|));
    }
  }

  lemma {:induction false} FitsAny(t: Tree, list: seq<Chain>, x: Path, budget: int)
    requires IsElement(t, x) && FitsList(t, list, x, budget)
    ensures AnyIn(t, list, x, budget) <==> SelectedByAny(t, list, x)
    decreases list, 0
  {
    hide ChainIn, SelectedByChain, FitsOne;
    forall l | 0 <= l < |list|
      ensures ChainIn(t, list[l], x, budget) <==> SelectedByChain(t, list[l], x)
    {
      FitsOneIs(t, list[l], x, budget);
    }
  }

  lemma {:induction false} FitsOneIs(t: Tree, chain: Chain, x: Path, budget: int)
    requires IsElement(t, x) && FitsOne(t, chain, x, budget)
    ensures ChainIn(t, chain, x, budget) <==> SelectedByChain(t, chain, x)
    decreases chain
  {
    hide Selected, SelectedIn, FitsChain;
    if chain.parts != [] {
      FitsChainIs(t, chain.parts, |chain.parts| - 1, x, budget);
    }
  }

  /** For every selector list that fits the budget at the element. */
  lemma MatcherIsCorrect(t: Tree, list: seq<Chain>, x: Path)
    requires Proper(t) && IsElement(t, x) && FitsList(t, list, x, MAX_DEPTH)
    ensures MatchAny(t, list, x, 0) <==> SelectedByAny(t, list, x)
  {
    hide MatchAny, AnyIn, SelectedByAny, FitsList;
    MatcherIsBounded(t, list, x);
    FitsAny(t, list, x, MAX_DEPTH);
  }

  // ----- the budget, exactly, where lists are not nested -----

  /** The number of combinators that start a compound up to i. */
  function Compounds(chain: seq<Simple>, i: nat): nat
    requires i < |chain|
    decreases i
  {
    var h := HeadOf(chain, i);
    if h == 0 then 0 else 1 + Compounds(chain, h - 1)
  }

  predicate Flat(simple: Simple) {
    !simple.Not? && !simple.Is? && !simple.HasMatch?
  }

  /** A chain with too many compounds matches nothing. */
  lemma {:induction false} DeepChainsFail(t: Tree, chain: seq<Simple>, i: nat, el: Path, depth: nat)
    requires i < |chain| && Has(t, el) && depth + Compounds(chain, i) > MAX_DEPTH
    ensures !MatchChain(t, chain, i, el, depth)
    decreases i
  {
    var h := HeadOf(chain, i);
    if h > 0 {
      forall y | IsElement(t, y)
        ensures !MatchChain(t, chain, h - 1, y, depth + 1)
      {
        DeepChainsFail(t, chain, h - 1, y, depth + 1);
      }
    }
  }

  lemma {:induction false} FlatIn(t: Tree, chain: seq<Simple>, i: nat, x: Path, budget: int)
    requires i < |chain| && (forall j :: 0 <= j <= i ==> Flat(chain[j]))
    ensures x in SelectedIn(t, chain, i, budget) <==> x in Selected(t, chain, i) && Compounds(chain, i) <= budget
    decreases i
  {
    hide Holds;
    var h := HeadOf(chain, i);
    if h > 0 {
      var less, all := SelectedIn(t, chain, h - 1, budget - 1), Selected(t, chain, h - 1);
      forall y
        ensures y in less <==> y in all && Compounds(chain, h - 1) <= budget - 1
      {
        FlatIn(t, chain, h - 1, y, budget - 1);
      }
      assert less == if Compounds(chain, h - 1) <= budget - 1 then all else {};
    }
  }

  /** Without nested lists the matcher is right exactly when the element is not selected or the chain
      has at most 65 compounds, fewer by the calls it is nested in. */
  lemma FlatChainIs(t: Tree, chain: seq<Simple>, i: nat, el: Path, depth: nat)
    requires Proper(t) && IsElement(t, el)
    requires i < |chain| && forall j :: 0 <= j <= i ==> Flat(chain[j])
    ensures MatchChain(t, chain, i, el, depth)
            <==> el in Selected(t, chain, i) && depth + Compounds(chain, i) <= MAX_DEPTH
  {
    hide MatchChain, Selected, SelectedIn;
    ChainIs(t, chain, i, el, depth);
    FlatIn(t, chain, i, el, MAX_DEPTH - depth);
  }

  predicate FlatList(list: seq<Chain>) {
    forall l, j :: 0 <= l < |list| && 0 <= j < |list[l].parts| ==> Flat(list[l].parts[j])
  }

  /** A chain of the list selects d, and d's level below x and the chain's compounds take at most
      `budget` together. */
  ghost predicate WithinReach(t: Tree, list: seq<Chain>, x: Path, d: Path, budget: int) {
    exists l :: 0 <= l < |list| && SelectedByChain(t, list[l], d)
                && |d| - |x| + Compounds(list[l].parts, |list[l].parts| - 1) <= budget
  }

  lemma FlatReach(t: Tree, list: seq<Chain>, x: Path, d: Path, budget: int)
    requires FlatList(list)
    ensures AnyIn(t, list, d, budget - (|d| - |x|)) <==> WithinReach(t, list, x, d, budget)
  {
    hide Selected, SelectedIn;
    forall l | 0 <= l < |list| && list[l].parts != []
      ensures ChainIn(t, list[l], d, budget - (|d| - |x|))
              <==> SelectedByChain(t, list[l], d) && |d| - |x| + Compounds(list[l].parts, |list[l].parts| - 1) <= budget
    {
      FlatIn(t, list[l].parts, |list[l].parts| - 1, d, budget - (|d| - |x|));
    }
  }

  /** :has() of lists that are not nested finds exactly the targets within reach: it misses those more
      than 64 levels below the element, or fewer by as many as the chain has combinators and the
      :has() is nested in calls. */
  lemma HasReaches(t: Tree, c: Combinator, list: seq<Chain>, el: Path, depth: nat)
    requires Proper(t) && IsElement(t, el) && FlatList(list) && depth <= MAX_DEPTH
    ensures MatchSimple(t, HasMatch(c, list), el, depth)
            <==> exists d :: el < d && IsElement(t, d) && WithinReach(t, list, el, d, MAX_DEPTH - depth)
  {
    hide AnyIn, WithinReach;
    SimpleIs(t, HasMatch(c, list), el, depth);
    forall d
      ensures AnyIn(t, list, d, MAX_DEPTH - depth - (|d| - |el|)) <==> WithinReach(t, list, el, d, MAX_DEPTH - depth)
    {
      FlatReach(t, list, el, d, MAX_DEPTH - depth);
    }
  }

  // ----- the budget, exactly, for nested negations -----

  /** A list with the one chain that is the one simple selector. */
  function Alone(simple: Simple): seq<Chain> {
    [Chain([simple])]
  }

  /** :not(:not(... * ...)), n times. */
  function Nested(n: nat): Simple {
    if n == 0 then Universal(Close) else Not(Close, Alone(Nested(n - 1)))
  }

  lemma AloneIs(t: Tree, simple: Simple, x: Path)
    requires IsElement(t, x)
    ensures SelectedByAny(t, Alone(simple), x) <==> Holds(t, simple, x)
  {
    AllElementsAre(t, x);
    var list, parts := Alone(simple), [simple];
    assert parts[0] == simple && list[0] == Chain(parts);
    assert x in Selected(t, parts, 0) <==> forall j :: 0 <= j <= 0 ==> Holds(t, parts[j], x);
    assert SelectedByChain(t, list[0], x) <==> x in Selected(t, parts, 0);
  }

  lemma AloneIn(t: Tree, simple: Simple, x: Path, budget: int)
    requires IsElement(t, x)
    ensures AnyIn(t, Alone(simple), x, budget) <==> budget >= 0 && HoldsIn(t, simple, x, budget)
  {
    AllElementsAre(t, x);
    var list, parts := Alone(simple), [simple];
    assert parts[0] == simple && list[0] == Chain(parts);
    assert x in SelectedIn(t, parts, 0, budget)
        <==> budget >= 0 && forall j :: 0 <= j <= 0 ==> HoldsIn(t, parts[j], x, budget);
    assert ChainIn(t, list[0], x, budget) <==> x in SelectedIn(t, parts, 0, budget);
  }

  lemma {:induction false} NestedHolds(t: Tree, n: nat, x: Path)
    requires IsElement(t, x)
    ensures Holds(t, Nested(n), x) <==> n % 2 == 0
  {
    hide SelectedByAny;
    if n > 0 {
      NestedHolds(t, n - 1, x);
      AloneIs(t, Nested(n - 1), x);
    }
  }

  lemma {:induction false} NestedHoldsIn(t: Tree, n: nat, x: Path, budget: nat)
    requires IsElement(t, x)
    ensures n <= budget ==> (HoldsIn(t, Nested(n), x, budget) <==> n % 2 == 0)
    ensures n > budget ==> (HoldsIn(t, Nested(n), x, budget) <==> budget % 2 == 0)
  {
    hide AnyIn;
    if n > 0 {
      AloneIn(t, Nested(n - 1), x, budget - 1);
      if budget > 0 {
        NestedHoldsIn(t, n - 1, x, budget - 1);
      }
    }
  }

  lemma NestedSelects(t: Tree, n: nat, x: Path)
    requires IsElement(t, x)
    ensures SelectedByAny(t, Alone(Nested(n)), x) <==> n % 2 == 0
  {
    hide SelectedByAny, Holds;
    AloneIs(t, Nested(n), x);
    NestedHolds(t, n, x);
  }

  lemma NestedAccepts(t: Tree, n: nat, x: Path, depth: nat)
    requires Proper(t) && IsElement(t, x) && depth <= MAX_DEPTH
    ensures n <= MAX_DEPTH - depth ==> (MatchAny(t, Alone(Nested(n)), x, depth) <==> n % 2 == 0)
    ensures n > MAX_DEPTH - depth ==> (MatchAny(t, Alone(Nested(n)), x, depth) <==> depth % 2 == 0)
  {
    hide MatchAny, AnyIn, HoldsIn;
    AnyIs(t, Alone(Nested(n)), x, depth);
    AloneIn(t, Nested(n), x, MAX_DEPTH - depth);
    NestedHoldsIn(t, n, x, MAX_DEPTH - depth);
  }

  /** With nested negations the matcher is right exactly up to 64 of them or when their number is even:
      the negation that exhausts the budget accepts everything. */
  lemma NestedNotsAreRight(t: Tree, n: nat, x: Path)
    requires Proper(t) && IsElement(t, x)
    ensures (MatchAny(t, Alone(Nested(n)), x, 0) <==> SelectedByAny(t, Alone(Nested(n)), x))
            <==> n <= MAX_DEPTH || n % 2 == 0
  {
    hide MatchAny, SelectedByAny;
    NestedSelects(t, n, x);
    NestedAccepts(t, n, x, 0);
  }
}
