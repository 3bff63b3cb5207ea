/** The list functions that stream combinators compute, and what each of them means. */
module Lists {
  type Data(==, !new)

  /** What streams carry: pairs come from zip. */
  datatype Value = Unit | Atom(data: Data) | Pair(first: Value, second: Value)

  function Mapped(f: Value -> Value, s: seq<Value>): seq<Value> {
    if s == [] then [] else [f(s[0])] + Mapped(f, s[1..])
  }

  function Filtered(p: Value -> bool, s: seq<Value>): seq<Value> {
    if s == [] then [] else if p(s[0]) then [s[0]] + Filtered(p, s[1..]) else Filtered(p, s[1..])
  }

  /** Concat-map. */
  function FlatMapped(g: Value -> seq<Value>, s: seq<Value>): seq<Value> {
    if s == [] then [] else g(s[0]) + FlatMapped(g, s[1..])
  }

  function Taken(n: nat, s: seq<Value>): seq<Value> {
    if n <= |s| then s[..n] else s
  }

  function Skipped(n: nat, s: seq<Value>): seq<Value> {
    if n <= |s| then s[n..] else []
  }

  function TakenWhile(p: Value -> bool, s: seq<Value>): seq<Value> {
    if s == [] || !p(s[0]) then [] else [s[0]] + TakenWhile(p, s[1..])
  }

  function SkippedWhile(p: Value -> bool, s: seq<Value>): seq<Value> {
    if s == [] || !p(s[0]) then s else SkippedWhile(p, s[1..])
  }

  function Scanned(h: (Value, Value) -> Value, acc: Value, s: seq<Value>): seq<Value>
    decreases |s|
  {
    if s == [] then [] else [h(acc, s[0])] + Scanned(h, h(acc, s[0]), s[1..])
  }

  function Folded(h: (Value, Value) -> Value, acc: Value, s: seq<Value>): Value
    decreases |s|
  {
    if s == [] then acc else Folded(h, h(acc, s[0]), s[1..])
  }

  function Zipped(a: seq<Value>, b: seq<Value>): seq<Value> {
    if a == [] || b == [] then [] else [Pair(a[0], b[0])] + Zipped(a[1..], b[1..])
  }

  /** `firstLast` says that the first list had the last turn; an exhausted list cedes its turn. */
  function Merged(a: seq<Value>, b: seq<Value>, firstLast: bool): seq<Value>
    decreases |a| + |b|
  {
    if a == [] && b == [] then []
    else if b == [] || (!firstLast && a != []) then [a[0]] + Merged(a[1..], b, !firstLast)
    else [b[0]] + Merged(a, b[1..], !firstLast)
  }

  lemma SkipOne(n: nat, s: seq<Value>)
    requires n > 0
    ensures Skipped(n, s) == if s == [] then [] else Skipped(n - 1, s[1..])
  {
  }

  /** Whose turn it is goes first, if it has anything. */
  lemma MergeTurns(a: seq<Value>, b: seq<Value>, firstLast: bool)
    ensures var m, first := Merged(a, b, firstLast), if firstLast then b == [] else a != [];
            if a == [] && b == [] then m == []
            else if first then m[0] == a[0] && m[1..] == Merged(a[1..], b, !firstLast)
            else m[0] == b[0] && m[1..] == Merged(a, b[1..], !firstLast)
  {
  }

  // ----- meanings -----

  lemma {:induction false} MapMeaning(f: Value -> Value, s: seq<Value>)
    ensures |Mapped(f, s)| == |s| && forall i :: 0 <= i < |s| ==> Mapped(f, s)[i] == f(s[i])
  {
    if s != [] {
      MapMeaning(f, s[1..]);
    }
  }

  /** Splitting the list splits the result, so the order is kept. */
  lemma {:induction false} FilterConcat(p: Value -> bool, s: seq<Value>, t: seq<Value>)
    ensures Filtered(p, s + t) == Filtered(p, s) + Filtered(p, t)
  {
    if s == [] {
      assert s + t == t;
    } else {
      var rest, more := Filtered(p, s[1..]), Filtered(p, t);
      FilterConcat(p, s[1..], t);
      assert (s + t)[1..] == s[1..] + t;
      assert ([s[0]] + rest) + more == [s[0]] + (rest + more);
    }
  }

  /** Exactly the elements that satisfy p, each as often as before. */
  lemma {:induction false} FilterCounts(p: Value -> bool, s: seq<Value>, x: Value)
    ensures multiset(Filtered(p, s))[x] == if p(x) then multiset(s)[x] else 0
  {
    if s != [] {
      FilterCounts(p, s[1..], x);
      assert s == [s[0]] + s[1..];
    }
  }

  lemma {:induction false} FlatMapMeaning(g: Value -> seq<Value>, s: seq<Value>, t: seq<Value>)
    ensures FlatMapped(g, s + t) == FlatMapped(g, s) + FlatMapped(g, t)
    ensures |s| == 1 ==> FlatMapped(g, s) == g(s[0])
  {
    if s == [] {
      assert s + t == t;
    } else {
      FlatMapMeaning(g, s[1..], t);
      assert (s + t)[1..] == s[1..] + t;
    }
  }

  /** take and skip cut the list behind n elements, or at its end. */
  lemma TakeAndSkip(n: nat, s: seq<Value>)
    ensures Taken(n, s) + Skipped(n, s) == s && |Taken(n, s)| == if n < |s| then n else |s|
  {
  }

  /** The longest prefix that satisfies p, and what is left behind it. */
  lemma {:induction false} WhileMeaning(p: Value -> bool, s: seq<Value>)
    ensures TakenWhile(p, s) + SkippedWhile(p, s) == s
    ensures forall x :: x in TakenWhile(p, s) ==> p(x)
    ensures SkippedWhile(p, s) != [] ==> !p(SkippedWhile(p, s)[0])
  {
    if s != [] && p(s[0]) {
      var taken, skipped := TakenWhile(p, s[1..]), SkippedWhile(p, s[1..]);
      WhileMeaning(p, s[1..]);
      assert ([s[0]] + taken) + skipped == [s[0]] + (taken + skipped) == s;
    }
  }

  /** The fold takes what was folded so far first and the next element second, from the left. */
  lemma {:induction false} FoldMeaning(h: (Value, Value) -> Value, acc: Value, s: seq<Value>, x: Value)
    ensures Folded(h, acc, []) == acc
    ensures Folded(h, acc, s + [x]) == h(Folded(h, acc, s), x)
    decreases |s|
  {
    if s == [] {
      assert s + [x] == [x] && [x][1..] == [];
    } else {
      FoldMeaning(h, h(acc, s[0]), s[1..], x);
      assert (s + [x])[1..] == s[1..] + [x];
    }
  }

  /** Every element is the fold of the list up to it. */
  lemma {:induction false} ScanMeaning(h: (Value, Value) -> Value, acc: Value, s: seq<Value>)
    ensures |Scanned(h, acc, s)| == |s|
    ensures forall i :: 0 <= i < |s| ==> Scanned(h, acc, s)[i] == Folded(h, acc, s[..i + 1])
    decreases |s|
  {
    if s != [] {
      var next := h(acc, s[0]);
      ScanMeaning(h, next, s[1..]);
      forall i | 0 <= i < |s|
        ensures Scanned(h, acc, s)[i] == Folded(h, acc, s[..i + 1])
      {
        assert s[..i + 1][1..] == s[1..][..i];
        assert i > 0 ==> Scanned(h, acc, s)[i] == Scanned(h, next, s[1..])[i - 1];
      }
    }
  }

  lemma {:induction false} ZipMeaning(a: seq<Value>, b: seq<Value>)
    ensures |Zipped(a, b)| == if |a| < |b| then |a| else |b|
    ensures forall i :: 0 <= i < |Zipped(a, b)| ==> Zipped(a, b)[i] == Pair(a[i], b[i])
  {
    if a != [] && b != [] {
      ZipMeaning(a[1..], b[1..]);
    }
  }

  /** m is a and b, each in its own order, shuffled together. */
  predicate Interleaves(m: seq<Value>, a: seq<Value>, b: seq<Value>)
    decreases |m|
  {
    if m == [] then a == [] && b == []
    else
      || (a != [] && a[0] == m[0] && Interleaves(m[1..], a[1..], b))
      || (b != [] && b[0] == m[0] && Interleaves(m[1..], a, b[1..]))
  }

  /** A shuffle has every element exactly once. */
  lemma {:induction false} InterleavesCounts(m: seq<Value>, a: seq<Value>, b: seq<Value>)
    requires Interleaves(m, a, b)
    ensures multiset(m) == multiset(a) + multiset(b)
    decreases |m|
  {
    if m != [] {
      assert m == [m[0]] + m[1..];
      if a != [] && a[0] == m[0] && Interleaves(m[1..], a[1..], b) {
        InterleavesCounts(m[1..], a[1..], b);
        assert a == [a[0]] + a[1..];
      } else {
        InterleavesCounts(m[1..], a, b[1..]);
        assert b == [b[0]] + b[1..];
      }
    }
  }

  lemma {:induction false} MergeInterleaves(a: seq<Value>, b: seq<Value>, firstLast: bool)
    ensures Interleaves(Merged(a, b, firstLast), a, b)
    decreases |a| + |b|
  {
    if a != [] || b != [] {
      var m := Merged(a, b, firstLast);
      if b == [] || (!firstLast && a != []) {
        MergeInterleaves(a[1..], b, !firstLast);
        assert m[1..] == Merged(a[1..], b, !firstLast);
      } else {
        MergeInterleaves(a, b[1..], !firstLast);
        assert m[1..] == Merged(a, b[1..], !firstLast);
      }
    }
  }

  lemma {:induction false} MergeWithNothing(s: seq<Value>, firstLast: bool)
    ensures Merged(s, [], firstLast) == s && Merged([], s, firstLast) == s
  {
    if s != [] {
      MergeWithNothing(s[1..], !firstLast);
      assert s == [s[0]] + s[1..];
    }
  }

  lemma MergeTurn(a: seq<Value>, b: seq<Value>)
    requires a != [] && b != []
    ensures Merged(a, b, true) == [b[0]] + ([a[0]] + Merged(a[1..], b[1..], true))
  {
  }

  function Shorter(a: seq<Value>, b: seq<Value>): nat {
    if |a| < |b| then |a| else |b|
  }

  /** The lists take strict turns, b first, until one is exhausted; the rest of the other follows. */
  ghost predicate Alternates(m: seq<Value>, a: seq<Value>, b: seq<Value>) {
    var n := Shorter(a, b);
    && |m| == |a| + |b|
    && (forall i :: 0 <= i < n ==> m[2 * i] == b[i] && m[2 * i + 1] == a[i])
    && m[2 * n..] == a[n..] + b[n..]
  }

  /** The list after one turn of each. */
  function AfterTurn(rest: seq<Value>, a: seq<Value>, b: seq<Value>): (m: seq<Value>)
    requires a != [] && b != []
    ensures |m| == |rest| + 2
  {
    [b[0]] + ([a[0]] + rest)
  }

  lemma TurnAt(rest: seq<Value>, a: seq<Value>, b: seq<Value>, i: nat)
    requires a != [] && b != [] && Alternates(rest, a[1..], b[1..]) && i < Shorter(a, b)
    ensures 2 * i + 1 < |rest| + 2
    ensures AfterTurn(rest, a, b)[2 * i] == b[i] && AfterTurn(rest, a, b)[2 * i + 1] == a[i]
  {
    var x, y := a[1..], b[1..];
    if i > 0 {
      assert rest[2 * (i - 1)] == y[i - 1] && rest[2 * (i - 1) + 1] == x[i - 1];
    }
  }

  lemma TailAfterTurns(rest: seq<Value>, a: seq<Value>, b: seq<Value>)
    requires a != [] && b != [] && Alternates(rest, a[1..], b[1..])
    ensures 2 * Shorter(a, b) <= |rest| + 2
    ensures AfterTurn(rest, a, b)[2 * Shorter(a, b)..] == a[Shorter(a, b)..] + b[Shorter(a, b)..]
  {
    var n := Shorter(a, b);
    assert a[1..][n - 1..] == a[n..] && b[1..][n - 1..] == b[n..];
    assert AfterTurn(rest, a, b)[2 * n..] == rest[2 * (n - 1)..];
  }

  lemma AlternatesNext(rest: seq<Value>, a: seq<Value>, b: seq<Value>)
    requires a != [] && b != [] && Alternates(rest, a[1..], b[1..])
    ensures Alternates(AfterTurn(rest, a, b), a, b)
  {
    hide AfterTurn;
    TailAfterTurns(rest, a, b);
    forall i | 0 <= i < Shorter(a, b)
      ensures AfterTurn(rest, a, b)[2 * i] == b[i] && AfterTurn(rest, a, b)[2 * i + 1] == a[i]
    {
      TurnAt(rest, a, b, i);
    }
  }

  lemma {:induction false} MergeAlternates(a: seq<Value>, b: seq<Value>)
    ensures Alternates(Merged(a, b, true), a, b)
    decreases |a|
  {
    if a == [] || b == [] {
      MergeWithNothing(if a == [] then b else a, true);
    } else {
      MergeTurn(a, b);
      MergeAlternates(a[1..], b[1..]);
      AlternatesNext(Merged(a[1..], b[1..], true), a, b);
    }
  }
}
