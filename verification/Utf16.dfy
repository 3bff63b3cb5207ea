/** From UTF-16 code units to code points, with lone surrogates replaced. */
module Utf16 {

  type Unit = u: nat | u < 0x10000
  type Scalar = c: nat | c < 0xD800 || 0xE000 <= c < 0x110000

  predicate High(u: Unit) {
    0xD800 <= u <= 0xDBFF
  }

  predicate Low(u: Unit) {
    0xDC00 <= u <= 0xDFFF
  }

  function Join(high: Unit, low: Unit): Scalar
    requires High(high) && Low(low)
  {
    0x10000 + (high - 0xD800) * 0x400 + (low - 0xDC00)
  }

  predicate PairAt(units: seq<Unit>, i: nat) {
    i + 1 < |units| && High(units[i]) && Low(units[i + 1])
  }

  /** A unit that stands for itself, or the replacement character for a lone surrogate. */
  function Single(u: Unit): Scalar {
    if High(u) || Low(u) then 0xFFFD else u
  }

  function CodePoints(units: seq<Unit>): seq<Scalar> {
    if units == [] then []
    else if PairAt(units, 0) then [Join(units[0], units[1])] + CodePoints(units[2..])
    else [Single(units[0])] + CodePoints(units[1..])
  }

  /** The loop, with the bytes of each code point left to the UTF-8 library. */
  method Decode(units: seq<Unit>) returns (out: seq<Scalar>)
    ensures out == CodePoints(units)
  {
    out := [];
    var i := 0;
    assert units[0..] == units;
    while i < |units|
      invariant i <= |units| && out + CodePoints(units[i..]) == CodePoints(units)
    {
      CodePointsStep(out, units, i);
      var cp, used := ReadAt(units, i);
      out := out + [cp];
      i := i + used;
    }
  }

  method ReadAt(units: seq<Unit>, i: nat) returns (cp: nat, used: nat)
    requires i < |units|
    ensures if PairAt(units, i) then used == 2 && cp == Join(units[i], units[i + 1])
            else used == 1 && cp == Single(units[i])
  {
    cp, used := units[i], 1;
    if 0xD800 <= cp <= 0xDBFF {
      if i + 1 < |units| {
        var lo := units[i + 1];
        if 0xDC00 <= lo <= 0xDFFF {
          cp := 0x10000 + (cp - 0xD800) * 0x400 + (lo - 0xDC00);
          used := 2;
        } else {
          cp := 0xFFFD;
        }
      } else {
        cp := 0xFFFD;
      }
    } else if 0xDC00 <= cp <= 0xDFFF {
      cp := 0xFFFD;
    }
  }

  lemma CodePointsStep(out: seq<Scalar>, units: seq<Unit>, i: nat)
    requires i < |units|
    ensures out + CodePoints(units[i..])
            == if PairAt(units, i) then out + [Join(units[i], units[i + 1])] + CodePoints(units[i + 2..])
               else out + [Single(units[i])] + CodePoints(units[i + 1..])
  {
    var rest := units[i..];
    assert rest[1..] == units[i + 1..];
    if PairAt(units, i) {
      assert rest[2..] == units[i + 2..];
    }
  }

  // ----- the way back -----

  function UnitsOf(c: Scalar): seq<Unit> {
    if c < 0x10000 then [c] else [0xD800 + (c - 0x10000) / 0x400, 0xDC00 + (c - 0x10000) % 0x400]
  }

  function Units(s: seq<Scalar>): seq<Unit> {
    if s == [] then [] else UnitsOf(s[0]) + Units(s[1..])
  }

  /** Every sequence of code points survives UTF-16. */
  lemma {:induction false} RoundTrip(s: seq<Scalar>)
    ensures CodePoints(Units(s)) == s
  {
    if s != [] {
      var code, rest := UnitsOf(s[0]), Units(s[1..]);
      RoundTrip(s[1..]);
      assert (code + rest)[|code|..] == rest;
    }
  }

  /** What is joined across a place are only the two halves of a pair. */
  lemma {:induction false} CodePointsConcat(a: seq<Unit>, b: seq<Unit>)
    requires a != [] && b != [] ==> !(High(a[|a| - 1]) && Low(b[0]))
    ensures CodePoints(a + b) == CodePoints(a) + CodePoints(b)
    decreases |a|
  {
    if a == [] {
      assert a + b == b;
    } else {
      var n := if PairAt(a, 0) then 2 else 1;
      assert PairAt(a + b, 0) == PairAt(a, 0) && (a + b)[n..] == a[n..] + b;
      CodePointsConcat(a[n..], b);
    }
  }

  /** A lone surrogate becomes one replacement character, wherever it stands, and any other unit, or pair,
      the code point that it stands for. */
  lemma LoneIsReplaced(a: seq<Unit>, u: Unit, b: seq<Unit>)
    requires LoneAt(a + [u] + b, |a|)
    ensures CodePoints(a + [u] + b) == CodePoints(a) + [0xFFFD] + CodePoints(b)
  {
    var units := a + [u] + b;
    assert units[|a|] == u && (a != [] ==> units[|a| - 1] == a[|a| - 1]) && (b != [] ==> units[|a| + 1] == b[0]);
    assert [u][1..] == [] && CodePoints([u]) == [0xFFFD];
    CodePointsConcat(a, [u]);
    assert (a + [u])[|a|] == u;
    CodePointsConcat(a + [u], b);
  }

  /** Some surrogate has no partner: it is not the first of a pair, nor the second. */
  ghost predicate HasLone(units: seq<Unit>) {
    exists i :: 0 <= i < |units| && LoneAt(units, i)
  }

  predicate LoneAt(units: seq<Unit>, i: nat)
    requires i < |units|
  {
    || (High(units[i]) && !PairAt(units, i))
    || (Low(units[i]) && (i == 0 || !High(units[i - 1])))
  }

  lemma LoneBehind(head: seq<Unit>, rest: seq<Unit>)
    requires head != [] && (rest != [] ==> !(High(head[|head| - 1]) && Low(rest[0])))
    ensures HasLone(head + rest) <==> HasLone(head) || HasLone(rest)
  {
    var units := head + rest;
    forall i: nat | i < |head|
      ensures LoneAt(units, i) == LoneAt(head, i)
    {
    }
    forall i: nat | i < |rest|
      ensures LoneAt(units, |head| + i) == LoneAt(rest, i)
    {
    }
    if HasLone(units) {
      var i :| 0 <= i < |units| && LoneAt(units, i);
      if i >= |head| {
        assert LoneAt(rest, i - |head|);
      } else {
        assert LoneAt(head, i);
      }
    }
  }

  /** The code points say what the units said exactly when no surrogate is alone. */
  lemma {:induction false} FaithfulWithoutLone(units: seq<Unit>)
    ensures Units(CodePoints(units)) == units <==> !HasLone(units)
  {
    if units != [] {
      var n := if PairAt(units, 0) then 2 else 1;
      var head, rest := units[..n], units[n..];
      assert units == head + rest;
      FaithfulWithoutLone(rest);
      LoneBehind(head, rest);
      FirstIsFaithful(units, n);
    }
  }

  lemma FirstIsFaithful(units: seq<Unit>, n: nat)
    requires units != [] && n == if PairAt(units, 0) then 2 else 1
    ensures |UnitsOf(CodePoints(units)[0])| == n && CodePoints(units)[1..] == CodePoints(units[n..])
    ensures UnitsOf(CodePoints(units)[0]) == units[..n] <==> !HasLone(units[..n])
  {
    var head := units[..n];
    if n == 1 {
      assert head == [units[0]];
      assert HasLone(head) <==> LoneAt(head, 0);
    } else {
      assert head == [units[0], units[1]];
      assert !HasLone(head);
    }
  }
}
