/** Pull streams: each combinator owns its upstream and computes a list function, one element at
    a time. */
module Streams {
  import opened Basics
  import opened Lists

  datatype Kind =
    | Vector(values: seq<Value>)
    | Mapping(f: Value -> Value)
    | Filtering(p: Value -> bool)
    | FlatMapping(g: Value -> seq<Value>)
    | Taking
    | Skipping
    | TakingWhile(p: Value -> bool)
    | SkippingWhile(p: Value -> bool)
    | Scanning(h: (Value, Value) -> Value)
    | Zipping
    | Merging

  /** What one pull does to the elements still to come; an ended stream stays ended. */
  ghost predicate Pulls(before: seq<Value>, after: seq<Value>, v: Option<Value>) {
    if before == [] then v == None && after == [] else v == Some(before[0]) && after == before[1..]
  }

  class Stream {
    const kind: Kind
    const upstream: Stream?
    const second: Stream?
    /** Everything this stream owns. */
    ghost const Repr: set<Stream>

    // Each kind uses the fields it needs.
    var pos: nat
    var remaining: nat
    /** skip: skipped; take_while: done; skip_while: skipping; merge: pull_first. */
    var flag: bool
    var acc: Value
    var current: Option<seq<Value>>

    /** The elements still to come. */
    ghost var rest: seq<Value>

    ghost predicate Owns(s: Stream) {
      s in Repr && s.Repr < Repr && this !in s.Repr
    }

    /** Ownership is a tree. */
    ghost predicate Shape()
      decreases Repr
    {
      && this in Repr
      && (upstream != null ==> Owns(upstream) && upstream.Shape())
      && (second != null ==> Owns(second) && second.Shape())
      && (upstream != null && second != null ==> upstream.Repr !! second.Repr)
      && (upstream == null <==> kind.Vector?) && (second != null <==> kind.Zipping? || kind.Merging?)
    }

    /** The list a stream stands for, from the lists its upstreams stand for. */
    ghost function Denotation(): seq<Value>
      requires Shape()
      reads this, upstream, second
    {
      match kind
      case Vector(values) => Skipped(pos, values)
      case Mapping(f) => Mapped(f, upstream.rest)
      case Filtering(p) => Filtered(p, upstream.rest)
      case FlatMapping(g) => (if current.Some? then current.value else []) + FlatMapped(g, upstream.rest)
      case Taking => Taken(remaining, upstream.rest)
      case Skipping => if flag then upstream.rest else Skipped(remaining, upstream.rest)
      case TakingWhile(p) => if flag then [] else TakenWhile(p, upstream.rest)
      case SkippingWhile(p) => if flag then SkippedWhile(p, upstream.rest) else upstream.rest
      case Scanning(h) => Scanned(h, acc, upstream.rest)
      case Zipping => Zipped(upstream.rest, second.rest)
      case Merging => Merged(upstream.rest, second.rest, flag)
    }

    ghost predicate Valid()
      requires Shape()
      reads Repr
      decreases Repr
    {
      && (upstream != null ==> upstream.Valid())
      && (second != null ==> second.Valid())
      && rest == Denotation()
    }

    ghost predicate Ready()
      reads Repr
    {
      Shape() && Valid()
    }

    // ----- building: each combinator stands for its list function -----

    constructor FromVector(values: seq<Value>)
      ensures Ready() && Repr == {this} && rest == values
    {
      kind, upstream, second, Repr := Vector(values), null, null, {this};
      pos, remaining, flag, acc, current := 0, 0, false, Unit, None;
      rest := values;
    }

    constructor Map(up: Stream, f: Value -> Value)
      requires up.Ready()
      ensures Ready() && Repr == {this} + up.Repr && rest == Mapped(f, up.rest)
    {
      kind, upstream, second, Repr := Mapping(f), up, null, {this} + up.Repr;
      pos, remaining, flag, acc, current := 0, 0, false, Unit, None;
      rest := Mapped(f, up.rest);
    }

    constructor Filter(up: Stream, p: Value -> bool)
      requires up.Ready()
      ensures Ready() && Repr == {this} + up.Repr && rest == Filtered(p, up.rest)
    {
      kind, upstream, second, Repr := Filtering(p), up, null, {this} + up.Repr;
      pos, remaining, flag, acc, current := 0, 0, false, Unit, None;
      rest := Filtered(p, up.rest);
    }

    constructor FlatMap(up: Stream, g: Value -> seq<Value>)
      requires up.Ready()
      ensures Ready() && Repr == {this} + up.Repr && rest == FlatMapped(g, up.rest)
    {
      kind, upstream, second, Repr := FlatMapping(g), up, null, {this} + up.Repr;
      pos, remaining, flag, acc, current := 0, 0, false, Unit, None;
      rest := FlatMapped(g, up.rest);
    }

    constructor Take(up: Stream, n: nat)
      requires up.Ready()
      ensures Ready() && Repr == {this} + up.Repr && rest == Taken(n, up.rest)
    {
      kind, upstream, second, Repr := Taking, up, null, {this} + up.Repr;
      pos, remaining, flag, acc, current := 0, n, false, Unit, None;
      rest := Taken(n, up.rest);
    }

    constructor Skip(up: Stream, n: nat)
      requires up.Ready()
      ensures Ready() && Repr == {this} + up.Repr && rest == Skipped(n, up.rest)
    {
      kind, upstream, second, Repr := Skipping, up, null, {this} + up.Repr;
      pos, remaining, flag, acc, current := 0, n, false, Unit, None;
      rest := Skipped(n, up.rest);
    }

    constructor TakeWhile(up: Stream, p: Value -> bool)
      requires up.Ready()
      ensures Ready() && Repr == {this} + up.Repr && rest == TakenWhile(p, up.rest)
    {
      kind, upstream, second, Repr := TakingWhile(p), up, null, {this} + up.Repr;
      pos, remaining, flag, acc, current := 0, 0, false, Unit, None;
      rest := TakenWhile(p, up.rest);
    }

    constructor SkipWhile(up: Stream, p: Value -> bool)
      requires up.Ready()
      ensures Ready() && Repr == {this} + up.Repr && rest == SkippedWhile(p, up.rest)
    {
      kind, upstream, second, Repr := SkippingWhile(p), up, null, {this} + up.Repr;
      pos, remaining, flag, acc, current := 0, 0, true, Unit, None;
      rest := SkippedWhile(p, up.rest);
    }

    constructor Scan(up: Stream, init: Value, h: (Value, Value) -> Value)
      requires up.Ready()
      ensures Ready() && Repr == {this} + up.Repr && rest == Scanned(h, init, up.rest)
    {
      kind, upstream, second, Repr := Scanning(h), up, null, {this} + up.Repr;
      pos, remaining, flag, acc, current := 0, 0, false, init, None;
      rest := Scanned(h, init, up.rest);
    }

    constructor Zip(a: Stream, b: Stream)
      requires a.Ready() && b.Ready() && a.Repr !! b.Repr
      ensures Ready() && Repr == {this} + a.Repr + b.Repr && rest == Zipped(a.rest, b.rest)
    {
      kind, upstream, second, Repr := Zipping, a, b, {this} + a.Repr + b.Repr;
      pos, remaining, flag, acc, current := 0, 0, false, Unit, None;
      rest := Zipped(a.rest, b.rest);
    }

    constructor Merge(a: Stream, b: Stream)
      requires a.Ready() && b.Ready() && a.Repr !! b.Repr
      ensures Ready() && Repr == {this} + a.Repr + b.Repr && rest == Merged(a.rest, b.rest, true)
    {
      kind, upstream, second, Repr := Merging, a, b, {this} + a.Repr + b.Repr;
      pos, remaining, flag, acc, current := 0, 0, true, Unit, None;
      rest := Merged(a.rest, b.rest, true);
    }

    // ----- pulling -----

    method Next() returns (v: Option<Value>)
      requires Ready()
      modifies Repr
      ensures Valid() && Pulls(old(rest), rest, v)
      decreases Repr, 1
    {
      match kind {
        case Vector(values) => v := NextOfVector(values);
        case Mapping(f) => v := NextMapped(f);
        case Filtering(p) => v := NextFiltered(p);
        case FlatMapping(g) => v := NextFlatMapped(g);
        case Taking => v := NextTaken();
        case Skipping => v := NextSkipped();
        case TakingWhile(p) => v := NextTakenWhile(p);
        case SkippingWhile(p) => v := NextSkippedWhile(p);
        case Scanning(h) => v := NextScanned(h);
        case Zipping => v := NextZipped();
        case Merging => v := NextMerged();
      }
    }

    method NextOfVector(values: seq<Value>) returns (v: Option<Value>)
      requires Ready() && kind == Vector(values)
      modifies Repr
      ensures Valid() && Pulls(old(rest), rest, v)
      decreases Repr, 0
    {
      if pos >= |values| {
        return None;
      }
      v := Some(values[pos]);
      pos := pos + 1;
      rest := rest[1..];
    }

    method NextMapped(f: Value -> Value) returns (v: Option<Value>)
      requires Ready() && kind == Mapping(f)
      modifies Repr
      ensures Valid() && Pulls(old(rest), rest, v)
      decreases Repr, 0
    {
      v := upstream.Next();
      rest := Denotation();
      if v.Some? {
        v := Some(f(v.value));
      }
    }

    method NextFiltered(p: Value -> bool) returns (v: Option<Value>)
      requires Ready() && kind == Filtering(p)
      modifies Repr
      ensures Valid() && Pulls(old(rest), rest, v)
      decreases Repr, 0
    {
      while true
        invariant Valid() && rest == old(rest)
        decreases |upstream.rest|
      {
        v := upstream.Next();
        if v.None? {
          return;
        }
        if p(v.value) {
          rest := Denotation();
          return;
        }
      }
    }

    method NextFlatMapped(g: Value -> seq<Value>) returns (v: Option<Value>)
      requires Ready() && kind == FlatMapping(g)
      modifies Repr
      ensures Valid() && Pulls(old(rest), rest, v)
      decreases Repr, 0
    {
      while true
        invariant Valid() && rest == old(rest)
        decreases |upstream.rest|
      {
        v := NextOfCurrent(g);
        if v.Some? {
          return;
        }
        var more := RefillCurrent(g);
        if !more {
          return;
        }
      }
    }

    /** One element of the inner stream; when there is none, the inner stream is dropped. */
    method NextOfCurrent(g: Value -> seq<Value>) returns (v: Option<Value>)
      requires Ready() && kind == FlatMapping(g)
      modifies this`current, this`rest
      ensures Valid()
      ensures if v.Some? then Pulls(old(rest), rest, v) else current == None && rest == old(rest)
    {
      if current.Some? && current.value != [] {
        v := Some(current.value[0]);
        current := Some(current.value[1..]);
        rest := rest[1..];
      } else {
        v := None;
        current := None;
      }
    }

    method RefillCurrent(g: Value -> seq<Value>) returns (more: bool)
      requires Ready() && kind == FlatMapping(g) && current == None
      modifies Repr
      ensures Valid() && rest == old(rest)
      ensures if more then |upstream.rest| < old(|upstream.rest|) else rest == []
      decreases upstream.Repr, 2
    {
      var v := upstream.Next();
      more := v.Some?;
      if more {
        current := Some(g(v.value));
      }
    }

    method NextTaken() returns (v: Option<Value>)
      requires Ready() && kind == Taking
      modifies Repr
      ensures Valid() && Pulls(old(rest), rest, v)
      decreases Repr, 0
    {
      if remaining == 0 {
        return None;
      }
      remaining := remaining - 1;
      v := upstream.Next();
      rest := Denotation();
    }

    method NextSkipped() returns (v: Option<Value>)
      requires Ready() && kind == Skipping
      modifies Repr
      ensures Valid() && Pulls(old(rest), rest, v)
      decreases Repr, 0
    {
      if !flag {
        flag := true;
        var n := remaining;
        for i := 0 to n
          invariant upstream.Valid() && flag && old(rest) == Skipped(n - i, upstream.rest)
        {
          SkipOne(n - i, upstream.rest);
          v := upstream.Next();
          if v.None? {
            rest := [];
            return;
          }
        }
      }
      v := upstream.Next();
      rest := Denotation();
    }

    method NextTakenWhile(p: Value -> bool) returns (v: Option<Value>)
      requires Ready() && kind == TakingWhile(p)
      modifies Repr
      ensures Valid() && Pulls(old(rest), rest, v)
      decreases Repr, 0
    {
      if flag {
        return None;
      }
      v := upstream.Next();
      if v.None? || !p(v.value) {
        flag := true;
        v := None;
      }
      rest := Denotation();
    }

    method NextSkippedWhile(p: Value -> bool) returns (v: Option<Value>)
      requires Ready() && kind == SkippingWhile(p)
      modifies Repr
      ensures Valid() && Pulls(old(rest), rest, v)
      decreases Repr, 0
    {
      if flag {
        flag := false;
        while true
          invariant upstream.Valid() && !flag && old(rest) == SkippedWhile(p, upstream.rest)
          decreases |upstream.rest|
        {
          v := upstream.Next();
          rest := Denotation();
          if v.None? {
            return;
          }
          if !p(v.value) {
            return;
          }
        }
      }
      v := upstream.Next();
      rest := Denotation();
    }

    method NextScanned(h: (Value, Value) -> Value) returns (v: Option<Value>)
      requires Ready() && kind == Scanning(h)
      modifies Repr
      ensures Valid() && Pulls(old(rest), rest, v)
      decreases Repr, 0
    {
      v := upstream.Next();
      if v.Some? {
        acc := h(acc, v.value);
        v := Some(acc);
      }
      rest := Denotation();
    }

    method NextZipped() returns (v: Option<Value>)
      requires Ready() && kind == Zipping
      modifies Repr
      ensures Valid() && Pulls(old(rest), rest, v)
      decreases Repr, 0
    {
      var a := upstream.Next();
      if a.None? {
        rest := Denotation();
        return None;
      }
      var b := second.Next();
      rest := Denotation();
      v := if b.None? then None else Some(Pair(a.value, b.value));
    }

    method NextMerged() returns (v: Option<Value>)
      requires Ready() && kind == Merging
      modifies Repr
      ensures Valid() && Pulls(old(rest), rest, v)
      decreases Repr, 0
    {
      MergeTurns(upstream.rest, second.rest, flag);
      flag := !flag;
      var primary, fallback := if flag then upstream else second, if flag then second else upstream;
      v := NextOfEither(primary, fallback);
      rest := Denotation();
    }

    static method NextOfEither(primary: Stream, fallback: Stream) returns (v: Option<Value>)
      requires primary.Ready() && fallback.Ready() && primary.Repr !! fallback.Repr
      modifies primary.Repr, fallback.Repr
      ensures primary.Valid() && fallback.Valid()
      ensures if old(primary.rest) != [] then Pulls(old(primary.rest), primary.rest, v) && fallback.rest == old(fallback.rest)
              else Pulls(old(fallback.rest), fallback.rest, v) && primary.rest == []
      decreases primary.Repr + fallback.Repr, 2
    {
      v := primary.Next();
      if v.None? {
        v := fallback.Next();
      }
    }

    // ----- draining -----

    static lemma Collected(out: seq<Value>, before: seq<Value>, after: seq<Value>, x: Value, all: seq<Value>)
      requires out + before == all && before == [x] + after
      ensures out + [x] + after == all
    {
    }

    /** Collecting any composition of combinators gives the list it stands for. */
    method Collect() returns (out: seq<Value>)
      requires Ready()
      modifies Repr
      ensures Valid() && rest == [] && out == old(rest)
    {
      out := [];
      while true
        invariant Valid() && out + rest == old(rest)
        decreases |rest|
      {
        ghost var before := rest;
        var v := Next();
        if v.None? {
          break;
        }
        Collected(out, before, rest, v.value, old(rest));
        out := out + [v.value];
      }
    }

    method Fold(init: Value, h: (Value, Value) -> Value) returns (r: Value)
      requires Ready()
      modifies Repr
      ensures Valid() && rest == [] && r == Folded(h, init, old(rest))
    {
      r := init;
      while true
        invariant Valid() && Folded(h, r, rest) == Folded(h, init, old(rest))
        decreases |rest|
      {
        var v := Next();
        if v.None? {
          break;
        }
        r := h(r, v.value);
      }
    }

    method Count() returns (n: nat)
      requires Ready()
      modifies Repr
      ensures Valid() && rest == [] && n == |old(rest)|
    {
      n := 0;
      while true
        invariant Valid() && n + |rest| == |old(rest)|
        decreases |rest|
      {
        var v := Next();
        if v.None? {
          break;
        }
        n := n + 1;
      }
    }
  }
}
