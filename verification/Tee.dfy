/** A byte source shared by two branches: each reads every block, at its own pace. */
module Tee {
  import opened Basics

  type Block(==, !new)

  /** What a pull of the underlying source ends with. */
  datatype Pulled = More(block: Block) | Eof | Failed

  /** What a read does next: it throws, returns a block or the end of the stream, or waits for a
      pull of its own. */
  datatype Outcome = Throws | Yields(block: Block) | Ends | Waits

  /** `flights` counts the reads that wait for a pull; `gone` says that the branch was destroyed.
      `delivered` holds the blocks its reads returned, `cut` the number of blocks pulled when it
      was closed. */
  datatype Branch = Branch(buf: seq<Block>, closed: bool, gone: bool, flights: nat, delivered: seq<Block>, cut: nat)

  /** `blocks` holds what the source gave, in the order the pulls were completed, and `cancels`
      counts the calls of its cancel(). */
  datatype State = State(a: Branch, b: Branch, done: bool, errored: bool, blocks: seq<Block>, cancels: nat)

  function Fresh(): State {
    var x := Branch([], false, false, 0, [], 0);
    State(x, x, false, false, [], 0)
  }

  function Side(s: State, isA: bool): Branch {
    if isA then s.a else s.b
  }

  function With(s: State, isA: bool, x: Branch): State {
    if isA then s.(a := x) else s.(b := x)
  }

  // ----- the steps -----

  /** One pass of a read from the loop head to its end or its next suspension. */
  function Next(s: State, isA: bool): (State, Outcome) {
    var x := Side(s, isA);
    if s.errored then (s, Throws)
    else if x.buf != [] then
      (With(s, isA, x.(buf := x.buf[1..], delivered := x.delivered + [x.buf[0]])), Yields(x.buf[0]))
    else if s.done || x.closed then (s, Ends)
    else (With(s, isA, x.(flights := x.flights + 1)), Waits)
  }

  function Push(x: Branch, block: Block): Branch {
    if x.closed then x else x.(buf := x.buf + [block])
  }

  /** The completion of a pull, up to the loop head. */
  function Land(s: State, isA: bool, r: Pulled): State
    requires Side(s, isA).flights > 0
  {
    var x := Side(s, isA);
    var t := With(s, isA, x.(flights := x.flights - 1));
    match r
    case Failed => t.(errored := true)
    case Eof => t.(done := true)
    case More(block) => t.(a := Push(t.a, block), b := Push(t.b, block), blocks := t.blocks + [block])
  }

  function Complete(s: State, isA: bool, r: Pulled): (State, Outcome)
    requires Side(s, isA).flights > 0
  {
    if r == Failed then (Land(s, isA, r), Throws) else Next(Land(s, isA, r), isA)
  }

  function Close(s: State, isA: bool, drop: bool): State {
    var x := Side(s, isA);
    var y := x.(closed := true, cut := if x.closed then x.cut else |s.blocks|);
    var t := With(s, isA, if drop then y.(buf := [], gone := true) else y);
    if t.a.closed && t.b.closed then t.(cancels := t.cancels + 1) else t
  }

  datatype Event =
    | Read(isA: bool)
    | PullEnds(isA: bool, result: Pulled)
    | Cancel(isA: bool)
    | Destroy(isA: bool)

  /** A branch is used by its owner until it is destroyed, and not destroyed under a waiting read. */
  predicate Enabled(s: State, e: Event) {
    match e
    case Read(isA) => !Side(s, isA).gone
    case PullEnds(isA, _) => Side(s, isA).flights > 0
    case Cancel(isA) => !Side(s, isA).gone
    case Destroy(isA) => !Side(s, isA).gone && Side(s, isA).flights == 0
  }

  function Apply(s: State, e: Event): (State, Option<Outcome>)
    requires Enabled(s, e)
  {
    match e
    case Read(isA) => var (t, o) := Next(s, isA); (t, Some(o))
    case PullEnds(isA, r) => var (t, o) := Complete(s, isA, r); (t, Some(o))
    case Cancel(isA) => (Close(s, isA, false), None)
    case Destroy(isA) => (Close(s, isA, true), None)
  }

  // ----- the invariant -----

  /** What a branch got and has still to give, against what was pulled. */
  ghost predicate BranchOk(x: Branch, blocks: seq<Block>) {
    if !x.closed then !x.gone && x.delivered + x.buf == blocks
    else
      && x.cut <= |blocks| && x.delivered <= blocks[..x.cut]
      && (if x.gone then x.buf == [] && x.flights == 0 else x.delivered + x.buf == blocks[..x.cut])
  }

  ghost predicate Inv(s: State) {
    && BranchOk(s.a, s.blocks) && BranchOk(s.b, s.blocks)
    && (s.cancels > 0 <==> s.a.closed && s.b.closed)
  }

  lemma PopOk(x: Branch, blocks: seq<Block>)
    requires BranchOk(x, blocks) && x.buf != []
    ensures BranchOk(x.(buf := x.buf[1..], delivered := x.delivered + [x.buf[0]]), blocks)
  {
    assert x.delivered + [x.buf[0]] + x.buf[1..] == x.delivered + x.buf;
  }

  lemma PushOk(x: Branch, blocks: seq<Block>, block: Block)
    requires BranchOk(x, blocks)
    ensures BranchOk(Push(x, block), blocks + [block])
  {
    if x.closed {
      assert (blocks + [block])[..x.cut] == blocks[..x.cut];
    } else {
      assert x.delivered + (x.buf + [block]) == x.delivered + x.buf + [block];
    }
  }

  lemma CloseOk(x: Branch, blocks: seq<Block>)
    requires BranchOk(x, blocks)
    ensures BranchOk(x.(closed := true, cut := if x.closed then x.cut else |blocks|), blocks)
  {
    assert blocks[..|blocks|] == blocks;
  }

  lemma LandOk(s: State, isA: bool, r: Pulled)
    requires Inv(s) && Side(s, isA).flights > 0
    ensures Inv(Land(s, isA, r))
  {
    if r.More? {
      var x := Side(s, isA);
      var t := With(s, isA, x.(flights := x.flights - 1));
      PushOk(t.a, s.blocks, r.block);
      PushOk(t.b, s.blocks, r.block);
    }
  }

  lemma NextOk(s: State, isA: bool)
    requires Inv(s) && !Side(s, isA).gone
    ensures Inv(Next(s, isA).0)
  {
    var x := Side(s, isA);
    if x.buf != [] {
      PopOk(x, s.blocks);
    }
  }

  lemma CompleteOk(s: State, isA: bool, r: Pulled)
    requires Inv(s) && Side(s, isA).flights > 0
    ensures Inv(Complete(s, isA, r).0)
  {
    hide Next;
    LandOk(s, isA, r);
    if r != Failed {
      NextOk(Land(s, isA, r), isA);
    }
  }

  lemma EndOk(s: State, isA: bool, drop: bool)
    requires Inv(s) && (drop ==> Side(s, isA).flights == 0)
    ensures Inv(Close(s, isA, drop))
  {
    CloseOk(Side(s, isA), s.blocks);
  }

  lemma StepInv(s: State, e: Event)
    requires Inv(s) && Enabled(s, e)
    ensures Inv(Apply(s, e).0)
  {
    hide Inv, Next, Complete, Close;
    match e
    case Read(isA) => NextOk(s, isA);
    case PullEnds(isA, r) => CompleteOk(s, isA, r);
    case Cancel(isA) => EndOk(s, isA, false);
    case Destroy(isA) => EndOk(s, isA, true);
  }

  // ----- runs -----

  ghost predicate Legal(s: State, run: seq<Event>)
    decreases |run|
  {
    run == [] || (Enabled(s, run[0]) && Legal(Apply(s, run[0]).0, run[1..]))
  }

  ghost function Exec(s: State, run: seq<Event>): State
    requires Legal(s, run)
    decreases |run|
  {
    if run == [] then s else Exec(Apply(s, run[0]).0, run[1..])
  }

  lemma {:induction false} RunInv(s: State, run: seq<Event>)
    requires Inv(s) && Legal(s, run)
    ensures Inv(Exec(s, run))
    decreases |run|
  {
    if run != [] {
      StepInv(s, run[0]);
      RunInv(Apply(s, run[0]).0, run[1..]);
    }
  }

  /** In every run, whatever is in flight: an open branch has got or still holds every block pulled
      so far, in order; a closed one only those pulled before it was closed; and the source is
      cancelled exactly when both are closed. */
  lemma Faithful(run: seq<Event>, isA: bool)
    requires Legal(Fresh(), run)
    ensures var s := Exec(Fresh(), run); var x := Side(s, isA);
            && (!x.closed ==> x.delivered + x.buf == s.blocks)
            && (x.closed && !x.gone ==> x.cut <= |s.blocks| && x.delivered + x.buf == s.blocks[..x.cut])
            && x.delivered <= s.blocks
            && (s.cancels > 0 <==> s.a.closed && s.b.closed)
  {
    RunInv(Fresh(), run);
  }

  /** One branch never waits for what the other has pulled already, and an open branch sees the end
      only after every block. */
  lemma ReadsEverything(run: seq<Event>, isA: bool)
    requires Legal(Fresh(), run) && !Side(Exec(Fresh(), run), isA).gone
    ensures var s := Exec(Fresh(), run); var x := Side(s, isA); var o := Next(s, isA).1;
            && (!s.errored && |x.delivered| < (if x.closed then x.cut else |s.blocks|)
                ==> |x.delivered| < |s.blocks| && o == Yields(s.blocks[|x.delivered|]))
            && (o == Ends && !x.closed ==> s.done && x.delivered == s.blocks)
            && (o == Waits ==> !x.closed && !s.done && x.delivered == s.blocks)
  {
    RunInv(Fresh(), run);
    var s := Exec(Fresh(), run);
    var x := Side(s, isA);
    if x.buf != [] {
      assert (x.delivered + x.buf)[|x.delivered|] == x.buf[0];
    } else {
      assert x.delivered + x.buf == x.delivered;
    }
  }

  /** What a branch was given is never taken back, and what it still holds comes next. */
  lemma StepDelivers(s: State, e: Event, isA: bool)
    requires Enabled(s, e)
    ensures Grows(s, Apply(s, e).0, isA)
  {
    match e
    case Read(ofA) => NextGrows(s, ofA, isA);
    case PullEnds(ofA, r) =>
      LandGrows(s, ofA, r, isA);
      NextGrows(Land(s, ofA, r), ofA, isA);
    case Cancel(ofA) => CloseGrows(s, ofA, false, isA);
    case Destroy(ofA) => CloseGrows(s, ofA, true, isA);
  }

  lemma NextGrows(s: State, ofA: bool, isA: bool)
    ensures Grows(s, Next(s, ofA).0, isA)
  {
  }

  lemma LandGrows(s: State, ofA: bool, r: Pulled, isA: bool)
    requires Side(s, ofA).flights > 0
    ensures Grows(s, Land(s, ofA, r), isA)
  {
  }

  lemma CloseGrows(s: State, ofA: bool, drop: bool, isA: bool)
    ensures Grows(s, Close(s, ofA, drop), isA)
  {
  }

  ghost predicate Grows(s: State, t: State, isA: bool) {
    && Side(s, isA).delivered <= Side(t, isA).delivered
    && s.blocks <= t.blocks && s.cancels <= t.cancels
  }

  lemma {:induction false} RunDelivers(s: State, run: seq<Event>, isA: bool)
    requires Inv(s) && Legal(s, run)
    ensures Grows(s, Exec(s, run), isA)
    decreases |run|
  {
    if run != [] {
      StepInv(s, run[0]);
      StepDelivers(s, run[0], isA);
      RunDelivers(Apply(s, run[0]).0, run[1..], isA);
    }
  }

  // ----- the objects -----

  class Shared {
    var bufA: seq<Block>
    var bufB: seq<Block>
    var closedA: bool
    var closedB: bool
    var done: bool
    var errored: bool
    ghost var model: State

    constructor ()
      ensures model == Fresh() && Agrees()
    {
      bufA, bufB, closedA, closedB, done, errored := [], [], false, false, false, false;
      model := Fresh();
    }

    ghost predicate Agrees()
      reads this
    {
      && bufA == model.a.buf && bufB == model.b.buf && closedA == model.a.closed && closedB == model.b.closed
      && done == model.done && errored == model.errored
    }
  }

  class TeeSource {
    const shared: Shared
    const isA: bool

    constructor (shared: Shared, isA: bool)
      ensures this.shared == shared && this.isA == isA
    {
      this.shared := shared;
      this.isA := isA;
    }

    /** The part of read() between two suspensions. */
    method ReadOn() returns (o: Outcome)
      requires shared.Agrees()
      modifies shared
      ensures shared.Agrees() && (shared.model, o) == Next(old(shared.model), isA)
    {
      ghost var next := Next(shared.model, isA);
      if shared.errored {
        return Throws;
      }
      var buf := if isA then shared.bufA else shared.bufB;
      if buf != [] {
        if isA {
          shared.bufA := buf[1..];
        } else {
          shared.bufB := buf[1..];
        }
        o := Yields(buf[0]);
      } else if shared.done {
        o := Ends;
      } else if if isA then shared.closedA else shared.closedB {
        o := Ends;
      } else {
        o := Waits;
      }
      shared.model := next.0;
    }

    /** The awaited pull has ended. */
    method PullEnded(r: Pulled) returns (o: Outcome)
      requires shared.Agrees() && Side(shared.model, isA).flights > 0
      modifies shared
      ensures shared.Agrees() && (shared.model, o) == Complete(old(shared.model), isA, r)
    {
      ghost var landed := Land(shared.model, isA, r);
      match r {
        case Failed =>
          shared.errored := true;
          shared.model := landed;
          return Throws;
        case Eof =>
          shared.done := true;
        case More(block) =>
          if !shared.closedA {
            shared.bufA := shared.bufA + [block];
          }
          if !shared.closedB {
            shared.bufB := shared.bufB + [block];
          }
      }
      shared.model := landed;
      o := ReadOn();
    }

    /** Returns whether the underlying source is cancelled now. */
    method Cancel() returns (source: bool)
      requires shared.Agrees()
      modifies shared
      ensures shared.Agrees() && shared.model == Close(old(shared.model), isA, false)
      ensures source <==> shared.model.cancels == old(shared.model.cancels) + 1
    {
      if isA {
        shared.closedA := true;
      } else {
        shared.closedB := true;
      }
      source := shared.closedA && shared.closedB;
      shared.model := Close(shared.model, isA, false);
    }

    /** The destructor: closes the branch and drops what it still held. */
    method Destroy() returns (source: bool)
      requires shared.Agrees()
      modifies shared
      ensures shared.Agrees() && shared.model == Close(old(shared.model), isA, true)
      ensures source <==> shared.model.cancels == old(shared.model.cancels) + 1
    {
      if isA {
        shared.closedA := true;
        shared.bufA := [];
      } else {
        shared.closedB := true;
        shared.bufB := [];
      }
      source := shared.closedA && shared.closedB;
      shared.model := Close(shared.model, isA, true);
    }
  }

  /** A source that holds one block in memory. */
  class MemorySource {
    var block: Option<Block>
    var done: bool

    constructor (block: Block)
      ensures this.block == Some(block) && !done
    {
      this.block := Some(block);
      done := false;
    }

    ghost predicate Valid()
      reads this
    {
      !done ==> block.Some?
    }

    method Read() returns (r: Pulled)
      requires Valid()
      modifies this
      ensures Valid() && done && !r.Failed?
      ensures r == if old(done) then Eof else More(old(block.value))
    {
      if done {
        return Eof;
      }
      done := true;
      r := More(block.value);
    }

    method Cancel()
      modifies this
      ensures Valid() && done && block == None
    {
      done := true;
      block := None;
    }
  }
}
