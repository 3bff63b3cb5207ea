/** What the tee answers, told from the events of a run alone. */
module TeeStory {
  import opened Basics
  import opened Tee

  // ----- the events that leave a mark -----

  datatype Kind = Failure | Finish | CloseOf(isA: bool)

  predicate IsKind(e: Event, k: Kind) {
    match k
    case Failure => e.PullEnds? && e.result == Failed
    case Finish => e.PullEnds? && e.result == Eof
    case CloseOf(isA) => (e.Cancel? || e.Destroy?) && e.isA == isA
  }

  ghost predicate Has(run: seq<Event>, k: Kind) {
    exists i :: 0 <= i < |run| && IsKind(run[i], k)
  }

  predicate Mark(s: State, k: Kind) {
    match k
    case Failure => s.errored
    case Finish => s.done
    case CloseOf(isA) => Side(s, isA).closed
  }

  lemma HasNext(run: seq<Event>, k: Kind)
    requires run != []
    ensures Has(run, k) <==> IsKind(run[0], k) || Has(run[1..], k)
  {
    if i :| 0 <= i < |run| && IsKind(run[i], k) {
      assert i > 0 ==> IsKind(run[1..][i - 1], k);
    }
    if i :| 0 <= i < |run[1..]| && IsKind(run[1..][i], k) {
      assert IsKind(run[i + 1], k);
    }
  }

  lemma NextMarks(s: State, ofA: bool, k: Kind)
    ensures Mark(Next(s, ofA).0, k) == Mark(s, k)
  {
  }

  lemma LandMarks(s: State, ofA: bool, r: Pulled, k: Kind)
    requires Side(s, ofA).flights > 0
    ensures Mark(Land(s, ofA, r), k) == (Mark(s, k) || IsKind(PullEnds(ofA, r), k))
  {
  }

  lemma StepMarks(s: State, e: Event, k: Kind)
    requires Enabled(s, e)
    ensures Mark(Apply(s, e).0, k) <==> Mark(s, k) || IsKind(e, k)
  {
    hide Next, Land;
    match e
    case Read(ofA) => NextMarks(s, ofA, k);
    case PullEnds(ofA, r) =>
      LandMarks(s, ofA, r, k);
      NextMarks(Land(s, ofA, r), ofA, k);
    case _ =>
  }

  /** A run fails exactly if one of its pulls failed, is over exactly if one ended, and has closed a
      branch exactly if the branch was cancelled or destroyed in it. */
  lemma {:induction false} RunMarks(s: State, run: seq<Event>, k: Kind)
    requires Legal(s, run)
    ensures Mark(Exec(s, run), k) <==> Mark(s, k) || Has(run, k)
    decreases |run|
  {
    hide Apply, Enabled, IsKind, Has, Mark;
    if run == [] {
      HasNothing(k);
    } else {
      StepMarks(s, run[0], k);
      RunMarks(Apply(s, run[0]).0, run[1..], k);
      HasNext(run, k);
    }
  }

  lemma HasNothing(k: Kind)
    ensures !Has([], k)
  {
  }

  // ----- the blocks pulled and the blocks read -----

  function Pulls(e: Event): seq<Block> {
    if e.PullEnds? && e.result.More? then [e.result.block] else []
  }

  /** The blocks that the pulls of a run gave, in order. */
  function PulledIn(run: seq<Event>): seq<Block> {
    if run == [] then [] else Pulls(run[0]) + PulledIn(run[1..])
  }

  /** The blocks pulled before the branch was closed first. */
  function PulledFor(run: seq<Event>, isA: bool): seq<Block> {
    if run == [] || IsKind(run[0], CloseOf(isA)) then [] else Pulls(run[0]) + PulledFor(run[1..], isA)
  }

  /** The block that a step returned to the owner of the branch. */
  function Returns(s: State, e: Event, isA: bool): seq<Block>
    requires Enabled(s, e)
  {
    var o := Apply(s, e).1;
    if (e.Read? || e.PullEnds?) && e.isA == isA && o.Some? && o.value.Yields? then [o.value.block] else []
  }

  ghost function Returned(s: State, run: seq<Event>, isA: bool): seq<Block>
    requires Legal(s, run)
    decreases |run|
  {
    if run == [] then [] else Returns(s, run[0], isA) + Returned(Apply(s, run[0]).0, run[1..], isA)
  }

  lemma NextGives(s: State, ofA: bool, isA: bool)
    ensures var (t, o) := Next(s, ofA);
            && t.blocks == s.blocks && Side(t, isA).cut == Side(s, isA).cut
            && Side(t, isA).delivered == Side(s, isA).delivered + if ofA == isA && o.Yields? then [o.block] else []
  {
  }

  lemma LandGives(s: State, ofA: bool, r: Pulled, isA: bool)
    requires Side(s, ofA).flights > 0
    ensures var t := Land(s, ofA, r);
            && t.blocks == s.blocks + Pulls(PullEnds(ofA, r))
            && Side(t, isA).cut == Side(s, isA).cut && Side(t, isA).delivered == Side(s, isA).delivered
  {
  }

  lemma StepGives(s: State, e: Event, isA: bool)
    requires Enabled(s, e)
    ensures var t := Apply(s, e).0; var x, y := Side(s, isA), Side(t, isA);
            && t.blocks == s.blocks + Pulls(e)
            && y.delivered == x.delivered + Returns(s, e, isA)
            && y.cut == if !x.closed && IsKind(e, CloseOf(isA)) then |s.blocks| else x.cut
  {
    hide Next, Land;
    match e
    case Read(ofA) => NextGives(s, ofA, isA);
    case PullEnds(ofA, r) =>
      LandGives(s, ofA, r, isA);
      NextGives(Land(s, ofA, r), ofA, isA);
    case _ =>
  }

  /** The blocks of the tee are those that were pulled, and a branch was given what its reads returned. */
  lemma {:induction false} RunGives(s: State, run: seq<Event>, isA: bool)
    requires Legal(s, run)
    ensures Exec(s, run).blocks == s.blocks + PulledIn(run)
    ensures Side(Exec(s, run), isA).delivered == Side(s, isA).delivered + Returned(s, run, isA)
    decreases |run|
  {
    hide Apply, Enabled, Pulls, Returns, Side;
    if run != [] {
      var t := Apply(s, run[0]).0;
      StepGives(s, run[0], isA);
      RunGives(t, run[1..], isA);
      Regroup(s.blocks, Pulls(run[0]), PulledIn(run[1..]));
      Regroup(Side(s, isA).delivered, Returns(s, run[0], isA), Returned(t, run[1..], isA));
    }
  }

  lemma Regroup(a: seq<Block>, b: seq<Block>, c: seq<Block>)
    ensures (a + b) + c == a + (b + c)
  {
  }

  /** A closed branch keeps the number of blocks pulled before it was closed. */
  lemma {:induction false} RunCuts(s: State, run: seq<Event>, isA: bool)
    requires Legal(s, run)
    ensures Side(s, isA).closed ==> Side(Exec(s, run), isA).cut == Side(s, isA).cut
    ensures !Side(s, isA).closed && Side(Exec(s, run), isA).closed ==>
              Side(Exec(s, run), isA).cut == |s.blocks| + |PulledFor(run, isA)|
    decreases |run|
  {
    hide Apply, Enabled, Pulls;
    if run != [] {
      StepGives(s, run[0], isA);
      StepMarks(s, run[0], CloseOf(isA));
      RunCuts(Apply(s, run[0]).0, run[1..], isA);
    }
  }

  lemma {:induction false} PulledForIsPrefix(run: seq<Event>, isA: bool)
    ensures PulledFor(run, isA) <= PulledIn(run)
    ensures !Has(run, CloseOf(isA)) ==> PulledFor(run, isA) == PulledIn(run)
  {
    if run != [] {
      HasNext(run, CloseOf(isA));
      hide IsKind, Has;
      PulledForIsPrefix(run[1..], isA);
    }
  }

  // ----- the answers -----

  /** What is to be answered to a branch that got `got` of the blocks `due` to it. */
  function Answer(failed: bool, over: bool, got: nat, due: seq<Block>): Outcome {
    if failed then Throws else if got < |due| then Yields(due[got]) else if over then Ends else Waits
  }

  lemma NextAnswers(s: State, isA: bool)
    requires Inv(s) && !Side(s, isA).gone
    ensures var x := Side(s, isA);
            && (x.closed ==> x.cut <= |s.blocks|)
            && Next(s, isA).1 == Answer(s.errored, s.done || x.closed, |x.delivered|, if x.closed then s.blocks[..x.cut] else s.blocks)
  {
    var x := Side(s, isA);
    if x.buf != [] {
      assert (x.delivered + x.buf)[|x.delivered|] == x.buf[0];
    } else {
      assert x.delivered + x.buf == x.delivered;
    }
  }

  lemma BlocksDue(run: seq<Event>, isA: bool)
    requires Legal(Fresh(), run)
    ensures var s := Exec(Fresh(), run); var x := Side(s, isA);
            && (x.closed ==> x.cut <= |s.blocks|)
            && PulledFor(run, isA) == if x.closed then s.blocks[..x.cut] else s.blocks
    ensures Side(Exec(Fresh(), run), isA).delivered == Returned(Fresh(), run, isA)
  {
    hide Apply, Enabled, IsKind, Legal, Exec, PulledFor, PulledIn, Has, Returned;
    RunInv(Fresh(), run);
    RunGives(Fresh(), run, isA);
    RunCuts(Fresh(), run, isA);
    RunMarks(Fresh(), run, CloseOf(isA));
    PulledForIsPrefix(run, isA);
    PrefixIs(PulledFor(run, isA), PulledIn(run));
  }

  lemma PrefixIs(a: seq<Block>, b: seq<Block>)
    ensures a <= b ==> a == b[..|a|]
    ensures [] + b == b
  {
  }

  /** In every run, whatever is in flight: a read throws exactly if some pull failed; otherwise it gives
      the next of the blocks pulled before the branch was closed; when the branch got them all, it ends
      exactly if some pull met the end or the branch was closed, and waits otherwise. */
  lemma ReadAnswers(run: seq<Event>, isA: bool)
    requires Legal(Fresh(), run) && Enabled(Exec(Fresh(), run), Read(isA))
    ensures Apply(Exec(Fresh(), run), Read(isA)).1
            == Some(Answer(Has(run, Failure), Has(run, Finish) || Has(run, CloseOf(isA)),
                           |Returned(Fresh(), run, isA)|, PulledFor(run, isA)))
  {
    var s := Exec(Fresh(), run);
    RunInv(Fresh(), run);
    RunMarks(Fresh(), run, Failure);
    RunMarks(Fresh(), run, Finish);
    RunMarks(Fresh(), run, CloseOf(isA));
    BlocksDue(run, isA);
    hide Inv, Next, Legal, Exec, Has, Returned, PulledFor, IsKind;
    NextAnswers(s, isA);
  }

  lemma ExecMore(s: State, run: seq<Event>, e: Event)
    requires Legal(s, run) && Enabled(Exec(s, run), e)
    ensures Legal(s, run + [e]) && Exec(s, run + [e]) == Apply(Exec(s, run), e).0
    decreases |run|
  {
    hide Apply, Enabled;
    if run == [] {
      assert [] + [e] == [e] && [e][1..] == [];
    } else {
      assert (run + [e])[1..] == run[1..] + [e] && (run + [e])[0] == run[0];
      ExecMore(Apply(s, run[0]).0, run[1..], e);
    }
  }

  /** A pull that ends is answered in the same way, by the run that it belongs to: in particular nobody
      throws in a run without a failed pull, and the end of the source is no failure. */
  lemma PullAnswers(run: seq<Event>, isA: bool, r: Pulled)
    requires Legal(Fresh(), run) && Enabled(Exec(Fresh(), run), PullEnds(isA, r))
    ensures var e := PullEnds(isA, r); var all := run + [e];
            Apply(Exec(Fresh(), run), e).1
            == Some(Answer(Has(all, Failure), Has(all, Finish) || Has(all, CloseOf(isA)),
                           |Returned(Fresh(), run, isA)|, PulledFor(all, isA)))
  {
    var s, e := Exec(Fresh(), run), PullEnds(isA, r);
    var all := run + [e];
    ExecMore(Fresh(), run, e);
    RunInv(Fresh(), run);
    LandOk(s, isA, r);
    var u := Land(s, isA, r);
    var t := Exec(Fresh(), all);
    RunMarks(Fresh(), all, Failure);
    RunMarks(Fresh(), all, Finish);
    RunMarks(Fresh(), all, CloseOf(isA));
    BlocksDue(all, isA);
    BlocksDue(run, isA);
    AfterLanding(s, isA, r);
    hide Inv, Next, Legal, Exec, Has, Returned, PulledFor, IsKind, Land;
    if r != Failed {
      NextAnswers(u, isA);
    }
  }

  /** The pass that follows a landing changes neither the marks nor the blocks. */
  lemma AfterLanding(s: State, isA: bool, r: Pulled)
    requires Inv(s) && Side(s, isA).flights > 0
    ensures var u, t := Land(s, isA, r), Complete(s, isA, r).0; var x, y, z := Side(s, isA), Side(u, isA), Side(t, isA);
            && t.errored == u.errored && t.done == u.done && t.blocks == u.blocks
            && z.closed == y.closed && z.cut == y.cut && !y.gone && y.delivered == x.delivered
            && (r == Failed ==> t.errored)
  {
  }

  /** Without a failed pull no read of the run throws. */
  lemma NobodyThrows(run: seq<Event>, e: Event)
    requires Legal(Fresh(), run) && Enabled(Exec(Fresh(), run), e) && !Has(run + [e], Failure)
    ensures Apply(Exec(Fresh(), run), e).1 != Some(Throws)
  {
    var all := run + [e];
    assert all[|run|] == e;
    assert forall i :: 0 <= i < |run| ==> all[i] == run[i];
    assert !Has(run, Failure);
    match e
    case Read(isA) => ReadAnswers(run, isA);
    case PullEnds(isA, r) => PullAnswers(run, isA, r);
    case _ =>
  }
}
