/** What the channel promises in every reachable state, and over every later run. */
module ChannelTheorems {
  import opened Basics
  import opened ChannelModel
  import opened ChannelSafety

  // ----- nobody waits who could be served -----

  lemma NoWakeupIsLost(s: State)
    requires Reachable(s)
    ensures s.slot.Some? ==> !s.closed && s.Buffer() == [] && s.waiters == []
    ensures s.waiters != [] ==> !s.closed && s.slot.None? && s.bounded && |s.ring| == s.capacity
    ensures s.closed ==> s.slot.None? && s.waiters == []
    ensures s.count == |s.ring| && (s.bounded ==> |s.ring| <= s.capacity)
    ensures forall i :: 0 <= i < |s.sends| ==> (s.sends[i].stage == Queued <==> i in s.waiters)
    ensures forall j :: 0 <= j < |s.recvs| ==> (s.recvs[j].stage == Queued <==> s.slot == Some(j))
  {
    ReachableInv(s);
    forall i | 0 <= i < |s.sends| && i in s.waiters ensures s.sends[i].stage == Queued {
      var k :| 0 <= k < |s.waiters| && s.waiters[k] == i;
    }
  }

  /** With capacity to buffer, an empty buffer means that no send is parked, and a
      refill always finds the slot that the pop freed. */
  lemma TransientEmptyIsDead(s: State, j: nat)
    requires Reachable(s) && s.bounded && s.capacity > 0
    ensures s.ring == [] ==> s.waiters == []
    ensures InRange(s)
    ensures s.waiters != [] ==>
              Pull(s, j).0.ring == s.ring[1..] + [s.sends[s.waiters[0]].value] && Pull(s, j).0.count == s.count
  {
    ReachableInv(s);
  }

  /** The channel cannot lose its last sender without being closed or about to be. */
  lemma LastSenderCloses(s: State)
    requires Reachable(s)
    ensures s.senders == s.handles
    ensures s.handles == 0 ==> s.closed || Enabled(s, CloseByLast)
  {
    ReachableInv(s);
  }

  // ----- conservation, first in first out -----

  ghost function ValuesOf(ids: seq<nat>, sends: seq<SendOp>): seq<Value>
    requires forall k :: 0 <= k < |ids| ==> ids[k] < |sends|
  {
    seq(|ids|, k requires 0 <= k < |ids| => sends[ids[k]].value)
  }

  /** The values that receives were given, in the order of the receives. */
  ghost function Delivered(s: State): seq<Value>
    requires forall k :: 0 <= k < |s.log.takers| ==>
               s.log.takers[k] < |s.recvs| && s.recvs[s.log.takers[k]].got.Some?
  {
    seq(|s.log.takers|, k requires 0 <= k < |s.log.takers| => s.recvs[s.log.takers[k]].got.value)
  }

  /** Delivered values, then the buffer, then the parked values are exactly the
      values that entered, in entry order, minus those withdrawn or dropped. */
  lemma Conservation(s: State)
    requires Reachable(s)
    ensures Inv(s)
    ensures forall i :: i in Live(s.log.order, s.sends) ==> i < |s.sends|
    ensures ValuesOf(Live(s.log.order, s.sends), s.sends)
         == Delivered(s) + s.Buffer() + ValuesOf(s.waiters, s.sends)
  {
    ReachableInv(s);
    LiveMembers(s.log.order, s.sends);
    var line := Line(s);
    forall k | 0 <= k < |line| ensures line[k] < |s.sends| {
      assert line[k] in Live(s.log.order, s.sends);
    }
    SplitValues(s.log.taken + s.log.buffered, s.waiters, s.sends);
    SplitValues(s.log.taken, s.log.buffered, s.sends);
    assert ValuesOf(s.log.taken, s.sends) == Delivered(s);
    assert ValuesOf(s.log.buffered, s.sends) == s.Buffer();
  }

  lemma SplitValues(a: seq<nat>, b: seq<nat>, sends: seq<SendOp>)
    requires forall k :: 0 <= k < |a + b| ==> (a + b)[k] < |sends|
    ensures forall k :: 0 <= k < |a| ==> a[k] < |sends|
    ensures forall k :: 0 <= k < |b| ==> b[k] < |sends|
    ensures ValuesOf(a + b, sends) == ValuesOf(a, sends) + ValuesOf(b, sends)
  {
    forall k | 0 <= k < |a| ensures a[k] < |sends| { assert (a + b)[k] == a[k]; }
    forall k | 0 <= k < |b| ensures b[k] < |sends| { assert (a + b)[|a| + k] == b[k]; }
  }

  /** No value is delivered, buffered or parked twice, and each receive is given one value at most. */
  lemma NothingTwice(s: State)
    requires Reachable(s)
    ensures Distinct(s.log.taken + s.log.buffered + s.waiters)
    ensures Distinct(s.log.takers) && |s.log.takers| == |s.log.taken|
    ensures forall j :: 0 <= j < |s.recvs| ==> (s.recvs[j].got.Some? <==> j in s.log.takers)
  {
    ReachableInv(s);
    LineDistinct(s);
    forall j | 0 <= j < |s.recvs| && j in s.log.takers ensures s.recvs[j].got.Some? {
      var k :| 0 <= k < |s.log.takers| && s.log.takers[k] == j;
    }
  }

  /** A live send that entered before a delivered one was itself delivered before it. */
  lemma NoOvertaking(s: State, a: nat, b: nat, k: nat)
    requires Reachable(s)
    requires a < b < |s.log.order| && k < |s.log.taken| && s.log.taken[k] == s.log.order[b]
    ensures s.log.order[a] < |s.sends|
    ensures IsLive(s.sends[s.log.order[a]]) ==> s.log.order[a] in s.log.taken[..k]
  {
    ReachableInv(s);
    hide Parking, BufferOk, TakesOk, Live;
    if IsLive(s.sends[s.log.order[a]]) {
      LineDistinct(s);
      TakenInLine(s, k);
      var l, m := LivePositions(s.log.order, s.sends, a, b);
      PrefixOfLine(s.log.taken, s.log.buffered + s.waiters, Line(s), k, l, m);
    }
  }

  lemma TakenInLine(s: State, k: nat)
    requires k < |s.log.taken|
    ensures Line(s) == s.log.taken + (s.log.buffered + s.waiters) && s.log.taken[k] in Line(s)
  {
    assert Line(s)[k] == s.log.taken[k];
  }

  /** In a line without repetition what stands before an element of the first part is in that part. */
  lemma PrefixOfLine(first: seq<nat>, rest: seq<nat>, line: seq<nat>, k: nat, l: nat, m: nat)
    requires line == first + rest && Distinct(line) && k < |first| && l < m < |line| && line[m] == first[k]
    ensures line[l] in first[..k]
  {
    assert line[k] == line[m];
    assert line[l] == first[..k][l];
  }

  /** Two live sends keep their order in Live. */
  lemma {:induction false} LivePositions(order: seq<nat>, sends: seq<SendOp>, a: nat, b: nat)
    returns (l: nat, m: nat)
    requires forall k :: 0 <= k < |order| ==> order[k] < |sends|
    requires a < b < |order| && IsLive(sends[order[a]]) && order[b] in Live(order, sends)
    requires Distinct(order)
    ensures l < m < |Live(order, sends)|
    ensures Live(order, sends)[l] == order[a] && Live(order, sends)[m] == order[b]
  {
    var n := |order| - 1;
    LiveMembers(order, sends);
    LiveMembers(order[..n], sends);
    if b < n {
      l, m := LivePositions(order[..n], sends, a, b);
    } else {
      assert order[a] in order[..n] by { assert order[..n][a] == order[a]; }
      l :| 0 <= l < |Live(order[..n], sends)| && Live(order[..n], sends)[l] == order[a];
      m := |Live(order[..n], sends)|;
    }
  }

  // ----- exactly one completion, true to the value's fate -----

  lemma ExactlyOnce(s: State, i: nat)
    requires Reachable(s) && i < |s.sends|
    ensures var op := s.sends[i]; var out := Outcome(op.owed, op.signals);
            && |op.signals| + (if op.owed.Some? then 1 else 0) <= 1
            && (!op.started ==> out.None?)
            && (op.started && !op.destroyed ==> (out.Some? <==> i !in s.waiters))
            && (out == Some(Accepted) <==> i in s.log.taken || i in s.log.buffered)
            && (out == Some(Rejected) || out == Some(SendStopped) ==> op.held && i !in Line(s))
  {
    ReachableInv(s);
    var op := s.sends[i];
    LineDistinct(s);
    assert SendOk(op);
    assert i in Line(s) <==> i in s.log.taken || i in s.log.buffered || i in s.waiters;
    NoWakeupIsLost(s);
    Past(s);
  }

  /** Values in the buffer or with a receiver have left their operations. */
  lemma Past(s: State)
    requires Inv(s)
    ensures forall i :: i in s.log.taken || i in s.log.buffered ==> i < |s.sends| && !s.sends[i].held
  {
  }

  lemma ReceiveExactlyOnce(s: State, j: nat)
    requires Reachable(s) && j < |s.recvs|
    ensures var op := s.recvs[j]; var out := Outcome(op.owed, op.signals);
            && |op.signals| + (if op.owed.Some? then 1 else 0) <= 1
            && (!op.started ==> out.None?)
            && (op.started && !op.destroyed ==> (out.Some? <==> s.slot != Some(j)))
            && (j in s.log.takers <==> out.Some? && out.value.Received?)
            && (forall k :: 0 <= k < |s.log.takers| && s.log.takers[k] == j ==>
                  k < |s.log.taken| && s.log.taken[k] < |s.sends| && out == Some(Received(s.sends[s.log.taken[k]].value)))
  {
    ReachableInv(s);
    NothingTwice(s);
    assert RecvOk(s.recvs[j]);
  }

  /** A completion once decided is never changed or repeated. */
  ghost predicate Unchanged(a: SendOp, b: SendOp) {
    && b.value == a.value && b.held == a.held
    && Outcome(b.owed, b.signals) == Outcome(a.owed, a.signals)
  }

  ghost predicate Decided(s: State, i: nat) {
    i < |s.sends| && Outcome(s.sends[i].owed, s.sends[i].signals).Some?
  }

  lemma DecidedNotParked(s: State, i: nat)
    requires Inv(s) && Decided(s, i)
    ensures InRange(s) && s.sends[i].started && s.sends[i].stage != Queued && i !in s.waiters
    ensures AtMostOnce(s.sends[i].owed, s.sends[i].signals)
  {
    assert SendOk(s.sends[i]);
  }

  lemma FinalUnderSend(s: State, e: Event, i: nat)
    requires Inv(s) && Enabled(s, e) && Decided(s, i)
    requires e.StartSendOf? || e.CompleteSendOf? || e.SendNow?
    ensures InRange(s) && i < |Apply(s, e).sends| && Unchanged(s.sends[i], Apply(s, e).sends[i])
  {
    hide Inv;
    DecidedNotParked(s, i);
  }

  lemma FinalUnderCancel(s: State, e: Event, i: nat)
    requires Inv(s) && Enabled(s, e) && Decided(s, i) && (e.StopSendOf? || e.DestroySendOf?)
    ensures InRange(s) && i < |Apply(s, e).sends| && Unchanged(s.sends[i], Apply(s, e).sends[i])
  {
    hide Inv, Without;
    DecidedNotParked(s, i);
  }

  lemma FinalUnderPull(s: State, i: nat, j: nat)
    requires Inv(s) && Decided(s, i)
    ensures InRange(s) && i < |Pull(s, j).0.sends| && Unchanged(s.sends[i], Pull(s, j).0.sends[i])
  {
    hide Inv;
    DecidedNotParked(s, i);
  }

  lemma FinalUnderClose(s: State, i: nat)
    requires Inv(s) && Decided(s, i)
    ensures InRange(s) && i < |Close(s).sends| && Unchanged(s.sends[i], Close(s).sends[i])
  {
    hide Inv;
    DecidedNotParked(s, i);
  }

  lemma StepIsFinal(s: State, e: Event, i: nat)
    requires Inv(s) && Enabled(s, e) && Decided(s, i)
    ensures InRange(s) && i < |Apply(s, e).sends| && Unchanged(s.sends[i], Apply(s, e).sends[i])
  {
    hide Inv, StartSend, StopSend, DestroySend, TrySend, Pull, Close;
    DecidedNotParked(s, i);
    match e
    case StartSendOf(_) => FinalUnderSend(s, e, i);
    case CompleteSendOf(_) => FinalUnderSend(s, e, i);
    case SendNow(_) => FinalUnderSend(s, e, i);
    case StopSendOf(_) => FinalUnderCancel(s, e, i);
    case DestroySendOf(_) => FinalUnderCancel(s, e, i);
    case StartRecvOf(j) => FinalUnderPull(s, i, j);
    case RecvNow => FinalUnderPull(s, i, |s.recvs|);
    case CloseNow => FinalUnderClose(s, i);
    case CloseByLast => FinalUnderClose(s, i);
    case _ =>
  }

  /** Over any later run: a stop request that lost the arbitration, close() and
      destruction cannot touch the outcome. */
  lemma {:induction false} OutcomeIsFinal(s: State, run: seq<Event>, i: nat)
    requires Inv(s) && Legal(s, run) && Decided(s, i)
    ensures var t := Exec(s, run); i < |t.sends| && Unchanged(s.sends[i], t.sends[i])
    decreases |run|
  {
    hide Inv, Apply, Enabled;
    if run != [] {
      StepInv(s, run[0]);
      StepIsFinal(s, run[0], i);
      OutcomeIsFinal(Apply(s, run[0]), run[1..], i);
    }
  }

  // ----- the same for receives -----

  ghost predicate RecvUnchanged(a: RecvOp, b: RecvOp) {
    b.got == a.got && Outcome(b.owed, b.signals) == Outcome(a.owed, a.signals)
  }

  ghost predicate RecvDecided(s: State, j: nat) {
    j < |s.recvs| && Outcome(s.recvs[j].owed, s.recvs[j].signals).Some?
  }

  lemma DecidedRecvNotParked(s: State, j: nat)
    requires Inv(s) && RecvDecided(s, j)
    ensures InRange(s) && s.recvs[j].started && s.recvs[j].stage != Queued && s.slot != Some(j)
    ensures AtMostOnce(s.recvs[j].owed, s.recvs[j].signals)
  {
    assert RecvOk(s.recvs[j]);
  }

  lemma RecvFinalUnderSender(s: State, e: Event, j: nat)
    requires Inv(s) && Enabled(s, e) && RecvDecided(s, j) && !OfReceiver(e)
    ensures InRange(s) && |Apply(s, e).recvs| == |s.recvs| && Apply(s, e).recvs[j] == s.recvs[j]
  {
    hide Inv;
    DecidedRecvNotParked(s, j);
  }

  lemma RecvFinalUnderCancel(s: State, e: Event, j: nat)
    requires Inv(s) && Enabled(s, e) && RecvDecided(s, j) && (e.StopRecvOf? || e.DestroyRecvOf?)
    ensures InRange(s) && j < |Apply(s, e).recvs| && RecvUnchanged(s.recvs[j], Apply(s, e).recvs[j])
  {
    hide Inv;
    DecidedRecvNotParked(s, j);
  }

  lemma RecvFinalUnderReceiver(s: State, e: Event, j: nat)
    requires Inv(s) && Enabled(s, e) && RecvDecided(s, j) && OfReceiver(e)
    ensures InRange(s) && j < |Apply(s, e).recvs| && RecvUnchanged(s.recvs[j], Apply(s, e).recvs[j])
  {
    hide Inv, Pull, StopRecv, DestroyRecv;
    DecidedRecvNotParked(s, j);
    match e
    case StopRecvOf(_) => RecvFinalUnderCancel(s, e, j);
    case DestroyRecvOf(_) => RecvFinalUnderCancel(s, e, j);
    case StartRecvOf(k) => PullFrame(s, k);
    case RecvNow => PullFrame(s, |s.recvs|);
    case _ =>
  }

  lemma RecvStepIsFinal(s: State, e: Event, j: nat)
    requires Inv(s) && Enabled(s, e) && RecvDecided(s, j)
    ensures InRange(s) && j < |Apply(s, e).recvs| && RecvUnchanged(s.recvs[j], Apply(s, e).recvs[j])
  {
    hide Inv, Apply;
    if OfReceiver(e) {
      RecvFinalUnderReceiver(s, e, j);
    } else {
      RecvFinalUnderSender(s, e, j);
    }
  }

  /** Over any later run the outcome of a receive, and the value that it was given, are final too. */
  lemma {:induction false} RecvOutcomeIsFinal(s: State, run: seq<Event>, j: nat)
    requires Inv(s) && Legal(s, run) && RecvDecided(s, j)
    ensures j < |Exec(s, run).recvs| && RecvUnchanged(s.recvs[j], Exec(s, run).recvs[j])
    decreases |run|
  {
    hide Inv, Apply, Enabled;
    if run != [] {
      StepInv(s, run[0]);
      RecvStepIsFinal(s, run[0], j);
      RecvOutcomeIsFinal(Apply(s, run[0]), run[1..], j);
    }
  }
}
