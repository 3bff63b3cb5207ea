/** Invariants of the channel over every run: no lost wakeup, first-in first-out
    conservation of values, and exactly one completion per operation. */
module ChannelSafety {
  import opened Basics
  import opened ChannelModel

  // ----- one operation -----

  /** The one completion of an operation: delivered, or still owed. */
  ghost function Outcome<S>(owed: Option<S>, signals: seq<S>): Option<S> {
    if |signals| > 0 then Some(signals[0]) else owed
  }

  ghost predicate AtMostOnce<S>(owed: Option<S>, signals: seq<S>) {
    |signals| <= 1 && (owed.Some? ==> signals == [])
  }

  ghost predicate SendOk(op: SendOp) {
    var out := Outcome(op.owed, op.signals);
    && AtMostOnce(op.owed, op.signals)
    && (!op.started ==> op.stage == Init && op.held && out.None?)
    && (op.destroyed ==> op.owed.None?)
    && (op.held <==> out != Some(Accepted))
    && match op.stage
       case Init => op.started ==> out.Some?
       case Queued => out.None? && !op.destroyed
       case Claimed => out == Some(Accepted)
       case Closed => out == Some(Rejected)
       case Stopped => out == Some(SendStopped)
       case Gone => out.None? && op.destroyed
  }

  ghost predicate RecvOk(op: RecvOp) {
    var out := Outcome(op.owed, op.signals);
    && AtMostOnce(op.owed, op.signals)
    && (!op.started ==> op.stage == Init && op.got.None? && out.None?)
    && (op.destroyed ==> op.owed.None?)
    && (op.got.Some? ==> out == Some(Received(op.got.value)))
    && (out.Some? && out.value.Received? ==> op.got.Some?)
    && match op.stage
       case Init => op.started ==> out.Some?
       case Queued => out.None? && !op.destroyed
       case Claimed => op.got.Some?
       case Closed => out == Some(Ended)
       case Stopped => out == Some(RecvStopped)
       case Gone => out.None? && op.destroyed
  }

  // ----- the wait list, the receiver slot and the buffer -----

  ghost predicate SendsOk(sends: seq<SendOp>, waiters: seq<nat>) {
    && Distinct(waiters)
    && (forall k :: 0 <= k < |waiters| ==> waiters[k] < |sends| && sends[waiters[k]].stage == Queued)
    && (forall i :: 0 <= i < |sends| ==> SendOk(sends[i]) && (sends[i].stage == Queued ==> i in waiters))
  }

  ghost predicate RecvsOk(recvs: seq<RecvOp>, slot: Option<nat>) {
    && (slot.Some? ==> slot.value < |recvs|)
    && (forall j :: 0 <= j < |recvs| ==> RecvOk(recvs[j]) && (recvs[j].stage == Queued <==> slot == Some(j)))
  }

  /** Nobody is parked who could be served. */
  ghost predicate NoLostWakeup(s: State) {
    && (s.slot.Some? ==> !s.closed && s.ring == [] && s.uq == [] && s.waiters == [])
    && (s.waiters != [] ==> !s.closed && s.bounded && |s.ring| == s.capacity)
    && (s.bounded ==> |s.ring| <= s.capacity)
    && s.count == |s.ring|
  }

  ghost predicate HandlesOk(s: State) {
    s.senders == s.handles && (s.handles == 0 ==> s.closed || s.closing > 0)
  }

  ghost predicate Parking(s: State) {
    InRange(s) && SendsOk(s.sends, s.waiters) && RecvsOk(s.recvs, s.slot) && NoLostWakeup(s) && HandlesOk(s)
  }

  // ----- history -----

  /** A send is live while its value is with a receiver, in the buffer, or parked. */
  ghost predicate IsLive(op: SendOp) {
    op.stage != Closed && op.stage != Stopped && op.stage != Gone
  }

  /** A send entered the channel if its value did, or if it was ever parked. */
  ghost predicate HasEntered(op: SendOp) {
    !op.held || op.stage != Init
  }

  /** The sends in entry order, minus those withdrawn by a stop or a destruction
      and those dropped by close(). */
  ghost function Live(order: seq<nat>, sends: seq<SendOp>): seq<nat>
    requires forall k :: 0 <= k < |order| ==> order[k] < |sends|
  {
    if order == [] then []
    else
      var n := |order| - 1;
      Live(order[..n], sends) + if IsLive(sends[order[n]]) then [order[n]] else []
  }

  /** line is every value in the channel or past it, oldest first. */
  ghost predicate OrderOk(order: seq<nat>, sends: seq<SendOp>, line: seq<nat>) {
    && Distinct(order)
    && (forall k :: 0 <= k < |order| ==> order[k] < |sends|)
    && (forall i :: 0 <= i < |sends| ==> (HasEntered(sends[i]) <==> i in order))
    && Live(order, sends) == line
  }

  ghost predicate BufferOk(buffer: seq<Value>, buffered: seq<nat>, sends: seq<SendOp>) {
    && |buffered| == |buffer|
    && (forall k :: 0 <= k < |buffer| ==>
          buffered[k] < |sends| && buffer[k] == sends[buffered[k]].value && !sends[buffered[k]].held)
  }

  /** Receive takers[k] got the value of send taken[k], and no receive took twice. */
  ghost predicate TakesOk(taken: seq<nat>, takers: seq<nat>, sends: seq<SendOp>, recvs: seq<RecvOp>) {
    && |takers| == |taken|
    && Distinct(takers)
    && (forall k :: 0 <= k < |taken| ==>
          && taken[k] < |sends| && takers[k] < |recvs| && !sends[taken[k]].held
          && recvs[takers[k]].got == Some(sends[taken[k]].value))
    && (forall j :: 0 <= j < |recvs| && recvs[j].got.Some? ==> j in takers)
  }

  ghost function Line(s: State): seq<nat> {
    s.log.taken + s.log.buffered + s.waiters
  }

  ghost predicate History(s: State) {
    && OrderOk(s.log.order, s.sends, Line(s))
    && BufferOk(s.Buffer(), s.log.buffered, s.sends)
    && TakesOk(s.log.taken, s.log.takers, s.sends, s.recvs)
  }

  ghost predicate Inv(s: State) {
    Parking(s) && History(s)
  }

  // ----- lemmas on Live -----

  lemma {:induction false} LiveSame(order: seq<nat>, a: seq<SendOp>, b: seq<SendOp>)
    requires forall k :: 0 <= k < |order| ==> order[k] < |a| && order[k] < |b|
    requires forall k :: 0 <= k < |order| ==> (IsLive(a[order[k]]) <==> IsLive(b[order[k]]))
    ensures Live(order, a) == Live(order, b)
  {
    if order != [] {
      LiveSame(order[..|order| - 1], a, b);
    }
  }

  lemma {:induction false} LiveMembers(order: seq<nat>, sends: seq<SendOp>)
    requires forall k :: 0 <= k < |order| ==> order[k] < |sends|
    ensures forall i :: i in Live(order, sends) <==> i in order && IsLive(sends[i])
    ensures Distinct(order) ==> Distinct(Live(order, sends))
  {
    if order != [] {
      LiveMembers(order[..|order| - 1], sends);
      assert order == order[..|order| - 1] + [order[|order| - 1]];
    }
  }

  /** Killing the sends in dead removes exactly them from the live ones. */
  lemma {:induction false} LiveWithout(order: seq<nat>, a: seq<SendOp>, b: seq<SendOp>, dead: set<nat>)
    requires forall k :: 0 <= k < |order| ==> order[k] < |a| && order[k] < |b|
    requires forall k :: 0 <= k < |order| ==>
               (IsLive(b[order[k]]) <==> IsLive(a[order[k]]) && order[k] !in dead)
    ensures Live(order, b) == Without(Live(order, a), dead)
  {
    if order != [] {
      var n := |order| - 1;
      LiveWithout(order[..n], a, b, dead);
      WithoutConcat(Live(order[..n], a), if IsLive(a[order[n]]) then [order[n]] else [], dead);
      assert IsLive(a[order[n]]) ==>
          Without([order[n]], dead) == if order[n] in dead then [] else [order[n]];
    }
  }

  lemma LiveAppend(order: seq<nat>, i: nat, a: seq<SendOp>, b: seq<SendOp>)
    requires forall k :: 0 <= k < |order| ==> order[k] < |a| && order[k] < |b|
    requires forall k :: 0 <= k < |order| ==> (IsLive(a[order[k]]) <==> IsLive(b[order[k]]))
    requires i < |b| && IsLive(b[i])
    ensures forall k :: 0 <= k < |order| + 1 ==> (order + [i])[k] < |b|
    ensures Live(order + [i], b) == Live(order, a) + [i]
  {
    assert (order + [i])[..|order|] == order;
    LiveSame(order, a, b);
  }

  // ----- every step keeps the invariant -----

  lemma UpdateSend(sends: seq<SendOp>, waiters: seq<nat>, i: nat, op: SendOp)
    requires SendsOk(sends, waiters) && i < |sends|
    requires SendOk(op) && (op.stage == Queued <==> sends[i].stage == Queued)
    ensures SendsOk(sends[i := op], waiters)
  {
  }

  lemma ParkSend(sends: seq<SendOp>, waiters: seq<nat>, i: nat, op: SendOp)
    requires SendsOk(sends, waiters) && i < |sends|
    requires SendOk(op) && op.stage == Queued && sends[i].stage != Queued
    ensures SendsOk(sends[i := op], waiters + [i])
  {
    var queue := waiters + [i];
    assert queue[|waiters|] == i;
    assert forall x :: x in waiters ==> x in queue;
  }

  lemma UnparkSend(sends: seq<SendOp>, waiters: seq<nat>, i: nat, op: SendOp)
    requires SendsOk(sends, waiters) && i < |sends|
    requires SendOk(op) && op.stage != Queued
    ensures SendsOk(sends[i := op], Without(waiters, {i}))
  {
    var queue := Without(waiters, {i});
    WithoutDistinct(waiters, {i});
    WithoutMembers(waiters, {i});
    forall k | 0 <= k < |queue| ensures queue[k] < |sends| && sends[i := op][queue[k]].stage == Queued {
      assert queue[k] in queue;
    }
  }

  lemma ClaimHead(sends: seq<SendOp>, waiters: seq<nat>)
    requires SendsOk(sends, waiters) && waiters != []
    ensures Without(waiters, {waiters[0]}) == waiters[1..]
    ensures SendsOk(sends[waiters[0] := Claim(sends[waiters[0]])], waiters[1..])
  {
    WithoutOne(waiters, 0);
    UnparkSend(sends, waiters, waiters[0], Claim(sends[waiters[0]]));
  }

  lemma AddSend(sends: seq<SendOp>, waiters: seq<nat>, op: SendOp)
    requires SendsOk(sends, waiters) && SendOk(op) && op.stage != Queued
    ensures SendsOk(sends + [op], waiters)
  {
  }

  lemma UpdateRecv(recvs: seq<RecvOp>, slot: Option<nat>, j: nat, op: RecvOp)
    requires RecvsOk(recvs, slot) && j < |recvs| && RecvOk(op)
    ensures op.stage == Queued && (slot.None? || slot == Some(j)) ==> RecvsOk(recvs[j := op], Some(j))
    ensures op.stage != Queued && slot == Some(j) ==> RecvsOk(recvs[j := op], None)
    ensures op.stage != Queued && slot != Some(j) ==> RecvsOk(recvs[j := op], slot)
  {
  }

  lemma StartSendParking(s: State, i: nat)
    requires Parking(s) && Enabled(s, StartSendOf(i))
    ensures Parking(StartSend(s, i))
  {
    var t, op := StartSend(s, i), s.sends[i];
    if t.sends[i].stage == Queued {
      ParkSend(s.sends, s.waiters, i, t.sends[i]);
    } else {
      UpdateSend(s.sends, s.waiters, i, t.sends[i]);
      if t.slot != s.slot {
        UpdateRecv(s.recvs, s.slot, s.slot.value, Store(s.recvs[s.slot.value], op.value));
      }
    }
  }

  lemma StopSendParking(s: State, i: nat)
    requires Parking(s) && Enabled(s, StopSendOf(i))
    ensures Parking(StopSend(s, i))
  {
    var t := StopSend(s, i);
    if s.sends[i].stage == Queued {
      UnparkSend(s.sends, s.waiters, i, t.sends[i]);
      assert t.sends == s.sends[i := t.sends[i]];
    } else {
      UpdateSend(s.sends, s.waiters, i, t.sends[i]);
      assert t.sends == s.sends[i := t.sends[i]];
    }
  }

  lemma DestroySendParking(s: State, i: nat)
    requires Parking(s) && Enabled(s, DestroySendOf(i))
    ensures Parking(DestroySend(s, i))
  {
    var t := DestroySend(s, i);
    if s.sends[i].stage == Queued {
      UnparkSend(s.sends, s.waiters, i, t.sends[i]);
      assert t.sends == s.sends[i := t.sends[i]];
    } else {
      UpdateSend(s.sends, s.waiters, i, t.sends[i]);
    }
  }

  /** Taking a value does not touch the receiving side. */
  lemma PullFrame(s: State, j: nat)
    requires InRange(s)
    ensures var (t, out) := Pull(s, j);
            t.recvs == s.recvs && t.slot == s.slot && t.closed == s.closed && (out.None? ==> t == s)
  {
  }

  lemma PullParking(s: State, j: nat)
    requires Parking(s)
    ensures var (t, out) := Pull(s, j);
            && InRange(t) && SendsOk(t.sends, t.waiters) && t.recvs == s.recvs && t.slot == s.slot
            && t.closed == s.closed && HandlesOk(t) && NoLostWakeup(t)
            && (out.None? ==> t == s && s.waiters == [] && s.Buffer() == [])
            && (out.Some? ==> s.slot.None?)
  {
    if s.waiters != [] {
      ClaimHead(s.sends, s.waiters);
    }
  }

  lemma ServedRecvParking(s: State, j: nat)
    requires Parking(s) && Enabled(s, StartRecvOf(j)) && !s.recvs[j].stopRequested && Pull(s, j).1.Some?
    ensures Parking(StartRecv(s, j))
  {
    hide SendsOk, Pull;
    assert RecvOk(s.recvs[j]) && s.recvs[j].stage == Init;
    PullParking(s, j);
    UpdateRecv(s.recvs, s.slot, j, StartRecv(s, j).recvs[j]);
  }

  lemma StartRecvParking(s: State, j: nat)
    requires Parking(s) && Enabled(s, StartRecvOf(j))
    ensures Parking(StartRecv(s, j))
  {
    hide SendsOk, Pull;
    if !s.recvs[j].stopRequested && Pull(s, j).1.Some? {
      ServedRecvParking(s, j);
    } else {
      assert RecvOk(s.recvs[j]) && s.recvs[j].stage == Init;
      PullParking(s, j);
      UpdateRecv(s.recvs, s.slot, j, StartRecv(s, j).recvs[j]);
    }
  }

  lemma TryRecvParking(s: State)
    requires Parking(s)
    ensures Parking(TryRecv(s))
  {
    PullParking(s, |s.recvs|);
  }

  lemma StopRecvParking(s: State, j: nat)
    requires Parking(s) && Enabled(s, StopRecvOf(j))
    ensures Parking(StopRecv(s, j))
  {
    UpdateRecv(s.recvs, s.slot, j, StopRecv(s, j).recvs[j]);
  }

  lemma DestroyRecvParking(s: State, j: nat)
    requires Parking(s) && Enabled(s, DestroyRecvOf(j))
    ensures Parking(DestroyRecv(s, j))
  {
    UpdateRecv(s.recvs, s.slot, j, DestroyRecv(s, j).recvs[j]);
  }

  lemma TrySendParking(s: State, v: Value)
    requires Parking(s) && Enabled(s, SendNow(v))
    ensures Parking(TrySend(s, v))
  {
    var t := TrySend(s, v);
    AddSend(s.sends, s.waiters, t.sends[|s.sends|]);
    if t.slot != s.slot {
      UpdateRecv(s.recvs, s.slot, s.slot.value, Store(s.recvs[s.slot.value], v));
    }
  }

  lemma CloseParking(s: State)
    requires Parking(s)
    ensures Parking(Close(s))
  {
    if !s.closed {
      var t := Close(s);
      forall i | 0 <= i < |t.sends| ensures SendOk(t.sends[i]) && t.sends[i].stage != Queued {
        assert SendOk(s.sends[i]);
      }
      if s.slot.Some? {
        UpdateRecv(s.recvs, s.slot, s.slot.value, t.recvs[s.slot.value]);
      }
    }
  }

  lemma CompletionParking(s: State, e: Event)
    requires Parking(s) && Enabled(s, e) && (e.CompleteSendOf? || e.CompleteRecvOf? || e.NewSend? || e.NewRecv?)
    ensures Parking(Apply(s, e))
  {
    match e
    case CompleteSendOf(i) => UpdateSend(s.sends, s.waiters, i, Deliver(s.sends[i]));
    case CompleteRecvOf(j) => UpdateRecv(s.recvs, s.slot, j, DeliverRecv(s.recvs[j]));
    case NewSend(v) => AddSend(s.sends, s.waiters, NewSendOp(v));
    case NewRecv =>
  }

  lemma StepParking(s: State, e: Event)
    requires Parking(s) && Enabled(s, e)
    ensures Parking(Apply(s, e))
  {
    hide SendsOk, RecvsOk, StartSend, StopSend, DestroySend, StartRecv, StopRecv, DestroyRecv, TryRecv, TrySend;
    match e
    case StartSendOf(i) => StartSendParking(s, i);
    case StopSendOf(i) => StopSendParking(s, i);
    case DestroySendOf(i) => DestroySendParking(s, i);
    case StartRecvOf(j) => StartRecvParking(s, j);
    case StopRecvOf(j) => StopRecvParking(s, j);
    case DestroyRecvOf(j) => DestroyRecvParking(s, j);
    case RecvNow => TryRecvParking(s);
    case SendNow(v) => TrySendParking(s, v);
    case CloseNow => CloseParking(s);
    case CloseByLast => CloseParking(s);
    case CopySender =>
    case ReleaseSender =>
    case _ => CompletionParking(s, e);
  }

  // ----- every step keeps the history -----

  /** Operations may be added or change, keeping their values and their place in line. */
  ghost predicate SameFates(a: seq<SendOp>, b: seq<SendOp>) {
    && |a| <= |b|
    && (forall i :: 0 <= i < |a| ==>
          && b[i].value == a[i].value && (b[i].held ==> a[i].held)
          && (HasEntered(b[i]) <==> HasEntered(a[i])) && (IsLive(b[i]) <==> IsLive(a[i])))
    && (forall i :: |a| <= i < |b| ==> !HasEntered(b[i]))
  }

  lemma KeepHistory(s: State, t: State)
    requires History(s) && SameFates(s.sends, t.sends)
    requires t.log == s.log && t.waiters == s.waiters && t.Buffer() == s.Buffer()
    requires |s.recvs| <= |t.recvs|
    requires forall j :: 0 <= j < |s.recvs| ==> t.recvs[j].got == s.recvs[j].got
    requires forall j :: |s.recvs| <= j < |t.recvs| ==> t.recvs[j].got.None?
    ensures History(t)
  {
    LiveSame(s.log.order, s.sends, t.sends);
  }

  /** Replaces operation i, or adds it at the end. */
  ghost function Put<O>(ops: seq<O>, i: nat, op: O): seq<O>
    requires i <= |ops|
  {
    if i < |ops| then ops[i := op] else ops + [op]
  }

  lemma Enter(order: seq<nat>, a: seq<SendOp>, op: SendOp, line: seq<nat>, i: nat)
    requires OrderOk(order, a, line) && i <= |a| && (i < |a| ==> !HasEntered(a[i]))
    requires HasEntered(op) && IsLive(op)
    ensures OrderOk(order + [i], Put(a, i, op), line + [i])
  {
    var b := Put(a, i, op);
    var order1 := order + [i];
    forall k | 0 <= k < |order| ensures order[k] < |b| && order[k] != i && b[order[k]] == a[order[k]] {
      assert order[k] in order;
    }
    LiveAppend(order, i, a, b);
    forall x | 0 <= x < |b| ensures HasEntered(b[x]) <==> x in order1 {
      assert order1[|order|] == i;
      if x != i {
        assert x < |a| && b[x] == a[x];
      }
    }
  }

  lemma Kill(order: seq<nat>, a: seq<SendOp>, b: seq<SendOp>, line: seq<nat>, dead: set<nat>)
    requires OrderOk(order, a, line) && |b| == |a|
    requires forall i :: 0 <= i < |a| ==>
               && (HasEntered(b[i]) <==> HasEntered(a[i]))
               && (IsLive(b[i]) <==> IsLive(a[i]) && i !in dead)
    ensures OrderOk(order, b, Without(line, dead))
  {
    LiveWithout(order, a, b, dead);
  }

  lemma WithoutLine(past: seq<nat>, waiters: seq<nat>, dead: set<nat>)
    requires Distinct(past + waiters) && forall x :: x in dead ==> x in waiters
    ensures Without(past + waiters, dead) == past + Without(waiters, dead)
  {
    WithoutConcat(past, waiters, dead);
    forall k, l | 0 <= k < |past| && 0 <= l < |waiters| ensures past[k] != waiters[l] {
      assert (past + waiters)[k] == past[k] && (past + waiters)[|past| + l] == waiters[l];
    }
    WithoutNothing(past, dead);
  }

  lemma LineDistinct(s: State)
    requires History(s)
    ensures Distinct(Line(s))
    ensures forall i :: i in Line(s) <==> 0 <= i < |s.sends| && HasEntered(s.sends[i]) && IsLive(s.sends[i])
  {
    LiveMembers(s.log.order, s.sends);
  }

  lemma Take(taken: seq<nat>, takers: seq<nat>, sends: seq<SendOp>,
                a: seq<RecvOp>, op: RecvOp, i: nat, j: nat)
    requires TakesOk(taken, takers, sends, a) && i < |sends| && !sends[i].held
    requires j <= |a| && (j < |a| ==> a[j].got.None?) && op.got == Some(sends[i].value)
    ensures TakesOk(taken + [i], takers + [j], sends, Put(a, j, op))
  {
    var b := Put(a, j, op);
    var takers1 := takers + [j];
    assert takers1[|takers|] == j;
    forall x | 0 <= x < |b| && b[x].got.Some? ensures x in takers1 {
      if x != j {
        assert a[x] == b[x] && x in takers;
      }
    }
  }

  lemma TakesFrame(taken: seq<nat>, takers: seq<nat>, a: seq<SendOp>, b: seq<SendOp>, recvs: seq<RecvOp>)
    requires TakesOk(taken, takers, a, recvs) && |a| <= |b|
    requires forall i :: 0 <= i < |a| ==> b[i].value == a[i].value && (b[i].held ==> a[i].held)
    ensures TakesOk(taken, takers, b, recvs)
  {
  }

  /** A value enters: into a parked receiver (j), or the buffer, or the wait list. */
  lemma EnterHistory(s: State, t: State, i: nat, op: SendOp)
    requires Inv(s) && i <= |s.sends| && t.sends == Put(s.sends, i, op)
    requires i < |s.sends| ==> !HasEntered(s.sends[i]) && op.value == s.sends[i].value
    requires HasEntered(op) && IsLive(op)
    requires t.log.order == s.log.order + [i] && Line(t) == Line(s) + [i]
    requires BufferOk(t.Buffer(), t.log.buffered, t.sends)
    requires TakesOk(t.log.taken, t.log.takers, t.sends, t.recvs)
    ensures History(t)
  {
    Enter(s.log.order, s.sends, op, Line(s), i);
  }

  lemma HandOver(s: State, i: nat, op: SendOp, j: nat)
    requires Inv(s) && i <= |s.sends| && !op.held && s.slot == Some(j)
    requires i < |s.sends| ==> s.sends[i].held && op.value == s.sends[i].value
    ensures j < |s.recvs|
    ensures TakesOk(s.log.taken + [i], s.log.takers + [j], Put(s.sends, i, op),
                    s.recvs[j := Store(s.recvs[j], op.value)])
  {
    assert RecvOk(s.recvs[j]);
    var sends := Put(s.sends, i, op);
    TakesFrame(s.log.taken, s.log.takers, s.sends, sends, s.recvs);
    Take(s.log.taken, s.log.takers, sends, s.recvs, Store(s.recvs[j], op.value), i, j);
  }

  lemma BufferFrame(buffer: seq<Value>, buffered: seq<nat>, a: seq<SendOp>, i: nat, op: SendOp)
    requires BufferOk(buffer, buffered, a) && i <= |a|
    requires i < |a| ==> a[i].held && op.value == a[i].value
    ensures BufferOk(buffer, buffered, Put(a, i, op))
    ensures !op.held ==> BufferOk(buffer + [op.value], buffered + [i], Put(a, i, op))
  {
  }

  lemma StartSendHistory(s: State, i: nat)
    requires Inv(s) && Enabled(s, StartSendOf(i))
    ensures History(StartSend(s, i))
  {
    hide OrderOk, TakesOk, BufferOk, Live;
    var t := StartSend(s, i);
    assert SendOk(s.sends[i]);
    if t.log == s.log {
      KeepHistory(s, t);
    } else {
      var op := t.sends[i];
      BufferFrame(s.Buffer(), s.log.buffered, s.sends, i, op);
      if s.slot.Some? {
        HandOver(s, i, op, s.slot.value);
      } else {
        TakesFrame(s.log.taken, s.log.takers, s.sends, t.sends, s.recvs);
      }
      assert Line(t) == Line(s) + [i];
      EnterHistory(s, t, i, op);
    }
  }

  lemma TrySendHistory(s: State, v: Value)
    requires Inv(s) && Enabled(s, SendNow(v))
    ensures History(TrySend(s, v))
  {
    hide OrderOk, TakesOk, BufferOk, Live;
    var t, i := TrySend(s, v), |s.sends|;
    if s.closed {
      KeepHistory(s, t);
    } else {
      var op := t.sends[i];
      BufferFrame(s.Buffer(), s.log.buffered, s.sends, i, op);
      if s.slot.Some? {
        HandOver(s, i, op, s.slot.value);
      } else {
        TakesFrame(s.log.taken, s.log.takers, s.sends, t.sends, s.recvs);
      }
      assert Line(t) == Line(s) + [i];
      EnterHistory(s, t, i, op);
    }
  }

  /** Parked sends `dead` leave the line; nothing else changes. */
  lemma LeaveHistory(s: State, t: State, dead: set<nat>)
    requires Inv(s) && |t.sends| == |s.sends| && forall i :: i in dead ==> i in s.waiters
    requires forall i :: 0 <= i < |s.sends| ==>
               && t.sends[i].value == s.sends[i].value && t.sends[i].held == s.sends[i].held
               && (HasEntered(t.sends[i]) <==> HasEntered(s.sends[i]))
               && (IsLive(t.sends[i]) <==> IsLive(s.sends[i]) && i !in dead)
    requires t.log == s.log && t.Buffer() == s.Buffer() && t.waiters == Without(s.waiters, dead)
    requires |t.recvs| == |s.recvs| && forall j :: 0 <= j < |s.recvs| ==> t.recvs[j].got == s.recvs[j].got
    ensures History(t)
  {
    hide Live, Distinct, Without;
    LineDistinct(s);
    WithoutLine(s.log.taken + s.log.buffered, s.waiters, dead);
    Kill(s.log.order, s.sends, t.sends, Line(s), dead);
    TakesFrame(s.log.taken, s.log.takers, s.sends, t.sends, s.recvs);
    assert TakesOk(t.log.taken, t.log.takers, t.sends, t.recvs);
  }

  lemma CloseHistory(s: State)
    requires Inv(s)
    ensures History(Close(s))
  {
    if !s.closed {
      var t, dead := Close(s), set i | i in s.waiters;
      WithoutAll(s.waiters, dead);
      forall i | 0 <= i < |s.sends| ensures IsLive(t.sends[i]) <==> IsLive(s.sends[i]) && i !in dead {
        if i in s.waiters {
          assert t.sends[i].stage == Closed;
        }
      }
      LeaveHistory(s, t, dead);
    }
  }

  lemma StopSendHistory(s: State, i: nat)
    requires Inv(s) && Enabled(s, StopSendOf(i))
    ensures History(StopSend(s, i))
  {
    hide History, Without;
    if s.sends[i].stage == Queued {
      LeaveHistory(s, StopSend(s, i), {i});
    } else {
      KeepHistory(s, StopSend(s, i));
    }
  }

  lemma DestroySendHistory(s: State, i: nat)
    requires Inv(s) && Enabled(s, DestroySendOf(i))
    ensures History(DestroySend(s, i))
  {
    hide History, Without;
    if s.sends[i].stage == Queued {
      LeaveHistory(s, DestroySend(s, i), {i});
    } else {
      KeepHistory(s, DestroySend(s, i));
    }
  }

  /** The oldest buffered value goes to receive j. */
  lemma PopHistory(s: State, j: nat, op: RecvOp)
    requires InRange(s) && History(s) && SendsOk(s.sends, s.waiters) && s.Buffer() != [] && op.got == Some(s.Buffer()[0])
    requires j <= |s.recvs| && (j < |s.recvs| ==> s.recvs[j].got.None?)
    ensures TakesOk(s.log.taken + [s.log.buffered[0]], s.log.takers + [j], s.sends, Put(s.recvs, j, op))
    ensures BufferOk(s.Buffer()[1..], s.log.buffered[1..], s.sends)
    ensures Line(s) == s.log.taken + [s.log.buffered[0]] + s.log.buffered[1..] + s.waiters
  {
    Take(s.log.taken, s.log.takers, s.sends, s.recvs, op, s.log.buffered[0], j);
  }

  /** Claiming the oldest parked send changes nobody's place in line. */
  lemma ClaimHistory(order: seq<nat>, sends: seq<SendOp>, line: seq<nat>, waiters: seq<nat>)
    requires OrderOk(order, sends, line) && SendsOk(sends, waiters) && waiters != []
    ensures sends[waiters[0]].held
    ensures OrderOk(order, sends[waiters[0] := Claim(sends[waiters[0]])], line)
  {
    assert SendOk(sends[waiters[0]]);
    LiveSame(order, sends, sends[waiters[0] := Claim(sends[waiters[0]])]);
  }

  lemma RefillHistory(s: State, j: nat, op: RecvOp)
    requires InRange(s) && History(s) && SendsOk(s.sends, s.waiters)
    requires |s.ring| <= s.capacity && s.bounded && s.ring != [] && s.waiters != [] && op.got == Some(s.ring[0])
    requires j <= |s.recvs| && (j < |s.recvs| ==> s.recvs[j].got.None?)
    ensures History(Pull(s, j).0.(recvs := Put(s.recvs, j, op)))
  {
    hide OrderOk, TakesOk, BufferOk, SendsOk;
    var w, claimed := s.waiters[0], TakeHead(s).sends;
    PopHistory(s, j, op);
    ClaimHistory(s.log.order, s.sends, Line(s), s.waiters);
    BufferFrame(s.ring[1..], s.log.buffered[1..], s.sends, w, Claim(s.sends[w]));
    TakesFrame(s.log.taken + [s.log.buffered[0]], s.log.takers + [j], s.sends, claimed, Put(s.recvs, j, op));
    var t := Pull(s, j).0.(recvs := Put(s.recvs, j, op));
    assert s.waiters == [w] + s.waiters[1..];
    assert Line(t) == Line(s) && claimed == Put(s.sends, w, Claim(s.sends[w]));
  }

  lemma RendezvousTakes(s: State, j: nat, op: RecvOp)
    requires InRange(s) && History(s) && SendsOk(s.sends, s.waiters) && s.waiters != [] && s.waiters[0] < |s.sends|
    requires op.got == Some(s.sends[s.waiters[0]].value)
    requires j <= |s.recvs| && (j < |s.recvs| ==> s.recvs[j].got.None?)
    ensures TakesOk(s.log.taken + [s.waiters[0]], s.log.takers + [j], TakeHead(s).sends, Put(s.recvs, j, op))
  {
    var w, claimed := s.waiters[0], TakeHead(s).sends;
    TakesFrame(s.log.taken, s.log.takers, s.sends, claimed, s.recvs);
    Take(s.log.taken, s.log.takers, claimed, s.recvs, op, w, j);
  }

  lemma RendezvousHistory(s: State, j: nat, op: RecvOp)
    requires InRange(s) && History(s) && SendsOk(s.sends, s.waiters) && s.bounded && s.ring == [] && s.waiters != []
    requires op.got == Some(s.sends[s.waiters[0]].value)
    requires j <= |s.recvs| && (j < |s.recvs| ==> s.recvs[j].got.None?)
    ensures History(Pull(s, j).0.(recvs := Put(s.recvs, j, op)))
  {
    hide OrderOk, TakesOk, SendsOk, Live, Distinct;
    ClaimHistory(s.log.order, s.sends, Line(s), s.waiters);
    RendezvousTakes(s, j, op);
    assert s.waiters == [s.waiters[0]] + s.waiters[1..];
    var t := Pull(s, j).0.(recvs := Put(s.recvs, j, op));
    assert t.log == LogTake(s.log, s.waiters[0], j) && s.log.buffered == [];
    assert Line(t) == Line(s);
  }

  /** A receive takes the head of the line, wherever it is. */
  lemma PullHistory(s: State, j: nat, op: RecvOp)
    requires Inv(s) && j <= |s.recvs| && (j < |s.recvs| ==> s.recvs[j].got.None?)
    requires Pull(s, j).1.Some? && op.got == Pull(s, j).1
    ensures History(Pull(s, j).0.(recvs := Put(s.recvs, j, op)))
  {
    if s.Buffer() == [] {
      RendezvousHistory(s, j, op);
    } else if s.waiters != [] {
      RefillHistory(s, j, op);
    } else {
      PopHistory(s, j, op);
    }
  }

  lemma StartRecvHistory(s: State, j: nat)
    requires Inv(s) && Enabled(s, StartRecvOf(j))
    ensures History(StartRecv(s, j))
  {
    hide History, Pull;
    var t := StartRecv(s, j);
    assert RecvOk(s.recvs[j]);
    if !s.recvs[j].stopRequested && Pull(s, j).1.Some? {
      PullHistory(s, j, t.recvs[j]);
      assert t == Pull(s, j).0.(recvs := Put(s.recvs, j, t.recvs[j]));
    } else {
      KeepHistory(s, t);
    }
  }

  lemma TryRecvHistory(s: State)
    requires Inv(s)
    ensures History(TryRecv(s))
  {
    hide History;
    var t, j := TryRecv(s), |s.recvs|;
    if Pull(s, j).1.Some? {
      PullHistory(s, j, t.recvs[j]);
      assert t == Pull(s, j).0.(recvs := Put(s.recvs, j, t.recvs[j]));
    } else {
      KeepHistory(s, t);
    }
  }

  lemma SendEventHistory(s: State, e: Event)
    requires Inv(s) && Enabled(s, e) && (e.NewSend? || e.CompleteSendOf?)
    ensures History(Apply(s, e))
  {
    hide History;
    KeepHistory(s, Apply(s, e));
  }

  lemma RecvCancelHistory(s: State, e: Event)
    requires Inv(s) && Enabled(s, e) && (e.StopRecvOf? || e.DestroyRecvOf?)
    ensures History(Apply(s, e))
  {
    hide History, SendsOk, NoLostWakeup;
    KeepHistory(s, Apply(s, e));
  }

  lemma RecvEventHistory(s: State, e: Event)
    requires Inv(s) && Enabled(s, e)
    requires e.NewRecv? || e.CompleteRecvOf? || e.CopySender? || e.ReleaseSender?
    ensures History(Apply(s, e))
  {
    hide History, SendsOk, RecvsOk, NoLostWakeup;
    KeepHistory(s, Apply(s, e));
  }

  lemma StepHistory(s: State, e: Event)
    requires Inv(s) && Enabled(s, e)
    ensures History(Apply(s, e))
  {
    hide OrderOk, BufferOk, TakesOk, StartSend, StopSend, DestroySend, StartRecv, TryRecv, TrySend;
    match e
    case StartSendOf(i) => StartSendHistory(s, i);
    case StopSendOf(i) => StopSendHistory(s, i);
    case DestroySendOf(i) => DestroySendHistory(s, i);
    case StartRecvOf(j) => StartRecvHistory(s, j);
    case RecvNow => TryRecvHistory(s);
    case SendNow(v) => TrySendHistory(s, v);
    case CloseNow => CloseHistory(s);
    case CloseByLast => CloseHistory(s);
    case NewSend(_) => SendEventHistory(s, e);
    case CompleteSendOf(_) => SendEventHistory(s, e);
    case StopRecvOf(_) => RecvCancelHistory(s, e);
    case DestroyRecvOf(_) => RecvCancelHistory(s, e);
    case _ => RecvEventHistory(s, e);
  }

  lemma StepInv(s: State, e: Event)
    requires Inv(s) && Enabled(s, e)
    ensures Inv(Apply(s, e))
  {
    StepParking(s, e);
    StepHistory(s, e);
  }

  // ----- runs -----

  ghost predicate Legal(s: State, run: seq<Event>)
    decreases |run|
  {
    InRange(s) && (run == [] || (Enabled(s, run[0]) && Legal(Apply(s, run[0]), run[1..])))
  }

  ghost function Exec(s: State, run: seq<Event>): State
    requires Legal(s, run)
    decreases |run|
  {
    if run == [] then s else Exec(Apply(s, run[0]), run[1..])
  }

  lemma {:induction false} RunInv(s: State, run: seq<Event>)
    requires Inv(s) && Legal(s, run)
    ensures Inv(Exec(s, run))
    decreases |run|
  {
    hide Inv, Apply, Enabled;
    if run != [] {
      StepInv(s, run[0]);
      RunInv(Apply(s, run[0]), run[1..]);
    }
  }

  ghost predicate Reachable(s: State) {
    exists bounded, capacity, run ::
      Legal(Fresh(bounded, capacity), run) && s == Exec(Fresh(bounded, capacity), run)
  }

  lemma FreshIsReachable(bounded: bool, capacity: nat)
    ensures Reachable(Fresh(bounded, capacity))
  {
    assert Legal(Fresh(bounded, capacity), []);
  }

  lemma FreshInv(bounded: bool, capacity: nat)
    ensures Inv(Fresh(bounded, capacity))
  {
    var s := Fresh(bounded, capacity);
    assert Live(s.log.order, s.sends) == [] && Line(s) == [];
  }

  lemma ReachableInv(s: State)
    requires Reachable(s)
    ensures Inv(s)
  {
    var bounded, capacity, run :|
      Legal(Fresh(bounded, capacity), run) && s == Exec(Fresh(bounded, capacity), run);
    FreshInv(bounded, capacity);
    RunInv(Fresh(bounded, capacity), run);
  }

  lemma ReachableBy(bounded: bool, capacity: nat, run: seq<Event>)
    requires Legal(Fresh(bounded, capacity), run)
    ensures Reachable(Exec(Fresh(bounded, capacity), run))
  {
  }

  /** No run gets stuck on a malformed state: any enabled event extends a run. */
  lemma {:induction false} ReachableStep(s: State, e: Event)
    requires Reachable(s) && Enabled(s, e)
    ensures InRange(s) && Reachable(Apply(s, e))
  {
    var bounded, capacity, run :|
      Legal(Fresh(bounded, capacity), run) && s == Exec(Fresh(bounded, capacity), run);
    FreshInv(bounded, capacity);
    RunExtend(Fresh(bounded, capacity), run, e);
    ReachableBy(bounded, capacity, run + [e]);
  }

  lemma {:induction false} RunExtend(s: State, run: seq<Event>, e: Event)
    requires Inv(s) && Legal(s, run) && Enabled(Exec(s, run), e)
    ensures InRange(Exec(s, run)) && Legal(s, run + [e]) && Exec(s, run + [e]) == Apply(Exec(s, run), e)
    decreases |run|
  {
    hide Apply, Enabled, History;
    if run == [] {
      StepInv(s, e);
      assert [e][1..] == [];
    } else {
      StepInv(s, run[0]);
      RunExtend(Apply(s, run[0]), run[1..], e);
      assert (run + [e])[1..] == run[1..] + [e];
    }
  }

  lemma StartRun(s: State)
    requires Reachable(s)
    ensures Legal(s, []) && Exec(s, []) == s
  {
    ReachableInv(s);
  }

  lemma ExtendRun(s: State, run: seq<Event>, t: State, e: Event)
    requires Reachable(s) && Legal(s, run) && t == Exec(s, run) && InRange(t) && Enabled(t, e)
    ensures Legal(s, run + [e]) && Exec(s, run + [e]) == Apply(t, e)
  {
    ReachableInv(s);
    RunExtend(s, run, e);
  }

  lemma {:induction false} JoinRuns(s: State, a: seq<Event>, b: seq<Event>)
    requires Legal(s, a) && Legal(Exec(s, a), b)
    ensures Legal(s, a + b) && Exec(s, a + b) == Exec(Exec(s, a), b)
    decreases |a|
  {
    hide Apply, Enabled, InRange;
    if a == [] {
      assert a + b == b;
    } else {
      JoinRuns(Apply(s, a[0]), a[1..], b);
      assert (a + b)[1..] == a[1..] + b;
    }
  }

  lemma CloseStep(s: State)
    requires Reachable(s) && InRange(s)
    ensures Legal(s, [CloseNow]) && Exec(s, [CloseNow]) == Close(s)
  {
    ReachableStep(s, CloseNow);
    StartRun(Close(s));
    assert [CloseNow][1..] == [];
  }

  lemma OwedNotParked(s: State, i: nat)
    requires Inv(s) && i < |s.sends| && s.sends[i].owed.Some?
    ensures InRange(s) && s.sends[i].started && s.sends[i].stage != Queued && i !in s.waiters
  {
    assert SendOk(s.sends[i]);
  }

  /** A completion that is owed to a send stays owed until it is delivered, and a send that it is owed
      to is not parked. */
  lemma OwedStays(s: State, e: Event, i: nat)
    requires Reachable(s) && Enabled(s, e) && i < |s.sends| && s.sends[i].owed.Some? && e != CompleteSendOf(i)
    ensures InRange(s) && i < |Apply(s, e).sends| && Apply(s, e).sends[i].owed == s.sends[i].owed
    ensures i !in s.waiters
  {
    hide Reachable, Inv, InRange, Apply;
    ReachableInv(s);
    OwedNotParked(s, i);
    if OfReceiver(e) {
      OwedUnderReceiver(s, e, i);
    } else {
      OwedUnderSender(s, e, i);
    }
  }

  predicate OfReceiver(e: Event) {
    e.NewRecv? || e.StartRecvOf? || e.StopRecvOf? || e.DestroyRecvOf? || e.CompleteRecvOf? || e.RecvNow?
  }

  lemma OwedUnderReceiver(s: State, e: Event, i: nat)
    requires Inv(s) && Enabled(s, e) && i < |s.sends| && s.sends[i].owed.Some? && OfReceiver(e)
    ensures InRange(s) && i < |Apply(s, e).sends| && Apply(s, e).sends[i] == s.sends[i]
  {
    hide Inv, Pull;
    OwedNotParked(s, i);
    match e
    case StartRecvOf(j) => OwedUnderPull(s, i, j);
    case RecvNow => OwedUnderPull(s, i, |s.recvs|);
    case _ =>
  }

  lemma OwedUnderSender(s: State, e: Event, i: nat)
    requires Inv(s) && Enabled(s, e) && i < |s.sends| && s.sends[i].owed.Some? && !OfReceiver(e) && e != CompleteSendOf(i)
    ensures InRange(s) && i < |Apply(s, e).sends| && Apply(s, e).sends[i].owed == s.sends[i].owed
  {
    hide Inv, StartSend, TrySend, Close;
    OwedNotParked(s, i);
    match e
    case StartSendOf(k) => OwedUnderStart(s, i, k);
    case SendNow(v) => OwedUnderTrySend(s, i, v);
    case CloseNow => OwedUnderClose(s, i);
    case CloseByLast => OwedUnderClose(s, i);
    case _ =>
  }

  lemma OwedUnderStart(s: State, i: nat, k: nat)
    requires InRange(s) && i < |s.sends| && k < |s.sends| && s.sends[i].started && !s.sends[k].started
    ensures |StartSend(s, k).sends| == |s.sends| && StartSend(s, k).sends[i] == s.sends[i]
  {
  }

  lemma OwedUnderTrySend(s: State, i: nat, v: Value)
    requires InRange(s) && i < |s.sends|
    ensures i < |TrySend(s, v).sends| && TrySend(s, v).sends[i] == s.sends[i]
  {
  }

  lemma OwedUnderClose(s: State, i: nat)
    requires InRange(s) && i < |s.sends| && i !in s.waiters
    ensures |Close(s).sends| == |s.sends| && Close(s).sends[i] == s.sends[i]
  {
  }

  lemma OwedUnderPull(s: State, i: nat, j: nat)
    requires Inv(s) && i < |s.sends| && s.sends[i].owed.Some?
    ensures var t := Pull(s, j).0; i < |t.sends| && t.sends[i] == s.sends[i]
  {
    hide Inv;
    OwedNotParked(s, i);
  }

  lemma ClosedIsEmpty(s: State)
    requires Reachable(s) && s.closed
    ensures s.waiters == [] && s.slot == None
  {
    ReachableInv(s);
  }

  /** What a lock section may rely on, without unfolding the whole invariant. */
  lemma Advance(s: State, e: Event, t: State)
    requires InRange(s) && Reachable(s) && Enabled(s, e) && t == Apply(s, e)
    ensures InRange(t) && Reachable(t)
  {
    ReachableStep(s, e);
    ReachableInv(t);
  }

  lemma Unstarted(s: State, i: nat)
    requires Reachable(s) && i < |s.sends| && !s.sends[i].started
    ensures i !in s.waiters && s.sends[i].stage == Init && s.sends[i].held && s.sends[i].owed.None?
  {
    ReachableInv(s);
    assert SendOk(s.sends[i]);
  }

  lemma HandlesAgree(s: State)
    requires Reachable(s)
    ensures s.senders == s.handles
  {
    ReachableInv(s);
  }

  lemma ParkedPlace(s: State, i: nat) returns (k: nat)
    requires Reachable(s) && i < |s.sends| && s.sends[i].stage == Queued
    ensures k < |s.waiters| && s.waiters[k] == i
    ensures Without(s.waiters, {i}) == s.waiters[..k] + s.waiters[k + 1..]
  {
    ReachableInv(s);
    k :| 0 <= k < |s.waiters| && s.waiters[k] == i;
    WithoutOne(s.waiters, k);
  }
}
