/** When an operation completes, and with what: which step decides it, from the state before the step,
    and what a run must hold for a refusal, a stop or an end. */
module ChannelOutcomes {
  import opened Basics
  import opened ChannelModel
  import opened ChannelSafety
  import opened ChannelTheorems

  ghost function SendOutcome(s: State, i: nat): Option<SendSignal>
    requires i < |s.sends|
  {
    Outcome(s.sends[i].owed, s.sends[i].signals)
  }

  ghost function RecvOutcome(s: State, j: nat): Option<RecvSignal>
    requires j < |s.recvs|
  {
    Outcome(s.recvs[j].owed, s.recvs[j].signals)
  }

  predicate IsClose(e: Event) {
    e.CloseNow? || e.CloseByLast?
  }

  // ----- the start of a send -----

  lemma UnstartedSend(s: State, i: nat)
    requires Inv(s) && i < |s.sends| && !s.sends[i].started
    ensures InRange(s) && s.sends[i].owed.None? && s.sends[i].signals == [] && s.sends[i].held && s.sends[i].stage == Init
  {
    assert SendOk(s.sends[i]);
  }

  /** A send that starts is stopped exactly if a stop was requested before, is refused exactly if the
      channel is closed, completes at once exactly if somebody waits for its value or the ring has
      room, and otherwise parks, behind all that are parked already. */
  lemma StartDecides(s: State, i: nat)
    requires Reachable(s) && Enabled(s, StartSendOf(i))
    ensures InRange(s) && i < |Apply(s, StartSendOf(i)).sends|
    ensures var t, stop, room := Apply(s, StartSendOf(i)), s.sends[i].stopRequested, s.slot.Some? || |s.ring| < s.capacity;
            && (SendOutcome(t, i) == Some(SendStopped) <==> stop)
            && (SendOutcome(t, i) == Some(Rejected) <==> !stop && s.closed)
            && (SendOutcome(t, i) == Some(Accepted) <==> !stop && !s.closed && room)
            && (SendOutcome(t, i) == None <==> !stop && !s.closed && !room)
            && t.waiters == if SendOutcome(t, i) == None then s.waiters + [i] else s.waiters
  {
    ReachableInv(s);
    UnstartedSend(s, i);
  }

  // ----- every step -----

  /** A receive that takes what is there. */
  ghost predicate Takes(s: State, e: Event) {
    e.RecvNow? || (e.StartRecvOf? && e.i < |s.recvs| && !s.recvs[e.i].stopRequested)
  }

  /** What a step decides about send i, which was undecided. */
  ghost function SendDecision(s: State, e: Event, i: nat): Option<SendSignal>
    requires i < |s.sends|
  {
    if e == StartSendOf(i) then
      if s.sends[i].stopRequested then Some(SendStopped)
      else if s.closed then Some(Rejected)
      else if s.slot.Some? || |s.ring| < s.capacity then Some(Accepted)
      else None
    else if i in s.waiters then
      if e == StopSendOf(i) then Some(SendStopped)
      else if IsClose(e) then Some(Rejected)
      else if i == s.waiters[0] && Takes(s, e) then Some(Accepted)
      else None
    else None
  }

  /** What the invariant says about an undecided send. */
  ghost predicate Pending(s: State, i: nat) {
    && InRange(s) && i < |s.sends| && s.sends[i].owed.None? && s.sends[i].signals == []
    && (s.sends[i].stage == Queued <==> i in s.waiters)
    && (s.sends[i].stage == Init || s.sends[i].stage == Queued || s.sends[i].stage == Gone)
    && (s.sends[i].stage == Init <==> !s.sends[i].started)
    && (s.waiters != [] ==> !s.closed && s.slot.None? && s.bounded && |s.ring| == s.capacity)
    && (forall k :: 0 < k < |s.waiters| ==> s.waiters[k] != s.waiters[0])
  }

  lemma UndecidedSend(s: State, i: nat)
    requires Inv(s) && i < |s.sends| && SendOutcome(s, i) == None
    ensures Pending(s, i)
  {
    assert SendOk(s.sends[i]);
    assert i in s.waiters ==> exists k :: 0 <= k < |s.waiters| && s.waiters[k] == i;
  }

  lemma StartRules(s: State, k: nat, i: nat)
    requires Pending(s, i) && Enabled(s, StartSendOf(k))
    ensures |StartSend(s, k).sends| == |s.sends| && SendOutcome(StartSend(s, k), i) == SendDecision(s, StartSendOf(k), i)
  {
  }

  lemma StopRules(s: State, k: nat, i: nat)
    requires Pending(s, i) && Enabled(s, StopSendOf(k))
    ensures |StopSend(s, k).sends| == |s.sends| && SendOutcome(StopSend(s, k), i) == SendDecision(s, StopSendOf(k), i)
  {
    hide Without;
  }

  lemma DestroyRules(s: State, k: nat, i: nat)
    requires Pending(s, i) && Enabled(s, DestroySendOf(k))
    ensures |DestroySend(s, k).sends| == |s.sends| && SendOutcome(DestroySend(s, k), i) == SendDecision(s, DestroySendOf(k), i)
  {
    hide Without;
  }

  lemma TrySendRules(s: State, v: Value, i: nat)
    requires Pending(s, i)
    ensures i < |TrySend(s, v).sends| && SendOutcome(TrySend(s, v), i) == SendDecision(s, SendNow(v), i)
  {
  }

  lemma SenderDecides(s: State, e: Event, i: nat)
    requires Pending(s, i) && Enabled(s, e) && (e.StartSendOf? || e.StopSendOf? || e.DestroySendOf? || e.SendNow?)
    ensures i < |Apply(s, e).sends| && SendOutcome(Apply(s, e), i) == SendDecision(s, e, i)
  {
    hide StartSend, StopSend, DestroySend, TrySend, SendDecision, SendOutcome;
    match e
    case StartSendOf(k) => StartRules(s, k, i);
    case StopSendOf(k) => StopRules(s, k, i);
    case DestroySendOf(k) => DestroyRules(s, k, i);
    case SendNow(v) => TrySendRules(s, v, i);
  }

  lemma PullDecides(s: State, i: nat, j: nat)
    requires Pending(s, i)
    ensures i < |Pull(s, j).0.sends|
    ensures SendOutcome(Pull(s, j).0, i) == if i in s.waiters && i == s.waiters[0] then Some(Accepted) else None
  {
  }

  lemma TakeDecides(s: State, e: Event, i: nat)
    requires Pending(s, i) && Enabled(s, e) && (e.StartRecvOf? || e.RecvNow?)
    ensures i < |Apply(s, e).sends| && SendOutcome(Apply(s, e), i) == SendDecision(s, e, i)
  {
    hide Pull;
    var j := if e.StartRecvOf? then e.i else |s.recvs|;
    PullDecides(s, i, j);
    PullFrame(s, j);
  }

  lemma CloseDecides(s: State, e: Event, i: nat)
    requires Pending(s, i) && Enabled(s, e) && IsClose(e)
    ensures i < |Apply(s, e).sends| && SendOutcome(Apply(s, e), i) == SendDecision(s, e, i)
  {
  }

  lemma OthersLeaveSend(s: State, e: Event, i: nat)
    requires Pending(s, i) && Enabled(s, e) && !IsClose(e) && !e.StartRecvOf? && !e.RecvNow?
    requires !e.StartSendOf? && !e.StopSendOf? && !e.DestroySendOf? && !e.SendNow?
    ensures i < |Apply(s, e).sends| && SendOutcome(Apply(s, e), i) == SendDecision(s, e, i) == None
  {
  }

  /** Each step decides exactly the sends that it should: the starting one, the parked one that is
      stopped, the oldest parked one when its value is taken, and every parked one at close. */
  lemma StepDecides(s: State, e: Event, i: nat)
    requires Inv(s) && Enabled(s, e) && i < |s.sends| && SendOutcome(s, i) == None
    ensures InRange(s) && i < |Apply(s, e).sends| && SendOutcome(Apply(s, e), i) == SendDecision(s, e, i)
  {
    hide Inv, Apply, SendDecision;
    UndecidedSend(s, i);
    match e
    case StartSendOf(_) => SenderDecides(s, e, i);
    case StopSendOf(_) => SenderDecides(s, e, i);
    case DestroySendOf(_) => SenderDecides(s, e, i);
    case SendNow(_) => SenderDecides(s, e, i);
    case StartRecvOf(_) => TakeDecides(s, e, i);
    case RecvNow => TakeDecides(s, e, i);
    case CloseNow => CloseDecides(s, e, i);
    case CloseByLast => CloseDecides(s, e, i);
    case _ => OthersLeaveSend(s, e, i);
  }

  /** try_send() resolves its send at once: refused exactly if the channel is closed. */
  lemma TrySendDecides(s: State, v: Value)
    requires Reachable(s) && Enabled(s, SendNow(v))
    ensures InRange(s) && |TrySend(s, v).sends| == |s.sends| + 1
    ensures SendOutcome(TrySend(s, v), |s.sends|) == Some(if s.closed then Rejected else Accepted)
    ensures !s.closed && s.slot.None? ==> TrySend(s, v).Buffer() == s.Buffer() + [v]
  {
    ReachableInv(s);
  }

  // ----- receives -----

  /** The value that is next in line: the oldest buffered one, or the oldest parked one. */
  ghost function NextValue(s: State): Option<Value>
    requires InRange(s)
  {
    if s.Buffer() != [] then Some(s.Buffer()[0])
    else if s.waiters != [] then Some(s.sends[s.waiters[0]].value)
    else None
  }

  /** What a step decides about receive j, which was undecided. */
  ghost function RecvDecision(s: State, e: Event, j: nat): Option<RecvSignal>
    requires InRange(s) && j < |s.recvs|
  {
    if e == StartRecvOf(j) then
      if s.recvs[j].stopRequested then Some(RecvStopped)
      else if NextValue(s).Some? then Some(Received(NextValue(s).value))
      else if s.closed then Some(Ended)
      else if s.slot.Some? then Some(Violation)
      else None
    else if s.slot == Some(j) then
      if e == StopRecvOf(j) then Some(RecvStopped)
      else if IsClose(e) then Some(Ended)
      else if e.SendNow? then Some(Received(e.v))
      else if e.StartSendOf? && e.i < |s.sends| && !s.sends[e.i].stopRequested then Some(Received(s.sends[e.i].value))
      else None
    else None
  }

  /** What the invariant says about an undecided receive. */
  ghost predicate PendingRecv(s: State, j: nat) {
    && InRange(s) && j < |s.recvs| && s.recvs[j].owed.None? && s.recvs[j].signals == [] && s.recvs[j].got.None?
    && (s.recvs[j].stage == Queued <==> s.slot == Some(j))
    && (s.recvs[j].stage == Init || s.recvs[j].stage == Queued || s.recvs[j].stage == Gone)
    && (s.recvs[j].stage == Init <==> !s.recvs[j].started)
    && (s.slot.Some? ==> !s.closed && s.ring == [] && s.uq == [] && s.waiters == [])
    && (s.bounded && s.ring != [] ==> s.capacity > 0)
  }

  lemma UndecidedRecv(s: State, j: nat)
    requires Inv(s) && j < |s.recvs| && RecvOutcome(s, j) == None
    ensures PendingRecv(s, j)
  {
    assert RecvOk(s.recvs[j]);
  }

  lemma PullGives(s: State, j: nat)
    requires InRange(s) && (s.bounded && s.ring != [] ==> s.capacity > 0)
    ensures Pull(s, j).1 == NextValue(s)
    ensures Pull(s, j).0.recvs == s.recvs && Pull(s, j).0.slot == s.slot
  {
  }

  lemma ReceiverDecides(s: State, e: Event, j: nat)
    requires PendingRecv(s, j) && Enabled(s, e)
    requires e.StopRecvOf? || e.DestroyRecvOf? || e.NewRecv?
    ensures j < |Apply(s, e).recvs| && RecvOutcome(Apply(s, e), j) == RecvDecision(s, e, j)
  {
  }

  lemma StartDecidesRecv(s: State, e: Event, j: nat)
    requires PendingRecv(s, j) && Enabled(s, e) && e.StartRecvOf?
    ensures j < |Apply(s, e).recvs| && RecvOutcome(Apply(s, e), j) == RecvDecision(s, e, j)
    ensures e.i == j && RecvDecision(s, e, j) == None ==> Apply(s, e).slot == Some(j)
  {
    hide Pull, NextValue;
    PullGives(s, e.i);
    PullFrame(s, e.i);
  }

  lemma SendDecidesRecv(s: State, e: Event, j: nat)
    requires PendingRecv(s, j) && Enabled(s, e) && (e.StartSendOf? || e.SendNow?)
    ensures j < |Apply(s, e).recvs| && RecvOutcome(Apply(s, e), j) == RecvDecision(s, e, j)
  {
  }

  /** Each step decides exactly the receives that it should, and what it decides is told by the state
      before it: a value is received exactly when one is in line or comes, the end only from a closed
      channel, a violation only beside a parked receive; otherwise the receive parks. */
  lemma StepDecidesRecv(s: State, e: Event, j: nat)
    requires Inv(s) && Enabled(s, e) && j < |s.recvs| && RecvOutcome(s, j) == None
    ensures InRange(s) && j < |Apply(s, e).recvs| && RecvOutcome(Apply(s, e), j) == RecvDecision(s, e, j)
    ensures e == StartRecvOf(j) && RecvDecision(s, e, j) == None ==> Apply(s, e).slot == Some(j)
  {
    hide Inv, Apply, StartRecv, RecvDecision, NextValue;
    UndecidedRecv(s, j);
    match e
    case StopRecvOf(_) => ReceiverDecides(s, e, j);
    case DestroyRecvOf(_) => ReceiverDecides(s, e, j);
    case NewRecv => ReceiverDecides(s, e, j);
    case StartRecvOf(_) => StartDecidesRecv(s, e, j);
    case StartSendOf(_) => SendDecidesRecv(s, e, j);
    case SendNow(_) => SendDecidesRecv(s, e, j);
    case CloseNow => CloseDecidesRecv(s, e, j);
    case CloseByLast => CloseDecidesRecv(s, e, j);
    case _ => OthersLeaveRecv(s, e, j);
  }

  lemma CloseDecidesRecv(s: State, e: Event, j: nat)
    requires PendingRecv(s, j) && Enabled(s, e) && IsClose(e)
    ensures j < |Apply(s, e).recvs| && RecvOutcome(Apply(s, e), j) == RecvDecision(s, e, j)
  {
  }

  lemma OthersLeaveRecv(s: State, e: Event, j: nat)
    requires PendingRecv(s, j) && Enabled(s, e) && !IsClose(e)
    requires !e.StopRecvOf? && !e.StartRecvOf? && !e.StartSendOf? && !e.SendNow?
    requires !e.DestroyRecvOf? && !e.NewRecv?
    ensures j < |Apply(s, e).recvs| && RecvOutcome(Apply(s, e), j) == RecvDecision(s, e, j) == None
  {
    hide Pull;
    PullGives(s, |s.recvs|);
  }

  /** try_recv() resolves its receive at once: with the value in line, or empty-handed. */
  lemma TryRecvDecides(s: State)
    requires Reachable(s)
    ensures InRange(s) && |TryRecv(s).recvs| == |s.recvs| + 1
    ensures RecvOutcome(TryRecv(s), |s.recvs|) == Some(if NextValue(s).Some? then Received(NextValue(s).value) else Nothing)
  {
    ReachableInv(s);
    hide Pull, NextValue;
    PullGives(s, |s.recvs|);
  }

  // ----- over runs -----

  /** `past` holds the cause of what happened to send i: its stop, or a close. */
  ghost predicate SendHasCause(s: State, past: seq<Event>, i: nat)
    requires i < |s.sends|
  {
    && (s.sends[i].stopRequested || SendOutcome(s, i) == Some(SendStopped) ==> StopSendOf(i) in past)
    && (SendOutcome(s, i) == Some(Rejected) ==> s.closed)
  }

  ghost predicate RecvHasCause(s: State, past: seq<Event>, j: nat)
    requires j < |s.recvs|
  {
    && (s.recvs[j].stopRequested || RecvOutcome(s, j) == Some(RecvStopped) ==> StopRecvOf(j) in past)
    && (RecvOutcome(s, j) == Some(Ended) ==> s.closed)
  }

  /** `past` accounts for what is closed, stopped, refused and ended in s. */
  ghost predicate Explained(s: State, past: seq<Event>) {
    && (s.closed <==> CloseNow in past || CloseByLast in past)
    && (forall i :: 0 <= i < |s.sends| ==> SendHasCause(s, past, i))
    && (forall j :: 0 <= j < |s.recvs| ==> RecvHasCause(s, past, j))
  }

  lemma ClosedBy(s: State, e: Event)
    requires InRange(s) && Enabled(s, e)
    ensures Apply(s, e).closed <==> s.closed || IsClose(e)
  {
    hide Without, Pull;
    match e
    case StartRecvOf(j) => PullFrame(s, j);
    case RecvNow => PullFrame(s, |s.recvs|);
    case _ =>
  }

  /** A stop that comes before the start is remembered, and nothing else counts as one. */
  lemma StopIsRemembered(s: State, e: Event, i: nat)
    requires InRange(s) && Enabled(s, e) && i < |s.sends| && |Apply(s, e).sends| >= |s.sends|
    ensures Apply(s, e).sends[i].stopRequested <==> s.sends[i].stopRequested || (e == StopSendOf(i) && s.sends[i].stage == Init)
  {
    hide Without, Pull;
    match e
    case StartRecvOf(j) => PullKeepsStops(s, j, i);
    case RecvNow => PullKeepsStops(s, |s.recvs|, i);
    case CloseNow =>
    case CloseByLast =>
    case _ => SenderKeepsStops(s, e, i);
  }

  lemma PullKeepsStops(s: State, j: nat, i: nat)
    requires InRange(s) && i < |s.sends|
    ensures |Pull(s, j).0.sends| == |s.sends| && Pull(s, j).0.sends[i].stopRequested == s.sends[i].stopRequested
  {
  }

  lemma PullKeepsSends(s: State, j: nat)
    requires InRange(s)
    ensures |Pull(s, j).0.sends| == |s.sends|
  {
  }

  lemma SenderKeepsStops(s: State, e: Event, i: nat)
    requires InRange(s) && Enabled(s, e) && i < |s.sends| && |Apply(s, e).sends| >= |s.sends|
    requires !IsClose(e) && !e.StartRecvOf? && !e.RecvNow?
    ensures Apply(s, e).sends[i].stopRequested <==> s.sends[i].stopRequested || (e == StopSendOf(i) && s.sends[i].stage == Init)
  {
    hide Without, StartSend, StopSend, DestroySend;
    match e
    case StartSendOf(k) => StartKeepsStops(s, k, i);
    case StopSendOf(k) => CancelKeepsStops(s, k, i);
    case DestroySendOf(k) => CancelKeepsStops(s, k, i);
    case _ =>
  }

  lemma StartKeepsStops(s: State, k: nat, i: nat)
    requires InRange(s) && k < |s.sends| && i < |s.sends|
    ensures |StartSend(s, k).sends| == |s.sends| && StartSend(s, k).sends[i].stopRequested == s.sends[i].stopRequested
  {
  }

  lemma CancelKeepsStops(s: State, k: nat, i: nat)
    requires k < |s.sends| && i < |s.sends|
    ensures |StopSend(s, k).sends| == |DestroySend(s, k).sends| == |s.sends|
    ensures StopSend(s, k).sends[i].stopRequested <==> s.sends[i].stopRequested || (k == i && s.sends[i].stage == Init)
    ensures DestroySend(s, k).sends[i].stopRequested == s.sends[i].stopRequested
  {
    hide Without;
  }

  lemma RecvStopIsRemembered(s: State, e: Event, j: nat)
    requires InRange(s) && Enabled(s, e) && j < |s.recvs|
    ensures |s.recvs| <= |Apply(s, e).recvs|
    ensures Apply(s, e).recvs[j].stopRequested <==> s.recvs[j].stopRequested || (e == StopRecvOf(j) && s.recvs[j].stage == Init)
  {
    hide Apply;
    if OfReceiver(e) {
      ReceiverKeepsStops(s, e, j);
    } else {
      SendKeepsRecvStops(s, e, j);
    }
  }

  lemma ReceiverKeepsStops(s: State, e: Event, j: nat)
    requires InRange(s) && Enabled(s, e) && j < |s.recvs| && OfReceiver(e)
    ensures |s.recvs| <= |Apply(s, e).recvs|
    ensures Apply(s, e).recvs[j].stopRequested <==> s.recvs[j].stopRequested || (e == StopRecvOf(j) && s.recvs[j].stage == Init)
  {
    hide Pull, StopRecv, DestroyRecv;
    match e
    case StartRecvOf(k) => PullFrame(s, k);
    case RecvNow => PullFrame(s, |s.recvs|);
    case StopRecvOf(k) => CancelKeepsRecvStops(s, k, j);
    case DestroyRecvOf(k) => CancelKeepsRecvStops(s, k, j);
    case _ =>
  }

  lemma CancelKeepsRecvStops(s: State, k: nat, j: nat)
    requires k < |s.recvs| && j < |s.recvs|
    ensures |StopRecv(s, k).recvs| == |DestroyRecv(s, k).recvs| == |s.recvs|
    ensures StopRecv(s, k).recvs[j].stopRequested <==> s.recvs[j].stopRequested || (k == j && s.recvs[j].stage == Init)
    ensures DestroyRecv(s, k).recvs[j].stopRequested == s.recvs[j].stopRequested
  {
  }

  lemma SendKeepsRecvStops(s: State, e: Event, j: nat)
    requires InRange(s) && Enabled(s, e) && j < |s.recvs| && !OfReceiver(e)
    ensures |Apply(s, e).recvs| == |s.recvs| && Apply(s, e).recvs[j].stopRequested == s.recvs[j].stopRequested
  {
    hide Without;
  }

  lemma NewSends(s: State, e: Event)
    requires InRange(s) && Enabled(s, e)
    ensures |s.sends| <= |Apply(s, e).sends| <= |s.sends| + 1
    ensures |Apply(s, e).sends| > |s.sends| ==>
              && !Apply(s, e).sends[|s.sends|].stopRequested
              && SendOutcome(Apply(s, e), |s.sends|)
                 == if e.NewSend? then None else Some(if s.closed then Rejected else Accepted)
  {
    hide StartSend, StopSend, DestroySend, Pull, Without;
    match e
    case StartSendOf(k) => StartKeepsStops(s, k, k);
    case StopSendOf(k) => CancelKeepsStops(s, k, k);
    case DestroySendOf(k) => CancelKeepsStops(s, k, k);
    case StartRecvOf(j) => PullKeepsSends(s, j);
    case RecvNow => PullKeepsSends(s, |s.recvs|);
    case _ =>
  }

  lemma NewRecvs(s: State, e: Event)
    requires InRange(s) && Enabled(s, e)
    ensures |s.recvs| <= |Apply(s, e).recvs| <= |s.recvs| + 1
    ensures |Apply(s, e).recvs| > |s.recvs| ==>
              && !Apply(s, e).recvs[|s.recvs|].stopRequested
              && RecvOutcome(Apply(s, e), |s.recvs|) != Some(Ended) && RecvOutcome(Apply(s, e), |s.recvs|) != Some(RecvStopped)
  {
    hide Without, Pull;
    if OfReceiver(e) {
      match e
      case StartRecvOf(k) => PullFrame(s, k);
      case RecvNow => PullFrame(s, |s.recvs|);
      case _ =>
    }
  }

  lemma SendExplained(s: State, e: Event, past: seq<Event>, i: nat)
    requires Inv(s) && Enabled(s, e) && Explained(s, past) && InRange(s) && i < |Apply(s, e).sends|
    ensures SendHasCause(Apply(s, e), past + [e], i)
  {
    hide Inv, Apply, Enabled, RecvHasCause;
    ClosedBy(s, e);
    NewSends(s, e);
    if i < |s.sends| {
      assert SendHasCause(s, past, i);
      StopIsRemembered(s, e, i);
      if SendOutcome(s, i) == None {
        StepDecides(s, e, i);
        UndecidedSend(s, i);
      } else {
        StepIsFinal(s, e, i);
      }
    }
  }

  lemma RecvExplained(s: State, e: Event, past: seq<Event>, j: nat)
    requires Inv(s) && Enabled(s, e) && Explained(s, past) && InRange(s) && j < |Apply(s, e).recvs|
    ensures RecvHasCause(Apply(s, e), past + [e], j)
  {
    hide Inv, Apply, Enabled, SendHasCause;
    ClosedBy(s, e);
    NewRecvs(s, e);
    if j < |s.recvs| {
      assert RecvHasCause(s, past, j);
      RecvStopIsRemembered(s, e, j);
      if RecvOutcome(s, j) == None {
        StepDecidesRecv(s, e, j);
        UndecidedRecv(s, j);
      } else {
        RecvStepIsFinal(s, e, j);
      }
    }
  }

  lemma CloseExplained(s: State, e: Event, past: seq<Event>)
    requires InRange(s) && Enabled(s, e) && Explained(s, past)
    ensures Apply(s, e).closed <==> CloseNow in past + [e] || CloseByLast in past + [e]
  {
    hide Apply, Enabled, SendHasCause, RecvHasCause;
    ClosedBy(s, e);
  }

  lemma StepExplained(s: State, e: Event, past: seq<Event>)
    requires Inv(s) && Enabled(s, e) && Explained(s, past) && InRange(s)
    ensures Explained(Apply(s, e), past + [e])
  {
    hide Inv, Apply, Enabled, InRange, SendHasCause, RecvHasCause;
    var t, all := Apply(s, e), past + [e];
    CloseExplained(s, e, past);
    forall i | 0 <= i < |t.sends|
      ensures SendHasCause(t, all, i)
    {
      SendExplained(s, e, past, i);
    }
    forall j | 0 <= j < |t.recvs|
      ensures RecvHasCause(t, all, j)
    {
      RecvExplained(s, e, past, j);
    }
  }

  lemma {:induction false} RunExplained(s: State, past: seq<Event>, run: seq<Event>)
    requires Inv(s) && Explained(s, past) && Legal(s, run)
    ensures Explained(Exec(s, run), past + run)
    decreases |run|
  {
    hide Inv, Apply, Enabled, Explained;
    if run == [] {
      assert past + run == past;
    } else {
      StepInv(s, run[0]);
      StepExplained(s, run[0], past);
      RunExplained(Apply(s, run[0]), past + [run[0]], run[1..]);
      assert past + [run[0]] + run[1..] == past + run;
    }
  }

  // ----- handles -----

  function CountOf(run: seq<Event>, e: Event): nat {
    if run == [] then 0 else (if run[0] == e then 1 else 0) + CountOf(run[1..], e)
  }

  lemma HandleStep(s: State, e: Event)
    requires InRange(s) && Enabled(s, e)
    ensures var t := Apply(s, e);
            && t.handles == s.handles + (if e == Event.CopySender then 1 else 0) - (if e == Event.ReleaseSender then 1 else 0)
            && t.senders - t.handles == s.senders - s.handles
            && t.closing == s.closing + (if e == Event.ReleaseSender && s.senders == 1 then 1 else 0) - (if e == CloseByLast then 1 else 0)
  {
    hide Without, Pull;
    match e
    case StartRecvOf(j) => PullKeepsHandles(s, j);
    case RecvNow => PullKeepsHandles(s, |s.recvs|);
    case _ =>
  }

  lemma PullKeepsHandles(s: State, j: nat)
    requires InRange(s)
    ensures var (t, out) := Pull(s, j);
            && t.handles == s.handles && t.senders == s.senders && t.closing == s.closing && (out.None? ==> t == s)
  {
  }

  /** Nothing is owed by handles that are still there, and a channel without any is owed one close. */
  ghost predicate HandlesTell(s: State, closes: nat) {
    s.senders == s.handles && s.closing + closes == if s.handles == 0 then 1 else 0
  }

  lemma {:induction false} HandlesFrom(s: State, run: seq<Event>, closes: nat)
    requires Legal(s, run) && HandlesTell(s, closes)
    ensures HandlesTell(Exec(s, run), closes + CountOf(run, CloseByLast))
    ensures Exec(s, run).handles == s.handles + CountOf(run, Event.CopySender) - CountOf(run, Event.ReleaseSender)
    decreases |run|
  {
    hide Apply;
    if run != [] {
      HandleStep(s, run[0]);
      HandlesFrom(Apply(s, run[0]), run[1..], closes + if run[0] == CloseByLast then 1 else 0);
    }
  }

  /** In every run the handles are the first one and the copies less those released, and exactly the
      release of the last one leaves a close to run, once. */
  lemma LastHandleCloses(bounded: bool, capacity: nat, run: seq<Event>)
    requires Legal(Fresh(bounded, capacity), run)
    ensures var s := Exec(Fresh(bounded, capacity), run);
            && s.handles == 1 + CountOf(run, Event.CopySender) - CountOf(run, Event.ReleaseSender) && s.senders == s.handles
            && s.closing + CountOf(run, CloseByLast) == if s.handles == 0 then 1 else 0
  {
    HandlesFrom(Fresh(bounded, capacity), run, 0);
  }

  /** In every run from the start: the channel is closed exactly if it was told to close; a send is
      refused and a receive ends only then; and an operation is stopped only if it was asked to be. */
  lemma NothingWithoutCause(bounded: bool, capacity: nat, run: seq<Event>)
    requires Legal(Fresh(bounded, capacity), run)
    ensures Explained(Exec(Fresh(bounded, capacity), run), run)
  {
    FreshInv(bounded, capacity);
    RunExplained(Fresh(bounded, capacity), [], run);
    assert [] + run == run;
  }
}
