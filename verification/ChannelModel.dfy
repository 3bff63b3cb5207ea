/** The multi-producer single-consumer channel as a transition system.

    One step is one section of code run under the channel's mutex: the start of a
    send or a receive, a stop request, the destruction of an operation, close(),
    try_send() and try_recv(). A completion that the section decides on, and that
    the program delivers after releasing the mutex, is recorded as owed and
    delivered by a later step, so any interleaving of sections and completions is
    a run of this system. */
module ChannelModel {
  import opened Basics

  type Value(==, !new)

  /** Arbitration stage of a wait node. */
  datatype Stage = Init | Queued | Claimed | Closed | Stopped | Gone

  /** Completion of a send: value accepted, channel closed, or stopped. */
  datatype SendSignal = Accepted | Rejected | SendStopped

  /** Completion of a receive. Nothing is the empty result of try_recv(). */
  datatype RecvSignal = Received(value: Value) | Ended | RecvStopped | Violation | Nothing

  /** One send. `held` says that the operation still owns its value. */
  datatype SendOp = SendOp(
    value: Value, held: bool, stage: Stage, stopRequested: bool, started: bool, destroyed: bool,
    owed: Option<SendSignal>, signals: seq<SendSignal>)

  /** One receive. `got` is the value handed to it, if any. */
  datatype RecvOp = RecvOp(
    got: Option<Value>, stage: Stage, stopRequested: bool, started: bool, destroyed: bool,
    owed: Option<RecvSignal>, signals: seq<RecvSignal>)

  /** History: sends in the order in which they entered the channel under the
      mutex, the sends whose values receives took (and the receives that took
      them), and the sends whose values sit in the buffer. */
  datatype Log = Log(order: seq<nat>, taken: seq<nat>, takers: seq<nat>, buffered: seq<nat>)

  datatype State = State(
    bounded: bool, capacity: nat, ring: seq<Value>, uq: seq<Value>, count: int,
    slot: Option<nat>, waiters: seq<nat>, closed: bool,
    senders: int, handles: nat, closing: nat,
    sends: seq<SendOp>, recvs: seq<RecvOp>, log: Log)
  {
    function Buffer(): seq<Value> { if bounded then ring else uq }
  }

  function Fresh(bounded: bool, capacity: nat): State {
    State(bounded, capacity, [], [], 0, None, [], false, 1, 1, 0, [], [], Log([], [], [], []))
  }

  // ----- lock sections -----

  function NewSendOp(v: Value): SendOp {
    SendOp(v, true, Init, false, false, false, None, [])
  }

  function NewRecvOp(): RecvOp {
    RecvOp(None, Init, false, false, false, None, [])
  }

  function Claim(op: SendOp): SendOp {
    op.(held := false, stage := Claimed, owed := Some(Accepted))
  }

  function Store(op: RecvOp, v: Value): RecvOp {
    op.(got := Some(v), stage := Claimed, owed := Some(Received(v)))
  }

  /** The ring buffer drops a push that finds it full. */
  function TryPush(ring: seq<Value>, capacity: nat, v: Value): seq<Value> {
    if |ring| < capacity then ring + [v] else ring
  }

  /** Indices stored in the shared state name existing operations. */
  ghost predicate InRange(s: State) {
    && (forall k :: 0 <= k < |s.waiters| ==> s.waiters[k] < |s.sends|)
    && (s.slot.Some? ==> s.slot.value < |s.recvs|)
    && |s.log.buffered| == |s.Buffer()|
    && (s.bounded ==> s.uq == [])
    && (!s.bounded ==> s.ring == [] && s.waiters == [])
  }

  /** Claims the oldest parked send: the node leaves the wait list and owes its
      sender an acceptance. */
  ghost function TakeHead(s: State): State
    requires InRange(s) && s.waiters != []
  {
    s.(waiters := s.waiters[1..],
       sends := s.sends[s.waiters[0] := Claim(s.sends[s.waiters[0]])])
  }

  function LogTake(log: Log, i: nat, j: nat): Log {
    log.(taken := log.taken + [i], takers := log.takers + [j])
  }

  /** What a receive takes: the buffer's head, refilled from the oldest parked
      send; else the oldest parked value directly. j is the receiving operation. */
  ghost function Pull(s: State, j: nat): (State, Option<Value>)
    requires InRange(s)
  {
    if s.bounded then
      if s.capacity > 0 && s.ring != [] then
        var log := LogTake(s.log, s.log.buffered[0], j).(buffered := s.log.buffered[1..]);
        var out := Some(s.ring[0]);
        var popped := s.(ring := s.ring[1..], count := s.count - 1, log := log);
        if s.waiters == [] then (popped, out)
        else
          var w := s.waiters[0];
          (TakeHead(s).(ring := TryPush(s.ring[1..], s.capacity, s.sends[w].value),
                        log := log.(buffered := log.buffered + [w])), out)
      else if s.waiters != [] then
        var w := s.waiters[0];
        (TakeHead(s).(log := LogTake(s.log, w, j)), Some(s.sends[w].value))
      else (s, None)
    else if s.uq != [] then
      (s.(uq := s.uq[1..], log := LogTake(s.log, s.log.buffered[0], j).(buffered := s.log.buffered[1..])),
       Some(s.uq[0]))
    else (s, None)
  }

  function Resolve(op: SendOp, entered: bool, signal: SendSignal): SendOp {
    op.(started := true, held := op.held && !entered, owed := Some(signal))
  }

  ghost function StartSend(s: State, i: nat): State
    requires InRange(s) && i < |s.sends|
  {
    var op := s.sends[i];
    if op.stopRequested then s.(sends := s.sends[i := Resolve(op, false, SendStopped)])
    else if s.closed then s.(sends := s.sends[i := Resolve(op, false, Rejected)])
    else if s.slot.Some? then
      var j := s.slot.value;
      s.(slot := None, recvs := s.recvs[j := Store(s.recvs[j], op.value)],
         sends := s.sends[i := Resolve(op, true, Accepted)],
         log := LogTake(s.log, i, j).(order := s.log.order + [i]))
    else if s.capacity > 0 && |s.ring| < s.capacity then
      s.(ring := s.ring + [op.value], count := s.count + 1,
         sends := s.sends[i := Resolve(op, true, Accepted)],
         log := s.log.(order := s.log.order + [i], buffered := s.log.buffered + [i]))
    else
      s.(waiters := s.waiters + [i], sends := s.sends[i := op.(started := true, stage := Queued)],
         log := s.log.(order := s.log.order + [i]))
  }

  /** Takes operation i off the wait list, giving it stage `stage`. */
  ghost function Withdraw(s: State, i: nat, stage: Stage): State
    requires i < |s.sends|
  {
    s.(waiters := Without(s.waiters, {i}), sends := s.sends[i := s.sends[i].(stage := stage)])
  }

  ghost function StopSend(s: State, i: nat): State
    requires i < |s.sends|
  {
    var op := s.sends[i];
    if op.stage == Queued then
      var t := Withdraw(s, i, Stopped);
      t.(sends := t.sends[i := t.sends[i].(owed := Some(SendStopped))])
    else if op.stage == Init then s.(sends := s.sends[i := op.(stopRequested := true)])
    else s
  }

  ghost function DestroySend(s: State, i: nat): State
    requires i < |s.sends|
  {
    var t := if s.sends[i].stage == Queued then Withdraw(s, i, Gone) else s;
    t.(sends := t.sends[i := t.sends[i].(destroyed := true)])
  }

  ghost function StartRecv(s: State, j: nat): State
    requires InRange(s) && j < |s.recvs|
  {
    var op := s.recvs[j].(started := true);
    if op.stopRequested then s.(recvs := s.recvs[j := op.(owed := Some(RecvStopped))])
    else
      var (t, out) := Pull(s, j);
      if out.Some? then t.(recvs := s.recvs[j := op.(got := out, owed := Some(Received(out.value)))])
      else if s.closed then s.(recvs := s.recvs[j := op.(owed := Some(Ended))])
      else if s.slot.Some? then s.(recvs := s.recvs[j := op.(owed := Some(Violation))])
      else s.(recvs := s.recvs[j := op.(stage := Queued)], slot := Some(j))
  }

  ghost function StopRecv(s: State, j: nat): State
    requires j < |s.recvs|
  {
    var op := s.recvs[j];
    if op.stage == Queued then
      s.(slot := None, recvs := s.recvs[j := op.(stage := Stopped, owed := Some(RecvStopped))])
    else if op.stage == Init then s.(recvs := s.recvs[j := op.(stopRequested := true)])
    else s
  }

  ghost function DestroyRecv(s: State, j: nat): State
    requires j < |s.recvs|
  {
    var op := s.recvs[j].(destroyed := true);
    if op.stage == Queued then s.(slot := None, recvs := s.recvs[j := op.(stage := Gone)])
    else s.(recvs := s.recvs[j := op])
  }

  /** try_send() of an unbounded channel: a send that is resolved at once. */
  ghost function TrySend(s: State, v: Value): State
    requires InRange(s)
  {
    var i := |s.sends|;
    var op := NewSendOp(v).(started := true);
    if s.closed then s.(sends := s.sends + [op.(signals := [Rejected])])
    else
      var t := s.(sends := s.sends + [op.(held := false, signals := [Accepted])]);
      if s.slot.Some? then
        var j := s.slot.value;
        t.(slot := None, recvs := s.recvs[j := Store(s.recvs[j], v)],
           log := LogTake(s.log, i, j).(order := s.log.order + [i]))
      else
        t.(uq := s.uq + [v], log := s.log.(order := s.log.order + [i], buffered := s.log.buffered + [i]))
  }

  /** try_recv(): a receive that is resolved at once. */
  ghost function TryRecv(s: State): State
    requires InRange(s)
  {
    var (t, out) := Pull(s, |s.recvs|);
    var op := NewRecvOp().(started := true, got := out,
                              signals := [if out.Some? then Received(out.value) else Nothing]);
    t.(recvs := s.recvs + [op])
  }

  ghost function CloseSends(sends: seq<SendOp>, waiters: seq<nat>): (r: seq<SendOp>)
    ensures |r| == |sends|
    ensures forall i :: 0 <= i < |sends| ==>
              r[i] == if i in waiters then sends[i].(stage := Closed, owed := Some(Rejected)) else sends[i]
  {
    seq(|sends|, i requires 0 <= i < |sends| =>
      if i in waiters then sends[i].(stage := Closed, owed := Some(Rejected)) else sends[i])
  }

  ghost function Close(s: State): State
    requires InRange(s)
  {
    if s.closed then s
    else
      s.(closed := true, slot := None, waiters := [], sends := CloseSends(s.sends, s.waiters),
         recvs := if s.slot.None? then s.recvs
                  else s.recvs[s.slot.value := s.recvs[s.slot.value].(stage := Closed, owed := Some(Ended))])
  }

  // ----- completions, delivered outside the mutex -----

  function Deliver(op: SendOp): SendOp
    requires op.owed.Some?
  {
    op.(owed := None, signals := op.signals + [op.owed.value])
  }

  function DeliverRecv(op: RecvOp): RecvOp
    requires op.owed.Some?
  {
    op.(owed := None, signals := op.signals + [op.owed.value])
  }

  // ----- sender handles -----

  function CopyHandle(s: State): State {
    s.(senders := s.senders + 1, handles := s.handles + 1)
  }

  /** Dropping the last handle leaves a close() to be run. */
  function ReleaseHandle(s: State): State
    requires s.handles > 0
  {
    s.(senders := s.senders - 1, handles := s.handles - 1,
       closing := if s.senders == 1 then s.closing + 1 else s.closing)
  }

  // ----- runs -----

  datatype Event =
    | NewSend(v: Value) | StartSendOf(i: nat) | StopSendOf(i: nat) | DestroySendOf(i: nat) | CompleteSendOf(i: nat)
    | NewRecv | StartRecvOf(i: nat) | StopRecvOf(i: nat) | DestroyRecvOf(i: nat) | CompleteRecvOf(i: nat)
    | SendNow(v: Value) | RecvNow | CloseNow | CopySender | ReleaseSender | CloseByLast

  /** What the program's own rules allow: an operation is started once, and is
      destroyed neither twice nor while a completion is owed to it. */
  ghost predicate Enabled(s: State, e: Event) {
    match e
    case StartSendOf(i) => s.bounded && i < |s.sends| && !s.sends[i].started && !s.sends[i].destroyed
    case StopSendOf(i) => i < |s.sends| && !s.sends[i].destroyed
    case DestroySendOf(i) => i < |s.sends| && !s.sends[i].destroyed && s.sends[i].owed.None?
    case CompleteSendOf(i) => i < |s.sends| && s.sends[i].owed.Some?
    case StartRecvOf(j) => j < |s.recvs| && !s.recvs[j].started && !s.recvs[j].destroyed
    case StopRecvOf(j) => j < |s.recvs| && !s.recvs[j].destroyed
    case DestroyRecvOf(j) => j < |s.recvs| && !s.recvs[j].destroyed && s.recvs[j].owed.None?
    case CompleteRecvOf(j) => j < |s.recvs| && s.recvs[j].owed.Some?
    case SendNow(_) => !s.bounded
    case CopySender => s.handles > 0
    case ReleaseSender => s.handles > 0
    case CloseByLast => s.closing > 0
    case _ => true
  }

  ghost function Apply(s: State, e: Event): State
    requires InRange(s) && Enabled(s, e)
  {
    match e
    case NewSend(v) => s.(sends := s.sends + [NewSendOp(v)])
    case NewRecv => s.(recvs := s.recvs + [NewRecvOp()])
    case StartSendOf(i) => StartSend(s, i)
    case StopSendOf(i) => StopSend(s, i)
    case DestroySendOf(i) => DestroySend(s, i)
    case CompleteSendOf(i) => s.(sends := s.sends[i := Deliver(s.sends[i])])
    case StartRecvOf(j) => StartRecv(s, j)
    case StopRecvOf(j) => StopRecv(s, j)
    case DestroyRecvOf(j) => DestroyRecv(s, j)
    case CompleteRecvOf(j) => s.(recvs := s.recvs[j := DeliverRecv(s.recvs[j])])
    case SendNow(v) => TrySend(s, v)
    case RecvNow => TryRecv(s)
    case CloseNow => Close(s)
    case CopySender => CopyHandle(s)
    case ReleaseSender => ReleaseHandle(s)
    case CloseByLast => Close(s).(closing := s.closing - 1)
  }
}
