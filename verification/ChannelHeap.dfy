/** The channel as the program keeps it: fields guarded by a mutex and an intrusive
    doubly linked list of wait nodes. Every lock section is proved to do, on the
    abstract state, exactly the step of ChannelModel that bears its name. */
module ChannelHeap {
  import opened Basics
  import opened ChannelModel
  import opened ChannelSafety

  /** A send and its wait node: the links are used while the node is parked, and op
      holds the operation's other fields. */
  class SendNode {
    ghost const id: nat
    var prev: SendNode?
    var next: SendNode?
    var op: SendOp

    constructor (ghost id: nat, value: Value)
      ensures this.id == id && op == NewSendOp(value)
    {
      this.id, prev, next, op := id, null, null, NewSendOp(value);
    }
  }

  class RecvNode {
    ghost const id: nat
    var op: RecvOp

    constructor (ghost id: nat)
      ensures this.id == id && op == NewRecvOp()
    {
      this.id, op := id, NewRecvOp();
    }
  }

  class Channel {
    const bounded: bool
    const capacity: nat
    var ring: seq<Value>
    var uq: seq<Value>
    var count: int
    var recvSlot: RecvNode?
    var wsHead: SendNode?
    var wsTail: SendNode?
    var senders: int
    var closed: bool
    // Bookkeeping: the abstract state, every operation ever created, and the wait
    // list as a sequence.
    ghost var model: State
    ghost var sends: seq<SendNode>
    ghost var recvs: seq<RecvNode>
    ghost var queue: seq<SendNode>

    // ----- abstraction -----

    ghost predicate Registered(n: SendNode)
      reads `sends
    {
      n.id < |sends| && sends[n.id] == n
    }

    ghost predicate RegisteredRecv(r: RecvNode)
      reads `recvs
    {
      r.id < |recvs| && recvs[r.id] == r
    }

    /** queue is the list that the links spell, from wsHead to wsTail. */
    ghost predicate Linked()
      reads `queue, `wsHead, `wsTail, queue`prev, queue`next
    {
      && (queue == [] ==> wsHead == null && wsTail == null)
      && (queue != [] ==> wsHead == queue[0] && wsTail == queue[|queue| - 1])
      && (forall k {:trigger queue[k].prev} :: 0 <= k < |queue| ==>
            queue[k].prev == if k == 0 then null else queue[k - 1])
      && (forall k {:trigger queue[k].next} :: 0 <= k < |queue| ==>
            queue[k].next == if k == |queue| - 1 then null else queue[k + 1])
      && Distinct(queue)
    }

    ghost predicate Registry()
      reads `sends, `recvs
    {
      && (forall i :: 0 <= i < |sends| ==> sends[i].id == i)
      && (forall j :: 0 <= j < |recvs| ==> recvs[j].id == j)
    }

    // The fields and the nodes are what the abstract state says.

    ghost predicate SharedMatches()
      reads this
    {
      && bounded == model.bounded && capacity == model.capacity && ring == model.ring && uq == model.uq
      && count == model.count && senders == model.senders && closed == model.closed
      && (if recvSlot == null then model.slot == None
          else RegisteredRecv(recvSlot) && model.slot == Some(recvSlot.id))
    }

    ghost predicate QueueMatches(waiters: seq<nat>)
      reads `queue, `sends
    {
      && |queue| == |waiters|
      && (forall k :: 0 <= k < |queue| ==> waiters[k] < |sends| && queue[k] == sends[waiters[k]])
    }

    ghost predicate SendsMatch(ops: seq<SendOp>)
      reads `sends, sends`op
    {
      |sends| == |ops| && (forall i :: 0 <= i < |sends| ==> sends[i].op == ops[i])
    }

    ghost predicate RecvsMatch(ops: seq<RecvOp>)
      reads `recvs, recvs`op
    {
      |recvs| == |ops| && (forall j :: 0 <= j < |recvs| ==> recvs[j].op == ops[j])
    }

    ghost predicate Matches()
      reads this, sends, recvs
    {
      SharedMatches() && QueueMatches(model.waiters) && SendsMatch(model.sends) && RecvsMatch(model.recvs)
    }

    ghost predicate Structure()
      reads this, queue, sends, recvs
    {
      Linked() && Registry() && Matches()
    }

    /** The structure is sound and the abstract state is reachable. */
    ghost predicate Valid()
      reads this, queue, sends, recvs
    {
      Structure() && InRange(model) && Reachable(model)
    }

    constructor (bounded: bool, capacity: nat)
      ensures Valid() && model == Fresh(bounded, capacity)
    {
      this.bounded, this.capacity := bounded, capacity;
      ring, uq, count, recvSlot, wsHead, wsTail, senders, closed := [], [], 0, null, null, null, 1, false;
      sends, recvs, queue, model := [], [], [], Fresh(bounded, capacity);
      new;
      FreshIsReachable(bounded, capacity);
    }

    // ----- the wait list -----

    method QueueSend(n: SendNode)
      requires Linked() && n !in queue
      modifies this`wsHead, this`wsTail, this`queue, n`prev, n`next, queue`next
      ensures Linked() && queue == old(queue) + [n]
    {
      n.prev := wsTail;
      n.next := null;
      if wsTail != null {
        wsTail.next := n;
      } else {
        wsHead := n;
      }
      wsTail := n;
      queue := queue + [n];
    }

    /** What is left of a list of distinct nodes without its node k. */
    static lemma Cut(all: seq<SendNode>, k: nat)
      requires k < |all| && Distinct(all)
      ensures var rest := all[..k] + all[k + 1..];
              && Distinct(rest) && |rest| == |all| - 1 && all[k] !in rest
              && (forall j :: 0 <= j < |rest| ==> rest[j] == all[if j < k then j else j + 1])
    {
      ghost var rest := all[..k] + all[k + 1..];
      assert forall j :: 0 <= j < |rest| ==> rest[j] == all[if j < k then j else j + 1];
    }

    /** The links around node k skip it: the rest of the list is spelled. */
    lemma Skipped(all: seq<SendNode>, k: nat)
      requires k < |all| && Distinct(all) && queue == all[..k] + all[k + 1..]
      requires wsHead == if k > 0 then all[0] else if |all| == 1 then null else all[1]
      requires wsTail == if k < |all| - 1 then all[|all| - 1] else if k == 0 then null else all[k - 1]
      requires forall j {:trigger all[j].prev} :: 0 <= j < |all| && j != k ==>
                 all[j].prev == if j == k + 1 then (if k == 0 then null else all[k - 1]) else if j == 0 then null else all[j - 1]
      requires forall j {:trigger all[j].next} :: 0 <= j < |all| && j != k ==>
                 all[j].next == if j == k - 1 then (if k == |all| - 1 then null else all[k + 1])
                                else if j == |all| - 1 then null else all[j + 1]
      ensures Linked()
    {
      Cut(all, k);
      hide Distinct;
    }

    method UnlinkSend(n: SendNode, ghost k: nat)
      requires Linked() && k < |queue| && queue[k] == n
      modifies this`wsHead, this`wsTail, this`queue, queue`prev, queue`next
      ensures Linked() && queue == old(queue)[..k] + old(queue)[k + 1..]
      ensures n.prev == null && n.next == null
    {
      if n.prev != null {
        n.prev.next := n.next;
      } else {
        wsHead := n.next;
      }
      if n.next != null {
        n.next.prev := n.prev;
      } else {
        wsTail := n.prev;
      }
      n.prev, n.next := null, null;
      queue := queue[..k] + queue[k + 1..];
      Skipped(old(queue), k);
    }

    // ----- creating operations -----

    method Connect(value: Value) returns (n: SendNode)
      requires Valid()
      modifies this`sends, this`model
      ensures Valid() && fresh(n) && Registered(n) && sends == old(sends) + [n]
      ensures model == Apply(old(model), NewSend(value))
    {
      hide Reachable, Linked, RecvsMatch, InRange;
      n := new SendNode(|sends|, value);
      sends := sends + [n];
      model := Apply(model, NewSend(value));
      Advance(old(model), NewSend(value), model);
    }

    method ConnectRecv() returns (r: RecvNode)
      requires Valid()
      modifies this`recvs, this`model
      ensures Valid() && fresh(r) && RegisteredRecv(r) && recvs == old(recvs) + [r]
      ensures model == Apply(old(model), NewRecv)
    {
      hide Reachable, Linked, SendsMatch, QueueMatches;
      r := new RecvNode(|recvs|);
      recvs := recvs + [r];
      model := Apply(model, NewRecv);
      Advance(old(model), NewRecv, model);
    }

    // ----- lock sections of a send -----

    method StartSend(n: SendNode)
      requires Valid() && Registered(n) && bounded && !n.op.started && !n.op.destroyed
      modifies this`ring, this`count, this`recvSlot, this`wsHead, this`wsTail, this`queue, this`model
      modifies n`op, n`prev, n`next, queue`prev, queue`next, recvs`op
      ensures Valid() && model == ChannelModel.StartSend(old(model), n.id)
    {
      Unstarted(model, n.id);
      ghost var s := model;
      if n.op.stopRequested || closed {
        Refuse(n);
      } else if recvSlot != null {
        HandOver(n);
      } else if capacity > 0 && |ring| < capacity {
        Buffer(n);
      } else {
        Park(n);
      }
      Advance(s, StartSendOf(n.id), model);
    }

    ghost predicate CanStart(n: SendNode)
      reads this, queue, sends, recvs
    {
      Structure() && Registered(n) && InRange(model) && !n.op.started && n.op.stage == Init && n.op.held
    }

    /** Stopped or closed: the channel is not touched. */
    method Refuse(n: SendNode)
      requires CanStart(n) && (n.op.stopRequested || closed)
      modifies n`op, this`model
      ensures Structure() && model == ChannelModel.StartSend(old(model), n.id)
    {
      SetSend(n, n.op.(started := true, owed := Some(if n.op.stopRequested then SendStopped else Rejected)));
    }

    /** Direct hand-off to the parked receiver. */
    method HandOver(n: SendNode)
      requires CanStart(n) && !n.op.stopRequested && !closed && recvSlot != null
      modifies n`op, recvSlot`op, this`recvSlot, this`model
      ensures Structure() && model == ChannelModel.StartSend(old(model), n.id)
    {
      hide Linked, QueueMatches;
      var direct := recvSlot;
      recvSlot := null;
      direct.op := Store(direct.op, n.op.value);
      n.op := n.op.(started := true, held := false, owed := Some(Accepted));
      model := ChannelModel.StartSend(model, n.id);
    }

    method Buffer(n: SendNode)
      requires CanStart(n) && !n.op.stopRequested && !closed && recvSlot == null && capacity > 0 && |ring| < capacity
      modifies n`op, this`ring, this`count, this`model
      ensures Structure() && model == ChannelModel.StartSend(old(model), n.id)
    {
      hide Linked, QueueMatches, RecvsMatch;
      ring := ring + [n.op.value];
      count := count + 1;
      n.op := n.op.(started := true, held := false, owed := Some(Accepted));
      model := ChannelModel.StartSend(model, n.id);
    }

    method Park(n: SendNode)
      requires CanStart(n) && !n.op.stopRequested && !closed && recvSlot == null
      requires !(capacity > 0 && |ring| < capacity) && n !in queue
      modifies n`op, this`wsHead, this`wsTail, this`queue, this`model, n`prev, n`next, queue`next
      ensures Structure() && model == ChannelModel.StartSend(old(model), n.id)
    {
      SetSend(n, n.op.(started := true, stage := Queued));
      Enqueue(n);
    }

    method Enqueue(n: SendNode)
      requires Structure() && Registered(n) && n !in queue
      modifies this`wsHead, this`wsTail, this`queue, this`model, n`prev, n`next, queue`next
      ensures Structure()
      ensures model == old(model).(waiters := old(model).waiters + [n.id],
                                   log := old(model).log.(order := old(model).log.order + [n.id]))
    {
      hide Linked, SendsMatch, RecvsMatch;
      QueueSend(n);
      SetWaiters(model.waiters + [n.id], model.log.(order := model.log.order + [n.id]));
    }

    /** Rewrites a send's fields, leaving the channel alone. */
    method SetSend(n: SendNode, op: SendOp)
      requires Structure() && Registered(n)
      modifies n`op, this`model
      ensures Structure() && model == old(model).(sends := old(model).sends[n.id := op])
    {
      n.op := op;
      model := model.(sends := model.sends[n.id := op]);
    }

    /** The place of a parked send on the list. */
    lemma PlaceOf(n: SendNode) returns (k: nat)
      requires Registered(n) && QueueMatches(model.waiters) && SendsMatch(model.sends)
      requires Reachable(model) && n.op.stage == Queued
      ensures k < |queue| && queue[k] == n
      ensures Without(model.waiters, {n.id}) == model.waiters[..k] + model.waiters[k + 1..]
    {
      k := ParkedPlace(model, n.id);
    }

    static lemma RestMatches(queue: seq<SendNode>, sends: seq<SendNode>, waiters: seq<nat>, k: nat)
      requires k < |queue| == |waiters|
      requires forall i :: 0 <= i < |queue| ==> waiters[i] < |sends| && queue[i] == sends[waiters[i]]
      ensures var nodes, rest := queue[..k] + queue[k + 1..], waiters[..k] + waiters[k + 1..];
              |nodes| == |rest| && forall i :: 0 <= i < |nodes| ==> rest[i] < |sends| && nodes[i] == sends[rest[i]]
    {
    }

    method RemoveNode(n: SendNode, ghost k: nat, ghost rest: seq<nat>)
      requires Structure() && k < |queue| && queue[k] == n
      requires rest == model.waiters[..k] + model.waiters[k + 1..]
      modifies this`wsHead, this`wsTail, this`queue, queue`prev, queue`next, this`model
      ensures Structure() && model == old(model).(waiters := rest)
    {
      RestMatches(queue, sends, model.waiters, k);
      UnlinkSend(n, k);
      SetWaiters(rest, model.log);
    }

    /** Lets the abstract state follow the list. */
    ghost method SetWaiters(waiters: seq<nat>, log: Log)
      requires Linked() && Registry() && SharedMatches() && QueueMatches(waiters)
      requires SendsMatch(model.sends) && RecvsMatch(model.recvs)
      modifies this`model
      ensures Structure() && model == old(model).(waiters := waiters, log := log)
    {
      model := model.(waiters := waiters, log := log);
    }

    /** Takes a parked send off the list. */
    method WithdrawSend(n: SendNode)
      requires Structure() && Reachable(model) && Registered(n) && n.op.stage == Queued
      modifies this`wsHead, this`wsTail, this`queue, queue`prev, queue`next, this`model
      ensures Structure() && model == old(model).(waiters := Without(old(model).waiters, {n.id}))
    {
      ghost var k := PlaceOf(n);
      RemoveNode(n, k, Without(model.waiters, {n.id}));
    }

    /** Takes a parked send off the list and rewrites its fields. */
    method CancelSend(n: SendNode, op: SendOp)
      requires Structure() && Reachable(model) && Registered(n) && n.op.stage == Queued
      modifies this`wsHead, this`wsTail, this`queue, queue`prev, queue`next, this`model, n`op
      ensures Structure()
      ensures model == old(model).(waiters := Without(old(model).waiters, {n.id}), sends := old(model).sends[n.id := op])
    {
      WithdrawSend(n);
      SetSend(n, op);
    }

    method StopSend(n: SendNode)
      requires Valid() && Registered(n) && !n.op.destroyed
      modifies this`wsHead, this`wsTail, this`queue, this`model, n`op, queue`prev, queue`next
      ensures Valid() && model == ChannelModel.StopSend(old(model), n.id)
    {
      hide Reachable, Linked, Registry, QueueMatches, RecvsMatch, Without;
      ghost var s := model;
      if n.op.stage == Queued {
        CancelSend(n, n.op.(stage := Stopped, owed := Some(SendStopped)));
      } else if n.op.stage == Init {
        SetSend(n, n.op.(stopRequested := true));
      }
      Advance(s, StopSendOf(n.id), model);
    }

    method DestroySend(n: SendNode)
      requires Valid() && Registered(n) && !n.op.destroyed && n.op.owed.None?
      modifies this`wsHead, this`wsTail, this`queue, this`model, n`op, queue`prev, queue`next
      ensures Valid() && model == ChannelModel.DestroySend(old(model), n.id)
    {
      hide Reachable, Linked, Registry, QueueMatches, RecvsMatch, Without;
      ghost var s := model;
      if n.op.stage == Queued {
        CancelSend(n, n.op.(stage := Gone, destroyed := true));
      } else {
        SetSend(n, n.op.(destroyed := true));
      }
      Advance(s, DestroySendOf(n.id), model);
    }

    method CompleteSend(n: SendNode)
      requires Valid() && Registered(n) && n.op.owed.Some?
      modifies n`op, this`model
      ensures Valid() && model == Apply(old(model), CompleteSendOf(n.id)) && n.op == Deliver(old(n.op))
      ensures InRange(old(model)) && Enabled(old(model), CompleteSendOf(n.id))
    {
      SetSend(n, Deliver(n.op));
      Advance(old(model), CompleteSendOf(n.id), model);
    }

    // ----- lock sections of a receive -----

    method StartRecv(r: RecvNode)
      requires Valid() && RegisteredRecv(r) && !r.op.started && !r.op.destroyed
      modifies this`ring, this`uq, this`count, this`recvSlot, this`wsHead, this`wsTail, this`queue, this`model
      modifies queue`op, queue`prev, queue`next, r`op
      ensures Valid() && model == ChannelModel.StartRecv(old(model), r.id)
    {
      hide Reachable, Linked, QueueMatches, SendsMatch, SharedMatches, Pull;
      ghost var s := model;
      if r.op.stopRequested {
        SetRecv(r, r.op.(started := true, owed := Some(RecvStopped)));
      } else {
        PullFrame(model, r.id);
        var out := PullValue(r.id);
        Settle(r, out);
      }
      Advance(s, StartRecvOf(r.id), model);
    }

    /** The receive completes with the value, or because of the state of the channel, or parks. */
    method Settle(r: RecvNode, out: Option<Value>)
      requires Structure() && RegisteredRecv(r)
      modifies this`recvSlot, this`model, r`op
      ensures Structure()
      ensures var s, j, op := old(model), r.id, old(r.op).(started := true);
              j < |s.recvs| &&
              model == if out.Some? then s.(recvs := s.recvs[j := op.(got := out, owed := Some(Received(out.value)))])
                       else if s.closed then s.(recvs := s.recvs[j := op.(owed := Some(Ended))])
                       else if s.slot.Some? then s.(recvs := s.recvs[j := op.(owed := Some(Violation))])
                       else s.(recvs := s.recvs[j := op.(stage := Queued)], slot := Some(j))
    {
      hide Linked, QueueMatches, SendsMatch;
      if out.Some? {
        SetRecv(r, r.op.(started := true, got := out, owed := Some(Received(out.value))));
      } else if closed {
        SetRecv(r, r.op.(started := true, owed := Some(Ended)));
      } else if recvSlot != null {
        SetRecv(r, r.op.(started := true, owed := Some(Violation)));
      } else {
        ParkRecv(r);
      }
    }

    method ParkRecv(r: RecvNode)
      requires Structure() && RegisteredRecv(r)
      modifies r`op, this`recvSlot, this`model
      ensures Structure()
      ensures model == old(model).(slot := Some(r.id),
                                   recvs := old(model).recvs[r.id := r.op]) && r.op == old(r.op).(started := true, stage := Queued)
    {
      hide Linked, QueueMatches, SendsMatch;
      SetRecv(r, r.op.(started := true, stage := Queued));
      recvSlot := r;
      model := model.(slot := Some(r.id));
    }

    method SetRecv(r: RecvNode, op: RecvOp)
      requires Structure() && RegisteredRecv(r)
      modifies r`op, this`model
      ensures Structure() && model == old(model).(recvs := old(model).recvs[r.id := op])
    {
      r.op := op;
      model := model.(recvs := model.recvs[r.id := op]);
    }

    /** Claims the oldest parked send: unlinks its node and moves its value out. */
    method TakeValue() returns (v: Value)
      requires Structure() && InRange(model) && wsHead != null
      modifies wsHead`op, this`wsHead, this`wsTail, this`queue, queue`prev, queue`next, this`model
      ensures old(model).waiters != [] && v == old(model).sends[old(model).waiters[0]].value
      ensures Structure() && model == TakeHead(old(model))
    {
      var claimed := wsHead;
      v := claimed.op.value;
      RemoveNode(claimed, 0, model.waiters[1..]);
      SetSend(claimed, Claim(claimed.op));
    }

    method PopRing(ghost j: nat) returns (v: Value)
      requires Structure() && InRange(model) && bounded && ring != []
      modifies this`ring, this`count, this`model
      ensures Structure() && v == old(ring)[0]
      ensures model == old(model).(ring := old(ring)[1..], count := old(count) - 1,
                                   log := LogTake(old(model).log, old(model).log.buffered[0], j)
                                            .(buffered := old(model).log.buffered[1..]))
    {
      v := ring[0];
      ring := ring[1..];
      count := count - 1;
      model := model.(ring := ring, count := count,
                      log := LogTake(model.log, model.log.buffered[0], j).(buffered := model.log.buffered[1..]));
    }

    /** Accepts the value of parked send i into the slot that a pop freed. */
    method Refill(v: Value, ghost i: nat)
      requires Structure()
      modifies this`ring, this`count, this`model
      ensures Structure()
      ensures model == old(model).(ring := TryPush(old(ring), capacity, v), count := old(count) + 1,
                                   log := old(model).log.(buffered := old(model).log.buffered + [i]))
    {
      hide Linked, SendsMatch, RecvsMatch, QueueMatches;
      ring := TryPush(ring, capacity, v);
      count := count + 1;
      model := model.(ring := ring, count := count, log := model.log.(buffered := model.log.buffered + [i]));
    }

    method PullParked(ghost j: nat) returns (v: Value)
      requires Structure() && InRange(model) && wsHead != null
      modifies wsHead`op, this`wsHead, this`wsTail, this`queue, queue`prev, queue`next, this`model
      ensures old(model).waiters != [] && v == old(model).sends[old(model).waiters[0]].value
      ensures Structure()
      ensures model == TakeHead(old(model)).(log := LogTake(old(model).log, old(model).waiters[0], j))
    {
      hide SendsMatch, RecvsMatch;
      ghost var w := model.waiters[0];
      v := TakeValue();
      model := model.(log := LogTake(model.log, w, j));
    }

    /** Pops the ring; the freed slot goes to the oldest parked send. */
    method PullBuffered(ghost j: nat) returns (v: Value)
      requires Structure() && InRange(model) && bounded && capacity > 0 && ring != []
      modifies this`ring, this`count, this`wsHead, this`wsTail, this`queue, this`model
      modifies queue`op, queue`prev, queue`next
      ensures Structure() && (model, Some(v)) == Pull(old(model), j)
    {
      ghost var w := if wsHead == null then 0 else model.waiters[0];
      v := PopRing(j);
      if wsHead != null {
        var parked := TakeValue();
        Refill(parked, w);
      }
    }

    method PopUnbounded(ghost j: nat) returns (v: Value)
      requires Structure() && InRange(model) && !bounded && uq != []
      modifies this`uq, this`model
      ensures Structure() && v == old(uq)[0]
      ensures model == old(model).(uq := old(uq)[1..],
                                   log := LogTake(old(model).log, old(model).log.buffered[0], j)
                                            .(buffered := old(model).log.buffered[1..]))
    {
      v := uq[0];
      uq := uq[1..];
      model := model.(uq := uq, log := LogTake(model.log, model.log.buffered[0], j)
                                         .(buffered := model.log.buffered[1..]));
    }

    /** Takes a value: the buffer's head, refilled from the oldest parked send, or
        the oldest parked value itself. */
    method PullValue(ghost j: nat) returns (out: Option<Value>)
      requires Structure() && InRange(model)
      modifies this`ring, this`uq, this`count, this`wsHead, this`wsTail, this`queue, this`model
      modifies queue`op, queue`prev, queue`next
      ensures Structure() && (model, out) == Pull(old(model), j)
    {
      out := None;
      if bounded {
        if capacity > 0 && ring != [] {
          var v := PullBuffered(j);
          out := Some(v);
        }
        if out.None? && wsHead != null {
          var v := PullParked(j);
          out := Some(v);
        }
      } else if uq != [] {
        var v := PopUnbounded(j);
        out := Some(v);
      }
    }

    method StopRecv(r: RecvNode)
      requires Valid() && RegisteredRecv(r) && !r.op.destroyed
      modifies this`recvSlot, this`model, r`op
      ensures Valid() && model == ChannelModel.StopRecv(old(model), r.id)
    {
      ghost var s := model;
      if r.op.stage == Queued {
        ReleaseSlot(r);
        SetRecv(r, r.op.(stage := Stopped, owed := Some(RecvStopped)));
      } else if r.op.stage == Init {
        SetRecv(r, r.op.(stopRequested := true));
      }
      Advance(s, StopRecvOf(r.id), model);
    }

    method ReleaseSlot(r: RecvNode)
      requires Structure()
      modifies this`recvSlot, this`model
      ensures Structure() && model == old(model).(slot := None)
    {
      recvSlot := null;
      model := model.(slot := None);
    }

    method DestroyRecv(r: RecvNode)
      requires Valid() && RegisteredRecv(r) && !r.op.destroyed && r.op.owed.None?
      modifies this`recvSlot, this`model, r`op
      ensures Valid() && model == ChannelModel.DestroyRecv(old(model), r.id)
    {
      ghost var s := model;
      if r.op.stage == Queued {
        ReleaseSlot(r);
        SetRecv(r, r.op.(destroyed := true, stage := Gone));
      } else {
        SetRecv(r, r.op.(destroyed := true));
      }
      Advance(s, DestroyRecvOf(r.id), model);
    }

    method CompleteRecv(r: RecvNode)
      requires Valid() && RegisteredRecv(r) && r.op.owed.Some?
      modifies this`model, r`op
      ensures Valid() && model == Apply(old(model), CompleteRecvOf(r.id))
      ensures InRange(old(model)) && Enabled(old(model), CompleteRecvOf(r.id))
    {
      SetRecv(r, DeliverRecv(r.op));
      Advance(old(model), CompleteRecvOf(r.id), model);
    }

    // ----- try_send and try_recv: operations resolved at once -----

    /** Records an operation that the program keeps on its stack. */
    method RecordSend(op: SendOp) returns (n: SendNode)
      requires Structure()
      modifies this`sends, this`model
      ensures Structure() && fresh(n) && sends == old(sends) + [n]
      ensures model == old(model).(sends := old(model).sends + [op])
    {
      hide Linked, RecvsMatch;
      n := new SendNode(|sends|, op.value);
      n.op := op;
      sends := sends + [n];
      model := model.(sends := model.sends + [op]);
    }

    method RecordRecv(op: RecvOp) returns (r: RecvNode)
      requires Structure()
      modifies this`recvs, this`model
      ensures Structure() && fresh(r) && recvs == old(recvs) + [r]
      ensures model == old(model).(recvs := old(model).recvs + [op])
    {
      hide Linked, SendsMatch, QueueMatches;
      r := new RecvNode(|recvs|);
      r.op := op;
      recvs := recvs + [r];
      model := model.(recvs := model.recvs + [op]);
    }

    method TrySend(value: Value) returns (sent: bool)
      requires Valid() && !bounded
      modifies this`uq, this`recvSlot, this`sends, this`model, recvs`op
      ensures Valid() && model == ChannelModel.TrySend(old(model), value)
      ensures sent == !old(closed) && old(sends) <= sends
    {
      hide Reachable, Linked, QueueMatches;
      ghost var s, i := model, |sends|;
      var op := NewSendOp(value).(started := true);
      if closed {
        var n := RecordSend(op.(signals := [Rejected]));
        sent := false;
      } else {
        var n := RecordSend(op.(held := false, signals := [Accepted]));
        if recvSlot != null {
          DirectStore(value, i);
        } else {
          uq := uq + [value];
          model := model.(uq := uq, log := model.log.(order := model.log.order + [i],
                                                      buffered := model.log.buffered + [i]));
        }
        sent := true;
      }
      Advance(s, SendNow(value), model);
    }

    /** Hands the value of send i to the parked receiver. */
    method DirectStore(value: Value, ghost i: nat)
      requires Structure() && recvSlot != null
      modifies this`recvSlot, this`model, recvSlot`op
      ensures Structure() && old(model).slot.Some? && old(model).slot.value < |old(model).recvs|
      ensures var j := old(model).slot.value;
              model == old(model).(slot := None, recvs := old(model).recvs[j := Store(old(model).recvs[j], value)],
                                   log := LogTake(old(model).log, i, j).(order := old(model).log.order + [i]))
    {
      var slot := recvSlot;
      SetRecv(slot, Store(slot.op, value));
      recvSlot := null;
      model := model.(slot := None, log := LogTake(model.log, i, slot.id).(order := model.log.order + [i]));
    }

    method TryRecv() returns (out: Option<Value>)
      requires Valid()
      modifies this`ring, this`uq, this`count, this`recvs, this`wsHead, this`wsTail, this`queue, this`model
      modifies queue`op, queue`prev, queue`next
      ensures Valid() && model == ChannelModel.TryRecv(old(model))
      ensures out == Pull(old(model), |old(model).recvs|).1
    {
      hide Reachable, Linked, QueueMatches, SendsMatch;
      ghost var s := model;
      out := PullValue(|recvs|);
      var r := RecordRecv(NewRecvOp().(started := true, got := out,
                                       signals := [if out.Some? then Received(out.value) else Nothing]));
      Advance(s, RecvNow, model);
    }

    // ----- close -----

    /** The nodes from n on are chain, in order. */
    static ghost predicate Chained(n: SendNode?, chain: seq<SendNode>)
      reads chain`next
    {
      && n == (if chain == [] then null else chain[0])
      && (forall k {:trigger chain[k].next} :: 0 <= k < |chain| ==>
            chain[k].next == if k == |chain| - 1 then null else chain[k + 1])
    }

    /** Chain is what close() detached and has still to complete: nothing but the drain touches the
        links of these nodes any more, for every other section changes only nodes of the wait list. */
    ghost predicate Detached(first: SendNode?, chain: seq<SendNode>)
      reads `sends, `queue, chain`next, chain`op
    {
      && Chained(first, chain) && Distinct(chain)
      && (forall k :: 0 <= k < |chain| ==> Registered(chain[k]) && chain[k].op.owed.Some? && chain[k] !in queue)
    }

    /** The lock section of close(): detaches the receiver and the whole wait list.
        The completions are owed, and delivered by DrainClosed and CompleteRecv. */
    method CloseSection() returns (slot: RecvNode?, pending: SendNode?, ghost chain: seq<SendNode>)
      requires Valid()
      modifies this`closed, this`recvSlot, this`wsHead, this`wsTail, this`queue, this`model, sends`op, recvs`op
      ensures Valid() && model == ChannelModel.Close(old(model))
      ensures closed && queue == [] && Detached(pending, chain) && chain == if old(closed) then [] else old(queue)
      ensures slot == null <==> old(closed) || old(model).slot.None?
      ensures slot != null ==> old(model).slot == Some(slot.id) && RegisteredRecv(slot) && slot.op.owed.Some?
    {
      slot, pending, chain := null, null, [];
      if closed {
        ClosedIsEmpty(model);
        return;
      }
      hide Reachable;
      ghost var s := model;
      slot := CloseSlot();
      pending, chain := DetachAll();
      Advance(s, CloseNow, model);
    }

    method CloseSlot() returns (slot: RecvNode?)
      requires Structure()
      modifies this`closed, this`recvSlot, this`model, recvs`op
      ensures Structure() && slot == old(recvSlot)
      ensures model == old(model).(
                closed := true, slot := None,
                recvs := if slot == null then old(model).recvs
                         else old(model).recvs[slot.id := old(slot.op).(stage := Closed, owed := Some(Ended))])
    {
      hide Linked, SendsMatch, QueueMatches;
      closed := true;
      model := model.(closed := true);
      slot := recvSlot;
      if slot != null {
        SetRecv(slot, slot.op.(stage := Closed, owed := Some(Ended)));
        ReleaseSlot(slot);
      }
    }

    method DetachAll() returns (pending: SendNode?, ghost chain: seq<SendNode>)
      requires Structure()
      modifies this`wsHead, this`wsTail, this`queue, this`model, queue`op
      ensures Structure() && Detached(pending, chain) && chain == old(queue) && queue == []
      ensures model == old(model).(waiters := [], sends := CloseSends(old(model).sends, old(model).waiters))
    {
      hide Linked, Chained, SharedMatches, RecvsMatch, SendsMatch;
      ghost var waiters := model.waiters;
      pending, chain := DetachList();
      MarkClosed(pending, chain, waiters);
      SetSends(CloseSends(model.sends, waiters));
    }

    /** Lets the abstract state follow the nodes. */
    ghost method SetSends(ops: seq<SendOp>)
      requires Linked() && Registry() && SharedMatches() && QueueMatches(model.waiters)
      requires SendsMatch(ops) && RecvsMatch(model.recvs)
      modifies this`model
      ensures Structure() && model == old(model).(sends := ops)
    {
      model := model.(sends := ops);
    }

    method DetachList() returns (pending: SendNode?, ghost chain: seq<SendNode>)
      requires Structure()
      modifies this`wsHead, this`wsTail, this`queue, this`model
      ensures Structure() && model == old(model).(waiters := []) && queue == []
      ensures Chained(pending, chain) && chain == old(queue) && Distinct(chain) && |chain| == |old(model).waiters|
      ensures forall k :: 0 <= k < |chain| ==>
                old(model).waiters[k] < |sends| && chain[k] == sends[old(model).waiters[k]]
    {
      hide SendsMatch, RecvsMatch;
      pending, chain := wsHead, queue;
      wsHead, wsTail, queue := null, null, [];
      model := model.(waiters := []);
    }

    method MarkClosed(pending: SendNode?, ghost chain: seq<SendNode>, ghost waiters: seq<nat>)
      requires Registry() && SendsMatch(model.sends) && Chained(pending, chain) && Distinct(chain)
      requires |chain| == |waiters|
      requires forall k :: 0 <= k < |chain| ==> waiters[k] < |sends| && chain[k] == sends[waiters[k]]
      modifies chain`op
      ensures SendsMatch(CloseSends(model.sends, waiters))
      ensures forall k :: 0 <= k < |chain| ==> Registered(chain[k]) && chain[k].op.owed == Some(Rejected)
    {
      var n := pending;
      ghost var k := 0;
      while n != null
        invariant 0 <= k <= |chain| && n == if k == |chain| then null else chain[k]
        invariant forall i :: 0 <= i < |sends| ==>
                    sends[i].op == if i in waiters[..k] then model.sends[i].(stage := Closed, owed := Some(Rejected))
                                   else model.sends[i]
        decreases |chain| - k
      {
        assert waiters[..k + 1] == waiters[..k] + [waiters[k]];
        assert waiters[k] !in waiters[..k];
        n.op := n.op.(stage := Closed, owed := Some(Rejected));
        n := n.next;
        k := k + 1;
      }
      assert waiters[..k] == waiters;
    }

    /** The steps by which the drain completes the nodes of chain. */
    static ghost function Completions(chain: seq<SendNode>): seq<Event> {
      seq(|chain|, k requires 0 <= k < |chain| => CompleteSendOf(chain[k].id))
    }

    /** One round of the drain: the oldest detached node is completed. Any other section may run
        before the next round. */
    method DrainOne(first: SendNode, ghost chain: seq<SendNode>) returns (rest: SendNode?)
      requires Valid() && Detached(first, chain)
      modifies this`model, first`op, first`prev, first`next
      ensures Valid() && chain != [] && first == chain[0] && Detached(rest, chain[1..])
      ensures InRange(old(model)) && Enabled(old(model), CompleteSendOf(first.id))
      ensures model == Apply(old(model), CompleteSendOf(first.id))
      ensures first.prev == null && first.next == null && first.op == Deliver(old(first.op))
    {
      hide Reachable, Apply, Linked;
      rest := first.next;
      ClearLinks(first);
      CompleteSend(first);
    }

    /** The links of a node off the wait list are nobody's business. */
    method ClearLinks(n: SendNode)
      requires Structure() && n !in queue
      modifies n`prev, n`next
      ensures Structure() && n.prev == null && n.next == null
    {
      n.prev, n.next := null, null;
    }

    /** What the drain relies on about the nodes it has not visited. */
    lemma FirstDetached(first: SendNode?, chain: seq<SendNode>)
      requires Detached(first, chain)
      ensures first == if chain == [] then null else chain[0]
      ensures Distinct(chain) && forall k :: 0 <= k < |chain| ==> chain[k].op.owed.Some?
    {
    }

    static lemma NoCompletions()
      ensures Completions([]) == []
    {
    }

    static lemma OneMore(run: seq<SendNode>, n: SendNode)
      ensures Completions(run + [n]) == Completions(run) + [CompleteSendOf(n.id)]
    {
    }

    /** The loop that runs after close() released the mutex: it visits the detached
        nodes once each, oldest first, clears their links and delivers the refusal. */
    method DrainClosed(first: SendNode?, ghost chain: seq<SendNode>) returns (visited: seq<SendNode>)
      requires Valid() && Detached(first, chain)
      modifies this`model, chain`op, chain`prev, chain`next
      ensures Valid() && visited == chain
      ensures Legal(old(model), Completions(chain)) && model == Exec(old(model), Completions(chain))
      ensures forall k :: 0 <= k < |chain| ==>
                chain[k].prev == null && chain[k].next == null && chain[k].op == Deliver(old(chain[k].op))
    {
      hide Structure, Reachable, InRange, Detached, Completions, Legal, Exec, Enabled, Apply, Deliver;
      var pending := first;
      visited := [];
      FirstDetached(first, chain);
      StartRun(model);
      NoCompletions();
      while pending != null
        invariant Valid() && |visited| <= |chain| && visited == chain[..|visited|]
        invariant Detached(pending, chain[|visited|..])
        invariant Legal(old(model), Completions(visited)) && model == Exec(old(model), Completions(visited))
        invariant forall k :: 0 <= k < |visited| ==>
                    chain[k].prev == null && chain[k].next == null && chain[k].op == Deliver(old(chain[k].op))
        invariant forall k :: |visited| <= k < |chain| ==> chain[k].op == old(chain[k].op)
        decreases |chain| - |visited|
      {
        ghost var k, was := |visited|, model;
        var n := pending;
        FirstDetached(n, chain[k..]);
        pending := DrainOne(n, chain[k..]);
        ExtendRun(old(model), Completions(visited), was, CompleteSendOf(n.id));
        OneMore(visited, n);
        visited := visited + [n];
        assert chain[k..][1..] == chain[k + 1..];
      }
      FirstDetached(pending, chain[|visited|..]);
    }

    /** Whatever section runs between two rounds of the drain leaves the rest detached: it owes these
        nodes what it owed them before, and by its frame it cannot reach their links. */
    lemma StaysDetached(s: State, e: Event, first: SendNode?, chain: seq<SendNode>)
      requires Valid() && Reachable(s) && Enabled(s, e) && InRange(s) && model == Apply(s, e)
      requires Chained(first, chain) && Distinct(chain)
      requires forall k :: 0 <= k < |chain| ==>
                 && Registered(chain[k]) && chain[k].id < |s.sends| && s.sends[chain[k].id].owed.Some?
                 && e != CompleteSendOf(chain[k].id)
      ensures Detached(first, chain)
    {
      hide Reachable, Apply, Enabled;
      ReachableInv(model);
      forall k | 0 <= k < |chain|
        ensures chain[k].op.owed.Some? && chain[k] !in queue
      {
        OwedStays(s, e, chain[k].id);
        OwedNotParked(model, chain[k].id);
      }
    }

    /** The whole of close() when nothing runs in between: one step closes the channel, and then each
        operation that was parked is completed, the receiver first, the senders oldest first. */
    method Close() returns (ghost run: seq<Event>)
      requires Valid()
      modifies this`closed, this`recvSlot, this`wsHead, this`wsTail, this`queue, this`model
      modifies sends`op, sends`prev, sends`next, recvs`op
      ensures Valid() && Legal(old(model), run) && model == Exec(old(model), run)
      ensures run == [CloseNow] + (if old(closed) || old(model).slot.None? then [] else [CompleteRecvOf(old(model).slot.value)])
                     + Completions(if old(closed) then [] else old(queue))
    {
      hide Structure, Reachable, Legal, Exec, Enabled, Apply, InRange, Completions, Chained, Distinct;
      run := [CloseNow];
      var slot, pending, chain := CloseSection();
      CloseStep(old(model));
      if slot != null {
        ghost var was := model;
        CompleteRecv(slot);
        ExtendRun(old(model), run, was, CompleteRecvOf(slot.id));
        run := run + [CompleteRecvOf(slot.id)];
      }
      var visited := DrainClosed(pending, chain);
      JoinRuns(old(model), run, Completions(chain));
      run := run + Completions(chain);
    }

    // ----- sender handles -----

    method CopySender()
      requires Valid() && model.handles > 0
      modifies this`senders, this`model
      ensures Valid() && model == CopyHandle(old(model))
    {
      hide Linked, SendsMatch, RecvsMatch, QueueMatches, Reachable;
      senders := senders + 1;
      model := CopyHandle(model);
      Advance(old(model), Event.CopySender, model);
    }

    /** Drops a handle; the caller that dropped the last one must close. */
    method ReleaseSender() returns (last: bool)
      requires Valid() && model.handles > 0
      modifies this`senders, this`model
      ensures Valid() && model == ReleaseHandle(old(model))
      ensures last == (old(model).handles == 1)
    {
      hide Linked, SendsMatch, RecvsMatch, QueueMatches, Reachable;
      HandlesAgree(model);
      last := senders == 1;
      senders := senders - 1;
      model := ReleaseHandle(model);
      Advance(old(model), Event.ReleaseSender, model);
    }
  }
}
