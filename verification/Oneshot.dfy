/** The single-shot channel: one sender that settles a payload, one receiver that
    may start waiting, be destroyed while it waits, or find the payload ready. */
module Oneshot {
  import opened Basics

  type Value(==, !new)
  type Failure(==, !new)

  /** What send(), close() and send_error() settle, and what a receiver completes with. */
  datatype Payload = Sent(value: Value) | Closed | Error(error: Failure)

  datatype Status = Empty | HasValue | HasError

  /** The receiving operation. */
  datatype Rx = Rx(started: bool, destroyed: bool, owed: Option<Payload>, signals: seq<Payload>)

  /** The shared state; `attached` says that the sender still refers to it, and
      `settles` lists every payload that a settle accepted. */
  datatype State = State(
    status: Status, value: Option<Value>, error: Option<Failure>, waiting: bool, detached: bool, settled: bool,
    attached: bool, rx: Rx, settles: seq<Payload>)

  function Fresh(): State {
    State(Empty, None, None, false, false, false, true, Rx(false, false, None, []), [])
  }

  /** The payload that the status, value and error fields spell. */
  function Stored(s: State): Payload {
    if s.status == HasError && s.error.Some? then Error(s.error.value)
    else if s.value.Some? then Sent(s.value.value)
    else Closed
  }

  function CanSettle(s: State): bool {
    s.attached && s.status == Empty && !s.detached
  }

  function Settle(s: State, p: Payload): State {
    if !CanSettle(s) then s
    else s.(status := if p.Error? then HasError else HasValue,
            value := if p.Sent? then Some(p.value) else None,
            error := if p.Error? then Some(p.error) else None,
            settled := true, waiting := false, attached := false, settles := s.settles + [p],
            rx := if s.waiting then s.rx.(owed := Some(p)) else s.rx)
  }

  function Start(s: State): State {
    if !s.settled then s.(waiting := true, rx := s.rx.(started := true))
    else s.(rx := s.rx.(started := true, owed := Some(Stored(s))))
  }

  function Destroy(s: State): State {
    s.(waiting := false, detached := s.detached || s.waiting, rx := s.rx.(destroyed := true))
  }

  function Deliver(s: State): State
    requires s.rx.owed.Some?
  {
    s.(rx := s.rx.(owed := None, signals := s.rx.signals + [s.rx.owed.value]))
  }

  datatype Event = SettleWith(p: Payload) | StartRx | DestroyRx | DeliverRx

  ghost predicate Enabled(s: State, e: Event) {
    match e
    case SettleWith(_) => true
    case StartRx => !s.rx.started && !s.rx.destroyed
    case DestroyRx => !s.rx.destroyed && s.rx.owed.None?
    case DeliverRx => s.rx.owed.Some?
  }

  ghost function Apply(s: State, e: Event): State
    requires Enabled(s, e)
  {
    match e
    case SettleWith(p) => Settle(s, p)
    case StartRx => Start(s)
    case DestroyRx => Destroy(s)
    case DeliverRx => Deliver(s)
  }

  ghost predicate Legal(s: State, run: seq<Event>)
    decreases |run|
  {
    run == [] || (Enabled(s, run[0]) && Legal(Apply(s, run[0]), run[1..]))
  }

  ghost function Exec(s: State, run: seq<Event>): State
    requires Legal(s, run)
    decreases |run|
  {
    if run == [] then s else Exec(Apply(s, run[0]), run[1..])
  }

  /** The one completion, delivered or owed. */
  ghost function Outcome(rx: Rx): Option<Payload> {
    if |rx.signals| > 0 then Some(rx.signals[0]) else rx.owed
  }

  ghost predicate Inv(s: State) {
    && |s.settles| <= 1
    && (s.settled <==> |s.settles| == 1) && (s.settled <==> s.status != Empty) && (s.settled <==> !s.attached)
    && (s.settled ==> Stored(s) == s.settles[0])
    && !(s.detached && s.settled)
    && (s.waiting ==> !s.settled && !s.detached && s.rx.started && !s.rx.destroyed)
    && (s.detached ==> s.rx.destroyed && s.rx.started)
    && (s.rx.started && s.rx.destroyed ==> s.detached || Outcome(s.rx).Some?)
    && |s.rx.signals| <= 1 && (s.rx.owed.Some? ==> s.rx.signals == [] && !s.rx.destroyed)
    && (Outcome(s.rx).Some? ==> s.rx.started && s.settled && Outcome(s.rx) == Some(s.settles[0]))
    && (s.rx.started && !s.rx.destroyed ==> s.waiting || Outcome(s.rx).Some?)
  }

  lemma {:induction false} RunInv(s: State, run: seq<Event>)
    requires Inv(s) && Legal(s, run)
    ensures Inv(Exec(s, run))
    decreases |run|
  {
    if run != [] {
      RunInv(Apply(s, run[0]), run[1..]);
    }
  }

  /** Over all interleavings: at most one settle is accepted; a detached channel is
      never settled; a receiver that was started and not destroyed is either
      waiting on an unsettled channel or completes exactly once, with the payload
      that was settled. */
  lemma ExactlyOnce(run: seq<Event>)
    requires Legal(Fresh(), run)
    ensures var s := Exec(Fresh(), run);
            && |s.settles| <= 1
            && !(s.detached && s.settled)
            && |s.rx.signals| + (if s.rx.owed.Some? then 1 else 0) <= 1
            && (s.rx.started && !s.rx.destroyed ==>
                  if s.settled then |s.settles| == 1 && Outcome(s.rx) == Some(s.settles[0]) else s.waiting)
            && (Outcome(s.rx).Some? ==> |s.settles| == 1 && Outcome(s.rx) == Some(s.settles[0]))
  {
    RunInv(Fresh(), run);
  }

  /** Once settled or detached, no later settle changes anything. */
  lemma {:induction false} SettledForGood(s: State, run: seq<Event>)
    requires Inv(s) && Legal(s, run) && (s.settled || s.detached)
    ensures var t := Exec(s, run);
            && t.settles == s.settles && t.settled == s.settled && t.detached == s.detached
            && forall p :: Settle(t, p) == t
    decreases |run|
  {
    if run != [] {
      RunInv(s, run[..1]);
      assert run[..1][1..] == [];
      SettledForGood(Apply(s, run[0]), run[1..]);
    }
  }

  /** A settle is accepted exactly if it is the first and nobody gave up waiting, and then a receiver that
      waits is owed precisely its payload; a refused one changes nothing. */
  lemma SettlesAreAccepted(run: seq<Event>, p: Payload)
    requires Legal(Fresh(), run)
    ensures var s := Exec(Fresh(), run); var t := Apply(s, SettleWith(p));
            && (t.settles == s.settles + [p] <==> s.settles == [] && !s.detached)
            && (t.settles != s.settles + [p] ==> t == s)
            && (s.waiting ==> t.rx.owed == Some(p) && !t.waiting)
            && (t.settles == s.settles + [p] && !s.waiting ==> t.rx == s.rx)
  {
    RunInv(Fresh(), run);
    var s := Exec(Fresh(), run);
    assert CanSettle(s) || s.settles != s.settles + [p];
  }

  /** The receiver waits exactly while it is started, neither completed nor destroyed; and it gave up
      exactly if it was destroyed while it waited. */
  lemma WaitingAndDetached(run: seq<Event>)
    requires Legal(Fresh(), run)
    ensures var s := Exec(Fresh(), run);
            && (s.waiting <==> s.rx.started && !s.rx.destroyed && Outcome(s.rx).None?)
            && (s.detached <==> s.rx.started && s.rx.destroyed && Outcome(s.rx).None?)
  {
    RunInv(Fresh(), run);
  }

  /** A receiver that starts completes with what was settled before, and otherwise waits. */
  lemma StartGives(run: seq<Event>)
    requires Legal(Fresh(), run) && Enabled(Exec(Fresh(), run), Event.StartRx)
    ensures var s := Exec(Fresh(), run); var t := Apply(s, Event.StartRx);
            if s.settles == [] then t.waiting && Outcome(t.rx).None? else Outcome(t.rx) == Some(s.settles[0]) && !t.waiting
  {
    RunInv(Fresh(), run);
  }

  /** The channel as the program keeps it. */
  class Channel {
    var status: Status
    var value: Option<Value>
    var error: Option<Failure>
    var waiter: bool
    var detached: bool
    var settled: bool
    var attached: bool
    ghost var rx: Rx
    ghost var settles: seq<Payload>

    ghost function View(): State
      reads this
    {
      State(status, value, error, waiter, detached, settled, attached, rx, settles)
    }

    constructor ()
      ensures View() == Fresh()
    {
      status, value, error, waiter, detached, settled, attached := Empty, None, None, false, false, false, true;
      rx, settles := Rx(false, false, None, []), [];
    }

    /** `kept` is what the caller still owns afterwards: everything, when refused. */
    method SettleWith(p: Payload) returns (ok: bool, kept: Option<Payload>)
      modifies this
      ensures View() == Settle(old(View()), p)
      ensures ok == CanSettle(old(View())) && kept == if ok then None else Some(p)
    {
      ok, kept := false, Some(p);
      if !attached {
        return;
      }
      if status != Empty {
        return;
      }
      if detached {
        return;
      }
      status := if p.Error? then HasError else HasValue;
      value := if p.Sent? then Some(p.value) else None;
      error := if p.Error? then Some(p.error) else None;
      settled := true;
      settles := settles + [p];
      var waiting := waiter;
      waiter := false;
      if waiting {
        rx := rx.(owed := Some(p));
      }
      attached := false;
      ok, kept := true, None;
    }

    /** A receiver that finds the channel settled completes at once. */
    method StartRx() returns (ready: Option<Payload>)
      requires Inv(View()) && Enabled(View(), Event.StartRx)
      modifies this
      ensures View() == Start(old(View())) && Inv(View())
      ensures ready == if old(settled) then Some(old(settles)[0]) else None
    {
      ready := None;
      if !settled {
        waiter := true;
        rx := rx.(started := true);
        return;
      }
      ready := Some(if status == HasError && error.Some? then Error(error.value)
                    else if value.Some? then Sent(value.value) else Closed);
      rx := rx.(started := true, owed := ready);
    }

    method DestroyRx()
      requires Inv(View()) && Enabled(View(), Event.DestroyRx)
      modifies this
      ensures View() == Destroy(old(View())) && Inv(View())
    {
      if waiter {
        waiter := false;
        detached := true;
      }
      rx := rx.(destroyed := true);
    }
  }
}
