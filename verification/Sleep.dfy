/** The control block that arbitrates a timer's completion against the destruction
    of the operation that waits for it. */
module Sleep {
  import opened Basics

  type Thread(==, !new)

  /** `begins` counts the completions that were granted, `waiting` holds the threads
      blocked in abandon(), `returned` those that abandon() returned on. */
  datatype State = State(
    done: bool, inFlight: int, completing: Option<Thread>, rcvr: bool,
    begins: nat, waiting: set<Thread>, returned: set<Thread>)

  function Fresh(): State {
    State(false, 0, None, true, 0, {}, {})
  }

  function CanBegin(s: State): bool {
    !s.done && s.rcvr
  }

  function Begin(s: State, t: Thread): State {
    if !CanBegin(s) then s
    else s.(rcvr := false, inFlight := s.inFlight + 1, completing := Some(t), begins := s.begins + 1)
  }

  function End(s: State): State {
    s.(inFlight := s.inFlight - 1)
  }

  function MustWait(s: State, t: Thread): bool {
    s.inFlight != 0 && s.completing != Some(t)
  }

  function Abandon(s: State, t: Thread): State {
    var a := s.(done := true, rcvr := false);
    if MustWait(s, t) then a.(waiting := s.waiting + {t}) else a.(returned := s.returned + {t})
  }

  function Wake(s: State, t: Thread): State {
    s.(waiting := s.waiting - {t}, returned := s.returned + {t})
  }

  datatype Event = BeginOn(t: Thread) | EndOn(t: Thread) | AbandonOn(t: Thread) | WakeOf(t: Thread)

  /** A granted completion is ended by its own thread, and a blocked thread runs
      nothing until the wait is over. */
  ghost predicate Enabled(s: State, e: Event) {
    match e
    case BeginOn(t) => t !in s.waiting
    case EndOn(t) => s.inFlight > 0 && s.completing == Some(t) && t !in s.waiting
    case AbandonOn(t) => t !in s.waiting
    case WakeOf(t) => t in s.waiting && s.inFlight == 0
  }

  ghost function Apply(s: State, e: Event): State {
    match e
    case BeginOn(t) => Begin(s, t)
    case EndOn(_) => End(s)
    case AbandonOn(t) => Abandon(s, t)
    case WakeOf(t) => Wake(s, t)
  }

  ghost predicate Legal(s: State, run: seq<Event>)
    decreases |run|
  {
    run == [] || (Enabled(s, run[0]) && Legal(Apply(s, run[0]), run[1..]))
  }

  ghost function Exec(s: State, run: seq<Event>): State
    decreases |run|
  {
    if run == [] then s else Exec(Apply(s, run[0]), run[1..])
  }

  ghost predicate Inv(s: State) {
    && 0 <= s.inFlight <= 1 && s.inFlight <= s.begins <= 1
    && (s.rcvr ==> s.begins == 0 && !s.done)
    && (s.begins == 0 ==> s.rcvr || s.done)
    && (s.inFlight == 1 ==> s.completing.Some? && s.completing.value !in s.waiting)
    && (s.waiting != {} || s.returned != {} ==> s.done)
    && (s.inFlight == 1 ==> forall t :: t in s.returned ==> s.completing == Some(t))
  }

  lemma {:induction false} RunInv(s: State, run: seq<Event>)
    requires Inv(s) && Legal(s, run)
    ensures Inv(Exec(s, run))
    decreases |run|
  {
    if run != [] {
      RunInv(Apply(s, run[0]), run[1..]);
    }
  }

  /** In every run: at most one completion is granted, and once abandon() returned
      on a thread other than the completing one, no completion is in progress. */
  lemma Arbitration(run: seq<Event>)
    requires Legal(Fresh(), run)
    ensures var s := Exec(Fresh(), run);
            && s.begins <= 1 && 0 <= s.inFlight <= 1
            && (forall t :: t in s.returned && s.completing != Some(t) ==> s.inFlight == 0)
            && (s.inFlight == 0 ==> forall t :: t in s.waiting ==> Enabled(s, WakeOf(t)))
            && (s.inFlight > 0 ==> s.completing.Some? && Enabled(s, EndOn(s.completing.value)))
  {
    RunInv(Fresh(), run);
  }

  /** After abandon() no completion is ever granted, so the count of grants and an
      empty flight are final. */
  lemma {:induction false} AbandonIsFinal(s: State, run: seq<Event>)
    requires Inv(s) && Legal(s, run) && s.done
    ensures var u := Exec(s, run);
            && u.done && u.begins == s.begins && u.inFlight <= s.inFlight
            && forall t :: Begin(u, t) == u
    decreases |run|
  {
    if run != [] {
      RunInv(s, run[..1]);
      assert run[..1][1..] == [];
      AbandonIsFinal(Apply(s, run[0]), run[1..]);
    }
  }

  /** Destruction from inside the completion's own callback cannot deadlock: in any run the thread of
      the completion in flight is not blocked, may abandon and then still end the completion, and after
      that every thread that was blocked can go on. */
  lemma CompletingThreadNeverWaits(run: seq<Event>, t: Thread)
    requires Legal(Fresh(), run) && Exec(Fresh(), run).inFlight > 0 && Exec(Fresh(), run).completing == Some(t)
    ensures var s := Exec(Fresh(), run);
            && t !in s.waiting && Enabled(s, AbandonOn(t))
            && var u := Apply(s, AbandonOn(t));
               && Enabled(u, EndOn(t))
               && forall w :: w in u.waiting ==> Enabled(Apply(u, EndOn(t)), WakeOf(w))
  {
    RunInv(Fresh(), run);
  }

  // ----- told from the events alone -----

  /** The thread whose completion is granted: the first that begins, unless somebody abandoned before. */
  function GrantedTo(run: seq<Event>): Option<Thread> {
    if run == [] || run[0].AbandonOn? then None
    else if run[0].BeginOn? then Some(run[0].t)
    else GrantedTo(run[1..])
  }

  predicate Quiet(run: seq<Event>) {
    forall e :: e in run ==> !e.BeginOn? && !e.AbandonOn?
  }

  lemma QuietNext(run: seq<Event>)
    requires run != []
    ensures Quiet(run) <==> !run[0].BeginOn? && !run[0].AbandonOn? && Quiet(run[1..])
  {
    assert forall e :: e in run <==> e == run[0] || e in run[1..];
  }

  lemma {:induction false} GrantsFrom(s: State, run: seq<Event>)
    ensures CanBegin(Exec(s, run)) <==> CanBegin(s) && Quiet(run)
    ensures Exec(s, run).begins == s.begins + if CanBegin(s) && GrantedTo(run).Some? then 1 else 0
    ensures Exec(s, run).completing == if CanBegin(s) && GrantedTo(run).Some? then GrantedTo(run) else s.completing
    decreases |run|
  {
    if run == [] {
      assert Quiet(run);
    } else {
      hide Quiet;
      QuietNext(run);
      GrantsFrom(Apply(s, run[0]), run[1..]);
    }
  }

  /** The first thread that begins is granted the completion unless somebody abandoned before, and
      nobody else is: a begin is granted exactly if neither a begin nor an abandon came before it. */
  lemma FirstBeginIsGranted(run: seq<Event>, t: Thread)
    requires Legal(Fresh(), run)
    ensures var s := Exec(Fresh(), run);
            && (CanBegin(s) <==> Quiet(run))
            && s.begins == (if GrantedTo(run).Some? then 1 else 0)
            && Begin(s, t).begins == s.begins + (if Quiet(run) then 1 else 0)
            && (Quiet(run) ==> Begin(s, t).completing == Some(t) && Begin(s, t).inFlight == 1)
  {
    GrantsFrom(Fresh(), run);
    RunInv(Fresh(), run);
  }

  /** abandon() blocks exactly while another thread's granted completion is in flight, and returns at once
      otherwise. */
  lemma AbandonBlocksExactly(run: seq<Event>, t: Thread)
    requires Legal(Fresh(), run) && Enabled(Exec(Fresh(), run), AbandonOn(t))
    ensures var s := Exec(Fresh(), run); var u := Apply(s, AbandonOn(t));
            && u.done && (t in u.waiting <==> s.inFlight > 0 && GrantedTo(run) != Some(t))
            && (t !in u.waiting ==> t in u.returned)
  {
    GrantsFrom(Fresh(), run);
    RunInv(Fresh(), run);
  }

  class ControlBlock {
    var done: bool
    var inFlight: int
    var completingThread: Option<Thread>
    var rcvr: bool
    ghost var begins: nat
    ghost var waiting: set<Thread>
    ghost var returned: set<Thread>

    ghost function View(): State
      reads this
    {
      State(done, inFlight, completingThread, rcvr, begins, waiting, returned)
    }

    constructor ()
      ensures View() == Fresh()
    {
      done, inFlight, completingThread, rcvr := false, 0, None, true;
      begins, waiting, returned := 0, {}, {};
    }

    method BeginCompletion(self: Thread) returns (granted: bool)
      modifies this
      ensures View() == Begin(old(View()), self) && granted == CanBegin(old(View()))
    {
      if done || !rcvr {
        return false;
      }
      rcvr := false;
      inFlight := inFlight + 1;
      completingThread := Some(self);
      begins := begins + 1;
      granted := true;
    }

    method EndCompletion()
      modifies this
      ensures View() == End(old(View()))
    {
      inFlight := inFlight - 1;
    }

    /** The section of abandon() before its wait; the wait itself ends by AfterWait. */
    method AbandonSection(self: Thread) returns (blocked: bool)
      modifies this
      ensures View() == Abandon(old(View()), self) && blocked == MustWait(old(View()), self)
    {
      done := true;
      rcvr := false;
      if inFlight == 0 {
        returned := returned + {self};
        return false;
      }
      if completingThread == Some(self) {
        returned := returned + {self};
        return false;
      }
      waiting := waiting + {self};
      blocked := true;
    }

    method AfterWait(self: Thread)
      requires inFlight == 0
      modifies this
      ensures View() == Wake(old(View()), self)
    {
      waiting, returned := waiting - {self}, returned + {self};
    }
  }
}
