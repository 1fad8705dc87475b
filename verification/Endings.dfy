/** When the pollers of a cancelled connection end whatever the schedule and whatever receives and writes
    bring. */
module Endings {
  import opened Options
  import opened Channels
  import opened Shutdown

  /** Nothing is left to do but what comes from outside. */
  ghost predicate Terminal<M(!new)>(s: State<M>) {
    forall a: Action<M> :: !FromOutside(a) ==> Step(s, a).None?
  }

  // ---------- Every schedule comes to an end ----------

  function PollerLeft<M>(p: Poller<M>): nat {
    if p.Receiving? then 6 else PollerWork(p)
  }

  function PollersLeft<M>(p: PerChan<Poller<M>>): nat {
    PollerLeft(p.iopub) + PollerLeft(p.control) + PollerLeft(p.stdin) + PollerLeft(p.shell)
  }

  function WriterLeft<M>(w: Writer<M>): nat {
    match w
    case Waiting => 5
    case Took(_, _) => 4
    case Writing(_, _) => 3
    case Wrote => 2
    case NotYet => 2
    case WTop => 1
    case _ => 0
  }

  /** A bound on the steps that are left after cancellation. */
  function Left<M>(s: State<M>): nat {
    PollersLeft(s.pollers) + WriterLeft(s.writer) + StopperWork(s.stopper)
  }

  lemma LeftPut<M>(p: PerChan<Poller<M>>, c: Chan, q: Poller<M>)
    ensures PollersLeft(p.Put(c, q)) == PollersLeft(p) - PollerLeft(p.Get(c)) + PollerLeft(q)
  {
  }

  lemma PollTakesOne<M>(s: State<M>, a: Action<M>, c: Chan)
    requires s.cancelled && PollStep(s, a, c).Some?
    ensures Left(PollStep(s, a, c).value) < Left(s)
  {
    LeftPut(s.pollers, c, PollStep(s, a, c).value.pollers.Get(c));
  }

  lemma WriteTakesOne<M>(s: State<M>, a: Action<M>)
    requires s.cancelled && WriteStep(s, a).Some?
    ensures Left(WriteStep(s, a).value) < Left(s)
  {
  }

  lemma StepTakesOne<M>(s: State<M>, a: Action<M>)
    requires Ending(s) && Step(s, a).Some? && !FromOutside(a)
    ensures Left(Step(s, a).value) < Left(s)
  {
    if WriteStep(s, a).Some? {
      WriteTakesOne(s, a);
    } else {
      forall c | PollStep(s, a, c).Some?
        ensures Left(PollStep(s, a, c).value) < Left(s)
      {
        PollTakesOne(s, a, c);
      }
    }
  }

  lemma {:induction false} EndingRun<M>(s: State<M>, acts: seq<Action<M>>)
    requires Ending(s) && Run(s, acts).Some?
    ensures Ending(Run(s, acts).value)
  {
    if acts != [] {
      EndingRun(s, acts[..|acts| - 1]);
      StaysEnding(Run(s, acts[..|acts| - 1]).value, acts[|acts| - 1]);
    }
  }

  /** After cancellation a connection that is left alone takes at most `Left(s)` more steps. */
  lemma {:induction false} SchedulesEnd<M>(s: State<M>, acts: seq<Action<M>>)
    requires Ending(s) && Run(s, acts).Some? && forall i :: 0 <= i < |acts| ==> !FromOutside(acts[i])
    ensures |acts| + Left(Run(s, acts).value) <= Left(s)
  {
    if acts != [] {
      SchedulesEnd(s, acts[..|acts| - 1]);
      EndingRun(s, acts[..|acts| - 1]);
      StepTakesOne(Run(s, acts[..|acts| - 1]).value, acts[|acts| - 1]);
    }
  }

  lemma {:induction false} TerminalReached<M(!new)>(s: State<M>) returns (acts: seq<Action<M>>)
    requires Ending(s)
    ensures Run(s, acts).Some? && Terminal(Run(s, acts).value)
    decreases Left(s)
  {
    if a: Action<M> :| !FromOutside(a) && Step(s, a).Some? {
      StepTakesOne(s, a);
      StaysEnding(s, a);
      var rest := TerminalReached(Step(s, a).value);
      RunFrom(s, a, rest);
      acts := [a] + rest;
    } else {
      acts := [];
    }
  }

  // ---------- What must hold for the pollers to end ----------

  /** In `Recv`, which may still bring a message, or holding one. */
  predicate Busy<M>(p: Poller<M>) {
    p.Receiving? || p.Sending?
  }

  /** Ended, or in possession of the mutex on the way there. */
  predicate Leaves<M>(p: Poller<M>) {
    p.Gone? || p.Uncounting? || p.Unlocking?
  }

  ghost predicate NoneBusy<M>(s: State<M>) {
    forall c: Chan :: !Busy(s.pollers.Get(c))
  }

  ghost predicate AllLeave<M>(s: State<M>) {
    forall c: Chan :: Leaves(s.pollers.Get(c))
  }

  /** The pollers end in every schedule: they have all ended; or none may hold a message any more and no
      write can fail before they have ended. */
  ghost predicate MustEnd<M>(s: State<M>) {
    || AllGone(s.pollers)
    || (NoneBusy(s) && !s.writer.Failed? && !s.writer.Writing? && (s.writer.Took? ==> AllLeave(s)))
  }

  lemma GoneStays<M>(s: State<M>, a: Action<M>)
    requires StartedInOrder(s) && s.starter == Calling(4) && AllGone(s.pollers) && Step(s, a).Some?
    ensures AllGone(Step(s, a).value.pollers)
  {
    GoneIsEach(s.pollers);
    forall c: Chan
      ensures PollStep(s, a, c).None?
    {
    }
  }

  /** A poller that is on its way to the end goes on. */
  lemma PollTowardsEnd<M>(s: State<M>, a: Action<M>, d: Chan)
    requires s.cancelled && NoneBusy(s) && PollStep(s, a, d).Some?
    ensures var t := PollStep(s, a, d).value;
      NoneBusy(t) && t.writer == s.writer && (AllLeave(s) ==> AllLeave(t))
  {
    var t := PollStep(s, a, d).value;
    forall c: Chan
      ensures !Busy(t.pollers.Get(c)) && (Leaves(s.pollers.Get(c)) ==> Leaves(t.pollers.Get(c)))
    {
      assert !Busy(s.pollers.Get(c));
    }
  }

  /** While a poller in possession of the mutex is on its way out, the writer waits for it. */
  lemma LeaverHoldsMutex<M>(s: State<M>)
    requires MutexAgrees(s) && AllLeave(s) && !AllGone(s.pollers)
    ensures s.mu.ByPoller?
  {
    GoneIsEach(s.pollers);
    var c: Chan :| !s.pollers.Get(c).Gone?;
    assert Leaves(s.pollers.Get(c));
    assert s.mu == ByPoller(c);
  }

  lemma WriteTowardsEnd<M>(s: State<M>, a: Action<M>)
    requires Ending(s) && MustEnd(s) && !AllGone(s.pollers) && WriteStep(s, a).Some?
    ensures MustEnd(WriteStep(s, a).value)
  {
    var t := WriteStep(s, a).value;
    assert t.pollers == s.pollers;
    if s.writer.Took? {
      LeaverHoldsMutex(s);
    }
    forall c: Chan
      ensures !Busy(t.pollers.Get(c))
    {
      assert !Busy(s.pollers.Get(c));
    }
  }

  lemma MustEndStep<M>(s: State<M>, a: Action<M>)
    requires Ending(s) && MustEnd(s) && Step(s, a).Some?
    ensures MustEnd(Step(s, a).value)
  {
    if AllGone(s.pollers) {
      GoneStays(s, a);
    } else if WriteStep(s, a).Some? {
      WriteTowardsEnd(s, a);
    } else {
      forall d | PollStep(s, a, d).Some?
        ensures MustEnd(PollStep(s, a, d).value)
      {
        PollTowardsEnd(s, a, d);
      }
      OthersTowardsEnd(s, a);
    }
  }

  /** The steps of the starter, of the stopper and of cancellation move no poller. */
  lemma OthersTowardsEnd<M>(s: State<M>, a: Action<M>)
    requires Ending(s) && MustEnd(s) && !AllGone(s.pollers)
    ensures StartStep(s, a).Some? ==> MustEnd(StartStep(s, a).value)
    ensures StopStep(s, a).Some? ==> MustEnd(StopStep(s, a).value)
  {
    assert forall c: Chan :: !Busy(s.pollers.Get(c));
  }

  lemma {:induction false} MustEndRun<M>(s: State<M>, acts: seq<Action<M>>)
    requires Ending(s) && MustEnd(s) && Run(s, acts).Some?
    ensures MustEnd(Run(s, acts).value)
  {
    if acts != [] {
      MustEndRun(s, acts[..|acts| - 1]);
      EndingRun(s, acts[..|acts| - 1]);
      MustEndStep(Run(s, acts[..|acts| - 1]).value, acts[|acts| - 1]);
    }
  }

  lemma MustCan<M>(s: State<M>)
    requires MustEnd(s)
    ensures CanEnd(s)
  {
    assert NoneBusy(s) ==> !Busy(s.pollers.Get(Iopub)) && !Busy(s.pollers.Get(Control)) && !Busy(s.pollers.Get(Stdin)) && !Busy(s.pollers.Get(Shell));
  }

  // ---------- What goes wrong otherwise ----------

  /** A run to a state from which the pollers cannot all end any more. */
  ghost predicate GetsStuck<M>(s: State<M>, acts: seq<Action<M>>) {
    Run(s, acts).Some? && !CanEnd(Run(s, acts).value)
  }

  lemma StuckLater<M>(s: State<M>, a: Action<M>, rest: seq<Action<M>>) returns (acts: seq<Action<M>>)
    requires Step(s, a).Some? && GetsStuck(Step(s, a).value, rest)
    ensures GetsStuck(s, acts)
  {
    RunFrom(s, a, rest);
    acts := [a] + rest;
  }

  lemma NotAllGone<M>(s: State<M>, c: Chan)
    requires !s.pollers.Get(c).Gone?
    ensures !AllGone(s.pollers)
  {
    GoneIsEach(s.pollers);
  }

  /** A write that has begun may fail. */
  lemma WritingMayFail<M>(s: State<M>, c: Chan) returns (acts: seq<Action<M>>)
    requires s.writer.Writing? && !s.pollers.Get(c).Gone?
    ensures GetsStuck(s, acts)
  {
    var t := Step(s, WriteErr).value;
    NotAllGone(t, c);
    assert GetsStuck(t, []);
    acts := StuckLater(s, WriteErr, []);
  }

  /** The writer may get the mutex before a poller that does not have it yet. */
  lemma {:induction false} TookMayFail<M>(s: State<M>, c: Chan) returns (acts: seq<Action<M>>)
    requires Ending(s) && s.writer.Took? && !Leaves(s.pollers.Get(c))
    ensures GetsStuck(s, acts)
    decreases Left(s)
  {
    var a: Action<M>;
    if s.mu == Nobody {
      a := WriterLock;
      var rest := WritingMayFail(Step(s, a).value, c);
      acts := StuckLater(s, a, rest);
    } else {
      a := Release(s);
      StepTakesOne(s, a);
      StaysEnding(s, a);
      ReleaseSpares(s, c);
      var rest := TookMayFail(Step(s, a).value, c);
      acts := StuckLater(s, a, rest);
    }
  }

  /** The next step of the poller or the stopper that has the mutex. */
  function Release<M>(s: State<M>): Action<M> {
    if s.mu.ByPoller? then
      if s.pollers.Get(s.mu.c).Uncounting? then PollDone(s.mu.c) else PollUnlock(s.mu.c)
    else if s.stopper == StopHolding then StopCancel else StopUnlock
  }

  lemma ReleaseSpares<M>(s: State<M>, c: Chan)
    requires Ending(s) && s.mu != Nobody && s.writer.Took? && !Leaves(s.pollers.Get(c))
    ensures var a := Release(s);
      && Step(s, a).Some? && !FromOutside(a)
      && Step(s, a).value.writer == s.writer && Step(s, a).value.pollers.Get(c) == s.pollers.Get(c)
  {
    if s.mu.ByPoller? {
      assert s.pollers.Get(s.mu.c).Uncounting? || s.pollers.Get(s.mu.c).Unlocking?;
    }
  }

  /** A poller that holds a message, or may still receive one, may be left with it or hand it to a write
      that fails. */
  lemma BusyMayStick<M>(s: State<M>, c: Chan, m: M) returns (acts: seq<Action<M>>)
    requires Ending(s) && Busy(s.pollers.Get(c)) && !s.writer.Took? && !s.writer.Writing?
    ensures GetsStuck(s, acts)
  {
    if s.pollers.Get(c).Receiving? {
      StaysEnding(s, RecvOk(c, m));
      var rest := SenderMayStick(Step(s, RecvOk(c, m)).value, c);
      acts := StuckLater(s, RecvOk(c, m), rest);
    } else {
      acts := SenderMayStick(s, c);
    }
  }

  lemma SenderMayStick<M>(s: State<M>, c: Chan) returns (acts: seq<Action<M>>)
    requires Ending(s) && s.pollers.Get(c).Sending? && !s.writer.Took? && !s.writer.Writing?
    ensures GetsStuck(s, acts)
  {
    if s.writer.Waiting? {
      var t := Step(s, Handoff(c)).value;
      StaysEnding(s, Handoff(c));
      var rest := TookMayFail(t, c);
      acts := StuckLater(s, Handoff(c), rest);
    } else {
      NotAllGone(s, c);
      SendersPut(s.pollers, c, Top);
      acts := [];
    }
  }

  lemma MayStick<M>(s: State<M>, m: M) returns (acts: seq<Action<M>>)
    requires Ending(s) && !MustEnd(s)
    ensures GetsStuck(s, acts)
  {
    GoneIsEach(s.pollers);
    var c: Chan :| !s.pollers.Get(c).Gone?;
    if s.writer.Failed? {
      acts := [];
    } else if s.writer.Writing? {
      acts := WritingMayFail(s, c);
    } else if s.writer.Took? {
      var d: Chan :| !Leaves(s.pollers.Get(d)) || Busy(s.pollers.Get(d));
      acts := TookMayFail(s, d);
    } else {
      var d: Chan :| Busy(s.pollers.Get(d));
      acts := BusyMayStick(s, d, m);
    }
  }

  /** After cancellation the pollers have all ended at the end of every schedule exactly when they have
      ended already, or none is receiving or holds a message, no write has failed or is being made, and a
      writer that has taken a message finds only pollers on their way out. */
  lemma MustEndIff<M(!new)>(s: State<M>, m: M)
    requires Ending(s)
    ensures (forall acts :: Run(s, acts).Some? && Terminal(Run(s, acts).value) ==> AllGone(Run(s, acts).value.pollers)) <==> MustEnd(s)
  {
    if MustEnd(s) {
      forall acts | Run(s, acts).Some? && Terminal(Run(s, acts).value)
        ensures AllGone(Run(s, acts).value.pollers)
      {
        MustEndRun(s, acts);
        EndingRun(s, acts);
        GoneWhenDone(Run(s, acts).value);
      }
    } else {
      var stuck := MayStick(s, m);
      EndingRun(s, stuck);
      var rest := TerminalReached(Run(s, stuck).value);
      RunOn(s, stuck, rest);
      StuckRun(Run(s, stuck).value, rest);
    }
  }

  lemma GoneWhenDone<M(!new)>(s: State<M>)
    requires Ending(s) && MustEnd(s) && Terminal(s)
    ensures AllGone(s.pollers)
  {
    MustCan(s);
    if !AllGone(s.pollers) {
      var a := Advance(s);
    }
  }

  /** A run that goes on from where another ended. */
  lemma {:induction false} RunOn<M>(s: State<M>, acts: seq<Action<M>>, rest: seq<Action<M>>)
    requires Run(s, acts).Some?
    ensures Run(s, acts + rest) == Run(Run(s, acts).value, rest)
  {
    if rest == [] {
      assert acts + rest == acts;
    } else {
      var front, last := rest[..|rest| - 1], rest[|rest| - 1];
      RunOn(s, acts, front);
      RunThen(s, acts + front, last);
      RunThen(Run(s, acts).value, front, last);
      assert acts + rest == acts + front + [last] && rest == front + [last];
    }
  }
}
