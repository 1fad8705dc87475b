/** When the pollers of a connection can end after cancellation, and where they get stuck. */
module Shutdown {
  import opened Options
  import opened Channels

  predicate AllGone<M>(p: PerChan<Poller<M>>) {
    p.iopub.Gone? && p.control.Gone? && p.stdin.Gone? && p.shell.Gone?
  }

  function IsSending<M>(p: Poller<M>): nat {
    if p.Sending? then 1 else 0
  }

  /** How many pollers hold a message. */
  function Senders<M>(p: PerChan<Poller<M>>): nat {
    IsSending(p.iopub) + IsSending(p.control) + IsSending(p.stdin) + IsSending(p.shell)
  }

  /** How many messages the writer will still take once the context is cancelled. */
  function Room<M>(w: Writer<M>): nat {
    if w.Waiting? then 1 else 0
  }

  /** Cancelled, with all pollers started. */
  ghost predicate Ending<M>(s: State<M>) {
    Inv(s) && s.cancelled && s.starter == Calling(4)
  }

  predicate CanEnd<M>(s: State<M>) {
    AllGone(s.pollers) || (!s.writer.Failed? && Senders(s.pollers) <= Room(s.writer))
  }

  ghost predicate Ends<M>(s: State<M>, acts: seq<Action<M>>) {
    Run(s, acts).Some? && AllGone(Run(s, acts).value.pollers)
  }

  // ---------- Stuck for ever ----------

  /** Nobody will ever take another message from the channel. */
  predicate NoTaker<M>(s: State<M>) {
    s.writer.Left? || s.writer.Failed? || (s.cancelled && !s.writer.Waiting?)
  }

  /** Once nobody takes messages any more, a poller that holds one keeps it in every continuation: it
      never sees the cancelled context and never ends. A writer that has returned writes nothing more. */
  lemma {:induction false} HeldForEver<M>(s: State<M>, acts: seq<Action<M>>, c: Chan)
    requires NoTaker(s) && StartedInOrder(s) && Run(s, acts).Some?
    ensures var t := Run(s, acts).value;
      && NoTaker(t) && StartedInOrder(t)
      && (s.pollers.Get(c).Sending? ==> t.pollers.Get(c) == s.pollers.Get(c))
      && (s.writer.Left? || s.writer.Failed? ==> t.writer == s.writer && t.log == s.log)
  {
    if acts != [] {
      var before, a := Run(s, acts[..|acts| - 1]).value, acts[|acts| - 1];
      HeldForEver(s, acts[..|acts| - 1], c);
      HeldStep(before, a, c);
      StepKeepsOrder(before, a);
    }
  }

  lemma HeldStep<M>(s: State<M>, a: Action<M>, c: Chan)
    requires NoTaker(s) && StartedInOrder(s) && Step(s, a).Some?
    ensures var t := Step(s, a).value;
      && NoTaker(t)
      && (s.pollers.Get(c).Sending? ==> t.pollers.Get(c) == s.pollers.Get(c))
      && (s.writer.Left? || s.writer.Failed? ==> t.writer == s.writer && t.log == s.log)
  {
    if s.starter.next < 4 {
      assert StartedAt(s.starter, s.starter.next, s.pollers.Get(ChanAt(s.starter.next)));
    }
  }

  /** After a failed write the mutex stays locked: the counter never changes again, no poller ends, and
      the stopper never gets to cancel. */
  lemma {:induction false} StuckAfterFailedWrite<M>(s: State<M>, acts: seq<Action<M>>, c: Chan)
    requires Inv(s) && s.writer.Failed? && Run(s, acts).Some?
    ensures var t := Run(s, acts).value;
      && Inv(t) && t.writer == s.writer && t.mu == ByWriter
      && t.pollingWait == s.pollingWait && t.stopper == s.stopper
      && (t.pollers.Get(c).Gone? <==> s.pollers.Get(c).Gone?)
  {
    if acts != [] {
      var before, a := Run(s, acts[..|acts| - 1]).value, acts[|acts| - 1];
      StuckAfterFailedWrite(s, acts[..|acts| - 1], c);
      StepKeepsInv(before, a);
      FailedStep(before, a, c);
    }
  }

  lemma FailedStep<M>(s: State<M>, a: Action<M>, c: Chan)
    requires Inv(s) && s.writer.Failed? && Step(s, a).Some?
    ensures var t := Step(s, a).value;
      && t.writer == s.writer && t.mu == ByWriter && t.pollingWait == s.pollingWait && t.stopper == s.stopper
      && (t.pollers.Get(c).Gone? <==> s.pollers.Get(c).Gone?)
  {
    forall d: Chan
      ensures !s.pollers.Get(d).Uncounting? && !s.pollers.Get(d).Unlocking?
    {
      assert s.mu != ByPoller(d);
    }
  }

  // ---------- Such states are reached ----------

  /** A run in which the writer has taken one message and is about to write it. */
  lemma WriteBegun<M>(m: M) returns (acts: seq<Action<M>>, s: State<M>)
    ensures Run(Init<M>(), acts) == Some(s)
    ensures s.starter == Calling(4) && !s.cancelled && s.pollers == PerChan(Top, Top, Top, Top)
    ensures s.writer == Writing(Iopub, m) && s.mu == ByWriter
  {
    acts, s := AllStarted();
    acts, s := ReceiveOne(acts, s, Iopub, m);
    acts, s := Extend(acts, s, Handoff(Iopub));
    acts, s := Extend(acts, s, WriterLock);
  }

  lemma OneWritten<M>(m: M) returns (acts: seq<Action<M>>, s: State<M>)
    ensures Run(Init<M>(), acts) == Some(s)
    ensures s.starter == Calling(4) && !s.cancelled && s.pollers == PerChan(Top, Top, Top, Top) && s.writer == WTop
  {
    acts, s := WriteBegun(m);
    acts, s := Extend(acts, s, WriteOk);
    acts, s := Extend(acts, s, WriterUnlock);
  }

  /** A run to a cancelled connection whose writer has left and whose four pollers all hold a message. */
  lemma AllStuckOccurs<M>(m: M) returns (acts: seq<Action<M>>)
    ensures Run(Init<M>(), acts).Some?
    ensures var s := Run(Init<M>(), acts).value;
      && s.cancelled && s.starter == Calling(4) && s.writer.Left?
      && forall c: Chan :: s.pollers.Get(c) == Sending(m)
  {
    var s: State<M>;
    acts, s := OneWritten(m);
    acts, s := AllReceive(acts, s, m);
    acts, s := Extend(acts, s, Cancel);
    acts, s := Extend(acts, s, WriterCancelled);
  }

  /** A run to a failed write, with the mutex held and no poller ended. */
  lemma FailedWriteOccurs<M>(m: M) returns (acts: seq<Action<M>>)
    ensures Run(Init<M>(), acts).Some?
    ensures var s := Run(Init<M>(), acts).value;
      && s.writer == Failed(Iopub, m) && s.mu == ByWriter && s.starter == Calling(4)
      && forall c: Chan :: s.pollers.Get(c) == Top
  {
    var s: State<M>;
    acts, s := WriteBegun(m);
    acts, s := Extend(acts, s, WriteErr);
  }

  // ---------- When all pollers can end ----------

  lemma SendersPut<M>(p: PerChan<Poller<M>>, c: Chan, q: Poller<M>)
    ensures Senders(p.Put(c, q)) == Senders(p) - IsSending(p.Get(c)) + IsSending(q)
  {
  }

  /** More senders than the writer has room for stay too many. */
  lemma PollKeepsCrowd<M>(s: State<M>, a: Action<M>, c: Chan)
    requires s.cancelled && Senders(s.pollers) > Room(s.writer) && PollStep(s, a, c).Some?
    ensures var t := PollStep(s, a, c).value; Senders(t.pollers) > Room(t.writer)
  {
    SendersPut(s.pollers, c, PollStep(s, a, c).value.pollers.Get(c));
  }

  lemma CrowdStep<M>(s: State<M>, a: Action<M>)
    requires Ending(s) && Senders(s.pollers) > Room(s.writer) && Step(s, a).Some?
    ensures var t := Step(s, a).value; Senders(t.pollers) > Room(t.writer)
  {
    forall c | PollStep(s, a, c).Some?
      ensures var t := PollStep(s, a, c).value; Senders(t.pollers) > Room(t.writer)
    {
      PollKeepsCrowd(s, a, c);
    }
  }

  /** After a failed write the same pollers have ended as before. */
  lemma FailedKeepsGone<M>(s: State<M>, a: Action<M>)
    requires Inv(s) && s.writer.Failed? && Step(s, a).Some?
    ensures var t := Step(s, a).value; t.writer.Failed? && (AllGone(t.pollers) <==> AllGone(s.pollers))
  {
    forall c: Chan
      ensures Step(s, a).value.pollers.Get(c).Gone? <==> s.pollers.Get(c).Gone?
    {
      FailedStep(s, a, c);
    }
    GoneIsEach(s.pollers);
    GoneIsEach(Step(s, a).value.pollers);
  }

  lemma GoneIsEach<M>(p: PerChan<Poller<M>>)
    ensures AllGone(p) <==> p.Get(Iopub).Gone? && p.Get(Control).Gone? && p.Get(Stdin).Gone? && p.Get(Shell).Gone?
  {
  }

  lemma StuckStep<M>(s: State<M>, a: Action<M>)
    requires Ending(s) && !CanEnd(s) && Step(s, a).Some?
    ensures Ending(Step(s, a).value) && !CanEnd(Step(s, a).value)
  {
    StaysEnding(s, a);
    if s.writer.Failed? {
      FailedKeepsGone(s, a);
    } else {
      CrowdStep(s, a);
    }
  }

  lemma {:induction false} StuckRun<M>(s: State<M>, acts: seq<Action<M>>)
    requires Ending(s) && !CanEnd(s) && Run(s, acts).Some?
    ensures Ending(Run(s, acts).value) && !CanEnd(Run(s, acts).value)
  {
    if acts != [] {
      StuckRun(s, acts[..|acts| - 1]);
      StuckStep(Run(s, acts[..|acts| - 1]).value, acts[|acts| - 1]);
    }
  }

  function PollerWork<M>(p: Poller<M>): nat {
    match p
    case Sending(_) => 5
    case Receiving => 5
    case Top => 4
    case Leaving => 3
    case Uncounting => 2
    case Unlocking => 1
    case _ => 0
  }

  function PollersWork<M>(p: PerChan<Poller<M>>): nat {
    PollerWork(p.iopub) + PollerWork(p.control) + PollerWork(p.stdin) + PollerWork(p.shell)
  }

  function WriterWork<M>(w: Writer<M>): nat {
    match w
    case Waiting => 4
    case Took(_, _) => 3
    case Writing(_, _) => 2
    case Wrote => 1
    case _ => 0
  }

  function StopperWork(st: Stopper): nat {
    match st
    case StopHolding => 2
    case StopCalled => 1
    case Idle => 0
  }

  /** The steps that only callers of the connection begin: cancelling it, and stopping it. */
  predicate FromOutside<M>(a: Action<M>) {
    a.Cancel? || a.StopLock?
  }

  /** What is left to do until all pollers have ended and the mutex is free. */
  function Work<M>(s: State<M>): nat {
    PollersWork(s.pollers) + WriterWork(s.writer) + StopperWork(s.stopper)
  }

  lemma WorkPut<M>(p: PerChan<Poller<M>>, c: Chan, q: Poller<M>)
    ensures PollersWork(p.Put(c, q)) == PollersWork(p) - PollerWork(p.Get(c)) + PollerWork(q)
  {
  }

  /** Handing a message over brings the end closer. */
  lemma HandoffAdvances<M>(s: State<M>, c: Chan)
    requires s.writer.Waiting? && s.pollers.Get(c).Sending? && Senders(s.pollers) <= 1
    ensures var t := PollStep(s, Handoff(c), c);
      t.Some? && Work(t.value) < Work(s) && t.value.writer.Took? && Senders(t.value.pollers) == 0
  {
    WorkPut(s.pollers, c, Top);
    SendersPut(s.pollers, c, Top);
  }

  /** So does any other step of a poller, as long as it receives nothing. */
  lemma StepAdvances<M>(s: State<M>, a: Action<M>, c: Chan)
    requires PollStep(s, a, c).Some? && !a.Handoff? && !a.RecvOk? && !a.PollRecv?
    ensures var t := PollStep(s, a, c).value;
      Work(t) < Work(s) && t.writer == s.writer && Senders(t.pollers) == Senders(s.pollers)
  {
    var q := PollStep(s, a, c).value.pollers.Get(c);
    WorkPut(s.pollers, c, q);
    SendersPut(s.pollers, c, q);
  }

  /** The step a poller takes on its way to the end. */
  function TowardsEnd<M>(p: Poller<M>, c: Chan): Action<M> {
    match p
    case Top => PollCancelled(c)
    case Receiving => RecvErr(c)
    case Sending(_) => Handoff(c)
    case Leaving => PollLock(c)
    case Uncounting => PollDone(c)
    case _ => PollUnlock(c)
  }

  /** An enabled step of one poller that brings the end closer. */
  lemma PollerAdvances<M>(s: State<M>, c: Chan)
    requires s.cancelled && !s.writer.Failed? && Senders(s.pollers) <= Room(s.writer)
    requires s.pollers.Get(c) != Gone && s.pollers.Get(c) != Absent && s.pollers.Get(c) != Added
    requires s.pollers.Get(c) == Leaving ==> s.mu == Nobody
    ensures var t := PollStep(s, TowardsEnd(s.pollers.Get(c), c), c);
      t.Some? && Work(t.value) < Work(s) && CanEnd(t.value)
  {
    if s.pollers.Get(c).Sending? {
      HandoffAdvances(s, c);
    } else {
      StepAdvances(s, TowardsEnd(s.pollers.Get(c), c), c);
    }
  }

  lemma StartedWhole<M>(s: State<M>, c: Chan)
    requires StartedInOrder(s) && s.starter == Calling(4)
    ensures s.pollers.Get(c) != Absent && s.pollers.Get(c) != Added
  {
    assert StartedAt(s.starter, 0, s.pollers.Get(ChanAt(0))) && StartedAt(s.starter, 1, s.pollers.Get(ChanAt(1)));
    assert StartedAt(s.starter, 2, s.pollers.Get(ChanAt(2))) && StartedAt(s.starter, 3, s.pollers.Get(ChanAt(3)));
  }

  lemma WriterOrStopperAdvances<M>(s: State<M>) returns (a: Action<M>)
    requires Ending(s) && CanEnd(s) && !s.writer.Failed? && (s.mu == ByWriter || s.mu == ByStopper)
    requires Senders(s.pollers) <= Room(s.writer)
    ensures Step(s, a).Some? && Work(Step(s, a).value) < Work(s) && CanEnd(Step(s, a).value) && !FromOutside(a)
  {
    if s.mu == ByStopper {
      a := if s.stopper == StopHolding then StopCancel else StopUnlock;
    } else {
      a := if s.writer.Writing? then WriteOk else WriterUnlock;
    }
  }

  lemma StaysEnding<M>(s: State<M>, a: Action<M>)
    requires Ending(s) && Step(s, a).Some?
    ensures Ending(Step(s, a).value)
  {
    StepKeepsInv(s, a);
  }

  /** While the pollers can end and have not, some step brings the end closer. */
  lemma Advance<M>(s: State<M>) returns (a: Action<M>)
    requires Ending(s) && CanEnd(s) && !AllGone(s.pollers)
    ensures Step(s, a).Some? && Work(Step(s, a).value) < Work(s) && !FromOutside(a)
    ensures Ending(Step(s, a).value) && CanEnd(Step(s, a).value)
  {
    if s.mu == ByWriter || s.mu == ByStopper {
      a := WriterOrStopperAdvances(s);
    } else {
      var c := Movable(s);
      a := TowardsEnd(s.pollers.Get(c), c);
      StartedWhole(s, c);
      PollerAdvances(s, c);
      assert Step(s, a) == PollStep(s, a, c);
    }
    StaysEnding(s, a);
  }

  /** A poller that can move: the owner of the mutex if it is one, otherwise any that has not ended. */
  lemma Movable<M>(s: State<M>) returns (c: Chan)
    requires Ending(s) && !AllGone(s.pollers) && s.mu != ByWriter && s.mu != ByStopper
    ensures s.pollers.Get(c) != Gone && (s.pollers.Get(c) == Leaving ==> s.mu == Nobody)
  {
    if s.mu.ByPoller? {
      c := s.mu.c;
      assert s.pollers.Get(c).Uncounting? || s.pollers.Get(c).Unlocking?;
    } else {
      c := if !s.pollers.iopub.Gone? then Iopub else if !s.pollers.control.Gone? then Control
           else if !s.pollers.stdin.Gone? then Stdin else Shell;
    }
  }

  lemma {:induction false} RunFrom<M>(s: State<M>, a: Action<M>, acts: seq<Action<M>>)
    requires Step(s, a).Some?
    ensures Run(s, [a] + acts) == Run(Step(s, a).value, acts)
  {
    if acts == [] {
      RunThen(s, [], a);
      assert [] + [a] == [a] + acts;
    } else {
      var front, last := acts[..|acts| - 1], acts[|acts| - 1];
      RunFrom(s, a, front);
      RunThen(s, [a] + front, last);
      assert [a] + acts == [a] + front + [last];
    }
  }

  lemma {:induction false} EndReached<M>(s: State<M>) returns (acts: seq<Action<M>>)
    requires Ending(s) && CanEnd(s)
    ensures Ends(s, acts)
    decreases Work(s)
  {
    if AllGone(s.pollers) {
      acts := [];
    } else {
      var a := Advance(s);
      var rest := EndReached(Step(s, a).value);
      RunFrom(s, a, rest);
      acts := [a] + rest;
    }
  }

  /** After cancellation a schedule that ends all pollers exists exactly when they have all ended
      already, or the writer has not failed and at most as many pollers hold a message as the writer
      still takes: one if it is waiting for one, otherwise none. */
  lemma PollersCanEnd<M>(s: State<M>)
    requires Ending(s)
    ensures (exists acts :: Ends(s, acts)) <==> CanEnd(s)
  {
    if CanEnd(s) {
      var acts := EndReached(s);
    } else {
      forall acts | Run(s, acts).Some?
        ensures !Ends(s, acts)
      {
        StuckRun(s, acts);
      }
    }
  }

  /** The same of every state that a run reaches. */
  lemma RunCanEnd<M>(acts: seq<Action<M>>)
    requires Run(Init<M>(), acts).Some?
    requires Run(Init<M>(), acts).value.cancelled && Run(Init<M>(), acts).value.starter == Calling(4)
    ensures var s := Run(Init<M>(), acts).value; (exists more :: Ends(s, more)) <==> CanEnd(s)
  {
    RunKeepsInv(acts);
    PollersCanEnd(Run(Init<M>(), acts).value);
  }
}
