/** Nobody ends before cancellation, and which received messages can still be written. */
module Delivery {
  import opened Options
  import opened Channels
  import Shutdown

  /** Absent, about to start, or in its loop. */
  predicate Loops<M>(p: Poller<M>) {
    p.Absent? || p.Added? || p.Top? || p.Receiving? || p.Sending?
  }

  /** Before cancellation no poller is on its way out and the writer has not left. */
  ghost predicate Running<M>(s: State<M>) {
    !s.cancelled ==> !s.writer.Left? && !s.stopper.StopCalled? && forall c: Chan :: Loops(s.pollers.Get(c))
  }

  lemma StepKeepsRunning<M>(s: State<M>, a: Action<M>)
    requires Running(s) && Step(s, a).Some?
    ensures Running(Step(s, a).value)
  {
    var t := Step(s, a).value;
    if !t.cancelled {
      forall c: Chan
        ensures Loops(t.pollers.Get(c))
      {
        assert Loops(s.pollers.Get(c));
      }
    }
  }

  /** In every run pollers and writer end only after cancellation, whatever receives bring; until then all
      started pollers are counted. */
  lemma {:induction false} NobodyEndsBefore<M>(acts: seq<Action<M>>)
    requires Run(Init<M>(), acts).Some?
    ensures Running(Run(Init<M>(), acts).value)
  {
    if acts != [] {
      NobodyEndsBefore(acts[..|acts| - 1]);
      StepKeepsRunning(Run(Init<M>(), acts[..|acts| - 1]).value, acts[|acts| - 1]);
    }
  }

  predicate Started<M>(p: Poller<M>) {
    !p.Absent? && !p.Added?
  }

  /** In every run the pollers start in this order: iopub, control, stdin, shell; and the writer last. */
  lemma StartedInTurn<M>(acts: seq<Action<M>>)
    requires Run(Init<M>(), acts).Some?
    ensures var s := Run(Init<M>(), acts).value;
      && (!s.pollers.control.Absent? ==> Started(s.pollers.iopub))
      && (!s.pollers.stdin.Absent? ==> Started(s.pollers.control))
      && (!s.pollers.shell.Absent? ==> Started(s.pollers.stdin))
      && (s.writer != NotYet ==> Started(s.pollers.shell))
  {
    RunKeepsInv(acts);
    var s := Run(Init<M>(), acts).value;
    assert StartedAt(s.starter, 0, s.pollers.Get(ChanAt(0))) && StartedAt(s.starter, 1, s.pollers.Get(ChanAt(1)));
    assert StartedAt(s.starter, 2, s.pollers.Get(ChanAt(2))) && StartedAt(s.starter, 3, s.pollers.Get(ChanAt(3)));
  }

  // ---------- Which held messages can still be written ----------

  /** All pollers are started, and the state is one of those that runs reach. */
  ghost predicate UnderWay<M>(s: State<M>) {
    Inv(s) && Running(s) && s.starter == Calling(4)
  }

  /** The writer will get back to the channel: it waits for a message, or nothing is cancelled and it need
      not wait for a stopper that is about to cancel. */
  predicate Deliverable<M>(s: State<M>) {
    || s.writer.Waiting?
    || (!s.cancelled && !s.writer.Failed? && !(s.writer.Took? && s.stopper.StopHolding?))
  }

  /** All that was received on the channel in `s` is written at the end of the run. */
  ghost predicate WritesAll<M>(s: State<M>, acts: seq<Action<M>>, c: Chan) {
    Run(s, acts).Some? && s.received.Get(c) <= WrittenOn(Run(s, acts).value.log, c)
  }

  function ToRelease<M>(s: State<M>): nat {
    match s.mu
    case ByPoller(d) => if s.pollers.Get(d).Uncounting? then 2 else 1
    case ByStopper => if s.stopper.StopHolding? then 2 else 1
    case _ => 0
  }

  /** A taken message can be written: whoever has the mutex can release it. */
  lemma WriteTaken<M>(s: State<M>, c: Chan, m: M) returns (acts: seq<Action<M>>)
    requires UnderWay(s) && s.writer == Took(c, m)
    ensures Run(s, acts).Some? && Run(s, acts).value.log == s.log + [(c, m)]
    decreases ToRelease(s)
  {
    var a := Release(s);
    StepKeepsInv(s, a);
    StepKeepsRunning(s, a);
    if a.WriterLock? {
      acts := [a] + [WriteOk];
      Shutdown.RunFrom(s, a, [WriteOk]);
      RunOne(Step(s, a).value, WriteOk);
    } else {
      var rest := WriteTaken(Step(s, a).value, c, m);
      Shutdown.RunFrom(s, a, rest);
      acts := [a] + rest;
    }
  }

  lemma RunOne<M>(s: State<M>, a: Action<M>)
    ensures Run(s, [a]) == Step(s, a)
  {
    RunThen(s, [], a);
    assert [] + [a] == [a];
  }

  /** The step that locks the mutex or brings its owner closer to releasing it. */
  lemma Release<M>(s: State<M>) returns (a: Action<M>)
    requires UnderWay(s) && s.writer.Took?
    ensures Step(s, a).Some? && Step(s, a).value.starter == s.starter && Step(s, a).value.log == s.log
    ensures a.WriterLock? ==> Step(s, a).value.writer == Writing(s.writer.c, s.writer.msg)
    ensures !a.WriterLock? ==> Step(s, a).value.writer == s.writer && ToRelease(Step(s, a).value) < ToRelease(s)
  {
    match s.mu
    case Nobody => a := WriterLock;
    case ByPoller(d) => a := if s.pollers.Get(d).Uncounting? then PollDone(d) else PollUnlock(d);
    case ByStopper => a := if s.stopper.StopHolding? then StopCancel else StopUnlock;
  }

  function ToWait<M>(w: Writer<M>): nat {
    match w
    case Took(_, _) => 4
    case Writing(_, _) => 3
    case Wrote => 2
    case WTop => 1
    case NotYet => 2
    case _ => 0
  }

  /** The step that brings the writer closer to waiting. */
  lemma Approach<M>(s: State<M>) returns (a: Action<M>)
    requires UnderWay(s) && Deliverable(s) && !s.writer.Waiting?
    ensures Step(s, a).Some? && UnderWay(Step(s, a).value) && Deliverable(Step(s, a).value)
    ensures ToWait(Step(s, a).value.writer) < ToWait(s.writer)
    ensures Step(s, a).value.pollers == s.pollers && Step(s, a).value.received == s.received
  {
    match s.writer {
      case NotYet => a := StartWriter;
      case WTop => a := WriterWait;
      case Took(_, _) => a := WriterLock;
      case Writing(_, _) => a := WriteOk;
      case Wrote => a := WriterUnlock;
    }
    assert forall c: Chan :: s.mu == ByPoller(c) ==> Loops(s.pollers.Get(c));
    StepKeepsInv(s, a);
    StepKeepsRunning(s, a);
  }

  lemma {:induction false} Deliver<M>(s: State<M>, c: Chan) returns (acts: seq<Action<M>>)
    requires UnderWay(s) && Deliverable(s) && s.pollers.Get(c).Sending?
    ensures WritesAll(s, acts, c)
    decreases ToWait(s.writer)
  {
    if s.writer.Waiting? {
      acts := HandOver(s, c);
    } else {
      var a := Approach(s);
      var rest := Deliver(Step(s, a).value, c);
      Shutdown.RunFrom(s, a, rest);
      acts := [a] + rest;
    }
  }

  lemma HandOver<M>(s: State<M>, c: Chan) returns (acts: seq<Action<M>>)
    requires UnderWay(s) && s.writer.Waiting? && s.pollers.Get(c).Sending?
    ensures WritesAll(s, acts, c)
  {
    var m := s.pollers.Get(c).msg;
    var t := Step(s, Handoff(c)).value;
    StepKeepsInv(s, Handoff(c));
    StepKeepsRunning(s, Handoff(c));
    var rest := WriteTaken(t, c, m);
    Shutdown.RunFrom(s, Handoff(c), rest);
    acts := [Handoff(c)] + rest;
    assert ConservedOn(t, c) && t.received == s.received;
    assert (t.log + [(c, m)])[..|t.log|] == t.log;
    Regroup(WrittenOn(t.log, c), [m], []);
  }

  /** A message that cannot be delivered stays where it is. */
  lemma {:induction false} StaysHeld<M>(s: State<M>, acts: seq<Action<M>>, c: Chan)
    requires UnderWay(s) && !Deliverable(s) && s.pollers.Get(c).Sending? && Run(s, acts).Some?
    ensures var t := Run(s, acts).value;
      UnderWay(t) && !Deliverable(t) && t.pollers.Get(c) == s.pollers.Get(c) && t.received.Get(c) == s.received.Get(c)
  {
    if acts != [] {
      var before, a := Run(s, acts[..|acts| - 1]).value, acts[|acts| - 1];
      StaysHeld(s, acts[..|acts| - 1], c);
      StepKeepsInv(before, a);
      StepKeepsRunning(before, a);
      HeldStep(before, a, c);
    }
  }

  lemma HeldStep<M>(s: State<M>, a: Action<M>, c: Chan)
    requires UnderWay(s) && !Deliverable(s) && s.pollers.Get(c).Sending? && Step(s, a).Some?
    ensures var t := Step(s, a).value;
      && t.starter == s.starter && !Deliverable(t)
      && t.pollers.Get(c) == s.pollers.Get(c) && t.received.Get(c) == s.received.Get(c)
  {
  }

  /** What a poller holds can be written, with all that was received before it, exactly when the writer
      waits, or nothing is cancelled, no write has failed, and the writer does not hold a message while a
      stopper about to cancel has the mutex. */
  lemma DeliverableIff<M>(s: State<M>, c: Chan)
    requires UnderWay(s) && s.pollers.Get(c).Sending?
    ensures (exists acts :: WritesAll(s, acts, c)) <==> Deliverable(s)
  {
    if Deliverable(s) {
      var acts := Deliver(s, c);
    } else {
      forall acts | Run(s, acts).Some?
        ensures !WritesAll(s, acts, c)
      {
        StaysHeld(s, acts, c);
        assert ConservedOn(Run(s, acts).value, c);
      }
    }
  }

  /** The same of every state that a run from the start reaches. */
  lemma RunDelivers<M>(acts: seq<Action<M>>, c: Chan)
    requires Run(Init<M>(), acts).Some?
    requires var s := Run(Init<M>(), acts).value; s.starter == Calling(4) && s.pollers.Get(c).Sending?
    ensures var s := Run(Init<M>(), acts).value;
      (exists more :: WritesAll(s, more, c)) <==> Deliverable(s)
  {
    RunKeepsInv(acts);
    NobodyEndsBefore(acts);
    DeliverableIff(Run(Init<M>(), acts).value, c);
  }
}
