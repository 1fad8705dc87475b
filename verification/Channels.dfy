/** channels.go as a system of atomic steps: the goroutine that starts the pollers, the four
    pollers, the one websocket writer, cancellation, and `stopPolling`. They share the unbuffered
    channel `Send`, the mutex `mu`, the counter of `pollingWait` and the cancelled context.
    A message stands for what `Deserialize` made of one received frame list. */
module Channels {
  import opened Options

  datatype Chan = Iopub | Control | Stdin | Shell

  /** One value per polled channel. */
  datatype PerChan<T> = PerChan(iopub: T, control: T, stdin: T, shell: T) {
    function Get(c: Chan): T {
      match c
      case Iopub => iopub
      case Control => control
      case Stdin => stdin
      case Shell => shell
    }

    function Put(c: Chan, value: T): (r: PerChan<T>)
      ensures r.Get(c) == value
      ensures forall d: Chan :: d != c ==> r.Get(d) == Get(d)
    {
      match c
      case Iopub => this.(iopub := value)
      case Control => this.(control := value)
      case Stdin => this.(stdin := value)
      case Shell => this.(shell := value)
    }
  }

  /** The order in which `startPolling` calls `pollChannel`. */
  function ChanAt(n: nat): Chan
    requires n < 4
  {
    if n == 0 then Iopub else if n == 1 then Control else if n == 2 then Stdin else Shell
  }

  // ---------- Program points ----------

  /** The starting goroutine, inside its call number `next` of `pollChannel`. */
  datatype Starter =
    | Calling(next: nat)   // about to take mu
    | Holding(next: nat)   // has mu, about to Add(1)
    | Counted(next: nat)   // has mu, about to release it
    | Spawning(next: nat)  // about to start the goroutine

  datatype Poller<M> =
    | Absent
    | Added                // counted, not running yet
    | Top                  // at the select statement
    | Receiving            // in socket.Recv
    | Sending(msg: M)      // blocked on Send <- msg
    | Leaving              // saw the cancelled context, wants mu
    | Uncounting           // has mu, about to Done()
    | Unlocking            // has mu, done
    | Gone

  datatype Writer<M> =
    | NotYet
    | WTop                      // at the select statement
    | Waiting                   // blocked on <-Send
    | Took(c: Chan, msg: M)     // wants mu
    | Writing(c: Chan, msg: M)  // has mu, in Conn.WriteMessage
    | Wrote                     // has mu, about to release it
    | Failed(c: Chan, msg: M)   // returned on a write error, with mu still held
    | Left                      // returned on the cancelled context

  datatype Stopper = Idle | StopHolding | StopCalled

  datatype Owner = Nobody | ByStarter | ByPoller(c: Chan) | ByWriter | ByStopper

  datatype State<M> = State(
    starter: Starter, pollers: PerChan<Poller<M>>, writer: Writer<M>, stopper: Stopper,
    mu: Owner, pollingWait: int, cancelled: bool,
    received: PerChan<seq<M>>,   // history: messages received on each channel
    log: seq<(Chan, M)>)         // history: messages written to the websocket

  function Init<M>(): State<M> {
    State(Calling(0), PerChan(Absent, Absent, Absent, Absent), NotYet, Idle, Nobody, 0, false, PerChan([], [], [], []), [])
  }

  datatype Action<M> =
    | StartLock | StartAdd | StartUnlock | StartSpawn | StartWriter
    | PollCancelled(c: Chan) | PollRecv(c: Chan) | RecvOk(c: Chan, m: M) | RecvErr(c: Chan)
    | Handoff(c: Chan) | PollLock(c: Chan) | PollDone(c: Chan) | PollUnlock(c: Chan)
    | WriterCancelled | WriterWait | WriterLock | WriteOk | WriteErr | WriterUnlock
    | Cancel | StopLock | StopCancel | StopUnlock

  // ---------- Steps ----------

  function StartStep<M>(s: State<M>, a: Action<M>): Option<State<M>> {
    match (a, s.starter)
    case (StartLock, Calling(n)) =>
      if n < 4 && s.mu == Nobody then Some(s.(starter := Holding(n), mu := ByStarter)) else None
    case (StartAdd, Holding(n)) =>
      if n < 4 then Some(s.(starter := Counted(n), pollingWait := s.pollingWait + 1, pollers := s.pollers.Put(ChanAt(n), Added)))
      else None
    case (StartUnlock, Counted(n)) =>
      Some(s.(starter := Spawning(n), mu := Nobody))
    case (StartSpawn, Spawning(n)) =>
      if n < 4 && s.pollers.Get(ChanAt(n)) == Added
      then Some(s.(starter := Calling(n + 1), pollers := s.pollers.Put(ChanAt(n), Top))) else None
    case (StartWriter, Calling(n)) =>
      if n == 4 && s.writer == NotYet then Some(s.(writer := WTop)) else None
    case _ => None
  }

  function PollStep<M>(s: State<M>, a: Action<M>, c: Chan): Option<State<M>> {
    match (a, s.pollers.Get(c))
    case (PollCancelled(_), Top) =>
      if s.cancelled then Some(s.(pollers := s.pollers.Put(c, Leaving))) else None
    case (PollRecv(_), Top) =>
      if !s.cancelled then Some(s.(pollers := s.pollers.Put(c, Receiving))) else None
    case (RecvOk(_, m), Receiving) =>
      Some(s.(pollers := s.pollers.Put(c, Sending(m)), received := s.received.Put(c, s.received.Get(c) + [m])))
    case (RecvErr(_), Receiving) =>
      Some(s.(pollers := s.pollers.Put(c, Top)))
    case (Handoff(_), Sending(m)) =>
      if s.writer == Waiting then Some(s.(pollers := s.pollers.Put(c, Top), writer := Took(c, m))) else None
    case (PollLock(_), Leaving) =>
      if s.mu == Nobody then Some(s.(pollers := s.pollers.Put(c, Uncounting), mu := ByPoller(c))) else None
    case (PollDone(_), Uncounting) =>
      Some(s.(pollers := s.pollers.Put(c, Unlocking), pollingWait := s.pollingWait - 1))
    case (PollUnlock(_), Unlocking) =>
      Some(s.(pollers := s.pollers.Put(c, Gone), mu := Nobody))
    case _ => None
  }

  function WriteStep<M>(s: State<M>, a: Action<M>): Option<State<M>> {
    match (a, s.writer)
    case (WriterCancelled, WTop) => if s.cancelled then Some(s.(writer := Left)) else None
    case (WriterWait, WTop) => if !s.cancelled then Some(s.(writer := Waiting)) else None
    case (WriterLock, Took(c, m)) =>
      if s.mu == Nobody then Some(s.(writer := Writing(c, m), mu := ByWriter)) else None
    case (WriteOk, Writing(c, m)) => Some(s.(writer := Wrote, log := s.log + [(c, m)]))
    case (WriteErr, Writing(c, m)) => Some(s.(writer := Failed(c, m)))
    case (WriterUnlock, Wrote) => Some(s.(writer := WTop, mu := Nobody))
    case _ => None
  }

  function StopStep<M>(s: State<M>, a: Action<M>): Option<State<M>> {
    match (a, s.stopper)
    case (Cancel, _) => Some(s.(cancelled := true))
    case (StopLock, Idle) => if s.mu == Nobody then Some(s.(stopper := StopHolding, mu := ByStopper)) else None
    case (StopCancel, StopHolding) => Some(s.(stopper := StopCalled, cancelled := true))
    case (StopUnlock, StopCalled) => Some(s.(stopper := Idle, mu := Nobody))
    case _ => None
  }

  /** One atomic step; `None` when the action is not enabled. */
  function Step<M>(s: State<M>, a: Action<M>): Option<State<M>> {
    match a
    case StartLock | StartAdd | StartUnlock | StartSpawn | StartWriter => StartStep(s, a)
    case PollCancelled(c) => PollStep(s, a, c)
    case PollRecv(c) => PollStep(s, a, c)
    case RecvOk(c, _) => PollStep(s, a, c)
    case RecvErr(c) => PollStep(s, a, c)
    case Handoff(c) => PollStep(s, a, c)
    case PollLock(c) => PollStep(s, a, c)
    case PollDone(c) => PollStep(s, a, c)
    case PollUnlock(c) => PollStep(s, a, c)
    case WriterCancelled | WriterWait | WriterLock | WriteOk | WriteErr | WriterUnlock => WriteStep(s, a)
    case Cancel | StopLock | StopCancel | StopUnlock => StopStep(s, a)
  }

  /** A run: any interleaving of enabled actions. */
  function Run<M>(s: State<M>, acts: seq<Action<M>>): Option<State<M>> {
    if acts == [] then Some(s) else Then(Run(s, acts[..|acts| - 1]), acts[|acts| - 1])
  }

  function Then<M>(before: Option<State<M>>, a: Action<M>): Option<State<M>> {
    if before.None? then None else Step(before.value, a)
  }

  lemma RunThen<M>(s: State<M>, acts: seq<Action<M>>, a: Action<M>)
    ensures Run(s, acts + [a]) == Then(Run(s, acts), a)
  {
    assert (acts + [a])[..|acts|] == acts;
  }

  // ---------- What every reachable state satisfies ----------

  function WrittenOn<M>(log: seq<(Chan, M)>, c: Chan): seq<M> {
    if log == [] then []
    else WrittenOn(log[..|log| - 1], c) + if log[|log| - 1].0 == c then [log[|log| - 1].1] else []
  }

  function HeldByWriter<M>(w: Writer<M>, c: Chan): seq<M> {
    match w
    case Took(d, m) => if d == c then [m] else []
    case Writing(d, m) => if d == c then [m] else []
    case Failed(d, m) => if d == c then [m] else []
    case _ => []
  }

  function HeldByPoller<M>(p: Poller<M>): seq<M> {
    if p.Sending? then [p.msg] else []
  }

  /** Nothing is lost, duplicated or reordered on any channel. */
  ghost predicate Conserved<M>(s: State<M>) {
    forall c: Chan :: ConservedOn(s, c)
  }

  ghost predicate ConservedOn<M>(s: State<M>, c: Chan) {
    Accounted(s.log, s.writer, s.pollers.Get(c), c) == s.received.Get(c)
  }

  /** The messages of a channel that are written or in somebody's hands, oldest first. */
  function Accounted<M>(log: seq<(Chan, M)>, w: Writer<M>, p: Poller<M>, c: Chan): seq<M> {
    WrittenOn(log, c) + HeldByWriter(w, c) + HeldByPoller(p)
  }

  function IsCounted<M>(p: Poller<M>): int {
    if p.Absent? || p.Unlocking? || p.Gone? then 0 else 1
  }

  function CountedPollers<M>(p: PerChan<Poller<M>>): int {
    IsCounted(p.iopub) + IsCounted(p.control) + IsCounted(p.stdin) + IsCounted(p.shell)
  }

  /** The counter of `pollingWait` is the number of pollers counted in and not yet out. */
  predicate CountAgrees<M>(s: State<M>) {
    s.pollingWait == CountedPollers(s.pollers)
  }

  /** The pollers the starter has reached: those before its current call run, the current one is
      counted but not running, later ones do not exist; the writer comes after all of them. */
  predicate StartedInOrder<M>(s: State<M>) {
    && 0 <= s.starter.next <= 4
    && (s.starter.next == 4 ==> s.starter.Calling?)
    && (s.writer != NotYet ==> s.starter == Calling(4))
    && forall i: nat :: i < 4 ==> StartedAt(s.starter, i, s.pollers.Get(ChanAt(i)))
  }

  predicate StartedAt<M>(starter: Starter, i: nat, p: Poller<M>) {
    if i < starter.next then p != Absent && p != Added
    else if i == starter.next && (starter.Counted? || starter.Spawning?) then p == Added
    else p == Absent
  }

  /** The owner of `mu` is the one goroutine at a program point between Lock and Unlock. */
  ghost predicate MutexAgrees<M>(s: State<M>) {
    && (s.mu == ByStarter <==> s.starter.Holding? || s.starter.Counted?)
    && (forall c: Chan :: s.mu == ByPoller(c) <==> s.pollers.Get(c).Uncounting? || s.pollers.Get(c).Unlocking?)
    && (s.mu == ByWriter <==> s.writer.Writing? || s.writer.Wrote? || s.writer.Failed?)
    && (s.mu == ByStopper <==> s.stopper != Idle)
  }

  ghost predicate Inv<M>(s: State<M>) {
    Conserved(s) && StartedInOrder(s) && MutexAgrees(s) && CountAgrees(s)
  }

  /** Nothing between what was written and what the poller holds. */
  lemma Regroup<M>(w: seq<M>, x: seq<M>, p: seq<M>)
    ensures w + x + [] == w + x && w + [] + x == w + x && (w + x) + [] + p == w + x + p
  {
  }

  /** A message goes from the poller's hands into the writer's. */
  lemma HandoffConserves<M>(s: State<M>, d: Chan, c: Chan)
    requires ConservedOn(s, c) && PollStep(s, Handoff(d), d).Some?
    ensures ConservedOn(PollStep(s, Handoff(d), d).value, c)
  {
    var t, w, m := PollStep(s, Handoff(d), d).value, WrittenOn(s.log, c), s.pollers.Get(d).msg;
    assert HeldByWriter(s.writer, c) == [] && t.log == s.log && t.received == s.received;
    if d == c {
      assert HeldByWriter(t.writer, c) == [m] && HeldByPoller(t.pollers.Get(c)) == [];
      Regroup(w, [m], []);
    } else {
      assert HeldByWriter(t.writer, c) == [] && t.pollers.Get(c) == s.pollers.Get(c);
    }
  }

  /** A received message is in the poller's hands. */
  lemma RecvConserves<M>(s: State<M>, d: Chan, m: M, c: Chan)
    requires ConservedOn(s, c) && PollStep(s, RecvOk(d, m), d).Some?
    ensures ConservedOn(PollStep(s, RecvOk(d, m), d).value, c)
  {
    var t, w, h := PollStep(s, RecvOk(d, m), d).value, WrittenOn(s.log, c), HeldByWriter(s.writer, c);
    assert t.log == s.log && t.writer == s.writer;
    if d == c {
      assert HeldByPoller(s.pollers.Get(c)) == [] && HeldByPoller(t.pollers.Get(c)) == [m];
      assert t.received.Get(c) == s.received.Get(c) + [m];
      Regroup(w, h, []);
    } else {
      assert t.received.Get(c) == s.received.Get(c) && t.pollers.Get(c) == s.pollers.Get(c);
    }
  }

  predicate Moves<M>(a: Action<M>) {
    a.Handoff? || a.RecvOk?
  }

  /** Any other step of a poller moves no message. */
  lemma PollMovesNothing<M>(s: State<M>, a: Action<M>, d: Chan, c: Chan)
    requires PollStep(s, a, d).Some? && !Moves(a)
    ensures var t := PollStep(s, a, d).value;
      t.log == s.log && t.writer == s.writer && t.received == s.received &&
      HeldByPoller(t.pollers.Get(c)) == HeldByPoller(s.pollers.Get(c))
  {
  }

  lemma PollConserves<M>(s: State<M>, a: Action<M>, d: Chan, c: Chan)
    requires ConservedOn(s, c) && PollStep(s, a, d).Some? && (Moves(a) ==> a.c == d)
    ensures ConservedOn(PollStep(s, a, d).value, c)
  {
    match a
    case Handoff(_) => HandoffConserves(s, d, c);
    case RecvOk(_, m) => RecvConserves(s, d, m, c);
    case _ => PollMovesNothing(s, a, d, c);
  }

  /** A written message leaves the writer's hands for the log. */
  lemma WrittenStaysAccounted<M>(log: seq<(Chan, M)>, d: Chan, m: M, p: Poller<M>, c: Chan)
    ensures Accounted(log + [(d, m)], Wrote, p, c) == Accounted(log, Writing(d, m), p, c)
  {
    var h: seq<M> := if d == c then [m] else [];
    WrittenOneMore(log, d, m, c);
    Regroup(WrittenOn(log, c), h, HeldByPoller(p));
  }

  lemma WriteOkConserves<M>(s: State<M>, c: Chan)
    requires ConservedOn(s, c) && WriteStep(s, WriteOk).Some?
    ensures ConservedOn(WriteStep(s, WriteOk).value, c)
  {
    WrittenStaysAccounted(s.log, s.writer.c, s.writer.msg, s.pollers.Get(c), c);
  }

  lemma WriteMovesNothing<M>(s: State<M>, a: Action<M>, c: Chan)
    requires WriteStep(s, a).Some? && !a.WriteOk?
    ensures var t := WriteStep(s, a).value;
      t.log == s.log && t.pollers == s.pollers && t.received == s.received && HeldByWriter(t.writer, c) == HeldByWriter(s.writer, c)
  {
  }

  lemma WriteConserves<M>(s: State<M>, a: Action<M>, c: Chan)
    requires ConservedOn(s, c) && WriteStep(s, a).Some?
    ensures ConservedOn(WriteStep(s, a).value, c)
  {
    if a.WriteOk? {
      WriteOkConserves(s, c);
    } else {
      WriteMovesNothing(s, a, c);
    }
  }

  lemma WrittenOneMore<M>(log: seq<(Chan, M)>, d: Chan, m: M, c: Chan)
    ensures WrittenOn(log + [(d, m)], c) == WrittenOn(log, c) + if d == c then [m] else []
  {
    assert (log + [(d, m)])[..|log|] == log;
  }

  lemma StepConserves<M>(s: State<M>, a: Action<M>)
    requires Conserved(s) && StartedInOrder(s) && Step(s, a).Some?
    ensures Conserved(Step(s, a).value)
  {
    forall c: Chan
      ensures ConservedOn(Step(s, a).value, c)
    {
      assert ConservedOn(s, c);
      if StartStep(s, a).Some? {
        StartMovesNothing(s, a, c);
      } else if WriteStep(s, a).Some? {
        WriteConserves(s, a, c);
      } else {
        forall d | PollStep(s, a, d).Some? && (Moves(a) ==> a.c == d)
          ensures ConservedOn(PollStep(s, a, d).value, c)
        {
          PollConserves(s, a, d, c);
        }
      }
    }
  }

  lemma StartMovesNothing<M>(s: State<M>, a: Action<M>, c: Chan)
    requires StartedInOrder(s) && StartStep(s, a).Some?
    ensures var t := StartStep(s, a).value;
      t.log == s.log && t.received == s.received && HeldByWriter(t.writer, c) == HeldByWriter(s.writer, c) &&
      HeldByPoller(t.pollers.Get(c)) == HeldByPoller(s.pollers.Get(c))
  {
    if s.starter.next < 4 {
      assert StartedAt(s.starter, s.starter.next, s.pollers.Get(ChanAt(s.starter.next)));
    }
  }

  lemma StepKeepsOrder<M>(s: State<M>, a: Action<M>)
    requires StartedInOrder(s) && Step(s, a).Some?
    ensures StartedInOrder(Step(s, a).value)
  {
    var t := Step(s, a).value;
    forall i: nat | i < 4
      ensures StartedAt(t.starter, i, t.pollers.Get(ChanAt(i)))
    {
      assert StartedAt(s.starter, i, s.pollers.Get(ChanAt(i)));
    }
  }

  lemma PutCounts<M>(p: PerChan<Poller<M>>, c: Chan, q: Poller<M>)
    ensures CountedPollers(p.Put(c, q)) == CountedPollers(p) - IsCounted(p.Get(c)) + IsCounted(q)
  {
  }

  lemma StepCounts<M>(s: State<M>, a: Action<M>)
    requires StartedInOrder(s) && CountAgrees(s) && Step(s, a).Some?
    ensures CountAgrees(Step(s, a).value)
  {
    if StartStep(s, a).Some? {
      StartCounts(s, a);
    } else {
      forall c | PollStep(s, a, c).Some?
        ensures CountAgrees(PollStep(s, a, c).value)
      {
        PollCounts(s, a, c);
      }
    }
  }

  lemma StartCounts<M>(s: State<M>, a: Action<M>)
    requires StartedInOrder(s) && CountAgrees(s) && StartStep(s, a).Some?
    ensures CountAgrees(StartStep(s, a).value)
  {
    var n := s.starter.next;
    if n < 4 {
      assert StartedAt(s.starter, n, s.pollers.Get(ChanAt(n)));
      PutCounts(s.pollers, ChanAt(n), Added);
      PutCounts(s.pollers, ChanAt(n), Top);
    }
  }

  lemma PollCounts<M>(s: State<M>, a: Action<M>, c: Chan)
    requires CountAgrees(s) && PollStep(s, a, c).Some?
    ensures CountAgrees(PollStep(s, a, c).value)
  {
    PutCounts(s.pollers, c, PollStep(s, a, c).value.pollers.Get(c));
  }

  lemma PollKeepsMutex<M>(s: State<M>, a: Action<M>, c: Chan)
    requires MutexAgrees(s) && PollStep(s, a, c).Some?
    ensures MutexAgrees(PollStep(s, a, c).value)
  {
  }

  lemma StepKeepsMutex<M>(s: State<M>, a: Action<M>)
    requires StartedInOrder(s) && MutexAgrees(s) && Step(s, a).Some?
    ensures MutexAgrees(Step(s, a).value)
  {
    if StartStep(s, a).Some? {
      assert s.starter.next < 4 ==> StartedAt(s.starter, s.starter.next, s.pollers.Get(ChanAt(s.starter.next)));
    } else {
      forall c | PollStep(s, a, c).Some?
        ensures MutexAgrees(PollStep(s, a, c).value)
      {
        PollKeepsMutex(s, a, c);
      }
    }
  }

  lemma StepKeepsInv<M>(s: State<M>, a: Action<M>)
    requires Inv(s) && Step(s, a).Some?
    ensures Inv(Step(s, a).value)
  {
    StepConserves(s, a);
    StepKeepsOrder(s, a);
    StepCounts(s, a);
    StepKeepsMutex(s, a);
  }

  lemma {:induction false} RunKeepsInv<M>(acts: seq<Action<M>>)
    requires Run(Init<M>(), acts).Some?
    ensures Inv(Run(Init<M>(), acts).value)
  {
    if acts != [] {
      RunKeepsInv(acts[..|acts| - 1]);
      StepKeepsInv(Run(Init<M>(), acts[..|acts| - 1]).value, acts[|acts| - 1]);
    }
  }

  // ---------- What that means for the client ----------

  /** On each channel the client has been sent a prefix of what was received, in order, and is at
      most two messages behind. */
  lemma WrittenIsPrefix<M>(acts: seq<Action<M>>, c: Chan)
    requires Run(Init<M>(), acts).Some?
    ensures var s := Run(Init<M>(), acts).value;
      WrittenOn(s.log, c) <= s.received.Get(c) && |s.received.Get(c)| <= |WrittenOn(s.log, c)| + 2
  {
    RunKeepsInv(acts);
    assert ConservedOn(Run(Init<M>(), acts).value, c);
  }

  function Total<M>(r: PerChan<seq<M>>): nat {
    |r.iopub| + |r.control| + |r.stdin| + |r.shell|
  }

  lemma LogSplits<M>(log: seq<(Chan, M)>)
    ensures |log| == |WrittenOn(log, Iopub)| + |WrittenOn(log, Control)| + |WrittenOn(log, Stdin)| + |WrittenOn(log, Shell)|
  {
  }

  /** Over all channels together at most five received messages are unwritten. */
  lemma AtMostFiveUnwritten<M>(acts: seq<Action<M>>)
    requires Run(Init<M>(), acts).Some?
    ensures var s := Run(Init<M>(), acts).value; |s.log| <= Total(s.received) <= |s.log| + 5
  {
    var s := Run(Init<M>(), acts).value;
    RunKeepsInv(acts);
    LogSplits(s.log);
    LengthOn(s, Iopub);
    LengthOn(s, Control);
    LengthOn(s, Stdin);
    LengthOn(s, Shell);
    WriterHoldsOne(s.writer);
  }

  lemma LengthOn<M>(s: State<M>, c: Chan)
    requires Conserved(s)
    ensures |WrittenOn(s.log, c)| + |HeldByWriter(s.writer, c)| <= |s.received.Get(c)| <= |WrittenOn(s.log, c)| + |HeldByWriter(s.writer, c)| + 1
  {
    assert ConservedOn(s, c);
  }

  lemma WriterHoldsOne<M>(w: Writer<M>)
    ensures |HeldByWriter(w, Iopub)| + |HeldByWriter(w, Control)| + |HeldByWriter(w, Stdin)| + |HeldByWriter(w, Shell)| <= 1
  {
  }

  /** One more action at the end of a run. */
  lemma Extend<M>(acts: seq<Action<M>>, s: State<M>, a: Action<M>) returns (longer: seq<Action<M>>, t: State<M>)
    requires Run(Init<M>(), acts) == Some(s) && Step(s, a).Some?
    ensures Run(Init<M>(), longer) == Some(t) && Some(t) == Step(s, a)
  {
    longer, t := acts + [a], Step(s, a).value;
    RunThen(Init<M>(), acts, a);
  }

  lemma ExtendTo<M>(acts: seq<Action<M>>, s: State<M>, a: Action<M>, t: State<M>) returns (longer: seq<Action<M>>)
    requires Run(Init<M>(), acts) == Some(s) && Step(s, a) == Some(t)
    ensures Run(Init<M>(), longer) == Some(t)
  {
    longer := acts + [a];
    RunThen(Init<M>(), acts, a);
  }

  lemma CountSteps<M>(s: State<M>, held: State<M>, t: State<M>, n: nat)
    requires n < 4 && s.starter == Calling(n) && s.mu == Nobody
    requires held == s.(starter := Holding(n), mu := ByStarter)
    requires t == held.(starter := Counted(n), pollers := s.pollers.Put(ChanAt(n), Added), pollingWait := s.pollingWait + 1)
    ensures Step(s, StartLock) == Some(held) && Step(held, StartAdd) == Some(t)
  {
  }

  /** The first half of a call of `pollChannel`: the poller is counted under the mutex. */
  lemma CountPoller<M>(acts: seq<Action<M>>, s: State<M>, n: nat) returns (longer: seq<Action<M>>, t: State<M>)
    requires Run(Init<M>(), acts) == Some(s) && n < 4 && s.starter == Calling(n) && s.mu == Nobody
    ensures Run(Init<M>(), longer) == Some(t)
    ensures t == s.(starter := Counted(n), mu := ByStarter, pollers := s.pollers.Put(ChanAt(n), Added), pollingWait := s.pollingWait + 1)
  {
    var held := s.(starter := Holding(n), mu := ByStarter);
    t := held.(starter := Counted(n), pollers := s.pollers.Put(ChanAt(n), Added), pollingWait := s.pollingWait + 1);
    CountSteps(s, held, t, n);
    longer := ExtendTo(acts, s, StartLock, held);
    longer := ExtendTo(longer, held, StartAdd, t);
  }

  lemma SpawnSteps<M>(s: State<M>, spawning: State<M>, t: State<M>, n: nat)
    requires n < 4 && s.starter == Counted(n) && s.pollers.Get(ChanAt(n)) == Added
    requires spawning == s.(starter := Spawning(n), mu := Nobody)
    requires t == spawning.(starter := Calling(n + 1), pollers := s.pollers.Put(ChanAt(n), Top))
    ensures Step(s, StartUnlock) == Some(spawning) && Step(spawning, StartSpawn) == Some(t)
  {
  }

  /** The second half: it is started. */
  lemma SpawnPoller<M>(acts: seq<Action<M>>, s: State<M>, n: nat) returns (longer: seq<Action<M>>, t: State<M>)
    requires Run(Init<M>(), acts) == Some(s) && n < 4 && s.starter == Counted(n) && s.pollers.Get(ChanAt(n)) == Added
    ensures Run(Init<M>(), longer) == Some(t)
    ensures t == s.(starter := Calling(n + 1), mu := Nobody, pollers := s.pollers.Put(ChanAt(n), Top))
  {
    var spawning := s.(starter := Spawning(n), mu := Nobody);
    t := spawning.(starter := Calling(n + 1), pollers := s.pollers.Put(ChanAt(n), Top));
    SpawnSteps(s, spawning, t, n);
    longer := ExtendTo(acts, s, StartUnlock, spawning);
    longer := ExtendTo(longer, spawning, StartSpawn, t);
  }

  lemma StartPoller<M>(acts: seq<Action<M>>, s: State<M>, n: nat) returns (longer: seq<Action<M>>, t: State<M>)
    requires Run(Init<M>(), acts) == Some(s) && n < 4 && s.starter == Calling(n) && s.mu == Nobody
    ensures Run(Init<M>(), longer) == Some(t)
    ensures t == s.(starter := Calling(n + 1), pollers := s.pollers.Put(ChanAt(n), Top), pollingWait := s.pollingWait + 1)
  {
    var counted;
    longer, counted := CountPoller(acts, s, n);
    longer, t := SpawnPoller(longer, counted, n);
    PutTwice(s.pollers, ChanAt(n), Added, Top);
  }

  lemma PutTwice<T>(p: PerChan<T>, c: Chan, x: T, y: T)
    ensures p.Put(c, x).Put(c, y) == p.Put(c, y)
  {
  }

  lemma ReceiveOne<M>(acts: seq<Action<M>>, s: State<M>, c: Chan, m: M) returns (longer: seq<Action<M>>, t: State<M>)
    requires Run(Init<M>(), acts) == Some(s) && s.pollers.Get(c) == Top && !s.cancelled
    ensures Run(Init<M>(), longer) == Some(t)
    ensures t == s.(pollers := s.pollers.Put(c, Sending(m)), received := s.received.Put(c, s.received.Get(c) + [m]))
  {
    longer, t := Extend(acts, s, PollRecv(c));
    longer, t := Extend(longer, t, RecvOk(c, m));
  }

  /** A run in which everything has started and the writer waits for a message. */
  lemma AllStarted<M>() returns (acts: seq<Action<M>>, s: State<M>)
    ensures Run(Init<M>(), acts) == Some(s)
    ensures s == Init<M>().(starter := Calling(4), pollers := PerChan(Top, Top, Top, Top), writer := Waiting, pollingWait := 4)
  {
    acts, s := StartPoller([], Init<M>(), 0);
    acts, s := StartPoller(acts, s, 1);
    acts, s := StartPoller(acts, s, 2);
    acts, s := StartPoller(acts, s, 3);
    acts, s := Extend(acts, s, StartWriter);
    acts, s := Extend(acts, s, WriterWait);
  }

  /** Each poller receives one message and is left holding it. */
  lemma AllReceive<M>(acts: seq<Action<M>>, s: State<M>, m: M) returns (longer: seq<Action<M>>, t: State<M>)
    requires Run(Init<M>(), acts) == Some(s) && !s.cancelled && s.pollers == PerChan(Top, Top, Top, Top)
    ensures Run(Init<M>(), longer) == Some(t)
    ensures t == s.(pollers := PerChan(Sending(m), Sending(m), Sending(m), Sending(m)), received := t.received)
    ensures Total(t.received) == Total(s.received) + 4
  {
    longer, t := ReceiveOne(acts, s, Iopub, m);
    longer, t := ReceiveOne(longer, t, Control, m);
    longer, t := ReceiveOne(longer, t, Stdin, m);
    longer, t := ReceiveOne(longer, t, Shell, m);
  }

  /** Five unwritten messages do occur: one in the hands of the writer and one in those of each poller. */
  lemma FiveUnwrittenOccur<M>(m: M) returns (acts: seq<Action<M>>)
    ensures Run(Init<M>(), acts).Some?
    ensures var s := Run(Init<M>(), acts).value; Total(s.received) == |s.log| + 5
  {
    var s: State<M>;
    acts, s := AllStarted();
    acts, s := ReceiveOne(acts, s, Iopub, m);
    acts, s := Extend(acts, s, Handoff(Iopub));
    acts, s := AllReceive(acts, s, m);
  }

  /** Once the writer is started the counter of `pollingWait` is the number of pollers still running,
      so waiting for it would mean all four have ended. */
  lemma WaitGroupZero<M>(acts: seq<Action<M>>)
    requires Run(Init<M>(), acts).Some?
    ensures var s := Run(Init<M>(), acts).value;
      && 0 <= s.pollingWait <= 4
      && (s.starter == Calling(4) ==>
        (s.pollingWait == 0 <==> forall c: Chan :: s.pollers.Get(c).Unlocking? || s.pollers.Get(c).Gone?))
  {
    var s := Run(Init<M>(), acts).value;
    RunKeepsInv(acts);
    if s.starter == Calling(4) {
      assert StartedAt(s.starter, 0, s.pollers.Get(ChanAt(0))) && StartedAt(s.starter, 1, s.pollers.Get(ChanAt(1)));
      assert StartedAt(s.starter, 2, s.pollers.Get(ChanAt(2))) && StartedAt(s.starter, 3, s.pollers.Get(ChanAt(3)));
      if s.pollingWait == 0 {
        forall c: Chan
          ensures s.pollers.Get(c).Unlocking? || s.pollers.Get(c).Gone?
        {
        }
      } else {
        assert exists c: Chan :: IsCounted(s.pollers.Get(c)) == 1;
      }
    }
  }

  // ---------- After cancellation ----------

  /** Receives still possible on `c` once the context is cancelled. */
  function RecvLeft<M>(s: State<M>, c: Chan): nat {
    if s.pollers.Get(c).Receiving? then 1 else 0
  }

  function WritesLeft<M>(w: Writer<M>): nat {
    if w.Waiting? || w.Took? || w.Writing? then 1 else 0
  }

  lemma CancelledPoll<M>(s: State<M>, a: Action<M>, c: Chan, d: Chan)
    requires s.cancelled && PollStep(s, a, d).Some?
    ensures var t := PollStep(s, a, d).value;
      |t.received.Get(c)| + RecvLeft(t, c) <= |s.received.Get(c)| + RecvLeft(s, c)
  {
  }

  lemma CancelledStep<M>(s: State<M>, a: Action<M>, c: Chan)
    requires s.cancelled && StartedInOrder(s) && Step(s, a).Some?
    ensures var t := Step(s, a).value;
      && t.cancelled
      && |t.received.Get(c)| + RecvLeft(t, c) <= |s.received.Get(c)| + RecvLeft(s, c)
      && (s.starter == Calling(4) && s.writer != NotYet ==>
        t.starter == s.starter && t.writer != NotYet && |t.log| + WritesLeft(t.writer) <= |s.log| + WritesLeft(s.writer))
  {
    forall d | PollStep(s, a, d).Some?
      ensures var t := PollStep(s, a, d).value;
        |t.received.Get(c)| + RecvLeft(t, c) <= |s.received.Get(c)| + RecvLeft(s, c)
    {
      CancelledPoll(s, a, c, d);
    }
  }

  /** After cancellation each channel receives at most one more message, and a running writer
      writes at most one more, whatever the schedule. */
  lemma {:induction false} CancelledRun<M>(s: State<M>, acts: seq<Action<M>>, c: Chan)
    requires s.cancelled && StartedInOrder(s) && Run(s, acts).Some?
    ensures var t := Run(s, acts).value;
      && t.cancelled && StartedInOrder(t)
      && |t.received.Get(c)| + RecvLeft(t, c) <= |s.received.Get(c)| + RecvLeft(s, c)
      && (s.starter == Calling(4) && s.writer != NotYet ==>
        t.starter == s.starter && t.writer != NotYet && |t.log| + WritesLeft(t.writer) <= |s.log| + WritesLeft(s.writer))
  {
    if acts != [] {
      CancelledRun(s, acts[..|acts| - 1], c);
      var before := Run(s, acts[..|acts| - 1]).value;
      CancelledStep(before, acts[|acts| - 1], c);
      StepKeepsOrder(before, acts[|acts| - 1]);
    }
  }
}
