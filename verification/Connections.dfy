/** What overlapping deletes and connects do to websocket connections: which are dropped without being
    cancelled, and which can never be cancelled any more. */
module Connections {
  import opened Options
  import Ports
  import opened Registry

  /** In every run a delete request that finds a connection to remove removes another one than it has
      cancelled exactly when a connection was stored for that kernel after it read the map. */
  lemma DropsAnotherIffStoredSince(acts: seq<Action>, r: nat)
    requires Run(INITIAL, acts).Some?
    requires var s := Run(INITIAL, acts).value; r in s.deletes && s.deletes[r].kernelId in s.connections
    ensures var s := Run(INITIAL, acts).value;
      var d := s.deletes[r];
      s.connections[d.kernelId] != d.connection <==> StoredSince(s.stored, d.since, d.kernelId)
  {
    RunKeepsInv(acts);
    var s := Run(INITIAL, acts).value;
    assert DeletionOk(s.deletes[r], s.connections, s.pending, s.stored, s.connects);
  }

  // ---------- Connections beyond reach ----------

  /** A delete request still has to cancel connection `n`. */
  ghost predicate ToBeCancelled(n: nat, deletes: map<nat, Deletion>) {
    exists r :: r in deletes && !deletes[r].called && deletes[r].connection.number == n
  }

  ghost predicate IsStored(n: nat, connections: map<string, Connection>) {
    exists k :: k in connections && connections[k].number == n
  }

  /** Opened, never cancelled, and known neither to the map nor to any request. */
  ghost predicate Lost(s: State, n: nat) {
    n < s.connects && n !in s.cancelled && n !in s.pending && !IsStored(n, s.connections) && !ToBeCancelled(n, s.deletes)
  }

  predicate AboutConnections(a: Action) {
    a.BeginConnect? || a.FinishConnect? || a.BeginDelete? || a.CancelConnection? || a.DropConnection?
  }

  predicate SameConnections(s: State, t: State) {
    && t.connects == s.connects && t.cancelled == s.cancelled && t.pending == s.pending
    && t.connections == s.connections && t.deletes == s.deletes
  }

  lemma CreateKeepsConnections(s: State, request: Session, sid: string, kid: string, key: string)
    requires BeginCreateStep(s, request, sid, kid, key).Some?
    ensures SameConnections(s, BeginCreateStep(s, request, sid, kid, key).value)
  {
  }

  lemma ClaimKeepsConnections(s: State, kid: string, tries: seq<Ports.Attempt>)
    requires ClaimStep(s, kid, tries).Some?
    ensures SameConnections(s, ClaimStep(s, kid, tries).value)
  {
  }

  lemma LaunchKeepsConnections(s: State, kid: string, failed: bool, pid: int)
    requires LaunchStep(s, kid, failed, pid).Some?
    ensures SameConnections(s, LaunchStep(s, kid, failed, pid).value)
  {
  }

  lemma OtherSteps(s: State, a: Action)
    requires !AboutConnections(a) && Step(s, a).Some?
    ensures SameConnections(s, Step(s, a).value)
  {
    match a
    case BeginCreate(request, sid, kid, key) => CreateKeepsConnections(s, request, sid, kid, key);
    case ClaimPort(kid, tries) => ClaimKeepsConnections(s, kid, tries);
    case LaunchResult(kid, failed, pid) => LaunchKeepsConnections(s, kid, failed, pid);
    case _ =>
  }

  lemma LostStep(s: State, a: Action, n: nat)
    requires Inv(s) && Lost(s, n) && Step(s, a).Some?
    ensures Lost(Step(s, a).value, n)
  {
    if AboutConnections(a) {
      LostAmongConnections(s, a, n);
    } else {
      OtherSteps(s, a);
    }
  }

  lemma LostAmongConnections(s: State, a: Action, n: nat)
    requires Inv(s) && Lost(s, n) && AboutConnections(a) && Step(s, a).Some?
    ensures Lost(Step(s, a).value, n)
  {
    match a
    case BeginConnect(kid, upgraded) => LostAtConnect(s, kid, upgraded, n);
    case FinishConnect(number) => LostAtStore(s, number, n);
    case BeginDelete(r, kid) => LostAtRead(s, r, kid, n);
    case CancelConnection(r) => LostAtCancel(s, r, n);
    case DropConnection(r) => LostAtDrop(s, r, n);
  }

  lemma LostAtConnect(s: State, kid: string, upgraded: bool, n: nat)
    requires Lost(s, n) && ConnectStep(s, kid, upgraded).Some?
    ensures Lost(ConnectStep(s, kid, upgraded).value, n)
  {
  }

  lemma LostAtCancel(s: State, r: nat, n: nat)
    requires Lost(s, n) && CancelStep(s, r).Some?
    ensures Lost(CancelStep(s, r).value, n)
  {
    assert s.deletes[r].connection.number != n;
  }

  lemma LostAtDrop(s: State, r: nat, n: nat)
    requires Lost(s, n) && DropStep(s, r).Some?
    ensures Lost(DropStep(s, r).value, n)
  {
  }

  lemma LostAtStore(s: State, number: nat, n: nat)
    requires Inv(s) && Lost(s, n) && StoreStep(s, number).Some?
    ensures Lost(StoreStep(s, number).value, n)
  {
    assert s.pending[number].number == number;
  }

  lemma LostAtRead(s: State, r: nat, kid: string, n: nat)
    requires Lost(s, n) && BeginDeleteStep(s, r, kid).Some?
    ensures Lost(BeginDeleteStep(s, r, kid).value, n)
  {
    assert kid in s.connections ==> s.connections[kid].number != n;
  }

  lemma {:induction false} LostForEver(s: State, acts: seq<Action>, n: nat)
    requires Inv(s) && Lost(s, n) && Run(s, acts).Some?
    ensures Inv(Run(s, acts).value) && Lost(Run(s, acts).value, n)
  {
    if acts != [] {
      var before, a := Run(s, acts[..|acts| - 1]).value, acts[|acts| - 1];
      LostForEver(s, acts[..|acts| - 1], n);
      StepKeepsInv(before, a);
      LostStep(before, a, n);
    }
  }

  ghost predicate Cancels(s: State, acts: seq<Action>, n: nat) {
    Run(s, acts).Some? && n in Run(s, acts).value.cancelled
  }

  /** A number no delete request uses. */
  lemma FreshRequest(used: set<nat>) returns (r: nat)
    ensures r !in used
    ensures forall q :: q in used ==> q < r
    decreases used
  {
    if used == {} {
      r := 0;
    } else {
      var q :| q in used;
      var n := FreshRequest(used - {q});
      r := if q < n then n else q + 1;
      assert used == used - {q} + {q};
    }
  }

  lemma RunOne(s: State, a: Action)
    ensures Run(s, [a]) == Step(s, a)
  {
    RunThen(s, [], a);
    assert [] + [a] == [a];
  }

  lemma RunTwo(s: State, a: Action, b: Action)
    ensures Run(s, [a, b]) == Then(Step(s, a), b)
  {
    RunOne(s, a);
    RunThen(s, [a], b);
    assert [a] + [b] == [a, b];
  }

  lemma RunThree(s: State, a: Action, b: Action, c: Action)
    ensures Run(s, [a, b, c]) == Then(Then(Step(s, a), b), c)
  {
    RunTwo(s, a, b);
    RunThen(s, [a, b], c);
    assert [a, b] + [c] == [a, b, c];
  }

  /** A stored connection can be cancelled by one more delete request. */
  lemma StoredCanBeCancelled(s: State, k: string) returns (acts: seq<Action>)
    requires Inv(s) && k in s.connections
    ensures Cancels(s, acts, s.connections[k].number)
  {
    var r := FreshRequest(s.deletes.Keys);
    RunTwo(s, BeginDelete(r, k), CancelConnection(r));
    acts := [BeginDelete(r, k), CancelConnection(r)];
  }

  lemma PendingCanBeCancelled(s: State, n: nat) returns (acts: seq<Action>)
    requires Inv(s) && n in s.pending
    ensures Cancels(s, acts, n)
  {
    var k := s.pending[n].kernelId;
    var r := FreshRequest(s.deletes.Keys);
    RunThree(s, FinishConnect(n), BeginDelete(r, k), CancelConnection(r));
    acts := [FinishConnect(n), BeginDelete(r, k), CancelConnection(r)];
  }

  /** An opened connection can still be, or has been, cancelled exactly when it is not lost. */
  lemma CancelPossible(s: State, n: nat)
    requires Inv(s) && n < s.connects
    ensures (exists acts :: Cancels(s, acts, n)) <==> !Lost(s, n)
  {
    if Lost(s, n) {
      forall acts | Run(s, acts).Some?
        ensures !Cancels(s, acts, n)
      {
        LostForEver(s, acts, n);
      }
    } else if n in s.cancelled {
      assert Cancels(s, [], n);
    } else if n in s.pending {
      var acts := PendingCanBeCancelled(s, n);
    } else if k :| k in s.connections && s.connections[k].number == n {
      var acts := StoredCanBeCancelled(s, k);
    } else {
      var r :| r in s.deletes && !s.deletes[r].called && s.deletes[r].connection.number == n;
      RunOne(s, CancelConnection(r));
      assert Cancels(s, [CancelConnection(r)], n);
    }
  }

  // ---------- A delete that loses a connection ----------

  lemma Extend(acts: seq<Action>, s: State, a: Action) returns (longer: seq<Action>, t: State)
    requires Run(INITIAL, acts) == Some(s) && Step(s, a).Some?
    ensures Run(INITIAL, longer) == Some(t) && Some(t) == Step(s, a)
  {
    longer, t := acts + [a], Step(s, a).value;
    RunNext(INITIAL, acts, s, a);
  }

  /** One claim that gets port `p`. */
  lemma ClaimOne(acts: seq<Action>, s: State, kid: string, p: int) returns (longer: seq<Action>, t: State)
    requires Run(INITIAL, acts) == Some(s) && kid in s.launching && s.launching[kid].claimed < 5
    requires 5000 <= p < 6000 && p !in s.used
    ensures Run(INITIAL, longer) == Some(t) && t.used == s.used + [p]
    ensures kid in t.launching && t.launching[kid].done == s.launching[kid].done && t.launching[kid].sessionId == s.launching[kid].sessionId
    ensures t.launching[kid].claimed == s.launching[kid].claimed + 1
    ensures SameConnections(s, t)
  {
    var tries := seq(100, _ => Ports.Attempt(p, true));
    assert Ports.Claimable(tries[0], s.used);
    assert Ports.Found(tries, s.used) == Some(p);
    longer, t := Extend(acts, s, ClaimPort(kid, tries));
  }

  /** A run in which the launch of kernel "k" for session "s" has claimed its five ports. */
  lemma LaunchUnderWay(request: Session) returns (acts: seq<Action>, s: State)
    ensures Run(INITIAL, acts) == Some(s) && SameConnections(INITIAL, s)
    ensures "k" in s.launching && s.launching["k"].claimed == 5 && !s.launching["k"].done && s.launching["k"].sessionId == "s"
  {
    assert Run(INITIAL, []) == Some(INITIAL);
    acts, s := Extend([], INITIAL, BeginCreate(request, "s", "k", ""));
    acts, s := ClaimOne(acts, s, "k", 5000);
    acts, s := ClaimOne(acts, s, "k", 5001);
    acts, s := ClaimOne(acts, s, "k", 5002);
    acts, s := ClaimOne(acts, s, "k", 5003);
    acts, s := ClaimOne(acts, s, "k", 5004);
  }

  /** A run after which kernel "k" is active for session "s" and nothing has connected. */
  lemma SessionRuns(request: Session) returns (acts: seq<Action>, s: State)
    ensures Run(INITIAL, acts) == Some(s) && SameConnections(INITIAL, s) && "k" in s.active && "s" in s.sessions
  {
    acts, s := LaunchUnderWay(request);
    acts, s := Extend(acts, s, LaunchResult("k", false, 1));
    acts, s := Extend(acts, s, FinishCreate("k"));
  }

  /** A client with session "s" connects to kernel "k". */
  lemma ConnectsAgain(acts: seq<Action>, s: State) returns (longer: seq<Action>, t: State)
    requires Run(INITIAL, acts) == Some(s) && "k" in s.active && "s" in s.sessions && s.pending == map[]
    ensures Run(INITIAL, longer) == Some(t) && "k" in t.active && "s" in t.sessions && t.pending == map[]
    ensures t.connects == s.connects + 1 && "k" in t.connections && t.connections["k"].number == s.connects
    ensures t.connections == s.connections["k" := t.connections["k"]] && t.deletes == s.deletes && t.cancelled == s.cancelled
  {
    longer, t := Extend(acts, s, FindSession("s"));
    longer, t := Extend(longer, t, BeginConnect("k", true));
    longer, t := Extend(longer, t, FinishConnect(s.connects));
  }

  /** A run in which connection 1 is stored while a delete that has read connection 0 is under way. */
  lemma ConnectDuringDelete(request: Session) returns (acts: seq<Action>, s: State)
    ensures Run(INITIAL, acts) == Some(s) && s.connects == 2 && s.pending == map[] && s.cancelled == {}
    ensures "s" in s.sessions && s.connections.Keys == {"k"} && s.connections["k"].number == 1
    ensures s.deletes.Keys == {0} && s.deletes[0].kernelId == "k" && !s.deletes[0].called && s.deletes[0].connection.number == 0
  {
    acts, s := SessionRuns(request);
    acts, s := ConnectsAgain(acts, s);
    acts, s := Extend(acts, s, BeginDelete(0, "k"));
    acts, s := ConnectsAgain(acts, s);
  }

  /** A run in which a client connects between the read and the removal of a delete: its connection is
      removed, and neither it nor any later request can cancel it. */
  lemma DeleteMayLose(request: Session) returns (acts: seq<Action>)
    ensures Run(INITIAL, acts).Some? && Inv(Run(INITIAL, acts).value) && Lost(Run(INITIAL, acts).value, 1)
    ensures "s" in Run(INITIAL, acts).value.sessions
  {
    var s: State;
    acts, s := ConnectDuringDelete(request);
    acts, s := Extend(acts, s, CancelConnection(0));
    acts, s := Extend(acts, s, DropConnection(0));
    RunKeepsInv(acts);
  }
}
