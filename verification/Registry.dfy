/** The server's global registries as a system of atomic steps: sessions (session_manager.go),
    active kernels (kernel_supervisor.go, kernel_manager.go), ports (utils.go) and websocket
    connections (kernel_websocket_handler.go). Launches and connection requests overlap freely. */
module Registry {
  import opened Options
  import opened Ports

  datatype ConnectionInfo = ConnectionInfo(
    transport: string, ip: string, shellPort: int, iopubPort: int, stdinPort: int, hbPort: int, controlPort: int)
  {
    /** The port fields, in the order in which `preLaunch` fills them. */
    function PortAt(slot: nat): int
      requires slot < 5
    {
      if slot == 0 then shellPort else if slot == 1 then iopubPort else if slot == 2 then stdinPort
      else if slot == 3 then hbPort else controlPort
    }

    function WithPort(slot: nat, port: int): (r: ConnectionInfo)
      requires slot < 5
      ensures r.PortAt(slot) == port
      ensures forall t: nat :: t < 5 && t != slot ==> r.PortAt(t) == PortAt(t)
    {
      if slot == 0 then this.(shellPort := port) else if slot == 1 then this.(iopubPort := port)
      else if slot == 2 then this.(stdinPort := port) else if slot == 3 then this.(hbPort := port)
      else this.(controlPort := port)
    }
  }

  /** A Go struct: stored and handed on by value. */
  datatype KernelManager = KernelManager(
    kernelId: string, kernelName: string, sessionKey: string, cachePorts: bool,
    attemptedStart: bool, ready: bool, shuttingDown: bool, pid: int, connectionInfo: ConnectionInfo)

  function CreateKernelManager(kernelName: string, kernelId: string, sessionKey: string): KernelManager {
    KernelManager(kernelId, kernelName, sessionKey, true, false, false, false, 0, ConnectionInfo("tcp", "127.0.0.1", 0, 0, 0, 0, 0))
  }

  datatype Session = Session(id: string, path: string, name: string, sessionType: string, kernelId: string, kernelName: string)

  /** A session creation that has launched its kernel process or is about to: `claimed` ports so far. */
  datatype Launch = Launch(request: Session, sessionId: string, km: KernelManager, claimed: nat, done: bool)

  /** `number` tells apart the connections made for one kernel. */
  datatype Connection = Connection(number: nat, kernelId: string, manager: KernelManager)

  /** A delete request that has read `connection` from the map: `called` once it has cancelled it;
      `since` is how many connections had been stored when it read. */
  datatype Deletion = Deletion(kernelId: string, connection: Connection, called: bool, since: nat)

  datatype Claim = Claim(kernelId: string, slot: nat, port: int)

  datatype State = State(
    used: seq<int>,
    sessions: map<string, Session>,
    active: map<string, KernelManager>,
    connections: map<string, Connection>,
    launching: map<string, Launch>,     // launches under way, by kernel id
    admitted: nat,                      // connection requests that have found their session, not yet the kernel
    pending: map<nat, Connection>,      // upgraded requests whose connection is not stored yet
    deletes: map<nat, Deletion>,        // delete requests under way, by request number
    issued: set<string>,                // history: uuids handed out
    started: map<string, KernelManager>,// history: every manager that was stored as active
    claims: seq<Claim>,                 // history: who claimed each listed port
    cancelled: set<nat>,                // history: connections whose context was cancelled
    stored: seq<Connection>,            // history: connections put into the map, in order
    connects: nat)                      // history: connections opened so far

  const INITIAL := State([], map[], map[], map[], map[], 0, map[], map[], {}, map[], [], {}, [], 0)

  datatype Action =
    | BeginCreate(request: Session, sessionId: string, kernelId: string, sessionKey: string)
    | ClaimPort(kernelId: string, tries: seq<Attempt>)
    | LaunchResult(kernelId: string, failed: bool, pid: int)
    | FinishCreate(kernelId: string)
    | DeleteSession(id: string)
    | KillKernel(kernelId: string)
    | FindSession(sessionId: string)
    | BeginConnect(kernelId: string, upgraded: bool)
    | FinishConnect(number: nat)
    | BeginDelete(deletion: nat, kernelId: string)
    | CancelConnection(deletion: nat)
    | DropConnection(deletion: nat)

  /** A creation draws new uuids; for a known session it changes nothing else. */
  function BeginCreateStep(s: State, request: Session, sid: string, kid: string, key: string): Option<State> {
    if sid in s.issued || kid in s.issued || sid == kid then None
    else if request.id in s.sessions then Some(s.(issued := s.issued + {sid}))
    else
      var km := CreateKernelManager(request.kernelName, kid, key).(attemptedStart := true);
      Some(s.(issued := s.issued + {sid, kid}, launching := s.launching[kid := Launch(request, sid, km, 0, false)]))
  }

  /** One call of `findAvailablePort`; without luck the field is set to 0. */
  function ClaimStep(s: State, kid: string, tries: seq<Attempt>): Option<State> {
    if kid !in s.launching || s.launching[kid].claimed >= 5 || !Search(tries) then None
    else
      var l := s.launching[kid];
      var p := Found(tries, s.used);
      var port := if p.Some? then p.value else 0;
      var km := l.km.(connectionInfo := l.km.connectionInfo.WithPort(l.claimed, port));
      Some(s.(used := Allocated(s.used, tries),
              claims := if p.Some? then s.claims + [Claim(kid, l.claimed, port)] else s.claims,
              launching := s.launching[kid := l.(km := km, claimed := l.claimed + 1)]))
  }

  /** The process starts and the manager is stored, or the launch fails and is forgotten, ports and all. */
  function LaunchStep(s: State, kid: string, failed: bool, pid: int): Option<State> {
    if kid !in s.launching || s.launching[kid].claimed != 5 || s.launching[kid].done then None
    else if failed then Some(s.(launching := s.launching - {kid}))
    else
      var l := s.launching[kid];
      var km := l.km.(pid := pid, ready := true);
      Some(s.(active := s.active[kid := km], started := s.started[kid := km],
              launching := s.launching[kid := l.(km := km, done := true)]))
  }

  function NewSession(l: Launch): Session {
    Session(l.sessionId, l.request.path, l.request.name, l.request.sessionType, l.km.kernelId, l.request.kernelName)
  }

  function FinishCreateStep(s: State, kid: string): Option<State> {
    if kid !in s.launching || !s.launching[kid].done then None
    else
      var l := s.launching[kid];
      Some(s.(sessions := s.sessions[l.sessionId := NewSession(l)], launching := s.launching - {kid}))
  }

  /** A connection request looks up its session and goes on only if it is there. */
  function FindSessionStep(s: State, sid: string): State {
    if sid in s.sessions then s.(admitted := s.admitted + 1) else s
  }

  /** A connection request that has found its session reads the kernel's manager. */
  function ConnectStep(s: State, kid: string, upgraded: bool): Option<State> {
    if s.admitted == 0 then None
    else if kid in s.active && upgraded then
      Some(s.(admitted := s.admitted - 1, connects := s.connects + 1,
              pending := s.pending[s.connects := Connection(s.connects, kid, s.active[kid])]))
    else Some(s.(admitted := s.admitted - 1))
  }

  function StoreStep(s: State, number: nat): Option<State> {
    if number !in s.pending then None
    else
      var c := s.pending[number];
      Some(s.(connections := s.connections[c.kernelId := c], pending := s.pending - {number}, stored := s.stored + [c]))
  }

  /** The delete handler reads the kernel's connection; without one it panics and changes nothing. */
  function BeginDeleteStep(s: State, r: nat, kid: string): Option<State> {
    if r in s.deletes then None
    else if kid !in s.connections then Some(s)
    else Some(s.(deletes := s.deletes[r := Deletion(kid, s.connections[kid], false, |s.stored|)]))
  }

  /** It cancels the connection it has read, ... */
  function CancelStep(s: State, r: nat): Option<State> {
    if r !in s.deletes || s.deletes[r].called then None
    else
      var d := s.deletes[r];
      Some(s.(cancelled := s.cancelled + {d.connection.number}, deletes := s.deletes[r := d.(called := true)]))
  }

  /** ... and removes whatever is then stored for the kernel. */
  function DropStep(s: State, r: nat): Option<State> {
    if r !in s.deletes || !s.deletes[r].called then None
    else Some(s.(connections := s.connections - {s.deletes[r].kernelId}, deletes := s.deletes - {r}))
  }

  function Step(s: State, a: Action): Option<State> {
    match a
    case BeginCreate(request, sid, kid, key) => BeginCreateStep(s, request, sid, kid, key)
    case ClaimPort(kid, tries) => ClaimStep(s, kid, tries)
    case LaunchResult(kid, failed, pid) => LaunchStep(s, kid, failed, pid)
    case FinishCreate(kid) => FinishCreateStep(s, kid)
    case DeleteSession(id) => Some(s.(sessions := s.sessions - {id}))
    case KillKernel(kid) => Some(s.(active := s.active - {kid}))
    case FindSession(sid) => Some(FindSessionStep(s, sid))
    case BeginConnect(kid, upgraded) => ConnectStep(s, kid, upgraded)
    case FinishConnect(number) => StoreStep(s, number)
    case BeginDelete(r, kid) => BeginDeleteStep(s, r, kid)
    case CancelConnection(r) => CancelStep(s, r)
    case DropConnection(r) => DropStep(s, r)
  }

  function Then(before: Option<State>, a: Action): Option<State> {
    if before.None? then None else Step(before.value, a)
  }

  /** Any interleaving of enabled steps. */
  function Run(s: State, acts: seq<Action>): Option<State> {
    if acts == [] then Some(s) else Then(Run(s, acts[..|acts| - 1]), acts[|acts| - 1])
  }

  lemma RunThen(s: State, acts: seq<Action>, a: Action)
    ensures Run(s, acts + [a]) == Then(Run(s, acts), a)
  {
    assert (acts + [a])[..|acts|] == acts;
  }

  lemma RunNext(s: State, acts: seq<Action>, t: State, a: Action)
    requires Run(s, acts) == Some(t)
    ensures Run(s, acts + [a]) == Step(t, a)
  {
    RunThen(s, acts, a);
  }

  // ---------- Invariants ----------

  /** A session sits under its own id; its kernel was started and is no longer being launched. */
  ghost predicate SessionOk(sid: string, se: Session, issued: set<string>, started: set<string>, launching: set<string>) {
    se.id == sid && sid in issued && se.kernelId in issued && se.kernelId in started && se.kernelId !in launching
  }

  /** No two sessions share a kernel. */
  ghost predicate SessionsInv(sessions: map<string, Session>, issued: set<string>, started: set<string>, launching: set<string>) {
    && (forall sid :: sid in sessions ==> SessionOk(sid, sessions[sid], issued, started, launching))
    && (forall a, b :: a in sessions && b in sessions && a != b ==> sessions[a].kernelId != sessions[b].kernelId)
  }

  ghost predicate LaunchOk(k: string, l: Launch, sessions: set<string>, issued: set<string>, started: map<string, KernelManager>) {
    && l.km.kernelId == k && !l.km.shuttingDown && k in issued
    && l.sessionId in issued && l.sessionId !in sessions
    && l.claimed <= 5
    && (forall t: nat :: l.claimed <= t < 5 ==> l.km.connectionInfo.PortAt(t) == 0)
    && if l.done then l.claimed == 5 && k in started && started[k] == l.km else k !in started
  }

  ghost predicate LaunchesInv(launching: map<string, Launch>, sessions: set<string>, issued: set<string>, started: map<string, KernelManager>) {
    && (forall k :: k in launching ==> LaunchOk(k, launching[k], sessions, issued, started))
    && (forall j, k :: j in launching && k in launching && j != k ==> launching[j].sessionId != launching[k].sessionId)
  }

  ghost predicate StartedOk(k: string, km: KernelManager, issued: set<string>) {
    km.kernelId == k && km.ready && !km.shuttingDown && k in issued
  }

  /** A stored manager is the very value its kernel was started with: under its own id, ready, and
      not shutting down. */
  ghost predicate KernelsInv(active: map<string, KernelManager>, started: map<string, KernelManager>, issued: set<string>) {
    && (forall k :: k in started ==> StartedOk(k, started[k], issued))
    && (forall k :: k in active ==> k in started && active[k] == started[k])
  }

  ghost predicate ConnectionOk(c: Connection, started: map<string, KernelManager>, connects: nat) {
    c.kernelId in started && c.manager == started[c.kernelId] && c.number < connects
  }

  /** Every connection, stored or about to be, carries the manager its kernel started with. */
  ghost predicate ConnectionsInv(connections: map<string, Connection>, pending: map<nat, Connection>,
                                 started: map<string, KernelManager>, connects: nat) {
    && (forall k :: k in connections ==>
      connections[k].kernelId == k && ConnectionOk(connections[k], started, connects) && connections[k].number !in pending)
    && (forall j, k :: j in connections && k in connections && j != k ==> connections[j].number != connections[k].number)
    && (forall n :: n in pending ==> pending[n].number == n && ConnectionOk(pending[n], started, connects))
  }

  predicate StoredSince(stored: seq<Connection>, since: nat, kid: string) {
    exists i :: since <= i < |stored| && stored[i].kernelId == kid
  }

  /** What a delete request has read is still what is stored for the kernel, if anything is, until
      another connection is stored for it; and from then on never again. */
  ghost predicate DeletionOk(d: Deletion, connections: map<string, Connection>, pending: map<nat, Connection>,
                             stored: seq<Connection>, connects: nat) {
    && d.connection.number < connects && d.connection.number !in pending && d.connection.kernelId == d.kernelId
    && d.since <= |stored|
    && (forall k :: k in connections && connections[k].number == d.connection.number ==> connections[k] == d.connection)
    && (d.kernelId in connections ==>
      if StoredSince(stored, d.since, d.kernelId) then connections[d.kernelId].number != d.connection.number
      else connections[d.kernelId] == d.connection)
  }

  ghost predicate DeletesInv(deletes: map<nat, Deletion>, connections: map<string, Connection>, pending: map<nat, Connection>,
                             stored: seq<Connection>, connects: nat) {
    forall r :: r in deletes ==> DeletionOk(deletes[r], connections, pending, stored, connects)
  }

  /** A delete request that has cancelled `c` and not yet removed anything is under way. */
  ghost predicate BeingDeleted(c: Connection, deletes: map<nat, Deletion>) {
    exists r :: r in deletes && deletes[r].called && deletes[r].connection == c
  }

  /** A stored connection is cancelled only while it is being deleted; one not yet stored never is. */
  ghost predicate CancelledInv(cancelled: set<nat>, deletes: map<nat, Deletion>, connections: map<string, Connection>,
                               pending: map<nat, Connection>, connects: nat) {
    && (forall k :: k in connections && connections[k].number in cancelled ==> BeingDeleted(connections[k], deletes))
    && (forall n :: n in pending ==> n !in cancelled)
    && (forall n :: n in cancelled ==> n < connects)
  }

  ghost predicate OwnsPorts(km: KernelManager, claims: seq<Claim>) {
    forall t: nat :: t < 5 && km.connectionInfo.PortAt(t) != 0 ==> Claim(km.kernelId, t, km.connectionInfo.PortAt(t)) in claims
  }

  /** The port list has no repetition, stays in range and names the claimer of every port. */
  ghost predicate ClaimsInv(used: seq<int>, claims: seq<Claim>) {
    && Distinct(used) && |used| == |claims|
    && forall i :: 0 <= i < |used| ==> used[i] == claims[i].port && 5000 <= used[i] < 6000
  }

  /** It accounts for every port of every kernel ever started or being launched. */
  ghost predicate PortsInv(claims: seq<Claim>, started: map<string, KernelManager>, launching: map<string, Launch>) {
    && (forall k :: k in started ==> OwnsPorts(started[k], claims))
    && (forall k :: k in launching ==> OwnsPorts(launching[k].km, claims))
  }

  ghost predicate Inv(s: State) {
    && SessionsInv(s.sessions, s.issued, s.started.Keys, s.launching.Keys)
    && LaunchesInv(s.launching, s.sessions.Keys, s.issued, s.started)
    && KernelsInv(s.active, s.started, s.issued)
    && ConnectionsInv(s.connections, s.pending, s.started, s.connects)
    && DeletesInv(s.deletes, s.connections, s.pending, s.stored, s.connects)
    && CancelledInv(s.cancelled, s.deletes, s.connections, s.pending, s.connects)
    && ClaimsInv(s.used, s.claims)
    && PortsInv(s.claims, s.started, s.launching)
  }

  lemma NewLaunch(s: State, sid: string, kid: string, l: Launch)
    requires Inv(s) && sid !in s.issued && kid !in s.issued && sid != kid
    requires l.sessionId == sid && l.km.kernelId == kid && !l.km.shuttingDown && l.claimed == 0 && !l.done
    requires forall t: nat :: t < 5 ==> l.km.connectionInfo.PortAt(t) == 0
    ensures LaunchesInv(s.launching[kid := l], s.sessions.Keys, s.issued + {sid, kid}, s.started)
    ensures PortsInv(s.claims, s.started, s.launching[kid := l])
  {
  }

  /** Drawing more uuids disturbs nothing. */
  lemma MoreIssued(s: State, more: set<string>)
    requires Inv(s)
    ensures Inv(s.(issued := s.issued + more))
  {
  }

  lemma BeginCreateKeeps(s: State, request: Session, sid: string, kid: string, key: string)
    requires Inv(s) && BeginCreateStep(s, request, sid, kid, key).Some?
    ensures Inv(BeginCreateStep(s, request, sid, kid, key).value)
  {
    if request.id in s.sessions {
      MoreIssued(s, {sid});
    } else {
      MoreIssued(s, {sid, kid});
      NewLaunch(s, sid, kid, BeginCreateStep(s, request, sid, kid, key).value.launching[kid]);
    }
  }

  lemma ClaimKeepsClaims(s: State, kid: string, tries: seq<Attempt>)
    requires ClaimsInv(s.used, s.claims) && ClaimStep(s, kid, tries).Some?
    ensures ClaimsInv(ClaimStep(s, kid, tries).value.used, ClaimStep(s, kid, tries).value.claims)
  {
  }

  lemma ClaimKeepsPorts(s: State, kid: string, tries: seq<Attempt>)
    requires Inv(s) && ClaimStep(s, kid, tries).Some?
    ensures var t := ClaimStep(s, kid, tries).value; PortsInv(t.claims, t.started, t.launching)
  {
    var t := ClaimStep(s, kid, tries).value;
    assert LaunchOk(kid, s.launching[kid], s.sessions.Keys, s.issued, s.started);
    forall km | OwnsPorts(km, s.claims)
      ensures OwnsPorts(km, t.claims)
    {
      MoreClaims(km, s.claims, t.claims[|s.claims|..]);
    }
    assert OwnsPorts(s.launching[kid].km, t.claims);
    assert OwnsPorts(t.launching[kid].km, t.claims);
  }

  lemma MoreClaims(km: KernelManager, claims: seq<Claim>, more: seq<Claim>)
    requires OwnsPorts(km, claims)
    ensures OwnsPorts(km, claims + more)
  {
  }

  lemma ClaimKeeps(s: State, kid: string, tries: seq<Attempt>)
    requires Inv(s) && ClaimStep(s, kid, tries).Some?
    ensures Inv(ClaimStep(s, kid, tries).value)
  {
    var t := ClaimStep(s, kid, tries).value;
    assert t.launching.Keys == s.launching.Keys;
    assert LaunchOk(kid, s.launching[kid], s.sessions.Keys, s.issued, s.started);
    ClaimKeepsClaims(s, kid, tries);
    ClaimKeepsPorts(s, kid, tries);
  }

  lemma ForgetLaunch(s: State, kid: string)
    requires Inv(s)
    ensures Inv(s.(launching := s.launching - {kid}))
  {
  }

  lemma StartKeepsKernels(s: State, kid: string, km: KernelManager)
    requires Inv(s) && kid in s.issued && kid !in s.started && StartedOk(kid, km, s.issued)
    ensures KernelsInv(s.active[kid := km], s.started[kid := km], s.issued)
    ensures ConnectionsInv(s.connections, s.pending, s.started[kid := km], s.connects)
    ensures SessionsInv(s.sessions, s.issued, s.started[kid := km].Keys, s.launching.Keys)
  {
  }

  lemma StartKeepsLaunches(s: State, kid: string, km: KernelManager, l: Launch)
    requires Inv(s) && kid in s.launching && kid !in s.started && s.launching[kid].claimed == 5
    requires l == s.launching[kid].(km := km, done := true)
    requires km.kernelId == kid && !km.shuttingDown && km.connectionInfo == s.launching[kid].km.connectionInfo
    ensures LaunchesInv(s.launching[kid := l], s.sessions.Keys, s.issued, s.started[kid := km])
    ensures PortsInv(s.claims, s.started[kid := km], s.launching[kid := l])
  {
    assert LaunchOk(kid, s.launching[kid], s.sessions.Keys, s.issued, s.started);
    assert OwnsPorts(s.launching[kid].km, s.claims) && OwnsPorts(km, s.claims);
  }

  lemma LaunchKeeps(s: State, kid: string, failed: bool, pid: int)
    requires Inv(s) && LaunchStep(s, kid, failed, pid).Some?
    ensures Inv(LaunchStep(s, kid, failed, pid).value)
  {
    assert LaunchOk(kid, s.launching[kid], s.sessions.Keys, s.issued, s.started);
    if failed {
      ForgetLaunch(s, kid);
    } else {
      var t := LaunchStep(s, kid, failed, pid).value;
      StartKeepsKernels(s, kid, t.started[kid]);
      StartKeepsLaunches(s, kid, t.started[kid], t.launching[kid]);
      assert t.launching.Keys == s.launching.Keys;
    }
  }

  lemma FinishCreateKeeps(s: State, kid: string)
    requires Inv(s) && FinishCreateStep(s, kid).Some?
    ensures Inv(FinishCreateStep(s, kid).value)
  {
    assert LaunchOk(kid, s.launching[kid], s.sessions.Keys, s.issued, s.started);
  }

  lemma DeletesKeep(s: State, id: string)
    requires Inv(s)
    ensures Inv(s.(sessions := s.sessions - {id})) && Inv(s.(active := s.active - {id}))
  {
  }

  lemma ConnectKeeps(s: State, kid: string, upgraded: bool)
    requires Inv(s) && ConnectStep(s, kid, upgraded).Some?
    ensures Inv(ConnectStep(s, kid, upgraded).value)
  {
    var t := ConnectStep(s, kid, upgraded).value;
    forall r | r in s.deletes
      ensures DeletionOk(s.deletes[r], t.connections, t.pending, t.stored, t.connects)
    {
      assert DeletionOk(s.deletes[r], s.connections, s.pending, s.stored, s.connects);
    }
  }

  lemma StoreKeepsDeletes(s: State, number: nat)
    requires Inv(s) && StoreStep(s, number).Some?
    ensures var t := StoreStep(s, number).value; DeletesInv(t.deletes, t.connections, t.pending, t.stored, t.connects)
  {
    var t, c := StoreStep(s, number).value, s.pending[number];
    forall r | r in s.deletes
      ensures DeletionOk(s.deletes[r], t.connections, t.pending, t.stored, t.connects)
    {
      var d := s.deletes[r];
      assert DeletionOk(d, s.connections, s.pending, s.stored, s.connects);
      StoredNext(s.stored, c, d.since, d.kernelId);
    }
  }

  lemma StoredNext(stored: seq<Connection>, c: Connection, since: nat, kid: string)
    requires since <= |stored|
    ensures StoredSince(stored + [c], since, kid) <==> StoredSince(stored, since, kid) || c.kernelId == kid
  {
    var more := stored + [c];
    if StoredSince(stored, since, kid) {
      var i :| since <= i < |stored| && stored[i].kernelId == kid;
      assert more[i].kernelId == kid;
    }
    if c.kernelId == kid {
      assert more[|stored|].kernelId == kid;
    }
  }

  lemma StoreKeeps(s: State, number: nat)
    requires Inv(s) && StoreStep(s, number).Some?
    ensures Inv(StoreStep(s, number).value)
  {
    StoreKeepsDeletes(s, number);
  }

  lemma BeginDeleteReads(s: State, r: nat, kid: string)
    requires Inv(s) && BeginDeleteStep(s, r, kid).Some?
    ensures DeletesInv(BeginDeleteStep(s, r, kid).value.deletes, s.connections, s.pending, s.stored, s.connects)
  {
    if kid in s.connections {
      assert !StoredSince(s.stored, |s.stored|, kid);
    }
  }

  lemma BeginDeleteKeepsCancelled(s: State, r: nat, kid: string)
    requires Inv(s) && BeginDeleteStep(s, r, kid).Some?
    ensures CancelledInv(s.cancelled, BeginDeleteStep(s, r, kid).value.deletes, s.connections, s.pending, s.connects)
  {
    var deletes := BeginDeleteStep(s, r, kid).value.deletes;
    forall k | k in s.connections && s.connections[k].number in s.cancelled
      ensures BeingDeleted(s.connections[k], deletes)
    {
      MoreDeletes(s.deletes, deletes, s.connections[k]);
    }
  }

  lemma BeginDeleteKeeps(s: State, r: nat, kid: string)
    requires Inv(s) && BeginDeleteStep(s, r, kid).Some?
    ensures Inv(BeginDeleteStep(s, r, kid).value)
  {
    BeginDeleteReads(s, r, kid);
    BeginDeleteKeepsCancelled(s, r, kid);
  }

  lemma MoreDeletes(deletes: map<nat, Deletion>, more: map<nat, Deletion>, c: Connection)
    requires BeingDeleted(c, deletes) && forall r :: r in deletes && deletes[r].called ==> r in more && more[r] == deletes[r]
    ensures BeingDeleted(c, more)
  {
    var r :| r in deletes && deletes[r].called && deletes[r].connection == c;
    assert more[r] == deletes[r];
  }

  lemma CancelKeeps(s: State, r: nat)
    requires Inv(s) && CancelStep(s, r).Some?
    ensures Inv(CancelStep(s, r).value)
  {
    var t, d := CancelStep(s, r).value, s.deletes[r];
    assert DeletionOk(d, s.connections, s.pending, s.stored, s.connects);
    forall k | k in t.connections && t.connections[k].number in t.cancelled
      ensures BeingDeleted(t.connections[k], t.deletes)
    {
      var c := s.connections[k];
      if c.number in s.cancelled {
        MoreDeletes(s.deletes, t.deletes, c);
      } else {
        assert t.deletes[r].connection == c;
      }
    }
  }

  lemma DropKeeps(s: State, r: nat)
    requires Inv(s) && DropStep(s, r).Some?
    ensures Inv(DropStep(s, r).value)
  {
    var t, d := DropStep(s, r).value, s.deletes[r];
    assert DeletionOk(d, s.connections, s.pending, s.stored, s.connects);
    forall q | q in t.deletes
      ensures DeletionOk(t.deletes[q], t.connections, t.pending, t.stored, t.connects)
    {
      assert DeletionOk(s.deletes[q], s.connections, s.pending, s.stored, s.connects);
    }
    forall k | k in t.connections && t.connections[k].number in t.cancelled
      ensures BeingDeleted(t.connections[k], t.deletes)
    {
      var c := s.connections[k];
      var q :| q in s.deletes && s.deletes[q].called && s.deletes[q].connection == c;
      assert q in t.deletes && t.deletes[q] == s.deletes[q];
    }
  }

  lemma StepKeepsInv(s: State, a: Action)
    requires Inv(s) && Step(s, a).Some?
    ensures Inv(Step(s, a).value)
  {
    match a
    case BeginCreate(request, sid, kid, key) => BeginCreateKeeps(s, request, sid, kid, key);
    case ClaimPort(kid, tries) => ClaimKeeps(s, kid, tries);
    case LaunchResult(kid, failed, pid) => LaunchKeeps(s, kid, failed, pid);
    case FinishCreate(kid) => FinishCreateKeeps(s, kid);
    case DeleteSession(id) => DeletesKeep(s, id);
    case KillKernel(kid) => DeletesKeep(s, kid);
    case FindSession(sid) =>
    case BeginConnect(kid, upgraded) => ConnectKeeps(s, kid, upgraded);
    case FinishConnect(number) => StoreKeeps(s, number);
    case BeginDelete(r, kid) => BeginDeleteKeeps(s, r, kid);
    case CancelConnection(r) => CancelKeeps(s, r);
    case DropConnection(r) => DropKeeps(s, r);
  }

  lemma {:induction false} RunKeepsInv(acts: seq<Action>)
    requires Run(INITIAL, acts).Some?
    ensures Inv(Run(INITIAL, acts).value)
  {
    if acts != [] {
      RunKeepsInv(acts[..|acts| - 1]);
      StepKeepsInv(Run(INITIAL, acts[..|acts| - 1]).value, acts[|acts| - 1]);
    }
  }

  // ---------- What follows for every run ----------

  /** Every stored connection holds the manager its kernel started with, even if that kernel has
      been killed since; so does every active kernel. A stored connection is cancelled only while a
      delete request that has read and cancelled it is about to remove it. */
  lemma CopiesAreOriginals(acts: seq<Action>, k: string)
    requires Run(INITIAL, acts).Some?
    ensures var s := Run(INITIAL, acts).value;
      && (k in s.connections ==> k in s.started && s.connections[k].manager == s.started[k])
      && (k in s.connections && s.connections[k].number in s.cancelled ==> BeingDeleted(s.connections[k], s.deletes))
      && (k in s.active ==> k in s.started && s.active[k] == s.started[k])
      && (k in s.started ==> s.started[k].kernelId == k && s.started[k].ready && !s.started[k].shuttingDown)
  {
    RunKeepsInv(acts);
    var s := Run(INITIAL, acts).value;
    assert k in s.started ==> StartedOk(k, s.started[k], s.issued);
    assert k in s.connections ==> ConnectionOk(s.connections[k], s.started, s.connects);
  }

  /** Sessions are filed under their own id and never share a kernel. */
  lemma SessionsHaveOwnKernels(acts: seq<Action>, a: string, b: string)
    requires Run(INITIAL, acts).Some?
    ensures var sessions := Run(INITIAL, acts).value.sessions;
      && (a in sessions ==> sessions[a].id == a && sessions[a].kernelId in Run(INITIAL, acts).value.started)
      && (a in sessions && b in sessions && sessions[a].kernelId == sessions[b].kernelId ==> a == b)
  {
    RunKeepsInv(acts);
    var s := Run(INITIAL, acts).value;
    assert a in s.sessions ==> SessionOk(a, s.sessions[a], s.issued, s.started.Keys, s.launching.Keys);
  }
}
