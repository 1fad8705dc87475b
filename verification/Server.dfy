/** The Go functions that change the registries, as methods on the concrete maps and the port list. Each
    takes steps of Registry and records them: the maps are always those of a run from the start. */
module Server {
  import opened Options
  import Ports
  import opened Registry

  datatype CreateResult = Success(session: Session) | Existing(session: Session) | LaunchFailed

  datatype ConnectResult = SessionNotFound | KernelNotFound | UpgradeFailed | Connected(connection: Connection)

  /** What the generator and the probes may answer in the five searches of one launch. */
  predicate Searches(searches: seq<seq<Ports.Attempt>>) {
    |searches| == 5 && forall i :: 0 <= i < 5 ==> Ports.Search(searches[i])
  }

  /** `acts`, followed by the first `n` port claims of a launch. */
  function WithClaims(acts: seq<Action>, kid: string, searches: seq<seq<Ports.Attempt>>, n: nat): seq<Action>
    requires n <= |searches|
  {
    if n == 0 then acts else WithClaims(acts, kid, searches, n - 1) + [ClaimPort(kid, searches[n - 1])]
  }

  /** `acts`, followed by all steps of one launch that is not disturbed. */
  function WithLaunch(acts: seq<Action>, req: Session, sid: string, kid: string, key: string,
                      searches: seq<seq<Ports.Attempt>>, failed: bool, pid: int): seq<Action>
    requires |searches| == 5
  {
    WithClaims(acts + [BeginCreate(req, sid, kid, key)], kid, searches, 5) + [LaunchResult(kid, failed, pid)]
  }

  /** What the code assigns to a port field: the port found, or 0 when the search fails. */
  function PortFor(used: seq<int>, tries: seq<Ports.Attempt>): int {
    var p := Ports.Found(tries, used);
    if p.Some? then p.value else 0
  }

  /** The port list after the first `n` searches. */
  function UsedAfter(used: seq<int>, searches: seq<seq<Ports.Attempt>>, n: nat): seq<int>
    requires n <= |searches|
  {
    if n == 0 then used else Ports.Allocated(UsedAfter(used, searches, n - 1), searches[n - 1])
  }

  /** What search number `n` gives. */
  function PortNumber(used: seq<int>, searches: seq<seq<Ports.Attempt>>, n: nat): int
    requires n < |searches|
  {
    PortFor(UsedAfter(used, searches, n), searches[n])
  }

  /** Which fields the five assignments fill. */
  lemma FiveFields(info: ConnectionInfo, used: seq<int>, searches: seq<seq<Ports.Attempt>>)
    requires |searches| == 5
    ensures var two := info.WithPort(0, PortNumber(used, searches, 0)).WithPort(1, PortNumber(used, searches, 1));
      two.WithPort(2, PortNumber(used, searches, 2)).WithPort(3, PortNumber(used, searches, 3))
         .WithPort(4, PortNumber(used, searches, 4)) ==
      info.(shellPort := PortNumber(used, searches, 0), iopubPort := PortNumber(used, searches, 1),
            stdinPort := PortNumber(used, searches, 2), hbPort := PortNumber(used, searches, 3),
            controlPort := PortNumber(used, searches, 4))
  {
  }

  /** The manager of a kernel that has been launched undisturbed. */
  function Launched(req: Session, kid: string, key: string, used: seq<int>, searches: seq<seq<Ports.Attempt>>, pid: int): KernelManager
    requires |searches| == 5
  {
    KernelManager(kid, req.kernelName, key, true, true, true, false, pid, ConnectionInfo(
      "tcp", "127.0.0.1", PortNumber(used, searches, 0), PortNumber(used, searches, 1), PortNumber(used, searches, 2),
      PortNumber(used, searches, 3), PortNumber(used, searches, 4)))
  }

  class Server {
    const ports: Ports.PortAllocator
    var zasperSession: map<string, Session>
    var zasperActiveKernels: map<string, KernelManager>
    var zasperActiveKernelConnections: map<string, Connection>
    var connects: nat  // numbers the connection objects, which Go tells apart by their address
    ghost var state: State
    ghost var acts: seq<Action>

    constructor ()
      ensures Valid() && fresh(ports) && fresh(ports.currentlyUsedPorts) && acts == []
    {
      ports := new Ports.PortAllocator();
      zasperSession, zasperActiveKernels, zasperActiveKernelConnections := map[], map[], map[];
      connects := 0;
      state, acts := INITIAL, [];
    }

    /** The recorded steps lead from the start to `state`. */
    ghost predicate Recorded()
      reads `state, `acts
    {
      Run(INITIAL, acts) == Some(state)
    }

    /** `state` is what the concrete maps hold, with the history added. */
    ghost predicate Valid()
      reads this, ports, ports.currentlyUsedPorts
    {
      && Recorded() && ports.Valid()
      && state.used == ports.Listed()
      && state.sessions == zasperSession
      && state.active == zasperActiveKernels
      && state.connections == zasperActiveKernelConnections
      && state.connects == connects
    }

    ghost method Take(a: Action)
      requires Recorded() && Step(state, a).Some?
      modifies `state, `acts
      ensures Recorded() && Some(state) == Step(old(state), a) && acts == old(acts) + [a]
    {
      RunNext(INITIAL, acts, state, a);
      state := Step(state, a).value;
      acts := acts + [a];
    }

    /** What the concrete maps and the port list satisfy whenever a method is called. */
    lemma Promises()
      requires Valid()
      ensures Ports.Distinct(ports.Listed()) && forall p :: p in ports.Listed() ==> 5000 <= p < 6000
      ensures forall k :: k in zasperActiveKernels ==>
        zasperActiveKernels[k].kernelId == k && zasperActiveKernels[k].ready && !zasperActiveKernels[k].shuttingDown
      ensures forall id :: id in zasperSession ==> zasperSession[id].id == id
      ensures forall a, b :: a in zasperSession && b in zasperSession && zasperSession[a].kernelId == zasperSession[b].kernelId ==> a == b
      ensures forall k :: k in zasperActiveKernelConnections && k in zasperActiveKernels ==>
        zasperActiveKernelConnections[k].manager == zasperActiveKernels[k]
    {
      RunKeepsInv(acts);
      assert forall k :: k in state.active ==> StartedOk(k, state.started[k], state.issued);
      assert forall id :: id in state.sessions ==>
        SessionOk(id, state.sessions[id], state.issued, state.started.Keys, state.launching.Keys);
      assert forall k :: k in state.connections ==> ConnectionOk(state.connections[k], state.started, state.connects);
    }

    // ---------- Launching ----------

    /** The launch of `km` for the session request has claimed its first `n` ports. */
    ghost predicate Launching(req: Session, sid: string, km: KernelManager, n: nat, done: bool)
      reads `state
    {
      km.kernelId in state.launching && state.launching[km.kernelId] == Launch(req, sid, km, n, done)
    }

    /** One of the five port fields is set to what the search returns, its error ignored. */
    method ClaimField(ghost req: Session, ghost sid: string, km: KernelManager, slot: nat, tries: seq<Ports.Attempt>)
      returns (km': KernelManager)
      requires Valid() && Ports.Search(tries) && slot < 5 && Launching(req, sid, km, slot, false)
      modifies `state, `acts, ports, ports.currentlyUsedPorts
      ensures Valid() && acts == old(acts) + [ClaimPort(km.kernelId, tries)]
      ensures ports.currentlyUsedPorts == old(ports.currentlyUsedPorts) || fresh(ports.currentlyUsedPorts)
      ensures ports.Listed() == Ports.Allocated(old(ports.Listed()), tries)
      ensures km' == km.(connectionInfo := km.connectionInfo.WithPort(slot, PortFor(old(ports.Listed()), tries)))
      ensures Launching(req, sid, km', slot + 1, false)
    {
      var port, failed := ports.FindAvailablePort(tries);
      km' := km.(connectionInfo := km.connectionInfo.WithPort(slot, port));
      Take(ClaimPort(km.kernelId, tries));
    }

    /** `preLaunch`, the only place where ports are claimed. */
    method PreLaunch(ghost req: Session, ghost sid: string, km: KernelManager, searches: seq<seq<Ports.Attempt>>) returns (km': KernelManager)
      requires Valid() && Searches(searches) && Launching(req, sid, km, 0, false)
      modifies `state, `acts, ports, ports.currentlyUsedPorts
      ensures Valid() && acts == WithClaims(old(acts), km.kernelId, searches, 5)
      ensures ports.currentlyUsedPorts == old(ports.currentlyUsedPorts) || fresh(ports.currentlyUsedPorts)
      ensures ports.Listed() == UsedAfter(old(ports.Listed()), searches, 5)
      ensures var used := old(ports.Listed());
        km' == km.(connectionInfo := km.connectionInfo.(
          shellPort := PortNumber(used, searches, 0), iopubPort := PortNumber(used, searches, 1),
          stdinPort := PortNumber(used, searches, 2), hbPort := PortNumber(used, searches, 3),
          controlPort := PortNumber(used, searches, 4)))
      ensures Launching(req, sid, km', 5, false)
    {
      ghost var before, used := acts, ports.Listed();
      FiveFields(km.connectionInfo, used, searches);
      km' := ClaimTwo(req, sid, km, 0, searches, before, used);
      km' := ClaimThree(req, sid, km', 2, searches, before, used);
    }

    /** Three of the five assignments in a row; `before` are the steps taken, and `used` the ports listed,
        before the launch claimed any. */
    method ClaimThree(ghost req: Session, ghost sid: string, km: KernelManager, slot: nat, searches: seq<seq<Ports.Attempt>>,
                      ghost before: seq<Action>, ghost used: seq<int>) returns (km': KernelManager)
      requires Valid() && Searches(searches) && slot + 2 < 5 && Launching(req, sid, km, slot, false)
      requires acts == WithClaims(before, km.kernelId, searches, slot) && ports.Listed() == UsedAfter(used, searches, slot)
      modifies `state, `acts, ports, ports.currentlyUsedPorts
      ensures Valid() && acts == WithClaims(before, km.kernelId, searches, slot + 3)
      ensures ports.currentlyUsedPorts == old(ports.currentlyUsedPorts) || fresh(ports.currentlyUsedPorts)
      ensures ports.Listed() == UsedAfter(used, searches, slot + 3)
      ensures km' == km.(connectionInfo := km.connectionInfo.WithPort(slot, PortNumber(used, searches, slot))
                                             .WithPort(slot + 1, PortNumber(used, searches, slot + 1))
                                             .WithPort(slot + 2, PortNumber(used, searches, slot + 2)))
      ensures Launching(req, sid, km', slot + 3, false)
    {
      km' := ClaimTwo(req, sid, km, slot, searches, before, used);
      km' := ClaimField(req, sid, km', slot + 2, searches[slot + 2]);
    }

    /** Two of them. */
    method ClaimTwo(ghost req: Session, ghost sid: string, km: KernelManager, slot: nat, searches: seq<seq<Ports.Attempt>>,
                    ghost before: seq<Action>, ghost used: seq<int>) returns (km': KernelManager)
      requires Valid() && Searches(searches) && slot + 1 < 5 && Launching(req, sid, km, slot, false)
      requires acts == WithClaims(before, km.kernelId, searches, slot) && ports.Listed() == UsedAfter(used, searches, slot)
      modifies `state, `acts, ports, ports.currentlyUsedPorts
      ensures Valid() && acts == WithClaims(before, km.kernelId, searches, slot + 2)
      ensures ports.currentlyUsedPorts == old(ports.currentlyUsedPorts) || fresh(ports.currentlyUsedPorts)
      ensures ports.Listed() == UsedAfter(used, searches, slot + 2)
      ensures km' == km.(connectionInfo := km.connectionInfo.WithPort(slot, PortNumber(used, searches, slot))
                                             .WithPort(slot + 1, PortNumber(used, searches, slot + 1)))
      ensures Launching(req, sid, km', slot + 2, false)
    {
      km' := ClaimField(req, sid, km, slot, searches[slot]);
      assert acts == WithClaims(before, km.kernelId, searches, slot + 1);
      km' := ClaimField(req, sid, km', slot + 1, searches[slot + 1]);
    }

    /** `StartKernel`: claims ports, starts the process, marks the manager ready. */
    method StartKernel(ghost req: Session, ghost sid: string, km: KernelManager, searches: seq<seq<Ports.Attempt>>, failed: bool, pid: int)
      returns (ghost launched: KernelManager, km': KernelManager)
      requires Valid() && Searches(searches) && Launching(req, sid, km, 0, false)
      modifies `state, `acts, ports, ports.currentlyUsedPorts
      ensures Valid() && acts == WithClaims(old(acts), km.kernelId, searches, 5)
      ensures ports.currentlyUsedPorts == old(ports.currentlyUsedPorts) || fresh(ports.currentlyUsedPorts)
      ensures ports.Listed() == UsedAfter(old(ports.Listed()), searches, 5)
      ensures var used := old(ports.Listed());
        launched == km.(connectionInfo := km.connectionInfo.(
          shellPort := PortNumber(used, searches, 0), iopubPort := PortNumber(used, searches, 1),
          stdinPort := PortNumber(used, searches, 2), hbPort := PortNumber(used, searches, 3),
          controlPort := PortNumber(used, searches, 4)))
      ensures Launching(req, sid, launched, 5, false)
      ensures km' == if failed then launched else launched.(pid := pid, ready := true)
    {
      km' := PreLaunch(req, sid, km, searches);
      launched := km';
      if failed {
        return;
      }
      km' := km'.(pid := pid);
      km' := km'.(ready := true);
    }

    /** Creates a manager, starts its kernel, and stores a copy; a failed launch stores nothing and
        keeps its ports. The launch is made for the session request `req`. */
    method StartKernelManager(ghost req: Session, ghost sid: string, kernelName: string, kernelId: string, key: string,
                              searches: seq<seq<Ports.Attempt>>, failed: bool, pid: int)
      returns (started: Option<string>, ghost km': KernelManager)
      requires Valid() && Searches(searches) && req.id !in zasperSession && req.kernelName == kernelName
      requires sid !in state.issued && kernelId !in state.issued && sid != kernelId
      modifies `state, `acts, `zasperActiveKernels, ports, ports.currentlyUsedPorts
      ensures Valid() && acts == WithLaunch(old(acts), req, sid, kernelId, key, searches, failed, pid)
      ensures started == if failed then None else Some(kernelId)
      ensures ports.Listed() == UsedAfter(old(ports.Listed()), searches, 5)
      ensures failed ==> zasperActiveKernels == old(zasperActiveKernels)
      ensures !failed ==>
        && km' == Launched(req, kernelId, key, old(ports.Listed()), searches, pid)
        && zasperActiveKernels == old(zasperActiveKernels)[kernelId := km']
        && Launching(req, sid, km', 5, true)
    {
      var km := CreateKernelManager(kernelName, kernelId, key);
      km := km.(attemptedStart := true);
      BeginLaunch(req, sid, km, key);
      ghost var launched;
      launched, km := StartKernel(req, sid, km, searches, failed, pid);
      km' := km;
      if failed {
        Take(LaunchResult(kernelId, true, pid));
        return None, km';
      }
      StoreManager(req, sid, launched, km, pid);
      return Some(kernelId), km';
    }

    ghost method BeginLaunch(req: Session, sid: string, km: KernelManager, key: string)
      requires Valid() && req.id !in zasperSession && sid !in state.issued && km.kernelId !in state.issued && sid != km.kernelId
      requires km == CreateKernelManager(req.kernelName, km.kernelId, key).(attemptedStart := true)
      modifies `state, `acts
      ensures Valid() && acts == old(acts) + [BeginCreate(req, sid, km.kernelId, key)] && Launching(req, sid, km, 0, false)
    {
      Take(BeginCreate(req, sid, km.kernelId, key));
    }

    /** The end of a launch that did not fail. */
    method StoreManager(ghost req: Session, ghost sid: string, ghost launched: KernelManager, km: KernelManager, ghost pid: int)
      requires Valid() && Launching(req, sid, launched, 5, false) && km == launched.(pid := pid, ready := true)
      modifies `state, `acts, `zasperActiveKernels
      ensures Valid() && acts == old(acts) + [LaunchResult(km.kernelId, false, pid)]
      ensures zasperActiveKernels == old(zasperActiveKernels)[km.kernelId := km] && Launching(req, sid, km, 5, true)
    {
      zasperActiveKernels := zasperActiveKernels[km.kernelId := km];
      Take(LaunchResult(km.kernelId, false, pid));
    }

    method CreateSession(req: Session, sessionId: string, kernelId: string, key: string,
                         searches: seq<seq<Ports.Attempt>>, failed: bool, pid: int) returns (result: CreateResult)
      requires Valid() && Searches(searches)
      requires sessionId !in state.issued && kernelId !in state.issued && sessionId != kernelId  // uuids are new
      modifies `state, `acts, `zasperSession, `zasperActiveKernels, ports, ports.currentlyUsedPorts
      ensures Valid()
      ensures var known, session := old(zasperSession), Session(sessionId, req.path, req.name, req.sessionType, kernelId, req.kernelName);
        if req.id in known then
          && result == Existing(known[req.id]) && zasperSession == known && zasperActiveKernels == old(zasperActiveKernels)
          && acts == old(acts) + [BeginCreate(req, sessionId, kernelId, key)]
        else if failed then
          && result == LaunchFailed && zasperSession == known && zasperActiveKernels == old(zasperActiveKernels)
          && acts == WithLaunch(old(acts), req, sessionId, kernelId, key, searches, true, pid)
        else
          && result == Success(session) && zasperSession == known[sessionId := session]
          && zasperActiveKernels == old(zasperActiveKernels)[kernelId := Launched(req, kernelId, key, old(ports.Listed()), searches, pid)]
          && acts == WithLaunch(old(acts), req, sessionId, kernelId, key, searches, false, pid) + [FinishCreate(kernelId)]
      ensures ports.Listed() ==
        if req.id in old(zasperSession) then old(ports.Listed()) else UsedAfter(old(ports.Listed()), searches, 5)
    {
      if req.id in zasperSession {
        Take(BeginCreate(req, sessionId, kernelId, key));
        return Existing(zasperSession[req.id]);
      }
      var started: Option<string>;
      ghost var km;
      started, km := StartKernelManager(req, sessionId, req.kernelName, kernelId, key, searches, failed, pid);
      if started.None? {
        return LaunchFailed;
      }
      var session := StoreSession(req, sessionId, started.value, km);
      return Success(session);
    }

    /** The last part of `CreateSession`, once the kernel has started. */
    method StoreSession(req: Session, sessionId: string, kernelId: string, ghost km: KernelManager) returns (session: Session)
      requires Valid() && Launching(req, sessionId, km, 5, true) && km.kernelId == kernelId
      modifies `state, `acts, `zasperSession
      ensures Valid() && acts == old(acts) + [FinishCreate(kernelId)]
      ensures session == Session(sessionId, req.path, req.name, req.sessionType, kernelId, req.kernelName)
      ensures zasperSession == old(zasperSession)[sessionId := session]
    {
      session := Session(sessionId, req.path, req.name, req.sessionType, kernelId, req.kernelName);
      zasperSession := zasperSession[sessionId := session];
      Take(FinishCreate(kernelId));
    }

    // ---------- Stopping ----------

    method StopKernel(km: KernelManager) returns (km': KernelManager)
      ensures km' == km.(shuttingDown := true)
    {
      km' := km.(shuttingDown := true);
    }

    /** The manager is copied out of the map and the copy is stopped: it says that it is shutting down, and
        the stored one never does. */
    method StopKernelManager(kernelId: string) returns (ghost stopped: Option<KernelManager>)
      requires Valid()
      ensures stopped == if kernelId in zasperActiveKernels then Some(zasperActiveKernels[kernelId].(shuttingDown := true)) else None
      ensures kernelId in zasperActiveKernels ==> stopped != Some(zasperActiveKernels[kernelId])
    {
      Promises();
      stopped := None;
      if kernelId in zasperActiveKernels {
        var km := zasperActiveKernels[kernelId];
        km := StopKernel(km);
        stopped := Some(km);
      }
    }

    /** Removes the session; its kernel stays active, stored as it was. */
    method DeleteSession(req: Session)
      requires Valid()
      modifies `state, `acts, `zasperSession
      ensures Valid() && acts == old(acts) + [Action.DeleteSession(req.id)]
      ensures zasperSession == old(zasperSession) - {req.id}
      ensures req.id in old(zasperSession) && old(zasperSession)[req.id].kernelId in zasperActiveKernels ==>
        !zasperActiveKernels[old(zasperSession)[req.id].kernelId].shuttingDown
    {
      if req.id !in zasperSession {
        Take(Action.DeleteSession(req.id));
        assert zasperSession - {req.id} == zasperSession;
        return;
      }
      ghost var stopped := StopKernelManager(zasperSession[req.id].kernelId);
      Promises();
      zasperSession := zasperSession - {req.id};
      Take(Action.DeleteSession(req.id));
    }

    method KillKernelById(kernelId: string)
      requires Valid()
      modifies `state, `acts, `zasperActiveKernels
      ensures Valid() && acts == old(acts) + [KillKernel(kernelId)]
      ensures zasperActiveKernels == old(zasperActiveKernels) - {kernelId}
    {
      zasperActiveKernels := zasperActiveKernels - {kernelId};
      Take(KillKernel(kernelId));
    }

    // ---------- Connecting ----------

    /** The first part of `HandleWebSocket`: the lookups and the upgrade. */
    method OpenConnection(kernelId: string, sessionId: string, upgraded: bool) returns (result: ConnectResult)
      requires Valid()
      modifies `state, `acts, `connects
      ensures Valid()
      ensures result.SessionNotFound? <==> sessionId !in zasperSession
      ensures result.KernelNotFound? <==> sessionId in zasperSession && kernelId !in zasperActiveKernels
      ensures result.Connected? <==> sessionId in zasperSession && kernelId in zasperActiveKernels && upgraded
      ensures acts == old(acts) + [FindSession(sessionId)] + if result.SessionNotFound? then [] else [BeginConnect(kernelId, upgraded)]
      ensures result.Connected? ==>
        && result.connection == Connection(old(connects), kernelId, zasperActiveKernels[kernelId])
        && state.pending == old(state.pending)[old(connects) := result.connection]
    {
      Take(FindSession(sessionId));
      if sessionId !in zasperSession {
        return SessionNotFound;
      }
      if kernelId !in zasperActiveKernels {
        Take(BeginConnect(kernelId, upgraded));
        return KernelNotFound;
      }
      var kernelManager := zasperActiveKernels[kernelId];
      if !upgraded {
        Take(BeginConnect(kernelId, upgraded));
        return UpgradeFailed;
      }
      var kernelConnection := Connection(connects, kernelId, kernelManager);
      connects := connects + 1;
      Take(BeginConnect(kernelId, upgraded));
      return Connected(kernelConnection);
    }

    /** The last part: the connection is stored over any other one of its kernel. */
    method StoreConnection(c: Connection)
      requires Valid() && c.number in state.pending && state.pending[c.number] == c
      modifies `state, `acts, `zasperActiveKernelConnections
      ensures Valid() && acts == old(acts) + [FinishConnect(c.number)]
      ensures zasperActiveKernelConnections == old(zasperActiveKernelConnections)[c.kernelId := c]
    {
      zasperActiveKernelConnections := zasperActiveKernelConnections[c.kernelId := c];
      Take(FinishConnect(c.number));
    }

    method HandleWebSocket(kernelId: string, sessionId: string, upgraded: bool) returns (result: ConnectResult)
      requires Valid()
      modifies `state, `acts, `zasperActiveKernelConnections, `connects
      ensures Valid()
      ensures result.SessionNotFound? <==> sessionId !in zasperSession
      ensures result.KernelNotFound? <==> sessionId in zasperSession && kernelId !in zasperActiveKernels
      ensures result.Connected? <==> sessionId in zasperSession && kernelId in zasperActiveKernels && upgraded
      ensures acts == old(acts) + [FindSession(sessionId)] + (if result.SessionNotFound? then [] else [BeginConnect(kernelId, upgraded)])
                      + if result.Connected? then [FinishConnect(old(connects))] else []
      ensures if result.Connected? then
          && result.connection == Connection(old(connects), kernelId, zasperActiveKernels[kernelId])
          && zasperActiveKernelConnections == old(zasperActiveKernelConnections)[kernelId := result.connection]
        else zasperActiveKernelConnections == old(zasperActiveKernelConnections)
    {
      result := OpenConnection(kernelId, sessionId, upgraded);
      if result.Connected? {
        StoreConnection(result.connection);
      }
    }

    // ---------- The delete handler ----------

    /** Reads the kernel's connection; `deletion` is a number no other delete under way has. */
    method ReadConnection(ghost deletion: nat, kernelId: string) returns (kwsConn: Option<Connection>)
      requires Valid() && deletion !in state.deletes
      modifies `state, `acts
      ensures Valid() && acts == old(acts) + [BeginDelete(deletion, kernelId)]
      ensures kwsConn == if kernelId in zasperActiveKernelConnections then Some(zasperActiveKernelConnections[kernelId]) else None
      ensures kwsConn.Some? ==> state.deletes == old(state.deletes)[deletion := Deletion(kernelId, kwsConn.value, false, |state.stored|)]
    {
      kwsConn := if kernelId in zasperActiveKernelConnections then Some(zasperActiveKernelConnections[kernelId]) else None;
      Take(BeginDelete(deletion, kernelId));
    }

    /** Calls the cancel function of the connection that was read. */
    ghost method CancelPolling(deletion: nat)
      requires Valid() && deletion in state.deletes && !state.deletes[deletion].called
      modifies `state, `acts
      ensures Valid() && acts == old(acts) + [CancelConnection(deletion)]
      ensures state.cancelled == old(state.cancelled) + {old(state.deletes)[deletion].connection.number}
      ensures state.deletes == old(state.deletes)[deletion := old(state.deletes)[deletion].(called := true)]
    {
      Take(CancelConnection(deletion));
    }

    /** Removes whatever connection is stored for the kernel now. */
    method ForgetConnection(ghost deletion: nat, kernelId: string)
      requires Valid() && deletion in state.deletes && state.deletes[deletion].called && state.deletes[deletion].kernelId == kernelId
      modifies `state, `acts, `zasperActiveKernelConnections
      ensures Valid() && acts == old(acts) + [DropConnection(deletion)]
      ensures zasperActiveKernelConnections == old(zasperActiveKernelConnections) - {kernelId}
    {
      zasperActiveKernelConnections := zasperActiveKernelConnections - {kernelId};
      Take(DropConnection(deletion));
    }

    /** Cancels and forgets the kernel's connection, then forgets the kernel; without a connection it
        panics at once. */
    method KernelDelete(ghost deletion: nat, kernelId: string) returns (panicked: bool)
      requires Valid() && deletion !in state.deletes
      modifies `state, `acts, `zasperActiveKernels, `zasperActiveKernelConnections
      ensures Valid() && panicked == (kernelId !in old(zasperActiveKernelConnections))
      ensures if panicked then
          && acts == old(acts) + [BeginDelete(deletion, kernelId)]
          && zasperActiveKernels == old(zasperActiveKernels) && zasperActiveKernelConnections == old(zasperActiveKernelConnections)
        else
          && acts == old(acts) + [BeginDelete(deletion, kernelId), CancelConnection(deletion), DropConnection(deletion), KillKernel(kernelId)]
          && zasperActiveKernels == old(zasperActiveKernels) - {kernelId}
          && zasperActiveKernelConnections == old(zasperActiveKernelConnections) - {kernelId}
    {
      var kwsConn := ReadConnection(deletion, kernelId);
      if kwsConn.None? {
        return true;
      }
      CancelPolling(deletion);
      ForgetConnection(deletion, kernelId);
      KillKernelById(kernelId);
      return false;
    }
  }
}
