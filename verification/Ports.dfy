/** utils.go: the list of ports handed to kernels. */
module Ports {
  import opened Options

  /** One turn of the search: the number drawn and whether both listeners could be opened on it. */
  datatype Attempt = Attempt(port: int, available: bool)

  /** What the random generator and the probes may answer in one search. */
  predicate Search(tries: seq<Attempt>) {
    |tries| == 100 && forall i :: 0 <= i < |tries| ==> 5000 <= tries[i].port < 6000
  }

  ghost predicate Distinct(ports: seq<int>) {
    forall i, j :: 0 <= i < j < |ports| ==> ports[i] != ports[j]
  }

  predicate Claimable(t: Attempt, used: seq<int>) {
    t.port !in used && t.available
  }

  /** The port the search claims: the first try that is neither listed nor taken. */
  function Found(tries: seq<Attempt>, used: seq<int>): (p: Option<int>)
    ensures p.None? <==> forall i :: 0 <= i < |tries| ==> !Claimable(tries[i], used)
    ensures p.Some? ==> exists i :: 0 <= i < |tries| && tries[i].port == p.value && Claimable(tries[i], used) &&
                                    forall j :: 0 <= j < i ==> !Claimable(tries[j], used)
  {
    if tries == [] then None
    else
      var p := Found(tries[..|tries| - 1], used);
      if p.Some? then p
      else if Claimable(tries[|tries| - 1], used) then Some(tries[|tries| - 1].port)
      else None
  }

  function Allocated(used: seq<int>, tries: seq<Attempt>): seq<int> {
    var p := Found(tries, used);
    if p.Some? then used + [p.value] else used
  }

  /** The list without the first occurrence of `port`. */
  function Released(used: seq<int>, port: int): seq<int> {
    if used == [] then []
    else if used[0] == port then used[1..]
    else [used[0]] + Released(used[1..], port)
  }

  /** `currentlyUsedPorts` is a Go slice: the first `count` elements of the array behind it. */
  class PortAllocator {
    var currentlyUsedPorts: array<int>
    var count: nat

    ghost predicate Valid()
      reads this
    {
      count <= currentlyUsedPorts.Length
    }

    ghost function Listed(): seq<int>
      reads this, currentlyUsedPorts
      requires Valid()
    {
      currentlyUsedPorts[..count]
    }

    constructor ()
      ensures Valid() && Listed() == [] && fresh(currentlyUsedPorts)
    {
      currentlyUsedPorts := new int[0];
      count := 0;
    }

    method PortExists(portNum: int) returns (found: bool)
      requires Valid()
      ensures found <==> portNum in Listed()
    {
      for i := 0 to count
        invariant portNum !in currentlyUsedPorts[..i]
      {
        if currentlyUsedPorts[i] == portNum {
          return true;
        }
      }
      return false;
    }

    /** Go's `append` of one element: in place while the array has room, else into a larger copy. */
    method Append(port: int)
      requires Valid()
      modifies this, currentlyUsedPorts
      ensures Valid() && Listed() == old(Listed()) + [port]
      ensures currentlyUsedPorts == old(currentlyUsedPorts) || fresh(currentlyUsedPorts)
    {
      if count == currentlyUsedPorts.Length {
        var larger := new int[2 * count + 1];
        forall i | 0 <= i < count {
          larger[i] := currentlyUsedPorts[i];
        }
        currentlyUsedPorts := larger;
      }
      currentlyUsedPorts[count] := port;
      count := count + 1;
    }

    /** Claims the found port; with no luck in all tries returns 0 and an error, and claims nothing. */
    method FindAvailablePort(tries: seq<Attempt>) returns (port: int, failed: bool)
      requires Valid() && Search(tries)
      modifies this, currentlyUsedPorts
      ensures Valid() && Listed() == Allocated(old(Listed()), tries)
      ensures currentlyUsedPorts == old(currentlyUsedPorts) || fresh(currentlyUsedPorts)
      ensures failed == Found(tries, old(Listed())).None?
      ensures port == if failed then 0 else Found(tries, old(Listed())).value
    {
      var maxAttempts := 100;
      ghost var used := Listed();
      for attempt := 0 to maxAttempts
        invariant Valid() && currentlyUsedPorts == old(currentlyUsedPorts) && Listed() == used
        invariant Found(tries[..attempt], used).None?
      {
        port := tries[attempt].port;
        assert tries[..attempt + 1][..attempt] == tries[..attempt];
        var taken := PortExists(port);
        if taken {
          continue;
        }
        if !tries[attempt].available {
          continue;
        }
        FoundFirst(tries, used, attempt);
        Append(port);
        return port, false;
      }
      assert tries[..maxAttempts] == tries;
      return 0, true;
    }

    /** Shifts the later ports down over the released one, in place; an unknown port changes nothing. */
    method ReleasePort(port: int)
      requires Valid()
      modifies `count, currentlyUsedPorts
      ensures Valid() && Listed() == Released(old(Listed()), port)
      ensures port !in old(Listed()) ==> currentlyUsedPorts[..] == old(currentlyUsedPorts[..])
    {
      ghost var used := Listed();
      for i := 0 to count
        invariant Valid() && Listed() == used && currentlyUsedPorts[..] == old(currentlyUsedPorts[..])
        invariant port !in used[..i]
      {
        if currentlyUsedPorts[i] == port {
          ReleasedAt(used, port, i);
          ShiftDown(i);
          return;
        }
      }
      ReleasedUnknown(used, port);
    }

    /** The later elements are copied one place down within the array. */
    method ShiftDown(i: nat)
      requires Valid() && i < count
      modifies `count, currentlyUsedPorts
      ensures Valid() && Listed() == old(Listed())[..i] + old(Listed())[i + 1..]
    {
      var last := count - 1;
      for j := i to last
        invariant forall k :: 0 <= k < i || j <= k < currentlyUsedPorts.Length ==> currentlyUsedPorts[k] == old(currentlyUsedPorts[k])
        invariant forall k :: i <= k < j ==> currentlyUsedPorts[k] == old(currentlyUsedPorts[k + 1])
      {
        currentlyUsedPorts[j] := currentlyUsedPorts[j + 1];
      }
      count := last;
    }
  }

  lemma {:induction false} FoundFirst(tries: seq<Attempt>, used: seq<int>, i: nat)
    requires i < |tries| && Found(tries[..i], used).None? && Claimable(tries[i], used)
    ensures Found(tries, used) == Some(tries[i].port)
  {
    var n := |tries| - 1;
    if i < n {
      assert tries[..n][..i] == tries[..i];
      FoundFirst(tries[..n], used, i);
    }
  }

  lemma {:induction false} ReleasedAt(used: seq<int>, port: int, i: nat)
    requires i < |used| && used[i] == port && port !in used[..i]
    ensures Released(used, port) == used[..i] + used[i + 1..]
  {
    if i > 0 {
      assert used[0] in used[..i];
      assert used[1..][..i - 1] == used[..i][1..];
      ReleasedAt(used[1..], port, i - 1);
    }
  }

  lemma {:induction false} ReleasedUnknown(used: seq<int>, port: int)
    requires port !in used
    ensures Released(used, port) == used
  {
    if used != [] {
      ReleasedUnknown(used[1..], port);
    }
  }

  // ---------- Every run of allocations and releases ----------

  datatype Op = Allocate(tries: seq<Attempt>) | Release(port: int)

  datatype Ledger = Ledger(used: seq<int>, claimed: multiset<int>, freed: multiset<int>)

  function Apply(l: Ledger, op: Op): Ledger {
    match op
    case Allocate(tries) =>
      var p := Found(tries, l.used);
      Ledger(Allocated(l.used, tries), if p.Some? then l.claimed + multiset{p.value} else l.claimed, l.freed)
    case Release(port) =>
      Ledger(Released(l.used, port), l.claimed, if port in l.used then l.freed + multiset{port} else l.freed)
  }

  function Run(ops: seq<Op>): Ledger {
    if ops == [] then Ledger([], multiset{}, multiset{}) else Apply(Run(ops[..|ops| - 1]), ops[|ops| - 1])
  }

  /** The list never repeats a port, and is what was allocated without what was released. */
  lemma {:induction false} PortsBalance(ops: seq<Op>)
    ensures Distinct(Run(ops).used)
    ensures multiset(Run(ops).used) + Run(ops).freed == Run(ops).claimed
  {
    if ops != [] {
      PortsBalance(ops[..|ops| - 1]);
      var before, op := Run(ops[..|ops| - 1]), ops[|ops| - 1];
      if op.Release? {
        ReleaseBalances(before.used, op.port);
      }
    }
  }

  /** Releasing takes out one occurrence, the only one, and keeps the order of the others. */
  lemma ReleaseBalances(used: seq<int>, port: int)
    requires Distinct(used)
    ensures var after := Released(used, port);
      && Distinct(after) && port !in after
      && multiset(used) == multiset(after) + if port in used then multiset{port} else multiset{}
  {
    ReleasedContents(used, port);
    if port in used {
      var i :| 0 <= i < |used| && used[i] == port;
      ReleasedAt(used, port, i);
    } else {
      ReleasedUnknown(used, port);
    }
  }

  lemma {:induction false} ReleasedContents(used: seq<int>, port: int)
    ensures multiset(used) == multiset(Released(used, port)) + if port in used then multiset{port} else multiset{}
  {
    if used != [] {
      assert used == [used[0]] + used[1..];
      if used[0] != port {
        ReleasedContents(used[1..], port);
      }
    }
  }
}
