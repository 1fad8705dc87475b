/** What the port claims of all launches ever made, failed ones included, mean for the ports. */
module PortBudget {
  import opened Registry

  /** Different claims are for different ports. */
  lemma PortNamesClaim(used: seq<int>, claims: seq<Claim>, c: Claim, d: Claim)
    requires ClaimsInv(used, claims) && c in claims && d in claims && c.port == d.port
    ensures c == d && 5000 <= c.port < 6000
  {
    var m :| 0 <= m < |claims| && claims[m] == c;
    var n :| 0 <= n < |claims| && claims[n] == d;
    assert used[m] == used[n];
  }

  /** In every run all ports ever handed out, also to launches that failed, are different and in range. */
  lemma PortsHandedOutDiffer(acts: seq<Action>, i: nat, j: nat)
    requires Run(INITIAL, acts).Some? && i < |Run(INITIAL, acts).value.claims| && j < |Run(INITIAL, acts).value.claims|
    ensures var claims := Run(INITIAL, acts).value.claims;
      5000 <= claims[i].port < 6000 && (i != j ==> claims[i].port != claims[j].port)
  {
    RunKeepsInv(acts);
    var s := Run(INITIAL, acts).value;
    assert s.used[i] == s.claims[i].port && s.used[j] == s.claims[j].port;
  }

  /** In every run, two different port fields of kernels ever started never hold the same non-zero port. */
  lemma PortsNeverShared(acts: seq<Action>, j: string, t: nat, k: string, u: nat)
    requires Run(INITIAL, acts).Some? && t < 5 && u < 5
    requires var started := Run(INITIAL, acts).value.started;
      && j in started && k in started && (j != k || t != u)
      && started[j].connectionInfo.PortAt(t) == started[k].connectionInfo.PortAt(u)
    ensures Run(INITIAL, acts).value.started[j].connectionInfo.PortAt(t) == 0
  {
    var s := Run(INITIAL, acts).value;
    RunKeepsInv(acts);
    var p := s.started[j].connectionInfo.PortAt(t);
    if p != 0 {
      assert StartedOk(j, s.started[j], s.issued) && StartedOk(k, s.started[k], s.issued);
      assert OwnsPorts(s.started[j], s.claims) && OwnsPorts(s.started[k], s.claims);
      PortNamesClaim(s.used, s.claims, Claim(j, t, p), Claim(k, u, p));
    }
  }

  // ---------- At most 200 kernels ----------

  ghost predicate HasSlot(claims: seq<Claim>, kid: string, slot: nat) {
    exists p :: Claim(kid, slot, p) in claims
  }

  /** The launch of `kid` has claimed all five ports, whatever became of it. */
  ghost predicate HasFive(claims: seq<Claim>, kid: string) {
    HasSlot(claims, kid, 0) && HasSlot(claims, kid, 1) && HasSlot(claims, kid, 2) && HasSlot(claims, kid, 3) && HasSlot(claims, kid, 4)
  }

  ghost function PortOf(claims: seq<Claim>, kid: string, slot: nat): (p: int)
    requires HasSlot(claims, kid, slot)
    ensures Claim(kid, slot, p) in claims
  {
    var p :| Claim(kid, slot, p) in claims;
    p
  }

  /** A kernel without a zero port, started or being launched, has claimed all five. */
  lemma FullyPortedHasFive(s: State, km: KernelManager)
    requires Inv(s) && OwnsPorts(km, s.claims) && forall t: nat :: t < 5 ==> km.connectionInfo.PortAt(t) != 0
    ensures HasFive(s.claims, km.kernelId)
  {
    forall t: nat | t < 5
      ensures HasSlot(s.claims, km.kernelId, t)
    {
      assert Claim(km.kernelId, t, km.connectionInfo.PortAt(t)) in s.claims;
    }
  }

  lemma {:induction false} ClaimsGrow(s: State, acts: seq<Action>)
    requires Run(s, acts).Some?
    ensures s.claims <= Run(s, acts).value.claims
  {
    if acts != [] {
      ClaimsGrow(s, acts[..|acts| - 1]);
      StepKeepsClaims(Run(s, acts[..|acts| - 1]).value, acts[|acts| - 1]);
    }
  }

  lemma StepKeepsClaims(s: State, a: Action)
    requires Step(s, a).Some?
    ensures s.claims <= Step(s, a).value.claims
  {
  }

  /** The port was claimed in the launch of this kernel. */
  ghost predicate ClaimedFor(claims: seq<Claim>, kid: string, p: int) {
    exists t: nat :: Claim(kid, t, p) in claims
  }

  lemma SlotsDiffer(used: seq<int>, claims: seq<Claim>, kid: string, t: nat, u: nat)
    requires ClaimsInv(used, claims) && HasSlot(claims, kid, t) && HasSlot(claims, kid, u) && t != u
    ensures PortOf(claims, kid, t) != PortOf(claims, kid, u)
    ensures 5000 <= PortOf(claims, kid, t) < 6000 && ClaimedFor(claims, kid, PortOf(claims, kid, t))
  {
    var p, q := PortOf(claims, kid, t), PortOf(claims, kid, u);
    PortNamesClaim(used, claims, Claim(kid, t, p), Claim(kid, t, p));
    if p == q {
      PortNamesClaim(used, claims, Claim(kid, t, p), Claim(kid, u, q));
    }
  }

  /** A launch that claimed all five has five different ports in range. */
  lemma FivePorts(used: seq<int>, claims: seq<Claim>, kid: string) returns (five: set<int>)
    requires ClaimsInv(used, claims) && HasFive(claims, kid)
    ensures |five| == 5 && forall p :: p in five ==> 5000 <= p < 6000 && ClaimedFor(claims, kid, p)
  {
    var a, b, c := PortOf(claims, kid, 0), PortOf(claims, kid, 1), PortOf(claims, kid, 2);
    var d, e := PortOf(claims, kid, 3), PortOf(claims, kid, 4);
    SlotsDiffer(used, claims, kid, 0, 1);
    SlotsDiffer(used, claims, kid, 0, 2);
    SlotsDiffer(used, claims, kid, 0, 3);
    SlotsDiffer(used, claims, kid, 0, 4);
    SlotsDiffer(used, claims, kid, 1, 2);
    SlotsDiffer(used, claims, kid, 1, 3);
    SlotsDiffer(used, claims, kid, 1, 4);
    SlotsDiffer(used, claims, kid, 2, 3);
    SlotsDiffer(used, claims, kid, 2, 4);
    SlotsDiffer(used, claims, kid, 3, 4);
    SlotsDiffer(used, claims, kid, 4, 3);
    five := FiveOf(a, b, c, d, e);
  }

  lemma FiveOf(a: int, b: int, c: int, d: int, e: int) returns (five: set<int>)
    requires a != b && a != c && a != d && a != e && b != c && b != d && b != e && c != d && c != e && d != e
    ensures |five| == 5 && five == {a, b, c, d, e}
  {
    five := {a} + {b} + {c} + {d} + {e};
  }

  ghost predicate AllHaveFive(claims: seq<Claim>, kernels: set<string>) {
    forall k :: k in kernels ==> HasFive(claims, k)
  }

  /** The port was claimed in a launch of one of the kernels. */
  ghost predicate ClaimedBy(claims: seq<Claim>, kernels: set<string>, p: int) {
    exists k :: k in kernels && ClaimedFor(claims, k, p)
  }

  /** The launches of any set of kernels that claimed all five have claimed five times as many ports. */
  lemma {:induction false} FivePortsEach(used: seq<int>, claims: seq<Claim>, kernels: set<string>) returns (ports: set<int>)
    requires ClaimsInv(used, claims) && AllHaveFive(claims, kernels)
    ensures |ports| == 5 * |kernels|
    ensures forall p :: p in ports ==> 5000 <= p < 6000 && ClaimedBy(claims, kernels, p)
    decreases kernels
  {
    if kernels == {} {
      ports := {};
    } else {
      var k :| k in kernels;
      var rest := kernels - {k};
      var others := FivePortsEach(used, claims, rest);
      ports := AddFive(used, claims, others, rest, k);
      assert rest + {k} == kernels;
    }
  }

  lemma AddFive(used: seq<int>, claims: seq<Claim>, others: set<int>, rest: set<string>, k: string) returns (ports: set<int>)
    requires ClaimsInv(used, claims) && HasFive(claims, k) && k !in rest
    requires forall p :: p in others ==> 5000 <= p < 6000 && ClaimedBy(claims, rest, p)
    ensures |ports| == |others| + 5
    ensures forall p :: p in ports ==> 5000 <= p < 6000 && ClaimedBy(claims, rest + {k}, p)
  {
    var five := FivePorts(used, claims, k);
    forall p | p in others && p in five
      ensures false
    {
      OneClaimer(used, claims, rest, k, p);
    }
    ports := others + five;
    forall p | p in ports
      ensures ClaimedBy(claims, rest + {k}, p)
    {
      StillClaimed(claims, rest, k, p);
    }
  }

  lemma OneClaimer(used: seq<int>, claims: seq<Claim>, rest: set<string>, k: string, p: int)
    requires ClaimsInv(used, claims) && ClaimedBy(claims, rest, p) && ClaimedFor(claims, k, p)
    ensures k in rest
  {
    var j :| j in rest && ClaimedFor(claims, j, p);
    var t: nat :| Claim(j, t, p) in claims;
    var u: nat :| Claim(k, u, p) in claims;
    PortNamesClaim(used, claims, Claim(j, t, p), Claim(k, u, p));
  }

  lemma StillClaimed(claims: seq<Claim>, rest: set<string>, k: string, p: int)
    requires ClaimedBy(claims, rest, p) || ClaimedFor(claims, k, p)
    ensures ClaimedBy(claims, rest + {k}, p)
  {
    if ClaimedBy(claims, rest, p) {
      var j :| j in rest && ClaimedFor(claims, j, p);
      assert j in rest + {k};
    } else {
      assert k in rest + {k};
    }
  }

  function Range(low: int, high: int): (r: set<int>)
    requires low <= high
    ensures forall p :: p in r <==> low <= p < high
    ensures |r| == high - low
    decreases high - low
  {
    if low == high then {} else Range(low, high - 1) + {high - 1}
  }

  lemma FitInRange(ports: set<int>, low: int, high: int)
    requires low <= high && forall p :: p in ports ==> low <= p < high
    ensures |ports| <= high - low
  {
    var range := Range(low, high);
    assert range == ports + (range - ports);
  }

  /** However launches interleave, at most 200 of them ever get all five ports, counting those that
      failed afterwards and those still under way. */
  lemma AtMost200Kernels(acts: seq<Action>, kernels: set<string>)
    requires Run(INITIAL, acts).Some?
    requires AllHaveFive(Run(INITIAL, acts).value.claims, kernels)
    ensures |kernels| <= 200
  {
    var s := Run(INITIAL, acts).value;
    RunKeepsInv(acts);
    var ports := FivePortsEach(s.used, s.claims, kernels);
    FitInRange(ports, 5000, 6000);
  }
}
