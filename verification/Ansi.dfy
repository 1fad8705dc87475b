/** The text of a stream without the escape codes for colours. */
module Ansi {
  import opened Indices

  /** Matches ESC [ digits-and-semicolons m at the start; the length of the match, or 0. */
  function CodeLength(s: string): (n: nat)
    ensures n <= |s|
  {
    if |s| >= 2 && s[0] == '\U{1b}' && s[1] == '[' then
      var k := Parameters(s[2..]);
      if 2 + k < |s| && s[2 + k] == 'm' then 3 + k else 0
    else 0
  }

  function Parameters(s: string): (n: nat)
    ensures n <= |s|
  {
    if s != "" && ('0' <= s[0] <= '9' || s[0] == ';') then 1 + Parameters(s[1..]) else 0
  }

  function RemoveAnsiCodes(s: string): string
    decreases |s|
  {
    if s == "" then ""
    else if CodeLength(s) > 0 then RemoveAnsiCodes(s[CodeLength(s)..])
    else [s[0]] + RemoveAnsiCodes(s[1..])
  }

  // ---------- What is removed ----------

  predicate IsParameter(c: char) {
    '0' <= c <= '9' || c == ';'
  }

  /** ESC [ parameters m. */
  ghost predicate IsCode(c: string) {
    && |c| >= 3 && c[0] == '\U{1b}' && c[1] == '[' && c[|c| - 1] == 'm'
    && forall i :: 2 <= i < |c| - 1 ==> IsParameter(c[i])
  }

  ghost predicate CodeAt(s: string, a: nat, b: nat) {
    a <= b <= |s| && IsCode(s[a..b])
  }

  /** Character `k` belongs to an escape code. */
  ghost predicate InCode(s: string, k: nat) {
    exists a: nat, b: nat :: a <= k < b && CodeAt(s, a, b)
  }

  /** The characters that belong to no escape code are those at `ks`, and they make up `cleaned`. */
  ghost predicate Leaves(s: string, cleaned: string, ks: seq<nat>) {
    && Increasing(ks, |s|) && |cleaned| == |ks|
    && (forall k: nat :: k < |s| ==> (k in ks <==> !InCode(s, k)))
    && forall i :: 0 <= i < |ks| ==> cleaned[i] == s[ks[i]]
  }

  /** Exactly the escape codes are taken out. */
  ghost predicate CodesTakenOut(s: string, cleaned: string) {
    exists ks: seq<nat> :: Leaves(s, cleaned, ks)
  }

  lemma {:induction false} ParametersEnd(s: string)
    ensures var n := Parameters(s);
      && (forall i :: 0 <= i < n ==> IsParameter(s[i]))
      && (n < |s| ==> !IsParameter(s[n]))
  {
    if s != "" && IsParameter(s[0]) {
      ParametersEnd(s[1..]);
      var n := Parameters(s);
      forall i | 0 <= i < n
        ensures IsParameter(s[i])
      {
        assert i > 0 ==> s[1..][i - 1] == s[i];
      }
      assert n < |s| ==> s[1..][n - 1] == s[n];
    }
  }

  lemma CodeAtIs(s: string, a: nat, b: nat)
    requires a <= b <= |s|
    ensures CodeAt(s, a, b) <==>
      && b - a >= 3 && s[a] == '\U{1b}' && s[a + 1] == '[' && s[b - 1] == 'm'
      && forall i :: a + 2 <= i < b - 1 ==> IsParameter(s[i])
  {
    var c := s[a..b];
    if CodeAt(s, a, b) {
      forall i | a + 2 <= i < b - 1
        ensures IsParameter(s[i])
      {
        assert c[i - a] == s[i];
      }
    }
  }

  /** The match at the start is the only escape code there. */
  lemma CodeAtStart(s: string, b: nat)
    requires b <= |s|
    ensures CodeAt(s, 0, b) <==> b > 0 && b == CodeLength(s)
  {
    CodeAtIs(s, 0, b);
    if |s| >= 2 {
      var k := Parameters(s[2..]);
      ParametersEnd(s[2..]);
      forall i | 2 <= i < |s|
        ensures (i < k + 2 ==> IsParameter(s[i])) && (i == k + 2 ==> !IsParameter(s[i]))
      {
        assert s[2..][i - 2] == s[i];
      }
    }
  }

  /** No code crosses place `m`, so those behind it are the codes of the rest. */
  lemma CodesBehind(s: string, m: nat, k: nat)
    requires m <= k < |s| && forall a: nat, b: nat :: a < m < b ==> !CodeAt(s, a, b)
    ensures InCode(s, k) <==> InCode(s[m..], k - m)
  {
    if InCode(s, k) {
      var a: nat, b: nat :| a <= k < b && CodeAt(s, a, b);
      assert a >= m;
      assert s[m..][a - m..b - m] == s[a..b];
      assert CodeAt(s[m..], a - m, b - m);
    }
    if InCode(s[m..], k - m) {
      var a: nat, b: nat :| a <= k - m < b && CodeAt(s[m..], a, b);
      assert s[m..][a..b] == s[a + m..b + m];
      assert CodeAt(s, a + m, b + m);
    }
  }

  /** Codes do not overlap: none begins inside another. */
  lemma NoneInside(s: string, n: nat, a: nat, b: nat)
    requires CodeAt(s, 0, n) && 0 < a < n
    ensures !CodeAt(s, a, b)
  {
    CodeAtIs(s, 0, n);
    if a <= b <= |s| {
      CodeAtIs(s, a, b);
    }
  }

  lemma {:induction false} CleanedLeaves(s: string) returns (ks: seq<nat>)
    ensures Leaves(s, RemoveAnsiCodes(s), ks)
    decreases |s|
  {
    if s == "" {
      ks := [];
    } else {
      var n := CodeLength(s);
      var m := if n > 0 then n else 1;
      CodeAtStart(s, n);
      var rest := CleanedLeaves(s[m..]);
      NoCodeAcross(s);
      ks := (if n > 0 then [] else [0]) + MovedUp(rest, m);
      forall k: nat | k < |s|
        ensures k in ks <==> !InCode(s, k)
      {
        KeptAt(s, rest, k);
      }
    }
  }

  lemma NoCodeAcross(s: string)
    requires s != ""
    ensures var m := if CodeLength(s) > 0 then CodeLength(s) else 1;
      forall a: nat, b: nat :: a < m < b ==> !CodeAt(s, a, b)
  {
    var m := if CodeLength(s) > 0 then CodeLength(s) else 1;
    CodeAtStart(s, CodeLength(s));
    forall a: nat, b: nat | a < m < b
      ensures !CodeAt(s, a, b)
    {
      if a == 0 && b <= |s| {
        CodeAtStart(s, b);
      } else if a > 0 {
        NoneInside(s, m, a, b);
      }
    }
  }

  lemma KeptAt(s: string, rest: seq<nat>, k: nat)
    requires k < |s|
    requires var m := if CodeLength(s) > 0 then CodeLength(s) else 1;
      forall i: nat :: i < |s| - m ==> (i in rest <==> !InCode(s[m..], i))
    ensures var n := CodeLength(s);
      k in (if n > 0 then [] else [0]) + MovedUp(rest, if n > 0 then n else 1) <==> !InCode(s, k)
  {
    var n := CodeLength(s);
    var m := if n > 0 then n else 1;
    MovedUpHas(rest, m, k);
    NoCodeAcross(s);
    if k >= m {
      CodesBehind(s, m, k);
    } else if n > 0 {
      CodeAtStart(s, n);
      assert CodeAt(s, 0, n);
    } else {
      forall b: nat | b <= |s|
        ensures CodeAt(s, 0, b) <==> b > 0 && b == n
      {
        CodeAtStart(s, b);
      }
    }
  }

  /** The replacement from left to right takes out every escape code and nothing else. */
  lemma CleanedExactly(s: string, cleaned: string)
    ensures CodesTakenOut(s, cleaned) <==> cleaned == RemoveAnsiCodes(s)
  {
    var ks := CleanedLeaves(s);
    if CodesTakenOut(s, cleaned) {
      var ls: seq<nat> :| Leaves(s, cleaned, ls);
      forall k: nat
        ensures k in ks <==> k in ls
      {
        assert k >= |s| ==> k !in ks && k !in ls;
      }
      SameIndices(ks, ls, |s|);
    }
  }
}
