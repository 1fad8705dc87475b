/** Splitting a string after each newline and joining it again, as notebooks are stored. */
module Lines {

  function Concat(pieces: seq<string>): string {
    if pieces == [] then "" else pieces[0] + Concat(pieces[1..])
  }

  /** Joining keeps every piece, in order. */
  lemma {:induction false} JoinedInOrder(a: seq<string>, b: seq<string>)
    ensures Concat([]) == ""
    ensures forall s: string :: Concat([s]) == s
    ensures Concat(a + b) == Concat(a) + Concat(b)
  {
    forall s: string
      ensures Concat([s]) == s
    {
      assert [s][1..] == [];
    }
    if a == [] {
      assert a + b == b;
    } else {
      assert (a + b)[1..] == a[1..] + b;
      JoinedInOrder(a[1..], b);
    }
  }

  /** The pieces after each newline; what follows the last newline is a piece too. */
  function SplitAfter(s: string): (pieces: seq<string>)
    ensures pieces != []
  {
    var i := NewlineIndex(s);
    if i < 0 then [s] else [s[..i + 1]] + SplitAfter(s[i + 1..])
  }

  /** Index of the first newline, or -1. */
  function NewlineIndex(s: string): (i: int)
    ensures -1 <= i < |s|
    ensures i >= 0 ==> s[i] == '\n' && '\n' !in s[..i]
    ensures i < 0 ==> '\n' !in s
  {
    if s == "" then -1
    else if s[0] == '\n' then 0
    else
      var i := NewlineIndex(s[1..]);
      assert s == [s[0]] + s[1..];
      if i < 0 then -1 else assert s[..i + 1] == [s[0]] + s[1..][..i]; i + 1
  }

  /** The string without a newline at its end. */
  function TrimNewline(s: string): string {
    if s != "" && s[|s| - 1] == '\n' then s[..|s| - 1] else s
  }

  predicate IsLine(s: string) {
    s != "" && s[|s| - 1] == '\n' && '\n' !in s[..|s| - 1]
  }

  /** Pieces that each end in their only newline, except a last one that has none. */
  predicate AreLines(pieces: seq<string>) {
    && pieces != []
    && (forall i :: 0 <= i < |pieces| - 1 ==> IsLine(pieces[i]))
    && '\n' !in pieces[|pieces| - 1]
  }

  /** The pieces are the lines of the string. */
  ghost predicate IsSplit(pieces: seq<string>, s: string) {
    AreLines(pieces) && Concat(pieces) == s
  }

  lemma {:induction false} SplitThenJoin(s: string)
    ensures Concat(SplitAfter(s)) == s
    decreases |s|
  {
    var i := NewlineIndex(s);
    if i >= 0 {
      var rest := SplitAfter(s[i + 1..]);
      SplitThenJoin(s[i + 1..]);
      assert ([s[..i + 1]] + rest)[1..] == rest;
      assert s == s[..i + 1] + s[i + 1..];
    } else {
      assert [s][1..] == [];
    }
  }

  lemma {:induction false} SplitIsLines(s: string)
    ensures AreLines(SplitAfter(s))
    decreases |s|
  {
    var i := NewlineIndex(s);
    if i >= 0 {
      SplitIsLines(s[i + 1..]);
      assert s[..i + 1][..i] == s[..i];
    }
  }

  /** The split is the only decomposition into lines. */
  lemma {:induction false} JoinThenSplit(pieces: seq<string>)
    requires AreLines(pieces)
    ensures SplitAfter(Concat(pieces)) == pieces
    decreases |pieces|
  {
    var s := Concat(pieces);
    if |pieces| == 1 {
      assert s == pieces[0];
    } else {
      var first, rest := pieces[0], pieces[1..];
      assert IsLine(first);
      JoinThenSplit(rest);
      FirstNewline(first, Concat(rest));
      assert s[..|first|] == first && s[|first|..] == Concat(rest);
    }
  }

  lemma FirstNewline(first: string, rest: string)
    requires IsLine(first)
    ensures NewlineIndex(first + rest) == |first| - 1
  {
    var s := first + rest;
    assert s[..|first| - 1] == first[..|first| - 1];
    assert s[|first| - 1] == '\n' && '\n' in s;
  }

  /** The trim after a split never removes anything. */
  lemma TrimIsIdle(s: string)
    ensures TrimNewline(SplitAfter(s)[|SplitAfter(s)| - 1]) == SplitAfter(s)[|SplitAfter(s)| - 1]
  {
    SplitIsLines(s);
  }
}
