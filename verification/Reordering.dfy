/** Events do not tell alike states apart, so messages for different cells may change places anywhere
    in a run. */
module Reordering {
  import opened Options
  import opened EditorModel
  import opened EditorOutputs

  lemma AlikeBack(v: View, w: View)
    requires Alike(v, w)
    ensures Alike(w, v)
  {
  }

  lemma AlikeChain(u: View, v: View, w: View)
    requires Alike(u, v) && Alike(v, w)
    ensures Alike(u, w)
  {
  }

  // ---------- Events keep states alike ----------

  /** Place `k` of a state, or the number of its next array, or no array. */
  function Source(v: View, k: nat): Option<nat> {
    if k <= |v.cells| then Ref(v, k) else if k == |v.cells| + 1 then Some(|v.arrays|) else None
  }

  /** Every place of the later state refers to what some place of the earlier one did, or to a new array. */
  ghost predicate ComesFrom(v: View, after: View, from: seq<nat>) {
    |from| == |after.cells| + 1 && forall k :: 0 <= k < |from| ==> Ref(after, k) == Source(v, from[k])
  }

  lemma RefIsArray(v: View, k: nat)
    requires Inv(v)
    ensures IsArray(Ref(v, k), |v.arrays|)
  {
  }

  /** Alike states are alike at the next new array, too. */
  lemma SourcesAlike(v: View, w: View, more: seq<seq<Out>>, i: nat, j: nat)
    requires Inv(v) && Inv(w) && SameRefs(v, w)
    ensures Shown(w.(arrays := w.arrays + more), Source(w, i)) == Shown(v.(arrays := v.arrays + more), Source(v, i))
    ensures Source(w, i) == Source(w, j) <==> Source(v, i) == Source(v, j)
  {
    RefIsArray(v, i);
    RefIsArray(w, i);
    RefIsArray(v, j);
    RefIsArray(w, j);
    if i <= |v.cells| {
      assert Shown(w, Ref(w, i)) == Shown(v, Ref(v, i));
    }
    if j <= |v.cells| {
      assert Shown(w, Ref(w, j)) == Shown(v, Ref(v, j));
    }
  }

  lemma Carried(v: View, w: View, v1: View, w1: View, more: seq<seq<Out>>, from: seq<nat>)
    requires Inv(v) && Inv(w) && SameRefs(v, w)
    requires v1.arrays == v.arrays + more && w1.arrays == w.arrays + more
    requires ComesFrom(v, v1, from) && ComesFrom(w, w1, from)
    ensures SameRefs(v1, w1)
  {
    forall i, j | 0 <= i < |from| && 0 <= j < |from|
      ensures Shown(w1, Ref(w1, i)) == Shown(v1, Ref(v1, i))
      ensures Ref(w1, i) == Ref(w1, j) <==> Ref(v1, i) == Ref(v1, j)
    {
      SourcesAlike(v, w, more, from[i], from[j]);
    }
  }

  /** The places of a state with one more cell at `p`, which refers to what place `source` did. */
  function Shifted(n: nat, p: nat, source: nat): seq<nat> {
    seq(n + 2, k requires 0 <= k < n + 2 => if k < p then k else if k == p then source else k - 1)
  }

  lemma InsertedFrom(v: View, more: seq<seq<Out>>, at: int, c: CellView, source: nat)
    requires c.outputs == Source(v, source)
    ensures ComesFrom(v, Inserted(v.(arrays := v.arrays + more), at, c), Shifted(|v.cells|, Bound(at, |v.cells|), source))
  {
    var after, p := Inserted(v.(arrays := v.arrays + more), at, c), Bound(at, |v.cells|);
    forall k | 0 <= k < |after.cells|
      ensures after.cells[k] == if k < p then v.cells[k] else if k == p then c else v.cells[k - 1]
    {
      InsertAt(v.cells, at, c, k);
    }
  }

  lemma InsertedAlike(v: View, w: View, more: seq<seq<Out>>, at: int, c: CellView, d: CellView, source: nat)
    requires Inv(v) && Inv(w) && Alike(v, w)
    requires c.outputs == Source(v, source) && d == c.(outputs := Source(w, source))
    ensures Alike(Inserted(v.(arrays := v.arrays + more), at, c), Inserted(w.(arrays := w.arrays + more), at, d))
  {
    var v1, w1 := Inserted(v.(arrays := v.arrays + more), at, c), Inserted(w.(arrays := w.arrays + more), at, d);
    InsertedFrom(v, more, at, c, source);
    InsertedFrom(w, more, at, d, source);
    Carried(v, w, v1, w1, more, Shifted(|v.cells|, Bound(at, |v.cells|), source));
    forall k | 0 <= k < |v1.cells|
      ensures w1.cells[k] == v1.cells[k].(outputs := w1.cells[k].outputs)
    {
      InsertAt(v.cells, at, c, k);
      InsertAt(w.cells, at, d, k);
    }
  }

  lemma AddedAlike(v: View, w: View, at: int, id: string)
    requires Inv(v) && Inv(w) && Alike(v, w)
    ensures Alike(Added(v, at, id), Added(w, at, id))
  {
    InsertedAlike(v, w, [[]], at, NewCell(id, |v.arrays|), NewCell(id, |w.arrays|), |v.cells| + 1);
  }

  /** What no comparison of arrays depends on. */
  lemma MovedAlike(v: View, w: View, focus: int, cut: Option<int>)
    requires Alike(v, w)
    ensures Alike(v.(focusedIndex := focus), w.(focusedIndex := focus))
    ensures Alike(v.(cutCellIndex := cut), w.(cutCellIndex := cut))
  {
    var v1, w1 := v.(focusedIndex := focus), w.(focusedIndex := focus);
    var v2, w2 := v.(cutCellIndex := cut), w.(cutCellIndex := cut);
    forall k | 0 <= k <= |v.cells|
      ensures Ref(v1, k) == Ref(v, k) == Ref(v2, k) && Ref(w1, k) == Ref(w, k) == Ref(w2, k)
      ensures Shown(w1, Ref(w, k)) == Shown(v1, Ref(v, k)) && Shown(w2, Ref(w, k)) == Shown(v2, Ref(v, k))
    {
      assert Shown(w, Ref(w, k)) == Shown(v, Ref(v, k));
    }
  }

  lemma PastedAlike(v: View, w: View, id: string)
    requires Inv(v) && Inv(w) && Alike(v, w)
    ensures Alike(Pasted(v, id), Pasted(w, id))
  {
    if v.copiedCell.Some? {
      var at := AfterFocus(v.focusedIndex, |v.cells|);
      var c, d := PastedCell(v.copiedCell.value, id), PastedCell(w.copiedCell.value, id);
      assert v.(arrays := v.arrays + []) == v && w.(arrays := w.arrays + []) == w;
      InsertedAlike(v, w, [], at, c, d, |v.cells|);
      MovedAlike(Inserted(v, at, c), Inserted(w, at, d), 0, None);
    }
  }

  /** The places of a state without cell `f`, with the clipboard referring to what place `clip` did. */
  function Closed(n: nat, f: nat, clip: nat): seq<nat>
    requires f < n
  {
    seq(n, k requires 0 <= k < n => if k < f then k else if k < n - 1 then k + 1 else clip)
  }

  lemma RemovedFrom(v: View, copied: Option<Clip>, clip: nat)
    requires 0 <= v.focusedIndex < |v.cells|
    requires Source(v, clip) == if copied.Some? then copied.value.outputs else None
    ensures ComesFrom(v, Removed(v).(copiedCell := copied), Closed(|v.cells|, v.focusedIndex, clip))
  {
    RemoveKeepsOthers(v.cells, v.focusedIndex);
  }

  lemma RemovedAlike(v: View, w: View, copied: Option<Clip>, other: Option<Clip>, clip: nat)
    requires Inv(v) && Inv(w) && Alike(v, w) && v.focusedIndex < |v.cells| && SameClip(copied, other)
    requires Source(v, clip) == if copied.Some? then copied.value.outputs else None
    requires Source(w, clip) == if other.Some? then other.value.outputs else None
    ensures Alike(Removed(v).(copiedCell := copied), Removed(w).(copiedCell := other))
  {
    var v1, w1 := Removed(v).(copiedCell := copied), Removed(w).(copiedCell := other);
    RemovedFrom(v, copied, clip);
    RemovedFrom(w, other, clip);
    assert v1.arrays == v.arrays + [] && w1.arrays == w.arrays + [];
    Carried(v, w, v1, w1, [], Closed(|v.cells|, v.focusedIndex, clip));
    RemovedSameFields(v, w, copied, other);
  }

  lemma RemovedSameFields(v: View, w: View, copied: Option<Clip>, other: Option<Clip>)
    requires SameFields(v, w) && 0 <= v.focusedIndex < |v.cells| && SameClip(copied, other)
    ensures SameFields(Removed(v).(copiedCell := copied), Removed(w).(copiedCell := other))
  {
    RemoveKeepsOthers(v.cells, v.focusedIndex);
    RemoveKeepsOthers(w.cells, w.focusedIndex);
  }

  /** The places of a state with as many cells, with the clipboard referring to what place `clip` did. */
  function Kept(n: nat, clip: nat): seq<nat> {
    seq(n + 1, k requires 0 <= k < n + 1 => if k < n then k else clip)
  }

  lemma CopiedAlike(v: View, w: View, i: int)
    requires Inv(v) && Inv(w) && Alike(v, w)
    ensures Alike(v.(copiedCell := ClipOf(v.cells, i)), w.(copiedCell := ClipOf(w.cells, i)))
  {
    var v1, w1 := v.(copiedCell := ClipOf(v.cells, i)), w.(copiedCell := ClipOf(w.cells, i));
    assert v1.arrays == v.arrays + [] && w1.arrays == w.arrays + [];
    Carried(v, w, v1, w1, [], Kept(|v.cells|, if 0 <= i < |v.cells| then i else |v.cells| + 2));
  }

  lemma TakenOutAlike(v: View, w: View)
    requires Inv(v) && Inv(w) && Alike(v, w)
    ensures Alike(Apply(v, Delete), Apply(w, Delete))
    ensures Alike(Apply(v, Cut), Apply(w, Cut))
  {
    var f := v.focusedIndex;
    var copied, other := ClipOf(v.cells, f), ClipOf(w.cells, f);
    if f < |v.cells| {
      RemovedAlike(v, w, v.copiedCell, w.copiedCell, |v.cells|);
      RemovedAlike(v, w, copied, other, f);
    } else {
      RemoveKeepsOthers(v.cells, f);
      RemoveKeepsOthers(w.cells, f);
      CopiedAlike(v, w, f);
    }
    MovedAlike(Removed(v).(copiedCell := copied), Removed(w).(copiedCell := other), 0, Some(f));
  }

  /** The places of a state in which the cells called `id` have a new array. */
  function Cleared(v: View, id: string): seq<nat> {
    seq(|v.cells| + 1, k requires 0 <= k < |v.cells| + 1 => if k < |v.cells| && v.cells[k].id == id then |v.cells| + 1 else k)
  }

  lemma ClearedFrom(v: View, id: string, count: Option<int>)
    requires FindCell(v.cells, id) >= 0
    ensures ComesFrom(v, Clearing(v, id, count), Cleared(v, id))
  {
  }

  lemma ClearedAlike(v: View, w: View, id: string, count: Option<int>)
    requires Inv(v) && Inv(w) && Alike(v, w)
    ensures Alike(Clearing(v, id, count), Clearing(w, id, count))
  {
    SameFind(v.cells, w.cells, id);
    if FindCell(v.cells, id) >= 0 {
      ClearedFrom(v, id, count);
      ClearedFrom(w, id, count);
      assert Cleared(w, id) == Cleared(v, id);
      Carried(v, w, Clearing(v, id, count), Clearing(w, id, count), [[]], Cleared(v, id));
    }
  }

  lemma PushedAlike(v: View, w: View, i: nat, x: Out)
    requires Inv(v) && Inv(w) && Alike(v, w) && i < |v.cells|
    ensures Alike(Push(v, i, x), Push(w, i, x))
  {
    assert Ref(v, i) == v.cells[i].outputs && Ref(w, i) == w.cells[i].outputs;
    RefIsArray(v, i);
    RefIsArray(w, i);
    if v.cells[i].outputs.None? {
      PushOnNone(v, i, x);
      PushOnNone(w, i, x);
    } else if IsEmptyAt(v, i) {
      PushOnEmpty(v, i, x);
      PushOnEmpty(w, i, x);
      Carried(v, w, Push(v, i, x), Push(w, i, x), [[x]], Kept(|v.cells|, |v.cells|)[i := |v.cells| + 1]);
    } else {
      FullPushedAlike(v, w, i, x);
    }
  }

  lemma FullPushedAlike(v: View, w: View, i: nat, x: Out)
    requires Inv(v) && Inv(w) && Alike(v, w) && i < |v.cells| && v.cells[i].outputs.Some? && !IsEmptyAt(v, i)
    ensures Alike(Push(v, i, x), Push(w, i, x))
  {
    var v1, w1 := Push(v, i, x), Push(w, i, x);
    assert Ref(v, i) == v.cells[i].outputs && Ref(w, i) == w.cells[i].outputs;
    RefIsArray(v, i);
    RefIsArray(w, i);
    assert Shown(w, Ref(w, i)) == Shown(v, Ref(v, i));
    PushOnFull(v, i, x);
    PushOnFull(w, i, x);
    forall k | 0 <= k <= |v.cells|
      ensures Ref(v1, k) == Ref(v, k) && Ref(w1, k) == Ref(w, k) && Shown(w1, Ref(w1, k)) == Shown(v1, Ref(v1, k))
    {
      RefIsArray(v, k);
      RefIsArray(w, k);
      assert Shown(w, Ref(w, k)) == Shown(v, Ref(v, k));
    }
  }

  lemma ReceivedAlike(v: View, w: View, m: Message)
    requires Inv(v) && Inv(w) && Alike(v, w)
    ensures Alike(Receiving(v, m), Receiving(w, m))
  {
    if Appends(m).Some? {
      SameFind(v.cells, w.cells, Appends(m).value.0);
      if FindCell(v.cells, Appends(m).value.0) >= 0 {
        PushedAlike(v, w, FindCell(v.cells, Appends(m).value.0), Appends(m).value.1);
      }
    } else {
      SameRefsKept(v, w, Receiving(v, m), Receiving(w, m));
    }
  }

  lemma SameRefsKept(v: View, w: View, v1: View, w1: View)
    requires Inv(v) && Inv(w) && SameRefs(v, w) && v1.arrays == v.arrays && w1.arrays == w.arrays
    requires |v1.cells| == |v.cells| == |w1.cells| && v1.copiedCell == v.copiedCell && w1.copiedCell == w.copiedCell
    requires forall k :: 0 <= k < |v.cells| ==> v1.cells[k].outputs == v.cells[k].outputs && w1.cells[k].outputs == w.cells[k].outputs
    ensures SameRefs(v1, w1)
  {
    assert v1.arrays == v.arrays + [] && w1.arrays == w.arrays + [];
    Carried(v, w, v1, w1, [], Kept(|v.cells|, |v.cells|));
  }

  lemma EditedAlike(v: View, w: View, e: Event)
    requires Inv(v) && Inv(w) && Alike(v, w) && (e.SetSource? || e.SetType?)
    ensures Alike(Apply(v, e), Apply(w, e))
  {
    SameRefsKept(v, w, Apply(v, e), Apply(w, e));
  }

  lemma InPlaceAlike(v: View, w: View, e: Event)
    requires Inv(v) && Inv(w) && Alike(v, w) && InPlace(e)
    ensures Alike(Apply(v, e), Apply(w, e))
  {
    match e
    case SetSource(_, _) => EditedAlike(v, w, e);
    case SetType(_) => EditedAlike(v, w, e);
    case Submit(id) => ClearedAlike(v, w, id, Some(-1));
    case SubmitPrompt(id) => ClearedAlike(v, w, id, None);
    case Receive(m) => ReceivedAlike(v, w, m);
  }

  lemma ArrowedAlike(v: View, w: View, e: Event)
    requires Inv(v) && Inv(w) && Alike(v, w) && e.ArrowDown?
    ensures Alike(Apply(v, e), Apply(w, e))
  {
    var f, at := v.focusedIndex, AfterFocus(v.focusedIndex, |v.cells|);
    if |v.cells| == f + 1 && e.addCell {
      AddedAlike(v, w, at, e.newId);
      MovedAlike(Added(v, at, e.newId), Added(w, at, e.newId), Min(f + 1, |v.cells|), None);
    } else {
      MovedAlike(v, w, Min(f + 1, |v.cells| - 1), None);
    }
  }

  lemma AlikeEnabled(v: View, w: View, e: Event)
    requires SameFields(v, w)
    ensures Enabled(w, e) <==> Enabled(v, e)
  {
  }

  lemma OthersAlike(v: View, w: View, e: Event)
    requires Inv(v) && Inv(w) && Alike(v, w) && !InPlace(e)
    ensures Alike(Apply(v, e), Apply(w, e))
  {
    var f := v.focusedIndex;
    match e
    case AddUp(id) => AddedAlike(v, w, f, id);
    case AddDown(id) => AddedAlike(v, w, AfterFocus(f, |v.cells|), id);
    case ArrowDown(_, _) => ArrowedAlike(v, w, e);
    case Paste(id) => PastedAlike(v, w, id);
    case Copy => CopiedAlike(v, w, f);
    case CopyByIndex(i) => CopiedAlike(v, w, i);
    case Delete => TakenOutAlike(v, w);
    case Cut => TakenOutAlike(v, w);
    case Focus(i) => MovedAlike(v, w, i, None);
    case Previous => MovedAlike(v, w, Max(f - 1, 0), None);
    case Next => MovedAlike(v, w, Min(f + 1, |v.cells| - 1), None);
  }

  /** Every event is possible in both of two alike states or in neither, and leaves them alike. */
  lemma AlikeStep(v: View, w: View, e: Event)
    requires Inv(v) && Inv(w) && Alike(v, w)
    ensures Enabled(w, e) <==> Enabled(v, e)
    ensures Alike(Apply(v, e), Apply(w, e))
  {
    AlikeEnabled(v, w, e);
    if InPlace(e) {
      InPlaceAlike(v, w, e);
    } else {
      OthersAlike(v, w, e);
    }
  }

  /** So is every run. */
  lemma {:induction false} AlikeRun(v: View, w: View, events: seq<Event>)
    requires Inv(v) && Inv(w) && Alike(v, w)
    ensures Run(w, events).Some? <==> Run(v, events).Some?
    ensures Run(v, events).Some? ==> Alike(Run(v, events).value, Run(w, events).value)
  {
    if events != [] {
      var before := events[..|events| - 1];
      AlikeRun(v, w, before);
      if Run(v, before).Some? {
        RunKeepsInv(v, before);
        RunKeepsInv(w, before);
        AlikeStep(Run(v, before).value, Run(w, before).value, events[|events| - 1]);
      }
    }
  }

  // ---------- Swapping messages inside a run ----------

  /** A run of two parts is a run of the second from where the first ends. */
  lemma {:induction false} RunOfParts(v: View, a: seq<Event>, b: seq<Event>)
    ensures Run(v, a + b) == if Run(v, a).None? then None else Run(Run(v, a).value, b)
    decreases |b|
  {
    if b == [] {
      assert a + b == a;
    } else {
      assert (a + b)[..|a + b| - 1] == a + b[..|b| - 1];
      RunOfParts(v, a, b[..|b| - 1]);
    }
  }

  lemma RunOfTwo(v: View, m: Message, n: Message)
    ensures Run(v, [Receive(m), Receive(n)]) == Some(Receiving(Receiving(v, m), n))
  {
    var events := [Receive(m), Receive(n)];
    assert events[..1] == [Receive(m)] && events[..1][..0] == [];
    assert Run(v, events[..1]) == Some(Receiving(v, m));
  }

  /** Two messages for different cells that arrive one after the other anywhere in a run, and do not
      clash there, may arrive the other way round: the runs end alike. */
  lemma SwapInRun(v: View, before: seq<Event>, m: Message, n: Message, after: seq<Event>)
    requires Inv(v) && ForCell(m) && ForCell(n) && m.parent != n.parent
    requires Run(v, before + [Receive(m), Receive(n)] + after).Some?
    requires Run(v, before).Some? ==> !Clashing(Run(v, before).value, m, n)
    ensures var swapped := Run(v, before + [Receive(n), Receive(m)] + after);
      swapped.Some? && Alike(Run(v, before + [Receive(m), Receive(n)] + after).value, swapped.value)
  {
    RunOfParts(v, before + [Receive(m), Receive(n)], after);
    RunOfParts(v, before + [Receive(n), Receive(m)], after);
    RunOfParts(v, before, [Receive(m), Receive(n)]);
    RunOfParts(v, before, [Receive(n), Receive(m)]);
    RunKeepsInv(v, before);
    var u := Run(v, before).value;
    RunOfTwo(u, m, n);
    RunOfTwo(u, n, m);
    MessagesCommute(u, m, n);
    ReceivingKeepsInv(u, m);
    ReceivingKeepsInv(u, n);
    ReceivingKeepsInv(Receiving(u, m), n);
    ReceivingKeepsInv(Receiving(u, n), m);
    AlikeRun(Receiving(Receiving(u, m), n), Receiving(Receiving(u, n), m), after);
  }

  // ---------- Any reordering that keeps each cell's own messages in order ----------

  function Received(messages: seq<Message>): seq<Event> {
    seq(|messages|, i requires 0 <= i < |messages| => Receive(messages[i]))
  }

  predicate AllForCells(messages: seq<Message>) {
    forall i :: 0 <= i < |messages| ==> ForCell(messages[i])
  }

  /** The messages for one cell, in order. */
  function Of(messages: seq<Message>, id: string): seq<Message>
    requires AllForCells(messages)
    decreases |messages|
  {
    if messages == [] then []
    else if messages[0].parent == id then [messages[0]] + Of(messages[1..], id)
    else Of(messages[1..], id)
  }

  /** Every cell gets the same messages in the same order. */
  ghost predicate SameForEachCell(a: seq<Message>, b: seq<Message>)
    requires AllForCells(a) && AllForCells(b)
  {
    forall id: string :: Of(a, id) == Of(b, id)
  }

  lemma {:induction false} OfParts(a: seq<Message>, b: seq<Message>, id: string)
    requires AllForCells(a) && AllForCells(b)
    ensures Of(a + b, id) == Of(a, id) + Of(b, id)
    decreases |a|
  {
    if a == [] {
      assert a + b == b;
    } else {
      assert (a + b)[1..] == a[1..] + b;
      OfParts(a[1..], b, id);
    }
  }

  /** The first message for a cell that gets any. */
  lemma {:induction false} FirstOf(messages: seq<Message>, id: string) returns (k: nat)
    requires AllForCells(messages) && Of(messages, id) != []
    ensures k < |messages| && messages[k] == Of(messages, id)[0] && messages[k].parent == id
    ensures forall i :: 0 <= i < k ==> messages[i].parent != id
    decreases |messages|
  {
    if messages[0].parent == id {
      k := 0;
    } else {
      k := FirstOf(messages[1..], id);
      k := k + 1;
    }
  }

  function Burst(v: View, messages: seq<Message>): View
    decreases |messages|
  {
    if messages == [] then v else Burst(Receiving(v, messages[0]), messages[1..])
  }

  lemma {:induction false} BurstIsRun(v: View, messages: seq<Message>)
    ensures Run(v, Received(messages)) == Some(Burst(v, messages))
    decreases |messages|
  {
    if messages != [] {
      var first := [Receive(messages[0])];
      assert Received(messages) == first + Received(messages[1..]);
      RunOfParts(v, first, Received(messages[1..]));
      assert first[..0] == [];
      BurstIsRun(Receiving(v, messages[0]), messages[1..]);
    }
  }

  lemma {:induction false} BurstAlike(v: View, w: View, messages: seq<Message>)
    requires Inv(v) && Inv(w) && Alike(v, w)
    ensures Alike(Burst(v, messages), Burst(w, messages))
    decreases |messages|
  {
    if messages != [] {
      ReceivedAlike(v, w, messages[0]);
      ReceivingKeepsInv(v, messages[0]);
      ReceivingKeepsInv(w, messages[0]);
      BurstAlike(Receiving(v, messages[0]), Receiving(w, messages[0]), messages[1..]);
    }
  }

  lemma ReceivingKeeps(v: View, m: Message)
    requires Inv(v) && Unshared(v.cells)
    ensures Inv(Receiving(v, m)) && Unshared(Receiving(v, m).cells)
  {
    ReceivingKeepsInv(v, m);
    ReceiveSharing(v, m);
  }

  /** The first two messages of a burst may change places. */
  lemma FirstTwoSwapped(v: View, x: Message, m: Message, rest: seq<Message>)
    requires Inv(v) && Unshared(v.cells) && ForCell(x) && ForCell(m) && x.parent != m.parent
    ensures Alike(Burst(v, [x, m] + rest), Burst(v, [m, x] + rest))
  {
    UnsharedNeverClash(v, x, m);
    MessagesCommute(v, x, m);
    TwoOfBurst(v, x, m, rest);
    TwoOfBurst(v, m, x, rest);
    BurstAlike(Receiving(Receiving(v, x), m), Receiving(Receiving(v, m), x), rest);
  }

  lemma TwoOfBurst(v: View, x: Message, y: Message, rest: seq<Message>)
    requires Inv(v)
    ensures Burst(v, [x, y] + rest) == Burst(Receiving(Receiving(v, x), y), rest)
    ensures Inv(Receiving(Receiving(v, x), y))
  {
    assert ([x, y] + rest)[1..] == [y] + rest && ([y] + rest)[1..] == rest;
    ReceivingKeepsInv(v, x);
    ReceivingKeepsInv(Receiving(v, x), y);
  }

  lemma OneOfBurst(v: View, x: Message, rest: seq<Message>)
    ensures Burst(v, [x] + rest) == Burst(Receiving(v, x), rest)
  {
    assert ([x] + rest)[1..] == rest;
  }

  /** A message may come before all those for other cells. */
  lemma {:induction false} MovedToFront(v: View, others: seq<Message>, m: Message, rest: seq<Message>)
    requires Inv(v) && Unshared(v.cells) && ForCell(m) && AllForCells(others)
    requires forall i :: 0 <= i < |others| ==> others[i].parent != m.parent
    ensures Alike(Burst(v, others + ([m] + rest)), Burst(v, [m] + (others + rest)))
    decreases |others|
  {
    if others == [] {
      assert [] + ([m] + rest) == [m] + ([] + rest);
      AlikeSelf(Burst(v, [m] + rest));
    } else {
      var x, xs := others[0], others[1..];
      assert others + ([m] + rest) == [x] + (xs + ([m] + rest));
      assert [x] + ([m] + (xs + rest)) == [x, m] + (xs + rest);
      assert [m] + (others + rest) == [m, x] + (xs + rest);
      ReceivingKeeps(v, x);
      MovedToFront(Receiving(v, x), xs, m, rest);
      OneOfBurst(v, x, xs + ([m] + rest));
      OneOfBurst(v, x, [m] + (xs + rest));
      FirstTwoSwapped(v, x, m, xs + rest);
      AlikeChain(Burst(v, others + ([m] + rest)), Burst(v, [x, m] + (xs + rest)), Burst(v, [m] + (others + rest)));
    }
  }

  /** Without the first message for its cell, every other cell gets what it got. */
  lemma WithoutFirst(a: seq<Message>, b: seq<Message>) returns (k: nat)
    requires AllForCells(a) && AllForCells(b) && SameForEachCell(a, b) && a != []
    ensures k < |b| && b[k] == a[0] && forall i :: 0 <= i < k ==> b[i].parent != a[0].parent
    ensures SameForEachCell(a[1..], b[..k] + b[k + 1..])
  {
    var m := a[0];
    k := FirstOf(b, m.parent);
    forall id: string
      ensures Of(a[1..], id) == Of(b[..k] + b[k + 1..], id)
    {
      assert Of(a, id) == Of(b, id);
      FirstTakenOut(b, k, id);
      if id == m.parent {
        assert Of(a, id)[1..] == Of(a[1..], id);
      }
    }
  }

  lemma FirstTakenOut(b: seq<Message>, k: nat, id: string)
    requires AllForCells(b) && k < |b| && forall i :: 0 <= i < k ==> b[i].parent != b[k].parent
    ensures var rest := Of(b[..k] + b[k + 1..], id);
      if b[k].parent != id then Of(b, id) == rest else Of(b, id) != [] && Of(b, id)[1..] == rest
  {
    assert b == b[..k] + b[k..] && b[k..][1..] == b[k + 1..];
    OfParts(b[..k], b[k..], id);
    OfParts(b[..k], b[k + 1..], id);
    if b[k].parent == id {
      NoneOf(b[..k], id);
    }
  }

  lemma {:induction false} NoneOf(messages: seq<Message>, id: string)
    requires AllForCells(messages) && forall i :: 0 <= i < |messages| ==> messages[i].parent != id
    ensures Of(messages, id) == []
    decreases |messages|
  {
    if messages != [] {
      NoneOf(messages[1..], id);
    }
  }

  lemma {:induction false} BurstsAlike(v: View, a: seq<Message>, b: seq<Message>)
    requires Inv(v) && Unshared(v.cells) && AllForCells(a) && AllForCells(b) && SameForEachCell(a, b)
    ensures Alike(Burst(v, a), Burst(v, b))
    decreases |a|
  {
    if a == [] {
      assert b != [] ==> Of(a, b[0].parent) == Of(b, b[0].parent);
      AlikeSelf(v);
    } else {
      var k := WithoutFirst(a, b);
      var m, others, rest := a[0], b[..k], b[k + 1..];
      ReceivingKeeps(v, m);
      BurstsAlike(Receiving(v, m), a[1..], others + rest);
      assert b == others + ([m] + rest);
      OneOfBurst(v, m, others + rest);
      MovedToFront(v, others, m, rest);
      AlikeBack(Burst(v, b), Burst(v, [m] + (others + rest)));
      AlikeChain(Burst(v, a), Burst(v, [m] + (others + rest)), Burst(v, b));
    }
  }

  /** Wherever a burst of messages arrives in a run that has shared no arrays so far, its end depends only
      on what each cell gets and in which order, not on how the messages for different cells interleave. */
  lemma OnlyOwnOrderMatters(v: View, before: seq<Event>, a: seq<Message>, b: seq<Message>, after: seq<Event>)
    requires Inv(v) && Unshared(v.cells) && Run(v, before).Some? && PastesFree(v, before)
    requires AllForCells(a) && AllForCells(b) && SameForEachCell(a, b)
    ensures var l, r := Run(v, before + Received(a) + after), Run(v, before + Received(b) + after);
      (l.Some? <==> r.Some?) && (l.Some? ==> Alike(l.value, r.value))
  {
    var u := Run(v, before).value;
    RunKeepsInv(v, before);
    RunKeepsUnshared(v, before);
    BurstsAlike(u, a, b);
    BurstFrom(v, before, a, after);
    BurstFrom(v, before, b, after);
    AlikeRun(Burst(u, a), Burst(u, b), after);
  }

  lemma BurstFrom(v: View, before: seq<Event>, a: seq<Message>, after: seq<Event>)
    requires Inv(v) && Run(v, before).Some?
    ensures Run(v, before + Received(a) + after) == Run(Burst(Run(v, before).value, a), after)
    ensures Inv(Burst(Run(v, before).value, a))
  {
    var u := Run(v, before).value;
    RunOfParts(v, before + Received(a), after);
    RunOfParts(v, before, Received(a));
    BurstIsRun(u, a);
    RunKeepsInv(v, before);
    RunKeepsInv(u, Received(a));
  }
}
