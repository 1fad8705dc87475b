/** Which cells share an output array, and what a cell's outputs come from. */
module EditorOutputs {
  import opened Options
  import opened Indices
  import opened EditorModel

  // ---------- When arrays become shared ----------

  /** No cell refers to the array. */
  ghost predicate InNoCell(cells: seq<CellView>, number: Option<nat>) {
    number.Some? ==> forall i :: 0 <= i < |cells| ==> cells[i].outputs != number
  }

  /** No cell has the clipboard's array any more, or it has none. */
  ghost predicate PasteFree(v: View) {
    v.copiedCell.Some? ==> InNoCell(v.cells, v.copiedCell.value.outputs)
  }

  lemma InsertSharing(cells: seq<CellView>, at: int, c: CellView)
    ensures Unshared(Insert(cells, at, c)) <==> Unshared(cells) && InNoCell(cells, c.outputs)
  {
    var after, p := Insert(cells, at, c), Bound(at, |cells|);
    forall j | 0 <= j < |after|
      ensures after[j] == if j < p then cells[j] else if j == p then c else cells[j - 1]
    {
      InsertAt(cells, at, c, j);
    }
    if Unshared(after) {
      forall i | 0 <= i < |cells|
        ensures cells[i] == after[if i < p then i else i + 1] && (c.outputs.Some? ==> cells[i].outputs != c.outputs)
      {
        assert after[p] == c;
      }
    }
  }

  /** A paste leaves all arrays unshared exactly when they were and no cell has the clipboard's array. */
  lemma PasteSharing(v: View, id: string)
    requires v.copiedCell.Some?
    ensures Unshared(Apply(v, Paste(id)).cells) <==> Unshared(v.cells) && PasteFree(v)
  {
    InsertSharing(v.cells, AfterFocus(v.focusedIndex, |v.cells|), PastedCell(v.copiedCell.value, id));
  }

  lemma AddSharing(v: View, at: int, id: string)
    requires Inv(v) && Unshared(v.cells)
    ensures Unshared(Added(v, at, id).cells)
  {
    assert forall i :: 0 <= i < |v.cells| ==> IsArray(v.cells[i].outputs, |v.arrays|);
    InsertSharing(v.cells, at, NewCell(id, |v.arrays|));
  }

  lemma RemoveSharing(v: View)
    requires v.focusedIndex >= 0 && Unshared(v.cells)
    ensures Unshared(Removed(v).cells)
    ensures v.focusedIndex < |v.cells| ==> InNoCell(Removed(v).cells, v.cells[v.focusedIndex].outputs)
  {
    RemoveKeepsOthers(v.cells, v.focusedIndex);
  }

  /** After a cut the clipboard's array is in no cell. */
  lemma CutFrees(v: View)
    requires Inv(v) && Unshared(v.cells)
    ensures PasteFree(Apply(v, Cut))
  {
    RemoveSharing(v);
  }

  lemma PushSharing(v: View, i: nat, out: Out)
    requires Inv(v) && Unshared(v.cells) && i < |v.cells|
    ensures Unshared(Push(v, i, out).cells)
  {
    assert forall j :: 0 <= j < |v.cells| ==> IsArray(v.cells[j].outputs, |v.arrays|);
  }

  lemma ClearSharing(v: View, id: string, count: Option<int>)
    requires Inv(v) && Unshared(v.cells)
    ensures Unshared(Clearing(v, id, count).cells)
  {
    assert forall j :: 0 <= j < |v.cells| ==> IsArray(v.cells[j].outputs, |v.arrays|);
  }

  lemma ReceiveSharing(v: View, m: Message)
    requires Inv(v) && Unshared(v.cells)
    ensures Unshared(Receiving(v, m).cells)
  {
    if Appends(m).Some? && FindCell(v.cells, Appends(m).value.0) >= 0 {
      PushSharing(v, FindCell(v.cells, Appends(m).value.0), Appends(m).value.1);
    }
  }

  /** No other event makes two cells share an array. */
  lemma StepKeepsUnshared(v: View, e: Event)
    requires Inv(v) && Unshared(v.cells) && (e.Paste? ==> PasteFree(v))
    ensures Unshared(Apply(v, e).cells)
  {
    var f, after := v.focusedIndex, AfterFocus(v.focusedIndex, |v.cells|);
    match e
    case AddUp(id) => AddSharing(v, f, id);
    case AddDown(id) => AddSharing(v, after, id);
    case ArrowDown(_, id) => AddSharing(v, after, id);
    case Paste(id) =>
      if v.copiedCell.Some? {
        PasteSharing(v, id);
      }
    case Delete => RemoveSharing(v);
    case Cut => RemoveSharing(v);
    case Submit(id) => ClearSharing(v, id, Some(-1));
    case SubmitPrompt(id) => ClearSharing(v, id, None);
    case Receive(m) => ReceiveSharing(v, m);
    case _ =>
  }

  /** Every paste of the run pastes an array that no cell has at that moment. */
  ghost predicate PastesFree(v: View, events: seq<Event>)
    requires Run(v, events).Some?
  {
    events == [] ||
    (PastesFree(v, events[..|events| - 1]) &&
     (events[|events| - 1].Paste? ==> PasteFree(Run(v, events[..|events| - 1]).value)))
  }

  lemma {:induction false} RunKeepsUnshared(v: View, events: seq<Event>)
    requires Inv(v) && Unshared(v.cells) && Run(v, events).Some? && PastesFree(v, events)
    ensures Unshared(Run(v, events).value.cells)
  {
    if events != [] {
      RunKeepsInv(v, events[..|events| - 1]);
      RunKeepsUnshared(v, events[..|events| - 1]);
      StepKeepsUnshared(Run(v, events[..|events| - 1]).value, events[|events| - 1]);
    }
  }

  // ---------- What a message changes ----------

  /** What the user sees of running a cell. */
  datatype Result = Result(id: string, executionCount: int, outputs: Option<seq<Out>>)

  function ResultOf(v: View, j: nat): Result
    requires j < |v.cells|
  {
    Result(v.cells[j].id, v.cells[j].executionCount, Shown(v, v.cells[j].outputs))
  }

  /** Pushing to cell `i` is seen in another cell exactly when that cell shares its non-empty array. */
  lemma PushIsSeen(v: View, i: nat, j: nat, out: Out)
    requires Inv(v) && i < |v.cells| && j < |v.cells| && j != i
    ensures var shared := v.cells[i].outputs.Some? && v.cells[j].outputs == v.cells[i].outputs && Shown(v, v.cells[i].outputs) != Some([]);
      var before, after := ResultOf(v, j), ResultOf(Push(v, i, out), j);
      && (after != before <==> shared)
      && (shared ==> after == before.(outputs := Some(before.outputs.value + [out])))
  {
    assert IsArray(v.cells[i].outputs, |v.arrays|) && IsArray(v.cells[j].outputs, |v.arrays|);
    if v.cells[i].outputs.Some? {
      var a, items := v.cells[i].outputs.value, v.arrays[v.cells[i].outputs.value];
      assert |items + [out]| != |items|;
      if items == [] {
        assert (v.arrays + [[out]])[..|v.arrays|] == v.arrays;
      } else {
        assert Push(v, i, out).arrays == v.arrays[a := items + [out]];
      }
    }
  }

  /** The addressed cell itself always shows the output, if it has an array. */
  lemma PushShows(v: View, i: nat, out: Out)
    requires Inv(v) && i < |v.cells|
    ensures var before, after := ResultOf(v, i), ResultOf(Push(v, i, out), i);
      after == if before.outputs.None? then before else before.(outputs := Some(before.outputs.value + [out]))
  {
    assert IsArray(v.cells[i].outputs, |v.arrays|);
    assert [] + [out] == [out];
  }

  // ---------- A cell's outputs come from its own messages ----------

  /** What one event does to a cell's result, seen from the cell alone. */
  function OwnStep(r: Result, e: Event): Result {
    match e
    case Submit(id) => if r.id == id then Result(r.id, -1, Some([])) else r
    case SubmitPrompt(id) => if r.id == id then r.(outputs := Some([])) else r
    case Receive(ExecuteInput(parent, count)) => if r.id == parent then r.(executionCount := count) else r
    case Receive(m) =>
      if Appends(m).Some? && r.id == Appends(m).value.0 && r.outputs.Some?
      then r.(outputs := Some(r.outputs.value + [Appends(m).value.1])) else r
    case _ => r
  }

  function OwnRun(r: Result, events: seq<Event>): Result {
    if events == [] then r else OwnStep(OwnRun(r, events[..|events| - 1]), events[|events| - 1])
  }

  lemma InsertOwn(v: View, at: int, c: CellView, j: nat) returns (k: nat)
    requires j < |Insert(v.cells, at, c)| && Insert(v.cells, at, c)[j].id != c.id
    ensures k < |v.cells| && v.cells[k] == Insert(v.cells, at, c)[j]
  {
    InsertAt(v.cells, at, c, j);
    var p := Bound(at, |v.cells|);
    k := if j < p then j else j - 1;
  }

  lemma RemoveOwn(v: View, j: nat) returns (k: nat)
    requires v.focusedIndex >= 0 && j < |Removed(v).cells|
    ensures k < |v.cells| && v.cells[k] == Removed(v).cells[j]
  {
    RemoveKeepsOthers(v.cells, v.focusedIndex);
    k := if j < v.focusedIndex then j else j + 1;
  }

  lemma MoreArraysShowSame(v: View, j: nat, more: seq<seq<Out>>)
    requires Inv(v) && j < |v.cells|
    ensures Shown(v.(arrays := v.arrays + more), v.cells[j].outputs) == Shown(v, v.cells[j].outputs)
  {
    assert IsArray(v.cells[j].outputs, |v.arrays|);
  }

  lemma AddOwn(v: View, at: int, id: string, j: nat) returns (k: nat)
    requires Inv(v) && j < |Added(v, at, id).cells| && Added(v, at, id).cells[j].id != id
    ensures k < |v.cells| && ResultOf(Added(v, at, id), j) == ResultOf(v, k)
  {
    k := InsertOwn(v, at, NewCell(id, |v.arrays|), j);
    MoreArraysShowSame(v, k, [[]]);
  }

  lemma ClearOwn(v: View, id: string, count: Option<int>, j: nat)
    requires Inv(v) && j < |v.cells|
    ensures ResultOf(Clearing(v, id, count), j) ==
      if v.cells[j].id != id then ResultOf(v, j)
      else Result(id, if count.Some? then count.value else v.cells[j].executionCount, Some([]))
  {
    MoreArraysShowSame(v, j, [[]]);
  }

  lemma ReceiveOwn(v: View, m: Message, j: nat)
    requires Inv(v) && Unshared(v.cells) && j < |v.cells|
    ensures ResultOf(Receiving(v, m), j) == OwnStep(ResultOf(v, j), Receive(m))
  {
    if Appends(m).Some? {
      var i := FindCell(v.cells, Appends(m).value.0);
      if i == j {
        PushShows(v, i, Appends(m).value.1);
      } else if i >= 0 {
        PushIsSeen(v, i, j, Appends(m).value.1);
        assert v.cells[i].id != v.cells[j].id;
      }
    }
  }

  lemma InPlaceOwn(v: View, e: Event, j: nat)
    requires Inv(v) && Unshared(v.cells) && InPlace(e) && j < |Apply(v, e).cells|
    ensures j < |v.cells| && ResultOf(Apply(v, e), j) == OwnStep(ResultOf(v, j), e)
  {
    match e
    case SetSource(id, value) =>
    case SetType(value) =>
    case Submit(id) => ClearOwn(v, id, Some(-1), j);
    case SubmitPrompt(id) => ClearOwn(v, id, None, j);
    case Receive(m) => ReceiveOwn(v, m, j);
  }

  /** A cell that was there before an event that adds cells is as it was. */
  lemma AddedOwn(v: View, e: Event, j: nat) returns (k: nat)
    requires Inv(v) && (e.AddUp? || e.AddDown? || e.ArrowDown? || e.Paste?) && Enabled(v, e)
    requires j < |Apply(v, e).cells| && Apply(v, e).cells[j].id in v.issued
    ensures k < |v.cells| && ResultOf(Apply(v, e), j) == ResultOf(v, k)
  {
    var f, after := v.focusedIndex, AfterFocus(v.focusedIndex, |v.cells|);
    k := j;
    match e
    case AddUp(id) => k := AddOwn(v, f, id, j);
    case AddDown(id) => k := AddOwn(v, after, id, j);
    case ArrowDown(addCell, id) =>
      if |v.cells| == f + 1 && addCell {
        k := AddOwn(v, after, id, j);
      }
    case Paste(id) =>
      if v.copiedCell.Some? {
        k := InsertOwn(v, after, PastedCell(v.copiedCell.value, id), j);
      }
  }

  /** So is one that remains after any other event that does not change cells in place. */
  lemma OldCellOwn(v: View, e: Event, j: nat) returns (k: nat)
    requires Inv(v) && !InPlace(e) && Enabled(v, e) && j < |Apply(v, e).cells| && Apply(v, e).cells[j].id in v.issued
    ensures k < |v.cells| && ResultOf(Apply(v, e), j) == ResultOf(v, k)
  {
    if e.AddUp? || e.AddDown? || e.ArrowDown? || e.Paste? {
      k := AddedOwn(v, e, j);
    } else if e.Cut? || (e.Delete? && v.focusedIndex < |v.cells|) {
      k := RemoveOwn(v, j);
    } else {
      k := j;
    }
  }

  /** While no arrays are shared, one event gives every cell that remains just what the cell's own share
      of it says. */
  lemma StepIsOwn(v: View, e: Event, j: nat) returns (k: nat)
    requires Inv(v) && Unshared(v.cells) && Enabled(v, e) && j < |Apply(v, e).cells| && Apply(v, e).cells[j].id in v.issued
    ensures k < |v.cells| && ResultOf(Apply(v, e), j) == OwnStep(ResultOf(v, k), e)
  {
    if InPlace(e) {
      k := j;
      InPlaceOwn(v, e, j);
    } else {
      k := OldCellOwn(v, e, j);
    }
  }

  lemma IssuedGrows(v: View, e: Event)
    ensures v.issued <= Apply(v, e).issued
  {
  }

  lemma {:induction false} StillIssued(v: View, events: seq<Event>)
    requires Run(v, events).Some?
    ensures v.issued <= Run(v, events).value.issued
  {
    if events != [] {
      StillIssued(v, events[..|events| - 1]);
      IssuedGrows(Run(v, events[..|events| - 1]).value, events[|events| - 1]);
    }
  }

  /** In every run in which each paste takes an array that no cell has, a cell that is still there has
      the outputs and count that the events addressed to it give it, whatever happened to other cells. */
  lemma {:induction false} OutputsAreOwn(v: View, events: seq<Event>, i: nat, j: nat)
    requires Inv(v) && Unshared(v.cells) && i < |v.cells| && Run(v, events).Some? && PastesFree(v, events)
    requires j < |Run(v, events).value.cells| && Run(v, events).value.cells[j].id == v.cells[i].id
    ensures ResultOf(Run(v, events).value, j) == OwnRun(ResultOf(v, i), events)
    decreases |events|
  {
    if events != [] {
      var n := |events| - 1;
      var before := Run(v, events[..n]).value;
      RunKeepsInv(v, events[..n]);
      RunKeepsUnshared(v, events[..n]);
      StillIssued(v, events[..n]);
      var k := StepIsOwn(before, events[n], j);
      OwnStepKeepsId(ResultOf(before, k), events[n]);
      OutputsAreOwn(v, events[..n], i, k);
    }
  }

  lemma OwnStepKeepsId(r: Result, e: Event)
    ensures OwnStep(r, e).id == r.id
  {
  }

  /** Pasting an array that a cell still has ends that: if the array is not empty, the next output of
      that cell is seen in the pasted one. */
  lemma PasteMixesOutputs(v: View, newId: string, i: nat, out: Out)
    requires Inv(v) && i < |v.cells| && v.copiedCell.Some? && newId !in v.issued
    requires v.cells[i].outputs.Some? && v.copiedCell.value.outputs == v.cells[i].outputs && Shown(v, v.cells[i].outputs) != Some([])
    ensures var pasted := Apply(v, Paste(newId));
      var after := Appending(pasted, v.cells[i].id, out);
      var j := FindCell(pasted.cells, newId);
      j >= 0 && |after.cells| == |pasted.cells| &&
      ResultOf(pasted, j).outputs == Shown(v, v.cells[i].outputs) &&
      ResultOf(after, j).outputs == Some(Shown(v, v.cells[i].outputs).value + [out])
  {
    var at, c := AfterFocus(v.focusedIndex, |v.cells|), PastedCell(v.copiedCell.value, newId);
    var pasted := Apply(v, Paste(newId));
    var p := Bound(at, |v.cells|);
    var l := if i < p then i else i + 1;
    StepKeepsInv(v, Paste(newId));
    InsertAt(v.cells, at, c, p);
    InsertAt(v.cells, at, c, l);
    assert pasted.cells[p] == c && pasted.cells[l] == v.cells[i];
    FoundAt(pasted.cells, p);
    FoundAt(pasted.cells, l);
    assert IsArray(v.cells[i].outputs, |v.arrays|);
    PushIsSeen(pasted, l, p, out);
  }

  /** What an event appends to cell `id`. */
  function AppendedBy(e: Event, id: string): seq<Out> {
    if e.Receive? && Appends(e.m).Some? && Appends(e.m).value.0 == id then [Appends(e.m).value.1] else []
  }

  function Appended(events: seq<Event>, id: string): seq<Out> {
    if events == [] then [] else Appended(events[..|events| - 1], id) + AppendedBy(events[|events| - 1], id)
  }

  predicate Clears(e: Event, id: string) {
    (e.Submit? || e.SubmitPrompt?) && e.id == id
  }

  lemma OwnStepAppends(r: Result, e: Event)
    requires r.outputs.Some? && !Clears(e, r.id)
    ensures OwnStep(r, e).id == r.id && OwnStep(r, e).outputs == Some(r.outputs.value + AppendedBy(e, r.id))
  {
    assert r.outputs.value + [] == r.outputs.value;
  }

  lemma {:induction false} OwnSinceClear(r: Result, before: seq<Event>, clear: Event, after: seq<Event>)
    requires Clears(clear, r.id) && forall i :: 0 <= i < |after| ==> !Clears(after[i], r.id)
    ensures OwnRun(r, before + [clear] + after).id == r.id
    ensures OwnRun(r, before + [clear] + after).outputs == Some(Appended(after, r.id))
    decreases |after|
  {
    var events := before + [clear] + after;
    var n := |events| - 1;
    if after == [] {
      assert events[..n] == before;
      OwnKeepsId(r, before);
    } else {
      var m := |after| - 1;
      assert events[..n] == before + [clear] + after[..m] && events[n] == after[m];
      OwnSinceClear(r, before, clear, after[..m]);
      OwnStepAppends(OwnRun(r, events[..n]), after[m]);
    }
  }

  lemma {:induction false} OwnKeepsId(r: Result, events: seq<Event>)
    ensures OwnRun(r, events).id == r.id
  {
    if events != [] {
      OwnKeepsId(r, events[..|events| - 1]);
    }
  }

  /** The event is a message that says that cell `id` is to show `out`. */
  ghost predicate Brings(e: Event, id: string, out: Out) {
    e.Receive? && Says(e.m, out) && e.m.parent == id
  }

  lemma BringsIsAppended(e: Event, id: string, out: Out)
    ensures Brings(e, id, out) <==> AppendedBy(e, id) == [out]
    ensures |AppendedBy(e, id)| <= 1
  {
    if e.Receive? {
      SaysIsAppended(e.m, out);
    }
  }

  /** `outs` are what the events at `ks` bring for cell `id`, and no other event brings anything for it. */
  ghost predicate Brought(events: seq<Event>, id: string, outs: seq<Out>, ks: seq<nat>) {
    && Increasing(ks, |events|) && |outs| == |ks|
    && (forall i :: 0 <= i < |ks| ==> Brings(events[ks[i]], id, outs[i]))
    && forall k: nat, out :: k < |events| && Brings(events[k], id, out) ==> k in ks
  }

  lemma {:induction false} AppendedIsBrought(events: seq<Event>, id: string) returns (ks: seq<nat>)
    ensures Brought(events, id, Appended(events, id), ks)
  {
    if events == [] {
      ks := [];
    } else {
      var n := |events| - 1;
      ks := AppendedIsBrought(events[..n], id);
      assert events == events[..n] + [events[n]];
      if AppendedBy(events[n], id) == [] {
        BroughtSkip(events[..n], id, Appended(events[..n], id), ks, events[n]);
      } else {
        BroughtTake(events[..n], id, Appended(events[..n], id), ks, events[n], AppendedBy(events[n], id)[0]);
        ks := ks + [n];
      }
    }
  }

  lemma BroughtSkip(events: seq<Event>, id: string, outs: seq<Out>, ks: seq<nat>, e: Event)
    requires Brought(events, id, outs, ks) && AppendedBy(e, id) == []
    ensures Brought(events + [e], id, outs + AppendedBy(e, id), ks)
  {
    forall k: nat, out | k < |events + [e]| && Brings((events + [e])[k], id, out)
      ensures k in ks
    {
      BringsIsAppended(e, id, out);
      assert k < |events| ==> Brings(events[k], id, out);
    }
    assert outs + [] == outs;
  }

  lemma BroughtTake(events: seq<Event>, id: string, outs: seq<Out>, ks: seq<nat>, e: Event, out: Out)
    requires Brought(events, id, outs, ks) && AppendedBy(e, id) == [out]
    ensures Brought(events + [e], id, outs + AppendedBy(e, id), ks + [|events|])
  {
    BringsIsAppended(e, id, out);
    forall k: nat, o | k < |events + [e]| && Brings((events + [e])[k], id, o)
      ensures k in ks + [|events|]
    {
      assert k < |events| ==> Brings(events[k], id, o);
    }
  }

  /** So its outputs are exactly what its own messages brought since it was last submitted: one output for
      every message that brings one, in order. */
  lemma OutputsSinceSubmit(v: View, before: seq<Event>, clear: Event, after: seq<Event>, i: nat, j: nat)
    returns (outs: seq<Out>, ks: seq<nat>)
    requires Inv(v) && Unshared(v.cells) && i < |v.cells|
    requires Run(v, before + [clear] + after).Some? && PastesFree(v, before + [clear] + after)
    requires Clears(clear, v.cells[i].id) && forall k :: 0 <= k < |after| ==> !Clears(after[k], v.cells[i].id)
    requires j < |Run(v, before + [clear] + after).value.cells|
    requires Run(v, before + [clear] + after).value.cells[j].id == v.cells[i].id
    ensures ResultOf(Run(v, before + [clear] + after).value, j).outputs == Some(outs)
    ensures Brought(after, v.cells[i].id, outs, ks)
  {
    OutputsAreOwn(v, before + [clear] + after, i, j);
    OwnSinceClear(ResultOf(v, i), before, clear, after);
    outs := Appended(after, v.cells[i].id);
    ks := AppendedIsBrought(after, v.cells[i].id);
  }

  // ---------- Messages for different cells commute ----------

  /** A message that concerns one cell. */
  predicate ForCell(m: Message) {
    m.ExecuteInput? || Appends(m).Some?
  }

  /** The array that cell `k` refers to, or past the cells the one the clipboard refers to. */
  function Ref(v: View, k: nat): Option<nat> {
    if k < |v.cells| then v.cells[k].outputs
    else if v.copiedCell.Some? then v.copiedCell.value.outputs
    else None
  }

  /** Cells, clipboard and all else are the same but for the arrays. */
  ghost predicate SameFields(v: View, w: View) {
    && |v.cells| == |w.cells|
    && w.(cells := v.cells, arrays := v.arrays, copiedCell := v.copiedCell) == v
    && (forall i :: 0 <= i < |v.cells| ==> w.cells[i] == v.cells[i].(outputs := w.cells[i].outputs))
    && SameClip(v.copiedCell, w.copiedCell)
  }

  predicate SameClip(c: Option<Clip>, d: Option<Clip>) {
    && (c.Some? <==> d.Some?)
    && (c.Some? ==> d.value == c.value.(outputs := d.value.outputs))
  }

  /** Cells and clipboard show the same and share alike. */
  ghost predicate SameRefs(v: View, w: View) {
    && |v.cells| == |w.cells|
    && (forall i :: 0 <= i <= |v.cells| ==> Shown(w, Ref(w, i)) == Shown(v, Ref(v, i)))
    && (forall i, j :: 0 <= i <= |v.cells| && 0 <= j <= |v.cells| ==> (Ref(w, i) == Ref(w, j) <==> Ref(v, i) == Ref(v, j)))
  }

  /** The same but for the numbers of the arrays. */
  ghost predicate Alike(v: View, w: View) {
    SameFields(v, w) && SameRefs(v, w)
  }

  /** The two cells share a non-empty array and get different outputs. */
  predicate Clash(v: View, i: nat, j: nat, x: Out, y: Out)
    requires i < |v.cells| && j < |v.cells|
  {
    v.cells[i].outputs.Some? && v.cells[i].outputs == v.cells[j].outputs && Shown(v, v.cells[i].outputs) != Some([]) && x != y
  }

  /** The cell has an array, and it is empty. */
  predicate IsEmptyAt(v: View, i: nat)
    requires i < |v.cells|
  {
    Shown(v, v.cells[i].outputs) == Some([])
  }

  lemma PushOnEmpty(v: View, i: nat, x: Out)
    requires i < |v.cells| && IsEmptyAt(v, i)
    ensures Push(v, i, x) == v.(cells := v.cells[i := v.cells[i].(outputs := Some(|v.arrays|))], arrays := v.arrays + [[x]])
  {
  }

  lemma PushOnFull(v: View, i: nat, x: Out)
    requires i < |v.cells| && Shown(v, v.cells[i].outputs).Some? && !IsEmptyAt(v, i)
    ensures var a := v.cells[i].outputs.value; Push(v, i, x) == v.(arrays := v.arrays[a := v.arrays[a] + [x]])
  {
  }

  lemma PushOnNone(v: View, i: nat, x: Out)
    requires i < |v.cells| && Shown(v, v.cells[i].outputs).None?
    ensures Push(v, i, x) == v
  {
  }

  lemma AlikeSelf(v: View)
    ensures Alike(v, v)
  {
  }

  /** One cell without an array: the other push is the only one that does anything. */
  lemma NoneCommutes(v: View, i: nat, j: nat, x: Out, y: Out)
    requires Inv(v) && i < |v.cells| && j < |v.cells| && i != j && v.cells[i].outputs.None?
    ensures Push(Push(v, i, x), j, y) == Push(Push(v, j, y), i, x)
  {
    PushOnNone(v, i, x);
    PushOnNone(Push(v, j, y), i, x);
  }

  lemma EmptyAndFullCommute(v: View, i: nat, j: nat, x: Out, y: Out)
    requires Inv(v) && i < |v.cells| && j < |v.cells| && i != j
    requires IsEmptyAt(v, i) && v.cells[j].outputs.Some? && !IsEmptyAt(v, j)
    ensures Push(Push(v, i, x), j, y) == Push(Push(v, j, y), i, x)
  {
    var b := v.cells[j].outputs.value;
    assert IsArray(v.cells[i].outputs, |v.arrays|) && IsArray(v.cells[j].outputs, |v.arrays|);
    PushOnEmpty(v, i, x);
    PushOnFull(v, j, y);
    PushOnFull(Push(v, i, x), j, y);
    PushOnEmpty(Push(v, j, y), i, x);
    assert (v.arrays + [[x]])[b := v.arrays[b] + [y]] == v.arrays[b := v.arrays[b] + [y]] + [[x]];
  }

  lemma FullsCommute(v: View, i: nat, j: nat, x: Out, y: Out)
    requires Inv(v) && i < |v.cells| && j < |v.cells| && i != j
    requires v.cells[i].outputs.Some? && !IsEmptyAt(v, i) && v.cells[j].outputs.Some? && !IsEmptyAt(v, j)
    ensures Push(Push(v, i, x), j, y) == Push(Push(v, j, y), i, x) <==> !Clash(v, i, j, x, y)
    ensures Clash(v, i, j, x, y) ==> !SameRefs(Push(Push(v, i, x), j, y), Push(Push(v, j, y), i, x))
  {
    assert IsArray(v.cells[i].outputs, |v.arrays|) && IsArray(v.cells[j].outputs, |v.arrays|);
    var a, b := v.cells[i].outputs.value, v.cells[j].outputs.value;
    PushOnFull(v, i, x);
    PushOnFull(v, j, y);
    PushOnFull(Push(v, i, x), j, y);
    PushOnFull(Push(v, j, y), i, x);
    SeqPushes(v.arrays, a, b, x, y);
    assert Ref(Push(Push(v, i, x), j, y), i) == Some(a) == Ref(Push(Push(v, j, y), i, x), i);
  }

  lemma SeqPushes(arrays: seq<seq<Out>>, a: nat, b: nat, x: Out, y: Out)
    requires a < |arrays| && b < |arrays|
    ensures var l, r := arrays[a := arrays[a] + [x]], arrays[b := arrays[b] + [y]];
      && (l[b := l[b] + [y]] == r[a := r[a] + [x]] <==> a != b || x == y)
      && (a == b && x != y ==> l[b := l[b] + [y]][a] != r[a := r[a] + [x]][a])
  {
    var l, r, s := arrays[a := arrays[a] + [x]], arrays[b := arrays[b] + [y]], arrays[a];
    var ly, rx := l[b := l[b] + [y]], r[a := r[a] + [x]];
    if a == b {
      assert ly[a] == s + [x] + [y] && rx[a] == s + [y] + [x];
      assert (s + [x] + [y])[|s|] == x && (s + [y] + [x])[|s|] == y;
      if x == y {
        assert ly == rx;
      }
    } else {
      assert ly == rx;
    }
  }

  /** The state after cells `i` and `j` have both got a new array, `i` first. */
  function BothNew(v: View, i: nat, j: nat, x: Out, y: Out): View
    requires i < |v.cells| && j < |v.cells|
  {
    var n := |v.arrays|;
    v.(cells := v.cells[i := v.cells[i].(outputs := Some(n))][j := v.cells[j].(outputs := Some(n + 1))],
       arrays := v.arrays + [[x], [y]])
  }

  lemma PushBoth(v: View, i: nat, j: nat, x: Out, y: Out)
    requires Inv(v) && i < |v.cells| && j < |v.cells| && i != j && IsEmptyAt(v, i) && IsEmptyAt(v, j)
    ensures Push(Push(v, i, x), j, y) == BothNew(v, i, j, x, y)
  {
    PushOnEmpty(v, i, x);
    PushOnEmpty(Push(v, i, x), j, y);
    assert v.arrays + [[x]] + [[y]] == v.arrays + [[x], [y]];
  }

  /** Two empty arrays are both replaced by new ones, which get their numbers in another order. */
  lemma EmptiesCommute(v: View, i: nat, j: nat, x: Out, y: Out)
    requires Inv(v) && i < |v.cells| && j < |v.cells| && i != j && IsEmptyAt(v, i) && IsEmptyAt(v, j)
    ensures Alike(Push(Push(v, i, x), j, y), Push(Push(v, j, y), i, x))
  {
    PushBoth(v, i, j, x, y);
    PushBoth(v, j, i, y, x);
    BothNewAlike(v, i, j, x, y);
  }

  lemma BothNewRef(v: View, i: nat, j: nat, x: Out, y: Out, k: nat)
    requires Inv(v) && i < |v.cells| && j < |v.cells| && i != j
    ensures var w := BothNew(v, i, j, x, y);
      && Ref(w, k) == (if k == i then Some(|v.arrays|) else if k == j then Some(|v.arrays| + 1) else Ref(v, k))
      && Shown(w, Ref(w, k)) == (if k == i then Some([x]) else if k == j then Some([y]) else Shown(v, Ref(v, k)))
    ensures IsArray(Ref(v, k), |v.arrays|)
  {
    assert k < |v.cells| ==> IsArray(v.cells[k].outputs, |v.arrays|);
  }

  lemma BothNewAlike(v: View, i: nat, j: nat, x: Out, y: Out)
    requires Inv(v) && i < |v.cells| && j < |v.cells| && i != j
    ensures Alike(BothNew(v, i, j, x, y), BothNew(v, j, i, y, x))
  {
    var a, b := BothNew(v, i, j, x, y), BothNew(v, j, i, y, x);
    forall k, l | 0 <= k <= |v.cells| && 0 <= l <= |v.cells|
      ensures Shown(b, Ref(b, k)) == Shown(a, Ref(a, k)) && (Ref(b, k) == Ref(b, l) <==> Ref(a, k) == Ref(a, l))
    {
      BothNewRef(v, i, j, x, y, k);
      BothNewRef(v, j, i, y, x, k);
      BothNewRef(v, i, j, x, y, l);
      BothNewRef(v, j, i, y, x, l);
    }
  }

  /** Two pushes to different cells may be made in either order exactly when they do not clash. */
  lemma PushesCommute(v: View, i: nat, j: nat, x: Out, y: Out)
    requires Inv(v) && i < |v.cells| && j < |v.cells| && i != j
    ensures Alike(Push(Push(v, i, x), j, y), Push(Push(v, j, y), i, x)) <==> !Clash(v, i, j, x, y)
  {
    assert IsArray(v.cells[i].outputs, |v.arrays|) && IsArray(v.cells[j].outputs, |v.arrays|);
    AlikeSelf(Push(Push(v, i, x), j, y));
    if v.cells[i].outputs.None? {
      NoneCommutes(v, i, j, x, y);
    } else if v.cells[j].outputs.None? {
      NoneCommutes(v, j, i, y, x);
    } else if IsEmptyAt(v, i) && IsEmptyAt(v, j) {
      EmptiesCommute(v, i, j, x, y);
    } else if IsEmptyAt(v, i) {
      EmptyAndFullCommute(v, i, j, x, y);
    } else if IsEmptyAt(v, j) {
      EmptyAndFullCommute(v, j, i, y, x);
    } else {
      FullsCommute(v, i, j, x, y);
    }
  }

  /** The messages append different outputs to a non-empty array that their two cells share. */
  predicate Clashing(v: View, m: Message, n: Message) {
    && Appends(m).Some? && Appends(n).Some?
    && var i, j := FindCell(v.cells, Appends(m).value.0), FindCell(v.cells, Appends(n).value.0);
       i >= 0 && j >= 0 && Clash(v, i, j, Appends(m).value.1, Appends(n).value.1)
  }

  /** Setting a count and pushing to another cell. */
  lemma CountCommutes(v: View, id: string, count: int, i: nat, y: Out)
    requires Inv(v) && i < |v.cells| && v.cells[i].id != id
    ensures var counted := v.(cells := SetCount(v.cells, id, count));
      Push(counted, i, y) == Push(v, i, y).(cells := SetCount(Push(v, i, y).cells, id, count))
  {
    var counted := v.(cells := SetCount(v.cells, id, count));
    assert counted.cells[i] == v.cells[i];
    assert SetCount(v.cells[i := v.cells[i].(outputs := Some(|v.arrays|))], id, count) ==
           SetCount(v.cells, id, count)[i := v.cells[i].(outputs := Some(|v.arrays|))];
  }

  lemma SameFind(cells: seq<CellView>, others: seq<CellView>, id: string)
    requires |cells| == |others| && forall i :: 0 <= i < |cells| ==> cells[i].id == others[i].id
    ensures FindCell(cells, id) == FindCell(others, id)
  {
  }

  lemma CountAndAppendCommute(v: View, m: Message, n: Message)
    requires Inv(v) && m.ExecuteInput? && Appends(n).Some? && m.parent != Appends(n).value.0
    ensures Receiving(Receiving(v, m), n) == Receiving(Receiving(v, n), m)
  {
    var (to, y) := Appends(n).value;
    SameFind(v.cells, SetCount(v.cells, m.parent, m.executionCount), to);
    var i := FindCell(v.cells, to);
    if i >= 0 {
      CountCommutes(v, m.parent, m.executionCount, i, y);
    }
  }

  lemma ReceivingAppends(v: View, m: Message)
    requires Appends(m).Some?
    ensures Receiving(v, m) == Appending(v, Appends(m).value.0, Appends(m).value.1)
  {
  }

  lemma PushKeepsIds(v: View, i: nat, x: Out, id: string)
    requires i < |v.cells|
    ensures |Push(v, i, x).cells| == |v.cells| && FindCell(Push(v, i, x).cells, id) == FindCell(v.cells, id)
  {
    SameFind(v.cells, Push(v, i, x).cells, id);
  }

  function PushTo(v: View, i: int, x: Out): View {
    if 0 <= i < |v.cells| then Push(v, i, x) else v
  }

  lemma AppendTwice(v: View, p: string, x: Out, q: string, y: Out)
    ensures Appending(Appending(v, p, x), q, y) == PushTo(PushTo(v, FindCell(v.cells, p), x), FindCell(v.cells, q), y)
  {
    var i := FindCell(v.cells, p);
    if i >= 0 {
      PushKeepsIds(v, i, x, q);
    }
  }

  lemma AppendingsCommute(v: View, p: string, x: Out, q: string, y: Out)
    requires Inv(v) && p != q
    ensures var i, j := FindCell(v.cells, p), FindCell(v.cells, q);
      Alike(Appending(Appending(v, p, x), q, y), Appending(Appending(v, q, y), p, x)) <==>
      !(i >= 0 && j >= 0 && Clash(v, i, j, x, y))
  {
    var i, j := FindCell(v.cells, p), FindCell(v.cells, q);
    AppendTwice(v, p, x, q, y);
    AppendTwice(v, q, y, p, x);
    if i >= 0 && j >= 0 {
      PushesCommute(v, i, j, x, y);
      PushKeepsIds(v, i, x, q);
      PushKeepsIds(v, j, y, p);
    } else {
      AlikeSelf(PushTo(PushTo(v, i, x), j, y));
    }
  }

  lemma AppendsCommute(v: View, m: Message, n: Message)
    requires Inv(v) && Appends(m).Some? && Appends(n).Some? && Appends(m).value.0 != Appends(n).value.0
    ensures Alike(Receiving(Receiving(v, m), n), Receiving(Receiving(v, n), m)) <==> !Clashing(v, m, n)
  {
    var (p, x) := Appends(m).value;
    var (q, y) := Appends(n).value;
    ReceivingAppends(v, m);
    ReceivingAppends(v, n);
    ReceivingAppends(Appending(v, p, x), n);
    ReceivingAppends(Appending(v, q, y), m);
    AppendingsCommute(v, p, x, q, y);
  }

  lemma UnsharedNeverClash(v: View, m: Message, n: Message)
    requires Unshared(v.cells) && ForCell(m) && ForCell(n) && m.parent != n.parent
    ensures !Clashing(v, m, n)
  {
  }

  /** Messages for different cells may be handled in either order exactly when they do not clash. */
  lemma MessagesCommute(v: View, m: Message, n: Message)
    requires Inv(v) && ForCell(m) && ForCell(n) && m.parent != n.parent
    ensures Alike(Receiving(Receiving(v, m), n), Receiving(Receiving(v, n), m)) <==> !Clashing(v, m, n)
  {
    if m.ExecuteInput? || n.ExecuteInput? {
      CountsCommute(v, m, n);
      AlikeSelf(Receiving(Receiving(v, m), n));
    } else {
      AppendsCommute(v, m, n);
    }
  }

  lemma CountsCommute(v: View, m: Message, n: Message)
    requires Inv(v) && ForCell(m) && ForCell(n) && m.parent != n.parent && (m.ExecuteInput? || n.ExecuteInput?)
    ensures Receiving(Receiving(v, m), n) == Receiving(Receiving(v, n), m)
  {
    if m.ExecuteInput? && n.ExecuteInput? {
      assert SetCount(SetCount(v.cells, m.parent, m.executionCount), n.parent, n.executionCount) ==
             SetCount(SetCount(v.cells, n.parent, n.executionCount), m.parent, m.executionCount);
    } else if m.ExecuteInput? {
      CountAndAppendCommute(v, m, n);
    } else {
      CountAndAppendCommute(v, n, m);
    }
  }
}
