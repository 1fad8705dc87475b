/** NotebookEditor.tsx on values: what each event does to the list of cells, the output arrays they refer
    to, the focus and the clipboard. The arrays as objects changed in place are in Editor.dfy. */
module EditorModel {
  import opened Options
  import opened Ansi

  // ---------- JavaScript slices ----------

  /** Where a slice bound lands in a list of `n`: negative bounds count from the end. */
  function Bound(k: int, n: nat): (b: nat)
    ensures b <= n
  {
    if k < 0 then if n + k < 0 then 0 else n + k
    else if k > n then n else k
  }

  /** The elements from one bound up to another. */
  function Slice<T>(s: seq<T>, start: int, end: int): seq<T> {
    var a, b := Bound(start, |s|), Bound(end, |s|);
    if a < b then s[a..b] else []
  }

  /** The elements from a bound on. */
  function SliceFrom<T>(s: seq<T>, start: int): seq<T> {
    s[Bound(start, |s|)..]
  }

  // ---------- Cells and events ----------

  datatype Out =
    | ErrorOut(ename: string, evalue: string, traceback: seq<string>)
    | StreamOut(text: string)
    | ResultOut(data: string)
    | DisplayOut(data: string)

  /** A cell refers to its output array by the array's number; None where the server sent null. */
  datatype CellView = CellView(id: string, source: string, cellType: string, executionCount: int, outputs: Option<nat>)

  /** The clipboard keeps the cell's fields, with the very array the cell had. */
  datatype Clip = Clip(source: string, cellType: string, executionCount: int, outputs: Option<nat>)

  /** `arrays` holds the contents of every output array ever made, in the order they were made. */
  datatype View = View(
    cells: seq<CellView>, arrays: seq<seq<Out>>, focusedIndex: int, copiedCell: Option<Clip>, cutCellIndex: Option<int>,
    showPrompt: bool, inspectReplyMessage: string, kernelStatus: string,
    issued: set<string>)  // history: ids ever given to a cell

  datatype Message =
    | InputRequest
    | InspectReply(text: string)
    | Status(executionState: string)
    | ExecuteInput(parent: string, executionCount: int)
    | ErrorMessage(parent: string, ename: string, evalue: string, traceback: seq<string>)
    | Stream(parent: string, name: string, text: string)
    | ExecuteResult(parent: string, data: string)
    | DisplayData(parent: string, data: string)
    | OtherMessage

  datatype Event =
    | AddUp(newId: string) | AddDown(newId: string)
    | Delete | Copy | CopyByIndex(index: nat) | Cut | Paste(newId: string)
    | SetSource(id: string, value: string) | SetType(value: string)
    | Submit(id: string) | SubmitPrompt(id: string)
    | Focus(index: nat) | Previous | Next | ArrowDown(addCell: bool, newId: string)
    | Receive(m: Message)

  function Min(a: int, b: int): int { if a < b then a else b }

  function Max(a: int, b: int): int { if a < b then b else a }

  function NewCell(id: string, number: nat): CellView {
    CellView(id, "", "code", 0, Some(number))
  }

  /** The output a message appends, and to which cell. */
  function Appends(m: Message): Option<(string, Out)> {
    match m
    case ErrorMessage(p, n, v, t) => Some((p, ErrorOut(n, v, t)))
    case Stream(p, name, text) => if name == "stdout" then Some((p, StreamOut(RemoveAnsiCodes(text)))) else None
    case ExecuteResult(p, data) => Some((p, ResultOut(data)))
    case DisplayData(p, data) => Some((p, DisplayOut(data)))
    case _ => None
  }

  /** What the addressed cell is to show for a message, kind by kind; most kinds show nothing. */
  ghost predicate Says(m: Message, out: Out) {
    match m
    case ErrorMessage(_, ename, evalue, traceback) => out == ErrorOut(ename, evalue, traceback)
    case Stream(_, name, text) => name == "stdout" && out.StreamOut? && CodesTakenOut(text, out.text)
    case ExecuteResult(_, data) => out == ResultOut(data)
    case DisplayData(_, data) => out == DisplayOut(data)
    case _ => false
  }

  /** The output pushed is just the one the message says. */
  lemma SaysIsAppended(m: Message, out: Out)
    ensures Says(m, out) <==> Appends(m).Some? && Appends(m).value == (m.parent, out)
  {
    if m.Stream? && out.StreamOut? {
      CleanedExactly(m.text, out.text);
    }
  }

  /** The first cell called `id`, or -1. */
  function FindCell(cells: seq<CellView>, id: string): (i: int)
    ensures -1 <= i < |cells|
    ensures i >= 0 ==> cells[i].id == id && forall j :: 0 <= j < i ==> cells[j].id != id
    ensures i < 0 ==> forall j :: 0 <= j < |cells| ==> cells[j].id != id
  {
    if cells == [] then -1
    else
      var i := FindCell(cells[..|cells| - 1], id);
      if i >= 0 then i else if cells[|cells| - 1].id == id then |cells| - 1 else -1
  }

  /** The contents of the array with this number. */
  function Shown(v: View, number: Option<nat>): Option<seq<Out>> {
    if number.Some? && number.value < |v.arrays| then Some(v.arrays[number.value]) else None
  }

  /** An output is pushed to cell number `i`, which first gets a new array if its own is empty. A cell
      without an array throws, and the update is lost. */
  function Push(v: View, i: nat, out: Out): View
    requires i < |v.cells|
  {
    var c := v.cells[i];
    var items := Shown(v, c.outputs);
    if items.None? then v
    else if items.value == [] then v.(cells := v.cells[i := c.(outputs := Some(|v.arrays|))], arrays := v.arrays + [[out]])
    else v.(arrays := v.arrays[c.outputs.value := items.value + [out]])
  }

  function SetCount(cells: seq<CellView>, id: string, count: int): seq<CellView> {
    seq(|cells|, i requires 0 <= i < |cells| => if cells[i].id == id then cells[i].(executionCount := count) else cells[i])
  }

  /** The message is to append to a cell that exists but has no array. */
  predicate Throws(v: View, m: Message) {
    Appends(m).Some? && var i := FindCell(v.cells, Appends(m).value.0); i >= 0 && v.cells[i].outputs.None?
  }

  function Receiving(v: View, m: Message): View {
    match m
    case InputRequest => v.(showPrompt := true)
    case InspectReply(text) => v.(inspectReplyMessage := text)
    case Status(state) => v.(kernelStatus := state)
    case ExecuteInput(parent, count) => v.(cells := SetCount(v.cells, parent, count))
    case _ => if Appends(m).Some? then Appending(v, Appends(m).value.0, Appends(m).value.1) else v
  }

  function Appending(v: View, parent: string, out: Out): View {
    var i := FindCell(v.cells, parent);
    if i < 0 then v else Push(v, i, out)
  }

  /** A cell with this id refers to the given array, and gets the count when there is one. */
  function ClearOne(c: CellView, id: string, count: Option<int>, number: nat): CellView {
    if c.id != id then c
    else c.(outputs := Some(number), executionCount := if count.Some? then count.value else c.executionCount)
  }

  function ClearAll(cells: seq<CellView>, id: string, count: Option<int>, number: nat): seq<CellView> {
    seq(|cells|, i requires 0 <= i < |cells| => ClearOne(cells[i], id, count, number))
  }

  function Clearing(v: View, id: string, count: Option<int>): View {
    if FindCell(v.cells, id) < 0 then v
    else v.(cells := ClearAll(v.cells, id, count, |v.arrays|), arrays := v.arrays + [[]])
  }

  function SetSourceAll(cells: seq<CellView>, id: string, value: string): seq<CellView> {
    seq(|cells|, i requires 0 <= i < |cells| => if cells[i].id == id then cells[i].(source := value) else cells[i])
  }

  function SetTypeAt(cells: seq<CellView>, index: int, value: string): seq<CellView> {
    seq(|cells|, i requires 0 <= i < |cells| => if i == index then cells[i].(cellType := value) else cells[i])
  }

  /** The place after the focused cell, or the end when the focus is on no cell. */
  function AfterFocus(focusedIndex: int, n: nat): nat {
    if 0 <= focusedIndex < n then focusedIndex + 1 else n
  }

  function Insert(cells: seq<CellView>, at: int, c: CellView): seq<CellView> {
    Slice(cells, 0, at) + [c] + SliceFrom(cells, at)
  }

  function ClipOf(cells: seq<CellView>, i: int): Option<Clip> {
    if 0 <= i < |cells| then Some(Clip(cells[i].source, cells[i].cellType, cells[i].executionCount, cells[i].outputs)) else None
  }

  /** The state with one more cell. */
  function Inserted(v: View, at: int, c: CellView): View {
    v.(cells := Insert(v.cells, at, c), issued := v.issued + {c.id})
  }

  /** The state with one more cell that has a new empty array. */
  function Added(v: View, at: int, id: string): View {
    Inserted(v.(arrays := v.arrays + [[]]), at, NewCell(id, |v.arrays|))
  }

  /** The state without the focused cell, as both slices leave it. */
  function Removed(v: View): View {
    v.(cells := Slice(v.cells, 0, v.focusedIndex) + SliceFrom(v.cells, v.focusedIndex + 1))
  }

  function PastedCell(clip: Clip, id: string): CellView {
    CellView(id, clip.source, clip.cellType, clip.executionCount, clip.outputs)
  }

  /** The clipboard's cell after the focus, under a new id and with the clipboard's own array. */
  function Pasted(v: View, id: string): View {
    if v.copiedCell.None? then v
    else Inserted(v, AfterFocus(v.focusedIndex, |v.cells|), PastedCell(v.copiedCell.value, id)).(cutCellIndex := None)
  }

  function Apply(v: View, e: Event): View {
    var f, n := v.focusedIndex, |v.cells|;
    match e
    case AddUp(id) => Added(v, f, id)
    case AddDown(id) => Added(v, AfterFocus(f, n), id)
    case Delete => if f < 0 || f >= n then v else Removed(v)
    case Copy => v.(copiedCell := ClipOf(v.cells, f))
    case CopyByIndex(i) => v.(copiedCell := ClipOf(v.cells, i))
    case Cut => Removed(v).(copiedCell := ClipOf(v.cells, f), cutCellIndex := Some(f))
    case Paste(id) => Pasted(v, id)
    case SetSource(id, value) => v.(cells := SetSourceAll(v.cells, id, value))
    case SetType(value) => v.(cells := SetTypeAt(v.cells, f, value))
    case Submit(id) => Clearing(v, id, Some(-1))
    case SubmitPrompt(id) => Clearing(v, id, None)
    case Focus(i) => v.(focusedIndex := i)
    case Previous => v.(focusedIndex := Max(f - 1, 0))
    case Next => v.(focusedIndex := Min(f + 1, n - 1))
    case ArrowDown(addCell, id) =>
      if n == f + 1 && addCell then Added(v, AfterFocus(f, n), id).(focusedIndex := Min(f + 1, n))
      else v.(focusedIndex := Min(f + 1, n - 1))
    case Receive(m) => Receiving(v, m)
  }

  /** New ids are new; cell handlers run only where there are cells, on an existing one. */
  predicate Enabled(v: View, e: Event) {
    match e
    case AddUp(id) => id !in v.issued
    case AddDown(id) => id !in v.issued
    case Paste(id) => id !in v.issued
    case ArrowDown(_, id) => id !in v.issued && v.cells != []
    case Next => v.cells != []
    case Focus(i) => i < |v.cells|
    case _ => true
  }

  function Run(v: View, events: seq<Event>): Option<View> {
    if events == [] then Some(v)
    else
      var before := Run(v, events[..|events| - 1]);
      if before.None? || !Enabled(before.value, events[|events| - 1]) then None
      else Some(Apply(before.value, events[|events| - 1]))
  }

  // ---------- Loading ----------

  datatype ServedCell = ServedCell(source: string, cellType: string, executionCount: int, outputs: Option<seq<Out>>)

  /** What `FetchFileData` shows when the server sent null. */
  const BLANK := ServedCell("", "code", 0, Some([]))

  const EMPTY_VIEW := View([], [], 0, None, None, false, "", "idle", {})

  function LoadedOne(v: View, c: ServedCell, id: string): View {
    v.(cells := v.cells + [CellView(id, c.source, c.cellType, c.executionCount, if c.outputs.Some? then Some(|v.arrays|) else None)],
       arrays := v.arrays + (if c.outputs.Some? then [c.outputs.value] else []),
       issued := v.issued + {id})
  }

  /** Every served cell under a new id, with the array the parser made for it. */
  function Loaded(served: seq<ServedCell>, ids: seq<string>): View
    requires |ids| == |served|
  {
    if served == [] then EMPTY_VIEW
    else
      var n := |served| - 1;
      LoadedOne(Loaded(served[..n], ids[..n]), served[n], ids[n])
  }

  // ---------- Invariants ----------

  ghost predicate UniqueIds(cells: seq<CellView>) {
    forall i, j :: 0 <= i < j < |cells| ==> cells[i].id != cells[j].id
  }

  /** The number, if any, is that of an array. */
  predicate IsArray(number: Option<nat>, count: nat) {
    number.Some? ==> number.value < count
  }

  ghost predicate Inv(v: View) {
    && UniqueIds(v.cells)
    && (forall i :: 0 <= i < |v.cells| ==> v.cells[i].id in v.issued && IsArray(v.cells[i].outputs, |v.arrays|))
    && (v.copiedCell.Some? ==> IsArray(v.copiedCell.value.outputs, |v.arrays|))
    && 0 <= v.focusedIndex <= |v.cells|
  }

  /** No two cells refer to the same array. */
  ghost predicate Unshared(cells: seq<CellView>) {
    forall i, j :: 0 <= i < j < |cells| && cells[i].outputs.Some? ==> cells[i].outputs != cells[j].outputs
  }

  /** Cell `i` shows what the server sent for it, under its new id. */
  predicate ShowsServed(v: View, i: nat, c: ServedCell, id: string)
    requires i < |v.cells|
  {
    && v.cells[i].id == id && v.cells[i].source == c.source && v.cells[i].cellType == c.cellType
    && v.cells[i].executionCount == c.executionCount && Shown(v, v.cells[i].outputs) == c.outputs
  }

  lemma FoundAt(cells: seq<CellView>, i: nat)
    requires UniqueIds(cells) && i < |cells|
    ensures FindCell(cells, cells[i].id) == i
  {
  }

  lemma LoadedOneKeepsInv(v: View, c: ServedCell, id: string)
    requires Inv(v) && id !in v.issued
    ensures Inv(LoadedOne(v, c, id))
  {
    assert forall i :: 0 <= i < |v.cells| ==> v.cells[i].id in v.issued && IsArray(v.cells[i].outputs, |v.arrays|);
  }

  lemma LoadedOneShows(v: View, c: ServedCell, id: string)
    requires Inv(v) && Unshared(v.cells) && id !in v.issued
    ensures var w := LoadedOne(v, c, id);
      && Inv(w) && Unshared(w.cells) && ShowsServed(w, |v.cells|, c, id)
      && forall i :: 0 <= i < |v.cells| ==> w.cells[i] == v.cells[i] && Shown(w, w.cells[i].outputs) == Shown(v, v.cells[i].outputs)
  {
    var w := LoadedOne(v, c, id);
    forall i | 0 <= i < |v.cells|
      ensures v.cells[i].id in v.issued && IsArray(v.cells[i].outputs, |v.arrays|) && w.cells[i] == v.cells[i]
    {
    }
  }

  lemma NextIdIsNew(ids: seq<string>, n: nat)
    requires n < |ids| && forall i, j :: 0 <= i < j < |ids| ==> ids[i] != ids[j]
    ensures ids[n] !in ids[..n] && forall id :: id in ids[..n] + [ids[n]] ==> id in ids
  {
  }

  lemma {:induction false} LoadedShows(served: seq<ServedCell>, ids: seq<string>)
    requires |ids| == |served| && forall i, j :: 0 <= i < j < |ids| ==> ids[i] != ids[j]
    ensures var v := Loaded(served, ids);
      && Inv(v) && Unshared(v.cells) && |v.cells| == |served| && (forall id :: id in v.issued ==> id in ids)
      && forall i :: 0 <= i < |served| ==> ShowsServed(v, i, served[i], ids[i])
  {
    if served != [] {
      var n := |served| - 1;
      LoadedShows(served[..n], ids[..n]);
      var before, v := Loaded(served[..n], ids[..n]), Loaded(served, ids);
      NextIdIsNew(ids, n);
      LoadedOneShows(before, served[n], ids[n]);
      forall i | 0 <= i < n
        ensures ShowsServed(v, i, served[i], ids[i])
      {
        assert ShowsServed(before, i, served[..n][i], ids[..n][i]);
      }
    }
  }

  /** The first `i` served cells have used the first `i` ids, and the next one comes on top. */
  lemma LoadedIds(served: seq<ServedCell>, ids: seq<string>, i: nat)
    requires |ids| == |served| && i < |served| && forall j, k :: 0 <= j < k < |ids| ==> ids[j] != ids[k]
    ensures ids[i] !in Loaded(served[..i], ids[..i]).issued
    ensures Loaded(served[..i + 1], ids[..i + 1]) == LoadedOne(Loaded(served[..i], ids[..i]), served[i], ids[i])
  {
    LoadedShows(served[..i], ids[..i]);
    assert ids[i] !in ids[..i];
    assert served[..i + 1][..i] == served[..i] && ids[..i + 1][..i] == ids[..i];
  }

  /** The two slices at one bound always make up the whole list, whatever the bound. */
  lemma SlicesMeet<T>(s: seq<T>, k: int)
    ensures Slice(s, 0, k) == s[..Bound(k, |s|)] && SliceFrom(s, k) == s[Bound(k, |s|)..]
    ensures Slice(s, 0, k) + SliceFrom(s, k) == s
  {
  }

  /** For every integer focus, inserting keeps the other cells, in order. */
  lemma InsertKeepsOthers(cells: seq<CellView>, at: int, c: CellView) returns (p: nat)
    ensures p == Bound(at, |cells|) && p <= |cells|
    ensures Insert(cells, at, c) == cells[..p] + [c] + cells[p..]
    ensures Insert(cells, at, c)[p] == c && Insert(cells, at, c)[..p] + Insert(cells, at, c)[p + 1..] == cells
  {
    SlicesMeet(cells, at);
    p := Bound(at, |cells|);
  }

  /** Taking out at a focus from 0 up keeps the other cells, in order; past the end it keeps all. */
  lemma RemoveKeepsOthers(cells: seq<CellView>, f: nat)
    ensures Slice(cells, 0, f) + SliceFrom(cells, f + 1) == if f < |cells| then cells[..f] + cells[f + 1..] else cells
  {
  }

  /** Where the cell at `j` was before the insertion at `p`. */
  lemma InsertAt(cells: seq<CellView>, at: int, c: CellView, j: nat)
    requires j < |Insert(cells, at, c)|
    ensures var p := Bound(at, |cells|);
      Insert(cells, at, c)[j] == if j < p then cells[j] else if j == p then c else cells[j - 1]
  {
    var p := InsertKeepsOthers(cells, at, c);
  }

  lemma InsertKeepsInv(v: View, at: int, c: CellView, f: int)
    requires Inv(v) && c.id !in v.issued && IsArray(c.outputs, |v.arrays|) && 0 <= f <= |v.cells| + 1
    ensures Inv(Inserted(v, at, c).(focusedIndex := f))
  {
    var after, p := Insert(v.cells, at, c), Bound(at, |v.cells|);
    forall j | 0 <= j < |after|
      ensures after[j] == if j < p then v.cells[j] else if j == p then c else v.cells[j - 1]
    {
      InsertAt(v.cells, at, c, j);
    }
  }

  lemma MoreArrays(v: View, more: seq<seq<Out>>)
    requires Inv(v)
    ensures Inv(v.(arrays := v.arrays + more))
  {
  }

  lemma AddKeepsInv(v: View, at: int, id: string, f: int)
    requires Inv(v) && id !in v.issued && 0 <= f <= |v.cells| + 1
    ensures Inv(Added(v, at, id).(focusedIndex := f))
  {
    MoreArrays(v, [[]]);
    InsertKeepsInv(v.(arrays := v.arrays + [[]]), at, NewCell(id, |v.arrays|), f);
  }

  lemma RemoveKeepsInv(v: View)
    requires Inv(v)
    ensures Inv(Removed(v))
  {
    RemoveKeepsOthers(v.cells, v.focusedIndex);
  }

  /** The invariant speaks of ids and array numbers only. */
  lemma SameIds(v: View, cells: seq<CellView>, arrays: seq<seq<Out>>)
    requires Inv(v) && |cells| == |v.cells| && |v.arrays| <= |arrays|
    requires forall i :: 0 <= i < |cells| ==> cells[i].id == v.cells[i].id && IsArray(cells[i].outputs, |arrays|)
    ensures Inv(v.(cells := cells, arrays := arrays))
  {
  }

  /** The events that neither add nor remove a cell. */
  predicate InPlace(e: Event) {
    e.SetSource? || e.SetType? || e.Submit? || e.SubmitPrompt? || e.Receive?
  }

  lemma PushKeepsInv(v: View, i: nat, out: Out)
    requires Inv(v) && i < |v.cells|
    ensures Inv(Push(v, i, out))
  {
    var t := Push(v, i, out);
    forall j | 0 <= j < |t.cells|
      ensures t.cells[j].id == v.cells[j].id && IsArray(t.cells[j].outputs, |t.arrays|)
    {
      assert IsArray(v.cells[j].outputs, |v.arrays|);
    }
    SameIds(v, t.cells, t.arrays);
  }

  lemma AppendingKeepsInv(v: View, parent: string, out: Out)
    requires Inv(v)
    ensures Inv(Appending(v, parent, out))
  {
    if FindCell(v.cells, parent) >= 0 {
      PushKeepsInv(v, FindCell(v.cells, parent), out);
    }
  }

  lemma ReceivingKeepsInv(v: View, m: Message)
    requires Inv(v)
    ensures Inv(Receiving(v, m))
  {
    if m.ExecuteInput? {
      SameIds(v, SetCount(v.cells, m.parent, m.executionCount), v.arrays);
    } else if Appends(m).Some? {
      AppendingKeepsInv(v, Appends(m).value.0, Appends(m).value.1);
    }
  }

  lemma ClearingKeepsInv(v: View, id: string, count: Option<int>)
    requires Inv(v)
    ensures Inv(Clearing(v, id, count))
  {
    var cells := ClearAll(v.cells, id, count, |v.arrays|);
    forall i | 0 <= i < |cells|
      ensures cells[i].id == v.cells[i].id && IsArray(cells[i].outputs, |v.arrays| + 1)
    {
      assert IsArray(v.cells[i].outputs, |v.arrays|);
    }
    SameIds(v, cells, v.arrays + [[]]);
  }

  lemma InPlaceKeepsInv(v: View, e: Event)
    requires Inv(v) && InPlace(e)
    ensures Inv(Apply(v, e))
  {
    match e
    case SetSource(id, value) => SameIds(v, SetSourceAll(v.cells, id, value), v.arrays);
    case SetType(value) => SameIds(v, SetTypeAt(v.cells, v.focusedIndex, value), v.arrays);
    case Submit(id) => ClearingKeepsInv(v, id, Some(-1));
    case SubmitPrompt(id) => ClearingKeepsInv(v, id, None);
    case Receive(m) => ReceivingKeepsInv(v, m);
  }

  lemma StepKeepsInv(v: View, e: Event)
    requires Inv(v) && Enabled(v, e)
    ensures Inv(Apply(v, e))
  {
    var f, after := v.focusedIndex, AfterFocus(v.focusedIndex, |v.cells|);
    if InPlace(e) {
      InPlaceKeepsInv(v, e);
    } else {
      match e
      case AddUp(id) => AddKeepsInv(v, f, id, f);
      case AddDown(id) => AddKeepsInv(v, after, id, f);
      case ArrowDown(_, id) => AddKeepsInv(v, after, id, Min(f + 1, |v.cells|));
      case Paste(id) =>
        if v.copiedCell.Some? {
          InsertKeepsInv(v, after, PastedCell(v.copiedCell.value, id), f);
        }
      case Delete => RemoveKeepsInv(v);
      case Cut => RemoveKeepsInv(v);
      case _ =>
    }
  }

  /** In every run ids stay unique and the focus stays between 0 and the number of cells. */
  lemma {:induction false} RunKeepsInv(v: View, events: seq<Event>)
    requires Inv(v) && Run(v, events).Some?
    ensures Inv(Run(v, events).value)
  {
    if events != [] {
      RunKeepsInv(v, events[..|events| - 1]);
      StepKeepsInv(Run(v, events[..|events| - 1]).value, events[|events| - 1]);
    }
  }

  lemma {:induction false} PrefixRuns(v: View, events: seq<Event>, n: nat)
    requires Run(v, events).Some? && n <= |events|
    ensures Run(v, events[..n]).Some?
    decreases |events|
  {
    if n < |events| {
      PrefixRuns(v, events[..|events| - 1], n);
      assert events[..|events| - 1][..n] == events[..n];
    } else {
      assert events[..n] == events;
    }
  }

  /** The next event of a run. */
  lemma NextRun(v: View, events: seq<Event>, i: nat, now: View)
    requires Run(v, events).Some? && i < |events| && Run(v, events[..i]) == Some(now)
    ensures Enabled(now, events[i]) && Run(v, events[..i + 1]) == Some(Apply(now, events[i]))
  {
    PrefixRuns(v, events, i + 1);
    assert events[..i + 1][..i] == events[..i];
  }

  // ---------- Cut and paste ----------

  /** Cut, then paste with the focus where it was: the focused cell and its successor change places
      and the cell gets a new id; on the last cell only the id changes. No contents are lost. */
  lemma CutThenPaste(v: View, newId: string)
    requires 0 <= v.focusedIndex < |v.cells|
    ensures var f := v.focusedIndex;
      var moved := v.cells[f].(id := newId);
      var after := Apply(Apply(v, Cut), Paste(newId)).cells;
      && after == (if f == |v.cells| - 1 then v.cells[f := moved] else v.cells[f := v.cells[f + 1]][f + 1 := moved])
      && multiset(after) == multiset(v.cells[f := moved])
  {
    var f := v.focusedIndex;
    var moved := v.cells[f].(id := newId);
    var cut := Apply(v, Cut);
    RemoveKeepsOthers(v.cells, f);
    assert cut.cells == v.cells[..f] + v.cells[f + 1..] && cut.copiedCell == ClipOf(v.cells, f);
    assert Apply(cut, Paste(newId)).cells == Insert(cut.cells, AfterFocus(f, |cut.cells|), moved);
    InsertAfterCut(v.cells, f, moved);
  }

  lemma InsertAfterCut(cells: seq<CellView>, f: nat, moved: CellView)
    requires f < |cells|
    ensures var rest := cells[..f] + cells[f + 1..];
      Insert(rest, AfterFocus(f, |rest|), moved) ==
        if f == |cells| - 1 then cells[f := moved] else cells[f := cells[f + 1]][f + 1 := moved]
  {
    var rest := cells[..f] + cells[f + 1..];
    var p := InsertKeepsOthers(rest, AfterFocus(f, |rest|), moved);
  }
}
