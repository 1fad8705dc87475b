/** NotebookEditor.tsx with its output arrays as JavaScript has them: objects that cells refer to,
    that `push` changes in place, and that a pasted cell shares with the copied one. */
module Editor {
  import opened Options
  import opened Ansi
  import opened EditorModel

  class OutputArray {
    var items: seq<Out>

    constructor (items: seq<Out>)
      ensures this.items == items
    {
      this.items := items;
    }
  }

  datatype Cell = Cell(id: string, source: string, cellType: string, executionCount: int, outputs: OutputArray?)

  /** The object is the array with this number, or null where there is none. */
  predicate Refers(a: OutputArray?, number: Option<nat>, arrays: seq<OutputArray>) {
    if number.None? then a == null else number.value < |arrays| && a == arrays[number.value]
  }

  predicate Mirrors(c: Cell, w: CellView, arrays: seq<OutputArray>) {
    c.id == w.id && c.source == w.source && c.cellType == w.cellType && c.executionCount == w.executionCount &&
    Refers(c.outputs, w.outputs, arrays)
  }

  ghost predicate MirrorsAll(cells: seq<Cell>, views: seq<CellView>, arrays: seq<OutputArray>) {
    |cells| == |views| && forall i :: 0 <= i < |cells| ==> Mirrors(cells[i], views[i], arrays)
  }

  /** The first `i` cells of an unfinished map. */
  ghost predicate MirrorsFirst(cells: seq<Cell>, views: seq<CellView>, i: nat, arrays: seq<OutputArray>) {
    |cells| == i <= |views| && forall k :: 0 <= k < i ==> Mirrors(cells[k], views[k], arrays)
  }

  lemma MirrorsNext(cells: seq<Cell>, views: seq<CellView>, i: nat, arrays: seq<OutputArray>, c: Cell)
    requires MirrorsFirst(cells, views, i, arrays) && i < |views| && Mirrors(c, views[i], arrays)
    ensures MirrorsFirst(cells + [c], views, i + 1, arrays)
  {
  }

  lemma StillMirrorsFirst(cells: seq<Cell>, views: seq<CellView>, i: nat, arrays: seq<OutputArray>, more: seq<OutputArray>)
    requires MirrorsFirst(cells, views, i, arrays) && arrays <= more
    ensures MirrorsFirst(cells, views, i, more)
  {
    forall k | 0 <= k < i
      ensures Mirrors(cells[k], views[k], more)
    {
      OneMirrors(cells[k], views[k], arrays, more);
    }
  }

  ghost predicate MirrorsClip(c: Option<Cell>, w: Option<Clip>, arrays: seq<OutputArray>) {
    if w.None? then c.None?
    else
      c.Some? && c.value.source == w.value.source && c.value.cellType == w.value.cellType &&
      c.value.executionCount == w.value.executionCount && Refers(c.value.outputs, w.value.outputs, arrays)
  }

  ghost predicate Distinct(arrays: seq<OutputArray>) {
    forall i, j :: 0 <= i < j < |arrays| ==> arrays[i] != arrays[j]
  }

  /** More arrays leave what refers to the old ones as it was. */
  lemma MoreArraysMirror(cells: seq<Cell>, views: seq<CellView>, arrays: seq<OutputArray>, more: seq<OutputArray>)
    requires MirrorsAll(cells, views, arrays)
    ensures MirrorsAll(cells, views, arrays + more)
  {
    forall i | 0 <= i < |cells|
      ensures Mirrors(cells[i], views[i], arrays + more)
    {
      assert Mirrors(cells[i], views[i], arrays);
    }
  }

  /** A cell as it is added: no source, a code cell, an empty array. */
  ghost predicate IsNew(c: Cell, id: string)
    reads c.outputs
  {
    c == Cell(id, "", "code", 0, c.outputs) && c.outputs != null && c.outputs.items == []
  }

  /** A cell as it is served, under its new id. */
  ghost predicate ServedAs(c: Cell, served: ServedCell, id: string)
    reads c.outputs
  {
    && c == Cell(id, served.source, served.cellType, served.executionCount, c.outputs)
    && served.outputs == if c.outputs == null then None else Some(c.outputs.items)
  }

  /** The array of the cell after a push, which differs from all others in what it holds before and after. */
  lemma PushedArrays(v: View, i: nat, out: Out)
    requires Inv(v) && i < |v.cells| && v.cells[i].outputs.Some?
    ensures v.cells[i].outputs.value < |v.arrays|
    ensures var w, a := Push(v, i, out), v.cells[i].outputs.value;
      var b := if v.arrays[a] == [] then |v.arrays| else a;
      && w.cells == v.cells[i := v.cells[i].(outputs := Some(b))]
      && b < |w.arrays| && w.arrays[b] == v.arrays[a] + [out]
      && |v.arrays| <= |w.arrays| && forall k :: 0 <= k < |v.arrays| && k != b ==> w.arrays[k] == v.arrays[k]
  {
    assert IsArray(v.cells[i].outputs, |v.arrays|);
  }

  /** Cells that mirror the same views are the same, but for the array of cell `t`. */
  lemma SameButOne(before: seq<Cell>, views: seq<CellView>, arrays: seq<OutputArray>,
                   after: seq<Cell>, later: seq<CellView>, more: seq<OutputArray>, t: int)
    requires MirrorsAll(before, views, arrays) && MirrorsAll(after, later, more) && arrays <= more && |views| == |later|
    requires forall i :: 0 <= i < |views| ==> later[i] == if i == t then views[i].(outputs := later[i].outputs) else views[i]
    ensures after == if 0 <= t < |before| then before[t := before[t].(outputs := after[t].outputs)] else before
  {
    forall i | 0 <= i < |after|
      ensures after[i] == if i == t then before[i].(outputs := after[i].outputs) else before[i]
    {
      assert Mirrors(before[i], views[i], arrays) && Mirrors(after[i], later[i], more);
    }
  }

  lemma AppendMirrors(cells: seq<Cell>, views: seq<CellView>, arrays: seq<OutputArray>, c: Cell, w: CellView)
    requires MirrorsAll(cells, views, arrays) && Mirrors(c, w, arrays)
    ensures MirrorsAll(cells + [c], views + [w], arrays)
  {
  }

  lemma InsertMirrors(cells: seq<Cell>, views: seq<CellView>, arrays: seq<OutputArray>, at: int, c: Cell, w: CellView)
    requires MirrorsAll(cells, views, arrays) && Mirrors(c, w, arrays)
    ensures MirrorsAll(Slice(cells, 0, at) + [c] + SliceFrom(cells, at), Insert(views, at, w), arrays)
  {
  }

  lemma RemoveMirrors(cells: seq<Cell>, views: seq<CellView>, arrays: seq<OutputArray>, f: int)
    requires MirrorsAll(cells, views, arrays)
    ensures MirrorsAll(Slice(cells, 0, f) + SliceFrom(cells, f + 1), Slice(views, 0, f) + SliceFrom(views, f + 1), arrays)
  {
  }

  /** `view` is the state as a value; `arrays` are the array objects in the order they were made. */
  class NotebookEditor {
    var cells: seq<Cell>
    var focusedIndex: int
    var copiedCell: Option<Cell>
    var cutCellIndex: Option<int>
    var showPrompt: bool
    var inspectReplyMessage: string
    var kernelStatus: string
    ghost var view: View
    ghost var arrays: seq<OutputArray>

    /** The array objects hold what the view says, and no two numbers mean one object. */
    ghost predicate HoldsArrays()
      reads `view, `arrays, arrays
    {
      Distinct(arrays) && |arrays| == |view.arrays| && forall k :: 0 <= k < |arrays| ==> arrays[k].items == view.arrays[k]
    }

    ghost predicate Valid()
      reads this, arrays
    {
      && Inv(view) && HoldsArrays()
      && MirrorsAll(cells, view.cells, arrays)
      && MirrorsClip(copiedCell, view.copiedCell, arrays)
      && focusedIndex == view.focusedIndex && cutCellIndex == view.cutCellIndex
      && showPrompt == view.showPrompt && inspectReplyMessage == view.inspectReplyMessage && kernelStatus == view.kernelStatus
    }

    /** Arrays are only ever added, and the added ones are new objects. */
    twostate predicate Grows()
      reads `arrays
    {
      old(arrays) <= arrays && forall k :: |old(arrays)| <= k < |arrays| ==> fresh(arrays[k])
    }

    /** What a cell shows is what the view shows for it. */
    lemma CellsShow(i: nat)
      requires Valid() && i < |cells|
      ensures Shown(view, view.cells[i].outputs) == if cells[i].outputs == null then None else Some(cells[i].outputs.items)
    {
      assert Mirrors(cells[i], view.cells[i], arrays) && IsArray(view.cells[i].outputs, |view.arrays|);
    }

    /** The notebook as `FetchFileData` sets it up: a new id for every served cell, or one empty cell
        when the server sent null. */
    constructor (served: Option<seq<ServedCell>>, ids: seq<string>)
      requires |ids| == if served.Some? then |served.value| else 1
      requires forall i, j :: 0 <= i < j < |ids| ==> ids[i] != ids[j]
      ensures Valid() && forall k :: 0 <= k < |arrays| ==> fresh(arrays[k])
      ensures view == Loaded(if served.Some? then served.value else [BLANK], ids)
      ensures focusedIndex == 0 && copiedCell == None && |cells| == |ids|
      ensures served.Some? ==> forall i :: 0 <= i < |cells| ==> ServedAs(cells[i], served.value[i], ids[i])
      ensures served.None? ==> IsNew(cells[0], ids[0])
      ensures forall i, j :: 0 <= i < j < |cells| && cells[i].outputs != null ==> cells[i].outputs != cells[j].outputs
    {
      focusedIndex := 0;
      copiedCell, cutCellIndex := None, None;
      showPrompt, inspectReplyMessage, kernelStatus := false, "", "idle";
      cells, arrays, view := [], [], EMPTY_VIEW;
      new;
      var all := if served.Some? then served.value else [BLANK];
      LoadCells(all, ids);
      LoadedShows(all, ids);
      forall i | 0 <= i < |cells|
        ensures ServedAs(cells[i], all[i], ids[i])
      {
        assert ShowsServed(view, i, all[i], ids[i]) && Mirrors(cells[i], view.cells[i], arrays);
        CellsShow(i);
      }
      OwnArrays();
    }

    /** Cells without a common number have no common array. */
    lemma OwnArrays()
      requires Valid() && Unshared(view.cells)
      ensures forall i, j :: 0 <= i < j < |cells| && cells[i].outputs != null ==> cells[i].outputs != cells[j].outputs
    {
      forall i, j | 0 <= i < j < |cells| && cells[i].outputs != null
        ensures cells[i].outputs != cells[j].outputs
      {
        assert Mirrors(cells[i], view.cells[i], arrays) && Mirrors(cells[j], view.cells[j], arrays);
      }
    }

    method LoadCells(served: seq<ServedCell>, ids: seq<string>)
      requires Valid() && view == EMPTY_VIEW && |ids| == |served| && forall i, j :: 0 <= i < j < |ids| ==> ids[i] != ids[j]
      modifies `cells, `arrays, `view
      ensures Valid() && Grows() && view == Loaded(served, ids)
    {
      for i := 0 to |served|
        invariant Valid() && Grows() && view == Loaded(served[..i], ids[..i])
      {
        LoadedIds(served, ids, i);
        LoadCell(served[i], ids[i]);
      }
      assert served[..|served|] == served && ids[..|served|] == ids;
    }

    /** One served cell, with the array that the parser made for it. */
    method LoadCell(served: ServedCell, id: string)
      requires Valid() && id !in view.issued
      modifies `cells, `arrays, `view
      ensures Valid() && Grows() && view == LoadedOne(old(view), served, id)
    {
      ghost var start := view;
      LoadedOneKeepsInv(view, served, id);
      var outputs: OutputArray? := null;
      if served.outputs.Some? {
        outputs := NewArray(served.outputs.value);
      }
      var cell := Cell(id, served.source, served.cellType, served.executionCount, outputs);
      ghost var loaded := LoadedOne(start, served, id);
      AppendMirrors(cells, view.cells, arrays, cell, loaded.cells[|cells|]);
      cells := cells + [cell];
      view := loaded;
    }

    /** A new array object. */
    method NewArray(items: seq<Out>) returns (a: OutputArray)
      requires Valid()
      modifies `arrays, `view
      ensures Valid() && Grows() && fresh(a) && arrays == old(arrays) + [a]
      ensures view == old(view).(arrays := old(view).arrays + [items])
    {
      a := new OutputArray(items);
      MoreArraysMirror(cells, view.cells, arrays, [a]);
      MoreArrays(view, [items]);
      arrays := arrays + [a];
      view := view.(arrays := view.arrays + [items]);
    }

    // ---------- What the operations leave ----------

    /** The cells are the old ones and, at `at`, a new cell with an array of its own. */
    twostate predicate HasNew(at: int, id: string)
      reads this, arrays
    {
      && 0 <= at <= |old(cells)| && |cells| == |old(cells)| + 1
      && cells == old(cells)[..at] + [cells[at]] + old(cells)[at..]
      && cells[at].outputs != null && cells[at].outputs in arrays && fresh(cells[at].outputs) && IsNew(cells[at], id)
    }

    /** The cells are the old ones without the focused one. */
    twostate predicate LosesFocused()
      reads this
    {
      var f := old(focusedIndex);
      cells == if 0 <= f < |old(cells)| then old(cells)[..f] + old(cells)[f + 1..] else old(cells)
    }

    /** The cells called `id` have new empty arrays, and the count if there is one. */
    twostate predicate Clears(id: string, count: Option<int>)
      reads this, arrays
    {
      && |cells| == |old(cells)|
      && (forall i :: 0 <= i < |cells| && old(cells)[i].id != id ==> cells[i] == old(cells)[i])
      && (forall i :: 0 <= i < |cells| && old(cells)[i].id == id ==> ClearsCell(i, count))
    }

    twostate predicate ClearsCell(i: nat, count: Option<int>)
      reads this, arrays
    {
      && i < |old(cells)| && i < |cells|
      && var was := old(cells)[i];
      && cells[i] == was.(outputs := cells[i].outputs, executionCount := if count.Some? then count.value else was.executionCount)
      && cells[i].outputs != null && cells[i].outputs in arrays && fresh(cells[i].outputs) && cells[i].outputs.items == []
    }

    /** The cells called `id` have the count. */
    twostate predicate Counts(id: string, count: int)
      reads this
    {
      && |cells| == |old(cells)|
      && forall i :: 0 <= i < |cells| ==>
        cells[i] == old(cells)[i].(executionCount := if old(cells)[i].id == id then count else old(cells)[i].executionCount)
    }

    /** No cell and no array but `spared` has changed. */
    twostate predicate SameBut(new spared: OutputArray?)
      reads this, arrays
    {
      old(arrays) <= arrays && forall k :: 0 <= k < |old(arrays)| && arrays[k] != spared ==> arrays[k].items == old(arrays[k].items)
    }

    twostate predicate Untouched()
      reads this, arrays
    {
      cells == old(cells) && SameBut(null)
    }

    /** Cell `i` shows one output more, in its own array or, if that was empty, in a new one. */
    twostate predicate Shows(i: nat, out: Out)
      requires i < |old(cells)| && old(cells)[i].outputs != null
      reads this, arrays
    {
      && |cells| == |old(cells)| && cells == old(cells)[i := old(cells)[i].(outputs := cells[i].outputs)]
      && cells[i].outputs != null && cells[i].outputs in arrays
      && cells[i].outputs.items == old(cells[i].outputs.items) + [out]
      && (if old(cells[i].outputs.items) == [] then fresh(cells[i].outputs) else cells[i].outputs == old(cells)[i].outputs)
      && SameBut(cells[i].outputs)
    }

    /** The cell called `id`, if it exists and has an array, shows one output more. */
    twostate predicate Adds(id: string, out: Out)
      reads this, arrays
    {
      && (forall i :: 0 <= i < |old(cells)| && old(cells)[i].id == id && old(cells)[i].outputs != null ==> Shows(i, out))
      && ((forall i :: 0 <= i < |old(cells)| && old(cells)[i].id == id ==> old(cells)[i].outputs == null) ==> Untouched())
    }

    /** What a message does to the cells: it sets a count, or adds the output that it says, or nothing. */
    twostate predicate HandlesCells(message: Message)
      reads this, arrays
    {
      if message.ExecuteInput? then Counts(message.parent, message.executionCount) && SameBut(null)
      else
        || (exists out :: Says(message, out) && Adds(message.parent, out))
        || ((forall out :: !Says(message, out)) && Untouched())
    }

    /** At most one cell is addressed: the one that is found. */
    lemma Addressed(id: string)
      requires Valid()
      ensures forall i :: 0 <= i < |cells| && cells[i].id == id ==>
        i == FindCell(view.cells, id) && (cells[i].outputs == null <==> view.cells[i].outputs.None?)
    {
      forall i | 0 <= i < |cells| && cells[i].id == id
        ensures i == FindCell(view.cells, id) && (cells[i].outputs == null <==> view.cells[i].outputs.None?)
      {
        assert Mirrors(cells[i], view.cells[i], arrays);
        FoundAt(view.cells, i);
      }
    }

    // ---------- Adding, deleting, cutting, pasting ----------

    method InsertCell(index: int, newCell: Cell, ghost w: CellView)
      requires Valid() && Mirrors(newCell, w, arrays) && w.id !in view.issued && IsArray(w.outputs, |view.arrays|)
      modifies `cells, `view
      ensures Valid() && view == Inserted(old(view), index, w)
      ensures 0 <= index <= |old(cells)| ==> cells == old(cells)[..index] + [newCell] + old(cells)[index..]
    {
      InsertMirrors(cells, view.cells, arrays, index, newCell, w);
      InsertKeepsInv(view, index, w, focusedIndex);
      cells := Slice(cells, 0, index) + [newCell] + SliceFrom(cells, index);
      view := Inserted(view, index, w);
    }

    method AddCellUp(newId: string)
      requires Valid() && Enabled(view, AddUp(newId))
      modifies `cells, `arrays, `view
      ensures Valid() && Grows() && view == Apply(old(view), AddUp(newId))
      ensures HasNew(focusedIndex, newId)
    {
      AddCellAt(focusedIndex, newId);
    }

    /** The cell that both updaters make, put at `index`. */
    method AddCellAt(index: int, newId: string)
      requires Valid() && newId !in view.issued && 0 <= index <= |cells|
      modifies `cells, `arrays, `view
      ensures Valid() && Grows() && view == Added(old(view), index, newId)
      ensures HasNew(index, newId)
    {
      var outputs := NewArray([]);
      InsertCell(index, Cell(newId, "", "code", 0, outputs), NewCell(newId, |arrays| - 1));
    }

    method AddCellDown(newId: string)
      requires Valid() && newId !in view.issued
      modifies `cells, `arrays, `view
      ensures Valid() && Grows() && view == Apply(old(view), AddDown(newId))
      ensures HasNew(if focusedIndex < |old(cells)| then focusedIndex + 1 else |old(cells)|, newId)
    {
      var index := if focusedIndex >= 0 && focusedIndex < |cells| then focusedIndex + 1 else |cells|;
      AddCellAt(index, newId);
    }

    method RemoveCell()
      requires Valid()
      modifies `cells, `view
      ensures Valid() && view == Removed(old(view))
      ensures LosesFocused()
    {
      RemoveMirrors(cells, view.cells, arrays, focusedIndex);
      RemoveKeepsInv(view);
      cells := Slice(cells, 0, focusedIndex) + SliceFrom(cells, focusedIndex + 1);
      view := Removed(view);
    }

    method DeleteCell()
      requires Valid()
      modifies `cells, `view
      ensures Valid() && view == Apply(old(view), Delete)
      ensures LosesFocused()
    {
      if focusedIndex < 0 || focusedIndex >= |cells| {
        return;
      }
      RemoveCell();
    }

    /** The clipboard keeps the cell's own array. */
    method CopyCellByIndex(index: int)
      requires Valid()
      modifies `copiedCell, `view
      ensures Valid() && view == old(view).(copiedCell := ClipOf(old(view).cells, index))
      ensures copiedCell == if 0 <= index < |cells| then Some(cells[index]) else None
    {
      copiedCell := if 0 <= index < |cells| then Some(cells[index]) else None;
      assert 0 <= index < |cells| ==> Mirrors(cells[index], view.cells[index], arrays) && IsArray(view.cells[index].outputs, |view.arrays|);
      view := view.(copiedCell := ClipOf(view.cells, index));
    }

    method CopyCell()
      requires Valid()
      modifies `copiedCell, `view
      ensures Valid() && view == Apply(old(view), Copy)
      ensures copiedCell == if focusedIndex < |cells| then Some(cells[focusedIndex]) else None
    {
      CopyCellByIndex(focusedIndex);
    }

    method CutCell()
      requires Valid()
      modifies `cells, `copiedCell, `cutCellIndex, `view
      ensures Valid() && view == Apply(old(view), Cut)
      ensures LosesFocused() && cutCellIndex == Some(focusedIndex)
      ensures copiedCell == if focusedIndex < |old(cells)| then Some(old(cells)[focusedIndex]) else None
    {
      RememberCut();
      RemoveCell();
    }

    /** The beginning of a cut: the focused cell is copied and its index remembered. */
    method RememberCut()
      requires Valid()
      modifies `copiedCell, `cutCellIndex, `view
      ensures Valid() && cutCellIndex == Some(focusedIndex)
      ensures copiedCell == if focusedIndex < |cells| then Some(cells[focusedIndex]) else None
      ensures view == old(view).(copiedCell := ClipOf(old(view).cells, focusedIndex), cutCellIndex := Some(focusedIndex))
    {
      CopyCellByIndex(focusedIndex);
      cutCellIndex := Some(focusedIndex);
      view := view.(cutCellIndex := Some(focusedIndex));
    }

    /** The new cell refers to the very array of the copied one. */
    method PasteCell(newId: string)
      requires Valid() && Enabled(view, Paste(newId))
      modifies `cells, `cutCellIndex, `view
      ensures Valid() && view == Apply(old(view), Paste(newId))
      ensures copiedCell.None? ==> cells == old(cells) && cutCellIndex == old(cutCellIndex)
      ensures copiedCell.Some? ==>
        var at := if focusedIndex < |old(cells)| then focusedIndex + 1 else |old(cells)|;
        cells == old(cells)[..at] + [copiedCell.value.(id := newId)] + old(cells)[at..] && cutCellIndex == None
    {
      if copiedCell.None? {
        return;
      }
      InsertCopied(newId);
      EndCut();
    }

    /** The clipboard's cell, under a new id, after the focused one. */
    method InsertCopied(newId: string)
      requires Valid() && copiedCell.Some? && view.copiedCell.Some? && newId !in view.issued
      modifies `cells, `view
      ensures Valid() && view == Inserted(old(view), AfterFocus(focusedIndex, |old(cells)|), PastedCell(old(view).copiedCell.value, newId))
      ensures var at := if focusedIndex < |old(cells)| then focusedIndex + 1 else |old(cells)|;
        cells == old(cells)[..at] + [copiedCell.value.(id := newId)] + old(cells)[at..]
    {
      ghost var w := PastedCell(view.copiedCell.value, newId);
      var newCell := copiedCell.value.(id := newId);
      PastedMirrors(copiedCell, view.copiedCell, arrays, newId);
      var index := if focusedIndex >= 0 && focusedIndex < |cells| then focusedIndex + 1 else |cells|;
      InsertCell(index, newCell, w);
    }

    /** The end of a paste: the remembered index of a cut is forgotten. */
    method EndCut()
      requires Valid()
      modifies `cutCellIndex, `view
      ensures Valid() && view == old(view).(cutCellIndex := None) && cutCellIndex == None
    {
      if cutCellIndex != None {
        cutCellIndex := None;
      }
      view := view.(cutCellIndex := None);
    }

    // ---------- Source, type, submission ----------

    method UpdateCellSource(value: string, cellId: string)
      requires Valid()
      modifies `cells, `view
      ensures Valid() && view == Apply(old(view), SetSource(cellId, value))
      ensures |cells| == |old(cells)|
      ensures forall i :: 0 <= i < |cells| ==> cells[i] == old(cells)[i].(source := if old(cells)[i].id == cellId then value else old(cells)[i].source)
    {
      InPlaceKeepsInv(view, SetSource(cellId, value));
      assert forall i :: 0 <= i < |cells| ==> Mirrors(cells[i], view.cells[i], arrays);
      cells := seq(|cells|, i requires 0 <= i < |cells| reads this => if cells[i].id == cellId then cells[i].(source := value) else cells[i]);
      view := view.(cells := SetSourceAll(view.cells, cellId, value));
    }

    method ChangeCellType(value: string)
      requires Valid()
      modifies `cells, `view
      ensures Valid() && view == Apply(old(view), SetType(value))
      ensures cells == if focusedIndex < |old(cells)| then old(cells)[focusedIndex := old(cells)[focusedIndex].(cellType := value)] else old(cells)
    {
      InPlaceKeepsInv(view, SetType(value));
      assert forall i :: 0 <= i < |cells| ==> Mirrors(cells[i], view.cells[i], arrays);
      cells := seq(|cells|, i requires 0 <= i < |cells| reads this => if i == focusedIndex then cells[i].(cellType := value) else cells[i]);
      view := view.(cells := SetTypeAt(view.cells, focusedIndex, value));
    }

    /** What `submitCell` and `submitPrompt` share: the matching cell gets a new empty array. */
    method ClearOutputs(cellId: string, count: Option<int>)
      requires Valid()
      modifies `cells, `arrays, `view
      ensures Valid() && Grows() && view == Clearing(old(view), cellId, count)
      ensures Clears(cellId, count)
    {
      MapClear(cellId, count);
    }

    /** Their map over the cells. */
    method MapClear(cellId: string, count: Option<int>)
      requires Valid()
      modifies `cells, `arrays, `view
      ensures Valid() && Grows() && view == Clearing(old(view), cellId, count)
    {
      ghost var start, t := view, FindCell(view.cells, cellId);
      ghost var done := ClearAll(start.cells, cellId, count, |start.arrays|);
      ClearingKeepsInv(view, cellId, count);
      var updatedCells: seq<Cell> := [];
      for i := 0 to |cells|
        invariant Valid() && Grows() && cells == old(cells)
        invariant if 0 <= t < i then view == start.(arrays := start.arrays + [[]]) else view == start
        invariant MirrorsFirst(updatedCells, done, i, arrays)
      {
        var cell := cells[i];
        assert Mirrors(cell, view.cells[i], arrays);
        if cell.id == cellId {
          assert i == t;
          ghost var before := arrays;
          var outputs := NewArray([]);
          StillMirrorsFirst(updatedCells, done, i, before, arrays);
          cell := cell.(executionCount := if count.Some? then count.value else cell.executionCount, outputs := outputs);
        }
        MirrorsNext(updatedCells, done, i, arrays, cell);
        updatedCells := updatedCells + [cell];
      }
      cells := updatedCells;
      view := Clearing(start, cellId, count);
    }

    method SubmitCell(cellId: string)
      requires Valid()
      modifies `cells, `arrays, `view
      ensures Valid() && Grows() && view == Apply(old(view), Submit(cellId))
      ensures Clears(cellId, Some(-1))
    {
      ClearOutputs(cellId, Some(-1));
    }

    method SubmitPromptFor(cellId: string)
      requires Valid()
      modifies `cells, `arrays, `view
      ensures Valid() && Grows() && view == Apply(old(view), SubmitPrompt(cellId))
      ensures Clears(cellId, None)
    {
      ClearOutputs(cellId, None);
    }

    // ---------- Focus ----------

    /** The focus handler of a cell. */
    method SetFocusedIndex(index: nat)
      requires Valid() && index < |cells|
      modifies `focusedIndex, `view
      ensures Valid() && view == Apply(old(view), Focus(index)) && focusedIndex == index
    {
      focusedIndex := index;
      view := view.(focusedIndex := index);
    }

    method GoToPreviousCell()
      requires Valid()
      modifies `focusedIndex, `view
      ensures Valid() && view == Apply(old(view), Previous)
      ensures focusedIndex == if old(focusedIndex) == 0 then 0 else old(focusedIndex) - 1
    {
      focusedIndex := Max(focusedIndex - 1, 0);
      view := view.(focusedIndex := focusedIndex);
    }

    method GoToNextCell()
      requires Valid() && cells != []
      modifies `focusedIndex, `view
      ensures Valid() && view == Apply(old(view), Next)
      ensures focusedIndex == if old(focusedIndex) + 1 < |cells| then old(focusedIndex) + 1 else |cells| - 1
    {
      MoveDown(|cells|);
    }

    method HandleArrowDown(addCell: bool, newId: string)
      requires Valid() && Enabled(view, ArrowDown(addCell, newId))
      modifies `cells, `arrays, `focusedIndex, `view
      ensures Valid() && Grows() && view == Apply(old(view), ArrowDown(addCell, newId))
      ensures if addCell && old(focusedIndex) == |old(cells)| - 1 then HasNew(|old(cells)|, newId) else cells == old(cells)
      ensures focusedIndex == if old(focusedIndex) + 1 < |cells| then old(focusedIndex) + 1 else |cells| - 1
    {
      var notebookCellLength := |cells|;
      if |cells| == focusedIndex + 1 && addCell {
        AddCellDown(newId);
        notebookCellLength := notebookCellLength + 1;
      }
      MoveDown(notebookCellLength);
    }

    /** The focus goes one cell down, but not past the last of `length` cells. */
    method MoveDown(length: nat)
      requires Valid() && 0 < length <= |cells|
      modifies `focusedIndex, `view
      ensures Valid() && focusedIndex == (if old(focusedIndex) + 1 < length then old(focusedIndex) + 1 else length - 1)
      ensures view == old(view).(focusedIndex := focusedIndex)
    {
      focusedIndex := Min(focusedIndex + 1, length - 1);
      view := view.(focusedIndex := focusedIndex);
    }

    // ---------- Kernel messages ----------

    /** The `execute_input` case. */
    method SetExecutionCount(parent: string, executionCount: int)
      requires Valid()
      modifies `cells, `view
      ensures Valid() && view == Receiving(old(view), ExecuteInput(parent, executionCount))
      ensures Counts(parent, executionCount)
    {
      ReceivingKeepsInv(view, ExecuteInput(parent, executionCount));
      assert forall i :: 0 <= i < |cells| ==> Mirrors(cells[i], view.cells[i], arrays);
      cells := seq(|cells|, i requires 0 <= i < |cells| reads this =>
        if cells[i].id == parent then cells[i].(executionCount := executionCount) else cells[i]);
      view := view.(cells := SetCount(view.cells, parent, executionCount));
    }

    /** The callback on the addressed cell, number `i`: a copy of the cell gets a new array if its own is
        empty, and the output is pushed into the array in place. */
    method AppendToCell(cell: Cell, ghost i: nat, out: Out) returns (updatedCell: Cell)
      requires Valid() && i < |cells| && cell == cells[i] && cell.outputs != null
      modifies `arrays, `view, arrays
      ensures Grows() && HoldsArrays() && view == Push(old(view), i, out).(cells := old(view).cells)
      ensures Mirrors(updatedCell, Push(old(view), i, out).cells[i], arrays)
    {
      ghost var a, start := view.cells[i].outputs.value, view;
      assert Mirrors(cell, start.cells[i], arrays);
      updatedCell := cell;
      if |updatedCell.outputs.items| == 0 {
        var outputs := NewArray([]);
        updatedCell := updatedCell.(outputs := outputs);
        a := |arrays| - 1;
        assert [] + [out] == [out];
        assert view.arrays[a := [out]] == start.arrays + [[out]];
      }
      updatedCell.outputs.items := updatedCell.outputs.items + [out];
      view := view.(arrays := view.arrays[a := view.arrays[a] + [out]]);
    }

    /** The map shared by the four cases that push an output; it throws at a cell without an array. */
    method MapAppend(parent: string, out: Out) returns (threw: bool, updatedCells: seq<Cell>)
      requires Valid()
      modifies `arrays, `view, arrays
      ensures threw <==> NoArrayAt(old(view), parent)
      ensures threw ==> view == old(view) && arrays == old(arrays) && HoldsArrays()
      ensures !threw ==>
        && HoldsArrays() && Grows() && view == Appending(old(view), parent, out).(cells := old(view).cells)
        && MirrorsAll(updatedCells, Appending(old(view), parent, out).cells, arrays)
    {
      ghost var start, t, objects := view, FindCell(view.cells, parent), arrays;
      ghost var done := Appending(start, parent, out).cells;
      AppendKeepsLength(start, parent, out);
      updatedCells, threw := [], false;
      for i := 0 to |cells|
        invariant HoldsArrays() && Grows()
        invariant if 0 <= t < i then view == Appending(start, parent, out).(cells := start.cells) else view == start && arrays == objects
        invariant 0 <= t < i ==> start.cells[t].outputs.Some?
        invariant MirrorsFirst(updatedCells, done, i, arrays)
      {
        var cell := cells[i];
        OneMirrors(cell, start.cells[i], objects, arrays);
        if cell.id == parent {
          assert i == t;
          if cell.outputs == null {
            threw := true;
            return;
          }
          var updatedCell := AppendToCell(cell, i, out);
          StillMirrorsFirst(updatedCells, done, i, objects, arrays);
          MirrorsNext(updatedCells, done, i, arrays, updatedCell);
          updatedCells := updatedCells + [updatedCell];
        } else {
          AppendSparesOthers(start, parent, out, i);
          MirrorsNext(updatedCells, done, i, arrays, cell);
          updatedCells := updatedCells + [cell];
        }
      }
    }

    /** The update of the four cases that push an output. */
    method AppendOutput(parent: string, out: Out) returns (threw: bool)
      requires Valid()
      modifies `cells, `arrays, `view, arrays
      ensures threw <==> NoArrayAt(old(view), parent)
      ensures Valid() && Grows() && view == Appending(old(view), parent, out)
      ensures Adds(parent, out)
    {
      Addressed(parent);
      ghost var t, start, before, objects := FindCell(view.cells, parent), view, cells, arrays;
      threw := PushOutput(parent, out);
      SameButOne(before, start.cells, objects, cells, view.cells, arrays, t);
      if t >= 0 && !threw {
        PushedArrays(start, t, out);
        assert Shows(t, out);
      }
    }

    /** A cell without an array makes the map throw, and the update is lost. */
    method PushOutput(parent: string, out: Out) returns (threw: bool)
      requires Valid()
      modifies `cells, `arrays, `view, arrays
      ensures threw <==> NoArrayAt(old(view), parent)
      ensures Valid() && Grows() && view == Appending(old(view), parent, out)
    {
      ghost var objects, start, done := arrays, view, Appending(view, parent, out);
      AppendingKeepsInv(view, parent, out);
      AppendKeepsRest(view, parent, out);
      var updatedCells;
      threw, updatedCells := MapAppend(parent, out);
      if !threw {
        StillMirrorsClip(copiedCell, view.copiedCell, objects, arrays);
        cells := updatedCells;
        view := done;
      } else {
        assert done == start;
      }
    }

    /** The socket's message handler: the cases that change the cells. */
    method UpdateCells(message: Message) returns (threw: bool)
      requires Valid()
      modifies `cells, `arrays, `view, arrays
      ensures threw <==> Throws(old(view), message)
      ensures Valid() && Grows()
      ensures view == if message.ExecuteInput? || Appends(message).Some? then Receiving(old(view), message) else old(view)
      ensures HandlesCells(message)
    {
      threw := false;
      if message.ExecuteInput? {
        SetExecutionCount(message.parent, message.executionCount);
      } else if message.Stream? {
        threw := UpdateStream(message);
      } else if message.ErrorMessage? || message.ExecuteResult? || message.DisplayData? {
        threw := UpdateResults(message);
      }
    }

    /** The cases `error`, `execute_result` and `display_data`. */
    method UpdateResults(message: Message) returns (threw: bool)
      requires Valid() && (message.ErrorMessage? || message.ExecuteResult? || message.DisplayData?)
      modifies `cells, `arrays, `view, arrays
      ensures threw <==> Throws(old(view), message)
      ensures Valid() && Grows() && view == Receiving(old(view), message)
      ensures HandlesCells(message)
    {
      var out := if message.ErrorMessage? then ErrorOut(message.ename, message.evalue, message.traceback)
                 else if message.ExecuteResult? then ResultOut(message.data) else DisplayOut(message.data);
      SaysIsAppended(message, out);
      threw := AppendOutput(message.parent, out);
    }

    /** The `stream` case. */
    method UpdateStream(message: Message) returns (threw: bool)
      requires Valid() && message.Stream?
      modifies `cells, `arrays, `view, arrays
      ensures threw <==> Throws(old(view), message)
      ensures Valid() && Grows() && view == Receiving(old(view), message)
      ensures HandlesCells(message)
    {
      threw := false;
      if message.name == "stdout" {
        var cleaned := RemoveAnsiCodes(message.text);
        SaysIsAppended(message, StreamOut(cleaned));
        threw := AppendOutput(message.parent, StreamOut(cleaned));
      }
    }

    /** The whole handler. */
    method UpdateNotebook(message: Message) returns (threw: bool)
      requires Valid()
      modifies `cells, `showPrompt, `inspectReplyMessage, `kernelStatus, `arrays, `view, arrays
      ensures threw <==> Throws(old(view), message)
      ensures Valid() && Grows() && view == Receiving(old(view), message)
      ensures HandlesCells(message)
      ensures showPrompt == (old(showPrompt) || message.InputRequest?)
      ensures inspectReplyMessage == if message.InspectReply? then message.text else old(inspectReplyMessage)
      ensures kernelStatus == if message.Status? then message.executionState else old(kernelStatus)
    {
      if message.InputRequest? || message.InspectReply? || message.Status? {
        UpdateStatus(message);
        threw := false;
      } else {
        threw := UpdateCells(message);
      }
    }

    /** The cases that change no cell. */
    method UpdateStatus(message: Message)
      requires Valid()
      modifies `showPrompt, `inspectReplyMessage, `kernelStatus, `view
      ensures Valid() && view == if message.ExecuteInput? || Appends(message).Some? then old(view) else Receiving(old(view), message)
      ensures showPrompt == (old(showPrompt) || message.InputRequest?)
      ensures inspectReplyMessage == if message.InspectReply? then message.text else old(inspectReplyMessage)
      ensures kernelStatus == if message.Status? then message.executionState else old(kernelStatus)
    {
      if message.InputRequest? {
        showPrompt := true;
        view := view.(showPrompt := true);
      }
      if message.InspectReply? {
        inspectReplyMessage := message.text;
        view := view.(inspectReplyMessage := message.text);
      }
      if message.Status? {
        kernelStatus := message.executionState;
        view := view.(kernelStatus := message.executionState);
      }
    }

    // ---------- Whole runs ----------

    method Handle(e: Event)
      requires Valid() && Enabled(view, e)
      modifies this, arrays
      ensures Valid() && Grows() && view == Apply(old(view), e)
    {
      if InPlace(e) {
        HandleInPlace(e);
      } else {
        match e
        case AddUp(newId) => AddCellUp(newId);
        case AddDown(newId) => AddCellDown(newId);
        case Delete => DeleteCell();
        case Copy => CopyCell();
        case CopyByIndex(index) => CopyCellByIndex(index);
        case Cut => CutCell();
        case Paste(newId) => PasteCell(newId);
        case Focus(index) => SetFocusedIndex(index);
        case Previous => GoToPreviousCell();
        case Next => GoToNextCell();
        case ArrowDown(addCell, newId) => HandleArrowDown(addCell, newId);
      }
    }

    method HandleInPlace(e: Event)
      requires Valid() && InPlace(e)
      modifies this, arrays
      ensures Valid() && Grows() && view == Apply(old(view), e)
    {
      match e
      case SetSource(id, value) => UpdateCellSource(value, id);
      case SetType(value) => ChangeCellType(value);
      case Submit(id) => SubmitCell(id);
      case SubmitPrompt(id) => SubmitPromptFor(id);
      case Receive(m) => var threw := UpdateNotebook(m);
    }

    /** Every run of the editor, pushing in place and sharing arrays as it does, is the run of the value
        model. */
    method HandleAll(events: seq<Event>)
      requires Valid() && Run(view, events).Some?
      modifies this, arrays
      ensures Valid() && Some(view) == Run(old(view), events)
    {
      ghost var start := view;
      for i := 0 to |events|
        invariant Valid() && Grows() && Run(start, events[..i]) == Some(view)
      {
        NextRun(start, events, i, view);
        Handle(events[i]);
      }
      assert events[..|events|] == events;
    }
  }

  /** The addressed cell exists and has no array. */
  predicate NoArrayAt(v: View, parent: string) {
    var t := FindCell(v.cells, parent); t >= 0 && v.cells[t].outputs.None?
  }

  lemma AppendKeepsRest(v: View, parent: string, out: Out)
    ensures var w := Appending(v, parent, out); w == v.(cells := w.cells, arrays := w.arrays)
    ensures NoArrayAt(v, parent) ==> Appending(v, parent, out) == v
  {
  }

  lemma AppendKeepsLength(v: View, parent: string, out: Out)
    ensures |Appending(v, parent, out).cells| == |v.cells|
  {
  }

  lemma AppendSparesOthers(v: View, parent: string, out: Out, i: nat)
    requires i < |v.cells| && v.cells[i].id != parent
    ensures |Appending(v, parent, out).cells| == |v.cells| && Appending(v, parent, out).cells[i] == v.cells[i]
  {
  }

  lemma OneMirrors(c: Cell, w: CellView, arrays: seq<OutputArray>, more: seq<OutputArray>)
    requires Mirrors(c, w, arrays) && arrays <= more
    ensures Mirrors(c, w, more)
  {
  }

  lemma PastedMirrors(c: Option<Cell>, w: Option<Clip>, arrays: seq<OutputArray>, id: string)
    requires MirrorsClip(c, w, arrays) && c.Some?
    ensures w.Some? && Mirrors(c.value.(id := id), PastedCell(w.value, id), arrays)
  {
  }

  lemma StillMirrorsClip(c: Option<Cell>, w: Option<Clip>, arrays: seq<OutputArray>, more: seq<OutputArray>)
    requires MirrorsClip(c, w, arrays) && arrays <= more
    ensures MirrorsClip(c, w, more)
  {
  }
}
