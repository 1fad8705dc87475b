/** notebook.go: the loops that load, save and strip notebooks, proved against NotebookModel.
    A cell's metadata is a Go map, shared by whoever copies the cell. */
module Notebooks {
  import opened Lines
  import opened NotebookModel

  method ToStringSlice(input: seq<Value>) returns (result: seq<string>)
    requires AllStrings(input)
    ensures result == StringsOf(input)
  {
    result := [];
    for i := 0 to |input|
      invariant result == StringsOf(input)[..i]
    {
      result := result + [input[i].s];
    }
  }

  method RejoinMimeBundle(data: Bundle) returns (outData: Bundle)
    ensures outData == RejoinBundle(data)
  {
    outData := map[];
    var left := data.Keys;
    while left != {}
      invariant left <= data.Keys
      invariant outData == RejoinBundle(data - left)
    {
      var key :| key in left;
      var value := data[key];
      if !IsJsonMime(key) {
        if value.List? {
          var allStrings := true;
          var i := 0;
          while i < |value.items|
            invariant 0 <= i <= |value.items|
            invariant allStrings == AllStrings(value.items[..i])
          {
            if !value.items[i].Str? {
              allStrings := false;
              assert !value.items[..|value.items|][i].Str?;
              assert !AllStrings(value.items);
              break;
            }
            i := i + 1;
          }
          assert allStrings ==> value.items[..i] == value.items;
          if allStrings {
            var parts := ToStringSlice(value.items);
            outData := outData[key := Str(Concat(parts))];
          }
        } else {
          outData := outData[key := Str(Print(value))];
        }
      } else {
        outData := outData[key := Str(Print(value))];
      }
      assert data - (left - {key}) == (data - left)[key := value];
      left := left - {key};
    }
    assert data - {} == data;
  }

  /** The body of the loop of `splitMimeBundle`. */
  method SplitEntry(key: string, value: Value) returns (diskValue: Value)
    ensures diskValue == SplitValue(key, value)
  {
    var nonTextSplitMimes := map["application/javascript" := false, "image/svg+xml" := false, "application/json" := false];
    if HasPrefix(key, "text/") || (key in nonTextSplitMimes && nonTextSplitMimes[key]) {
      if value.Str? {
        var splitValue := SplitAfter(value.s);
        TrimIsIdle(value.s);
        if |splitValue| > 0 {
          splitValue := splitValue[|splitValue| - 1 := TrimNewline(splitValue[|splitValue| - 1])];
        }
        assert splitValue == SplitAfter(value.s);
        return StrList(splitValue);
      }
    }
    return value;
  }

  method SplitMimeBundle(data: Bundle) returns (diskData: Bundle)
    ensures diskData == SplitBundle(data)
  {
    diskData := map[];
    var left := data.Keys;
    while left != {}
      invariant left <= data.Keys
      invariant diskData == SplitBundle(data - left)
    {
      var key :| key in left;
      var diskValue := SplitEntry(key, data[key]);
      diskData := diskData[key := diskValue];
      assert data - (left - {key}) == (data - left)[key := data[key]];
      left := left - {key};
    }
    assert data - {} == data;
  }

  method RejoinOutputs(outputs: seq<OutputDisk>) returns (outputData: seq<Output>)
    ensures outputData == LoadOutputs(outputs)
  {
    outputData := [];
    for i := 0 to |outputs|
      invariant outputData == LoadOutputs(outputs)[..i]
    {
      var output := outputs[i];
      var x := Output(output.outputType, output.executionCount, map[], Concat(output.text), output.metadata, "", "", []);
      if output.outputType == "error" {
        x := x.(ename := output.ename, evalue := output.evalue, traceback := output.traceback);
      }
      if output.outputType == "execute_result" || output.outputType == "display_data" {
        var bundle := RejoinMimeBundle(output.data);
        x := x.(data := bundle);
      } else if output.outputType == "stream" {
        x := x.(text := Concat(output.text));
      } else {
        var bundle := RejoinMimeBundle(output.data);
        x := x.(data := bundle);
      }
      outputData := outputData + [x];
    }
  }

  method RejoinLines<M>(nbDisk: NotebookDisk<M>) returns (nb: Notebook<M>)
    ensures nb == LoadNotebook(nbDisk)
  {
    nb := Notebook([], 0, 0, nbDisk.metadata);
    for i := 0 to |nbDisk.cells|
      invariant nb == LoadNotebook(nbDisk).(cells := LoadCells(nbDisk.cells)[..i])
    {
      var cell := nbDisk.cells[i];
      var attachmentData := RejoinMimeBundle(cell.attachments);
      var outputData := [];
      if cell.cellType == "code" {
        outputData := RejoinOutputs(cell.outputs);
      }
      nb := nb.(cells := nb.cells +
        [Cell(Concat(cell.source), cell.executionCount, cell.cellType, attachmentData, outputData, cell.cellMetadata)]);
    }
  }

  // ---------- Shared metadata ----------

  /** A Go map, held by reference. */
  class Dict {
    var entries: Bundle

    constructor ()
      ensures entries == map[]
    {
      entries := map[];
    }
  }

  /** The contents of a map variable; a nil map reads as empty. */
  function Contents(d: Dict?): Bundle
    reads d
  {
    if d == null then map[] else d.entries
  }

  function DictsOf(cells: seq<CellDisk<Dict?>>): set<Dict> {
    set i | 0 <= i < |cells| && cells[i].cellMetadata != null :: cells[i].cellMetadata
  }

  ghost function SeenDicts(cells: seq<Cell<Dict?>>): set<Dict> {
    set i | 0 <= i < |cells| && cells[i].cellMetadata != null :: cells[i].cellMetadata
  }

  ghost function ViewDisk(nb: NotebookDisk<Dict?>): NotebookDisk<Bundle>
    reads DictsOf(nb.cells)
  {
    NotebookDisk(seq(|nb.cells|, i requires 0 <= i < |nb.cells| reads DictsOf(nb.cells) =>
      var c := nb.cells[i];
      CellDisk(c.source, c.executionCount, c.cellType, c.attachments, c.outputs, Contents(c.cellMetadata))),
      nb.nbformat, nb.nbformatMinor, nb.metadata)
  }

  ghost function View(nb: Notebook<Dict?>): Notebook<Bundle>
    reads SeenDicts(nb.cells)
  {
    Notebook(seq(|nb.cells|, i requires 0 <= i < |nb.cells| reads SeenDicts(nb.cells) =>
      var c := nb.cells[i];
      Cell(c.source, c.executionCount, c.cellType, c.attachments, c.outputs, Contents(c.cellMetadata))),
      nb.nbformat, nb.nbformatMinor, nb.metadata)
  }

  /** Removes the key from every cell's map; cells may share maps. */
  method StripTransient(nb: NotebookDisk<Dict?>)
    modifies DictsOf(nb.cells)
    ensures forall d :: d in DictsOf(nb.cells) ==> d.entries == old(d.entries) - {"trusted"}
  {
    for i := 0 to |nb.cells|
      invariant forall d :: d in DictsOf(nb.cells[..i]) ==> d.entries == old(d.entries) - {"trusted"}
      invariant forall d :: d in DictsOf(nb.cells) - DictsOf(nb.cells[..i]) ==> d.entries == old(d.entries)
    {
      var d := nb.cells[i].cellMetadata;
      if d != null {
        d.entries := d.entries - {"trusted"};
      }
      assert DictsOf(nb.cells[..i + 1]) == DictsOf(nb.cells[..i]) + if d == null then {} else {d};
    }
    assert nb.cells[..|nb.cells|] == nb.cells;
  }

  /** The copy handed out is built before the key is deleted, yet shows the deletion in every cell. */
  method ParseNotebook(nb: NotebookDisk<Dict?>) returns (outNb: Notebook<Dict?>)
    modifies DictsOf(nb.cells)
    ensures View(outNb) == Parse(old(ViewDisk(nb)))
    ensures outNb.nbformat == outNb.nbformatMinor == 0 && outNb.metadata == nb.metadata
    ensures |outNb.cells| == |nb.cells|
    ensures forall i :: 0 <= i < |nb.cells| ==> CellLoaded(nb.cells[i], outNb.cells[i])
    ensures forall i :: 0 <= i < |nb.cells| ==>
      && outNb.cells[i].cellMetadata == nb.cells[i].cellMetadata
      && Contents(outNb.cells[i].cellMetadata) == old(Contents(nb.cells[i].cellMetadata)) - {"trusted"}
  {
    outNb := RejoinLines(nb);
    StripTransient(nb);
    forall i | 0 <= i < |nb.cells|
      ensures View(outNb).cells[i] == Parse(old(ViewDisk(nb))).cells[i] && CellLoaded(nb.cells[i], outNb.cells[i])
    {
      LoadsCell(nb.cells[i]);
      var d := nb.cells[i].cellMetadata;
      assert d != null ==> d in DictsOf(nb.cells);
      assert Contents(d) == old(Contents(d)) - {"trusted"};
    }
  }

  // ---------- Saving ----------

  method ConvertAttachments(outAttachments: Bundle) returns (attachments: Bundle)
    ensures attachments == SaveAttachments(outAttachments)
  {
    attachments := map[];
    var left := outAttachments.Keys;
    while left != {}
      invariant left <= outAttachments.Keys
      invariant attachments == SaveAttachments(outAttachments - left)
    {
      var k :| k in left;
      var v := outAttachments[k];
      if v.Str? {
        attachments := attachments[k := Other("map[data:" + v.s + "]")];
      } else {
        attachments := attachments[k := Other("map[data:" + Print(v) + "]")];
      }
      assert outAttachments - (left - {k}) == (outAttachments - left)[k := v];
      left := left - {k};
    }
    assert outAttachments - {} == outAttachments;
  }

  method ConvertOutputs(outputs: seq<Output>) returns (outputsDisk: seq<OutputDisk>)
    ensures outputsDisk == SaveOutputs(outputs)
  {
    outputsDisk := [];
    for i := 0 to |outputs|
      invariant outputsDisk == SaveOutputs(outputs)[..i]
    {
      var out := outputs[i];
      var data := SplitMimeBundle(out.data);
      var x := OutputDisk(out.outputType, out.executionCount, data, SplitAfter(out.text), out.metadata, "", "", []);
      if out.outputType == "error" {
        x := x.(ename := out.ename, evalue := out.evalue, traceback := out.traceback);
      }
      outputsDisk := outputsDisk + [x];
    }
  }

  /** A nil metadata map is replaced by a new empty one; any other is shared with the result. */
  method ConvertToNbDisk(nb: Notebook<Dict?>) returns (nbDisk: NotebookDisk<Dict?>)
    ensures ViewDisk(nbDisk) == SaveNotebook(View(nb))
    ensures nbDisk.nbformat == 4 && nbDisk.nbformatMinor == 5 && nbDisk.metadata == nb.metadata
    ensures |nbDisk.cells| == |nb.cells|
    ensures forall i :: 0 <= i < |nb.cells| ==>
      CellSaved(nb.cells[i], nbDisk.cells[i]) && Contents(nbDisk.cells[i].cellMetadata) == Contents(nb.cells[i].cellMetadata)
    ensures forall i :: 0 <= i < |nb.cells| ==> nbDisk.cells[i].cellMetadata != null
    ensures forall i :: 0 <= i < |nb.cells| && nb.cells[i].cellMetadata != null ==>
      nbDisk.cells[i].cellMetadata == nb.cells[i].cellMetadata
  {
    nbDisk := NotebookDisk([], 4, 5, nb.metadata);
    for i := 0 to |nb.cells|
      invariant nbDisk == NotebookDisk(nbDisk.cells, 4, 5, nb.metadata) && |nbDisk.cells| == i
      invariant forall j :: 0 <= j < i ==>
        var c, d := nb.cells[j], nbDisk.cells[j];
        && d == SaveCell(c).(cellMetadata := d.cellMetadata)
        && d.cellMetadata != null && d.cellMetadata.entries == Contents(c.cellMetadata)
        && (c.cellMetadata != null ==> d.cellMetadata == c.cellMetadata)
    {
      var outCell := nb.cells[i];
      var sourceLines := SplitAfter(outCell.source);
      var attachments := ConvertAttachments(outCell.attachments);
      var outputsDisk := ConvertOutputs(outCell.outputs);
      var cellMeta := outCell.cellMetadata;
      if cellMeta == null {
        cellMeta := new Dict();
      }
      nbDisk := nbDisk.(cells := nbDisk.cells +
        [CellDisk(sourceLines, outCell.executionCount, outCell.cellType, attachments, outputsDisk, cellMeta)]);
    }
    forall j | 0 <= j < |nb.cells|
      ensures ViewDisk(nbDisk).cells[j] == SaveNotebook(View(nb)).cells[j] && CellSaved(nb.cells[j], nbDisk.cells[j])
    {
      SavesCell(nb.cells[j]);
    }
  }
}
