/** Notebooks in memory and on disk, what loading and saving compute, and when one undoes the other. */
module NotebookModel {
  import opened Lines
  import opened Options

  /** What a decoded JSON document holds where the Go code says `interface{}`. */
  datatype Value =
    | Str(s: string)
    | List(items: seq<Value>)
    | StrList(lines: seq<string>)  // a Go []string, which decoding never makes
    | Other(printed: string)       // null, a number, a boolean or an object, with what %v prints for it

  type Bundle = map<string, Value>

  datatype LanguageInfo = LanguageInfo(
    codemirrorMode: string, fileExtension: string, mimetype: string, name: string, version: string,
    nbConvertExport: string, pygmentsLexer: string)

  datatype NotebookMetadata = NotebookMetadata(
    kernelSpec: string, displayName: string, language: string, name: string, languageInfo: LanguageInfo)

  datatype OutputDisk = OutputDisk(
    outputType: string, executionCount: int, data: Bundle, text: seq<string>, metadata: Bundle,
    ename: string, evalue: string, traceback: seq<string>)

  datatype Output = Output(
    outputType: string, executionCount: int, data: Bundle, text: string, metadata: Bundle,
    ename: string, evalue: string, traceback: seq<string>)

  /** `M` is how the cell's metadata is held: by value, or as a reference to a shared map. */
  datatype CellDisk<M> = CellDisk(
    source: seq<string>, executionCount: int, cellType: string, attachments: Bundle,
    outputs: seq<OutputDisk>, cellMetadata: M)

  datatype Cell<M> = Cell(
    source: string, executionCount: int, cellType: string, attachments: Bundle,
    outputs: seq<Output>, cellMetadata: M)

  datatype NotebookDisk<M> = NotebookDisk(
    cells: seq<CellDisk<M>>, nbformat: int, nbformatMinor: int, metadata: NotebookMetadata)

  datatype Notebook<M> = Notebook(
    cells: seq<Cell<M>>, nbformat: int, nbformatMinor: int, metadata: NotebookMetadata)

  // ---------- Mime bundles ----------

  predicate HasPrefix(s: string, p: string) {
    p <= s
  }

  predicate HasSuffix(s: string, p: string) {
    |p| <= |s| && s[|s| - |p|..] == p
  }

  predicate IsJsonMime(mime: string) {
    mime == "application/json" || (HasPrefix(mime, "application/") && HasSuffix(mime, "+json"))
  }

  /** The default text form of a value. */
  function Print(v: Value): string {
    match v
    case Str(s) => s
    case List(items) => "[" + PrintAll(items) + "]"
    case StrList(lines) => "[" + Spaced(lines) + "]"
    case Other(printed) => printed
  }

  function PrintAll(items: seq<Value>): string {
    if items == [] then ""
    else if |items| == 1 then Print(items[0])
    else Print(items[0]) + " " + PrintAll(items[1..])
  }

  function Spaced(lines: seq<string>): string {
    if lines == [] then ""
    else if |lines| == 1 then lines[0]
    else lines[0] + " " + Spaced(lines[1..])
  }

  predicate AllStrings(items: seq<Value>) {
    forall i :: 0 <= i < |items| ==> items[i].Str?
  }

  function StringsOf(items: seq<Value>): seq<string>
    requires AllStrings(items)
  {
    seq(|items|, i requires 0 <= i < |items| => items[i].s)
  }

  /** The text kept for one entry on load; nothing for a list that is not all strings. */
  function RejoinValue(key: string, v: Value): Option<Value> {
    if !IsJsonMime(key) && v.List? then
      if AllStrings(v.items) then Some(Str(Concat(StringsOf(v.items)))) else None
    else Some(Str(Print(v)))
  }

  function RejoinBundle(data: Bundle): Bundle {
    map k | k in data && RejoinValue(k, data[k]).Some? :: RejoinValue(k, data[k]).value
  }

  function SplitValue(key: string, v: Value): Value {
    if HasPrefix(key, "text/") && v.Str? then StrList(SplitAfter(v.s)) else v
  }

  function SplitBundle(data: Bundle): Bundle {
    map k | k in data :: SplitValue(k, data[k])
  }

  // ---------- Loading ----------

  function LoadOutput(o: OutputDisk): Output {
    var isError := o.outputType == "error";
    Output(o.outputType, o.executionCount,
           if o.outputType == "stream" then map[] else RejoinBundle(o.data),
           Concat(o.text), o.metadata,
           if isError then o.ename else "", if isError then o.evalue else "", if isError then o.traceback else [])
  }

  function LoadOutputs(outputs: seq<OutputDisk>): seq<Output> {
    seq(|outputs|, i requires 0 <= i < |outputs| => LoadOutput(outputs[i]))
  }

  function LoadCell<M>(c: CellDisk<M>): Cell<M> {
    Cell(Concat(c.source), c.executionCount, c.cellType, RejoinBundle(c.attachments),
         if c.cellType == "code" then LoadOutputs(c.outputs) else [], c.cellMetadata)
  }

  function LoadCells<M>(cells: seq<CellDisk<M>>): seq<Cell<M>> {
    seq(|cells|, i requires 0 <= i < |cells| => LoadCell(cells[i]))
  }

  /** The two format numbers are not carried over. */
  function LoadNotebook<M>(nb: NotebookDisk<M>): Notebook<M> {
    Notebook(LoadCells(nb.cells), 0, 0, nb.metadata)
  }

  /** A notebook without the transient key of its cells. */
  function StripCell(c: Cell<Bundle>): Cell<Bundle> {
    c.(cellMetadata := c.cellMetadata - {"trusted"})
  }

  function Strip(nb: Notebook<Bundle>): Notebook<Bundle> {
    nb.(cells := seq(|nb.cells|, i requires 0 <= i < |nb.cells| => StripCell(nb.cells[i])))
  }

  function Parse(nb: NotebookDisk<Bundle>): Notebook<Bundle> {
    Strip(LoadNotebook(nb))
  }

  // ---------- Saving ----------

  /** An attachment is wrapped in an object with the one key `data`; this is that object. */
  function Wrapped(v: Value): Value {
    Other("map[data:" + Print(v) + "]")
  }

  function SaveAttachments(a: Bundle): Bundle {
    map k | k in a :: Wrapped(a[k])
  }

  function SaveOutput(o: Output): OutputDisk {
    var isError := o.outputType == "error";
    OutputDisk(o.outputType, o.executionCount, SplitBundle(o.data), SplitAfter(o.text), o.metadata,
               if isError then o.ename else "", if isError then o.evalue else "", if isError then o.traceback else [])
  }

  function SaveOutputs(outputs: seq<Output>): seq<OutputDisk> {
    seq(|outputs|, i requires 0 <= i < |outputs| => SaveOutput(outputs[i]))
  }

  function SaveCell<M>(c: Cell<M>): CellDisk<M> {
    CellDisk(SplitAfter(c.source), c.executionCount, c.cellType, SaveAttachments(c.attachments),
             SaveOutputs(c.outputs), c.cellMetadata)
  }

  function SaveCells<M>(cells: seq<Cell<M>>): seq<CellDisk<M>> {
    seq(|cells|, i requires 0 <= i < |cells| => SaveCell(cells[i]))
  }

  function SaveNotebook<M>(nb: Notebook<M>): NotebookDisk<M> {
    NotebookDisk(SaveCells(nb.cells), 4, 5, nb.metadata)
  }

  // ---------- Through the file ----------

  function StrValues(lines: seq<string>): seq<Value> {
    seq(|lines|, i requires 0 <= i < |lines| => Str(lines[i]))
  }

  /** Encoding to JSON and decoding again: a list of strings comes back as a list of values. */
  function JsonValue(v: Value): Value {
    match v
    case StrList(lines) => List(StrValues(lines))
    case List(items) => List(JsonValues(items))
    case _ => v
  }

  function JsonValues(items: seq<Value>): seq<Value> {
    if items == [] then [] else [JsonValue(items[0])] + JsonValues(items[1..])
  }

  function JsonBundle(data: Bundle): Bundle {
    map k | k in data :: JsonValue(data[k])
  }

  function JsonOutput(o: OutputDisk): OutputDisk {
    o.(data := JsonBundle(o.data), metadata := JsonBundle(o.metadata))
  }

  function JsonOutputs(outputs: seq<OutputDisk>): seq<OutputDisk> {
    seq(|outputs|, i requires 0 <= i < |outputs| => JsonOutput(outputs[i]))
  }

  function JsonCell(c: CellDisk<Bundle>): CellDisk<Bundle> {
    c.(attachments := JsonBundle(c.attachments), outputs := JsonOutputs(c.outputs), cellMetadata := JsonBundle(c.cellMetadata))
  }

  function ThroughJson(nb: NotebookDisk<Bundle>): NotebookDisk<Bundle> {
    nb.(cells := seq(|nb.cells|, i requires 0 <= i < |nb.cells| => JsonCell(nb.cells[i])))
  }

  /** Save, write, read and load again. */
  function Reload(nb: Notebook<Bundle>): Notebook<Bundle> {
    Parse(ThroughJson(SaveNotebook(nb)))
  }

  /** Values that decoding can produce. */
  predicate Decoded(v: Value) {
    match v
    case StrList(_) => false
    case List(items) => forall i :: 0 <= i < |items| ==> Decoded(items[i])
    case _ => true
  }

  predicate DecodedBundle(data: Bundle) {
    forall k :: k in data ==> Decoded(data[k])
  }

  predicate DecodedOutput(o: Output) {
    DecodedBundle(o.data) && DecodedBundle(o.metadata)
  }

  predicate DecodedCell(c: Cell<Bundle>) {
    DecodedBundle(c.attachments) && DecodedBundle(c.cellMetadata) &&
    forall i :: 0 <= i < |c.outputs| ==> DecodedOutput(c.outputs[i])
  }

  /** A notebook as a client sends it: all of it decoded from JSON. */
  predicate DecodedNotebook(nb: Notebook<Bundle>) {
    forall i :: 0 <= i < |nb.cells| ==> DecodedCell(nb.cells[i])
  }

  // ---------- What a saved notebook holds ----------

  /** A string under a text key is saved as its lines, and anything else as it is. */
  ghost predicate EntrySaved(key: string, v: Value, saved: Value) {
    if "text/" <= key && v.Str? then saved.StrList? && IsSplit(saved.lines, v.s) else saved == v
  }

  ghost predicate BundleSaved(data: Bundle, saved: Bundle) {
    saved.Keys == data.Keys && forall k :: k in data ==> EntrySaved(k, data[k], saved[k])
  }

  ghost predicate OutputSaved(o: Output, saved: OutputDisk) {
    && saved.outputType == o.outputType && saved.executionCount == o.executionCount && saved.metadata == o.metadata
    && IsSplit(saved.text, o.text) && BundleSaved(o.data, saved.data)
    && (if o.outputType == "error"
        then saved.ename == o.ename && saved.evalue == o.evalue && saved.traceback == o.traceback
        else saved.ename == saved.evalue == "" && saved.traceback == [])
  }

  /** Every attachment is wrapped, and printed unless it is a string. */
  ghost predicate AttachmentsSaved(a: Bundle, saved: Bundle) {
    saved.Keys == a.Keys && forall k :: k in a ==>
      saved[k] == Other("map[data:" + (if a[k].Str? then a[k].s else Print(a[k])) + "]")
  }

  /** All but the metadata, of which there are two representations. */
  ghost predicate CellSaved<M, N>(c: Cell<M>, saved: CellDisk<N>) {
    && IsSplit(saved.source, c.source) && saved.executionCount == c.executionCount && saved.cellType == c.cellType
    && AttachmentsSaved(c.attachments, saved.attachments)
    && |saved.outputs| == |c.outputs|
    && forall i :: 0 <= i < |c.outputs| ==> OutputSaved(c.outputs[i], saved.outputs[i])
  }

  lemma SplitIsSplit(s: string)
    ensures IsSplit(SplitAfter(s), s)
  {
    SplitIsLines(s);
    SplitThenJoin(s);
  }

  lemma SavesBundle(data: Bundle)
    ensures BundleSaved(data, SplitBundle(data))
  {
    forall k | k in data
      ensures EntrySaved(k, data[k], SplitBundle(data)[k])
    {
      if data[k].Str? {
        SplitIsSplit(data[k].s);
      }
    }
  }

  lemma SavesOutput(o: Output)
    ensures OutputSaved(o, SaveOutput(o))
  {
    SplitIsSplit(o.text);
    SavesBundle(o.data);
  }

  /** Every field of a saved cell, outputs and data included. */
  lemma SavesCell<M>(c: Cell<M>)
    ensures CellSaved(c, SaveCell(c))
  {
    SplitIsSplit(c.source);
    forall i | 0 <= i < |c.outputs|
      ensures OutputSaved(c.outputs[i], SaveCell(c).outputs[i])
    {
      SavesOutput(c.outputs[i]);
    }
  }

  // ---------- What a loaded notebook holds ----------

  /** A list of strings is joined unless its key is a JSON one, any other list without such a key is
      dropped, and the rest is printed. */
  ghost predicate BundleLoaded(data: Bundle, loaded: Bundle) {
    && (forall k :: k in loaded <==> k in data && (data[k].List? && !IsJsonMime(k) ==> AllStrings(data[k].items)))
    && forall k :: k in loaded ==> EntryLoaded(k, data[k], loaded[k])
  }

  ghost predicate EntryLoaded(key: string, v: Value, loaded: Value) {
    && loaded.Str?
    && if v.List? && !IsJsonMime(key) then exists pieces :: Concat(pieces) == loaded.s && AreItems(pieces, v.items)
       else loaded.s == if v.Str? then v.s else Print(v)
  }

  ghost predicate AreItems(pieces: seq<string>, items: seq<Value>) {
    |pieces| == |items| && forall i :: 0 <= i < |pieces| ==> items[i] == Str(pieces[i])
  }

  ghost predicate OutputLoaded(d: OutputDisk, loaded: Output) {
    && loaded.outputType == d.outputType && loaded.executionCount == d.executionCount && loaded.metadata == d.metadata
    && loaded.text == Concat(d.text)
    && (if d.outputType == "stream" then loaded.data == map[] else BundleLoaded(d.data, loaded.data))
    && (if d.outputType == "error"
        then loaded.ename == d.ename && loaded.evalue == d.evalue && loaded.traceback == d.traceback
        else loaded.ename == loaded.evalue == "" && loaded.traceback == [])
  }

  ghost predicate CellLoaded<M, N>(d: CellDisk<M>, loaded: Cell<N>) {
    && loaded.source == Concat(d.source) && loaded.executionCount == d.executionCount && loaded.cellType == d.cellType
    && BundleLoaded(d.attachments, loaded.attachments)
    && (if d.cellType == "code"
        then |loaded.outputs| == |d.outputs| && forall i :: 0 <= i < |d.outputs| ==> OutputLoaded(d.outputs[i], loaded.outputs[i])
        else loaded.outputs == [])
  }

  lemma LoadsBundle(data: Bundle)
    ensures BundleLoaded(data, RejoinBundle(data))
  {
    var loaded := RejoinBundle(data);
    forall k | k in loaded
      ensures EntryLoaded(k, data[k], loaded[k])
    {
      if data[k].List? && !IsJsonMime(k) {
        assert AreItems(StringsOf(data[k].items), data[k].items);
      }
    }
  }

  /** Every field of a loaded cell, outputs and data included. */
  lemma LoadsCell<M>(d: CellDisk<M>)
    ensures CellLoaded(d, LoadCell(d))
  {
    LoadsBundle(d.attachments);
    forall i | 0 <= i < |d.outputs|
      ensures OutputLoaded(d.outputs[i], LoadOutput(d.outputs[i]))
    {
      LoadsBundle(d.outputs[i].data);
    }
  }

  lemma NoPlus(s: string)
    requires s == "application/"
    ensures forall k :: 0 <= k < |s| ==> s[k] != '+'
  {
    assert s == ['a', 'p', 'p', 'l', 'i', 'c', 'a', 't', 'i', 'o', 'n', '/'];
  }

  /** The JSON types: the plain one, and the application types with the suffix. */
  lemma JsonMimes(mime: string)
    ensures IsJsonMime(mime) <==> mime == "application/json" || exists t: string :: mime == "application/" + t + "+json"
  {
    if HasPrefix(mime, "application/") && HasSuffix(mime, "+json") {
      var n := |mime| - 5;
      assert mime[n..] == "+json" && mime[n] == '+';
      assert mime[..12] == "application/";
      NoPlus("application/");
      assert forall k :: 0 <= k < 12 ==> mime[..12][k] == mime[k];
      assert mime == "application/" + mime[12..n] + "+json";
    }
    if t: string :| mime == "application/" + t + "+json" {
      assert mime[|mime| - 5..] == "+json";
    }
  }

  /** Printed lists: in brackets, one space between items. */
  lemma {:induction false} PrintedInOrder(a: seq<Value>, b: seq<Value>)
    ensures Print(List([])) == "[]"
    ensures forall v: Value :: Print(List([v])) == "[" + Print(v) + "]"
    ensures a != [] && b != [] ==> PrintAll(a + b) == PrintAll(a) + " " + PrintAll(b)
    ensures Print(List(a)) == "[" + PrintAll(a) + "]"
    decreases |a|
  {
    if |a| == 1 && b != [] {
      assert (a + b)[1..] == b;
    } else if |a| > 1 && b != [] {
      assert (a + b)[1..] == a[1..] + b;
      PrintedInOrder(a[1..], b);
    }
  }

  // ---------- When a save is undone by the next load ----------

  /** All data are strings and belong to no stream; only errors carry error fields. */
  predicate KeptOutput(o: Output) {
    && (forall k :: k in o.data ==> o.data[k].Str?)
    && (o.outputType == "stream" ==> o.data == map[])
    && (o.outputType != "error" ==> o.ename == "" && o.evalue == "" && o.traceback == [])
  }

  /** No attachments, no transient key, outputs only on code, and those all kept. */
  predicate KeptCell(c: Cell<Bundle>) {
    && c.attachments == map[]
    && "trusted" !in c.cellMetadata
    && (c.cellType != "code" ==> c.outputs == [])
    && forall i :: 0 <= i < |c.outputs| ==> KeptOutput(c.outputs[i])
  }

  predicate KeptNotebook(nb: Notebook<Bundle>) {
    forall i :: 0 <= i < |nb.cells| ==> KeptCell(nb.cells[i])
  }

  lemma {:induction false} JsonKeepsDecoded(v: Value)
    requires Decoded(v)
    ensures JsonValue(v) == v
  {
    if v.List? {
      JsonKeepsAll(v.items);
    }
  }

  lemma {:induction false} JsonKeepsAll(items: seq<Value>)
    requires forall i :: 0 <= i < |items| ==> Decoded(items[i])
    ensures JsonValues(items) == items
  {
    if items != [] {
      JsonKeepsDecoded(items[0]);
      JsonKeepsAll(items[1..]);
    }
  }

  lemma JsonKeepsBundle(data: Bundle)
    requires DecodedBundle(data)
    ensures JsonBundle(data) == data
  {
    forall k | k in data
      ensures JsonValue(data[k]) == data[k]
    {
      JsonKeepsDecoded(data[k]);
    }
  }

  /** One entry after save, file and load is the entry itself exactly when it is a string. */
  lemma EntryRoundTrip(key: string, v: Value)
    requires Decoded(v)
    ensures RejoinValue(key, JsonValue(SplitValue(key, v))) == Some(v) <==> v.Str?
  {
    if HasPrefix(key, "text/") && v.Str? {
      var lines := SplitAfter(v.s);
      assert key[0] == 't';
      assert StringsOf(StrValues(lines)) == lines;
      SplitThenJoin(v.s);
    } else {
      JsonKeepsDecoded(v);
    }
  }

  lemma BundleRoundTrip(data: Bundle)
    requires DecodedBundle(data)
    ensures RejoinBundle(JsonBundle(SplitBundle(data))) == data <==> forall k :: k in data ==> data[k].Str?
  {
    var back := RejoinBundle(JsonBundle(SplitBundle(data)));
    forall k | k in data
      ensures (k in back && back[k] == data[k]) <==> data[k].Str?
    {
      EntryRoundTrip(k, data[k]);
      assert k in back <==> RejoinValue(k, JsonValue(SplitValue(k, data[k]))).Some?;
    }
    assert forall k :: k in back ==> k in data;
  }

  /** A saved attachment comes back as the printed object, never as itself. */
  lemma AttachmentsRoundTrip(a: Bundle)
    ensures RejoinBundle(JsonBundle(SaveAttachments(a))) == a <==> a == map[]
  {
    var back := RejoinBundle(JsonBundle(SaveAttachments(a)));
    forall k | k in a
      ensures k in back && back[k] != a[k]
    {
      assert RejoinValue(k, Wrapped(a[k])) == Some(Str("map[data:" + Print(a[k]) + "]"));
      assert |("map[data:" + Print(a[k]) + "]")| == |Print(a[k])| + 10;
    }
    if a != map[] {
      var k :| k in a;
      assert back[k] != a[k];
    }
  }

  lemma OutputRoundTrip(o: Output)
    requires DecodedOutput(o)
    ensures LoadOutput(JsonOutput(SaveOutput(o))) == o <==> KeptOutput(o)
  {
    SplitThenJoin(o.text);
    JsonKeepsBundle(o.metadata);
    BundleRoundTrip(o.data);
  }

  lemma CellRoundTrip(c: Cell<Bundle>)
    requires DecodedCell(c)
    ensures StripCell(LoadCell(JsonCell(SaveCell(c)))) == c <==> KeptCell(c)
  {
    var back := StripCell(LoadCell(JsonCell(SaveCell(c))));
    SplitThenJoin(c.source);
    AttachmentsRoundTrip(c.attachments);
    JsonKeepsBundle(c.cellMetadata);
    assert back.cellMetadata == c.cellMetadata <==> "trusted" !in c.cellMetadata by {
      assert "trusted" !in c.cellMetadata - {"trusted"};
    }
    OutputsRoundTrip(c.outputs);
    assert back.outputs == if c.cellType == "code" then LoadOutputs(JsonOutputs(SaveOutputs(c.outputs))) else [];
  }

  lemma OutputsRoundTrip(outputs: seq<Output>)
    requires forall i :: 0 <= i < |outputs| ==> DecodedOutput(outputs[i])
    ensures LoadOutputs(JsonOutputs(SaveOutputs(outputs))) == outputs <==>
            forall i :: 0 <= i < |outputs| ==> KeptOutput(outputs[i])
  {
    var back := LoadOutputs(JsonOutputs(SaveOutputs(outputs)));
    forall i | 0 <= i < |outputs|
      ensures back[i] == outputs[i] <==> KeptOutput(outputs[i])
    {
      OutputRoundTrip(outputs[i]);
    }
  }

  /** Saving and loading again gives the notebook back, but for the format numbers, exactly when
      every cell is of the kept kind. */
  lemma SaveThenLoad(nb: Notebook<Bundle>)
    requires DecodedNotebook(nb)
    ensures Reload(nb) == nb.(nbformat := 0, nbformatMinor := 0) <==> KeptNotebook(nb)
  {
    var back := Reload(nb);
    assert |back.cells| == |nb.cells|;
    forall i | 0 <= i < |nb.cells|
      ensures back.cells[i] == nb.cells[i] <==> KeptCell(nb.cells[i])
    {
      CellRoundTrip(nb.cells[i]);
    }
  }

  predicate DecodedDisk(nb: NotebookDisk<Bundle>) {
    forall i :: 0 <= i < |nb.cells| ==>
      DecodedBundle(nb.cells[i].attachments) && DecodedBundle(nb.cells[i].cellMetadata) &&
      forall j :: 0 <= j < |nb.cells[i].outputs| ==>
        DecodedBundle(nb.cells[i].outputs[j].data) && DecodedBundle(nb.cells[i].outputs[j].metadata)
  }

  /** What was loaded once is stable under save and load exactly when no attachment was loaded. */
  lemma LoadSaveLoad(d: NotebookDisk<Bundle>)
    requires DecodedDisk(d)
    ensures Reload(Parse(d)) == Parse(d) <==> forall i :: 0 <= i < |d.cells| ==> RejoinBundle(d.cells[i].attachments) == map[]
  {
    var nb := Parse(d);
    assert |nb.cells| == |d.cells|;
    forall i | 0 <= i < |d.cells|
      ensures DecodedCell(nb.cells[i])
      ensures KeptCell(nb.cells[i]) <==> RejoinBundle(d.cells[i].attachments) == map[]
    {
      var c := nb.cells[i];
      assert c == StripCell(LoadCell(d.cells[i]));
      assert DecodedBundle(c.cellMetadata);
      forall j | 0 <= j < |c.outputs|
        ensures KeptOutput(c.outputs[j]) && DecodedOutput(c.outputs[j])
      {
        assert c.outputs[j] == LoadOutput(d.cells[i].outputs[j]);
      }
    }
    SaveThenLoad(nb);
  }
}
