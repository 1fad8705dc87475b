/** Requests for new untitled entries that overlap: every probe of the search, the open and the write are
    steps of their own. */
module Creates {
  import opened Options
  import opened Untitled

  datatype Request =
    | Searching(kind: Kind, i: nat)  // about to probe name number i
    | Chosen(kind: Kind, i: nat)     // found it free, about to create it
    | ToFill(i: nat)                 // has opened a notebook, about to write it

  datatype State = State(dir: Listing, requests: map<nat, Request>)

  /** `Write` and `Remove` are what anybody else does. */
  datatype Action =
    | Begin(id: nat, kind: Kind) | Probe(id: nat) | Create(id: nat) | Fill(id: nat)
    | Write(name: string, entry: Entry) | Remove(name: string)

  function ChosenName(r: Request): string
    requires r.Chosen?
  {
    Name(SeriesOf(r.kind), r.i)
  }

  function ProbeStep(s: State, id: nat): Option<State> {
    if id !in s.requests || !s.requests[id].Searching? then None
    else
      var r := s.requests[id];
      if Taken(s.dir, r.kind, Name(SeriesOf(r.kind), r.i)) then Some(s.(requests := s.requests[id := Searching(r.kind, r.i + 1)]))
      else Some(s.(requests := s.requests[id := Chosen(r.kind, r.i)]))
  }

  function CreateStep(s: State, id: nat): Option<State> {
    if id !in s.requests || !s.requests[id].Chosen? then None
    else
      var r := s.requests[id];
      Some(State(Opened(s.dir, r.kind, ChosenName(r)),
                 if r.kind == ANotebook then s.requests[id := ToFill(r.i)] else s.requests - {id}))
  }

  function FillStep(s: State, id: nat): Option<State> {
    if id !in s.requests || !s.requests[id].ToFill? then None
    else Some(State(Overwritten(s.dir, Name(NOTEBOOKS, s.requests[id].i), EMPTY_NOTEBOOK), s.requests - {id}))
  }

  function Step(s: State, a: Action): Option<State> {
    match a
    case Begin(id, kind) => if id in s.requests then None else Some(s.(requests := s.requests[id := Searching(kind, 0)]))
    case Probe(id) => ProbeStep(s, id)
    case Create(id) => CreateStep(s, id)
    case Fill(id) => FillStep(s, id)
    case Write(name, entry) => Some(s.(dir := s.dir[name := entry]))
    case Remove(name) => Some(s.(dir := s.dir - {name}))
  }

  function Then(before: Option<State>, a: Action): Option<State> {
    if before.None? then None else Step(before.value, a)
  }

  function Run(s: State, acts: seq<Action>): Option<State> {
    if acts == [] then Some(s) else Then(Run(s, acts[..|acts| - 1]), acts[|acts| - 1])
  }

  lemma RunThen(s: State, acts: seq<Action>, a: Action)
    ensures Run(s, acts + [a]) == Then(Run(s, acts), a)
  {
    assert (acts + [a])[..|acts|] == acts;
  }

  // ---------- One step ----------

  predicate Touches(a: Action, name: string) {
    (a.Write? || a.Remove?) && a.name == name
  }

  /** The request is past its search and will write the file `name`: at its open, at its fill, or both. */
  predicate Targets(r: Request, name: string) {
    || (r.Chosen? && r.kind != ADirectory && ChosenName(r) == name)
    || (r.ToFill? && Name(NOTEBOOKS, r.i) == name)
  }

  /** The request of a create or fill step. */
  predicate ActsFor(a: Action, id: nat) {
    (a.Create? || a.Fill?) && a.id == id
  }

  /** The step replaces the contents of the file `name`: an open that finds any, or a fill that finds others. */
  predicate Overwrites(s: State, a: Action, name: string) {
    && name in s.dir && s.dir[name].File?
    && (a.Create? || a.Fill?) && a.id in s.requests && Targets(s.requests[a.id], name)
    && s.dir[name].content != if a.Create? then "" else EMPTY_NOTEBOOK
  }

  ghost predicate Keeps(s: State, t: State, name: string) {
    name in s.dir ==> name in t.dir && t.dir[name] == s.dir[name]
  }

  /** In every state, a step of a request keeps an entry exactly when it does not overwrite it. */
  lemma StepKeepsIff(s: State, a: Action, name: string)
    requires Step(s, a).Some? && !Touches(a, name)
    ensures Keeps(s, Step(s, a).value, name) <==> !Overwrites(s, a, name)
  {
  }

  // ---------- Every run ----------

  /** A step makes no request target a name that is there. */
  lemma NoNewTarget(s: State, a: Action, name: string, id: nat)
    requires Step(s, a).Some? && name in s.dir && id in Step(s, a).value.requests
    requires Targets(Step(s, a).value.requests[id], name)
    ensures id in s.requests && Targets(s.requests[id], name)
  {
  }

  /** No request that targeted `name` in `s` opens or fills in the run. */
  ghost predicate NoneActs(s: State, acts: seq<Action>, name: string) {
    forall k, id :: 0 <= k < |acts| && id in s.requests && Targets(s.requests[id], name) ==> !ActsFor(acts[k], id)
  }

  /** While no request that had chosen the name acts, an entry that nobody else touches stays as it is, and
      no other request gets to target it. */
  lemma {:induction false} UntouchedIsKept(s: State, acts: seq<Action>, name: string)
    requires name in s.dir && Run(s, acts).Some? && NoneActs(s, acts, name)
    requires forall i :: 0 <= i < |acts| ==> !Touches(acts[i], name)
    ensures var t := Run(s, acts).value;
      && Keeps(s, t, name)
      && forall id :: id in t.requests && Targets(t.requests[id], name) ==> id in s.requests && Targets(s.requests[id], name)
  {
    if acts != [] {
      var front, a := acts[..|acts| - 1], acts[|acts| - 1];
      assert NoneActs(s, front, name);
      UntouchedIsKept(s, front, name);
      var before := Run(s, front).value;
      assert !Overwrites(before, a, name);
      StepKeepsIff(before, a, name);
      forall id | id in Step(before, a).value.requests && Targets(Step(before, a).value.requests[id], name)
        ensures id in s.requests && Targets(s.requests[id], name)
      {
        NoNewTarget(before, a, name, id);
      }
    }
  }

  /** Contents that no create makes by itself. */
  predicate IsOwn(dir: Listing, name: string, content: string) {
    name in dir && dir[name] == File(content) && content != "" && content != EMPTY_NOTEBOOK
  }

  /** What a create left under a name: never anything else again. */
  predicate IsBlank(dir: Listing, name: string) {
    name in dir && (dir[name] == File("") || dir[name] == File(EMPTY_NOTEBOOK))
  }

  lemma {:induction false} BlankStays(s: State, acts: seq<Action>, name: string)
    requires IsBlank(s.dir, name) && Run(s, acts).Some?
    requires forall i :: 0 <= i < |acts| ==> !Touches(acts[i], name)
    ensures IsBlank(Run(s, acts).value.dir, name)
  {
    if acts != [] {
      BlankStays(s, acts[..|acts| - 1], name);
    }
  }

  /** Two runs one after the other. */
  lemma {:induction false} RunSplit(s: State, acts: seq<Action>, k: nat)
    requires k <= |acts| && Run(s, acts).Some?
    ensures Run(s, acts[..k]).Some? && Run(Run(s, acts[..k]).value, acts[k..]) == Run(s, acts)
    decreases |acts|
  {
    if k == |acts| {
      assert acts[..k] == acts && acts[k..] == [];
    } else {
      var n := |acts| - 1;
      RunSplit(s, acts[..n], k);
      assert acts[..n][..k] == acts[..k] && acts[..n][k..] == acts[k..n];
      assert acts[k..][..n - k] == acts[k..n] && acts[k..][n - k] == acts[n];
    }
  }

  /** A request that targets the name keeps doing so until it acts. */
  lemma {:induction false} TargetStays(s: State, acts: seq<Action>, name: string, id: nat)
    requires Run(s, acts).Some? && id in s.requests && Targets(s.requests[id], name)
    requires forall i :: 0 <= i < |acts| ==> !ActsFor(acts[i], id)
    ensures id in Run(s, acts).value.requests && Run(s, acts).value.requests[id] == s.requests[id]
  {
    if acts != [] {
      TargetStays(s, acts[..|acts| - 1], name, id);
      assert !ActsFor(acts[|acts| - 1], id);
    }
  }

  /** The first step of a request that had chosen the name before. */
  predicate FirstToAct(s: State, acts: seq<Action>, name: string, k: nat)
    requires k < |acts|
  {
    && (acts[k].Create? || acts[k].Fill?) && acts[k].id in s.requests && Targets(s.requests[acts[k].id], name)
  }

  lemma {:induction false} SomebodyFirst(s: State, acts: seq<Action>, name: string) returns (k: nat)
    requires !NoneActs(s, acts, name)
    ensures k < |acts| && FirstToAct(s, acts, name, k) && NoneActs(s, acts[..k], name)
    decreases |acts|
  {
    var n := |acts| - 1;
    if NoneActs(s, acts[..n], name) {
      k := n;
      assert forall i :: 0 <= i < n ==> acts[i] == acts[..n][i];
      var j, id :| 0 <= j < |acts| && id in s.requests && Targets(s.requests[id], name) && ActsFor(acts[j], id);
    } else {
      k := SomebodyFirst(s, acts[..n], name);
      assert acts[..n][..k] == acts[..k];
    }
  }

  /** The first such step finds the name still there and leaves a blank file. */
  lemma BlankAtFirst(s: State, acts: seq<Action>, name: string, k: nat)
    requires name in s.dir && s.dir[name].File? && Run(s, acts).Some? && k < |acts|
    requires FirstToAct(s, acts, name, k) && NoneActs(s, acts[..k], name)
    requires forall i :: 0 <= i < |acts| ==> !Touches(acts[i], name)
    ensures Run(s, acts[..k + 1]).Some? && IsBlank(Run(s, acts[..k + 1]).value.dir, name)
  {
    var front, a := acts[..k], acts[k];
    RunUpTo(s, acts, k);
    UntouchedIsKept(s, front, name);
    TargetStays(s, front, name, a.id);
    BlankAfter(Run(s, front).value, a, name);
  }

  lemma RunUpTo(s: State, acts: seq<Action>, k: nat)
    requires k < |acts| && Run(s, acts).Some?
    ensures Run(s, acts[..k]).Some? && Run(s, acts[..k + 1]) == Step(Run(s, acts[..k]).value, acts[k])
    ensures Run(s, acts[..k + 1]).Some?
  {
    RunSplit(s, acts, k);
    RunSplit(s, acts, k + 1);
    RunThen(s, acts[..k], acts[k]);
    assert acts[..k + 1] == acts[..k] + [acts[k]];
  }

  /** From every state and over every run in which nobody else touches the name: somebody's contents are
      still there at the end exactly when no request that had already chosen the name opens or fills. */
  lemma ContentsKeptIff(s: State, acts: seq<Action>, name: string, content: string)
    requires IsOwn(s.dir, name, content) && Run(s, acts).Some?
    requires forall i :: 0 <= i < |acts| ==> !Touches(acts[i], name)
    ensures Keeps(s, Run(s, acts).value, name) <==> NoneActs(s, acts, name)
  {
    if NoneActs(s, acts, name) {
      UntouchedIsKept(s, acts, name);
    } else {
      var k := SomebodyFirst(s, acts, name);
      BlankAtFirst(s, acts, name, k);
      RunSplit(s, acts, k + 1);
      BlankStays(Run(s, acts[..k + 1]).value, acts[k + 1..], name);
    }
  }

  lemma BlankAfter(s: State, a: Action, name: string)
    requires name in s.dir && s.dir[name].File? && Step(s, a).Some?
    requires (a.Create? || a.Fill?) && a.id in s.requests && Targets(s.requests[a.id], name)
    ensures IsBlank(Step(s, a).value.dir, name)
  {
  }

  /** So what is written in a run is lost to a create exactly when some request had chosen the name when
      it was written and goes on to its open or its fill afterwards. */
  lemma WriteSurvivesIff(dir: Listing, before: seq<Action>, name: string, content: string, after: seq<Action>)
    requires content != "" && content != EMPTY_NOTEBOOK
    requires var acts := before + [Write(name, File(content))] + after; Run(State(dir, map[]), acts).Some?
    requires forall i :: 0 <= i < |after| ==> !Touches(after[i], name)
    ensures Run(State(dir, map[]), before).Some?
    ensures var s, t := Run(State(dir, map[]), before).value, Run(State(dir, map[]), before + [Write(name, File(content))] + after).value;
      (name in t.dir && t.dir[name] == File(content)) <==> NoneActs(s, after, name)
  {
    var s0, w := State(dir, map[]), before + [Write(name, File(content))];
    var acts := w + after;
    RunSplit(s0, acts, |w|);
    assert acts[..|w|] == w && acts[|w|..] == after;
    RunThen(s0, before, Write(name, File(content)));
    ContentsKeptIff(Run(s0, w).value, after, name, content);
  }

  /** A name that exists before any request begins keeps its entry through every interleaving of creates,
      as long as nobody else writes or removes it. */
  lemma CreatesSpareLiveNames(dir: Listing, acts: seq<Action>, name: string)
    requires name in dir && Run(State(dir, map[]), acts).Some?
    requires forall i :: 0 <= i < |acts| ==> !Touches(acts[i], name)
    ensures var t := Run(State(dir, map[]), acts).value; name in t.dir && t.dir[name] == dir[name]
  {
    UntouchedIsKept(State(dir, map[]), acts, name);
  }

  /** The name chosen by the search still names nothing. */
  predicate StillFree(s: State, id: nat) {
    id in s.requests && s.requests[id].Chosen? && ChosenName(s.requests[id]) !in s.dir
  }

  /** An open makes a new entry exactly when its name is still free, and then keeps all others. */
  lemma OpenMakesNew(s: State, id: nat)
    requires CreateStep(s, id).Some?
    ensures var t := CreateStep(s, id).value;
      && (t.dir.Keys != s.dir.Keys <==> StillFree(s, id))
      && (StillFree(s, id) ==> t.dir.Keys == s.dir.Keys + {ChosenName(s.requests[id])} && forall n :: Keeps(s, t, n))
  {
    var dir, name := CreateStep(s, id).value.dir, ChosenName(s.requests[id]);
    assert name in s.dir ==> dir.Keys == s.dir.Keys;
    assert name !in s.dir ==> name in dir.Keys;
  }

  // ---------- Runs that lose contents ----------

  lemma Extend(s0: State, acts: seq<Action>, s: State, a: Action) returns (longer: seq<Action>, t: State)
    requires Run(s0, acts) == Some(s) && Step(s, a).Some?
    ensures Run(s0, longer) == Some(t) && Some(t) == Step(s, a) && longer == acts + [a]
  {
    longer, t := acts + [a], Step(s, a).value;
    RunThen(s0, acts, a);
  }

  /** Two requests that overlap choose one name, and the second truncates what was written under it. */
  lemma OverlapTruncates(content: string) returns (acts: seq<Action>)
    requires content != ""
    ensures |acts| >= 2 && acts[|acts| - 2..] == [Write("untitled.txt", File(content)), Create(1)]
    ensures Run(State(map[], map[]), acts) == Some(State(map["untitled.txt" := File("")], map[]))
  {
    var s0, s := State(map[], map[]), State(map[], map[]);
    acts, s := BothChoose(AFile);
    acts, s := Extend(s0, acts, s, Create(0));
    acts, s := Extend(s0, acts, s, Write("untitled.txt", File(content)));
    acts, s := Extend(s0, acts, s, Create(1));
    assert s.dir == map["untitled.txt" := File("")] && s.requests == map[];
  }

  /** A single request for a notebook overwrites what is saved under its name between open and fill. */
  lemma FillOverwrites(content: string) returns (acts: seq<Action>)
    requires content != "" && content != EMPTY_NOTEBOOK
    ensures |acts| >= 2 && acts[|acts| - 2..] == [Write("Untitled.ipynb", File(content)), Fill(0)]
    ensures Run(State(map[], map[]), acts) == Some(State(map["Untitled.ipynb" := File(EMPTY_NOTEBOOK)], map[]))
  {
    var s0, s := State(map[], map[]), State(map[], map[]);
    assert Run(s0, []) == Some(s);
    acts, s := Extend(s0, [], s, Begin(0, ANotebook));
    acts, s := Extend(s0, acts, s, Probe(0));
    acts, s := Extend(s0, acts, s, Create(0));
    acts, s := Extend(s0, acts, s, Write("Untitled.ipynb", File(content)));
    acts, s := Extend(s0, acts, s, Fill(0));
    assert s.dir == map["Untitled.ipynb" := File(EMPTY_NOTEBOOK)] && s.requests == map[];
  }

  /** Two requests for notebooks that choose one name: the second open finds nothing to lose, yet its fill
      overwrites what was saved in the notebook of the first, complete one. */
  lemma OverlapOverwrites(content: string) returns (acts: seq<Action>)
    requires content != "" && content != EMPTY_NOTEBOOK
    ensures |acts| >= 5
    ensures acts[|acts| - 5..] == [Create(0), Create(1), Fill(0), Write("Untitled.ipynb", File(content)), Fill(1)]
    ensures Run(State(map[], map[]), acts) == Some(State(map["Untitled.ipynb" := File(EMPTY_NOTEBOOK)], map[]))
  {
    var s0, s := State(map[], map[]), State(map[], map[]);
    acts, s := BothOpen();
    acts, s := Extend(s0, acts, s, Fill(0));
    acts, s := Extend(s0, acts, s, Write("Untitled.ipynb", File(content)));
    acts, s := Extend(s0, acts, s, Fill(1));
    assert s.dir == map["Untitled.ipynb" := File(EMPTY_NOTEBOOK)] && s.requests == map[];
  }

  lemma BothOpen() returns (acts: seq<Action>, s: State)
    ensures Run(State(map[], map[]), acts) == Some(s)
    ensures |acts| >= 2 && acts[|acts| - 2..] == [Create(0), Create(1)]
    ensures s == State(map["Untitled.ipynb" := File("")], map[0 := ToFill(0), 1 := ToFill(0)])
  {
    var s0 := State(map[], map[]);
    acts, s := BothChoose(ANotebook);
    acts, s := Extend(s0, acts, s, Create(0));
    acts, s := Extend(s0, acts, s, Create(1));
    assert s.requests == map[0 := ToFill(0), 1 := ToFill(0)] && s.dir == map["Untitled.ipynb" := File("")];
  }

  /** Two requests that begin in an empty directory choose its first name. */
  lemma BothChoose(k: Kind) returns (acts: seq<Action>, s: State)
    ensures Run(State(map[], map[]), acts) == Some(s)
    ensures s == State(map[], map[0 := Chosen(k, 0), 1 := Chosen(k, 0)])
  {
    var s0 := State(map[], map[]);
    assert Run(s0, []) == Some(s0);
    acts, s := Extend(s0, [], s0, Begin(0, k));
    acts, s := Extend(s0, acts, s, Probe(0));
    acts, s := Extend(s0, acts, s, Begin(1, k));
    acts, s := Extend(s0, acts, s, Probe(1));
    assert s.requests == map[0 := Chosen(k, 0), 1 := Chosen(k, 0)];
  }

  // ---------- An undisturbed request ----------

  /** A search that nothing disturbs probes the names in order and chooses the least free one. */
  lemma {:induction false} SearchAlone(s: State, id: nat, i: nat) returns (acts: seq<Action>)
    requires id in s.requests && s.requests[id].Searching?
    requires var k := s.requests[id].kind;
      var n := LeastFree(SeriesOf(k), TakenNames(s.dir, k));
      s.requests[id].i == i <= n
    ensures var k := s.requests[id].kind;
      Run(s, acts) == Some(s.(requests := s.requests[id := Chosen(k, LeastFree(SeriesOf(k), TakenNames(s.dir, k)))]))
    decreases LeastFree(SeriesOf(s.requests[id].kind), TakenNames(s.dir, s.requests[id].kind)) - i
  {
    var k := s.requests[id].kind;
    var n := LeastFree(SeriesOf(k), TakenNames(s.dir, k));
    var name := Name(SeriesOf(k), i);
    RunThen(s, [], Probe(id));
    assert [] + [Probe(id)] == [Probe(id)];
    if i == n {
      assert name !in TakenNames(s.dir, k);
      acts := [Probe(id)];
    } else {
      assert name in TakenNames(s.dir, k);
      var next := Step(s, Probe(id)).value;
      var rest := SearchAlone(next, id, i + 1);
      RunFrom(s, Probe(id), rest);
      acts := [Probe(id)] + rest;
      assert next.requests[id := Chosen(k, n)] == s.requests[id := Chosen(k, n)];
    }
  }

  lemma {:induction false} RunFrom(s: State, a: Action, acts: seq<Action>)
    requires Step(s, a).Some?
    ensures Run(s, [a] + acts) == Run(Step(s, a).value, acts)
  {
    if acts == [] {
      RunThen(s, [], a);
      assert [] + [a] == [a] + acts;
    } else {
      var front, last := acts[..|acts| - 1], acts[|acts| - 1];
      RunFrom(s, a, front);
      RunThen(s, [a] + front, last);
      assert [a] + acts == [a] + front + [last];
    }
  }

  /** A request that meets no other leaves what the functions leave when run on their own. */
  lemma CreateAlone(dir: Listing, k: Kind) returns (acts: seq<Action>)
    ensures Run(State(dir, map[]), acts) == Some(State(Created(dir, k), map[]))
  {
    var s0 := State(dir, map[]);
    var s := State(dir, map[0 := Searching(k, 0)]);
    var probes := SearchAlone(s, 0, 0);
    RunFrom(s0, Begin(0, k), probes);
    var i := LeastFree(SeriesOf(k), TakenNames(dir, k));
    assert map[0 := Searching(k, 0)][0 := Chosen(k, i)] == map[0 := Chosen(k, i)];
    acts, s := [Begin(0, k)] + probes, State(dir, map[0 := Chosen(k, i)]);
    acts, s := Extend(s0, acts, s, Create(0));
    if k == ANotebook {
      acts, s := Extend(s0, acts, s, Fill(0));
    }
    assert s.requests == map[];
  }
}
