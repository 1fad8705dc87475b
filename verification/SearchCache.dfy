/** search_api_handler.go: file suggestions with a cache that concurrent requests share. */
module SearchCache {
  import opened Options
  import opened Indices

  /** One entry met by the directory walk, in walk order. */
  datatype FileInfo = FileInfo(path: string, relPath: string, name: string, isDir: bool, modTime: string)

  datatype Suggestion = Suggestion(name: string, path: string, lastModified: string)

  datatype FileCache = FileCache(data: seq<Suggestion>, timestamp: int)

  /** Five minutes, in nanoseconds. */
  const EXPIRY := 300_000_000_000

  predicate Contains(s: string, part: string) {
    part <= s || (s != "" && Contains(s[1..], part))
  }

  lemma {:induction false} ContainsIsSubstring(s: string, part: string)
    ensures Contains(s, part) <==> exists i :: 0 <= i <= |s| && part <= s[i..]
  {
    if part <= s {
      assert s[0..] == s;
    } else if s != "" {
      ContainsIsSubstring(s[1..], part);
      assert forall i :: 0 <= i < |s| ==> s[1..][i..] == s[i + 1..];
      if i :| 0 <= i <= |s| && part <= s[i..] {
        assert s[0..] == s;
        assert s[1..][i - 1..] == s[i..];
      }
      if i :| 0 <= i <= |s[1..]| && part <= s[1..][i..] {
        assert s[i + 1..] == s[1..][i..];
      }
    } else {
      assert forall i :: 0 <= i <= |s| ==> s[i..] == s;
    }
  }

  predicate Matches(f: FileInfo, query: string) {
    !f.isDir && !Contains(f.path, ".git") && Contains(f.name, query)
  }

  function SuggestionFor(f: FileInfo): Suggestion {
    Suggestion(f.name, f.relPath, f.modTime)
  }

  /** The suggestions of a walk: one per matching file, in walk order. */
  function Suggest(files: seq<FileInfo>, query: string): seq<Suggestion> {
    if files == [] then []
    else Suggest(files[..|files| - 1], query) +
         if Matches(files[|files| - 1], query) then [SuggestionFor(files[|files| - 1])] else []
  }

  // ---------- What a walk should answer ----------

  ghost predicate Occurs(part: string, s: string) {
    exists i :: 0 <= i <= |s| && part <= s[i..]
  }

  /** A file outside all paths with ".git", and the query occurs in its name. */
  ghost predicate Asked(f: FileInfo, query: string) {
    !f.isDir && !Occurs(".git", f.path) && Occurs(query, f.name)
  }

  /** `ks` are the places of the files asked for, and `data` describes the files at these places. */
  ghost predicate Picks(files: seq<FileInfo>, query: string, data: seq<Suggestion>, ks: seq<nat>) {
    && Increasing(ks, |files|) && |data| == |ks|
    && (forall k: nat :: k < |files| ==> (k in ks <==> Asked(files[k], query)))
    && forall i :: 0 <= i < |ks| ==>
      data[i].name == files[ks[i]].name && data[i].path == files[ks[i]].relPath && data[i].lastModified == files[ks[i]].modTime
  }

  /** Just the files asked for, in walk order. */
  ghost predicate IsFilter(files: seq<FileInfo>, query: string, data: seq<Suggestion>) {
    exists ks: seq<nat> :: Picks(files, query, data, ks)
  }

  lemma MatchesIsAsked(f: FileInfo, query: string)
    ensures Matches(f, query) <==> Asked(f, query)
  {
    ContainsIsSubstring(f.path, ".git");
    ContainsIsSubstring(f.name, query);
  }

  lemma PicksSkip(files: seq<FileInfo>, query: string, data: seq<Suggestion>, ks: seq<nat>, f: FileInfo)
    requires Picks(files, query, data, ks) && !Asked(f, query)
    ensures Picks(files + [f], query, data, ks)
  {
    forall k: nat | k < |files + [f]|
      ensures k in ks <==> Asked((files + [f])[k], query)
    {
      assert k < |files| ==> (files + [f])[k] == files[k];
    }
  }

  lemma PicksTake(files: seq<FileInfo>, query: string, data: seq<Suggestion>, ks: seq<nat>, f: FileInfo)
    requires Picks(files, query, data, ks) && Asked(f, query)
    ensures Picks(files + [f], query, data + [SuggestionFor(f)], ks + [|files|])
  {
    forall k: nat | k < |files + [f]|
      ensures k in ks + [|files|] <==> Asked((files + [f])[k], query)
    {
      assert k < |files| ==> (files + [f])[k] == files[k];
    }
  }

  /** The search by substring and the collected suggestions are exactly that filter. */
  lemma {:induction false} SuggestPicks(files: seq<FileInfo>, query: string) returns (ks: seq<nat>)
    ensures Picks(files, query, Suggest(files, query), ks)
  {
    if files == [] {
      ks := [];
    } else {
      var n := |files| - 1;
      ks := SuggestPicks(files[..n], query);
      assert files == files[..n] + [files[n]];
      MatchesIsAsked(files[n], query);
      if Asked(files[n], query) {
        PicksTake(files[..n], query, Suggest(files[..n], query), ks, files[n]);
        ks := ks + [n];
      } else {
        PicksSkip(files[..n], query, Suggest(files[..n], query), ks, files[n]);
      }
    }
  }

  lemma OnlyFilter(files: seq<FileInfo>, query: string, data: seq<Suggestion>)
    ensures IsFilter(files, query, data) <==> data == Suggest(files, query)
  {
    var ks := SuggestPicks(files, query);
    if IsFilter(files, query, data) {
      var ls: seq<nat> :| Picks(files, query, data, ls);
      forall k: nat
        ensures k in ks <==> k in ls
      {
        assert k >= |files| ==> k !in ks && k !in ls;
      }
      SameIndices(ks, ls, |files|);
    }
  }

  // ---------- Steps of overlapping requests ----------

  datatype Request =
    | Walking(query: string, begun: int)
    | Walked(query: string, begun: int, data: seq<Suggestion>)
    | Stored(query: string, begun: int, data: seq<Suggestion>)

  datatype Walk = Walk(files: seq<FileInfo>, at: int)

  /** A store made at `at` by a request that looked into the cache at `begun`. */
  datatype StoreEvent = StoreEvent(query: string, data: seq<Suggestion>, begun: int, at: int)

  /** `stores` counts the stores made before the answer. */
  datatype Answer =
    | Hit(query: string, data: seq<Suggestion>, at: int, stores: nat)
    | Miss(query: string, data: seq<Suggestion>, begun: int, at: int)
    | NoQuery | WalkFailed

  datatype State = State(
    now: int, files: seq<FileInfo>, cache: map<string, FileCache>, requests: map<nat, Request>,
    walks: seq<Walk>, stores: seq<StoreEvent>, answers: seq<Answer>)  // history

  function Init(now: int, files: seq<FileInfo>): State {
    State(now, files, map[], map[], [], [], [])
  }

  datatype Action =
    | Tick(now: int) | Change(files: seq<FileInfo>)
    | Lookup(id: nat, query: string) | DoWalk(id: nat, failed: bool) | Store(id: nat) | Respond(id: nat)

  predicate Fresh(s: State, query: string) {
    query in s.cache && s.now - s.cache[query].timestamp < EXPIRY
  }

  function Step(s: State, a: Action): Option<State> {
    match a
    case Tick(now) => if s.now <= now then Some(s.(now := now)) else None
    case Change(files) => Some(s.(files := files))
    case Lookup(id, query) =>
      if id in s.requests then None
      else if query == "" then Some(s.(answers := s.answers + [NoQuery]))
      else if Fresh(s, query) then
        Some(s.(answers := s.answers + [Hit(query, s.cache[query].data, s.now, |s.stores|)]))
      else Some(s.(requests := s.requests[id := Walking(query, s.now)]))
    case DoWalk(id, failed) =>
      if id !in s.requests || !s.requests[id].Walking? then None
      else if failed then Some(s.(answers := s.answers + [WalkFailed], requests := s.requests - {id}))
      else
        var r := s.requests[id];
        Some(s.(walks := s.walks + [Walk(s.files, s.now)],
                requests := s.requests[id := Walked(r.query, r.begun, Suggest(s.files, r.query))]))
    case Store(id) =>
      if id !in s.requests || !s.requests[id].Walked? then None
      else
        var r := s.requests[id];
        Some(s.(cache := s.cache[r.query := FileCache(r.data, s.now)],
                stores := s.stores + [StoreEvent(r.query, r.data, r.begun, s.now)],
                requests := s.requests[id := Stored(r.query, r.begun, r.data)]))
    case Respond(id) =>
      if id !in s.requests || !s.requests[id].Stored? then None
      else
        var r := s.requests[id];
        Some(s.(answers := s.answers + [Miss(r.query, r.data, r.begun, s.now)], requests := s.requests - {id}))
  }

  function Run(s: State, acts: seq<Action>): Option<State> {
    if acts == [] then Some(s)
    else
      var before := Run(s, acts[..|acts| - 1]);
      if before.None? then None else Step(before.value, acts[|acts| - 1])
  }

  // ---------- Where every answer comes from ----------

  /** `data` is the exact filter of a walk made between two times. */
  ghost predicate FromWalk(walks: seq<Walk>, query: string, data: seq<Suggestion>, from: int, to: int) {
    exists w :: 0 <= w < |walks| && from <= walks[w].at <= to && IsFilter(walks[w].files, query, data)
  }

  /** Store number `i` is the last store for its query among the first `n`. */
  predicate LastStore(stores: seq<StoreEvent>, n: nat, i: nat, query: string) {
    i < n <= |stores| && stores[i].query == query && forall j :: i < j < n ==> stores[j].query != query
  }

  ghost predicate CacheOk(query: string, c: FileCache, stores: seq<StoreEvent>) {
    exists i: nat :: LastStore(stores, |stores|, i, query) && stores[i].data == c.data && stores[i].at == c.timestamp
  }

  /** A hit repeats the latest store for its query, made less than five minutes before; a miss is
      the filter of a walk made during the request itself. */
  ghost predicate AnswerOk(a: Answer, walks: seq<Walk>, stores: seq<StoreEvent>) {
    match a
    case Hit(query, data, at, n) =>
      exists i: nat :: LastStore(stores, n, i, query) && stores[i].data == data && stores[i].at <= at < stores[i].at + EXPIRY
    case Miss(query, data, begun, at) => FromWalk(walks, query, data, begun, at)
    case _ => true
  }

  ghost predicate RequestOk(r: Request, walks: seq<Walk>, now: int) {
    r.begun <= now && (r.Walking? || FromWalk(walks, r.query, r.data, r.begun, now))
  }

  /** Whatever was stored is the filter of a walk made by the storing request. */
  ghost predicate StoreOk(st: StoreEvent, walks: seq<Walk>, now: int) {
    st.begun <= st.at <= now && FromWalk(walks, st.query, st.data, st.begun, st.at)
  }

  ghost predicate Inv(s: State) {
    && (forall id :: id in s.requests ==> RequestOk(s.requests[id], s.walks, s.now))
    && (forall i :: 0 <= i < |s.stores| ==> StoreOk(s.stores[i], s.walks, s.now))
    && (forall q :: q in s.cache ==> CacheOk(q, s.cache[q], s.stores))
    && (forall i :: 0 <= i < |s.answers| ==> AnswerOk(s.answers[i], s.walks, s.stores))
  }

  lemma FromWalkGrows(walks: seq<Walk>, more: seq<Walk>, query: string, data: seq<Suggestion>, from: int, to: int, later: int)
    requires FromWalk(walks, query, data, from, to) && walks <= more && to <= later
    ensures FromWalk(more, query, data, from, later)
  {
    var i :| 0 <= i < |walks| && from <= walks[i].at <= to && IsFilter(walks[i].files, query, data);
    assert more[i] == walks[i];
  }

  /** More walks and a later clock keep every request, store and answer justified. */
  lemma MoreWalks(s: State, walks: seq<Walk>, now: int)
    requires Inv(s) && s.walks <= walks && s.now <= now
    ensures Inv(s.(walks := walks, now := now))
  {
    forall id | id in s.requests
      ensures RequestOk(s.requests[id], walks, now)
    {
      var r := s.requests[id];
      assert RequestOk(r, s.walks, s.now);
      if !r.Walking? {
        FromWalkGrows(s.walks, walks, r.query, r.data, r.begun, s.now, now);
      }
    }
    forall i | 0 <= i < |s.stores|
      ensures StoreOk(s.stores[i], walks, now)
    {
      var st := s.stores[i];
      assert StoreOk(st, s.walks, s.now);
      FromWalkGrows(s.walks, walks, st.query, st.data, st.begun, st.at, st.at);
    }
    forall i | 0 <= i < |s.answers|
      ensures AnswerOk(s.answers[i], walks, s.stores)
    {
      var a := s.answers[i];
      assert AnswerOk(a, s.walks, s.stores);
      if a.Miss? {
        FromWalkGrows(s.walks, walks, a.query, a.data, a.begun, a.at, a.at);
      }
    }
  }

  /** A store makes its own entry the latest and leaves the others as they were. */
  lemma StoreKeeps(s: State, id: nat)
    requires Inv(s) && Step(s, Store(id)).Some?
    ensures Inv(Step(s, Store(id)).value)
  {
    var t, r := Step(s, Store(id)).value, s.requests[id];
    assert RequestOk(r, s.walks, s.now);
    forall q | q in t.cache
      ensures CacheOk(q, t.cache[q], t.stores)
    {
      if q == r.query {
        assert LastStore(t.stores, |t.stores|, |s.stores|, q);
      } else {
        assert CacheOk(q, s.cache[q], s.stores);
        var i: nat :| LastStore(s.stores, |s.stores|, i, q) && s.stores[i].data == s.cache[q].data && s.stores[i].at == s.cache[q].timestamp;
        assert LastStore(t.stores, |t.stores|, i, q);
      }
    }
    forall i | 0 <= i < |s.answers|
      ensures AnswerOk(s.answers[i], t.walks, t.stores)
    {
      assert AnswerOk(s.answers[i], s.walks, s.stores);
      var a := s.answers[i];
      if a.Hit? {
        var j: nat :| LastStore(s.stores, a.stores, j, a.query) && s.stores[j].data == a.data && s.stores[j].at <= a.at < s.stores[j].at + EXPIRY;
        assert LastStore(t.stores, a.stores, j, a.query);
      }
    }
  }

  lemma WalkKeeps(s: State, id: nat)
    requires Inv(s) && Step(s, DoWalk(id, false)).Some?
    ensures Inv(Step(s, DoWalk(id, false)).value)
  {
    var t, r := Step(s, DoWalk(id, false)).value, s.requests[id];
    assert RequestOk(r, s.walks, s.now);
    MoreWalks(s, t.walks, s.now);
    OnlyFilter(s.files, r.query, Suggest(s.files, r.query));
    assert t.walks[|s.walks|] == Walk(s.files, s.now);
    assert RequestOk(t.requests[id], t.walks, t.now);
  }

  lemma LookupKeeps(s: State, id: nat, query: string)
    requires Inv(s) && Step(s, Lookup(id, query)).Some?
    ensures Inv(Step(s, Lookup(id, query)).value)
  {
    if query != "" && Fresh(s, query) {
      assert CacheOk(query, s.cache[query], s.stores);
      var i: nat :| LastStore(s.stores, |s.stores|, i, query) && s.stores[i].data == s.cache[query].data && s.stores[i].at == s.cache[query].timestamp;
      assert StoreOk(s.stores[i], s.walks, s.now);
      assert AnswerOk(Hit(query, s.cache[query].data, s.now, |s.stores|), s.walks, s.stores);
    }
  }

  lemma StepKeepsInv(s: State, a: Action)
    requires Inv(s) && Step(s, a).Some?
    ensures Inv(Step(s, a).value)
  {
    match a
    case Tick(now) => MoreWalks(s, s.walks, now);
    case Change(_) =>
    case Lookup(id, query) => LookupKeeps(s, id, query);
    case DoWalk(id, failed) => if !failed { WalkKeeps(s, id); }
    case Store(id) => StoreKeeps(s, id);
    case Respond(id) => assert RequestOk(s.requests[id], s.walks, s.now);
  }

  lemma {:induction false} RunKeepsInv(now: int, files: seq<FileInfo>, acts: seq<Action>)
    requires Run(Init(now, files), acts).Some?
    ensures Inv(Run(Init(now, files), acts).value)
  {
    if acts != [] {
      RunKeepsInv(now, files, acts[..|acts| - 1]);
      StepKeepsInv(Run(Init(now, files), acts[..|acts| - 1]).value, acts[|acts| - 1]);
    }
  }

  /** In every run, a hit is the exact filter of the walk of the request that made the latest store for
      its query, less than five minutes before; a miss is the exact filter of a walk made meanwhile. */
  lemma EveryAnswerIsAWalk(now: int, files: seq<FileInfo>, acts: seq<Action>, k: nat)
    requires Run(Init(now, files), acts).Some? && k < |Run(Init(now, files), acts).value.answers|
    ensures var s := Run(Init(now, files), acts).value;
      match s.answers[k]
      case Hit(query, data, at, n) =>
        exists i: nat ::
          LastStore(s.stores, n, i, query) && s.stores[i].at <= at < s.stores[i].at + 5 * 60 * 1_000_000_000 &&
          FromWalk(s.walks, query, data, s.stores[i].begun, s.stores[i].at)
      case Miss(query, data, begun, at) => FromWalk(s.walks, query, data, begun, at)
      case _ => true
  {
    RunKeepsInv(now, files, acts);
    var s := Run(Init(now, files), acts).value;
    var a := s.answers[k];
    assert AnswerOk(a, s.walks, s.stores);
    if a.Hit? {
      var i: nat :| LastStore(s.stores, a.stores, i, a.query) && s.stores[i].data == a.data && s.stores[i].at <= a.at < s.stores[i].at + EXPIRY;
      assert StoreOk(s.stores[i], s.walks, s.now);
    }
  }

  function Then(before: Option<State>, a: Action): Option<State> {
    if before.None? then None else Step(before.value, a)
  }

  lemma RunThen(s: State, acts: seq<Action>, a: Action)
    ensures Run(s, acts + [a]) == Then(Run(s, acts), a)
  {
    assert (acts + [a])[..|acts|] == acts;
  }

  // ---------- How old a hit may be ----------

  /** Every store came at most `d` after the lookup of its request. */
  ghost predicate Prompt(s: State, d: int) {
    forall i :: 0 <= i < |s.stores| ==> s.stores[i].at - s.stores[i].begun <= d
  }

  /** A hit is the filter of a walk less than `age` old; other answers do not matter here. */
  ghost predicate YoungerThan(a: Answer, walks: seq<Walk>, age: int) {
    a.Hit? ==> exists w :: 0 <= w < |walks| && a.at - age < walks[w].at <= a.at && IsFilter(walks[w].files, a.query, a.data)
  }

  ghost predicate AllYounger(s: State, age: int) {
    forall k :: 0 <= k < |s.answers| ==> YoungerThan(s.answers[k], s.walks, age)
  }

  /** In all runs with prompt stores all hits are younger than `age`. */
  ghost predicate HitsWithin(d: int, age: int) {
    forall now: int, files: seq<FileInfo>, acts: seq<Action> ::
      Run(Init(now, files), acts).Some? && Prompt(Run(Init(now, files), acts).value, d) ==>
      AllYounger(Run(Init(now, files), acts).value, age)
  }

  lemma PromptHitsAreYoung(now: int, files: seq<FileInfo>, acts: seq<Action>, d: int, age: int)
    requires Run(Init(now, files), acts).Some? && Prompt(Run(Init(now, files), acts).value, d) && EXPIRY + d <= age
    ensures AllYounger(Run(Init(now, files), acts).value, age)
  {
    var s := Run(Init(now, files), acts).value;
    forall k | 0 <= k < |s.answers|
      ensures YoungerThan(s.answers[k], s.walks, age)
    {
      EveryAnswerIsAWalk(now, files, acts, k);
    }
  }

  /** A run of two requests: the first stores `delay` after its lookup, the second hits `wait` later.
      The files may have changed right after the only walk. */
  lemma LateHit(query: string, before: seq<FileInfo>, after: seq<FileInfo>, delay: nat, wait: nat)
    returns (acts: seq<Action>, data: seq<Suggestion>)
    requires query != "" && wait < 5 * 60 * 1_000_000_000
    ensures Run(Init(0, before), acts).Some?
    ensures var s := Run(Init(0, before), acts).value;
      s.files == after && s.walks == [Walk(before, 0)] && |s.stores| == 1 && s.stores[0].at - s.stores[0].begun == delay &&
      s.answers == [Hit(query, data, delay + wait, 1)] && IsFilter(before, query, data)
  {
    var s := Init(0, before);
    data := Suggest(before, query);
    OnlyFilter(before, query, data);
    acts := LateStore(query, before, after, delay);
    RunThen(s, acts, Tick(delay + wait));
    acts := acts + [Tick(delay + wait)];
    RunThen(s, acts, Lookup(1, query));
    acts := acts + [Lookup(1, query)];
  }

  lemma LateStore(query: string, before: seq<FileInfo>, after: seq<FileInfo>, delay: nat) returns (acts: seq<Action>)
    requires query != ""
    ensures Run(Init(0, before), acts).Some?
    ensures var s, data := Run(Init(0, before), acts).value, Suggest(before, query);
      && s.now == delay && s.files == after && s.answers == [] && s.requests.Keys == {0}
      && s.cache == map[query := FileCache(data, delay)]
      && s.walks == [Walk(before, 0)] && s.stores == [StoreEvent(query, data, 0, delay)]
  {
    var s := Init(0, before);
    acts := [];
    RunThen(s, acts, Lookup(0, query));
    acts := acts + [Lookup(0, query)];
    RunThen(s, acts, DoWalk(0, false));
    acts := acts + [DoWalk(0, false)];
    RunThen(s, acts, Change(after));
    acts := acts + [Change(after)];
    RunThen(s, acts, Tick(delay));
    acts := acts + [Tick(delay)];
    RunThen(s, acts, Store(0));
    acts := acts + [Store(0)];
  }

  /** When stores come at most `d` after their lookups, all hits are less than `age` old in all runs
      exactly when `age` is at least five minutes and `d`: so five minutes are kept exactly when no
      store comes later than its lookup. */
  lemma HitAge(d: nat, age: int)
    ensures HitsWithin(d, age) <==> 5 * 60 * 1_000_000_000 + d <= age
  {
    if EXPIRY + d <= age {
      forall now: int, files: seq<FileInfo>, acts: seq<Action> |
        Run(Init(now, files), acts).Some? && Prompt(Run(Init(now, files), acts).value, d)
        ensures AllYounger(Run(Init(now, files), acts).value, age)
      {
        PromptHitsAreYoung(now, files, acts, d, age);
      }
    } else {
      var acts, data := LateHit("a", [], [], d, EXPIRY - 1);
      var s := Run(Init(0, []), acts).value;
      assert Prompt(s, d);
      assert !YoungerThan(s.answers[0], s.walks, age);
      assert !AllYounger(s, age);
    }
  }

  // ---------- The handler ----------

  class SearchHandler {
    var cache: map<string, FileCache>

    constructor ()
      ensures cache == map[]
    {
      cache := map[];
    }

    /** The walk callback, over all entries. */
    method CollectSuggestions(files: seq<FileInfo>, query: string) returns (suggestions: seq<Suggestion>)
      ensures IsFilter(files, query, suggestions)
      ensures suggestions == Suggest(files, query)
    {
      suggestions := [];
      for i := 0 to |files|
        invariant suggestions == Suggest(files[..i], query)
      {
        var info := files[i];
        assert files[..i + 1][..i] == files[..i];
        if info.isDir || Contains(info.path, ".git") {
          continue;
        }
        if Contains(info.name, query) {
          suggestions := suggestions + [SuggestionFor(info)];
        }
      }
      assert files[..|files|] == files;
      OnlyFilter(files, query, suggestions);
    }

    /** A request that meets no other takes its steps in a row: from any state with this cache, clock
        and tree they lead to the new cache, with this answer added. The clock reads `stored` at the
        store. */
    method GetFileSuggestions(query: string, begun: int, files: seq<FileInfo>, failed: bool, stored: int, ghost s: State, ghost id: nat)
      returns (answer: Answer, ghost t: State)
      requires s.cache == cache && s.now == begun && s.files == files && id !in s.requests && begun <= stored
      modifies this
      ensures Run(s, RequestActs(s, id, query, failed, stored)) == Some(t)
      ensures t.cache == cache && t.answers == s.answers + [if answer.Hit? then answer.(stores := |s.stores|) else answer]
      ensures answer.NoQuery? <==> query == ""
      ensures answer.Hit? <==> query != "" && query in old(cache) && begun - old(cache)[query].timestamp < 5 * 60 * 1_000_000_000
      ensures answer.Hit? ==> answer.query == query && answer.data == old(cache)[query].data && answer.at == begun
      ensures answer.Miss? ==>
        && answer.query == query && answer.begun == begun && answer.at == stored && IsFilter(files, query, answer.data)
        && cache == old(cache)[query := FileCache(answer.data, stored)]
      ensures !answer.Miss? ==> cache == old(cache)
      ensures !answer.NoQuery? && !answer.Hit? ==> (answer.WalkFailed? <==> failed)
    {
      t := s;
      RunThen(s, [], Lookup(id, query));
      t := Step(s, Lookup(id, query)).value;
      if query == "" {
        return NoQuery, t;
      }
      if query in cache {
        var cacheData := cache[query];
        if begun - cacheData.timestamp < EXPIRY {
          return Hit(query, cacheData.data, begun, 0), t;
        }
      }
      var suggestions := CollectSuggestions(files, query);
      RunThen(s, [Lookup(id, query)], DoWalk(id, failed));
      if failed {
        t := Step(t, DoWalk(id, true)).value;
        return WalkFailed, t;
      }
      RunMiss(s, id, query, stored);
      t := Run(s, RequestActs(s, id, query, false, stored)).value;
      cache := cache[query := FileCache(suggestions, stored)];
      return Miss(query, suggestions, begun, stored), t;
    }
  }

  /** The steps of one request that is not interrupted. */
  ghost function RequestActs(s: State, id: nat, query: string, failed: bool, stored: int): seq<Action> {
    if query == "" || Fresh(s, query) then [] + [Lookup(id, query)]
    else if failed then [Lookup(id, query)] + [DoWalk(id, true)]
    else [Lookup(id, query), DoWalk(id, false), Tick(stored), Store(id)] + [Respond(id)]
  }

  lemma RunMiss(s: State, id: nat, query: string, stored: int)
    requires query != "" && !Fresh(s, query) && id !in s.requests && s.now <= stored
    ensures var t := Run(s, RequestActs(s, id, query, false, stored));
      && t.Some? && t.value.cache == s.cache[query := FileCache(Suggest(s.files, query), stored)]
      && t.value.answers == s.answers + [Miss(query, Suggest(s.files, query), s.now, stored)]
  {
    var a := [Lookup(id, query)];
    assert [] + a == a;
    RunThen(s, [], a[0]);
    RunThen(s, a, DoWalk(id, false));
    RunThen(s, a + [DoWalk(id, false)], Tick(stored));
    RunThen(s, a + [DoWalk(id, false)] + [Tick(stored)], Store(id));
    RunThen(s, a + [DoWalk(id, false)] + [Tick(stored)] + [Store(id)], Respond(id));
    assert a + [DoWalk(id, false)] + [Tick(stored)] + [Store(id)] == [Lookup(id, query), DoWalk(id, false), Tick(stored), Store(id)];
  }
}
