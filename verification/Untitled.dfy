/** content_manager.go: choosing the name of a new untitled file, notebook or directory, and creating it,
    while other requests do the same. */
module Untitled {

  // ---------- Decimal printing ----------

  function DigitChar(d: nat): char
    requires d < 10
  {
    '0' + d as char
  }

  /** What `%d` prints for a natural number. */
  function Decimal(n: nat): (s: string)
    ensures s != ""
  {
    if n < 10 then [DigitChar(n)] else Decimal(n / 10) + [DigitChar(n % 10)]
  }

  lemma DigitsDiffer(a: nat, b: nat)
    requires a < 10 && b < 10 && DigitChar(a) == DigitChar(b)
    ensures a == b
  {
  }

  lemma {:induction false} DecimalInjective(m: nat, n: nat)
    requires Decimal(m) == Decimal(n)
    ensures m == n
    decreases m
  {
    var s := Decimal(m);
    assert s[|s| - 1] == DigitChar(m % 10) == DigitChar(n % 10);
    DigitsDiffer(m % 10, n % 10);
    if m >= 10 && n >= 10 {
      assert Decimal(m / 10) == s[..|s| - 1] == Decimal(n / 10);
      DecimalInjective(m / 10, n / 10);
    }
  }

  predicate IsDigit(c: char) {
    '0' <= c <= '9'
  }

  function DigitValue(c: char): (d: nat)
    requires IsDigit(c)
    ensures d < 10
  {
    (c - '0') as nat
  }

  /** The number a text of digits stands for. */
  function Value(s: string): nat
    requires forall i :: 0 <= i < |s| ==> IsDigit(s[i])
  {
    if s == "" then 0 else 10 * Value(s[..|s| - 1]) + DigitValue(s[|s| - 1])
  }

  /** `s` is the number `n` in decimal, without leading zeros. */
  predicate Writes(s: string, n: nat) {
    && s != "" && (forall i :: 0 <= i < |s| ==> IsDigit(s[i])) && Value(s) == n
    && (|s| > 1 ==> s[0] != '0')
  }

  lemma {:induction false} DecimalWrites(n: nat)
    ensures Writes(Decimal(n), n)
    ensures n > 0 ==> Decimal(n)[0] != '0'
  {
    if n >= 10 {
      DecimalWrites(n / 10);
      assert Decimal(n)[..|Decimal(n)| - 1] == Decimal(n / 10);
    } else {
      assert Decimal(n)[..0] == "";
    }
  }

  lemma {:induction false} WrittenOnce(s: string, n: nat)
    requires Writes(s, n)
    ensures s == Decimal(n)
    decreases |s|
  {
    var m, d := |s| - 1, DigitValue(s[|s| - 1]);
    assert n == 10 * Value(s[..m]) + d && DigitChar(d) == s[m];
    if m > 0 {
      WrittenOnce(s[..m], Value(s[..m]));
      FirstDigit(s[..m]);
      assert s == s[..m] + [s[m]];
    }
  }

  lemma {:induction false} FirstDigit(s: string)
    requires s != "" && s[0] != '0' && forall i :: 0 <= i < |s| ==> IsDigit(s[i])
    ensures Value(s) > 0
    decreases |s|
  {
    if |s| > 1 {
      FirstDigit(s[..|s| - 1]);
    }
  }

  // ---------- Candidate names ----------

  /** The first name has no number; the later ones are numbered from 1. */
  datatype Series = Series(first: string, before: string, after: string)

  const FILES := Series("untitled.txt", "untitled", ".txt")
  const NOTEBOOKS := Series("Untitled.ipynb", "Untitled", ".ipynb")
  const DIRECTORIES := Series("untitled-directory", "untitled-directory-", "")

  function Name(s: Series, i: nat): string {
    if i == 0 then s.first else s.before + Decimal(i) + s.after
  }

  /** `name` is the first name, or the number `i` in decimal between the other parts. */
  ghost predicate Called(first: string, before: string, after: string, name: string, i: nat) {
    if i == 0 then name == first else exists digits :: Writes(digits, i) && name == before + digits + after
  }

  lemma NameIsCalled(s: Series, i: nat)
    ensures forall name :: Called(s.first, s.before, s.after, name, i) <==> name == Name(s, i)
  {
    DecimalWrites(i);
    forall digits | Writes(digits, i)
      ensures digits == Decimal(i)
    {
      WrittenOnce(digits, i);
    }
  }

  /** The unnumbered name is one that no number can make. */
  predicate Separate(s: Series) {
    |s.first| <= |s.before| + |s.after|
  }

  lemma NamesDiffer(s: Series, i: nat, j: nat)
    requires Separate(s) && i != j
    ensures Name(s, i) != Name(s, j)
  {
    if i > 0 && j > 0 {
      if Name(s, i) == Name(s, j) {
        var n := Name(s, i);
        assert n[|s.before|..|n| - |s.after|] == Decimal(i);
        assert n[|s.before|..|n| - |s.after|] == Decimal(j);
        DecimalInjective(i, j);
      }
    }
  }

  // ---------- The directory ----------

  /** What `os.Stat` finds under a name: a file, a directory, or something it fails on for another
      reason than absence. Names that are not listed are absent. */
  datatype Entry = File(content: string) | Directory | Unreadable

  type Listing = map<string, Entry>

  predicate FileExists(dir: Listing, name: string) {
    name in dir
  }

  predicate DirectoryExists(dir: Listing, name: string) {
    name in dir && dir[name].Directory?
  }

  const EMPTY_NOTEBOOK := "{\t\"cells\": [], \"metadata\": {}, \"nbformat\": 4, \"nbformat_minor\": 4}"

  /** All names of the series below `n`. */
  ghost function Below(s: Series, n: nat): set<string> {
    set i: nat | i < n :: Name(s, i)
  }

  lemma NotBelow(s: Series, n: nat, j: nat)
    requires Separate(s) && n <= j
    ensures Name(s, j) !in Below(s, n)
  {
    forall l: nat | l < n
      ensures Name(s, l) != Name(s, j)
    {
      NamesDiffer(s, l, j);
    }
  }

  lemma BelowNext(s: Series, n: nat)
    ensures Below(s, n + 1) == Below(s, n) + {Name(s, n)}
  {
  }

  lemma {:induction false} BelowSize(s: Series, n: nat)
    requires Separate(s)
    ensures |Below(s, n)| == n
  {
    if n > 0 {
      BelowSize(s, n - 1);
      NotBelow(s, n - 1, n - 1);
      BelowNext(s, n - 1);
    } else {
      assert Below(s, n) == {};
    }
  }

  /** As many names as are taken fit into the listing, so the search ends. */
  lemma TakenFit(s: Series, taken: set<string>, n: nat)
    requires Separate(s) && Below(s, n) <= taken
    ensures n <= |taken|
  {
    BelowSize(s, n);
    assert taken == Below(s, n) + (taken - Below(s, n));
  }

  /** Least number whose name is not in `taken`. */
  ghost predicate IsLeastFree(s: Series, taken: set<string>, i: nat) {
    Name(s, i) !in taken && forall j: nat :: j < i ==> Name(s, j) in taken
  }

  /** The number the search settles on. */
  ghost function LeastFree(s: Series, taken: set<string>): (i: nat)
    requires Separate(s)
    ensures IsLeastFree(s, taken, i)
  {
    SearchEnds(s, taken, 0);
    var i: nat :| IsLeastFree(s, taken, i);
    i
  }

  lemma {:induction false} SearchEnds(s: Series, taken: set<string>, i: nat)
    requires Separate(s) && forall j: nat :: j < i ==> Name(s, j) in taken
    ensures exists k: nat :: IsLeastFree(s, taken, k)
    decreases |taken| + 1 - i
  {
    TakenFit(s, taken, i);
    if Name(s, i) in taken {
      TakenFit(s, taken, i + 1);
      SearchEnds(s, taken, i + 1);
    } else {
      assert IsLeastFree(s, taken, i);
    }
  }

  lemma SettlesOn(s: Series, taken: set<string>, i: nat)
    requires Separate(s) && IsLeastFree(s, taken, i)
    ensures LeastFree(s, taken) == i
  {
  }

  // ---------- What creating does ----------

  datatype Kind = AFile | ANotebook | ADirectory

  function SeriesOf(k: Kind): (s: Series)
    ensures Separate(s)
  {
    match k
    case AFile => FILES
    case ANotebook => NOTEBOOKS
    case ADirectory => DIRECTORIES
  }

  /** Files count as taken for new files and notebooks, but not for new directories. */
  predicate Taken(dir: Listing, k: Kind, name: string) {
    if k == ADirectory then DirectoryExists(dir, name) else FileExists(dir, name)
  }

  ghost function TakenNames(dir: Listing, k: Kind): set<string> {
    set n | n in dir && Taken(dir, k, n)
  }

  /** Opening with O_CREATE and O_TRUNC, or writing the whole file: creates it or replaces its
      contents, and fails on anything that is no file. */
  function Overwritten(dir: Listing, name: string, content: string): Listing {
    if name in dir && !dir[name].File? then dir else dir[name := File(content)]
  }

  function MadeDirectory(dir: Listing, name: string): Listing {
    if name in dir then dir else dir[name := Directory]
  }

  /** What the first call that changes the directory leaves. */
  function Opened(dir: Listing, k: Kind, name: string): Listing {
    if k == ADirectory then MadeDirectory(dir, name) else Overwritten(dir, name, "")
  }

  /** The directory after a create that nothing disturbs. */
  ghost function Created(dir: Listing, k: Kind): Listing {
    var name := Name(SeriesOf(k), LeastFree(SeriesOf(k), TakenNames(dir, k)));
    var after := Opened(dir, k, name);
    if k == ANotebook then Overwritten(after, name, EMPTY_NOTEBOOK) else after
  }

  /** `name` has the least number of its series whose name is not taken. */
  ghost predicate FirstFree(first: string, before: string, after: string, taken: set<string>, name: string) {
    exists i: nat :: Called(first, before, after, name, i) && name !in taken &&
                     forall j: nat, other :: j < i && Called(first, before, after, other, j) ==> other in taken
  }

  lemma LeastIsFirst(s: Series, taken: set<string>)
    requires Separate(s)
    ensures FirstFree(s.first, s.before, s.after, taken, Name(s, LeastFree(s, taken)))
  {
    var i := LeastFree(s, taken);
    NameIsCalled(s, i);
    assert Called(s.first, s.before, s.after, Name(s, i), i);
    forall j: nat, other | j < i && Called(s.first, s.before, s.after, other, j)
      ensures other in taken
    {
      NameIsCalled(s, j);
    }
  }

  class Folder {
    var entries: Listing

    /** The loop of `newUntitledFile` and `newUntitledNotebook`. */
    method FreeFileName(k: Kind) returns (i: nat, name: string)
      requires k != ADirectory
      ensures i == LeastFree(SeriesOf(k), TakenNames(entries, k)) && name == Name(SeriesOf(k), i) && name !in entries
      ensures i <= |entries|
    {
      var s := SeriesOf(k);
      assert TakenNames(entries, k) == entries.Keys;
      i, name := 0, s.first;
      while FileExists(entries, name)
        invariant name == Name(s, i) && i <= |entries.Keys|
        invariant forall j: nat :: j < i ==> Name(s, j) in entries
        decreases |entries.Keys| - i
      {
        TakenFit(s, entries.Keys, i + 1);
        i := i + 1;
        name := s.before + Decimal(i) + s.after;
      }
      SettlesOn(s, entries.Keys, i);
    }

    /** The loop of `CreateDirectory`: files do not count as taken. */
    method FreeDirectoryName() returns (i: nat, name: string)
      ensures i == LeastFree(DIRECTORIES, TakenNames(entries, ADirectory)) && name == Name(DIRECTORIES, i)
      ensures i <= |TakenNames(entries, ADirectory)|
    {
      ghost var taken := TakenNames(entries, ADirectory);
      var dirName := "untitled-directory";
      i, name := 0, dirName;
      while DirectoryExists(entries, name)
        invariant name == Name(DIRECTORIES, i) && i <= |taken|
        invariant forall j: nat :: j < i ==> Name(DIRECTORIES, j) in taken
        decreases |taken| - i
      {
        assert name in taken;
        TakenFit(DIRECTORIES, taken, i + 1);
        i := i + 1;
        name := dirName + "-" + Decimal(i);
      }
      SettlesOn(DIRECTORIES, taken, i);
    }

    method WriteFile(name: string, content: string)
      modifies this
      ensures entries == Overwritten(old(entries), name, content)
      ensures entries == if name in old(entries) && !old(entries)[name].File? then old(entries) else old(entries)[name := File(content)]
    {
      if name in entries && !entries[name].File? {
        return;
      }
      entries := entries[name := File(content)];
    }

    method NewUntitledFile() returns (name: string)
      modifies this
      ensures name !in old(entries) && entries == old(entries)[name := File("")] && entries == Created(old(entries), AFile)
      ensures FirstFree("untitled.txt", "untitled", ".txt", old(entries).Keys, name)
    {
      var i: nat;
      i, name := FreeFileName(AFile);
      assert TakenNames(entries, AFile) == entries.Keys;
      LeastIsFirst(FILES, entries.Keys);
      WriteFile(name, "");
    }

    method NewUntitledNotebook() returns (name: string)
      modifies this
      ensures name !in old(entries) && entries == Created(old(entries), ANotebook)
      ensures entries == old(entries)[name := File("{\t\"cells\": [], \"metadata\": {}, \"nbformat\": 4, \"nbformat_minor\": 4}")]
      ensures FirstFree("Untitled.ipynb", "Untitled", ".ipynb", old(entries).Keys, name)
    {
      var i: nat;
      i, name := FreeFileName(ANotebook);
      assert TakenNames(entries, ANotebook) == entries.Keys;
      LeastIsFirst(NOTEBOOKS, entries.Keys);
      WriteFile(name, "");
      WriteFile(name, EMPTY_NOTEBOOK);
    }

    /** Makes the directory unless something else has its name; the reported name never has a number. */
    method CreateDirectory() returns (path: string, name: string)
      modifies this
      ensures entries == if path in old(entries) then old(entries) else old(entries)[path := Directory]
      ensures entries == Created(old(entries), ADirectory)
      ensures path == Name(DIRECTORIES, LeastFree(DIRECTORIES, TakenNames(old(entries), ADirectory)))
      ensures FirstFree("untitled-directory", "untitled-directory-", "",
                        (set n | n in old(entries) && old(entries)[n].Directory?), path)
      ensures name == "untitled-directory"
      ensures name == path <==> "untitled-directory" !in TakenNames(old(entries), ADirectory)
    {
      var i: nat;
      i, path := FreeDirectoryName();
      assert TakenNames(entries, ADirectory) == set n | n in entries && entries[n].Directory?;
      LeastIsFirst(DIRECTORIES, TakenNames(entries, ADirectory));
      if i > 0 {
        NamesDiffer(DIRECTORIES, 0, i);
        assert Name(DIRECTORIES, 0) in TakenNames(entries, ADirectory);
      }
      if path !in entries {
        entries := entries[path := Directory];
      }
      name := "untitled-directory";
    }
  }

  // ---------- Repeated creates ----------

  ghost function CreatedTimes(dir: Listing, k: Kind, n: nat): Listing {
    if n == 0 then dir else Created(CreatedTimes(dir, k, n - 1), k)
  }

  lemma CreatedKeys(dir: Listing, k: Kind)
    requires k != ADirectory
    ensures Created(dir, k).Keys == dir.Keys + {Name(SeriesOf(k), LeastFree(SeriesOf(k), dir.Keys))}
  {
    assert TakenNames(dir, k) == dir.Keys;
  }

  /** From any directory, `n` creates of files or of notebooks one after the other use the first `n`
      free numbers: no number below the last one used stays free. */
  lemma {:induction false} CreatesCountUp(dir: Listing, k: Kind, n: nat) returns (m: nat)
    requires k != ADirectory
    ensures CreatedTimes(dir, k, n).Keys == dir.Keys + Below(SeriesOf(k), m)
    ensures |Below(SeriesOf(k), m) - dir.Keys| == n
    decreases n
  {
    if n == 0 {
      m := 0;
      assert Below(SeriesOf(k), 0) == {};
    } else {
      var used := CreatesCountUp(dir, k, n - 1);
      var before := CreatedTimes(dir, k, n - 1);
      CreatedKeys(before, k);
      m := OneMore(SeriesOf(k), before.Keys, Created(before, k).Keys, dir.Keys, used);
    }
  }

  lemma OneMore(s: Series, taken: set<string>, after: set<string>, others: set<string>, used: nat) returns (m: nat)
    requires Separate(s) && taken == others + Below(s, used) && after == taken + {Name(s, LeastFree(s, taken))}
    ensures after == others + Below(s, m)
    ensures |Below(s, m) - others| == |Below(s, used) - others| + 1
  {
    var i := NextFree(s, taken, others, used);
    m := i + 1;
  }

  /** Past the numbers used so far, all up to the next free one are taken by other entries. */
  lemma NextFree(s: Series, taken: set<string>, others: set<string>, used: nat) returns (i: nat)
    requires Separate(s) && taken == others + Below(s, used)
    ensures i == LeastFree(s, taken)
    ensures others + Below(s, i + 1) == taken + {Name(s, i)}
    ensures |Below(s, i + 1) - others| == |Below(s, used) - others| + 1
  {
    i := LeastFree(s, taken);
    assert forall l: nat :: l < used ==> Name(s, l) in Below(s, used);
    assert used <= i;
    forall j: nat | used <= j < i
      ensures Name(s, j) in others
    {
      NotBelow(s, used, j);
    }
    OverTheGap(s, others, used, i);
  }

  lemma OverTheGap(s: Series, others: set<string>, used: nat, i: nat)
    requires Separate(s) && used <= i && Name(s, i) !in others && forall j: nat :: used <= j < i ==> Name(s, j) in others
    ensures others + Below(s, i + 1) == others + Below(s, used) + {Name(s, i)}
    ensures |Below(s, i + 1) - others| == |Below(s, used) - others| + 1
  {
    NotBelow(s, used, i);
    assert Below(s, i + 1) - others == (Below(s, used) - others) + {Name(s, i)};
  }
}
