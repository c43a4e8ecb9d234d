// Profile files (profile.rs): walking an `inherits` chain to a builtin, and layering the files of
// the chain over the builtin's values.
module Profiles {
  import opened Wrappers
  import opened Levenshtein

  /** A TOML value: a string, or anything else under a number. */
  datatype Value = Text(s: string) | Number(n: int)

  type Entry = (string, Value)

  /** What is on disk under a name. Reading and parsing are taken as given. */
  datatype File = Unreadable | Unparseable(message: string) | Table(entries: seq<Entry>)

  type Directory = map<string, File>

  datatype ProfileError =
    | NotFound(name: string)
    | Io(name: string)
    | Parse(name: string, message: string)
    | ShadowsBuiltin(name: string)
    | MissingInherits(name: string)
    | Cycle(chain: seq<string>)
    | UnknownKey(key: string, suggestion: Option<string>)
    | WrongAxis(name: string, key: string)
    | BadValue(name: string, key: string)

  const INHERITS: string := "inherits"

  // ----- one file -----

  /** The value of the last `inherits` entry among the first n; a non-string one is an error. */
  datatype Inherited = NoParent | Parent(name: string) | NotAName

  function ScanInherits(entries: seq<Entry>, n: nat): Inherited
    requires n <= |entries|
  {
    if n == 0 then NoParent
    else
      var before := ScanInherits(entries, n - 1);
      var (key, value) := entries[n-1];
      if before.NotAName? || key != INHERITS then before
      else match value
        case Text(s) => Parent(s)
        case Number(_) => NotAName
  }

  function OtherKeys(entries: seq<Entry>, n: nat): (r: seq<Entry>)
    requires n <= |entries|
    ensures forall e | e in r :: e in entries && e.0 != INHERITS
  {
    if n == 0 then []
    else OtherKeys(entries, n - 1) + if entries[n-1].0 == INHERITS then [] else [entries[n-1]]
  }

  /** Why the file under a non-builtin name cannot be passed, or `None`. */
  function FileError(dir: Directory, name: string): Option<ProfileError> {
    if name !in dir then Some(NotFound(name))
    else match dir[name]
      case Unreadable => Some(Io(name))
      case Unparseable(message) => Some(Parse(name, message))
      case Table(entries) =>
        match ScanInherits(entries, |entries|)
        case NotAName => Some(BadValue(name, INHERITS))
        case NoParent => Some(MissingInherits(name))
        case Parent(_) => None
  }

  function ParentOf(dir: Directory, name: string): string
    requires FileError(dir, name).None?
  {
    ScanInherits(dir[name].entries, |dir[name].entries|).name
  }

  function KeysOf(dir: Directory, name: string): seq<Entry>
    requires FileError(dir, name).None?
  {
    OtherKeys(dir[name].entries, |dir[name].entries|)
  }

  // ----- what a file says -----

  /** `parent` is the text of the table's last `inherits`, and none of them holds anything but a text. */
  ghost predicate InheritsFrom(entries: seq<Entry>, parent: string) {
    && (forall k | 0 <= k < |entries| && entries[k].0 == INHERITS :: entries[k].1.Text?)
    && exists k :: LastOf(entries, k, INHERITS) && entries[k].1 == Text(parent)
  }

  /** Entry k is the last of its key. */
  ghost predicate LastOf(entries: seq<Entry>, k: int, key: string) {
    0 <= k < |entries| && entries[k].0 == key && forall j | k < j < |entries| :: entries[j].0 != key
  }

  /** The file under this name can be passed, to `parent`. */
  ghost predicate Passes(dir: Directory, name: string, parent: string) {
    name in dir && dir[name].Table? && InheritsFrom(dir[name].entries, parent)
  }

  /** Why it cannot. */
  ghost predicate Faulty(dir: Directory, name: string, e: ProfileError) {
    if name !in dir then e == NotFound(name)
    else match dir[name]
      case Unreadable => e == Io(name)
      case Unparseable(message) => e == Parse(name, message)
      case Table(entries) =>
        if BadInherits(entries) then e == BadValue(name, INHERITS)
        else NoInherits(entries) && e == MissingInherits(name)
  }

  /** kept holds exactly the entries whose key is not `inherits`, in order: those at the indices `at`. */
  ghost predicate Keeps(entries: seq<Entry>, kept: seq<Entry>, at: seq<nat>) {
    && |at| == |kept| && (forall i | 0 <= i < |at| :: at[i] < |entries| && kept[i] == entries[at[i]])
    && (forall i, j | 0 <= i < j < |at| :: at[i] < at[j])
    && forall k: nat | k < |entries| :: k in at <==> entries[k].0 != INHERITS
  }

  /** Some `inherits` among the entries holds anything but a text. */
  ghost predicate BadInherits(entries: seq<Entry>) {
    exists k :: 0 <= k < |entries| && entries[k].0 == INHERITS && !entries[k].1.Text?
  }

  ghost predicate NoInherits(entries: seq<Entry>) {
    forall k | 0 <= k < |entries| :: entries[k].0 != INHERITS
  }

  lemma {:induction false} ScanIs(entries: seq<Entry>)
    ensures var r := ScanInherits(entries, |entries|);
      && (r.NotAName? <==> BadInherits(entries)) && (r.NoParent? <==> NoInherits(entries))
      && (r.Parent? ==> InheritsFrom(entries, r.name))
  {
    hide BadInherits, NoInherits, InheritsFrom;
    if |entries| == 0 {
      NothingInherited();
    } else {
      var n := |entries| - 1;
      ScanIs(entries[..n]);
      ScanPrefix(entries, n, n);
      OneMoreEntry(entries[..n], entries[n]);
      assert entries == entries[..n] + [entries[n]];
    }
  }

  lemma NothingInherited()
    ensures !BadInherits([]) && NoInherits([])
  {
  }

  lemma OneMoreEntry(before: seq<Entry>, e: Entry)
    ensures BadInherits(before + [e]) <==> BadInherits(before) || (e.0 == INHERITS && !e.1.Text?)
    ensures NoInherits(before + [e]) <==> NoInherits(before) && e.0 != INHERITS
    ensures e.0 == INHERITS && e.1.Text? && !BadInherits(before) ==> InheritsFrom(before + [e], e.1.s)
    ensures forall p :: InheritsFrom(before, p) && e.0 != INHERITS ==> InheritsFrom(before + [e], p)
  {
    var entries, n := before + [e], |before|;
    assert entries[n] == e && forall k | 0 <= k < n :: entries[k] == before[k];
    if e.0 == INHERITS { assert LastOf(entries, n, INHERITS); }
    forall p | InheritsFrom(before, p) && e.0 != INHERITS ensures InheritsFrom(entries, p) {
      var k :| LastOf(before, k, INHERITS) && before[k].1 == Text(p);
      assert LastOf(entries, k, INHERITS);
    }
  }

  lemma {:induction false} ScanPrefix(entries: seq<Entry>, n: nat, k: nat)
    requires k <= n <= |entries|
    ensures ScanInherits(entries[..n], k) == ScanInherits(entries, k)
  {
    if k > 0 { ScanPrefix(entries, n, k - 1); }
  }

  lemma {:induction false} OtherKeysAre(entries: seq<Entry>, n: nat) returns (at: seq<nat>)
    requires n <= |entries|
    ensures Keeps(entries[..n], OtherKeys(entries, n), at)
  {
    hide Keeps;
    if n == 0 {
      at := [];
      assert entries[..0] == [];
      NothingKept();
    } else {
      at := OtherKeysAre(entries, n - 1);
      assert entries[..n] == entries[..n-1] + [entries[n-1]];
      KeepsOneMore(entries[..n-1], OtherKeys(entries, n - 1), at, entries[n-1]);
      if entries[n-1].0 == INHERITS {
        assert OtherKeys(entries, n) == OtherKeys(entries, n - 1);
      } else {
        at := at + [n - 1];
      }
    }
  }

  lemma NothingKept()
    ensures Keeps([], [], [])
  {
  }

  lemma KeepsOneMore(before: seq<Entry>, kept: seq<Entry>, at: seq<nat>, e: Entry)
    requires Keeps(before, kept, at)
    ensures if e.0 == INHERITS then Keeps(before + [e], kept, at) else Keeps(before + [e], kept + [e], at + [|before|])
  {
    var n := |before|;
    assert forall i | 0 <= i < |at| :: at[i] in at && at[i] < n;
    assert n !in at;
  }

  /** Only one list can be kept. */
  lemma KeptIsUnique(entries: seq<Entry>, kept: seq<Entry>, at: seq<nat>, kept': seq<Entry>, at': seq<nat>)
    requires Keeps(entries, kept, at) && Keeps(entries, kept', at')
    ensures kept == kept'
  {
    forall k: nat ensures k in at <==> k in at' {
    }
    SameIncreasing(at, at');
  }

  lemma {:induction false} SameIncreasing(a: seq<nat>, b: seq<nat>)
    requires forall i, j | 0 <= i < j < |a| :: a[i] < a[j]
    requires forall i, j | 0 <= i < j < |b| :: b[i] < b[j]
    requires forall k: nat :: k in a <==> k in b
    ensures a == b
  {
    if |a| > 0 { assert a[0] in b; }
    if |b| > 0 { assert b[0] in a; }
    if |a| > 0 {
      var m, n := |a| - 1, |b| - 1;
      assert a[m] in b && b[n] in a;
      assert a[m] == b[n];
      forall k: nat ensures k in a[..m] <==> k in b[..n] {
        assert k in a[..m] <==> k in a && k != a[m];
        assert k in b[..n] <==> k in b && k != b[n];
      }
      SameIncreasing(a[..m], b[..n]);
      assert a == a[..m] + [a[m]] && b == b[..n] + [b[n]];
    }
  }

  /** The model's reading of a file says what the file says. */
  lemma FileErrorIs(dir: Directory, name: string)
    ensures FileError(dir, name).Some? ==> Faulty(dir, name, FileError(dir, name).value)
    ensures FileError(dir, name).None? ==> Passes(dir, name, ParentOf(dir, name))
  {
    if name in dir && dir[name].Table? { ScanIs(dir[name].entries); }
  }

  lemma ParentIsUnique(entries: seq<Entry>, p: string, q: string)
    requires InheritsFrom(entries, p) && InheritsFrom(entries, q)
    ensures p == q
  {
    var k :| LastOf(entries, k, INHERITS) && entries[k].1 == Text(p);
    var j :| LastOf(entries, j, INHERITS) && entries[j].1 == Text(q);
    assert k == j;
  }

  lemma PassesIsSound(dir: Directory, name: string, parent: string)
    requires Passes(dir, name, parent)
    ensures forall e :: !Faulty(dir, name, e)
  {
    var k :| LastOf(dir[name].entries, k, INHERITS);
  }

  // ----- the walk -----

  type LoadedFile = (string, seq<Entry>)

  type ChainResult = Result<(seq<LoadedFile>, string), ProfileError>

  /** Following `inherits` from `name` leads through `path`, past its last name not yet. */
  ghost predicate Walked(dir: Directory, builtins: seq<string>, name: string, path: seq<string>) {
    && |path| > 0 && path[0] == name
    && forall k | 0 <= k < |path| - 1 ::
         path[k] !in builtins && Passes(dir, path[k], path[k+1])
  }

  /** Only the last name of the path may have occurred before. */
  ghost predicate FreshBeforeLast(path: seq<string>) {
    forall i, j | 0 <= i < j < |path| - 1 :: path[i] != path[j]
  }

  function Last(path: seq<string>): string
    requires |path| > 0
  {
    path[|path|-1]
  }

  ghost predicate Revisits(path: seq<string>)
    requires |path| > 0
  {
    Last(path) in path[..|path|-1]
  }

  /** The result is what the end of the path calls for: a builtin ends the walk, a builtin with a file
      beside it is refused, a name met before is a cycle, and otherwise the file itself is at fault. */
  ghost predicate Explains(dir: Directory, builtins: seq<string>, name: string, path: seq<string>, r: ChainResult) {
    && Walked(dir, builtins, name, path) && FreshBeforeLast(path)
    && var last := Last(path);
       if last in builtins then
         if last in dir then r == Err(ShadowsBuiltin(last))
         else r.Ok? && r.value.1 == last && Holds(dir, path[..|path|-1], r.value.0)
       else if Revisits(path) then r == Err(Cycle(path))
       else r.Err? && Faulty(dir, last, r.error)
  }

  /** The loaded files are those under the names, each with the entries it holds beside `inherits`. */
  ghost predicate Holds(dir: Directory, names: seq<string>, files: seq<LoadedFile>) {
    |files| == |names| && forall k | 0 <= k < |names| :: HoldsFile(dir, names[k], files[k])
  }

  ghost predicate HoldsFile(dir: Directory, name: string, file: LoadedFile) {
    && file.0 == name && name in dir && dir[name].Table?
    && exists at :: Keeps(dir[name].entries, file.1, at)
  }

  /** The loaded files along a path, custom-most first. */
  function FilesOf(dir: Directory, names: seq<string>): (files: seq<LoadedFile>)
    ensures |files| == |names| && forall k | 0 <= k < |files| :: files[k].0 == names[k]
  {
    seq(|names|, k requires 0 <= k < |names| =>
      (names[k], if FileError(dir, names[k]).None? then KeysOf(dir, names[k]) else []))
  }

  function Visited(visited: seq<string>): set<string> {
    set v | v in visited
  }

  /** The walk from `current` on, after the names in `visited`. */
  function Walk(dir: Directory, builtins: seq<string>, visited: seq<string>, current: string): ChainResult
    decreases dir.Keys - Visited(visited)
  {
    if current in builtins then
      if current in dir then Err(ShadowsBuiltin(current)) else Ok((FilesOf(dir, visited), current))
    else if current in visited then Err(Cycle(visited + [current]))
    else if FileError(dir, current).Some? then Err(FileError(dir, current).value)
    else
      assert current in dir.Keys - Visited(visited) && current in Visited(visited + [current]);
      Walk(dir, builtins, visited + [current], ParentOf(dir, current))
  }

  /** `load_chain` */
  method LoadChain(dir: Directory, builtins: seq<string>, name: string) returns (r: ChainResult)
    ensures r == Walk(dir, builtins, [], name)
  {
    hide ParentOf, KeysOf, FileError;
    var files: seq<LoadedFile> := [];
    var visited: seq<string> := [];
    var current := name;
    while true
      invariant Walk(dir, builtins, visited, current) == Walk(dir, builtins, [], name)
      invariant files == FilesOf(dir, visited)
      decreases dir.Keys - Visited(visited)
    {
      if current in builtins {
        if current in dir { return Err(ShadowsBuiltin(current)); }
        return Ok((files, current));
      }
      if current in visited { return Err(Cycle(visited + [current])); }
      var read := ReadFile(dir, current);
      if read.Err? { return Err(read.error); }
      OneMoreFile(dir, visited, current);
      files := files + [(current, read.value.1)];
      visited := visited + [current];
      current := read.value.0;
    }
  }

  /** One turn's reading of a file, with the loop over its table. */
  method ReadFile(dir: Directory, name: string) returns (r: Result<(string, seq<Entry>), ProfileError>)
    ensures FileError(dir, name).Some? ==> r == Err(FileError(dir, name).value)
    ensures FileError(dir, name).None? ==> r == Ok((ParentOf(dir, name), KeysOf(dir, name)))
  {
    if name !in dir { return Err(NotFound(name)); }
    match dir[name]
    case Unreadable => r := Err(Io(name));
    case Unparseable(message) => r := Err(Parse(name, message));
    case Table(entries) =>
      var inherits: Option<string> := None;
      var keys: seq<Entry> := [];
      for k := 0 to |entries|
        invariant ScanInherits(entries, k) == if inherits.None? then NoParent else Parent(inherits.value)
        invariant keys == OtherKeys(entries, k)
      {
        var (key, value) := entries[k];
        if key == INHERITS {
          if !value.Text? {
            BadStaysBad(entries, k + 1, |entries|);
            return Err(BadValue(name, key));
          }
          inherits := Some(value.s);
        } else {
          keys := keys + [(key, value)];
        }
      }
      if inherits.None? { return Err(MissingInherits(name)); }
      r := Ok((inherits.value, keys));
  }

  lemma {:induction false} BadStaysBad(entries: seq<Entry>, k: nat, n: nat)
    requires k <= n <= |entries| && ScanInherits(entries, k).NotAName?
    ensures ScanInherits(entries, n).NotAName?
  {
    if k < n { BadStaysBad(entries, k, n - 1); }
  }

  lemma OneMoreFile(dir: Directory, visited: seq<string>, current: string)
    requires FileError(dir, current).None?
    ensures FilesOf(dir, visited + [current]) == FilesOf(dir, visited) + [(current, KeysOf(dir, current))]
    ensures current in dir.Keys && current in Visited(visited + [current])
    ensures current !in visited ==> current !in Visited(visited)
    ensures Visited(visited) <= Visited(visited + [current])
  {
  }

  lemma WalkExtends(dir: Directory, builtins: seq<string>, name: string, visited: seq<string>, current: string)
    requires Walked(dir, builtins, name, visited + [current])
    requires current !in builtins && FileError(dir, current).None?
    ensures Walked(dir, builtins, name, visited + [current] + [ParentOf(dir, current)])
  {
    FileErrorIs(dir, current);
    hide FileError, ParentOf, Passes;
    var path, longer := visited + [current], visited + [current] + [ParentOf(dir, current)];
    forall k | 0 <= k < |longer| - 1
      ensures longer[k] !in builtins && Passes(dir, longer[k], longer[k+1])
    {
      assert longer[k] == path[k];
      if k < |path| - 1 { assert longer[k+1] == path[k+1]; }
    }
  }

  lemma FilesHold(dir: Directory, builtins: seq<string>, name: string, visited: seq<string>, current: string)
    requires Walked(dir, builtins, name, visited + [current])
    ensures Holds(dir, visited, FilesOf(dir, visited))
  {
    var path := visited + [current];
    forall k | 0 <= k < |visited| ensures HoldsFile(dir, visited[k], FilesOf(dir, visited)[k]) {
      assert path[k] == visited[k] && Passes(dir, path[k], path[k+1]);
      PassesHasNoError(dir, path[k], path[k+1]);
      hide FileError, Passes;
      var entries := dir[visited[k]].entries;
      var at := OtherKeysAre(entries, |entries|);
      assert entries[..|entries|] == entries;
    }
  }

  lemma PassesHasNoError(dir: Directory, name: string, parent: string)
    requires Passes(dir, name, parent)
    ensures FileError(dir, name).None? && ParentOf(dir, name) == parent
  {
    FileErrorIs(dir, name);
    if FileError(dir, name).Some? {
      PassesIsSound(dir, name, parent);
    } else {
      ParentIsUnique(dir[name].entries, parent, ParentOf(dir, name));
    }
  }

  lemma {:induction false} WalkIsExplained(dir: Directory, builtins: seq<string>, name: string, visited: seq<string>,
        current: string)
      returns (path: seq<string>)
    requires Walked(dir, builtins, name, visited + [current])
    requires forall i, j | 0 <= i < j < |visited| :: visited[i] != visited[j]
    ensures Explains(dir, builtins, name, path, Walk(dir, builtins, visited, current))
    decreases dir.Keys - Visited(visited)
  {
    hide ParentOf, KeysOf, FilesOf, FileError, Holds, Faulty, Passes;
    if current in builtins || current in visited || FileError(dir, current).Some? {
      path := visited + [current];
      assert path[..|path|-1] == visited;
      FilesHold(dir, builtins, name, visited, current);
      FileErrorIs(dir, current);
    } else {
      WalkExtends(dir, builtins, name, visited, current);
      OneMoreFile(dir, visited, current);
      path := WalkIsExplained(dir, builtins, name, visited + [current], ParentOf(dir, current));
    }
  }

  /** The walk ends on every finite directory, and its result is what the path it took calls for. */
  lemma ChainIsExplained(dir: Directory, builtins: seq<string>, name: string) returns (path: seq<string>)
    ensures Explains(dir, builtins, name, path, Walk(dir, builtins, [], name))
  {
    assert [] + [name] == [name];
    path := WalkIsExplained(dir, builtins, name, [], name);
  }

  lemma {:induction false} PathsAgree(dir: Directory, builtins: seq<string>, name: string, p: seq<string>,
        q: seq<string>, k: nat)
    requires Walked(dir, builtins, name, p) && Walked(dir, builtins, name, q) && k < |p| && k < |q|
    ensures p[k] == q[k]
  {
    hide InheritsFrom;
    if k > 0 {
      PathsAgree(dir, builtins, name, p, q, k - 1);
      assert Passes(dir, p[k-1], p[k-1+1]) && Passes(dir, q[k-1], q[k-1+1]);
      ParentIsUnique(dir[p[k-1]].entries, p[k], q[k]);
    }
  }

  /** There is only one explanation: a shorter one would have had to stop where the longer goes on. */
  lemma NoShorterExplanation(dir: Directory, builtins: seq<string>, name: string, p: seq<string>, q: seq<string>,
        r: ChainResult, s: ChainResult)
    requires Explains(dir, builtins, name, p, r) && Explains(dir, builtins, name, q, s)
    ensures |p| >= |q|
  {
    hide Passes, Faulty, Holds;
    if |p| < |q| {
      var k := |p| - 1;
      PathsAgree(dir, builtins, name, p, q, k);
      // q passes p's last name, so that name is no builtin and its file is sound; it must be a revisit.
      assert q[k] !in builtins && Passes(dir, q[k], q[k+1]);
      PassesIsSound(dir, q[k], q[k+1]);
      var i :| 0 <= i < k && p[i] == p[k];
      PathsAgree(dir, builtins, name, p, q, i);
    }
  }

  /** Two explained results of the same walk are the same result of the same path. */
  lemma ExplanationIsUnique(dir: Directory, builtins: seq<string>, name: string, p: seq<string>, q: seq<string>,
        r: ChainResult, s: ChainResult)
    requires Explains(dir, builtins, name, p, r) && Explains(dir, builtins, name, q, s)
    ensures p == q && r == s
  {
    NoShorterExplanation(dir, builtins, name, p, q, r, s);
    NoShorterExplanation(dir, builtins, name, q, p, s, r);
    hide Passes, Holds;
    forall k | 0 <= k < |p| ensures p[k] == q[k] {
      PathsAgree(dir, builtins, name, p, q, k);
    }
    assert p == q;
    if r.Ok? { HoldsOnce(dir, p[..|p|-1], r.value.0, s.value.0); }
  }

  lemma HoldsOnce(dir: Directory, names: seq<string>, f: seq<LoadedFile>, g: seq<LoadedFile>)
    requires Holds(dir, names, f) && Holds(dir, names, g)
    ensures f == g
  {
    hide Keeps;
    forall k | 0 <= k < |names| ensures f[k] == g[k] {
      assert HoldsFile(dir, names[k], f[k]) && HoldsFile(dir, names[k], g[k]);
      var at :| Keeps(dir[names[k]].entries, f[k].1, at);
      var at' :| Keeps(dir[names[k]].entries, g[k].1, at');
      KeptIsUnique(dir[names[k]].entries, f[k].1, at, g[k].1, at');
    }
  }

  /** A cycle is reported exactly when following `inherits` comes back to a name before it meets a
      builtin or a file that cannot be passed. */
  lemma CycleIff(dir: Directory, builtins: seq<string>, name: string)
    ensures var r := Walk(dir, builtins, [], name);
      (r.Err? && r.error.Cycle?)
      <==> exists p :: Walked(dir, builtins, name, p) && FreshBeforeLast(p) && Last(p) !in builtins && Revisits(p)
  {
    var r := Walk(dir, builtins, [], name);
    var path := ChainIsExplained(dir, builtins, name);
    if p :| Walked(dir, builtins, name, p) && FreshBeforeLast(p) && Last(p) !in builtins && Revisits(p) {
      ExplanationIsUnique(dir, builtins, name, path, p, r, Err(Cycle(p)));
    }
    if r.Err? && r.error.Cycle? {
      CycleHasRevisit(dir, builtins, name, path, r);
    }
  }

  lemma CycleHasRevisit(dir: Directory, builtins: seq<string>, name: string, path: seq<string>, r: ChainResult)
    requires Explains(dir, builtins, name, path, r) && r.Err? && r.error.Cycle?
    ensures Last(path) !in builtins && Revisits(path)
  {
  }

  // ----- layering -----

  /** One configuration axis: the parameters it owns, those of the other axis, the builtin labels with
      their values, and how a value is deserialized. */
  datatype Axis<!Setting> = Axis(
    keys: seq<string>,
    otherKeys: seq<string>,
    builtins: seq<string>,
    defaults: string -> map<string, Setting>,
    parse: (string, Value) -> Option<Setting>)

  ghost predicate GoodAxis<Setting>(axis: Axis<Setting>) {
    forall base, key | base in axis.builtins && key in axis.keys :: key in axis.defaults(base)
  }

  datatype Profile<Setting> = Profile(
    name: string,
    base: string,
    defaults: map<string, Setting>,
    chain: seq<string>,
    origins: map<string, string>)

  predicate Applies<Setting>(axis: Axis<Setting>, e: Entry) {
    e.0 in axis.keys && axis.parse(e.0, e.1).Some?
  }

  /** Why the entry cannot be applied; errors name the selected profile, not the file. A key of neither
      axis gets a suggestion exactly when one is within two edits, and then one of the nearest. */
  ghost predicate Blames<Setting>(axis: Axis<Setting>, profile: string, e: Entry, error: ProfileError) {
    if e.0 in axis.keys then axis.parse(e.0, e.1).None? && error == BadValue(profile, e.0)
    else if e.0 in axis.otherKeys then error == WrongAxis(profile, e.0)
    else error.UnknownKey? && error.key == e.0 && Suggested(e.0, axis.keys, error.suggestion)
  }

  /** `apply_topology_key` / `apply_mode_key` */
  method ApplyKey<Setting>(axis: Axis<Setting>, profile: string, defaults: map<string, Setting>, e: Entry)
      returns (r: Result<map<string, Setting>, ProfileError>)
    ensures r.Ok? <==> e.0 in axis.keys && axis.parse(e.0, e.1).Some?
    ensures r.Ok? <==> Applies(axis, e)
    ensures r.Ok? ==> r.value == defaults[e.0 := axis.parse(e.0, e.1).value]
    ensures r.Err? ==> Blames(axis, profile, e, r.error)
  {
    if e.0 in axis.keys {
      var parsed := axis.parse(e.0, e.1);
      if parsed.None? { return Err(BadValue(profile, e.0)); }
      return Ok(defaults[e.0 := parsed.value]);
    }
    if e.0 in axis.otherKeys { return Err(WrongAxis(profile, e.0)); }
    var suggestion := Suggest(e.0, axis.keys);
    return Err(UnknownKey(e.0, suggestion));
  }

  /** The last of the first n entries that sets the key. */
  function LastSetting(entries: seq<Entry>, n: nat, key: string): (r: Option<Value>)
    requires n <= |entries|
    ensures r.Some? ==> (key, r.value) in entries
  {
    if n == 0 then None
    else if entries[n-1].0 == key then Some(entries[n-1].1)
    else LastSetting(entries, n - 1, key)
  }

  function Sets(file: LoadedFile, key: string): Option<Value> {
    LastSetting(file.1, |file.1|, key)
  }

  /** The nearest file from index k on that sets the key: nearer to the selected profile wins. */
  function Nearest(files: seq<LoadedFile>, key: string, k: nat): (r: Option<nat>)
    requires k <= |files|
    ensures r.Some? ==> k <= r.value < |files| && Sets(files[r.value], key).Some?
    ensures r.Some? ==> forall j | k <= j < r.value :: Sets(files[j], key).None?
    ensures r.None? ==> forall j | k <= j < |files| :: Sets(files[j], key).None?
    decreases |files| - k
  {
    if k == |files| then None
    else if Sets(files[k], key).Some? then Some(k)
    else Nearest(files, key, k + 1)
  }

  predicate AllApply<Setting>(axis: Axis<Setting>, files: seq<LoadedFile>, k: nat)
    requires k <= |files|
  {
    forall j | k <= j < |files| :: forall e | e in files[j].1 :: Applies(axis, e)
  }

  /** Values and origins once the files from index k on are layered over the builtin. */
  ghost predicate Layered<Setting>(axis: Axis<Setting>, files: seq<LoadedFile>, base: string, k: nat,
                                   defaults: map<string, Setting>, origins: map<string, string>)
    requires k <= |files|
  {
    forall key | key in axis.keys ::
      && key in defaults && key in origins && key in axis.defaults(base)
      && match Nearest(files, key, k)
         case None => defaults[key] == axis.defaults(base)[key] && origins[key] == base
         case Some(i) =>
           axis.parse(key, Sets(files[i], key).value) == Some(defaults[key]) && origins[key] == files[i].0
  }

  /** The same in the middle of file k: its first n entries are in. */
  ghost predicate Layering<Setting>(axis: Axis<Setting>, files: seq<LoadedFile>, base: string, k: nat, n: nat,
                                    defaults: map<string, Setting>, origins: map<string, string>)
    requires k < |files| && n <= |files[k].1|
  {
    forall key | key in axis.keys ::
      && key in defaults && key in origins && key in axis.defaults(base)
      && match LastSetting(files[k].1, n, key)
         case Some(v) => axis.parse(key, v) == Some(defaults[key]) && origins[key] == files[k].0
         case None =>
           match Nearest(files, key, k + 1)
           case None => defaults[key] == axis.defaults(base)[key] && origins[key] == base
           case Some(i) =>
             axis.parse(key, Sets(files[i], key).value) == Some(defaults[key]) && origins[key] == files[i].0
  }

  /** Entry n of a file is its first that cannot be applied. */
  ghost predicate FirstBad<Setting>(axis: Axis<Setting>, profile: string, file: LoadedFile, n: nat,
        error: ProfileError) {
    && n < |file.1| && (forall m | 0 <= m < n :: Applies(axis, file.1[m]))
    && Blames(axis, profile, file.1[n], error)
  }

  /** The first entry that cannot be applied, base-most file first. */
  ghost predicate FirstBadLayer<Setting>(axis: Axis<Setting>, profile: string, files: seq<LoadedFile>,
        error: ProfileError) {
    exists k, n :: 0 <= k < |files| && AllApply(axis, files, k + 1) && FirstBad(axis, profile, files[k], n, error)
  }

  lemma LayeringStarts<Setting>(axis: Axis<Setting>, files: seq<LoadedFile>, base: string, k: nat,
                                defaults: map<string, Setting>, origins: map<string, string>)
    requires k < |files| && Layered(axis, files, base, k + 1, defaults, origins)
    ensures Layering(axis, files, base, k, 0, defaults, origins)
  {
  }

  lemma LayeringAdvances<Setting>(axis: Axis<Setting>, files: seq<LoadedFile>, base: string, k: nat, n: nat,
                                  defaults: map<string, Setting>, origins: map<string, string>)
    requires k < |files| && n < |files[k].1| && Layering(axis, files, base, k, n, defaults, origins)
    requires Applies(axis, files[k].1[n])
    ensures var e := files[k].1[n];
      Layering(axis, files, base, k, n + 1, defaults[e.0 := axis.parse(e.0, e.1).value], origins[e.0 := files[k].0])
  {
    hide Nearest, Sets;
  }

  lemma LayeringEnds<Setting>(axis: Axis<Setting>, files: seq<LoadedFile>, base: string, k: nat,
                              defaults: map<string, Setting>, origins: map<string, string>)
    requires k < |files| && Layering(axis, files, base, k, |files[k].1|, defaults, origins)
    ensures Layered(axis, files, base, k, defaults, origins)
  {
  }

  /** Applying one file's keys. */
  method LayerFile<Setting>(axis: Axis<Setting>, name: string, files: seq<LoadedFile>, ghost base: string, k: nat,
                            defaults0: map<string, Setting>, origins0: map<string, string>)
      returns (r: Result<(map<string, Setting>, map<string, string>), ProfileError>)
    requires k < |files| && Layered(axis, files, base, k + 1, defaults0, origins0)
    ensures r.Ok? <==> forall e | e in files[k].1 :: Applies(axis, e)
    ensures r.Ok? ==> Layered(axis, files, base, k, r.value.0, r.value.1)
    ensures r.Err? ==> exists n :: FirstBad(axis, name, files[k], n, r.error)
  {
    LayeringStarts(axis, files, base, k, defaults0, origins0);
    var defaults, origins := defaults0, origins0;
    var table := files[k].1;
    hide Layered, Layering, Nearest, Sets, Blames, Applies;
    for n := 0 to |table|
      invariant forall m | 0 <= m < n :: Applies(axis, table[m])
      invariant Layering(axis, files, base, k, n, defaults, origins)
    {
      var applied := ApplyKey(axis, name, defaults, table[n]);
      if applied.Err? {
        assert table[n] in table;
        assert FirstBad(axis, name, files[k], n, applied.error);
        return Err(applied.error);
      }
      LayeringAdvances(axis, files, base, k, n, defaults, origins);
      defaults := applied.value;
      origins := origins[table[n].0 := files[k].0];
    }
    LayeringEnds(axis, files, base, k, defaults, origins);
    r := Ok((defaults, origins));
  }

  lemma AllApplyStep<Setting>(axis: Axis<Setting>, files: seq<LoadedFile>, k: nat)
    requires k < |files|
    ensures AllApply(axis, files, k)
      <==> AllApply(axis, files, k + 1) && forall e | e in files[k].1 :: Applies(axis, e)
    ensures AllApply(axis, files, 0) ==> forall e | e in files[k].1 :: Applies(axis, e)
  {
  }

  /** The files base-most first, so that nearer files override farther ones. */
  method LayerAll<Setting>(axis: Axis<Setting>, name: string, files: seq<LoadedFile>, ghost base: string,
                           defaults0: map<string, Setting>, origins0: map<string, string>)
      returns (r: Result<(map<string, Setting>, map<string, string>), ProfileError>)
    requires Layered(axis, files, base, |files|, defaults0, origins0)
    ensures r.Ok? <==> AllApply(axis, files, 0)
    ensures r.Ok? ==> Layered(axis, files, base, 0, r.value.0, r.value.1)
    ensures r.Err? ==> FirstBadLayer(axis, name, files, r.error)
  {
    hide Layered, Applies, FirstBad;
    var defaults, origins := defaults0, origins0;
    var k := |files|;
    while k > 0
      invariant 0 <= k <= |files|
      invariant Layered(axis, files, base, k, defaults, origins)
      invariant AllApply(axis, files, k)
    {
      k := k - 1;
      AllApplyStep(axis, files, k);
      hide AllApply;
      var layered := LayerFile(axis, name, files, base, k, defaults, origins);
      if layered.Err? {
        assert FirstBadLayer(axis, name, files, layered.error);
        return Err(layered.error);
      }
      defaults, origins := layered.value.0, layered.value.1;
    }
    r := Ok((defaults, origins));
  }

  // ----- what a profile is -----

  /** The path of `inherits` links from the selected profile to a builtin. */
  ghost predicate Chain(dir: Directory, builtins: seq<string>, name: string, path: seq<string>) {
    Walked(dir, builtins, name, path) && FreshBeforeLast(path) && Last(path) in builtins && Last(path) !in dir
  }

  /** Every entry beside `inherits` can be applied. */
  ghost predicate Applicable<Setting>(axis: Axis<Setting>, entries: seq<Entry>) {
    forall e | e in entries && e.0 != INHERITS :: e.0 in axis.keys && axis.parse(e.0, e.1).Some?
  }

  /** The files of the path from index k on, down to the one beside the builtin. */
  ghost predicate ApplicableFrom<Setting>(axis: Axis<Setting>, dir: Directory, path: seq<string>, k: nat) {
    forall j | k <= j < |path| - 1 :: path[j] in dir && dir[path[j]].Table? && Applicable(axis, dir[path[j]].entries)
  }

  ghost predicate Silent(dir: Directory, name: string, key: string) {
    name in dir && dir[name].Table? && forall k | 0 <= k < |dir[name].entries| :: dir[name].entries[k].0 != key
  }

  /** The file's last entry of this key holds v. */
  ghost predicate SetsTo(dir: Directory, name: string, key: string, v: Value) {
    && name in dir && dir[name].Table?
    && exists k :: LastOf(dir[name].entries, k, key) && dir[name].entries[k].1 == v
  }

  /** Link i of the path decides the key: the first file that sets it, or the builtin if none does. */
  ghost predicate Decides<Setting>(axis: Axis<Setting>, dir: Directory, path: seq<string>, key: string, i: nat,
                                   setting: Setting)
  {
    && i < |path| && (forall j | 0 <= j < i :: Silent(dir, path[j], key))
    && if i < |path| - 1 then exists v :: SetsTo(dir, path[i], key, v) && axis.parse(key, v) == Some(setting)
       else key in axis.defaults(path[i]) && setting == axis.defaults(path[i])[key]
  }

  /** The profile is what the path's files and its builtin make it. */
  ghost predicate IsProfile<Setting>(axis: Axis<Setting>, dir: Directory, path: seq<string>, p: Profile<Setting>) {
    && |path| > 0 && p.name == path[0] && p.base == Last(path) && p.chain == path
    && forall key | key in axis.keys && key != INHERITS ::
         && key in p.defaults && key in p.origins
         && exists i: nat :: DecidesAs(axis, dir, path, key, i, p)
  }

  ghost predicate DecidesAs<Setting>(axis: Axis<Setting>, dir: Directory, path: seq<string>, key: string, i: nat,
                                     p: Profile<Setting>)
    requires key in p.defaults && key in p.origins
  {
    i < |path| && Decides(axis, dir, path, key, i, p.defaults[key]) && p.origins[key] == path[i]
  }

  /** Entry n of link k is the first that cannot be applied, base-most file first. */
  ghost predicate BadEntry<Setting>(axis: Axis<Setting>, dir: Directory, path: seq<string>, k: nat, n: nat,
                                    error: ProfileError)
  {
    && k < |path| - 1 && path[k] in dir && dir[path[k]].Table? && n < |dir[path[k]].entries|
    && ApplicableFrom(axis, dir, path, k + 1)
    && var entries := dir[path[k]].entries;
       && entries[n].0 != INHERITS && Applicable(axis, entries[..n]) && Blames(axis, path[0], entries[n], error)
  }

  /** What loading a profile returns, in terms of what the directory holds. */
  ghost predicate Loads<Setting>(axis: Axis<Setting>, dir: Directory, name: string,
                                 r: Result<Profile<Setting>, ProfileError>, path: seq<string>)
  {
    match r
    case Ok(p) => Chain(dir, axis.builtins, name, path) && ApplicableFrom(axis, dir, path, 0)
      && IsProfile(axis, dir, path, p)
    case Err(e) =>
      || Explains(dir, axis.builtins, name, path, Err(e))
      || (Chain(dir, axis.builtins, name, path) && exists k, n :: BadEntry(axis, dir, path, k, n, e))
  }

  lemma HeldSetting(entries: seq<Entry>, kept: seq<Entry>, at: seq<nat>, key: string)
    requires Keeps(entries, kept, at) && key != INHERITS
    ensures match LastSetting(kept, |kept|, key)
      case None => forall k | 0 <= k < |entries| :: entries[k].0 != key
      case Some(v) => exists k :: LastOf(entries, k, key) && entries[k].1 == v
  {
    var n := LastSettingAt(kept, |kept|, key);
    forall j: nat | j < |entries| && entries[j].0 == key ensures n >= 0 && j <= at[n] {
      var i := KeptIndex(entries, kept, at, j);
      assert i <= n && (i < n ==> at[i] < at[n]);
    }
    assert n >= 0 ==> LastOf(entries, at[n], key);
  }

  lemma KeptIndex(entries: seq<Entry>, kept: seq<Entry>, at: seq<nat>, j: nat) returns (i: nat)
    requires Keeps(entries, kept, at) && j < |entries| && entries[j].0 != INHERITS
    ensures i < |kept| && at[i] == j && kept[i] == entries[j]
  {
    assert j in at;
    i :| i < |at| && at[i] == j;
  }

  lemma {:induction false} LastSettingAt(entries: seq<Entry>, n: nat, key: string) returns (k: int)
    requires n <= |entries|
    ensures -1 <= k < n && forall j | k < j < n :: entries[j].0 != key
    ensures k >= 0 ==> entries[k].0 == key
    ensures LastSetting(entries, n, key) == if k < 0 then None else Some(entries[k].1)
  {
    if n == 0 {
      k := -1;
    } else if entries[n-1].0 == key {
      k := n - 1;
    } else {
      k := LastSettingAt(entries, n - 1, key);
    }
  }

  /** A loaded file sets a key exactly as its table does. */
  lemma HeldFile(dir: Directory, name: string, file: LoadedFile, key: string)
    requires HoldsFile(dir, name, file) && key != INHERITS
    ensures match Sets(file, key)
      case None => Silent(dir, name, key)
      case Some(v) => SetsTo(dir, name, key, v)
  {
    var at :| Keeps(dir[name].entries, file.1, at);
    hide Keeps;
    HeldSetting(dir[name].entries, file.1, at, key);
  }

  lemma HeldApplies<Setting>(axis: Axis<Setting>, entries: seq<Entry>, kept: seq<Entry>, at: seq<nat>)
    requires Keeps(entries, kept, at)
    ensures (forall e | e in kept :: Applies(axis, e)) <==> Applicable(axis, entries)
  {
    forall e | e in entries && e.0 != INHERITS ensures e in kept {
      var k: nat :| k < |entries| && entries[k] == e;
      var i := KeptIndex(entries, kept, at, k);
    }
    forall e | e in kept ensures e in entries && e.0 != INHERITS {
      var i :| 0 <= i < |kept| && kept[i] == e;
      assert at[i] in at;
    }
  }

  lemma AllApplyIs<Setting>(axis: Axis<Setting>, dir: Directory, path: seq<string>, files: seq<LoadedFile>, k: nat)
    requires |path| > 0 && Holds(dir, path[..|path|-1], files) && k <= |files|
    ensures AllApply(axis, files, k) <==> ApplicableFrom(axis, dir, path, k)
  {
    hide Applies, Applicable, Keeps;
    forall j | k <= j < |files|
      ensures path[j] in dir && dir[path[j]].Table?
      ensures (forall e | e in files[j].1 :: Applies(axis, e)) <==> Applicable(axis, dir[path[j]].entries)
    {
      assert HoldsFile(dir, path[..|path|-1][j], files[j]);
      var at :| Keeps(dir[path[j]].entries, files[j].1, at);
      HeldApplies(axis, dir[path[j]].entries, files[j].1, at);
    }
  }

  lemma BadEntryIs<Setting>(axis: Axis<Setting>, dir: Directory, path: seq<string>, files: seq<LoadedFile>,
                            k: nat, m: nat, error: ProfileError) returns (n: nat)
    requires |path| > 0 && Holds(dir, path[..|path|-1], files) && k < |files|
    requires AllApply(axis, files, k + 1) && FirstBad(axis, path[0], files[k], m, error)
    ensures BadEntry(axis, dir, path, k, n, error)
  {
    AllApplyIs(axis, dir, path, files, k + 1);
    NameHeld(dir, path, files, k);
    hide ApplicableFrom, AllApply, Holds, Keeps, FirstBad, Blames, Applicable;
    var at :| Keeps(dir[path[k]].entries, files[k].1, at);
    n := BadAt(axis, path[0], dir[path[k]].entries, files[k], at, m, error);
  }

  lemma BadAt<Setting>(axis: Axis<Setting>, name: string, entries: seq<Entry>, file: LoadedFile, at: seq<nat>,
                       m: nat, error: ProfileError) returns (n: nat)
    requires Keeps(entries, file.1, at) && FirstBad(axis, name, file, m, error)
    ensures n < |entries| && entries[n].0 != INHERITS && Applicable(axis, entries[..n])
    ensures Blames(axis, name, entries[n], error)
  {
    hide Blames;
    n := at[m];
    assert n in at;
    forall e | e in entries[..n] && e.0 != INHERITS ensures Applies(axis, e) {
      var j: nat :| j < n && entries[j] == e;
      var i := KeptIndex(entries, file.1, at, j);
    }
  }

  lemma LayeredIs<Setting>(axis: Axis<Setting>, dir: Directory, path: seq<string>, files: seq<LoadedFile>,
                           defaults: map<string, Setting>, origins: map<string, string>, key: string) returns (i: nat)
    requires |path| > 0 && Holds(dir, path[..|path|-1], files) && key in axis.keys && key != INHERITS
    requires Layered(axis, files, Last(path), 0, defaults, origins)
    ensures key in defaults && key in origins && i < |path|
    ensures Decides(axis, dir, path, key, i, defaults[key]) && origins[key] == path[i]
  {
    hide HoldsFile, Sets, Silent, SetsTo;
    i := match Nearest(files, key, 0) case None => |files| case Some(k) => k;
    forall j | 0 <= j < i ensures Silent(dir, path[j], key) {
      assert HoldsFile(dir, path[..|path|-1][j], files[j]);
      HeldFile(dir, path[j], files[j], key);
    }
    if i < |files| {
      NameHeld(dir, path, files, i);
      HeldFile(dir, path[i], files[i], key);
    }
  }

  lemma NameHeld(dir: Directory, path: seq<string>, files: seq<LoadedFile>, i: nat)
    requires |path| > 0 && Holds(dir, path[..|path|-1], files) && i < |files|
    ensures HoldsFile(dir, path[..|path|-1][i], files[i]) && files[i].0 == path[i]
  {
    assert HoldsFile(dir, path[..|path|-1][i], files[i]);
  }

  /**
   * `load_topology_profile` / `load_mode_profile`. It succeeds exactly when `inherits` leads to a builtin
   * without a file beside it and every other entry of the files on the way is valid for the axis. Then each
   * key is decided by the first of those files that sets it, else by the builtin, and its origin names that
   * link. Otherwise the walk's own fault is reported, or the first bad entry met going from the base-most
   * file to the nearest.
   */
  method LoadProfile<Setting>(axis: Axis<Setting>, dir: Directory, name: string) returns (r: Result<Profile<Setting>,
        ProfileError>)
    requires GoodAxis(axis)
    ensures exists path :: Loads(axis, dir, name, r, path)
    ensures r.Ok? <==> exists path :: Chain(dir, axis.builtins, name, path) && ApplicableFrom(axis, dir, path, 0)
    ensures r.Ok? ==> |r.value.chain| > 0 && Layered(axis, FilesOf(dir, r.value.chain[..|r.value.chain|-1]),
                                                     r.value.base, 0, r.value.defaults, r.value.origins)
  {
    hide Layered, FirstBadLayer, AllApply, Walk, Explains, Chain, ApplicableFrom, IsProfile, Loads, FilesOf, Links;
    ghost var path := ChainIsExplained(dir, axis.builtins, name);
    var loaded := LoadChain(dir, axis.builtins, name);
    if loaded.Err? {
      ChainFails(axis, dir, name, path, loaded.error);
      LoadsIff(axis, dir, name, Err(loaded.error), path);
      return Err(loaded.error);
    }
    var (files, base) := loaded.value;
    ExplainedChain(dir, axis.builtins, name, path, files, base);
    var defaults := axis.defaults(base);
    var origins: map<string, string> := map key | key in axis.keys :: base;
    NothingLayered(axis, files, base);
    var layered := LayerAll(axis, name, files, base, defaults, origins);
    if layered.Err? {
      EntryFails(axis, dir, name, path, files, layered.error);
      LoadsIff(axis, dir, name, Err(layered.error), path);
      return Err(layered.error);
    }
    r := Ok(Profile(name, base, layered.value.0, Links(files) + [base], layered.value.1));
    LoadedIsProfile(axis, dir, name, path, files, r.value);
    LoadsIff(axis, dir, name, r, path);
  }

  /** Loading succeeds exactly on a chain of applicable files. */
  lemma LoadsIff<Setting>(axis: Axis<Setting>, dir: Directory, name: string,
                          r: Result<Profile<Setting>, ProfileError>, path: seq<string>)
    requires Loads(axis, dir, name, r, path)
    ensures r.Ok? <==> exists p :: Chain(dir, axis.builtins, name, p) && ApplicableFrom(axis, dir, p, 0)
  {
    hide Explains, IsProfile, Chain;
    if p :| Chain(dir, axis.builtins, name, p) && ApplicableFrom(axis, dir, p, 0) {
      if r.Err? {
        var loaded := ChainIsExplanation(dir, axis.builtins, name, p);
        if Explains(dir, axis.builtins, name, path, Err(r.error)) {
          ExplanationIsUnique(dir, axis.builtins, name, p, path, loaded, Err(r.error));
        } else {
          var loaded' := ChainIsExplanation(dir, axis.builtins, name, path);
          ExplanationIsUnique(dir, axis.builtins, name, p, path, loaded, loaded');
          BadIsNotApplicable(axis, dir, path, r.error);
        }
      }
    }
  }

  lemma ChainIsExplanation(dir: Directory, builtins: seq<string>, name: string, path: seq<string>)
      returns (r: ChainResult)
    requires Chain(dir, builtins, name, path)
    ensures r.Ok? && Explains(dir, builtins, name, path, r)
  {
    hide Passes, Holds;
    var visited := path[..|path|-1];
    assert visited + [Last(path)] == path;
    FilesHold(dir, builtins, name, visited, Last(path));
    r := Ok((FilesOf(dir, visited), Last(path)));
  }

  lemma BadIsNotApplicable<Setting>(axis: Axis<Setting>, dir: Directory, path: seq<string>, e: ProfileError)
    requires exists k, n :: BadEntry(axis, dir, path, k, n, e)
    ensures !ApplicableFrom(axis, dir, path, 0)
  {
    var k: nat, n: nat :| BadEntry(axis, dir, path, k, n, e);
    assert dir[path[k]].entries[n] in dir[path[k]].entries;
  }

  lemma ChainFails<Setting>(axis: Axis<Setting>, dir: Directory, name: string, path: seq<string>, e: ProfileError)
    requires Explains(dir, axis.builtins, name, path, Err(e))
    ensures Loads(axis, dir, name, Err(e), path)
  {
    hide Explains, Chain;
  }

  lemma ExplainedChain(dir: Directory, builtins: seq<string>, name: string, path: seq<string>,
                       files: seq<LoadedFile>, base: string)
    requires Explains(dir, builtins, name, path, Ok((files, base)))
    requires Walk(dir, builtins, [], name) == Ok((files, base))
    ensures Chain(dir, builtins, name, path)
    ensures |path| > 0 && path[0] == name && Last(path) == base && base in builtins
    ensures Holds(dir, path[..|path|-1], files) && files == FilesOf(dir, path[..|path|-1])
  {
    hide Passes, HoldsFile, Faulty, Walk;
    WalkLoads(dir, builtins, [], name);
    var names :| files == FilesOf(dir, names);
    assert names == path[..|path|-1] by {
      forall k | 0 <= k < |names| ensures names[k] == path[k] {
        NameHeld(dir, path, files, k);
      }
    }
  }

  lemma {:induction false} WalkLoads(dir: Directory, builtins: seq<string>, visited: seq<string>, current: string)
    ensures var r := Walk(dir, builtins, visited, current);
      r.Ok? ==> exists names :: r.value.0 == FilesOf(dir, names)
    decreases dir.Keys - Visited(visited)
  {
    hide FilesOf, KeysOf;
    if current !in builtins && current !in visited && FileError(dir, current).None? {
      assert current in dir.Keys - Visited(visited) && current in Visited(visited + [current]);
      WalkLoads(dir, builtins, visited + [current], ParentOf(dir, current));
    }
  }

  lemma EntryFails<Setting>(axis: Axis<Setting>, dir: Directory, name: string, path: seq<string>,
                            files: seq<LoadedFile>, e: ProfileError)
    requires Chain(dir, axis.builtins, name, path) && |path| > 0 && path[0] == name
    requires Holds(dir, path[..|path|-1], files)
    requires FirstBadLayer(axis, name, files, e)
    ensures Loads(axis, dir, name, Err(e), path)
  {
    hide Chain, Holds, AllApply, FirstBad, BadEntry, Explains;
    var k: nat, m: nat :| k < |files| && AllApply(axis, files, k + 1) && FirstBad(axis, name, files[k], m, e);
    var n := BadEntryIs(axis, dir, path, files, k, m, e);
  }

  lemma LoadedIsProfile<Setting>(axis: Axis<Setting>, dir: Directory, name: string, path: seq<string>,
                                 files: seq<LoadedFile>, p: Profile<Setting>)
    requires Chain(dir, axis.builtins, name, path) && |path| > 0 && path[0] == name && p.base == Last(path)
    requires Holds(dir, path[..|path|-1], files) && files == FilesOf(dir, path[..|path|-1]) && AllApply(axis, files, 0)
    requires Layered(axis, files, p.base, 0, p.defaults, p.origins)
    requires p.name == name && p.chain == Links(files) + [p.base]
    ensures Loads(axis, dir, name, Ok(p), path) && p.chain == path
  {
    hide Chain, ApplicableFrom, Decides, Layered, AllApply, Explains, BadEntry, HoldsFile, FilesOf;
    AllApplyIs(axis, dir, path, files, 0);
    assert p.chain == path by {
      forall k | 0 <= k < |files| ensures files[k].0 == path[k] {
        NameHeld(dir, path, files, k);
      }
      assert path == path[..|path|-1] + [Last(path)];
    }
    forall key | key in axis.keys && key != INHERITS
      ensures key in p.defaults && key in p.origins
      ensures exists i: nat :: DecidesAs(axis, dir, path, key, i, p)
    {
      var i := LayeredIs(axis, dir, path, files, p.defaults, p.origins, key);
      assert DecidesAs(axis, dir, path, key, i, p);
    }
  }

  function Links(files: seq<LoadedFile>): (names: seq<string>)
    ensures |names| == |files|
  {
    seq(|files|, i requires 0 <= i < |files| => files[i].0)
  }

  lemma {:induction false} WalkEndsAtBuiltin(dir: Directory, builtins: seq<string>, visited: seq<string>,
        current: string)
    ensures var r := Walk(dir, builtins, visited, current); r.Ok? ==> r.value.1 in builtins
    decreases dir.Keys - Visited(visited)
  {
    if current !in builtins && current !in visited && FileError(dir, current).None? {
      assert current in dir.Keys - Visited(visited) && current in Visited(visited + [current]);
      WalkEndsAtBuiltin(dir, builtins, visited + [current], ParentOf(dir, current));
    }
  }

  lemma NothingLayered<Setting>(axis: Axis<Setting>, files: seq<LoadedFile>, base: string)
    requires GoodAxis(axis) && base in axis.builtins
    ensures Layered(axis, files, base, |files|, axis.defaults(base), map key | key in axis.keys :: base)
  {
  }

  // ----- provenance -----

  /** `source_label` */
  function SourceLabel(name: string, origins: map<string, string>, key: string): string {
    if key !in origins || origins[key] == name then name else name + " → " + origins[key]
  }

  /** The label is the selected name when that very file set the key, and otherwise also names the one
      link of the chain that did: the first file setting it, or the builtin. */
  lemma LabelNamesTheLink<Setting>(axis: Axis<Setting>, dir: Directory, name: string, path: seq<string>,
                                   p: Profile<Setting>, key: string) returns (i: nat)
    requires Loads(axis, dir, name, Ok(p), path) && key in axis.keys && key != INHERITS
    ensures |path| > 0 && path[0] == name && key in p.defaults && key in p.origins
    ensures DecidesAs(axis, dir, path, key, i, p)
    ensures SourceLabel(name, p.origins, key) == if i == 0 then name else name + " → " + path[i]
  {
    hide Decides, Passes;
    i :| DecidesAs(axis, dir, path, key, i, p);
    if i > 0 {
      assert path[0] !in axis.builtins && (i < |path| - 1 ==> path[i] != path[0]);
    }
  }
}
