/**
 * Package `filetree`: the entry registry built once before counting starts, the
 * coloured tree text it renders, and the in-place recolouring of one line when a
 * file is done (filetree/fileTree.go), with its padding helper (filetree/utils.go).
 *
 * The filesystem walk (`filepath.WalkDir`) is replaced by the sequence of events
 * it reports: each visited path with its base name and kind, or a failure.
 */
module FileTree {
  import opened Wrappers
  import opened GoStrings

  datatype EntryStatus = Pending | Done | Skipped

  /** One registered file or directory; `Status` starts as Go's zero value, `Pending`. */
  datatype Entry = Entry(Name: string, path: string, Status: EntryStatus)

  const Esc: char := 27 as char
  /** Colour codes written around a name when a line is first rendered. */
  const Grey: string := [Esc] + "[37m"
  const Red: string := [Esc] + "[31m"
  const Reset: string := [Esc] + "[0m"

  /** The colour code `ChangeFileStatus` associates with each status. */
  function Colour(status: EntryStatus): string {
    match status
    case Done => [Esc] + "[32m"
    case Pending => [Esc] + "[33m"
    case Skipped => [Esc] + "[31m"
  }

  /** The lines of a tree text, as `strings.Split(text, "\n")` gives them. */
  function Lines(text: string): seq<string> {
    Split(text, '\n')
  }

  /** A path with every `/` turned into `\`, as the lookups compare them. */
  function Backslashed(path: string): string {
    ReplaceAll(path, "/", "\\")
  }

  // ------------------------------------------------------------ padTree

  /** One underscore per byte of `s`. */
  function Padding(s: string): (pad: string)
    ensures |pad| == |s|
    ensures forall k :: 0 <= k < |pad| ==> pad[k] == '_'
    decreases |s|
  {
    if s == [] then [] else Padding(s[1..]) + "_"
  }

  /** `padTree`: appends one underscore per byte of `prevDir`. */
  method PadTree(prevDir: string) returns (pad: string)
    ensures |pad| == |prevDir|
    ensures forall k :: 0 <= k < |pad| ==> pad[k] == '_'
    ensures pad == Padding(prevDir)
  {
    pad := [];
    for i := 0 to |prevDir|
      invariant |pad| == i
      invariant forall k :: 0 <= k < i ==> pad[k] == '_'
    {
      pad := pad + "_";
    }
    var spec := Padding(prevDir);
    assert forall k :: 0 <= k < |pad| ==> pad[k] == spec[k];
  }

  /** The padding depends on nothing but the byte length of its argument. */
  lemma PaddingByLength(a: string, b: string)
    requires |a| == |b|
    ensures Padding(a) == Padding(b)
  {
    var pa, pb := Padding(a), Padding(b);
    assert forall k :: 0 <= k < |pa| ==> pa[k] == pb[k];
  }

  // ------------------------------------------------------ registration filter

  /** The whitespace class `\s` of Go's regexp syntax. */
  predicate IsRegexpSpace(c: char) {
    c == '\t' || c == '\n' || c == 12 as char || c == '\r' || c == ' '
  }

  /**
   * Whether the unanchored regexp `\.[\w\d\S]*\\.*` matches `p`: some `.` is
   * followed, later, by a `\`, with no whitespace between the two.
   */
  predicate DotBeforeBackslash(p: string) {
    exists i, j :: 0 <= i < j < |p| && p[i] == '.' && p[j] == '\\' &&
      forall k :: i < k < j ==> !IsRegexpSpace(p[k])
  }

  /** A walked path (its root already removed) gets an entry and a line. */
  predicate Registered(path: string) {
    !HasSuffix(path, ".sum") && !DotBeforeBackslash(path)
  }

  /** The walked path with every occurrence of the root path removed. */
  function Stripped(rootPath: string, walked: string): string {
    ReplaceAll(walked, rootPath, [])
  }

  // ------------------------------------------------------------- rendering

  /** Some ignore-list token occurs in the path (the empty token occurs in every path). */
  predicate Ignored(path: string, ignoreList: seq<string>) {
    exists k :: 0 <= k < |ignoreList| && Contains(path, ignoreList[k])
  }

  /** The coloured name: grey for an ignored path, red otherwise. */
  function TreeName(path: string, name: string, ignoreList: seq<string>): string {
    " " + (if Ignored(path, ignoreList) then Grey else Red) + name + Reset
  }

  /** What goes before the name: nothing, a bar, or a bar and the parent's padding. */
  function LinePrefix(path: string): string {
    var treeDirs := Split(path, '\\');
    if |treeDirs| == 2 then "|"
    else if |treeDirs| == 1 then []
    else "|" + Padding(Join(treeDirs[..|treeDirs| - 1], '/'))
  }

  /** The line rendered for a registered path (without its leading newline). */
  function RenderLine(path: string, name: string, ignoreList: seq<string>): string {
    LinePrefix(path) + TreeName(path, name, ignoreList)
  }

  // ----------------------------------------------------- the registry, as values

  datatype WalkEvent = Visit(path: string, name: string, isDir: bool) | Failure(err: string)

  /** The registry's three parts: the tree text and the two maps keyed by line. */
  datatype Registry = Registry(tree: string, dirs: map<int, Entry>, files: map<int, Entry>)

  /** Every key of both maps is the index of a line of the tree text. */
  ghost predicate KeyedByLine(reg: Registry) {
    (forall k :: k in reg.dirs ==> 0 <= k < |Lines(reg.tree)|) &&
    (forall k :: k in reg.files ==> 0 <= k < |Lines(reg.tree)|)
  }

  /** The effect of one walk-callback call on the registry. */
  function Register(reg: Registry, rootPath: string, ignoreList: seq<string>, ev: WalkEvent): Registry {
    match ev
    case Failure(_) => reg
    case Visit(walked, name, isDir) =>
      var path := Stripped(rootPath, walked);
      if !Registered(path) then reg
      else
        var key := |Lines(reg.tree)|;
        var e := Entry(name, path, Pending);
        var dirs :=
          if !isDir then reg.dirs
          else if |Split(path, '\\')| == 1 then reg.dirs[0 := e][key := e]
          else reg.dirs[key := e];
        var files := if isDir then reg.files else reg.files[key := e];
        Registry(reg.tree + "\n" + RenderLine(path, name, ignoreList), dirs, files)
  }

  /** The registry after the walk has reported `events`. */
  function Built(rootPath: string, ignoreList: seq<string>, events: seq<WalkEvent>): Registry
    decreases |events|
  {
    if events == [] then Registry([], map[], map[])
    else Register(Built(rootPath, ignoreList, events[..|events| - 1]), rootPath, ignoreList, events[|events| - 1])
  }

  /** A callback call keeps every key on a line of the tree. */
  lemma RegisterKeepsKeys(reg: Registry, rootPath: string, ignoreList: seq<string>, ev: WalkEvent)
    requires KeyedByLine(reg)
    ensures KeyedByLine(Register(reg, rootPath, ignoreList, ev))
  {
    if ev.Visit? && Registered(Stripped(rootPath, ev.path)) {
      AppendLine(reg.tree, RenderLine(Stripped(rootPath, ev.path), ev.name, ignoreList));
    }
  }

  /** The error of the first failure the walk reports, which stops it. */
  function FirstFailure(events: seq<WalkEvent>): Option<string>
    decreases |events|
  {
    if events == [] then None
    else
      var before := FirstFailure(events[..|events| - 1]);
      if before.Some? then before
      else if events[|events| - 1].Failure? then Some(events[|events| - 1].err)
      else None
  }

  /** A path the registry accepted, with its name and kind. */
  datatype Registration = Registration(path: string, name: string, isDir: bool)

  function RegEntry(r: Registration): Entry {
    Entry(r.name, r.path, Pending)
  }

  /** A directory whose path has a single component is also stored at key 0. */
  predicate TopLevelDir(r: Registration) {
    r.isDir && |Split(r.path, '\\')| == 1
  }

  /** The registrations the walk makes, in walk order. */
  ghost function Registrations(rootPath: string, events: seq<WalkEvent>): seq<Registration>
    decreases |events|
  {
    if events == [] then []
    else
      var before := Registrations(rootPath, events[..|events| - 1]);
      match events[|events| - 1]
      case Failure(_) => before
      case Visit(walked, name, isDir) =>
        var path := Stripped(rootPath, walked);
        if Registered(path) then before + [Registration(path, name, isDir)] else before
  }

  ghost function RenderedLines(regs: seq<Registration>, ignoreList: seq<string>): seq<string> {
    seq(|regs|, i requires 0 <= i < |regs| => RenderLine(regs[i].path, regs[i].name, ignoreList))
  }

  // ---------------------------------------------------------------- the class

  class FileTree {
    var Tree: string
    var Directories: map<int, Entry>
    var Files: map<int, Entry>

    /** Every key names a line of the tree text. */
    ghost predicate Valid()
      reads this
    {
      KeyedByLine(Registry(Tree, Directories, Files))
    }

    constructor ()
      ensures Tree == [] && Directories == map[] && Files == map[]
      ensures Valid()
    {
      Tree := [];
      Directories := map[];
      Files := map[];
    }

    /**
     * `GetDirecory`: scans the directory map in an arbitrary order and returns
     * a directory entry whose path is the argument with `/` turned into `\`,
     * or nothing when there is none.
     */
    method GetDirecory(path: string) returns (e: Option<Entry>)
      ensures e.None? <==> forall id :: id in Directories ==> Directories[id].path != Backslashed(path)
      ensures e.Some? ==> exists id :: id in Directories && Directories[id] == e.value
      ensures e.Some? ==> e.value.path == Backslashed(path)
    {
      e := None;
      var ids := Directories.Keys;
      while ids != {}
        invariant ids <= Directories.Keys
        invariant e.None? <==> forall id :: id in Directories.Keys - ids ==> Directories[id].path != Backslashed(path)
        invariant e.Some? ==> exists id :: id in Directories && Directories[id] == e.value
        invariant e.Some? ==> e.value.path == Backslashed(path)
        decreases ids
      {
        SomeKey(ids);
        var id :| id in ids;
        if Directories[id].path == Backslashed(path) {
          e := Some(Directories[id]);
        }
        ids := ids - {id};
      }
    }

    /**
     * `GetFile`: like `GetDirecory` over the file map, also returning the key
     * (the line number) of the entry found, and 0 when there is none.
     */
    method GetFile(path: string) returns (e: Option<Entry>, id: int)
      ensures e.None? <==> forall k :: k in Files ==> Files[k].path != Backslashed(path)
      ensures e.None? ==> id == 0
      ensures e.Some? ==> id in Files && Files[id] == e.value && e.value.path == Backslashed(path)
    {
      e, id := None, 0;
      var ids := Files.Keys;
      while ids != {}
        invariant ids <= Files.Keys
        invariant e.None? <==> forall k :: k in Files.Keys - ids ==> Files[k].path != Backslashed(path)
        invariant e.None? ==> id == 0
        invariant e.Some? ==> id in Files && Files[id] == e.value && e.value.path == Backslashed(path)
        decreases ids
      {
        SomeKey(ids);
        var k :| k in ids;
        if Files[k].path == Backslashed(path) {
          e, id := Some(Files[k]), k;
        }
        ids := ids - {k};
      }
    }

    /**
     * `ChangeFileStatus`: when some file entry has the path, sets its status and,
     * in that entry's line only, replaces every occurrence of the old status's
     * colour code by the new one's. Otherwise nothing changes.
     */
    method ChangeFileStatus(path: string, status: EntryStatus)
      requires Valid()
      modifies this
      ensures Valid()
      ensures Directories == old(Directories) && Files.Keys == old(Files.Keys)
      ensures |Lines(Tree)| == |Lines(old(Tree))|
      ensures (forall k :: k in old(Files) ==> old(Files)[k].path != Backslashed(path)) ==>
        Tree == old(Tree) && Files == old(Files)
      ensures (exists k :: k in old(Files) && old(Files)[k].path == Backslashed(path)) ==>
        exists id :: id in old(Files) && old(Files)[id].path == Backslashed(path) &&
          Files == old(Files)[id := old(Files)[id].(Status := status)] &&
          Lines(Tree) == Lines(old(Tree))[id := ReplaceAll(Lines(old(Tree))[id], Colour(old(Files)[id].Status), Colour(status))]
    {
      var entry, id := GetFile(path);
      if entry.Some? {
        var currColor := Colour(entry.value.Status);
        Files := Files[id := entry.value.(Status := status)];
        var newColor := Colour(status);
        var allLines := Split(Tree, '\n');
        var tmp := ReplaceAll(allLines[id], currColor, newColor);
        SplitPartsFree(Tree, '\n');
        ReplaceKeepsByteOut(allLines[id], currColor, newColor, '\n');
        allLines := allLines[id := tmp];
        Tree := Join(allLines, '\n');
        SplitJoin(allLines, '\n');
      }
    }
  }

  /** A non-empty set of keys has a member to pick. */
  lemma SomeKey(ids: set<int>)
    requires ids != {}
    ensures exists id :: id in ids
  {
    if forall id :: id !in ids {
      assert false;
    }
  }

  /** Appending a newline and a line grows the line count by that line's lines. */
  lemma AppendLine(text: string, line: string)
    ensures Lines(text + "\n" + line) == Lines(text) + Lines(line)
    ensures |Lines(text + "\n" + line)| > |Lines(text)|
  {
    assert text + "\n" + line == text + ['\n'] + line;
    SplitAround(text, line, '\n');
  }

  /**
   * The walk callback of `NewFileTree` for one visited path: removes the root path,
   * and when the result is registered, stores an entry under the current number
   * of lines and appends the rendered line.
   */
  method VisitPath(tree: FileTree, rootPath: string, ignoreList: seq<string>, walked: string, name: string, isDir: bool)
    requires tree.Valid()
    modifies tree
    ensures tree.Valid()
    ensures var reg := Register(old(Registry(tree.Tree, tree.Directories, tree.Files)), rootPath, ignoreList, Visit(walked, name, isDir));
      tree.Tree == reg.tree && tree.Directories == reg.dirs && tree.Files == reg.files
  {
    ghost var reg := Register(Registry(tree.Tree, tree.Directories, tree.Files), rootPath, ignoreList, Visit(walked, name, isDir));
    RegisterKeepsKeys(Registry(tree.Tree, tree.Directories, tree.Files), rootPath, ignoreList, Visit(walked, name, isDir));
    var path := ReplaceAll(walked, rootPath, []);
    var ignoreDir := DotBeforeBackslash(path);
    if !HasSuffix(path, ".sum") && !ignoreDir {
      var treeDirs := Split(path, '\\');
      var key := |Split(tree.Tree, '\n')|;
      if isDir {
        if |treeDirs| == 1 {
          tree.Directories := tree.Directories[0 := Entry(name, path, Pending)];
        }
        tree.Directories := tree.Directories[key := Entry(name, path, Pending)];
      } else {
        tree.Files := tree.Files[key := Entry(name, path, Pending)];
      }
      assert tree.Directories == reg.dirs && tree.Files == reg.files;
      var treeName;
      if Ignored(path, ignoreList) {
        treeName := " " + Grey + name + Reset;
      } else {
        treeName := " " + Red + name + Reset;
      }
      var line;
      if |treeDirs| == 2 {
        line := "|" + treeName;
      } else if |treeDirs| == 1 {
        line := treeName;
      } else {
        var parentDir := Join(treeDirs[..|treeDirs| - 1], '/');
        var pad := PadTree(parentDir);
        line := "|" + pad + treeName;
      }
      assert line == RenderLine(path, name, ignoreList);
      AppendLine(tree.Tree, line);
      tree.Tree := tree.Tree + "\n" + line;
    } else {
      assert reg == Registry(tree.Tree, tree.Directories, tree.Files);
    }
  }

  /**
   * `NewFileTree`: replays the walk through the callback. The first failure the
   * walk reports is returned instead of a tree.
   */
  method NewFileTree(root: string, ignoreList: seq<string>, events: seq<WalkEvent>)
    returns (fileTree: FileTree?, err: Option<string>)
    ensures err == FirstFailure(events)
    ensures err.Some? ==> fileTree == null
    ensures err.None? ==> fileTree != null && fresh(fileTree) && fileTree.Valid()
    ensures err.None? ==> var reg := Built(Backslashed(root), ignoreList, events);
      fileTree.Tree == reg.tree && fileTree.Directories == reg.dirs && fileTree.Files == reg.files
  {
    var tree := new FileTree();
    var rootPath := ReplaceAll(root, "/", "\\");
    for i := 0 to |events|
      invariant FirstFailure(events[..i]) == None
      invariant tree.Valid()
      invariant var reg := Built(rootPath, ignoreList, events[..i]);
        tree.Tree == reg.tree && tree.Directories == reg.dirs && tree.Files == reg.files
    {
      assert events[..i + 1][..i] == events[..i];
      match events[i]
      case Failure(msg) =>
        FailureStops(events, i + 1);
        return null, Some(msg);
      case Visit(walked, name, isDir) =>
        VisitPath(tree, rootPath, ignoreList, walked, name, isDir);
    }
    assert events[..|events|] == events;
    return tree, None;
  }

  lemma {:induction false} FailureStops(events: seq<WalkEvent>, n: nat)
    requires n <= |events|
    requires FirstFailure(events[..n]).Some?
    ensures FirstFailure(events) == FirstFailure(events[..n])
    decreases |events|
  {
    if n < |events| {
      assert events[..|events| - 1][..n] == events[..n];
      FailureStops(events[..|events| - 1], n);
    } else {
      assert events[..n] == events;
    }
  }
}
