/**
 * What the registry built by `NewFileTree` looks like, and what recolouring a
 * freshly rendered line does.
 */
module FileTreeProperties {
  import opened GoStrings
  import opened FileTree

  /** No walked name contains a newline (a newline in a name adds a line to the text). */
  ghost predicate NamesWithoutNewline(events: seq<WalkEvent>) {
    forall i :: 0 <= i < |events| && events[i].Visit? ==> '\n' !in events[i].name
  }

  /**
   * The registry holds one line per registration, after the empty line 0; key k
   * (k >= 1) names registration k - 1 and its line; key 0 of the directory map
   * holds the last directory whose path has a single component.
   */
  ghost predicate LaidOut(reg: Registry, regs: seq<Registration>, ignoreList: seq<string>) {
    && Lines(reg.tree) == [[]] + RenderedLines(regs, ignoreList)
    && FilesKeyed(reg.files, regs)
    && DirsKeyed(reg.dirs, regs)
    && TopLevelKept(reg.dirs, regs)
  }

  /** Key k of the file map names registration k - 1, exactly when that is a file. */
  ghost predicate FilesKeyed(files: map<int, Entry>, regs: seq<Registration>) {
    && (forall k :: k in files <==> 1 <= k <= |regs| && !regs[k - 1].isDir)
    && (forall k :: k in files ==> files[k] == RegEntry(regs[k - 1]))
  }

  /** Key k (k != 0) of the directory map names registration k - 1, exactly when that is a directory. */
  ghost predicate DirsKeyed(dirs: map<int, Entry>, regs: seq<Registration>) {
    && (forall k :: k != 0 ==> (k in dirs <==> 1 <= k <= |regs| && regs[k - 1].isDir))
    && (forall k :: k in dirs && k != 0 ==> dirs[k] == RegEntry(regs[k - 1]))
  }

  /** Key 0 of the directory map holds the last directory whose path has a single component. */
  ghost predicate TopLevelKept(dirs: map<int, Entry>, regs: seq<Registration>) {
    && (0 in dirs <==> exists i :: 0 <= i < |regs| && TopLevelDir(regs[i]))
    && (0 in dirs ==>
          exists i :: 0 <= i < |regs| && TopLevelDir(regs[i]) && dirs[0] == RegEntry(regs[i]) &&
            forall j :: i < j < |regs| ==> !TopLevelDir(regs[j]))
  }

  lemma RenderLineHasNoNewline(path: string, name: string, ignoreList: seq<string>)
    requires '\n' !in name
    ensures '\n' !in RenderLine(path, name, ignoreList)
  {
    var treeDirs := Split(path, '\\');
    if |treeDirs| > 2 {
      var pad := Padding(Join(treeDirs[..|treeDirs| - 1], '/'));
      assert forall k :: 0 <= k < |pad| ==> pad[k] != '\n';
    }
  }

  /**
   * The registry invariant: each registered path is keyed by the number of lines
   * the text had before its own line was appended, so key k names line k.
   */
  lemma {:induction false} RegistryLayout(rootPath: string, ignoreList: seq<string>, events: seq<WalkEvent>)
    requires NamesWithoutNewline(events)
    ensures LaidOut(Built(rootPath, ignoreList, events), Registrations(rootPath, events), ignoreList)
    decreases |events|
  {
    if events == [] {
      assert RenderedLines([], ignoreList) == [];
    } else {
      var prev := events[..|events| - 1];
      assert forall i :: 0 <= i < |prev| ==> prev[i] == events[i];
      RegistryLayout(rootPath, ignoreList, prev);
      var reg0, regs0 := Built(rootPath, ignoreList, prev), Registrations(rootPath, prev);
      match events[|events| - 1]
      case Failure(_) =>
      case Visit(walked, name, isDir) =>
        if Registered(Stripped(rootPath, walked)) {
          assert '\n' !in name by {
            assert events[|events| - 1].Visit?;
          }
          StepLaidOut(reg0, regs0, rootPath, ignoreList, walked, name, isDir);
          assert Registrations(rootPath, events) == regs0 + [Registration(Stripped(rootPath, walked), name, isDir)];
          assert Built(rootPath, ignoreList, events) == Register(reg0, rootPath, ignoreList, Visit(walked, name, isDir));
        }
    }
  }

  /** Registering one more path keeps the layout. */
  lemma StepLaidOut(reg0: Registry, regs0: seq<Registration>, rootPath: string, ignoreList: seq<string>,
                    walked: string, name: string, isDir: bool)
    requires LaidOut(reg0, regs0, ignoreList)
    requires Registered(Stripped(rootPath, walked)) && '\n' !in name
    ensures LaidOut(Register(reg0, rootPath, ignoreList, Visit(walked, name, isDir)),
      regs0 + [Registration(Stripped(rootPath, walked), name, isDir)], ignoreList)
  {
    var path := Stripped(rootPath, walked);
    var r := Registration(path, name, isDir);
    var line := RenderLine(path, name, ignoreList);
    assert Lines(reg0.tree + "\n" + line) == [[]] + RenderedLines(regs0 + [r], ignoreList) by {
      RenderLineHasNoNewline(path, name, ignoreList);
      AppendLine(reg0.tree, line);
      SplitWithoutSeparator(line, '\n');
      assert RenderedLines(regs0 + [r], ignoreList) == RenderedLines(regs0, ignoreList) + [line];
    }
    var key := |Lines(reg0.tree)|;
    assert key == |regs0| + 1;
    StepFiles(reg0.files, regs0, r);
    StepDirs(reg0.dirs, regs0, r);
    StepTopLevel(reg0.dirs, regs0, r, key);
  }

  lemma StepFiles(files0: map<int, Entry>, regs0: seq<Registration>, r: Registration)
    requires FilesKeyed(files0, regs0)
    ensures FilesKeyed(if r.isDir then files0 else files0[|regs0| + 1 := RegEntry(r)], regs0 + [r])
  {
    var regs := regs0 + [r];
    assert forall i :: 0 <= i < |regs0| ==> regs[i] == regs0[i];
  }

  lemma StepDirs(dirs0: map<int, Entry>, regs0: seq<Registration>, r: Registration)
    requires DirsKeyed(dirs0, regs0)
    ensures var e, key := RegEntry(r), |regs0| + 1;
      DirsKeyed(if !r.isDir then dirs0 else if |Split(r.path, '\\')| == 1 then dirs0[0 := e][key := e] else dirs0[key := e],
        regs0 + [r])
  {
    var regs := regs0 + [r];
    assert forall i :: 0 <= i < |regs0| ==> regs[i] == regs0[i];
  }

  lemma StepTopLevel(dirs0: map<int, Entry>, regs0: seq<Registration>, r: Registration, key: int)
    requires TopLevelKept(dirs0, regs0) && key != 0
    ensures var e := RegEntry(r);
      TopLevelKept(if !r.isDir then dirs0 else if |Split(r.path, '\\')| == 1 then dirs0[0 := e][key := e] else dirs0[key := e],
        regs0 + [r])
  {
    var regs := regs0 + [r];
    assert forall i :: 0 <= i < |regs0| ==> regs[i] == regs0[i];
    if TopLevelDir(r) {
      assert TopLevelDir(regs[|regs0|]);
    } else if 0 in dirs0 {
      var i :| 0 <= i < |regs0| && TopLevelDir(regs0[i]) &&
        dirs0[0] == RegEntry(regs0[i]) && forall j :: i < j < |regs0| ==> !TopLevelDir(regs0[j]);
      assert TopLevelDir(regs[i]) && forall j :: i < j < |regs| ==> !TopLevelDir(regs[j]);
    }
  }

  // ------------------------------------------------------------ ignore list

  lemma TreeNameNewlines(path: string, name: string, ignoreList: seq<string>)
    ensures CountChar(TreeName(path, name, ignoreList), '\n') == CountChar(name, '\n')
  {
    var c := if Ignored(path, ignoreList) then Grey else Red;
    assert TreeName(path, name, ignoreList) == ((" " + c) + name) + Reset;
    CountCharAppend((" " + c) + name, Reset, '\n');
    CountCharAppend(" " + c, name, '\n');
    CountCharAbsent(" " + c, '\n');
    CountCharAbsent(Reset, '\n');
  }

  /** The ignore list changes a rendered line's colour, never its number of lines. */
  lemma RenderLineLines(path: string, name: string, ignore1: seq<string>, ignore2: seq<string>)
    ensures |Lines(RenderLine(path, name, ignore1))| == |Lines(RenderLine(path, name, ignore2))|
  {
    CountCharAppend(LinePrefix(path), TreeName(path, name, ignore1), '\n');
    CountCharAppend(LinePrefix(path), TreeName(path, name, ignore2), '\n');
    TreeNameNewlines(path, name, ignore1);
    TreeNameNewlines(path, name, ignore2);
    SplitLength(RenderLine(path, name, ignore1), '\n');
    SplitLength(RenderLine(path, name, ignore2), '\n');
  }

  /**
   * Ignore-list tokens never keep a path out of the registry: the entries and their
   * keys are the same whatever the ignore list.
   */
  lemma {:induction false} TokensDoNotFilter(rootPath: string, ignore1: seq<string>, ignore2: seq<string>, events: seq<WalkEvent>)
    ensures Built(rootPath, ignore1, events).files == Built(rootPath, ignore2, events).files
    ensures Built(rootPath, ignore1, events).dirs == Built(rootPath, ignore2, events).dirs
    ensures |Lines(Built(rootPath, ignore1, events).tree)| == |Lines(Built(rootPath, ignore2, events).tree)|
    decreases |events|
  {
    if events != [] {
      var prev := events[..|events| - 1];
      TokensDoNotFilter(rootPath, ignore1, ignore2, prev);
      match events[|events| - 1]
      case Failure(_) =>
      case Visit(walked, name, isDir) =>
        var path := Stripped(rootPath, walked);
        if Registered(path) {
          AppendLine(Built(rootPath, ignore1, prev).tree, RenderLine(path, name, ignore1));
          AppendLine(Built(rootPath, ignore2, prev).tree, RenderLine(path, name, ignore2));
          RenderLineLines(path, name, ignore1, ignore2);
        }
    }
  }

  /** An empty token, as `strings.Split` makes of an empty ignore string, greys every line. */
  lemma EmptyTokenGreysEveryLine(path: string, name: string, ignoreList: seq<string>)
    requires [] in ignoreList
    ensures TreeName(path, name, ignoreList) == " " + Grey + name + Reset
  {
    var k :| 0 <= k < |ignoreList| && ignoreList[k] == [];
    assert Contains(path, ignoreList[k]);
  }

  // ------------------------------------------------------------ recolouring

  /**
   * A freshly rendered line holds the red or grey code, never the `Pending`
   * code, so recolouring it from `Pending` to `Done` leaves it as it was.
   */
  lemma PendingToDoneKeepsLine(path: string, name: string, ignoreList: seq<string>)
    requires Esc !in name
    ensures ReplaceAll(RenderLine(path, name, ignoreList), Colour(Pending), Colour(Done)) ==
      RenderLine(path, name, ignoreList)
  {
    var pat, rep := Colour(Pending), Colour(Done);
    var c := if Ignored(path, ignoreList) then Grey else Red;
    var pre, tail := LinePrefix(path) + " ", c + name + Reset;
    assert RenderLine(path, name, ignoreList) == pre + tail by {
      var prefix := LinePrefix(path);
      assert TreeName(path, name, ignoreList) == [' '] + tail;
      assert prefix + ([' '] + tail) == (prefix + [' ']) + tail;
    }
    assert ReplaceAll(pre + tail, pat, rep) == pre + ReplaceAll(tail, pat, rep) by {
      PrefixWithoutEsc(path);
      ReplaceAfterPlainPrefix(pre, tail, pat, rep);
    }
    assert ReplaceAll(tail, pat, rep) == tail by {
      ColouredNameKept(c, name);
    }
  }

  /** What goes before the name holds no escape byte and no newline. */
  lemma PrefixWithoutEsc(path: string)
    ensures Esc !in LinePrefix(path) + " "
    ensures '\n' !in LinePrefix(path) + " "
  {
    var treeDirs := Split(path, '\\');
    if |treeDirs| > 2 {
      var pad := Padding(Join(treeDirs[..|treeDirs| - 1], '/'));
      assert forall k :: 0 <= k < |pad| ==> pad[k] == '_';
    }
  }

  /** A red or grey name, with its reset code, holds no Pending colour code. */
  lemma ColouredNameKept(c: string, name: string)
    requires c == Grey || c == Red
    requires Esc !in name
    ensures ReplaceAll(c + name + Reset, Colour(Pending), Colour(Done)) == c + name + Reset
  {
    var pat, rep := Colour(Pending), Colour(Done);
    var tail := c + name + Reset;
    assert tail[..5] == c;
    assert !HasPrefix(tail, pat) by {
      assert tail[..5][3] == c[3] != pat[3];
    }
    assert tail[1..] == c[1..] + name + Reset;
    ReplaceAfterPlainPrefix(c[1..] + name, Reset, pat, rep);
    ResetKept();
    assert [Esc] + (c[1..] + name + Reset) == tail;
  }

  /** The reset code holds no Pending colour code. */
  lemma ResetKept()
    ensures ReplaceAll(Reset, Colour(Pending), Colour(Done)) == Reset
  {
    var pat, rep := Colour(Pending), Colour(Done);
    assert !HasPrefix(Reset, pat);
    ReplaceAfterPlainPrefix(Reset[1..], [], pat, rep);
    assert Reset[1..] + [] == Reset[1..];
    assert [Esc] + Reset[1..] == Reset;
  }

  /** A red or grey code followed by text without an escape byte holds no Pending colour code. */
  lemma ColouredKept(c: string, w: string)
    requires c == Grey || c == Red
    requires Esc !in w
    ensures ReplaceAll(c + w, Colour(Pending), Colour(Done)) == c + w
  {
    var pat, rep := Colour(Pending), Colour(Done);
    var tail := c + w;
    assert tail[..5] == c;
    assert !HasPrefix(tail, pat) by {
      assert tail[..5][3] == c[3] != pat[3];
    }
    assert tail[1..] == c[1..] + w;
    ReplaceAfterPlainPrefix(c[1..] + w, [], pat, rep);
    assert c[1..] + w + [] == c[1..] + w;
    assert [Esc] + (c[1..] + w) == tail;
  }

  /**
   * The first line of a freshly rendered entry holds no Pending colour code, so
   * the `Pending` to `Done` recolouring leaves it as it was, even when the name
   * holds a newline and the rendering spans several lines.
   */
  lemma FirstLineKept(path: string, name: string, ignoreList: seq<string>)
    requires Esc !in name
    ensures ReplaceAll(Lines(RenderLine(path, name, ignoreList))[0], Colour(Pending), Colour(Done)) ==
      Lines(RenderLine(path, name, ignoreList))[0]
  {
    var c := if Ignored(path, ignoreList) then Grey else Red;
    var pre, tail := LinePrefix(path) + " ", name + Reset;
    var w := Split(tail, '\n')[0];
    RenderLineShape(path, name, ignoreList, c, pre, tail);
    PrefixWithoutEsc(path);
    FirstPartAfterCode(pre, c, tail);
    if '\n' in name {
      NewlineNameFirstPart(name);
      PlainFirstLineKept(pre, c, w);
    } else {
      assert w == tail by {
        SplitWithoutSeparator(tail, '\n');
      }
      PendingToDoneKeepsLine(path, name, ignoreList);
    }
  }

  /** A rendered line is its prefix, its colour code and its name with the reset code. */
  lemma RenderLineShape(path: string, name: string, ignoreList: seq<string>, c: string, pre: string, tail: string)
    requires c == (if Ignored(path, ignoreList) then Grey else Red)
    requires pre == LinePrefix(path) + " " && tail == name + Reset
    ensures RenderLine(path, name, ignoreList) == pre + (c + tail)
  {
    Regroup(LinePrefix(path), TreeName(path, name, ignoreList), c, name);
  }

  /** A prefix followed by a space, a colour code, a name and the reset code, regrouped. */
  lemma Regroup(p: string, t: string, c: string, name: string)
    requires t == " " + c + name + Reset
    ensures p + t == (p + " ") + (c + (name + Reset))
  {
  }

  /** The first line of a prefix and a colour code followed by text starts with both. */
  lemma FirstPartAfterCode(pre: string, c: string, tail: string)
    requires '\n' !in pre && (c == Grey || c == Red)
    ensures Split(pre + (c + tail), '\n')[0] == pre + (c + Split(tail, '\n')[0])
  {
    assert '\n' !in c;
    SplitFirstAfterPlain(c, tail, '\n');
    SplitFirstAfterPlain(pre, c + tail, '\n');
  }

  /** When the name holds a newline, the first line ends inside the name, before the reset code. */
  lemma NewlineNameFirstPart(name: string)
    requires Esc !in name && '\n' in name
    ensures Esc !in Split(name + Reset, '\n')[0]
  {
    var tail := name + Reset;
    var i :| 0 <= i < |name| && name[i] == '\n';
    assert tail[i] == '\n' && tail[..i] == name[..i];
    SplitAt(tail, i, '\n');
    SplitKeepsByteOut(name[..i], '\n', Esc);
  }

  /** A prefix, a red or grey code and text without escape bytes hold no Pending code. */
  lemma PlainFirstLineKept(pre: string, c: string, w: string)
    requires Esc !in pre && Esc !in w && (c == Grey || c == Red)
    ensures ReplaceAll(pre + (c + w), Colour(Pending), Colour(Done)) == pre + (c + w)
  {
    ReplaceAfterPlainPrefix(pre, c + w, Colour(Pending), Colour(Done));
    ColouredKept(c, w);
  }

  /** The first line of entry `e`'s rendering. */
  ghost function FirstLine(e: Entry, ignoreList: seq<string>): string {
    Lines(RenderLine(e.path, e.Name, ignoreList))[0]
  }

  /**
   * Every entry is `Pending`, and every file key and every directory key but 0
   * is the number of the line on which its entry's rendering starts.
   */
  ghost predicate KeysNameLines(reg: Registry, ignoreList: seq<string>) {
    && (forall k :: k in reg.files ==>
          0 <= k < |Lines(reg.tree)| && Lines(reg.tree)[k] == FirstLine(reg.files[k], ignoreList) &&
          reg.files[k].Status == Pending)
    && (forall k :: k in reg.dirs && k != 0 ==>
          0 <= k < |Lines(reg.tree)| && Lines(reg.tree)[k] == FirstLine(reg.dirs[k], ignoreList))
    && (forall k :: k in reg.dirs ==> reg.dirs[k].Status == Pending)
  }

  /** A callback call keeps every key on the first line of its entry's rendering. */
  lemma RegisterKeepsLines(reg: Registry, rootPath: string, ignoreList: seq<string>, ev: WalkEvent)
    requires KeysNameLines(reg, ignoreList)
    ensures KeysNameLines(Register(reg, rootPath, ignoreList, ev), ignoreList)
  {
    if ev.Visit? && Registered(Stripped(rootPath, ev.path)) {
      var path := Stripped(rootPath, ev.path);
      var line := RenderLine(path, ev.name, ignoreList);
      var e := Entry(ev.name, path, Pending);
      var key := |Lines(reg.tree)|;
      var lines := Lines(reg.tree + "\n" + line);
      AppendLine(reg.tree, line);
      assert lines[key] == FirstLine(e, ignoreList);
      assert forall k :: 0 <= k < key ==> lines[k] == Lines(reg.tree)[k];
    }
  }

  /** However names are formed, each key of the built registry names the first line of its entry. */
  lemma {:induction false} KeysNameTheirLines(rootPath: string, ignoreList: seq<string>, events: seq<WalkEvent>)
    ensures KeysNameLines(Built(rootPath, ignoreList, events), ignoreList)
    decreases |events|
  {
    if events != [] {
      KeysNameTheirLines(rootPath, ignoreList, events[..|events| - 1]);
      RegisterKeepsLines(Built(rootPath, ignoreList, events[..|events| - 1]), rootPath, ignoreList, events[|events| - 1]);
    }
  }

  /** A byte that no walked name holds is in no registered name. */
  lemma {:induction false} EntryNamesWithout(rootPath: string, ignoreList: seq<string>, events: seq<WalkEvent>, c: char)
    requires forall i :: 0 <= i < |events| && events[i].Visit? ==> c !in events[i].name
    ensures forall k :: k in Built(rootPath, ignoreList, events).files ==> c !in Built(rootPath, ignoreList, events).files[k].Name
    ensures forall k :: k in Built(rootPath, ignoreList, events).dirs ==> c !in Built(rootPath, ignoreList, events).dirs[k].Name
    decreases |events|
  {
    if events != [] {
      var prev := events[..|events| - 1];
      assert forall i :: 0 <= i < |prev| ==> prev[i] == events[i];
      EntryNamesWithout(rootPath, ignoreList, prev, c);
    }
  }

  /**
   * Every file entry of a fresh registry is `Pending`, its key names a line, and
   * that line is left as it was by the `Pending` to `Done` recolouring that
   * counting a file performs, whenever no walked name holds an escape byte.
   */
  lemma FreshFileLineIgnoresDone(rootPath: string, ignoreList: seq<string>, events: seq<WalkEvent>, k: int)
    requires forall i :: 0 <= i < |events| && events[i].Visit? ==> Esc !in events[i].name
    requires k in Built(rootPath, ignoreList, events).files
    ensures var reg := Built(rootPath, ignoreList, events);
      reg.files[k].Status == Pending && 0 <= k < |Lines(reg.tree)| &&
      ReplaceAll(Lines(reg.tree)[k], Colour(reg.files[k].Status), Colour(Done)) == Lines(reg.tree)[k]
  {
    var reg := Built(rootPath, ignoreList, events);
    KeysNameTheirLines(rootPath, ignoreList, events);
    EntryNamesWithout(rootPath, ignoreList, events, Esc);
    var e := reg.files[k];
    FirstLineKept(e.path, e.Name, ignoreList);
  }

  // ------------------------------------------------------------ root stripping

  lemma NoDotNoSumSuffix(p: string)
    requires '.' !in p
    ensures !HasSuffix(p, ".sum")
  {
    if |p| >= 4 {
      assert p[|p| - 4..][0] == p[|p| - 4] != '.';
    }
  }

  /**
   * Illustrations of the path pattern on fixed walked paths: a dot-directory's own
   * line is kept, and the paths below a name holding a dot are dropped.
   */
  lemma PatternExamples()
    ensures Registered("\\.git")
    ensures !Registered("\\.git\\HEAD")
    ensures !Registered("\\v1.2\\main.go")
  {
    var git := "\\.git";
    assert forall j :: 0 <= j < |git| && git[j] == '\\' ==> j == 0;
    var head := "\\.git\\HEAD";
    assert head[1] == '.' && head[5] == '\\' && forall k :: 1 < k < 5 ==> !IsRegexpSpace(head[k]);
    var main := "\\v1.2\\main.go";
    assert main[3] == '.' && main[5] == '\\' && !IsRegexpSpace(main[4]);
  }

  /** An illustration: whitespace between a dot and the next backslash keeps the path. */
  lemma SpacedDotKept()
    ensures Registered("\\a. b\\c.go")
  {
    var p := "\\a. b\\c.go";
    assert IsRegexpSpace(p[3]);
    assert forall j :: 0 <= j < |p| && p[j] == '\\' ==> j == 0 || j == 5;
  }

  /**
   * The root path is removed wherever it occurs, not only in front. With the
   * default root ".", that removes every dot, so neither the ".sum" test nor the
   * pattern ever fires and every walked path is registered.
   */
  lemma DotRootRegistersEverything(walked: string)
    ensures '.' !in Stripped(".", walked)
    ensures Registered(Stripped(".", walked))
  {
    StripByteRemovesAll(walked, ".");
    NoDotNoSumSuffix(Stripped(".", walked));
  }
}
