/**
 * Package `count` (count/count.go): the directory walker that counts lines, run
 * here one entry after another. The goroutines and channels that the program uses
 * to run entries side by side are not modelled: every place that starts a
 * goroutine and then waits for it becomes a plain call, in the order the entries
 * are listed, so `Files` and `Dirs` come out in one of the orders the program can
 * produce.
 *
 * The filesystem is an in-memory tree of `Node`s; `utf8.Valid` is a predicate the
 * caller supplies; the context's cancel function is a first-write-wins cell.
 */
module Count {
  import opened Wrappers
  import opened GoStrings
  import opened Utils
  import FileTree

  // -------------------------------------------------------------------- data

  /** What `os.ReadFile` gives for a file: a failure, or the file's bytes. */
  datatype FileData = Unreadable | Bytes(content: string)

  /**
   * A directory entry as `os.ReadDir` reports it. For a directory, `listFails`
   * says that listing it reports an error, and `entries` are the entries the
   * listing returns all the same, in the listing's (name) order.
   */
  datatype Node =
    | Dir(name: string, listFails: bool, entries: seq<Node>)
    | File(name: string, data: FileData)

  /** The cause recorded by the context's cancel function. */
  datatype Cause = Canceled | IoError(path: string)

  /**
   * The arguments every walker function receives. `utf8Valid` stands for
   * `utf8.Valid`; the `recursive` flag is passed along by the program but never
   * read, so it is not here.
   */
  datatype Settings = Settings(ignoreList: seq<string>, includeBlanks: bool, includeComments: bool, utf8Valid: string -> bool)

  /**
   * How a directory with five or more entries is cut into four slices:
   * `AsWritten` is the program's arithmetic, `Balanced` the contiguous split into
   * slices whose sizes differ by at most one, and `ListingOrder` processes every
   * entry once, in listing order (the reference the other two are compared with).
   */
  datatype SplitRule = AsWritten | Balanced | ListingOrder

  /** What a walk adds to the result, and the causes it passes to cancel. */
  datatype Tally = Tally(count: nat, files: seq<string>, dirs: seq<string>, errors: seq<Cause>)
  {
    function Then(next: Tally): Tally {
      Tally(count + next.count, files + next.files, dirs + next.dirs, errors + next.errors)
    }
  }

  const Nothing: Tally := Tally(0, [], [], [])

  /** The cause a first-write-wins cancel function holds after being called with `fired`, in order. */
  function Settle(cause: Option<Cause>, fired: seq<Cause>): Option<Cause> {
    if cause.Some? || fired == [] then cause else Some(fired[0])
  }

  lemma SettleTwice(cause: Option<Cause>, first: seq<Cause>, second: seq<Cause>)
    ensures Settle(Settle(cause, first), second) == Settle(cause, first + second)
  {
    if cause.None? && first != [] {
      assert (first + second)[0] == first[0];
    }
  }

  lemma ThenAssociates(a: Tally, b: Tally, c: Tally)
    ensures a.Then(b).Then(c) == a.Then(b.Then(c))
  {
    assert a.files + b.files + c.files == a.files + (b.files + c.files);
    assert a.dirs + b.dirs + c.dirs == a.dirs + (b.dirs + c.dirs);
    assert a.errors + b.errors + c.errors == a.errors + (b.errors + c.errors);
  }

  // ---------------------------------------------------------- per-entry rules

  /** A directory is skipped when its name starts with "." or equals an ignore-list token. */
  predicate DirSkipped(name: string, ignoreList: seq<string>) {
    HasPrefix(name, ".") || name in ignoreList
  }

  /** A file is skipped when its name ends in ".sum" or equals an ignore-list token. */
  predicate FileSkipped(name: string, ignoreList: seq<string>) {
    HasSuffix(name, ".sum") || name in ignoreList
  }

  /** The line filter: blank lines go unless included, comment-like lines unless included. */
  predicate KeepLine(line: string, includeBlanks: bool, includeComments: bool) {
    !(!includeBlanks && line == []) &&
    !(!includeComments && (HasPrefix(line, "//") || HasPrefix(line, "/*") || HasSuffix(line, "*/")))
  }

  function LineFilter(includeBlanks: bool, includeComments: bool): string -> bool {
    line => KeepLine(line, includeBlanks, includeComments)
  }

  /** The lines of a file's text that are counted. */
  function KeptLines(content: string, includeBlanks: bool, includeComments: bool): seq<string> {
    Filtered(Split(content, '\n'), LineFilter(includeBlanks, includeComments))
  }

  /**
   * `path.Join(dir, name)` for the non-empty base names a listing returns. An
   * empty directory and the directory "." both leave the name alone, as the
   * clean-up of `path.Join` does; the rest of that clean-up (".." elements,
   * doubled and trailing slashes) is not modelled.
   */
  function JoinPath(dir: string, name: string): string {
    if dir == [] || dir == "." then name else dir + "/" + name
  }

  // ------------------------------------------------------------- the schedule

  /** A range `[lo, hi)` of positions in a directory's listing. */
  type Range = (nat, nat)

  /** First position of slice `i` of `n` entries. */
  function SliceStart(n: nat, i: nat, rule: SplitRule): nat {
    if rule == AsWritten then i * (n / 4)
    else i * (n / 4) + (if i < n % 4 then i else n % 4)
  }

  /** One past the last position of slice `i` of `n` entries. */
  function SliceEnd(n: nat, i: nat, rule: SplitRule): nat {
    if rule == AsWritten then (i + 1) * (n / 4) + (if i < n % 4 then 1 else 0)
    else (i + 1) * (n / 4) + (if i + 1 < n % 4 then i + 1 else n % 4)
  }

  /** Every slice bound lies within `0..n`, and no slice ends before it starts. */
  lemma SliceBounds(n: nat, i: nat, rule: SplitRule)
    requires n > 4 && i < 4
    ensures 0 <= SliceStart(n, i, rule) <= SliceEnd(n, i, rule) <= n
  {
    var d, m := n / 4, n % 4;
    assert n == 4 * d + m;
    if i == 0 {
      assert SliceStart(n, i, rule) == 0;
    } else if i == 1 {
      assert SliceStart(n, i, rule) <= d + 1 && SliceEnd(n, i, rule) <= 2 * d + 2;
    } else if i == 2 {
      assert SliceStart(n, i, rule) <= 2 * d + 2 && SliceEnd(n, i, rule) <= 3 * d + 3;
    } else {
      assert SliceEnd(n, i, rule) == 4 * d + (if rule == AsWritten then 0 else m);
    }
  }

  /** Slice `i` of `n > 4` entries as a range. */
  function SliceRange(n: nat, i: nat, rule: SplitRule): (r: Range)
    requires n > 4 && i < 4
    ensures r.0 <= r.1 <= n
  {
    SliceBounds(n, i, rule);
    (SliceStart(n, i, rule), SliceEnd(n, i, rule))
  }

  /**
   * The four slices of `n > 4` entries, in the order they are processed: the
   * first starts at the front of the listing, each lies within it, and the last
   * ends at the end of the listing, except that the program's arithmetic stops
   * it `n % 4` entries short.
   */
  function Quarters(n: nat, rule: SplitRule): (r: seq<Range>)
    requires n > 4
    ensures |r| == 4 && forall k :: 0 <= k < 4 ==> r[k] == SliceRange(n, k, rule)
    ensures r[0].0 == 0 && forall k :: 0 <= k < 4 ==> r[k].0 <= r[k].1 <= n
    ensures r[3].1 == if rule == AsWritten then n - n % 4 else n
  {
    [SliceRange(n, 0, rule), SliceRange(n, 1, rule), SliceRange(n, 2, rule), SliceRange(n, 3, rule)]
  }

  /** The ranges follow one another without gap or overlap, from `lo` to `hi`. */
  predicate Consecutive(ranges: seq<Range>, lo: nat, hi: nat)
    decreases |ranges|
  {
    if ranges == [] then lo == hi
    else
      var last := ranges[|ranges| - 1];
      last.1 == hi && last.0 <= hi && Consecutive(ranges[..|ranges| - 1], lo, last.0)
  }

  lemma ConsecutiveFour(a: nat, b: nat, c: nat, d: nat, e: nat)
    requires a <= b <= c <= d <= e
    ensures Consecutive([(a, b), (b, c), (c, d), (d, e)], a, e)
  {
    var r1: seq<Range> := [(a, b)];
    var r2 := r1 + [(b, c)];
    var r3 := r2 + [(c, d)];
    var r4 := r3 + [(d, e)];
    assert r1[..0] == [];
    assert Consecutive(r1, a, b);
    assert r2[..1] == r1;
    assert Consecutive(r2, a, c);
    assert r3[..2] == r2;
    assert Consecutive(r3, a, d);
    assert r4[..3] == r3;
    assert r4 == [(a, b), (b, c), (c, d), (d, e)];
  }

  /** Whether slice `i` of `n` entries holds position `j`. */
  predicate InSlice(n: nat, i: nat, j: nat, rule: SplitRule) {
    SliceStart(n, i, rule) <= j < SliceEnd(n, i, rule)
  }

  /** In how many of the four slices position `j` lies. */
  function Coverage(n: nat, j: nat, rule: SplitRule): nat {
    (if InSlice(n, 0, j, rule) then 1 else 0) + (if InSlice(n, 1, j, rule) then 1 else 0) +
    (if InSlice(n, 2, j, rule) then 1 else 0) + (if InSlice(n, 3, j, rule) then 1 else 0)
  }

  /**
   * How often the program processes entry `j` of `n > 4`: never for the last
   * `n % 4` entries; twice for the first entry of slice `i + 1` when slice `i`
   * takes one extra entry (`i < n % 4`); once otherwise.
   */
  function AsWrittenVisits(n: nat, j: nat): nat {
    var d, m := n / 4, n % 4;
    if j >= 4 * d then 0
    else if (j == d && m >= 1) || (j == 2 * d && m >= 2) || (j == 3 * d && m >= 3) then 2
    else 1
  }

  /** The program's slices skip and repeat entries exactly as `AsWrittenVisits` says. */
  lemma AsWrittenCoverage(n: nat, j: nat)
    requires n > 4 && j < n
    ensures Coverage(n, j, AsWritten) == AsWrittenVisits(n, j)
  {
    var d, m := n / 4, n % 4;
    assert n == 4 * d + m && d >= 1;
    assert SliceStart(n, 1, AsWritten) == d && SliceStart(n, 2, AsWritten) == 2 * d;
    assert SliceStart(n, 3, AsWritten) == 3 * d;
    assert SliceEnd(n, 0, AsWritten) == d + (if 0 < m then 1 else 0);
    assert SliceEnd(n, 1, AsWritten) == 2 * d + (if 1 < m then 1 else 0);
    assert SliceEnd(n, 2, AsWritten) == 3 * d + (if 2 < m then 1 else 0);
    assert SliceEnd(n, 3, AsWritten) == 4 * d;
  }

  /** The balanced slices hold every position exactly once. */
  lemma BalancedCoverage(n: nat, j: nat)
    requires n > 4 && j < n
    ensures Coverage(n, j, Balanced) == 1
  {
    var d, m := n / 4, n % 4;
    assert n == 4 * d + m && d >= 1;
    assert SliceStart(n, 0, Balanced) == 0;
    assert SliceStart(n, 1, Balanced) == SliceEnd(n, 0, Balanced) == d + (if 0 < m then 1 else 0);
    assert SliceStart(n, 2, Balanced) == SliceEnd(n, 1, Balanced) == 2 * d + (if 1 < m then 2 else m);
    assert SliceStart(n, 3, Balanced) == SliceEnd(n, 2, Balanced) == 3 * d + (if 2 < m then 3 else m);
    assert SliceEnd(n, 3, Balanced) == 4 * d + m;
  }

  /** When four divides the number of entries, the program's slices run through the listing once, in order. */
  lemma QuartersInOrderWhenDivisible(n: nat)
    requires n > 4 && n % 4 == 0
    ensures Consecutive(Quarters(n, AsWritten), 0, n)
  {
    var d := n / 4;
    assert n == 4 * d;
    assert Quarters(n, AsWritten) == [(0, d), (d, 2 * d), (2 * d, 3 * d), (3 * d, n)];
    ConsecutiveFour(0, d, 2 * d, 3 * d, n);
  }

  /**
   * The balanced slices run through the listing once, in order, and hold
   * `n / 4` or `n / 4 + 1` entries each.
   */
  lemma BalancedQuarters(n: nat)
    requires n > 4
    ensures Consecutive(Quarters(n, Balanced), 0, n)
    ensures forall k :: 0 <= k < 4 ==> n / 4 <= Quarters(n, Balanced)[k].1 - Quarters(n, Balanced)[k].0 <= n / 4 + 1
  {
    var d, m := n / 4, n % 4;
    assert n == 4 * d + m;
    var b1, b2, b3 := d + (if 0 < m then 1 else 0), 2 * d + (if 1 < m then 2 else m), 3 * d + (if 2 < m then 3 else m);
    assert Quarters(n, Balanced) == [(0, b1), (b1, b2), (b2, b3), (b3, n)];
    ConsecutiveFour(0, b1, b2, b3, n);
  }

  /**
   * With five entries the program's slices are [0, 2), [1, 2), [2, 3) and [3, 4):
   * entry 1 is processed twice and entry 4 never.
   */
  lemma FiveEntriesScheduled()
    ensures Quarters(5, AsWritten) == [(0, 2), (1, 2), (2, 3), (3, 4)]
  {
    assert SliceStart(5, 1, AsWritten) == 1 && SliceEnd(5, 0, AsWritten) == 2;
    assert SliceStart(5, 2, AsWritten) == 2 && SliceEnd(5, 1, AsWritten) == 2;
    assert SliceStart(5, 3, AsWritten) == 3 && SliceEnd(5, 2, AsWritten) == 3;
    assert SliceEnd(5, 3, AsWritten) == 4;
  }

  // ------------------------------------------------------- the walk, as values

  /** The file is counted: not skipped, readable, and valid UTF-8. */
  predicate FileCounted(s: Settings, e: Node)
    requires e.File?
  {
    !FileSkipped(e.name, s.ignoreList) && e.data.Bytes? && s.utf8Valid(e.data.content)
  }

  /** What processing one entry of directory `dir` adds (`processEntry`). */
  function EntryTally(s: Settings, rule: SplitRule, dir: string, e: Node): Tally
    decreases e, 4
  {
    var path := JoinPath(dir, e.name);
    match e
    case Dir(name, _, _) =>
      if DirSkipped(name, s.ignoreList) then Nothing
      else DirTally(s, rule, path, e).Then(Tally(0, [], [name], []))
    case File(name, data) =>
      if FileSkipped(name, s.ignoreList) then Nothing
      else
        match data
        case Unreadable => Tally(0, [], [], [IoError(path)])
        case Bytes(content) =>
          if s.utf8Valid(content) then Tally(|KeptLines(content, s.includeBlanks, s.includeComments)|, [name], [], [])
          else Nothing
  }

  /** What walking directory `d` at `path` adds (`dirLineCounter`, not at the root). */
  function DirTally(s: Settings, rule: SplitRule, path: string, d: Node): Tally
    requires d.Dir?
    decreases d, 3
  {
    var listing := if d.listFails then Tally(0, [], [], [IoError(path)]) else Nothing;
    listing.Then(ListingTally(s, rule, path, d))
  }

  /**
   * What processing the listed entries of `d` adds: up to four entries (or any
   * number under `ListingOrder`) one after another, from five on the four slices.
   */
  function ListingTally(s: Settings, rule: SplitRule, path: string, d: Node): Tally
    requires d.Dir?
    decreases d, 2
  {
    if |d.entries| <= 4 || rule == ListingOrder then RangeTally(s, rule, path, d, 0, |d.entries|)
    else RangesTally(s, rule, path, d, Quarters(|d.entries|, rule))
  }

  /** What processing the given ranges of `d`'s entries, one after another, adds. */
  function RangesTally(s: Settings, rule: SplitRule, path: string, d: Node, ranges: seq<Range>): Tally
    requires d.Dir?
    decreases d, 1, |ranges|
  {
    if ranges == [] then Nothing
    else
      var last := ranges[|ranges| - 1];
      RangesTally(s, rule, path, d, ranges[..|ranges| - 1]).Then(RangeTally(s, rule, path, d, last.0, last.1))
  }

  /**
   * What processing entries `lo` to `hi` of `d`, one after another, adds
   * (`processEntries`); a range that is empty or runs past the listing adds nothing.
   */
  function RangeTally(s: Settings, rule: SplitRule, path: string, d: Node, lo: nat, hi: nat): Tally
    requires d.Dir?
    decreases d, 0, hi - lo
  {
    if hi <= lo || |d.entries| < hi then Nothing
    else RangeTally(s, rule, path, d, lo, hi - 1).Then(EntryTally(s, rule, path, d.entries[hi - 1]))
  }

  lemma NothingThen(t: Tally)
    ensures Nothing.Then(t) == t && t.Then(Nothing) == t
  {
    assert [] + t.files == t.files && t.files + [] == t.files;
    assert [] + t.dirs == t.dirs && t.dirs + [] == t.dirs;
    assert [] + t.errors == t.errors && t.errors + [] == t.errors;
  }

  lemma {:induction false} RangeTallySplit(s: Settings, rule: SplitRule, path: string, d: Node, lo: nat, mid: nat, hi: nat)
    requires d.Dir? && lo <= mid <= hi <= |d.entries|
    ensures RangeTally(s, rule, path, d, lo, hi) ==
      RangeTally(s, rule, path, d, lo, mid).Then(RangeTally(s, rule, path, d, mid, hi))
    decreases hi
  {
    if mid == hi {
      NothingThen(RangeTally(s, rule, path, d, lo, mid));
    } else {
      var e := EntryTally(s, rule, path, d.entries[hi - 1]);
      assert RangeTally(s, rule, path, d, lo, hi) == RangeTally(s, rule, path, d, lo, hi - 1).Then(e);
      assert RangeTally(s, rule, path, d, mid, hi) == RangeTally(s, rule, path, d, mid, hi - 1).Then(e);
      RangeTallySplit(s, rule, path, d, lo, mid, hi - 1);
      ThenAssociates(RangeTally(s, rule, path, d, lo, mid), RangeTally(s, rule, path, d, mid, hi - 1),
        EntryTally(s, rule, path, d.entries[hi - 1]));
    }
  }

  /** Consecutive ranges from `lo` to `hi` process exactly the entries `lo` to `hi`, in order. */
  lemma {:induction false} ConsecutiveTally(s: Settings, rule: SplitRule, path: string, d: Node, ranges: seq<Range>, lo: nat, hi: nat)
    requires d.Dir? && Consecutive(ranges, lo, hi) && hi <= |d.entries|
    ensures lo <= hi
    ensures RangesTally(s, rule, path, d, ranges) == RangeTally(s, rule, path, d, lo, hi)
    decreases |ranges|
  {
    if ranges != [] {
      var init, last := ranges[..|ranges| - 1], ranges[|ranges| - 1];
      ConsecutiveTally(s, rule, path, d, init, lo, last.0);
      RangeTallySplit(s, rule, path, d, lo, last.0, hi);
    }
  }

  /** Four ranges are processed one after another. */
  lemma RangesTallyFour(s: Settings, rule: SplitRule, path: string, d: Node, r: seq<Range>)
    requires d.Dir? && |r| == 4
    ensures RangesTally(s, rule, path, d, r) ==
      RangeTally(s, rule, path, d, r[0].0, r[0].1).Then(RangeTally(s, rule, path, d, r[1].0, r[1].1))
        .Then(RangeTally(s, rule, path, d, r[2].0, r[2].1)).Then(RangeTally(s, rule, path, d, r[3].0, r[3].1))
  {
    var p0: seq<Range> := [];
    var p1 := p0 + [r[0]];
    var p2 := p1 + [r[1]];
    var p3 := p2 + [r[2]];
    assert p3 + [r[3]] == r;
    RangesTallySnoc(s, rule, path, d, p0, r[0]);
    RangesTallySnoc(s, rule, path, d, p1, r[1]);
    RangesTallySnoc(s, rule, path, d, p2, r[2]);
    RangesTallySnoc(s, rule, path, d, p3, r[3]);
    NothingThen(RangeTally(s, rule, path, d, r[0].0, r[0].1));
  }

  /** One more range is processed after the others. */
  lemma RangesTallySnoc(s: Settings, rule: SplitRule, path: string, d: Node, r: seq<Range>, x: Range)
    requires d.Dir?
    ensures RangesTally(s, rule, path, d, r + [x]) == RangesTally(s, rule, path, d, r).Then(RangeTally(s, rule, path, d, x.0, x.1))
  {
    assert (r + [x])[..|r|] == r;
  }

  /** A range of one entry processes that entry. */
  lemma OneEntryRange(s: Settings, rule: SplitRule, path: string, d: Node, k: nat)
    requires d.Dir? && k < |d.entries|
    ensures RangeTally(s, rule, path, d, k, k + 1) == EntryTally(s, rule, path, d.entries[k])
  {
    NothingThen(EntryTally(s, rule, path, d.entries[k]));
  }

  /** A single entry is processed on its own. */
  lemma SingleEntry(s: Settings, rule: SplitRule, path: string, d: Node)
    requires d.Dir? && |d.entries| == 1
    ensures RangeTally(s, rule, path, d, 0, 1) == EntryTally(s, rule, path, d.entries[0])
  {
    NothingThen(EntryTally(s, rule, path, d.entries[0]));
  }

  // ------------------------------------------------------------ the walker state

  /** `Result`: the line count and the names of the files and directories counted. */
  class Result {
    var Count: int
    var Files: seq<string>
    var Dirs: seq<string>

    constructor ()
      ensures Count == 0 && Files == [] && Dirs == []
    {
      Count, Files, Dirs := 0, [], [];
    }
  }

  /** The context's cancel function: the first call decides the cause; later calls change nothing. */
  class Cancellation {
    var cause: Option<Cause>

    constructor ()
      ensures cause == None
    {
      cause := None;
    }

    method Cancel(c: Cause)
      modifies this
      ensures cause == Settle(old(cause), [c])
    {
      if cause.None? {
        cause := Some(c);
      }
    }
  }

  /** The running totals `result` and `cancel` hold between them. */
  datatype Totals = Totals(count: int, files: seq<string>, dirs: seq<string>, cause: Option<Cause>)
  {
    function Add(t: Tally): Totals {
      Totals(count + t.count, files + t.files, dirs + t.dirs, Settle(cause, t.errors))
    }
  }

  /** Adding two tallies one after the other is adding what they make together. */
  lemma AddThen(x: Totals, first: Tally, second: Tally)
    ensures x.Add(first).Add(second) == x.Add(first.Then(second))
  {
    SettleTwice(x.cause, first.errors, second.errors);
  }

  function Snapshot(result: Result, cancel: Cancellation): Totals
    reads result, cancel
  {
    Totals(result.Count, result.Files, result.Dirs, cancel.cause)
  }

  /** The result and the cancel function have advanced by `t` since the call began. */
  twostate predicate Advanced(result: Result, cancel: Cancellation, t: Tally)
    reads result, cancel
  {
    Snapshot(result, cancel) == old(Snapshot(result, cancel)).Add(t)
  }

  /** The tree keeps its keys, its directories and its number of lines. */
  twostate predicate TreeKept(tree: FileTree.FileTree)
    reads tree
  {
    tree.Valid() &&
    tree.Directories == old(tree.Directories) &&
    tree.Files.Keys == old(tree.Files.Keys) &&
    |FileTree.Lines(tree.Tree)| == |FileTree.Lines(old(tree.Tree))|
  }

  // ------------------------------------------------------------- the walker

  /**
   * `processEntry`: skips an excluded entry; walks a directory and then records
   * its name; reads a file, passing a read error to cancel, and for valid UTF-8
   * counts its kept lines, marks it done in the tree and records its name.
   */
  method ProcessEntry(s: Settings, dir: string, entry: Node, result: Result, cancel: Cancellation, tree: FileTree.FileTree)
    requires tree.Valid()
    modifies result, cancel, tree
    ensures Advanced(result, cancel, EntryTally(s, AsWritten, dir, entry))
    ensures TreeKept(tree)
    decreases entry, 5
  {
    var entryPath := JoinPath(dir, entry.name);
    match entry
    case Dir(name, _, _) =>
      if HasPrefix(name, ".") || name in s.ignoreList {
        return;
      }
      DirLineCounter(s, false, entryPath, entry, result, cancel, tree);
      result.Dirs := result.Dirs + [name];
    case File(name, data) =>
      if HasSuffix(name, ".sum") || name in s.ignoreList {
        return;
      }
      match data
      case Unreadable =>
        cancel.Cancel(IoError(entryPath));
      case Bytes(fileContent) =>
        if s.utf8Valid(fileContent) {
          var contentLines := Filter(Split(fileContent, '\n'), LineFilter(s.includeBlanks, s.includeComments));
          tree.ChangeFileStatus(entryPath, FileTree.Done);
          result.Files := result.Files + [name];
          result.Count := result.Count + |contentLines|;
        }
  }

  /**
   * `processEntries`: processes a slice of a directory's entries one after
   * another; the slice is `parent`'s entries `lo` to `hi`.
   */
  method ProcessEntries(s: Settings, dir: string, ghost parent: Node, ghost lo: nat, ghost hi: nat, entries: seq<Node>,
                        result: Result, cancel: Cancellation, tree: FileTree.FileTree)
    requires parent.Dir? && lo <= hi <= |parent.entries| && entries == parent.entries[lo..hi]
    requires tree.Valid()
    modifies result, cancel, tree
    ensures Advanced(result, cancel, RangeTally(s, AsWritten, dir, parent, lo, hi))
    ensures TreeKept(tree)
    decreases parent, 0
  {
    for i := 0 to |entries|
      invariant Advanced(result, cancel, RangeTally(s, AsWritten, dir, parent, lo, lo + i))
      invariant TreeKept(tree)
    {
      assert entries[i] == parent.entries[lo + i];
      ProcessEntry(s, dir, entries[i], result, cancel, tree);
      RangeTallyStep(s, AsWritten, dir, parent, lo, i, old(Snapshot(result, cancel)));
    }
  }

  /** One more entry of a range, as seen from the running totals. */
  lemma RangeTallyStep(s: Settings, rule: SplitRule, path: string, d: Node, lo: nat, i: nat, start: Totals)
    requires d.Dir? && lo + i < |d.entries|
    ensures start.Add(RangeTally(s, rule, path, d, lo, lo + i)).Add(EntryTally(s, rule, path, d.entries[lo + i])) ==
            start.Add(RangeTally(s, rule, path, d, lo, lo + (i + 1)))
  {
    var before := RangeTally(s, rule, path, d, lo, lo + i);
    var e := EntryTally(s, rule, path, d.entries[lo + i]);
    assert RangeTally(s, rule, path, d, lo, lo + (i + 1)) == before.Then(e);
    AddThen(start, before, e);
  }

  /**
   * `splits` of `dirLineCounter`: four slices, slice `i` running from `i * div`
   * to `(i + 1) * div`, plus one more entry when `i < mod`.
   */
  method SplitEntries(entries: seq<Node>) returns (splits: seq<seq<Node>>)
    requires |entries| > 4
    ensures |splits| == 4
    ensures forall i :: 0 <= i < 4 ==>
      splits[i] == entries[i * (|entries| / 4)..(i + 1) * (|entries| / 4) + (if i < |entries| % 4 then 1 else 0)]
    ensures forall i :: 0 <= i < 4 ==>
      splits[i] == entries[SliceRange(|entries|, i, AsWritten).0..SliceRange(|entries|, i, AsWritten).1]
  {
    var mod := |entries| % 4;
    var div := |entries| / 4;
    splits := [];
    for i := 0 to 4
      invariant |splits| == i
      invariant forall k :: 0 <= k < i ==>
        splits[k] == entries[SliceRange(|entries|, k, AsWritten).0..SliceRange(|entries|, k, AsWritten).1]
    {
      var addition := 0;
      if i < mod {
        addition := 1;
      }
      SliceBounds(|entries|, i, AsWritten);
      splits := splits + [entries[i * div..(i + 1) * div + addition]];
    }
  }

  /**
   * The loop of `dirLineCounter` over `splits`: one `processEntries` call per
   * slice, in order; slice `i` is `node`'s entries in `ranges[i]`.
   */
  method ProcessSplits(s: Settings, dir: string, node: Node, ghost ranges: seq<Range>, splits: seq<seq<Node>>,
                       result: Result, cancel: Cancellation, tree: FileTree.FileTree)
    requires node.Dir? && |splits| == |ranges|
    requires forall i :: 0 <= i < |ranges| ==>
      ranges[i].0 <= ranges[i].1 <= |node.entries| && splits[i] == node.entries[ranges[i].0..ranges[i].1]
    requires tree.Valid()
    modifies result, cancel, tree
    ensures Advanced(result, cancel, RangesTally(s, AsWritten, dir, node, ranges))
    ensures TreeKept(tree)
    decreases node, 1
  {
    for i := 0 to |splits|
      invariant Advanced(result, cancel, RangesTally(s, AsWritten, dir, node, ranges[..i]))
      invariant TreeKept(tree)
    {
      ProcessEntries(s, dir, node, ranges[i].0, ranges[i].1, splits[i], result, cancel, tree);
      RangesTallyStep(s, AsWritten, dir, node, ranges, i, old(Snapshot(result, cancel)));
    }
    assert ranges[..|splits|] == ranges;
  }

  /** One more slice, as seen from the running totals. */
  lemma RangesTallyStep(s: Settings, rule: SplitRule, path: string, d: Node, ranges: seq<Range>, i: nat, start: Totals)
    requires d.Dir? && i < |ranges|
    ensures start.Add(RangesTally(s, rule, path, d, ranges[..i])).Add(RangeTally(s, rule, path, d, ranges[i].0, ranges[i].1)) ==
            start.Add(RangesTally(s, rule, path, d, ranges[..i + 1]))
  {
    var before := RangesTally(s, rule, path, d, ranges[..i]);
    var r := RangeTally(s, rule, path, d, ranges[i].0, ranges[i].1);
    assert ranges[..i + 1][..i] == ranges[..i];
    assert RangesTally(s, rule, path, d, ranges[..i + 1]) == before.Then(r);
    AddThen(start, before, r);
  }

  /**
   * The branch of `dirLineCounter` for five or more entries: cuts the entries
   * into four slices and processes the slices in order.
   */
  method ProcessQuarters(s: Settings, dir: string, node: Node, entries: seq<Node>,
                         result: Result, cancel: Cancellation, tree: FileTree.FileTree)
    requires node.Dir? && entries == node.entries && |entries| > 4
    requires tree.Valid()
    modifies result, cancel, tree
    ensures Advanced(result, cancel, RangesTally(s, AsWritten, dir, node, Quarters(|entries|, AsWritten)))
    ensures TreeKept(tree)
    decreases node, 2
  {
    var splits := SplitEntries(entries);
    ProcessSplits(s, dir, node, Quarters(|entries|, AsWritten), splits, result, cancel, tree);
  }

  /**
   * The dispatch of `dirLineCounter` on the number of listed entries: none is
   * nothing to do, a single entry is processed directly, two to four entries one
   * after another, five or more as four slices, each slice in order.
   */
  method DispatchEntries(s: Settings, dir: string, node: Node, entries: seq<Node>,
                         result: Result, cancel: Cancellation, tree: FileTree.FileTree)
    requires node.Dir? && entries == node.entries
    requires tree.Valid()
    modifies result, cancel, tree
    ensures Advanced(result, cancel, ListingTally(s, AsWritten, dir, node))
    ensures TreeKept(tree)
    decreases node, 3
  {
    if |entries| > 1 {
      if |entries| <= 4 {
        assert entries[0..|entries|] == entries;
        ProcessEntries(s, dir, node, 0, |entries|, entries, result, cancel, tree);
      } else {
        ProcessQuarters(s, dir, node, entries, result, cancel, tree);
      }
    } else if |entries| == 1 {
      SingleEntry(s, AsWritten, dir, node);
      ProcessEntry(s, dir, entries[0], result, cancel, tree);
    } else {
      assert result.Files + [] == result.Files && result.Dirs + [] == result.Dirs;
    }
  }

  /**
   * `dirLineCounter`: lists the directory (a listing error goes to cancel and the
   * walk goes on with what was listed), dispatches the entries, and at the root
   * finally calls cancel with no error.
   */
  method DirLineCounter(s: Settings, root: bool, dir: string, node: Node,
                        result: Result, cancel: Cancellation, tree: FileTree.FileTree)
    requires node.Dir?
    requires tree.Valid()
    modifies result, cancel, tree
    ensures Advanced(result, cancel,
      DirTally(s, AsWritten, dir, node).Then(if root then Tally(0, [], [], [Canceled]) else Nothing))
    ensures TreeKept(tree)
    decreases node, 4
  {
    var entries := node.entries;
    ghost var listing := if node.listFails then Tally(0, [], [], [IoError(dir)]) else Nothing;
    if node.listFails {
      cancel.Cancel(IoError(dir));
    }
    DispatchEntries(s, dir, node, entries, result, cancel, tree);
    ghost var walked := ListingTally(s, AsWritten, dir, node);
    SettleTwice(old(cancel.cause), listing.errors, walked.errors);
    if root {
      ghost var t := DirTally(s, AsWritten, dir, node);
      cancel.Cancel(Canceled);
      SettleTwice(old(cancel.cause), t.errors, [Canceled]);
    }
  }

  // ---------------------------------------------------------------- arguments

  /** A value passed in `args ...any`: a `*string` or a `*bool`, each possibly nil, or something else. */
  datatype Arg = StringPtr(str: Option<string>) | BoolPtr(flag: Option<bool>) | OtherArg

  /**
   * What `parseArgs` comes to: a run-time panic (an index past the arguments, or
   * a nil ignore string dereferenced), or its six results, with `None` for a nil
   * pointer or a nil error.
   */
  datatype ParseOutcome =
    | Panic
    | Parsed(dir: Option<string>, recursive: Option<bool>, includeBlanks: Option<bool>, includeComments: Option<bool>,
             ignoreList: seq<string>, err: Option<string>)

  /** The argument list has the shape the walker expects: `*string, *string, *bool, *bool, *bool`. */
  predicate WellTyped(args: seq<Arg>) {
    |args| == 5 && args[0].StringPtr? && args[1].StringPtr? &&
    args[2].BoolPtr? && args[3].BoolPtr? && args[4].BoolPtr?
  }

  /** The messages of the argument checks that fail, in the order the checks are made. */
  function FailedChecks(args: seq<Arg>): (msgs: seq<string>)
    requires |args| >= 5
    ensures |msgs| == 0 <==> WellTyped(args)
  {
    Failing(|args| != 5, "not enough arguments") +
    Failing(!args[0].StringPtr?, "first argument must be a string") +
    Failing(!args[1].StringPtr?, "second argument must be a string") +
    Failing(!args[2].BoolPtr?, "third argument must be a boolean") +
    Failing(!args[3].BoolPtr?, "fourth argument must be a boolean") +
    Failing(!args[4].BoolPtr?, "fifth argument must be a boolean")
  }

  /**
   * The last check decides the message whenever it fails, and a list of the
   * wrong length is reported as such only when all five arguments are well typed.
   */
  lemma LastFailureWins(args: seq<Arg>)
    requires |args| >= 5
    ensures !args[4].BoolPtr? ==> FailedChecks(args)[|FailedChecks(args)| - 1] == "fifth argument must be a boolean"
    ensures |args| > 5 && args[0].StringPtr? && args[1].StringPtr? && args[2].BoolPtr? && args[3].BoolPtr? && args[4].BoolPtr? ==>
      FailedChecks(args) == ["not enough arguments"]
  {
  }

  /** The message of one check, if it fails. */
  function Failing(failed: bool, msg: string): (r: seq<string>)
    ensures |r| == if failed then 1 else 0
  {
    if failed then [msg] else []
  }

  /**
   * The ignore list built from the ignore string: spaces deleted, then split at
   * commas. There is one token more than there are commas, no token holds a space
   * or a comma, and joining the tokens with commas gives back the string without
   * its spaces.
   */
  function IgnoreTokens(ignore: string): (tokens: seq<string>)
    ensures |tokens| == CountChar(ignore, ',') + 1
    ensures forall k :: 0 <= k < |tokens| ==> ' ' !in tokens[k] && ',' !in tokens[k]
    ensures Join(tokens, ',') == ReplaceAll(ignore, " ", [])
  {
    var stripped := ReplaceAll(ignore, " ", []);
    StripByteRemovesAll(ignore, " ");
    StripKeepsOtherBytes(ignore, " ", ',');
    SplitLength(stripped, ',');
    SplitPartsFree(stripped, ',');
    SplitKeepsByteOut(stripped, ',', ' ');
    JoinSplit(stripped, ',');
    Split(stripped, ',')
  }

  /** An empty ignore string gives a list holding one empty token. */
  lemma EmptyIgnoreString()
    ensures IgnoreTokens("") == [""]
  {
  }

  /**
   * `parseArgs`: each failing check overwrites the error, so the last failure's
   * message is returned; a wrongly typed argument gives a nil pointer. Fewer than
   * five arguments, or an ignore string that is not a non-nil `*string`, panics.
   */
  method ParseArgs(args: seq<Arg>) returns (p: ParseOutcome)
    ensures p.Panic? <==> |args| < 5 || !args[1].StringPtr? || args[1].str.None?
    ensures p.Parsed? ==> (p.err.None? <==> WellTyped(args))
    ensures p.Parsed? ==> p.err.Some? ==> p.err.value == FailedChecks(args)[|FailedChecks(args)| - 1]
    ensures p.Parsed? ==> p.ignoreList == IgnoreTokens(args[1].str.value)
    ensures p.Parsed? ==>
      p.dir == (if args[0].StringPtr? then args[0].str else None) &&
      p.recursive == (if args[2].BoolPtr? then args[2].flag else None) &&
      p.includeBlanks == (if args[3].BoolPtr? then args[3].flag else None) &&
      p.includeComments == (if args[4].BoolPtr? then args[4].flag else None)
  {
    var err: Option<string> := None;
    if |args| != 5 {
      err := Some("not enough arguments");
    }
    if |args| < 5 {
      return Panic;
    }
    var dir: Option<string> := None;
    if args[0].StringPtr? {
      dir := args[0].str;
    } else {
      err := Some("first argument must be a string");
    }
    var ignore: Option<string> := None;
    if args[1].StringPtr? {
      ignore := args[1].str;
    } else {
      err := Some("second argument must be a string");
    }
    var recursive: Option<bool> := None;
    if args[2].BoolPtr? {
      recursive := args[2].flag;
    } else {
      err := Some("third argument must be a boolean");
    }
    var includeBlanks: Option<bool> := None;
    if args[3].BoolPtr? {
      includeBlanks := args[3].flag;
    } else {
      err := Some("fourth argument must be a boolean");
    }
    var includeComments: Option<bool> := None;
    if args[4].BoolPtr? {
      includeComments := args[4].flag;
    } else {
      err := Some("fifth argument must be a boolean");
    }
    if ignore.None? {
      return Panic;
    }
    var ignoreList := IgnoreTokens(ignore.value);
    return Parsed(dir, recursive, includeBlanks, includeComments, ignoreList, err);
  }
}
