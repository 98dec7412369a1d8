/**
 * What the walker of package `count` promises, stated over the walk as values
 * (`EntryTally` and the functions below it): the line filter, the exclusion
 * rules, the outcome of one entry, the order in which directories are recorded,
 * and how the slices a large directory is cut into decide which entries are
 * counted.
 */
module CountProperties {
  import opened Wrappers
  import opened GoStrings
  import opened Utils
  import opened Count
  import FileTree

  // ------------------------------------------------------------ the line filter

  /** With blank and comment lines included every line is kept: one more than there are newlines. */
  lemma AllLinesKept(content: string)
    ensures KeptLines(content, true, true) == Split(content, '\n')
    ensures |KeptLines(content, true, true)| == CountChar(content, '\n') + 1
  {
    FilterAllAccepted(Split(content, '\n'), LineFilter(true, true));
    SplitLength(content, '\n');
  }

  /**
   * The kept lines are the lines of the file that pass the filter, each as often
   * as it occurs in the file, in the file's order; none of them holds a newline.
   */
  lemma KeptLinesAreFilteredLines(content: string, includeBlanks: bool, includeComments: bool, line: string)
    ensures multiset(KeptLines(content, includeBlanks, includeComments))[line] ==
      if KeepLine(line, includeBlanks, includeComments) then multiset(Split(content, '\n'))[line] else 0
    ensures forall k :: 0 <= k < |KeptLines(content, includeBlanks, includeComments)| ==>
      KeepLine(KeptLines(content, includeBlanks, includeComments)[k], includeBlanks, includeComments)
  {
    FilteredOccurrences(Split(content, '\n'), LineFilter(includeBlanks, includeComments), line);
  }

  /** Without blank lines the empty file counts no line; with them it counts one. */
  lemma EmptyFileLines(includeComments: bool)
    ensures |KeptLines("", false, includeComments)| == 0
    ensures |KeptLines("", true, includeComments)| == 1
  {
    assert Split("", '\n') == [""];
    assert Filtered([""], LineFilter(false, includeComments)) == [];
    assert Filtered([""], LineFilter(true, includeComments)) == [""];
  }

  /** A comment-like line is dropped unless comments are included, whatever else it holds. */
  lemma CommentLinesDropped(line: string, includeBlanks: bool)
    requires HasPrefix(line, "//") || HasPrefix(line, "/*") || HasSuffix(line, "*/")
    ensures !KeepLine(line, includeBlanks, false)
    ensures line != [] ==> KeepLine(line, includeBlanks, true)
  {
  }

  // ---------------------------------------------------------------- exclusion

  /**
   * Illustrations of the exclusion rules on fixed names (the rules themselves are
   * `DirSkipped` and `FileSkipped`, and `SkippedOutcome` is their general
   * consequence): a token excludes a name equal to it, not one containing it, and
   * a leading dot excludes a directory but not a file.
   */
  lemma ExclusionExamples()
    ensures !DirSkipped("vendor", ["vendor/lib", "vend"])
    ensures DirSkipped("vendor", ["x", "vendor"])
    ensures DirSkipped(".git", [])
    ensures !FileSkipped(".env", [])
    ensures FileSkipped("go.sum", [])
    ensures !FileSkipped("go.mod", ["go"])
  {
    assert "vendor"[..1] == "v";
    assert ".git"[..1] == ".";
    assert "go.sum"[2..] == ".sum";
    assert ".env"[0..] == ".env";
    assert "go.mod"[2..] == ".mod";
  }

  // ------------------------------------------ looking a counted file up in the tree

  /**
   * Under the root ".", a top-level file is looked up by its joined path with
   * slashes turned into backslashes, and was registered under its walked path with
   * every dot removed. The two agree exactly when the name holds no dot, so a
   * file such as "main.go" is counted but its tree entry is never marked Done.
   */
  lemma DotRootLookup(name: string)
    requires '/' !in name
    ensures FileTree.Backslashed(JoinPath(".", name)) == FileTree.Stripped(".", name) <==> '.' !in name
  {
    ContainsByte(name, '/');
    ReplaceAbsent(name, "/", "\\");
    if '.' in name {
      StripByteRemovesAll(name, ".");
    } else {
      ContainsByte(name, '.');
      ReplaceAbsent(name, ".", []);
    }
  }

  // ----------------------------------------------------- the outcome of one entry

  /**
   * A file that is not skipped: read and valid, it adds its kept lines and its
   * name; not valid UTF-8, nothing; unreadable, only a cause for cancel.
   */
  lemma FileOutcome(s: Settings, rule: SplitRule, dir: string, e: Node)
    requires e.File? && !FileSkipped(e.name, s.ignoreList)
    ensures e.data.Bytes? && s.utf8Valid(e.data.content) ==>
      EntryTally(s, rule, dir, e) == Tally(|KeptLines(e.data.content, s.includeBlanks, s.includeComments)|, [e.name], [], [])
    ensures e.data.Bytes? && !s.utf8Valid(e.data.content) ==> EntryTally(s, rule, dir, e) == Nothing
    ensures e.data.Unreadable? ==> EntryTally(s, rule, dir, e) == Tally(0, [], [], [IoError(JoinPath(dir, e.name))])
  {
  }

  /** A skipped entry adds nothing. */
  lemma SkippedOutcome(s: Settings, rule: SplitRule, dir: string, e: Node)
    requires if e.Dir? then DirSkipped(e.name, s.ignoreList) else FileSkipped(e.name, s.ignoreList)
    ensures EntryTally(s, rule, dir, e) == Nothing
  {
  }

  /**
   * A directory that is not skipped is walked first and its name recorded after
   * the walk (post-order), as the last of the names it adds.
   */
  lemma DirOutcome(s: Settings, rule: SplitRule, dir: string, e: Node)
    requires e.Dir? && !DirSkipped(e.name, s.ignoreList)
    ensures EntryTally(s, rule, dir, e).dirs == DirTally(s, rule, JoinPath(dir, e.name), e).dirs + [e.name]
    ensures EntryTally(s, rule, dir, e).files == DirTally(s, rule, JoinPath(dir, e.name), e).files
    ensures EntryTally(s, rule, dir, e).count == DirTally(s, rule, JoinPath(dir, e.name), e).count
  {
  }

  /**
   * The dispatch on the number of entries: none adds nothing, one is processed
   * on its own, two to four one after another, in listing order.
   */
  lemma SmallListings(s: Settings, rule: SplitRule, path: string, d: Node)
    requires d.Dir? && |d.entries| <= 4
    ensures |d.entries| == 0 ==> ListingTally(s, rule, path, d) == Nothing
    ensures |d.entries| == 1 ==> ListingTally(s, rule, path, d) == EntryTally(s, rule, path, d.entries[0])
    ensures |d.entries| >= 2 ==> (ListingTally(s, rule, path, d) ==
      RangeTally(s, rule, path, d, 0, |d.entries| - 1).Then(EntryTally(s, rule, path, d.entries[|d.entries| - 1])))
  {
    if |d.entries| == 1 {
      SingleEntry(s, rule, path, d);
    }
  }

  // ---------------------------------------------- when the slices cover the listing

  /**
   * Every directory in the tree that has more than four entries is cut by `rule`
   * into slices that run through its listing once, in order.
   */
  predicate Covered(rule: SplitRule, e: Node)
    decreases e
  {
    e.Dir? ==>
      (|e.entries| <= 4 || rule == ListingOrder || Consecutive(Quarters(|e.entries|, rule), 0, |e.entries|)) &&
      forall k :: 0 <= k < |e.entries| ==> Covered(rule, e.entries[k])
  }

  /**
   * A walk whose slices cover every listing adds what the walk in listing order
   * adds, entry by entry.
   */
  lemma {:induction false} EntryAgrees(s: Settings, rule: SplitRule, path: string, e: Node)
    requires Covered(rule, e)
    ensures EntryTally(s, rule, path, e) == EntryTally(s, ListingOrder, path, e)
    decreases e, 2
  {
    if e.Dir? && !DirSkipped(e.name, s.ignoreList) {
      ListingAgrees(s, rule, JoinPath(path, e.name), e);
    }
  }

  lemma {:induction false} ListingAgrees(s: Settings, rule: SplitRule, path: string, d: Node)
    requires d.Dir? && Covered(rule, d)
    ensures ListingTally(s, rule, path, d) == ListingTally(s, ListingOrder, path, d)
    decreases d, 1
  {
    var n := |d.entries|;
    RangeAgrees(s, rule, path, d, 0, n);
    if n > 4 && rule != ListingOrder {
      ConsecutiveTally(s, rule, path, d, Quarters(n, rule), 0, n);
    }
  }

  lemma {:induction false} RangeAgrees(s: Settings, rule: SplitRule, path: string, d: Node, lo: nat, hi: nat)
    requires d.Dir? && Covered(rule, d)
    ensures RangeTally(s, rule, path, d, lo, hi) == RangeTally(s, ListingOrder, path, d, lo, hi)
    decreases d, 0, hi - lo
  {
    if lo < hi <= |d.entries| {
      var last := d.entries[hi - 1];
      assert Covered(rule, last);
      RangeAgrees(s, rule, path, d, lo, hi - 1);
      EntryAgrees(s, rule, path, last);
      assert RangeTally(s, rule, path, d, lo, hi) ==
        RangeTally(s, rule, path, d, lo, hi - 1).Then(EntryTally(s, rule, path, last));
    }
  }

  /** The balanced slices cover every listing. */
  lemma {:induction false} BalancedCovers(e: Node)
    ensures Covered(Balanced, e)
    decreases e
  {
    if e.Dir? {
      if |e.entries| > 4 {
        BalancedQuarters(|e.entries|);
      }
      forall k | 0 <= k < |e.entries| ensures Covered(Balanced, e.entries[k]) {
        BalancedCovers(e.entries[k]);
      }
    }
  }

  /**
   * With balanced slices the walk counts every line and records every name once,
   * exactly as the walk in listing order does.
   */
  lemma BalancedWalkIsListingWalk(s: Settings, path: string, e: Node)
    ensures EntryTally(s, Balanced, path, e) == EntryTally(s, ListingOrder, path, e)
  {
    BalancedCovers(e);
    EntryAgrees(s, Balanced, path, e);
  }

  /** Every directory of the tree has at most four entries or a multiple of four. */
  predicate QuarterFriendly(e: Node)
    decreases e
  {
    e.Dir? ==>
      (|e.entries| <= 4 || |e.entries| % 4 == 0) &&
      forall k :: 0 <= k < |e.entries| ==> QuarterFriendly(e.entries[k])
  }

  lemma {:induction false} AsWrittenCoversFriendly(e: Node)
    requires QuarterFriendly(e)
    ensures Covered(AsWritten, e)
    decreases e
  {
    if e.Dir? {
      if |e.entries| > 4 {
        QuartersInOrderWhenDivisible(|e.entries|);
      }
      forall k | 0 <= k < |e.entries| ensures Covered(AsWritten, e.entries[k]) {
        AsWrittenCoversFriendly(e.entries[k]);
      }
    }
  }

  /**
   * The program's slices do no harm in a tree whose directories all have at most
   * four entries or a multiple of four.
   */
  lemma AsWrittenWalkWhenFriendly(s: Settings, path: string, e: Node)
    requires QuarterFriendly(e)
    ensures EntryTally(s, AsWritten, path, e) == EntryTally(s, ListingOrder, path, e)
  {
    AsWrittenCoversFriendly(e);
    EntryAgrees(s, AsWritten, path, e);
  }

  // ------------------------------------------------------- the program's slices

  /** A tally with the order of its names and causes forgotten. */
  datatype Bag = Bag(count: nat, files: multiset<string>, dirs: multiset<string>, errors: multiset<Cause>)
  {
    function Plus(other: Bag): Bag {
      Bag(count + other.count, files + other.files, dirs + other.dirs, errors + other.errors)
    }
  }

  function BagOf(t: Tally): Bag {
    Bag(t.count, multiset(t.files), multiset(t.dirs), multiset(t.errors))
  }

  /** Forgetting the order turns one tally after another into a sum. */
  lemma BagOfThen(a: Tally, b: Tally)
    ensures BagOf(a.Then(b)) == BagOf(a).Plus(BagOf(b))
  {
  }

  /** What entry `i * (n / 4)` adds a second time, when slice `i - 1` takes an extra entry. */
  function Repeated(s: Settings, path: string, d: Node, i: nat): Tally
    requires d.Dir? && |d.entries| > 4 && 1 <= i <= 3
  {
    var n := |d.entries|;
    if i <= n % 4 then EntryTally(s, AsWritten, path, d.entries[i * (n / 4)]) else Nothing
  }

  /**
   * Up to the order the program's slices are run in, a directory of `n > 4`
   * entries adds what its first `4 * (n / 4)` entries add once each, plus what
   * entry `i * (n / 4)` adds a second time for every `i` from 1 to `n % 4`; the
   * last `n % 4` entries add nothing.
   */
  lemma AsWrittenListing(s: Settings, path: string, d: Node)
    requires d.Dir? && |d.entries| > 4
    ensures BagOf(ListingTally(s, AsWritten, path, d)) ==
      BagOf(RangeTally(s, AsWritten, path, d, 0, 4 * (|d.entries| / 4)))
        .Plus(BagOf(Repeated(s, path, d, 1))).Plus(BagOf(Repeated(s, path, d, 2))).Plus(BagOf(Repeated(s, path, d, 3)))
  {
    var q := |d.entries| / 4;
    AsWrittenSlices(s, path, d);
    RangeTallySplit(s, AsWritten, path, d, 0, 3 * q, 4 * q);
    RangeTallySplit(s, AsWritten, path, d, 0, 2 * q, 3 * q);
    RangeTallySplit(s, AsWritten, path, d, 0, q, 2 * q);
    BagReorder(RangeTally(s, AsWritten, path, d, 0, q), Repeated(s, path, d, 1),
      RangeTally(s, AsWritten, path, d, q, 2 * q), Repeated(s, path, d, 2),
      RangeTally(s, AsWritten, path, d, 2 * q, 3 * q), Repeated(s, path, d, 3),
      RangeTally(s, AsWritten, path, d, 3 * q, 4 * q));
  }

  /**
   * In order, the program's slices add the four blocks of `n / 4` entries, each
   * block followed by the entry the slice takes in addition, if any.
   */
  lemma AsWrittenSlices(s: Settings, path: string, d: Node)
    requires d.Dir? && |d.entries| > 4
    ensures var q := |d.entries| / 4;
      ListingTally(s, AsWritten, path, d) ==
        RangeTally(s, AsWritten, path, d, 0, q).Then(Repeated(s, path, d, 1))
          .Then(RangeTally(s, AsWritten, path, d, q, 2 * q).Then(Repeated(s, path, d, 2)))
          .Then(RangeTally(s, AsWritten, path, d, 2 * q, 3 * q).Then(Repeated(s, path, d, 3)))
          .Then(RangeTally(s, AsWritten, path, d, 3 * q, 4 * q))
  {
    var n := |d.entries|;
    var q, m := n / 4, n % 4;
    assert n == 4 * q + m && q >= 1;
    var e1, e2, e3 := q + (if 1 <= m then 1 else 0), 2 * q + (if 2 <= m then 1 else 0), 3 * q + (if 3 <= m then 1 else 0);
    var r := Quarters(n, AsWritten);
    assert r[0] == (0, e1) && r[1] == (q, e2) && r[2] == (2 * q, e3) && r[3] == (3 * q, 4 * q);
    RangesTallyFour(s, AsWritten, path, d, r);
    RangeTallySplit(s, AsWritten, path, d, 0, q, e1);
    RangeTallySplit(s, AsWritten, path, d, q, 2 * q, e2);
    RangeTallySplit(s, AsWritten, path, d, 2 * q, 3 * q, e3);
    RepeatedRange(s, path, d, 1, q, e1);
    RepeatedRange(s, path, d, 2, 2 * q, e2);
    RepeatedRange(s, path, d, 3, 3 * q, e3);
  }

  /** Moving the repeated entries to the end changes nothing once the order is forgotten. */
  lemma BagReorder(a0: Tally, x0: Tally, a1: Tally, x1: Tally, a2: Tally, x2: Tally, a3: Tally)
    ensures BagOf(a0.Then(x0).Then(a1.Then(x1)).Then(a2.Then(x2)).Then(a3)) ==
      BagOf(a0.Then(a1).Then(a2).Then(a3)).Plus(BagOf(x0)).Plus(BagOf(x1)).Plus(BagOf(x2))
  {
    var lhs := a0.Then(x0).Then(a1.Then(x1)).Then(a2.Then(x2)).Then(a3);
    var rhs := a0.Then(a1).Then(a2).Then(a3);
    MultisetReorder(multiset(a0.files), multiset(x0.files), multiset(a1.files), multiset(x1.files),
      multiset(a2.files), multiset(x2.files), multiset(a3.files));
    MultisetReorder(multiset(a0.dirs), multiset(x0.dirs), multiset(a1.dirs), multiset(x1.dirs),
      multiset(a2.dirs), multiset(x2.dirs), multiset(a3.dirs));
    MultisetReorder(multiset(a0.errors), multiset(x0.errors), multiset(a1.errors), multiset(x1.errors),
      multiset(a2.errors), multiset(x2.errors), multiset(a3.errors));
    assert multiset(lhs.files) == multiset(a0.files) + multiset(x0.files) + (multiset(a1.files) + multiset(x1.files))
      + (multiset(a2.files) + multiset(x2.files)) + multiset(a3.files);
    assert multiset(rhs.files) == multiset(a0.files) + multiset(a1.files) + multiset(a2.files) + multiset(a3.files);
    assert multiset(lhs.dirs) == multiset(a0.dirs) + multiset(x0.dirs) + (multiset(a1.dirs) + multiset(x1.dirs))
      + (multiset(a2.dirs) + multiset(x2.dirs)) + multiset(a3.dirs);
    assert multiset(rhs.dirs) == multiset(a0.dirs) + multiset(a1.dirs) + multiset(a2.dirs) + multiset(a3.dirs);
    assert multiset(lhs.errors) == multiset(a0.errors) + multiset(x0.errors) + (multiset(a1.errors) + multiset(x1.errors))
      + (multiset(a2.errors) + multiset(x2.errors)) + multiset(a3.errors);
    assert multiset(rhs.errors) == multiset(a0.errors) + multiset(a1.errors) + multiset(a2.errors) + multiset(a3.errors);
  }

  lemma MultisetReorder<T>(a0: multiset<T>, x0: multiset<T>, a1: multiset<T>, x1: multiset<T>,
                           a2: multiset<T>, x2: multiset<T>, a3: multiset<T>)
    ensures a0 + x0 + (a1 + x1) + (a2 + x2) + a3 == a0 + a1 + a2 + a3 + x0 + x1 + x2
  {
    var lhs, rhs := a0 + x0 + (a1 + x1) + (a2 + x2) + a3, a0 + a1 + a2 + a3 + x0 + x1 + x2;
    forall t ensures lhs[t] == rhs[t] { }
  }

  /** The range of the entry a slice takes in addition is what that entry adds a second time. */
  lemma RepeatedRange(s: Settings, path: string, d: Node, i: nat, lo: nat, hi: nat)
    requires d.Dir? && |d.entries| > 4 && 1 <= i <= 3
    requires lo == i * (|d.entries| / 4) && hi == lo + (if i <= |d.entries| % 4 then 1 else 0)
    ensures RangeTally(s, AsWritten, path, d, lo, hi) == Repeated(s, path, d, i)
  {
    var n := |d.entries|;
    if i <= n % 4 {
      assert lo < n;
      OneEntryRange(s, AsWritten, path, d, lo);
    }
  }

  /**
   * A directory of five entries: the program processes entries 0, 1, 1, 2, 3 in
   * that order, the walk in listing order entries 0 to 4.
   */
  lemma FiveEntriesWalked(s: Settings, path: string, d: Node)
    requires d.Dir? && |d.entries| == 5
    ensures ListingTally(s, AsWritten, path, d) ==
      EntryTally(s, AsWritten, path, d.entries[0]).Then(EntryTally(s, AsWritten, path, d.entries[1]))
        .Then(EntryTally(s, AsWritten, path, d.entries[1])).Then(EntryTally(s, AsWritten, path, d.entries[2]))
        .Then(EntryTally(s, AsWritten, path, d.entries[3]))
  {
    FiveEntriesScheduled();
    RangesTallyFour(s, AsWritten, path, d, Quarters(5, AsWritten));
    RangeTallySplit(s, AsWritten, path, d, 0, 1, 2);
    OneEntryRange(s, AsWritten, path, d, 0);
    OneEntryRange(s, AsWritten, path, d, 1);
    OneEntryRange(s, AsWritten, path, d, 2);
    OneEntryRange(s, AsWritten, path, d, 3);
  }

  /**
   * A directory of five counted files with distinct names: the program records
   * the second file twice and the fifth never, where the walk in listing order
   * records each file once, in listing order.
   */
  lemma FiveFilesMiscounted(s: Settings, path: string, d: Node)
    requires d.Dir? && |d.entries| == 5
    requires forall k :: 0 <= k < 5 ==> d.entries[k].File? && FileCounted(s, d.entries[k])
    requires forall j, k :: 0 <= j < k < 5 ==> d.entries[j].name != d.entries[k].name
    ensures ListingTally(s, AsWritten, path, d).files ==
      [d.entries[0].name, d.entries[1].name, d.entries[1].name, d.entries[2].name, d.entries[3].name]
    ensures ListingTally(s, ListingOrder, path, d).files ==
      [d.entries[0].name, d.entries[1].name, d.entries[2].name, d.entries[3].name, d.entries[4].name]
    ensures d.entries[4].name !in ListingTally(s, AsWritten, path, d).files
    ensures multiset(ListingTally(s, AsWritten, path, d).files)[d.entries[1].name] == 2
  {
    var n0, n1, n2, n3, n4 := d.entries[0].name, d.entries[1].name, d.entries[2].name, d.entries[3].name, d.entries[4].name;
    AsWrittenFiles(s, path, d);
    ListingOrderFiles(s, path, d);
    assert n4 != n0 && n4 != n1 && n4 != n2 && n4 != n3 && n1 != n0 && n1 != n2 && n1 != n3;
    RepeatedSecondName(ListingTally(s, AsWritten, path, d).files, n0, n1, n2, n3, n4);
  }

  /** In the names recorded as written, the second name occurs twice and the fifth not at all. */
  lemma RepeatedSecondName(files: seq<string>, n0: string, n1: string, n2: string, n3: string, n4: string)
    requires files == [n0, n1, n1, n2, n3]
    requires n4 != n0 && n4 != n1 && n4 != n2 && n4 != n3 && n1 != n0 && n1 != n2 && n1 != n3
    ensures n4 !in files && multiset(files)[n1] == 2
  {
    assert n4 !in files by {
      forall k | 0 <= k < |files| ensures files[k] != n4 {
        assert files[k] in {n0, n1, n2, n3};
      }
    }
    assert multiset(files) == multiset{n0, n1, n1, n2, n3};
  }

  /** The program records five counted files as the second one twice and the fifth never. */
  lemma AsWrittenFiles(s: Settings, path: string, d: Node)
    requires d.Dir? && |d.entries| == 5
    requires forall k :: 0 <= k < 5 ==> d.entries[k].File? && FileCounted(s, d.entries[k])
    ensures ListingTally(s, AsWritten, path, d).files ==
      [d.entries[0].name, d.entries[1].name, d.entries[1].name, d.entries[2].name, d.entries[3].name]
  {
    var a0, a1, a2, a3 := EntryTally(s, AsWritten, path, d.entries[0]), EntryTally(s, AsWritten, path, d.entries[1]),
      EntryTally(s, AsWritten, path, d.entries[2]), EntryTally(s, AsWritten, path, d.entries[3]);
    FileOutcome(s, AsWritten, path, d.entries[0]);
    FileOutcome(s, AsWritten, path, d.entries[1]);
    FileOutcome(s, AsWritten, path, d.entries[2]);
    FileOutcome(s, AsWritten, path, d.entries[3]);
    FiveEntriesWalked(s, path, d);
    assert ListingTally(s, AsWritten, path, d).files == a0.files + a1.files + a1.files + a2.files + a3.files;
  }

  /** The walk in listing order records five counted files once each, in listing order. */
  lemma ListingOrderFiles(s: Settings, path: string, d: Node)
    requires d.Dir? && |d.entries| == 5
    requires forall k :: 0 <= k < 5 ==> d.entries[k].File? && FileCounted(s, d.entries[k])
    ensures ListingTally(s, ListingOrder, path, d).files ==
      [d.entries[0].name, d.entries[1].name, d.entries[2].name, d.entries[3].name, d.entries[4].name]
  {
    CountedFilesNamed(s, path, d, 5);
  }

  /** In listing order, a run of counted files records their names once each, in order. */
  lemma {:induction false} CountedFilesNamed(s: Settings, path: string, d: Node, m: nat)
    requires d.Dir? && m <= |d.entries|
    requires forall k :: 0 <= k < m ==> d.entries[k].File? && FileCounted(s, d.entries[k])
    ensures |RangeTally(s, ListingOrder, path, d, 0, m).files| == m
    ensures forall k :: 0 <= k < m ==> RangeTally(s, ListingOrder, path, d, 0, m).files[k] == d.entries[k].name
  {
    if m > 0 {
      var before := RangeTally(s, ListingOrder, path, d, 0, m - 1).files;
      var after := RangeTally(s, ListingOrder, path, d, 0, m).files;
      assert |before| == m - 1 && forall k :: 0 <= k < m - 1 ==> before[k] == d.entries[k].name by {
        CountedFilesNamed(s, path, d, m - 1);
      }
      assert after == before + [d.entries[m - 1].name] by {
        CountedFileStep(s, path, d, m - 1);
      }
    }
  }

  /** In listing order, a counted file appends its name to the names recorded before it. */
  lemma CountedFileStep(s: Settings, path: string, d: Node, m: nat)
    requires d.Dir? && m < |d.entries| && d.entries[m].File? && FileCounted(s, d.entries[m])
    ensures RangeTally(s, ListingOrder, path, d, 0, m + 1).files ==
      RangeTally(s, ListingOrder, path, d, 0, m).files + [d.entries[m].name]
  {
    FileOutcome(s, ListingOrder, path, d.entries[m]);
  }
}
