# loc-cli line counter, modelled in Dafny

loc-cli counts the lines of code under a directory. Before counting, `NewFileTree`
walks the directory once. It registers every file and directory it accepts in a
*file tree*: a coloured text with one line per entry, plus two maps from line number
to entry. The walker (`dirLineCounter` / `processEntry` / `processEntries`) then
lists each directory. It skips dot-directories, `.sum` files and names on the
ignore list. It reads every other file and, when the bytes are valid UTF-8, keeps
the lines that pass the blank and comment filter (`utils.Filter`). It looks the file
up in the tree by its joined path with slashes turned into backslashes and marks the
entry it finds Done, then records the file's name and adds the number of kept lines
to the result. An entry is found only when that path equals the walked path it was
registered under, with the root path removed. Under the default root "." the removal
deletes every dot, so a file whose name holds a dot is counted, but its entry is
never found and stays Pending (`CountProperties.DotRootLookup`). A directory is recorded after its contents are walked. A directory of five or
more entries is cut into four slices. `parseArgs` checks the five arguments and
turns the ignore string into the ignore list.

The project has these modules:

- `Wrappers` holds `Option`.
- `GoStrings` holds the Go `strings` functions the program relies on, together with
  their laws. A string is a sequence of bytes.
- `Utils` models `Filter`.
- `FileTree` holds the file tree class, the registry it is built from and `padTree`.
- `FileTreeProperties` proves the layout of the registry and what recolouring does.
- `Count` holds the walker, proved against total functions (`EntryTally`,
  `DirTally`, `ListingTally`, `RangesTally`, `RangeTally`), and `parseArgs`.
- `CountProperties` proves what those functions promise: the line filter, the
  exclusion rules and the effect of the slice arithmetic.

The walker runs sequentially. Every goroutine that is started and then waited for
becomes a plain call, in listing order. `Result` and the cancel function are
objects the methods update in place. Each walker method states that the pair
(result, cancel cause) has advanced by the tally of what it walked. The tally
functions take a `SplitRule`:

- `AsWritten` is the program's slice arithmetic.
- `Balanced` is a contiguous split.
- `ListingOrder` processes every entry once.

That parameter lets the model compare the program's slices with the intended ones.

## Model

| member | source | states |
|---|---|---|
| Utils.Filter | utils/utils.go:3-11 | The loop keeps exactly the elements the callback accepts, in their original order. This is `Filtered(s, callback)`. |
| Utils.Filtered | utils/utils.go:3-11 | The result is never longer than the input, and every element of it is accepted. |
| Utils.FilteredLength | utils/utils.go:3-11 | The result is as long as the number of accepted elements. |
| Utils.FilteredOccurrences | utils/utils.go:3-11 | Each accepted value occurs as often as in the input. A rejected value does not occur. |
| Utils.FilteredIsSubsequence | utils/utils.go:3-11 | The result is a subsequence of the input: strictly increasing positions pick its elements. |
| Utils.FilterAllAccepted | utils/utils.go:5-9 | If every element is accepted, the result is the input. |
| Utils.FilterAllRejected | utils/utils.go:5-9 | If no element is accepted, the result is empty. |
| Utils.FilterIdempotent | utils/utils.go:3-11 | Filtering the result again with the same callback changes nothing. |
| GoStrings.HasPrefix | count/count.go:115 | `strings.HasPrefix`: the text is at least as long as the prefix and starts with it. Also used at count/count.go:94. |
| GoStrings.HasSuffix | count/count.go:100 | `strings.HasSuffix`: the text is at least as long as the suffix and ends with it. Also used at count/count.go:115-117 and filetree/fileTree.go:98. |
| GoStrings.Contains | filetree/fileTree.go:110 | `strings.Contains`: the text has the substring as a prefix at some position. The empty string occurs in every text. |
| GoStrings.ContainsByte | filetree/fileTree.go:110 | A one-byte string occurs in a text exactly when its byte does. |
| GoStrings.ReplaceAll | filetree/fileTree.go:96 | `strings.ReplaceAll`, scanning left to right and replacing non-overlapping occurrences. It requires `pat != [] or rep == []`. With both empty the text comes back unchanged, as in Go. The program never replaces an empty pattern with a non-empty text. Also used at filetree/fileTree.go:39, 50, 80 and 91 and count/count.go:160. |
| GoStrings.Join | filetree/fileTree.go:121 | `strings.Join`: the parts with the separator between each pair. Also used at filetree/fileTree.go:82. |
| GoStrings.Split | count/count.go:111 | `strings.Split` with a one-byte separator always returns at least one part. |
| GoStrings.SplitLength | count/count.go:111 | A split has one more part than the text has separators. |
| GoStrings.SplitPartsFree | filetree/fileTree.go:79 | No part of a split holds the separator. |
| GoStrings.SplitAround | filetree/fileTree.go:117-122 | A separator between two texts puts their splits side by side. |
| GoStrings.SplitFirstAfterPlain | filetree/fileTree.go:79 | A prefix without the separator stays at the front of the first part of a split. |
| GoStrings.JoinSplit | count/count.go:160 | Joining a split with its separator gives back the text. |
| GoStrings.SplitJoin | filetree/fileTree.go:79-82 | Splitting a join gives back the parts, when no part holds the separator. |
| GoStrings.ReplaceKeepsByteOut | filetree/fileTree.go:80 | A replacement cannot bring in a byte that is in neither the text nor the replacement. |
| GoStrings.ReplaceAfterPlainPrefix | filetree/fileTree.go:80 | A prefix without the pattern's first byte passes through `ReplaceAll` untouched. |
| GoStrings.StripByteRemovesAll | filetree/fileTree.go:96 | Deleting a one-byte string removes every copy of that byte. The length drops by their number. |
| GoStrings.StripKeepsOtherBytes | count/count.go:160 | Deleting one byte leaves the count of every other byte unchanged. |
| FileTree.Backslashed | filetree/fileTree.go:39 | The path with every `/` turned into `\`, as the lookups at filetree/fileTree.go:39 and 50 and the root at line 91 do. |
| FileTree.Padding | filetree/utils.go:20-26 | The padding has one `_` per byte of the parent path. |
| FileTree.PadTree | filetree/utils.go:20-26 | The loop returns `Padding(prevDir)`: as many bytes as `prevDir`, every one `_`. |
| FileTree.PaddingByLength | filetree/utils.go:20-26 | The padding depends only on the byte length of the path, not on its depth. |
| FileTree.Colour | filetree/fileTree.go:60-78 | The colour code of each status: green for Done, yellow for Pending, red for Skipped. |
| FileTree.DotBeforeBackslash | filetree/fileTree.go:97 | The unanchored pattern `\.[\w\d\S]*\\.*` matches: some `.` is followed later by a `\`, with no regexp whitespace between them. |
| FileTree.Registered | filetree/fileTree.go:98 | A path is registered when it does not end in `.sum` and the pattern does not match it. |
| FileTree.Stripped | filetree/fileTree.go:96 | The walked path with every occurrence of the root path deleted, not only a leading one. |
| FileTree.Ignored | filetree/fileTree.go:109-111 | Some ignore token occurs in the path as a substring. |
| FileTree.TreeName | filetree/fileTree.go:108-115 | A space, then grey for an ignored path and red otherwise, then the name and the reset code. |
| FileTree.LinePrefix | filetree/fileTree.go:116-123 | With two path components the prefix is a bar. With one it is empty. Otherwise it is a bar followed by one `_` per byte of the parent path joined with `/`. |
| FileTree.RenderLine | filetree/fileTree.go:108-123 | The line appended for a registered path: its prefix, then its coloured name. |
| FileTree.Register | filetree/fileTree.go:93-125 | One callback call. A failure or an unregistered path leaves the registry as it was. Otherwise the entry is stored under the current line count, a top-level directory also under key 0, and the line is appended. |
| FileTree.Built | filetree/fileTree.go:92-126 | The registry after the walk has reported every event, each applied by `Register` in walk order. |
| FileTree.FirstFailure | filetree/fileTree.go:93-95 | The error of the first failure the walk reports. |
| FileTree.FileTree.constructor | filetree/fileTree.go:87-90 | A new tree has empty text and two empty maps. Every key trivially names a line. |
| FileTree.FileTree.GetDirecory | filetree/fileTree.go:36-44 | The result is nil exactly when no directory entry has the backslashed path. Otherwise it is an entry of the map with that path. |
| FileTree.FileTree.GetFile | filetree/fileTree.go:46-56 | The result is nil with key 0 exactly when no file entry has the backslashed path. Otherwise it is an entry with that path and its key. |
| FileTree.FileTree.ChangeFileStatus | filetree/fileTree.go:58-84 | With a matching file entry: that entry's status is set, and in that entry's line only, the old status colour becomes the new one. The other lines, the keys and the directories stay as they were. With no match: nothing changes. |
| FileTree.AppendLine | filetree/fileTree.go:117-122 | Appending a newline and a line adds that line's lines after the old ones. |
| FileTree.RegisterKeepsKeys | filetree/fileTree.go:99-123 | One callback call keeps every map key on a line of the tree text. |
| FileTree.VisitPath | filetree/fileTree.go:96-124 | The walk callback leaves the text and both maps as `Register` says. A registered path is keyed by the current line count, and its line is appended. |
| FileTree.NewFileTree | filetree/fileTree.go:86-130 | If the walk reports a failure, the result is the first failure and no tree. Otherwise it is the tree `Built` from all walk events. |
| FileTree.FailureStops | filetree/fileTree.go:93-95 | Once the walk has reported a failure, later events do not change which failure is returned. |
| FileTreeProperties.RegistryLayout | filetree/fileTree.go:98-123 | Line 0 of the built text is empty, and line k is the rendering of the k-th registered path. The file key k and the directory key k name that path's entry. Directory key 0 holds the last top-level directory. This requires that no name holds a newline. |
| FileTreeProperties.StepLaidOut | filetree/fileTree.go:99-123 | One more registration keeps that layout. |
| FileTreeProperties.RenderLineHasNoNewline | filetree/fileTree.go:108-123 | A rendered line holds no newline when the name holds none. |
| FileTreeProperties.RenderLineLines | filetree/fileTree.go:108-115 | The ignore list changes a line's colour, never how many lines it makes. |
| FileTreeProperties.TokensDoNotFilter | filetree/fileTree.go:96-115 | The ignore list never keeps a path out of the registry. Both maps and the number of lines are the same for any ignore list. |
| FileTreeProperties.EmptyTokenGreysEveryLine | filetree/fileTree.go:109-112 | An empty token, which an empty ignore string produces, makes every name grey. |
| FileTreeProperties.PendingToDoneKeepsLine | filetree/fileTree.go:79-82 | If the name holds no escape byte, a freshly rendered line has a red or grey code, never the Pending (yellow) code. So recolouring it from Pending to Done leaves it unchanged. |
| FileTreeProperties.FirstLineKept | filetree/fileTree.go:79-82 | If the name holds no escape byte, the first line of a fresh rendering holds no Pending code, so recolouring leaves it unchanged. This also holds when the name holds a newline and the rendering spans several lines. |
| FileTreeProperties.KeysNameTheirLines | filetree/fileTree.go:104-123 | For any names, every file key and every directory key but 0 is the number of the line on which its entry's rendering starts. Every entry is Pending. |
| FileTreeProperties.RegisterKeepsLines | filetree/fileTree.go:99-123 | One callback call keeps that key-to-line invariant. |
| FileTreeProperties.EntryNamesWithout | filetree/fileTree.go:102-106 | A byte that no walked name holds is in no entry's name. |
| FileTreeProperties.FreshFileLineIgnoresDone | count/count.go:120 | If no walked name holds an escape byte, every file of a fresh registry is Pending and its key names a line. Marking it Done, as counting a file does, leaves that line as it was, whatever newlines the names hold. |
| FileTreeProperties.PatternExamples | filetree/fileTree.go:97-98 | An illustration on fixed paths: `\.git` is registered, while `\.git\HEAD` and `\v1.2\main.go` are not. |
| FileTreeProperties.SpacedDotKept | filetree/fileTree.go:97-98 | An illustration: `\a. b\c.go` is registered, since whitespace lies between its dot and the next backslash. |
| FileTreeProperties.DotRootRegistersEverything | filetree/fileTree.go:96-98 | With the root ".", deleting the root removes every dot. Neither the `.sum` test nor the pattern can then fire, so every path is registered. |
| Count.Settle | count/count.go:26 | The cancel cause after a batch of calls: a cause already set stays, otherwise the first call's cause is taken. |
| Count.JoinPath | count/count.go:92 | `path.Join` of a directory and a base name: the name alone under an empty directory or ".", otherwise the two joined with `/`. |
| Count.DirSkipped | count/count.go:94 | A directory is skipped when its name starts with `.` or equals an ignore token. |
| Count.FileSkipped | count/count.go:100 | A file is skipped when its name ends in `.sum` or equals an ignore token. |
| Count.KeepLine | count/count.go:111-119 | The filter closure. Without blanks, an empty line is dropped. Without comments, a line starting with `//` or `/*`, or ending with `*/`, is dropped. |
| Count.KeptLines | count/count.go:111 | The lines of the file text, split at newlines, that pass `KeepLine`, in order. |
| Count.SliceStart | count/count.go:72 | Where slice `i` starts. As written this is `i*div`. Under the balanced rule, `i*div` plus the extra entries of the earlier slices. |
| Count.SliceEnd | count/count.go:67-72 | Where slice `i` ends. As written this is `(i+1)*div`, plus 1 when `i < mod`. Under the balanced rule, `(i+1)*div` plus the extra entries up to and including slice `i`. |
| Count.EntryTally | count/count.go:90-126 | What processing one entry adds. A skipped entry adds nothing. A directory adds its walk and then its name. An unreadable file adds only a cause for cancel. An invalid UTF-8 file adds nothing. Otherwise a file adds its kept lines and its name. |
| Count.DirTally | count/count.go:50-85 | What walking a directory adds: a listing error's cause, if any, then what the listed entries add. |
| Count.ListingTally | count/count.go:54-85 | Four entries or fewer are processed in order. Five or more are processed as the four slices of the rule. |
| Count.RangesTally | count/count.go:74-80 | The given slices processed one after another. |
| Count.RangeTally | count/count.go:127-134 | The entries `lo` to `hi` processed one after another. |
| Count.Result.constructor | count/count.go:27 | A new result has count 0 and no files or directories. |
| Count.Cancellation.Cancel | count/count.go:26 | The first call to cancel sets the cause. Later calls change nothing. |
| Count.SettleTwice | count/count.go:26 | Calling cancel with two batches of causes is the same as calling it once with both. |
| Count.SliceBounds | count/count.go:64-72 | Every slice bound lies in `0..n`, and no slice ends before it starts. Under both rules, this makes the slice expression safe. |
| Count.SliceRange | count/count.go:67-72 | Slice `i` is a range within the listing. |
| Count.Quarters | count/count.go:64-73 | The first slice starts at entry 0, and every slice lies within the listing. Under the balanced rule the last slice ends at `n`. Under the program's arithmetic it ends `n % 4` entries short. |
| Count.AsWrittenCoverage | count/count.go:64-73 | Under the program's arithmetic, the last `n % 4` entries lie in no slice. The first entry of slice `i+1` lies in two slices when `i < n % 4`. Every other entry lies in one slice. |
| Count.BalancedCoverage | count/count.go:64-73 | Under the balanced rule, every entry lies in exactly one slice. |
| Count.QuartersInOrderWhenDivisible | count/count.go:64-73 | When 4 divides `n`, the program's slices run through the listing once, in order. |
| Count.BalancedQuarters | count/count.go:64-73 | The balanced slices run through the listing once, in order, and each holds `n/4` or `n/4 + 1` entries. |
| Count.FiveEntriesScheduled | count/count.go:64-73 | With five entries, the program's slices are [0,2), [1,2), [2,3) and [3,4). |
| Count.RangeTallySplit | count/count.go:127-134 | Processing a range equals processing its two halves, one after the other. |
| Count.ConsecutiveTally | count/count.go:74-80 | Slices that run through a range without gap or overlap add what the range adds. |
| Count.RangesTallyFour | count/count.go:75-80 | Four slices are processed one after another. |
| Count.SingleEntry | count/count.go:82-84 | A listing of one entry adds what that entry adds. |
| Count.ProcessEntry | count/count.go:90-126 | Result and cancel advance by `EntryTally` of the entry. The tree keeps its keys, its directories and its number of lines. |
| Count.ProcessEntries | count/count.go:127-134 | The loop advances result and cancel by `RangeTally` of the slice. |
| Count.SplitEntries | count/count.go:64-73 | There are four slices, and slice `i` is `entries[i*div : (i+1)*div + (i < mod ? 1 : 0)]`. |
| Count.ProcessSplits | count/count.go:74-80 | The loop over the slices advances result and cancel by `RangesTally` of the slices. |
| Count.ProcessQuarters | count/count.go:63-81 | Five or more entries advance result and cancel by the tally of the program's four slices. |
| Count.DispatchEntries | count/count.go:54-85 | The dispatch on the number of entries advances result and cancel by `ListingTally`. |
| Count.DirLineCounter | count/count.go:49-89 | A listing error goes to cancel, then the entries are walked. At the root, cancel is then called with no error. |
| Count.FailedChecks | count/count.go:136-159 | The list of failed check messages is empty exactly when the arguments are `*string, *string, *bool, *bool, *bool`. |
| Count.LastFailureWins | count/count.go:137-159 | A wrongly typed fifth argument always decides the message. Six or more well-typed arguments give "not enough arguments". |
| Count.IgnoreTokens | count/count.go:160 | There is one token more than there are commas. No token holds a space or a comma. Joining the tokens with commas gives the string without its spaces. |
| Count.EmptyIgnoreString | count/count.go:160 | An empty ignore string gives one empty token. |
| Count.ParseArgs | count/count.go:136-162 | Fewer than five arguments, or an ignore string that is not a non-nil `*string`, panics. Otherwise the error is nil exactly when the arguments are well typed, and the message is the last failed check. Each pointer is the argument or nil, and the ignore list is `IgnoreTokens`. |
| CountProperties.AllLinesKept | count/count.go:111-119 | With blanks and comments included, every line is kept: one more than the newlines. |
| CountProperties.KeptLinesAreFilteredLines | count/count.go:111-119 | A line is kept as often as it occurs in the file exactly when it passes the filter. Every kept line passes it. |
| CountProperties.EmptyFileLines | count/count.go:111-119 | An empty file counts 0 lines without blanks and 1 with them. |
| CountProperties.CommentLinesDropped | count/count.go:115-117 | A line starting with `//` or `/*`, or ending with `*/`, is dropped unless comments are included. |
| CountProperties.ExclusionExamples | count/count.go:93-101 | An illustration on fixed names: ignore tokens match whole names, not substrings. A leading dot excludes a directory but not a file. `.sum` excludes a file. |
| CountProperties.DotRootLookup | count/count.go:120 | Under the root ".", the path a top-level file is looked up by equals the path it was registered under exactly when its name holds no dot. |
| CountProperties.FileOutcome | count/count.go:100-123 | A valid file adds its kept lines and its name, even when it keeps no line. An invalid UTF-8 file adds nothing. An unreadable file only passes its path's error to cancel. |
| CountProperties.SkippedOutcome | count/count.go:93-101 | A skipped entry adds nothing. |
| CountProperties.DirOutcome | count/count.go:97-98 | A directory adds what its walk adds, with its own name recorded last (post-order). |
| CountProperties.SmallListings | count/count.go:54-85 | Zero entries add nothing. One entry adds that entry's tally. Two to four entries are processed in listing order. |
| CountProperties.EntryAgrees | count/count.go:64-80 | If every listing is covered by its slices in order, the walk adds what the listing-order walk adds. |
| CountProperties.BalancedWalkIsListingWalk | count/count.go:64-80 | With balanced slices, the walk counts every line and records every name exactly as the listing-order walk does. |
| CountProperties.AsWrittenWalkWhenFriendly | count/count.go:64-80 | The program's slices do no harm in a tree whose directories have at most four entries, or a multiple of four. |
| CountProperties.AsWrittenSlices | count/count.go:64-80 | In order, the program's slices add four blocks of `n/4` entries, each followed by the entry its slice takes in addition. |
| CountProperties.AsWrittenListing | count/count.go:64-80 | Up to order, a directory of `n > 4` entries adds its first `4*(n/4)` entries once each. It adds entry `i*(n/4)` a second time for each `1 <= i <= n % 4`. The last `n % 4` entries add nothing. |
| CountProperties.CountedFileStep | count/count.go:120-121 | In listing order, a file that is counted appends its name to the names recorded before it. |
| CountProperties.CountedFilesNamed | count/count.go:127-134 | In listing order, a run of `m` counted files records exactly `m` names, the k-th being the k-th file's name. |
| CountProperties.FiveEntriesWalked | count/count.go:64-80 | With five entries, the program processes entries 0, 1, 1, 2, 3. |
| CountProperties.FiveFilesMiscounted | count/count.go:64-80 | Take five counted files with distinct names. The program records the second file twice and the fifth never. The listing-order walk records each file once. |

## Left out

- Goroutines, channels and the data race on `Result` and the tree text are not modelled. The walk runs in listing order, so `Files` and `Dirs` come out in one of the orders the program can produce.
- Channel signalling is not modelled, including the deadlock of a root directory with exactly one entry. Line 83 calls `processEntry` directly, and its deferred send on the unbuffered `done` channel (line 91, made at line 25) has no receiver. The model processes that entry.
- `CountLines` (count/count.go:24-47) and the context library are not modelled; cancellation is a first-write-wins cell. With `context.WithCancelCause`, `ctx.Err()` is `Canceled` whatever the cause, including a read error passed at line 106. So line 42 is never reached.
- `os.ReadDir`, `os.ReadFile` and `filepath.WalkDir` are replaced by an in-memory `Node` tree and a sequence of walk events. `utf8.Valid` is a predicate supplied by the caller.
- The Go regexp engine is not modelled. The pattern `\.[\w\d\S]*\\.*` is stated directly as a predicate on the path.
- `Loading`, `createLoader` (filetree/utils.go:8-18) and the 200 ms sleep are not modelled: they are terminal output, floating point and timing.
- cmd/loc/main.go and command/command.go are not part of this model.
- Count.JoinPath: models the clean-up `path.Join` does for an empty directory and for ".", but not the rest of it (`..` elements, `./` inside the directory, doubled and trailing slashes). A root given as `./src` or `src/` therefore gives joined paths that Go would shorten.
- The `recursive` flag is not modelled: the walker passes it along but never reads it.
- Count.Result.constructor: `Count` is an unbounded integer, so Go's 64-bit `int` overflow is not modelled.
- Count.ProcessEntry: does not state which tree entry's status changes, only that the tree keeps its keys, its directories and its number of lines. ChangeFileStatus and FreshFileLineIgnoresDone state that change.
- FileTreeProperties.FreshFileLineIgnoresDone: requires that no walked name hold an escape byte. For a name holding the Pending code itself (such as `x`, ESC, `[33my`), the program does rewrite the line, and the lemma says nothing about that case.
- FileTreeProperties.RegistryLayout: is proved only for walks in which no name holds a newline. A newline in a name makes its rendering span several lines, so key k no longer belongs to the k-th registration. Each key still names the first line of its own entry's rendering; KeysNameTheirLines proves that for any names.
- The help text of `--ignore` reads "Specify which directories to ignore" (cmd/loc/main.go:16). The model follows the code:
  - The ignore list only changes a name's colour in the tree; it never excludes an entry there.
- The model follows the code in these points as well:
  - In the tree, the path pattern drops a path exactly when a dot is followed later by a backslash with no whitespace between. A dot-directory's own line, such as `\.git`, is kept. The paths below it, such as `\.git\HEAD`, are dropped, and so are the paths below any other name in which a dot is followed by the next backslash with no whitespace between, such as `\v1.2\main.go`. The path `\a. b\c.go` is kept, since a space lies between its dot and its backslash (`FileTreeProperties.PatternExamples`, `FileTreeProperties.SpacedDotKept`). Under the default root "." (cmd/loc/main.go:15) every dot is removed first, so nothing is dropped (`FileTreeProperties.DotRootRegistersEverything`).
  - The slices overlap and skip entries (see Findings).
  - The causes passed to cancel (a listing error, a read error) are not returned as errors. `CountLines` returns at once when the context is done (count/count.go:37-44), with a nil error and whatever was counted so far. The errors of `parseArgs` and `NewFileTree` are returned (count/count.go:29-35), and command/command.go:17 stops the program on them.

## Findings

| source | as written | input that shows it | evidently intended | confidence | as-written member | corrected member |
|---|---|---|---|---|---|---|
| count/count.go:64-73 | Slice `i` is `entries[i*div : (i+1)*div + addition]`. It starts at `i*div` without counting the extra entries the earlier slices took. | A directory of five files gives slices [0,2), [1,2), [2,3) and [3,4). The second file is counted and recorded twice, and the fifth never. | Four contiguous slices whose sizes differ by at most one, covering the listing once, in order. | not executed | CountProperties.FiveFilesMiscounted | CountProperties.BalancedWalkIsListingWalk |
