/**
 * The few functions of Go's `strings` package that the line counter relies on.
 * A Go string is a sequence of bytes; here each element of a `string` stands for
 * one byte, so `|s|` is Go's `len(s)`.
 */
module GoStrings {

  /** `strings.HasPrefix` */
  predicate HasPrefix(s: string, prefix: string) {
    |prefix| <= |s| && s[..|prefix|] == prefix
  }

  /** `strings.HasSuffix` */
  predicate HasSuffix(s: string, suffix: string) {
    |suffix| <= |s| && s[|s| - |suffix|..] == suffix
  }

  /** `strings.Contains`: `sub` occurs somewhere in `s` (the empty string occurs everywhere). */
  predicate Contains(s: string, sub: string)
    decreases |s|
  {
    HasPrefix(s, sub) || (s != [] && Contains(s[1..], sub))
  }

  /** Number of occurrences of the byte `c` in `s`. */
  function CountChar(s: string, c: char): nat
    decreases |s|
  {
    if s == [] then 0 else (if s[0] == c then 1 else 0) + CountChar(s[1..], c)
  }

  /**
   * `strings.ReplaceAll(s, old, new)`, with `pat` for `old` and `rep` for `new`:
   * occurrences of `pat` are found left to right and do not overlap. With an empty
   * `pat` Go inserts `rep` between every rune; the line counter only does that with
   * an empty `rep`, where Go returns `s` unchanged.
   */
  function ReplaceAll(s: string, pat: string, rep: string): string
    requires pat != [] || rep == []
    decreases |s|
  {
    if pat == [] || s == [] then s
    else if HasPrefix(s, pat) then rep + ReplaceAll(s[|pat|..], pat, rep)
    else [s[0]] + ReplaceAll(s[1..], pat, rep)
  }

  /** `strings.Split(s, sep)` for a one-byte separator. */
  function Split(s: string, sep: char): (parts: seq<string>)
    ensures |parts| >= 1
    decreases |s|
  {
    if s == [] then [[]]
    else
      var rest := Split(s[1..], sep);
      if s[0] == sep then [[]] + rest else [[s[0]] + rest[0]] + rest[1..]
  }

  /** `strings.Join(parts, sep)` for a one-byte separator. */
  function Join(parts: seq<string>, sep: char): string
    decreases |parts|
  {
    if parts == [] then []
    else if |parts| == 1 then parts[0]
    else parts[0] + [sep] + Join(parts[1..], sep)
  }

  // ---------------------------------------------------------------- lemmas

  lemma {:induction false} CountCharAppend(a: string, b: string, c: char)
    ensures CountChar(a + b, c) == CountChar(a, c) + CountChar(b, c)
    decreases |a|
  {
    if a == [] {
      assert a + b == b;
    } else {
      assert (a + b)[0] == a[0];
      assert (a + b)[1..] == a[1..] + b;
      CountCharAppend(a[1..], b, c);
    }
  }

  lemma {:induction false} CountCharAbsent(s: string, c: char)
    requires c !in s
    ensures CountChar(s, c) == 0
    decreases |s|
  {
    if s != [] { CountCharAbsent(s[1..], c); }
  }

  /** Splitting yields one more part than there are separators. */
  lemma {:induction false} SplitLength(s: string, sep: char)
    ensures |Split(s, sep)| == CountChar(s, sep) + 1
    decreases |s|
  {
    if s != [] { SplitLength(s[1..], sep); }
  }

  /** No part of a split contains the separator. */
  lemma {:induction false} SplitPartsFree(s: string, sep: char)
    ensures forall k :: 0 <= k < |Split(s, sep)| ==> sep !in Split(s, sep)[k]
    decreases |s|
  {
    if s != [] { SplitPartsFree(s[1..], sep); }
  }

  /** A byte absent from the string is absent from every part of its split. */
  lemma {:induction false} SplitKeepsByteOut(s: string, sep: char, c: char)
    requires c !in s
    ensures forall k :: 0 <= k < |Split(s, sep)| ==> c !in Split(s, sep)[k]
    decreases |s|
  {
    if s != [] { SplitKeepsByteOut(s[1..], sep, c); }
  }

  /** A string without the separator splits into itself. */
  lemma {:induction false} SplitWithoutSeparator(s: string, sep: char)
    requires sep !in s
    ensures Split(s, sep) == [s]
    decreases |s|
  {
    if s != [] {
      SplitWithoutSeparator(s[1..], sep);
      assert [s[0]] + s[1..] == s;
    }
  }

  /** A separator cuts the split in two: `Split(a + sep + b) == Split(a) ++ Split(b)`. */
  lemma SplitAround(a: string, b: string, sep: char)
    ensures Split(a + [sep] + b, sep) == Split(a, sep) + Split(b, sep)
  {
    var s := a + [sep] + b;
    assert s[..|a|] == a && s[|a| + 1..] == b;
    SplitAt(s, |a|, sep);
  }

  /** A prefix without the separator stays at the front of the first part. */
  lemma {:induction false} SplitFirstAfterPlain(a: string, b: string, sep: char)
    requires sep !in a
    ensures Split(a + b, sep)[0] == a + Split(b, sep)[0]
    decreases |a|
  {
    if a == [] {
      assert a + b == b;
    } else {
      var s := a + b;
      assert s[0] == a[0] && s[1..] == a[1..] + b;
      SplitStep(s, sep);
      SplitFirstAfterPlain(a[1..], b, sep);
      assert [a[0]] + (a[1..] + Split(b, sep)[0]) == a + Split(b, sep)[0];
    }
  }

  /** A separator at index `i` cuts the split in two. */
  lemma {:induction false} SplitAt(s: string, i: nat, sep: char)
    requires i < |s| && s[i] == sep
    ensures Split(s, sep) == Split(s[..i], sep) + Split(s[i + 1..], sep)
    decreases i
  {
    var tail := Split(s[i + 1..], sep);
    if i == 0 {
      assert s[..0] == [];
      assert Split(s, sep) == [[]] + tail;
    } else {
      var head := Split(s[1..i], sep);
      assert Split(s[1..], sep) == head + tail by {
        assert s[1..][..i - 1] == s[1..i] && s[1..][i..] == s[i + 1..];
        SplitAt(s[1..], i - 1, sep);
      }
      assert Split(s[..i], sep) == ConsByte(s[0], head, sep) by {
        assert s[..i][0] == s[0] && s[..i][1..] == s[1..i];
        SplitStep(s[..i], sep);
      }
      SplitStep(s, sep);
      ConsByteAppend(s[0], head, tail, sep);
    }
  }

  /** The parts of a string whose first byte is `c` and whose remaining bytes split into `parts`. */
  function ConsByte(c: char, parts: seq<string>, sep: char): seq<string>
    requires |parts| >= 1
  {
    if c == sep then [[]] + parts else [[c] + parts[0]] + parts[1..]
  }

  /** One step of `Split`: the first byte starts a new part or extends the first one. */
  lemma SplitStep(s: string, sep: char)
    requires s != []
    ensures Split(s, sep) == ConsByte(s[0], Split(s[1..], sep), sep)
  {
  }

  lemma ConsByteAppend(c: char, parts: seq<string>, tail: seq<string>, sep: char)
    requires |parts| >= 1
    ensures ConsByte(c, parts + tail, sep) == ConsByte(c, parts, sep) + tail
  {
    if c != sep {
      assert (parts + tail)[1..] == parts[1..] + tail;
    }
  }

  /** `strings.Join` undoes `strings.Split`. */
  lemma {:induction false} JoinSplit(s: string, sep: char)
    ensures Join(Split(s, sep), sep) == s
    decreases |s|
  {
    if s != [] {
      var rest := Split(s[1..], sep);
      assert Join(rest, sep) == s[1..] by { JoinSplit(s[1..], sep); }
      if s[0] == sep {
        assert Join(Split(s, sep), sep) == [sep] + Join(rest, sep) by {
          assert Split(s, sep) == [[]] + rest;
          JoinStartEmpty(rest, sep);
        }
      } else {
        assert Join(Split(s, sep), sep) == [s[0]] + Join(rest, sep) by {
          assert Split(s, sep) == [[s[0]] + rest[0]] + rest[1..];
          JoinExtendFirst(s[0], rest, sep);
        }
      }
      assert [s[0]] + s[1..] == s;
    }
  }

  /** An empty first part puts a separator in front of the joined string. */
  lemma JoinStartEmpty(parts: seq<string>, sep: char)
    requires |parts| >= 1
    ensures Join([[]] + parts, sep) == [sep] + Join(parts, sep)
  {
    assert ([[]] + parts)[1..] == parts;
  }

  /** Putting a byte in front of the first part puts it in front of the joined string. */
  lemma JoinExtendFirst(c: char, parts: seq<string>, sep: char)
    requires |parts| >= 1
    ensures Join([[c] + parts[0]] + parts[1..], sep) == [c] + Join(parts, sep)
  {
    var extended := [[c] + parts[0]] + parts[1..];
    if |parts| > 1 {
      assert extended[1..] == parts[1..];
      assert Join(extended, sep) == ([c] + parts[0]) + [sep] + Join(parts[1..], sep);
    }
  }

  /** `strings.Split` undoes `strings.Join` when no part holds the separator. */
  lemma {:induction false} SplitJoin(parts: seq<string>, sep: char)
    requires |parts| >= 1
    requires forall k :: 0 <= k < |parts| ==> sep !in parts[k]
    ensures Split(Join(parts, sep), sep) == parts
    decreases |parts|
  {
    if |parts| == 1 {
      SplitWithoutSeparator(parts[0], sep);
    } else {
      SplitJoin(parts[1..], sep);
      SplitAround(parts[0], Join(parts[1..], sep), sep);
      SplitWithoutSeparator(parts[0], sep);
      assert [parts[0]] + parts[1..] == parts;
    }
  }

  /** Replacing in a string can only bring in bytes of the string or of `new`. */
  lemma {:induction false} ReplaceKeepsByteOut(s: string, pat: string, rep: string, c: char)
    requires pat != [] || rep == []
    requires c !in s && c !in rep
    ensures c !in ReplaceAll(s, pat, rep)
    decreases |s|
  {
    if pat != [] && s != [] {
      if HasPrefix(s, pat) {
        ReplaceKeepsByteOut(s[|pat|..], pat, rep, c);
      } else {
        ReplaceKeepsByteOut(s[1..], pat, rep, c);
      }
    }
  }

  /** A string in which `old` does not occur comes back unchanged. */
  lemma {:induction false} ReplaceAbsent(s: string, pat: string, rep: string)
    requires pat != [] || rep == []
    requires !Contains(s, pat)
    ensures ReplaceAll(s, pat, rep) == s
    decreases |s|
  {
    if pat != [] && s != [] {
      ReplaceAbsent(s[1..], pat, rep);
      assert [s[0]] + s[1..] == s;
    }
  }

  /** A one-byte string occurs in `s` exactly when its byte does. */
  lemma {:induction false} ContainsByte(s: string, c: char)
    ensures Contains(s, [c]) <==> c in s
    decreases |s|
  {
    if s != [] {
      ContainsByte(s[1..], c);
      assert s == [s[0]] + s[1..];
    }
  }

  /**
   * A prefix without the first byte of `old` passes through a replacement untouched:
   * no occurrence can start inside it.
   */
  lemma {:induction false} ReplaceAfterPlainPrefix(a: string, b: string, pat: string, rep: string)
    requires pat != []
    requires pat[0] !in a
    ensures ReplaceAll(a + b, pat, rep) == a + ReplaceAll(b, pat, rep)
    decreases |a|
  {
    if a == [] {
      assert a + b == b;
    } else {
      var s := a + b;
      assert s[0] == a[0] && a[0] != pat[0];
      assert !HasPrefix(s, pat) by {
        if |pat| <= |s| { assert s[..|pat|][0] != pat[0]; }
      }
      assert s[1..] == a[1..] + b;
      ReplaceAfterPlainPrefix(a[1..], b, pat, rep);
      assert ReplaceAll(s, pat, rep) == [a[0]] + (a[1..] + ReplaceAll(b, pat, rep));
      assert [a[0]] + a[1..] == a;
    }
  }

  /** Removing a one-byte string removes every occurrence of that byte. */
  lemma {:induction false} StripByteRemovesAll(s: string, pat: string)
    requires |pat| == 1
    ensures pat[0] !in ReplaceAll(s, pat, [])
    ensures |ReplaceAll(s, pat, [])| == |s| - CountChar(s, pat[0])
    decreases |s|
  {
    if s != [] {
      StripByteRemovesAll(s[1..], pat);
      if HasPrefix(s, pat) {
        assert s[0] == pat[0];
      } else {
        assert s[..1] == [s[0]];
      }
    }
  }

  /** Removing one byte value leaves the count of every other byte value as it was. */
  lemma {:induction false} StripKeepsOtherBytes(s: string, pat: string, c: char)
    requires |pat| == 1 && c != pat[0]
    ensures CountChar(ReplaceAll(s, pat, []), c) == CountChar(s, c)
    decreases |s|
  {
    if s != [] {
      StripKeepsOtherBytes(s[1..], pat, c);
      if HasPrefix(s, pat) {
        assert s[..1][0] == s[0] == pat[0];
        assert s[|pat|..] == s[1..];
        assert ReplaceAll(s, pat, []) == [] + ReplaceAll(s[1..], pat, []);
        assert [] + ReplaceAll(s[1..], pat, []) == ReplaceAll(s[1..], pat, []);
      } else {
        CountCharAppend([s[0]], ReplaceAll(s[1..], pat, []), c);
      }
    }
  }
}
