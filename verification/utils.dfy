/** The generic slice filter of package `utils` (utils/utils.go). */
module Utils {

  /** The elements of `s` that satisfy `p`, in their order in `s`. */
  function Filtered<T>(s: seq<T>, p: T -> bool): (r: seq<T>)
    ensures |r| <= |s|
    ensures forall k :: 0 <= k < |r| ==> p(r[k])
    decreases |s|
  {
    if s == [] then []
    else Filtered(s[..|s| - 1], p) + (if p(s[|s| - 1]) then [s[|s| - 1]] else [])
  }

  /** `Filter`: appends, in one pass, every element the callback accepts. */
  method Filter<T>(s: seq<T>, callback: T -> bool) returns (result: seq<T>)
    ensures result == Filtered(s, callback)
  {
    result := [];
    for i := 0 to |s|
      invariant result == Filtered(s[..i], callback)
    {
      assert s[..i + 1][..i] == s[..i];
      if callback(s[i]) {
        result := result + [s[i]];
      }
    }
    assert s[..|s|] == s;
  }

  /** How many elements of `s` satisfy `p`, counted from the front. */
  function CountSatisfying<T>(s: seq<T>, p: T -> bool): nat
    decreases |s|
  {
    if s == [] then 0 else (if p(s[0]) then 1 else 0) + CountSatisfying(s[1..], p)
  }

  lemma {:induction false} CountSatisfyingAppend<T>(a: seq<T>, b: seq<T>, p: T -> bool)
    ensures CountSatisfying(a + b, p) == CountSatisfying(a, p) + CountSatisfying(b, p)
    decreases |a|
  {
    if a == [] {
      assert a + b == b;
    } else {
      assert (a + b)[0] == a[0];
      assert (a + b)[1..] == a[1..] + b;
      CountSatisfyingAppend(a[1..], b, p);
    }
  }

  /** The result is exactly as long as the number of elements that satisfy `p`. */
  lemma {:induction false} FilteredLength<T>(s: seq<T>, p: T -> bool)
    ensures |Filtered(s, p)| == CountSatisfying(s, p)
    decreases |s|
  {
    if s != [] {
      var init, last := s[..|s| - 1], s[|s| - 1];
      FilteredLength(init, p);
      CountSatisfyingAppend(init, [last], p);
      assert init + [last] == s;
    }
  }

  /**
   * Every element that satisfies `p` is kept, as often as it occurs in `s`, and
   * no other element is.
   */
  lemma {:induction false} FilteredOccurrences<T>(s: seq<T>, p: T -> bool, x: T)
    ensures multiset(Filtered(s, p))[x] == if p(x) then multiset(s)[x] else 0
    decreases |s|
  {
    if s != [] {
      var init, last := s[..|s| - 1], s[|s| - 1];
      FilteredOccurrences(init, p, x);
      assert init + [last] == s;
      assert multiset(s) == multiset(init) + multiset{last};
    }
  }

  /**
   * The result is a subsequence of `s`: `idx` picks, in strictly increasing
   * order, the positions of `s` that make up the result.
   */
  lemma {:induction false} FilteredIsSubsequence<T>(s: seq<T>, p: T -> bool) returns (idx: seq<nat>)
    ensures |idx| == |Filtered(s, p)|
    ensures forall k :: 0 <= k < |idx| ==> idx[k] < |s| && s[idx[k]] == Filtered(s, p)[k]
    ensures forall j, k :: 0 <= j < k < |idx| ==> idx[j] < idx[k]
    decreases |s|
  {
    if s == [] {
      idx := [];
    } else {
      var init := s[..|s| - 1];
      idx := FilteredIsSubsequence(init, p);
      if p(s[|s| - 1]) {
        idx := idx + [|s| - 1];
      }
    }
  }

  /** A predicate that holds of every element keeps the sequence as it is. */
  lemma {:induction false} FilterAllAccepted<T>(s: seq<T>, p: T -> bool)
    requires forall k :: 0 <= k < |s| ==> p(s[k])
    ensures Filtered(s, p) == s
    decreases |s|
  {
    if s != [] {
      FilterAllAccepted(s[..|s| - 1], p);
      assert s[..|s| - 1] + [s[|s| - 1]] == s;
    }
  }

  /** A predicate that holds of no element leaves nothing. */
  lemma {:induction false} FilterAllRejected<T>(s: seq<T>, p: T -> bool)
    requires forall k :: 0 <= k < |s| ==> !p(s[k])
    ensures Filtered(s, p) == []
    decreases |s|
  {
    if s != [] {
      FilterAllRejected(s[..|s| - 1], p);
    }
  }

  /** Filtering twice with the same predicate is filtering once. */
  lemma FilterIdempotent<T>(s: seq<T>, p: T -> bool)
    ensures Filtered(Filtered(s, p), p) == Filtered(s, p)
  {
    FilterAllAccepted(Filtered(s, p), p);
  }
}
