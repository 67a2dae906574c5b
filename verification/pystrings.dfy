/**
 Python `str` operations the bot relies on, with Python's own semantics:
 `find` and `rfind` answer -1 on a miss, slicing clamps its bounds, and
 `replace(pat, "")` removes the non-overlapping occurrences of `pat` from
 left to right.
 */
module PyStrings {

  /** `sub` occurs in `s` starting at index `i`. */
  predicate OccursAt(s: string, sub: string, i: int)
  {
    0 <= i && i + |sub| <= |s| && s[i..i + |sub|] == sub
  }

  /** A one-character pattern occurs exactly where that character stands. */
  lemma OccursAtChar(s: string, c: char, i: int)
    ensures OccursAt(s, [c], i) <==> 0 <= i < |s| && s[i] == c
  {
    if 0 <= i < |s| {
      assert s[i..i + 1] == [s[i]];
    }
  }

  /** An occurrence in a suffix is an occurrence in the whole string, shifted. */
  lemma OccursAtSuffix(s: string, sub: string, k: nat, i: int)
    requires k <= |s|
    ensures OccursAt(s[k..], sub, i) <==> 0 <= i && OccursAt(s, sub, i + k)
  {
    if 0 <= i && i + |sub| <= |s| - k {
      assert s[k..][i..i + |sub|] == s[i + k..i + k + |sub|];
    }
  }

  /** Python's `s.find(sub)`: the lowest index at which `sub` occurs, or -1. */
  function Find(s: string, sub: string): (r: int)
    ensures -1 <= r <= |s|
    ensures r == -1 <==> forall i :: 0 <= i <= |s| ==> !OccursAt(s, sub, i)
    ensures r >= 0 ==> OccursAt(s, sub, r) && forall i :: 0 <= i < r ==> !OccursAt(s, sub, i)
  {
    FindFrom(s, sub, 0)
  }

  /** The lowest index at or above `k` at which `sub` occurs, or -1. */
  function FindFrom(s: string, sub: string, k: nat): (r: int)
    ensures r == -1 || k <= r <= |s|
    ensures r == -1 <==> forall i :: k <= i <= |s| ==> !OccursAt(s, sub, i)
    ensures r >= 0 ==> OccursAt(s, sub, r) && forall i :: k <= i < r ==> !OccursAt(s, sub, i)
    decreases |s| + 1 - k
  {
    if k + |sub| > |s| then -1
    else if s[k..k + |sub|] == sub then assert OccursAt(s, sub, k); k
    else FindFrom(s, sub, k + 1)
  }

  /** Python's `s.rfind(sub)`: the highest index at which `sub` occurs, or -1. */
  function RFind(s: string, sub: string): (r: int)
    ensures -1 <= r <= |s|
    ensures r == -1 <==> forall i :: 0 <= i <= |s| ==> !OccursAt(s, sub, i)
    ensures r >= 0 ==> OccursAt(s, sub, r) && forall i :: r < i <= |s| ==> !OccursAt(s, sub, i)
  {
    RFindDownFrom(s, sub, |s| - |sub|)
  }

  /** The highest index at or below `k` at which `sub` occurs, or -1. */
  function RFindDownFrom(s: string, sub: string, k: int): (r: int)
    requires k <= |s| - |sub|
    ensures r == -1 || 0 <= r <= k
    ensures r == -1 <==> forall i :: 0 <= i <= k ==> !OccursAt(s, sub, i)
    ensures r >= 0 ==> OccursAt(s, sub, r) && forall i :: r < i <= k ==> !OccursAt(s, sub, i)
    decreases k + 1
  {
    if k < 0 then -1
    else if s[k..k + |sub|] == sub then assert OccursAt(s, sub, k); k
    else RFindDownFrom(s, sub, k - 1)
  }

  /** Python's `sub in s`. */
  function Contains(s: string, sub: string): (b: bool)
    ensures b <==> exists i :: 0 <= i <= |s| && OccursAt(s, sub, i)
  {
    Find(s, sub) >= 0
  }

  /** Python's normalisation of one slice bound against a string of length
      `len`: a negative bound counts from the end, then the bound is clamped
      to the range 0..len. */
  function SliceBound(len: nat, i: int): (b: nat)
    ensures b <= len
    ensures 0 <= i <= len ==> b == i
    ensures i > len ==> b == len
    ensures i < 0 && len + i >= 0 ==> b == len + i
    ensures len + i < 0 ==> b == 0
  {
    if i < 0 then (if len + i < 0 then 0 else len + i)
    else if i > len then len
    else i
  }

  /** Python's `s[start:stop]` with the default step. */
  function Slice(s: string, start: int, stop: int): (r: string)
    ensures 0 <= start <= stop <= |s| ==> r == s[start..stop]
    ensures SliceBound(|s|, stop) <= SliceBound(|s|, start) ==> r == []
    ensures SliceBound(|s|, start) < SliceBound(|s|, stop) ==>
              r == s[SliceBound(|s|, start)..SliceBound(|s|, stop)]
  {
    var a := SliceBound(|s|, start);
    var b := SliceBound(|s|, stop);
    if a < b then s[a..b] else []
  }

  /** A negative start counts from the end: `s[-k:]` is the last `k`
      characters, and a start further back than the whole string reads as
      the beginning. */
  lemma SliceFromEnd(s: string, k: int)
    requires 0 < k
    ensures k <= |s| ==> Slice(s, -k, |s|) == s[|s| - k..] && |Slice(s, -k, |s|)| == k
    ensures k > |s| ==> Slice(s, -k, |s|) == s
  {
    if k > |s| {
      assert s[0..|s|] == s;
    }
  }

  /** Python's `s.replace(pat, "")`: scanning left to right, every occurrence
      of `pat` that does not overlap an earlier removed one is cut out. An
      empty pattern leaves the string as it is. */
  function RemoveAll(s: string, pat: string): (r: string)
    ensures |r| <= |s|
    decreases |s|
  {
    if |pat| == 0 || |s| < |pat| then s
    else if s[..|pat|] == pat then RemoveAll(s[|pat|..], pat)
    else [s[0]] + RemoveAll(s[1..], pat)
  }

  /** With no occurrence of `pat` below index `k`, removal keeps `s[..k]`
      verbatim and continues on the rest. */
  lemma {:induction false} RemoveAllKeepsClearPrefix(s: string, pat: string, k: nat)
    requires |pat| > 0 && k <= |s|
    requires forall i :: 0 <= i < k ==> !OccursAt(s, pat, i)
    ensures RemoveAll(s, pat) == s[..k] + RemoveAll(s[k..], pat)
    decreases k
  {
    if k == 0 {
      assert s[..0] == [] && s[0..] == s;
    } else if |s| < |pat| {
      RemoveAllShort(s, pat, k);
    } else {
      var t := s[1..];
      RemoveAllNoMatchFront(s, pat);
      ClearPrefixShift(s, pat, k);
      RemoveAllKeepsClearPrefix(t, pat, k - 1);
      ConsSplit(s, k);
      ConsRegroup(s, k, RemoveAll(s, pat), RemoveAll(t, pat), RemoveAll(s[k..], pat));
    }
  }

  lemma ConsRegroup(s: string, k: nat, whole: string, afterHead: string, rest: string)
    requires 0 < k <= |s|
    requires whole == [s[0]] + afterHead
    requires afterHead == s[1..][..k - 1] + rest
    ensures whole == s[..k] + rest
  {
    ConsSplit(s, k);
    assert [s[0]] + (s[1..][..k - 1] + rest) == ([s[0]] + s[1..][..k - 1]) + rest;
  }

  /** Text shorter than the pattern is kept whole, split anywhere. */
  lemma RemoveAllShort(s: string, pat: string, k: nat)
    requires |s| < |pat| && k <= |s|
    ensures RemoveAll(s, pat) == s[..k] + RemoveAll(s[k..], pat)
  {
    assert RemoveAll(s[k..], pat) == s[k..];
    assert s[..k] + s[k..] == s;
  }

  lemma ConsSplit(s: string, k: nat)
    requires 0 < k <= |s|
    ensures s[1..][k - 1..] == s[k..]
    ensures [s[0]] + s[1..][..k - 1] == s[..k]
  {
  }

  /** Without an occurrence at the front, the first character is kept and
      the scan moves on by one. */
  lemma RemoveAllNoMatchFront(s: string, pat: string)
    requires 0 < |pat| <= |s|
    requires !OccursAt(s, pat, 0)
    ensures RemoveAll(s, pat) == [s[0]] + RemoveAll(s[1..], pat)
  {
  }

  lemma ClearPrefixShift(s: string, pat: string, k: nat)
    requires 0 < k <= |s|
    requires forall i :: 0 <= i < k ==> !OccursAt(s, pat, i)
    ensures forall i :: 0 <= i < k - 1 ==> !OccursAt(s[1..], pat, i)
  {
    forall i | 0 <= i < k - 1
      ensures !OccursAt(s[1..], pat, i)
    {
      OccursAtSuffix(s, pat, 1, i);
    }
  }

  /** An occurrence at the very front is cut and the scan resumes after it. */
  lemma RemoveAllLeadingMatch(pat: string, t: string)
    requires |pat| > 0
    ensures RemoveAll(pat + t, pat) == RemoveAll(t, pat)
  {
    assert (pat + t)[..|pat|] == pat;
    assert (pat + t)[|pat|..] == t;
  }

  /** A string that lacks the pattern's first character is left as it is. */
  lemma RemoveAllWithoutHead(s: string, pat: string)
    requires |pat| > 0
    requires forall k :: 0 <= k < |s| ==> s[k] != pat[0]
    ensures RemoveAll(s, pat) == s
  {
    forall i | 0 <= i < |s|
      ensures !OccursAt(s, pat, i)
    {
      if i + |pat| <= |s| {
        assert s[i..i + |pat|][0] == s[i];
      }
    }
    RemoveAllKeepsClearPrefix(s, pat, |s|);
    assert s[..|s|] == s;
  }

  /** Removal as Python performs it: find the first occurrence, keep what
      precedes it, skip the occurrence, and repeat on what follows. */
  lemma RemoveAllViaFind(s: string, pat: string)
    requires |pat| > 0
    ensures Find(s, pat) == -1 ==> RemoveAll(s, pat) == s
    ensures Find(s, pat) >= 0 ==>
              RemoveAll(s, pat) == s[..Find(s, pat)] + RemoveAll(s[Find(s, pat) + |pat|..], pat)
  {
    var i := Find(s, pat);
    if i == -1 {
      RemoveAllKeepsClearPrefix(s, pat, |s|);
      assert s[..|s|] == s;
    } else {
      RemoveAllKeepsClearPrefix(s, pat, i);
      var t := s[i..];
      assert t[..|pat|] == pat;
      assert t[|pat|..] == s[i + |pat|..];
    }
  }

  /** Removing a non-empty pattern changes the string exactly when the
      pattern occurs in it. */
  lemma RemoveAllUnchangedIff(s: string, pat: string)
    requires |pat| > 0
    ensures RemoveAll(s, pat) == s <==> !Contains(s, pat)
  {
    RemoveAllViaFind(s, pat);
    var i := Find(s, pat);
    if i >= 0 {
      var rest := s[i + |pat|..];
      assert |RemoveAll(s, pat)| <= i + |rest| < |s|;
    }
  }
}
