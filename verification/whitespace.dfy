/**
 Python's `str.strip()` with no argument: leading and trailing characters for
 which `str.isspace` holds are removed.
 */
module Whitespace {

  /** The characters for which Python's `str.isspace` holds: tab through
      carriage return, the separators 0x1C-0x1F, the space, and the Unicode
      characters classed as whitespace. */
  const SpaceChars: set<char> :=
    { '\t', '\n', '\U{B}', '\U{C}', '\r', '\U{1C}', '\U{1D}', '\U{1E}', '\U{1F}', ' ',
      '\U{85}', '\U{A0}', '\U{1680}',
      '\U{2000}', '\U{2001}', '\U{2002}', '\U{2003}', '\U{2004}', '\U{2005}',
      '\U{2006}', '\U{2007}', '\U{2008}', '\U{2009}', '\U{200A}',
      '\U{2028}', '\U{2029}', '\U{202F}', '\U{205F}', '\U{3000}' }

  predicate IsSpace(c: char)
  {
    c in SpaceChars
  }

  predicate AllSpace(s: string)
  {
    forall k :: 0 <= k < |s| ==> IsSpace(s[k])
  }

  /** Neither end of `t` is whitespace. */
  predicate Trimmed(t: string)
  {
    t == [] || (!IsSpace(t[0]) && !IsSpace(t[|t| - 1]))
  }

  /** The first index at or above `k` that is not whitespace (or `|s|`). */
  function SkipSpaces(s: string, k: nat): (n: nat)
    requires k <= |s|
    ensures k <= n <= |s|
    ensures forall i :: k <= i < n ==> IsSpace(s[i])
    ensures n < |s| ==> !IsSpace(s[n])
    decreases |s| - k
  {
    if k < |s| && IsSpace(s[k]) then SkipSpaces(s, k + 1) else k
  }

  /** The least index `n` in `lo..m` such that `s[n..m]` is all whitespace. */
  function SkipSpacesBack(s: string, lo: nat, m: nat): (n: nat)
    requires lo <= m <= |s|
    ensures lo <= n <= m
    ensures forall i :: n <= i < m ==> IsSpace(s[i])
    ensures n > lo ==> !IsSpace(s[n - 1])
    decreases m
  {
    if m > lo && IsSpace(s[m - 1]) then SkipSpacesBack(s, lo, m - 1) else m
  }

  /** Python's `s.strip()`: the result is a contiguous piece of `s` with only
      whitespace cut away on either side, and it is empty exactly when `s`
      is all whitespace. */
  function Strip(s: string): (r: string)
    ensures Trimmed(r)
    ensures r == [] <==> AllSpace(s)
    ensures exists a :: 0 <= a <= |s| - |r| && r == s[a..a + |r|]
                         && AllSpace(s[..a]) && AllSpace(s[a + |r|..])
  {
    var a := SkipSpaces(s, 0);
    var b := SkipSpacesBack(s, a, |s|);
    assert a == b ==> AllSpace(s) by {
      if a == b {
        assert forall i :: 0 <= i < |s| ==> IsSpace(s[i]);
      }
    }
    assert AllSpace(s[..a]);
    assert AllSpace(s[b..]);
    s[a..b]
  }

  lemma AllSpaceConcat(u: string, v: string)
    ensures AllSpace(u + v) <==> AllSpace(u) && AllSpace(v)
  {
    if AllSpace(u) && AllSpace(v) {
      forall k | 0 <= k < |u + v|
        ensures IsSpace((u + v)[k])
      {
        if k >= |u| {
          assert (u + v)[k] == v[k - |u|];
        }
      }
    }
    if AllSpace(u + v) {
      forall k | 0 <= k < |u|
        ensures IsSpace(u[k])
      {
        assert (u + v)[k] == u[k];
      }
      forall k | 0 <= k < |v|
        ensures IsSpace(v[k])
      {
        assert (u + v)[|u| + k] == v[k];
      }
    }
  }

  /** The stripped text is unique: any split of `s` into whitespace, a
      trimmed core and whitespace has `Strip(s)` as its core. */
  lemma StripUnique(w1: string, t: string, w2: string)
    requires AllSpace(w1) && AllSpace(w2) && Trimmed(t)
    ensures Strip(w1 + t + w2) == t
  {
    var s := w1 + t + w2;
    if t == [] {
      assert forall i :: 0 <= i < |s| ==> s[i] == if i < |w1| then w1[i] else w2[i - |w1|];
      assert AllSpace(s);
    } else {
      var a := SkipSpaces(s, 0);
      assert s[|w1|] == t[0];
      assert forall i :: 0 <= i < |w1| ==> s[i] == w1[i];
      assert a == |w1|;
      var e := |w1| + |t|;
      var b := SkipSpacesBack(s, a, |s|);
      assert s[e - 1] == t[|t| - 1];
      assert forall i :: e <= i < |s| ==> s[i] == w2[i - e];
      assert b == e;
      assert s[a..b] == t;
    }
  }

  /** Stripping twice is stripping once. */
  lemma StripIdempotent(s: string)
    ensures Strip(Strip(s)) == Strip(s)
  {
    var t := Strip(s);
    assert [] + t + [] == t;
    StripUnique([], t, []);
  }

  /** `s` is the whitespace that `Strip` cut from the front, the stripped
      text, and the whitespace it cut from the back. */
  lemma StripSplit(s: string) returns (p: string, q: string)
    ensures s == p + Strip(s) + q
    ensures AllSpace(p) && AllSpace(q)
  {
    var r := Strip(s);
    var a :| 0 <= a <= |s| - |r| && r == s[a..a + |r|]
             && AllSpace(s[..a]) && AllSpace(s[a + |r|..]);
    p, q := s[..a], s[a + |r|..];
    SplitThree(s, a, a + |r|);
  }

  lemma SplitThree(s: string, a: nat, b: nat)
    requires a <= b <= |s|
    ensures s == s[..a] + s[a..b] + s[b..]
  {
    assert s[..a] + s[a..] == s;
    assert s[a..] == s[a..b] + s[b..];
  }

  lemma Regroup(w1: string, p: string, t: string, q: string, w2: string)
    ensures w1 + (p + t + q) + w2 == (w1 + p) + t + (q + w2)
  {
  }

  /** Whitespace added around a string does not change what it strips to. */
  lemma StripIgnoresPadding(w1: string, s: string, w2: string)
    requires AllSpace(w1) && AllSpace(w2)
    ensures Strip(w1 + s + w2) == Strip(s)
  {
    var t := Strip(s);
    var p, q := StripSplit(s);
    Regroup(w1, p, t, q, w2);
    AllSpaceConcat(w1, p);
    AllSpaceConcat(q, w2);
    StripUnique(w1 + p, t, q + w2);
  }
}
