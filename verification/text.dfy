/**
  JavaScript's `String.prototype.trim` and the "blank" test `!s.trim()` that
  every form guard of the dashboard uses.
 */
module Text {

  /**
    The characters `trim` removes: ECMAScript WhiteSpace (tab, vertical tab,
    form feed, space, no-break space, zero-width no-break space and the
    Unicode space separators) and LineTerminator (LF, CR, LS, PS).
   */
  predicate IsSpace(c: char) {
    || c == '\t' || c == '\n' || c == '\U{0B}' || c == '\U{0C}' || c == '\r' || c == ' '
    || c == '\U{A0}' || c == '\U{1680}' || ('\U{2000}' <= c <= '\U{200A}')
    || c == '\U{2028}' || c == '\U{2029}' || c == '\U{202F}' || c == '\U{205F}'
    || c == '\U{3000}' || c == '\U{FEFF}'
  }

  /** `s` without its leading white space. */
  function TrimStart(s: string): (r: string)
    ensures |r| <= |s| && r == s[|s| - |r|..]
    ensures forall i :: 0 <= i < |s| - |r| ==> IsSpace(s[i])
    ensures |r| > 0 ==> !IsSpace(r[0])
    decreases |s|
  {
    if |s| > 0 && IsSpace(s[0]) then TrimStart(s[1..]) else s
  }

  /** `s` without its trailing white space. */
  function TrimEnd(s: string): (r: string)
    ensures |r| <= |s| && r == s[..|r|]
    ensures forall i :: |r| <= i < |s| ==> IsSpace(s[i])
    ensures |r| > 0 ==> !IsSpace(r[|r| - 1])
    decreases |s|
  {
    if |s| > 0 && IsSpace(s[|s| - 1]) then TrimEnd(s[..|s| - 1]) else s
  }

  /** Every character of `s` is white space (vacuously so for ""). */
  predicate AllSpace(s: string) {
    forall i :: 0 <= i < |s| ==> IsSpace(s[i])
  }

  /**
    `s.trim()`: what is left neither starts nor ends with white space, and
    nothing is left exactly when `s` is white space only.
   */
  function Trim(s: string): (r: string)
    ensures |r| <= |s|
    ensures |r| > 0 ==> !IsSpace(r[0]) && !IsSpace(r[|r| - 1])
    ensures r == "" <==> AllSpace(s)
  {
    var t := TrimStart(s);
    assert forall k :: 0 <= k < |t| ==> t[k] == s[|s| - |t| + k];
    TrimEnd(t)
  }

  /** `!s.trim()`: a string is blank exactly when it is white space only. */
  predicate IsBlank(s: string): (r: bool)
    ensures r <==> AllSpace(s)
  {
    Trim(s) == ""
  }

  /** What `TrimStart` cuts off is white space. */
  lemma TrimStartCut(s: string)
    ensures AllSpace(s[..|s| - |TrimStart(s)|])
  {
    var lo := |s| - |TrimStart(s)|;
    forall k | 0 <= k < lo
      ensures IsSpace(s[..lo][k])
    {
      assert s[..lo][k] == s[k];
    }
  }

  /** What `TrimEnd` cuts off is white space. */
  lemma TrimEndCut(t: string)
    ensures AllSpace(t[|TrimEnd(t)|..])
  {
    var n := |TrimEnd(t)|;
    forall k | 0 <= k < |t| - n
      ensures IsSpace(t[n..][k])
    {
      assert t[n..][k] == t[n + k];
    }
  }

  /**
    Cutting white space off the front of `s` (leaving `t`) and then off the
    back of `t` (leaving `r`) leaves a slice of `s` with white space on both
    sides of it.
  */
  lemma CutBothEnds(s: string, t: string, r: string)
    requires |t| <= |s| && t == s[|s| - |t|..] && AllSpace(s[..|s| - |t|])
    requires |r| <= |t| && r == t[..|r|] && AllSpace(t[|r|..])
    ensures exists lo, hi ::
      (0 <= lo <= hi <= |s| && r == s[lo..hi] && AllSpace(s[..lo]) && AllSpace(s[hi..]))
  {
    var lo, hi := |s| - |t|, |s| - |t| + |r|;
    assert r == s[lo..hi];
    assert s[hi..] == t[|r|..];
  }

  /**
    Trimming keeps the string's inner part: it is a contiguous slice of it,
    and everything cut off on either side is white space.
  */
  lemma TrimIsSlice(s: string)
    ensures exists lo, hi ::
      (0 <= lo <= hi <= |s| && Trim(s) == s[lo..hi] && AllSpace(s[..lo]) && AllSpace(s[hi..]))
  {
    var t := TrimStart(s);
    TrimStartCut(s);
    TrimEndCut(t);
    assert Trim(s) == TrimEnd(t);
    CutBothEnds(s, t, TrimEnd(t));
  }
}
