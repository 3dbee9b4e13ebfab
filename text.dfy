/** Hand-written scanners standing in for the few regular expressions and
    string methods the query compiler uses. Inputs hold no line terminators,
    and `\s` and `String.prototype.trim` are taken as ASCII white space. */
module Text {
  import opened Wrappers

  predicate IsSpace(c: char)
  {
    c == ' ' || c == '\t' || c == '\n' || c == '\r' || c == '\U{0B}' || c == '\U{0C}'
  }

  predicate IsSuffix(r: string, s: string)
  {
    |r| <= |s| && r == s[|s| - |r|..]
  }

  /** `s` without its leading white space (the `^\s*` of a regular expression). */
  function TrimStart(s: string): (r: string)
    ensures IsSuffix(r, s)
    ensures r != [] ==> !IsSpace(r[0])
    ensures forall i :: 0 <= i < |s| - |r| ==> IsSpace(s[i])
  {
    if s != [] && IsSpace(s[0]) then TrimStart(s[1..]) else s
  }

  /** `s` without its trailing white space. */
  function TrimEnd(s: string): (r: string)
    ensures |r| <= |s| && r == s[..|r|]
    ensures r != [] ==> !IsSpace(r[|r| - 1])
    ensures forall i :: |r| <= i < |s| ==> IsSpace(s[i])
  {
    if s != [] && IsSpace(s[|s| - 1]) then TrimEnd(s[..|s| - 1]) else s
  }

  /** Every character of `w` is white space. */
  predicate AllSpace(w: string)
  {
    forall k :: 0 <= k < |w| ==> IsSpace(w[k])
  }

  /** `s.trim()`. */
  function Trim(s: string): (r: string)
    ensures |r| <= |s|
    ensures r != [] ==> !IsSpace(r[0]) && !IsSpace(r[|r| - 1])
    ensures exists i, j :: 0 <= i <= j <= |s| && r == s[i..j] && AllSpace(s[..i]) && AllSpace(s[j..])
  {
    TrimSlice(s, TrimStart(s), TrimEnd(TrimStart(s)));
    TrimEnd(TrimStart(s))
  }

  /** Trimming both ends keeps a slice and drops only white space around it. */
  lemma TrimSlice(s: string, t: string, r: string)
    requires t == TrimStart(s) && r == TrimEnd(t)
    ensures var i := |s| - |t|;
      && i + |r| <= |s| && r == s[i..i + |r|] && AllSpace(s[..i]) && AllSpace(s[i + |r|..])
  {
    LeadingSpace(s, t);
    TrailingSpace(t, r);
    SpaceAround(s, t, r);
  }

  /** White space before a suffix `t` of `s` and after a prefix `r` of `t`
      is white space around a slice of `s`. */
  lemma SpaceAround(s: string, t: string, r: string)
    requires IsSuffix(t, s) && |r| <= |t| && r == t[..|r|]
    requires AllSpace(s[..|s| - |t|]) && AllSpace(t[|r|..])
    ensures var i := |s| - |t|;
      && i + |r| <= |s| && r == s[i..i + |r|] && AllSpace(s[..i]) && AllSpace(s[i + |r|..])
  {
    SliceBetween(s, t, r);
  }

  /** A prefix `r` of a suffix `t` of `s` is a slice of `s`, and what follows
      `r` in `t` is what follows it in `s`. */
  lemma SliceBetween(s: string, t: string, r: string)
    requires IsSuffix(t, s) && |r| <= |t| && r == t[..|r|]
    ensures var i := |s| - |t|;
      r == s[i..i + |r|] && t[|r|..] == s[i + |r|..]
  {
    var i := |s| - |t|;
    SliceOfSuffix(s, i, |r|);
    SuffixOfSuffix(s, i, |r|);
  }

  lemma LeadingSpace(s: string, t: string)
    requires t == TrimStart(s)
    ensures IsSuffix(t, s) && AllSpace(s[..|s| - |t|])
  {
    var i := |s| - |t|;
    forall k | 0 <= k < i
      ensures IsSpace(s[..i][k])
    {
      assert s[..i][k] == s[k];
    }
  }

  lemma TrailingSpace(t: string, r: string)
    requires r == TrimEnd(t)
    ensures |r| <= |t| && r == t[..|r|] && AllSpace(t[|r|..])
  {
    var j := |r|;
    forall k | 0 <= k < |t| - j
      ensures IsSpace(t[j..][k])
    {
      assert t[j..][k] == t[j + k];
    }
  }

  lemma SuffixOfSuffix(s: string, i: nat, n: nat)
    requires i + n <= |s|
    ensures s[i..][n..] == s[i + n..]
  {
  }

  lemma SliceOfSuffix(s: string, i: nat, n: nat)
    requires i + n <= |s|
    ensures s[i..][..n] == s[i..i + n]
  {
  }

  /** The first position at or after `from` that holds `c`. */
  function Find(s: string, c: char, from: nat): (r: Option<nat>)
    decreases |s| - from
    ensures r.Some? ==> from <= r.value < |s| && s[r.value] == c
    ensures r.Some? ==> forall i :: from <= i < r.value ==> s[i] != c
    ensures r.None? ==> forall i :: from <= i < |s| ==> s[i] != c
  {
    if from >= |s| then None
    else if s[from] == c then Some(from)
    else Find(s, c, from + 1)
  }

  /** Whether `s` begins with `prefix`. */
  predicate StartsWith(s: string, prefix: string)
  {
    |prefix| <= |s| && s[..|prefix|] == prefix
  }
}
