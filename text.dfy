/** JavaScript's `String.prototype.trim` and the "blank input" test both
    boards apply to what the user typed. */
module Text {

  /** The code points `trim` strips: ECMAScript's WhiteSpace and LineTerminator. */
  predicate IsSpace(c: char)
  {
    || c == '\t' || c == '\n' || c == '\U{000B}' || c == '\U{000C}' || c == '\r'
    || c == ' ' || c == '\U{00A0}' || c == '\U{1680}'
    || ('\U{2000}' <= c <= '\U{200A}')
    || c == '\U{2028}' || c == '\U{2029}' || c == '\U{202F}' || c == '\U{205F}'
    || c == '\U{3000}' || c == '\U{FEFF}'
  }

  /** `s` with its leading white space removed: a suffix of `s` that does not
      start with white space, and only white space was dropped. */
  function TrimStart(s: string): (r: string)
    ensures |r| <= |s| && r == s[|s| - |r|..]
    ensures forall k :: 0 <= k < |s| - |r| ==> IsSpace(s[k])
    ensures r == [] || !IsSpace(r[0])
  {
    if s != [] && IsSpace(s[0]) then TrimStart(s[1..]) else s
  }

  /** `s` with its trailing white space removed: a prefix of `s` that does not
      end with white space, and only white space was dropped. */
  function TrimEnd(s: string): (r: string)
    ensures |r| <= |s| && r == s[..|r|]
    ensures forall k :: |r| <= k < |s| ==> IsSpace(s[k])
    ensures r == [] || !IsSpace(r[|r| - 1])
  {
    if s != [] && IsSpace(s[|s| - 1]) then TrimEnd(s[..|s| - 1]) else s
  }

  /** `s.trim()`: neither end of the result is white space. */
  function Trim(s: string): (r: string)
    ensures |r| <= |s|
    ensures r == [] || (!IsSpace(r[0]) && !IsSpace(r[|r| - 1]))
  {
    TrimEnd(TrimStart(s))
  }

  /** A prefix `r` of a suffix `t` of `s` is the stretch of `s` that starts
      where `t` does, and white space after `r` in `t` is white space after
      that stretch in `s`. */
  lemma SliceOfSuffix(s: string, t: string, r: string)
    requires |t| <= |s| && t == s[|s| - |t|..]
    requires |r| <= |t| && r == t[..|r|]
    requires forall k :: |r| <= k < |t| ==> IsSpace(t[k])
    ensures var lo := |s| - |t|;
      && s[lo..lo + |r|] == r
      && (forall k :: lo + |r| <= k < |s| ==> IsSpace(s[k]))
  {
    var lo := |s| - |t|;
    forall k | lo + |r| <= k < |s| ensures IsSpace(s[k]) {
      assert s[k] == t[k - lo];
    }
  }

  /** What `trim` keeps is a stretch of `s`, starting at `lo`, and only
      white space lies outside it. */
  lemma TrimSlice(s: string)
    ensures var lo := |s| - |TrimStart(s)|;
      && lo + |Trim(s)| <= |s|
      && Trim(s) == s[lo..lo + |Trim(s)|]
      && (forall k :: 0 <= k < lo ==> IsSpace(s[k]))
      && (forall k :: lo + |Trim(s)| <= k < |s| ==> IsSpace(s[k]))
  {
    var t := TrimStart(s);
    var r := TrimEnd(t);
    assert Trim(s) == r;
    SliceOfSuffix(s, t, r);
  }

  /** The test `s.trim() === ""` (and `!s.trim()`, as the empty string is falsy). */
  predicate IsBlank(s: string): (b: bool)
    ensures b <==> forall k :: 0 <= k < |s| ==> IsSpace(s[k])
  {
    BlankIffAllSpace(s);
    Trim(s) == ""
  }

  /** Text is blank exactly when every character of it is white space. */
  lemma BlankIffAllSpace(s: string)
    ensures Trim(s) == "" <==> forall k :: 0 <= k < |s| ==> IsSpace(s[k])
  {
  }

  /** Trimming twice is trimming once. */
  lemma TrimIdempotent(s: string)
    ensures Trim(Trim(s)) == Trim(s)
  {
    var r := Trim(s);
    assert r == [] || !IsSpace(r[0]);
    assert TrimStart(r) == r;
    assert r == [] || !IsSpace(r[|r| - 1]);
    assert TrimEnd(r) == r;
  }

  /** Trimmed text that is not empty is not blank. */
  lemma TrimmedNotBlank(s: string)
    requires !IsBlank(s)
    ensures Trim(s) != [] && !IsBlank(Trim(s))
  {
  }
}
