/**
 The string test the notes form applies before it accepts a draft:
 `s.trim()` used as a condition, that is, "does anything but white space
 remain once leading and trailing white space are stripped".
 */
module Text {

  /** The code points `String.prototype.trim` strips: the WhiteSpace and
      LineTerminator productions of ECMA-262 (sections 12.2 White Space and
      12.3 Line Terminators), with the Zs category written out. */
  predicate IsWs(c: char) {
    || c == '\t' || c == '\n' || c == '\U{000B}' || c == '\U{000C}' || c == '\r'
    || c == ' ' || c == '\U{00A0}' || c == '\U{1680}'
    || ('\U{2000}' <= c <= '\U{200A}')
    || c == '\U{2028}' || c == '\U{2029}' || c == '\U{202F}' || c == '\U{205F}'
    || c == '\U{3000}' || c == '\U{FEFF}'
  }

  /** Every character of `s` is white space (the empty string included). */
  ghost predicate IsBlank(s: string) {
    forall i :: 0 <= i < |s| ==> IsWs(s[i])
  }

  /** Strips leading white space: the result is the suffix of `s` that
      starts at its first non-white-space character. */
  function TrimStart(s: string): (r: string)
    ensures |r| <= |s| && r == s[|s| - |r|..]
    ensures forall i :: 0 <= i < |s| - |r| ==> IsWs(s[i])
    ensures r == [] || !IsWs(r[0])
    decreases |s|
  {
    if s != [] && IsWs(s[0]) then TrimStart(s[1..]) else s
  }

  /** Strips trailing white space: the result is the prefix of `s` that
      ends at its last non-white-space character. */
  function TrimEnd(s: string): (r: string)
    ensures |r| <= |s| && r == s[..|r|]
    ensures forall i :: |r| <= i < |s| ==> IsWs(s[i])
    ensures r == [] || !IsWs(r[|r| - 1])
    decreases |s|
  {
    if s != [] && IsWs(s[|s| - 1]) then TrimEnd(s[..|s| - 1]) else s
  }

  /** `r` occurs in `s` starting at position `k`, and everything of `s`
      before and after that occurrence is white space. */
  ghost predicate TrimmedAt(r: string, s: string, k: int) {
    && 0 <= k <= |s| - |r|
    && r == s[k..k + |r|]
    && (forall i :: 0 <= i < k ==> IsWs(s[i]))
    && (forall i :: k + |r| <= i < |s| ==> IsWs(s[i]))
  }

  /** A white-space-led suffix `t` of `s`, cut down to a prefix `r` followed
      by white space, leaves `r` sitting in `s` between white space. */
  lemma SliceBetweenBlanks(s: string, t: string, r: string)
    requires |t| <= |s| && t == s[|s| - |t|..]
    requires forall i :: 0 <= i < |s| - |t| ==> IsWs(s[i])
    requires |r| <= |t| && r == t[..|r|]
    requires forall i :: |r| <= i < |t| ==> IsWs(t[i])
    ensures TrimmedAt(r, s, |s| - |t|)
  {
    var k := |s| - |t|;
    assert r == s[k..k + |r|];
    forall i | k + |r| <= i < |s| ensures IsWs(s[i]) {
      assert s[i] == t[i - k];
    }
  }

  /** `String.prototype.trim`: `s` with its leading and trailing white space
      removed and nothing else, empty exactly when `s` is blank. */
  function Trim(s: string): (r: string)
    ensures r == [] <==> IsBlank(s)
    ensures r != [] ==> !IsWs(r[0]) && !IsWs(r[|r| - 1])
    ensures exists k :: TrimmedAt(r, s, k)
  {
    var t := TrimStart(s);
    var r, k := TrimEnd(t), |s| - |t|;
    SliceBetweenBlanks(s, t, r);
    assert r == [] ==> IsBlank(s) by {
      if r == [] {
        forall i | 0 <= i < |s| ensures IsWs(s[i]) {
          if i < k {} else {}
        }
      }
    }
    assert IsBlank(s) ==> r == [] by {
      if t != [] { assert t[0] == s[k]; }
    }
    r
  }

  /** JavaScript truthiness of `s.trim()`: a non-empty trimmed string. */
  predicate HasText(s: string)
    ensures HasText(s) <==> !IsBlank(s)
  {
    Trim(s) != []
  }

  /** Inner white space survives trimming. */
  lemma TrimKeepsInnerSpace()
    ensures Trim(" a b ") == "a b"
  {
    var s, u, t := " a b ", "a b ", "a b";
    assert s[1..] == u && u[..3] == t;
    assert TrimStart(u) == u by {
      assert !IsWs(u[0]);
    }
    assert TrimEnd(t) == t by {
      assert !IsWs(t[2]);
    }
  }
}
