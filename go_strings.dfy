/**
 * The two pieces of Go's `strings` and `unicode` packages that the statement
 * splitter relies on: the white-space class and `strings.TrimSpace`.
 * Strings are sequences of Unicode code points (decoded UTF-8).
 */
module GoStrings {

  /** The single white-space characters of Go's white-space class; `IsSpace` adds the range U+2000..U+200A. */
  const SpaceChars: set<char> := {
    '\t', '\n', '\U{000B}', '\U{000C}', '\r', ' ', '\U{0085}', '\U{00A0}', '\U{1680}',
    '\U{2028}', '\U{2029}', '\U{202F}', '\U{205F}', '\U{3000}'
  }

  /** `unicode.IsSpace`: the Latin-1 spaces plus the Unicode White_Space set above Latin-1. */
  predicate IsSpace(c: char)
    ensures c <= '\U{00FF}' ==>
              (IsSpace(c) <==> c in {'\t', '\n', '\U{000B}', '\U{000C}', '\r', ' ', '\U{0085}', '\U{00A0}'})
    ensures IsSpace(c) ==> '\t' <= c <= '\U{3000}'
  {
    c in SpaceChars || '\U{2000}' <= c <= '\U{200A}'
  }

  /** No white space at either end. */
  predicate IsTrimmed(s: string) {
    s == [] || (!IsSpace(s[0]) && !IsSpace(s[|s| - 1]))
  }

  /** Drops the leading white space: the result is the suffix of `s` that starts at its first non-space. */
  function TrimLeft(s: string): (r: string)
    ensures |r| <= |s|
    ensures r == [] || !IsSpace(r[0])
    ensures r != [] ==> r[|r| - 1] == s[|s| - 1]
  {
    if s != [] && IsSpace(s[0]) then TrimLeft(s[1..]) else s
  }

  /** `TrimLeft` keeps a suffix of `s` and what it drops is white space. */
  lemma {:induction false} TrimLeftDropsSpace(s: string)
    ensures TrimLeft(s) == s[|s| - |TrimLeft(s)|..]
    ensures forall k :: 0 <= k < |s| - |TrimLeft(s)| ==> IsSpace(s[k])
  {
    if s != [] && IsSpace(s[0]) {
      TrimLeftDropsSpace(s[1..]);
    }
  }

  /** Drops the trailing white space: the result is the prefix of `s` that ends at its last non-space. */
  function TrimRight(s: string): (r: string)
    ensures |r| <= |s|
    ensures r == [] || !IsSpace(r[|r| - 1])
    ensures r != [] ==> r[0] == s[0]
  {
    if s != [] && IsSpace(s[|s| - 1]) then TrimRight(s[..|s| - 1]) else s
  }

  /** `TrimRight` keeps a prefix of `s` and what it drops is white space. */
  lemma {:induction false} TrimRightDropsSpace(s: string)
    ensures TrimRight(s) == s[..|TrimRight(s)|]
    ensures forall k :: |TrimRight(s)| <= k < |s| ==> IsSpace(s[k])
  {
    if s != [] && IsSpace(s[|s| - 1]) {
      TrimRightDropsSpace(s[..|s| - 1]);
    }
  }

  /**
   * `r` is what is left of `s` once `lo` characters of white space are cut from
   * its front and everything after `lo + |r|`, all white space, from its back.
   */
  predicate CutAt(s: string, r: string, lo: nat) {
    lo + |r| <= |s| && r == s[lo..lo + |r|]
    && (forall k :: 0 <= k < lo ==> IsSpace(s[k]))
    && (forall k :: lo + |r| <= k < |s| ==> IsSpace(s[k]))
  }

  /** `strings.TrimSpace`: white space cut from both ends. */
  function TrimSpace(s: string): (r: string)
    ensures IsTrimmed(r)
  {
    TrimRight(TrimLeft(s))
  }

  /** The trim of `s` is the infix left once the white space at both ends is cut off. */
  lemma TrimSpaceCut(s: string)
    ensures exists lo: nat :: CutAt(s, TrimSpace(s), lo)
  {
    var l := TrimLeft(s);
    var r := TrimRight(l);
    var lo := |s| - |l|;
    TrimLeftDropsSpace(s);
    TrimRightDropsSpace(l);
    assert r == l[..|r|] && l == s[lo..];
    assert r == s[lo..lo + |r|];
    forall k | lo + |r| <= k < |s| ensures IsSpace(s[k]) {
      assert s[k] == l[k - lo];
    }
    assert CutAt(s, TrimSpace(s), lo);
  }

  /** Trimming a string that has no white space at its ends changes nothing. */
  lemma TrimSpaceOfTrimmed(s: string)
    requires IsTrimmed(s)
    ensures TrimSpace(s) == s
  {
  }

  /** Trimming is idempotent. */
  lemma TrimSpaceIdempotent(s: string)
    ensures TrimSpace(TrimSpace(s)) == TrimSpace(s)
  {
    TrimSpaceOfTrimmed(TrimSpace(s));
  }

  /** The trimmed string is empty exactly when `s` is all white space. */
  lemma TrimSpaceEmpty(s: string)
    ensures TrimSpace(s) == [] <==> forall k :: 0 <= k < |s| ==> IsSpace(s[k])
  {
    var r := TrimSpace(s);
    TrimSpaceCut(s);
    var lo: nat :| CutAt(s, r, lo);
    if r != [] {
      assert s[lo] == r[0];
    }
  }

  /** Trimming adds no character: whatever `s` lacks, its trim lacks too. */
  lemma TrimSpaceKeepsOut(s: string, c: char)
    requires c !in s
    ensures c !in TrimSpace(s)
  {
    var r := TrimSpace(s);
    TrimSpaceCut(s);
    var lo: nat :| CutAt(s, r, lo);
    forall i | 0 <= i < |r| ensures r[i] != c {
      assert r[i] == s[lo + i];
    }
  }
}
