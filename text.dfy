/**
 * The string operations the controller relies on: String.Trim() and the
 * OrdinalIgnoreCase comparisons, with case folding restricted to ASCII.
 */
module Text {

  /** The characters for which .NET's char.IsWhiteSpace holds, the ones String.Trim() removes. */
  predicate IsWhiteSpace(c: char) {
    ('\t' <= c <= '\r') || c == ' ' || c == '\U{0085}' || c == '\U{00A0}' || c == '\U{1680}'
    || ('\U{2000}' <= c <= '\U{200A}') || c == '\U{2028}' || c == '\U{2029}'
    || c == '\U{202F}' || c == '\U{205F}' || c == '\U{3000}'
  }

  /** The first position at or after k that is not white space (|s| when there is none). */
  function SkipWhiteSpace(s: string, k: nat): (n: nat)
    requires k <= |s|
    ensures k <= n <= |s|
    ensures forall i :: k <= i < n ==> IsWhiteSpace(s[i])
    ensures n < |s| ==> !IsWhiteSpace(s[n])
    decreases |s| - k
  {
    if k < |s| && IsWhiteSpace(s[k]) then SkipWhiteSpace(s, k + 1) else k
  }

  /** The end of the prefix of s[..k] that does not end with white space (0 when there is none). */
  function SkipWhiteSpaceBack(s: string, k: nat): (n: nat)
    requires k <= |s|
    ensures n <= k
    ensures forall i :: n <= i < k ==> IsWhiteSpace(s[i])
    ensures n > 0 ==> !IsWhiteSpace(s[n - 1])
  {
    if k > 0 && IsWhiteSpace(s[k - 1]) then SkipWhiteSpaceBack(s, k - 1) else k
  }

  /** Drops the leading white space: what is left is a suffix that does not start with white space. */
  function TrimStart(s: string): (r: string)
    ensures |r| <= |s| && forall i :: 0 <= i < |r| ==> r[i] == s[|s| - |r| + i]
    ensures forall i :: 0 <= i < |s| - |r| ==> IsWhiteSpace(s[i])
    ensures r != [] ==> !IsWhiteSpace(r[0])
  {
    s[SkipWhiteSpace(s, 0)..]
  }

  /** Drops the trailing white space: what is left is a prefix that does not end with white space. */
  function TrimEnd(s: string): (r: string)
    ensures |r| <= |s| && forall i :: 0 <= i < |r| ==> r[i] == s[i]
    ensures forall i :: |r| <= i < |s| ==> IsWhiteSpace(s[i])
    ensures r != [] ==> !IsWhiteSpace(r[|r| - 1])
  {
    s[..SkipWhiteSpaceBack(s, |s|)]
  }

  /** String.Trim(): the middle part of the input, with exactly the leading and trailing white space removed. */
  function Trim(s: string): (r: string)
    ensures |r| <= |s|
    ensures r != [] ==> !IsWhiteSpace(r[0]) && !IsWhiteSpace(r[|r| - 1])
    ensures exists i, j :: 0 <= i <= j <= |s| && r == s[i..j]
              && (forall k :: 0 <= k < i ==> IsWhiteSpace(s[k]))
              && (forall k :: j <= k < |s| ==> IsWhiteSpace(s[k]))
  {
    TrimIsMiddle(s);
    TrimEnd(TrimStart(s))
  }

  /** The trimmed string is s[i..j] with only white space outside it. */
  lemma TrimIsMiddle(s: string)
    ensures var i := |s| - |TrimStart(s)|;
            var j := i + |TrimEnd(TrimStart(s))|;
            && 0 <= i <= j <= |s| && TrimEnd(TrimStart(s)) == s[i..j]
            && (forall k :: 0 <= k < i ==> IsWhiteSpace(s[k]))
            && (forall k :: j <= k < |s| ==> IsWhiteSpace(s[k]))
  {
    var t := TrimStart(s);
    var i := |s| - |t|;
    var j := i + |TrimEnd(t)|;
    assert t == s[i..];
    assert TrimEnd(t) == t[..j - i];
    forall k | j <= k < |s|
      ensures IsWhiteSpace(s[k])
    {
      assert s[k] == t[k - i];
    }
  }

  function ToLowerAscii(c: char): char {
    if 'A' <= c <= 'Z' then (c as int + 32) as char else c
  }

  function FoldCase(s: string): (r: string)
    ensures |r| == |s|
  {
    seq(|s|, i requires 0 <= i < |s| => ToLowerAscii(s[i]))
  }

  /** StringComparer.OrdinalIgnoreCase.Equals, for ASCII letters: character by character after case folding. */
  predicate EqualsIgnoreCase(a: string, b: string) {
    if a == [] then b == []
    else b != [] && ToLowerAscii(a[0]) == ToLowerAscii(b[0]) && EqualsIgnoreCase(a[1..], b[1..])
  }

  /** Two strings are equal ignoring case exactly when their case foldings are equal. */
  lemma {:induction false} EqualsIgnoreCaseFolds(a: string, b: string)
    ensures EqualsIgnoreCase(a, b) <==> FoldCase(a) == FoldCase(b)
  {
    if a != [] && b != [] {
      EqualsIgnoreCaseFolds(a[1..], b[1..]);
      assert FoldCase(a) == [ToLowerAscii(a[0])] + FoldCase(a[1..]);
      assert FoldCase(b) == [ToLowerAscii(b[0])] + FoldCase(b[1..]);
      assert FoldCase(a)[1..] == FoldCase(a[1..]) && FoldCase(b)[1..] == FoldCase(b[1..]);
    }
  }

  /** s.StartsWith(prefix, StringComparison.OrdinalIgnoreCase), for ASCII letters. */
  predicate StartsWithIgnoreCase(s: string, prefix: string) {
    |prefix| <= |s| && EqualsIgnoreCase(s[..|prefix|], prefix)
  }

  /** s has no upper-case ASCII letter, so it is its own case folding. */
  predicate IsFolded(s: string) {
    forall i :: 0 <= i < |s| ==> !('A' <= s[i] <= 'Z')
  }

  /**
   * Comparing ignoring case with a string that has no upper-case letter is
   * comparing the case folding with that string itself.
   */
  lemma EqualsFolded(a: string, folded: string)
    requires IsFolded(folded)
    ensures EqualsIgnoreCase(a, folded) <==> FoldCase(a) == folded
  {
    EqualsIgnoreCaseFolds(a, folded);
    assert FoldCase(folded) == folded;
  }
}
