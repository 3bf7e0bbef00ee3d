/**
 * The part of ECMAScript's `String.prototype.trim` that the task list relies on:
 * strip the white space and line terminators at both ends of a string.
 * Strings are sequences of Unicode code points.
 */
module JsString {

  /** WhiteSpace (ECMA-262, section 12.2) or LineTerminator (section 12.3). */
  predicate IsWhitespace(c: char)
  {
    // WhiteSpace: TAB, VT, FF, ZWNBSP and every code point of category Zs
    c == '\U{0009}' || c == '\U{000B}' || c == '\U{000C}' || c == '\U{FEFF}' ||
    c == '\U{0020}' || c == '\U{00A0}' || c == '\U{1680}' ||
    ('\U{2000}' <= c <= '\U{200A}') || c == '\U{202F}' || c == '\U{205F}' || c == '\U{3000}' ||
    // LineTerminator: LF, CR, LS, PS
    c == '\U{000A}' || c == '\U{000D}' || c == '\U{2028}' || c == '\U{2029}'
  }

  predicate AllWhitespace(s: string)
  {
    forall k :: 0 <= k < |s| ==> IsWhitespace(s[k])
  }

  /** Neither end of `s` is white space: trimming has nothing to remove. */
  predicate IsTrimmed(s: string)
  {
    s == [] || (!IsWhitespace(s[0]) && !IsWhitespace(s[|s| - 1]))
  }

  /** The length of the longest all-white-space prefix of `s`. */
  function LeadingWhitespace(s: string): (n: nat)
    ensures n <= |s|
    ensures AllWhitespace(s[..n])
    ensures n < |s| ==> !IsWhitespace(s[n])
  {
    if s == [] || !IsWhitespace(s[0]) then 0 else 1 + LeadingWhitespace(s[1..])
  }

  /** The length of the longest all-white-space suffix of `s`. */
  function TrailingWhitespace(s: string): (n: nat)
    ensures n <= |s|
    ensures forall k :: |s| - n <= k < |s| ==> IsWhitespace(s[k])
    ensures n < |s| ==> !IsWhitespace(s[|s| - 1 - n])
  {
    if s == [] || !IsWhitespace(s[|s| - 1]) then 0 else 1 + TrailingWhitespace(s[..|s| - 1])
  }

  /**
   * `s.trim()`: the leading white space goes first, then the trailing white space
   * of what is left. The result is the middle of `s`, with nothing but white space
   * cut off on either side, and it has no white space at either end.
   */
  function Trim(s: string): (r: string)
    ensures IsTrimmed(r)
    ensures LeadingWhitespace(s) + |r| <= |s|
    ensures s[LeadingWhitespace(s)..LeadingWhitespace(s) + |r|] == r
    ensures AllWhitespace(s[..LeadingWhitespace(s)])
    ensures AllWhitespace(s[LeadingWhitespace(s) + |r|..])
  {
    var rest := s[LeadingWhitespace(s)..];
    rest[..|rest| - TrailingWhitespace(rest)]
  }

  /** A run of white space followed by a non-white-space character (or the end) is exactly what `LeadingWhitespace` skips. */
  lemma {:induction false} LeadingWhitespaceIs(s: string, n: nat)
    requires n <= |s| && AllWhitespace(s[..n])
    requires n < |s| ==> !IsWhitespace(s[n])
    ensures LeadingWhitespace(s) == n
  {
    if n > 0 {
      assert s[..n][0] == s[0];
      assert s[1..][..n - 1] == s[..n][1..];
      LeadingWhitespaceIs(s[1..], n - 1);
    }
  }

  /** The mirror image of `LeadingWhitespaceIs`. */
  lemma {:induction false} TrailingWhitespaceIs(s: string, n: nat)
    requires n <= |s|
    requires forall k :: |s| - n <= k < |s| ==> IsWhitespace(s[k])
    requires n < |s| ==> !IsWhitespace(s[|s| - 1 - n])
    ensures TrailingWhitespace(s) == n
  {
    if n > 0 {
      var init := s[..|s| - 1];
      assert TrailingWhitespace(s) == 1 + TrailingWhitespace(init);
      TrailingWhitespaceIs(init, n - 1);
    }
  }

  lemma AllWhitespaceConcat(a: string, b: string)
    requires AllWhitespace(a) && AllWhitespace(b)
    ensures AllWhitespace(a + b)
  {
    forall k | 0 <= k < |a + b| ensures IsWhitespace((a + b)[k]) {
      if k < |a| { assert (a + b)[k] == a[k]; } else { assert (a + b)[k] == b[k - |a|]; }
    }
  }

  /**
   * The reference characterisation of trimming: whenever `s` is white space, then a
   * string with no white space at its ends, then white space, trimming `s` gives
   * exactly that middle string. With the ensures of `Trim` this says that `Trim(s) == m`
   * if and only if `s` splits in this way around `m`.
   */
  lemma {:induction false} TrimOfPadded(p: string, m: string, q: string)
    requires AllWhitespace(p) && AllWhitespace(q) && IsTrimmed(m)
    ensures Trim(p + m + q) == m
  {
    var s := p + m + q;
    if m == [] {
      assert s == p + q;
      AllWhitespaceConcat(p, q);
      assert s[..|s|] == s;
      LeadingWhitespaceIs(s, |s|);
      assert s[|s|..] == [];
    } else {
      assert s[..|p|] == p;
      assert s[|p|] == m[0];
      LeadingWhitespaceIs(s, |p|);
      var rest := s[|p|..];
      assert rest == m + q;
      assert rest[|rest| - |q|..] == q;
      assert rest[|rest| - 1 - |q|] == m[|m| - 1];
      TrailingWhitespaceIs(rest, |q|);
      assert rest[..|rest| - |q|] == m;
    }
  }

  /** Trimming twice is trimming once. */
  lemma {:induction false} TrimIdempotent(s: string)
    ensures Trim(Trim(s)) == Trim(s)
  {
    var r := Trim(s);
    assert [] + r + [] == r;
    TrimOfPadded([], r, []);
  }

  /** A string with no white space at either end is its own trim. */
  lemma {:induction false} TrimOfTrimmed(s: string)
    requires IsTrimmed(s)
    ensures Trim(s) == s
  {
    assert [] + s + [] == s;
    TrimOfPadded([], s, []);
  }

  /** The trim is empty exactly when the string is empty or all white space. */
  lemma {:induction false} TrimEmptyIff(s: string)
    ensures Trim(s) == [] <==> AllWhitespace(s)
  {
    if AllWhitespace(s) {
      assert s + [] + [] == s;
      TrimOfPadded(s, [], []);
    }
    if Trim(s) == [] {
      var l := LeadingWhitespace(s);
      assert s == s[..l] + s[l..];
      AllWhitespaceConcat(s[..l], s[l..]);
    }
  }
}
