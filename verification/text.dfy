/**
 * The two string primitives the search code relies on: `toLowerCase`, reduced here to
 * ASCII case folding, and `trim`, which strips the JavaScript white-space and
 * line-terminator characters from both ends.
 */
module Text {

  /** ASCII case folding of one character; every character outside A-Z is unchanged. */
  function LowerChar(c: char): char {
    if 'A' <= c <= 'Z' then (c as int + 32) as char else c
  }

  /** `s.toLowerCase()`, restricted to ASCII folding. */
  function Lower(s: string): string {
    seq(|s|, i requires 0 <= i < |s| => LowerChar(s[i]))
  }

  /**
   * The characters `String.prototype.trim` removes: the ECMAScript WhiteSpace
   * (TAB, VT, FF, SP, NBSP, ZWNBSP and the Unicode space separators) and
   * LineTerminator (LF, CR, LS, PS) code points.
   */
  predicate IsWhitespace(c: char) {
    || c == '\t' || c == '\n' || c == '\U{000B}' || c == '\U{000C}' || c == '\r'
    || c == ' ' || c == '\U{00A0}' || c == '\U{1680}'
    || ('\U{2000}' <= c <= '\U{200A}')
    || c == '\U{2028}' || c == '\U{2029}' || c == '\U{202F}' || c == '\U{205F}'
    || c == '\U{3000}' || c == '\U{FEFF}'
  }

  predicate AllWhitespace(s: string) {
    forall i :: 0 <= i < |s| ==> IsWhitespace(s[i])
  }

  /** True when `r` neither starts nor ends with white space. */
  predicate Trimmed(r: string) {
    r == [] || (!IsWhitespace(r[0]) && !IsWhitespace(r[|r| - 1]))
  }

  function TrimStart(s: string): string
    decreases |s|
  {
    if s != [] && IsWhitespace(s[0]) then TrimStart(s[1..]) else s
  }

  function TrimEnd(s: string): string
    decreases |s|
  {
    if s != [] && IsWhitespace(s[|s| - 1]) then TrimEnd(s[..|s| - 1]) else s
  }

  /** `s.trim()`. */
  function Trim(s: string): string {
    TrimEnd(TrimStart(s))
  }

  lemma {:induction false} TrimStartSkips(p: string, x: string)
    requires AllWhitespace(p)
    requires x == [] || !IsWhitespace(x[0])
    ensures TrimStart(p + x) == x
    decreases |p|
  {
    if p != [] {
      assert (p + x)[1..] == p[1..] + x;
      TrimStartSkips(p[1..], x);
    }
  }

  lemma {:induction false} TrimEndSkips(x: string, q: string)
    requires AllWhitespace(q)
    requires x == [] || !IsWhitespace(x[|x| - 1])
    ensures TrimEnd(x + q) == x
    decreases |q|
  {
    if q != [] {
      assert (x + q)[..|x + q| - 1] == x + q[..|q| - 1];
      TrimEndSkips(x, q[..|q| - 1]);
    } else {
      assert x + q == x;
    }
  }

  lemma {:induction false} TrimStartSplit(s: string) returns (i: nat)
    ensures i <= |s| && TrimStart(s) == s[i..] && AllWhitespace(s[..i])
    ensures TrimStart(s) == [] || !IsWhitespace(TrimStart(s)[0])
    decreases |s|
  {
    if s != [] && IsWhitespace(s[0]) {
      var j := TrimStartSplit(s[1..]);
      i := j + 1;
      assert s[1..][j..] == s[i..];
      assert s[..i] == [s[0]] + s[1..][..j];
    } else {
      i := 0;
    }
  }

  lemma {:induction false} TrimEndSplit(s: string) returns (j: nat)
    ensures j <= |s| && TrimEnd(s) == s[..j] && AllWhitespace(s[j..])
    ensures TrimEnd(s) == [] || !IsWhitespace(TrimEnd(s)[|TrimEnd(s)| - 1])
    decreases |s|
  {
    if s != [] && IsWhitespace(s[|s| - 1]) {
      j := TrimEndSplit(s[..|s| - 1]);
      assert s[..|s| - 1][..j] == s[..j];
      assert s[j..] == s[..|s| - 1][j..] + [s[|s| - 1]];
    } else {
      j := |s|;
    }
  }

  /**
   * Reference characterisation of trim: whatever white space surrounds a string
   * that neither starts nor ends with white space, trimming gives back that string.
   */
  lemma {:induction false} TrimUnique(p: string, r: string, q: string)
    requires AllWhitespace(p) && AllWhitespace(q) && Trimmed(r)
    ensures Trim(p + r + q) == r
  {
    if r == [] {
      assert p + r + q == (p + q) + [];
      TrimStartSkips(p + q, []);
    } else {
      assert p + r + q == p + (r + q);
      TrimStartSkips(p, r + q);
      TrimEndSkips(r, q);
    }
  }

  /** Trimming removes only white space, from the two ends, and leaves a trimmed string. */
  lemma {:induction false} TrimSplit(s: string) returns (i: nat, j: nat)
    ensures i <= j <= |s| && Trim(s) == s[i..j]
    ensures AllWhitespace(s[..i]) && AllWhitespace(s[j..])
    ensures Trimmed(Trim(s))
  {
    i := TrimStartSplit(s);
    var t := TrimStart(s);
    var k := TrimEndSplit(t);
    j := i + k;
    assert t[..k] == s[i..j];
    assert s[j..] == t[k..];
  }

  /** A query is blank exactly when trimming leaves nothing. */
  lemma TrimEmptyIff(s: string)
    ensures Trim(s) == [] <==> AllWhitespace(s)
  {
    var i, j := TrimSplit(s);
    if AllWhitespace(s) {
      assert s == s + [];
      TrimUnique(s, [], []);
    }
    if Trim(s) == [] {
      forall k | 0 <= k < |s|
        ensures IsWhitespace(s[k])
      {
        if k < i { assert s[k] == s[..i][k]; } else { assert s[k] == s[j..][k - j]; }
      }
    }
  }

  lemma TrimIdempotent(s: string)
    ensures Trim(Trim(s)) == Trim(s)
  {
    var _, _ := TrimSplit(s);
    assert [] + Trim(s) + [] == Trim(s);
    TrimUnique([], Trim(s), []);
  }

  /** Surrounding a string with white space does not change what it trims to. */
  lemma TrimPadding(p: string, s: string, q: string)
    requires AllWhitespace(p) && AllWhitespace(q)
    ensures Trim(p + s + q) == Trim(s)
  {
    var i, j := TrimSplit(s);
    assert s == s[..i] + s[i..j] + s[j..];
    assert p + s + q == (p + s[..i]) + Trim(s) + (s[j..] + q);
    TrimUnique(p + s[..i], Trim(s), s[j..] + q);
  }
}
