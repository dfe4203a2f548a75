/**
 * The two JavaScript string built-ins the pages rely on, `String.prototype.trim`
 * and `String.prototype.toUpperCase`, on strings of Unicode scalar values.
 * Case mapping covers the ASCII letters only.
 */
module JsStrings {

  /** The characters `trim` removes: ECMAScript's WhiteSpace and LineTerminator. */
  predicate IsWhiteSpace(c: char) {
    || c == '\t' || c == '\n' || c == '\U{000B}' || c == '\U{000C}' || c == '\r' || c == ' '
    || c == '\U{00A0}' || c == '\U{1680}' || ('\U{2000}' <= c <= '\U{200A}')
    || c == '\U{2028}' || c == '\U{2029}' || c == '\U{202F}' || c == '\U{205F}'
    || c == '\U{3000}' || c == '\U{FEFF}'
  }

  predicate AllWhiteSpace(s: string) {
    forall i :: 0 <= i < |s| ==> IsWhiteSpace(s[i])
  }

  /** Neither starts nor ends with white space. */
  predicate IsTrimmed(s: string) {
    s != [] ==> !IsWhiteSpace(s[0]) && !IsWhiteSpace(s[|s| - 1])
  }

  /** Drops the leading white space. */
  function TrimStart(s: string): (r: string)
    ensures |r| <= |s| && r == s[|s| - |r|..]
    ensures AllWhiteSpace(s[..|s| - |r|])
    ensures r != [] ==> !IsWhiteSpace(r[0])
  {
    if s != [] && IsWhiteSpace(s[0]) then TrimStart(s[1..]) else s
  }

  /** Drops the trailing white space. */
  function TrimEnd(s: string): (r: string)
    ensures |r| <= |s| && r == s[..|r|]
    ensures AllWhiteSpace(s[|r|..])
    ensures r != [] ==> !IsWhiteSpace(r[|r| - 1])
  {
    if s != [] && IsWhiteSpace(s[|s| - 1]) then TrimEnd(s[..|s| - 1]) else s
  }

  /** `s.trim()`: white space cut from both ends (`TrimSplits` gives what was cut). */
  function Trim(s: string): (r: string)
    ensures IsTrimmed(r)
    ensures |r| <= |s|
  {
    var t := TrimStart(s);
    var r := TrimEnd(t);
    assert r != [] ==> r[0] == t[0];
    r
  }

  lemma {:induction false} TrimStartOfPadded(a: string, u: string)
    requires AllWhiteSpace(a)
    requires u != [] ==> !IsWhiteSpace(u[0])
    ensures TrimStart(a + u) == u
  {
    if a != [] {
      assert (a + u)[1..] == a[1..] + u;
      TrimStartOfPadded(a[1..], u);
    } else {
      assert a + u == u;
    }
  }

  lemma {:induction false} TrimEndOfPadded(u: string, b: string)
    requires AllWhiteSpace(b)
    requires u != [] ==> !IsWhiteSpace(u[|u| - 1])
    ensures TrimEnd(u + b) == u
  {
    if b != [] {
      assert (u + b)[..|u + b| - 1] == u + b[..|b| - 1];
      TrimEndOfPadded(u, b[..|b| - 1]);
    } else {
      assert u + b == u;
    }
  }

  /** Trimming a trimmed core padded by white space on both sides gives back the core. */
  lemma TrimOfPadded(a: string, t: string, b: string)
    requires AllWhiteSpace(a) && AllWhiteSpace(b) && IsTrimmed(t)
    ensures Trim(a + t + b) == t
  {
    assert a + t + b == a + (t + b);
    if t != [] {
      TrimStartOfPadded(a, t + b);
      TrimEndOfPadded(t, b);
    } else {
      assert AllWhiteSpace(a + b);
      TrimStartOfPadded(a + b, []);
      assert a + b + [] == a + t + b;
    }
  }

  /** A trimmed string is its own `trim`. */
  lemma TrimOfTrimmed(t: string)
    requires IsTrimmed(t)
    ensures Trim(t) == t
  {
    assert TrimStart(t) == t;
    assert TrimEnd(t) == t;
  }

  /** `trim` is idempotent. */
  lemma TrimIdempotent(s: string)
    ensures Trim(Trim(s)) == Trim(s)
  {
    TrimOfTrimmed(Trim(s));
  }

  lemma WhiteSpaceConcat(x: string, y: string)
    requires AllWhiteSpace(x) && AllWhiteSpace(y)
    ensures AllWhiteSpace(x + y)
  {
  }

  /** Sequence regrouping, stated apart to keep the proofs of `TrimSplits` and `TrimIgnoresPadding` small. */
  lemma Regroup(a: string, a': string, t: string, b': string, b: string)
    ensures a + (a' + t + b') + b == (a + a') + t + (b' + b)
  {
  }

  /** Sequence regrouping, stated apart to keep the proofs of `TrimSplits` and `TrimIgnoresPadding` small. */
  lemma SplitAt(s: string, k: nat)
    requires k <= |s|
    ensures s == s[..k] + s[k..]
  {
  }

  /** Sequence regrouping, stated apart to keep the proofs of `TrimSplits` and `TrimIgnoresPadding` small. */
  lemma Regroup3(a: string, r: string, b: string)
    ensures a + (r + b) == a + r + b
  {
  }

  /** Every string is its trimmed core with white space before and after. */
  lemma TrimSplits(s: string) returns (a: string, b: string)
    ensures AllWhiteSpace(a) && AllWhiteSpace(b)
    ensures s == a + Trim(s) + b
  {
    var t := TrimStart(s);
    var r := TrimEnd(t);
    a, b := s[..|s| - |t|], t[|r|..];
    SplitAt(s, |s| - |t|);
    SplitAt(t, |r|);
    Regroup3(a, r, b);
  }

  /** Surrounding white space does not change what `trim` returns. */
  lemma TrimIgnoresPadding(a: string, s: string, b: string)
    requires AllWhiteSpace(a) && AllWhiteSpace(b)
    ensures Trim(a + s + b) == Trim(s)
  {
    var t := Trim(s);
    var a', b' := TrimSplits(s);
    Regroup(a, a', t, b', b);
    WhiteSpaceConcat(a, a');
    WhiteSpaceConcat(b', b);
    TrimOfPadded(a + a', t, b' + b);
  }

  /** `s.trim()` is empty exactly when `s` is all white space (or empty). */
  lemma TrimEmptyIffBlank(s: string)
    ensures Trim(s) == [] <==> AllWhiteSpace(s)
  {
    if AllWhiteSpace(s) {
      TrimOfPadded(s, [], []);
      assert s + [] + [] == s;
    }
    if Trim(s) == [] {
      var a, b := TrimSplits(s);
      assert s == a + b;
      WhiteSpaceConcat(a, b);
    }
  }

  predicate IsAsciiLower(c: char) { 'a' <= c <= 'z' }

  predicate IsAsciiUpper(c: char) { 'A' <= c <= 'Z' }

  /** `c.toUpperCase()` for one character (ASCII letters only). */
  function UpperChar(c: char): char {
    if IsAsciiLower(c) then (c as int - 'a' as int + 'A' as int) as char else c
  }

  /** `c.toLowerCase()` for one character (ASCII letters only); the reference case-fold. */
  function LowerChar(c: char): char {
    if IsAsciiUpper(c) then (c as int - 'A' as int + 'a' as int) as char else c
  }

  /** `s.toUpperCase()`: no lower-case letter is left, and every character folds as before. */
  function ToUpperCase(s: string): (r: string)
    ensures |r| == |s|
    ensures forall i :: 0 <= i < |s| ==> !IsAsciiLower(r[i]) && LowerChar(r[i]) == LowerChar(s[i])
  {
    seq(|s|, i requires 0 <= i < |s| => UpperChar(s[i]))
  }

  /** Equal up to the case of letters. */
  predicate SameIgnoringCase(s: string, t: string) {
    |s| == |t| && forall i :: 0 <= i < |s| ==> LowerChar(s[i]) == LowerChar(t[i])
  }

  /** Two strings that differ only in letter case upper-case to the same string. */
  lemma UpperCaseDecidedByFold(s: string, t: string)
    requires SameIgnoringCase(s, t)
    ensures ToUpperCase(s) == ToUpperCase(t)
  {
    var u, v := ToUpperCase(s), ToUpperCase(t);
    forall i | 0 <= i < |s| ensures u[i] == v[i] {
      assert LowerChar(u[i]) == LowerChar(v[i]);
    }
  }

  lemma UpperCaseIdempotent(s: string)
    ensures ToUpperCase(ToUpperCase(s)) == ToUpperCase(s)
  {
    UpperCaseDecidedByFold(ToUpperCase(s), s);
  }

  lemma UpperCaseConcat(s: string, t: string)
    ensures ToUpperCase(s + t) == ToUpperCase(s) + ToUpperCase(t)
  {
  }

  lemma UpperCaseConcat3(a: string, t: string, b: string)
    ensures ToUpperCase(a + t + b) == ToUpperCase(a) + ToUpperCase(t) + ToUpperCase(b)
  {
    UpperCaseConcat(a + t, b);
    UpperCaseConcat(a, t);
  }

  lemma UpperCaseKeepsWhiteSpace(a: string)
    requires AllWhiteSpace(a)
    ensures AllWhiteSpace(ToUpperCase(a))
  {
    var ua := ToUpperCase(a);
    forall i | 0 <= i < |a| ensures IsWhiteSpace(ua[i]) {
      assert ua[i] == UpperChar(a[i]);
    }
  }

  lemma UpperCaseKeepsTrimmed(t: string)
    requires IsTrimmed(t)
    ensures IsTrimmed(ToUpperCase(t))
  {
    var ut := ToUpperCase(t);
    if t != [] {
      assert ut[0] == UpperChar(t[0]);
      assert ut[|t| - 1] == UpperChar(t[|t| - 1]);
    }
  }

  /** Upper-casing neither creates nor removes white space, so it commutes with `trim`. */
  lemma TrimUpperCaseCommute(s: string)
    ensures Trim(ToUpperCase(s)) == ToUpperCase(Trim(s))
  {
    var t := Trim(s);
    var a, b := TrimSplits(s);
    UpperCaseConcat3(a, t, b);
    UpperCaseKeepsWhiteSpace(a);
    UpperCaseKeepsWhiteSpace(b);
    UpperCaseKeepsTrimmed(t);
    TrimOfPadded(ToUpperCase(a), ToUpperCase(t), ToUpperCase(b));
  }
}
