/**
 * The string operations the handler relies on, with Python's meaning:
 * `str.strip()`, `str.lower()`, `str.upper()`, `str.endswith()` and the
 * substring test `sub in s`.
 */
module Text {

  /** The characters for which Python's `str.isspace()` is true. */
  const Whitespace: set<char> := {
    ' ', '\t', '\n', '\r', '\U{000B}', '\U{000C}',
    '\U{001C}', '\U{001D}', '\U{001E}', '\U{001F}',
    '\U{0085}', '\U{00A0}', '\U{1680}',
    '\U{2000}', '\U{2001}', '\U{2002}', '\U{2003}', '\U{2004}', '\U{2005}',
    '\U{2006}', '\U{2007}', '\U{2008}', '\U{2009}', '\U{200A}',
    '\U{2028}', '\U{2029}', '\U{202F}', '\U{205F}', '\U{3000}'
  }

  predicate IsSpace(c: char) {
    c in Whitespace
  }

  predicate AllSpace(s: string) {
    forall i :: 0 <= i < |s| ==> IsSpace(s[i])
  }

  /** Neither starts nor ends with whitespace: what `strip()` returns. */
  predicate Unpadded(s: string) {
    |s| == 0 || (!IsSpace(s[0]) && !IsSpace(s[|s| - 1]))
  }

  /**
   * `s.strip()`: whitespace is cut off at the front, then at the back, one
   * character at a time, until neither end is whitespace.
   */
  function Strip(s: string): (r: string)
    ensures |r| <= |s| && Unpadded(r)
    ensures Unpadded(s) ==> r == s
    decreases |s|
  {
    if |s| > 0 && IsSpace(s[0]) then Strip(s[1..])
    else if |s| > 0 && IsSpace(s[|s| - 1]) then Strip(s[..|s| - 1])
    else s
  }

  /** Every string is its stripped value with whitespace around it. */
  lemma {:induction false} StripSplit(s: string) returns (a: string, b: string)
    ensures AllSpace(a) && AllSpace(b) && s == a + Strip(s) + b
    decreases |s|
  {
    if |s| > 0 && IsSpace(s[0]) {
      var a', b' := StripSplit(s[1..]);
      var c := [s[0]];
      a, b := c + a', b';
      assert AllSpace(a) by { AllSpaceConcat(c, a'); }
      assert s == c + s[1..];
      Regroup(c, a', Strip(s[1..]), b', []);
    } else if |s| > 0 && IsSpace(s[|s| - 1]) {
      var a', b' := StripSplit(s[..|s| - 1]);
      var c := [s[|s| - 1]];
      a, b := a', b' + c;
      assert AllSpace(b) by { AllSpaceConcat(b', c); }
      assert s == s[..|s| - 1] + c;
      Regroup([], a', Strip(s[..|s| - 1]), b', c);
    } else {
      a, b := [], [];
    }
  }

  /** `strip()` recovers an unpadded string from any whitespace padding around it. */
  lemma {:induction false} StripPadded(p: string, r: string, q: string)
    requires AllSpace(p) && AllSpace(q) && Unpadded(r)
    ensures Strip(p + r + q) == r
    decreases |p| + |q|
  {
    var s := p + r + q;
    if p != [] {
      assert s[0] == p[0] && IsSpace(p[0]);
      assert s[1..] == p[1..] + r + q;
      assert Strip(s) == Strip(s[1..]);
      StripPadded(p[1..], r, q);
    } else if r == [] && q != [] {
      assert s == q;
      assert IsSpace(q[0]);
      assert Strip(s) == Strip(q[1..]);
      assert q[1..] == p + r + q[1..];
      StripPadded(p, r, q[1..]);
    } else if q != [] {
      assert s == r + q;
      assert s[0] == r[0] && !IsSpace(r[0]);
      assert s[|s| - 1] == q[|q| - 1] && IsSpace(q[|q| - 1]);
      assert Strip(s) == Strip(s[..|s| - 1]);
      assert s[..|s| - 1] == p + r + q[..|q| - 1];
      StripPadded(p, r, q[..|q| - 1]);
    } else {
      assert s == r;
    }
  }

  /** Adding whitespace at either end never changes the stripped value. */
  lemma StripIgnoresPadding(p: string, s: string, q: string)
    requires AllSpace(p) && AllSpace(q)
    ensures Strip(p + s + q) == Strip(s)
  {
    var a, b := StripSplit(s);
    var r := Strip(s);
    Regroup(p, a, r, b, q);
    AllSpaceConcat(p, a);
    AllSpaceConcat(b, q);
    StripPadded(p + a, r, b + q);
  }

  lemma Regroup(p: string, a: string, r: string, b: string, q: string)
    ensures p + (a + r + b) + q == (p + a) + r + (b + q)
  {
  }

  lemma AllSpaceConcat(a: string, b: string)
    requires AllSpace(a) && AllSpace(b)
    ensures AllSpace(a + b)
  {
  }

  /** Stripping twice is stripping once. */
  lemma StripIdempotent(s: string)
    ensures Strip(Strip(s)) == Strip(s)
  {
  }

  /** A value strips to "" exactly when it is whitespace only. */
  lemma StripEmptyIffAllSpace(s: string)
    ensures Strip(s) == "" <==> AllSpace(s)
  {
    var a, b := StripSplit(s);
    AllSpaceConcat(a, b);
    if Strip(s) == "" {
      assert s == a + b;
    }
    if AllSpace(s) {
      assert s + [] + [] == s;
      StripPadded(s, [], []);
    }
  }

  /** Python's `str.lower()` on the ASCII letters. */
  function LowerChar(c: char): char {
    if 'A' <= c <= 'Z' then (c as int + 32) as char else c
  }

  /** Python's `str.upper()` on the ASCII letters. */
  function UpperChar(c: char): char {
    if 'a' <= c <= 'z' then (c as int - 32) as char else c
  }

  /** `s.lower()`: each upper-case letter becomes its lower-case counterpart, and nothing else changes. */
  function Lower(s: string): (r: string)
    ensures |r| == |s|
    ensures forall i :: 0 <= i < |r| ==> !('A' <= r[i] <= 'Z')
    ensures forall i :: 0 <= i < |s| && 'A' <= s[i] <= 'Z' ==> r[i] as int == s[i] as int + 32
    ensures forall i :: 0 <= i < |s| && !('A' <= s[i] <= 'Z') ==> r[i] == s[i]
  {
    seq(|s|, i requires 0 <= i < |s| => LowerChar(s[i]))
  }

  /** `s.upper()`: each lower-case letter becomes its upper-case counterpart, and nothing else changes. */
  function Upper(s: string): (r: string)
    ensures |r| == |s|
    ensures forall i :: 0 <= i < |r| ==> !('a' <= r[i] <= 'z')
    ensures forall i :: 0 <= i < |s| && 'a' <= s[i] <= 'z' ==> r[i] as int == s[i] as int - 32
    ensures forall i :: 0 <= i < |s| && !('a' <= s[i] <= 'z') ==> r[i] == s[i]
  {
    seq(|s|, i requires 0 <= i < |s| => UpperChar(s[i]))
  }

  /** Upper-casing keeps the lower-case form. */
  lemma LowerOfUpper(s: string)
    ensures Lower(Upper(s)) == Lower(s)
  {
    assert forall i :: 0 <= i < |s| ==> LowerChar(UpperChar(s[i])) == LowerChar(s[i]);
  }

  /** Two strings with the same lower-case form have the same upper-case form. */
  lemma UpperOfSameLower(v: string, w: string)
    requires Lower(v) == Lower(w)
    ensures Upper(v) == Upper(w)
  {
    forall i | 0 <= i < |v|
      ensures UpperChar(v[i]) == UpperChar(w[i])
    {
      assert LowerChar(v[i]) == Lower(v)[i] == Lower(w)[i] == LowerChar(w[i]);
    }
  }

  /** `s.endswith(suffix)`. */
  predicate EndsWith(s: string, suffix: string) {
    |suffix| <= |s| && s[|s| - |suffix|..] == suffix
  }

  predicate StartsWith(s: string, prefix: string) {
    |prefix| <= |s| && s[..|prefix|] == prefix
  }

  /** `sub in s`: `sub` occurs somewhere in `s`. */
  predicate Contains(s: string, sub: string)
    decreases |s|
  {
    StartsWith(s, sub) || (|s| > 0 && Contains(s[1..], sub))
  }

  /** `s.endswith(suffix)` holds whatever comes before the suffix. */
  lemma EndsWithAfterPrefix(p: string, suffix: string)
    ensures EndsWith(p + suffix, suffix)
  {
    assert (p + suffix)[|p|..] == suffix;
  }

  /** Conversely, a string that ends with `suffix` is some prefix followed by it. */
  lemma EndsWithSplits(s: string, suffix: string)
    requires EndsWith(s, suffix)
    ensures s == s[..|s| - |suffix|] + suffix
  {
  }

  /** `sub in s` holds wherever `sub` sits in `s`. */
  lemma {:induction false} ContainsAt(p: string, sub: string, q: string)
    ensures Contains(p + sub + q, sub)
  {
    if p == [] {
      assert p + sub + q == sub + q;
      assert (sub + q)[..|sub|] == sub;
    } else {
      assert (p + sub + q)[1..] == p[1..] + sub + q;
      ContainsAt(p[1..], sub, q);
    }
  }

  /** Conversely, `sub in s` means `sub` sits at some position of `s`. */
  lemma {:induction false} ContainsWitness(s: string, sub: string) returns (k: nat)
    requires Contains(s, sub)
    ensures k + |sub| <= |s| && s[k..k + |sub|] == sub
    decreases |s|
  {
    if StartsWith(s, sub) {
      k := 0;
    } else {
      var k' := ContainsWitness(s[1..], sub);
      k := k' + 1;
      assert s[k..k + |sub|] == s[1..][k'..k' + |sub|];
    }
  }
}
