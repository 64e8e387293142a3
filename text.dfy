/** String helpers the handlers rely on: Go's strings.TrimSpace, the first
    element of strings.Split, strings.HasSuffix, and Go's ordering of strings.
    Strings are sequences of Unicode scalar values (Go's runes). */
module Text {

  /** Go's unicode.IsSpace: the Latin-1 spaces plus the Unicode White_Space
      characters above U+00FF. */
  predicate IsSpace(c: char) {
    var n := c as int;
    || n == 0x20 || (0x09 <= n <= 0x0D) || n == 0x85 || n == 0xA0
    || n == 0x1680 || (0x2000 <= n <= 0x200A) || n == 0x2028 || n == 0x2029
    || n == 0x202F || n == 0x205F || n == 0x3000
  }

  predicate AllSpace(s: string) {
    forall i :: 0 <= i < |s| ==> IsSpace(s[i])
  }

  /** Neither starts nor ends with a space. */
  predicate Trimmed(s: string) {
    s == [] || (!IsSpace(s[0]) && !IsSpace(s[|s| - 1]))
  }

  /** Drops the leading spaces: what is dropped is all space, what is kept is
      a suffix of `s` that does not start with a space. */
  function TrimLeft(s: string): (r: string)
    ensures |r| <= |s| && r == s[|s| - |r|..]
    ensures AllSpace(s[..|s| - |r|])
    ensures r == [] || !IsSpace(r[0])
  {
    if s != [] && IsSpace(s[0]) then TrimLeft(s[1..]) else s
  }

  /** Drops the trailing spaces. */
  function TrimRight(s: string): (r: string)
    ensures |r| <= |s| && r == s[..|r|]
    ensures AllSpace(s[|r|..])
    ensures r == [] || !IsSpace(r[|r| - 1])
  {
    if s != [] && IsSpace(s[|s| - 1]) then TrimRight(s[..|s| - 1]) else s
  }

  /** Go's strings.TrimSpace. */
  function TrimSpace(s: string): (r: string)
    ensures Trimmed(r)
    ensures |r| <= |s|
    ensures forall c :: c in r ==> c in s
  {
    TrimRight(TrimLeft(s))
  }

  lemma {:induction false} TrimLeftSkips(p: string, t: string)
    requires AllSpace(p)
    requires t == [] || !IsSpace(t[0])
    ensures TrimLeft(p + t) == t
  {
    if p != [] {
      assert (p + t)[1..] == p[1..] + t;
      TrimLeftSkips(p[1..], t);
    }
  }

  lemma {:induction false} TrimRightSkips(t: string, q: string)
    requires AllSpace(q)
    requires t == [] || !IsSpace(t[|t| - 1])
    ensures TrimRight(t + q) == t
  {
    if q != [] {
      assert (t + q)[..|t + q| - 1] == t + q[..|q| - 1];
      TrimRightSkips(t, q[..|q| - 1]);
    }
  }

  /** TrimSpace finds the one trimmed core: whenever `s` is spaces, then a
      string that neither starts nor ends with a space, then spaces, the
      result is that middle string. */
  lemma {:induction false} TrimSpaceUnique(p: string, m: string, q: string)
    requires AllSpace(p) && AllSpace(q) && Trimmed(m)
    ensures TrimSpace(p + m + q) == m
  {
    if m == [] {
      assert p + m + q == (p + q) + [];
      assert AllSpace(p + q) by {
        forall i | 0 <= i < |p + q| ensures IsSpace((p + q)[i]) {
          if i < |p| { assert (p + q)[i] == p[i]; } else { assert (p + q)[i] == q[i - |p|]; }
        }
      }
      TrimLeftSkips(p + q, []);
    } else {
      assert p + m + q == p + (m + q);
      TrimLeftSkips(p, m + q);
      TrimRightSkips(m, q);
    }
  }

  /** ... and it only ever removes spaces from the two ends. */
  lemma TrimSpaceRemovesSpaces(s: string) returns (i: nat, j: nat)
    ensures i <= j <= |s|
    ensures TrimSpace(s) == s[i..j]
    ensures AllSpace(s[..i]) && AllSpace(s[j..])
  {
    var l := TrimLeft(s);
    i := |s| - |l|;
    var r := TrimRight(l);
    j := i + |r|;
    assert l == s[i..];
    assert r == l[..|r|];
    assert s[j..] == l[|r|..];
  }

  /** The first element of Go's strings.Split(s, string(sep)): everything
      before the first `sep`, or all of `s` when it holds none. */
  function FirstSegment(s: string, sep: char): (r: string)
    ensures r <= s
    ensures sep !in r
    ensures |r| == |s| || s[|r|] == sep
  {
    if s == [] || s[0] == sep then [] else [s[0]] + FirstSegment(s[1..], sep)
  }

  /** The contract of FirstSegment pins its result down. */
  lemma {:induction false} FirstSegmentUnique(a: string, sep: char, rest: string)
    requires sep !in a
    ensures FirstSegment(a, sep) == a
    ensures FirstSegment(a + [sep] + rest, sep) == a
  {
    if a != [] {
      assert (a + [sep] + rest)[1..] == a[1..] + [sep] + rest;
      FirstSegmentUnique(a[1..], sep, rest);
    }
  }

  /** Go's strings.HasSuffix. */
  predicate HasSuffix(s: string, suffix: string) {
    |suffix| <= |s| && s[|s| - |suffix|..] == suffix
  }

  /** Go's `<` on strings (byte order of UTF-8, which is code-point order). */
  predicate LexLess(a: string, b: string) {
    if a == [] then b != []
    else if b == [] then false
    else a[0] < b[0] || (a[0] == b[0] && LexLess(a[1..], b[1..]))
  }

  lemma {:induction false} LexLessIrreflexive(a: string)
    ensures !LexLess(a, a)
  {
    if a != [] { LexLessIrreflexive(a[1..]); }
  }

  /** Comparing two strings that start with equally long parts compares the
      parts first, and the rest only when the parts agree. */
  lemma {:induction false} LexLessConcat(a: string, b: string, c: string, d: string)
    requires |a| == |b|
    ensures LexLess(a + c, b + d) <==> LexLess(a, b) || (a == b && LexLess(c, d))
    ensures a + c == b + d <==> a == b && c == d
  {
    if a == [] {
      assert a + c == c && b + d == d;
    } else {
      assert (a + c)[0] == a[0] && (b + d)[0] == b[0];
      assert (a + c)[1..] == a[1..] + c && (b + d)[1..] == b[1..] + d;
      LexLessConcat(a[1..], b[1..], c, d);
      if a == b { LexLessIrreflexive(a); }
      if a + c == b + d {
        assert a == (a + c)[..|a|] && b == (b + d)[..|b|];
      }
      if a[0] == b[0] && a[1..] == b[1..] {
        assert a == [a[0]] + a[1..] && b == [b[0]] + b[1..];
      }
    }
  }
}
