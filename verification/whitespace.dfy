/** JavaScript's `String.prototype.trim`: strips leading and trailing white
    space and line terminators, as the ECMAScript language specification
    defines them (its WhiteSpace and LineTerminator productions). */
module Whitespace {

  /** The code points `trim` strips: TAB, VT, FF, ZWNBSP and every space
      separator (Unicode category Zs), plus the line terminators LF, CR, LS
      and PS. */
  predicate IsWhitespace(c: char) {
    var n := c as int;
    || n == 0x09 || n == 0x0B || n == 0x0C || n == 0xFEFF
    || n == 0x20 || n == 0xA0 || n == 0x1680 || (0x2000 <= n <= 0x200A)
    || n == 0x202F || n == 0x205F || n == 0x3000
    || n == 0x0A || n == 0x0D || n == 0x2028 || n == 0x2029
  }

  /** Every character of `s` is white space (vacuously so for ""). */
  predicate AllWhitespace(s: string) {
    forall i :: 0 <= i < |s| ==> IsWhitespace(s[i])
  }

  /** `s` neither starts nor ends with white space. */
  predicate IsTrimmed(s: string) {
    |s| == 0 || (!IsWhitespace(s[0]) && !IsWhitespace(s[|s| - 1]))
  }

  /** `s` without its leading white space. */
  function TrimStart(s: string): (r: string)
    ensures |r| <= |s| && r == s[|s| - |r|..]
    ensures AllWhitespace(s[..|s| - |r|])
    ensures |r| > 0 ==> !IsWhitespace(r[0])
    decreases |s|
  {
    if |s| > 0 && IsWhitespace(s[0]) then TrimStart(s[1..]) else s
  }

  /** `s` without its trailing white space. */
  function TrimEnd(s: string): (r: string)
    ensures |r| <= |s| && r == s[..|r|]
    ensures AllWhitespace(s[|r|..])
    ensures |r| > 0 ==> !IsWhitespace(r[|r| - 1])
    decreases |s|
  {
    if |s| > 0 && IsWhitespace(s[|s| - 1]) then TrimEnd(s[..|s| - 1]) else s
  }

  /** `s.trim()`. */
  function Trim(s: string): (r: string)
    ensures IsTrimmed(r)
    ensures |r| == 0 <==> AllWhitespace(s)
  {
    var t := TrimStart(s);
    var r := TrimEnd(t);
    assert |r| == 0 ==> s == s[..|s| - |t|];
    r
  }

  /** The trimmed string is the slice `s[i..j]` of `s` left once a
      white-space prefix `s[..i]` and a white-space suffix `s[j..]` are cut
      off. */
  lemma TrimSplit(s: string) returns (i: nat, j: nat)
    ensures i <= j <= |s| && Trim(s) == s[i..j]
    ensures AllWhitespace(s[..i]) && AllWhitespace(s[j..])
  {
    var t := TrimStart(s);
    var r := TrimEnd(t);
    i := |s| - |t|;
    j := i + |r|;
    assert r == s[i..j];
    assert t[|r|..] == s[j..];
  }

  /** Stripping white space off the front of white space followed by `m`
      leaves `m`, provided `m` does not start with white space. */
  lemma {:induction false} TrimStartPrefix(p: string, m: string)
    requires AllWhitespace(p)
    requires |m| == 0 || !IsWhitespace(m[0])
    ensures TrimStart(p + m) == m
    decreases |p|
  {
    if |p| == 0 {
      assert p + m == m;
    } else {
      assert (p + m)[0] == p[0];
      assert (p + m)[1..] == p[1..] + m;
      TrimStartPrefix(p[1..], m);
    }
  }

  /** Stripping white space off the back of `m` followed by white space
      leaves `m`, provided `m` does not end with white space. */
  lemma {:induction false} TrimEndSuffix(m: string, q: string)
    requires AllWhitespace(q)
    requires |m| == 0 || !IsWhitespace(m[|m| - 1])
    ensures TrimEnd(m + q) == m
    decreases |q|
  {
    if |q| == 0 {
      assert m + q == m;
    } else {
      assert (m + q)[|m + q| - 1] == q[|q| - 1];
      assert (m + q)[..|m + q| - 1] == m + q[..|q| - 1];
      TrimEndSuffix(m, q[..|q| - 1]);
    }
  }

  /** `trim` characterised without reference to how it is computed: a string
      that is white space, then a trimmed middle, then white space, trims to
      that middle. */
  lemma TrimCharacterization(p: string, m: string, q: string)
    requires AllWhitespace(p) && AllWhitespace(q) && IsTrimmed(m)
    ensures Trim(p + m + q) == m
  {
    if |m| == 0 {
      assert p + m + q == p + q;
      assert AllWhitespace(p + q) by {
        forall i | 0 <= i < |p + q|
          ensures IsWhitespace((p + q)[i])
        {
          if i >= |p| {
            assert (p + q)[i] == q[i - |p|];
          }
        }
      }
    } else {
      assert p + m + q == p + (m + q);
      assert (m + q)[0] == m[0];
      TrimStartPrefix(p, m + q);
      TrimEndSuffix(m, q);
    }
  }

  /** Trimming a string that is already trimmed changes nothing. */
  lemma TrimOfTrimmed(r: string)
    requires IsTrimmed(r)
    ensures Trim(r) == r
  {
    assert TrimStart(r) == r;
    assert TrimEnd(r) == r;
  }

  /** Trimming is idempotent. */
  lemma TrimIdempotent(s: string)
    ensures Trim(Trim(s)) == Trim(s)
  {
    TrimOfTrimmed(Trim(s));
  }
}
