/**
 * String helpers with the meaning JavaScript gives them: the white-space
 * class used by `String.prototype.trim` and by the RegExp escape `\s`
 * (WhiteSpace and LineTerminator code points of ECMA-262), the three trims,
 * and "occurs at" for a literal pattern.
 */
module Text {

  /** `\s` in a RegExp and the characters `trim()` removes. */
  predicate IsWhite(c: char) {
    var n := c as int;
    || n == 0x09 || n == 0x0A || n == 0x0B || n == 0x0C || n == 0x0D
    || n == 0x20 || n == 0xA0 || n == 0x1680
    || (0x2000 <= n <= 0x200A)
    || n == 0x2028 || n == 0x2029 || n == 0x202F || n == 0x205F
    || n == 0x3000 || n == 0xFEFF
  }

  predicate AllWhite(s: string) {
    forall k :: 0 <= k < |s| ==> IsWhite(s[k])
  }

  /** Neither end of `s` is white space. */
  predicate Trimmed(s: string) {
    s == [] || (!IsWhite(s[0]) && !IsWhite(s[|s| - 1]))
  }

  /** The first position at or after i that does not hold white space (|s| if there is none). */
  function WhiteRunEnd(s: string, i: nat): (j: nat)
    requires i <= |s|
    ensures i <= j <= |s|
    ensures forall k :: i <= k < j ==> IsWhite(s[k])
    ensures j == |s| || !IsWhite(s[j])
    decreases |s| - i
  {
    if i < |s| && IsWhite(s[i]) then WhiteRunEnd(s, i + 1) else i
  }

  /** The first position of the run of white space that ends at j. */
  function WhiteRunStart(s: string, j: nat): (i: nat)
    requires j <= |s|
    ensures i <= j
    ensures forall k :: i <= k < j ==> IsWhite(s[k])
    ensures i == 0 || !IsWhite(s[i - 1])
    decreases j
  {
    if j > 0 && IsWhite(s[j - 1]) then WhiteRunStart(s, j - 1) else j
  }

  /** `s.trimStart()`: drops the leading white space. */
  function TrimStart(s: string): string {
    s[WhiteRunEnd(s, 0)..]
  }

  /** `s.trimEnd()`: drops the trailing white space. */
  function TrimEnd(s: string): string {
    s[..WhiteRunStart(s, |s|)]
  }

  /** `s.trim()`: drops the white space at both ends. */
  function Trim(s: string): (r: string)
    ensures Trimmed(r)
  {
    var t := TrimStart(s);
    var e := WhiteRunStart(t, |t|);
    assert e > 0 ==> t[0] == s[WhiteRunEnd(s, 0)];
    TrimEnd(t)
  }

  /** `!s.trim()`: the string is empty or white space only. */
  predicate IsBlank(s: string) {
    Trim(s) == ""
  }

  /** The white run that starts at i ends at the first non-white position j. */
  lemma {:induction false} WhiteRunEndIs(s: string, i: nat, j: nat)
    requires i <= j <= |s|
    requires forall k :: i <= k < j ==> IsWhite(s[k])
    requires j == |s| || !IsWhite(s[j])
    ensures WhiteRunEnd(s, i) == j
    decreases j - i
  {
    if i < j {
      WhiteRunEndIs(s, i + 1, j);
    }
  }

  /** The white run that ends at j starts right after the last non-white position i - 1. */
  lemma {:induction false} WhiteRunStartIs(s: string, i: nat, j: nat)
    requires i <= j <= |s|
    requires forall k :: i <= k < j ==> IsWhite(s[k])
    requires i == 0 || !IsWhite(s[i - 1])
    ensures WhiteRunStart(s, j) == i
    decreases j - i
  {
    if i < j {
      WhiteRunStartIs(s, i, j - 1);
    }
  }

  /** Trim keeps a middle slice of s, cutting off only white space on either side. */
  lemma TrimIsCore(s: string)
    ensures exists i :: 0 <= i <= |s| - |Trim(s)| && Trim(s) == s[i..i + |Trim(s)|]
                        && AllWhite(s[..i]) && AllWhite(s[i + |Trim(s)|..])
  {
    var b := WhiteRunEnd(s, 0);
    var t := s[b..];
    var e := WhiteRunStart(t, |t|);
    assert Trim(s) == s[b..b + e];
    var tail := s[b + e..];
    assert AllWhite(tail) by {
      forall k | 0 <= k < |tail| ensures IsWhite(tail[k]) {
        assert tail[k] == t[e + k];
      }
    }
    assert AllWhite(s[..b]);
  }

  lemma TrimStartOfPadded(a: string, t: string)
    requires AllWhite(a) && (t == [] || !IsWhite(t[0]))
    ensures TrimStart(a + t) == t
  {
    var s := a + t;
    WhiteRunEndIs(s, 0, |a|);
    assert s[|a|..] == t;
  }

  lemma TrimEndOfPadded(m: string, b: string)
    requires AllWhite(b) && Trimmed(m)
    ensures TrimEnd(m + b) == m
  {
    var s := m + b;
    WhiteRunStartIs(s, |m|, |s|);
    assert s[..|m|] == m;
  }

  /** Trim removes exactly the white padding around a trimmed core, whatever the padding. */
  lemma TrimOfPadded(a: string, m: string, b: string)
    requires AllWhite(a) && AllWhite(b) && Trimmed(m)
    ensures Trim(a + m + b) == m
  {
    if m == [] {
      assert a + m + b == (a + b) + [];
      TrimStartOfPadded(a + b, []);
    } else {
      assert a + m + b == a + (m + b);
      TrimStartOfPadded(a, m + b);
      TrimEndOfPadded(m, b);
    }
  }

  /** A blank string is exactly one made of white space only. */
  lemma BlankIffAllWhite(s: string)
    ensures IsBlank(s) <==> AllWhite(s)
  {
    if AllWhite(s) {
      TrimOfPadded(s, "", "");
      assert s + "" + "" == s;
    } else {
      var b := WhiteRunEnd(s, 0);
      assert b < |s|;
      var t := s[b..];
      assert t[0] == s[b];
      assert WhiteRunStart(t, |t|) > 0;
    }
  }

  /** Trimming twice is trimming once. */
  lemma TrimIdempotent(s: string)
    ensures Trim(Trim(s)) == Trim(s)
  {
    TrimOfPadded("", Trim(s), "");
    assert "" + Trim(s) + "" == Trim(s);
  }

  /** Leading white space makes no difference to trimming the start. */
  lemma TrimStartSkipsWhite(a: string, b: string)
    requires AllWhite(a)
    ensures TrimStart(a + b) == TrimStart(b)
  {
    var s := a + b;
    var n := WhiteRunEnd(b, 0);
    WhiteRunEndIs(s, 0, |a| + n);
    assert s[|a| + n..] == b[n..];
  }

  lemma TrimSkipsWhite(a: string, b: string)
    requires AllWhite(a)
    ensures Trim(a + b) == Trim(b)
  {
    TrimStartSkipsWhite(a, b);
  }

  /** Trimming the end first and then the start is the same as `trim()`. */
  lemma TrimEndThenStart(x: string)
    ensures TrimStart(TrimEnd(x)) == Trim(x)
  {
    var e := WhiteRunStart(x, |x|);
    var y := x[..e];
    var b := WhiteRunEnd(y, 0);
    assert TrimStart(y) == x[b..e] by {
      assert y[b..] == x[b..e];
    }
    PrefixOfWhite(x, e, b);
    SuffixOfWhite(x, e);
    assert Trimmed(x[b..e]) by {
      if b < e {
        assert x[b..e][0] == y[b];
      }
    }
    assert x == x[..b] + x[b..e] + x[e..];
    TrimOfPadded(x[..b], x[b..e], x[e..]);
  }

  lemma PrefixOfWhite(x: string, e: nat, b: nat)
    requires e <= |x| && b == WhiteRunEnd(x[..e], 0)
    ensures b <= e && AllWhite(x[..b])
  {
    var y := x[..e];
    forall k | 0 <= k < b ensures IsWhite(x[..b][k]) {
      assert x[..b][k] == y[k];
    }
  }

  lemma SuffixOfWhite(x: string, e: nat)
    requires e == WhiteRunStart(x, |x|)
    ensures AllWhite(x[e..])
  {
    var tail := x[e..];
    forall k | 0 <= k < |tail| ensures IsWhite(tail[k]) {
      assert tail[k] == x[e + k];
    }
  }

  /** Trimming the start of a string that does not end in white space leaves it trimmed at both ends. */
  lemma TrimStartOfTrimmedEnd(x: string)
    requires x == [] || !IsWhite(x[|x| - 1])
    ensures Trimmed(TrimStart(x)) && |TrimStart(x)| <= |x|
  {
    var b := WhiteRunEnd(x, 0);
    if b < |x| {
      assert TrimStart(x)[|TrimStart(x)| - 1] == x[|x| - 1];
    }
  }

  /** A non-white prefix shields the start of the string from `trimEnd()`. */
  lemma TrimEndAfterPrefix(lab: string, body: string)
    requires lab != [] && !IsWhite(lab[|lab| - 1])
    ensures TrimEnd(lab + body) == lab + TrimEnd(body)
  {
    var s := lab + body;
    var r := WhiteRunStart(body, |body|);
    WhiteRunStartIs(s, |lab| + r, |s|);
    assert s[..|lab| + r] == lab + body[..r];
  }

  /** The literal `pat` occurs in `s` starting at position `i`. */
  predicate OccursAt(s: string, i: nat, pat: string) {
    i + |pat| <= |s| && s[i..i + |pat|] == pat
  }
}
