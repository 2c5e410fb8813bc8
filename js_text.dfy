/**
 * The pieces of ECMAScript string behaviour that the chat component relies on:
 * what `String.prototype.trim` treats as white space, what the regular-expression
 * class `\w` accepts, `trim` itself, and a forward substring search.
 * Strings are sequences of characters.
 */
module JsText {

  /** The conventional optional value; `None` stands for JavaScript's `undefined`. */
  datatype Option<T> = None | Some(value: T)

  /**
   * White space and line terminators as `trim` removes them: TAB, LF, VT, FF, CR,
   * SPACE, NO-BREAK SPACE, ZERO WIDTH NO-BREAK SPACE, LINE SEPARATOR,
   * PARAGRAPH SEPARATOR and every other character of Unicode category Zs.
   */
  predicate IsWhitespace(c: char) {
    c == '\t' || c == '\n' || c == '\U{000B}' || c == '\U{000C}' || c == '\r' || c == ' ' ||
    c == '\U{00A0}' || c == '\U{1680}' || ('\U{2000}' <= c <= '\U{200A}') ||
    c == '\U{2028}' || c == '\U{2029}' || c == '\U{202F}' || c == '\U{205F}' ||
    c == '\U{3000}' || c == '\U{FEFF}'
  }

  /** The regular-expression class `\w` without the `u` flag: `[A-Za-z0-9_]`. */
  predicate IsWordChar(c: char) {
    ('a' <= c <= 'z') || ('A' <= c <= 'Z') || ('0' <= c <= '9') || c == '_'
  }

  predicate AllWhitespace(w: string) {
    forall i :: 0 <= i < |w| ==> IsWhitespace(w[i])
  }

  /** Neither the first nor the last character (if any) is white space. */
  predicate IsTrimmed(r: string) {
    r == [] || (!IsWhitespace(r[0]) && !IsWhitespace(r[|r| - 1]))
  }

  /** `s` is `r` with white space, and only white space, added on either side. */
  ghost predicate IsPaddedBy(s: string, r: string) {
    exists a :: 0 <= a <= |s| - |r| && s[a..a + |r|] == r && AllWhitespace(s[..a]) && AllWhitespace(s[a + |r|..])
  }

  /** The index of the first character at or after `i` that is not white space (or `|s|`). */
  function SkipWhitespace(s: string, i: nat): (k: nat)
    requires i <= |s|
    decreases |s| - i
    ensures i <= k <= |s|
    ensures forall j :: i <= j < k ==> IsWhitespace(s[j])
    ensures k < |s| ==> !IsWhitespace(s[k])
  {
    if i < |s| && IsWhitespace(s[i]) then SkipWhitespace(s, i + 1) else i
  }

  /** Walking back from `k` to no lower than `lo`: the end of the last character that is not white space. */
  function SkipWhitespaceBack(s: string, lo: nat, k: nat): (b: nat)
    requires lo <= k <= |s|
    decreases k
    ensures lo <= b <= k
    ensures forall j :: b <= j < k ==> IsWhitespace(s[j])
    ensures b > lo ==> !IsWhitespace(s[b - 1])
  {
    if k > lo && IsWhitespace(s[k - 1]) then SkipWhitespaceBack(s, lo, k - 1) else k
  }

  /** `String.prototype.trim`: white space removed from both ends. */
  function Trim(s: string): (r: string)
    ensures IsTrimmed(r)
    ensures |r| <= |s|
    ensures IsPaddedBy(s, r)
  {
    var a := SkipWhitespace(s, 0);
    var b := SkipWhitespaceBack(s, a, |s|);
    PaddedSlice(s, a, b);
    s[a..b]
  }

  lemma PaddedSlice(s: string, a: nat, b: nat)
    requires a <= b <= |s|
    requires forall j :: 0 <= j < a ==> IsWhitespace(s[j])
    requires forall j :: b <= j < |s| ==> IsWhitespace(s[j])
    ensures IsPaddedBy(s, s[a..b])
  {
    var r := s[a..b];
    assert s[a..a + |r|] == r;
    assert AllWhitespace(s[..a]) by {
      forall i | 0 <= i < a ensures IsWhitespace(s[..a][i]) { assert s[..a][i] == s[i]; }
    }
    assert AllWhitespace(s[b..]) by {
      forall i | 0 <= i < |s| - b ensures IsWhitespace(s[b..][i]) { assert s[b..][i] == s[b + i]; }
    }
  }

  /** Trim is determined by its two properties: whatever is padded only by white space and trimmed is the trim. */
  lemma TrimUnique(s: string, w1: string, r: string, w2: string)
    requires s == w1 + r + w2
    requires AllWhitespace(w1) && AllWhitespace(w2) && IsTrimmed(r)
    ensures Trim(s) == r
  {
    var a := SkipWhitespace(s, 0);
    var b := SkipWhitespaceBack(s, a, |s|);
    forall j | 0 <= j < |w1| ensures IsWhitespace(s[j]) { assert s[j] == w1[j]; }
    forall j | |w1| + |r| <= j < |s| ensures IsWhitespace(s[j]) { assert s[j] == w2[j - |w1| - |r|]; }
    if r == [] {
      assert a == |s|;
      assert b == |s|;
    } else {
      assert s[|w1|] == r[0];
      assert s[|w1| + |r| - 1] == r[|r| - 1];
      assert a == |w1|;
      assert b == |w1| + |r|;
      assert s[a..b] == r;
    }
  }

  lemma TrimIdempotent(s: string)
    ensures Trim(Trim(s)) == Trim(s)
  {
    var r := Trim(s);
    assert r == [] + r + [];
    TrimUnique(r, [], r, []);
  }

  /** `trim()` gives the empty (falsy) string exactly when the text is all white space. */
  lemma TrimEmptyIff(s: string)
    ensures Trim(s) == [] <==> AllWhitespace(s)
  {
    if AllWhitespace(s) {
      assert s == s + [] + [];
      TrimUnique(s, s, [], []);
    }
    if Trim(s) == [] {
      var a :| 0 <= a <= |s| && AllWhitespace(s[..a]) && AllWhitespace(s[a..]);
      forall j | 0 <= j < |s| ensures IsWhitespace(s[j]) {
        if j < a { assert s[j] == s[..a][j]; } else { assert s[j] == s[a..][j - a]; }
      }
    }
  }

  /** `t` ends with `u`. */
  predicate EndsWith(t: string, u: string) {
    |u| <= |t| && t[|t| - |u|..] == u
  }

  lemma EndsWithPrepend(c: string, x: string, u: string)
    requires EndsWith(x, u)
    ensures EndsWith(c + x, u)
  {
    assert (c + x)[|c + x| - |u|..] == x[|x| - |u|..];
  }

  /** A text that starts with a character other than white space keeps its head under trimming. */
  lemma TrimHeadKept(t: string)
    requires |t| > 0 && !IsWhitespace(t[0])
    ensures 0 < |Trim(t)| && Trim(t) == t[..|Trim(t)|]
    ensures forall j :: |Trim(t)| <= j < |t| ==> IsWhitespace(t[j])
  {
    var b := SkipWhitespaceBack(t, 0, |t|);
    assert SkipWhitespace(t, 0) == 0;
    assert Trim(t) == t[0..b];
  }

  /** Trimming keeps a prefix whose first and last characters are not white space. */
  lemma TrimKeepsHead(t: string, h: string)
    requires |h| > 0 && OccursAt(t, h, 0)
    requires !IsWhitespace(h[0]) && !IsWhitespace(h[|h| - 1])
    ensures OccursAt(Trim(t), h, 0)
  {
    assert t[0] == h[0];
    assert t[|h| - 1] == h[|h| - 1];
    TrimHeadKept(t);
    assert Trim(t)[..|h|] == t[..|h|];
  }

  /** Trimming a text that ends with `t`, where `t` starts with no white space, leaves it ending with the trim of `t`. */
  lemma TrimKeepsTail(x: string, t: string)
    requires EndsWith(x, t) && |t| > 0 && !IsWhitespace(t[0])
    ensures EndsWith(Trim(x), Trim(t))
  {
    var pre := x[..|x| - |t|];
    var r := Trim(t);
    TrimHeadKept(t);
    var w2 := t[|r|..];
    assert AllWhitespace(w2) by {
      forall j | 0 <= j < |w2| ensures IsWhitespace(w2[j]) { assert w2[j] == t[|r| + j]; }
    }
    var a0 := SkipWhitespace(pre, 0);
    var w1 := pre[..a0];
    assert AllWhitespace(w1) by {
      forall j | 0 <= j < |w1| ensures IsWhitespace(w1[j]) { assert w1[j] == pre[j]; }
    }
    var core := pre[a0..] + r;
    SplitAround(x, pre, t, r, w2, a0);
    TrimmedJoin(pre, a0, r);
    TrimUnique(x, w1, core, w2);
    assert core[|core| - |r|..] == r;
  }

  lemma SplitAround(x: string, pre: string, t: string, r: string, w2: string, a0: nat)
    requires EndsWith(x, t) && pre == x[..|x| - |t|]
    requires |r| <= |t| && r == t[..|r|] && w2 == t[|r|..] && a0 <= |pre|
    ensures x == pre[..a0] + (pre[a0..] + r) + w2
  {
    assert x == pre + t;
    assert t == r + w2;
    assert pre == pre[..a0] + pre[a0..];
  }

  lemma TrimmedJoin(pre: string, a0: nat, r: string)
    requires a0 == SkipWhitespace(pre, 0)
    requires r != [] && IsTrimmed(r)
    ensures IsTrimmed(pre[a0..] + r)
  {
    var core := pre[a0..] + r;
    assert core[0] == (if a0 < |pre| then pre[a0] else r[0]);
    assert core[|core| - 1] == r[|r| - 1];
  }

  /** `pat` occurs in `s` starting at index `k`. */
  predicate OccursAt(s: string, pat: string, k: nat) {
    k + |pat| <= |s| && s[k..k + |pat|] == pat
  }

  /** The first index at or after `i` where `pat` occurs, if there is one. */
  function FindFrom(s: string, pat: string, i: nat): (r: Option<nat>)
    decreases |s| - i
    ensures r.Some? ==> i <= r.value && OccursAt(s, pat, r.value)
    ensures r.Some? ==> forall k :: i <= k < r.value ==> !OccursAt(s, pat, k)
    ensures r.None? ==> forall k :: i <= k ==> !OccursAt(s, pat, k)
  {
    if i + |pat| > |s| then None
    else if s[i..i + |pat|] == pat then Some(i)
    else FindFrom(s, pat, i + 1)
  }

  /** One differing character rules out an occurrence. */
  lemma MismatchAt(s: string, pat: string, k: nat, d: nat)
    requires d < |pat| && k + d < |s| && s[k + d] != pat[d]
    ensures !OccursAt(s, pat, k)
  {
  }

  /** Where the pattern does not occur, the search moves on one index. */
  lemma FindFromStep(s: string, pat: string, i: nat)
    requires !OccursAt(s, pat, i)
    ensures FindFrom(s, pat, i) == FindFrom(s, pat, i + 1)
  {
  }

  /** An occurrence inside a slice is an occurrence in the whole text. */
  lemma OccursInSlice(s: string, lo: nat, hi: nat, pat: string, k: nat)
    requires lo <= hi <= |s| && OccursAt(s[lo..hi], pat, k)
    ensures OccursAt(s, pat, lo + k)
  {
    forall j | 0 <= j < |pat| ensures s[lo + k + j] == pat[j] {
      assert s[lo + k + j] == s[lo..hi][k + j];
    }
    assert s[lo + k..lo + k + |pat|] == pat;
  }

  /** The search result is pinned down by where the pattern does and does not occur. */
  lemma FindFromIs(s: string, pat: string, i: nat, k: nat)
    requires i <= k && OccursAt(s, pat, k)
    requires forall x :: i <= x < k ==> !OccursAt(s, pat, x)
    ensures FindFrom(s, pat, i) == Some(k)
  {
  }
}
