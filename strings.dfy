/** Removing characters from the ends of a string, the way Python's `str.strip` and
    JavaScript's `String.prototype.trim` do. Which characters go is a parameter. */
module Strings {

  /** The character sets the program strips. */
  datatype CharSet =
    | PyWhitespace  // Python's `str.isspace`: what `strip()` removes
    | JsWhitespace  // ECMAScript WhiteSpace and LineTerminator: what `trim()` removes
    | Backtick      // the argument of `strip("`")`

  predicate In(c: char, cs: CharSet) {
    match cs
    case PyWhitespace =>
      ('\t' <= c <= '\r') || ('\U{1C}' <= c <= '\U{1F}') || c == ' ' ||
      c == '\U{85}' || c == '\U{A0}' || c == '\U{1680}' || ('\U{2000}' <= c <= '\U{200A}') ||
      c == '\U{2028}' || c == '\U{2029}' || c == '\U{202F}' || c == '\U{205F}' ||
      c == '\U{3000}'
    case JsWhitespace =>
      c == '\t' || c == '\n' || c == '\U{0B}' || c == '\U{0C}' || c == '\r' || c == ' ' ||
      c == '\U{A0}' || c == '\U{1680}' || ('\U{2000}' <= c <= '\U{200A}') ||
      c == '\U{2028}' || c == '\U{2029}' || c == '\U{202F}' || c == '\U{205F}' ||
      c == '\U{3000}' || c == '\U{FEFF}'
    case Backtick => c == '`'
  }

  /** The first position at or after `i` whose character is not in `cs` (or |s|). */
  function SkipFront(s: string, cs: CharSet, i: nat): (k: nat)
    requires i <= |s|
    ensures i <= k <= |s|
    ensures k < |s| ==> !In(s[k], cs)
    decreases |s| - i
  {
    if i < |s| && In(s[i], cs) then SkipFront(s, cs, i + 1) else i
  }

  /** The last end position, from `j` down to `lo`, whose preceding character is not
      in `cs` (or `lo`). */
  function SkipBack(s: string, cs: CharSet, lo: nat, j: nat): (k: nat)
    requires lo <= j <= |s|
    ensures lo <= k <= j
    ensures k > lo ==> !In(s[k - 1], cs)
    decreases j
  {
    if j > lo && In(s[j - 1], cs) then SkipBack(s, cs, lo, j - 1) else j
  }

  /** Every character SkipFront passes over is in `cs`. */
  lemma {:induction false} SkipFrontPassed(s: string, cs: CharSet, i: nat)
    requires i <= |s|
    ensures forall m :: i <= m < SkipFront(s, cs, i) ==> In(s[m], cs)
    decreases |s| - i
  {
    if i < |s| && In(s[i], cs) {
      SkipFrontPassed(s, cs, i + 1);
    }
  }

  /** Every character SkipBack passes over is in `cs`. */
  lemma {:induction false} SkipBackPassed(s: string, cs: CharSet, lo: nat, j: nat)
    requires lo <= j <= |s|
    ensures forall m :: SkipBack(s, cs, lo, j) <= m < j ==> In(s[m], cs)
    decreases j
  {
    if j > lo && In(s[j - 1], cs) {
      SkipBackPassed(s, cs, lo, j - 1);
    }
  }

  /** SkipFront stops at the first character not in `cs`. */
  lemma {:induction false} SkipFrontStopsAt(s: string, cs: CharSet, i: nat, m: nat)
    requires i <= m <= |s|
    requires forall k :: i <= k < m ==> In(s[k], cs)
    requires m == |s| || !In(s[m], cs)
    ensures SkipFront(s, cs, i) == m
    decreases m - i
  {
    if i < m {
      SkipFrontStopsAt(s, cs, i + 1, m);
    }
  }

  /** SkipBack stops after the last character not in `cs`. */
  lemma {:induction false} SkipBackStopsAt(s: string, cs: CharSet, lo: nat, j: nat, m: nat)
    requires lo <= m <= j <= |s|
    requires forall k :: m <= k < j ==> In(s[k], cs)
    requires m == lo || !In(s[m - 1], cs)
    ensures SkipBack(s, cs, lo, j) == m
    decreases j - m
  {
    if m < j {
      SkipBackStopsAt(s, cs, lo, j - 1, m);
    }
  }

  /** True when neither end of `s` holds a character of `cs`. */
  predicate Trimmed(s: string, cs: CharSet) {
    s == [] || (!In(s[0], cs) && !In(s[|s| - 1], cs))
  }

  /** How many characters Trim removes at the front. */
  function Lead(s: string, cs: CharSet): (k: nat)
    ensures k <= |s|
  {
    SkipFront(s, cs, 0)
  }

  /** Both ends, as CPython's `strip` does it: skip forward from the start, then back
      from the end but not past the first stop. */
  function Trim(s: string, cs: CharSet): (r: string)
    ensures |r| <= |s| && Trimmed(r, cs)
  {
    var a := SkipFront(s, cs, 0);
    s[a..SkipBack(s, cs, a, |s|)]
  }

  /** `r` occurs in `s` starting at position `k`. */
  predicate WindowAt(r: string, s: string, k: int) {
    0 <= k <= |s| - |r| && s[k..k + |r|] == r
  }

  /** `r` occurs in `s` as a contiguous piece. */
  predicate IsWindow(r: string, s: string) {
    exists k | 0 <= k <= |s| :: WindowAt(r, s, k)
  }

  /** Trim keeps the window of `s` that starts after the skipped prefix; everything
      outside the window is in `cs`. */
  lemma TrimWindow(s: string, cs: CharSet)
    ensures var r, k := Trim(s, cs), Lead(s, cs);
      WindowAt(r, s, k) &&
      (forall i :: 0 <= i < k ==> In(s[i], cs)) &&
      (forall i :: k + |r| <= i < |s| ==> In(s[i], cs))
  {
    var a := SkipFront(s, cs, 0);
    SkipFrontPassed(s, cs, 0);
    SkipBackPassed(s, cs, a, |s|);
  }

  /** What Trim returns is a piece of its input. */
  lemma TrimIsWindow(s: string, cs: CharSet)
    ensures IsWindow(Trim(s, cs), s)
  {
    TrimWindow(s, cs);
  }

  /** Cutting a prefix leaves a piece of the input. */
  lemma SuffixIsWindow(s: string, n: nat)
    requires n <= |s|
    ensures IsWindow(s[n..], s)
  {
    assert WindowAt(s[n..], s, n);
  }

  /** A window of a window is a window. */
  lemma WindowCompose(r: string, t: string, s: string, a: int, b: int)
    requires WindowAt(t, s, a) && WindowAt(r, t, b)
    ensures WindowAt(r, s, a + b)
  {
    forall i | 0 <= i < |r| ensures s[a + b..a + b + |r|][i] == r[i] {
      assert r[i] == t[b + i] == s[a + b + i];
    }
  }

  /** Being a piece is transitive. */
  lemma WindowTrans(r: string, t: string, s: string)
    requires IsWindow(r, t) && IsWindow(t, s)
    ensures IsWindow(r, s)
  {
    var a :| 0 <= a <= |s| && WindowAt(t, s, a);
    var b :| 0 <= b <= |t| && WindowAt(r, t, b);
    WindowCompose(r, t, s, a, b);
  }

  /** Trimming leaves nothing exactly when every character is in `cs`. */
  lemma TrimEmptyIff(s: string, cs: CharSet)
    ensures Trim(s, cs) == [] <==> forall i :: 0 <= i < |s| ==> In(s[i], cs)
  {
    TrimWindow(s, cs);
  }

  /** Padding made of characters in `cs`, on either side of a trimmed middle, is
      exactly what Trim removes. */
  lemma TrimAround(pre: string, mid: string, post: string, cs: CharSet)
    requires forall i :: 0 <= i < |pre| ==> In(pre[i], cs)
    requires forall i :: 0 <= i < |post| ==> In(post[i], cs)
    requires Trimmed(mid, cs)
    ensures Trim(pre + mid + post, cs) == mid
  {
    var s := pre + mid + post;
    var p, m := |pre|, |pre| + |mid|;
    forall k | 0 <= k < p ensures In(s[k], cs) {
      assert s[k] == pre[k];
    }
    forall k | m <= k < |s| ensures In(s[k], cs) {
      assert s[k] == post[k - m];
    }
    if mid == [] {
      SkipFrontStopsAt(s, cs, 0, |s|);
      SkipBackStopsAt(s, cs, |s|, |s|, |s|);
      assert s[|s|..|s|] == mid;
    } else {
      assert s[p] == mid[0] && s[m - 1] == mid[|mid| - 1];
      SkipFrontStopsAt(s, cs, 0, p);
      SkipBackStopsAt(s, cs, p, |s|, m);
      assert s[p..m] == mid;
    }
  }

  /** A string whose ends are not in `cs` is left as it is. */
  lemma TrimOfTrimmed(s: string, cs: CharSet)
    requires Trimmed(s, cs)
    ensures Trim(s, cs) == s
  {
    TrimAround([], s, [], cs);
    assert [] + s + [] == s;
  }

  /** Trimming twice is trimming once. */
  lemma TrimIdempotent(s: string, cs: CharSet)
    ensures Trim(Trim(s, cs), cs) == Trim(s, cs)
  {
    TrimOfTrimmed(Trim(s, cs), cs);
  }
}
