/**
 * The few Python string operations the core relies on, on `string` (a sequence
 * of Unicode code points, as a Python `str` is): `str.split()` with at most one
 * split, `str.strip()`, and `str.split(sep, 1)` for a one-character separator.
 * Each is written through a count (how many leading blanks, how long the first
 * field, where the first separator is) whose contract pins the count down exactly.
 */
module PyStr {

  /** The characters for which Python's `str.isspace` holds; `str.split()` and `str.strip()` use these. */
  predicate IsWhitespace(c: char) {
    || ('\t' <= c <= '\r') || ('\U{1C}' <= c <= ' ') || c == '\U{85}' || c == '\U{A0}'
    || c == '\U{1680}' || ('\U{2000}' <= c <= '\U{200A}') || c == '\U{2028}' || c == '\U{2029}'
    || c == '\U{202F}' || c == '\U{205F}' || c == '\U{3000}'
  }

  predicate AllWhitespace(s: string) { forall k :: 0 <= k < |s| ==> IsWhitespace(s[k]) }

  predicate NoWhitespace(s: string) { forall k :: 0 <= k < |s| ==> !IsWhitespace(s[k]) }

  /** The number of whitespace characters in `s` from position `k` on, up to the first other character. */
  function LeadingSpace(s: string, k: nat): (n: nat)
    requires k <= |s|
    ensures k + n <= |s|
    ensures forall m :: k <= m < k + n ==> IsWhitespace(s[m])
    ensures k + n < |s| ==> !IsWhitespace(s[k + n])
    decreases |s| - k
  {
    if k == |s| || !IsWhitespace(s[k]) then 0 else 1 + LeadingSpace(s, k + 1)
  }

  /** The number of whitespace characters in `s` right before position `k`. */
  function TrailingSpace(s: string, k: nat): (n: nat)
    requires k <= |s|
    ensures n <= k
    ensures forall m :: k - n <= m < k ==> IsWhitespace(s[m])
    ensures n < k ==> !IsWhitespace(s[k - n - 1])
  {
    if k == 0 || !IsWhitespace(s[k - 1]) then 0 else 1 + TrailingSpace(s, k - 1)
  }

  /** The number of characters in `s` from position `k` on, up to the first whitespace. */
  function FieldLength(s: string, k: nat): (n: nat)
    requires k <= |s|
    ensures k + n <= |s|
    ensures forall m :: k <= m < k + n ==> !IsWhitespace(s[m])
    ensures k + n < |s| ==> IsWhitespace(s[k + n])
    decreases |s| - k
  {
    if k == |s| || IsWhitespace(s[k]) then 0 else 1 + FieldLength(s, k + 1)
  }

  /** The position of the first `c` in `s`, or `|s|` when `s` has none. */
  function Find(s: string, c: char): (n: nat)
    ensures n <= |s| && c !in s[..n]
    ensures n < |s| ==> s[n] == c
  {
    if s == [] || s[0] == c then 0
    else
      var m := Find(s[1..], c);
      assert s[..1 + m] == [s[0]] + s[1..][..m];
      1 + m
  }

  /** `s` with the whitespace at both ends removed: Python's `s.strip()`. */
  function Strip(s: string): (r: string)
    ensures r == [] <==> AllWhitespace(s)
    ensures r != [] ==> !IsWhitespace(r[0]) && !IsWhitespace(r[|r| - 1])
  {
    var i := LeadingSpace(s, 0);
    if i == |s| then
      []
    else
      var j := TrailingSpace(s, |s|);
      assert i < |s| - j by {
        assert !IsWhitespace(s[i]);
      }
      s[i..|s| - j]
  }

  /** `r` sits in `s` between a blank prefix and a blank suffix. */
  predicate IsStrippedFrom(r: string, s: string) {
    exists i :: 0 <= i <= |s| && r <= s[i..] && AllWhitespace(s[..i]) && AllWhitespace(s[i..][|r|..])
  }

  /** What `Strip` keeps is the slice of `s` that starts after its leading whitespace. */
  lemma StripSlice(s: string)
    ensures LeadingSpace(s, 0) + |Strip(s)| <= |s|
    ensures Strip(s) == s[LeadingSpace(s, 0)..LeadingSpace(s, 0) + |Strip(s)|]
  {
  }

  /** Only whitespace follows what `Strip` keeps. */
  lemma StripTail(s: string)
    ensures LeadingSpace(s, 0) + |Strip(s)| <= |s|
    ensures AllWhitespace(s[LeadingSpace(s, 0) + |Strip(s)|..])
  {
    var e := LeadingSpace(s, 0) + |Strip(s)|;
    forall m | 0 <= m < |s| - e ensures IsWhitespace(s[e..][m]) {
      assert s[e..][m] == s[e + m];
    }
  }

  /** What `Strip` removes is whitespace at the two ends, and nothing else. */
  lemma StripRemovesOnlyWhitespace(s: string)
    ensures IsStrippedFrom(Strip(s), s)
  {
    var i, r := LeadingSpace(s, 0), Strip(s);
    StripSlice(s);
    StripTail(s);
    assert AllWhitespace(s[..i]) by {
      forall m | 0 <= m < i ensures IsWhitespace(s[..i][m]) {
        assert s[..i][m] == s[m];
      }
    }
    assert s[i..][|r|..] == s[i + |r|..];
    assert r <= s[i..];
  }

  /** A run of whitespace from `k` that reaches the end of `s` or a non-blank is the one `LeadingSpace` counts. */
  lemma LeadingSpaceIs(s: string, k: nat, n: nat)
    requires k + n <= |s|
    requires forall m :: k <= m < k + n ==> IsWhitespace(s[m])
    requires k + n < |s| ==> !IsWhitespace(s[k + n])
    ensures LeadingSpace(s, k) == n
  {
    var r := LeadingSpace(s, k);
    assert k + r < |s| ==> !IsWhitespace(s[k + r]);
    assert k + n < |s| ==> !IsWhitespace(s[k + n]);
  }

  /** A run of whitespace ending at `k` that reaches the start of `s` or a non-blank is the one `TrailingSpace` counts. */
  lemma TrailingSpaceIs(s: string, k: nat, n: nat)
    requires n <= k <= |s|
    requires forall m :: k - n <= m < k ==> IsWhitespace(s[m])
    requires n < k ==> !IsWhitespace(s[k - n - 1])
    ensures TrailingSpace(s, k) == n
  {
    var r := TrailingSpace(s, k);
    assert r < k ==> !IsWhitespace(s[k - r - 1]);
    assert n < k ==> !IsWhitespace(s[k - n - 1]);
  }

  /** A run without whitespace from `k` that reaches the end of `s` or a blank is the one `FieldLength` counts. */
  lemma FieldLengthIs(s: string, k: nat, n: nat)
    requires k + n <= |s|
    requires forall m :: k <= m < k + n ==> !IsWhitespace(s[m])
    requires k + n < |s| ==> IsWhitespace(s[k + n])
    ensures FieldLength(s, k) == n
  {
    var r := FieldLength(s, k);
    assert k + r < |s| ==> IsWhitespace(s[k + r]);
    assert k + n < |s| ==> IsWhitespace(s[k + n]);
  }

  /** The whitespace run from `|a|` in `a + w + b` is `w` when `w` is blank and `b` does not start with whitespace. */
  lemma LeadingSpaceOf(a: string, w: string, b: string)
    requires AllWhitespace(w) && (b == [] || !IsWhitespace(b[0]))
    ensures LeadingSpace(a + w + b, |a|) == |w|
  {
    var s := a + w + b;
    var k := |a|;
    forall m | k <= m < k + |w| ensures IsWhitespace(s[m]) {
      assert s[m] == w[m - k];
    }
    assert k + |w| < |s| ==> s[k + |w|] == b[0];
    LeadingSpaceIs(s, k, |w|);
  }

  /** The whitespace run that ends `x + w` is `w` when `w` is blank and `x` does not end with whitespace. */
  lemma TrailingSpaceOf(x: string, w: string)
    requires AllWhitespace(w) && (x == [] || !IsWhitespace(x[|x| - 1]))
    ensures TrailingSpace(x + w, |x + w|) == |w|
  {
    var s := x + w;
    forall m | |x| <= m < |s| ensures IsWhitespace(s[m]) {
      assert s[m] == w[m - |x|];
    }
    assert 0 < |x| ==> s[|x| - 1] == x[|x| - 1];
    TrailingSpaceIs(s, |s|, |w|);
  }

  /** The field from `|a|` in `a + f + b` is `f` when `f` has no whitespace and `b` is empty or starts with whitespace. */
  lemma FieldLengthOf(a: string, f: string, b: string)
    requires NoWhitespace(f) && (b == [] || IsWhitespace(b[0]))
    ensures FieldLength(a + f + b, |a|) == |f|
  {
    var s := a + f + b;
    var k := |a|;
    forall m | k <= m < k + |f| ensures !IsWhitespace(s[m]) {
      assert s[m] == f[m - k];
    }
    assert k + |f| < |s| ==> s[k + |f|] == b[0];
    FieldLengthIs(s, k, |f|);
  }

  /** `strip` gives back exactly the text between blank padding, when that text has no whitespace at its ends. */
  lemma StripOfPadded(w1: string, r: string, w2: string)
    requires AllWhitespace(w1) && AllWhitespace(w2)
    requires r != [] && !IsWhitespace(r[0]) && !IsWhitespace(r[|r| - 1])
    ensures Strip(w1 + r + w2) == r
  {
    var s := w1 + r + w2;
    assert LeadingSpace(s, 0) == |w1| by {
      assert [] + w1 + (r + w2) == s;
      LeadingSpaceOf([], w1, r + w2);
    }
    assert TrailingSpace(s, |s|) == |w2| by {
      assert (w1 + r) + w2 == s;
      assert (w1 + r)[|w1 + r| - 1] == r[|r| - 1];
      TrailingSpaceOf(w1 + r, w2);
    }
    assert s[|w1|..|s| - |w2|] == r;
  }

  /**
   * Python's `s.split(maxsplit=1)`: no part for a blank `s`; otherwise its
   * first whitespace-delimited field and, when more text follows, the rest of
   * `s` from that text on, trailing whitespace included.
   */
  function SplitOnce(s: string): (parts: seq<string>)
    ensures |parts| <= 2
    ensures parts == [] <==> AllWhitespace(s)
    ensures forall k :: 0 <= k < |parts| ==> parts[k] != []
    ensures parts != [] ==> NoWhitespace(parts[0])
    ensures |parts| == 2 ==> !IsWhitespace(parts[1][0]) && |parts[1]| <= |s| && parts[1] == s[|s| - |parts[1]|..]
  {
    var i := LeadingSpace(s, 0);
    if i == |s| then
      []
    else
      assert !AllWhitespace(s) by { assert !IsWhitespace(s[i]); }
      var n := FieldLength(s, i);
      assert 0 < n;
      var j := LeadingSpace(s, i + n);
      if i + n + j == |s| then
        [s[i..i + n]]
      else
        [s[i..i + n], s[i + n + j..]]
  }

  /** `split(maxsplit=1)` of a non-blank `s`, read off its leading blank run `i`, the field length `n` after it and the blank run `j` after that. */
  lemma SplitOnceAt(s: string, i: nat, n: nat, j: nat)
    requires i == LeadingSpace(s, 0) && i < |s|
    requires n == FieldLength(s, i) && j == LeadingSpace(s, i + n)
    ensures |SplitOnce(s)| == (if i + n + j == |s| then 1 else 2)
    ensures SplitOnce(s)[0] == s[i..i + n]
    ensures i + n + j < |s| ==> SplitOnce(s)[1] == s[i + n + j..]
  {
  }

  /**
   * Where the parts of `split(maxsplit=1)` sit in `s`: the first part starts
   * right after the leading whitespace and runs up to the next whitespace or
   * the end; after a lone field only whitespace follows; between two parts
   * lies a non-empty run of whitespace, and the second part runs to the end.
   * With the contract of `SplitOnce` this leaves one possible result for each `s`.
   */
  lemma SplitOnceLayout(s: string)
    ensures var parts, i := SplitOnce(s), LeadingSpace(s, 0);
      parts != [] ==>
        && i + |parts[0]| <= |s| && parts[0] == s[i..i + |parts[0]|]
        && (i + |parts[0]| < |s| ==> IsWhitespace(s[i + |parts[0]|]))
    ensures var parts, i := SplitOnce(s), LeadingSpace(s, 0);
      |parts| == 1 ==> forall m :: i + |parts[0]| <= m < |s| ==> IsWhitespace(s[m])
    ensures var parts, i := SplitOnce(s), LeadingSpace(s, 0);
      |parts| == 2 ==>
        && i + |parts[0]| < |s| - |parts[1]|
        && forall m :: i + |parts[0]| <= m < |s| - |parts[1]| ==> IsWhitespace(s[m])
  {
    var i := LeadingSpace(s, 0);
    if i < |s| {
      var n := FieldLength(s, i);
      var j := LeadingSpace(s, i + n);
      SplitOnceAt(s, i, n, j);
    }
  }

  /** A list of two strings is determined by its two elements. */
  lemma PairOf(parts: seq<string>, a: string, b: string)
    requires |parts| == 2 && parts[0] == a && parts[1] == b
    ensures parts == [a, b]
  {
  }

  /** `split(maxsplit=1)` of blanks, a field, blanks, and more text starting with a non-blank: the field and that text. */
  lemma SplitOnceOfFields(w1: string, f: string, w: string, rest: string)
    requires AllWhitespace(w1) && f != [] && NoWhitespace(f)
    requires w != [] && AllWhitespace(w) && rest != [] && !IsWhitespace(rest[0])
    ensures SplitOnce(w1 + f + w + rest) == [f, rest]
  {
    var s := w1 + f + w + rest;
    var i, n, j := |w1|, |f|, |w|;
    assert LeadingSpace(s, 0) == i by {
      assert [] + w1 + (f + w + rest) == s;
      LeadingSpaceOf([], w1, f + w + rest);
    }
    assert FieldLength(s, i) == n by {
      assert w1 + f + (w + rest) == s;
      FieldLengthOf(w1, f, w + rest);
    }
    assert LeadingSpace(s, i + n) == j by {
      LeadingSpaceOf(w1 + f, w, rest);
    }
    SplitOnceAt(s, i, n, j);
    assert s[i..i + n] == f;
    assert s[i + n + j..] == rest;
    PairOf(SplitOnce(s), f, rest);
  }

  /** `split(maxsplit=1)` of a single field between blanks: that field alone. */
  lemma SplitOnceOfField(w1: string, f: string, w2: string)
    requires AllWhitespace(w1) && f != [] && NoWhitespace(f) && AllWhitespace(w2)
    ensures SplitOnce(w1 + f + w2) == [f]
  {
    var s := w1 + f + w2;
    var i, n := |w1|, |f|;
    assert LeadingSpace(s, 0) == i by {
      assert [] + w1 + (f + w2) == s;
      LeadingSpaceOf([], w1, f + w2);
    }
    assert FieldLength(s, i) == n by {
      assert w2 == [] || IsWhitespace(w2[0]);
      FieldLengthOf(w1, f, w2);
    }
    assert LeadingSpace(s, i + n) == |w2| by {
      assert w1 + f + w2 + [] == s;
      LeadingSpaceOf(w1 + f, w2, []);
    }
    SplitOnceAt(s, i, n, |w2|);
    assert s[i..i + n] == f;
  }

  /** Python's `s.split(sep, 1)`: `s` itself when it holds no `sep`, otherwise the text before the first `sep` and the text after it. */
  function SplitFirst(s: string, sep: char): (parts: seq<string>)
    ensures |parts| == 1 || |parts| == 2
    ensures sep !in parts[0]
    ensures |parts| == 1 <==> sep !in s
    ensures |parts| == 1 ==> parts[0] == s
    ensures |parts| == 2 ==> s == parts[0] + [sep] + parts[1]
  {
    var n := Find(s, sep);
    if n == |s| then
      assert s[..n] == s;
      [s]
    else
      assert s == s[..n] + [sep] + s[n + 1..];
      [s[..n], s[n + 1..]]
  }
}
