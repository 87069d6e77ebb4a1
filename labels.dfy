/**
 * The label tokenizer of the outline generator (the first half of
 * `Images2Pdf.generate_outlines`): from the stems of the page files, in their
 * sorted order, to the flat list of bookmarks `(level, name, page_number)`.
 *
 * A stem such as `p.005 2 title ※note ❶2.1 title` is split once on whitespace;
 * the remainder is cut into the matches of the pattern `[M]?[^M]+` (M being the
 * sixteen level markers), and every match gives a bookmark whose level is the
 * position of its leading marker and whose name is the text before the note
 * mark `※`, trimmed, unless that name is empty.
 */
module Labels {
  import opened Wrappers
  import opened PyStr
  import opened Seqs

  /** The sixteen level markers ⓿ ❶ ❷ ❸ ❹ ❺ ❻ ❼ ❽ ❾ ❿ ⓫ ⓬ ⓭ ⓮ ⓯, in level order. */
  const Markers: seq<char> := [
    '\U{24FF}', '\U{2776}', '\U{2777}', '\U{2778}', '\U{2779}', '\U{277A}', '\U{277B}', '\U{277C}',
    '\U{277D}', '\U{277E}', '\U{277F}', '\U{24EB}', '\U{24EC}', '\U{24ED}', '\U{24EE}', '\U{24EF}']

  /** The note mark ※: the text of a match from this character on is a comment. */
  const NoteMark: char := '\U{203B}'

  /** The characters of the marker table, as the three code point ranges it is made of. */
  predicate IsMarker(c: char) {
    c == '\U{24FF}' || ('\U{2776}' <= c <= '\U{277F}') || ('\U{24EB}' <= c <= '\U{24EF}')
  }

  /** The marker ranges hold exactly the characters of the marker table. */
  lemma MarkerInTable(c: char)
    ensures IsMarker(c) <==> c in Markers
  {
    if IsMarker(c) {
      if '\U{2776}' <= c <= '\U{277F}' {
        assert c == Markers[(c as int) - 0x2776 + 1];
      } else if '\U{24EB}' <= c <= '\U{24EF}' {
        assert c == Markers[(c as int) - 0x24EB + 11];
      }
    }
  }

  predicate NoMarkers(s: string) { forall k :: 0 <= k < |s| ==> !IsMarker(s[k]) }

  /** The level a marker stands for: its position in the marker table (the table is searched in order). */
  function LevelOf(c: char): (level: nat)
    requires IsMarker(c)
    ensures level < |Markers| && Markers[level] == c
  {
    MarkerInTable(c);
    Find(Markers, c)
  }

  /** `s.split('※', 1)[0]`: the text before the first note mark, or all of `s` when there is none. */
  function BeforeNote(s: string): (r: string)
    ensures |r| <= |s| && r == s[..|r|]
    ensures NoteMark !in r
    ensures |r| < |s| ==> s[|r|] == NoteMark
  {
    s[..Find(s, NoteMark)]
  }

  /** The text before the note mark is the text up to the first `※`, or all of it when it has none. */
  lemma {:induction false} BeforeNoteOf(a: string, b: string)
    requires NoteMark !in a
    ensures BeforeNote(a + [NoteMark] + b) == a
    ensures BeforeNote(a) == a
  {
    FindOf(a, [NoteMark] + b);
    FindOf(a, []);
    assert a + [NoteMark] + b == a + ([NoteMark] + b);
    assert a + [] == a;
  }

  lemma {:induction false} FindOf(a: string, x: string)
    requires NoteMark !in a && (x == [] || x[0] == NoteMark)
    ensures Find(a + x, NoteMark) == |a|
    ensures (a + x)[..|a|] == a
  {
    if a != [] {
      assert (a + x)[0] == a[0];
      assert (a + x)[1..] == a[1..] + x;
      FindOf(a[1..], x);
    } else {
      assert a + x == x;
    }
  }

  // ---------------------------------------------------------------------------
  // The scan with `[M]?[^M]+` (re.finditer)
  // ---------------------------------------------------------------------------

  /** The length of the longest marker-free prefix of `s`: what the greedy `[^M]+` takes. */
  function RunLength(s: string): (n: nat)
    ensures n <= |s| && NoMarkers(s[..n])
    ensures n < |s| ==> IsMarker(s[n])
  {
    if s == [] || IsMarker(s[0]) then 0 else 1 + RunLength(s[1..])
  }

  /** A match of `[M]?[^M]+`: at most one marker, in front, then at least one non-marker character. */
  predicate IsSegment(m: string) {
    && m != []
    && (IsMarker(m[0]) ==> |m| >= 2)
    && NoMarkers(m[1..])
  }

  /**
   * The length of the match of `[M]?[^M]+` that starts at the front of `s`, or 0
   * when none does: a marker followed by a non-marker starts a match running to
   * just before the next marker; a marker followed by another marker, or last
   * in `s`, starts none; any other character starts a run of non-markers.
   */
  function MatchLength(s: string): (n: nat)
    requires s != []
    ensures n <= |s|
    ensures n == 0 <==> IsMarker(s[0]) && (|s| == 1 || IsMarker(s[1]))
    ensures n < |s| && n > 0 ==> IsMarker(s[n])
  {
    if IsMarker(s[0]) then
      if |s| >= 2 && !IsMarker(s[1]) then 1 + RunLength(s[1..]) else 0
    else RunLength(s)
  }

  /** A match found at the front of `s` is a match of `[M]?[^M]+`. */
  lemma MatchIsSegment(s: string)
    requires s != [] && MatchLength(s) > 0
    ensures IsSegment(s[..MatchLength(s)])
  {
    var n := MatchLength(s);
    var m := s[..n];
    if IsMarker(s[0]) {
      assert m[1..] == s[1..][..n - 1];
    } else {
      assert m[1..] == s[..n][1..];
      assert forall k :: 0 <= k < n - 1 ==> m[1..][k] == s[..n][k + 1];
    }
  }

  /**
   * The successive non-overlapping matches of `[M]?[^M]+` in `s`, from the left.
   * Where no match starts, the scan moves one character on.
   */
  function Segments(s: string): (ms: seq<string>)
    ensures |ms| <= |s|
    decreases |s|
  {
    if s == [] then []
    else
      var n := MatchLength(s);
      if n == 0 then Segments(s[1..]) else [s[..n]] + Segments(s[n..])
  }

  /** Every piece the scan yields is a match of `[M]?[^M]+`. */
  lemma {:induction false} SegmentsAreMatches(s: string)
    ensures forall i :: 0 <= i < |Segments(s)| ==> IsSegment(Segments(s)[i])
    decreases |s|
  {
    if s != [] {
      var n := MatchLength(s);
      if n == 0 {
        SegmentsAreMatches(s[1..]);
      } else {
        MatchIsSegment(s);
        SegmentsAreMatches(s[n..]);
      }
    }
  }

  lemma {:induction false} RunLengthStopsAtMarker(x: string, y: string)
    requires y != [] && IsMarker(y[0])
    ensures RunLength(x + y) == RunLength(x)
  {
    if x != [] {
      SliceAppend(x, y, 1);
      RunLengthStopsAtMarker(x[1..], y);
    }
  }

  lemma {:induction false} RunLengthOfText(t: string)
    requires NoMarkers(t)
    ensures RunLength(t) == |t|
  {
    if t != [] { RunLengthOfText(t[1..]); }
  }

  /** Cutting `a + b` inside `a` cuts `a`. */
  lemma SliceAppend(a: string, b: string, n: nat)
    requires n <= |a|
    ensures (a + b)[..n] == a[..n]
    ensures (a + b)[n..] == a[n..] + b
  {
  }

  /** The match at the front of `a` is not changed by a marker after `a`. */
  lemma MatchLengthStopsAtMarker(a: string, b: string)
    requires a != [] && b != [] && IsMarker(b[0])
    ensures MatchLength(a + b) == MatchLength(a)
  {
    assert (a + b)[0] == a[0];
    if IsMarker(a[0]) {
      if |a| >= 2 {
        assert (a + b)[1] == a[1];
        SliceAppend(a, b, 1);
        RunLengthStopsAtMarker(a[1..], b);
      } else {
        assert (a + b)[1] == b[0];
      }
    } else {
      RunLengthStopsAtMarker(a, b);
    }
  }

  /** A marker ends a match: the matches of `a + b`, where `b` starts with a marker, are those of `a` followed by those of `b`. */
  lemma {:induction false} SegmentsSplitAtMarker(a: string, b: string)
    requires b != [] && IsMarker(b[0])
    ensures Segments(a + b) == Segments(a) + Segments(b)
    decreases |a|
  {
    if a == [] {
      assert a + b == b;
    } else if MatchLength(a) == 0 {
      SegmentsSplitAtMarker(a[1..], b);
      SkipStopsAtMarker(a, b);
    } else {
      SegmentsSplitAtMarker(a[MatchLength(a)..], b);
      MatchStopsAtMarker(a, b);
    }
  }

  /** One step of `SegmentsSplitAtMarker`: no match starts at the front of `a`, nor of `a + b`. */
  lemma SkipStopsAtMarker(a: string, b: string)
    requires a != [] && b != [] && IsMarker(b[0]) && MatchLength(a) == 0
    ensures Segments(a + b) == Segments(a[1..] + b)
    ensures Segments(a) == Segments(a[1..])
  {
    MatchLengthStopsAtMarker(a, b);
    SliceAppend(a, b, 1);
  }

  /** One step of `SegmentsSplitAtMarker`: the match at the front of `a` is the match at the front of `a + b`. */
  lemma MatchStopsAtMarker(a: string, b: string)
    requires a != [] && b != [] && IsMarker(b[0]) && MatchLength(a) > 0
    ensures Segments(a + b) == [a[..MatchLength(a)]] + Segments(a[MatchLength(a)..] + b)
    ensures Segments(a) == [a[..MatchLength(a)]] + Segments(a[MatchLength(a)..])
  {
    var n := MatchLength(a);
    assert MatchLength(a + b) == n by { MatchLengthStopsAtMarker(a, b); }
    SliceAppend(a, b, n);
  }

  /** Scanning from a marker, the first match found starts with a marker. */
  lemma {:induction false} FirstMatchFromMarker(t: string)
    requires t != [] && IsMarker(t[0])
    ensures Segments(t) != [] ==> Segments(t)[0] != [] && IsMarker(Segments(t)[0][0])
    decreases |t|
  {
    if MatchLength(t) == 0 && |t| > 1 {
      FirstMatchFromMarker(t[1..]);
    }
  }

  /** Only the first match can lack a marker: every later one starts with the marker that ended the text before it. */
  lemma {:induction false} LaterMatchesStartWithMarker(s: string)
    ensures forall i :: 0 < i < |Segments(s)| ==> Segments(s)[i] != [] && IsMarker(Segments(s)[i][0])
    decreases |s|
  {
    if s != [] {
      var n := MatchLength(s);
      if n == 0 {
        LaterMatchesStartWithMarker(s[1..]);
      } else {
        var rest := Segments(s[n..]);
        assert Segments(s) == [s[..n]] + rest;
        LaterMatchesStartWithMarker(s[n..]);
        if n < |s| {
          FirstMatchFromMarker(s[n..]);
        }
      }
    }
  }

  /** Text without markers is one match, or none when it is empty. */
  lemma SegmentsOfText(t: string)
    requires NoMarkers(t)
    ensures Segments(t) == if t == [] then [] else [t]
  {
    if t != [] {
      RunLengthOfText(t);
      assert !IsMarker(t[0]);
      assert t[..|t|] == t;
      assert Segments(t) == [t[..|t|]] + Segments(t[|t|..]);
    }
  }

  /** A marker followed by marker-free text is one match, or none when the text is empty. */
  lemma SegmentsOfMarkedText(m: char, t: string)
    requires IsMarker(m) && NoMarkers(t)
    ensures Segments([m] + t) == if t == [] then [] else [[m] + t]
  {
    var s := [m] + t;
    assert s[1..] == t;
    if t != [] {
      RunLengthOfText(t);
      assert s[..|s|] == s;
      assert s[|s|..] == [];
    }
  }

  /** A marker followed by another marker, or by the end of the label, yields no match of its own and does not disturb the others. */
  lemma LoneMarkerIgnored(a: string, m: char, b: string)
    requires IsMarker(m)
    requires b == [] || IsMarker(b[0])
    ensures Segments(a + [m] + b) == Segments(a) + Segments(b)
  {
    var mb := [m] + b;
    assert a + [m] + b == a + mb;
    SegmentsSplitAtMarker(a, mb);
    assert Segments(mb) == Segments(b) by {
      assert mb[0] == m && (|mb| == 1 || mb[1] == b[0]);
      assert MatchLength(mb) == 0;
      assert mb[1..] == b;
    }
  }

  /** The characters of `s` that are not markers, in order. */
  function TextOf(s: string): (r: string)
    ensures |r| <= |s| && NoMarkers(r)
  {
    if s == [] then [] else (if IsMarker(s[0]) then [] else [s[0]]) + TextOf(s[1..])
  }

  lemma {:induction false} TextOfAppend(x: string, y: string)
    ensures TextOf(x + y) == TextOf(x) + TextOf(y)
  {
    if x == [] {
      assert x + y == y;
    } else {
      SliceAppend(x, y, 1);
      TextOfAppend(x[1..], y);
    }
  }

  function Concat(ms: seq<string>): string {
    if ms == [] then [] else ms[0] + Concat(ms[1..])
  }

  /** The scan loses no text: only markers are left out of the matches. */
  lemma {:induction false} SegmentsKeepText(s: string)
    ensures TextOf(Concat(Segments(s))) == TextOf(s)
    decreases |s|
  {
    if s != [] {
      var n := MatchLength(s);
      if n == 0 {
        SegmentsKeepText(s[1..]);
      } else {
        var ms, rest := Segments(s), Segments(s[n..]);
        assert ms == [s[..n]] + rest;
        assert ms[1..] == rest;
        assert Concat(ms) == s[..n] + Concat(rest);
        SegmentsKeepText(s[n..]);
        TextOfAppend(s[..n], Concat(rest));
        TextOfAppend(s[..n], s[n..]);
        assert s[..n] + s[n..] == s;
      }
    }
  }

  // ---------------------------------------------------------------------------
  // From matches to tokens
  // ---------------------------------------------------------------------------

  /** A token of one label: its level and its name. */
  datatype Token = Token(level: nat, name: string)

  /** A bookmark name: non-empty, without whitespace at either end, with no note mark. */
  predicate IsName(name: string) {
    && name != []
    && !IsWhitespace(name[0]) && !IsWhitespace(name[|name| - 1])
    && NoteMark !in name
  }

  /** What the tokenizer guarantees of every token it emits. */
  predicate IsLabelToken(t: Token) {
    t.level < |Markers| && IsName(t.name) && NoMarkers(t.name)
  }

  /** A match without its leading marker, if it has one. */
  function MarkerText(m: string): string {
    if m != [] && IsMarker(m[0]) then m[1..] else m
  }

  /**
   * The token of one match: the level is the position of the leading marker in
   * the marker table (0 without one); the name is the text after the marker and
   * before the first note mark, trimmed; a match whose name is empty gives no token.
   */
  function ParseSegment(m: string): (r: Option<Token>)
    ensures r.Some? ==> r.value.level < |Markers| && r.value.name != []
    ensures r.Some? && m != [] && IsMarker(m[0]) ==> Markers[r.value.level] == m[0]
    ensures r.Some? && (m == [] || !IsMarker(m[0])) ==> r.value.level == 0
  {
    var level := if m != [] && IsMarker(m[0]) then LevelOf(m[0]) else 0;
    var name := Strip(BeforeNote(MarkerText(m)));
    if 0 < |name| then Some(Token(level, name)) else None
  }

  /** The name taken from a match text is a slice of that text, from the end of its leading blanks on. */
  lemma NameIsSlice(text: string)
    ensures var body := BeforeNote(text);
      LeadingSpace(body, 0) + |Strip(body)| <= |text| &&
      forall k :: 0 <= k < |Strip(body)| ==> Strip(body)[k] == text[LeadingSpace(body, 0) + k]
  {
    var body := BeforeNote(text);
    StripSlice(body);
  }

  /** The name taken from a match text has no note mark in it. */
  lemma NameHasNoNoteMark(text: string)
    ensures NoteMark !in Strip(BeforeNote(text))
  {
    StripSlice(BeforeNote(text));
  }

  /** What a match gives: no token exactly when its text before the note mark is blank; otherwise the level of its marker and a stripped name. */
  lemma ParseSegmentToken(m: string)
    ensures ParseSegment(m).None? <==> AllWhitespace(BeforeNote(MarkerText(m)))
    ensures ParseSegment(m).Some? ==>
      var t := ParseSegment(m).value;
      && t.level < |Markers| && IsName(t.name)
      && IsStrippedFrom(t.name, BeforeNote(MarkerText(m)))
      && (if m != [] && IsMarker(m[0]) then Markers[t.level] == m[0] else t.level == 0)
  {
    var text := BeforeNote(MarkerText(m));
    StripRemovesOnlyWhitespace(text);
    NameHasNoNoteMark(MarkerText(m));
    if ParseSegment(m).Some? {
      assert ParseSegment(m).value.name == Strip(text);
    }
  }

  /** The text of a match after its marker has no marker in it. */
  lemma MarkerTextOfSegment(m: string)
    requires IsSegment(m)
    ensures NoMarkers(MarkerText(m))
  {
    if !IsMarker(m[0]) {
      forall k | 0 <= k < |m| ensures !IsMarker(m[k]) {
        if k > 0 { assert m[k] == m[1..][k - 1]; }
      }
    }
  }

  /** The name of a match's token has no marker in it, so every token of a match is a label token. */
  lemma SegmentTokenHasNoMarker(m: string)
    requires IsSegment(m) && ParseSegment(m).Some?
    ensures IsLabelToken(ParseSegment(m).value)
  {
    var text := MarkerText(m);
    var name := ParseSegment(m).value.name;
    assert name == Strip(BeforeNote(text));
    assert IsName(name) && ParseSegment(m).value.level < |Markers| by {
      ParseSegmentToken(m);
    }
    MarkerTextOfSegment(m);
    NameIsSlice(text);
  }

  /** The tokens of a list of matches, in order, skipping the matches with an empty name. */
  function ParseAll(ms: seq<string>): (ts: seq<Token>)
    ensures |ts| <= |ms|
  {
    Values(Map(ParseSegment, ms))
  }

  /** Every token parsed from genuine matches is a label token. */
  lemma ParseAllTokens(ms: seq<string>)
    requires forall i :: 0 <= i < |ms| ==> IsSegment(ms[i])
    ensures forall i :: 0 <= i < |ParseAll(ms)| ==> IsLabelToken(ParseAll(ms)[i])
  {
    var os := Map(ParseSegment, ms);
    ValuesFromSomes(os);
    forall i | 0 <= i < |ParseAll(ms)| ensures IsLabelToken(ParseAll(ms)[i]) {
      var j :| 0 <= j < |os| && os[j] == Some(ParseAll(ms)[i]);
      SegmentTokenHasNoMarker(ms[j]);
    }
  }

  /** The tokens of consecutive runs of matches are those of each run, one after the other. */
  lemma ParseAllAppend(xs: seq<string>, ys: seq<string>)
    ensures ParseAll(xs + ys) == ParseAll(xs) + ParseAll(ys)
  {
    MapAppend(ParseSegment, xs, ys);
    ValuesAppend(Map(ParseSegment, xs), Map(ParseSegment, ys));
  }

  /** The tokens of one label, in the order their matches occur. */
  function Tokenize(text: string): (ts: seq<Token>)
    ensures forall i :: 0 <= i < |ts| ==> IsLabelToken(ts[i])
  {
    SegmentsAreMatches(text);
    ParseAllTokens(Segments(text));
    ParseAll(Segments(text))
  }

  /** A marker starts a new token: a label split just before a marker tokenizes as its two halves. */
  lemma TokenizeSplitAtMarker(a: string, b: string)
    requires b != [] && IsMarker(b[0])
    ensures Tokenize(a + b) == Tokenize(a) + Tokenize(b)
  {
    SegmentsSplitAtMarker(a, b);
    ParseAllAppend(Segments(a), Segments(b));
  }

  /** The name a one-match label gives, when it is not blank. */
  function NameOf(text: string): Option<string> {
    var name := Strip(BeforeNote(text));
    if name == [] then None else Some(name)
  }

  /** A label without markers is at most one token, at level 0, named by its text before the note mark, trimmed. */
  lemma TokenizeText(t: string)
    requires NoMarkers(t)
    ensures Tokenize(t) == if NameOf(t).None? then [] else [Token(0, NameOf(t).value)]
  {
    SegmentsOfText(t);
    if t != [] {
      assert MarkerText(t) == t;
      assert Map(ParseSegment, [t]) == [ParseSegment(t)];
      assert Values([ParseSegment(t)]) == (if ParseSegment(t).Some? then [ParseSegment(t).value] else []) + Values([]);
    }
  }

  /** A label made of one marker and marker-free text is at most one token, at the marker's level. */
  lemma TokenizeMarked(m: char, t: string)
    requires IsMarker(m) && NoMarkers(t)
    ensures Tokenize([m] + t) == if NameOf(t).None? then [] else [Token(LevelOf(m), NameOf(t).value)]
  {
    SegmentsOfMarkedText(m, t);
    var s := [m] + t;
    if t != [] {
      assert s[1..] == t;
      assert MarkerText(s) == t;
      assert Map(ParseSegment, [s]) == [ParseSegment(s)];
      assert Values([ParseSegment(s)]) == (if ParseSegment(s).Some? then [ParseSegment(s).value] else []) + Values([]);
    } else {
      assert Strip(BeforeNote(t)) == [];
    }
  }

  /** A bookmark name as a label can carry it whole: no blank at either end, no marker and no note mark. */
  predicate IsTitle(name: string) {
    IsName(name) && NoMarkers(name)
  }

  /** Text without markers, followed by more text without markers, has none. */
  lemma NoMarkersAppend(a: string, b: string)
    requires NoMarkers(a) && NoMarkers(b)
    ensures NoMarkers(a + b)
  {
    assert forall k :: 0 <= k < |a + b| ==> (a + b)[k] == if k < |a| then a[k] else b[k - |a|];
  }

  /** A title followed by blanks holds neither a marker nor a note mark. */
  lemma PaddedTitle(name: string, pad: string)
    requires IsTitle(name) && AllWhitespace(pad)
    ensures NoMarkers(name + pad) && NoteMark !in name + pad
  {
    assert NoMarkers(pad);
    forall k | 0 <= k < |pad| ensures pad[k] != NoteMark {
      assert IsWhitespace(pad[k]);
    }
    NoMarkersAppend(name, pad);
  }

  /** A label of plain text, padded with blanks at the end: one level-0 token. */
  lemma PlainToken(name: string, pad: string)
    requires IsTitle(name) && AllWhitespace(pad)
    ensures Tokenize(name + pad) == [Token(0, name)]
  {
    var t := name + pad;
    PaddedTitle(name, pad);
    assert NameOf(t) == Some(name) by {
      BeforeNoteOf(t, []);
      assert [] + name + pad == t;
      StripOfPadded([], name, pad);
    }
    TokenizeText(t);
  }

  /** A label of plain text followed by a note: one level-0 token without the note. */
  lemma NotedToken(name: string, pad: string, note: string)
    requires IsTitle(name) && AllWhitespace(pad) && NoMarkers(note)
    ensures Tokenize(name + pad + [NoteMark] + note) == [Token(0, name)]
  {
    var t := name + pad;
    var text := t + [NoteMark] + note;
    PaddedTitle(name, pad);
    assert NoMarkers(text) by {
      NoMarkersAppend(t, [NoteMark]);
      NoMarkersAppend(t + [NoteMark], note);
    }
    assert NameOf(text) == Some(name) by {
      BeforeNoteOf(t, note);
      assert [] + name + pad == t;
      StripOfPadded([], name, pad);
    }
    TokenizeText(text);
  }

  /** A label of a marker, plain text and blanks: one token at the marker's level. */
  lemma MarkedToken(m: char, name: string, pad: string)
    requires IsMarker(m) && IsTitle(name) && AllWhitespace(pad)
    ensures Tokenize([m] + name + pad) == [Token(LevelOf(m), name)]
  {
    var t := name + pad;
    PaddedTitle(name, pad);
    assert NameOf(t) == Some(name) by {
      BeforeNoteOf(t, []);
      assert [] + name + pad == t;
      StripOfPadded([], name, pad);
    }
    assert [m] + name + pad == [m] + t;
    TokenizeMarked(m, t);
  }

  /** A label of a marker and a name: one token at the marker's level. */
  lemma MarkedName(m: char, name: string)
    requires IsMarker(m) && IsTitle(name)
    ensures Tokenize([m] + name) == [Token(LevelOf(m), name)]
  {
    MarkedToken(m, name, []);
    assert [m] + name + [] == [m] + name;
  }

  // ---------------------------------------------------------------------------
  // From page stems to the flat bookmark list
  // ---------------------------------------------------------------------------

  /** One entry of the flat bookmark list: level, name and 0-based page number. */
  datatype Bookmark = Bookmark(level: nat, name: string, page: nat)

  /** The tokens of one page: those of the text after the first field of its stem, none when the stem has no such text. */
  function PageTokens(stem: string): (ts: seq<Token>)
    ensures |SplitOnce(stem)| < 2 ==> ts == []
    ensures |SplitOnce(stem)| == 2 ==> ts == Tokenize(SplitOnce(stem)[1])
    ensures forall i :: 0 <= i < |ts| ==> IsLabelToken(ts[i])
  {
    var parts := SplitOnce(stem);
    if 2 == |parts| && 0 < |parts[1]| then Tokenize(parts[1]) else []
  }

  /** A stem made of blanks, a page field, blanks and a label gives the tokens of the label. */
  lemma StemTokens(w1: string, field: string, w: string, text: string)
    requires AllWhitespace(w1) && field != [] && NoWhitespace(field)
    requires w != [] && AllWhitespace(w) && text != [] && !IsWhitespace(text[0])
    ensures PageTokens(w1 + field + w + text) == Tokenize(text)
  {
    SplitOnceOfFields(w1, field, w, text);
  }

  /** The bookmarks of one page: its tokens, each with `page` as its page number. */
  function OnPage(ts: seq<Token>, page: nat): (bs: seq<Bookmark>)
    ensures |bs| == |ts|
    ensures forall i :: 0 <= i < |bs| ==> bs[i] == Bookmark(ts[i].level, ts[i].name, page)
  {
    Map((t: Token) => Bookmark(t.level, t.name, page), ts)
  }

  /** The flat bookmark list of pages whose tokens are `pages`, page after page, each page numbered by its 0-based index. */
  function Paginate(pages: seq<seq<Token>>): (bs: seq<Bookmark>)
    ensures forall i :: 0 <= i < |bs| ==> bs[i].page < |pages|
  {
    if pages == [] then []
    else
      var n := |pages| - 1;
      Paginate(pages[..n]) + OnPage(pages[n], n)
  }

  /** The flat bookmark list of the pages whose stems are `stems`, in the order of the stems. */
  function CollectBookmarks(stems: seq<string>): (bs: seq<Bookmark>)
    ensures forall i :: 0 <= i < |bs| ==> bs[i].page < |stems|
  {
    Paginate(Map(PageTokens, stems))
  }

  /** A bookmark of a book of `pages` pages: a page number in range and a label token. */
  predicate IsPageBookmark(b: Bookmark, pages: nat) {
    b.page < pages && IsLabelToken(Token(b.level, b.name))
  }

  /** Every bookmark points at one of the pages, and the list is ordered by page. */
  lemma {:induction false} PaginateInOrder(pages: seq<seq<Token>>)
    ensures forall i :: 0 <= i < |Paginate(pages)| ==> Paginate(pages)[i].page < |pages|
    ensures forall i, j :: 0 <= i < j < |Paginate(pages)| ==> Paginate(pages)[i].page <= Paginate(pages)[j].page
  {
    if pages != [] {
      var n := |pages| - 1;
      var init, own := Paginate(pages[..n]), OnPage(pages[n], n);
      PaginateInOrder(pages[..n]);
      var bs := init + own;
      assert Paginate(pages) == bs;
      assert forall i :: 0 <= i < |init| ==> bs[i] == init[i];
      assert forall i :: |init| <= i < |bs| ==> bs[i] == own[i - |init|];
    }
  }

  /** Label tokens stay label tokens when they are numbered by page. */
  lemma {:induction false} PaginateTokens(pages: seq<seq<Token>>)
    requires forall p, i :: 0 <= p < |pages| && 0 <= i < |pages[p]| ==> IsLabelToken(pages[p][i])
    ensures forall i :: 0 <= i < |Paginate(pages)| ==> IsLabelToken(Token(Paginate(pages)[i].level, Paginate(pages)[i].name))
  {
    if pages != [] {
      var n := |pages| - 1;
      var init, own := Paginate(pages[..n]), OnPage(pages[n], n);
      assert forall p, i :: 0 <= p < n && 0 <= i < |pages[..n][p]| ==> pages[..n][p][i] == pages[p][i];
      PaginateTokens(pages[..n]);
      var bs := init + own;
      assert Paginate(pages) == bs;
      forall i | 0 <= i < |bs| ensures IsLabelToken(Token(bs[i].level, bs[i].name)) {
        if i < |init| {
          assert bs[i] == init[i];
        } else {
          assert bs[i] == own[i - |init|];
          assert Token(bs[i].level, bs[i].name) == pages[n][i - |init|];
        }
      }
    }
  }

  /** Every bookmark points into the book and carries a label token, and the list is ordered by page. */
  lemma CollectBookmarksInOrder(stems: seq<string>)
    ensures forall i :: 0 <= i < |CollectBookmarks(stems)| ==> IsPageBookmark(CollectBookmarks(stems)[i], |stems|)
    ensures forall i, j :: 0 <= i < j < |CollectBookmarks(stems)| ==> CollectBookmarks(stems)[i].page <= CollectBookmarks(stems)[j].page
  {
    var pages := Map(PageTokens, stems);
    assert forall p :: 0 <= p < |pages| ==> pages[p] == PageTokens(stems[p]);
    PaginateInOrder(pages);
    PaginateTokens(pages);
  }

  /** The tokens carried by the bookmarks of page `p`, in order. */
  function TokensOnPage(bs: seq<Bookmark>, p: nat): seq<Token> {
    if bs == [] then []
    else (if bs[0].page == p then [Token(bs[0].level, bs[0].name)] else []) + TokensOnPage(bs[1..], p)
  }

  lemma {:induction false} TokensOnPageAppend(xs: seq<Bookmark>, ys: seq<Bookmark>, p: nat)
    ensures TokensOnPage(xs + ys, p) == TokensOnPage(xs, p) + TokensOnPage(ys, p)
  {
    if xs == [] {
      assert xs + ys == ys;
    } else {
      var head := if xs[0].page == p then [Token(xs[0].level, xs[0].name)] else [];
      assert TokensOnPage(xs + ys, p) == head + TokensOnPage(xs[1..] + ys, p) by {
        assert (xs + ys)[0] == xs[0];
        assert (xs + ys)[1..] == xs[1..] + ys;
      }
      TokensOnPageAppend(xs[1..], ys, p);
    }
  }

  lemma {:induction false} TokensOnOtherPage(bs: seq<Bookmark>, p: nat)
    requires forall i :: 0 <= i < |bs| ==> bs[i].page != p
    ensures TokensOnPage(bs, p) == []
  {
    if bs != [] { TokensOnOtherPage(bs[1..], p); }
  }

  lemma {:induction false} TokensOnOwnPage(bs: seq<Bookmark>, ts: seq<Token>, p: nat)
    requires |bs| == |ts|
    requires forall i :: 0 <= i < |bs| ==> bs[i] == Bookmark(ts[i].level, ts[i].name, p)
    ensures TokensOnPage(bs, p) == ts
  {
    if bs != [] { TokensOnOwnPage(bs[1..], ts[1..], p); }
  }

  /** The bookmarks of page `p` are exactly that page's tokens, in order. */
  lemma {:induction false} PaginateOfPage(pages: seq<seq<Token>>, p: nat)
    requires p < |pages|
    ensures TokensOnPage(Paginate(pages), p) == pages[p]
  {
    var n := |pages| - 1;
    var init, own := Paginate(pages[..n]), OnPage(pages[n], n);
    assert Paginate(pages) == init + own;
    TokensOnPageAppend(init, own, p);
    if p == n {
      PaginateInOrder(pages[..n]);
      TokensOnOtherPage(init, p);
      TokensOnOwnPage(own, pages[n], p);
    } else {
      TokensOnOtherPage(own, p);
      PaginateOfPage(pages[..n], p);
    }
  }

  /** The bookmarks of page `p` are exactly the tokens of its stem, in order, each carrying `p` as its page number. */
  lemma BookmarksOfPage(stems: seq<string>, p: nat)
    requires p < |stems|
    ensures TokensOnPage(CollectBookmarks(stems), p) == PageTokens(stems[p])
  {
    PaginateOfPage(Map(PageTokens, stems), p);
  }

  /** A page whose stem is a single field, such as `p.004`, contributes no bookmark. */
  lemma SingleFieldPageHasNoBookmarks(stems: seq<string>, p: nat)
    requires p < |stems| && |SplitOnce(stems[p])| < 2
    ensures forall i :: 0 <= i < |CollectBookmarks(stems)| ==> CollectBookmarks(stems)[i].page != p
  {
    var bs := CollectBookmarks(stems);
    BookmarksOfPage(stems, p);
    forall i | 0 <= i < |bs| ensures bs[i].page != p {
      if bs[i].page == p { OnPageNonEmpty(bs, i, p); }
    }
  }

  lemma {:induction false} OnPageNonEmpty(bs: seq<Bookmark>, i: nat, p: nat)
    requires i < |bs| && bs[i].page == p
    ensures TokensOnPage(bs, p) != []
  {
    if i > 0 { OnPageNonEmpty(bs[1..], i - 1, p); }
  }
}
