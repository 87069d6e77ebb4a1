/**
 * The parser of ImageMagick `identify` output: each line is `key<TAB>value`
 * and becomes one entry of a dictionary. Running the external command and
 * cutting its output into lines happen outside the model; the input here is
 * the list of lines.
 */
module Identify {
  import opened PyStr

  /**
   * The key and value one line contributes: the line is split at its first
   * tab; a line without a tab is a key with an empty value.
   */
  function LineEntry(line: string): (kv: (string, string))
    ensures '\t' !in kv.0
    ensures '\t' in line ==> line == kv.0 + ['\t'] + kv.1
    ensures '\t' !in line ==> kv == (line, "")
  {
    var parts := SplitFirst(line, '\t');
    if 1 < |parts| then (parts[0], parts[1]) else (parts[0], "")
  }

  /** The dictionary `lines` describe, read in order, so that a later line overrides an earlier one with the same key. */
  function Table(lines: seq<string>): (table: map<string, string>)
    ensures |table| <= |lines|
  {
    if lines == [] then map[]
    else
      var kv := LineEntry(lines[|lines| - 1]);
      Table(lines[..|lines| - 1])[kv.0 := kv.1]
  }

  /** The loop of `get_identify` over the output lines. */
  method ParseIdentify(lines: seq<string>) returns (metaData: map<string, string>)
    ensures metaData == Table(lines)
  {
    metaData := map[];
    var i := 0;
    assert lines[..i] == [];
    while i < |lines|
      invariant 0 <= i <= |lines|
      invariant metaData == Table(lines[..i])
    {
      var parts := SplitFirst(lines[i], '\t');
      ghost var kv := LineEntry(lines[i]);
      assert Table(lines[..i + 1]) == Table(lines[..i])[kv.0 := kv.1] by {
        assert lines[..i + 1][..i] == lines[..i];
      }
      if 1 < |parts| {
        metaData := metaData[parts[0] := parts[1]];
      } else if 0 < |parts| {
        metaData := metaData[parts[0] := ""];
      }
      i := i + 1;
    }
    assert lines[..|lines|] == lines;
  }

  /** The keys of the lines, in order. */
  function Keys(lines: seq<string>): (keys: seq<string>)
    ensures |keys| == |lines|
    ensures forall i :: 0 <= i < |lines| ==> keys[i] == LineEntry(lines[i]).0
  {
    if lines == [] then [] else Keys(lines[..|lines| - 1]) + [LineEntry(lines[|lines| - 1]).0]
  }

  /** The dictionary's keys are exactly the keys of the lines. */
  lemma {:induction false} TableKeys(lines: seq<string>, k: string)
    ensures k in Table(lines) <==> k in Keys(lines)
  {
    if lines != [] {
      TableKeys(lines[..|lines| - 1], k);
    }
  }

  /** A key takes the value of the last line that names it. */
  lemma {:induction false} TableLastWins(lines: seq<string>, i: nat)
    requires i < |lines|
    requires forall j :: i < j < |lines| ==> LineEntry(lines[j]).0 != LineEntry(lines[i]).0
    ensures LineEntry(lines[i]).0 in Table(lines)
    ensures Table(lines)[LineEntry(lines[i]).0] == LineEntry(lines[i]).1
  {
    var init := lines[..|lines| - 1];
    if i < |lines| - 1 {
      assert init[i] == lines[i];
      forall j | i < j < |init| ensures LineEntry(init[j]).0 != LineEntry(init[i]).0 {
        assert init[j] == lines[j];
      }
      TableLastWins(init, i);
    }
  }
}
