/**
 * `ReadBCSTomoData.params_to_dict`: the parameter block of a frame, CRLF-separated
 * lines of `KEY VALUE`, turned into a dictionary.
 */
module Params {
  import opened TextOps
  import opened Bytes

  const CRLF := "\r\n"

  type ParamDict = map<string, string>

  /** `line.split(' ')`. */
  function Tokens(line: string): seq<string>
  {
    Split(line, " ")
  }

  /** The key a line contributes: its first space-separated token. */
  function Key(line: string): string
  {
    Tokens(line)[0]
  }

  /** The value a line contributes: its second token, or "" when the line has no space. */
  function Value(line: string): string
  {
    var t := Tokens(line);
    if |t| > 1 then t[1] else ""
  }

  /** The dictionary built by storing each line's key and value in order, later lines overwriting earlier ones. */
  function DictOf(lines: seq<string>): ParamDict
    decreases |lines|
  {
    if lines == [] then map[]
    else
      var last := lines[|lines| - 1];
      DictOf(lines[..|lines| - 1])[Key(last) := Value(last)]
  }

  /** The dictionary `params_to_dict` returns for the decoded parameter text. */
  function ParamsDict(text: string): ParamDict
  {
    DictOf(Split(text, CRLF))
  }

  /** params_to_dict: one dictionary store per CRLF-separated line, in order. */
  method ParamsToDict(params: bytes) returns (d: ParamDict)
    ensures d == ParamsDict(Text(params))
  {
    var lines := Split(Text(params), CRLF);
    d := map[];
    for i := 0 to |lines|
      invariant d == DictOf(lines[..i])
    {
      var kvSplit := Split(lines[i], " ");
      if |kvSplit| > 1 {
        d := d[kvSplit[0] := kvSplit[1]];
      } else {
        d := d[kvSplit[0] := ""];
      }
      assert lines[..i + 1][..i] == lines[..i];
    }
    assert lines[..|lines|] == lines;
  }

  /**
   * How one line splits: with no space the whole line is the key and the value is "";
   * otherwise the key is the text before the first space and the value is the text
   * between the first and the second space (not the rest of the line).
   */
  lemma KeyAndValue(line: string)
    ensures Find(line, " ") < 0 ==> Key(line) == line && Value(line) == ""
    ensures Find(line, " ") >= 0 ==>
      var p := Find(line, " ");
      var rest := line[p + 1..];
      Key(line) == line[..p] &&
      Value(line) == (if Find(rest, " ") < 0 then rest else rest[..Find(rest, " ")])
    ensures Find(Key(line), " ") < 0 && Find(Value(line), " ") < 0
  {
    var p := Find(line, " ");
    if p >= 0 {
      var rest := line[p + 1..];
      assert Tokens(line) == [line[..p]] + Split(rest, " ");
    }
  }

  /** The keys of the dictionary are exactly the keys of the lines. */
  lemma {:induction false} DictOfKeys(lines: seq<string>)
    ensures DictOf(lines).Keys == set i | 0 <= i < |lines| :: Key(lines[i])
    decreases |lines|
  {
    if lines != [] {
      var init := lines[..|lines| - 1];
      DictOfKeys(init);
      assert forall i :: 0 <= i < |init| ==> init[i] == lines[i];
    }
  }

  /** A key maps to the value of the LAST line that has that key. */
  lemma {:induction false} DictOfLastWins(lines: seq<string>, j: nat)
    requires j < |lines|
    requires forall k :: j < k < |lines| ==> Key(lines[k]) != Key(lines[j])
    ensures Key(lines[j]) in DictOf(lines) && DictOf(lines)[Key(lines[j])] == Value(lines[j])
    decreases |lines|
  {
    if j < |lines| - 1 {
      var init := lines[..|lines| - 1];
      assert init[j] == lines[j];
      DictOfLastWins(init, j);
    }
  }

  /** An occurrence of CRLF that starts inside `t` also ends inside `t`: CRLF cannot overlap itself. */
  lemma CrlfInside(t: string, k: int)
    requires OccursAt(t + CRLF, CRLF, k) && k < |t|
    ensures k + 2 <= |t|
  {
    var s := t + CRLF;
    assert s[|t|] == '\r';
    assert s[k..k + 2][1] == s[k + 1] == '\n';
  }

  /** The last line of a block that ends in CRLF is empty. */
  lemma {:induction false} SplitTrailingCrlf(t: string)
    ensures var pieces := Split(t + CRLF, CRLF); pieces[|pieces| - 1] == ""
    decreases |t|
  {
    var s := t + CRLF;
    assert OccursAt(s, CRLF, |t|);
    var k := Find(s, CRLF);
    assert k >= 0 && k <= |t|;
    var rest := s[k + 2..];
    assert Split(s, CRLF) == [s[..k]] + Split(rest, CRLF);
    if k == |t| {
      assert rest == "";
      assert Split(rest, CRLF) == [""];
    } else {
      CrlfInside(t, k);
      assert rest == t[k + 2..] + CRLF;
      SplitTrailingCrlf(t[k + 2..]);
    }
  }

  /** A parameter block ending in CRLF yields the key "" mapped to "" (the empty last line). */
  lemma TrailingCrlfGivesEmptyKey(t: string)
    ensures "" in ParamsDict(t + CRLF) && ParamsDict(t + CRLF)[""] == ""
  {
    var lines := Split(t + CRLF, CRLF);
    SplitTrailingCrlf(t);
    var last := lines[|lines| - 1];
    assert Find(last, " ") < 0;
    KeyAndValue(last);
  }
}
