/**
  detect_piping: a line containing '|' is cut at its first '|' (overwritten
  with a NUL in the input buffer) and each side is tokenized on its own.
  A later '|' is not a split point.
*/
module Pipes {
  import opened Wrappers
  import opened CStrings
  import opened Tokenizer

  /** The line cut at its first '|': the text before it and the text after it. */
  function SplitPipe(line: string): (r: Option<(string, string)>)
    ensures r.None? <==> '|' !in line
    ensures r.Some? ==> '|' !in r.value.0 && line == r.value.0 + "|" + r.value.1
  {
    match IndexOf(line, '|')
    case None => None
    case Some(p) =>
      assert line == line[..p] + "|" + line[p + 1..];
      Some((line[..p], line[p + 1..]))
  }

  /** The split is unique: any '|'-free text before a '|' is the left side. */
  lemma SplitAtFirstPipe(line: string, before: string, after: string)
    requires '|' !in before && line == before + "|" + after
    ensures SplitPipe(line) == Some((before, after))
  {
    var p := IndexOf(line, '|').value;
    assert line[|before|] == '|';
    assert p == |before|;
    assert line[..p] == before && line[p + 1..] == after;
  }

  lemma {:induction false} InRemoveSeps(s: string, k: nat)
    requires k < |s| && !IsSep(s[k])
    ensures s[k] in RemoveSeps(s)
  {
    if k > 0 {
      InRemoveSeps(s[1..], k - 1);
    }
  }

  lemma {:induction false} InConcat(ts: seq<string>, c: char)
    requires c in Concat(ts)
    ensures exists j :: 0 <= j < |ts| && c in ts[j]
  {
    if c !in ts[0] {
      InConcat(ts[1..], c);
      var j :| 0 <= j < |ts[1..]| && c in ts[1..][j];
      assert c in ts[j + 1];
    }
  }

  /**
    Only the first '|' splits: every later '|' stays inside a word of the
    right-hand side, which the right command then receives as an argument.
  */
  lemma LaterPipeStaysInWord(line: string)
    requires SplitPipe(line).Some? && '|' in SplitPipe(line).value.1
    ensures exists j :: 0 <= j < |Tokenize(SplitPipe(line).value.1)| && '|' in Tokenize(SplitPipe(line).value.1)[j]
  {
    var right := SplitPipe(line).value.1;
    var k :| 0 <= k < |right| && right[k] == '|';
    InRemoveSeps(right, k);
    TokensKeepText(right);
    InConcat(Tokenize(right), '|');
  }

  /**
    Writing a NUL over the first '|' of the C string in buf leaves two C
    strings: the text before the '|' at the start and the text after it
    just past the NUL.
  */
  lemma PipeCut(buf: seq<char>, p: nat)
    requires '\0' in buf && IndexOf(CStr(buf), '|') == Some(p)
    ensures var cut := buf[p := '\0'];
      && '\0' in cut[0..] && '\0' in cut[p + 1..]
      && SplitPipe(CStr(buf)).value == (CStr(cut[0..]), CStr(cut[p + 1..]))
  {
    var line := CStr(buf);
    var cut := buf[p := '\0'];
    CutAt(buf, p);
    assert cut[0..] == cut;
    assert cut[p + 1..][|line| - p - 1] == '\0';
  }

  /**
    detect_piping(input, left, right): reports whether the C string in input
    holds a '|'. If it does, the first '|' becomes a NUL, left holds the words
    before it and right the words after it, each NULL-terminated. If not,
    nothing is changed.
  */
  method DetectPiping(input: array<char>, left: array<Slot>, right: array<Slot>) returns (piped: bool)
    requires '\0' in input[..]
    requires left.Length == MaxArgs && right.Length == MaxArgs && left != right
    modifies input, left, right
    ensures piped <==> '|' in old(CStr(input[..]))
    ensures piped ==>
      var (l, r) := SplitPipe(old(CStr(input[..]))).value;
      && input[..] == old(input[..])[|l| := '\0']
      && Holds(left[..], Parse(l)) && Argv(left[..]) == Parse(l)
      && Holds(right[..], Parse(r)) && Argv(right[..]) == Parse(r)
    ensures !piped ==> input[..] == old(input[..]) && left[..] == old(left[..]) && right[..] == old(right[..])
  {
    var line := CStr(input[..]);
    var pos := IndexOf(line, '|');
    if pos.None? {
      return false;
    }
    var p := pos.value;
    ghost var before := input[..];
    input[p] := '\0';
    PipeCut(before, p);
    ParseInput(input, 0, left);
    ParseInput(input, p + 1, right);
    piped := true;
  }
}
