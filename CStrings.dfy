/**
  C strings held in fixed-size character buffers: the text a buffer holds is
  what precedes its first NUL. The C library calls the shell relies on
  (strchr, strncpy) are stated here as functions.
*/
module CStrings {
  import opened Wrappers

  /** MAX_LINE: the size of the shell's input buffer. */
  const MaxLine: nat := 1024

  function Min(a: nat, b: nat): nat { if a <= b then a else b }

  /** The C string held in a buffer: the characters before the first NUL (all of them if there is none). */
  function CStr(buf: seq<char>): (s: seq<char>)
    ensures s <= buf && '\0' !in s
    ensures |s| < |buf| ==> buf[|s|] == '\0'
  {
    if buf == [] || buf[0] == '\0' then [] else [buf[0]] + CStr(buf[1..])
  }

  /** strchr on a C string s: the index of the first occurrence of c, if any. */
  function IndexOf(s: seq<char>, c: char): (r: Option<nat>)
    ensures r.None? <==> c !in s
    ensures r.Some? ==> r.value < |s| && s[r.value] == c && c !in s[..r.value]
  {
    if s == [] then None
    else if s[0] == c then Some(0)
    else match IndexOf(s[1..], c)
      case None => None
      case Some(k) =>
        assert s[..k + 1] == [s[0]] + s[1..][..k];
        Some(k + 1)
  }

  /** A NUL-free prefix followed by a NUL is exactly the C string of the buffer. */
  lemma {:induction false} CStrStopsAtNul(s: seq<char>, rest: seq<char>)
    requires '\0' !in s && rest != [] && rest[0] == '\0'
    ensures CStr(s + rest) == s
  {
    if s != [] {
      assert (s + rest)[1..] == s[1..] + rest;
      CStrStopsAtNul(s[1..], rest);
    } else {
      assert s + rest == rest;
    }
  }

  /** The C string starting p characters into a buffer is the rest of the buffer's C string. */
  lemma {:induction false} CStrSuffix(buf: seq<char>, p: nat)
    requires p <= |CStr(buf)|
    ensures CStr(buf[p..]) == CStr(buf)[p..]
  {
    if p > 0 {
      assert buf[1..][p - 1..] == buf[p..];
      CStrSuffix(buf[1..], p - 1);
    }
  }

  /**
    Overwriting position p of the C string with a NUL (detect_piping at the
    pipe character) cuts the string to its first p characters, and the C
    string starting just after p is the rest of the old string.
  */
  lemma {:induction false} CutAt(buf: seq<char>, p: nat)
    requires p < |CStr(buf)|
    ensures CStr(buf[p := '\0']) == CStr(buf)[..p]
    ensures CStr(buf[p := '\0'][p + 1..]) == CStr(buf)[p + 1..]
  {
    CutPrefix(buf, p);
    assert buf[p := '\0'][p + 1..] == buf[p + 1..];
    CStrSuffix(buf, p + 1);
  }

  lemma {:induction false} CutPrefix(buf: seq<char>, p: nat)
    requires p < |CStr(buf)|
    ensures CStr(buf[p := '\0']) == CStr(buf)[..p]
  {
    if p > 0 {
      assert buf[p := '\0'][1..] == buf[1..][p - 1 := '\0'];
      CutPrefix(buf[1..], p - 1);
    }
  }

  /**
    strncpy(dst, src, n) as the C library defines it: dst receives the first n
    characters of src, and when src is shorter the rest of dst is NUL.
    Nothing is written past n, so a NUL is placed only when |src| < n.
    src is the NUL-free text of a C string, as readline returns it.
  */
  function StrNCpy(src: seq<char>, n: nat): (dst: seq<char>)
    requires '\0' !in src
    ensures |dst| == n
    ensures forall k :: 0 <= k < n ==> dst[k] == if k < |src| then src[k] else '\0'
  {
    if |src| >= n then src[..n] else src + seq(n - |src|, _ => '\0')
  }

  /** A line shorter than the buffer is copied whole and stays NUL-terminated. */
  lemma ShortLineCopied(line: seq<char>, n: nat)
    requires '\0' !in line && |line| < n
    ensures CStr(StrNCpy(line, n)) == line
  {
    var dst := StrNCpy(line, n);
    assert dst == line + dst[|line|..];
    CStrStopsAtNul(line, dst[|line|..]);
  }

  /**
    read_input copies with strncpy(buffer, input, MAX_LINE): a line of
    MAX_LINE characters or more fills the whole buffer and leaves no NUL in
    it, so the buffer holds no C string and strlen reads past its end.
  */
  lemma LongLineUnterminated(line: seq<char>)
    requires '\0' !in line && |line| >= MaxLine
    ensures '\0' !in StrNCpy(line, MaxLine)
  {
    assert StrNCpy(line, MaxLine) == line[..MaxLine];
  }

  /** A concrete such line: 1024 letters. */
  lemma LongLineExample()
    ensures '\0' !in StrNCpy(seq(MaxLine, _ => 'a'), MaxLine)
  {
    LongLineUnterminated(seq(MaxLine, _ => 'a'));
  }

  /** The line as the shell keeps it: at most MAX_LINE - 1 characters. */
  function Truncated(line: seq<char>): (s: seq<char>)
    ensures |s| < MaxLine && s <= line
    ensures |s| < |line| ==> |s| == MaxLine - 1
  {
    line[..Min(|line|, MaxLine - 1)]
  }

  /**
    The evidently intended copy: at most MAX_LINE - 1 characters, then a NUL
    in the last slot, so the buffer always holds a C string.
  */
  function BoundedCopy(line: seq<char>): (buf: seq<char>)
    requires '\0' !in line
    ensures |buf| == MaxLine && '\0' in buf
    ensures CStr(buf) == Truncated(line)
  {
    var head := StrNCpy(line, MaxLine - 1);
    var m := Min(|line|, MaxLine - 1);
    assert head == line[..m] + head[m..];
    assert '\0' !in line[..m] by {
      forall k | 0 <= k < m ensures line[..m][k] != '\0' { assert line[..m][k] == line[k]; }
    }
    CStrStopsAtNul(line[..m], head[m..] + ['\0']);
    assert head + ['\0'] == line[..m] + (head[m..] + ['\0']);
    assert (head + ['\0'])[MaxLine - 1] == '\0';
    head + ['\0']
  }
}
