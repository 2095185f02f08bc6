/**
  parse_input: the line is cut into words at runs of space, tab and newline
  (the C library's strtok with the delimiter set " \t\n"); at most
  MAX_ARGS - 1 words are stored in the argument array, followed by a NULL
  terminator.
*/
module Tokenizer {
  import opened Wrappers
  import opened CStrings

  /** MAX_ARGS: the number of slots of every argument array. */
  const MaxArgs: nat := 64

  /** The delimiter set handed to strtok. */
  predicate IsSep(c: char) { c == ' ' || c == '\t' || c == '\n' }

  /** A token: non-empty and free of delimiters. */
  predicate IsWord(t: string) { |t| > 0 && forall k :: 0 <= k < |t| ==> !IsSep(t[k]) }

  /** Length of the maximal run of non-delimiters that starts s. */
  function WordLen(s: string): (n: nat)
    ensures n <= |s|
    ensures forall k :: 0 <= k < n ==> !IsSep(s[k])
    ensures n < |s| ==> IsSep(s[n])
  {
    if s == [] || IsSep(s[0]) then 0 else 1 + WordLen(s[1..])
  }

  /** The words of s, left to right, with no cap on their number. */
  function Tokenize(s: string): seq<string>
    decreases |s|
  {
    if s == [] then []
    else if IsSep(s[0]) then Tokenize(s[1..])
    else
      var n := WordLen(s);
      [s[..n]] + Tokenize(s[n..])
  }

  /** Every word is non-empty and holds no space, tab or newline. */
  lemma {:induction false} WordsAreWords(s: string)
    ensures forall j :: 0 <= j < |Tokenize(s)| ==> IsWord(Tokenize(s)[j])
    decreases |s|
  {
    if s != [] {
      if IsSep(s[0]) {
        WordsAreWords(s[1..]);
      } else {
        var n := WordLen(s);
        WordsAreWords(s[n..]);
        assert forall j :: 1 <= j < |Tokenize(s)| ==> Tokenize(s)[j] == Tokenize(s[n..])[j - 1];
      }
    }
  }

  /** What parse_input stores: the first MAX_ARGS - 1 words; words past the cap are dropped. */
  function Parse(s: string): (argv: seq<string>)
    ensures |argv| <= MaxArgs - 1
    ensures argv <= Tokenize(s)
    ensures |argv| < |Tokenize(s)| ==> |argv| == MaxArgs - 1
  {
    var ts := Tokenize(s);
    if |ts| < MaxArgs then ts else ts[..MaxArgs - 1]
  }

  /** The words joined back together. */
  function Concat(ts: seq<string>): string
  {
    if ts == [] then [] else ts[0] + Concat(ts[1..])
  }

  /** s with every delimiter deleted. */
  function RemoveSeps(s: string): string
  {
    if s == [] then [] else (if IsSep(s[0]) then [] else [s[0]]) + RemoveSeps(s[1..])
  }

  lemma {:induction false} RemoveSepsWord(s: string, n: nat)
    requires n <= |s| && forall k :: 0 <= k < n ==> !IsSep(s[k])
    ensures RemoveSeps(s) == s[..n] + RemoveSeps(s[n..])
  {
    if n > 0 {
      assert s[1..][n - 1..] == s[n..];
      RemoveSepsWord(s[1..], n - 1);
      assert s[..n] == [s[0]] + s[1..][..n - 1];
    }
  }

  /**
    Tokenizing keeps every non-delimiter character, in order, and adds
    nothing: the words joined together are the line without its delimiters.
  */
  lemma {:induction false} TokensKeepText(s: string)
    ensures Concat(Tokenize(s)) == RemoveSeps(s)
    decreases |s|
  {
    if s == [] {
    } else if IsSep(s[0]) {
      TokensKeepText(s[1..]);
    } else {
      var n := WordLen(s);
      var rest := Tokenize(s[n..]);
      assert Tokenize(s) == [s[..n]] + rest;
      assert ([s[..n]] + rest)[1..] == rest;
      TokensKeepText(s[n..]);
      RemoveSepsWord(s, n);
    }
  }

  /** A line yields no word exactly when it is empty or all delimiters. */
  lemma {:induction false} NoWordsIffBlank(s: string)
    ensures Tokenize(s) == [] <==> forall k :: 0 <= k < |s| ==> IsSep(s[k])
    decreases |s|
  {
    if s != [] && IsSep(s[0]) {
      NoWordsIffBlank(s[1..]);
      assert forall k :: 1 <= k < |s| ==> s[k] == s[1..][k - 1];
    }
  }

  lemma {:induction false} WordLenStopsAtSep(a: string, c: char, b: string)
    requires IsSep(c)
    ensures WordLen(a + [c] + b) == WordLen(a)
  {
    if a != [] && !IsSep(a[0]) {
      assert (a + [c] + b)[1..] == a[1..] + [c] + b;
      WordLenStopsAtSep(a[1..], c, b);
    }
  }

  /** A delimiter always ends a word: the words of a + [c] + b are those of a followed by those of b. */
  lemma {:induction false} SepSplits(a: string, c: char, b: string)
    requires IsSep(c)
    ensures Tokenize(a + [c] + b) == Tokenize(a) + Tokenize(b)
    decreases |a|
  {
    var s := a + [c] + b;
    if a == [] {
      assert s[1..] == b;
    } else if IsSep(a[0]) {
      assert s[1..] == a[1..] + [c] + b;
      SepSplits(a[1..], c, b);
    } else {
      var n := WordLen(a);
      WordLenStopsAtSep(a, c, b);
      assert s[..n] == a[..n];
      assert s[n..] == a[n..] + [c] + b;
      SepSplits(a[n..], c, b);
    }
  }

  /** A line that is a single word tokenizes to that word. */
  lemma OneWord(w: string)
    requires IsWord(w)
    ensures Tokenize(w) == [w]
  {
    var n := WordLen(w);
    assert n == |w|;
    assert w[..n] == w && w[n..] == [];
  }

  lemma Words2(a: string, b: string)
    requires IsWord(a) && IsWord(b)
    ensures Tokenize(a + " " + b) == [a, b]
  {
    assert a + " " + b == a + [' '] + b;
    SepSplits(a, ' ', b);
    OneWord(a);
    OneWord(b);
  }

  lemma Words3(a: string, b: string, c: string)
    requires IsWord(a) && IsWord(b) && IsWord(c)
    ensures Tokenize(a + " " + b + " " + c) == [a, b, c]
  {
    assert a + " " + b + " " + c == a + [' '] + (b + " " + c);
    SepSplits(a, ' ', b + " " + c);
    OneWord(a);
    Words2(b, c);
  }

  lemma Words4(a: string, b: string, c: string, d: string)
    requires IsWord(a) && IsWord(b) && IsWord(c) && IsWord(d)
    ensures Tokenize(a + " " + b + " " + c + " " + d) == [a, b, c, d]
  {
    assert a + " " + b + " " + c + " " + d == a + [' '] + (b + " " + c + " " + d);
    SepSplits(a, ' ', b + " " + c + " " + d);
    OneWord(a);
    Words3(b, c, d);
  }

  /** Index of the first non-delimiter at or after pos (|s| if there is none). */
  function SkipSeps(s: string, pos: nat): (b: nat)
    requires pos <= |s|
    ensures pos <= b <= |s|
    ensures forall k :: pos <= k < b ==> IsSep(s[k])
    ensures b < |s| ==> !IsSep(s[b])
    decreases |s| - pos
  {
    if pos == |s| || !IsSep(s[pos]) then pos else SkipSeps(s, pos + 1)
  }

  /**
    strtok over s resuming at pos: the next word and the position the next
    call resumes from (just past the delimiter strtok overwrites, or the end).
  */
  function StrTok(s: string, pos: nat): (r: Option<(string, nat)>)
    requires pos <= |s|
    ensures r.Some? ==> pos < r.value.1 <= |s|
  {
    var b := SkipSeps(s, pos);
    if b == |s| then None
    else
      var e := b + WordLen(s[b..]);
      Some((s[b..e], if e < |s| then e + 1 else e))
  }

  /** The words strtok will still deliver, given the token it last returned. */
  function Remaining(s: string, tok: Option<(string, nat)>): seq<string>
    requires tok.Some? ==> tok.value.1 <= |s|
  {
    match tok
    case None => []
    case Some((t, p)) => [t] + Tokenize(s[p..])
  }

  lemma {:induction false} SkipSepsKeepsWords(s: string, pos: nat)
    requires pos <= |s|
    ensures Tokenize(s[pos..]) == Tokenize(s[SkipSeps(s, pos)..])
    decreases |s| - pos
  {
    if pos < |s| && IsSep(s[pos]) {
      assert s[pos..][1..] == s[pos + 1..];
      SkipSepsKeepsWords(s, pos + 1);
    }
  }

  /** Each strtok call delivers the next word of the line and resumes exactly where the rest begins. */
  lemma StrTokResumes(s: string, pos: nat)
    requires pos <= |s|
    ensures Remaining(s, StrTok(s, pos)) == Tokenize(s[pos..])
  {
    var b := SkipSeps(s, pos);
    SkipSepsKeepsWords(s, pos);
    if b < |s| {
      var n := WordLen(s[b..]);
      var e := b + n;
      assert s[b..][..n] == s[b..e];
      assert s[b..][n..] == s[e..];
      if e < |s| {
        assert s[e..][1..] == s[e + 1..];
      }
    }
  }

  /** One slot of a C argument array: a pointer to a word, or NULL. */
  datatype Slot = Null | Tok(text: string)

  /** The argument list a C consumer of the array sees: the words before the first NULL. */
  function Argv(slots: seq<Slot>): seq<string>
  {
    if slots == [] || slots[0].Null? then [] else [slots[0].text] + Argv(slots[1..])
  }

  /** The array has a NULL terminator somewhere. */
  predicate Terminated(slots: seq<Slot>)
  {
    exists k :: 0 <= k < |slots| && slots[k] == Null
  }

  /** The array holds exactly argv followed by a NULL terminator. */
  predicate Holds(slots: seq<Slot>, argv: seq<string>)
  {
    && |argv| < |slots|
    && slots[|argv|] == Null
    && forall j :: 0 <= j < |argv| ==> slots[j] == Tok(argv[j])
  }

  /** An array that holds argv followed by NULL is seen as argv. */
  lemma {:induction false} HoldsArgv(slots: seq<Slot>, argv: seq<string>)
    requires Holds(slots, argv)
    ensures Argv(slots) == argv
  {
    if argv != [] {
      assert Holds(slots[1..], argv[1..]) by {
        forall j | 0 <= j < |argv| - 1 ensures slots[1..][j] == Tok(argv[1..][j]) {
          assert slots[j + 1] == Tok(argv[j + 1]);
        }
      }
      HoldsArgv(slots[1..], argv[1..]);
    }
  }

  /** Conversely, a terminated array holds its own argument list, then NULL. */
  lemma {:induction false} ArgvHolds(slots: seq<Slot>)
    requires Terminated(slots)
    ensures Holds(slots, Argv(slots))
  {
    if slots[0] != Null {
      var k :| 0 <= k < |slots| && slots[k] == Null;
      assert slots[1..][k - 1] == Null;
      ArgvHolds(slots[1..]);
    }
  }

  /** One turn of the strtok loop: the token in hand is the next word, and the following call continues the list. */
  lemma Advance(s: string, tok: Option<(string, nat)>, i: nat)
    requires tok.Some? && tok.value.1 <= |s| && i < |Tokenize(s)|
    requires Remaining(s, tok) == Tokenize(s)[i..]
    ensures tok.value.0 == Tokenize(s)[i]
    ensures StrTok(s, tok.value.1).Some? ==> StrTok(s, tok.value.1).value.1 <= |s|
    ensures Remaining(s, StrTok(s, tok.value.1)) == Tokenize(s)[i + 1..]
  {
    assert Tokenize(s)[i..][1..] == Tokenize(s)[i + 1..];
    StrTokResumes(s, tok.value.1);
  }

  /** When the strtok loop stops, it has stored exactly the words parse_input keeps. */
  lemma StoredAll(s: string, tok: Option<(string, nat)>, i: nat)
    requires tok.Some? ==> tok.value.1 <= |s|
    requires i <= |Tokenize(s)| && i < MaxArgs
    requires Remaining(s, tok) == Tokenize(s)[i..]
    requires !(tok.Some? && i < MaxArgs - 1)
    ensures i == |Parse(s)| && Parse(s) == Tokenize(s)[..i]
  {
  }

  /**
    parse_input(input + from, args): tokenizes the C string that starts at
    input[from] and fills args with its first MAX_ARGS - 1 words and a NULL
    terminator. Slots past the terminator keep whatever they held.
  */
  method ParseInput(input: array<char>, from: nat, args: array<Slot>)
    requires from <= input.Length && '\0' in input[from..]
    requires args.Length == MaxArgs
    modifies args
    ensures Holds(args[..], Parse(CStr(input[from..])))
    ensures Argv(args[..]) == Parse(CStr(input[from..]))
    ensures forall j :: |Parse(CStr(input[from..]))| < j < MaxArgs ==> args[j] == old(args[j])
  {
    var line := CStr(input[from..]);
    var n := StoreWords(line, args);
    args[n] := Null;
    assert Holds(args[..], Parse(line));
    HoldsArgv(args[..], Parse(line));
  }

  /**
    The strtok loop of parse_input over the line's text: it stores the words
    parse_input keeps in the first slots and returns how many it stored.
  */
  method StoreWords(line: string, args: array<Slot>) returns (n: nat)
    requires args.Length == MaxArgs
    modifies args
    ensures n == |Parse(line)| && n < MaxArgs
    ensures forall j :: 0 <= j < n ==> args[j] == Tok(Parse(line)[j])
    ensures forall j :: n <= j < MaxArgs ==> args[j] == old(args[j])
  {
    ghost var words := Tokenize(line);
    StrTokResumes(line, 0);
    assert line[0..] == line;
    var tok: Option<(string, nat)> := StrTok(line, 0);
    n := 0;
    while tok.Some? && n < MaxArgs - 1
      invariant n <= |words| && n < MaxArgs
      invariant tok.Some? ==> tok.value.1 <= |line|
      invariant Remaining(line, tok) == words[n..]
      invariant forall j :: 0 <= j < n ==> args[j] == Tok(words[j])
      invariant forall j :: n <= j < MaxArgs ==> args[j] == old(args[j])
      decreases |words| - n
    {
      Advance(line, tok, n);
      args[n] := Tok(tok.value.0);
      tok := StrTok(line, tok.value.1);
      n := n + 1;
    }
    StoredAll(line, tok, n);
  }
}
