/**
  The decision the main loop takes for one input line: empty lines are
  skipped, a '|' anywhere makes a pipeline before anything else is looked at,
  a line without words is skipped, the first word is matched exactly against
  the builtins, and everything else goes to execute_command.
*/
module Dispatcher {
  import opened Wrappers
  import opened Tokenizer
  import opened Pipes

  datatype Action =
    | Skip
    | Pipeline(left: seq<string>, right: seq<string>)
    | Exit
    | Cd(path: Option<string>)
    | Pwd
    | Clear
    | Ls
    | External(argv: seq<string>)

  predicate IsBuiltin(name: string)
  {
    name == "exit" || name == "cd" || name == "pwd" || name == "clear" || name == "ls"
  }

  /** handle_cd's argument check: the second word, or nothing when there is none. */
  function CdArgument(argv: seq<string>): (path: Option<string>)
    ensures path.None? <==> |argv| < 2
    ensures path.Some? ==> path.value == argv[1]
  {
    if |argv| < 2 then None else Some(argv[1])
  }

  /** The whole decision for one line: empty, then pipe, then the words. */
  function Dispatch(line: string): Action
  {
    if |line| == 0 then Skip
    else match SplitPipe(line)
      case Some((l, r)) => Pipeline(Parse(l), Parse(r))
      case None => DispatchWords(Parse(line))
  }

  /** The single-command part: no word, then the builtins in order, then execute_command. */
  function DispatchWords(argv: seq<string>): Action
  {
    if argv == [] then Skip
    else if argv[0] == "exit" then Exit
    else if argv[0] == "cd" then Cd(CdArgument(argv))
    else if argv[0] == "pwd" then Pwd
    else if argv[0] == "clear" then Clear
    else if argv[0] == "ls" then Ls
    else External(argv)
  }

  /**
    The builtin chain: a line without words is skipped; each builtin is
    chosen exactly when it is the first word; cd takes the second word;
    execute_command receives every stored word exactly when the first word
    is no builtin.
  */
  lemma DispatchWordsMeaning(argv: seq<string>)
    ensures DispatchWords(argv) == Skip <==> argv == []
    ensures DispatchWords(argv) == Exit <==> argv != [] && argv[0] == "exit"
    ensures DispatchWords(argv).Cd? <==> argv != [] && argv[0] == "cd"
    ensures DispatchWords(argv).Cd? ==> DispatchWords(argv).path == CdArgument(argv)
    ensures DispatchWords(argv) == Pwd <==> argv != [] && argv[0] == "pwd"
    ensures DispatchWords(argv) == Clear <==> argv != [] && argv[0] == "clear"
    ensures DispatchWords(argv) == Ls <==> argv != [] && argv[0] == "ls"
    ensures DispatchWords(argv).External? <==> argv != [] && !IsBuiltin(argv[0])
    ensures DispatchWords(argv).External? ==> DispatchWords(argv).argv == argv
  {
  }

  /**
    The order of the checks: a '|' anywhere makes a pipeline; only lines of
    delimiters alone are skipped; a line reaches execute_command exactly when
    it has no '|' and its first word is not a builtin, and then with all its
    stored words.
  */
  lemma DispatchOrder(line: string)
    ensures Dispatch(line).Pipeline? <==> '|' in line
    ensures Dispatch(line) == Skip <==> forall k :: 0 <= k < |line| ==> IsSep(line[k])
    ensures Dispatch(line).External? <==> '|' !in line && Parse(line) != [] && !IsBuiltin(Parse(line)[0])
    ensures Dispatch(line).External? ==> Dispatch(line).argv == Parse(line)
  {
    NoWordsIffBlank(line);
  }

  /** A pipeline's two argument lists are the words on either side of the first '|'. */
  lemma PipelineSides(line: string, before: string, after: string)
    requires '|' !in before && line == before + "|" + after
    ensures Dispatch(line) == Pipeline(Parse(before), Parse(after))
  {
    SplitAtFirstPipe(line, before, after);
  }

  /**
    Builtins are matched before redirection is looked for: a builtin first
    word decides the action whatever words follow it, ">" and ">>" included.
  */
  lemma BuiltinIgnoresFollowingWords(name: string, line: string, rest: string)
    requires IsBuiltin(name) && name != "cd"
    requires line == name + " " + rest && '|' !in rest
    ensures Dispatch(line) == Dispatch(name)
  {
    SepSplits(name, ' ', rest);
    assert IsWord(name);
    OneWord(name);
    assert '|' !in name;
  }
}
