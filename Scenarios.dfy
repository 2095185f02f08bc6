/**
  Concrete lines and what the shell does with them, derived from the general
  lemmas of the other modules.
*/
module Scenarios {
  import opened Wrappers
  import opened Tokenizer
  import opened Redirection
  import opened Dispatcher
  import opened Shell

  lemma EchoLineWords()
    ensures Tokenize("echo hi > out.txt") == ["echo", "hi", ">", "out.txt"]
  {
    assert "echo hi > out.txt" == "echo" + " " + "hi" + " " + ">" + " " + "out.txt";
    Words4("echo", "hi", ">", "out.txt");
  }

  /** "echo hi > out.txt" reaches execute_command with all four words. */
  lemma EchoLineDispatch()
    ensures Dispatch("echo hi > out.txt") == External(["echo", "hi", ">", "out.txt"])
  {
    EchoLineWords();
    EchoLineHasNoPipe();
    EchoIsNoBuiltin();
    ExternalLine("echo hi > out.txt", ["echo", "hi", ">", "out.txt"]);
  }

  lemma EchoIsNoBuiltin()
    ensures !IsBuiltin(["echo", "hi", ">", "out.txt"][0])
  {
  }

  lemma ExternalLine(line: string, words: seq<string>)
    requires '|' !in line && Tokenize(line) == words
    requires 0 < |words| < MaxArgs && !IsBuiltin(words[0])
    ensures Dispatch(line) == External(words)
  {
  }

  lemma EchoLineHasNoPipe()
    ensures '|' !in "echo hi > out.txt"
  {
  }

  /** ... and runs echo with the single argument hi, its output truncating out.txt. */
  lemma TruncateExample(cwd: string, env: Env)
    requires env.canOpen(cwd, "out.txt", Truncate)
    ensures LaunchCommand(["echo", "hi", ">", "out.txt"], cwd, env) == Spawned(Single(["echo", "hi"], Some(("out.txt", Truncate))))
  {
    ResolveAt(["echo", "hi", ">", "out.txt"], 2);
    assert ["echo", "hi", ">", "out.txt"][..2] == ["echo", "hi"];
  }

  /** "echo hi >>" names no file: open is handed NULL, fails, and nothing is spawned. */
  lemma TrailingOperatorExample(cwd: string, env: Env)
    ensures LaunchCommand(["echo", "hi", ">>"], cwd, env) == MissingTarget
  {
    ResolveAt(["echo", "hi", ">>"], 2);
  }

  /** "ls > f" runs the builtin ls and ignores the redirection. */
  lemma BuiltinBeforeRedirectionExample()
    ensures Dispatch("ls > f") == Ls
  {
    assert "ls > f" == "ls" + " " + "> f";
    assert '|' !in "> f";
    BuiltinIgnoresFollowingWords("ls", "ls > f", "> f");
    OneWord("ls");
  }

  lemma RightSideWords()
    ensures Tokenize(" b | c") == ["b", "|", "c"]
  {
    assert " b | c" == [] + [' '] + ("b" + " " + "|" + " " + "c");
    SepSplits([], ' ', "b" + " " + "|" + " " + "c");
    Words3("b", "|", "c");
  }

  lemma LeftSideWords()
    ensures Tokenize("a ") == ["a"]
  {
    assert "a " == "a" + [' '] + [];
    SepSplits("a", ' ', []);
    OneWord("a");
  }

  /** "a | b | c": only the first '|' splits; the second reaches the right command as an argument. */
  lemma SecondPipeExample()
    ensures Dispatch("a | b | c") == Pipeline(["a"], ["b", "|", "c"])
  {
    assert "a | b | c" == "a " + "|" + " b | c";
    PipelineSides("a | b | c", "a ", " b | c");
    LeftSideWords();
    RightSideWords();
  }

  /** "cd" alone reports an error and leaves the working directory as it was. */
  lemma CdWithoutArgumentExample(st: Sys, env: Env)
    ensures Dispatch("cd") == Cd(None)
    ensures Effect(st, Cd(None), env) == st
  {
    OneWord("cd");
  }
}
