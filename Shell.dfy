/**
  The shell's main loop over its fixed buffers: read a line, skip it when
  empty, hand it to the pipeline path when it holds a '|', otherwise tokenize
  it and run a builtin or execute_command. Processes are not modelled: a
  launch is recorded as a Job. What chdir and open do is given by an Env.
*/
module Shell {
  import opened Wrappers
  import opened CStrings
  import opened Tokenizer
  import opened Pipes
  import opened Redirection
  import opened Dispatcher

  /**
    The operating system as the shell sees it: chdir(cwd, path) yields the
    new working directory or fails, and canOpen(cwd, path, mode) says whether
    open(path, flags, 0644) succeeds.
  */
  datatype Env = Env(chdir: (string, string) -> Option<string>, canOpen: (string, string, Mode) -> bool)

  /** A launch: one child with an optional output file, or two children joined by a pipe. */
  datatype Job =
    | Single(argv: seq<string>, output: Option<(string, Mode)>)
    | Piped(left: seq<string>, right: seq<string>)

  /** What execute_command does with an argument list. */
  datatype Launch = Spawned(job: Job) | MissingTarget | OpenFailed(path: string)

  /**
    execute_command: resolve the redirection; an operator with no word after
    it leaves the file NULL, so open fails and nothing is spawned; a target
    that cannot be opened spawns nothing either; otherwise one child runs the
    words before the operator with its output sent to the target.
  */
  function LaunchCommand(argv: seq<string>, cwd: string, env: Env): Launch
  {
    match Resolve(argv)
    case NoRedirect => Spawned(Single(argv, None))
    case Redirect(words, mode, target) =>
      match target
      case None => MissingTarget
      case Some(path) =>
        if env.canOpen(cwd, path, mode) then Spawned(Single(words, Some((path, mode))))
        else OpenFailed(path)
  }

  /**
    What execute_command promises: the child receives exactly the words
    before the first operator (all of them when there is none); with an
    operator, the output goes to the next word, opened with the operator's
    mode; an operator with nothing after it spawns nothing.
  */
  lemma LaunchMeaning(argv: seq<string>, cwd: string, env: Env)
    ensures var l := LaunchCommand(argv, cwd, env);
      && (l.MissingTarget? <==> |argv| > 0 && FirstOperatorAt(argv, |argv| - 1))
      && (l.Spawned? ==> l.job.Single? && l.job.argv <= argv && forall j :: 0 <= j < |l.job.argv| ==> !IsOperator(l.job.argv[j]))
      && (l.Spawned? && l.job.output.None? <==> forall j :: 0 <= j < |argv| ==> !IsOperator(argv[j]))
      && (l.Spawned? && l.job.output.Some? ==>
            && FirstOperatorAt(argv, |l.job.argv|) && |l.job.argv| + 1 < |argv|
            && l.job.output.value == (argv[|l.job.argv| + 1], ModeOf(argv[|l.job.argv|]))
            && env.canOpen(cwd, argv[|l.job.argv| + 1], ModeOf(argv[|l.job.argv|])))
  {
    var r := Resolve(argv);
    if r.Redirect? && |argv| > 0 && FirstOperatorAt(argv, |argv| - 1) {
      ResolveAt(argv, |argv| - 1);
    }
  }

  /**
    The other direction, from the first operator's position: with no word
    after it nothing is spawned; otherwise the command is spawned with its
    output sent to that word exactly when the word can be opened, and open
    fails on it otherwise.
  */
  lemma LaunchAtOperator(argv: seq<string>, i: nat, cwd: string, env: Env)
    requires FirstOperatorAt(argv, i)
    ensures i + 1 == |argv| ==> LaunchCommand(argv, cwd, env) == MissingTarget
    ensures i + 1 < |argv| && env.canOpen(cwd, argv[i + 1], ModeOf(argv[i])) ==>
      LaunchCommand(argv, cwd, env) == Spawned(Single(argv[..i], Some((argv[i + 1], ModeOf(argv[i])))))
    ensures i + 1 < |argv| && !env.canOpen(cwd, argv[i + 1], ModeOf(argv[i])) ==>
      LaunchCommand(argv, cwd, env) == OpenFailed(argv[i + 1])
  {
    ResolveAt(argv, i);
  }

  /** What handle_cd does. */
  datatype CdResult = MissingArgument | ChdirFailed(path: string) | Changed(dir: string)

  function ChangeDir(cwd: string, path: Option<string>, env: Env): (r: CdResult)
    ensures r.MissingArgument? <==> path.None?
    ensures r.Changed? ==> env.chdir(cwd, path.value) == Some(r.dir)
    ensures r.ChdirFailed? ==> r.path == path.value && env.chdir(cwd, path.value).None?
  {
    match path
    case None => MissingArgument
    case Some(p) =>
      match env.chdir(cwd, p)
      case None => ChdirFailed(p)
      case Some(d) => Changed(d)
  }

  /** The state a line can change: the working directory and the launches so far. */
  datatype Sys = Sys(cwd: string, jobs: seq<Job>)

  /** The effect of one dispatched action on that state. */
  function Effect(st: Sys, a: Action, env: Env): Sys
  {
    match a
    case Cd(path) =>
      (match ChangeDir(st.cwd, path, env)
       case Changed(d) => Sys(d, st.jobs)
       case _ => st)
    case Pipeline(l, r) => Sys(st.cwd, st.jobs + [Piped(l, r)])
    case External(argv) =>
      (match LaunchCommand(argv, st.cwd, env)
       case Spawned(j) => Sys(st.cwd, st.jobs + [j])
       case _ => st)
    case _ => st
  }

  lemma DispatchPipeline(line: string)
    requires '|' in line
    ensures Dispatch(line) == Pipeline(Parse(SplitPipe(line).value.0), Parse(SplitPipe(line).value.1))
  {
  }

  lemma DispatchSingle(line: string)
    requires |line| > 0 && '|' !in line
    ensures Dispatch(line) == DispatchWords(Parse(line))
  {
  }

  /** How the main loop ends: the state, the exit status and how many lines it read. */
  datatype Final = Final(sys: Sys, status: int, consumed: nat)

  /**
    The main loop over the lines the line source delivers: "exit" ends it
    with status 0; when the source has no more lines read_input exits with
    EXIT_FAILURE (1).
  */
  function Session(st: Sys, lines: seq<string>, env: Env): (f: Final)
    ensures f.consumed <= |lines|
    ensures f.status == 0 ==> 0 < f.consumed
    ensures f.status != 0 ==> f.status == 1 && f.consumed == |lines|
    decreases |lines|
  {
    if lines == [] then Final(st, 1, 0)
    else
      var a := Dispatch(Truncated(lines[0]));
      if a == Exit then Final(st, 0, 1)
      else
        var f := Session(Effect(st, a, env), lines[1..], env);
        Final(f.sys, f.status, f.consumed + 1)
  }

  /** The loop ends with status 0 exactly when some line is "exit", and then at the first such line. */
  lemma {:induction false} ExitIffSomeExitLine(st: Sys, lines: seq<string>, env: Env)
    ensures Session(st, lines, env).status == 0 <==> exists k :: 0 <= k < |lines| && Dispatch(Truncated(lines[k])) == Exit
    ensures var f := Session(st, lines, env);
      f.status == 0 ==>
        && Dispatch(Truncated(lines[f.consumed - 1])) == Exit
        && forall k :: 0 <= k < f.consumed - 1 ==> Dispatch(Truncated(lines[k])) != Exit
    decreases |lines|
  {
    if lines != [] && Dispatch(Truncated(lines[0])) != Exit {
      var a := Dispatch(Truncated(lines[0]));
      SessionStep(st, lines, env);
      ExitIffSomeExitLine(Effect(st, a, env), lines[1..], env);
      assert forall k :: 1 <= k < |lines| ==> lines[1..][k - 1] == lines[k];
      if exists k :: 0 <= k < |lines| && Dispatch(Truncated(lines[k])) == Exit {
        var k :| 0 <= k < |lines| && Dispatch(Truncated(lines[k])) == Exit;
        assert lines[1..][k - 1] == lines[k];
      }
    }
  }

  /**
    Only cd changes the working directory, and only to what chdir returned;
    launches are only appended, one per pipeline or spawned command, and
    every other action launches nothing.
  */
  lemma EffectMeaning(st: Sys, a: Action, env: Env)
    ensures var st' := Effect(st, a, env);
      && (st'.cwd != st.cwd ==> a.Cd? && a.path.Some? && env.chdir(st.cwd, a.path.value) == Some(st'.cwd))
      && (a.Cd? && a.path.None? ==> st' == st)
      && |st.jobs| <= |st'.jobs| <= |st.jobs| + 1 && st'.jobs[..|st.jobs|] == st.jobs
      && (|st'.jobs| > |st.jobs| <==> a.Pipeline? || (a.External? && LaunchCommand(a.argv, st.cwd, env).Spawned?))
      && (a.Cd? && a.path.Some? && env.chdir(st.cwd, a.path.value).Some? ==> st'.cwd == env.chdir(st.cwd, a.path.value).value)
      && (a.Pipeline? ==> st'.jobs == st.jobs + [Piped(a.left, a.right)])
      && (a.External? && LaunchCommand(a.argv, st.cwd, env).Spawned? ==> st'.jobs == st.jobs + [LaunchCommand(a.argv, st.cwd, env).job])
  {
  }

  lemma EffectCd(st: Sys, path: Option<string>, env: Env)
    ensures var r := ChangeDir(st.cwd, path, env);
      Effect(st, Cd(path), env) == if r.Changed? then Sys(r.dir, st.jobs) else st
  {
  }

  lemma EffectExternal(st: Sys, argv: seq<string>, env: Env)
    ensures var l := LaunchCommand(argv, st.cwd, env);
      Effect(st, External(argv), env) == if l.Spawned? then Sys(st.cwd, st.jobs + [l.job]) else st
  {
  }

  /** One line that is not "exit": its effect, then the rest of the lines. */
  lemma SessionStep(st: Sys, lines: seq<string>, env: Env)
    requires lines != [] && Dispatch(Truncated(lines[0])) != Exit
    ensures var f := Session(Effect(st, Dispatch(Truncated(lines[0])), env), lines[1..], env);
      Session(st, lines, env) == Final(f.sys, f.status, f.consumed + 1)
  {
  }

  /** Lines after an "exit" are never read: appending more lines changes nothing. */
  lemma {:induction false} NothingAfterExit(st: Sys, lines: seq<string>, more: seq<string>, env: Env)
    requires Session(st, lines, env).status == 0
    ensures Session(st, lines + more, env) == Session(st, lines, env)
    decreases |lines|
  {
    var all := lines + more;
    assert all[0] == lines[0];
    var a := Dispatch(Truncated(lines[0]));
    if a != Exit {
      assert all[1..] == lines[1..] + more;
      SessionStep(st, lines, env);
      SessionStep(st, all, env);
      NothingAfterExit(Effect(st, a, env), lines[1..], more, env);
    }
  }

  /** The working directory only ever becomes a directory chdir accepted. */
  lemma {:induction false} CwdFromChdir(st: Sys, lines: seq<string>, env: Env)
    ensures var d := Session(st, lines, env).sys.cwd;
      d == st.cwd || exists c, p :: env.chdir(c, p) == Some(d)
    decreases |lines|
  {
    if lines != [] && Dispatch(Truncated(lines[0])) != Exit {
      var a := Dispatch(Truncated(lines[0]));
      var st' := Effect(st, a, env);
      CwdFromChdir(st', lines[1..], env);
      if st'.cwd != st.cwd {
        assert env.chdir(st.cwd, a.path.value) == Some(st'.cwd);
      }
    }
  }

  class Shell {
    /** input[MAX_LINE]: the line buffer. */
    var input: array<char>
    /** args, left_args, right_args [MAX_ARGS]: the argument arrays. */
    var args: array<Slot>
    var leftArgs: array<Slot>
    var rightArgs: array<Slot>
    /** The process's working directory. */
    var cwd: string
    /** The processes launched so far. */
    var jobs: seq<Job>

    ghost predicate Valid()
      reads this
    {
      && input.Length == MaxLine
      && args.Length == MaxArgs && leftArgs.Length == MaxArgs && rightArgs.Length == MaxArgs
      && args != leftArgs && args != rightArgs && leftArgs != rightArgs
    }

    constructor (dir: string)
      ensures Valid() && cwd == dir && jobs == []
      ensures fresh(input) && fresh(args) && fresh(leftArgs) && fresh(rightArgs)
    {
      input := new char[MaxLine](_ => '\0');
      args := new Slot[MaxArgs](_ => Null);
      leftArgs := new Slot[MaxArgs](_ => Null);
      rightArgs := new Slot[MaxArgs](_ => Null);
      cwd := dir;
      jobs := [];
    }

    /** read_input with the copy bounded to MAX_LINE - 1 characters and a NUL after them. */
    method ReadInput(line: string)
      requires Valid() && '\0' !in line
      modifies input
      ensures input[..] == BoundedCopy(line)
      ensures CStr(input[..]) == Truncated(line)
    {
      var buf := BoundedCopy(line);
      forall k | 0 <= k < MaxLine {
        input[k] := buf[k];
      }
    }

    /**
      handle_cd: with no second word it reports an error and changes
      nothing; otherwise it calls chdir with exactly the second word.
    */
    method HandleCd(env: Env) returns (r: CdResult)
      requires Valid() && Terminated(args[..]) && Argv(args[..]) != []
      modifies this`cwd
      ensures r == ChangeDir(old(cwd), CdArgument(Argv(args[..])), env)
      ensures cwd == if r.Changed? then r.dir else old(cwd)
    {
      ArgvHolds(args[..]);
      if args[1] == Null {
        return MissingArgument;
      }
      match env.chdir(cwd, args[1].text)
      case None =>
        r := ChdirFailed(args[1].text);
      case Some(d) =>
        cwd := d;
        r := Changed(d);
    }

    /**
      execute_command: detect_redirection on args, then either nothing is
      spawned (no target, or open fails) or one child is launched.
    */
    method ExecuteCommand(env: Env) returns (l: Launch)
      requires Valid() && Terminated(args[..])
      modifies args, this`jobs
      ensures l == LaunchCommand(old(Argv(args[..])), cwd, env)
      ensures jobs == old(jobs) + if l.Spawned? then [l.job] else []
    {
      var found, file, flags := DetectRedirection(args, Null, 0);
      if !found {
        l := Spawned(Single(Argv(args[..]), None));
      } else if file == Null {
        l := MissingTarget;
      } else {
        var mode := if flags & O_TRUNC != 0 then Truncate else Append;
        if env.canOpen(cwd, file.text, mode) {
          l := Spawned(Single(Argv(args[..]), Some((file.text, mode))));
        } else {
          l := OpenFailed(file.text);
        }
      }
      if l.Spawned? {
        jobs := jobs + [l.job];
      }
    }

    /** One iteration of the main loop for one line from the line source. */
    method Step(line: string, env: Env) returns (a: Action)
      requires Valid() && '\0' !in line
      modifies input, args, leftArgs, rightArgs, this`cwd, this`jobs
      ensures Valid()
      ensures a == Dispatch(Truncated(line))
      ensures Sys(cwd, jobs) == Effect(old(Sys(cwd, jobs)), a, env)
    {
      ReadInput(line);
      a := RunLine(env);
    }

    /**
      The rest of the main loop's iteration on the line in the input buffer:
      skip it when empty, run it as a pipeline when it holds '|', and
      otherwise as a single command.
    */
    method RunLine(env: Env) returns (a: Action)
      requires Valid() && '\0' in input[..]
      modifies input, args, leftArgs, rightArgs, this`jobs, this`cwd
      ensures a == Dispatch(old(CStr(input[..])))
      ensures Sys(cwd, jobs) == Effect(old(Sys(cwd, jobs)), a, env)
    {
      var text := CStr(input[..]);
      if |text| == 0 {
        return Skip;
      }
      var piped := DetectPiping(input, leftArgs, rightArgs);
      if piped {
        a := Pipeline(Argv(leftArgs[..]), Argv(rightArgs[..]));
        DispatchPipeline(text);
        jobs := jobs + [Piped(a.left, a.right)];
        return;
      }
      DispatchSingle(text);
      a := RunWords(env);
    }

    /**
      The single-command path of the loop: tokenize the line into args, skip
      it when it has no word, match the first word against the builtins in
      order and hand anything else to execute_command.
    */
    method RunWords(env: Env) returns (a: Action)
      requires Valid() && '\0' in input[..]
      modifies args, this`cwd, this`jobs
      ensures a == DispatchWords(Parse(CStr(input[..])))
      ensures Sys(cwd, jobs) == Effect(old(Sys(cwd, jobs)), a, env)
    {
      assert input[0..] == input[..];
      ParseInput(input, 0, args);
      if args[0] == Null {
        return Skip;
      }
      a := RunCommand(env);
    }

    /** The builtins matched in order against the first word; anything else goes to execute_command. */
    method RunCommand(env: Env) returns (a: Action)
      requires Valid() && Terminated(args[..]) && Argv(args[..]) != []
      modifies args, this`cwd, this`jobs
      ensures a == DispatchWords(old(Argv(args[..])))
      ensures Sys(cwd, jobs) == Effect(old(Sys(cwd, jobs)), a, env)
    {
      var argv := Argv(args[..]);
      var name := args[0].text;
      if name == "exit" {
        a := Exit;
      } else if name == "cd" {
        a := Cd(CdArgument(argv));
        var r := HandleCd(env);
        EffectCd(old(Sys(cwd, jobs)), a.path, env);
      } else if name == "pwd" {
        a := Pwd;
      } else if name == "clear" {
        a := Clear;
      } else if name == "ls" {
        a := Ls;
      } else {
        a := External(argv);
        var l := ExecuteCommand(env);
        EffectExternal(old(Sys(cwd, jobs)), argv, env);
      }
    }

    /**
      main's loop: one Step per line until "exit" (status 0) or until the
      line source has nothing more (status EXIT_FAILURE).
    */
    method Run(lines: seq<string>, env: Env) returns (status: int, consumed: nat)
      requires Valid() && forall k :: 0 <= k < |lines| ==> '\0' !in lines[k]
      modifies input, args, leftArgs, rightArgs, this`cwd, this`jobs
      ensures Valid()
      ensures Session(old(Sys(cwd, jobs)), lines, env) == Final(Sys(cwd, jobs), status, consumed)
    {
      var k := 0;
      while k < |lines|
        invariant Valid() && k <= |lines|
        invariant
          var f := Session(Sys(cwd, jobs), lines[k..], env);
          Session(old(Sys(cwd, jobs)), lines, env) == Final(f.sys, f.status, f.consumed + k)
      {
        assert lines[k..][0] == lines[k] && lines[k..][1..] == lines[k + 1..];
        ghost var before := Sys(cwd, jobs);
        var a := Step(lines[k], env);
        if a == Exit {
          return 0, k + 1;
        }
        SessionStep(before, lines[k..], env);
        k := k + 1;
      }
      return 1, k;
    }
  }
}
