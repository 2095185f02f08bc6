/**
  detect_redirection: the first word that is exactly ">" or ">>" selects
  output redirection; the word after it names the target file and the
  argument list is cut at the operator by a NULL.
*/
module Redirection {
  import opened Wrappers
  import opened Tokenizer

  /** How the target file is opened: ">" truncates, ">>" appends. */
  datatype Mode = Truncate | Append

  /** open(2) flag bits of Linux, as fcntl.h defines them; redirect_type is a C int. */
  const O_WRONLY: bv32 := 0x1
  const O_CREAT: bv32 := 0x40
  const O_TRUNC: bv32 := 0x200
  const O_APPEND: bv32 := 0x400

  /**
    The flags detect_redirection stores in redirect_type: both modes open the
    file write-only and create it; ">" truncates it and ">>" appends to it,
    never both.
  */
  function Flags(m: Mode): (f: bv32)
    ensures f & O_WRONLY == O_WRONLY && f & O_CREAT == O_CREAT
    ensures f & O_TRUNC != 0 <==> m == Truncate
    ensures f & O_APPEND != 0 <==> m == Append
  {
    match m
    case Truncate => O_WRONLY | O_CREAT | O_TRUNC
    case Append => O_WRONLY | O_CREAT | O_APPEND
  }

  predicate IsOperator(w: string) { w == ">" || w == ">>" }

  function ModeOf(op: string): Mode
    requires IsOperator(op)
  {
    if op == ">" then Truncate else Append
  }

  /**
    The outcome of scanning an argument list: no operator, or the arguments
    before the first operator, its mode, and the word after it (absent when
    the operator is the last word).
  */
  datatype Resolved = NoRedirect | Redirect(argv: seq<string>, mode: Mode, target: Option<string>)

  function Resolve(argv: seq<string>): (r: Resolved)
    ensures r.NoRedirect? <==> forall j :: 0 <= j < |argv| ==> !IsOperator(argv[j])
    ensures r.Redirect? ==>
      && |r.argv| < |argv| && r.argv == argv[..|r.argv|]
      && (forall j :: 0 <= j < |r.argv| ==> !IsOperator(argv[j]))
      && IsOperator(argv[|r.argv|]) && r.mode == ModeOf(argv[|r.argv|])
      && r.target == if |r.argv| + 1 < |argv| then Some(argv[|r.argv| + 1]) else None
  {
    if argv == [] then NoRedirect
    else if IsOperator(argv[0]) then
      Redirect([], ModeOf(argv[0]), if |argv| > 1 then Some(argv[1]) else None)
    else
      match Resolve(argv[1..])
      case NoRedirect =>
        assert forall j :: 1 <= j < |argv| ==> argv[j] == argv[1..][j - 1];
        NoRedirect
      case Redirect(rest, m, t) =>
        assert [argv[0]] + rest == argv[..|rest| + 1];
        Redirect([argv[0]] + rest, m, t)
  }

  /** argv[i] is an operator and none comes before it. */
  predicate FirstOperatorAt(argv: seq<string>, i: nat)
  {
    i < |argv| && IsOperator(argv[i]) && forall j :: 0 <= j < i ==> !IsOperator(argv[j])
  }

  /** Resolve acts on the first operator: stated from the operator's position. */
  lemma ResolveAt(argv: seq<string>, i: nat)
    requires FirstOperatorAt(argv, i)
    ensures Resolve(argv) == Redirect(argv[..i], ModeOf(argv[i]), if i + 1 < |argv| then Some(argv[i + 1]) else None)
  {
  }

  /**
    detect_redirection(args, &redirect_file, &redirect_type): scans the
    NULL-terminated array. On the first operator it sets the file to the
    following slot (NULL when the operator was last), the type to the
    operator's flags, replaces the operator's slot with NULL and reports 1.
    Without an operator it reports 0 and changes nothing.
  */
  method DetectRedirection(args: array<Slot>, file: Slot, flags: bv32) returns (found: bool, file': Slot, flags': bv32)
    requires Terminated(args[..])
    modifies args
    ensures found <==> Resolve(Argv(old(args[..]))).Redirect?
    ensures !found ==> args[..] == old(args[..]) && file' == file && flags' == flags
    ensures found ==>
      var r := Resolve(Argv(old(args[..])));
      && (forall j :: 0 <= j < args.Length ==> args[j] == if j == |r.argv| then Null else old(args[j]))
      && Argv(args[..]) == r.argv
      && flags' == Flags(r.mode)
      && file' == match r.target case None => Null case Some(t) => Tok(t)
  {
    ghost var argv := Argv(args[..]);
    ArgvHolds(args[..]);
    var i := 0;
    while args[i] != Null
      invariant i <= |argv|
      invariant forall j :: 0 <= j < i ==> !IsOperator(argv[j])
      decreases |argv| - i
    {
      var w := args[i].text;
      if w == ">" || w == ">>" {
        ResolveAt(argv, i);
        file' := args[i + 1];
        flags' := if w == ">" then Flags(Truncate) else Flags(Append);
        args[i] := Null;
        assert Holds(args[..], argv[..i]);
        HoldsArgv(args[..], argv[..i]);
        return true, file', flags';
      }
      i := i + 1;
    }
    assert i == |argv|;
    return false, file, flags;
  }
}
