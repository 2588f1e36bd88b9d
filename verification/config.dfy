/** Command-line configuration (src/config.rs). The argument iterator is modelled as the
    sequence of the argument strings; reading past its end gives `None`. */
module Configuration {
  import opened Common
  import opened Text

  /** Options for the evolutionary algorithm. */
  datatype Config = Config(fileName: string, popSize: nat, numEvals: nat)

  /** `Config::from_args`. Argument 0 (the program name) is skipped; arguments 1, 2 and 3
      are the file name, the population size and the number of evaluations, each read
      only after the previous one was accepted. A missing or unparseable argument is an
      `Err`; a population size of at most 1 or zero evaluations trips an `assert!`. */
  function FromArgs(args: seq<string>): (r: Outcome<Result<Config>>)
    ensures |args| < 2 ==> r == Done(Err("file name not provided"))
    ensures |args| == 2 ==> r == Done(Err("pop size not provided"))
    ensures |args| >= 3 && ParseUsize(args[2]).None? ==> r == Done(Err("could not parse pop size"))
    ensures |args| == 3 && ParseUsize(args[2]).Some? ==> r == Done(Err("num evals not provided"))
    ensures |args| >= 4 && ParseUsize(args[2]).Some? && ParseUsize(args[3]).None? ==>
      r == Done(Err("could not parse num evals"))
    ensures (|args| >= 4 && ParseUsize(args[2]).Some? && ParseUsize(args[3]).Some?
      && ParseUsize(args[2]).value <= 1) ==> r == Panic("assertion failed: pop_size > 1")
    ensures (|args| >= 4 && ParseUsize(args[2]).Some? && ParseUsize(args[3]).Some?
      && ParseUsize(args[2]).value > 1 && ParseUsize(args[3]).value == 0) ==>
      r == Panic("assertion failed: num_evals > 0")
    ensures r.Done? && r.value.Ok? <==>
      |args| >= 4 && ParseUsize(args[2]).Some? && ParseUsize(args[3]).Some?
      && ParseUsize(args[2]).value > 1 && ParseUsize(args[3]).value > 0
    ensures r.Done? && r.value.Ok? ==>
      r.value.value == Config(args[1], ParseUsize(args[2]).value, ParseUsize(args[3]).value)
    ensures r.Panic? <==>
      |args| >= 4 && ParseUsize(args[2]).Some? && ParseUsize(args[3]).Some?
      && (ParseUsize(args[2]).value <= 1 || ParseUsize(args[3]).value == 0)
  {
    if |args| < 2 then Done(Err("file name not provided"))
    else if |args| < 3 then Done(Err("pop size not provided"))
    else match ParseUsize(args[2])
      case None => Done(Err("could not parse pop size"))
      case Some(popSize) =>
        if |args| < 4 then Done(Err("num evals not provided"))
        else match ParseUsize(args[3])
          case None => Done(Err("could not parse num evals"))
          case Some(numEvals) =>
            if popSize <= 1 then Panic("assertion failed: pop_size > 1")
            else if numEvals == 0 then Panic("assertion failed: num_evals > 0")
            else Done(Ok(Config(args[1], popSize, numEvals)))
  }

  /** Argument 0 is never looked at, whatever follows it, and once the first three
      arguments after it are present nothing after them is looked at either. */
  lemma {:induction false} FromArgsIgnoresOtherArgs(prog1: string, prog2: string, args: seq<string>, extra: seq<string>)
    ensures FromArgs([prog1] + args) == FromArgs([prog2] + args)
    ensures |args| >= 3 ==> FromArgs([prog1] + args + extra) == FromArgs([prog2] + args)
  {
    assert ([prog1] + args)[1..] == ([prog2] + args)[1..];
    if |args| >= 3 {
      var a, b := [prog1] + args + extra, [prog2] + args;
      assert a[1..4] == b[1..4];
    }
  }

  /** Rendering a valid configuration as arguments and reading it back gives it back. */
  lemma FromArgsRoundTrip(prog: string, c: Config)
    requires 1 < c.popSize <= USIZE_MAX && 0 < c.numEvals <= USIZE_MAX
    ensures FromArgs([prog, c.fileName, ShowNat(c.popSize), ShowNat(c.numEvals)]) == Done(Ok(c))
  {
    ParseShowNat(c.popSize);
    ParseShowNat(c.numEvals);
  }
}
