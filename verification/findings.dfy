/**
 The integer-error path of `_argparse_parse`.  For a value `strtol` does not
 fully consume, the step returns EXIT_FAILURE, which is 1 on every platform
 that defines it that way and so equal to ARG_VALUE_INIT.  The loop does not
 stop on it: it runs the registration pass a second time, and the first
 `_argparse_add` then finds the table full and aborts.  The evident intent is
 ARG_VALUE_ERROR, which ends the loop like any other bad command line.
 */
module Findings {
  import opened Common
  import opened Registry
  import opened Matcher
  import opened MatcherFacts
  import opened Strtol
  import opened Driver
  import opened DriverFacts

  /** Once the table is full, a second INIT iteration aborts before any handler runs. */
  lemma ReRegistration(decls: seq<Decl>, react: Event -> Reaction, ctx: Context, idx: nat, bad: int)
    requires Settled(decls, ctx) && Shaped(ctx) && ArgvOk(ctx.argv) && 1 <= idx <= |ctx.argv|
    ensures Loop(decls, react, ctx, idx, INIT, bad) == Run([], Aborted(TableFull), ctx)
  {
    RegisterAgain(decls, ctx, |decls|);
    assert decls[..|decls|] == decls;
  }

  /** As written: after registration, a step that answers EXIT_FAILURE is taken for INIT and the run aborts. */
  lemma ExitFailureReRegisters(decls: seq<Decl>, react: Event -> Reaction, ctx: Context, idx: nat, arg: int)
    requires Looping(decls, ctx, idx, arg, EXIT_FAILURE) && arg != INIT && arg != END
    requires Body(decls, react, ctx, idx, arg).stop == Fell
    requires ParseWith(ctx, idx, arg, EXIT_FAILURE).Ok?
    requires ParseWith(ctx, idx, arg, EXIT_FAILURE).value.code == EXIT_FAILURE
    ensures Loop(decls, react, ctx, idx, arg, EXIT_FAILURE).exit == Aborted(TableFull)
  {
    var s := ParseWith(ctx, idx, arg, EXIT_FAILURE).value;
    NextState(decls, ctx, idx, arg, EXIT_FAILURE);
    ReRegistration(decls, react, s.ctx, s.idx, EXIT_FAILURE);
  }

  /** The declarations `ARG_INT('n', NULL, NULL, n) { ... }` and nothing else. */
  function IntOnly(): (decls: seq<Decl>)
    ensures Declared(decls) && AllNamed(decls) && OptionCount(decls) == 1
  {
    [OptionDecl('n', None, None, Int)]
  }

  /** `prog -n 12abc`: the value is not an integer. */
  function BadIntLine(): (argv: seq<string>)
    ensures ArgvOk(argv) && |argv| == 3 && argv[1] == "-n" && argv[2] == "12abc"
  {
    var argv := ["prog", "-n", "12abc"];
    assert IsCString(argv[0]) && IsCString(argv[1]) && IsCString(argv[2]);
    argv
  }

  /** Registration for `IntOnly` leaves exactly one descriptor, the integer option `-n`. */
  lemma IntOnlyTable(react: Event -> Reaction, bad: int)
    requires BadCode(bad)
    ensures var c := InitPass(Counted(IntOnly(), BadIntLine()), IntOnly(), 1);
      && c.Ok? && Settled(IntOnly(), c.value) && Shaped(c.value) && Valid(c.value)
      && c.value.value == Cleared && c.value.argv == BadIntLine()
      && c.value.args == [ArgInfo(None, None, MakeId(0), Int, 'n')]
  {
    var decls := IntOnly();
    InitIteration(decls, react, BadIntLine(), bad);
    assert decls[..0] == [];
  }

  /** On `prog -n 12abc`, the step after registration reads `-n`, then fails to convert `12abc`. */
  lemma BadIntClassify(ctx: Context, bad: int)
    requires Valid(ctx) && ctx.argv == BadIntLine() && ctx.value == Cleared && |ctx.args| == ctx.argsCap
    requires ctx.args == [ArgInfo(None, None, MakeId(0), Int, 'n')]
    ensures ParseWith(ctx, 1, INIT, bad) == Ok(Step(bad, ctx, 3))
  {
    var tok := ctx.argv[1];
    assert ctx.(value := Cleared) == ctx;
    assert ParseWith(ctx, 1, INIT, bad) == Classify(ctx, 1, bad);
    assert At(tok, 0) == '-' && |tok| == 2 && tok[1] == 'n';
    HasShortOptionIff(ctx, 'n');
    assert Registered(ctx.args, 'n') by { assert ctx.args[0].shortName == 'n'; }
    assert Classify(ctx, 1, bad) == FinishShort(ctx, 2, 'n', bad);
    assert FindShort(ctx.args, 'n') == Some(0);
    TrailingTextExample();
    assert Finish(ctx, 2, 0, None, bad) == Step(bad, ctx, 3);
  }

  /** The first reading step on `prog -n 12abc` answers the bad-integer code and consumes both tokens. */
  lemma BadIntStep(react: Event -> Reaction, bad: int)
    requires BadCode(bad)
    ensures var c := InitPass(Counted(IntOnly(), BadIntLine()), IntOnly(), 1);
      && c.Ok? && Settled(IntOnly(), c.value) && Shaped(c.value)
      && ParseWith(c.value, 1, INIT, bad) == Ok(Step(bad, c.value, 3))
  {
    IntOnlyTable(react, bad);
    BadIntClassify(InitPass(Counted(IntOnly(), BadIntLine()), IntOnly(), 1).value, bad);
  }

  /** As written, `prog -n 12abc` runs no handler and aborts on a full table. */
  lemma BadIntAborts(react: Event -> Reaction)
    ensures Argparse(IntOnly(), react, BadIntLine()) == Run([], Aborted(TableFull),
              Argparse(IntOnly(), react, BadIntLine()).ctx)
  {
    var decls := IntOnly();
    var argv := BadIntLine();
    CountIteration(decls, react, argv, EXIT_FAILURE);
    BadIntStep(react, EXIT_FAILURE);
    var c1 := Counted(decls, argv);
    var c := InitPass(c1, decls, 1).value;
    PassThrough(decls, react, c1, 1, EXIT_FAILURE);
    ReRegistration(decls, react, c, 3, EXIT_FAILURE);
  }

  /** As intended, `prog -n 12abc` runs no handler and ends with ERROR. */
  lemma BadIntFails(react: Event -> Reaction)
    ensures ArgparseIntended(IntOnly(), react, BadIntLine()) == Run([], Failed,
              ArgparseIntended(IntOnly(), react, BadIntLine()).ctx)
  {
    var decls := IntOnly();
    var argv := BadIntLine();
    CountIteration(decls, react, argv, ERROR);
    BadIntStep(react, ERROR);
    var c1 := Counted(decls, argv);
    var c := InitPass(c1, decls, 1).value;
    assert Body(decls, react, c1, 1, INIT) == Iteration([], c, Fell);
  }
}
