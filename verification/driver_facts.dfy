/**
 Properties of whole `ARGPARSE` runs: registration agrees with the count,
 handlers always find a value of their type, the only ways a run can abort,
 the extra END iteration, `break` and `continue`, and the integer-error path.
 */
module DriverFacts {
  import opened Common
  import opened Registry
  import opened Matcher
  import opened MatcherFacts
  import opened Help
  import opened Driver

  // ---- The registration passes ----

  /** Each descriptor in the table is the entry of one option declaration before `n`. */
  lemma {:induction false} TableEntries(decls: seq<Decl>, n: nat)
    requires n <= |decls|
    ensures forall j | 0 <= j < |Table(decls, n)| ::
      exists i | 0 <= i < n :: decls[i].OptionDecl? && Table(decls, n)[j] == Entry(decls[i], i)
    decreases n
  {
    if n > 0 {
      TableEntries(decls, n - 1);
      var t := Table(decls, n);
      var t' := Table(decls, n - 1);
      forall j | 0 <= j < |t|
        ensures exists i | 0 <= i < n :: decls[i].OptionDecl? && t[j] == Entry(decls[i], i)
      {
        if j < |t'| {
          assert t[j] == t'[j];
          var i :| 0 <= i < n - 1 && decls[i].OptionDecl? && t'[j] == Entry(decls[i], i);
          assert decls[i].OptionDecl? && t[j] == Entry(decls[i], i);
        } else {
          assert decls[n - 1].OptionDecl?;
          assert t[j] == Entry(decls[n - 1], n - 1);
        }
      }
    } else {
      assert Table(decls, n) == [];
    }
  }

  lemma AllNamedPrefix(decls: seq<Decl>, n: nat)
    requires 0 < n <= |decls| && AllNamed(decls[..n])
    ensures AllNamed(decls[..n - 1])
  {
    forall i | 0 <= i < n - 1 ensures decls[..n - 1][i] == decls[..n][i] {
    }
  }

  /** One named declaration, registered with room left, keeps the bitmaps in step with the table. */
  lemma RegisterOneValid(c: Context, d: Decl, i: nat)
    requires Valid(c)
    requires d.OptionDecl? ==>
      && IsByte(d.short) && (d.long.Some? ==> IsCString(d.long.value)) && (d.desc.Some? ==> IsCString(d.desc.value))
      && (d.short != '\0' || d.long.Some?) && |c.args| < c.argsCap
    ensures RegisterOne(c, d, i).Ok? && Valid(RegisterOne(c, d, i).value)
  {
    match d
    case OptionDecl(short, long, desc, kind) =>
      AddPreservesValid(c, MakeId(i), short, long, desc, kind);
    case PositionalDecl(usage) =>
    case EndDecl =>
  }

  /** Registering declaration `n - 1` after a successful pass over the ones before it. */
  lemma RegistrationStep(decls: seq<Decl>, ctx: Context, n: nat)
    requires Declared(decls) && Shaped(ctx) && 0 < n <= |decls|
    requires InitPass(ctx, decls, n - 1).Ok? && Valid(InitPass(ctx, decls, n - 1).value)
    requires decls[n - 1].OptionDecl? ==>
      && (decls[n - 1].short != '\0' || decls[n - 1].long.Some?)
      && |ctx.args| + OptionCount(decls[..n - 1]) < ctx.argsCap
    ensures InitPass(ctx, decls, n).Ok? && Valid(InitPass(ctx, decls, n).value)
  {
    var c := InitPass(ctx, decls, n - 1).value;
    var d := decls[n - 1];
    assert |c.args| == |ctx.args| + OptionCount(decls[..n - 1]);
    RegisterOneValid(c, d, n - 1);
    InitPassStep(decls, ctx, n);
  }

  /** A pass over `n` declarations is the pass over `n - 1` followed by one registration. */
  lemma InitPassStep(decls: seq<Decl>, ctx: Context, n: nat)
    requires Declared(decls) && Shaped(ctx) && 0 < n <= |decls|
    requires InitPass(ctx, decls, n - 1).Ok?
    ensures InitPass(ctx, decls, n) == RegisterOne(InitPass(ctx, decls, n - 1).value, decls[n - 1], n - 1)
  {
  }

  /**
   The first registration pass, with room for every option that the count
   pass counted, succeeds and keeps the bitmaps in step with the table.
   */
  lemma {:induction false} FirstRegistration(decls: seq<Decl>, ctx: Context, n: nat)
    requires Declared(decls) && Valid(ctx) && n <= |decls| && AllNamed(decls[..n])
    requires |ctx.args| + OptionCount(decls[..n]) <= ctx.argsCap
    ensures InitPass(ctx, decls, n).Ok? && Valid(InitPass(ctx, decls, n).value)
    decreases n
  {
    if n > 0 {
      var d := decls[n - 1];
      assert decls[..n][..n - 1] == decls[..n - 1];
      assert decls[..n][n - 1] == d;
      AllNamedPrefix(decls, n);
      FirstRegistration(decls, ctx, n - 1);
      RegistrationStep(decls, ctx, n);
    }
  }

  lemma LastUnnamed(decls: seq<Decl>, n: nat)
    requires 0 < n <= |decls| && AllNamed(decls[..n - 1]) && !AllNamed(decls[..n])
    ensures decls[n - 1].OptionDecl? && decls[n - 1].short == '\0' && decls[n - 1].long.None?
  {
    var i :| 0 <= i < n && decls[..n][i].OptionDecl? && decls[..n][i].short == '\0' && decls[..n][i].long.None?;
  }

  /** The first nameless option declaration, reached with room left, aborts the pass. */
  lemma FirstUnnamed(decls: seq<Decl>, ctx: Context, n: nat)
    requires Declared(decls) && Valid(ctx) && 0 < n <= |decls|
    requires AllNamed(decls[..n - 1]) && !AllNamed(decls[..n])
    requires |ctx.args| + OptionCount(decls[..n]) <= ctx.argsCap
    ensures InitPass(ctx, decls, n) == Abort(NoNames)
  {
    assert decls[..n][..n - 1] == decls[..n - 1];
    FirstRegistration(decls, ctx, n - 1);
    LastUnnamed(decls, n);
    var c := InitPass(ctx, decls, n - 1).value;
    assert InitPass(ctx, decls, n) == RegisterOne(c, decls[n - 1], n - 1);
  }

  /** With room for every option, the pass aborts when some option has no name. */
  lemma {:induction false} UnnamedAborts(decls: seq<Decl>, ctx: Context, n: nat)
    requires Declared(decls) && Valid(ctx) && n <= |decls| && !AllNamed(decls[..n])
    requires |ctx.args| + OptionCount(decls[..n]) <= ctx.argsCap
    ensures InitPass(ctx, decls, n) == Abort(NoNames)
    decreases n
  {
    assert n > 0;
    if AllNamed(decls[..n - 1]) {
      FirstUnnamed(decls, ctx, n);
    } else {
      assert decls[..n][..n - 1] == decls[..n - 1];
      UnnamedAborts(decls, ctx, n - 1);
    }
  }

  /**
   Running the registration pass again over a full table: the first option
   declaration aborts because the table is full.
   */
  lemma {:induction false} RegisterAgain(decls: seq<Decl>, ctx: Context, n: nat)
    requires Declared(decls) && AllNamed(decls) && Shaped(ctx) && n <= |decls|
    requires |ctx.args| >= ctx.argsCap
    ensures OptionCount(decls[..n]) > 0 ==> InitPass(ctx, decls, n) == Abort(TableFull)
    ensures OptionCount(decls[..n]) == 0 ==> InitPass(ctx, decls, n).Ok? && InitPass(ctx, decls, n).value.args == ctx.args
    decreases n
  {
    if n > 0 {
      var d := decls[n - 1];
      assert decls[..n][..n - 1] == decls[..n - 1];
      assert decls[..n][n - 1] == d;
      RegisterAgain(decls, ctx, n - 1);
      if OptionCount(decls[..n - 1]) == 0 {
        var c := InitPass(ctx, decls, n - 1).value;
        assert InitPass(ctx, decls, n) == RegisterOne(c, d, n - 1);
      }
    }
  }

  // ---- The reading phase ----

  /** After registration: the table holds one entry per option declaration and nothing else. */
  ghost predicate Settled(decls: seq<Decl>, ctx: Context) {
    && Declared(decls) && AllNamed(decls) && OptionCount(decls) > 0
    && ctx.args == Table(decls, |decls|)
    && ctx.argsCap == |ctx.args|
    && ctx.hasCatchall == HasPositional(decls)
    && ctx.longNameWidth >= 0
  }

  /** The codes the loop can see after registration, each with the value its handler reads. */
  ghost predicate Looping(decls: seq<Decl>, ctx: Context, idx: nat, arg: int, bad: int) {
    && Settled(decls, ctx) && Ready(ctx, idx) && 1 <= idx
    && arg != COUNT && arg != ERROR
    && (arg == INIT ==> bad == INIT)
    && (!IsSpecial(arg) ==>
          exists j | 0 <= j < |ctx.args| :: ctx.args[j].argId == arg && Fits(ctx.args[j].kind, ctx.value))
  }

  /** The code a step returns for an integer that does not parse: as written, or as intended. */
  predicate BadCode(bad: int) {
    bad == EXIT_FAILURE || bad == ERROR
  }

  /** A reading step after registration succeeds and leads to another reading state or to ERROR. */
  lemma NextState(decls: seq<Decl>, ctx: Context, idx: nat, arg: int, bad: int)
    requires Settled(decls, ctx) && Ready(ctx, idx) && 1 <= idx && BadCode(bad)
    requires arg != COUNT && arg != END
    ensures ParseWith(ctx, idx, arg, bad).Ok?
    ensures var s := ParseWith(ctx, idx, arg, bad).value;
      && s.ctx.args == ctx.args
      && (s.code != ERROR ==> Looping(decls, s.ctx, s.idx, s.code, bad))
  {
    assert Reading(ctx, arg);
    ReadingNeverImpossible(ctx, idx, arg, bad);
    StepPreservesReady(ctx, idx, arg, bad);
    StepCodes(ctx, idx, arg, bad);
    CodeNamesDescriptor(ctx, idx, arg, bad);
  }

  /** The handler a code selects always finds a value of its declared type. */
  lemma HandlerGetsItsType(decls: seq<Decl>, ctx: Context, idx: nat, arg: int, bad: int)
    requires Looping(decls, ctx, idx, arg, bad)
    requires Dispatch(decls, arg).Some?
    ensures EventFor(decls, ctx, idx, Dispatch(decls, arg).value).Ok?
  {
    var t := Dispatch(decls, arg).value;
    if t.OptionAt? {
      var i := t.i;
      var j :| 0 <= j < |ctx.args| && ctx.args[j].argId == arg && Fits(ctx.args[j].kind, ctx.value);
      TableEntries(decls, |decls|);
      var i' :| 0 <= i' < |decls| && decls[i'].OptionDecl? && ctx.args[j] == Entry(decls[i'], i');
      MakeIdInjective(i, i');
    }
  }

  /**
   After registration a run ends in one of four ways: it finishes, a handler
   breaks, a step reports ERROR (the table is then never released), or it
   aborts because the help text has more than 256 short names, or, as
   written, because an unparsable integer re-ran registration.
   */
  lemma {:induction false} ReadingFaults(decls: seq<Decl>, react: Event -> Reaction, ctx: Context, idx: nat, arg: int, bad: int)
    requires Looping(decls, ctx, idx, arg, bad) && BadCode(bad)
    ensures var r := Loop(decls, react, ctx, idx, arg, bad);
      && (r.exit.Aborted? ==> r.exit.fault == TooManyShorts || (bad == EXIT_FAILURE && r.exit.fault == TableFull))
      && (r.exit.Failed? ==> r.ctx.args == Table(decls, |decls|))
    decreases |ctx.argv| - idx, GroupLeft(ctx.value), Rank(arg)
  {
    if arg == INIT {
      RegisterAgain(decls, ctx, |decls|);
      assert decls[..|decls|] == decls;
    } else {
      var it := Body(decls, react, ctx, idx, arg);
      if Dispatch(decls, arg).Some? {
        HandlerGetsItsType(decls, ctx, idx, arg, bad);
      }
      if it.stop == Fell && arg != END {
        NextState(decls, ctx, idx, arg, bad);
        var s := ParseWith(ctx, idx, arg, bad).value;
        if s.code != ERROR {
          ReadingFaults(decls, react, s.ctx, s.idx, s.code, bad);
        }
      }
    }
  }

  // ---- Whole runs ----

  /** The context after the count pass. */
  function Counted(decls: seq<Decl>, argv: seq<string>): (ctx: Context)
    ensures ctx == Start(argv, LONG_ARG_MAX_WIDTH).(argsCap := OptionCount(decls))
  {
    CountPass(Start(argv, LONG_ARG_MAX_WIDTH), decls)
  }

  /** An iteration that prints nothing and falls through to `c` hands its step's code to the next one. */
  lemma Silent(decls: seq<Decl>, react: Event -> Reaction, ctx: Context, idx: nat, arg: int, bad: int, c: Context)
    requires Declared(decls) && ArgvOk(ctx.argv) && Shaped(ctx) && 1 <= idx <= |ctx.argv| && ctx.longNameWidth >= 0
    requires arg != END
    requires Body(decls, react, ctx, idx, arg) == Iteration([], c, Fell)
    requires ParseWith(c, idx, arg, bad).Ok? && ParseWith(c, idx, arg, bad).value.code != ERROR
    requires ParseWith(c, idx, arg, bad).value.idx >= 1
    ensures var s := ParseWith(c, idx, arg, bad).value;
      Loop(decls, react, ctx, idx, arg, bad) == Loop(decls, react, s.ctx, s.idx, s.code, bad)
  {
    StepKeepsShape(c, idx, arg, bad);
    var s := ParseWith(c, idx, arg, bad).value;
    assert ParseWith(c, idx, arg, bad) == Ok(s);
    var rest := Loop(decls, react, s.ctx, s.idx, s.code, bad);
    assert Loop(decls, react, ctx, idx, arg, bad) == Run([] + rest.trace, rest.exit, rest.ctx);
    assert [] + rest.trace == rest.trace;
  }

  /** A step other than END keeps the argument vector, the bitmaps and the column width. */
  lemma StepKeepsShape(ctx: Context, idx: nat, arg: int, bad: int)
    requires ArgvOk(ctx.argv) && idx <= |ctx.argv| && arg != END
    requires ParseWith(ctx, idx, arg, bad).Ok?
    ensures var c := ParseWith(ctx, idx, arg, bad).value.ctx;
      && c.argv == ctx.argv && c.longNameWidth == ctx.longNameWidth
      && c.shortBitmap == ctx.shortBitmap && c.shortValueBitmap == ctx.shortValueBitmap
  {
  }

  /** The count iteration: it aborts when no option is declared, and hands INIT to the next iteration otherwise. */
  lemma CountIteration(decls: seq<Decl>, react: Event -> Reaction, argv: seq<string>, bad: int)
    requires Declared(decls) && ArgvOk(argv) && |argv| >= 1
    ensures OptionCount(decls) == 0 ==> RunWith(decls, react, argv, bad).exit == Aborted(NoHandlers)
    ensures OptionCount(decls) > 0 ==>
      RunWith(decls, react, argv, bad) == Loop(decls, react, Counted(decls, argv), 1, INIT, bad)
  {
    var c0 := Start(argv, LONG_ARG_MAX_WIDTH);
    var c1 := Counted(decls, argv);
    assert Body(decls, react, c0, 1, COUNT) == Iteration([], c1, Fell);
    if OptionCount(decls) > 0 {
      assert ParseWith(c1, 1, COUNT, bad) == Ok(Step(INIT, c1, 1));
      Silent(decls, react, c0, 1, COUNT, bad, c1);
    } else {
      assert ParseWith(c1, 1, COUNT, bad) == Abort(NoHandlers);
    }
  }

  /** The registration iteration, once the count pass found at least one option. */
  lemma InitIteration(decls: seq<Decl>, react: Event -> Reaction, argv: seq<string>, bad: int)
    requires Declared(decls) && ArgvOk(argv) && |argv| >= 1 && OptionCount(decls) > 0 && BadCode(bad)
    ensures !AllNamed(decls) ==> Loop(decls, react, Counted(decls, argv), 1, INIT, bad).exit == Aborted(NoNames)
    ensures AllNamed(decls) ==>
      var c := InitPass(Counted(decls, argv), decls, |decls|);
      && c.Ok? && Settled(decls, c.value) && Ready(c.value, 1) && c.value.value == Cleared
      && c.value.argv == argv
  {
    var c1 := Counted(decls, argv);
    assert decls[..|decls|] == decls;
    if !AllNamed(decls) {
      UnnamedAborts(decls, c1, |decls|);
    } else {
      FirstRegistration(decls, c1, |decls|);
    }
  }

  /** A registration pass that succeeds hands over to the first reading step with nothing printed. */
  lemma PassThrough(decls: seq<Decl>, react: Event -> Reaction, ctx: Context, idx: nat, bad: int)
    requires Declared(decls) && ArgvOk(ctx.argv) && Shaped(ctx) && 1 <= idx <= |ctx.argv| && ctx.longNameWidth >= 0
    requires InitPass(ctx, decls, |decls|).Ok?
    requires var c := InitPass(ctx, decls, |decls|).value;
      ParseWith(c, idx, INIT, bad).Ok? && ParseWith(c, idx, INIT, bad).value.code != ERROR
    ensures var s := ParseWith(InitPass(ctx, decls, |decls|).value, idx, INIT, bad).value;
      Loop(decls, react, ctx, idx, INIT, bad) == Loop(decls, react, s.ctx, s.idx, s.code, bad)
  {
    var c := InitPass(ctx, decls, |decls|).value;
    assert Body(decls, react, ctx, idx, INIT) == Iteration([], c, Fell);
    Silent(decls, react, ctx, idx, INIT, bad, c);
  }

  /** Once every option has a name, only the help text and, as written, a second registration can abort. */
  lemma NamedRunFaults(decls: seq<Decl>, react: Event -> Reaction, argv: seq<string>, bad: int)
    requires Declared(decls) && ArgvOk(argv) && |argv| >= 1 && BadCode(bad)
    requires AllNamed(decls) && OptionCount(decls) > 0
    ensures var r := Loop(decls, react, Counted(decls, argv), 1, INIT, bad);
      r.exit.Aborted? ==> r.exit.fault == TooManyShorts || (bad == EXIT_FAILURE && r.exit.fault == TableFull)
  {
    InitIteration(decls, react, argv, bad);
    var c1 := Counted(decls, argv);
    var c2 := InitPass(c1, decls, |decls|).value;
    NextState(decls, c2, 1, INIT, bad);
    var s := ParseWith(c2, 1, INIT, bad).value;
    if s.code != ERROR {
      PassThrough(decls, react, c1, 1, bad);
      ReadingFaults(decls, react, s.ctx, s.idx, s.code, bad);
    } else {
      assert Body(decls, react, c1, 1, INIT) == Iteration([], c2, Fell);
    }
  }

  /**
   The ways a whole run can abort: no option declared (even with a
   positional handler, whose flag is only set in the registration pass), an
   option without a name, a help text with more than 256 short names, and,
   as written only, an unparsable integer value.  The count and registration
   passes always agree, and the step's internal consistency aborts never fire.
   */
  lemma RunFaults(decls: seq<Decl>, react: Event -> Reaction, argv: seq<string>, bad: int)
    requires Declared(decls) && ArgvOk(argv) && |argv| >= 1 && BadCode(bad)
    ensures var r := RunWith(decls, react, argv, bad);
      && (r.exit == Aborted(NoHandlers) <==> OptionCount(decls) == 0)
      && (r.exit == Aborted(NoNames) <==> OptionCount(decls) > 0 && !AllNamed(decls))
      && (r.exit.Aborted? ==>
            || r.exit.fault == NoHandlers || r.exit.fault == NoNames || r.exit.fault == TooManyShorts
            || (bad == EXIT_FAILURE && r.exit.fault == TableFull))
  {
    CountIteration(decls, react, argv, bad);
    if OptionCount(decls) > 0 {
      InitIteration(decls, react, argv, bad);
      if AllNamed(decls) {
        NamedRunFaults(decls, react, argv, bad);
      }
    }
  }

  /** As intended, a run never aborts on a well-formed command line except for an oversized help text. */
  lemma IntendedNeverRegistersTwice(decls: seq<Decl>, react: Event -> Reaction, argv: seq<string>)
    requires Declared(decls) && AllNamed(decls) && OptionCount(decls) > 0 && ArgvOk(argv) && |argv| >= 1
    ensures var r := ArgparseIntended(decls, react, argv);
      r.exit.Aborted? ==> r.exit.fault == TooManyShorts
  {
    RunFaults(decls, react, argv, ERROR);
  }

  // ---- The END iteration, break and continue ----

  /** The iteration after the last token: ARG_END runs once, then the table is released. */
  lemma GraceIteration(decls: seq<Decl>, react: Event -> Reaction, ctx: Context, idx: nat, bad: int)
    requires Declared(decls) && ArgvOk(ctx.argv) && Shaped(ctx) && 1 <= idx <= |ctx.argv| && ctx.longNameWidth >= 0
    requires HasEnd(decls) && react(EndRan(idx - 1)) == Reaction(Normal, false)
    ensures Loop(decls, react, ctx, idx, END, bad) ==
      Run([Ran(EndRan(idx - 1))], Finished, ctx.(args := [], argsCap := 0))
  {
    assert Dispatch(decls, END) == Some(EndAt);
  }

  /**
   Without ARG_END, the `default:` label sends the END iteration to the
   positional handler, which receives `argv[_argidx - 1]` again.
   */
  lemma EndReachesPositional(decls: seq<Decl>, react: Event -> Reaction, ctx: Context, idx: nat, bad: int)
    requires Declared(decls) && ArgvOk(ctx.argv) && Shaped(ctx) && 1 <= idx <= |ctx.argv| && ctx.longNameWidth >= 0
    requires !HasEnd(decls) && HasPositional(decls)
    requires react(PositionalRan(ctx.argv[idx - 1], idx - 1)) == Reaction(Normal, false)
    ensures Loop(decls, react, ctx, idx, END, bad) ==
      Run([Ran(PositionalRan(ctx.argv[idx - 1], idx - 1))], Finished, ctx.(args := [], argsCap := 0))
  {
    assert Dispatch(decls, END) == Some(PositionalAt);
  }

  /** With only the program name, the first reading step reports END at once. */
  lemma NothingToRead(decls: seq<Decl>, react: Event -> Reaction, prog: string, bad: int)
    requires Declared(decls) && AllNamed(decls) && OptionCount(decls) > 0 && BadCode(bad) && IsCString(prog)
    ensures var c := InitPass(Counted(decls, [prog]), decls, |decls|);
      && c.Ok? && Shaped(c.value) && c.value.argv == [prog]
      && ParseWith(c.value, 1, INIT, bad) == Ok(Step(END, c.value, 1))
  {
    InitIteration(decls, react, [prog], bad);
  }

  /**
   With no arguments at all and no ARG_END, the only handler that runs is
   the positional one, and it receives the program name `argv[0]`.
   */
  lemma ProgramNameAsPositional(decls: seq<Decl>, react: Event -> Reaction, prog: string, bad: int)
    requires Declared(decls) && AllNamed(decls) && OptionCount(decls) > 0 && BadCode(bad)
    requires !HasEnd(decls) && HasPositional(decls) && IsCString(prog)
    requires react(PositionalRan(prog, 0)) == Reaction(Normal, false)
    ensures RunWith(decls, react, [prog], bad) == Run([Ran(PositionalRan(prog, 0))], Finished,
      RunWith(decls, react, [prog], bad).ctx)
  {
    CountIteration(decls, react, [prog], bad);
    NothingToRead(decls, react, prog, bad);
    var c1 := Counted(decls, [prog]);
    var c := InitPass(c1, decls, |decls|).value;
    PassThrough(decls, react, c1, 1, bad);
    EndReachesPositional(decls, react, c, 1, bad);
  }

  /**
   A `break` in a handler leaves the loop at once through the cleanup step:
   no later handler runs, not even ARG_END.
   */
  lemma BreakSkipsRest(decls: seq<Decl>, react: Event -> Reaction, ctx: Context, idx: nat, arg: int, bad: int)
    requires Declared(decls) && ArgvOk(ctx.argv) && Shaped(ctx) && 1 <= idx <= |ctx.argv| && ctx.longNameWidth >= 0
    requires arg != COUNT && arg != INIT && Dispatch(decls, arg).Some?
    requires var e := EventFor(decls, ctx, idx, Dispatch(decls, arg).value);
      e.Ok? && react(e.value) == Reaction(Break, false)
    ensures Loop(decls, react, ctx, idx, arg, bad) ==
      Run([Ran(EventFor(decls, ctx, idx, Dispatch(decls, arg).value).value)], Broken, ctx.(args := [], argsCap := 0))
  {
  }

  /**
   A step that answers ERROR ends the loop at once: no handler runs after the
   current body, and the table is left as it was, without the END step.
   */
  lemma ErrorStops(decls: seq<Decl>, react: Event -> Reaction, ctx: Context, idx: nat, arg: int, bad: int)
    requires Declared(decls) && ArgvOk(ctx.argv) && Shaped(ctx) && 1 <= idx <= |ctx.argv| && ctx.longNameWidth >= 0
    requires arg != COUNT && arg != INIT && arg != END
    requires Body(decls, react, ctx, idx, arg).stop == Fell
    requires ParseWith(ctx, idx, arg, bad).Ok? && ParseWith(ctx, idx, arg, bad).value.code == ERROR
    ensures var r := Loop(decls, react, ctx, idx, arg, bad);
      && r.trace == Body(decls, react, ctx, idx, arg).trace
      && r.exit == Failed
      && r.ctx.args == ctx.args && r.ctx.argsCap == ctx.argsCap
  {
  }

  /** A handler's ending with `continue` counted as falling off its end. */
  function Ending(re: Reaction): (r: Reaction)
    ensures r.help == re.help && (r.outcome == Break <==> re.outcome == Break)
    ensures r.outcome != Continue
  {
    if re.outcome == Continue then re.(outcome := Normal) else re
  }

  /** Handlers that end alike make the same iteration. */
  lemma SameEndingSameBody(decls: seq<Decl>, react: Event -> Reaction, react': Event -> Reaction,
                           ctx: Context, idx: nat, arg: int)
    requires Declared(decls) && Shaped(ctx) && 1 <= idx <= |ctx.argv| && ctx.longNameWidth >= 0
    requires forall e :: Ending(react(e)) == Ending(react'(e))
    ensures Body(decls, react, ctx, idx, arg) == Body(decls, react', ctx, idx, arg)
  {
    if arg != COUNT && arg != INIT && Dispatch(decls, arg).Some? {
      var e := EventFor(decls, ctx, idx, Dispatch(decls, arg).value);
      if e.Ok? {
        assert Ending(react(e.value)) == Ending(react'(e.value));
        assert Handle(react, ctx, e.value) == Handle(react', ctx, e.value);
      }
    }
  }

  /** `continue` in a handler behaves exactly like reaching the end of its body. */
  lemma {:induction false} ContinueIsNormal(decls: seq<Decl>, react: Event -> Reaction, react': Event -> Reaction,
                                            ctx: Context, idx: nat, arg: int, bad: int)
    requires Declared(decls) && ArgvOk(ctx.argv) && Shaped(ctx) && 1 <= idx <= |ctx.argv| && ctx.longNameWidth >= 0
    requires forall e :: Ending(react(e)) == Ending(react'(e))
    ensures Loop(decls, react, ctx, idx, arg, bad) == Loop(decls, react', ctx, idx, arg, bad)
    decreases |ctx.argv| - idx, GroupLeft(ctx.value), Rank(arg)
  {
    var it := Body(decls, react, ctx, idx, arg);
    SameEndingSameBody(decls, react, react', ctx, idx, arg);
    if it.stop == Fell && arg != END {
      var p := ParseWith(it.ctx, idx, arg, bad);
      if p.Ok? && p.value.code != ERROR {
        var s := p.value;
        ContinueIsNormal(decls, react, react', s.ctx, s.idx, s.code, bad);
      }
    }
  }
}
