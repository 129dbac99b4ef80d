/**
 The `ARGPARSE` loop the macros of kjc_argparse.h expand to.  The first
 iteration is the count pass (`ARG_VALUE_COUNT`), the second the
 registration pass (`ARG_VALUE_INIT`), and every later one dispatches the
 code of one step of the state machine to the handler declared for it.  One
 extra iteration runs `ARG_END` before the table is released.  A handler is
 the user's code: here it is a function from what it sees to how it ends.
 */
module Driver {
  import opened Common
  import opened Registry
  import opened Matcher
  import opened MatcherFacts
  import opened Help

  /** One declaration in the body of an `ARGPARSE` block, in source order. */
  datatype Decl =
    | OptionDecl(short: char, long: Option<string>, desc: Option<string>, kind: Kind)
    | PositionalDecl(usage: Option<string>)
    | EndDecl

  /** What the macro arguments must be for the C code to be well defined: byte short names and C strings. */
  predicate Declared(decls: seq<Decl>) {
    forall i | 0 <= i < |decls| :: decls[i].OptionDecl? ==>
      && IsByte(decls[i].short)
      && (decls[i].long.Some? ==> IsCString(decls[i].long.value))
      && (decls[i].desc.Some? ==> IsCString(decls[i].desc.value))
  }

  /** The value a handler binds: nothing for `ARG`, an `int` for `ARG_INT`, a string for `ARG_STRING`. */
  datatype Value = NoValue | IntArg(i: int) | StrArg(s: string)

  /** What a handler sees when it runs; `index` is `ARGPARSE_INDEX()`. */
  datatype Event =
    | OptionRan(decl: nat, value: Value, index: int)
    | PositionalRan(arg: string, index: int)
    | EndRan(index: int)

  /** How a handler body ends: falling off its end, `continue`, or `break`. */
  datatype Outcome = Normal | Continue | Break

  /** A handler's behaviour: how it ends, and whether it calls `ARGPARSE_HELP()` first. */
  datatype Reaction = Reaction(outcome: Outcome, help: bool)

  datatype Output = Ran(event: Event) | HelpShown(text: string)

  /** How the loop ends: arguments exhausted, a handler's `break`, an ERROR step, or `abort()`. */
  datatype Exit = Finished | Broken | Failed | Aborted(fault: Fault)

  datatype Run = Run(trace: seq<Output>, exit: Exit, ctx: Context)

  /** How one iteration of the loop body ends. */
  datatype Stop = Fell | Broke | Died(fault: Fault)

  datatype Iteration = Iteration(trace: seq<Output>, ctx: Context, stop: Stop)

  predicate Shaped(ctx: Context) {
    |ctx.shortBitmap| == BITMAP_BYTES && |ctx.shortValueBitmap| == BITMAP_BYTES
  }

  // ---- The count and registration passes ----

  function OptionCount(decls: seq<Decl>): (n: nat)
    ensures n <= |decls|
    ensures n == 0 <==> forall i | 0 <= i < |decls| :: !decls[i].OptionDecl?
  {
    if |decls| == 0 then 0
    else OptionCount(decls[..|decls| - 1]) + (if decls[|decls| - 1].OptionDecl? then 1 else 0)
  }

  /** The count pass: every `ARG`, `ARG_INT` and `ARG_STRING` increments `args_cap`; nothing else runs. */
  function CountPass(ctx: Context, decls: seq<Decl>): (r: Context)
    ensures r == ctx.(argsCap := ctx.argsCap + OptionCount(decls))
  {
    if |decls| == 0 then ctx
    else
      var c := CountPass(ctx, decls[..|decls| - 1]);
      if decls[|decls| - 1].OptionDecl? then c.(argsCap := c.argsCap + 1) else c
  }

  /** The descriptor the registration pass adds for option declaration `i`, with id `_arg_make_id(i)`. */
  function Entry(d: Decl, i: nat): (a: ArgInfo)
    requires d.OptionDecl?
    ensures a.argId == MakeId(i) && a.kind == d.kind && a.shortName == d.short
  {
    ArgInfo(d.long, d.desc, MakeId(i), d.kind, d.short)
  }

  /** The descriptors of the first `n` declarations, in order. */
  function Table(decls: seq<Decl>, n: nat): (t: seq<ArgInfo>)
    requires n <= |decls|
    ensures |t| == OptionCount(decls[..n])
  {
    if n == 0 then []
    else
      assert decls[..n][..n - 1] == decls[..n - 1];
      Table(decls, n - 1) + (if decls[n - 1].OptionDecl? then [Entry(decls[n - 1], n - 1)] else [])
  }

  function HasPositional(decls: seq<Decl>): bool {
    exists i | 0 <= i < |decls| :: decls[i].PositionalDecl?
  }

  function HasEnd(decls: seq<Decl>): bool {
    exists i | 0 <= i < |decls| :: decls[i].EndDecl?
  }

  /** Every option declaration names a short or a long option. */
  predicate AllNamed(decls: seq<Decl>) {
    forall i | 0 <= i < |decls| :: decls[i].OptionDecl? ==> decls[i].short != '\0' || decls[i].long.Some?
  }

  /** One declaration in the registration pass. */
  function RegisterOne(ctx: Context, d: Decl, i: nat): (r: Result<Context>)
    requires Shaped(ctx) && (d.OptionDecl? ==> IsByte(d.short))
    ensures r.Ok? ==> Shaped(r.value) && r.value.argv == ctx.argv && r.value.value == ctx.value
    ensures r.Ok? ==> r.value.argsCap == ctx.argsCap && r.value.longNameWidth >= ctx.longNameWidth
    ensures r.Ok? ==> r.value.args == ctx.args + (if d.OptionDecl? then [Entry(d, i)] else [])
    ensures r.Ok? ==> r.value.hasCatchall == (ctx.hasCatchall || d.PositionalDecl?)
    ensures r.Abort? <==> d.OptionDecl? && ((d.short == '\0' && d.long.None?) || |ctx.args| >= ctx.argsCap)
    ensures r.Abort? ==> r.fault == (if d.short == '\0' && d.long.None? then NoNames else TableFull)
  {
    match d
    case OptionDecl(short, long, desc, kind) => Add(ctx, MakeId(i), short, long, desc, kind)
    case PositionalDecl(usage) => Ok(ctx.(hasCatchall := true, positionalUsage := usage))
    case EndDecl => Ok(ctx)
  }

  /** The registration pass over the first `n` declarations; the first `abort()` ends it. */
  function InitPass(ctx: Context, decls: seq<Decl>, n: nat): (r: Result<Context>)
    requires n <= |decls| && Declared(decls) && Shaped(ctx)
    ensures r.Ok? ==> Shaped(r.value) && r.value.argv == ctx.argv && r.value.value == ctx.value
    ensures r.Ok? ==> r.value.argsCap == ctx.argsCap && r.value.longNameWidth >= ctx.longNameWidth
    ensures r.Ok? ==> r.value.args == ctx.args + Table(decls, n)
    ensures r.Ok? ==> r.value.hasCatchall == (ctx.hasCatchall || HasPositional(decls[..n]))
    ensures r.Abort? ==> r.fault == NoNames || r.fault == TableFull
    ensures r == Abort(NoNames) ==> !AllNamed(decls[..n])
  {
    if n == 0 then Ok(ctx)
    else
      match InitPass(ctx, decls, n - 1)
      case Abort(f) => Abort(f)
      case Ok(c) =>
        PrefixGrows(decls, n);
        RegisterOne(c, decls[n - 1], n - 1)
  }

  /** What one more declaration adds to the flags of a prefix. */
  lemma PrefixGrows(decls: seq<Decl>, n: nat)
    requires 0 < n <= |decls|
    ensures HasPositional(decls[..n]) == (HasPositional(decls[..n - 1]) || decls[n - 1].PositionalDecl?)
    ensures AllNamed(decls[..n]) == (AllNamed(decls[..n - 1]) &&
      (decls[n - 1].OptionDecl? ==> decls[n - 1].short != '\0' || decls[n - 1].long.Some?))
  {
    assert decls[..n] == decls[..n - 1] + [decls[n - 1]];
  }

  // ---- The jump table ----

  /** A handler the `switch(_arg)` can jump to. */
  datatype Target = OptionAt(i: nat) | PositionalAt | EndAt

  /** The option declaration whose `case _arg_make_id(i):` label is `code`. */
  function OptionFor(decls: seq<Decl>, code: int): (r: Option<nat>)
    ensures r.Some? ==> r.value < |decls| && decls[r.value].OptionDecl? && MakeId(r.value) == code
    ensures r.None? ==> forall i | 0 <= i < |decls| && decls[i].OptionDecl? :: MakeId(i) != code
  {
    if code >= 8 && code % 16 == 8 && code / 16 < |decls| && decls[code / 16].OptionDecl? then Some(code / 16)
    else None
  }

  /**
   `switch(_arg)` for a code other than COUNT and INIT: the option's own
   label, `case ARG_VALUE_END`, or else the `case ARG_VALUE_OTHER: default:`
   pair of the positional handler, which therefore also receives END when no
   `ARG_END` is declared.
   */
  function Dispatch(decls: seq<Decl>, code: int): (t: Option<Target>)
    ensures t.Some? && t.value.OptionAt? ==> OptionFor(decls, code) == Some(t.value.i)
    ensures t == Some(EndAt) <==> OptionFor(decls, code).None? && code == END && HasEnd(decls)
    ensures t == Some(PositionalAt) <==>
      OptionFor(decls, code).None? && !(code == END && HasEnd(decls)) && HasPositional(decls)
    ensures t.None? <==>
      OptionFor(decls, code).None? && !(code == END && HasEnd(decls)) && !HasPositional(decls)
  {
    match OptionFor(decls, code)
    case Some(i) => Some(OptionAt(i))
    case None =>
      if code == END && HasEnd(decls) then Some(EndAt)
      else if HasPositional(decls) then Some(PositionalAt)
      else None
  }

  /**
   What the handler sees: `_argparse_value_int` and `_argparse_value_string`
   abort when the value slot holds another type; the positional handler gets
   `argv[_argidx - 1]`.
   */
  function EventFor(decls: seq<Decl>, ctx: Context, idx: nat, t: Target): (r: Result<Event>)
    requires 1 <= idx <= |ctx.argv|
    requires t.OptionAt? ==> t.i < |decls| && decls[t.i].OptionDecl?
    ensures r.Abort? <==> t.OptionAt? && !Fits(decls[t.i].kind, ctx.value)
    ensures r.Abort? ==> r.fault == WrongValueType
    ensures r.Ok? ==> r.value.index == idx - 1
    ensures r.Ok? && t.OptionAt? ==> r.value.OptionRan? && r.value.decl == t.i
  {
    match t
    case OptionAt(i) =>
      (match decls[i].kind
       case Void => Ok(OptionRan(i, NoValue, idx - 1))
       case Int => if ctx.value.IntValue? then Ok(OptionRan(i, IntArg(ctx.value.i), idx - 1)) else Abort(WrongValueType)
       case Str => if ctx.value.StringValue? then Ok(OptionRan(i, StrArg(ctx.value.s), idx - 1)) else Abort(WrongValueType))
    case PositionalAt => Ok(PositionalRan(ctx.argv[idx - 1], idx - 1))
    case EndAt => Ok(EndRan(idx - 1))
  }

  /** Run one handler: it may print the help text first, then ends normally, by `continue` or by `break`. */
  function Handle(react: Event -> Reaction, ctx: Context, e: Event): (it: Iteration)
    requires |ctx.argv| > 0 && ctx.longNameWidth >= 0
    ensures it.ctx == ctx && |it.trace| > 0 && it.trace[0] == Ran(e)
    ensures it.stop.Died? <==> react(e).help && |ShortNames(ctx.args)| > 256
    ensures it.stop.Died? ==> it.stop.fault == TooManyShorts
    ensures it.stop == Broke <==> react(e).outcome == Break && !it.stop.Died?
  {
    var re := react(e);
    var ending := if re.outcome == Break then Broke else Fell;
    if re.help then
      match HelpText(ctx)
      case Abort(f) => Iteration([Ran(e)], ctx, Died(f))
      case Ok(text) => Iteration([Ran(e), HelpShown(text)], ctx, ending)
    else Iteration([Ran(e)], ctx, ending)
  }

  /** The loop body for the code `arg`. */
  function Body(decls: seq<Decl>, react: Event -> Reaction, ctx: Context, idx: nat, arg: int): (it: Iteration)
    requires Declared(decls) && Shaped(ctx) && 1 <= idx <= |ctx.argv| && ctx.longNameWidth >= 0
    ensures Shaped(it.ctx) && it.ctx.argv == ctx.argv && it.ctx.value == ctx.value && it.ctx.longNameWidth >= 0
    ensures arg != COUNT && arg != INIT ==> it.ctx == ctx
    ensures (arg == COUNT || arg == INIT) ==> it.trace == [] && !it.stop.Broke?
  {
    if arg == COUNT then Iteration([], CountPass(ctx, decls), Fell)
    else if arg == INIT then
      match InitPass(ctx, decls, |decls|)
      case Abort(f) => Iteration([], ctx, Died(f))
      case Ok(c) => Iteration([], c, Fell)
    else
      match Dispatch(decls, arg)
      case None => Iteration([], ctx, Fell)
      case Some(t) =>
        match EventFor(decls, ctx, idx, t)
        case Abort(f) => Iteration([], ctx, Died(f))
        case Ok(e) => Handle(react, ctx, e)
  }

  /** COUNT runs before INIT, which runs before any reading code; END is last. */
  function Rank(arg: int): nat {
    if arg == COUNT then 2 else if arg == END then 0 else 1
  }

  /**
   The `for` loop of `ARGPARSE` from the point where the body is about to run
   with code `arg`: run the body, then `_argdone = _arg == END` and
   `_arg = _argparse_parse(...)`, then test `_arg != ERROR && !_argdone`.
   A `break` out of a handler jumps to `_argparse_break`, which releases the
   table through the END step and leaves the loop.  `bad` is the code a step
   returns for an integer value that does not parse.
   */
  function Loop(decls: seq<Decl>, react: Event -> Reaction, ctx: Context, idx: nat, arg: int, bad: int): (r: Run)
    requires Declared(decls) && ArgvOk(ctx.argv) && Shaped(ctx) && 1 <= idx <= |ctx.argv| && ctx.longNameWidth >= 0
    ensures r.ctx.argv == ctx.argv
    ensures r.exit.Finished? || r.exit.Broken? ==> r.ctx.args == [] && r.ctx.argsCap == 0
    decreases |ctx.argv| - idx, GroupLeft(ctx.value), Rank(arg)
  {
    var it := Body(decls, react, ctx, idx, arg);
    match it.stop
    case Died(f) => Run(it.trace, Aborted(f), it.ctx)
    case Broke => Run(it.trace, Broken, ParseWith(it.ctx, idx, END, bad).value.ctx)
    case Fell =>
      var done := arg == END;
      match ParseWith(it.ctx, idx, arg, bad)
      case Abort(f) => Run(it.trace, Aborted(f), it.ctx)
      case Ok(s) =>
        if done then Run(it.trace, Finished, s.ctx)
        else if s.code == ERROR then Run(it.trace, Failed, s.ctx)
        else
          var rest := Loop(decls, react, s.ctx, s.idx, s.code, bad);
          Run(it.trace + rest.trace, rest.exit, rest.ctx)
  }

  /** `ARGPARSE(argc, argv) { decls }` with the code for an unparsable integer made explicit. */
  function RunWith(decls: seq<Decl>, react: Event -> Reaction, argv: seq<string>, bad: int): (r: Run)
    requires Declared(decls) && ArgvOk(argv) && |argv| >= 1
    ensures r.exit.Finished? || r.exit.Broken? ==> r.ctx.args == [] && r.ctx.argsCap == 0
  {
    Loop(decls, react, Start(argv, LONG_ARG_MAX_WIDTH), 1, COUNT, bad)
  }

  /** `ARGPARSE` as written: the step returns EXIT_FAILURE for an unparsable integer. */
  function Argparse(decls: seq<Decl>, react: Event -> Reaction, argv: seq<string>): (r: Run)
    requires Declared(decls) && ArgvOk(argv) && |argv| >= 1
    ensures r.exit.Finished? || r.exit.Broken? ==> r.ctx.args == [] && r.ctx.argsCap == 0
  {
    RunWith(decls, react, argv, EXIT_FAILURE)
  }

  /** `ARGPARSE` as intended: an unparsable integer ends the loop like any other error. */
  function ArgparseIntended(decls: seq<Decl>, react: Event -> Reaction, argv: seq<string>): (r: Run)
    requires Declared(decls) && ArgvOk(argv) && |argv| >= 1
    ensures r.exit.Finished? || r.exit.Broken? ==> r.ctx.args == [] && r.ctx.argsCap == 0
  {
    RunWith(decls, react, argv, ERROR)
  }
}
