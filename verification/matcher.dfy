/**
 One step of the parsing state machine, `_argparse_parse`: the phase
 transitions (count, init, end), the pending short-group characters, the
 classification of the next token, and the extraction and coercion of an
 option's value.
 */
module Matcher {
  import opened Common
  import opened Registry
  import opened Strtol

  /** What one step returns: the new `_arg`, the context and the cursor `*argidx`. */
  datatype Step = Step(code: int, ctx: Context, idx: nat)

  /** Every token of the argument vector is a C string. */
  predicate ArgvOk(argv: seq<string>) {
    forall k | 0 <= k < |argv| :: IsCString(argv[k])
  }

  /** How many steps a pending short group can still take (its characters and the terminator). */
  function GroupLeft(v: ArgValue): nat {
    if v.ShortGroup? && v.next <= |v.token| then |v.token| - v.next + 1 else 0
  }

  // ---- Lookups in the table ----

  /** The linear scan for a short name: the first descriptor whose short name is `c`. */
  function FindShort(args: seq<ArgInfo>, c: char): (r: Option<nat>)
    ensures r.Some? ==> r.value < |args| && args[r.value].shortName == c
    ensures r.Some? ==> forall j | 0 <= j < r.value :: args[j].shortName != c
    ensures r.None? <==> !Registered(args, c)
  {
    if |args| == 0 then None
    else if args[0].shortName == c then Some(0)
    else match FindShort(args[1..], c)
      case None => assert forall j | 1 <= j < |args| :: args[j] == args[1..][j - 1]; None
      case Some(k) => Some(k + 1)
  }

  /** `strncmp(a, b, n) == 0` on NUL-terminated strings. */
  function StrNEqual(a: string, b: string, n: nat): bool
    decreases n
  {
    n == 0 || (At(a, 0) == At(b, 0) && (At(a, 0) == '\0' || StrNEqual(a[1..], b[1..], n - 1)))
  }

  /** The condition of the long-name scan: the first `n` characters agree and `name` ends there. */
  predicate LongNameMatches(key: string, n: nat, name: string) {
    StrNEqual(key, name, n) && At(name, n) == '\0'
  }

  /** On C strings, the scan's condition is plain equality with the first `n` characters of `key`. */
  lemma {:induction false} LongNameMatchesIff(key: string, n: nat, name: string)
    requires IsCString(key) && IsCString(name) && n <= |key|
    ensures LongNameMatches(key, n, name) <==> name == key[..n]
    decreases n
  {
    if n == 0 {
      assert key[..0] == "";
    } else if |name| == 0 {
      assert key[0] != '\0';
    } else {
      assert key[0] != '\0';
      LongNameMatchesIff(key[1..], n - 1, name[1..]);
      assert At(name[1..], n - 1) == At(name, n);
      if name == key[..n] {
        assert name[1..] == key[1..][..n - 1];
      }
      if name[1..] == key[1..][..n - 1] && name[0] == key[0] {
        assert name == [name[0]] + name[1..];
        assert key[..n] == [key[0]] + key[1..][..n - 1];
      }
    }
  }

  /** The scan of kjc_argparse.c:246-263: the first descriptor whose long name the key matches. */
  function FindLong(args: seq<ArgInfo>, key: string, n: nat): (r: Option<nat>)
    ensures r.Some? ==> r.value < |args| && args[r.value].longName.Some?
                        && LongNameMatches(key, n, args[r.value].longName.value)
    ensures r.Some? ==> forall j | 0 <= j < r.value ::
                          !(args[j].longName.Some? && LongNameMatches(key, n, args[j].longName.value))
    ensures r.None? ==> forall j | 0 <= j < |args| ::
                          !(args[j].longName.Some? && LongNameMatches(key, n, args[j].longName.value))
  {
    if |args| == 0 then None
    else if args[0].longName.Some? && LongNameMatches(key, n, args[0].longName.value) then Some(0)
    else match FindLong(args[1..], key, n)
      case None => assert forall j | 1 <= j < |args| :: args[j] == args[1..][j - 1]; None
      case Some(k) => Some(k + 1)
  }

  /** The first index `i` in `cs` from `i` on that breaks the short-group rules, if any. */
  function GroupViolation(ctx: Context, cs: string, i: nat): (r: Option<nat>)
    requires IsCString(cs) && i <= |cs|
    ensures r.Some? ==> i <= r.value < |cs|
    ensures r.Some? ==> !HasShortOption(ctx, cs[r.value])
                        || (ShortOptionExpectsValue(ctx, cs[r.value]) && r.value != |cs| - 1)
    ensures forall k | i <= k < (if r.Some? then r.value else |cs|) ::
              HasShortOption(ctx, cs[k]) && (!ShortOptionExpectsValue(ctx, cs[k]) || k == |cs| - 1)
    decreases |cs| - i
  {
    if i == |cs| then None
    else if !HasShortOption(ctx, cs[i]) then Some(i)
    else if ShortOptionExpectsValue(ctx, cs[i]) && i != |cs| - 1 then Some(i)
    else GroupViolation(ctx, cs, i + 1)
  }

  // ---- parse_done ----

  /** A token nobody claimed: OTHER for the catchall, ERROR without one. */
  function Unmatched(ctx: Context, idx: nat): (r: Step)
    ensures r.code == OTHER <==> ctx.hasCatchall
    ensures r.code == ERROR <==> !ctx.hasCatchall
    ensures r.ctx == ctx && r.idx == idx
  {
    Step(if ctx.hasCatchall then OTHER else ERROR, ctx, idx)
  }

  /**
   kjc_argparse.c:278-332 for descriptor `i`: a Void match returns its id and ignores
   any `=` text; a typed match takes the `=` text or the next token (ERROR if
   none is left), then stores the string or the integer, or returns
   `badIntCode` for an integer `strtol` does not fully consume.
   */
  function Finish(ctx: Context, idx: nat, i: nat, embedded: Option<string>, badIntCode: int): (r: Step)
    requires i < |ctx.args| && idx <= |ctx.argv|
    ensures r.ctx == ctx.(value := r.ctx.value)
    ensures idx <= r.idx <= |ctx.argv|
    ensures ctx.args[i].kind == Void ==> r == Step(ctx.args[i].argId, ctx, idx)
    ensures ctx.args[i].kind != Void && embedded.None? && idx == |ctx.argv| ==> r == Step(ERROR, ctx, idx)
    ensures ctx.args[i].kind != Void && embedded.Some? ==> r.idx == idx
    ensures ctx.args[i].kind != Void && embedded.None? && idx < |ctx.argv| ==> r.idx == idx + 1
    ensures ctx.args[i].kind != Void && (embedded.Some? || idx < |ctx.argv|) ==>
      var text := if embedded.Some? then embedded.value else ctx.argv[idx];
      && (ctx.args[i].kind == Str ==> r.code == ctx.args[i].argId && r.ctx.value == StringValue(text))
      && (ctx.args[i].kind == Int && ParseInt(text).Some? ==>
            r.code == ctx.args[i].argId && r.ctx.value == IntValue(ParseInt(text).value))
      && (ctx.args[i].kind == Int && ParseInt(text).None? ==> r.code == badIntCode && r.ctx == ctx)
  {
    var a := ctx.args[i];
    if a.kind == Void then Step(a.argId, ctx, idx)
    else if embedded.None? && idx == |ctx.argv| then Step(ERROR, ctx, idx)
    else
      var text := if embedded.Some? then embedded.value else ctx.argv[idx];
      var idx' := if embedded.Some? then idx else idx + 1;
      match a.kind
      case Str => Step(a.argId, ctx.(value := StringValue(text)), idx')
      case Int =>
        match ParseInt(text)
        case None => Step(badIntCode, ctx, idx')
        case Some(n) => Step(a.argId, ctx.(value := IntValue(n)), idx')
  }

  /** A matched short name: scan for its first descriptor, which the bitmap promised exists. */
  function FinishShort(ctx: Context, idx: nat, c: char, badIntCode: int): (r: Result<Step>)
    requires idx <= |ctx.argv|
    ensures r.Ok? ==> r.value.ctx == ctx.(value := r.value.ctx.value)
    ensures r.Ok? ==> idx <= r.value.idx <= |ctx.argv|
    ensures r.Ok? ==> r.value.idx > idx || r.value.ctx.value == ctx.value || r.value.code == ERROR
    ensures r.Abort? <==> !Registered(ctx.args, c)
    ensures r.Abort? ==> r.fault == Impossible
  {
    match FindShort(ctx.args, c)
    case None => Abort(Impossible)
    case Some(i) => Ok(Finish(ctx, idx, i, None, badIntCode))
  }

  /** kjc_argparse.c:168-264 for the token `argv[idx]`, after the cursor has moved past it. */
  function Classify(ctx: Context, idx: nat, badIntCode: int): (r: Result<Step>)
    requires ArgvOk(ctx.argv) && idx < |ctx.argv|
    ensures r.Ok? ==> r.value.ctx == ctx.(value := r.value.ctx.value)
    ensures r.Ok? ==> idx < r.value.idx <= |ctx.argv|
    ensures r.Abort? ==> r.fault == Impossible
  {
    var tok := ctx.argv[idx];
    var next := idx + 1;
    if At(tok, 0) != '-' || |tok| < 2 then Ok(Unmatched(ctx, next))
    else if |tok| == 2 then
      if HasShortOption(ctx, tok[1]) then FinishShort(ctx, next, tok[1], badIntCode)
      else Ok(Unmatched(ctx, next))
    else if tok[1] != '-' then
      if GroupViolation(ctx, tok, 1).Some? then Ok(Step(ERROR, ctx, next))
      else FinishShort(ctx.(value := ShortGroup(tok, 2)), next, tok[1], badIntCode)
    else
      var eq := IndexOf(tok, '=');
      var n := if eq.Some? then eq.value - 2 else |tok| - 2;
      var embedded := if eq.Some? then Some(tok[eq.value + 1..]) else None;
      match FindLong(ctx.args, tok[2..], n)
      case None => Ok(Unmatched(ctx, next))
      case Some(i) => Ok(Finish(ctx, next, i, embedded, badIntCode))
  }

  /**
   `_argparse_parse(ctx, &idx, state)`; `badIntCode` is what the step returns
   for an integer value that does not parse (the code returns EXIT_FAILURE).
   */
  function ParseWith(ctx: Context, idx: nat, state: int, badIntCode: int): (r: Result<Step>)
    requires ArgvOk(ctx.argv) && idx <= |ctx.argv|
    ensures r.Ok? ==> r.value.idx <= |ctx.argv| && r.value.ctx.argv == ctx.argv
    ensures state == COUNT ==> r == (if ctx.argsCap == 0 && !ctx.hasCatchall then Abort(NoHandlers) else Ok(Step(INIT, ctx, idx)))
    ensures state == END ==> r == Ok(Step(END, ctx.(args := [], argsCap := 0), idx))
    ensures state == INIT && |ctx.args| != ctx.argsCap ==> r == Abort(CountMismatch)
    ensures r.Abort? ==> r.fault == (if state == COUNT then NoHandlers
                                     else if state == INIT && |ctx.args| != ctx.argsCap then CountMismatch
                                     else Impossible)
    ensures state != COUNT && state != END && r.Ok? ==>
      && r.value.ctx == ctx.(value := r.value.ctx.value)
      && (r.value.idx > idx
          || (r.value.idx == idx && GroupLeft(r.value.ctx.value) < GroupLeft(ctx.value))
          || (r.value.idx == idx && r.value.code == END && GroupLeft(r.value.ctx.value) == 0))
  {
    if state == COUNT then
      if ctx.argsCap == 0 && !ctx.hasCatchall then Abort(NoHandlers) else Ok(Step(INIT, ctx, idx))
    else if state == END then
      Ok(Step(END, ctx.(args := [], argsCap := 0), idx))
    else if state == INIT && |ctx.args| != ctx.argsCap then
      Abort(CountMismatch)
    else if ctx.value.ShortGroup? && At(ctx.value.token, ctx.value.next) != '\0' then
      var v := ctx.value;
      FinishShort(ctx.(value := ShortGroup(v.token, v.next + 1)), idx, v.token[v.next], badIntCode)
    else
      var cleared := ctx.(value := Cleared);
      if idx == |ctx.argv| then Ok(Step(END, cleared, idx))
      else Classify(cleared, idx, badIntCode)
  }

  // ---- The code for an unparsable integer ----

  /**
   Two step results that are equal except that where the first reports the
   bad-integer code `a`, the second reports `b`, with the same context and cursor.
   */
  predicate AgreeUpToBad(x: Result<Step>, y: Result<Step>, a: int, b: int) {
    x == y || (x.Ok? && y.Ok? && x.value.code == a && y.value.code == b && x.value.(code := b) == y.value)
  }

  lemma FinishBadCode(ctx: Context, idx: nat, i: nat, embedded: Option<string>, a: int, b: int)
    requires i < |ctx.args| && idx <= |ctx.argv|
    ensures AgreeUpToBad(Ok(Finish(ctx, idx, i, embedded, a)), Ok(Finish(ctx, idx, i, embedded, b)), a, b)
  {
  }

  lemma ClassifyBadCode(ctx: Context, idx: nat, a: int, b: int)
    requires ArgvOk(ctx.argv) && idx < |ctx.argv|
    ensures AgreeUpToBad(Classify(ctx, idx, a), Classify(ctx, idx, b), a, b)
  {
    var tok := ctx.argv[idx];
    if At(tok, 0) != '-' || |tok| < 2 {
    } else if |tok| == 2 {
      if HasShortOption(ctx, tok[1]) {
        match FindShort(ctx.args, tok[1])
        case None =>
        case Some(i) => FinishBadCode(ctx, idx + 1, i, None, a, b);
      }
    } else if tok[1] != '-' {
      if GroupViolation(ctx, tok, 1).None? {
        var c := ctx.(value := ShortGroup(tok, 2));
        match FindShort(c.args, tok[1])
        case None =>
        case Some(i) => FinishBadCode(c, idx + 1, i, None, a, b);
      }
    } else {
      var eq := IndexOf(tok, '=');
      var n := if eq.Some? then eq.value - 2 else |tok| - 2;
      var embedded := if eq.Some? then Some(tok[eq.value + 1..]) else None;
      match FindLong(ctx.args, tok[2..], n)
      case None =>
      case Some(i) => FinishBadCode(ctx, idx + 1, i, embedded, a, b);
    }
  }

  /**
   The bad-integer code is the only thing the step takes from its last
   argument: with another code every result is the same, except the one
   that reports the code itself.
   */
  lemma ParseWithBadCode(ctx: Context, idx: nat, state: int, a: int, b: int)
    requires ArgvOk(ctx.argv) && idx <= |ctx.argv|
    ensures AgreeUpToBad(ParseWith(ctx, idx, state, a), ParseWith(ctx, idx, state, b), a, b)
  {
    if state == COUNT || state == END || (state == INIT && |ctx.args| != ctx.argsCap) {
    } else if ctx.value.ShortGroup? && At(ctx.value.token, ctx.value.next) != '\0' {
      var v := ctx.value;
      var c := ctx.(value := ShortGroup(v.token, v.next + 1));
      match FindShort(c.args, v.token[v.next])
      case None =>
      case Some(i) => FinishBadCode(c, idx, i, None, a, b);
    } else if idx < |ctx.argv| {
      ClassifyBadCode(ctx.(value := Cleared), idx, a, b);
    }
  }

  /**
   `_argparse_parse` as written: the step that reports ERROR for an
   unparsable integer, except that it reports EXIT_FAILURE there instead.
   */
  function Parse(ctx: Context, idx: nat, state: int): (r: Result<Step>)
    requires ArgvOk(ctx.argv) && idx <= |ctx.argv|
    ensures r.Ok? ==> r.value.idx <= |ctx.argv|
    ensures AgreeUpToBad(r, ParseWith(ctx, idx, state, ERROR), EXIT_FAILURE, ERROR)
  {
    ParseWithBadCode(ctx, idx, state, EXIT_FAILURE, ERROR);
    ParseWith(ctx, idx, state, EXIT_FAILURE)
  }
}
