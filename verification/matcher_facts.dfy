/**
 What one parsing step does, stated against a reference reading of the
 token grammar: positional tokens, `-x`, `-abc`, `--name` and `--name=value`,
 matched by plain equality and "first registration wins" instead of by
 bitmaps and `strncmp`.
 */
module MatcherFacts {
  import opened Common
  import opened Registry
  import opened Strtol
  import opened Matcher

  /** The shape of a token, as the argument grammar reads it. */
  datatype TokenShape =
    | Bare                                          // "", "-", or no leading dash
    | Short(c: char)                                // "-x" (including "--")
    | Group(chars: string)                          // "-abc"
    | Long(name: string, embedded: Option<string>)  // "--name" or "--name=value"

  function Shape(tok: string): (s: TokenShape)
    ensures s.Bare? <==> |tok| < 2 || tok[0] != '-'
    ensures s.Short? <==> |tok| == 2 && tok[0] == '-'
    ensures s.Short? ==> s.c == tok[1]
    ensures s.Group? <==> |tok| > 2 && tok[0] == '-' && tok[1] != '-'
    ensures s.Long? <==> |tok| > 2 && tok[0] == '-' && tok[1] == '-'
    ensures s.Group? ==> |tok| >= 3 && |s.chars| >= 2 && s.chars[0] != '-' && s.chars == tok[1..]
    ensures s.Long? ==> "--" + s.name + (if s.embedded.Some? then "=" + s.embedded.value else "") == tok
    ensures s.Long? ==> forall k | 0 <= k < |s.name| :: s.name[k] != '='
  {
    if |tok| < 2 || tok[0] != '-' then Bare
    else if |tok| == 2 then Short(tok[1])
    else if tok[1] != '-' then Group(tok[1..])
    else
      LongRebuilds(tok);
      LongOf(tok[2..])
  }

  lemma LongRebuilds(tok: string)
    requires |tok| > 2 && tok[0] == '-' && tok[1] == '-'
    ensures var l := LongOf(tok[2..]);
      "--" + l.name + (if l.embedded.Some? then "=" + l.embedded.value else "") == tok
  {
    var rest := tok[2..];
    var l := LongOf(rest);
    var tail := if l.embedded.Some? then "=" + l.embedded.value else "";
    assert l.name + tail == rest;
    assert tok == tok[..2] + rest;
    assert tok[..2] == "--";
    ConcatAssoc("--", l.name, tail);
  }

  /** The text after `--`, split at its first `=`. */
  function LongOf(rest: string): (s: TokenShape)
    ensures s.Long?
    ensures s.name + (if s.embedded.Some? then "=" + s.embedded.value else "") == rest
    ensures forall k | 0 <= k < |s.name| :: s.name[k] != '='
  {
    match IndexOf(rest, '=')
    case None => Long(rest, None)
    case Some(k) =>
      assert rest == rest[..k] + "=" + rest[k + 1..];
      Long(rest[..k], Some(rest[k + 1..]))
  }

  /** The first descriptor registered with long name `name`. */
  function FirstLong(args: seq<ArgInfo>, name: string): (r: Option<nat>)
    ensures r.Some? ==> r.value < |args| && args[r.value].longName == Some(name)
    ensures r.Some? ==> forall j | 0 <= j < r.value :: args[j].longName != Some(name)
    ensures r.None? ==> forall j | 0 <= j < |args| :: args[j].longName != Some(name)
  {
    if |args| == 0 then None
    else if args[0].longName == Some(name) then Some(0)
    else match FirstLong(args[1..], name)
      case None => assert forall j | 1 <= j < |args| :: args[j] == args[1..][j - 1]; None
      case Some(k) => Some(k + 1)
  }

  /** No character is pending in a short group: the next step reads a new token. */
  predicate NoPendingChar(v: ArgValue) {
    !(v.ShortGroup? && At(v.token, v.next) != '\0')
  }

  /** A pending short group came from a validated token: all its remaining characters are registered. */
  ghost predicate GroupOk(ctx: Context) {
    ctx.value.ShortGroup? ==>
      && IsCString(ctx.value.token)
      && ctx.value.next <= |ctx.value.token|
      && forall k | ctx.value.next <= k < |ctx.value.token| :: Registered(ctx.args, ctx.value.token[k])
  }

  /** A step that reads a token: neither a phase code nor, for INIT, an unfilled table. */
  predicate Reading(ctx: Context, state: int) {
    state != COUNT && state != END && (state == INIT ==> |ctx.args| == ctx.argsCap)
  }

  ghost predicate Ready(ctx: Context, idx: nat) {
    ArgvOk(ctx.argv) && idx <= |ctx.argv| && Valid(ctx) && GroupOk(ctx)
  }

  lemma AllLongNamesC(args: seq<ArgInfo>)
    requires forall i | 0 <= i < |args| :: WellFormed(args[i])
    ensures forall i | 0 <= i < |args| :: args[i].longName.Some? ==> IsCString(args[i].longName.value)
  {
  }

  /** The `strncmp` scan finds exactly the first descriptor whose long name equals the key. */
  lemma {:induction false} FindLongIsFirstLong(args: seq<ArgInfo>, key: string, n: nat)
    requires forall i | 0 <= i < |args| :: args[i].longName.Some? ==> IsCString(args[i].longName.value)
    requires IsCString(key) && n <= |key|
    ensures FindLong(args, key, n) == FirstLong(args, key[..n])
  {
    if |args| > 0 {
      if args[0].longName.Some? {
        LongNameMatchesIff(key, n, args[0].longName.value);
      }
      FindLongIsFirstLong(args[1..], key, n);
    }
  }

  lemma IndexOfAfterDashes(tok: string)
    requires |tok| >= 2 && tok[0] == '-' && tok[1] == '-'
    ensures IndexOf(tok, '=').None? <==> IndexOf(tok[2..], '=').None?
    ensures IndexOf(tok, '=').Some? ==> IndexOf(tok, '=').value == IndexOf(tok[2..], '=').value + 2
  {
    var a := IndexOf(tok, '=');
    var b := IndexOf(tok[2..], '=');
    if a.Some? {
      assert tok[2..][a.value - 2] == '=';
    }
    if b.Some? {
      assert tok[b.value + 2] == '=';
    }
  }

  // ---- The phases ----

  /** COUNT moves to INIT unless nothing at all was declared; END releases the table. */
  lemma PhaseSteps(ctx: Context, idx: nat, bad: int)
    requires ArgvOk(ctx.argv) && idx <= |ctx.argv|
    ensures ParseWith(ctx, idx, COUNT, bad) == Abort(NoHandlers) <==> ctx.argsCap == 0 && !ctx.hasCatchall
    ensures ParseWith(ctx, idx, COUNT, bad).Ok? ==> ParseWith(ctx, idx, COUNT, bad).value == Step(INIT, ctx, idx)
    ensures ParseWith(ctx, idx, INIT, bad) == Abort(CountMismatch) <==> |ctx.args| != ctx.argsCap
    ensures var r := ParseWith(ctx, idx, END, bad);
            r.Ok? && r.value.code == END && r.value.idx == idx
            && r.value.ctx.args == [] && r.value.ctx.argsCap == 0
  {
  }

  /** Under the registration invariant the "shouldn't be possible" aborts never happen. */
  lemma ReadingNeverImpossible(ctx: Context, idx: nat, state: int, bad: int)
    requires ArgvOk(ctx.argv) && idx <= |ctx.argv|
    requires Reading(ctx, state)
    ensures Valid(ctx) && GroupOk(ctx) ==> ParseWith(ctx, idx, state, bad).Ok?
  {
    if Valid(ctx) && GroupOk(ctx) {
      if ctx.value.ShortGroup? && At(ctx.value.token, ctx.value.next) != '\0' {
        var v := ctx.value;
        assert v.next < |v.token|;
        assert Registered(ctx.args, v.token[v.next]);
      } else if idx < |ctx.argv| {
        var cleared := ctx.(value := Cleared);
        ValidIgnoresValue(ctx, Cleared);
        var tok := ctx.argv[idx];
        assert IsCString(tok);
        if At(tok, 0) == '-' && |tok| == 2 && HasShortOption(cleared, tok[1]) {
          HasShortOptionIff(cleared, tok[1]);
        } else if At(tok, 0) == '-' && |tok| > 2 && tok[1] != '-' && GroupViolation(cleared, tok, 1).None? {
          assert HasShortOption(cleared, tok[1]);
          HasShortOptionIff(cleared, tok[1]);
        }
      }
    }
  }

  /** The registration invariant does not look at the value slot. */
  lemma ValidIgnoresValue(ctx: Context, v: ArgValue)
    requires Valid(ctx)
    ensures Valid(ctx.(value := v))
  {
  }

  /** A group a step has just started was validated character by character. */
  lemma FreshGroupOk(ctx: Context, idx: nat, bad: int)
    requires ArgvOk(ctx.argv) && idx < |ctx.argv| && Valid(ctx) && !ctx.value.ShortGroup?
    ensures var r := Classify(ctx, idx, bad);
      r.Ok? && r.value.ctx.value.ShortGroup? ==> GroupOk(r.value.ctx)
  {
    var r := Classify(ctx, idx, bad);
    if r.Ok? && r.value.ctx.value.ShortGroup? {
      var tok := ctx.argv[idx];
      GroupOrigin(ctx, idx, bad);
      forall k | 2 <= k < |tok| ensures Registered(ctx.args, tok[k]) {
        HasShortOptionIff(ctx, tok[k]);
      }
    }
  }

  /** Only a valid short group `-abc` leaves a group pending, starting at its second character. */
  lemma GroupOrigin(ctx: Context, idx: nat, bad: int)
    requires ArgvOk(ctx.argv) && idx < |ctx.argv| && !ctx.value.ShortGroup?
    ensures var r := Classify(ctx, idx, bad); var tok := ctx.argv[idx];
      r.Ok? && r.value.ctx.value.ShortGroup? ==>
        && |tok| > 2 && tok[0] == '-' && tok[1] != '-'
        && GroupViolation(ctx, tok, 1).None?
        && r.value.ctx.value == ShortGroup(tok, 2)
  {
    var tok := ctx.argv[idx];
    if |tok| > 2 && tok[0] == '-' && tok[1] != '-' {
      ClassifyGroupForm(ctx, idx, bad);
    } else if |tok| == 2 && tok[0] == '-' {
      ShortStartsNoGroup(ctx, idx, bad);
    } else if |tok| > 2 && tok[0] == '-' && tok[1] == '-' {
      LongStartsNoGroup(ctx, idx, bad);
    } else {
      assert Classify(ctx, idx, bad) == Ok(Unmatched(ctx, idx + 1));
    }
  }

  lemma ShortStartsNoGroup(ctx: Context, idx: nat, bad: int)
    requires ArgvOk(ctx.argv) && idx < |ctx.argv| && !ctx.value.ShortGroup?
    requires var tok := ctx.argv[idx]; |tok| == 2 && tok[0] == '-'
    ensures var r := Classify(ctx, idx, bad); r.Ok? ==> !r.value.ctx.value.ShortGroup?
  {
    var tok := ctx.argv[idx];
    ClassifyShortForm(ctx, idx, bad);
    if HasShortOption(ctx, tok[1]) && FindShort(ctx.args, tok[1]).Some? {
      FinishFills(ctx, idx + 1, FindShort(ctx.args, tok[1]).value, None, bad);
    }
  }

  lemma LongStartsNoGroup(ctx: Context, idx: nat, bad: int)
    requires ArgvOk(ctx.argv) && idx < |ctx.argv| && !ctx.value.ShortGroup?
    requires var tok := ctx.argv[idx]; |tok| > 2 && tok[0] == '-' && tok[1] == '-'
    ensures var r := Classify(ctx, idx, bad); r.Ok? ==> !r.value.ctx.value.ShortGroup?
  {
    var tok := ctx.argv[idx];
    var eq := IndexOf(tok, '=');
    var n := if eq.Some? then eq.value - 2 else |tok| - 2;
    var emb := if eq.Some? then Some(tok[eq.value + 1..]) else None;
    ClassifyLong(ctx, idx, bad, n, emb);
    if FindLong(ctx.args, tok[2..], n).Some? {
      FinishFills(ctx, idx + 1, FindLong(ctx.args, tok[2..], n).value, emb, bad);
    }
  }

  /** Finishing a match leaves the value slot as it was or fills it with the converted text. */
  lemma FinishFills(ctx: Context, idx: nat, i: nat, embedded: Option<string>, bad: int)
    requires i < |ctx.args| && idx <= |ctx.argv|
    ensures var v := Finish(ctx, idx, i, embedded, bad).ctx.value;
      v == ctx.value || v.IntValue? || v.StringValue?
  {
  }

  /** A two-character token `-c` is decided by the bitmap and the first descriptor named `c`. */
  lemma ClassifyShortForm(ctx: Context, idx: nat, bad: int)
    requires ArgvOk(ctx.argv) && idx < |ctx.argv|
    requires var tok := ctx.argv[idx]; |tok| == 2 && tok[0] == '-'
    ensures var tok := ctx.argv[idx];
      Classify(ctx, idx, bad) ==
        if HasShortOption(ctx, tok[1]) then FinishShort(ctx, idx + 1, tok[1], bad) else Ok(Unmatched(ctx, idx + 1))
  {
    var tok := ctx.argv[idx];
    assert At(tok, 0) == '-' && |tok| >= 2;
  }

  /** A token `-abc` is either rejected as a whole or reports its first character with the rest pending. */
  lemma ClassifyGroupForm(ctx: Context, idx: nat, bad: int)
    requires ArgvOk(ctx.argv) && idx < |ctx.argv|
    requires var tok := ctx.argv[idx]; |tok| > 2 && tok[0] == '-' && tok[1] != '-'
    ensures var tok := ctx.argv[idx];
      Classify(ctx, idx, bad) ==
        if GroupViolation(ctx, tok, 1).Some? then Ok(Step(ERROR, ctx, idx + 1))
        else FinishShort(ctx.(value := ShortGroup(tok, 2)), idx + 1, tok[1], bad)
  {
    var tok := ctx.argv[idx];
    assert At(tok, 0) == '-' && |tok| >= 2 && |tok| != 2;
  }

  /** Stepping keeps the bitmaps describing the table and any pending group validated. */
  lemma StepPreservesReady(ctx: Context, idx: nat, state: int, bad: int)
    requires Ready(ctx, idx) && state != END
    requires ParseWith(ctx, idx, state, bad).Ok?
    ensures var s := ParseWith(ctx, idx, state, bad).value; Ready(s.ctx, s.idx)
  {
    var s := ParseWith(ctx, idx, state, bad).value;
    if state != COUNT {
      ValidIgnoresValue(ctx, s.ctx.value);
      if s.ctx.value.ShortGroup? {
        if !(ctx.value.ShortGroup? && At(ctx.value.token, ctx.value.next) != '\0') && idx < |ctx.argv| {
          FreshGroupOk(ctx.(value := Cleared), idx, bad);
        }
      }
    }
  }

  // ---- The reference classification ----

  /** A short group breaks the rules: an unregistered character, or a value-taking one before the last. */
  ghost predicate BadGroup(args: seq<ArgInfo>, cs: string) {
    exists k | 0 <= k < |cs| :: !Registered(args, cs[k]) || (k < |cs| - 1 && RegisteredWithValue(args, cs[k]))
  }

  /**
   What a reading step should do with token `argv[idx]`, from its shape:
   positional and unknown tokens are Unmatched; `-x` and `--name` select the
   first registration of that name; a valid `-abc` reports `a` and keeps the
   rest pending; an invalid one is an ERROR whatever the catchall.
   */
  ghost function Expected(ctx: Context, idx: nat, bad: int): Step
    requires ArgvOk(ctx.argv) && idx < |ctx.argv|
  {
    var tok := ctx.argv[idx];
    match Shape(tok)
    case Bare => Unmatched(ctx, idx + 1)
    case Short(c) =>
      (match FindShort(ctx.args, c)
       case None => Unmatched(ctx, idx + 1)
       case Some(i) => Finish(ctx, idx + 1, i, None, bad))
    case Group(cs) =>
      if BadGroup(ctx.args, cs) || !Registered(ctx.args, cs[0]) then Step(ERROR, ctx, idx + 1)
      else Step(ctx.args[FindShort(ctx.args, cs[0]).value].argId, ctx.(value := ShortGroup(tok, 2)), idx + 1)
    case Long(name, embedded) =>
      (match FirstLong(ctx.args, name)
       case None => Unmatched(ctx, idx + 1)
       case Some(i) => Finish(ctx, idx + 1, i, embedded, bad))
  }

  /** The token names an option that takes a value and gives no `=` text, so the value is the next token. */
  predicate TakesNextToken(args: seq<ArgInfo>, s: TokenShape) {
    match s
    case Short(c) => FindShort(args, c).Some? && args[FindShort(args, c).value].kind != Void
    case Long(name, embedded) =>
      embedded.None? && FirstLong(args, name).Some? && args[FirstLong(args, name).value].kind != Void
    case _ => false
  }

  lemma ShortStep(ctx: Context, idx: nat, bad: int)
    requires ArgvOk(ctx.argv) && idx < |ctx.argv| && Valid(ctx)
    requires Shape(ctx.argv[idx]).Short?
    ensures Classify(ctx, idx, bad) == Ok(Expected(ctx, idx, bad))
  {
    var tok := ctx.argv[idx];
    HasShortOptionIff(ctx, tok[1]);
  }

  lemma GroupStep(ctx: Context, idx: nat, bad: int)
    requires ArgvOk(ctx.argv) && idx < |ctx.argv| && Valid(ctx)
    requires Shape(ctx.argv[idx]).Group?
    ensures Classify(ctx, idx, bad) == Ok(Expected(ctx, idx, bad))
  {
    var tok := ctx.argv[idx];
    var cs := tok[1..];
    var g := GroupViolation(ctx, tok, 1);
    if g.Some? {
      var k := g.value;
      HasShortOptionIff(ctx, tok[k]);
      assert cs[k - 1] == tok[k];
      assert BadGroup(ctx.args, cs);
    } else {
      forall k | 0 <= k < |cs|
        ensures Registered(ctx.args, cs[k]) && (k < |cs| - 1 ==> !RegisteredWithValue(ctx.args, cs[k]))
      {
        assert cs[k] == tok[k + 1];
        HasShortOptionIff(ctx, tok[k + 1]);
      }
      assert !BadGroup(ctx.args, cs);
      var i := FindShort(ctx.args, cs[0]).value;
      assert ctx.args[i].kind == Void;
    }
  }

  /** The name and `=` text the reference reading takes from `--name[=value]`, as positions in the token. */
  lemma LongParts(tok: string)
    requires |tok| > 2 && tok[0] == '-' && tok[1] == '-'
    ensures var eq := IndexOf(tok, '=');
      var n := if eq.Some? then eq.value - 2 else |tok| - 2;
      && Shape(tok) == LongOf(tok[2..])
      && 0 <= n <= |tok| - 2
      && LongOf(tok[2..]).name == tok[2..][..n]
      && LongOf(tok[2..]).embedded == (if eq.Some? then Some(tok[eq.value + 1..]) else None)
  {
    var rest := tok[2..];
    IndexOfAfterDashes(tok);
    assert Shape(tok) == LongOf(rest);
    match IndexOf(rest, '=')
    case None =>
      assert IndexOf(tok, '=').None?;
      assert LongOf(rest) == Long(rest, None);
      assert rest[..|tok| - 2] == rest;
    case Some(k) =>
      assert IndexOf(tok, '=') == Some(k + 2);
      assert LongOf(rest) == Long(rest[..k], Some(rest[k + 1..]));
      assert tok[k + 2 + 1..] == rest[k + 1..];
  }

  /** For a token starting `--` and longer than two characters, the step is decided by the long-name scan alone. */
  lemma ClassifyLong(ctx: Context, idx: nat, bad: int, n: nat, emb: Option<string>)
    requires ArgvOk(ctx.argv) && idx < |ctx.argv|
    requires var tok := ctx.argv[idx]; |tok| > 2 && tok[0] == '-' && tok[1] == '-'
    requires var eq := IndexOf(ctx.argv[idx], '=');
      && n == (if eq.Some? then eq.value - 2 else |ctx.argv[idx]| - 2)
      && emb == (if eq.Some? then Some(ctx.argv[idx][eq.value + 1..]) else None)
    ensures FindLong(ctx.args, ctx.argv[idx][2..], n).None? ==> Classify(ctx, idx, bad) == Ok(Unmatched(ctx, idx + 1))
    ensures FindLong(ctx.args, ctx.argv[idx][2..], n).Some? ==>
      Classify(ctx, idx, bad) == Ok(Finish(ctx, idx + 1, FindLong(ctx.args, ctx.argv[idx][2..], n).value, emb, bad))
  {
    var tok := ctx.argv[idx];
    assert At(tok, 0) == '-' && |tok| >= 2 && |tok| != 2 && tok[1] == '-';
    match FindLong(ctx.args, tok[2..], n)
    case None =>
      assert Classify(ctx, idx, bad) == Ok(Unmatched(ctx, idx + 1));
    case Some(i) =>
      assert Classify(ctx, idx, bad) == Ok(Finish(ctx, idx + 1, i, emb, bad));
  }

  lemma ExpectedLong(ctx: Context, idx: nat, bad: int, name: string, emb: Option<string>)
    requires ArgvOk(ctx.argv) && idx < |ctx.argv|
    requires Shape(ctx.argv[idx]) == Long(name, emb)
    ensures FirstLong(ctx.args, name).None? ==> Expected(ctx, idx, bad) == Unmatched(ctx, idx + 1)
    ensures FirstLong(ctx.args, name).Some? ==>
      Expected(ctx, idx, bad) == Finish(ctx, idx + 1, FirstLong(ctx.args, name).value, emb, bad)
  {
  }

  /** The `strncmp` scan over the text after `--` finds the first descriptor with the token's long name. */
  lemma LongLookup(ctx: Context, tok: string, n: nat)
    requires Valid(ctx) && IsCString(tok) && |tok| > 2 && tok[0] == '-' && tok[1] == '-'
    requires n == if IndexOf(tok, '=').Some? then IndexOf(tok, '=').value - 2 else |tok| - 2
    ensures n <= |tok| - 2 && FindLong(ctx.args, tok[2..], n) == FirstLong(ctx.args, Shape(tok).name)
  {
    LongParts(tok);
    AllLongNamesC(ctx.args);
    FindLongIsFirstLong(ctx.args, tok[2..], n);
  }

  lemma LongStep(ctx: Context, idx: nat, bad: int)
    requires ArgvOk(ctx.argv) && idx < |ctx.argv| && Valid(ctx)
    requires Shape(ctx.argv[idx]).Long?
    ensures Classify(ctx, idx, bad) == Ok(Expected(ctx, idx, bad))
  {
    var tok := ctx.argv[idx];
    var eq := IndexOf(tok, '=');
    var n := if eq.Some? then eq.value - 2 else |tok| - 2;
    var emb := if eq.Some? then Some(tok[eq.value + 1..]) else None;
    LongParts(tok);
    var name := Shape(tok).name;
    assert Shape(tok) == Long(name, emb);
    LongLookup(ctx, tok, n);
    ClassifyLong(ctx, idx, bad, n, emb);
    ExpectedLong(ctx, idx, bad, name, emb);
    match FirstLong(ctx.args, name)
    case None =>
      assert Classify(ctx, idx, bad) == Ok(Unmatched(ctx, idx + 1));
    case Some(i) =>
      assert Classify(ctx, idx, bad) == Ok(Finish(ctx, idx + 1, i, emb, bad));
  }

  /**
   A reading step with no group character pending does what the reference
   classification says with the token under the cursor.
   */
  lemma StepMatchesReference(ctx: Context, idx: nat, state: int, bad: int)
    requires Ready(ctx, idx) && Reading(ctx, state) && NoPendingChar(ctx.value)
    requires idx < |ctx.argv|
    ensures ParseWith(ctx, idx, state, bad) == Ok(Expected(ctx.(value := Cleared), idx, bad))
  {
    var cleared := ctx.(value := Cleared);
    ValidIgnoresValue(ctx, Cleared);
    match Shape(ctx.argv[idx])
    case Bare =>
    case Short(_) => ShortStep(cleared, idx, bad);
    case Group(_) => GroupStep(cleared, idx, bad);
    case Long(_, _) => LongStep(cleared, idx, bad);
  }

  /**
   A pending short-group character is reported by the first registration of
   it without reading a new token, unless it is the group's value-taking last
   character, which then takes the next token.
   */
  lemma PendingStep(ctx: Context, idx: nat, state: int, bad: int)
    requires Ready(ctx, idx) && Reading(ctx, state) && !NoPendingChar(ctx.value)
    ensures var v := ctx.value;
      && v.next < |v.token|
      && Registered(ctx.args, v.token[v.next])
      && var i := FindShort(ctx.args, v.token[v.next]).value;
         ParseWith(ctx, idx, state, bad) == Ok(Finish(ctx.(value := ShortGroup(v.token, v.next + 1)), idx, i, None, bad))
  {
  }

  // ---- The cursor ----

  /**
   With no group character pending, a reading step returns END without moving
   exactly when the cursor is at `argc`; otherwise it consumes the token, and
   one more only for a typed match that had no `=` text.
   */
  lemma CursorMoves(ctx: Context, idx: nat, state: int, bad: int)
    requires Ready(ctx, idx) && Reading(ctx, state) && NoPendingChar(ctx.value) && bad != END
    ensures var r := ParseWith(ctx, idx, state, bad);
      && r.Ok?
      && (r.value.code == END <==> idx == |ctx.argv|)
      && (r.value.code == END ==> r.value.idx == idx && r.value.ctx.value == Cleared)
      && (idx < |ctx.argv| ==> idx + 1 <= r.value.idx <= idx + 2)
      && (r.value.idx == idx + 2 ==>
            && idx + 1 < |ctx.argv| && TakesNextToken(ctx.args, Shape(ctx.argv[idx]))
            && exists i | 0 <= i < |ctx.args| :: ctx.args[i].kind != Void)
  {
    ReadingNeverImpossible(ctx, idx, state, bad);
    if idx < |ctx.argv| {
      StepMatchesReference(ctx, idx, state, bad);
      ValidIgnoresValue(ctx, Cleared);
      ExpectedMoves(ctx.(value := Cleared), idx, bad);
    }
  }

  /** The reference step consumes the token, and the next one only for a typed option. */
  lemma ExpectedMoves(ctx: Context, idx: nat, bad: int)
    requires ArgvOk(ctx.argv) && idx < |ctx.argv| && Valid(ctx) && bad != END
    ensures var e := Expected(ctx, idx, bad);
      && e.code != END
      && idx + 1 <= e.idx <= idx + 2
      && (e.idx == idx + 2 ==>
            && idx + 1 < |ctx.argv| && TakesNextToken(ctx.args, Shape(ctx.argv[idx]))
            && exists i | 0 <= i < |ctx.args| :: ctx.args[i].kind != Void)
  {
    match Shape(ctx.argv[idx])
    case Bare =>
    case Short(c) =>
      if FindShort(ctx.args, c).Some? {
        var i := FindShort(ctx.args, c).value;
        FinishCode(ctx, idx + 1, i, None, bad);
        assert WellFormed(ctx.args[i]);
      }
    case Group(cs) =>
      if !(BadGroup(ctx.args, cs) || !Registered(ctx.args, cs[0])) {
        assert WellFormed(ctx.args[FindShort(ctx.args, cs[0]).value]);
      }
    case Long(name, embedded) =>
      if FirstLong(ctx.args, name).Some? {
        var i := FirstLong(ctx.args, name).value;
        FinishCode(ctx, idx + 1, i, embedded, bad);
        assert WellFormed(ctx.args[i]);
      }
  }

  // ---- What a handler code carries ----

  /** The value slot holds what a handler of this type reads: an integer for Int, a string for Str. */
  predicate Fits(kind: Kind, v: ArgValue) {
    && (kind == Int ==> v.IntValue?)
    && (kind == Str ==> v.StringValue?)
  }

  /** A descriptor code returned for descriptor `i` comes with a value of its type. */
  lemma FinishFits(ctx: Context, idx: nat, i: nat, embedded: Option<string>, bad: int)
    requires i < |ctx.args| && idx <= |ctx.argv| && IsSpecial(bad)
    ensures var r := Finish(ctx, idx, i, embedded, bad);
      !IsSpecial(r.code) ==> r.code == ctx.args[i].argId && Fits(ctx.args[i].kind, r.ctx.value)
  {
  }

  /**
   Every code a step returns that is not one of the special values is the id
   of a registered descriptor, and the value slot then holds that
   descriptor's type: this is what makes `_argparse_value_int` and
   `_argparse_value_string` safe in the handler the code selects.
   */
  lemma CodeNamesDescriptor(ctx: Context, idx: nat, state: int, bad: int)
    requires ArgvOk(ctx.argv) && idx <= |ctx.argv| && IsSpecial(bad)
    requires state != COUNT && state != END
    requires ParseWith(ctx, idx, state, bad).Ok?
    ensures var s := ParseWith(ctx, idx, state, bad).value;
      !IsSpecial(s.code) ==>
        exists j | 0 <= j < |ctx.args| :: ctx.args[j].argId == s.code && Fits(ctx.args[j].kind, s.ctx.value)
  {
    if ctx.value.ShortGroup? && At(ctx.value.token, ctx.value.next) != '\0' {
      var v := ctx.value;
      FinishShortFits(ctx.(value := ShortGroup(v.token, v.next + 1)), idx, v.token[v.next], bad);
    } else if idx < |ctx.argv| {
      ClassifyFits(ctx.(value := Cleared), idx, bad);
    }
  }

  /** A descriptor code from a matched short name comes with a value of its type. */
  lemma FinishShortFits(ctx: Context, idx: nat, c: char, bad: int)
    requires idx <= |ctx.argv| && IsSpecial(bad) && FinishShort(ctx, idx, c, bad).Ok?
    ensures var s := FinishShort(ctx, idx, c, bad).value;
      !IsSpecial(s.code) ==>
        exists j | 0 <= j < |ctx.args| :: ctx.args[j].argId == s.code && Fits(ctx.args[j].kind, s.ctx.value)
  {
    var i := FindShort(ctx.args, c).value;
    FinishFits(ctx, idx, i, None, bad);
  }

  /** A descriptor code from a fresh token comes with a value of its type. */
  lemma ClassifyFits(ctx: Context, idx: nat, bad: int)
    requires ArgvOk(ctx.argv) && idx < |ctx.argv| && IsSpecial(bad) && Classify(ctx, idx, bad).Ok?
    ensures var s := Classify(ctx, idx, bad).value;
      !IsSpecial(s.code) ==>
        exists j | 0 <= j < |ctx.args| :: ctx.args[j].argId == s.code && Fits(ctx.args[j].kind, s.ctx.value)
  {
    var tok := ctx.argv[idx];
    var next := idx + 1;
    if |tok| == 2 && tok[0] == '-' {
      ClassifyShortForm(ctx, idx, bad);
      if HasShortOption(ctx, tok[1]) {
        FinishShortFits(ctx, next, tok[1], bad);
      }
    } else if |tok| > 2 && tok[0] == '-' && tok[1] != '-' {
      ClassifyGroupForm(ctx, idx, bad);
      if GroupViolation(ctx, tok, 1).None? {
        FinishShortFits(ctx.(value := ShortGroup(tok, 2)), next, tok[1], bad);
      }
    } else if |tok| > 2 && tok[0] == '-' && tok[1] == '-' {
      LongFits(ctx, idx, bad);
    } else {
      assert Classify(ctx, idx, bad) == Ok(Unmatched(ctx, next));
    }
  }

  /** A descriptor code from a `--name` token comes with a value of its type. */
  lemma LongFits(ctx: Context, idx: nat, bad: int)
    requires ArgvOk(ctx.argv) && idx < |ctx.argv| && IsSpecial(bad)
    requires var tok := ctx.argv[idx]; At(tok, 0) == '-' && |tok| > 2 && tok[1] == '-'
    requires Classify(ctx, idx, bad).Ok?
    ensures var s := Classify(ctx, idx, bad).value;
      !IsSpecial(s.code) ==>
        exists j | 0 <= j < |ctx.args| :: ctx.args[j].argId == s.code && Fits(ctx.args[j].kind, s.ctx.value)
  {
    var tok := ctx.argv[idx];
    var eq := IndexOf(tok, '=');
    var n := if eq.Some? then eq.value - 2 else |tok| - 2;
    var embedded := if eq.Some? then Some(tok[eq.value + 1..]) else None;
    if FindLong(ctx.args, tok[2..], n).Some? {
      FinishFits(ctx, idx + 1, FindLong(ctx.args, tok[2..], n).value, embedded, bad);
    }
  }

  lemma FinishCode(ctx: Context, idx: nat, i: nat, embedded: Option<string>, bad: int)
    requires i < |ctx.args| && idx <= |ctx.argv|
    ensures var c := Finish(ctx, idx, i, embedded, bad).code; c == ctx.args[i].argId || c == ERROR || c == bad
  {
  }

  /** A matched short name answers its descriptor's id, ERROR or the bad-integer code. */
  lemma FinishShortCodes(ctx: Context, idx: nat, c: char, bad: int)
    requires idx <= |ctx.argv| && Valid(ctx) && FinishShort(ctx, idx, c, bad).Ok?
    ensures var code := FinishShort(ctx, idx, c, bad).value.code; code == ERROR || code == bad || !IsSpecial(code)
  {
    var i := FindShort(ctx.args, c).value;
    FinishCode(ctx, idx, i, None, bad);
    assert WellFormed(ctx.args[i]);
  }

  /** The codes of a fresh token: OTHER, ERROR, the bad-integer code or a descriptor's id. */
  lemma ClassifyCodes(ctx: Context, idx: nat, bad: int)
    requires ArgvOk(ctx.argv) && idx < |ctx.argv| && Valid(ctx) && Classify(ctx, idx, bad).Ok?
    ensures var code := Classify(ctx, idx, bad).value.code;
      code == OTHER || code == ERROR || code == bad || !IsSpecial(code)
  {
    var tok := ctx.argv[idx];
    if |tok| == 2 && tok[0] == '-' {
      ShortCodes(ctx, idx, bad);
    } else if |tok| > 2 && tok[0] == '-' && tok[1] != '-' {
      GroupCodes(ctx, idx, bad);
    } else if |tok| > 2 && tok[0] == '-' && tok[1] == '-' {
      LongCodes(ctx, idx, bad);
    } else {
      assert Classify(ctx, idx, bad) == Ok(Unmatched(ctx, idx + 1));
    }
  }

  /** A `-c` token answers OTHER, ERROR, the bad-integer code or a descriptor's id. */
  lemma ShortCodes(ctx: Context, idx: nat, bad: int)
    requires ArgvOk(ctx.argv) && idx < |ctx.argv| && Valid(ctx)
    requires var tok := ctx.argv[idx]; |tok| == 2 && tok[0] == '-'
    requires Classify(ctx, idx, bad).Ok?
    ensures var code := Classify(ctx, idx, bad).value.code;
      code == OTHER || code == ERROR || code == bad || !IsSpecial(code)
  {
    var tok := ctx.argv[idx];
    ClassifyShortForm(ctx, idx, bad);
    if HasShortOption(ctx, tok[1]) {
      FinishShortCodes(ctx, idx + 1, tok[1], bad);
    }
  }

  /** A `-abc` token answers ERROR, the bad-integer code or a descriptor's id. */
  lemma GroupCodes(ctx: Context, idx: nat, bad: int)
    requires ArgvOk(ctx.argv) && idx < |ctx.argv| && Valid(ctx)
    requires var tok := ctx.argv[idx]; |tok| > 2 && tok[0] == '-' && tok[1] != '-'
    requires Classify(ctx, idx, bad).Ok?
    ensures var code := Classify(ctx, idx, bad).value.code;
      code == ERROR || code == bad || !IsSpecial(code)
  {
    var tok := ctx.argv[idx];
    ClassifyGroupForm(ctx, idx, bad);
    if GroupViolation(ctx, tok, 1).None? {
      ValidIgnoresValue(ctx, ShortGroup(tok, 2));
      FinishShortCodes(ctx.(value := ShortGroup(tok, 2)), idx + 1, tok[1], bad);
    }
  }

  /** A `--name` token answers OTHER, ERROR, the bad-integer code or a descriptor's id. */
  lemma LongCodes(ctx: Context, idx: nat, bad: int)
    requires ArgvOk(ctx.argv) && idx < |ctx.argv| && Valid(ctx)
    requires var tok := ctx.argv[idx]; At(tok, 0) == '-' && |tok| > 2 && tok[1] == '-'
    requires Classify(ctx, idx, bad).Ok?
    ensures var code := Classify(ctx, idx, bad).value.code;
      code == OTHER || code == ERROR || code == bad || !IsSpecial(code)
  {
    var tok := ctx.argv[idx];
    var eq := IndexOf(tok, '=');
    var n := if eq.Some? then eq.value - 2 else |tok| - 2;
    var embedded := if eq.Some? then Some(tok[eq.value + 1..]) else None;
    match FindLong(ctx.args, tok[2..], n)
    case None =>
    case Some(i) =>
      FinishCode(ctx, idx + 1, i, embedded, bad);
      assert WellFormed(ctx.args[i]);
  }

  /**
   The codes a reading step can return: END, OTHER, ERROR, the code for an
   unparsable integer, or the id of a registered descriptor.
   */
  lemma StepCodes(ctx: Context, idx: nat, state: int, bad: int)
    requires ArgvOk(ctx.argv) && idx <= |ctx.argv| && Valid(ctx)
    requires state != COUNT && state != END
    ensures var r := ParseWith(ctx, idx, state, bad);
      r.Ok? ==> var c := r.value.code;
      c == END || c == OTHER || c == ERROR || c == bad || !IsSpecial(c)
  {
    if ParseWith(ctx, idx, state, bad).Ok? {
      if ctx.value.ShortGroup? && At(ctx.value.token, ctx.value.next) != '\0' {
        var v := ctx.value;
        ValidIgnoresValue(ctx, ShortGroup(v.token, v.next + 1));
        FinishShortCodes(ctx.(value := ShortGroup(v.token, v.next + 1)), idx, v.token[v.next], bad);
      } else if idx < |ctx.argv| {
        ValidIgnoresValue(ctx, Cleared);
        ClassifyCodes(ctx.(value := Cleared), idx, bad);
      }
    }
  }
}
