/**
 The descriptor table of one parsing context (`struct _argparse` and
 `struct _arginfo`), registration with `_argparse_add`, and the two 256-bit
 bitmaps that answer "is `c` a short option" and "does short option `c`
 take a value" without scanning the table.
 */
module Registry {
  import opened Common

  /** `ARG_TYPE_VOID`, `ARG_TYPE_INT`, `ARG_TYPE_STRING` of a descriptor. */
  datatype Kind = Void | Int | Str

  /** One registered argument; a short name of '\0' means "none". */
  datatype ArgInfo = ArgInfo(
    longName: Option<string>,
    description: Option<string>,
    argId: int,
    kind: Kind,
    shortName: char)

  /**
   The pair `argtype`/`argvalue`: nothing, a parsed integer, a string, or a
   short group whose characters from index `next` on are still to be reported.
   */
  datatype ArgValue =
    | Cleared
    | IntValue(i: int)
    | StringValue(s: string)
    | ShortGroup(token: string, next: nat)

  /** The parsing context; `|args|` is `args_count`, `|argv|` is `orig_argc`. */
  datatype Context = Context(
    argv: seq<string>,
    value: ArgValue,
    args: seq<ArgInfo>,
    argsCap: nat,
    longNameWidth: int,
    longNameMaxWidth: int,
    hasCatchall: bool,
    positionalUsage: Option<string>,
    shortBitmap: seq<bv8>,
    shortValueBitmap: seq<bv8>)

  const BITMAP_BYTES: nat := 32

  function EmptyBitmap(): (bm: seq<bv8>)
    ensures |bm| == BITMAP_BYTES
    ensures forall c: char | IsByte(c) :: !TestBit(bm, c)
  {
    seq(BITMAP_BYTES, _ => 0)
  }

  /** The zero-initialised context with `_argparse_init`'s three fields set. */
  function Start(argv: seq<string>, maxWidth: int): (ctx: Context)
    ensures ctx.argv == argv && ctx.longNameMaxWidth == maxWidth
    ensures ctx.args == [] && ctx.argsCap == 0 && ctx.longNameWidth == 0
    ensures !ctx.hasCatchall && ctx.value == Cleared
    ensures Valid(ctx)
  {
    Context(argv, Cleared, [], 0, 0, maxWidth, false, None, EmptyBitmap(), EmptyBitmap())
  }

  // ---- Bitmaps: the high five bits of a character pick the byte, the low three the bit ----

  function Mask(c: char): bv8
    requires IsByte(c)
  {
    (1 as bv8) << (c as int % 8)
  }

  predicate TestBit(bm: seq<bv8>, c: char)
    requires IsByte(c)
  {
    |bm| == BITMAP_BYTES && bm[c as int / 8] & Mask(c) != 0
  }

  function SetBit(bm: seq<bv8>, c: char): (bm': seq<bv8>)
    requires |bm| == BITMAP_BYTES && IsByte(c)
    ensures |bm'| == BITMAP_BYTES
    ensures forall d: char | IsByte(d) :: TestBit(bm', d) <==> TestBit(bm, d) || d == c
  {
    var bm' := bm[c as int / 8 := bm[c as int / 8] | Mask(c)];
    forall d: char | IsByte(d)
      ensures TestBit(bm', d) <==> TestBit(bm, d) || d == c
    {
      MaskBits(c, d, bm[c as int / 8]);
    }
    bm'
  }

  /** Setting the bit of `c` in a byte changes the bit of `d` exactly when they share it. */
  lemma MaskBits(c: char, d: char, b: bv8)
    requires IsByte(c) && IsByte(d)
    ensures c as int / 8 == d as int / 8 ==>
      ((b | Mask(c)) & Mask(d) != 0 <==> b & Mask(d) != 0 || c == d)
  {
    var i := c as int % 8;
    var j := d as int % 8;
    assert c as int == c as int / 8 * 8 + i;
    assert d as int == d as int / 8 * 8 + j;
    if c as int / 8 == d as int / 8 && i != j {
      assert c != d;
      ShiftsDiffer(b, i, j);
    }
  }

  lemma ShiftsDiffer(b: bv8, i: nat, j: nat)
    requires i < 8 && j < 8 && i != j
    ensures (b | ((1 as bv8) << i)) & ((1 as bv8) << j) == b & ((1 as bv8) << j)
  {
  }

  /** Some registered descriptor has short name `c`. */
  predicate Registered(args: seq<ArgInfo>, c: char) {
    exists i | 0 <= i < |args| :: args[i].shortName == c
  }

  /** Some registered descriptor with short name `c` is not Void. */
  predicate RegisteredWithValue(args: seq<ArgInfo>, c: char) {
    exists i | 0 <= i < |args| :: args[i].shortName == c && args[i].kind != Void
  }

  /**
   What registration maintains: the bitmaps describe exactly the short names
   in the table, the table is within its capacity, names are C strings, and
   the long-name column never exceeds its cap.
   */
  ghost predicate Valid(ctx: Context) {
    && |ctx.shortBitmap| == BITMAP_BYTES
    && |ctx.shortValueBitmap| == BITMAP_BYTES
    && |ctx.args| <= ctx.argsCap
    && (forall i | 0 <= i < |ctx.args| :: WellFormed(ctx.args[i]))
    && (forall c: char | IsByte(c) && c != '\0' :: TestBit(ctx.shortBitmap, c) <==> Registered(ctx.args, c))
    && (forall c: char | IsByte(c) && c != '\0' :: TestBit(ctx.shortValueBitmap, c) <==> RegisteredWithValue(ctx.args, c))
    && 0 <= ctx.longNameWidth
    && (ctx.longNameMaxWidth >= 0 ==> ctx.longNameWidth <= ctx.longNameMaxWidth)
  }

  predicate WellFormed(a: ArgInfo) {
    && !IsSpecial(a.argId)
    && IsByte(a.shortName)
    && (a.shortName != '\0' || a.longName.Some?)
    && (a.longName.Some? ==> IsCString(a.longName.value))
    && (a.description.Some? ==> IsCString(a.description.value))
  }

  /** `_argparse_has_short_option`. */
  predicate HasShortOption(ctx: Context, c: char)
    requires IsByte(c)
    ensures Valid(ctx) ==> (HasShortOption(ctx, c) <==> c != '\0' && Registered(ctx.args, c))
  {
    c != '\0' && TestBit(ctx.shortBitmap, c)
  }

  /** `_argparse_short_option_expects_value`. */
  predicate ShortOptionExpectsValue(ctx: Context, c: char)
    requires IsByte(c)
    ensures Valid(ctx) ==> (ShortOptionExpectsValue(ctx, c) <==> c != '\0' && RegisteredWithValue(ctx.args, c))
  {
    c != '\0' && TestBit(ctx.shortValueBitmap, c)
  }

  lemma HasShortOptionIff(ctx: Context, c: char)
    requires Valid(ctx) && IsByte(c)
    ensures HasShortOption(ctx, c) <==> c != '\0' && Registered(ctx.args, c)
    ensures ShortOptionExpectsValue(ctx, c) <==> c != '\0' && RegisteredWithValue(ctx.args, c)
  {
  }

  /** The long-name column after registering `long`: raised to its length, capped. */
  function Widen(width: int, maxWidth: int, long: Option<string>): (w: int)
    ensures long.None? ==> w == width
    ensures long.Some? ==> w >= width && (w == width || w == (if |long.value| <= maxWidth then |long.value| else maxWidth))
    ensures long.Some? && |long.value| <= maxWidth ==> w >= |long.value|
    ensures maxWidth >= 0 && width <= maxWidth ==> w <= maxWidth
    ensures long.Some? ==> w >= (if |long.value| <= maxWidth then |long.value| else maxWidth)
  {
    match long
    case None => width
    case Some(name) =>
      var len := if |name| > maxWidth then maxWidth else |name|;
      if len > width then len else width
  }

  /** `_argparse_add`: append one descriptor, widen the column, set the bitmap bits. */
  function Add(ctx: Context, id: int, short: char, long: Option<string>, desc: Option<string>, kind: Kind): (r: Result<Context>)
    requires IsByte(short) && |ctx.shortBitmap| == BITMAP_BYTES && |ctx.shortValueBitmap| == BITMAP_BYTES
    ensures short == '\0' && long.None? <==> r == Abort(NoNames)
    ensures (short != '\0' || long.Some?) && |ctx.args| >= ctx.argsCap <==> r == Abort(TableFull)
    ensures r.Ok? ==> r.value.args == ctx.args + [ArgInfo(long, desc, id, kind, short)]
    ensures r.Ok? ==> |r.value.shortBitmap| == BITMAP_BYTES && |r.value.shortValueBitmap| == BITMAP_BYTES
    ensures r.Ok? ==> r.value.longNameWidth == Widen(ctx.longNameWidth, ctx.longNameMaxWidth, long)
    ensures r.Ok? ==> forall c: char | IsByte(c) ::
      && (TestBit(r.value.shortBitmap, c) <==> TestBit(ctx.shortBitmap, c) || (c == short && short != '\0'))
      && (TestBit(r.value.shortValueBitmap, c) <==> TestBit(ctx.shortValueBitmap, c) || (c == short && short != '\0' && kind != Void))
    ensures r.Ok? ==> r.value.(args := ctx.args, longNameWidth := ctx.longNameWidth,
                               shortBitmap := ctx.shortBitmap, shortValueBitmap := ctx.shortValueBitmap) == ctx
  {
    if short == '\0' && long.None? then Abort(NoNames)
    else if |ctx.args| >= ctx.argsCap then Abort(TableFull)
    else
      var arg := ArgInfo(long, desc, id, kind, short);
      var sb := if short != '\0' then SetBit(ctx.shortBitmap, short) else ctx.shortBitmap;
      var svb := if short != '\0' && kind != Void then SetBit(ctx.shortValueBitmap, short) else ctx.shortValueBitmap;
      Ok(ctx.(args := ctx.args + [arg],
              longNameWidth := Widen(ctx.longNameWidth, ctx.longNameMaxWidth, long),
              shortBitmap := sb,
              shortValueBitmap := svb))
  }

  /** Registration keeps the bitmaps in step with the table and the column under its cap. */
  lemma AddPreservesValid(ctx: Context, id: int, short: char, long: Option<string>, desc: Option<string>, kind: Kind)
    requires Valid(ctx) && IsByte(short) && !IsSpecial(id)
    requires long.Some? ==> IsCString(long.value)
    requires desc.Some? ==> IsCString(desc.value)
    requires Add(ctx, id, short, long, desc, kind).Ok?
    ensures Valid(Add(ctx, id, short, long, desc, kind).value)
  {
    var ctx' := Add(ctx, id, short, long, desc, kind).value;
    var n := |ctx.args|;
    forall c: char | IsByte(c) && c != '\0'
      ensures TestBit(ctx'.shortBitmap, c) <==> Registered(ctx'.args, c)
      ensures TestBit(ctx'.shortValueBitmap, c) <==> RegisteredWithValue(ctx'.args, c)
    {
      if Registered(ctx.args, c) {
        var i :| 0 <= i < n && ctx.args[i].shortName == c;
        assert ctx'.args[i] == ctx.args[i];
      }
      if RegisteredWithValue(ctx.args, c) {
        var i :| 0 <= i < n && ctx.args[i].shortName == c && ctx.args[i].kind != Void;
        assert ctx'.args[i] == ctx.args[i];
      }
      if Registered(ctx'.args, c) {
        var i :| 0 <= i < n + 1 && ctx'.args[i].shortName == c;
        if i < n { assert ctx.args[i] == ctx'.args[i]; }
      }
      if RegisteredWithValue(ctx'.args, c) {
        var i :| 0 <= i < n + 1 && ctx'.args[i].shortName == c && ctx'.args[i].kind != Void;
        if i < n { assert ctx.args[i] == ctx'.args[i]; }
      }
      assert ctx'.args[n].shortName == short;
    }
  }

  /** Bits are only ever set: whatever was a short option before registration still is. */
  lemma AddKeepsShortOptions(ctx: Context, id: int, short: char, long: Option<string>, desc: Option<string>, kind: Kind, c: char)
    requires IsByte(short) && IsByte(c) && |ctx.shortBitmap| == BITMAP_BYTES && |ctx.shortValueBitmap| == BITMAP_BYTES
    requires Add(ctx, id, short, long, desc, kind).Ok?
    ensures HasShortOption(ctx, c) ==> HasShortOption(Add(ctx, id, short, long, desc, kind).value, c)
    ensures ShortOptionExpectsValue(ctx, c) ==> ShortOptionExpectsValue(Add(ctx, id, short, long, desc, kind).value, c)
  {
  }
}
