/**
 `_argparse_help` as a pure function returning the text it prints: a usage
 line listing the short options in `charcmp` order, then one row per
 registered argument with a padded long-name column and a type hint.
 */
module Help {
  import opened Common
  import opened Registry

  /** `toupper` in the "C" locale. */
  function ToUpper(c: char): char {
    if 'a' <= c <= 'z' then (c as int - 32) as char else c
  }

  /** `charcmp`: case-insensitive, and on a tie the upper-case letter first. */
  function CharCmp(x: char, y: char): (r: int)
    ensures r == 0 <==> x == y
    ensures r < 0 <==> ToUpper(x) < ToUpper(y) || (ToUpper(x) == ToUpper(y) && x < y)
  {
    var diff := ToUpper(x) as int - ToUpper(y) as int;
    if diff != 0 then diff else x as int - y as int
  }

  /** `charcmp` is a strict total order: it is zero only on equal characters and antisymmetric. */
  lemma CharCmpIsTotalOrder(x: char, y: char, z: char)
    ensures CharCmp(x, y) == 0 <==> x == y
    ensures CharCmp(x, y) < 0 <==> CharCmp(y, x) > 0
    ensures CharCmp(x, y) <= 0 && CharCmp(y, z) <= 0 ==> CharCmp(x, z) <= 0
  {
  }

  predicate Sorted(s: seq<char>) {
    forall i, j | 0 <= i < j < |s| :: CharCmp(s[i], s[j]) <= 0
  }

  /** `x` sorts no later than any character of `s`. */
  predicate FirstOf(x: char, s: seq<char>) {
    forall j | 0 <= j < |s| :: CharCmp(x, s[j]) <= 0
  }

  lemma FirstOfSorted(x: char, s: seq<char>)
    requires Sorted(s) && |s| > 0 && CharCmp(x, s[0]) <= 0
    ensures FirstOf(x, s)
  {
    forall j | 0 <= j < |s| ensures CharCmp(x, s[j]) <= 0 {
      CharCmpIsTotalOrder(x, s[0], s[j]);
    }
  }

  lemma SortedTail(s: seq<char>)
    requires Sorted(s) && |s| > 0
    ensures Sorted(s[1..]) && FirstOf(s[0], s[1..])
  {
    forall i, j | 0 <= i < j < |s| - 1 ensures CharCmp(s[1..][i], s[1..][j]) <= 0 {
      assert s[1..][i] == s[i + 1] && s[1..][j] == s[j + 1];
    }
  }

  /** A sorted sequence stays sorted behind a character that sorts no later than all of it. */
  lemma SortedCons(x: char, s: seq<char>)
    requires Sorted(s) && FirstOf(x, s)
    ensures Sorted([x] + s)
  {
    var t := [x] + s;
    forall i, j | 0 <= i < j < |t| ensures CharCmp(t[i], t[j]) <= 0 {
      assert t[j] == s[j - 1];
      if i > 0 { assert t[i] == s[i - 1]; }
    }
  }

  lemma FirstOfPermutation(x: char, s: seq<char>, t: seq<char>)
    requires FirstOf(x, s) && multiset(t) == multiset(s)
    ensures FirstOf(x, t)
  {
    forall k | 0 <= k < |t| ensures CharCmp(x, t[k]) <= 0 {
      assert t[k] in multiset(s);
    }
  }

  /** Putting the head of `s` in front of the insertion into its tail keeps the order. */
  lemma InsertBehind(c: char, s: seq<char>, r: seq<char>)
    requires Sorted(s) && |s| > 0 && CharCmp(c, s[0]) > 0
    requires Sorted(r) && multiset(r) == multiset(s[1..]) + multiset{c}
    ensures Sorted([s[0]] + r)
    ensures multiset([s[0]] + r) == multiset(s) + multiset{c}
  {
    assert s == [s[0]] + s[1..];
    SortedTail(s);
    CharCmpIsTotalOrder(s[0], c, c);
    assert FirstOf(s[0], s[1..] + [c]);
    assert multiset(r) == multiset(s[1..] + [c]);
    FirstOfPermutation(s[0], s[1..] + [c], r);
    SortedCons(s[0], r);
  }

  function Insert(c: char, s: seq<char>): (r: seq<char>)
    requires Sorted(s)
    ensures Sorted(r)
    ensures multiset(r) == multiset(s) + multiset{c}
    ensures |r| == |s| + 1
  {
    if |s| == 0 then [c]
    else if CharCmp(c, s[0]) <= 0 then
      FirstOfSorted(c, s);
      SortedCons(c, s);
      [c] + s
    else
      SortedTail(s);
      var r' := Insert(c, s[1..]);
      InsertBehind(c, s, r');
      [s[0]] + r'
  }

  /** The `qsort` of the short names: a permutation in `charcmp` order. */
  function Sort(s: seq<char>): (r: seq<char>)
    ensures Sorted(r)
    ensures multiset(r) == multiset(s)
    ensures |r| == |s|
  {
    if |s| == 0 then []
    else
      assert s == s[..|s| - 1] + [s[|s| - 1]];
      Insert(s[|s| - 1], Sort(s[..|s| - 1]))
  }

  /** Sorted arrangements of the same characters start with the same one. */
  lemma SameHead(a: seq<char>, b: seq<char>)
    requires Sorted(a) && Sorted(b) && multiset(a) == multiset(b) && |a| > 0
    ensures |b| > 0 && a[0] == b[0]
  {
    assert a[0] in multiset(b);
    var i :| 0 <= i < |b| && b[i] == a[0];
    assert b[0] in multiset(a);
    var j :| 0 <= j < |a| && a[j] == b[0];
    CharCmpIsTotalOrder(a[0], b[0], a[0]);
  }

  /** Two sorted arrangements of the same characters are the same sequence. */
  lemma {:induction false} SortedUnique(a: seq<char>, b: seq<char>)
    requires Sorted(a) && Sorted(b) && multiset(a) == multiset(b)
    ensures a == b
    decreases |a|
  {
    if |a| == 0 {
      assert |b| == |multiset(b)| == 0;
    } else {
      SameHead(a, b);
      assert a == [a[0]] + a[1..] && b == [b[0]] + b[1..];
      assert multiset(a) == multiset{a[0]} + multiset(a[1..]);
      assert multiset(b) == multiset{b[0]} + multiset(b[1..]);
      assert multiset(a[1..]) == multiset(a) - multiset{a[0]};
      assert multiset(b[1..]) == multiset(b) - multiset{b[0]};
      SortedTail(a);
      SortedTail(b);
      SortedUnique(a[1..], b[1..]);
    }
  }

  /** The short names in registration order, skipping descriptors without one. */
  function ShortNames(args: seq<ArgInfo>): (s: seq<char>)
    ensures |s| <= |args|
    ensures |s| == |set i | 0 <= i < |args| && args[i].shortName != '\0'|
    ensures forall k | 0 <= k < |s| :: s[k] != '\0'
    ensures forall c | c != '\0' :: c in s <==> Registered(args, c)
  {
    if |args| == 0 then []
    else
      var n := |args| - 1;
      var init := args[..n];
      var rest := ShortNames(init);
      var last := args[n];
      assert forall i | 0 <= i < |init| :: init[i] == args[i];
      var named := set i | 0 <= i < |init| && init[i].shortName != '\0';
      assert n !in named;
      assert (set i | 0 <= i < |args| && args[i].shortName != '\0')
          == named + (if last.shortName != '\0' then {n} else {});
      if last.shortName != '\0' then rest + [last.shortName] else rest
  }

  /** Each short name appears in the collected list once per descriptor that carries it. */
  lemma {:induction false} ShortNamesCount(args: seq<ArgInfo>, c: char)
    requires c != '\0'
    ensures multiset(ShortNames(args))[c] == |set i | 0 <= i < |args| && args[i].shortName == c|
    decreases |args|
  {
    if |args| != 0 {
      var n := |args| - 1;
      var init := args[..n];
      var last := args[n];
      ShortNamesCount(init, c);
      assert forall i | 0 <= i < |init| :: init[i] == args[i];
      var carrying := set i | 0 <= i < |init| && init[i].shortName == c;
      assert n !in carrying;
      assert (set i | 0 <= i < |args| && args[i].shortName == c)
          == carrying + (if last.shortName == c then {n} else {});
      if last.shortName != '\0' {
        assert ShortNames(args) == ShortNames(init) + [last.shortName];
      }
    }
  }

  /** `Usage: <argv[0]> [-<sorted shorts>] [...]` and its line break. */
  function UsageLine(prog: string, shorts: seq<char>): (r: string)
    ensures |r| == 7 + |prog| + (if |shorts| > 0 then 3 + |shorts| + 1 else 0) + 7
    ensures r[..7 + |prog|] == "Usage: " + prog
    ensures |shorts| == 0 ==> r[7 + |prog|..] == " [...]\n"
    ensures |shorts| > 0 ==>
      && r[7 + |prog|..10 + |prog|] == " [-"
      && Sorted(r[10 + |prog|..10 + |prog| + |shorts|])
      && multiset(r[10 + |prog|..10 + |prog| + |shorts|]) == multiset(shorts)
      && r[10 + |prog| + |shorts|..] == "] [...]\n"
    ensures OneLine(prog) && OneLine(shorts) ==> CountLines(r) == 1
  {
    if |shorts| == 0 then
      var r := "Usage: " + prog + " [...]\n";
      BareUsageOneLine(prog);
      r
    else
      var sorted := Sort(shorts);
      var head := "Usage: " + prog + " [-";
      var r := head + sorted + "] [...]\n";
      assert r[..7 + |prog|] == head[..7 + |prog|] == "Usage: " + prog;
      assert r[7 + |prog|..10 + |prog|] == head[7 + |prog|..] == " [-";
      assert r[10 + |prog|..10 + |prog| + |shorts|] == sorted;
      assert r[10 + |prog| + |shorts|..] == "] [...]\n";
      if OneLine(shorts) then SortIsOneLine(shorts); ShortsUsageOneLine(prog, sorted); r
      else r
  }

  lemma BareUsageOneLine(prog: string)
    ensures OneLine(prog) ==> CountLines("Usage: " + prog + " [...]\n") == 1
  {
    if OneLine(prog) {
      assert " [...]\n" == " [...]" + "\n";
      assert "Usage: " + prog + " [...]\n" == "Usage: " + prog + " [...]" + "\n";
      LineOfThree("Usage: ", prog, " [...]");
    }
  }

  lemma ShortsUsageOneLine(prog: string, sorted: seq<char>)
    requires OneLine(sorted)
    ensures OneLine(prog) ==> CountLines("Usage: " + prog + " [-" + sorted + "] [...]\n") == 1
  {
    if OneLine(prog) {
      var head := "Usage: " + prog + " [-";
      OneLineConcat("Usage: ", prog);
      OneLineConcat("Usage: " + prog, " [-");
      assert "] [...]\n" == "] [...]" + "\n";
      assert head + sorted + "] [...]\n" == head + sorted + "] [...]" + "\n";
      LineOfThree(head, sorted, "] [...]");
    }
  }

  /** `--name` left-justified to `width` columns, never truncated. */
  function PadRight(s: string, width: int): (r: string)
    ensures |r| == if |s| >= width then |s| else width
    ensures r[..|s|] == s
    ensures forall k | |s| <= k < |r| :: r[k] == ' '
  {
    s + Spaces(width - |s|)
  }

  /** The short and long name columns of a row: four spaces, `-c`, then `, --name` padded. */
  function NameColumns(a: ArgInfo, width: int): (r: string)
    requires width >= 0
    ensures a.longName.None? || |a.longName.value| <= width ==> |r| == 10 + width
    ensures a.longName.Some? && |a.longName.value| > width ==> |r| == 10 + |a.longName.value|
    ensures r[..4] == "    "
    ensures r[4..6] == if a.shortName != '\0' then ['-', a.shortName] else "  "
    ensures a.longName.Some? ==>
      && r[6..8] == (if a.shortName != '\0' then ", " else "  ")
      && r[8..10 + |a.longName.value|] == "--" + a.longName.value
    ensures forall k | (if a.longName.Some? then 10 + |a.longName.value| else 6) <= k < |r| :: r[k] == ' '
  {
    var short := if a.shortName != '\0' then ['-', a.shortName] else "  ";
    match a.longName
    case Some(l) =>
      var sep := if a.shortName != '\0' then ", " else "  ";
      var p := PadRight(l, width);
      var r := "    " + short + sep + "--" + p;
      assert r[..4] == "    " && r[4..6] == short && r[6..8] == sep;
      assert r[8..10 + |l|] == "--" + p[..|l|];
      r
    case None =>
      var r := "    " + short + Spaces(2 + 2 + width);
      assert r[..4] == "    " && r[4..6] == short;
      r
  }

  /** `  [int]` or `  [string]` after a typed option; nothing after a Void one. */
  function TypeHint(k: Kind): string {
    match k
    case Int => "  [int]"
    case Str => "  [string]"
    case Void => ""
  }

  /** Number of 1 or 2 spaces between the type column and the description. */
  function Gap(k: Kind): (n: nat)
    ensures n == if k == Void then 2 else 1
  {
    match k
    case Void => 2
    case _ => 1
  }

  /**
   One option row: the name columns, the type hint right after them, the
   description after a gap, and the line break.
   */
  function Row(a: ArgInfo, width: int): (r: string)
    requires width >= 0
    ensures var names := NameColumns(a, width); var hint := TypeHint(a.kind);
      && |r| > |names| + |hint|
      && r[..|names|] == names
      && r[|names|..|names| + |hint|] == hint
      && r[|r| - 1] == '\n'
      && (a.description.None? ==> |r| == |names| + |hint| + 1)
      && (a.description.Some? ==>
            && |r| == |names| + |hint| + Gap(a.kind) + |a.description.value| + 1
            && r[|names| + |hint|..|names| + |hint| + Gap(a.kind)] == Spaces(Gap(a.kind))
            && r[|r| - 1 - |a.description.value|..|r| - 1] == a.description.value)
  {
    var names := NameColumns(a, width);
    var hint := TypeHint(a.kind);
    match a.description
    case Some(d) =>
      var r := names + hint + Spaces(Gap(a.kind)) + d + "\n";
      FiveParts(names, hint, Spaces(Gap(a.kind)), d, "\n");
      r
    case None =>
      var r := names + hint + "\n";
      FiveParts(names, hint, "", "", "\n");
      assert names + hint + "" + "" + "\n" == r;
      r
  }

  /** Where each part of a five-part concatenation sits in the whole. */
  lemma FiveParts(a: string, b: string, c: string, d: string, e: string)
    ensures var r := a + b + c + d + e;
      && |r| == |a| + |b| + |c| + |d| + |e|
      && r[..|a|] == a
      && r[|a|..|a| + |b|] == b
      && r[|a| + |b|..|a| + |b| + |c|] == c
      && r[|a| + |b| + |c|..|a| + |b| + |c| + |d|] == d
      && r[|a| + |b| + |c| + |d|..] == e
  {
    var r := a + b + c + d + e;
    assert r[..|a|] == a;
    assert r[|a|..|a| + |b|] == b;
    assert r[|a| + |b|..|a| + |b| + |c|] == c;
    assert r[|a| + |b| + |c|..|a| + |b| + |c| + |d|] == d;
    assert r[|a| + |b| + |c| + |d|..] == e;
  }

  /** The column where a descriptor's description starts when its long name fits the column. */
  function DescriptionColumn(k: Kind, width: int): int {
    10 + width + |TypeHint(k)| + Gap(k)
  }

  /**
   Every row whose long name fits the column puts its description at the same
   place for the same type: two spaces after the names for a flag, after
   `  [int] ` or `  [string] ` for a typed option.
   */
  lemma RowsAlign(a: ArgInfo, width: int)
    requires width >= 0 && a.description.Some?
    requires a.longName.None? || |a.longName.value| <= width
    ensures var r := Row(a, width);
      && DescriptionColumn(a.kind, width) + |a.description.value| + 1 == |r|
      && r[DescriptionColumn(a.kind, width)..|r| - 1] == a.description.value
    ensures DescriptionColumn(Void, width) == 12 + width
    ensures DescriptionColumn(Int, width) == 18 + width
    ensures DescriptionColumn(Str, width) == 21 + width
  {
  }

  /** The option rows, in registration order. */
  function Rows(args: seq<ArgInfo>, width: int): (r: string)
    requires width >= 0
    ensures |args| == 0 <==> r == ""
    ensures |args| == 1 ==> r == Row(args[0], width)
  {
    if |args| == 0 then "" else Rows(args[..|args| - 1], width) + Row(args[|args| - 1], width)
  }

  /** The rows of two tables one after the other are the rows of the joined table. */
  lemma {:induction false} RowsAppend(a: seq<ArgInfo>, b: seq<ArgInfo>, width: int)
    requires width >= 0
    ensures Rows(a + b, width) == Rows(a, width) + Rows(b, width)
    decreases |b|
  {
    if |b| == 0 {
      assert a + b == a;
    } else {
      var init, last := b[..|b| - 1], b[|b| - 1];
      assert (a + b)[..|a + b| - 1] == a + init;
      assert (a + b)[|a + b| - 1] == last;
      RowsAppend(a, init, width);
      ConcatAssoc(Rows(a, width), Rows(init, width), Row(last, width));
    }
  }

  function CountLines(s: string): nat {
    if |s| == 0 then 0 else CountLines(s[..|s| - 1]) + (if s[|s| - 1] == '\n' then 1 else 0)
  }

  lemma {:induction false} CountLinesAppend(s: string, t: string)
    ensures CountLines(s + t) == CountLines(s) + CountLines(t)
    decreases |t|
  {
    if |t| == 0 {
      assert s + t == s;
    } else {
      assert (s + t)[..|s + t| - 1] == s + t[..|t| - 1];
      CountLinesAppend(s, t[..|t| - 1]);
    }
  }

  lemma {:induction false} NoLines(s: string)
    requires forall k | 0 <= k < |s| :: s[k] != '\n'
    ensures CountLines(s) == 0
    decreases |s|
  {
    if |s| > 0 {
      NoLines(s[..|s| - 1]);
    }
  }

  predicate OneLine(s: string) {
    forall k | 0 <= k < |s| :: s[k] != '\n'
  }

  /** A descriptor whose names and description hold no line break. */
  predicate PrintsOnOneLine(a: ArgInfo) {
    && OneLine([a.shortName])
    && (a.longName.Some? ==> OneLine(a.longName.value))
    && (a.description.Some? ==> OneLine(a.description.value))
  }

  lemma NamesAreOneLine(a: ArgInfo, width: int)
    requires width >= 0 && PrintsOnOneLine(a)
    ensures OneLine(NameColumns(a, width))
  {
    var names := NameColumns(a, width);
    assert a.shortName != '\n' by { assert [a.shortName][0] == a.shortName; }
    forall k | 0 <= k < |names| ensures names[k] != '\n' {
      if k < 4 {
        assert names[k] == names[..4][k];
      } else if k < 6 {
        assert names[k] == names[4..6][k - 4];
      } else if a.longName.Some? && k < 8 {
        assert names[k] == names[6..8][k - 6];
      } else if a.longName.Some? && k < 10 + |a.longName.value| {
        assert names[k] == names[8..10 + |a.longName.value|][k - 8];
        assert ("--" + a.longName.value)[k - 8] != '\n' by {
          if k >= 10 { assert ("--" + a.longName.value)[k - 8] == a.longName.value[k - 10]; }
        }
      }
    }
  }

  lemma SpacesAreOneLine(n: int)
    ensures OneLine(Spaces(n))
  {
  }

  lemma RowIsOneLine(a: ArgInfo, width: int)
    requires width >= 0 && PrintsOnOneLine(a)
    ensures CountLines(Row(a, width)) == 1
  {
    var names := NameColumns(a, width);
    var hint := TypeHint(a.kind);
    NamesAreOneLine(a, width);
    assert OneLine(hint);
    OneLineConcat(names, hint);
    match a.description
    case Some(d) =>
      SpacesAreOneLine(Gap(a.kind));
      OneLineConcat(names + hint, Spaces(Gap(a.kind)));
      OneLineConcat(names + hint + Spaces(Gap(a.kind)), d);
      EndsOneLine(names + hint + Spaces(Gap(a.kind)) + d);
    case None =>
      EndsOneLine(names + hint);
  }

  /** A line break after text without one makes one line. */
  lemma EndsOneLine(body: string)
    requires OneLine(body)
    ensures CountLines(body + "\n") == 1
  {
    NoLines(body);
    CountLinesAppend(body, "\n");
  }

  /** The option list prints exactly one line per registered descriptor. */
  lemma {:induction false} RowsLineCount(args: seq<ArgInfo>, width: int)
    requires width >= 0
    requires forall i | 0 <= i < |args| :: PrintsOnOneLine(args[i])
    ensures CountLines(Rows(args, width)) == |args|
    decreases |args|
  {
    if |args| > 0 {
      RowsLineCount(args[..|args| - 1], width);
      RowIsOneLine(args[|args| - 1], width);
      CountLinesAppend(Rows(args[..|args| - 1], width), Row(args[|args| - 1], width));
    }
  }

  /**
   The help text of a context; the C code aborts when more than 256 short
   names would not fit its buffer.
   */
  function HelpText(ctx: Context): (r: Result<string>)
    requires |ctx.argv| > 0 && ctx.longNameWidth >= 0
    ensures r.Abort? <==> |ShortNames(ctx.args)| > 256
    ensures r.Abort? ==> r.fault == TooManyShorts
    ensures r.Ok? ==> |r.value| > 7 + |ctx.argv[0]| && r.value[..7 + |ctx.argv[0]|] == "Usage: " + ctx.argv[0]
    ensures r.Ok? ==> r.value == UsageLine(ctx.argv[0], ShortNames(ctx.args)) + "Options:\n" + Rows(ctx.args, ctx.longNameWidth)
  {
    var shorts := ShortNames(ctx.args);
    if |shorts| > 256 then Abort(TooManyShorts)
    else
      var u := UsageLine(ctx.argv[0], shorts);
      var rest := "Options:\n" + Rows(ctx.args, ctx.longNameWidth);
      PrefixKept(u, rest, 7 + |ctx.argv[0]|);
      Ok(u + rest)
  }

  lemma PrefixKept(u: string, t: string, k: nat)
    requires k <= |u|
    ensures (u + t)[..k] == u[..k]
  {
  }

  lemma OneLineConcat(s: string, t: string)
    requires OneLine(s) && OneLine(t)
    ensures OneLine(s + t)
  {
    forall k | 0 <= k < |s + t| ensures (s + t)[k] != '\n' {
      if k < |s| { assert (s + t)[k] == s[k]; } else { assert (s + t)[k] == t[k - |s|]; }
    }
  }

  /** The sorted short names keep the property of holding no line break. */
  lemma SortIsOneLine(shorts: seq<char>)
    requires OneLine(shorts)
    ensures OneLine(Sort(shorts))
  {
    var sorted := Sort(shorts);
    forall k | 0 <= k < |sorted| ensures sorted[k] != '\n' {
      assert sorted[k] in multiset(shorts);
    }
  }

  /** Three pieces without a line break, then one: a single line. */
  lemma LineOfThree(a: string, b: string, c: string)
    requires OneLine(a) && OneLine(b) && OneLine(c)
    ensures CountLines(a + b + c + "\n") == 1
  {
    OneLineConcat(a, b);
    OneLineConcat(a + b, c);
    EndsOneLine(a + b + c);
  }

  /**
   A usable help text is the usage line, the `Options:` line and one line per
   descriptor, provided program name and descriptors hold no line break.
   */
  lemma HelpLineCount(ctx: Context)
    requires |ctx.argv| > 0 && ctx.longNameWidth >= 0
    requires OneLine(ctx.argv[0])
    requires forall i | 0 <= i < |ctx.args| :: PrintsOnOneLine(ctx.args[i])
    ensures HelpText(ctx).Ok? ==> CountLines(HelpText(ctx).value) == |ctx.args| + 2
  {
    if HelpText(ctx).Ok? {
      var shorts := ShortNames(ctx.args);
      ShortNamesOneLine(ctx.args);
      var u := UsageLine(ctx.argv[0], shorts);
      var rows := Rows(ctx.args, ctx.longNameWidth);
      assert HelpText(ctx).value == u + "Options:\n" + rows;
      OptionsIsOneLine();
      CountLinesAppend(u, "Options:\n");
      RowsLineCount(ctx.args, ctx.longNameWidth);
      CountLinesAppend(u + "Options:\n", rows);
    }
  }

  lemma OptionsIsOneLine()
    ensures CountLines("Options:\n") == 1
  {
    NoLines("Options:");
    CountLinesAppend("Options:", "\n");
    assert "Options:" + "\n" == "Options:\n";
  }

  lemma ShortNamesOneLine(args: seq<ArgInfo>)
    requires forall i | 0 <= i < |args| :: PrintsOnOneLine(args[i])
    ensures OneLine(ShortNames(args))
  {
    var shorts := ShortNames(args);
    forall k | 0 <= k < |shorts| ensures shorts[k] != '\n' {
      assert shorts[k] in shorts;
      assert Registered(args, shorts[k]);
      var i :| 0 <= i < |args| && args[i].shortName == shorts[k];
      assert [args[i].shortName][0] == shorts[k];
    }
  }

  /**
   The short names of the example program, `h H t f o i s` in registration
   order, sort case-insensitively with the upper-case letter first on a tie.
   */
  lemma SortExample()
    ensures Sort("hHtfois") == "fHhiost"
  {
    ExampleNamesSorted();
    ExampleNamesPermuted();
    SortedUnique(Sort("hHtfois"), "fHhiost");
  }

  lemma ExampleNamesSorted()
    ensures Sorted("fHhiost")
  {
    var t := "fHhiost";
    forall i, j | 0 <= i < j < |t| ensures CharCmp(t[i], t[j]) <= 0 {
      CharCmpIsTotalOrder(t[i], t[j], t[j]);
    }
  }

  /**
   `hHtfois` becomes `fHhiost` by eight swaps of neighbours: each entry is
   a stage and the position swapped to reach the next one.
   */
  const ExampleSwaps: seq<(string, nat)> := [
    ("hHtfois", 0), ("Hhtfois", 2), ("Hhftois", 3), ("Hhfotis", 4), ("Hhfoits", 5),
    ("Hhfoist", 1), ("Hfhoist", 3), ("Hfhiost", 0), ("fHhiost", 0)]

  lemma ExampleSwap(k: nat)
    requires k + 1 < |ExampleSwaps|
    ensures multiset(ExampleSwaps[k].0) == multiset(ExampleSwaps[k + 1].0)
  {
    var (a, i) := ExampleSwaps[k];
    SwapAdjacent(a, ExampleSwaps[k + 1].0, i);
  }

  lemma ExampleNamesPermuted()
    ensures multiset("hHtfois") == multiset("fHhiost")
  {
    var j := 0;
    while j + 1 < |ExampleSwaps|
      invariant j < |ExampleSwaps|
      invariant multiset(ExampleSwaps[j].0) == multiset("hHtfois")
    {
      ExampleSwap(j);
      j := j + 1;
    }
  }

  /** Swapping two neighbouring characters keeps the multiset. */
  lemma SwapAdjacent(a: seq<char>, b: seq<char>, i: nat)
    requires i + 1 < |a| && b == a[..i] + [a[i + 1], a[i]] + a[i + 2..]
    ensures multiset(a) == multiset(b)
  {
    var p, x, y, q := a[..i], a[i], a[i + 1], a[i + 2..];
    assert a == p + [x, y] + q;
    assert multiset([x, y]) == multiset([y, x]);
  }

  /** With at least one short name the line shows them sorted. */
  lemma UsageLineWithShorts(prog: string, shorts: seq<char>)
    requires |shorts| > 0
    ensures UsageLine(prog, shorts) == "Usage: " + prog + " [-" + Sort(shorts) + "] [...]\n"
  {
  }

  /** The usage line the example program prints. */
  lemma UsageExample()
    ensures UsageLine("./example", "hHtfois") == "Usage: ./example [-fHhiost] [...]\n"
  {
    UsageLineWithShorts("./example", "hHtfois");
    SortExample();
    ExampleUsageSpelled();
  }

  lemma ExampleUsageSpelled()
    ensures "Usage: " + "./example" + " [-" + "fHhiost" + "] [...]\n" == "Usage: ./example [-fHhiost] [...]\n"
  {
  }
}
