# kjc_argparse in Dafny

kjc_argparse is a single-file C library for parsing command-line arguments.
It is built from macros. `ARGPARSE(argc, argv) { ... }` opens a loop whose
body is a `switch` on an argument code. Each handler in the body is a `case`:

- `ARG`, `ARG_INT` and `ARG_STRING` declare options;
- `ARG_POSITIONAL` catches everything unmatched;
- `ARG_END` runs once at the end.

The loop passes through the body several times:

1. A counting pass sizes the descriptor table.
2. A registration pass calls `_argparse_add` once for each option.
3. After that, each call to `_argparse_parse` reads one command-line token,
   or one character of a short-option group such as `-abc`. It returns the
   id of the matched option, OTHER for the catchall, ERROR, or END.

This project models that machinery as pure functions:

- the descriptor table and its two 256-bit short-option bitmaps (`Registry`);
- the `strtol(…, 0)` integer conversion the library relies on (`Strtol`);
- one parsing step (`Matcher`);
- the generated help text (`Help`);
- the whole `ARGPARSE` loop, with handlers given as a function from the
  event a handler sees to how the handler ends (`Driver`).

The facts modules prove:

- what one step does with each shape of token (`MatcherFacts`);
- how a run can end (`DriverFacts`);
- the consequences of one defect in the integer error path (`Findings`).

Characters are Dafny `char`s restricted to the byte range (`IsByte`), and C
strings are sequences without NUL (`IsCString`). Each `abort()` is an
`Abort(fault)` result. The faults are:

- `NoHandlers`: no handlers were declared;
- `NoNames`: an option has neither name;
- `TableFull`: the table is full;
- `CountMismatch`: the count does not match;
- `TooManyShorts`: more than 256 short names reach the help text;
- `WrongValueType`: a value of the wrong type reaches a handler;
- `Impossible`: a branch the library treats as unreachable.

Handler ids come from `_arg_make_id(__COUNTER__)`, and `__COUNTER__` is
modelled by each declaration's position in the body.

A short-option group that contains an unknown letter, or a letter that
takes a value anywhere but last, gives ERROR whether or not a catchall
exists (kjc_argparse.c:200-214). Only a single unmatched token goes to the
catchall (`MatcherFacts.Expected`, `MatcherFacts.GroupStep`).

## Model

| member | source | states |
|---|---|---|
| Common.MakeId | kjc_argparse.h:65 | every generated id is a multiple of 8 with bit 3 set, so it is never one of the five special codes |
| Common.MakeIdInjective | kjc_argparse.h:65 | two handlers get the same id exactly when they have the same counter value |
| Registry.Start | kjc_argparse.c:19-26 | a fresh context keeps argv and the width cap, has an empty table and clear bitmaps, and is valid |
| Registry.SetBit | kjc_argparse.c:67-76 | setting the bit of `c` marks `c` and leaves every other character's bit as it was |
| Registry.HasShortOptionIff | kjc_argparse.c:79-85 | on a valid context the bitmap queries answer exactly "some descriptor has this short name" and "some non-flag descriptor has it" |
| Registry.Widen | kjc_argparse.c:55-65 | the new column width is exactly the larger of the old width and the long name's length cut to the cap; without a long name it is unchanged |
| Registry.HasShortOption | kjc_argparse.c:79-85 | on a valid context the short-option bit of `c` is set exactly when `c` is not NUL and some descriptor has it as its short name |
| Registry.ShortOptionExpectsValue | kjc_argparse.c:79-85 | on a valid context the value bit of `c` is set exactly when `c` is not NUL and some descriptor that takes a value has it as its short name |
| Registry.Add | kjc_argparse.c:28-77 | registration aborts exactly when both names are missing, or else when the table is full; otherwise it appends exactly one descriptor, marks its short name in the bitmaps, and changes nothing else |
| Registry.AddPreservesValid | kjc_argparse.c:28-77 | registering keeps the bitmaps in step with the table and the column within its cap |
| Registry.AddKeepsShortOptions | kjc_argparse.c:67-76 | a short option known before registering is still known afterwards |
| Strtol.SkipSpace | kjc_argparse.c:298 | skips exactly the leading white space |
| Strtol.Span | kjc_argparse.c:298 | the digit run ends at the first character that is not a digit of the base |
| Strtol.StrtolBase0 | kjc_argparse.c:298 | with no digits the end position stays at the start; otherwise it stops after a digit and before any further octal digit |
| Strtol.ParseInt | kjc_argparse.c:295-312 | an integer value is accepted exactly when conversion consumes the whole string |
| Strtol.DigitsRoundTrip | kjc_argparse.c:298 | the digits of `n` in any base from 2 to 16 read back as `n` |
| Strtol.DecimalRoundTrip | kjc_argparse.c:298 | every integer written in decimal, with a sign when negative, is accepted and read back unchanged |
| Strtol.HexRoundTrip | kjc_argparse.c:298 | every integer written with a `0x` prefix is read back unchanged |
| Strtol.OctalRoundTrip | kjc_argparse.c:298 | every integer written with a leading `0` is read back as octal, unchanged |
| Strtol.HexExample | full_example.c:79-80 | `0x1F` reads as 31 |
| Strtol.NegativeExample | full_example.c:79-80 | `-10` reads as -10 |
| Strtol.OctalExample | full_example.c:79-80 | `010` reads as 8 |
| Strtol.SpaceExample | kjc_argparse.c:298 | leading white space is skipped |
| Strtol.BadOctalExample | kjc_argparse.c:298-299 | `08` is rejected because 8 is not an octal digit |
| Strtol.TrailingTextExample | kjc_argparse.c:298-299 | `12abc` is rejected |
| Strtol.NoDigitsExample | kjc_argparse.c:298-299 | `-` and `0x` are rejected |
| Strtol.EmptyIsZero | kjc_argparse.c:298-299 | an empty value string, as from `--opt=`, is accepted as 0 |
| Matcher.FindShort | kjc_argparse.c:180-187 | the scan finds the first descriptor with that short name, and finds none exactly when none is registered |
| Matcher.LongNameMatchesIff | kjc_argparse.c:254-258 | on C strings the `strncmp` test plus the terminator check means "the long name equals the text before `=`" |
| Matcher.FindLong | kjc_argparse.c:246-263 | the scan returns the first descriptor whose long name matches, and none when none matches |
| Matcher.GroupViolation | kjc_argparse.c:200-214 | reports the first group character that is not a short option, or that takes a value without being last; every character before it is acceptable |
| Matcher.Unmatched | kjc_argparse.c:266-277 | an unmatched token gives OTHER exactly when there is a catchall and ERROR otherwise, consuming the token and nothing else |
| Matcher.Finish | kjc_argparse.c:278-324 | a flag returns its id with no value; a typed option takes its value from `=…` or from the next token, and gives ERROR when there is none; a string is stored as is; an integer is stored when it parses, and otherwise the bad-integer code is returned with the context untouched |
| Matcher.FinishShort | kjc_argparse.c:176-192 | completing a short option aborts exactly when the character is not in the table |
| Matcher.Classify | kjc_argparse.c:168-264 | reading a token always moves past it and changes only the value fields |
| Matcher.ParseWithBadCode | kjc_argparse.c:295-311 | the bad-integer code changes nothing else: two steps that differ only in that code give the same result, except where the result is the code itself, with the same context and cursor |
| Matcher.Parse | kjc_argparse.c:87-333 | the step as written is the step that reports ERROR for an unparsable integer, except that it reports EXIT_FAILURE there |
| Matcher.ParseWith | kjc_argparse.c:87-333 | COUNT moves to INIT, or aborts with no handlers; INIT with an unfilled table aborts; END releases the table; every other step changes only the value fields and moves forward: to a later token, to a later group character, or to END |
| MatcherFacts.Shape | kjc_argparse.c:168-264 | each token class holds exactly when its test does: plain for fewer than two characters or no leading dash; short for a dash and one character, which is the letter; a group for a dash and at least two more characters, the first not a dash; long for `--` and at least one more character; a long option is `--name` or `--name=value`, and the name holds no `=` |
| MatcherFacts.LongOf | kjc_argparse.c:238-245 | splitting at the first `=` gives a name and value that rebuild the text |
| MatcherFacts.FirstLong | kjc_argparse.c:246-263 | a reference lookup: the first descriptor whose long name equals the name |
| MatcherFacts.FindLongIsFirstLong | kjc_argparse.c:246-263 | the library's long-name scan agrees with the reference lookup |
| MatcherFacts.PhaseSteps | kjc_argparse.c:96-132 | COUNT aborts exactly when no option and no catchall was counted, and otherwise moves to INIT; INIT aborts exactly on a count mismatch; END always succeeds, empties the table and keeps the cursor |
| MatcherFacts.ReadingNeverImpossible | kjc_argparse.c:134-264 | once registration is consistent, no reading step reaches one of the library's "cannot happen" aborts |
| MatcherFacts.GroupOrigin | kjc_argparse.c:197-234 | a pending group is only ever started from a token of group form that passed validation, with its cursor on its second letter |
| MatcherFacts.FreshGroupOk | kjc_argparse.c:197-234 | every character of a newly accepted group is a registered short option |
| MatcherFacts.StepPreservesReady | kjc_argparse.c:134-333 | a step keeps the table valid and any pending group validated |
| MatcherFacts.ShortStep | kjc_argparse.c:174-192 | on a `-x` token the step does what the reference says |
| MatcherFacts.GroupStep | kjc_argparse.c:197-234 | on a `-abc` token the step does what the reference says, including ERROR for a bad group even when there is a catchall |
| MatcherFacts.LongStep | kjc_argparse.c:235-264 | on a `--name[=value]` token the step does what the reference says |
| MatcherFacts.StepMatchesReference | kjc_argparse.c:155-333 | with no group pending, a reading step equals the reference decision from the token's shape alone, after the old value is cleared |
| MatcherFacts.PendingStep | kjc_argparse.c:134-153 | with a group pending, the step reports its next character's first descriptor, advances within the group, and does not touch the token cursor |
| MatcherFacts.CursorMoves | kjc_argparse.c:155-292 | with no group pending, a step returns END exactly when argv is exhausted; otherwise it consumes one token, or two only when the token is `-c` or `--name` without `=`, its first matching descriptor takes a value, and a next token exists |
| MatcherFacts.ExpectedMoves | kjc_argparse.c:278-292 | the reference never returns END and consumes one or two tokens, two only when the token is `-c` or `--name` without `=` naming an option that takes a value, and a next token exists |
| MatcherFacts.FinishFills | kjc_argparse.c:294-324 | completing an option either leaves the value alone or stores an integer or a string |
| MatcherFacts.FinishFits | kjc_argparse.c:294-324 | whenever a descriptor's id is returned, the stored value has that descriptor's type |
| MatcherFacts.CodeNamesDescriptor | kjc_argparse.c:87-333 | every non-special code a step returns is the id of a registered descriptor whose type matches the stored value |
| MatcherFacts.ClassifyCodes | kjc_argparse.c:168-264 | reading a token returns OTHER, ERROR, the bad-integer code, or a descriptor id |
| MatcherFacts.StepCodes | kjc_argparse.c:87-333 | a reading step returns END, OTHER, ERROR, the bad-integer code, or a descriptor id; so it returns COUNT or INIT only when that is the bad-integer code, and as written (EXIT_FAILURE) that code is INIT |
| Help.CharCmp | kjc_argparse.c:336-342 | the comparison is zero exactly on equal characters, and negative exactly when the upper-case forms are ordered, or equal with the first character smaller |
| Help.CharCmpIsTotalOrder | kjc_argparse.c:335-342 | `charcmp` is zero only on equal characters, antisymmetric, and transitive |
| Help.Sort | kjc_argparse.c:365 | the short names come out ordered by `charcmp`, as a permutation of the input |
| Help.SortedUnique | kjc_argparse.c:365 | any two `charcmp`-ordered permutations of the same characters are equal, so the `qsort` output is determined |
| Help.SortExample | full_example.c:10 | the example program's short names `hHtfois` sort as `fHhiost` |
| Help.ShortNames | kjc_argparse.c:349-358 | one name is collected for every descriptor that has a short name, never NUL, and a character is collected exactly when it is registered |
| Help.ShortNamesCount | kjc_argparse.c:349-358 | each character is collected as many times as there are descriptors with that short name |
| Help.UsageLine | kjc_argparse.c:360-371 | the usage line is `Usage: `, the program name, the sorted short names in `[-…]` when there are any, and ` [...]`; it is a single line when the program name and the names hold no line break |
| Help.UsageExample | full_example.c:10 | the example program, run as `./example`, prints `Usage: ./example [-fHhiost] [...]` |
| Help.NameColumns | kjc_argparse.c:377-403 | four spaces, then `-c` or two spaces, then `, --long` or padding, with the long name padded to the column width |
| Help.Row | kjc_argparse.c:374-428 | a row is the name columns, the type hint, a gap and the description, and ends with a newline |
| Help.RowsAlign | kjc_argparse.c:405-424 | when long names fit the column, every description of a given type starts in the same column: 12, 18 or 21 plus the width |
| Help.Rows | kjc_argparse.c:374-428 | there are no rows exactly when the table is empty, and a one-entry table gives that entry's row |
| Help.RowsAppend | kjc_argparse.c:374-428 | the rows follow table order: the rows of a joined table are the rows of the first part followed by those of the second |
| Help.RowsLineCount | kjc_argparse.c:374-428 | one line per descriptor when names and descriptions have no line breaks |
| Help.HelpText | kjc_argparse.c:344-429 | aborts exactly when more than 256 short names exist; otherwise the text is the usage line for `argv[0]` and the sorted short names, then `Options:`, then the rows of the table in order |
| Help.HelpLineCount | kjc_argparse.c:344-429 | when the program name, long names and descriptions hold no line break, the help has exactly two lines more than there are descriptors: the usage line, `Options:`, and one per descriptor |
| Driver.OptionCount | kjc_argparse.h:90-142 | the counting pass finds no options exactly when no option handler is declared |
| Driver.CountPass | kjc_argparse.h:90-142 | the counting pass adds one to the capacity per option handler and changes nothing else |
| Driver.RegisterOne | kjc_argparse.h:90-150 | an option handler's registration aborts exactly when it has no names or the table is full, and otherwise appends its descriptor; the catchall sets the flag |
| Driver.InitPass | kjc_argparse.h:90-150 | registration appends the declared options in order with ids from their positions; it can fail only for missing names or a full table |
| Driver.OptionFor | kjc_argparse.h:65-106 | finds the option handler whose id is the code, and none when no handler has it |
| Driver.Dispatch | kjc_argparse.h:60-62 | a code selects its option handler; otherwise END selects `ARG_END` when declared; otherwise the catchall is the `default:` and also receives END; with neither, nothing runs |
| Driver.EventFor | kjc_argparse.c:431-443 | a handler whose stored value has the wrong type aborts; every handler sees `ARGPARSE_INDEX()` as the cursor minus one |
| Driver.Handle | kjc_argparse.h:67-88 | a handler runs and is recorded; calling the help aborts with more than 256 short names; a `break` stops the loop |
| Driver.Body | kjc_argparse.h:33-62 | the COUNT and INIT passes run no handler; the other passes leave the table alone |
| Driver.Loop | kjc_argparse.h:33-62 | the loop ends having released the table whenever it finishes normally or through `break` |
| Driver.RunWith | kjc_argparse.h:33-62 | a whole `ARGPARSE` run with a given bad-integer code; a normal or `break` exit releases the table |
| Driver.Argparse | kjc_argparse.h:33-62 | a whole `ARGPARSE` run as written; a normal or `break` exit releases the table |
| Driver.ArgparseIntended | kjc_argparse.c:311 | a whole run with ERROR as the bad-integer code; a normal or `break` exit releases the table |
| DriverFacts.FirstRegistration | kjc_argparse.h:90-150 | when every option is named and the count matches, registration succeeds and yields a valid table |
| DriverFacts.UnnamedAborts | kjc_argparse.c:37-39 | registration aborts with NoNames whenever some option handler has neither name |
| DriverFacts.RegisterAgain | kjc_argparse.c:50-52 | on a full table, registering again aborts with TableFull as soon as there is one option |
| DriverFacts.TableEntries | kjc_argparse.h:90-142 | every table entry comes from an option declaration and carries its id |
| DriverFacts.NextState | kjc_argparse.c:87-333 | after registration, every reading step succeeds, keeps the table, and leads either to ERROR or to another consistent reading state |
| DriverFacts.HandlerGetsItsType | kjc_argparse.c:431-443 | after registration, a handler never meets a stored value of the wrong type |
| DriverFacts.ReadingFaults | kjc_argparse.h:33-62 | once reading starts, the only aborts are too many short names in the help, and a full table through the bad-integer defect; a failed run keeps the table |
| DriverFacts.CountIteration | kjc_argparse.c:96-114 | with no option handlers the run aborts with NoHandlers at once; otherwise it moves to registration |
| DriverFacts.InitIteration | kjc_argparse.c:125-132 | registration aborts with NoNames exactly when some option is unnamed, and otherwise leaves a consistent table |
| DriverFacts.RunFaults | kjc_argparse.h:33-62 | a whole run aborts with NoHandlers exactly when no option is declared, with NoNames exactly when some option is unnamed, and otherwise only with the reading-stage faults |
| DriverFacts.IntendedNeverRegistersTwice | kjc_argparse.c:311 | with ERROR as the bad-integer code, the only possible abort is too many short names |
| DriverFacts.GraceIteration | kjc_argparse.h:40-46 | the END iteration runs `ARG_END` with the index of the last argument, then releases the table and finishes |
| DriverFacts.EndReachesPositional | kjc_argparse.h:144-157 | without `ARG_END`, the END iteration runs the catchall with the last argument as its value |
| DriverFacts.NothingToRead | kjc_argparse.c:160-166 | with only the program name, the first reading step returns END at once |
| DriverFacts.ProgramNameAsPositional | kjc_argparse.c:160-166 | with only the program name, a catchall and no `ARG_END`, the catchall runs once, on the program name, at index 0 |
| DriverFacts.BreakSkipsRest | kjc_argparse.h:48-55 | a handler's `break` ends the run at once, after releasing the table |
| DriverFacts.ErrorStops | kjc_argparse.h:41 | a step that returns ERROR ends the run as Failed right after that body, without releasing the table |
| DriverFacts.ContinueIsNormal | kjc_argparse.h:67-88 | a handler ending in `continue` behaves exactly as one that falls off its end |
| Findings.ReRegistration | kjc_argparse.c:50-52 | an INIT iteration after registration aborts with TableFull before any handler runs |
| Findings.ExitFailureReRegisters | kjc_argparse.c:311 | as written, a step returning EXIT_FAILURE after registration aborts the run with TableFull |
| Findings.BadIntAborts | kjc_argparse.c:295-311 | as written, `prog -n 12abc` with an `ARG_INT('n', …)` handler aborts with TableFull and runs no handler |
| Findings.BadIntFails | kjc_argparse.c:295-311 | as intended, the same command line runs no handler and ends as Failed |

## Left out

- Output: everything `printf` writes is left out, including the error messages, the `ARGPARSE_SET_OUTPUT` stream, and the help printed before the bad-integer return (kjc_argparse.c:310). The help text is modelled as a value (`Help.HelpText`) that `ARGPARSE_HELP()` emits into the trace.
- Memory: `calloc`, `free` and `perror` are left out. A failed allocation is not modelled. Releasing the table is modelled as emptying it.
- Matcher.Finish: `strtol` saturation on overflow and the truncating `(int)` cast are not modelled, so integers are unbounded. Locale-dependent white space and digits are also not modelled. The help printed before the bad-integer return (kjc_argparse.c:310) is not modelled either. That includes its `abort()` when more than 256 descriptors have short names (kjc_argparse.c:353-354). In that case the model returns the bad-integer code where the library aborts.
- Help.CharCmp: compares characters as unsigned byte values. On a platform where `char` is signed, bytes above 127 would sort differently.
- Help.HelpText: the `uint16_t` loop counter is left out; it would wrap with more than 65535 descriptors. So is the missing NUL after a full 256-byte short-name buffer. The model prints exactly the collected names.
- `argc == 0` is not modelled: every run takes an argv holding at least the program name.
- Declarations: handler ids are positions in the body rather than `__COUNTER__` values. Two handlers with the same short name are allowed, but the model does not represent duplicate `case` labels, which C rejects at compile time.
- Code placed in the loop body outside any handler is not modelled.
- The `goto`/`switch` encoding of the macros is modelled by its effect, not its form.
- Driver.Handle: a handler is a function from the event it sees to how it ends and whether it asks for help. Side effects on program state are not modelled.
- `ARGPARSE_SET_OUTPUT` (kjc_argparse.h:174-178) only redirects output, so it is left out with the output.

## Findings

| source | as written | input that shows it | evidently intended | confidence | as-written member | corrected member |
|---|---|---|---|---|---|---|
| kjc_argparse.c:311 | When an integer value does not parse, the step returns `EXIT_FAILURE`, which is 1, the same value as `ARG_VALUE_INIT`. The loop reads it as INIT, runs the registration pass again on a full table, and `_argparse_add` aborts. | `prog -n 12abc` with the single handler `ARG_INT('n', NULL, NULL, n)` | return `ARG_VALUE_ERROR`, so that the loop ends like any other bad command line | not executed | Findings.BadIntAborts | Findings.BadIntFails |
