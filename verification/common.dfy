/**
 Shared vocabulary of the argument parser: the special state codes the
 parsing loop passes around, the encoding of handler ids, C-string helpers
 and the result type used for the places where the C code calls abort().
 */
module Common {

  datatype Option<+T> = None | Some(value: T)

  /** Why the process would stop in abort(). */
  datatype Fault =
    | NoNames          // a descriptor with neither a short nor a long name
    | TableFull        // more registrations than were counted
    | NoHandlers       // no argument handlers and no catchall
    | CountMismatch    // registration pass did not fill the table
    | Impossible       // a lookup that the bitmaps promised would succeed
    | WrongValueType   // a typed handler read a value of another type
    | TooManyShorts    // more than 256 short names when printing help

  /** Either a value, or the process aborted. */
  datatype Result<+T> = Ok(value: T) | Abort(fault: Fault)

  // Special values of the state code `_arg`.
  const COUNT: int := 0
  const INIT: int := 1
  const ERROR: int := 2
  const END: int := 3
  const OTHER: int := 4

  /** `EXIT_FAILURE` from <stdlib.h>. */
  const EXIT_FAILURE: int := 1

  /** Handler ids are shifted left by this many bits. */
  const NORMAL_SHIFT: nat := 3

  /** Default cap on the long-name column of the help text. */
  const LONG_ARG_MAX_WIDTH: int := 30

  predicate IsSpecial(code: int) {
    COUNT <= code <= OTHER
  }

  /** `_arg_make_id(v)`: `((v << 1) | 1) << 3`, written arithmetically. */
  function MakeId(v: nat): (id: int)
    ensures id % 8 == 0 && (id / 8) % 2 == 1
    ensures !IsSpecial(id)
    ensures id > OTHER
  {
    var odd := 2 * v + 1;
    assert odd * 8 == 8 * odd && (8 * odd) / 8 == odd && (8 * odd) % 8 == 0 && odd % 2 == 1;
    odd * 8
  }

  lemma MakeIdInjective(v: nat, w: nat)
    ensures MakeId(v) == MakeId(w) <==> v == w
  {
  }

  /** A character that fits in one C `char`. */
  predicate IsByte(c: char) {
    c as int < 256
  }

  /** A C string: bytes only, no embedded NUL. */
  predicate IsCString(s: string) {
    forall i | 0 <= i < |s| :: s[i] != '\0' && IsByte(s[i])
  }

  /** Reading `s[i]` of a NUL-terminated string: past the end reads the terminator. */
  function At(s: string, i: nat): (c: char)
    ensures i < |s| ==> c == s[i]
    ensures i >= |s| ==> c == '\0'
  {
    if i < |s| then s[i] else '\0'
  }

  /** `strchr(s, c)` as an index. */
  function IndexOf(s: string, c: char): (r: Option<nat>)
    ensures r.Some? ==> r.value < |s| && s[r.value] == c
    ensures r.Some? ==> forall j | 0 <= j < r.value :: s[j] != c
    ensures r.None? ==> forall j | 0 <= j < |s| :: s[j] != c
  {
    if |s| == 0 then None
    else if s[0] == c then Some(0)
    else match IndexOf(s[1..], c)
      case None => None
      case Some(k) => Some(k + 1)
  }

  function Spaces(n: int): (s: string)
    ensures |s| == if n < 0 then 0 else n
    ensures forall i | 0 <= i < |s| :: s[i] == ' '
    decreases n
  {
    if n <= 0 then "" else " " + Spaces(n - 1)
  }

  /** Concatenation regroups freely. */
  lemma ConcatAssoc(a: string, b: string, c: string)
    ensures a + b + c == a + (b + c)
  {
  }
}
