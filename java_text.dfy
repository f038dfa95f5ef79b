/**
 * Java text as the modelled code sees it.
 *
 * A Java `String` is a sequence of UTF-16 code units, so it is modelled as a
 * sequence of integers in [0, 0xFFFF] rather than as a Dafny `string` (a Dafny
 * `char` cannot hold a lone surrogate, which the STEP escape decoder produces).
 *
 * The Unicode-dependent parts of the Java library (`Character.isWhitespace`,
 * `isDigit`, `isLetter`, `isLetterOrDigit`, case-insensitive `regionMatches`,
 * `String.toUpperCase`/`toLowerCase` and `Double.parseDouble`) are not
 * reproduced: every operation that uses them receives a `JavaLib` value whose
 * fields stand for them, so nothing proved here depends on Unicode tables.
 */
module JavaText {

  /** One UTF-16 code unit, the value of a Java `char`. */
  type Char16 = c: int | 0 <= c < 0x1_0000

  /** A Java `String`. */
  type JString = seq<Char16>

  datatype Option<+T> = None | Some(value: T) {
    function GetOr(default: T): T {
      match this
      case Some(v) => v
      case None => default
    }
  }

  /** The element an optional value contributes to a list. */
  function Listed<T>(o: Option<T>): (r: seq<T>)
    ensures |r| <= 1
  {
    match o
    case Some(x) => [x]
    case None => []
  }

  /** The library behaviour the modelled code calls but that is not modelled. */
  datatype JavaLib = JavaLib(
    isWhitespace: Char16 -> bool,       // Character.isWhitespace
    isDigit: Char16 -> bool,            // Character.isDigit
    isLetter: Char16 -> bool,           // Character.isLetter
    isLetterOrDigit: Char16 -> bool,    // Character.isLetterOrDigit
    sameIgnoringCase: (Char16, Char16) -> bool,  // regionMatches(true, ...) on two different units
    toUpperCase: JString -> JString,    // String.toUpperCase(Locale.ROOT)
    toLowerCase: JString -> JString,    // String.toLowerCase
    parseDouble: JString -> Option<real>  // Double.parseDouble; None when it throws
  )

  /** The UTF-16 units of a literal made of Basic Multilingual Plane characters. */
  function Str(s: string): (r: JString)
    ensures |r| == |s|
    ensures forall i :: 0 <= i < |s| && (s[i] as int) < 0x1_0000 ==> r[i] == s[i] as int
  {
    seq(|s|, i requires 0 <= i < |s| => if (s[i] as int) < 0x1_0000 then s[i] as int else 0xFFFD)
  }

  const NUL: Char16 := 0
  const SPACE: Char16 := 0x20
  const HASH: Char16 := '#' as int
  const DOLLAR: Char16 := '$' as int
  const QUOTE: Char16 := '\'' as int
  const LPAREN: Char16 := '(' as int
  const RPAREN: Char16 := ')' as int
  const STAR: Char16 := '*' as int
  const PLUS: Char16 := '+' as int
  const COMMA: Char16 := ',' as int
  const MINUS: Char16 := '-' as int
  const DOT: Char16 := '.' as int
  const SLASH: Char16 := '/' as int
  const DIGIT0: Char16 := '0' as int
  const SEMICOLON: Char16 := ';' as int
  const EQUALS: Char16 := '=' as int
  const BACKSLASH: Char16 := '\\' as int
  const UNDERSCORE: Char16 := '_' as int
  const BAR: Char16 := '|' as int
  const NEWLINE: Char16 := '\n' as int
  const CARRIAGE_RETURN: Char16 := '\r' as int
  const ELLIPSIS: Char16 := 0x2026

  const INT_MIN: int := -0x8000_0000
  const INT_MAX: int := 0x7FFF_FFFF
  const LONG_MIN: int := -0x8000_0000_0000_0000
  const LONG_MAX: int := 0x7FFF_FFFF_FFFF_FFFF

  /** Java `int` arithmetic: the two's-complement 32-bit value congruent to `x`. */
  function WrapInt(x: int): (r: int)
    ensures INT_MIN <= r <= INT_MAX
    ensures (r - x) % 0x1_0000_0000 == 0
    ensures INT_MIN <= x <= INT_MAX ==> r == x
  {
    var m := x % 0x1_0000_0000;
    if m > INT_MAX then m - 0x1_0000_0000 else m
  }

  function Min(a: int, b: int): int { if a <= b then a else b }
  function Max(a: int, b: int): int { if a >= b then a else b }

  /** `String.isBlank`: empty, or white space only. */
  predicate IsBlank(lib: JavaLib, s: JString) {
    forall i | 0 <= i < |s| :: lib.isWhitespace(s[i])
  }

  /** Leading units that `String.trim` removes (code unit <= U+0020). */
  function TrimStart(s: JString): (r: JString)
    ensures |r| <= |s| && r == s[|s| - |r|..]
    ensures r == [] || r[0] > SPACE
    ensures forall i | 0 <= i < |s| - |r| :: s[i] <= SPACE
  {
    if s == [] || s[0] > SPACE then s else TrimStart(s[1..])
  }

  /** Trailing units that `String.trim` removes. */
  function TrimEnd(s: JString): (r: JString)
    ensures |r| <= |s| && r == s[..|r|]
    ensures r == [] || r[|r| - 1] > SPACE
    ensures forall i | |r| <= i < |s| :: s[i] <= SPACE
  {
    if s == [] || s[|s| - 1] > SPACE then s else TrimEnd(s[..|s| - 1])
  }

  /** `String.trim`. */
  function Trim(s: JString): (r: JString)
    ensures |r| <= |s|
    ensures r == [] || (r[0] > SPACE && r[|r| - 1] > SPACE)
    ensures (forall i | 0 <= i < |s| :: s[i] > SPACE) ==> r == s
    ensures TrimmedAt(s, r, |s| - |TrimStart(s)|)
  {
    TrimIsSlice(s);
    TrimEnd(TrimStart(s))
  }

  lemma TrimIsSlice(s: JString)
    ensures TrimmedAt(s, TrimEnd(TrimStart(s)), |s| - |TrimStart(s)|)
  {
    SliceIsTrimmed(s, TrimStart(s), TrimEnd(TrimStart(s)));
  }

  /** Cutting spaces off the front (`t`), then off the back (`r`), leaves a slice of `s`. */
  lemma SliceIsTrimmed(s: JString, t: JString, r: JString)
    requires |t| <= |s| && t == s[|s| - |t|..] && forall i | 0 <= i < |s| - |t| :: s[i] <= SPACE
    requires |r| <= |t| && r == t[..|r|] && forall i | |r| <= i < |t| :: t[i] <= SPACE
    ensures TrimmedAt(s, r, |s| - |t|)
  {
    TrimSliceOf(s, t, r);
    TrimTailSpace(s, t, r);
  }

  lemma TrimSliceOf(s: JString, t: JString, r: JString)
    requires |t| <= |s| && t == s[|s| - |t|..] && |r| <= |t| && r == t[..|r|]
    ensures r == s[|s| - |t|..|s| - |t| + |r|]
  {
  }

  lemma TrimTailSpace(s: JString, t: JString, r: JString)
    requires |t| <= |s| && t == s[|s| - |t|..] && |r| <= |t|
    requires forall i | |r| <= i < |t| :: t[i] <= SPACE
    ensures forall i | |s| - |t| + |r| <= i < |s| :: s[i] <= SPACE
  {
    forall i | |s| - |t| + |r| <= i < |s| ensures s[i] <= SPACE {
      assert s[i] == t[i - (|s| - |t|)];
    }
  }

  /** `r` is `s[a..]` cut to `|r|` units, and only units at or below U+0020 lie outside it. */
  predicate TrimmedAt(s: JString, r: JString, a: int) {
    0 <= a <= |s| - |r| && r == s[a..a + |r|]
    && (forall i | 0 <= i < a :: s[i] <= SPACE)
    && (forall i | a + |r| <= i < |s| :: s[i] <= SPACE)
  }

  /** `t` occurs in `s` at index `i`. */
  predicate OccursAt(s: JString, t: JString, i: int) {
    0 <= i && i + |t| <= |s| && s[i..i + |t|] == t
  }

  /** `String.contains`. */
  predicate Contains(s: JString, t: JString) {
    exists i | 0 <= i <= |s| - |t| :: OccursAt(s, t, i)
  }

  /** `String.startsWith`. */
  predicate StartsWith(s: JString, p: JString) {
    |p| <= |s| && s[..|p|] == p
  }

  /** `String.endsWith`. */
  predicate EndsWith(s: JString, p: JString) {
    |p| <= |s| && s[|s| - |p|..] == p
  }

  /** `String.indexOf(char, from)`: the first index at or after `from` holding `c`, or -1. */
  function IndexOfChar(s: JString, c: Char16, from: int): (r: int)
    decreases |s| - Max(0, from)
    ensures r == -1 || (Max(0, from) <= r < |s| && s[r] == c)
    ensures forall k | Max(0, from) <= k < |s| && (r == -1 || k < r) :: s[k] != c
  {
    if Max(0, from) >= |s| then -1
    else if s[Max(0, from)] == c then Max(0, from)
    else IndexOfChar(s, c, Max(0, from) + 1)
  }

  /** `String.replace(char, char)`. */
  function ReplaceChar(s: JString, a: Char16, b: Char16): (r: JString)
    ensures |r| == |s|
    ensures forall i | 0 <= i < |s| :: r[i] == (if s[i] == a then b else s[i])
  {
    seq(|s|, i requires 0 <= i < |s| => if s[i] == a then b else s[i])
  }

  /** A non-empty set has a member. */
  lemma SomeMember(s: set<int>)
    requires s != {}
    ensures exists x :: x in s
  {
    if forall x :: x !in s {
      assert false;
    }
  }
}
