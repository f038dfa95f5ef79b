/**
 * The cursor-based recogniser of DATA-section entity instances
 * (`#id = TYPE(...);`) of `StepDataAnalyzer`: white-space skipping, the
 * case-insensitive keyword search, the string-aware parenthesis matcher and
 * statement-end finder, and `parseEntity`.
 *
 * Each loop is a method proved equal to a recursive specification function
 * that follows the loop's state (index, paren depth, inside-a-literal flag).
 */
module StepScanner {
  import opened JavaText
  import opened StepEscapes

  // ---------------------------------------------------------------------
  // cursorSkipWs
  // ---------------------------------------------------------------------

  /** The first index at or after `i` that does not hold white space (`i` itself when past the end). */
  function SkipWs(lib: JavaLib, t: JString, i: nat): (r: nat)
    decreases |t| - i
    ensures i <= r && (r < |t| ==> !lib.isWhitespace(t[r])) && (i <= |t| ==> r <= |t|)
  {
    if i < |t| && lib.isWhitespace(t[i]) then SkipWs(lib, t, i + 1) else i
  }

  /** `cursorSkipWs`. */
  method CursorSkipWs(lib: JavaLib, t: JString, from: nat) returns (r: nat)
    ensures r == SkipWs(lib, t, from)
  {
    var i := from;
    while i < |t|
      invariant from <= i
      invariant SkipWs(lib, t, i) == SkipWs(lib, t, from)
      decreases |t| - i
    {
      if !lib.isWhitespace(t[i]) {
        return i;
      }
      i := i + 1;
    }
    return i;
  }

  // ---------------------------------------------------------------------
  // indexOfIgnoreCase
  // ---------------------------------------------------------------------

  /** `regionMatches(true, i, n, 0, |n|)`: every unit equal or equal ignoring case. */
  predicate RegionMatches(lib: JavaLib, t: JString, i: int, n: JString) {
    0 <= i && i + |n| <= |t| && forall k | 0 <= k < |n| :: t[i + k] == n[k] || lib.sameIgnoringCase(t[i + k], n[k])
  }

  /** The first index at or after `from` where `n` matches ignoring case, or -1. */
  function FirstMatch(lib: JavaLib, t: JString, n: JString, from: int): (r: int)
    decreases |t| - Max(0, from)
    ensures r == -1 || (Max(0, from) <= r && RegionMatches(lib, t, r, n))
    ensures forall k | Max(0, from) <= k && (r == -1 || k < r) :: !RegionMatches(lib, t, k, n)
  {
    var i := Max(0, from);
    if i > |t| - |n| then -1
    else if RegionMatches(lib, t, i, n) then i
    else FirstMatch(lib, t, n, i + 1)
  }

  /** `indexOfIgnoreCase(text, needle, from)`; the needle is lower-cased first. */
  method IndexOfIgnoreCase(lib: JavaLib, t: JString, needle: JString, from: int) returns (r: int)
    ensures r == FirstMatch(lib, t, lib.toLowerCase(needle), from)
  {
    var n := lib.toLowerCase(needle);
    var limit := |t| - |n|;
    var i := Max(0, from);
    while i <= limit
      invariant Max(0, from) <= i
      invariant FirstMatch(lib, t, n, i) == FirstMatch(lib, t, n, from)
      decreases limit - i
    {
      if RegionMatches(lib, t, i, n) {
        return i;
      }
      i := i + 1;
    }
    return -1;
  }

  // ---------------------------------------------------------------------
  // findMatchingParen
  // ---------------------------------------------------------------------

  /**
   * The matcher's loop from index `i` with paren depth `depth`, inside a
   * literal or not: the index of the `)` that brings the depth to 0, or -1.
   */
  function ParenScan(t: JString, i: nat, depth: int, inString: bool): (r: int)
    decreases |t| - i
    ensures r == -1 || (i <= r < |t| && t[r] == RPAREN)
  {
    if i >= |t| then -1
    else if inString then
      if t[i] == QUOTE then
        if i + 1 < |t| && t[i + 1] == QUOTE then ParenScan(t, i + 2, depth, true)
        else ParenScan(t, i + 1, depth, false)
      else ParenScan(t, i + 1, depth, true)
    else if t[i] == QUOTE then ParenScan(t, i + 1, depth, true)
    else if t[i] == LPAREN then ParenScan(t, i + 1, depth + 1, false)
    else if t[i] == RPAREN then
      if depth - 1 == 0 then i else ParenScan(t, i + 1, depth - 1, false)
    else ParenScan(t, i + 1, depth, false)
  }

  /** `findMatchingParen`. */
  method FindMatchingParen(t: JString, open: nat) returns (r: int)
    ensures r == ParenScan(t, open, 0, false)
  {
    var depth := 0;
    var inString := false;
    var i := open;
    while i < |t|
      invariant open <= i
      invariant ParenScan(t, i, depth, inString) == ParenScan(t, open, 0, false)
      decreases |t| - i
    {
      var c := t[i];
      if inString {
        if c == QUOTE {
          if i + 1 < |t| && t[i + 1] == QUOTE {
            i := i + 1;
          } else {
            inString := false;
          }
        }
      } else if c == QUOTE {
        inString := true;
      } else if c == LPAREN {
        depth := depth + 1;
      } else if c == RPAREN {
        depth := depth - 1;
        if depth == 0 {
          return i;
        }
      }
      i := i + 1;
    }
    return -1;
  }

  // ---------------------------------------------------------------------
  // findStatementEnd
  // ---------------------------------------------------------------------

  /** The statement-end loop: the index of the first `;` at depth 0 outside literals, or -1. */
  function SemiScan(t: JString, i: nat, depth: nat, inString: bool): (r: int)
    decreases |t| - i
    ensures r == -1 || (i <= r < |t| && t[r] == SEMICOLON)
  {
    if i >= |t| then -1
    else if inString then
      if t[i] == QUOTE then
        if i + 1 < |t| && t[i + 1] == QUOTE then SemiScan(t, i + 2, depth, true)
        else SemiScan(t, i + 1, depth, false)
      else SemiScan(t, i + 1, depth, true)
    else if t[i] == QUOTE then SemiScan(t, i + 1, depth, true)
    else if t[i] == LPAREN then SemiScan(t, i + 1, depth + 1, false)
    else if t[i] == RPAREN then SemiScan(t, i + 1, if depth == 0 then 0 else depth - 1, false)
    else if t[i] == SEMICOLON && depth == 0 then i
    else SemiScan(t, i + 1, depth, false)
  }

  /** `findStatementEnd`. */
  method FindStatementEnd(t: JString, from: int) returns (r: int)
    ensures r == SemiScan(t, Max(0, from), 0, false)
  {
    var inString := false;
    var depth: nat := 0;
    var i := Max(0, from);
    while i < |t|
      invariant Max(0, from) <= i
      invariant SemiScan(t, i, depth, inString) == SemiScan(t, Max(0, from), 0, false)
      decreases |t| - i
    {
      var c := t[i];
      if inString {
        if c == QUOTE {
          if i + 1 < |t| && t[i + 1] == QUOTE {
            i := i + 1;
          } else {
            inString := false;
          }
        }
      } else if c == QUOTE {
        inString := true;
      } else if c == LPAREN {
        depth := depth + 1;
      } else if c == RPAREN {
        depth := if depth == 0 then 0 else depth - 1;
      } else if c == SEMICOLON && depth == 0 {
        return i;
      }
      i := i + 1;
    }
    return -1;
  }

  // ---------------------------------------------------------------------
  // Literals are opaque to both scanners
  // ---------------------------------------------------------------------

  /**
   * Inside a literal the matcher does what the literal reader does: it
   * resumes after the closing quote with the depth it had, whatever
   * parentheses the literal holds; an unterminated literal finds nothing.
   */
  lemma {:induction false} ParenScanSkipsLiteral(t: JString, i: nat, depth: int)
    requires i <= |t|
    ensures var q := ReadQuoted(t, i);
      ParenScan(t, i, depth, true) == if q.stop < |t| then ParenScan(t, q.stop + 1, depth, false) else -1
    decreases |t| - i
  {
    if i < |t| && t[i] == QUOTE && i + 1 < |t| && t[i + 1] == QUOTE {
      ParenScanSkipsLiteral(t, i + 2, depth);
    } else if i < |t| && t[i] != QUOTE {
      ParenScanSkipsLiteral(t, i + 1, depth);
    }
  }

  /** The same for the statement-end finder: semicolons inside literals are ignored. */
  lemma {:induction false} SemiScanSkipsLiteral(t: JString, i: nat, depth: nat)
    requires i <= |t|
    ensures var q := ReadQuoted(t, i);
      SemiScan(t, i, depth, true) == if q.stop < |t| then SemiScan(t, q.stop + 1, depth, false) else -1
    decreases |t| - i
  {
    if i < |t| && t[i] == QUOTE && i + 1 < |t| && t[i + 1] == QUOTE {
      SemiScanSkipsLiteral(t, i + 2, depth);
    } else if i < |t| && t[i] != QUOTE {
      SemiScanSkipsLiteral(t, i + 1, depth);
    }
  }

  // ---------------------------------------------------------------------
  // parseEntity
  // ---------------------------------------------------------------------

  /** The end of the run of `Character.isDigit` units starting at `i`. */
  function DigitsEnd(lib: JavaLib, t: JString, i: nat): (r: nat)
    requires i <= |t|
    decreases |t| - i
    ensures i <= r <= |t| && (r < |t| ==> !lib.isDigit(t[r]))
  {
    if i < |t| && lib.isDigit(t[i]) then DigitsEnd(lib, t, i + 1) else i
  }

  /** The end of the run of identifier units (`isLetterOrDigit` or `_`) starting at `i`. */
  function IdentEnd(lib: JavaLib, t: JString, i: nat): (r: nat)
    requires i <= |t|
    decreases |t| - i
    ensures i <= r <= |t| && (r < |t| ==> !(lib.isLetterOrDigit(t[r]) || t[r] == UNDERSCORE))
  {
    if i < |t| && (lib.isLetterOrDigit(t[i]) || t[i] == UNDERSCORE) then IdentEnd(lib, t, i + 1) else i
  }

  /**
   * The value of a digit run, in Java `int` arithmetic: `id * 10 + (c - '0')`
   * per unit (a non-ASCII digit contributes its distance from '0').
   */
  function DigitValue(digits: JString): (r: int)
    ensures INT_MIN <= r <= INT_MAX
  {
    if digits == [] then 0
    else WrapInt(DigitValue(digits[..|digits| - 1]) * 10 + (digits[|digits| - 1] - DIGIT0))
  }

  /** `EntityParseResult`. */
  datatype EntityParse = EntityParse(id: int, typeUpper: JString, argsText: JString, rawText: JString, next: nat)

  /** What `parseEntity(text, start)` returns. */
  function EntityAt(lib: JavaLib, t: JString, start: nat): (r: Option<EntityParse>)
    ensures r.Some? ==> start < r.value.next <= |t| && r.value.rawText == t[start..r.value.next]
    ensures r.Some? ==> t[start] == HASH && start + 1 < |t| && lib.isDigit(t[start + 1])
  {
    if start >= |t| || t[start] != HASH then None
    else EntityAfterId(lib, t, start, DigitsEnd(lib, t, start + 1))
  }

  /** The rest of `parseEntity` once the digits `t[start + 1..d]` are read: `=` must follow. */
  function EntityAfterId(lib: JavaLib, t: JString, start: nat, d: nat): (r: Option<EntityParse>)
    requires start < d <= |t|
    ensures r.Some? ==> start + 1 < d && start < r.value.next <= |t| && r.value.rawText == t[start..r.value.next]
  {
    if d == start + 1 then None
    else
      var e := SkipWs(lib, t, d);
      if e >= |t| || t[e] != EQUALS then None
      else EntityAfterEquals(lib, t, start, d, SkipWs(lib, t, e + 1))
  }

  /** The rest of `parseEntity` once `=` is read and the type name starts at `ts`. */
  function EntityAfterEquals(lib: JavaLib, t: JString, start: nat, d: nat, ts: nat): (r: Option<EntityParse>)
    requires start + 1 < d < ts <= |t|
    ensures r.Some? ==> start < r.value.next <= |t| && r.value.rawText == t[start..r.value.next]
  {
    var te := IdentEnd(lib, t, ts);
    if te == ts then None
    else
      var o := SkipWs(lib, t, te);
      if o >= |t| || t[o] != LPAREN then None
      else EntityBody(lib, t, start, d, ts, te, o)
  }

  /** The rest of `parseEntity` once the type name `t[ts..te]` and the `(` at `o` are read. */
  function EntityBody(lib: JavaLib, t: JString, start: nat, d: nat, ts: nat, te: nat, o: nat): (r: Option<EntityParse>)
    requires start + 1 < d < ts < te <= o < |t| && t[o] == LPAREN
    ensures r.Some? ==> start < r.value.next <= |t| && r.value.rawText == t[start..r.value.next]
  {
    var c := ParenScan(t, o, 0, false);
    if c < 0 then None
    else
      var s := SemiScan(t, c + 1, 0, false);
      var semi := if s < 0 then c + 1 else s;
      var next := Min(|t|, semi + 1);
      Some(EntityParse(DigitValue(t[start + 1..d]), lib.toUpperCase(t[ts..te]), t[o + 1..c], t[start..next], next))
  }

  /** The digit loop of `parseEntity`: the end of the run and its `int` value. */
  method ReadDigits(lib: JavaLib, t: JString, from: nat) returns (id: int, end: nat)
    requires from <= |t|
    ensures end == DigitsEnd(lib, t, from) && id == DigitValue(t[from..end])
  {
    var i := from;
    id := 0;
    while i < |t|
      invariant from <= i <= |t|
      invariant DigitsEnd(lib, t, i) == DigitsEnd(lib, t, from)
      invariant id == DigitValue(t[from..i])
      decreases |t| - i
    {
      var c := t[i];
      if !lib.isDigit(c) {
        break;
      }
      assert t[from..i + 1][..i - from] == t[from..i];
      id := WrapInt(id * 10 + (c - DIGIT0));
      i := i + 1;
    }
    end := i;
  }

  /** The identifier loop of `parseEntity`. */
  method ReadIdent(lib: JavaLib, t: JString, from: nat) returns (end: nat)
    requires from <= |t|
    ensures end == IdentEnd(lib, t, from)
  {
    var i := from;
    while i < |t|
      invariant from <= i <= |t|
      invariant IdentEnd(lib, t, i) == IdentEnd(lib, t, from)
      decreases |t| - i
    {
      var c := t[i];
      if lib.isLetterOrDigit(c) || c == UNDERSCORE {
        i := i + 1;
        continue;
      }
      break;
    }
    end := i;
  }

  /** `parseEntity`. */
  method ParseEntity(lib: JavaLib, t: JString, start: nat) returns (r: Option<EntityParse>)
    ensures r == EntityAt(lib, t, start)
  {
    if start >= |t| || t[start] != HASH {
      return None;
    }
    var id, d := ReadDigits(lib, t, start + 1);
    r := ParseAfterId(lib, t, start, d, id);
  }

  /** `parseEntity` once the digits `t[start + 1..d]` are read: the `=` and what follows. */
  method ParseAfterId(lib: JavaLib, t: JString, start: nat, d: nat, id: int) returns (r: Option<EntityParse>)
    requires start < d <= |t| && id == DigitValue(t[start + 1..d])
    ensures r == EntityAfterId(lib, t, start, d)
  {
    if d == start + 1 {
      return None;
    }
    var e := CursorSkipWs(lib, t, d);
    if e >= |t| || t[e] != EQUALS {
      return None;
    }
    var typeStart := CursorSkipWs(lib, t, e + 1);
    r := ParseEntityBody(lib, t, start, d, id, typeStart);
  }

  /** `parseEntity` from the type name on. */
  method ParseEntityBody(lib: JavaLib, t: JString, start: nat, d: nat, id: int, typeStart: nat) returns (r: Option<EntityParse>)
    requires start + 1 < d < typeStart <= |t| && id == DigitValue(t[start + 1..d])
    ensures r == EntityAfterEquals(lib, t, start, d, typeStart)
  {
    var typeEnd := ReadIdent(lib, t, typeStart);
    if typeEnd == typeStart {
      return None;
    }
    var typeUpper := lib.toUpperCase(t[typeStart..typeEnd]);
    var openParen := CursorSkipWs(lib, t, typeEnd);
    if openParen >= |t| || t[openParen] != LPAREN {
      return None;
    }
    assert EntityAfterEquals(lib, t, start, d, typeStart) == EntityBody(lib, t, start, d, typeStart, typeEnd, openParen);
    r := ParseEntityArgs(lib, t, start, d, id, typeStart, typeEnd, typeUpper, openParen);
  }

  /** `parseEntity` from the `(` at `o` on: the argument text and the statement end. */
  method ParseEntityArgs(lib: JavaLib, t: JString, start: nat, d: nat, id: int, ts: nat, te: nat, typeUpper: JString, o: nat)
    returns (r: Option<EntityParse>)
    requires start + 1 < d < ts < te <= o < |t| && t[o] == LPAREN
    requires id == DigitValue(t[start + 1..d]) && typeUpper == lib.toUpperCase(t[ts..te])
    ensures r == EntityBody(lib, t, start, d, ts, te, o)
  {
    var closeParen := FindMatchingParen(t, o);
    if closeParen < 0 {
      return None;
    }
    var semicolon := FindStatementEnd(t, closeParen + 1);
    assert semicolon == SemiScan(t, closeParen + 1, 0, false);
    EntityBodyIs(lib, t, start, d, ts, te, o, closeParen, semicolon);
    var argsText := t[o + 1..closeParen];
    if semicolon < 0 {
      semicolon := closeParen + 1;
    }
    var next := Min(|t|, semicolon + 1);
    return Some(EntityParse(id, typeUpper, argsText, t[start..next], next));
  }

  /** What `EntityBody` yields once the closing parenthesis `c` and the statement end are known. */
  lemma EntityBodyIs(lib: JavaLib, t: JString, start: nat, d: nat, ts: nat, te: nat, o: nat, c: int, s: int)
    requires start + 1 < d < ts < te <= o < |t| && t[o] == LPAREN
    requires c == ParenScan(t, o, 0, false) && c >= 0
    requires s == SemiScan(t, c + 1, 0, false)
    ensures o < c
    ensures var semi := if s < 0 then c + 1 else s; var next := Min(|t|, semi + 1);
      EntityBody(lib, t, start, d, ts, te, o)
      == Some(EntityParse(DigitValue(t[start + 1..d]), lib.toUpperCase(t[ts..te]), t[o + 1..c], t[start..next], next))
  {
  }

  // ---------------------------------------------------------------------
  // The shape parseEntity accepts
  // ---------------------------------------------------------------------

  /** A unit `parseEntity` accepts in a type name. */
  predicate IsIdentUnit(lib: JavaLib, c: Char16) {
    lib.isLetterOrDigit(c) || c == UNDERSCORE
  }

  /**
   * The text from `start` reads `#`, the digit run `t[start + 1..d]`, white
   * space, `=` at `e`, white space, the type name `t[ts..te]`, white space,
   * and `(` at `o` whose matching `)` is at `c`.
   */
  predicate EntityLayout(lib: JavaLib, t: JString, start: nat, d: nat, e: nat, ts: nat, te: nat, o: nat, c: int) {
    start + 1 < d <= |t| && t[start] == HASH
    && (forall k | start < k < d :: lib.isDigit(t[k])) && (d < |t| ==> !lib.isDigit(t[d]))
    && e == SkipWs(lib, t, d) && e < |t| && t[e] == EQUALS
    && ts == SkipWs(lib, t, e + 1) && ts < te <= |t|
    && (forall k | ts <= k < te :: IsIdentUnit(lib, t[k])) && (te < |t| ==> !IsIdentUnit(lib, t[te]))
    && o == SkipWs(lib, t, te) && o < |t| && t[o] == LPAREN
    && c == ParenScan(t, o, 0, false) && c >= 0
  }

  /** `DigitsEnd` is the end of the maximal digit run, and nothing else is. */
  lemma {:induction false} DigitRun(lib: JavaLib, t: JString, i: nat, d: nat)
    requires i <= d <= |t|
    ensures d == DigitsEnd(lib, t, i) <==>
      (forall k | i <= k < d :: lib.isDigit(t[k])) && (d < |t| ==> !lib.isDigit(t[d]))
    decreases d - i
  {
    if i < d {
      DigitRun(lib, t, i + 1, d);
    }
  }

  /** `IdentEnd` is the end of the maximal run of identifier units, and nothing else is. */
  lemma {:induction false} IdentRun(lib: JavaLib, t: JString, i: nat, te: nat)
    requires i <= te <= |t|
    ensures te == IdentEnd(lib, t, i) <==>
      (forall k | i <= k < te :: IsIdentUnit(lib, t[k])) && (te < |t| ==> !IsIdentUnit(lib, t[te]))
    decreases te - i
  {
    if i < te {
      IdentRun(lib, t, i + 1, te);
    }
  }

  /**
   * `parseEntity` succeeds exactly on text laid out as `#digits = NAME(...)`
   * (white space allowed around `=` and before `(`), and then returns the
   * `int` value of the digits, the upper-cased name and the text between the
   * parentheses.
   */
  lemma EntityShape(lib: JavaLib, t: JString, start: nat)
    ensures EntityAt(lib, t, start).Some? <==> exists d: nat, e: nat, ts: nat, te: nat, o: nat, c: int :: EntityLayout(lib, t, start, d, e, ts, te, o, c)
    ensures forall d: nat, e: nat, ts: nat, te: nat, o: nat, c: int | EntityLayout(lib, t, start, d, e, ts, te, o, c) ::
      EntityAt(lib, t, start).Some?
      && EntityAt(lib, t, start).value.id == DigitValue(t[start + 1..d])
      && EntityAt(lib, t, start).value.typeUpper == lib.toUpperCase(t[ts..te])
      && EntityAt(lib, t, start).value.argsText == t[o + 1..c]
  {
    forall d: nat, e: nat, ts: nat, te: nat, o: nat, c: int | EntityLayout(lib, t, start, d, e, ts, te, o, c)
      ensures EntityAt(lib, t, start) == EntityBody(lib, t, start, d, ts, te, o)
    {
      LayoutParses(lib, t, start, d, e, ts, te, o, c);
    }
    if EntityAt(lib, t, start).Some? {
      var d, e, ts, te, o, c := HasLayout(lib, t, start);
    }
  }

  /** A parsed entity is laid out at the positions the scanner reaches. */
  lemma HasLayout(lib: JavaLib, t: JString, start: nat) returns (d: nat, e: nat, ts: nat, te: nat, o: nat, c: int)
    requires EntityAt(lib, t, start).Some?
    ensures EntityLayout(lib, t, start, d, e, ts, te, o, c)
  {
    d := DigitsEnd(lib, t, start + 1);
    e := SkipWs(lib, t, d);
    ts := SkipWs(lib, t, e + 1);
    te := IdentEnd(lib, t, ts);
    o := SkipWs(lib, t, te);
    c := ParenScan(t, o, 0, false);
    DigitRun(lib, t, start + 1, d);
    IdentRun(lib, t, ts, te);
  }

  /** Text laid out as an entity is parsed through `EntityBody` at those positions. */
  lemma LayoutParses(lib: JavaLib, t: JString, start: nat, d: nat, e: nat, ts: nat, te: nat, o: nat, c: int)
    requires EntityLayout(lib, t, start, d, e, ts, te, o, c)
    ensures start + 1 < d < ts < te <= o < |t| && t[o] == LPAREN
    ensures EntityAt(lib, t, start) == EntityBody(lib, t, start, d, ts, te, o)
    ensures EntityBody(lib, t, start, d, ts, te, o).Some?
  {
    DigitRun(lib, t, start + 1, d);
    AfterIdIs(lib, t, start, d, e, ts);
    IdentRun(lib, t, ts, te);
    AfterEqualsIs(lib, t, start, d, ts, te, o);
  }

  /** Past the digits, `=` at `e` leads to the type name at `ts`. */
  lemma AfterIdIs(lib: JavaLib, t: JString, start: nat, d: nat, e: nat, ts: nat)
    requires start + 1 < d <= |t| && e == SkipWs(lib, t, d) && e < |t| && t[e] == EQUALS && ts == SkipWs(lib, t, e + 1)
    ensures d < ts <= |t|
    ensures EntityAfterId(lib, t, start, d) == EntityAfterEquals(lib, t, start, d, ts)
  {
  }

  /** Past a non-empty type name, `(` at `o` leads to the argument group. */
  lemma AfterEqualsIs(lib: JavaLib, t: JString, start: nat, d: nat, ts: nat, te: nat, o: nat)
    requires start + 1 < d < ts < te <= |t| && te == IdentEnd(lib, t, ts)
    requires o == SkipWs(lib, t, te) && o < |t| && t[o] == LPAREN
    ensures EntityAfterEquals(lib, t, start, d, ts) == EntityBody(lib, t, start, d, ts, te, o)
  {
  }
}
