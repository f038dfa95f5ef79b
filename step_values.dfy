/**
 * The parameter-list parser of `StepDataAnalyzer`: the STEP value model and
 * the recursive-descent `Parser` over one statement's argument text, plus
 * the positional accessors `asString`, `asRef` and `blankToNull`.
 *
 * `ValueAt`, `GroupAt` and `ItemsAt` say what the parser returns from a
 * position and where it stops; the `Parser` class keeps the source's cursor
 * field and its methods are proved to follow those functions.
 */
module StepValues {
  import opened JavaText
  import opened StepEscapes
  import opened StepScanner

  /** `StepValue` and its seven record kinds. */
  datatype Value =
    | StepNull
    | StepString(value: JString)
    | StepRef(id: int)
    | StepEnum(value: JString)
    | StepNumber(raw: JString, number: Option<real>)
    | StepList(items: seq<Value>)
    | StepTyped(typeUpper: JString, args: seq<Value>)

  /** One parsed value and the cursor after it. */
  datatype Parsed = Parsed(value: Value, next: nat)

  /** A parsed run of comma-separated values and the cursor after it. */
  datatype ParsedItems = ParsedItems(items: seq<Value>, next: nat)

  /** `isIdentStart`. */
  predicate IdentStart(lib: JavaLib, c: Char16) {
    lib.isLetter(c) || c == UNDERSCORE
  }

  /** A unit `parseNumber` consumes: a digit, a sign, a dot or an exponent letter. */
  predicate NumberUnit(lib: JavaLib, c: Char16) {
    lib.isDigit(c) || c == PLUS || c == MINUS || c == DOT
    || c == 'E' as int || c == 'e' as int || c == 'D' as int || c == 'd' as int
  }

  /** The end of the run of number units starting at `i`. */
  function NumberEnd(lib: JavaLib, t: JString, i: nat): (r: nat)
    requires i <= |t|
    decreases |t| - i
    ensures i <= r <= |t| && (r < |t| ==> !NumberUnit(lib, t[r]))
  {
    if i < |t| && NumberUnit(lib, t[i]) then NumberEnd(lib, t, i + 1) else i
  }

  /** The text `Double.parseDouble` receives: `D` and `d` exponents read as `E`. */
  function NormalizeExponent(raw: JString): (r: JString)
    ensures |r| == |raw|
    ensures forall k | 0 <= k < |r| :: r[k] != 'D' as int && r[k] != 'd' as int
    ensures forall k | 0 <= k < |r| :: raw[k] != 'D' as int && raw[k] != 'd' as int ==> r[k] == raw[k]
  {
    ReplaceChar(ReplaceChar(raw, 'D' as int, 'E' as int), 'd' as int, 'E' as int)
  }

  /** Where `parseEnum` stops when the dot that opens the enumeration is at `i - 1`: after the next dot, or at the end. */
  function EnumEnd(t: JString, i: nat): (r: nat)
    requires i <= |t|
    ensures i <= r <= |t|
    ensures r < |t| || (r == |t| && DOT !in t[i..]) || t[r - 1] == DOT
  {
    var d := IndexOfChar(t, DOT, i);
    if d < 0 then
      assert forall k | 0 <= k < |t| - i :: t[i..][k] == t[i + k];
      |t|
    else d + 1
  }

  /** Where the parser stops inside a literal whose body starts at `i`: after the closing quote, if any. */
  function StringEnd(t: JString, i: nat): (r: nat)
    requires i <= |t|
    ensures i <= r <= |t|
  {
    var q := ReadQuoted(t, i);
    if q.stop < |t| then q.stop + 1 else q.stop
  }

  /** What `parseValue` returns from cursor `i`, and where it leaves the cursor. */
  function ValueAt(lib: JavaLib, t: JString, i: nat): (r: Parsed)
    requires i <= |t|
    decreases |t| - i, 2
    ensures i <= r.next <= |t| && (i < |t| ==> i < r.next)
  {
    var j := SkipWs(lib, t, i);
    if j >= |t| then Parsed(StepNull, j) else TokenAt(lib, t, j)
  }

  /** `parseValue` once white space is skipped: the branch chosen by the unit under the cursor. */
  function TokenAt(lib: JavaLib, t: JString, j: nat): (r: Parsed)
    requires j < |t|
    decreases |t| - j, 1
    ensures j < r.next <= |t|
  {
    var c := t[j];
    if c == DOLLAR || c == STAR then Parsed(StepNull, j + 1)
    else if c == HASH then
      var d := DigitsEnd(lib, t, j + 1);
      if d == j + 1 then Parsed(StepNull, j + 1) else Parsed(StepRef(DigitValue(t[j + 1..d])), d)
    else if c == QUOTE then
      Parsed(StepString(DecodeAt(ReadQuoted(t, j + 1).body, 0)), StringEnd(t, j + 1))
    else if c == LPAREN then
      var g := GroupAt(lib, t, j + 1);
      Parsed(StepList(g.items), g.next)
    else if c == DOT then
      var e := EnumEnd(t, j + 1);
      Parsed(StepEnum(t[j..e]), e)
    else if IdentStart(lib, c) then NamedAt(lib, t, j)
    else if c == PLUS || c == MINUS || lib.isDigit(c) || c == DOT then
      var e := NumberEnd(lib, t, j);
      var raw := t[j..e];
      Parsed(StepNumber(raw, lib.parseDouble(NormalizeExponent(raw))), e)
    else Parsed(StepNull, j + 1)
  }

  /** The identifier branch: the upper-cased name, then a typed value if `(` follows, else an enumeration. */
  function NamedAt(lib: JavaLib, t: JString, j: nat): (r: Parsed)
    requires j < |t|
    decreases |t| - j, 0
    ensures j < r.next <= |t|
  {
    var te := IdentEnd(lib, t, j + 1);
    var name := lib.toUpperCase(t[j..te]);
    var k := SkipWs(lib, t, te);
    if k < |t| && t[k] == LPAREN then
      var g := GroupAt(lib, t, k + 1);
      Parsed(StepTyped(name, g.items), g.next)
    else Parsed(StepEnum(name), k)
  }

  /** A parenthesised group once its `(` is consumed: `()` or a comma-separated run closed by `)`. */
  function GroupAt(lib: JavaLib, t: JString, i: nat): (r: ParsedItems)
    requires i <= |t|
    decreases |t| - i, 4
    ensures i <= r.next <= |t|
  {
    var j := SkipWs(lib, t, i);
    if j < |t| && t[j] == RPAREN then ParsedItems([], j + 1) else ItemsAt(lib, t, j, true)
  }

  /**
   * The item loop from cursor `i`: a value, then a comma continues the run;
   * inside a group (`closing`) a `)` is consumed and ends it; anything else
   * ends it where it stands.
   */
  function ItemsAt(lib: JavaLib, t: JString, i: nat, closing: bool): (r: ParsedItems)
    requires i <= |t|
    decreases |t| - i, 3
    ensures i <= r.next <= |t|
    ensures i < |t| <==> r.items != []
  {
    if i >= |t| then ParsedItems([], i)
    else
      var p := ValueAt(lib, t, i);
      var k := SkipWs(lib, t, p.next);
      if k < |t| && t[k] == COMMA then
        var rest := ItemsAt(lib, t, SkipWs(lib, t, k + 1), closing);
        ParsedItems([p.value] + rest.items, rest.next)
      else if closing && k < |t| && t[k] == RPAREN then ParsedItems([p.value], k + 1)
      else ParsedItems([p.value], k)
  }

  /** `parseArgs(argsText)`: the top-level values of an argument text. */
  function ArgsOf(lib: JavaLib, t: JString): (r: seq<Value>)
    ensures r == [] <==> IsBlank(lib, t)
  {
    var j := SkipWs(lib, t, 0);
    SkipWsBlank(lib, t);
    if j >= |t| then [] else ItemsAt(lib, t, j, false).items
  }

  /** The static `parseArgs(argsText)`: a fresh `Parser` over the text. */
  method ParseArgsText(lib: JavaLib, t: JString) returns (r: seq<Value>)
    ensures r == ArgsOf(lib, t)
  {
    var p := new Parser(lib, t);
    r := p.ParseArgs();
  }

  /** The white-space skip reaches the end exactly when the text is blank. */
  lemma {:induction false} SkipWsBlank(lib: JavaLib, t: JString)
    ensures SkipWs(lib, t, 0) >= |t| <==> IsBlank(lib, t)
  {
    SkipWsRest(lib, t, 0);
  }

  lemma {:induction false} SkipWsRest(lib: JavaLib, t: JString, i: nat)
    requires i <= |t|
    ensures SkipWs(lib, t, i) >= |t| <==> forall k | i <= k < |t| :: lib.isWhitespace(t[k])
    decreases |t| - i
  {
    if i < |t| && lib.isWhitespace(t[i]) {
      SkipWsRest(lib, t, i + 1);
    }
  }

  /** `Parser`: a cursor over one argument text. */
  class Parser {
    const lib: JavaLib
    const text: JString
    var i: nat

    constructor (lib: JavaLib, text: JString)
      ensures this.lib == lib && this.text == text && i == 0
    {
      this.lib := lib;
      this.text := text;
      i := 0;
    }

    /** `eof()`. */
    function Eof(): (r: bool)
      reads this
      ensures r <==> i >= |text|
    {
      i >= |text|
    }

    /** `peek()`: the unit under the cursor, NUL at the end. */
    function Peek(): (r: Char16)
      reads this
      ensures i < |text| ==> r == text[i]
      ensures i >= |text| ==> r == NUL
    {
      if i >= |text| then NUL else text[i]
    }

    /** `skipWs()`. */
    method SkipWhitespace()
      modifies this
      ensures i == SkipWs(lib, text, old(i))
    {
      while !Eof() && lib.isWhitespace(Peek())
        invariant SkipWs(lib, text, i) == SkipWs(lib, text, old(i))
        decreases |text| - i
      {
        i := i + 1;
      }
    }

    /** `parseArgs()`, on a fresh parser. */
    method ParseArgs() returns (out: seq<Value>)
      modifies this
      requires i == 0
      ensures out == ArgsOf(lib, text)
    {
      SkipWhitespace();
      if Eof() {
        return [];
      }
      var p := ParseItems(false);
      out := p;
    }

    /** The item loop shared by `parseArgs` (not `closing`) and the list and typed-value branches (`closing`). */
    method ParseItems(closing: bool) returns (items: seq<Value>)
      modifies this
      requires i <= |text|
      ensures ItemsAt(lib, text, old(i), closing) == ParsedItems(items, i)
      decreases |text| - i, 3
    {
      ghost var start := i;
      items := [];
      while !Eof()
        invariant start <= i <= |text|
        invariant ItemsAt(lib, text, start, closing) == Joined(items, ItemsAt(lib, text, i, closing))
        decreases |text| - i
      {
        ghost var here := i;
        var v := ParseValue();
        var more := ItemTail(closing, here, v);
        JoinedStep(items, v, if more then ItemsAt(lib, text, i, closing) else ParsedItems([], i));
        items := items + [v];
        if !more {
          return;
        }
      }
    }

    /**
     * The item loop after the value `v` read from `here`: a comma and the
     * white space after it are consumed and the run goes on (`more`);
     * otherwise, inside a group, a `)` is consumed, and the run ends.
     */
    method ItemTail(closing: bool, ghost here: nat, ghost v: Value) returns (more: bool)
      modifies this
      requires here < |text| && i == ValueAt(lib, text, here).next && ValueAt(lib, text, here).value == v
      ensures here < i <= |text|
      ensures more ==> ItemsAt(lib, text, here, closing) == ParsedItems([v] + ItemsAt(lib, text, i, closing).items, ItemsAt(lib, text, i, closing).next)
      ensures !more ==> ItemsAt(lib, text, here, closing) == ParsedItems([v], i)
    {
      SkipWhitespace();
      ghost var k := i;
      if Peek() == COMMA {
        i := i + 1;
        SkipWhitespace();
        ItemsComma(lib, text, here, closing, v, k, i);
        return true;
      }
      if closing && Peek() == RPAREN {
        i := i + 1;
      }
      ItemsStop(lib, text, here, closing, v, k);
      return false;
    }

    /** A group once its `(` is consumed. */
    method ParseGroup() returns (items: seq<Value>)
      modifies this
      requires i <= |text|
      ensures GroupAt(lib, text, old(i)) == ParsedItems(items, i)
      decreases |text| - i, 4
    {
      SkipWhitespace();
      if Peek() == RPAREN {
        i := i + 1;
        return [];
      }
      items := ParseItems(true);
    }

    /** `parseValue()`. */
    method ParseValue() returns (v: Value)
      modifies this
      requires i <= |text|
      ensures ValueAt(lib, text, old(i)) == Parsed(v, i)
      decreases |text| - i, 2
    {
      SkipWhitespace();
      if Eof() {
        return StepNull;
      }
      v := ParseToken();
    }

    /** `parseValue()` once white space is skipped: the branch on the unit under the cursor. */
    method ParseToken() returns (v: Value)
      modifies this
      requires i < |text|
      ensures TokenAt(lib, text, old(i)) == Parsed(v, i)
      decreases |text| - i, 1
    {
      var c := Peek();
      if c == DOLLAR || c == STAR {
        i := i + 1;
        return StepNull;
      }
      if c == HASH {
        i := i + 1;
        var id := ParseInt();
        v := if id.None? then StepNull else StepRef(id.value);
        return;
      }
      if c == QUOTE {
        var s := ParseString();
        return StepString(s);
      }
      if c == LPAREN {
        i := i + 1;
        var items := ParseGroup();
        return StepList(items);
      }
      if c == DOT {
        var e := ParseEnum();
        return StepEnum(e);
      }
      if IdentStart(lib, c) {
        v := ParseNamed();
        return;
      }
      if c == PLUS || c == MINUS || lib.isDigit(c) || c == DOT {
        v := ParseNumber();
        return;
      }
      i := i + 1;
      return StepNull;
    }

    /** The identifier branch of `parseValue()`: a typed value when `(` follows, an enumeration otherwise. */
    method ParseNamed() returns (v: Value)
      modifies this
      requires i < |text|
      ensures NamedAt(lib, text, old(i)) == Parsed(v, i)
      decreases |text| - i, 0
    {
      var ident := ParseIdent();
      ident := lib.toUpperCase(ident);
      SkipWhitespace();
      if Peek() == LPAREN {
        i := i + 1;
        var inner := ParseGroup();
        return StepTyped(ident, inner);
      }
      return StepEnum(ident);
    }

    /** `parseNumber()`. */
    method ParseNumber() returns (v: Value)
      modifies this
      requires i <= |text|
      ensures i == NumberEnd(lib, text, old(i))
      ensures v == StepNumber(text[old(i)..i], lib.parseDouble(NormalizeExponent(text[old(i)..i])))
    {
      var start := i;
      while !Eof()
        invariant start <= i <= |text|
        invariant NumberEnd(lib, text, i) == NumberEnd(lib, text, start)
        decreases |text| - i
      {
        if NumberUnit(lib, Peek()) {
          i := i + 1;
          continue;
        }
        break;
      }
      var raw := text[start..i];
      var normalized := ReplaceChar(ReplaceChar(raw, 'D' as int, 'E' as int), 'd' as int, 'E' as int);
      return StepNumber(raw, lib.parseDouble(normalized));
    }

    /** `parseEnum()`, with the cursor on the opening dot. */
    method ParseEnum() returns (e: JString)
      modifies this
      requires i < |text| && text[i] == DOT
      ensures i == EnumEnd(text, old(i) + 1) && e == text[old(i)..i]
    {
      var start := i;
      i := i + 1;
      while !Eof() && Peek() != DOT
        invariant start < i <= |text|
        invariant IndexOfChar(text, DOT, i) == IndexOfChar(text, DOT, start + 1)
        decreases |text| - i
      {
        i := i + 1;
      }
      if !Eof() && Peek() == DOT {
        i := i + 1;
      }
      return text[start..i];
    }

    /** `parseIdent()`, with the cursor on an identifier start. */
    method ParseIdent() returns (name: JString)
      modifies this
      requires i < |text|
      ensures i == IdentEnd(lib, text, old(i) + 1) && name == text[old(i)..i]
    {
      var start := i;
      var end := ReadIdent(lib, text, start + 1);
      i := end;
      return text[start..i];
    }

    /** `parseString()`, with the cursor on the opening quote. */
    method ParseString() returns (s: JString)
      modifies this
      requires i < |text| && text[i] == QUOTE
      ensures s == DecodeAt(ReadQuoted(text, old(i) + 1).body, 0) && i == StringEnd(text, old(i) + 1)
    {
      i := i + 1;
      var body, stop := ReadQuotedBody(text, i);
      i := stop;
      if !Eof() && Peek() == QUOTE {
        i := i + 1;
      }
      s := DecodeStepEscapes(body);
    }

    /** `parseInt()`: the digits after `#`, or None (cursor unchanged) when there are none. */
    method ParseInt() returns (id: Option<int>)
      modifies this
      requires i <= |text|
      ensures var d := DigitsEnd(lib, text, old(i));
        if d == old(i) then id == None && i == old(i) else id == Some(DigitValue(text[old(i)..d])) && i == d
    {
      var v, d := ReadDigits(lib, text, i);
      if d == i {
        return None;
      }
      i := d;
      return Some(v);
    }
  }

  /** Items already read, followed by what the loop reads from here on. */
  function Joined(items: seq<Value>, r: ParsedItems): ParsedItems {
    ParsedItems(items + r.items, r.next)
  }

  lemma JoinedStep(items: seq<Value>, v: Value, r: ParsedItems)
    ensures Joined(items + [v], r) == Joined(items, ParsedItems([v] + r.items, r.next))
  {
    assert (items + [v]) + r.items == items + ([v] + r.items);
  }

  /** One pass of the item loop that meets a comma continues the run after it. */
  lemma ItemsComma(lib: JavaLib, t: JString, i: nat, closing: bool, v: Value, k: nat, m: nat)
    requires i < |t| && ValueAt(lib, t, i).value == v && k == SkipWs(lib, t, ValueAt(lib, t, i).next)
    requires k < |t| && t[k] == COMMA && m == SkipWs(lib, t, k + 1)
    ensures ItemsAt(lib, t, i, closing) == ParsedItems([v] + ItemsAt(lib, t, m, closing).items, ItemsAt(lib, t, m, closing).next)
  {
    var rest := ItemsAt(lib, t, m, closing);
    assert ItemsAt(lib, t, i, closing) == ParsedItems([ValueAt(lib, t, i).value] + rest.items, rest.next);
  }

  /** One pass of the item loop that does not meet a comma ends the run. */
  lemma ItemsStop(lib: JavaLib, t: JString, i: nat, closing: bool, v: Value, k: nat)
    requires i < |t| && ValueAt(lib, t, i).value == v && k == SkipWs(lib, t, ValueAt(lib, t, i).next)
    requires !(k < |t| && t[k] == COMMA)
    ensures ItemsAt(lib, t, i, closing) == ParsedItems([v], if closing && k < |t| && t[k] == RPAREN then k + 1 else k)
  {
  }

  // ---------------------------------------------------------------------
  // asString, asRef, blankToNull
  // ---------------------------------------------------------------------

  /** `asString(args, idx)`: the text of a string or enumeration argument. */
  function AsString(args: seq<Value>, idx: int): (r: Option<JString>)
    ensures r.Some? <==> 0 <= idx < |args| && (args[idx].StepString? || args[idx].StepEnum?)
    ensures r.Some? ==> r.value == args[idx].value
  {
    if idx < 0 || idx >= |args| then None
    else match args[idx]
      case StepString(s) => Some(s)
      case StepEnum(e) => Some(e)
      case _ => None
  }

  /** `asRef(args, idx)`: the id of a reference argument. */
  function AsRef(args: seq<Value>, idx: int): (r: Option<int>)
    ensures r.Some? <==> 0 <= idx < |args| && args[idx].StepRef?
    ensures r.Some? ==> r.value == args[idx].id
  {
    if idx < 0 || idx >= |args| then None
    else match args[idx]
      case StepRef(id) => Some(id)
      case _ => None
  }

  /** `blankToNull`. */
  function BlankToNull(lib: JavaLib, s: Option<JString>): (r: Option<JString>)
    ensures r.Some? <==> s.Some? && !IsBlank(lib, s.value)
    ensures r.Some? ==> r == s
  {
    if s.None? || IsBlank(lib, s.value) then None else s
  }
}
