/**
 * A writer for STEP argument lists, the inverse the parameter-list parser
 * is checked against: `$`, quoted strings (quotes doubled) and `#id`
 * references joined by commas are read back by `ArgsOf` as the values
 * they were written from.
 *
 * The round trip needs the library's character classes to agree with
 * ASCII on printable ASCII units, which `Character.isWhitespace` and
 * `Character.isDigit` do.
 */
module StepWriter {
  import opened JavaText
  import opened StepEscapes
  import opened StepScanner
  import opened StepValues

  /** The library's white-space and digit classes agree with ASCII on the printable ASCII units. */
  predicate AsciiSane(lib: JavaLib) {
    (forall c: Char16 | 0x21 <= c < 0x7F :: !lib.isWhitespace(c))
    && (forall c: Char16 | 0x21 <= c < 0x7F :: lib.isDigit(c) <==> DIGIT0 <= c <= DIGIT0 + 9)
  }

  /** The values this writer emits: null, strings without a backslash, and non-negative `int` references. */
  predicate Writable(v: Value) {
    v.StepNull? || (v.StepString? && BACKSLASH !in v.value) || (v.StepRef? && 0 <= v.id <= INT_MAX)
  }

  /** The decimal digits of `n`, most significant first. */
  function Decimal(n: nat): (r: JString)
    ensures |r| >= 1
    ensures forall k | 0 <= k < |r| :: DIGIT0 <= r[k] <= DIGIT0 + 9
  {
    if n < 10 then [DIGIT0 + n] else Decimal(n / 10) + [DIGIT0 + n % 10]
  }

  /** The STEP text of one value. */
  function WriteValue(v: Value): (r: JString)
    requires Writable(v)
    ensures |r| >= 1 && (r[0] == DOLLAR || r[0] == QUOTE || r[0] == HASH)
  {
    match v
    case StepNull => [DOLLAR]
    case StepString(s) => [QUOTE] + EscapeQuotes(s) + [QUOTE]
    case StepRef(id) => [HASH] + Decimal(id)
  }

  /** The STEP text of an argument list, without the surrounding parentheses. */
  function WriteArgs(vs: seq<Value>): (r: JString)
    requires forall k | 0 <= k < |vs| :: Writable(vs[k])
    ensures vs == [] <==> r == []
    ensures vs != [] ==> r[0] == DOLLAR || r[0] == QUOTE || r[0] == HASH
  {
    if vs == [] then []
    else if |vs| == 1 then WriteValue(vs[0])
    else WriteValue(vs[0]) + [COMMA] + WriteArgs(vs[1..])
  }

  /** Reading the digits of a non-negative `int` gives it back. */
  lemma {:induction false} DecimalValue(n: nat)
    requires n <= INT_MAX
    ensures DigitValue(Decimal(n)) == n
  {
    var d := Decimal(n);
    if n < 10 {
      assert d[..0] == [];
    } else {
      DecimalValue(n / 10);
      assert d[..|d| - 1] == Decimal(n / 10);
    }
  }

  /** The digit run of a written reference ends where the reference ends. */
  lemma {:induction false} DigitsEndAt(lib: JavaLib, t: JString, i: nat, e: nat)
    requires AsciiSane(lib)
    requires i <= e <= |t|
    requires forall k | i <= k < e :: DIGIT0 <= t[k] <= DIGIT0 + 9
    requires e == |t| || t[e] == COMMA || t[e] == RPAREN
    ensures DigitsEnd(lib, t, i) == e
    decreases e - i
  {
    if i < e {
      assert lib.isDigit(t[i]);
      DigitsEndAt(lib, t, i + 1, e);
    } else if e < |t| {
      assert !lib.isDigit(t[e]);
    }
  }

  /** The text `w` stands in `t` at `i`, followed by the end, a comma or a closing parenthesis. */
  predicate WrittenAt(t: JString, i: nat, w: JString) {
    var e := i + |w|;
    e <= |t| && t[i..e] == w && (e == |t| || t[e] == COMMA || t[e] == RPAREN)
  }

  /** The parser reads a written value back, and stops right after it. */
  lemma ValueRoundTrip(lib: JavaLib, t: JString, i: nat, v: Value)
    requires AsciiSane(lib) && Writable(v)
    requires WrittenAt(t, i, WriteValue(v))
    ensures ValueAt(lib, t, i) == Parsed(v, i + |WriteValue(v)|)
  {
    var w := WriteValue(v);
    assert t[i] == w[0];
    assert SkipWs(lib, t, i) == i by {
      assert !lib.isWhitespace(t[i]);
    }
    TokenRoundTrip(lib, t, i, v);
  }

  lemma TokenRoundTrip(lib: JavaLib, t: JString, i: nat, v: Value)
    requires AsciiSane(lib) && Writable(v)
    requires WrittenAt(t, i, WriteValue(v))
    ensures i < |t| && TokenAt(lib, t, i) == Parsed(v, i + |WriteValue(v)|)
  {
    match v
    case StepNull =>
      assert t[i] == WriteValue(v)[0];
    case StepString(s) =>
      StringRoundTrip(lib, t, i, s);
    case StepRef(id) =>
      RefRoundTrip(lib, t, i, id);
  }

  lemma RefRoundTrip(lib: JavaLib, t: JString, i: nat, id: int)
    requires AsciiSane(lib) && 0 <= id <= INT_MAX
    requires WrittenAt(t, i, [HASH] + Decimal(id))
    ensures i < |t| && TokenAt(lib, t, i) == Parsed(StepRef(id), i + 1 + |Decimal(id)|)
  {
    var d := Decimal(id);
    var w := [HASH] + d;
    var e := i + 1 + |d|;
    assert t[i] == w[0] == HASH;
    SliceWithin(t, i, w, 1, |w|);
    assert w[1..] == d;
    assert t[i + 1..e] == d;
    forall k | i + 1 <= k < e
      ensures DIGIT0 <= t[k] <= DIGIT0 + 9
    {
      assert t[k] == d[k - i - 1];
    }
    DigitsEndAt(lib, t, i + 1, e);
    DecimalValue(id);
  }

  lemma StringRoundTrip(lib: JavaLib, t: JString, i: nat, s: JString)
    requires BACKSLASH !in s
    requires WrittenAt(t, i, [QUOTE] + EscapeQuotes(s) + [QUOTE])
    ensures i < |t| && TokenAt(lib, t, i) == Parsed(StepString(s), i + |EscapeQuotes(s)| + 2)
  {
    var j := i + 1 + |EscapeQuotes(s)|;
    QuotedAt(t, i, s);
    DecodedPlain(s);
    StringToken(lib, t, i, s, j);
  }

  /** The quoted body of a written string reads back as the string. */
  lemma QuotedAt(t: JString, i: nat, s: JString)
    requires WrittenAt(t, i, [QUOTE] + EscapeQuotes(s) + [QUOTE])
    ensures var j := i + 1 + |EscapeQuotes(s)|;
      j < |t| && t[i] == QUOTE && ReadQuoted(t, i + 1) == Quoted(s, j)
  {
    var e := EscapeQuotes(s);
    QuotedFrame(t, i, e);
    QuotedRoundTrip(t, i + 1, s);
  }

  /** The parts of a quoted text that stands in `t` at `i`. */
  lemma QuotedFrame(t: JString, i: nat, e: JString)
    requires WrittenAt(t, i, [QUOTE] + e + [QUOTE])
    ensures var j := i + 1 + |e|;
      j < |t| && t[i] == QUOTE && t[i + 1..j] == e && t[j] == QUOTE && (j + 1 == |t| || t[j + 1] != QUOTE)
  {
    var w := [QUOTE] + e + [QUOTE];
    assert t[i] == w[0];
    SliceWithin(t, i, w, 1, 1 + |e|);
    assert w[1..1 + |e|] == e;
    assert t[i + 1 + |e|] == w[1 + |e|];
  }

  lemma StringToken(lib: JavaLib, t: JString, i: nat, s: JString, j: nat)
    requires i < j < |t| && t[i] == QUOTE && ReadQuoted(t, i + 1) == Quoted(s, j) && DecodeAt(s, 0) == s
    ensures TokenAt(lib, t, i) == Parsed(StepString(s), j + 1)
  {
  }

  lemma DecodedPlain(s: JString)
    requires BACKSLASH !in s
    ensures DecodeAt(s, 0) == s
  {
    NoBackslashUnchanged(s, 0);
    assert s[0..] == s;
  }

  /** A piece of a text that stands inside a larger one. */
  lemma SliceWithin(t: JString, i: nat, w: JString, a: nat, b: nat)
    requires i + |w| <= |t| && t[i..i + |w|] == w && a <= b <= |w|
    ensures t[i + a..i + b] == w[a..b]
  {
    forall k | 0 <= k < b - a
      ensures t[i + a..i + b][k] == w[a..b][k]
    {
      assert t[i + a..i + b][k] == t[i + a + k] == t[i..i + |w|][a + k];
    }
  }

  /** The parser reads a written, non-empty argument list that runs to the end of the text. */
  lemma {:induction false} ItemsRoundTrip(lib: JavaLib, t: JString, i: nat, vs: seq<Value>)
    requires AsciiSane(lib) && vs != [] && forall k | 0 <= k < |vs| :: Writable(vs[k])
    requires i <= |t| && t[i..] == WriteArgs(vs)
    ensures ItemsAt(lib, t, i, false) == ParsedItems(vs, |t|)
    decreases |vs|
  {
    if |vs| == 1 {
      WrittenSingle(t, i, vs);
      LastItem(lib, t, i, vs);
    } else {
      var e := i + |WriteValue(vs[0])|;
      FirstOfMany(t, i, vs, e);
      ItemsRoundTrip(lib, t, e + 1, vs[1..]);
      NextItem(lib, t, i, vs, e);
    }
  }

  /** A written list of one value that runs to the end of the text. */
  lemma WrittenSingle(t: JString, i: nat, vs: seq<Value>)
    requires |vs| == 1 && Writable(vs[0])
    requires i <= |t| && t[i..] == WriteArgs(vs)
    ensures WrittenAt(t, i, WriteValue(vs[0])) && i + |WriteValue(vs[0])| == |t|
  {
    assert t[i..i + |WriteValue(vs[0])|] == t[i..];
  }

  /** The last written value of a list. */
  lemma LastItem(lib: JavaLib, t: JString, i: nat, vs: seq<Value>)
    requires AsciiSane(lib) && |vs| == 1 && Writable(vs[0])
    requires WrittenAt(t, i, WriteValue(vs[0])) && i + |WriteValue(vs[0])| == |t|
    ensures ItemsAt(lib, t, i, false) == ParsedItems(vs, |t|)
  {
    ValueRoundTrip(lib, t, i, vs[0]);
    ItemsStop(lib, t, i, false, vs[0], |t|);
    assert vs == [vs[0]];
  }

  /** A written value, ending at `e`, followed by a comma and the rest of the list. */
  lemma NextItem(lib: JavaLib, t: JString, i: nat, vs: seq<Value>, e: nat)
    requires AsciiSane(lib) && |vs| >= 2 && Writable(vs[0])
    requires e == i + |WriteValue(vs[0])| && WrittenAt(t, i, WriteValue(vs[0]))
    requires e + 1 < |t| && t[e] == COMMA && (t[e + 1] == DOLLAR || t[e + 1] == QUOTE || t[e + 1] == HASH)
    requires ItemsAt(lib, t, e + 1, false) == ParsedItems(vs[1..], |t|)
    ensures ItemsAt(lib, t, i, false) == ParsedItems(vs, |t|)
  {
    Separated(lib, t, i, vs[0], t[e + 1], e);
    ItemsComma(lib, t, i, false, vs[0], e, e + 1);
    assert [vs[0]] + vs[1..] == vs;
  }

  /** After a written value ending at `e`: no white space before the comma, nor after it. */
  lemma Separated(lib: JavaLib, t: JString, i: nat, v: Value, c: Char16, e: nat)
    requires AsciiSane(lib) && Writable(v)
    requires e == i + |WriteValue(v)| && e + 1 < |t| && WrittenAt(t, i, WriteValue(v))
    requires t[e] == COMMA && t[e + 1] == c && (c == DOLLAR || c == QUOTE || c == HASH)
    ensures ValueAt(lib, t, i) == Parsed(v, e)
    ensures SkipWs(lib, t, e) == e && SkipWs(lib, t, e + 1) == e + 1
  {
    ValueRoundTrip(lib, t, i, v);
    assert !lib.isWhitespace(t[e]);
    assert !lib.isWhitespace(t[e + 1]);
  }

  /** How a list of two or more written values starts: the first value, a comma, the rest. */
  lemma FirstOfMany(t: JString, i: nat, vs: seq<Value>, e: nat)
    requires |vs| >= 2 && forall k | 0 <= k < |vs| :: Writable(vs[k])
    requires i <= |t| && t[i..] == WriteArgs(vs) && e == i + |WriteValue(vs[0])|
    ensures e + 1 < |t| && t[e] == COMMA && WrittenAt(t, i, WriteValue(vs[0]))
    ensures t[e + 1..] == WriteArgs(vs[1..])
    ensures t[e + 1] == DOLLAR || t[e + 1] == QUOTE || t[e + 1] == HASH
  {
    var w := WriteValue(vs[0]);
    var rest := WriteArgs(vs[1..]);
    assert t[i..] == w + [COMMA] + rest;
    PrefixParts(t, i, w, rest);
    assert t[e + 1] == rest[0];
  }

  lemma PrefixParts(t: JString, i: nat, w: JString, rest: JString)
    requires i <= |t| && t[i..] == w + [COMMA] + rest
    ensures i + |w| + 1 + |rest| == |t|
    ensures t[i..i + |w|] == w && t[i + |w|] == COMMA && t[i + |w| + 1..] == rest
  {
    var s := t[i..];
    assert |s| == |t| - i;
    forall k | 0 <= k < |w|
      ensures t[i..i + |w|][k] == w[k]
    {
      assert t[i..i + |w|][k] == t[i + k] == s[k];
    }
    assert t[i + |w|] == s[|w|];
    forall k | 0 <= k < |rest|
      ensures t[i + |w| + 1..][k] == rest[k]
    {
      assert t[i + |w| + 1..][k] == t[i + |w| + 1 + k] == s[|w| + 1 + k];
    }
  }

  /** `parseArgs` inverts the writer: the written arguments are read back as the values written. */
  lemma ArgsRoundTrip(lib: JavaLib, vs: seq<Value>)
    requires AsciiSane(lib) && forall k | 0 <= k < |vs| :: Writable(vs[k])
    ensures ArgsOf(lib, WriteArgs(vs)) == vs
  {
    var t := WriteArgs(vs);
    if vs != [] {
      assert !lib.isWhitespace(t[0]);
      assert SkipWs(lib, t, 0) == 0;
      assert t[0..] == t;
      ItemsRoundTrip(lib, t, 0, vs);
    }
  }
}
