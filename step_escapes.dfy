/**
 * The string codec of ISO 10303-21:2002 clause 6.4.3 as `StepModelInfoParser`
 * implements it: `\X\hh` (one 8-bit code), `\X2\...\X0\` (runs of 4-digit
 * UTF-16 units) and `\X4\...\X0\` (runs of 8-digit code points), plus the
 * `''` quoting of string literals shared by every reader of quoted text.
 *
 * Each loop of the source is a method proved equal to a recursive
 * specification function; the properties of the codec are lemmas about those
 * functions.
 */
module StepEscapes {
  import opened JavaText

  // ---------------------------------------------------------------------
  // Hex digits
  // ---------------------------------------------------------------------

  function UpperHexDigit(v: int): (c: Char16)
    requires 0 <= v < 16
  {
    if v < 10 then '0' as int + v else 'A' as int + (v - 10)
  }

  function LowerHexDigit(v: int): (c: Char16)
    requires 0 <= v < 16
  {
    if v < 10 then '0' as int + v else 'a' as int + (v - 10)
  }

  /**
   * `hexValue`: the value of an ASCII hex digit in either case, -1 for any
   * other unit. (`Character.toLowerCase` maps no non-ASCII unit into
   * [0-9a-f], so the test is exactly the ASCII one.)
   */
  function HexValue(c: Char16): (r: int)
    ensures -1 <= r < 16
    ensures 0 <= r ==> c == UpperHexDigit(r) || c == LowerHexDigit(r)
    ensures r == -1 ==> forall v | 0 <= v < 16 :: c != UpperHexDigit(v) && c != LowerHexDigit(v)
  {
    if '0' as int <= c <= '9' as int then c - '0' as int
    else if 'a' as int <= c <= 'f' as int then 10 + (c - 'a' as int)
    else if 'A' as int <= c <= 'F' as int then 10 + (c - 'A' as int)
    else -1
  }

  /** `isHex`. */
  predicate IsHex(c: Char16) {
    HexValue(c) >= 0
  }

  lemma HexDigitValues(v: int)
    requires 0 <= v < 16
    ensures HexValue(UpperHexDigit(v)) == v && HexValue(LowerHexDigit(v)) == v
  {
  }

  /** `hexByte`: the byte spelled by two hex digits, or -1. */
  function HexByte(hi: Char16, lo: Char16): (r: int)
    ensures -1 <= r < 256
    ensures r >= 0 <==> IsHex(hi) && IsHex(lo)
    ensures r >= 0 ==> r / 16 == HexValue(hi) && r % 16 == HexValue(lo)
  {
    var a := HexValue(hi);
    var b := HexValue(lo);
    if a < 0 || b < 0 then -1 else a * 16 + b
  }

  predicate AllHex(s: JString) {
    forall k | 0 <= k < |s| :: IsHex(s[k])
  }

  function Pow16(w: nat): (r: nat)
    ensures r >= 1
  {
    if w == 0 then 1 else 16 * Pow16(w - 1)
  }

  /** The number a run of hex digits spells, most significant digit first. */
  function HexNumber(h: JString): (n: nat)
    requires AllHex(h)
    ensures n < Pow16(|h|)
  {
    if h == [] then 0 else HexNumber(h[..|h| - 1]) * 16 + HexValue(h[|h| - 1])
  }

  /** The `w` upper-case hex digits of `v` (the encoder's side). */
  function HexDigits(v: nat, w: nat): (r: JString)
    ensures |r| == w && AllHex(r)
  {
    if w == 0 then [] else HexDigits(v / 16, w - 1) + [UpperHexDigit(v % 16)]
  }

  lemma {:induction false} HexNumberOfDigits(v: nat, w: nat)
    requires v < Pow16(w)
    ensures HexNumber(HexDigits(v, w)) == v
  {
    if w > 0 {
      var d := HexDigits(v, w);
      assert d[..|d| - 1] == HexDigits(v / 16, w - 1);
      HexNumberOfDigits(v / 16, w - 1);
      HexDigitValues(v % 16);
    }
  }

  // ---------------------------------------------------------------------
  // indexOfEndMarker
  // ---------------------------------------------------------------------

  /** `\X0\` (either case of X) starts at `k`. */
  predicate IsEndMarkerAt(t: JString, k: int) {
    0 <= k && k + 3 < |t| && t[k] == BACKSLASH && (t[k + 1] == 'X' as int || t[k + 1] == 'x' as int)
    && t[k + 2] == '0' as int && t[k + 3] == BACKSLASH
  }

  /** The first `\X0\` at or after `from`, or -1. */
  function FindEndMarker(t: JString, from: int): (r: int)
    decreases |t| - Max(0, from)
    ensures r == -1 || (Max(0, from) <= r && IsEndMarkerAt(t, r))
    ensures forall k | Max(0, from) <= k && (r == -1 || k < r) :: !IsEndMarkerAt(t, k)
  {
    var i := Max(0, from);
    if i + 3 >= |t| then -1
    else if IsEndMarkerAt(t, i) then i
    else FindEndMarker(t, i + 1)
  }

  /** `indexOfEndMarker`. */
  method IndexOfEndMarker(t: JString, from: int) returns (r: int)
    ensures r == FindEndMarker(t, from)
    ensures r == -1 || (Max(0, from) <= r && IsEndMarkerAt(t, r))
  {
    var i := Max(0, from);
    while i + 3 < |t|
      invariant Max(0, from) <= i
      invariant FindEndMarker(t, i) == FindEndMarker(t, from)
      decreases |t| - i
    {
      if t[i] == BACKSLASH && (t[i + 1] == 'X' as int || t[i + 1] == 'x' as int)
        && t[i + 2] == '0' as int && t[i + 3] == BACKSLASH
      {
        return i;
      }
      i := i + 1;
    }
    return -1;
  }

  // ---------------------------------------------------------------------
  // decodeHexSequence
  // ---------------------------------------------------------------------

  /** The mode letter after `\X`: `2` or `4`. */
  datatype HexMode = Ucs2 | Ucs4

  function GroupSize(m: HexMode): (g: nat)
    ensures g == 4 || g == 8
  {
    if m.Ucs4? then 8 else 4
  }

  /** The hex digits of `s`, in order; every other unit is dropped. */
  function HexOnly(s: JString): (r: JString)
    ensures AllHex(r) && |r| <= |s|
  {
    if s == [] then []
    else HexOnly(s[..|s| - 1]) + (if IsHex(s[|s| - 1]) then [s[|s| - 1]] else [])
  }

  /** `Character.toChars`: one unit in the BMP, a surrogate pair above it. */
  function ToChars(cp: int): (r: JString)
    requires 0 <= cp <= 0x10_FFFF
    ensures 1 <= |r| <= 2
  {
    if cp < 0x1_0000 then [cp]
    else [0xD800 + (cp - 0x1_0000) / 0x400, 0xDC00 + (cp - 0x1_0000) % 0x400]
  }

  /** What one parsed group contributes to the output. */
  function GroupUnits(cp: nat, m: HexMode): JString {
    match m
    case Ucs2 => [cp % 0x1_0000]                          // (char) codePoint
    case Ucs4 => if cp <= 0x10_FFFF then ToChars(cp) else [] // invalid code points are skipped
  }

  /**
   * The groups of `h` decoded in order; None when a group does not fit a
   * Java `int` (`Integer.parseInt` throws). Digits short of a whole group
   * at the end are not decoded.
   */
  function DecodeGroups(h: JString, m: HexMode): Option<JString>
    requires AllHex(h)
    decreases |h|
  {
    if |h| < GroupSize(m) then Some([])
    else
      var g := GroupSize(m);
      var cp := HexNumber(h[..g]);
      if cp > INT_MAX then None
      else match DecodeGroups(h[g..], m)
        case None => None
        case Some(rest) => Some(GroupUnits(cp, m) + rest)
  }

  /** The number of hex digits of `h` that form whole groups. */
  function Usable(h: JString, m: HexMode): (u: nat)
    ensures u <= |h| && u % GroupSize(m) == 0 && |h| - u < GroupSize(m)
  {
    |h| - |h| % GroupSize(m)
  }

  /**
   * `decodeHexSequence`: the text between `\X2\` (or `\X4\`) and `\X0\`
   * decoded, or None when the escape has to stay literal.
   */
  function DecodeHex(t: JString, m: HexMode): Option<JString> {
    if t == [] then Some([])
    else
      var h := HexOnly(t);
      var u := Usable(h, m);
      if u <= 0 then None else DecodeGroups(h[..u], m)
  }

  method DecodeHexSequence(t: JString, m: HexMode) returns (r: Option<JString>)
    ensures r == DecodeHex(t, m)
  {
    if |t| == 0 {
      return Some([]);
    }
    var hex := KeepHexDigits(t);
    var g := GroupSize(m);
    var usable := |hex| - |hex| % g;
    if usable <= 0 {
      return None;
    }
    r := DecodeWholeGroups(hex, usable, m);
  }

  /** The filtering loop of `decodeHexSequence`. */
  method KeepHexDigits(t: JString) returns (hex: JString)
    ensures hex == HexOnly(t)
  {
    hex := [];
    var i := 0;
    while i < |t|
      invariant 0 <= i <= |t|
      invariant hex == HexOnly(t[..i])
    {
      assert t[..i + 1][..i] == t[..i];
      if IsHex(t[i]) {
        hex := hex + [t[i]];
      }
      i := i + 1;
    }
    assert t[..i] == t;
  }

  /** The group loop of `decodeHexSequence`, over the first `usable` digits. */
  method DecodeWholeGroups(hex: JString, usable: nat, m: HexMode) returns (r: Option<JString>)
    requires AllHex(hex) && usable == Usable(hex, m)
    ensures r == DecodeGroups(hex[..usable], m)
  {
    var g := GroupSize(m);
    ghost var h := hex[..usable];
    var out: JString := [];
    var i := 0;
    assert h[i..] == h;
    PrefixedEmpty(DecodeGroups(h, m));
    while i < usable
      invariant 0 <= i <= usable && Aligned(i, usable, m)
      invariant DecodeGroups(h, m) == Prefixed(out, DecodeGroups(h[i..], m))
      decreases usable - i
    {
      NextGroup(i, usable, m);
      assert h[i..i + g] == hex[i..i + g];
      var cp := HexNumber(hex[i..i + g]);
      GroupLoopStep(h, i, m, out, i + g, cp);
      if cp > INT_MAX {
        return None;
      }
      out := out + GroupUnits(cp, m);
      i := i + g;
    }
    assert h[i..] == [];
    assert out + [] == out;
    return Some(out);
  }

  /** `out` put in front of a decoded result, failure kept. */
  function Prefixed(out: JString, r: Option<JString>): Option<JString> {
    match r
    case None => None
    case Some(rest) => Some(out + rest)
  }

  lemma PrefixedEmpty(r: Option<JString>)
    ensures Prefixed([], r) == r
  {
    if r.Some? {
      assert [] + r.value == r.value;
    }
  }

  lemma PrefixedAppend(a: JString, b: JString, r: Option<JString>)
    ensures Prefixed(a, Prefixed(b, r)) == Prefixed(a + b, r)
  {
    if r.Some? {
      assert a + (b + r.value) == (a + b) + r.value;
    }
  }

  /** The group loop's invariant carried past the group at `i`, ending at `next`, whose value is `cp`. */
  lemma GroupLoopStep(h: JString, i: nat, m: HexMode, out: JString, next: nat, cp: int)
    requires AllHex(h) && next == i + GroupSize(m) && next <= |h|
    requires cp == HexNumber(h[i..next])
    ensures cp > INT_MAX ==> Prefixed(out, DecodeGroups(h[i..], m)) == None
    ensures cp <= INT_MAX ==>
      Prefixed(out, DecodeGroups(h[i..], m)) == Prefixed(out + GroupUnits(cp, m), DecodeGroups(h[next..], m))
  {
    GroupStep(h, i, m, next, cp);
    if cp <= INT_MAX {
      PrefixedAppend(out, GroupUnits(cp, m), DecodeGroups(h[next..], m));
    }
  }

  /** Decoding the groups from `i` on: the group at `i`, ending at `next`, then the rest. */
  lemma GroupStep(h: JString, i: nat, m: HexMode, next: nat, cp: int)
    requires AllHex(h) && next == i + GroupSize(m) && next <= |h|
    requires cp == HexNumber(h[i..next])
    ensures cp > INT_MAX ==> DecodeGroups(h[i..], m) == None
    ensures cp <= INT_MAX ==> DecodeGroups(h[i..], m) == Prefixed(GroupUnits(cp, m), DecodeGroups(h[next..], m))
  {
    var g := GroupSize(m);
    assert h[i..][..g] == h[i..next];
    assert h[i..][g..] == h[next..];
  }

  /** `i` and `u` are both at group boundaries. */
  predicate Aligned(i: int, u: int, m: HexMode) {
    i % GroupSize(m) == 0 && (u - i) % GroupSize(m) == 0
  }

  /** Group boundaries: the next group of a whole-group prefix fits in it. */
  lemma NextGroup(i: int, u: int, m: HexMode)
    requires 0 <= i < u && Aligned(i, u, m)
    ensures i + GroupSize(m) <= u && Aligned(i + GroupSize(m), u, m)
  {
    if m.Ucs2? { } else { }
  }

  // ---------------------------------------------------------------------
  // decodeStepEscapes
  // ---------------------------------------------------------------------

  /** One step of the decoding loop: what is appended and where it resumes. */
  datatype Step = Step(out: JString, next: nat)

  /**
   * A `\X2\` or `\X4\` run starting at `i`, up to and including its `\X0\`,
   * decoded; None when there is no such run or it cannot be decoded.
   */
  function RunAt(v: JString, i: nat): (r: Option<Step>)
    requires i + 2 < |v|
    ensures r.Some? ==> i + 8 <= r.value.next <= |v|
  {
    var mode := v[i + 2];
    if (mode == '2' as int || mode == '4' as int) && i + 3 < |v| && v[i + 3] == BACKSLASH then
      var e := FindEndMarker(v, i + 4);
      if e > 0 then
        match DecodeHex(v[i + 4..e], if mode == '4' as int then Ucs4 else Ucs2)
        case Some(d) => Some(Step(d, e + 4))
        case None => None
      else None
    else None
  }

  /** One pass of the decoding loop at index `i`. */
  function EscapeAt(v: JString, i: nat): (s: Step)
    requires i < |v|
    ensures i < s.next <= |v|
  {
    var c := v[i];
    if c != BACKSLASH || i + 2 >= |v| then Step([c], i + 1)
    else if v[i + 1] != 'X' as int && v[i + 1] != 'x' as int then Step([c], i + 1)
    else if RunAt(v, i).Some? then RunAt(v, i).value
    else if v[i + 2] == BACKSLASH && i + 4 < |v| && HexByte(v[i + 3], v[i + 4]) >= 0 then
      Step([HexByte(v[i + 3], v[i + 4])], i + 5)
    else Step([c], i + 1)
  }

  /** The decoding of `v` from index `i` on. */
  function DecodeAt(v: JString, i: nat): JString
    decreases |v| - i
  {
    if i >= |v| then [] else var s := EscapeAt(v, i); s.out + DecodeAt(v, s.next)
  }

  /** `decodeStepEscapes`. */
  method DecodeStepEscapes(v: JString) returns (r: JString)
    ensures r == DecodeAt(v, 0)
  {
    if |v| == 0 || BACKSLASH !in v {
      NoBackslashUnchanged(v, 0);
      assert v[0..] == v;
      return v;
    }
    var out: JString := [];
    var i := 0;
    while i < |v|
      invariant 0 <= i <= |v|
      invariant out + DecodeAt(v, i) == DecodeAt(v, 0)
      decreases |v| - i
    {
      var piece, next := EscapeStep(v, i);
      DecodeStep(v, i, out);
      out := out + piece;
      i := next;
    }
    return out;
  }

  /** One pass of the decoding loop at `i`: `piece` is what it appends and `next` where the following pass starts. */
  method EscapeStep(v: JString, i: nat) returns (piece: JString, next: nat)
    requires i < |v|
    ensures Step(piece, next) == EscapeAt(v, i)
  {
    var len := |v|;
    var c := v[i];
    piece, next := [c], i + 1;
    if c == BACKSLASH && i + 2 < len && (v[i + 1] == 'X' as int || v[i + 1] == 'x' as int) {
      var mode := v[i + 2];
      var done := false;
      if (mode == '2' as int || mode == '4' as int) && i + 3 < len && v[i + 3] == BACKSLASH {
        var seqStart := i + 4;
        var endMarker := IndexOfEndMarker(v, seqStart);
        if endMarker > 0 {
          var decoded := DecodeHexSequence(v[seqStart..endMarker], if mode == '4' as int then Ucs4 else Ucs2);
          if decoded.Some? {
            piece, next, done := decoded.value, endMarker + 4, true;
          }
        }
      }
      if !done && mode == BACKSLASH && i + 4 < len {
        var b := HexByte(v[i + 3], v[i + 4]);
        if b >= 0 {
          piece, next := [b], i + 5;
        }
      }
    }
  }

  lemma DecodeStep(v: JString, i: nat, out: JString)
    requires i < |v|
    ensures out + DecodeAt(v, i) == (out + EscapeAt(v, i).out) + DecodeAt(v, EscapeAt(v, i).next)
  {
  }

  // ---------------------------------------------------------------------
  // Properties of the decoder
  // ---------------------------------------------------------------------

  /** Text without a backslash decodes to itself. */
  lemma {:induction false} NoBackslashUnchanged(v: JString, i: nat)
    requires i <= |v|
    requires forall k | i <= k < |v| :: v[k] != BACKSLASH
    ensures DecodeAt(v, i) == v[i..]
    decreases |v| - i
  {
    if i < |v| {
      NoBackslashUnchanged(v, i + 1);
      assert v[i..] == [v[i]] + v[i + 1..];
    }
  }

  lemma PlainStep(v: JString, i: nat)
    requires i < |v| && v[i] != BACKSLASH
    ensures DecodeAt(v, i) == [v[i]] + DecodeAt(v, i + 1)
  {
    assert EscapeAt(v, i) == Step([v[i]], i + 1);
  }

  lemma ConsSlice(v: JString, i: nat, j: nat, a: JString, b: JString, c: JString)
    requires i < j <= |v|
    requires a == [v[i]] + b && b == v[i + 1..j] + c
    ensures a == v[i..j] + c
  {
    assert v[i..j] == [v[i]] + v[i + 1..j];
  }

  /** A backslash-free stretch `v[i..j]` is copied and decoding resumes at `j`. */
  lemma {:induction false} PlainStretch(v: JString, i: nat, j: nat)
    requires i <= j <= |v|
    requires forall k | i <= k < j :: v[k] != BACKSLASH
    ensures DecodeAt(v, i) == v[i..j] + DecodeAt(v, j)
    decreases j - i
  {
    if i < j {
      PlainStep(v, i);
      PlainStretch(v, i + 1, j);
      ConsSlice(v, i, j, DecodeAt(v, i), DecodeAt(v, i + 1), DecodeAt(v, j));
    }
  }

  /** Only the hex digits of a run matter (when it has any). */
  lemma {:induction false} HexOnlyOfAllHex(s: JString)
    requires AllHex(s)
    ensures HexOnly(s) == s
  {
    if s != [] {
      HexOnlyOfAllHex(s[..|s| - 1]);
    }
  }

  lemma NonHexIgnored(t: JString, m: HexMode)
    requires HexOnly(t) != []
    ensures DecodeHex(t, m) == DecodeHex(HexOnly(t), m)
  {
    HexOnlyOfAllHex(HexOnly(t));
  }

  /** A run with fewer hex digits than one group cannot be decoded. */
  lemma ShortRunRejected(t: JString, m: HexMode)
    requires t != [] && |HexOnly(t)| < GroupSize(m)
    ensures DecodeHex(t, m) == None
  {
  }

  lemma {:induction false} HexOnlyAppend(a: JString, b: JString)
    ensures HexOnly(a + b) == HexOnly(a) + HexOnly(b)
    decreases |b|
  {
    if b == [] {
      assert a + b == a;
    } else {
      assert (a + b)[..|a + b| - 1] == a + b[..|b| - 1];
      HexOnlyAppend(a, b[..|b| - 1]);
    }
  }

  /** Hex digits past the last whole group are dropped. */
  lemma DroppedTail(h: JString, extra: JString, m: HexMode)
    requires AllHex(h) && |h| > 0 && |h| % GroupSize(m) == 0
    requires |HexOnly(extra)| < GroupSize(m)
    ensures DecodeHex(h + extra, m) == DecodeHex(h, m)
  {
    HexOnlyAppend(h, extra);
    HexOnlyOfAllHex(h);
    WholeGroups(h + extra, m, h, HexOnly(extra));
    assert HexOnly(h) == h + [];
    WholeGroups(h, m, h, []);
  }

  /** `DecodeHex` of a run whose hex digits are the whole groups `w` and a short tail `r`. */
  lemma WholeGroups(t: JString, m: HexMode, w: JString, r: JString)
    requires AllHex(w) && |w| > 0 && |w| % GroupSize(m) == 0
    requires HexOnly(t) == w + r && |r| < GroupSize(m)
    ensures DecodeHex(t, m) == DecodeGroups(w, m)
  {
    var g := GroupSize(m);
    ModOfMultiplePlus(|w|, |r|, g);
    assert |w + r| % g == |r|;
    assert Usable(HexOnly(t), m) == |w|;
    assert (w + r)[..|w|] == w;
  }

  lemma ModOfMultiplePlus(a: nat, e: nat, g: nat)
    requires g == 4 || g == 8
    requires a % g == 0 && e < g
    ensures (a + e) % g == e
  {
    if g == 4 { } else { }
  }

  // ---------------------------------------------------------------------
  // The encoder side: runs that a writer produces decode to their content
  // ---------------------------------------------------------------------

  lemma Pow16Values()
    ensures Pow16(2) == 0x100 && Pow16(4) == 0x1_0000 && Pow16(8) == 0x1_0000_0000
  {
    assert Pow16(1) == 16;
  }

  /** The hex digits of `vals`, one group of `GroupSize(m)` digits each. */
  function EncodeGroups(vals: seq<nat>, m: HexMode): (r: JString)
    ensures AllHex(r) && |r| % GroupSize(m) == 0
    ensures vals != [] ==> |r| > 0
  {
    if vals == [] then []
    else
      var rest := EncodeGroups(vals[1..], m);
      ModOfMultiplePlus(|rest|, 0, GroupSize(m));
      assert (GroupSize(m) + |rest|) % GroupSize(m) == 0 by { if m.Ucs2? { } else { } }
      HexDigits(vals[0], GroupSize(m)) + rest
  }

  /** The opening `\X2\` or `\X4\` of a run. */
  function RunOpen(m: HexMode): JString {
    [BACKSLASH, 'X' as int, if m.Ucs4? then '4' as int else '2' as int, BACKSLASH]
  }

  const RUN_CLOSE: JString := [BACKSLASH, 'X' as int, '0' as int, BACKSLASH]

  /** A complete `\X2\...\X0\` (or `\X4\...\X0\`) run holding `vals`. */
  function EncodeRun(vals: seq<nat>, m: HexMode): (r: JString)
    ensures |r| == 8 + |EncodeGroups(vals, m)|
    ensures r[..4] == RunOpen(m)
    ensures r[4..4 + |EncodeGroups(vals, m)|] == EncodeGroups(vals, m)
    ensures r[4 + |EncodeGroups(vals, m)|..] == RUN_CLOSE
  {
    var d := EncodeGroups(vals, m);
    var r := RunOpen(m) + d + RUN_CLOSE;
    assert r[4..4 + |d|] == d;
    r
  }

  /** The values a run of mode `m` can carry without `Integer.parseInt` failing. */
  predicate Encodable(vals: seq<nat>, m: HexMode) {
    forall k | 0 <= k < |vals| :: vals[k] < (if m.Ucs2? then 0x1_0000 else INT_MAX + 1)
  }

  /** What the groups `vals` decode to. */
  function UnitsOf(vals: seq<nat>, m: HexMode): JString {
    if vals == [] then [] else GroupUnits(vals[0], m) + UnitsOf(vals[1..], m)
  }

  lemma {:induction false} DecodeEncodedGroups(vals: seq<nat>, m: HexMode)
    requires Encodable(vals, m)
    ensures DecodeGroups(EncodeGroups(vals, m), m) == Some(UnitsOf(vals, m))
  {
    if vals != [] {
      var g := GroupSize(m);
      var h := EncodeGroups(vals, m);
      Pow16Values();
      assert h[..g] == HexDigits(vals[0], g);
      assert h[g..] == EncodeGroups(vals[1..], m);
      HexNumberOfDigits(vals[0], g);
      DecodeEncodedGroups(vals[1..], m);
    }
  }

  /** The end marker of a run whose digits are `d` is the first one after `\Xn\`. */
  lemma RunEndMarker(v: JString, i: nat, d: JString)
    requires AllHex(d) && i + 8 + |d| <= |v|
    requires v[i + 4..i + 4 + |d|] == d
    requires IsEndMarkerAt(v, i + 4 + |d|)
    ensures FindEndMarker(v, i + 4) == i + 4 + |d|
  {
    forall k | i + 4 <= k < i + 4 + |d|
      ensures !IsEndMarkerAt(v, k)
    {
      assert v[k] == d[k - (i + 4)];
    }
  }

  lemma DecodeAtStep(v: JString, i: nat, s: Step)
    requires i < |v| && EscapeAt(v, i) == s
    ensures DecodeAt(v, i) == s.out + DecodeAt(v, s.next)
  {
  }

  /**
   * A run `\X2\` or `\X4\`, digits `d`, `\X0\` standing in `v` at `i`, whose
   * digits decode to `out`: decoding yields `out` and resumes right after
   * the run's `\X0\`.
   */
  lemma RunDecodes(v: JString, i: nat, d: JString, run: JString, m: HexMode, out: JString, next: nat)
    requires AllHex(d) && run == RunOpen(m) + d + RUN_CLOSE && next == i + 8 + |d|
    requires i + |run| <= |v| && v[i..i + |run|] == run
    requires DecodeHex(d, m) == Some(out)
    ensures DecodeAt(v, i) == out + DecodeAt(v, next)
  {
    RunOfDigits(v, i, d, run, m, out, next);
    assert v[i] == run[0] && v[i + 1] == run[1];
    assert EscapeAt(v, i) == Step(out, next);
    DecodeAtStep(v, i, Step(out, next));
  }

  /** A run at `i` whose digits `d` decode to `out`; decoding resumes at `next`, just past the run. */
  lemma RunOfDigits(v: JString, i: nat, d: JString, run: JString, m: HexMode, out: JString, next: nat)
    requires AllHex(d) && run == RunOpen(m) + d + RUN_CLOSE && next == i + 8 + |d|
    requires i + |run| <= |v| && v[i..i + |run|] == run
    requires DecodeHex(d, m) == Some(out)
    ensures RunAt(v, i) == Some(Step(out, next))
  {
    RunFrame(v, i, d, run, m);
    RunEndMarker(v, i, d);
    RunAtIs(v, i, d, m, out, i + 4 + |d|, next);
  }

  /** `v` holds at `i` the opening of a mode-`m` run, digits `d`, and `\X0\`. */
  lemma RunFrame(v: JString, i: nat, d: JString, run: JString, m: HexMode)
    requires run == RunOpen(m) + d + RUN_CLOSE
    requires i + |run| <= |v| && v[i..i + |run|] == run
    ensures v[i..i + 4] == RunOpen(m) && v[i + 4..i + 4 + |d|] == d
    ensures IsEndMarkerAt(v, i + 4 + |d|)
  {
    var w := v[i..i + |run|];
    assert v[i..i + 4] == w[..4] == run[..4];
    assert run[4..4 + |d|] == d;
    forall k | 0 <= k < |d| ensures v[i + 4 + k] == d[k] {
      assert v[i + 4 + k] == w[4 + k] == run[4 + k];
    }
    assert v[i + 4..i + 4 + |d|] == d;
    var e := i + 4 + |d|;
    assert v[e..e + 4] == w[4 + |d|..] == run[4 + |d|..] == RUN_CLOSE;
    assert v[e] == v[e..e + 4][0] && v[e + 1] == v[e..e + 4][1];
    assert v[e + 2] == v[e..e + 4][2] && v[e + 3] == v[e..e + 4][3];
  }

  /** The run at `i` decodes as its digits do; its end marker is at `e`, and `next` is just past it. */
  lemma RunAtIs(v: JString, i: nat, d: JString, m: HexMode, out: JString, e: nat, next: nat)
    requires e == i + 4 + |d| && next == e + 4 && next <= |v| && v[i..i + 4] == RunOpen(m) && v[i + 4..e] == d
    requires FindEndMarker(v, i + 4) == e
    requires DecodeHex(d, m) == Some(out)
    ensures RunAt(v, i) == Some(Step(out, next))
  {
    RunOpenMode(v, i, m);
  }

  /** The opening `\X2\` or `\X4\` at `i` names mode `m`. */
  lemma RunOpenMode(v: JString, i: nat, m: HexMode)
    requires i + 4 <= |v| && v[i..i + 4] == RunOpen(m)
    ensures v[i + 2] == (if m.Ucs4? then '4' as int else '2' as int) && v[i + 3] == BACKSLASH
  {
    assert v[i + 2] == v[i..i + 4][2] && v[i + 3] == v[i..i + 4][3];
  }

  lemma DecodeHexEncoded(vals: seq<nat>, m: HexMode)
    requires Encodable(vals, m)
    ensures DecodeHex(EncodeGroups(vals, m), m) == Some(UnitsOf(vals, m))
  {
    var d := EncodeGroups(vals, m);
    if vals != [] {
      HexOnlyOfAllHex(d);
      assert d == d + [];
      WholeGroups(d, m, d, []);
      DecodeEncodedGroups(vals, m);
    }
  }

  /** A whole string written as one `\X2\` run decodes to exactly its units. */
  lemma Ucs2RoundTrip(units: seq<nat>)
    requires Encodable(units, Ucs2)
    ensures DecodeAt(EncodeRun(units, Ucs2), 0) == units
  {
    var v := EncodeRun(units, Ucs2);
    assert v[0..|v|] == v;
    EncodeRunShape(units, Ucs2);
    DecodeHexEncoded(units, Ucs2);
    Ucs2Units(units);
    RunDecodes(v, 0, EncodeGroups(units, Ucs2), v, Ucs2, units, |v|);
    assert units + [] == units;
  }

  lemma {:induction false} Ucs2Units(units: seq<nat>)
    requires Encodable(units, Ucs2)
    ensures UnitsOf(units, Ucs2) == units
  {
    if units != [] {
      Ucs2Units(units[1..]);
      assert units == [units[0]] + units[1..];
    }
  }

  /** The UTF-16 form of a sequence of code points. */
  function Utf16(cps: seq<int>): JString
    requires forall k | 0 <= k < |cps| :: 0 <= cps[k] <= 0x10_FFFF
  {
    if cps == [] then [] else ToChars(cps[0]) + Utf16(cps[1..])
  }

  /** A `\X4\` run of valid code points decodes to their UTF-16 form. */
  lemma {:induction false} Ucs4Units(cps: seq<nat>)
    requires forall k | 0 <= k < |cps| :: cps[k] <= 0x10_FFFF
    ensures UnitsOf(cps, Ucs4) == Utf16(cps)
  {
    if cps != [] {
      Ucs4Units(cps[1..]);
    }
  }

  /** A run of exactly one group. */
  lemma SingleGroup(d: JString, m: HexMode)
    requires AllHex(d) && |d| == GroupSize(m)
    ensures DecodeHex(d, m) ==
      if HexNumber(d) > INT_MAX then None else Some(GroupUnits(HexNumber(d), m))
  {
    HexOnlyOfAllHex(d);
    assert d == d + [];
    WholeGroups(d, m, d, []);
    assert d[..GroupSize(m)] == d && d[GroupSize(m)..] == [];
    assert GroupUnits(HexNumber(d), m) + [] == GroupUnits(HexNumber(d), m);
  }

  /** Code points beyond U+10FFFF that still fit an `int` are skipped. */
  lemma InvalidCodePointSkipped(cp: nat)
    requires 0x10_FFFF < cp <= INT_MAX
    ensures DecodeHex(HexDigits(cp, 8), Ucs4) == Some([])
  {
    Pow16Values();
    SingleGroup(HexDigits(cp, 8), Ucs4);
    HexNumberOfDigits(cp, 8);
  }

  /** A run that cannot be decoded: `RunAt` gives nothing. */
  lemma RunAtFails(v: JString, i: nat, d: JString, m: HexMode)
    requires i + 8 + |d| <= |v| && v[i..i + 4] == RunOpen(m) && v[i + 4..i + 4 + |d|] == d
    requires FindEndMarker(v, i + 4) == i + 4 + |d|
    requires DecodeHex(d, m) == None
    ensures RunAt(v, i) == None
    ensures EscapeAt(v, i) == Step([BACKSLASH], i + 1)
  {
    assert v[i] == v[i..i + 4][0] && v[i + 1] == v[i..i + 4][1];
    assert v[i + 2] == v[i..i + 4][2] && v[i + 3] == v[i..i + 4][3];
    var mode := v[i + 2];
    var mm := if mode == '4' as int then Ucs4 else Ucs2;
    assert mm == m by { if m.Ucs4? { assert mode == '4' as int; } else { assert mode == '2' as int; } }
    assert v[i + 4..FindEndMarker(v, i + 4)] == d;
  }

  /** A group that overflows `int` leaves the whole escape literal: only `\` is consumed. */
  lemma OverflowStaysLiteral(v: JString, i: nat, cp: nat)
    requires INT_MAX < cp < 0x1_0000_0000
    requires i + 16 <= |v| && v[i..i + 16] == EncodeRun([cp], Ucs4)
    ensures EscapeAt(v, i) == Step([BACKSLASH], i + 1)
  {
    Pow16Values();
    var d := HexDigits(cp, 8);
    assert EncodeGroups([cp], Ucs4) == d + [];
    RunFrame(v, i, d, EncodeRun([cp], Ucs4), Ucs4);
    RunEndMarker(v, i, d);
    SingleGroup(d, Ucs4);
    HexNumberOfDigits(cp, 8);
    RunAtFails(v, i, d, Ucs4);
  }

  /** A run with fewer hex digits than one group: only the backslash is consumed. */
  lemma ShortRunStaysLiteral(v: JString, i: nat, d: JString, m: HexMode)
    requires AllHex(d) && 0 < |d| < GroupSize(m)
    requires i + 8 + |d| <= |v| && v[i..i + 8 + |d|] == RunOpen(m) + d + RUN_CLOSE
    ensures EscapeAt(v, i) == Step([BACKSLASH], i + 1)
  {
    RunFrame(v, i, d, RunOpen(m) + d + RUN_CLOSE, m);
    RunEndMarker(v, i, d);
    HexOnlyOfAllHex(d);
    ShortRunRejected(d, m);
    RunAtFails(v, i, d, m);
  }

  lemma HexByteOfDigits(b: nat)
    requires b < 0x100
    ensures HexByte(HexDigits(b, 2)[0], HexDigits(b, 2)[1]) == b
  {
    var d := HexDigits(b, 2);
    assert HexDigits(b / 16, 1) == HexDigits(b / 256, 0) + [UpperHexDigit((b / 16) % 16)];
    assert d == HexDigits(b / 16, 1) + [UpperHexDigit(b % 16)];
    HexDigitValues((b / 16) % 16);
    HexDigitValues(b % 16);
  }

  /** `\X\hh` decodes to the single unit hh. */
  lemma ByteEscape(v: JString, i: nat, b: nat)
    requires b < 0x100 && i + 5 <= |v|
    requires v[i..i + 5] == [BACKSLASH, 'X' as int, BACKSLASH] + HexDigits(b, 2)
    ensures EscapeAt(v, i) == Step([b], i + 5)
  {
    var d := HexDigits(b, 2);
    var w := v[i..i + 5];
    assert v[i] == w[0] && v[i + 1] == w[1] && v[i + 2] == w[2];
    assert v[i + 3] == w[3] == d[0] && v[i + 4] == w[4] == d[1];
    HexByteOfDigits(b);
    assert RunAt(v, i) == None;
  }

  /** `\X\` not followed by two hex digits: only the backslash is consumed. */
  lemma BadByteEscape(v: JString, i: nat)
    requires i + 3 <= |v| && v[i..i + 3] == [BACKSLASH, 'X' as int, BACKSLASH]
    requires i + 4 >= |v| || !IsHex(v[i + 3]) || !IsHex(v[i + 4])
    ensures EscapeAt(v, i) == Step([BACKSLASH], i + 1)
  {
    var w := v[i..i + 3];
    assert v[i] == w[0] && v[i + 1] == w[1] && v[i + 2] == w[2];
    if i + 3 < |v| {
      assert RunAt(v, i) == None;
    }
  }

  /** The example of the STEP reader's tests: `\X2\4E2D6587\X0\` is the two units of "中文". */
  lemma ChineseExample()
    ensures DecodeAt(Str("\\X2\\4E2D6587\\X0\\"), 0) == [0x4E2D, 0x6587]
  {
    ExampleEncoding();
    Ucs2RoundTrip([0x4E2D, 0x6587]);
  }

  lemma ExampleEncoding()
    ensures EncodeRun([0x4E2D, 0x6587], Ucs2) == Str("\\X2\\4E2D6587\\X0\\")
  {
    EncodeRunShape([0x4E2D, 0x6587], Ucs2);
    ExampleDigits();
    ExampleText();
  }

  lemma EncodeRunShape(vals: seq<nat>, m: HexMode)
    ensures EncodeRun(vals, m) == RunOpen(m) + EncodeGroups(vals, m) + RUN_CLOSE
  {
  }

  lemma ExampleText()
    ensures Str("\\X2\\4E2D6587\\X0\\") == RunOpen(Ucs2) + [52, 69, 50, 68, 54, 53, 56, 55] + RUN_CLOSE
  {
  }

  lemma ExampleDigits()
    ensures EncodeGroups([0x4E2D, 0x6587], Ucs2) == [52, 69, 50, 68, 54, 53, 56, 55]
  {
    var units: seq<nat> := [0x4E2D, 0x6587];
    assert units[1..] == [0x6587] && units[1..][1..] == [];
    ExampleHexDigits();
  }

  lemma ExampleHexDigits()
    ensures HexDigits(0x4E2D, 4) == [52, 69, 50, 68]
    ensures HexDigits(0x6587, 4) == [54, 53, 56, 55]
  {
    assert HexDigits(0x4E2D, 4) == [52, 69, 50, 68];
  }

  // ---------------------------------------------------------------------
  // Quoted literals
  // ---------------------------------------------------------------------

  /** The body of a literal read from `i` (just after its opening quote) and the index it stopped at. */
  datatype Quoted = Quoted(body: JString, stop: nat)

  /**
   * The literal-reading loop: `''` stands for one quote, a lone quote ends
   * the literal (`stop` is its index), and the end of the text ends an
   * unterminated one (`stop == |t|`).
   */
  function ReadQuoted(t: JString, i: nat): (q: Quoted)
    requires i <= |t|
    decreases |t| - i
    ensures i <= q.stop <= |t|
    ensures q.stop < |t| ==> t[q.stop] == QUOTE && (q.stop + 1 == |t| || t[q.stop + 1] != QUOTE)
  {
    if i == |t| then Quoted([], |t|)
    else if t[i] == QUOTE then
      if i + 1 < |t| && t[i + 1] == QUOTE then
        var q := ReadQuoted(t, i + 2); Quoted([QUOTE] + q.body, q.stop)
      else Quoted([], i)
    else
      var q := ReadQuoted(t, i + 1); Quoted([t[i]] + q.body, q.stop)
  }

  /**
   * One pass of the literal-reading loop at `i`: either the literal closes
   * at `i`, or one character `c` of the body is read and reading resumes
   * at `next`.
   */
  method QuotedUnit(t: JString, i: nat) returns (c: Char16, next: nat, closes: bool)
    requires i < |t|
    ensures closes ==> ReadQuoted(t, i) == Quoted([], i)
    ensures !closes ==> i < next <= |t|
    ensures !closes ==> ReadQuoted(t, i).body == [c] + ReadQuoted(t, next).body
    ensures !closes ==> ReadQuoted(t, i).stop == ReadQuoted(t, next).stop
  {
    if t[i] == QUOTE {
      if i + 1 < |t| && t[i + 1] == QUOTE {
        return QUOTE, i + 2, false;
      }
      return QUOTE, i, true;
    }
    return t[i], i + 1, false;
  }

  /** The shared literal-reading loop (`extractStringLiterals`, `normalizeEntityText`, `parseString`). */
  method ReadQuotedBody(t: JString, start: nat) returns (body: JString, stop: nat)
    requires start <= |t|
    ensures Quoted(body, stop) == ReadQuoted(t, start)
  {
    body := [];
    var i := start;
    while i < |t|
      invariant start <= i <= |t|
      invariant body + ReadQuoted(t, i).body == ReadQuoted(t, start).body
      invariant ReadQuoted(t, i).stop == ReadQuoted(t, start).stop
      decreases |t| - i
    {
      var c, next, closes := QuotedUnit(t, i);
      if closes {
        break;
      }
      assert body + ([c] + ReadQuoted(t, next).body) == (body + [c]) + ReadQuoted(t, next).body;
      body := body + [c];
      i := next;
    }
    assert body + [] == body;
    stop := i;
  }

  /** `escapeStepString`: every quote doubled. */
  function EscapeQuotes(s: JString): (r: JString)
    ensures |r| >= |s|
    ensures QUOTE !in s ==> r == s
  {
    if s == [] then [] else (if s[0] == QUOTE then [QUOTE, QUOTE] else [s[0]]) + EscapeQuotes(s[1..])
  }

  /** A literal can end at `j`: the end of the text, or a quote that is not doubled. */
  predicate ClosesAt(t: JString, j: nat) {
    j == |t| || (j < |t| && t[j] == QUOTE && (j + 1 == |t| || t[j + 1] != QUOTE))
  }

  /**
   * Reading back an escaped body: the body comes back whole, and the reader
   * stops at the closing quote (or the end of the text).
   */
  lemma QuotedRoundTrip(t: JString, i: nat, b: JString)
    requires i + |EscapeQuotes(b)| <= |t| && t[i..i + |EscapeQuotes(b)|] == EscapeQuotes(b)
    requires ClosesAt(t, i + |EscapeQuotes(b)|)
    ensures ReadQuoted(t, i) == Quoted(b, i + |EscapeQuotes(b)|)
  {
    QuotedReadsTo(t, i, b, i + |EscapeQuotes(b)|);
  }

  /** `QuotedRoundTrip` with the closing index named `stop`. */
  lemma {:induction false} QuotedReadsTo(t: JString, i: nat, b: JString, stop: nat)
    requires stop == i + |EscapeQuotes(b)| && stop <= |t| && t[i..stop] == EscapeQuotes(b)
    requires ClosesAt(t, stop)
    ensures ReadQuoted(t, i) == Quoted(b, stop)
    decreases |b|
  {
    if b != [] {
      var rest := EscapeQuotes(b[1..]);
      if b[0] == QUOTE {
        assert EscapeQuotes(b) == [QUOTE, QUOTE] + rest;
        assert t[i] == QUOTE && t[i + 1] == QUOTE by {
          assert t[i..stop][0] == t[i] && t[i..stop][1] == t[i + 1];
        }
        assert t[i + 2..stop] == t[i..stop][2..];
        QuotedReadsTo(t, i + 2, b[1..], stop);
      } else {
        assert EscapeQuotes(b) == [b[0]] + rest;
        assert t[i] == b[0] by {
          assert t[i..stop][0] == t[i];
        }
        assert t[i + 1..stop] == t[i..stop][1..];
        QuotedReadsTo(t, i + 1, b[1..], stop);
      }
      assert b == [b[0]] + b[1..];
    }
  }
}
