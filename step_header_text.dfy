/**
 * The quote- and paren-aware text helpers of `StepModelInfoParser`:
 * `extractParenContent` (the text inside one parenthesised group),
 * `splitTopLevelArgs` (cut an argument text at its top-level commas) and
 * `extractStringLiterals` / `firstStringLiteral` (every quoted literal,
 * `''` unquoted and escapes decoded).
 */
module StepHeaderText {
  import opened JavaText
  import opened StepEscapes
  import opened StepScanner

  // ---------------------------------------------------------------------
  // extractParenContent
  // ---------------------------------------------------------------------

  /**
   * `extractParenContent(text, open)`: None unless `(` stands at `open`;
   * otherwise the text strictly between it and its matching `)` (literals
   * are skipped), or None when it has none.
   */
  method ExtractParenContent(t: JString, open: int) returns (r: Option<JString>)
    ensures r.Some? ==> 0 <= open < |t| && t[open] == LPAREN
    ensures r.Some? ==> var c := ParenScan(t, open, 0, false);
      open < c < |t| && t[c] == RPAREN && r.value == t[open + 1..c]
    ensures 0 <= open < |t| && t[open] == LPAREN && ParenScan(t, open, 0, false) >= 0 ==> r.Some?
  {
    if open < 0 || open >= |t| || t[open] != LPAREN {
      return None;
    }
    var depth := 0;
    var inString := false;
    var contentStart := -1;
    var i := open;
    while i < |t|
      invariant open <= i
      invariant ParenScan(t, i, depth, inString) == ParenScan(t, open, 0, false)
      invariant i == open ==> depth == 0 && !inString && contentStart == -1
      invariant i > open ==> depth >= 1 && contentStart == open + 1
      decreases |t| - i
    {
      var c := t[i];
      if inString {
        if c == QUOTE {
          if i + 1 < |t| && t[i + 1] == QUOTE {
            i := i + 1;
          } else {
            inString := false;
          }
        }
      } else if c == QUOTE {
        inString := true;
      } else if c == LPAREN {
        depth := depth + 1;
        if depth == 1 {
          contentStart := i + 1;
        }
      } else if c == RPAREN {
        depth := depth - 1;
        if depth == 0 && contentStart >= 0 {
          return Some(t[contentStart..i]);
        }
      }
      i := i + 1;
    }
    return None;
  }

  // ---------------------------------------------------------------------
  // splitTopLevelArgs
  // ---------------------------------------------------------------------

  /** The indices at or after `i` of the commas outside literals and parentheses, as the split loop meets them. */
  function TopCommas(t: JString, i: nat, depth: nat, inString: bool): (ps: seq<nat>)
    decreases |t| - i
    ensures forall k | 0 <= k < |ps| :: i <= ps[k] < |t| && t[ps[k]] == COMMA
    ensures forall j, k | 0 <= j < k < |ps| :: ps[j] < ps[k]
  {
    if i >= |t| then []
    else if inString then
      if t[i] == QUOTE then
        if i + 1 < |t| && t[i + 1] == QUOTE then TopCommas(t, i + 2, depth, true)
        else TopCommas(t, i + 1, depth, false)
      else TopCommas(t, i + 1, depth, true)
    else if t[i] == QUOTE then TopCommas(t, i + 1, depth, true)
    else if t[i] == LPAREN then TopCommas(t, i + 1, depth + 1, false)
    else if t[i] == RPAREN then TopCommas(t, i + 1, if depth == 0 then 0 else depth - 1, false)
    else if t[i] == COMMA && depth == 0 then [i] + TopCommas(t, i + 1, 0, false)
    else TopCommas(t, i + 1, depth, false)
  }

  /**
   * The raw (untrimmed) pieces of `t[start..]`, where the current piece
   * began at `start` and the split loop stands at `i` with the given depth
   * and literal state.
   */
  function SplitFrom(t: JString, start: nat, i: nat, depth: nat, inString: bool): (r: seq<JString>)
    requires start <= i <= |t|
    decreases |t| - i
    ensures |r| >= 1
  {
    if i == |t| then [t[start..]]
    else if inString then
      if t[i] == QUOTE then
        if i + 1 < |t| && t[i + 1] == QUOTE then SplitFrom(t, start, i + 2, depth, true)
        else SplitFrom(t, start, i + 1, depth, false)
      else SplitFrom(t, start, i + 1, depth, true)
    else if t[i] == QUOTE then SplitFrom(t, start, i + 1, depth, true)
    else if t[i] == LPAREN then SplitFrom(t, start, i + 1, depth + 1, false)
    else if t[i] == RPAREN then SplitFrom(t, start, i + 1, if depth == 0 then 0 else depth - 1, false)
    else if t[i] == COMMA && depth == 0 then [t[start..i]] + SplitFrom(t, i + 1, i + 1, 0, false)
    else SplitFrom(t, start, i + 1, depth, false)
  }

  /** Pieces put back together with a separator between them. */
  function JoinWith(pieces: seq<JString>, sep: Char16): JString {
    if pieces == [] then []
    else if |pieces| == 1 then pieces[0]
    else pieces[0] + [sep] + JoinWith(pieces[1..], sep)
  }

  /** Every piece trimmed. */
  function TrimAll(pieces: seq<JString>): (r: seq<JString>)
    ensures |r| == |pieces|
  {
    if pieces == [] then [] else [Trim(pieces[0])] + TrimAll(pieces[1..])
  }

  /** What `splitTopLevelArgs` cuts the trimmed text into, before the pieces are trimmed. */
  function RawPieces(s: JString): seq<JString> {
    var t := Trim(s);
    if t == [] then [] else SplitFrom(t, 0, 0, 0, false)
  }

  /**
   * `splitTopLevelArgs`: [] for a blank text; otherwise the trimmed pieces
   * between top-level commas, one more than there are such commas.
   */
  method SplitTopLevelArgs(s: JString) returns (out: seq<JString>)
    ensures out == TrimAll(RawPieces(s))
    ensures Trim(s) == [] ==> out == []
    ensures Trim(s) != [] ==> |out| == |TopCommas(Trim(s), 0, 0, false)| + 1
  {
    var t := Trim(s);
    if |t| == 0 {
      return [];
    }
    out := SplitTrimmed(t);
    SplitCount(t, 0, 0, 0, false);
  }

  /** The split loop over an already trimmed, non-empty text. */
  method SplitTrimmed(t: JString) returns (out: seq<JString>)
    ensures out == TrimAll(SplitFrom(t, 0, 0, 0, false))
  {
    out := [];
    ghost var raw: seq<JString> := [];
    ghost var whole := SplitFrom(t, 0, 0, 0, false);
    var depth: nat := 0;
    var inString := false;
    var start := 0;
    var i := 0;
    while i < |t|
      invariant start <= i <= |t|
      invariant raw + SplitFrom(t, start, i, depth, inString) == whole
      invariant out == TrimAll(raw)
      decreases |t| - i
    {
      var next, depth', inString', cut := SplitUnit(t, start, i, depth, inString);
      if cut {
        var piece := t[start..i];
        PieceStep(raw, piece, SplitFrom(t, next, next, 0, false));
        out := out + [Trim(piece)];
        raw := raw + [piece];
        start := next;
      }
      i, depth, inString := next, depth', inString';
    }
    assert SplitFrom(t, start, i, depth, inString) == [t[start..]];
    PieceStep(raw, t[start..], []);
    out := out + [Trim(t[start..])];
    raw := raw + [t[start..]];
  }

  /**
   * One pass of the split loop at `i`: a doubled quote inside a literal is
   * stepped over whole, and a comma at depth 0 outside literals ends the
   * current piece (`cut`).
   */
  method SplitUnit(t: JString, start: nat, i: nat, depth: nat, inString: bool)
    returns (next: nat, depth': nat, inString': bool, cut: bool)
    requires start <= i < |t|
    ensures i < next <= |t|
    ensures cut ==>
      next == i + 1 && depth' == 0 && !inString'
      && SplitFrom(t, start, i, depth, inString) == [t[start..i]] + SplitFrom(t, next, next, 0, false)
    ensures !cut ==> SplitFrom(t, start, i, depth, inString) == SplitFrom(t, start, next, depth', inString')
  {
    SplitStep(t, start, i, depth, inString);
    var c := t[i];
    next, depth', inString', cut := i + 1, depth, inString, false;
    if inString {
      if c == QUOTE {
        if i + 1 < |t| && t[i + 1] == QUOTE {
          next := i + 2;
        } else {
          inString' := false;
        }
      }
    } else if c == QUOTE {
      inString' := true;
    } else if c == LPAREN {
      depth' := depth + 1;
    } else if c == RPAREN {
      depth' := if depth == 0 then 0 else depth - 1;
    } else if c == COMMA && depth == 0 {
      depth', cut := 0, true;
    }
  }

  /** Moving one finished piece from the pending pieces to the done ones. */
  lemma PieceStep(raw: seq<JString>, piece: JString, rest: seq<JString>)
    ensures raw + ([piece] + rest) == (raw + [piece]) + rest
    ensures TrimAll(raw + [piece]) == TrimAll(raw) + [Trim(piece)]
  {
    TrimAllAppend(raw, [piece]);
    assert TrimAll([piece]) == [Trim(piece)];
  }

  /** One step of the split loop, case by case. */
  lemma SplitStep(t: JString, start: nat, i: nat, depth: nat, inString: bool)
    requires start <= i < |t|
    ensures inString && t[i] == QUOTE && i + 1 < |t| && t[i + 1] == QUOTE ==>
      SplitFrom(t, start, i, depth, inString) == SplitFrom(t, start, i + 2, depth, true)
    ensures inString && t[i] == QUOTE && !(i + 1 < |t| && t[i + 1] == QUOTE) ==>
      SplitFrom(t, start, i, depth, inString) == SplitFrom(t, start, i + 1, depth, false)
    ensures inString && t[i] != QUOTE ==>
      SplitFrom(t, start, i, depth, inString) == SplitFrom(t, start, i + 1, depth, true)
    ensures !inString && t[i] == QUOTE ==>
      SplitFrom(t, start, i, depth, inString) == SplitFrom(t, start, i + 1, depth, true)
    ensures !inString && t[i] == LPAREN ==>
      SplitFrom(t, start, i, depth, inString) == SplitFrom(t, start, i + 1, depth + 1, false)
    ensures !inString && t[i] == RPAREN ==>
      SplitFrom(t, start, i, depth, inString) == SplitFrom(t, start, i + 1, if depth == 0 then 0 else depth - 1, false)
    ensures !inString && t[i] == COMMA && depth == 0 ==>
      SplitFrom(t, start, i, depth, inString) == [t[start..i]] + SplitFrom(t, i + 1, i + 1, 0, false)
    ensures !inString && t[i] != QUOTE && t[i] != LPAREN && t[i] != RPAREN && !(t[i] == COMMA && depth == 0) ==>
      SplitFrom(t, start, i, depth, inString) == SplitFrom(t, start, i + 1, depth, false)
  {
  }

  lemma {:induction false} TrimAllAppend(a: seq<JString>, b: seq<JString>)
    ensures TrimAll(a + b) == TrimAll(a) + TrimAll(b)
    decreases |a|
  {
    if a != [] {
      assert (a + b)[0] == a[0] && (a + b)[1..] == a[1..] + b;
      TrimAllAppend(a[1..], b);
    } else {
      assert a + b == b;
    }
  }

  /** One piece per top-level comma, plus one. */
  lemma {:induction false} SplitCount(t: JString, start: nat, i: nat, depth: nat, inString: bool)
    requires start <= i <= |t|
    ensures |SplitFrom(t, start, i, depth, inString)| == |TopCommas(t, i, depth, inString)| + 1
    decreases |t| - i
  {
    if i < |t| {
      if inString {
        if t[i] == QUOTE && i + 1 < |t| && t[i + 1] == QUOTE {
          SplitCount(t, start, i + 2, depth, true);
        } else if t[i] == QUOTE {
          SplitCount(t, start, i + 1, depth, false);
        } else {
          SplitCount(t, start, i + 1, depth, true);
        }
      } else if t[i] == QUOTE {
        SplitCount(t, start, i + 1, depth, true);
      } else if t[i] == LPAREN {
        SplitCount(t, start, i + 1, depth + 1, false);
      } else if t[i] == RPAREN {
        SplitCount(t, start, i + 1, if depth == 0 then 0 else depth - 1, false);
      } else if t[i] == COMMA && depth == 0 {
        SplitCount(t, i + 1, i + 1, 0, false);
      } else {
        SplitCount(t, start, i + 1, depth, false);
      }
    }
  }

  /** The raw pieces joined back with commas give the text they were cut from: nothing is lost or reordered. */
  lemma {:induction false} SplitJoins(t: JString, start: nat, i: nat, depth: nat, inString: bool)
    requires start <= i <= |t|
    ensures JoinWith(SplitFrom(t, start, i, depth, inString), COMMA) == t[start..]
    decreases |t| - i
  {
    if i < |t| {
      SplitStep(t, start, i, depth, inString);
      if inString {
        if t[i] == QUOTE && i + 1 < |t| && t[i + 1] == QUOTE {
          SplitJoins(t, start, i + 2, depth, true);
        } else if t[i] == QUOTE {
          SplitJoins(t, start, i + 1, depth, false);
        } else {
          SplitJoins(t, start, i + 1, depth, true);
        }
      } else if t[i] == QUOTE {
        SplitJoins(t, start, i + 1, depth, true);
      } else if t[i] == LPAREN {
        SplitJoins(t, start, i + 1, depth + 1, false);
      } else if t[i] == RPAREN {
        SplitJoins(t, start, i + 1, if depth == 0 then 0 else depth - 1, false);
      } else if t[i] == COMMA && depth == 0 {
        SplitJoins(t, i + 1, i + 1, 0, false);
        var rest := SplitFrom(t, i + 1, i + 1, 0, false);
        var pieces := [t[start..i]] + rest;
        assert pieces[1..] == rest;
        assert JoinWith(pieces, COMMA) == t[start..i] + [COMMA] + t[i + 1..];
        assert t[start..] == t[start..i] + [t[i]] + t[i + 1..];
      } else {
        SplitJoins(t, start, i + 1, depth, false);
      }
    }
  }

  /** The split of a non-blank text: its raw pieces joined with commas are the trimmed text. */
  lemma SplitJoinsBack(s: JString)
    requires Trim(s) != []
    ensures JoinWith(RawPieces(s), COMMA) == Trim(s)
  {
    var t := Trim(s);
    SplitJoins(t, 0, 0, 0, false);
    assert t[0..] == t;
  }

  /** Inside a literal the splitter resumes after the closing quote: commas and parentheses there do not count. */
  lemma {:induction false} TopCommasSkipLiteral(t: JString, i: nat, depth: nat)
    requires i <= |t|
    ensures var q := ReadQuoted(t, i);
      TopCommas(t, i, depth, true) == if q.stop < |t| then TopCommas(t, q.stop + 1, depth, false) else []
    decreases |t| - i
  {
    if i < |t| && t[i] == QUOTE && i + 1 < |t| && t[i + 1] == QUOTE {
      TopCommasSkipLiteral(t, i + 2, depth);
    } else if i < |t| && t[i] != QUOTE {
      TopCommasSkipLiteral(t, i + 1, depth);
    }
  }

  /** Text without quotes or parentheses is cut at every comma. */
  lemma {:induction false} PlainCommas(t: JString, i: nat)
    requires i <= |t|
    requires forall k | i <= k < |t| :: t[k] != QUOTE && t[k] != LPAREN && t[k] != RPAREN
    ensures forall k | i <= k < |t| :: t[k] == COMMA <==> k in TopCommas(t, i, 0, false)
    decreases |t| - i
  {
    if i < |t| {
      PlainCommas(t, i + 1);
    }
  }

  // ---------------------------------------------------------------------
  // extractStringLiterals / firstStringLiteral
  // ---------------------------------------------------------------------

  /** The literals met from index `i` on, outside any literal: each body unquoted and decoded. */
  function LiteralsFrom(t: JString, i: nat): seq<JString>
    decreases |t| - i
  {
    if i >= |t| then []
    else if t[i] != QUOTE then LiteralsFrom(t, i + 1)
    else
      var q := ReadQuoted(t, i + 1);
      [DecodeAt(q.body, 0)] + LiteralsFrom(t, q.stop + 1)
  }

  /** `extractStringLiterals`. */
  method ExtractStringLiterals(lib: JavaLib, t: JString) returns (out: seq<JString>)
    ensures IsBlank(lib, t) ==> out == []
    ensures !IsBlank(lib, t) ==> out == LiteralsFrom(t, 0)
    ensures QUOTE !in t ==> out == []
  {
    if IsBlank(lib, t) {
      return [];
    }
    out := [];
    var i := 0;
    while i < |t|
      invariant 0 <= i
      invariant out + LiteralsFrom(t, i) == LiteralsFrom(t, 0)
      decreases |t| - i
    {
      var c := t[i];
      if c == QUOTE {
        var body, stop := ReadQuotedBody(t, i + 1);
        var decoded := DecodeStepEscapes(body);
        out := out + [decoded];
        i := stop;
      }
      i := i + 1;
    }
    if QUOTE !in t {
      NoQuoteNoLiterals(t, 0);
    }
  }

  /** `firstStringLiteral`. */
  method FirstStringLiteral(lib: JavaLib, t: JString) returns (r: Option<JString>)
    ensures r.None? <==> IsBlank(lib, t) || LiteralsFrom(t, 0) == []
    ensures r.Some? ==> r.value == LiteralsFrom(t, 0)[0]
  {
    var all := ExtractStringLiterals(lib, t);
    if |all| == 0 {
      return None;
    }
    return Some(all[0]);
  }

  lemma {:induction false} NoQuoteNoLiterals(t: JString, i: nat)
    requires QUOTE !in t
    ensures LiteralsFrom(t, i) == []
    decreases |t| - i
  {
    if i < |t| {
      NoQuoteNoLiterals(t, i + 1);
    }
  }

  /**
   * A literal written by a writer, `'` + the body with quotes doubled + `'`,
   * is read back as exactly that body when the body holds no backslash.
   */
  lemma LiteralRoundTrip(b: JString)
    requires BACKSLASH !in b
    ensures LiteralsFrom([QUOTE] + EscapeQuotes(b) + [QUOTE], 0) == [b]
  {
    var e := EscapeQuotes(b);
    var t := [QUOTE] + e + [QUOTE];
    assert t[1..1 + |e|] == e;
    QuotedRoundTrip(t, 1, b);
    NoBackslashUnchanged(b, 0);
    assert b[0..] == b;
  }

  lemma {:induction false} EscapeQuotesAppend(a: JString, b: JString)
    ensures EscapeQuotes(a + b) == EscapeQuotes(a) + EscapeQuotes(b)
    decreases |a|
  {
    if a != [] {
      var h := if a[0] == QUOTE then [QUOTE, QUOTE] else [a[0]];
      assert (a + b)[0] == a[0] && (a + b)[1..] == a[1..] + b;
      EscapeQuotesAppend(a[1..], b);
      assert EscapeQuotes(a + b) == h + EscapeQuotes(a[1..] + b);
      assert EscapeQuotes(a) == h + EscapeQuotes(a[1..]);
      assert h + (EscapeQuotes(a[1..]) + EscapeQuotes(b)) == (h + EscapeQuotes(a[1..])) + EscapeQuotes(b);
    } else {
      assert a + b == b;
    }
  }

  /** The example of the STEP reader's tests: `'O''Reilly'` reads as `O'Reilly`. */
  lemma OReillyExample()
    ensures LiteralsFrom(Str("'O''Reilly'"), 0) == [Str("O'Reilly")]
  {
    OReillyText();
    OReillyEscaped();
    LiteralRoundTrip([79, QUOTE, 82, 101, 105, 108, 108, 121]);
  }

  lemma OReillyText()
    ensures Str("O'Reilly") == [79, QUOTE, 82, 101, 105, 108, 108, 121]
    ensures Str("'O''Reilly'") == [QUOTE] + [79, QUOTE, QUOTE, 82, 101, 105, 108, 108, 121] + [QUOTE]
  {
  }

  lemma OReillyEscaped()
    ensures EscapeQuotes([79, QUOTE, 82, 101, 105, 108, 108, 121]) == [79, QUOTE, QUOTE, 82, 101, 105, 108, 108, 121]
  {
    var tail: JString := [82, 101, 105, 108, 108, 121];
    assert [79, QUOTE, 82, 101, 105, 108, 108, 121] == [79, QUOTE] + tail;
    OneQuoteEscaped(79, tail);
  }

  lemma OneQuoteEscaped(x: Char16, tail: JString)
    requires x != QUOTE && QUOTE !in tail
    ensures EscapeQuotes([x, QUOTE] + tail) == [x, QUOTE, QUOTE] + tail
  {
    var s := [x, QUOTE] + tail;
    assert s[1..] == [QUOTE] + tail && s[1..][1..] == tail;
  }
}
