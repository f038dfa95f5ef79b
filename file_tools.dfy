/**
 * The helpers of the file tools (FileMcpTools.java): the clamps applied to
 * tool parameters, the line excerpts of searches and filtered reads, the
 * context buffer and the de-duplicated output of filtered reads, the
 * warning cap, path containment, line joining, the case-insensitive
 * search, and the line edits of a patch.
 */
module FileTools {
  import opened JavaText
  import StepScanner

  // ---------------------------------------------------------------------
  // Parameter clamps
  // ---------------------------------------------------------------------

  /**
   * The clamp of every `resolve*`: the value given, or `fallback` when
   * none is, raised to `floor` and then lowered to `cap`.
   */
  function Clamp(value: Option<int>, fallback: int, floor: int, cap: int): (r: int)
    ensures r <= cap
    ensures floor <= cap ==> floor <= r
    ensures value.Some? && floor <= value.value <= cap ==> r == value.value
    ensures value.None? && floor <= fallback <= cap ==> r == fallback
    ensures value.Some? && value.value < floor ==> r == Min(floor, cap)
    ensures value.Some? && value.value > cap ==> r == cap
  {
    Min(Max(floor, value.GetOr(fallback)), cap)
  }

  /** A clamped value given back to the same clamp comes out unchanged. */
  lemma ClampIdempotent(value: Option<int>, fallback: int, fallback2: int, floor: int, cap: int)
    requires floor <= cap
    ensures Clamp(Some(Clamp(value, fallback, floor, cap)), fallback2, floor, cap) == Clamp(value, fallback, floor, cap)
  {
  }

  /** A larger request never yields a smaller limit. */
  lemma ClampMonotone(a: int, b: int, fallback: int, floor: int, cap: int)
    requires a <= b
    ensures Clamp(Some(a), fallback, floor, cap) <= Clamp(Some(b), fallback, floor, cap)
  {
  }

  /** The limits of `FileServerProperties` the clamps read. */
  datatype Settings = Settings(
    listDefaultLimit: int, listMaxLimit: int,
    treeDefaultDepth: int, treeMaxDepth: int,
    treeDefaultEntries: int, treeMaxEntries: int,
    readMaxBytes: int,
    readRangeDefaultBytes: int, readRangeMaxBytes: int,
    readLinesDefaultMaxLines: int, readLinesMaxLines: int,
    searchDefaultMaxMatches: int, searchMaxMatches: int,
    searchDefaultMaxFiles: int, searchMaxFiles: int,
    searchDefaultMaxDepth: int, searchMaxDepth: int,
    searchMaxLineLength: int)

  /** `resolveLimit`: a directory page size in [1, listMaxLimit]. */
  function ResolveLimit(s: Settings, limit: Option<int>): (r: int)
    ensures r <= s.listMaxLimit && (1 <= s.listMaxLimit ==> 1 <= r)
    ensures limit.None? && 1 <= s.listDefaultLimit <= s.listMaxLimit ==> r == s.listDefaultLimit
    ensures limit.Some? && 1 <= limit.value <= s.listMaxLimit ==> r == limit.value
  {
    Clamp(limit, s.listDefaultLimit, 1, s.listMaxLimit)
  }

  /** `resolveTreeMaxDepth`: a tree depth in [0, treeMaxDepth]. */
  function ResolveTreeMaxDepth(s: Settings, maxDepth: Option<int>): (r: int)
    ensures r <= s.treeMaxDepth && (0 <= s.treeMaxDepth ==> 0 <= r)
    ensures maxDepth.None? && 0 <= s.treeDefaultDepth <= s.treeMaxDepth ==> r == s.treeDefaultDepth
    ensures maxDepth.Some? && 0 <= maxDepth.value <= s.treeMaxDepth ==> r == maxDepth.value
  {
    Clamp(maxDepth, s.treeDefaultDepth, 0, s.treeMaxDepth)
  }

  /** `resolveTreeMaxEntries`: a tree size in [1, treeMaxEntries]. */
  function ResolveTreeMaxEntries(s: Settings, maxEntries: Option<int>): (r: int)
    ensures r <= s.treeMaxEntries && (1 <= s.treeMaxEntries ==> 1 <= r)
    ensures maxEntries.None? && 1 <= s.treeDefaultEntries <= s.treeMaxEntries ==> r == s.treeDefaultEntries
    ensures maxEntries.Some? && 1 <= maxEntries.value <= s.treeMaxEntries ==> r == maxEntries.value
  {
    Clamp(maxEntries, s.treeDefaultEntries, 1, s.treeMaxEntries)
  }

  /** `resolveReadMaxBytes`: a read size in [1, readMaxBytes], the maximum itself by default. */
  function ResolveReadMaxBytes(s: Settings, maxBytes: Option<int>): (r: int)
    ensures r <= s.readMaxBytes && (1 <= s.readMaxBytes ==> 1 <= r)
    ensures maxBytes.None? ==> r == s.readMaxBytes
    ensures maxBytes.Some? && 1 <= maxBytes.value <= s.readMaxBytes ==> r == maxBytes.value
  {
    Clamp(maxBytes, s.readMaxBytes, 1, s.readMaxBytes)
  }

  const STEP_MODEL_INFO_DEFAULT_MAX_BYTES: int := 16 * 1024 * 1024
  const STEP_MODEL_INFO_MAX_BYTES: int := 128 * 1024 * 1024
  const STEP_DATA_DEFAULT_MAX_ENTITIES: int := 500_000
  const STEP_DATA_MAX_ENTITIES: int := 5_000_000

  /** `resolveStepModelInfoMaxBytes`: a scan size in [1, 128 MiB], 16 MiB by default. */
  function ResolveStepModelInfoMaxBytes(maxBytes: Option<int>): (r: int)
    ensures 1 <= r <= 128 * 1024 * 1024
    ensures maxBytes.None? ==> r == 16 * 1024 * 1024
    ensures maxBytes.Some? && 1 <= maxBytes.value <= 128 * 1024 * 1024 ==> r == maxBytes.value
  {
    Clamp(maxBytes, STEP_MODEL_INFO_DEFAULT_MAX_BYTES, 1, STEP_MODEL_INFO_MAX_BYTES)
  }

  /** `resolveStepDataMaxEntities`: an entity budget in [1, 5 000 000], 500 000 by default. */
  function ResolveStepDataMaxEntities(maxEntities: Option<int>): (r: int)
    ensures 1 <= r <= 5_000_000
    ensures maxEntities.None? ==> r == 500_000
    ensures maxEntities.Some? && 1 <= maxEntities.value <= 5_000_000 ==> r == maxEntities.value
  {
    Clamp(maxEntities, STEP_DATA_DEFAULT_MAX_ENTITIES, 1, STEP_DATA_MAX_ENTITIES)
  }

  /**
   * `resolveReadRangeMaxBytes`: the clamp to [1, readRangeMaxBytes] done on
   * 64-bit values, then capped at the largest `int` and cast to `int`.
   */
  function ResolveReadRangeMaxBytes(s: Settings, maxBytes: Option<int>): (r: int)
    ensures INT_MIN <= r <= INT_MAX
    ensures r <= s.readRangeMaxBytes || s.readRangeMaxBytes < INT_MIN
    ensures 1 <= s.readRangeMaxBytes ==> 1 <= r
    ensures maxBytes.Some? && 1 <= maxBytes.value <= s.readRangeMaxBytes && maxBytes.value <= INT_MAX ==> r == maxBytes.value
  {
    WrapInt(Min(Clamp(maxBytes, s.readRangeDefaultBytes, 1, s.readRangeMaxBytes), INT_MAX))
  }

  /** `resolveReadLinesMaxLines`: a line count in [1, readLinesMaxLines]. */
  function ResolveReadLinesMaxLines(s: Settings, maxLines: Option<int>): (r: int)
    ensures r <= s.readLinesMaxLines && (1 <= s.readLinesMaxLines ==> 1 <= r)
    ensures maxLines.None? && 1 <= s.readLinesDefaultMaxLines <= s.readLinesMaxLines ==> r == s.readLinesDefaultMaxLines
    ensures maxLines.Some? && 1 <= maxLines.value <= s.readLinesMaxLines ==> r == maxLines.value
  {
    Clamp(maxLines, s.readLinesDefaultMaxLines, 1, s.readLinesMaxLines)
  }

  /** `resolveSearchMaxMatches`: a match count in [1, searchMaxMatches]. */
  function ResolveSearchMaxMatches(s: Settings, maxMatches: Option<int>): (r: int)
    ensures r <= s.searchMaxMatches && (1 <= s.searchMaxMatches ==> 1 <= r)
    ensures maxMatches.None? && 1 <= s.searchDefaultMaxMatches <= s.searchMaxMatches ==> r == s.searchDefaultMaxMatches
    ensures maxMatches.Some? && 1 <= maxMatches.value <= s.searchMaxMatches ==> r == maxMatches.value
  {
    Clamp(maxMatches, s.searchDefaultMaxMatches, 1, s.searchMaxMatches)
  }

  /** `resolveSearchMaxFiles`: a file count in [1, searchMaxFiles]. */
  function ResolveSearchMaxFiles(s: Settings, maxFiles: Option<int>): (r: int)
    ensures r <= s.searchMaxFiles && (1 <= s.searchMaxFiles ==> 1 <= r)
    ensures maxFiles.None? && 1 <= s.searchDefaultMaxFiles <= s.searchMaxFiles ==> r == s.searchDefaultMaxFiles
    ensures maxFiles.Some? && 1 <= maxFiles.value <= s.searchMaxFiles ==> r == maxFiles.value
  {
    Clamp(maxFiles, s.searchDefaultMaxFiles, 1, s.searchMaxFiles)
  }

  /** `resolveSearchMaxDepth`: a search depth in [0, searchMaxDepth]. */
  function ResolveSearchMaxDepth(s: Settings, maxDepth: Option<int>): (r: int)
    ensures r <= s.searchMaxDepth && (0 <= s.searchMaxDepth ==> 0 <= r)
    ensures maxDepth.None? && 0 <= s.searchDefaultMaxDepth <= s.searchMaxDepth ==> r == s.searchDefaultMaxDepth
    ensures maxDepth.Some? && 0 <= maxDepth.value <= s.searchMaxDepth ==> r == maxDepth.value
  {
    Clamp(maxDepth, s.searchDefaultMaxDepth, 0, s.searchMaxDepth)
  }

  /**
   * `resolveSearchMaxLineLength`: an excerpt length in [20,
   * searchMaxLineLength]; the maximum itself when none is given.
   */
  function ResolveSearchMaxLineLength(s: Settings, maxLineLength: Option<int>): (r: int)
    ensures r <= s.searchMaxLineLength && (20 <= s.searchMaxLineLength ==> 20 <= r)
    ensures maxLineLength.None? ==> r == s.searchMaxLineLength
    ensures maxLineLength.Some? && 20 <= maxLineLength.value <= s.searchMaxLineLength ==> r == maxLineLength.value
  {
    Clamp(maxLineLength, s.searchMaxLineLength, 20, s.searchMaxLineLength)
  }

  /** `resolveContextLines`: a context size in [0, 200], none by default. */
  function ResolveContextLines(value: Option<int>): (r: int)
    ensures 0 <= r <= 200
    ensures value.None? ==> r == 0
    ensures value.Some? && 0 <= value.value <= 200 ==> r == value.value
  {
    Clamp(value, 0, 0, 200)
  }

  // ---------------------------------------------------------------------
  // Excerpts
  // ---------------------------------------------------------------------

  /** `Excerpt`: the text shown for a line, whether it was cut, and the line's length when it was. */
  datatype Excerpt = Excerpt(text: JString, truncated: bool, originalLength: Option<int>)

  /**
   * `truncateLineHead`: a line that fits is kept; a longer one keeps its
   * head and ends in an ellipsis, `maxLineLength` units in all (one at
   * least).
   */
  function TruncateLineHead(line: Option<JString>, maxLineLength: int): (r: Excerpt)
    ensures line.None? ==> r == Excerpt([], false, None)
    ensures line.Some? && |line.value| <= maxLineLength ==> r == Excerpt(line.value, false, None)
    ensures line.Some? && |line.value| > maxLineLength ==>
      r.truncated && r.originalLength == Some(|line.value|)
      && |r.text| == Max(1, maxLineLength)
      && r.text[|r.text| - 1] == ELLIPSIS
      && r.text[..|r.text| - 1] == line.value[..|r.text| - 1]
  {
    if line.None? then Excerpt([], false, None)
    else if |line.value| <= maxLineLength then Excerpt(line.value, false, None)
    else if maxLineLength <= 1 then Excerpt([ELLIPSIS], true, Some(|line.value|))
    else Excerpt(line.value[..maxLineLength - 1] + [ELLIPSIS], true, Some(|line.value|))
  }

  /**
   * The part [start, end) of a line of `n` units that `buildExcerpt` shows:
   * `maxLineLength - 2` units (one at least) centred on `matchStart`,
   * moved back inside the line, or the whole line when it is shorter.
   */
  function Window(n: nat, matchStart: int, maxLineLength: int): (w: (int, int))
    ensures 0 <= w.0 <= w.1 <= n
    ensures w.1 - w.0 == Min(n, Max(1, maxLineLength - 2))
  {
    var available := Max(1, maxLineLength - 2);
    var start := Max(0, Min(matchStart - available / 2, n - available));
    (start, Min(n, start + available))
  }

  /** The window, with an ellipsis on each side where the line goes on. */
  function Marked(line: JString, start: int, end: int): (r: JString)
    requires 0 <= start <= end <= |line|
    ensures |r| <= end - start + 2
  {
    (if start > 0 then [ELLIPSIS] else []) + line[start..end] + (if end < |line| then [ELLIPSIS] else [])
  }

  /**
   * `buildExcerpt`: a line that fits is kept; a longer one is shown as the
   * window around the match, marked, and cut to `maxLineLength` units.
   * A negative `maxLineLength` makes the source throw on a line.
   */
  function BuildExcerpt(line: Option<JString>, matchStart: int, matchEnd: int, maxLineLength: int): (r: Excerpt)
    requires line.Some? ==> maxLineLength >= 0
    ensures line.None? ==> r == Excerpt([], false, None)
    ensures line.Some? && |line.value| <= maxLineLength ==> r == Excerpt(line.value, false, None)
    ensures line.Some? && |line.value| > maxLineLength ==>
      r.truncated && r.originalLength == Some(|line.value|) && |r.text| <= maxLineLength
  {
    if line.None? then Excerpt([], false, None)
    else if |line.value| <= maxLineLength then Excerpt(line.value, false, None)
    else
      var w := Window(|line.value|, matchStart, maxLineLength);
      var full := Marked(line.value, w.0, w.1);
      Excerpt(if |full| > maxLineLength then full[..maxLineLength] else full, true, Some(|line.value|))
  }

  /**
   * A match inside the line no longer than half the window (rounded up)
   * is shown whole when the limit leaves room for both ellipses.
   */
  lemma ExcerptShowsMatch(line: JString, matchStart: int, matchEnd: int, maxLineLength: int)
    requires |line| > maxLineLength >= 3
    requires 0 <= matchStart <= matchEnd <= |line|
    requires matchEnd - matchStart <= (maxLineLength - 2) - (maxLineLength - 2) / 2
    ensures Contains(BuildExcerpt(Some(line), matchStart, matchEnd, maxLineLength).text, line[matchStart..matchEnd])
  {
    var w := Window(|line|, matchStart, maxLineLength);
    WindowCoversMatch(|line|, matchStart, matchEnd, maxLineLength);
    var full := Marked(line, w.0, w.1);
    assert BuildExcerpt(Some(line), matchStart, matchEnd, maxLineLength).text == full;
    MarkedShows(line, w.0, w.1, matchStart, matchEnd);
  }

  /** The window holds a match no longer than half of it (rounded up). */
  lemma WindowCoversMatch(n: nat, matchStart: int, matchEnd: int, maxLineLength: int)
    requires n > maxLineLength >= 3
    requires 0 <= matchStart <= matchEnd <= n
    requires matchEnd - matchStart <= (maxLineLength - 2) - (maxLineLength - 2) / 2
    ensures Window(n, matchStart, maxLineLength).0 <= matchStart
    ensures matchEnd <= Window(n, matchStart, maxLineLength).1
  {
    var a := maxLineLength - 2;
    var h := a / 2;
    assert 0 <= h && h + h <= a;
  }

  /** A part of the window shows in the marked window. */
  lemma MarkedShows(line: JString, start: int, end: int, i: int, j: int)
    requires 0 <= start <= i <= j <= end <= |line|
    ensures Contains(Marked(line, start, end), line[i..j])
  {
    var pre: JString := if start > 0 then [ELLIPSIS] else [];
    var post: JString := if end < |line| then [ELLIPSIS] else [];
    assert line[start..j] == line[start..i] + line[i..j];
    assert line[start..end] == line[start..j] + line[j..end];
    var x, y, z := pre + line[start..i], line[i..j], line[j..end] + post;
    assert Marked(line, start, end) == x + y + z;
    assert (x + y + z)[|x|..|x| + |y|] == y;
    assert OccursAt(x + y + z, y, |x|);
  }

  // ---------------------------------------------------------------------
  // Context lines and the output of a filtered read
  // ---------------------------------------------------------------------

  /** `LineBufferItem`: a line kept for the context before a match. */
  datatype BufferedLine = BufferedLine(lineNumber: int, text: JString)

  /** The last `n` items of `s`, or all of them when there are fewer. */
  function LastN<T>(s: seq<T>, n: int): (r: seq<T>)
    ensures |r| == Min(|s|, Max(0, n))
    ensures r == s[|s| - |r|..]
  {
    s[|s| - Min(|s|, Max(0, n))..]
  }

  /** Keeping the last `n` after every push keeps the last `n` of all that was pushed. */
  lemma LastNPush<T>(s: seq<T>, x: T, n: int)
    requires n > 0
    ensures LastN(LastN(s, n) + [x], n) == LastN(s + [x], n)
  {
    var k := LastN(s, n);
    var a := LastN(k + [x], n);
    var b := LastN(s + [x], n);
    assert |a| == |b|;
    forall i | 0 <= i < |a|
      ensures a[i] == b[i]
    {
      if i == |a| - 1 {
      } else {
        assert a[i] == k[|k| + 1 - |a| + i];
        assert b[i] == s[|s| + 1 - |b| + i];
      }
    }
  }

  /**
   * `pushBeforeBuffer`: nothing is kept when `maxSize` is not positive;
   * otherwise the line goes at the end and the oldest are dropped until
   * `maxSize` remain.
   */
  method PushBeforeBuffer(buffer: seq<BufferedLine>, lineNumber: int, text: JString, maxSize: int)
    returns (r: seq<BufferedLine>)
    ensures maxSize <= 0 ==> r == buffer
    ensures maxSize > 0 ==> r == LastN(buffer + [BufferedLine(lineNumber, text)], maxSize)
  {
    if maxSize <= 0 {
      return buffer;
    }
    var all := buffer + [BufferedLine(lineNumber, text)];
    r := all;
    while |r| > maxSize
      invariant |r| <= |all| && r == all[|all| - |r|..]
      invariant |r| < |all| ==> |r| >= maxSize
      decreases |r|
    {
      r := r[1..];
    }
  }

  /** `FileReadFilteredLine`: one line of a filtered read. */
  datatype FilteredLine = FilteredLine(lineNumber: int, matched: bool, column: Option<int>, text: JString,
                                       textTruncated: bool, originalLineLength: Option<int>)

  /** `indexByLine` gives the position in `out` of each line number `out` holds, and of no other. */
  predicate IndexedBy(out: seq<FilteredLine>, indexByLine: map<int, int>) {
    (forall n | n in indexByLine :: 0 <= indexByLine[n] < |out| && out[indexByLine[n]].lineNumber == n)
    && (forall i | 0 <= i < |out| :: out[i].lineNumber in indexByLine && indexByLine[out[i].lineNumber] == i)
  }

  /** Output indexed by line number never holds one line number twice. */
  lemma IndexedDistinct(out: seq<FilteredLine>, indexByLine: map<int, int>)
    requires IndexedBy(out, indexByLine)
    ensures forall i, j | 0 <= i < j < |out| :: out[i].lineNumber != out[j].lineNumber
  {
  }

  /**
   * `emitFilteredLine`: a line number seen before changes its entry in
   * place (a context line becomes a match; a match without a column gets
   * one) and nothing else; a new one is appended and indexed.
   */
  method EmitFilteredLine(out: seq<FilteredLine>, indexByLine: map<int, int>, lineNumber: int, matched: bool,
                          column: Option<int>, excerpt: Excerpt)
    returns (out': seq<FilteredLine>, indexByLine': map<int, int>)
    requires IndexedBy(out, indexByLine)
    ensures IndexedBy(out', indexByLine')
    ensures indexByLine'.Keys == indexByLine.Keys + {lineNumber}
    ensures matched ==> out'[indexByLine'[lineNumber]].matched
    ensures lineNumber in indexByLine ==>
      var i := indexByLine[lineNumber];
      var prior := out[i];
      indexByLine' == indexByLine && |out'| == |out|
      && (forall k | 0 <= k < |out| && k != i :: out'[k] == out[k])
      && out'[i] == (if matched && !prior.matched
                     then FilteredLine(lineNumber, true, column, excerpt.text, excerpt.truncated, excerpt.originalLength)
                     else if prior.matched && prior.column.None? && column.Some? then prior.(column := column)
                     else prior)
    ensures lineNumber !in indexByLine ==>
      out' == out + [FilteredLine(lineNumber, matched, if matched then column else None, excerpt.text,
                                  excerpt.truncated, excerpt.originalLength)]
      && indexByLine' == indexByLine[lineNumber := |out|]
  {
    indexByLine' := indexByLine;
    if lineNumber in indexByLine {
      var i := indexByLine[lineNumber];
      var prior := out[i];
      out' := out;
      if matched && !prior.matched {
        out' := out[i := FilteredLine(lineNumber, true, column, excerpt.text, excerpt.truncated, excerpt.originalLength)];
      } else if prior.matched && prior.column.None? && column.Some? {
        out' := out[i := prior.(column := column)];
      }
      return;
    }
    out' := out + [FilteredLine(lineNumber, matched, if matched then column else None, excerpt.text,
                                excerpt.truncated, excerpt.originalLength)];
    indexByLine' := indexByLine[lineNumber := |out'| - 1];
  }

  /** The line numbers of buffered lines. */
  function LineNumbers(items: seq<BufferedLine>): set<int> {
    set k | 0 <= k < |items| :: items[k].lineNumber
  }

  lemma LineNumbersPrefix(items: seq<BufferedLine>, i: int)
    requires 0 <= i < |items|
    ensures LineNumbers(items[..i + 1]) == LineNumbers(items[..i]) + {items[i].lineNumber}
  {
    var a, b := items[..i], items[..i + 1];
    forall n | n in LineNumbers(a) ensures n in LineNumbers(b) {
      var k :| 0 <= k < |a| && a[k].lineNumber == n;
      assert b[k] == a[k];
    }
    assert b[i] == items[i];
  }

  /** `after` is `out` followed by context lines only. */
  predicate ContextAppended(out: seq<FilteredLine>, after: seq<FilteredLine>) {
    |out| <= |after| && after[..|out|] == out
    && forall k | |out| <= k < |after| :: !after[k].matched && after[k].column.None?
  }

  lemma ContextAppendedTrans(a: seq<FilteredLine>, b: seq<FilteredLine>, c: seq<FilteredLine>)
    requires ContextAppended(a, b) && ContextAppended(b, c)
    ensures ContextAppended(a, c)
  {
    assert c[..|a|] == c[..|b|][..|a|];
    forall k | |a| <= k < |c|
      ensures !c[k].matched && c[k].column.None?
    {
      if k < |b| {
        assert c[k] == c[..|b|][k];
      }
    }
  }

  /** A buffered line as a context line: not matched, no column, its text cut at the head. */
  function ContextLine(item: BufferedLine, maxLineLength: int): (r: FilteredLine)
    ensures r.lineNumber == item.lineNumber && !r.matched && r.column.None?
    ensures r.text == TruncateLineHead(Some(item.text), maxLineLength).text
  {
    var ex := TruncateLineHead(Some(item.text), maxLineLength);
    FilteredLine(item.lineNumber, false, None, ex.text, ex.truncated, ex.originalLength)
  }

  /**
   * The context lines that emitting `items` in order appends when the line
   * numbers in `indexed` are already present: one per line number not yet
   * seen, at its first occurrence.
   */
  function ContextLines(items: seq<BufferedLine>, indexed: set<int>, maxLineLength: int): seq<FilteredLine>
    decreases |items|
  {
    if items == [] then []
    else
      (if items[0].lineNumber in indexed then [] else [ContextLine(items[0], maxLineLength)])
      + ContextLines(items[1..], indexed + {items[0].lineNumber}, maxLineLength)
  }

  /** Never more context lines than buffered lines, and none for a line number already indexed. */
  lemma {:induction false} ContextLinesFresh(items: seq<BufferedLine>, indexed: set<int>, maxLineLength: int)
    ensures |ContextLines(items, indexed, maxLineLength)| <= |items|
    ensures forall k | 0 <= k < |ContextLines(items, indexed, maxLineLength)| ::
      ContextLines(items, indexed, maxLineLength)[k].lineNumber in LineNumbers(items) - indexed
    decreases |items|
  {
    if items != [] {
      var n0 := items[0].lineNumber;
      var head := if n0 in indexed then [] else [ContextLine(items[0], maxLineLength)];
      var rest := ContextLines(items[1..], indexed + {n0}, maxLineLength);
      ContextLinesFresh(items[1..], indexed + {n0}, maxLineLength);
      var r := head + rest;
      forall k | 0 <= k < |r| ensures r[k].lineNumber in LineNumbers(items) - indexed {
        if k >= |head| {
          assert r[k] == rest[k - |head|];
          var m :| 0 <= m < |items[1..]| && items[1..][m].lineNumber == r[k].lineNumber;
          assert items[m + 1].lineNumber == r[k].lineNumber;
        }
      }
    }
  }

  /** Every line number of `items` not yet indexed gets its context line. */
  lemma {:induction false} ContextLinesCover(items: seq<BufferedLine>, indexed: set<int>, maxLineLength: int, n: int)
    requires n in LineNumbers(items) - indexed
    ensures exists k :: 0 <= k < |ContextLines(items, indexed, maxLineLength)|
                        && ContextLines(items, indexed, maxLineLength)[k].lineNumber == n
    decreases |items|
  {
    var n0 := items[0].lineNumber;
    var head := if n0 in indexed then [] else [ContextLine(items[0], maxLineLength)];
    var rest := ContextLines(items[1..], indexed + {n0}, maxLineLength);
    var r := head + rest;
    assert r == ContextLines(items, indexed, maxLineLength);
    if n == n0 {
      assert r[0].lineNumber == n;
    } else {
      var m :| 0 <= m < |items| && items[m].lineNumber == n;
      assert items[1..][m - 1].lineNumber == n;
      ContextLinesCover(items[1..], indexed + {n0}, maxLineLength, n);
      var k :| 0 <= k < |rest| && rest[k].lineNumber == n;
      assert r[k + |head|].lineNumber == n;
    }
  }

  /** The appended context lines never repeat a line number. */
  lemma {:induction false} ContextLinesDistinct(items: seq<BufferedLine>, indexed: set<int>, maxLineLength: int)
    ensures forall i, j | 0 <= i < j < |ContextLines(items, indexed, maxLineLength)| ::
      ContextLines(items, indexed, maxLineLength)[i].lineNumber
      != ContextLines(items, indexed, maxLineLength)[j].lineNumber
    decreases |items|
  {
    if items != [] {
      var n0 := items[0].lineNumber;
      var head := if n0 in indexed then [] else [ContextLine(items[0], maxLineLength)];
      var rest := ContextLines(items[1..], indexed + {n0}, maxLineLength);
      ContextLinesDistinct(items[1..], indexed + {n0}, maxLineLength);
      ContextLinesFresh(items[1..], indexed + {n0}, maxLineLength);
      var r := head + rest;
      forall i, j | 0 <= i < j < |r| ensures r[i].lineNumber != r[j].lineNumber {
        assert r[j] == rest[j - |head|];
        if i < |head| {
          assert rest[j - 1].lineNumber !in indexed + {n0};
        } else {
          assert r[i] == rest[i - |head|];
        }
      }
    }
  }

  lemma ContextLinesStep(items: seq<BufferedLine>, i: nat, indexed: set<int>, maxLineLength: int)
    requires i < |items|
    ensures ContextLines(items[i..], indexed, maxLineLength)
            == (if items[i].lineNumber in indexed then [] else [ContextLine(items[i], maxLineLength)])
               + ContextLines(items[i + 1..], indexed + {items[i].lineNumber}, maxLineLength)
  {
    assert items[i..][1..] == items[i + 1..];
  }

  /** Emitting one more item keeps "emitted so far, then the rest" equal to the whole emission. */
  lemma ContextLinesAdvance(out: seq<FilteredLine>, out': seq<FilteredLine>, items: seq<BufferedLine>, i: nat,
                            keys: set<int>, keys': set<int>, maxLineLength: int, whole: seq<FilteredLine>)
    requires i < |items|
    requires out + ContextLines(items[i..], keys, maxLineLength) == whole
    requires out' == out + (if items[i].lineNumber in keys then [] else [ContextLine(items[i], maxLineLength)])
    requires keys' == keys + {items[i].lineNumber}
    ensures out' + ContextLines(items[i + 1..], keys', maxLineLength) == whole
  {
    ContextLinesStep(items, i, keys, maxLineLength);
  }

  /** One buffered line emitted as context: earlier entries stay, and its line number is indexed. */
  method EmitContextLine(out: seq<FilteredLine>, indexByLine: map<int, int>, item: BufferedLine, maxLineLength: int)
    returns (out': seq<FilteredLine>, indexByLine': map<int, int>)
    requires IndexedBy(out, indexByLine)
    ensures IndexedBy(out', indexByLine')
    ensures indexByLine'.Keys == indexByLine.Keys + {item.lineNumber}
    ensures ContextAppended(out, out')
    ensures out' == out + (if item.lineNumber in indexByLine then [] else [ContextLine(item, maxLineLength)])
  {
    var ex := TruncateLineHead(Some(item.text), maxLineLength);
    out', indexByLine' := EmitFilteredLine(out, indexByLine, item.lineNumber, false, None, ex);
  }

  /**
   * The loop of `emitTailContext`: the items are emitted as context in
   * order; they never change an entry already there, and every one of them
   * is indexed afterwards.
   */
  method EmitContextLines(items: seq<BufferedLine>, out: seq<FilteredLine>, indexByLine: map<int, int>,
                          maxLineLength: int)
    returns (out': seq<FilteredLine>, indexByLine': map<int, int>)
    requires IndexedBy(out, indexByLine)
    ensures IndexedBy(out', indexByLine')
    ensures indexByLine'.Keys == indexByLine.Keys + LineNumbers(items)
    ensures ContextAppended(out, out')
    ensures out' == out + ContextLines(items, indexByLine.Keys, maxLineLength)
  {
    out', indexByLine' := out, indexByLine;
    assert out[..|out|] == out && items[0..] == items;
    var i := 0;
    while i < |items|
      invariant i <= |items|
      invariant IndexedBy(out', indexByLine')
      invariant indexByLine'.Keys == indexByLine.Keys + LineNumbers(items[..i])
      invariant ContextAppended(out, out')
      invariant out' + ContextLines(items[i..], indexByLine'.Keys, maxLineLength)
                == out + ContextLines(items, indexByLine.Keys, maxLineLength)
    {
      ghost var before := out';
      ghost var keys := indexByLine'.Keys;
      out', indexByLine' := EmitContextLine(out', indexByLine', items[i], maxLineLength);
      ContextAppendedTrans(out, before, out');
      LineNumbersPrefix(items, i);
      ContextLinesAdvance(before, out', items, i, keys, indexByLine'.Keys, maxLineLength,
                          out + ContextLines(items, indexByLine.Keys, maxLineLength));
      i := i + 1;
    }
    assert items[..|items|] == items && items[|items|..] == [];
  }

  /**
   * `emitTailContext`: the last `contextToEmit` buffered lines are emitted
   * as context, cut at the head, and nothing for a non-positive count.
   */
  method EmitTailContext(buffer: seq<BufferedLine>, contextToEmit: int, out: seq<FilteredLine>,
                         indexByLine: map<int, int>, maxLineLength: int)
    returns (out': seq<FilteredLine>, indexByLine': map<int, int>)
    requires IndexedBy(out, indexByLine)
    ensures IndexedBy(out', indexByLine')
    ensures contextToEmit <= 0 ==> out' == out && indexByLine' == indexByLine
    ensures indexByLine'.Keys == indexByLine.Keys + LineNumbers(LastN(buffer, contextToEmit))
    ensures ContextAppended(out, out')
    ensures out' == out + ContextLines(LastN(buffer, contextToEmit), indexByLine.Keys, maxLineLength)
  {
    if contextToEmit <= 0 {
      assert LastN(buffer, contextToEmit) == [] && out[..|out|] == out;
      return out, indexByLine;
    }
    out', indexByLine' := EmitContextLines(LastN(buffer, contextToEmit), out, indexByLine, maxLineLength);
  }

  // ---------------------------------------------------------------------
  // The warning cap
  // ---------------------------------------------------------------------

  /** How many warnings are kept before the overflow marker. */
  const MAX_WARNINGS := 50

  /** A warning of a tool result: a message, or the marker that later ones were omitted. */
  datatype ToolWarning = Note(text: JString) | MoreOmitted

  /**
   * `addWarningLimited`: the message is added while fewer than 50 are
   * held, the marker once when exactly 50 are, and nothing after that.
   */
  function AddWarningLimited(warnings: seq<ToolWarning>, message: JString): (r: seq<ToolWarning>)
    ensures |warnings| < MAX_WARNINGS ==> r == warnings + [Note(message)]
    ensures |warnings| == MAX_WARNINGS ==> r == warnings + [MoreOmitted]
    ensures |warnings| > MAX_WARNINGS ==> r == warnings
  {
    if |warnings| < MAX_WARNINGS then warnings + [Note(message)]
    else if |warnings| == MAX_WARNINGS then warnings + [MoreOmitted]
    else warnings
  }

  /** The warnings after adding `messages` one by one to an empty list. */
  function Warned(messages: seq<JString>): seq<ToolWarning>
    decreases |messages|
  {
    if messages == [] then []
    else AddWarningLimited(Warned(messages[..|messages| - 1]), messages[|messages| - 1])
  }

  /** The messages as warnings. */
  function Notes(messages: seq<JString>): (r: seq<ToolWarning>)
    ensures |r| == |messages| && forall i | 0 <= i < |r| :: r[i] == Note(messages[i])
  {
    seq(|messages|, i requires 0 <= i < |messages| => Note(messages[i]))
  }

  /**
   * However many warnings are added, the list holds the first 50 in order
   * and, when there were more, the marker once after them: 51 at most.
   */
  lemma {:induction false} WarnedShape(messages: seq<JString>)
    ensures Warned(messages) == Notes(messages[..Min(|messages|, MAX_WARNINGS)])
                                + (if |messages| > MAX_WARNINGS then [MoreOmitted] else [])
    ensures |Warned(messages)| <= MAX_WARNINGS + 1
    decreases |messages|
  {
    if messages != [] {
      var init := messages[..|messages| - 1];
      WarnedShape(init);
      if |messages| <= MAX_WARNINGS {
        assert messages[..|messages|] == init + [messages[|messages| - 1]];
      } else {
        assert init[..Min(|init|, MAX_WARNINGS)] == messages[..MAX_WARNINGS];
      }
    }
  }

  // ---------------------------------------------------------------------
  // Joining lines
  // ---------------------------------------------------------------------

  /** The separator `joinLines` uses: `eol`, or a line feed when `eol` is empty. */
  function ResolvedEol(eol: JString): (r: JString)
    ensures r != []
    ensures eol != [] ==> r == eol
  {
    if eol == [] then [NEWLINE] else eol
  }

  /** The lines with `sep` between each two. */
  function Joined(lines: seq<JString>, sep: JString): JString
    decreases |lines|
  {
    if lines == [] then []
    else if |lines| == 1 then lines[0]
    else lines[0] + sep + Joined(lines[1..], sep)
  }

  /** Appending a line to a non-empty list appends a separator and the line. */
  lemma {:induction false} JoinedSnoc(lines: seq<JString>, x: JString, sep: JString)
    requires lines != []
    ensures Joined(lines + [x], sep) == Joined(lines, sep) + sep + x
    decreases |lines|
  {
    if |lines| > 1 {
      JoinedSnoc(lines[1..], x, sep);
      assert (lines + [x])[1..] == lines[1..] + [x];
    }
  }

  /**
   * `joinLines`: an empty list gives `eol` or nothing; otherwise the lines
   * joined with the resolved separator, followed by one more separator
   * when the text ended with a newline.
   */
  method JoinLines(lines: seq<JString>, eol: JString, endsWithNewline: bool) returns (r: JString)
    ensures lines == [] ==> r == (if endsWithNewline then eol else [])
    ensures lines != [] ==> r == Joined(lines, ResolvedEol(eol)) + (if endsWithNewline then ResolvedEol(eol) else [])
  {
    if lines == [] {
      return if endsWithNewline then eol else [];
    }
    var sep := ResolvedEol(eol);
    r := [];
    var i := 0;
    while i < |lines|
      invariant 0 <= i <= |lines|
      invariant 0 < i ==> r == Joined(lines[..i], sep) + (if i < |lines| then sep else [])
      invariant i == 0 ==> r == []
    {
      if i > 0 {
        JoinedSnoc(lines[..i], lines[i], sep);
        assert lines[..i + 1] == lines[..i] + [lines[i]];
      }
      r := r + lines[i];
      if i < |lines| - 1 {
        r := r + sep;
      }
      i := i + 1;
    }
    assert lines[..|lines|] == lines;
    if endsWithNewline {
      r := r + sep;
    }
  }

  /** The pieces of `s` between the occurrences of `c`. */
  function SplitOn(s: JString, c: Char16): (r: seq<JString>)
    decreases |s|
    ensures |r| >= 1
  {
    var i := IndexOfChar(s, c, 0);
    if i < 0 then [s] else [s[..i]] + SplitOn(s[i + 1..], c)
  }

  /** Joining lines free of `c` with `c` and splitting at `c` gives the lines back. */
  lemma {:induction false} SplitJoined(lines: seq<JString>, c: Char16)
    requires lines != []
    requires forall i | 0 <= i < |lines| :: c !in lines[i]
    ensures SplitOn(Joined(lines, [c]), c) == lines
    decreases |lines|
  {
    var s := Joined(lines, [c]);
    if |lines| == 1 {
      assert IndexOfChar(s, c, 0) == -1;
    } else {
      var l0 := lines[0];
      assert s == l0 + [c] + Joined(lines[1..], [c]);
      var i := IndexOfChar(s, c, 0);
      assert s[|l0|] == c;
      assert s[..i] == l0;
      assert s[i + 1..] == Joined(lines[1..], [c]);
      SplitJoined(lines[1..], c);
    }
  }

  // ---------------------------------------------------------------------
  // Paths
  // ---------------------------------------------------------------------

  const CURRENT_PATH: JString := [DOT]

  /** `normalizeDisplayPath`: every backslash becomes a slash. */
  function NormalizeDisplayPath(path: JString): (r: JString)
    ensures |r| == |path| && BACKSLASH !in r
    ensures forall i | 0 <= i < |path| && path[i] != BACKSLASH :: r[i] == path[i]
  {
    ReplaceChar(path, BACKSLASH, SLASH)
  }

  /** `normalizeBasePath`: the normalised path, or "." for an absent or blank one. */
  function NormalizeBasePath(lib: JavaLib, path: Option<JString>): (r: JString)
    ensures r != [] && BACKSLASH !in r
    ensures r == CURRENT_PATH || (path.Some? && r == NormalizeDisplayPath(path.value) && !IsBlank(lib, r))
    ensures path.Some? && !IsBlank(lib, NormalizeDisplayPath(path.value)) ==> r == NormalizeDisplayPath(path.value)
  {
    if path.None? || IsBlank(lib, NormalizeDisplayPath(path.value)) then CURRENT_PATH
    else NormalizeDisplayPath(path.value)
  }

  /**
   * `isUnderBase`: every path is under "." (which an absent or blank base
   * becomes); otherwise a path is under the base when it is the base or
   * starts with the base and a slash.
   */
  predicate IsUnderBase(lib: JavaLib, candidatePath: Option<JString>, basePath: Option<JString>) {
    var base := NormalizeBasePath(lib, basePath);
    var p := NormalizeBasePath(lib, candidatePath);
    base == CURRENT_PATH || p == base || StartsWith(p, base + [SLASH])
  }

  /**
   * The cases of `isUnderBase`: an absent or blank base contains
   * everything, a path is under itself, and a path below the base and a
   * separator is under it, whichever separator either uses.
   */
  lemma UnderBaseCases(lib: JavaLib, candidate: JString, base: JString, rest: JString)
    ensures IsBlank(lib, NormalizeDisplayPath(base)) ==> IsUnderBase(lib, Some(candidate), Some(base))
    ensures IsUnderBase(lib, Some(candidate), None)
    ensures IsUnderBase(lib, Some(base), Some(base))
    ensures IsUnderBase(lib, Some(base + [BACKSLASH] + rest), Some(base))
  {
    var b := NormalizeDisplayPath(base);
    var p := NormalizeDisplayPath(base + [BACKSLASH] + rest);
    if !IsBlank(lib, b) {
      var j :| 0 <= j < |b| && !lib.isWhitespace(b[j]);
      assert p[j] == b[j];
      assert p[..|b| + 1] == b + [SLASH];
    }
  }

  /** A path under a path under the base is under the base. */
  lemma UnderBaseTransitive(lib: JavaLib, a: Option<JString>, b: Option<JString>, c: Option<JString>)
    requires IsUnderBase(lib, a, b) && IsUnderBase(lib, b, c)
    ensures IsUnderBase(lib, a, c)
  {
    var pa, pb, pc := NormalizeBasePath(lib, a), NormalizeBasePath(lib, b), NormalizeBasePath(lib, c);
    if pc != CURRENT_PATH && pa != pc {
      if pa == pb {
      } else {
        assert StartsWith(pa, pb + [SLASH]);
        if pb == pc {
        } else {
          assert StartsWith(pb, pc + [SLASH]);
          assert pa[..|pc| + 1] == pb[..|pc| + 1];
        }
      }
    }
  }

  /** Writing either path with backslashes instead of slashes changes nothing. */
  lemma UnderBaseIgnoresSeparators(lib: JavaLib, a: JString, b: JString)
    ensures IsUnderBase(lib, Some(NormalizeDisplayPath(a)), Some(NormalizeDisplayPath(b)))
        == IsUnderBase(lib, Some(a), Some(b))
  {
    assert NormalizeDisplayPath(NormalizeDisplayPath(a)) == NormalizeDisplayPath(a);
    assert NormalizeDisplayPath(NormalizeDisplayPath(b)) == NormalizeDisplayPath(b);
  }

  // ---------------------------------------------------------------------
  // Case-insensitive search
  // ---------------------------------------------------------------------

  /**
   * `indexOfIgnoreCase`: 0 for an empty token, -1 for one longer than the
   * text, otherwise the first index where the token matches ignoring case,
   * or -1.
   */
  method IndexOfIgnoreCase(lib: JavaLib, text: JString, token: JString) returns (r: int)
    ensures token == [] ==> r == 0
    ensures |token| > |text| ==> r == -1
    ensures r == StepScanner.FirstMatch(lib, text, token, 0)
  {
    if |token| == 0 {
      return 0;
    }
    if |token| > |text| {
      return -1;
    }
    var i := 0;
    while i <= |text| - |token|
      invariant 0 <= i
      invariant StepScanner.FirstMatch(lib, text, token, i) == StepScanner.FirstMatch(lib, text, token, 0)
      decreases |text| - i
    {
      if StepScanner.RegionMatches(lib, text, i, token) {
        return i;
      }
      i := i + 1;
    }
    return -1;
  }

  // ---------------------------------------------------------------------
  // Line edits of a patch
  // ---------------------------------------------------------------------

  /** Why a line edit is refused. */
  datatype EditError =
    | AtLineNotPositive
    | AtLineOutOfRange
    | UnsupportedPosition(position: JString)
    | FromLineNotPositive
    | ToLineNegative
    | ToLineBeforeFromLine
    | FromLineOutOfRange
    | ToLineOutOfRange

  /** The lines after an edit, or why it was refused. */
  datatype Edited = Applied(lines: seq<JString>) | Refused(error: EditError)

  const BEFORE: JString := Str("before")
  const AFTER: JString := Str("after")

  /** Where `insert_lines` goes: "before" when no position is given, else the position trimmed and lower-cased. */
  function InsertPosition(lib: JavaLib, position: Option<JString>): JString {
    if position.None? || IsBlank(lib, position.value) then BEFORE else lib.toLowerCase(Trim(position.value))
  }

  /**
   * `insert_lines`: `atLine` must be given and positive; an empty insert
   * changes nothing; "before" line `atLine` (1 to n + 1) or "after" it
   * (1 to n), the inserted lines come in order, the others keep theirs.
   */
  function InsertLines(lib: JavaLib, lines: seq<JString>, atLine: Option<int>, position: Option<JString>,
                       insert: seq<JString>): (r: Edited)
    ensures atLine.None? || atLine.value <= 0 ==> r == Refused(AtLineNotPositive)
    ensures atLine.Some? && atLine.value > 0 && insert == [] ==> r == Applied(lines)
    ensures atLine.Some? && atLine.value > 0 && insert != [] ==>
      var pos := InsertPosition(lib, position);
      var at := atLine.value;
      if pos == BEFORE then
        if at <= |lines| + 1 then r.Applied? && |r.lines| == |lines| + |insert| && r.lines[at - 1..at - 1 + |insert|] == insert
          && r.lines[..at - 1] == lines[..at - 1] && r.lines[at - 1 + |insert|..] == lines[at - 1..]
        else r == Refused(AtLineOutOfRange)
      else if pos == AFTER then
        if at <= |lines| then r.Applied? && |r.lines| == |lines| + |insert| && r.lines[at..at + |insert|] == insert
          && r.lines[..at] == lines[..at] && r.lines[at + |insert|..] == lines[at..]
        else r == Refused(AtLineOutOfRange)
      else r == Refused(UnsupportedPosition(position.value))
    ensures r.Applied? ==> |r.lines| == |lines| + |insert|
  {
    if atLine.None? || atLine.value <= 0 then Refused(AtLineNotPositive)
    else if insert == [] then Applied(lines)
    else
      var pos := InsertPosition(lib, position);
      var at := atLine.value;
      if pos == BEFORE then
        if at > |lines| + 1 then Refused(AtLineOutOfRange)
        else Applied(lines[..at - 1] + insert + lines[at - 1..])
      else if pos == AFTER then
        if at > |lines| then Refused(AtLineOutOfRange)
        else Applied(lines[..at] + insert + lines[at..])
      else Refused(UnsupportedPosition(position.value))
  }

  /**
   * `delete_lines`: `fromLine` must be given and positive, `toLine`
   * (`fromLine` by default) not negative, and 1 <= fromLine <= toLine <= n;
   * then exactly lines `fromLine` to `toLine` go, the rest keep their order.
   */
  function DeleteLines(lines: seq<JString>, fromLine: Option<int>, toLine: Option<int>): (r: Edited)
    ensures r.Applied? <==> fromLine.Some? && 1 <= fromLine.value <= toLine.GetOr(fromLine.value) <= |lines|
    ensures r.Applied? ==>
      var from, to := fromLine.value, toLine.GetOr(fromLine.value);
      |r.lines| == |lines| - (to - from + 1)
      && r.lines[..from - 1] == lines[..from - 1] && r.lines[from - 1..] == lines[to..]
    ensures fromLine.None? || fromLine.value <= 0 ==> r == Refused(FromLineNotPositive)
    ensures fromLine.Some? && fromLine.value > 0 && toLine.Some? && toLine.value < 0 ==> r == Refused(ToLineNegative)
  {
    if fromLine.None? || fromLine.value <= 0 then Refused(FromLineNotPositive)
    else if toLine.Some? && toLine.value < 0 then Refused(ToLineNegative)
    else
      var from, to := fromLine.value, toLine.GetOr(fromLine.value);
      if to < from then Refused(ToLineBeforeFromLine)
      else if from > |lines| then Refused(FromLineOutOfRange)
      else if to > |lines| then Refused(ToLineOutOfRange)
      else Applied(lines[..from - 1] + lines[to..])
  }

  /** Deleting the lines just inserted before line `atLine` gives the original lines back. */
  lemma DeleteUndoesInsert(lib: JavaLib, lines: seq<JString>, atLine: int, position: Option<JString>, insert: seq<JString>)
    requires insert != [] && 1 <= atLine
    requires InsertLines(lib, lines, Some(atLine), position, insert).Applied?
    ensures var at := if InsertPosition(lib, position) == BEFORE then atLine else atLine + 1;
      DeleteLines(InsertLines(lib, lines, Some(atLine), position, insert).lines, Some(at), Some(at + |insert| - 1))
        == Applied(lines)
  {
    var r := InsertLines(lib, lines, Some(atLine), position, insert).lines;
    var at := if InsertPosition(lib, position) == BEFORE then atLine else atLine + 1;
    SpliceUndone(lines, insert, at, r);
  }

  /** Cutting out the block spliced in at line `at` leaves the lines around it. */
  lemma SpliceUndone(lines: seq<JString>, insert: seq<JString>, at: int, r: seq<JString>)
    requires insert != [] && 1 <= at <= |lines| + 1 && |r| == |lines| + |insert|
    requires r[..at - 1] == lines[..at - 1] && r[at - 1 + |insert|..] == lines[at - 1..]
    ensures DeleteLines(r, Some(at), Some(at + |insert| - 1)) == Applied(lines)
  {
    assert r[..at - 1] + r[at - 1 + |insert|..] == lines;
  }
}
