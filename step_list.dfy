/**
 * `listEntities` (StepDataAnalyzer.java): the paged, type-filtered listing
 * of DATA-section entities.
 *
 * The entities matching the filter, in scan order, are `Matching` of the
 * entities the scan keeps; a page is the slice `PageOf` of those matches.
 * The loop is proved to return that slice, to report `hasMore` exactly when
 * the page fills, and to stop scanning at the entity that fills it.
 */
module StepList {
  import opened JavaText
  import opened StepScanner
  import opened StepRecords
  import opened StepSummaries
  import opened StepScan

  /** The page size when none is asked for, and the largest page. */
  const DEFAULT_PAGE := 50
  const MAX_PAGE := 500

  /** `EntityList`. */
  datatype EntityList = EntityList(
    scannedEntities: int,
    entitiesTruncated: bool,
    offset: int,
    limit: int,
    hasMore: bool,
    nextOffset: Option<int>,
    entities: Option<seq<Snippet>>,
    warnings: Option<seq<Warning>>)

  // ---------------------------------------------------------------------
  // Arguments
  // ---------------------------------------------------------------------

  /** The offset: 0 when absent, negative offsets raised to 0. */
  function ResolveOffset(offset: Option<int>): (r: nat)
    ensures offset.None? ==> r == 0
    ensures offset.Some? && offset.value >= 0 ==> r == offset.value
    ensures offset.Some? && offset.value < 0 ==> r == 0
  {
    if offset.None? then 0 else Max(0, offset.value)
  }

  /** The page size: 50 when absent, otherwise clamped into 1..500. */
  function ResolveLimit(limit: Option<int>): (r: int)
    ensures 1 <= r <= MAX_PAGE
    ensures limit.None? ==> r == DEFAULT_PAGE
    ensures limit.Some? && 1 <= limit.value <= MAX_PAGE ==> r == limit.value
    ensures limit.Some? && limit.value < 1 ==> r == 1
    ensures limit.Some? && limit.value > MAX_PAGE ==> r == MAX_PAGE
  {
    if limit.None? then DEFAULT_PAGE else Max(1, Min(MAX_PAGE, limit.value))
  }

  /** The type filter: none for an absent or blank argument, else the trimmed text in upper case. */
  function ResolveFilter(lib: JavaLib, typeContains: Option<JString>): (r: Option<JString>)
    ensures r.None? <==> typeContains.None? || IsBlank(lib, typeContains.value)
    ensures r.Some? ==> r.value == lib.toUpperCase(Trim(typeContains.value))
  {
    if typeContains.None? || IsBlank(lib, typeContains.value) then None
    else Some(lib.toUpperCase(Trim(typeContains.value)))
  }

  // ---------------------------------------------------------------------
  // Matches and pages
  // ---------------------------------------------------------------------

  /** An entity passes the filter: no filter, or its type name contains the filter text. */
  predicate Selects(filter: Option<JString>, e: EntityParse) {
    filter.None? || Contains(e.typeUpper, filter.value)
  }

  /** The entities of `es` that pass the filter, in order. */
  function Matching(es: seq<EntityParse>, filter: Option<JString>): (r: seq<EntityParse>)
    decreases |es|
    ensures |r| <= |es|
    ensures forall i | 0 <= i < |r| :: Selects(filter, r[i])
  {
    if es == [] then []
    else Matching(es[..|es| - 1], filter) + (if Selects(filter, es[|es| - 1]) then [es[|es| - 1]] else [])
  }

  /** The matches with index in `[off, off + lim)`. */
  function PageOf<T>(m: seq<T>, off: nat, lim: nat): (r: seq<T>)
    ensures |r| == Min(|m|, off + lim) - Min(|m|, off)
    ensures forall i | 0 <= i < |r| :: r[i] == m[off + i]
  {
    m[Min(off, |m|)..Min(|m|, off + lim)]
  }

  /** The snippets of `es`, one per entity. */
  function SnippetsOf(es: seq<EntityParse>): (r: seq<Snippet>)
    ensures |r| == |es|
    ensures forall i | 0 <= i < |r| :: r[i] == SnippetOf(es[i])
  {
    seq(|es|, i requires 0 <= i < |es| => SnippetOf(es[i]))
  }

  /** Exactly the entities of `es` that pass the filter are matches. */
  lemma {:induction false} MatchingMembers(es: seq<EntityParse>, filter: Option<JString>, e: EntityParse)
    ensures e in Matching(es, filter) <==> e in es && Selects(filter, e)
    decreases |es|
  {
    if es != [] {
      var init := es[..|es| - 1];
      MatchingMembers(init, filter, e);
      assert es == init + [es[|es| - 1]];
    }
  }

  /** Without a filter every entity is a match. */
  lemma {:induction false} MatchingAll(es: seq<EntityParse>)
    ensures Matching(es, None) == es
    decreases |es|
  {
    if es != [] {
      MatchingAll(es[..|es| - 1]);
      assert es == es[..|es| - 1] + [es[|es| - 1]];
    }
  }

  /** The matches of a concatenation are the matches of each part. */
  lemma {:induction false} MatchingAppend(a: seq<EntityParse>, b: seq<EntityParse>, filter: Option<JString>)
    ensures Matching(a + b, filter) == Matching(a, filter) + Matching(b, filter)
    decreases |b|
  {
    if b == [] {
      assert a + b == a;
    } else {
      var init, last := b[..|b| - 1], b[|b| - 1];
      var t := if Selects(filter, last) then [last] else [];
      assert b == init + [last];
      assert a + b == (a + init) + [last];
      calc {
        Matching(a + b, filter);
      == { MatchingSnoc(a + init, last, filter); }
        Matching(a + init, filter) + t;
      == { MatchingAppend(a, init, filter); }
        (Matching(a, filter) + Matching(init, filter)) + t;
      == { MatchingSnoc(init, last, filter); }
        Matching(a, filter) + Matching(b, filter);
      }
    }
  }

  /** One more entity adds it to the matches exactly when it passes the filter. */
  lemma MatchingSnoc(es: seq<EntityParse>, e: EntityParse, filter: Option<JString>)
    ensures Matching(es + [e], filter) == Matching(es, filter) + (if Selects(filter, e) then [e] else [])
  {
    assert (es + [e])[..|es|] == es;
  }

  /** Two consecutive pages, the second starting where the first ends, make one longer page. */
  lemma PagesAdjoin<T>(m: seq<T>, off: nat, a: nat, b: nat)
    ensures PageOf(m, off, a) + PageOf(m, off + a, b) == PageOf(m, off, a + b)
  {
  }

  /** The `n` pages a caller reads by following `nextOffset` from `off`, one after another. */
  function Pages<T>(m: seq<T>, off: nat, lim: nat, n: nat): seq<T>
    decreases n
  {
    if n == 0 then [] else PageOf(m, off, lim) + Pages(m, off + lim, lim, n - 1)
  }

  /** Following the pages from `off` reads the matches from `off` on, without gaps or repeats. */
  lemma {:induction false} PagesCover<T>(m: seq<T>, off: nat, lim: nat, n: nat)
    ensures Pages(m, off, lim, n) == PageOf(m, off, n * lim)
    decreases n
  {
    if n > 0 {
      PagesCover(m, off + lim, lim, n - 1);
      PagesAdjoin(m, off, lim, (n - 1) * lim);
      assert lim + (n - 1) * lim == n * lim;
    }
  }

  /** While the page is not full, one more match joins it exactly when the matches so far reach `off`. */
  lemma PageStep<T>(m: seq<T>, x: T, off: nat, lim: nat)
    requires |m| < off + lim
    ensures PageOf(m + [x], off, lim) == PageOf(m, off, lim) + (if |m| >= off then [x] else [])
  {
    if |m| >= off {
      assert PageOf(m + [x], off, lim) == (m + [x])[off..|m| + 1];
      assert (m + [x])[off..|m| + 1] == m[off..] + [x];
    }
  }

  /** The snippet page grows by the snippet of the new match exactly when the match joins the page. */
  lemma SnippetPageStep(m: seq<EntityParse>, x: EntityParse, off: nat, lim: nat)
    requires |m| < off + lim
    ensures SnippetsOf(PageOf(m + [x], off, lim))
            == SnippetsOf(PageOf(m, off, lim)) + (if |m| >= off then [SnippetOf(x)] else [])
  {
    PageStep(m, x, off, lim);
  }

  /** Once the matches reach `off + lim`, later matches do not change the page. */
  lemma PageFull<T>(m: seq<T>, rest: seq<T>, off: nat, lim: nat)
    requires |m| >= off + lim
    ensures PageOf(m + rest, off, lim) == PageOf(m, off, lim)
  {
    assert PageOf(m + rest, off, lim) == (m + rest)[off..off + lim];
  }

  // ---------------------------------------------------------------------
  // The loop
  // ---------------------------------------------------------------------

  /**
   * What a listing scan over the stream `es` returns: the page of the
   * matches among the kept entities as snippets; `hasMore` exactly when
   * those matches reach past the page; a full page stops the scan at the
   * match that fills it, before any truncation; otherwise the scan reads
   * the whole stream, or stops one past the cap as truncated.
   */
  ghost predicate Listing(es: seq<EntityParse>, maxEntities: int, filter: Option<JString>, off: nat, lim: int,
                          scanned: int, truncated: bool, hasMore: bool, out: seq<Snippet>)
    requires lim >= 1
  {
    var kept := Kept(es, maxEntities);
    var m := Matching(kept, filter);
    out == SnippetsOf(PageOf(m, off, lim))
    && hasMore == (|m| >= off + lim)
    && (hasMore ==> !truncated && 1 <= scanned <= |kept|
                    && |Matching(kept[..scanned], filter)| == off + lim && Selects(filter, kept[scanned - 1]))
    && (!hasMore ==> truncated == (|es| > Max(0, maxEntities))
                     && scanned == (if truncated then Max(0, maxEntities) + 1 else |es|))
  }

  /** A page never exceeds the page size, and is full exactly when more matches follow. */
  lemma ListingPageSize(es: seq<EntityParse>, maxEntities: int, filter: Option<JString>, off: nat, lim: int,
                        scanned: int, truncated: bool, hasMore: bool, out: seq<Snippet>)
    requires lim >= 1 && Listing(es, maxEntities, filter, off, lim, scanned, truncated, hasMore, out)
    ensures |out| <= lim
    ensures hasMore ==> |out| == lim
  {
  }

  /** The scan stops at the entity past the cap with the page still open. */
  lemma StopAtCap(es: seq<EntityParse>, seen: seq<EntityParse>, x: EntityParse, rest: seq<EntityParse>,
                  maxEntities: int, filter: Option<JString>, off: nat, lim: int, out: seq<Snippet>)
    requires lim >= 1 && es == (seen + [x]) + rest
    requires |seen| <= Max(0, maxEntities) && |seen| + 1 > maxEntities
    requires |Matching(seen, filter)| < off + lim && out == SnippetsOf(PageOf(Matching(seen, filter), off, lim))
    ensures Listing(es, maxEntities, filter, off, lim, |seen| + 1, true, false, out)
  {
    assert Kept(es, maxEntities) == seen;
  }

  /** The scan stops at the match that fills the page. */
  lemma StopAtFullPage(es: seq<EntityParse>, seen: seq<EntityParse>, rest: seq<EntityParse>,
                       maxEntities: int, filter: Option<JString>, off: nat, lim: int, out: seq<Snippet>)
    requires lim >= 1 && es == seen + rest && |seen| >= 1 && Selects(filter, seen[|seen| - 1])
    requires |seen| <= Max(0, maxEntities)
    requires |Matching(seen, filter)| == off + lim && out == SnippetsOf(PageOf(Matching(seen, filter), off, lim))
    ensures Listing(es, maxEntities, filter, off, lim, |seen|, false, true, out)
  {
    FullPage(es, seen, maxEntities, filter, off, lim);
  }

  /** The scan reads the whole stream within the cap without filling the page. */
  lemma StopAtEnd(es: seq<EntityParse>, maxEntities: int, filter: Option<JString>, off: nat, lim: int, out: seq<Snippet>)
    requires lim >= 1 && |es| <= Max(0, maxEntities)
    requires |Matching(es, filter)| < off + lim && out == SnippetsOf(PageOf(Matching(es, filter), off, lim))
    ensures Listing(es, maxEntities, filter, off, lim, |es|, false, false, out)
  {
    assert Kept(es, maxEntities) == es;
  }

  /**
   * The cursor loop of `listEntities` from `from` on. Every parsed entity
   * is scanned; past `maxEntities` the scan stops as truncated; a matching
   * entity joins the page when its match index has reached `off` and the
   * page has room; a full page stops the scan at once.
   */
  method ScanPage(lib: JavaLib, t: JString, from: nat, maxEntities: int, filter: Option<JString>, off: nat, lim: int)
    returns (scanned: int, truncated: bool, hasMore: bool, out: seq<Snippet>)
    requires lim >= 1
    ensures Listing(EntitiesFrom(lib, t, from), maxEntities, filter, off, lim, scanned, truncated, hasMore, out)
  {
    ghost var es := EntitiesFrom(lib, t, from);
    ghost var seen: seq<EntityParse> := [];
    scanned := 0;
    truncated := false;
    hasMore := false;
    out := [];
    var matched := 0;
    var cursor := from;
    while cursor < |t|
      invariant seen + EntitiesFrom(lib, t, cursor) == es
      invariant scanned == |seen| <= Max(0, maxEntities)
      invariant matched == |Matching(seen, filter)| < off + lim
      invariant out == SnippetsOf(PageOf(Matching(seen, filter), off, lim))
      decreases |t| - cursor
    {
      var e, next, done := NextEntity(lib, t, cursor);
      if done {
        break;
      }
      cursor := next;
      if e.None? {
        assert Listed(e) + EntitiesFrom(lib, t, next) == EntitiesFrom(lib, t, next);
        continue;
      }
      var x := e.value;
      AppendAssoc(seen, [x], EntitiesFrom(lib, t, next));
      scanned := scanned + 1;
      if scanned > maxEntities {
        StopAtCap(es, seen, x, EntitiesFrom(lib, t, next), maxEntities, filter, off, lim, out);
        truncated := true;
        return;
      }
      out, matched := PageEntity(filter, off, lim, out, matched, x, seen);
      if matched >= off + lim {
        hasMore := true;
        seen := seen + [x];
        StopAtFullPage(es, seen, EntitiesFrom(lib, t, next), maxEntities, filter, off, lim, out);
        return;
      }
      seen := seen + [x];
    }
    assert seen == es;
    StopAtEnd(es, maxEntities, filter, off, lim, out);
  }

  /**
   * One scanned entity of `listEntities`: a match joins the page when its
   * match index has reached `off` and the page has room, and the match
   * count grows by one.
   */
  method PageEntity(filter: Option<JString>, off: nat, lim: int, out: seq<Snippet>, matched: int,
                    x: EntityParse, ghost seen: seq<EntityParse>)
    returns (out2: seq<Snippet>, matched2: int)
    requires lim >= 1
    requires matched == |Matching(seen, filter)| < off + lim
    requires out == SnippetsOf(PageOf(Matching(seen, filter), off, lim))
    ensures matched2 == |Matching(seen + [x], filter)| <= off + lim
    ensures out2 == SnippetsOf(PageOf(Matching(seen + [x], filter), off, lim))
    ensures matched2 == off + lim ==> Selects(filter, x)
  {
    ghost var m := Matching(seen, filter);
    assert Matching(seen + [x], filter) == m + (if Selects(filter, x) then [x] else []) by {
      assert (seen + [x])[..|seen|] == seen;
    }
    out2, matched2 := out, matched;
    if Selects(filter, x) {
      SnippetPageStep(m, x, off, lim);
      assert |out| == (if matched >= off then matched - off else 0);
      if matched >= off && |out| < lim {
        var text := NormalizeEntityText(x.rawText);
        assert Snippet(x.id, x.typeUpper, text) == SnippetOf(x);
        out2 := out + [Snippet(x.id, x.typeUpper, text)];
      }
      matched2 := matched + 1;
    }
  }

  /** A full page over a kept prefix is the page of all kept matches. */
  lemma FullPage(es: seq<EntityParse>, seen: seq<EntityParse>, maxEntities: int, filter: Option<JString>, off: nat, lim: nat)
    requires |seen| <= Max(0, maxEntities) && seen <= es
    requires |Matching(seen, filter)| == off + lim
    ensures var kept := Kept(es, maxEntities);
      |seen| <= |kept| && kept[..|seen|] == seen
      && |Matching(kept, filter)| >= off + lim
      && PageOf(Matching(kept, filter), off, lim) == PageOf(Matching(seen, filter), off, lim)
  {
    var kept := Kept(es, maxEntities);
    assert kept == seen + kept[|seen|..];
    MatchingAppend(seen, kept[|seen|..], filter);
    PageFull(Matching(seen, filter), Matching(kept[|seen|..], filter), off, lim);
  }

  /**
   * `listEntities`: an empty text or one without `DATA;` yields an empty
   * listing with one warning; otherwise the page of the scan from just
   * after `DATA;`, with `nextOffset` where the next page starts.
   */
  method ListEntities(lib: JavaLib, t: JString, limits: Limits, typeContains: Option<JString>,
                      offset: Option<int>, limit: Option<int>)
    returns (r: EntityList)
    ensures IsBlank(lib, t) ==> r == EntityList(0, false, 0, 0, false, None, None, Some([EmptyText]))
    ensures !IsBlank(lib, t) && DataStart(lib, t) < 0 ==>
      r == EntityList(0, false, 0, 0, false, None, None, Some([NoDataSection]))
    ensures !IsBlank(lib, t) && DataStart(lib, t) >= 0 ==>
      var off := ResolveOffset(offset); var lim := ResolveLimit(limit); var filter := ResolveFilter(lib, typeContains);
      var es := EntitiesFrom(lib, t, DataStart(lib, t) + |DATA_MARKER|);
      r.offset == off && r.limit == lim
      && Listing(es, limits.maxEntities, filter, off, lim,
                 r.scannedEntities, r.entitiesTruncated, r.hasMore, r.entities.GetOr([]))
      && r.entities.Some? == (r.entities.GetOr([]) != [])
      && r.nextOffset == (if r.hasMore then Some(off + lim) else None)
      && r.warnings == (if r.entitiesTruncated then Some([EntitiesTruncated(limits.maxEntities)]) else None)
  {
    if IsBlank(lib, t) {
      return EntityList(0, false, 0, 0, false, None, None, Some([EmptyText]));
    }
    var dataStart := IndexOfIgnoreCase(lib, t, DATA_MARKER, 0);
    if dataStart < 0 {
      return EntityList(0, false, 0, 0, false, None, None, Some([NoDataSection]));
    }
    var off := ResolveOffset(offset);
    var lim := ResolveLimit(limit);
    var filter := ResolveFilter(lib, typeContains);
    r := ListPage(lib, t, dataStart + |DATA_MARKER|, limits.maxEntities, filter, off, lim);
  }

  /** The listing of the stream from `from` on, once the arguments are resolved. */
  method ListPage(lib: JavaLib, t: JString, from: nat, maxEntities: int, filter: Option<JString>, off: nat, lim: int)
    returns (r: EntityList)
    requires lim >= 1
    ensures r.offset == off && r.limit == lim
    ensures Listing(EntitiesFrom(lib, t, from), maxEntities, filter, off, lim,
                    r.scannedEntities, r.entitiesTruncated, r.hasMore, r.entities.GetOr([]))
    ensures r.entities.Some? == (r.entities.GetOr([]) != [])
    ensures r.nextOffset == (if r.hasMore then Some(off + lim) else None)
    ensures r.warnings == (if r.entitiesTruncated then Some([EntitiesTruncated(maxEntities)]) else None)
  {
    var scanned, truncated, hasMore, out := ScanPage(lib, t, from, maxEntities, filter, off, lim);
    ListingPageSize(EntitiesFrom(lib, t, from), maxEntities, filter, off, lim, scanned, truncated, hasMore, out);
    var nextOffset := if hasMore then Some(off + |out|) else None;
    var warnings := if truncated then Some([EntitiesTruncated(maxEntities)]) else None;
    r := EntityList(scanned, truncated, off, lim, hasMore, nextOffset, NonEmpty(out), warnings);
  }
}
