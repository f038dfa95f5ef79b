/**
 * `topCounts` and the geometry, topology and PMI summaries of
 * `StepDataAnalyzer`.
 *
 * `topCounts` sorts the histogram entries by count, highest first, then by
 * type name in `String.compareTo` order, and keeps the first `max`. The
 * order is strict and total on distinct names, so the result does not
 * depend on the histogram's iteration order: it is a function of the map.
 */
module StepSummaries {
  import opened JavaText
  import opened StepRecords
  import opened StepBox

  /** `StepEntityTypeCount`. */
  datatype TypeCount = TypeCount(typeName: JString, count: int)

  // ---------------------------------------------------------------------
  // The ranking order
  // ---------------------------------------------------------------------

  /** `String.compareTo(a, b) < 0`: lexicographic on UTF-16 units, a proper prefix first. */
  predicate StrLess(a: JString, b: JString)
    decreases |a|
  {
    if a == [] then b != []
    else if b == [] then false
    else if a[0] != b[0] then a[0] < b[0]
    else StrLess(a[1..], b[1..])
  }

  lemma {:induction false} StrLessIrreflexive(a: JString)
    ensures !StrLess(a, a)
    decreases |a|
  {
    if a != [] {
      StrLessIrreflexive(a[1..]);
    }
  }

  lemma {:induction false} StrLessAsymmetric(a: JString, b: JString)
    requires StrLess(a, b)
    ensures !StrLess(b, a)
    decreases |a|
  {
    if a != [] && b != [] && a[0] == b[0] {
      StrLessAsymmetric(a[1..], b[1..]);
    }
  }

  lemma {:induction false} StrLessTransitive(a: JString, b: JString, c: JString)
    requires StrLess(a, b) && StrLess(b, c)
    ensures StrLess(a, c)
    decreases |a|
  {
    if a != [] && b != [] && c != [] && a[0] == b[0] && b[0] == c[0] {
      StrLessTransitive(a[1..], b[1..], c[1..]);
    }
  }

  lemma {:induction false} StrLessTotal(a: JString, b: JString)
    requires a != b
    ensures StrLess(a, b) || StrLess(b, a)
    decreases |a|
  {
    if a != [] && b != [] && a[0] == b[0] {
      assert a == [a[0]] + a[1..] && b == [b[0]] + b[1..];
      StrLessTotal(a[1..], b[1..]);
    }
  }

  /** `a` is listed before `b`: a higher count, or the same count and a smaller name. */
  predicate Ranks(a: TypeCount, b: TypeCount) {
    a.count > b.count || (a.count == b.count && StrLess(a.typeName, b.typeName))
  }

  /** The histogram entry of `k`. */
  function Entry(m: map<JString, int>, k: JString): TypeCount
    requires k in m
  {
    TypeCount(k, m[k])
  }

  /** `k` ranks before every other key of `keys`. */
  predicate IsFirst(m: map<JString, int>, keys: set<JString>, k: JString)
    requires keys <= m.Keys
  {
    k in keys && forall o | o in keys && o != k :: Ranks(Entry(m, k), Entry(m, o))
  }

  /** A non-empty key set has a first key. */
  lemma {:induction false} FirstExists(m: map<JString, int>, keys: set<JString>)
    requires keys <= m.Keys && keys != {}
    ensures exists k :: IsFirst(m, keys, k)
    decreases |keys|
  {
    var x :| x in keys;
    var others := keys - {x};
    if others == {} {
      assert keys == {x};
      assert IsFirst(m, keys, x);
    } else {
      FirstExists(m, others);
      var y :| IsFirst(m, others, y);
      StrLessTotal(x, y);
      if Ranks(Entry(m, x), Entry(m, y)) {
        forall o | o in keys && o != x
          ensures Ranks(Entry(m, x), Entry(m, o))
        {
          if o != y {
            RanksTransitive(Entry(m, x), Entry(m, y), Entry(m, o));
          }
        }
        assert IsFirst(m, keys, x);
      } else {
        assert IsFirst(m, keys, y);
      }
    }
  }

  lemma RanksTransitive(a: TypeCount, b: TypeCount, c: TypeCount)
    requires Ranks(a, b) && Ranks(b, c)
    ensures Ranks(a, c)
  {
    if a.count == b.count == c.count {
      StrLessTransitive(a.typeName, b.typeName, c.typeName);
    }
  }

  /** At most one key is first. */
  lemma FirstUnique(m: map<JString, int>, keys: set<JString>)
    requires keys <= m.Keys
    ensures forall j, k | IsFirst(m, keys, j) && IsFirst(m, keys, k) :: j == k
  {
    forall j, k | IsFirst(m, keys, j) && IsFirst(m, keys, k)
      ensures j == k
    {
      if j != k {
        assert Ranks(Entry(m, j), Entry(m, k));
        if m[j] == m[k] {
          StrLessAsymmetric(j, k);
        }
      }
    }
  }

  // ---------------------------------------------------------------------
  // topCounts
  // ---------------------------------------------------------------------

  /** The first `n` entries of `keys` in ranking order, taken first key by first key. */
  function TopOf(m: map<JString, int>, keys: set<JString>, n: nat): (r: seq<TypeCount>)
    requires keys <= m.Keys
    decreases n
    ensures |r| == Min(|keys|, n)
    ensures forall i | 0 <= i < |r| :: r[i].typeName in keys && r[i] == Entry(m, r[i].typeName)
  {
    if n == 0 || keys == {} then []
    else
      FirstExists(m, keys);
      FirstUnique(m, keys);
      var k :| IsFirst(m, keys, k);
      [Entry(m, k)] + TopOf(m, keys - {k}, n - 1)
  }

  /** One step of `TopOf`, with its first key named. */
  lemma TopOfStep(m: map<JString, int>, keys: set<JString>, n: nat, k: JString)
    requires keys <= m.Keys && n > 0 && IsFirst(m, keys, k)
    ensures TopOf(m, keys, n) == [Entry(m, k)] + TopOf(m, keys - {k}, n - 1)
  {
    FirstUnique(m, keys);
  }

  /** The entries are in ranking order. */
  predicate Sorted(r: seq<TypeCount>) {
    forall i, j | 0 <= i < j < |r| :: Ranks(r[i], r[j])
  }

  /** `TopOf` lists its entries in ranking order. */
  lemma {:induction false} TopOfSorted(m: map<JString, int>, keys: set<JString>, n: nat)
    requires keys <= m.Keys
    decreases n
    ensures Sorted(TopOf(m, keys, n))
  {
    if n > 0 && keys != {} {
      FirstExists(m, keys);
      var k :| IsFirst(m, keys, k);
      TopOfStep(m, keys, n, k);
      TopOfSorted(m, keys - {k}, n - 1);
      var rest := TopOf(m, keys - {k}, n - 1);
      FirstRanksAll(m, keys, k, rest);
      ConsSorted(Entry(m, k), rest);
    }
  }

  /** The first key ranks before every entry drawn from the other keys. */
  lemma FirstRanksAll(m: map<JString, int>, keys: set<JString>, k: JString, rest: seq<TypeCount>)
    requires keys <= m.Keys && IsFirst(m, keys, k)
    requires forall i | 0 <= i < |rest| :: rest[i].typeName in keys - {k} && rest[i] == Entry(m, rest[i].typeName)
    ensures forall j | 0 <= j < |rest| :: Ranks(Entry(m, k), rest[j])
  {
    forall j | 0 <= j < |rest|
      ensures Ranks(Entry(m, k), rest[j])
    {
      var o := rest[j].typeName;
      assert o in keys && o != k;
    }
  }

  lemma ConsSorted(e: TypeCount, rest: seq<TypeCount>)
    requires Sorted(rest) && forall j | 0 <= j < |rest| :: Ranks(e, rest[j])
    ensures Sorted([e] + rest)
  {
    var r := [e] + rest;
    forall i, j | 0 <= i < j < |r|
      ensures Ranks(r[i], r[j])
    {
      assert r[j] == rest[j - 1];
      if i > 0 {
        assert r[i] == rest[i - 1];
      }
    }
  }

  /** Every key in `keys` but not listed ranks after every listed entry. */
  predicate Ahead(m: map<JString, int>, keys: set<JString>, r: seq<TypeCount>) {
    forall o, i | o in keys && o in m && 0 <= i < |r| && o !in Names(r) :: Ranks(r[i], TypeCount(o, m[o]))
  }

  /** Every key `TopOf` leaves out ranks after every entry it lists. */
  lemma TopOfAhead(m: map<JString, int>, keys: set<JString>, n: nat)
    requires keys <= m.Keys
    ensures Ahead(m, keys, TopOf(m, keys, n))
  {
    var r := TopOf(m, keys, n);
    forall o, i | o in keys && o in m && 0 <= i < |r| && o !in Names(r)
      ensures Ranks(r[i], TypeCount(o, m[o]))
    {
      TopOfAheadAt(m, keys, n, o, i);
    }
  }

  /** The entry at `i` of `TopOf` ranks before the left-out key `o`. */
  lemma {:induction false} TopOfAheadAt(m: map<JString, int>, keys: set<JString>, n: nat, o: JString, i: nat)
    requires keys <= m.Keys && o in keys && i < |TopOf(m, keys, n)| && o !in Names(TopOf(m, keys, n))
    decreases n
    ensures Ranks(TopOf(m, keys, n)[i], Entry(m, o))
  {
    FirstExists(m, keys);
    var k :| IsFirst(m, keys, k);
    TopOfStep(m, keys, n, k);
    var rest := TopOf(m, keys - {k}, n - 1);
    var r := TopOf(m, keys, n);
    assert r == [Entry(m, k)] + rest;
    NamesCons(Entry(m, k), rest);
    if i == 0 {
      assert o != k && r[0] == Entry(m, k);
    } else {
      TopOfAheadAt(m, keys - {k}, n - 1, o, i - 1);
      assert r[i] == rest[i - 1];
    }
  }

  /** The type names of a ranking. */
  function Names(r: seq<TypeCount>): set<JString> {
    if r == [] then {} else {r[0].typeName} + Names(r[1..])
  }

  lemma NamesCons(e: TypeCount, r: seq<TypeCount>)
    ensures Names([e] + r) == {e.typeName} + Names(r)
  {
    assert ([e] + r)[1..] == r;
  }

  /** `topCounts(counts, max)`: empty for an empty map or `max <= 0`. */
  function TopCounts(counts: map<JString, int>, max: int): (r: seq<TypeCount>)
    ensures max <= 0 ==> r == []
    ensures |r| == Min(|counts|, Max(0, max))
    ensures forall i | 0 <= i < |r| :: r[i].typeName in counts && counts[r[i].typeName] == r[i].count
  {
    if |counts| == 0 || max <= 0 then [] else TopOf(counts, counts.Keys, max)
  }

  /**
   * `topCounts` ranks: its entries are in ranking order, each type appears
   * once, and every type it leaves out ranks after every type it keeps.
   */
  lemma TopCountsRanked(counts: map<JString, int>, max: int)
    ensures var r := TopCounts(counts, max);
      Sorted(r) && (forall i, j | 0 <= i < j < |r| :: r[i].typeName != r[j].typeName) && Ahead(counts, counts.Keys, r)
  {
    if |counts| > 0 && max > 0 {
      TopOfSorted(counts, counts.Keys, max);
      TopOfAhead(counts, counts.Keys, max);
      var r := TopCounts(counts, max);
      forall i, j | 0 <= i < j < |r|
        ensures r[i].typeName != r[j].typeName
      {
        if r[i].typeName == r[j].typeName {
          assert Ranks(r[i], r[j]);
          StrLessIrreflexive(r[i].typeName);
        }
      }
    }
  }

  // ---------------------------------------------------------------------
  // Summaries
  // ---------------------------------------------------------------------

  /** `StepGeometrySummary`. */
  datatype GeometrySummary = GeometrySummary(boundingBox: Option<BoundingBox>, precise: bool, tessellated: bool, counts: Option<seq<TypeCount>>)

  /** `StepTopologySummary`. */
  datatype TopologySummary = TopologySummary(counts: Option<seq<TypeCount>>)

  /** `StepPmiSummary`. */
  datatype PmiSummary = PmiSummary(counts: Option<seq<TypeCount>>, measures: Option<seq<Measure>>, snippets: Option<seq<Snippet>>)

  /** The cap the summaries pass to `topCounts`. */
  const SUMMARY_TOP := 200

  /** A list, or null when it is empty. */
  function NonEmpty<T>(s: seq<T>): (r: Option<seq<T>>)
    ensures r.None? <==> s == []
    ensures r.Some? ==> r.value == s
  {
    if s == [] then None else Some(s)
  }

  /** The entries of the histogram whose type passes `keep`. */
  function Selected(counts: map<JString, int>, keep: JString -> bool): (r: map<JString, int>)
    ensures forall k :: k in r <==> k in counts && keep(k)
    ensures forall k | k in r :: r[k] == counts[k]
  {
    map k | k in counts && keep(k) :: counts[k]
  }

  /** `buildGeometrySummary`: null for an empty histogram. */
  function GeometrySummaryOf(counts: map<JString, int>, box: Option<BoundingBox>): (r: Option<GeometrySummary>)
    ensures r.None? <==> |counts| == 0
    ensures r.Some? ==> r.value.boundingBox == box
    ensures r.Some? ==> (r.value.precise <==> exists k | k in counts :: IsPreciseMarker(k))
    ensures r.Some? ==> (r.value.tessellated <==> exists k | k in counts :: IsTessellatedMarker(k))
    ensures r.Some? ==> r.value.counts == NonEmpty(TopCounts(Selected(counts, IsGeometryType), SUMMARY_TOP))
  {
    if |counts| == 0 then None
    else
      Some(GeometrySummary(box,
        exists k | k in counts :: IsPreciseMarker(k),
        exists k | k in counts :: IsTessellatedMarker(k),
        NonEmpty(TopCounts(Selected(counts, IsGeometryType), SUMMARY_TOP))))
  }

  /** `buildTopologySummary`: null for an empty histogram. */
  function TopologySummaryOf(counts: map<JString, int>): (r: Option<TopologySummary>)
    ensures r.None? <==> |counts| == 0
    ensures r.Some? ==> r.value.counts == NonEmpty(TopCounts(Selected(counts, IsTopologyType), SUMMARY_TOP))
  {
    if |counts| == 0 then None
    else Some(TopologySummary(NonEmpty(TopCounts(Selected(counts, IsTopologyType), SUMMARY_TOP))))
  }

  /** `buildPmiSummary`: null only when the histogram, the measures and the snippets are all empty. */
  function PmiSummaryOf(counts: map<JString, int>, measures: seq<Measure>, snippets: seq<Snippet>): (r: Option<PmiSummary>)
    ensures r.None? <==> |counts| == 0 && measures == [] && snippets == []
    ensures r.Some? ==> r.value == PmiSummary(NonEmpty(TopCounts(Selected(counts, IsPmiType), SUMMARY_TOP)), NonEmpty(measures), NonEmpty(snippets))
  {
    if |counts| == 0 && measures == [] && snippets == [] then None
    else Some(PmiSummary(NonEmpty(TopCounts(Selected(counts, IsPmiType), SUMMARY_TOP)), NonEmpty(measures), NonEmpty(snippets)))
  }

  /** Every type a summary lists passes the summary's classifier and carries its histogram count. */
  lemma SummaryListsOnlyItsTypes(counts: map<JString, int>, keep: JString -> bool)
    ensures var r := TopCounts(Selected(counts, keep), SUMMARY_TOP);
      forall i | 0 <= i < |r| :: keep(r[i].typeName) && r[i].typeName in counts && counts[r[i].typeName] == r[i].count
  {
  }
}
