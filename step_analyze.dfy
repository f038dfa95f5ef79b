/**
 * `analyze` (StepDataAnalyzer.java): the one-pass summary of a STEP DATA
 * section.
 *
 * The scan from just after `DATA;` collects the fold `Collect` of the kept
 * entities (see StepScan); the summary then derives the parts, the
 * assembly tree, the bounding box and the type summaries from what was
 * collected.
 */
module StepAnalyze {
  import opened JavaText
  import opened StepRecords
  import opened StepBox
  import opened StepParts
  import opened StepAssembly
  import opened StepSummaries
  import opened StepScanner
  import opened StepScan

  /** `Analysis`; an empty list is reported as absent. */
  datatype Analysis = Analysis(
    entitiesParsed: int,
    entitiesTruncated: bool,
    topEntityTypes: Option<seq<TypeCount>>,
    parts: Option<seq<PartInfo>>,
    assemblyRelations: Option<seq<Relation>>,
    assemblyTree: Option<AssemblyTree>,
    geometry: Option<GeometrySummary>,
    topology: Option<TopologySummary>,
    pmi: Option<PmiSummary>,
    warnings: Option<seq<Warning>>)

  /** The analysis of a text that cannot be scanned: nothing but one warning. */
  function Unscanned(w: Warning): (r: Analysis)
    ensures r.entitiesParsed == 0 && !r.entitiesTruncated && r.warnings == Some([w])
    ensures r.parts.None? && r.assemblyTree.None? && r.geometry.None? && r.topology.None? && r.pmi.None?
  {
    Analysis(0, false, None, None, None, None, None, None, None, Some([w]))
  }

  /**
   * The parts list: one part per product definition, at most `maxParts`,
   * each built from its definition and the formation and product it
   * refers to, no definition twice.
   */
  predicate PartsFrom(lib: JavaLib, c: Collected, maxParts: int, parts: seq<PartInfo>) {
    |parts| == Min(|c.definitions|, maxParts)
    && (forall i | 0 <= i < |parts| ::
          parts[i].productDefinitionId in c.definitions
          && parts[i] == PartOf(lib, parts[i].productDefinitionId, c.definitions[parts[i].productDefinitionId],
                                c.formations, c.products))
    && (forall i, j | 0 <= i < j < |parts| :: parts[i].productDefinitionId != parts[j].productDefinitionId)
  }

  /**
   * The warnings after the scan's `warnings`: the parts warning when there
   * are more definitions than `maxParts`, then only cycle warnings, then
   * the assembly truncation warning when the tree was cut short.
   */
  predicate WarningsAfter(warnings: seq<Warning>, c: Collected, limits: Limits, tree: Option<AssemblyTree>, w: seq<Warning>) {
    var pw := warnings + (if |c.definitions| > limits.maxParts then [PartsTruncated(limits.maxParts)] else []);
    |pw| <= |w| && w[..|pw|] == pw
    && (tree.None? ==> w == pw)
    && (tree.Some? ==>
          var tail := if tree.value.truncated then [AssemblyTruncated(limits.maxAssemblyNodes)] else [];
          |pw| + |tail| <= |w| && w[|w| - |tail|..] == tail
          && forall k | |pw| <= k < |w| - |tail| :: w[k].AssemblyCycle?)
  }

  /**
   * What `analyze` reports from the collected data `c` and the points the
   * bounding box saw; the assembly tree is the one built over the reported
   * parts and the collected relations.
   */
  predicate Summarizes(lib: JavaLib, limits: Limits, c: Collected, points: seq<Point>, warnings: seq<Warning>, r: Analysis) {
    r.topEntityTypes == NonEmpty(TopCounts(c.counts, limits.maxTopEntityTypes))
    && r.parts.Some? == (r.parts.GetOr([]) != [])
    && PartsFrom(lib, c, limits.maxParts, r.parts.GetOr([]))
    && r.assemblyRelations == NonEmpty(c.relations)
    && TreeBuilt(r.parts.GetOr([]), c.relations, limits, r.assemblyTree)
    && r.geometry == GeometrySummaryOf(c.counts, BoxOf(points))
    && r.topology == TopologySummaryOf(c.counts)
    && r.pmi == PmiSummaryOf(c.counts, c.measures, c.snippets)
    && r.warnings.Some? == (r.warnings.GetOr([]) != [])
    && WarningsAfter(warnings, c, limits, r.assemblyTree, r.warnings.GetOr([]))
  }

  /** The parts list and the assembly tree built over it, with the warnings they add. */
  method PartsAndTree(lib: JavaLib, limits: Limits, c: Collected, warnings: seq<Warning>)
    returns (parts: seq<PartInfo>, tree: Option<AssemblyTree>, w: seq<Warning>)
    requires limits.maxParts >= 0
    ensures PartsFrom(lib, c, limits.maxParts, parts)
    ensures c.relations == [] <==> tree.None?
    ensures tree.Some? ==> tree.value.maxDepth == limits.maxAssemblyDepth && tree.value.maxNodes == limits.maxAssemblyNodes
    ensures TreeBuilt(parts, c.relations, limits, tree)
    ensures WarningsAfter(warnings, c, limits, tree, w)
  {
    var pw;
    parts, pw := BuildParts(lib, c.definitions, c.formations, c.products, limits.maxParts, warnings);
    tree, w := BuildAssemblyTree(parts, c.relations, limits, pw);
  }

  /** The tail of `analyze` after the loop: parts, tree, box and summaries. */
  method Summarize(lib: JavaLib, limits: Limits, c: Collected, box: BoxAccumulator,
                   parsed: int, truncated: bool, warnings: seq<Warning>)
    returns (r: Analysis)
    requires limits.maxParts >= 0 && box.Valid()
    ensures r.entitiesParsed == parsed && r.entitiesTruncated == truncated
    ensures Summarizes(lib, limits, c, box.points, warnings, r)
  {
    var parts, tree, w2 := PartsAndTree(lib, limits, c, warnings);
    var bb := box.ToBoundingBox();
    var topTypes := TopCounts(c.counts, limits.maxTopEntityTypes);
    r := Analysis(parsed, truncated, NonEmpty(topTypes), NonEmpty(parts), NonEmpty(c.relations), tree,
                  GeometrySummaryOf(c.counts, bb), TopologySummaryOf(c.counts),
                  PmiSummaryOf(c.counts, c.measures, c.snippets), NonEmpty(w2));
  }

  /**
   * `analyze`: an empty text or one without `DATA;` yields only a warning;
   * otherwise the scan from just after `DATA;` keeps at most `maxEntities`
   * entities, and the summary is that of what they contribute.
   */
  method Analyze(lib: JavaLib, t: JString, limits: Limits) returns (r: Analysis)
    requires limits.maxParts >= 0
    ensures IsBlank(lib, t) ==> r == Unscanned(EmptyText)
    ensures !IsBlank(lib, t) && DataStart(lib, t) < 0 ==> r == Unscanned(NoDataSection)
    ensures !IsBlank(lib, t) && DataStart(lib, t) >= 0 ==>
      var es := EntitiesFrom(lib, t, DataStart(lib, t) + |DATA_MARKER|);
      var kept := Kept(es, limits.maxEntities);
      r.entitiesTruncated == (|es| > Max(0, limits.maxEntities))
      && r.entitiesParsed == (if r.entitiesTruncated then Max(0, limits.maxEntities) + 1 else |es|)
      && Summarizes(lib, limits, Collect(Extractor(lib), limits, kept), PointsOf(Extractor(lib), kept),
                    if r.entitiesTruncated then [EntitiesTruncated(limits.maxEntities)] else [], r)
  {
    if IsBlank(lib, t) {
      return Unscanned(EmptyText);
    }
    var dataStart := IndexOfIgnoreCase(lib, t, DATA_MARKER, 0);
    if dataStart < 0 {
      return Unscanned(NoDataSection);
    }
    r := AnalyzeFrom(lib, t, dataStart + |DATA_MARKER|, limits);
  }

  /** The scan and the summary from cursor `from` on. */
  method AnalyzeFrom(lib: JavaLib, t: JString, from: nat, limits: Limits) returns (r: Analysis)
    requires limits.maxParts >= 0
    ensures var es := EntitiesFrom(lib, t, from);
      var kept := Kept(es, limits.maxEntities);
      r.entitiesTruncated == (|es| > Max(0, limits.maxEntities))
      && r.entitiesParsed == (if r.entitiesTruncated then Max(0, limits.maxEntities) + 1 else |es|)
      && Summarizes(lib, limits, Collect(Extractor(lib), limits, kept), PointsOf(Extractor(lib), kept),
                    if r.entitiesTruncated then [EntitiesTruncated(limits.maxEntities)] else [], r)
  {
    ExtractorExtracts(lib);
    var c, box, parsed, truncated := ScanData(lib, t, from, limits, Extractor(lib));
    var warnings := if truncated then [EntitiesTruncated(limits.maxEntities)] else [];
    r := Summarize(lib, limits, c, box, parsed, truncated, warnings);
  }
}
