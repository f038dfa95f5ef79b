/**
 * The DATA-section scan shared by `analyze` and `listEntities`
 * (StepDataAnalyzer.java): the stream of entities the cursor loop meets,
 * and what `analyze` collects from each entity it keeps.
 *
 * The stream is a recursive function over the cursor; the loop is a method
 * proved to walk that stream, and the collected maps and lists are a left
 * fold of one per-entity update over the entities processed.
 */
module StepScan {
  import opened JavaText
  import opened StepScanner
  import opened StepValues
  import opened StepRecords
  import opened StepBox

  // ---------------------------------------------------------------------
  // The entity stream
  // ---------------------------------------------------------------------

  const DATA_MARKER := Str("DATA;")
  const ENDSEC := Str("ENDSEC")

  /** Where the DATA section starts: the first `DATA;` ignoring case, or -1. */
  function DataStart(lib: JavaLib, t: JString): int {
    FirstMatch(lib, t, lib.toLowerCase(DATA_MARKER), 0)
  }

  /** The loop's stop test: `ENDSEC` (ignoring case) is the next thing after white space. */
  predicate AtEndsec(lib: JavaLib, t: JString, c: nat) {
    var m := FirstMatch(lib, t, lib.toLowerCase(ENDSEC), c);
    m >= 0 && m == SkipWs(lib, t, c)
  }

  /** The `#` the loop parses next from cursor `c`, or -1 when it stops: at the end, at `ENDSEC`, or when no `#` follows. */
  function NextHash(lib: JavaLib, t: JString, c: nat): (r: int)
    ensures r == -1 || (c <= r < |t| && t[r] == HASH)
  {
    if c >= |t| || AtEndsec(lib, t, c) then -1 else IndexOfChar(t, HASH, c)
  }

  /** Where the cursor goes after the `#` at `h`: past the entity, or one unit on when none parses there. */
  function Resume(h: nat, r: Option<EntityParse>): (next: nat)
    requires r.Some? ==> h < r.value.next
    ensures h < next
  {
    if r.None? then h + 1 else r.value.next
  }

  /** The entities the cursor loop parses from cursor `c` on. */
  function EntitiesFrom(lib: JavaLib, t: JString, c: nat): seq<EntityParse>
    decreases |t| - c
  {
    var h := NextHash(lib, t, c);
    if h < 0 then []
    else
      var r := EntityAt(lib, t, h);
      Listed(r) + EntitiesFrom(lib, t, Resume(h, r))
  }

  /**
   * One pass of the cursor loop up to the entity: the `ENDSEC` test, the
   * next `#`, and `parseEntity` there. `done` is a `break`; otherwise the
   * cursor moves to `next`, past the entity or one unit past the `#`.
   */
  method NextEntity(lib: JavaLib, t: JString, cursor: nat) returns (e: Option<EntityParse>, next: nat, done: bool)
    requires cursor < |t|
    ensures done ==> EntitiesFrom(lib, t, cursor) == []
    ensures !done ==> cursor < next && EntitiesFrom(lib, t, cursor) == Listed(e) + EntitiesFrom(lib, t, next)
  {
    var endsec := IndexOfIgnoreCase(lib, t, ENDSEC, cursor);
    var ws := CursorSkipWs(lib, t, cursor);
    if endsec >= 0 && endsec == ws {
      return None, cursor, true;
    }
    var hash := IndexOfChar(t, HASH, cursor);
    if hash < 0 {
      return None, cursor, true;
    }
    e := ParseEntity(lib, t, hash);
    next := Resume(hash, e);
    done := false;
  }

  // ---------------------------------------------------------------------
  // What analyze collects
  // ---------------------------------------------------------------------

  /** The branch of the `switch` an entity type selects. */
  datatype Kind = ProductKind | FormationKind | DefinitionKind | RelationKind | MeasureKind | OtherKind

  /** The case labels of the `switch`, in order. */
  function KindOf(t: JString): Kind {
    if t == PRODUCT then ProductKind
    else if t == PRODUCT_DEFINITION_FORMATION || t == FORMATION_WITH_SOURCE then FormationKind
    else if t == PRODUCT_DEFINITION then DefinitionKind
    else if IsRelationType(t) then RelationKind
    else if t == MEASURE_ITEM then MeasureKind
    else OtherKind
  }

  /** Each branch of the `switch` is taken by exactly the type names of its case labels. */
  lemma KindOfSwitch(t: JString)
    ensures KindOf(t) == ProductKind <==> t == PRODUCT
    ensures KindOf(t) == FormationKind <==> t == PRODUCT_DEFINITION_FORMATION || t == FORMATION_WITH_SOURCE
    ensures KindOf(t) == DefinitionKind <==> t == PRODUCT_DEFINITION
    ensures KindOf(t) == RelationKind <==> IsRelationType(t)
    ensures KindOf(t) == MeasureKind <==> t == MEASURE_ITEM
  {
    assert |PRODUCT| == 7 && |PRODUCT_DEFINITION| == 18 && |PRODUCT_DEFINITION_FORMATION| == 28;
    assert |FORMATION_WITH_SOURCE| == 50 && |NAUO| == 30 && |ACU| == 24 && |PDR| == 31 && |MEASURE_ITEM| == 27;
  }

  /**
   * What the loop body reads from one entity: its `switch` branch, what each
   * extractor makes of its arguments, the bounding-box point of a
   * `CARTESIAN_POINT` and the snippet of a PMI entity. Only the extractor
   * the branch selects is consulted.
   */
  datatype Extracted = Extracted(
    kind: Kind,
    product: Product,
    formation: Formation,
    definition: Definition,
    relation: Option<Relation>,
    measure: Option<Measure>,
    point: Option<Point>,
    pmi: Option<Snippet>)

  /** What `normalizeEntityText` returns. */
  function NormalizedText(t: JString): JString {
    if QUOTE in t then NormalizeFrom(t, 0) else t
  }

  /** The snippet an entity contributes. */
  function SnippetOf(e: EntityParse): Snippet {
    Snippet(e.id, e.typeUpper, NormalizedText(e.rawText))
  }

  /** The bounding-box point of a `CARTESIAN_POINT` entity, if its coordinates are numbers. */
  function PointOfEntity(lib: JavaLib, e: EntityParse): Option<Point> {
    if e.typeUpper == CARTESIAN_POINT then PointOf(ArgsOf(lib, e.argsText)) else None
  }

  /** The snippet of a PMI entity. */
  function PmiOf(e: EntityParse): Option<Snippet> {
    if IsPmiType(e.typeUpper) then Some(SnippetOf(e)) else None
  }

  /** The extractors applied to one entity. */
  function Extract(lib: JavaLib, e: EntityParse): Extracted {
    Extracted(
      KindOf(e.typeUpper),
      ParseProduct(lib, e.id, e.argsText),
      ParseFormation(lib, e.id, e.argsText),
      ParseDefinition(lib, e.id, e.argsText),
      ParseRelation(lib, e.id, e.typeUpper, e.argsText),
      ParseMeasure(lib, e.id, e.argsText),
      PointOfEntity(lib, e),
      PmiOf(e))
  }

  /** `Extract` as a function value, the form the folds below take it in. */
  function Extractor(lib: JavaLib): EntityParse -> Extracted {
    e => Extract(lib, e)
  }

  /** `ex` is the extractors: it gives what `Extract` gives on every entity. */
  ghost predicate Extracts(lib: JavaLib, ex: EntityParse -> Extracted) {
    forall e {:trigger Extract(lib, e)} :: ex(e) == Extract(lib, e)
  }

  /** `Extractor` is the extractors. */
  lemma ExtractorExtracts(lib: JavaLib)
    ensures Extracts(lib, Extractor(lib))
  {
  }

  /** The maps and lists `analyze` fills while scanning. */
  datatype Collected = Collected(
    counts: map<JString, int>,
    products: map<int, Product>,
    formations: map<int, Formation>,
    definitions: map<int, Definition>,
    relations: seq<Relation>,
    measures: seq<Measure>,
    snippets: seq<Snippet>)

  const NOTHING_COLLECTED := Collected(map[], map[], map[], map[], [], [], [])

  /** The relation an entity adds: one when it is a usage type and parses. */
  function RelationOf(x: Extracted): seq<Relation> {
    if x.kind == RelationKind && x.relation.Some? then [x.relation.value] else []
  }

  /** The measure an entity offers: one when it is a measure item and parses. */
  function MeasureOf(x: Extracted): seq<Measure> {
    if x.kind == MeasureKind && x.measure.Some? then [x.measure.value] else []
  }

  /** `extra` is appended only while the list is below its cap. */
  function Capped<T>(s: seq<T>, extra: seq<T>, cap: int): seq<T> {
    if |s| < cap then s + extra else s
  }

  /** The `switch` on the entity type: which map or list the entity goes to. */
  function Recorded(limits: Limits, c: Collected, id: int, x: Extracted): Collected {
    c.(products := if x.kind == ProductKind then c.products[id := x.product] else c.products,
       formations := if x.kind == FormationKind then c.formations[id := x.formation] else c.formations,
       definitions := if x.kind == DefinitionKind then c.definitions[id := x.definition] else c.definitions,
       relations := c.relations + RelationOf(x),
       measures := Capped(c.measures, MeasureOf(x), limits.maxMeasures))
  }

  /** The type map with one more entity of type `t`. */
  function Counted(counts: map<JString, int>, t: JString): map<JString, int> {
    counts[t := (if t in counts then counts[t] else 0) + 1]
  }

  /** One pass of the loop body for a kept entity: count its type, record it, keep a PMI snippet below the cap. */
  function Absorb(limits: Limits, c: Collected, e: EntityParse, x: Extracted): Collected {
    var r := Recorded(limits, c.(counts := Counted(c.counts, e.typeUpper)), e.id, x);
    r.(snippets := Capped(r.snippets, Listed(x.pmi), limits.maxPmiSnippets))
  }

  /** What the loop has collected after the entities `es`. */
  function Collect(ex: EntityParse -> Extracted, limits: Limits, es: seq<EntityParse>): Collected
    decreases |es|
  {
    if es == [] then NOTHING_COLLECTED
    else Absorb(limits, Collect(ex, limits, es[..|es| - 1]), es[|es| - 1], ex(es[|es| - 1]))
  }

  /** The bounding-box points of the entities `es`, in order. */
  function PointsOf(ex: EntityParse -> Extracted, es: seq<EntityParse>): seq<Point>
    decreases |es|
  {
    if es == [] then [] else PointsOf(ex, es[..|es| - 1]) + Listed(ex(es[|es| - 1]).point)
  }

  // ---------------------------------------------------------------------
  // Independent descriptions of the collected values
  // ---------------------------------------------------------------------

  /** How many of `es` have type `k`. */
  function Tally(es: seq<EntityParse>, k: JString): nat
    decreases |es|
  {
    if es == [] then 0 else Tally(es[..|es| - 1], k) + (if es[|es| - 1].typeUpper == k then 1 else 0)
  }

  /** Every relation that parses, in order. */
  function AllRelations(ex: EntityParse -> Extracted, es: seq<EntityParse>): seq<Relation>
    decreases |es|
  {
    if es == [] then [] else AllRelations(ex, es[..|es| - 1]) + RelationOf(ex(es[|es| - 1]))
  }

  /** Every measure item that parses, in order. */
  function AllMeasures(ex: EntityParse -> Extracted, es: seq<EntityParse>): seq<Measure>
    decreases |es|
  {
    if es == [] then [] else AllMeasures(ex, es[..|es| - 1]) + MeasureOf(ex(es[|es| - 1]))
  }

  /** The snippet of every PMI entity, in order. */
  function AllPmi(ex: EntityParse -> Extracted, es: seq<EntityParse>): seq<Snippet>
    decreases |es|
  {
    if es == [] then [] else AllPmi(ex, es[..|es| - 1]) + Listed(ex(es[|es| - 1]).pmi)
  }

  /** The first `n` elements of `s` (all of them when there are fewer). */
  function Take<T>(s: seq<T>, n: int): (r: seq<T>)
    ensures |r| == Min(|s|, Max(0, n)) && r == s[..|r|]
  {
    s[..Min(|s|, Max(0, n))]
  }

  /** The index of the last entity of `es` that `ex` puts in branch `k` under id `id`, or -1. */
  function LastDeclared(ex: EntityParse -> Extracted, es: seq<EntityParse>, k: Kind, id: int): (r: int)
    decreases |es|
    ensures r == -1 || (0 <= r < |es| && ex(es[r]).kind == k && es[r].id == id)
    ensures forall j | r < j < |es| :: !(ex(es[j]).kind == k && es[j].id == id)
  {
    if es == [] then -1
    else if ex(es[|es| - 1]).kind == k && es[|es| - 1].id == id then |es| - 1
    else LastDeclared(ex, es[..|es| - 1], k, id)
  }

  /** The type map counts exactly the entities of each type. */
  lemma {:induction false} CollectCounts(ex: EntityParse -> Extracted, limits: Limits, es: seq<EntityParse>)
    ensures var c := Collect(ex, limits, es);
      (forall k :: k in c.counts <==> Tally(es, k) > 0)
      && forall k | k in c.counts :: c.counts[k] == Tally(es, k)
    decreases |es|
  {
    if es != [] {
      CollectCounts(ex, limits, es[..|es| - 1]);
    }
  }

  /** Every parsed relation is kept, in scan order. */
  lemma {:induction false} CollectRelations(ex: EntityParse -> Extracted, limits: Limits, es: seq<EntityParse>)
    ensures Collect(ex, limits, es).relations == AllRelations(ex, es)
    decreases |es|
  {
    if es != [] {
      CollectRelations(ex, limits, es[..|es| - 1]);
    }
  }

  /** The measures kept are the first ones that parse, up to `maxMeasures`. */
  lemma {:induction false} CollectMeasures(ex: EntityParse -> Extracted, limits: Limits, es: seq<EntityParse>)
    ensures Collect(ex, limits, es).measures == Take(AllMeasures(ex, es), limits.maxMeasures)
    decreases |es|
  {
    if es != [] {
      var init := es[..|es| - 1];
      CollectMeasures(ex, limits, init);
      TakeCapped(AllMeasures(ex, init), MeasureOf(ex(es[|es| - 1])), limits.maxMeasures);
    }
  }

  /** The PMI snippets kept are the first PMI entities, up to `maxPmiSnippets`. */
  lemma {:induction false} CollectSnippets(ex: EntityParse -> Extracted, limits: Limits, es: seq<EntityParse>)
    ensures Collect(ex, limits, es).snippets == Take(AllPmi(ex, es), limits.maxPmiSnippets)
    decreases |es|
  {
    if es != [] {
      var init := es[..|es| - 1];
      CollectSnippets(ex, limits, init);
      TakeCapped(AllPmi(ex, init), Listed(ex(es[|es| - 1]).pmi), limits.maxPmiSnippets);
    }
  }

  /** Capping while appending at most one element at a time keeps a prefix. */
  lemma TakeCapped<T>(a: seq<T>, x: seq<T>, n: int)
    requires |x| <= 1
    ensures Take(a + x, n) == Capped(Take(a, n), x, n)
  {
    if |Take(a, n)| < n && x != [] {
      assert |a| < n;
      assert Take(a + x, n) == a + x;
    }
  }

  /** The product map holds exactly the declared products, each from its last declaration. */
  lemma {:induction false} CollectProducts(ex: EntityParse -> Extracted, limits: Limits, es: seq<EntityParse>)
    ensures var c := Collect(ex, limits, es);
      (forall id :: id in c.products <==> LastDeclared(ex, es, ProductKind, id) >= 0)
      && forall id | id in c.products :: c.products[id] == ex(es[LastDeclared(ex, es, ProductKind, id)]).product
    decreases |es|
  {
    if es != [] {
      var init := es[..|es| - 1];
      CollectProducts(ex, limits, init);
      forall id | LastDeclared(ex, init, ProductKind, id) >= 0
        ensures es[LastDeclared(ex, init, ProductKind, id)] == init[LastDeclared(ex, init, ProductKind, id)]
      {
      }
    }
  }

  /** The formation map holds exactly the declared formations, each from its last declaration. */
  lemma {:induction false} CollectFormations(ex: EntityParse -> Extracted, limits: Limits, es: seq<EntityParse>)
    ensures var c := Collect(ex, limits, es);
      (forall id :: id in c.formations <==> LastDeclared(ex, es, FormationKind, id) >= 0)
      && forall id | id in c.formations ::
           c.formations[id] == ex(es[LastDeclared(ex, es, FormationKind, id)]).formation
    decreases |es|
  {
    if es != [] {
      var init := es[..|es| - 1];
      CollectFormations(ex, limits, init);
      forall id | LastDeclared(ex, init, FormationKind, id) >= 0
        ensures es[LastDeclared(ex, init, FormationKind, id)] == init[LastDeclared(ex, init, FormationKind, id)]
      {
      }
    }
  }

  /** The definition map holds exactly the declared definitions, each from its last declaration. */
  lemma {:induction false} CollectDefinitions(ex: EntityParse -> Extracted, limits: Limits, es: seq<EntityParse>)
    ensures var c := Collect(ex, limits, es);
      (forall id :: id in c.definitions <==> LastDeclared(ex, es, DefinitionKind, id) >= 0)
      && forall id | id in c.definitions ::
           c.definitions[id] == ex(es[LastDeclared(ex, es, DefinitionKind, id)]).definition
    decreases |es|
  {
    if es != [] {
      var init := es[..|es| - 1];
      CollectDefinitions(ex, limits, init);
      forall id | LastDeclared(ex, init, DefinitionKind, id) >= 0
        ensures es[LastDeclared(ex, init, DefinitionKind, id)] == init[LastDeclared(ex, init, DefinitionKind, id)]
      {
      }
    }
  }

  // ---------------------------------------------------------------------
  // The loop
  // ---------------------------------------------------------------------

  /**
   * The loop body for one kept entity: the type count, the box, the switch
   * and the PMI snippet, taking the collection over `seen` to the
   * collection over `seen` and this entity.
   */
  method CollectEntity(lib: JavaLib, limits: Limits, c: Collected, e: EntityParse, box: BoxAccumulator,
                       ghost ex: EntityParse -> Extracted, ghost seen: seq<EntityParse>)
    returns (c2: Collected)
    requires Extracts(lib, ex)
    requires c == Collect(ex, limits, seen)
    requires box.Valid() && box.points == PointsOf(ex, seen)
    modifies box
    ensures box.Valid()
    ensures c2 == Collect(ex, limits, seen + [e])
    ensures box.points == PointsOf(ex, seen + [e])
  {
    CollectSnoc(ex, limits, seen, e);
    ghost var x := ex(e);
    ExtractedFields(lib, e);
    assert x == Extract(lib, e);
    var counts := Counted(c.counts, e.typeUpper);
    AddEntityPoint(lib, e, box);
    c2 := RecordEntity(lib, limits, c.(counts := counts), e, x);
    var snippets := KeepSnippet(limits, c2.snippets, e);
    c2 := c2.(snippets := snippets);
  }

  /** The folds over `seen + [e]`: the fold over `seen`, then one more pass for `e`. */
  lemma CollectSnoc(ex: EntityParse -> Extracted, limits: Limits, seen: seq<EntityParse>, e: EntityParse)
    ensures Collect(ex, limits, seen + [e]) == Absorb(limits, Collect(ex, limits, seen), e, ex(e))
    ensures PointsOf(ex, seen + [e]) == PointsOf(ex, seen) + Listed(ex(e).point)
  {
    assert (seen + [e])[..|seen|] == seen;
  }

  /** What the extractors read from `e`, field by field. */
  lemma ExtractedFields(lib: JavaLib, e: EntityParse)
    ensures Extract(lib, e).point == PointOfEntity(lib, e) && Extract(lib, e).pmi == PmiOf(e)
    ensures SwitchReads(lib, e, Extract(lib, e))
  {
  }

  /** The `CARTESIAN_POINT` test before the `switch`: such an entity's point goes into the box. */
  method AddEntityPoint(lib: JavaLib, e: EntityParse, box: BoxAccumulator)
    requires box.Valid()
    modifies box
    ensures box.Valid() && box.points == old(box.points) + Listed(PointOfEntity(lib, e))
  {
    if e.typeUpper == CARTESIAN_POINT {
      TryAddCartesianPoint(lib, e.argsText, box);
    }
  }

  /** The PMI test after the `switch`: a PMI entity's snippet is kept while the list is below its cap. */
  method KeepSnippet(limits: Limits, snippets: seq<Snippet>, e: EntityParse) returns (r: seq<Snippet>)
    ensures r == Capped(snippets, Listed(PmiOf(e)), limits.maxPmiSnippets)
  {
    r := snippets;
    if |snippets| < limits.maxPmiSnippets && IsPmiType(e.typeUpper) {
      var text := NormalizeEntityText(e.rawText);
      r := snippets + [Snippet(e.id, e.typeUpper, text)];
    }
  }

  /** `x` holds the `switch` branch of `e` and what each branch's parser returns for it. */
  predicate SwitchReads(lib: JavaLib, e: EntityParse, x: Extracted) {
    x.kind == KindOf(e.typeUpper)
    && x.product == ParseProduct(lib, e.id, e.argsText)
    && x.formation == ParseFormation(lib, e.id, e.argsText)
    && x.definition == ParseDefinition(lib, e.id, e.argsText)
    && x.relation == ParseRelation(lib, e.id, e.typeUpper, e.argsText)
    && x.measure == ParseMeasure(lib, e.id, e.argsText)
  }

  /** The `switch` on the entity type, where `x` is what the extractors read from `e`. */
  method RecordEntity(lib: JavaLib, limits: Limits, c: Collected, e: EntityParse, ghost x: Extracted)
    returns (c2: Collected)
    requires SwitchReads(lib, e, x)
    ensures c2 == Recorded(limits, c, e.id, x)
  {
    assert c.relations + [] == c.relations && c.measures + [] == c.measures;
    c2 := c;
    match KindOf(e.typeUpper)
    case ProductKind =>
      assert RelationOf(x) == [] && MeasureOf(x) == [];
      c2 := c2.(products := c2.products[e.id := ParseProduct(lib, e.id, e.argsText)]);
    case FormationKind =>
      assert RelationOf(x) == [] && MeasureOf(x) == [];
      c2 := c2.(formations := c2.formations[e.id := ParseFormation(lib, e.id, e.argsText)]);
    case DefinitionKind =>
      assert RelationOf(x) == [] && MeasureOf(x) == [];
      c2 := c2.(definitions := c2.definitions[e.id := ParseDefinition(lib, e.id, e.argsText)]);
    case RelationKind =>
      assert MeasureOf(x) == [];
      var rel := ParseRelation(lib, e.id, e.typeUpper, e.argsText);
      if rel.Some? {
        c2 := c2.(relations := c2.relations + [rel.value]);
      }
    case MeasureKind =>
      assert RelationOf(x) == [];
      var m := ParseMeasure(lib, e.id, e.argsText);
      if m.Some? && |c2.measures| < limits.maxMeasures {
        c2 := c2.(measures := c2.measures + [m.value]);
      }
    case OtherKind =>
      assert RelationOf(x) == [] && MeasureOf(x) == [];
  }

  lemma AppendAssoc<T>(a: seq<T>, b: seq<T>, c: seq<T>)
    ensures a + (b + c) == (a + b) + c
  {
  }

  /** The entities the loop keeps under the entity cap. */
  function Kept(es: seq<EntityParse>, maxEntities: int): (r: seq<EntityParse>)
    ensures |r| == Min(|es|, Max(0, maxEntities)) && r == es[..|r|]
  {
    es[..Min(|es|, Max(0, maxEntities))]
  }

  /**
   * The cursor loop of `analyze` from `from` on. The entity that exceeds
   * the cap is counted but not processed, so `parsed` ends one past the cap.
   */
  method ScanData(lib: JavaLib, t: JString, from: nat, limits: Limits, ghost ex: EntityParse -> Extracted)
    returns (c: Collected, box: BoxAccumulator, parsed: int, truncated: bool)
    requires Extracts(lib, ex)
    ensures fresh(box) && box.Valid()
    ensures var es := EntitiesFrom(lib, t, from); var kept := Kept(es, limits.maxEntities);
      truncated == (|es| > Max(0, limits.maxEntities))
      && parsed == (if truncated then Max(0, limits.maxEntities) + 1 else |es|)
      && c == Collect(ex, limits, kept)
      && box.points == PointsOf(ex, kept)
  {
    ghost var es := EntitiesFrom(lib, t, from);
    ghost var seen: seq<EntityParse> := [];
    c := NOTHING_COLLECTED;
    box := new BoxAccumulator();
    parsed := 0;
    truncated := false;
    var cursor := from;
    while cursor < |t|
      invariant seen + EntitiesFrom(lib, t, cursor) == es
      invariant parsed == |seen| <= Max(0, limits.maxEntities)
      invariant c == Collect(ex, limits, seen)
      invariant fresh(box) && box.Valid() && box.points == PointsOf(ex, seen)
      decreases |t| - cursor
    {
      var e, next, done := NextEntity(lib, t, cursor);
      if done {
        break;
      }
      cursor := next;
      if e.None? {
        assert Listed(e) + EntitiesFrom(lib, t, next) == EntitiesFrom(lib, t, next);
        continue;
      }
      AppendAssoc(seen, [e.value], EntitiesFrom(lib, t, next));
      parsed := parsed + 1;
      if parsed > limits.maxEntities {
        assert Kept(es, limits.maxEntities) == seen;
        truncated := true;
        return;
      }
      c := CollectEntity(lib, limits, c, e.value, box, ex, seen);
      seen := seen + [e.value];
    }
    assert seen == es;
  }
}
