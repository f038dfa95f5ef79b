/**
 * The records `StepDataAnalyzer` extracts from single DATA entities, the
 * limits that bound an analysis, the entity-type classifiers that feed the
 * summaries, the positional extractors `parseProduct`,
 * `parseProductDefinitionFormation`, `parseProductDefinition`,
 * `parseAssemblyRelation` and `parseMeasureRepresentationItem`, and the
 * snippet normalisation `normalizeEntityText` / `escapeStepString`.
 */
module StepRecords {
  import opened JavaText
  import opened StepEscapes
  import opened StepScanner
  import opened StepValues
  import opened StepWriter

  /** `Limits`: the caps of one analysis. */
  datatype Limits = Limits(
    maxEntities: int,
    maxTopEntityTypes: int,
    maxParts: int,
    maxAssemblyDepth: int,
    maxAssemblyNodes: int,
    maxPmiSnippets: int,
    maxMeasures: int)

  /** `Limits.defaults()`. */
  const DEFAULT_LIMITS := Limits(500_000, 200, 20_000, 30, 10_000, 200, 2_000)

  /** The warnings an analysis reports; their wording is not modelled. */
  datatype Warning =
    | EmptyText
    | NoDataSection
    | EntitiesTruncated(maxEntities: int)
    | PartsTruncated(maxParts: int)
    | AssemblyCycle(id: int)
    | AssemblyTruncated(maxNodes: int)

  /** `Product`. */
  datatype Product = Product(id: int, idText: Option<JString>, name: Option<JString>, description: Option<JString>)

  /** `ProductDefinitionFormation`. */
  datatype Formation = Formation(id: int, productRef: Option<int>)

  /** `ProductDefinition`. */
  datatype Definition = Definition(id: int, idText: Option<JString>, description: Option<JString>, formationRef: Option<int>)

  /** `StepAssemblyRelation`: parent and child are never missing once extracted. */
  datatype Relation = Relation(
    entityId: int,
    relationType: JString,
    parent: int,
    child: int,
    refDes: Option<JString>,
    name: Option<JString>,
    description: Option<JString>)

  /** `StepMeasureItem`. */
  datatype Measure = Measure(id: int, name: Option<JString>, measureType: JString, value: Option<real>, unitRef: Option<int>)

  /** `StepEntitySnippet`. */
  datatype Snippet = Snippet(id: int, typeName: JString, text: JString)

  // ---------------------------------------------------------------------
  // Entity type names
  // ---------------------------------------------------------------------

  const PRODUCT := Str("PRODUCT")
  const PRODUCT_DEFINITION_FORMATION := Str("PRODUCT_DEFINITION_FORMATION")
  const FORMATION_WITH_SOURCE := Str("PRODUCT_DEFINITION_FORMATION_WITH_SPECIFIED_SOURCE")
  const PRODUCT_DEFINITION := Str("PRODUCT_DEFINITION")
  const NAUO := Str("NEXT_ASSEMBLY_USAGE_OCCURRENCE")
  const ACU := Str("ASSEMBLY_COMPONENT_USAGE")
  const PDR := Str("PRODUCT_DEFINITION_RELATIONSHIP")
  const MEASURE_ITEM := Str("MEASURE_REPRESENTATION_ITEM")
  const CARTESIAN_POINT := Str("CARTESIAN_POINT")

  /** The relation types `parseAssemblyRelation` accepts. */
  predicate IsRelationType(typeUpper: JString) {
    typeUpper == NAUO || typeUpper == ACU || typeUpper == PDR
  }

  // ---------------------------------------------------------------------
  // Classifiers
  // ---------------------------------------------------------------------

  /** `isPmiType`. */
  predicate IsPmiType(t: JString) {
    t != [] &&
    (Contains(t, Str("DIMENSION")) || Contains(t, Str("TOLERANCE")) || Contains(t, Str("GEOMETRIC_TOLERANCE"))
     || Contains(t, Str("DATUM")) || Contains(t, Str("ANNOTATION")) || Contains(t, Str("DRAUGHTING"))
     || Contains(t, Str("CALLOUT")) || Contains(t, Str("TEXT_LITERAL")))
  }

  /** The exact names `isGeometryType` lists. */
  const GEOMETRY_NAMES: set<JString> := {
    Str("CARTESIAN_POINT"), Str("DIRECTION"), Str("VECTOR"), Str("AXIS2_PLACEMENT_3D"),
    Str("AXIS2_PLACEMENT_2D"), Str("LINE"), Str("CIRCLE"), Str("ELLIPSE"), Str("PLANE"),
    Str("CYLINDRICAL_SURFACE"), Str("CONICAL_SURFACE"), Str("SPHERICAL_SURFACE"),
    Str("TOROIDAL_SURFACE"), Str("B_SPLINE_CURVE_WITH_KNOTS"), Str("B_SPLINE_SURFACE_WITH_KNOTS"),
    Str("RATIONAL_B_SPLINE_CURVE"), Str("RATIONAL_B_SPLINE_SURFACE"), Str("TRIMMED_CURVE"),
    Str("SURFACE_OF_REVOLUTION"), Str("SURFACE_OF_LINEAR_EXTRUSION")}

  /** `isGeometryType`. */
  predicate IsGeometryType(t: JString) {
    t in GEOMETRY_NAMES || Contains(t, Str("B_SPLINE")) || Contains(t, Str("NURBS"))
  }

  /** The exact names `isTopologyType` lists. */
  const TOPOLOGY_NAMES: set<JString> := {
    Str("VERTEX_POINT"), Str("EDGE_CURVE"), Str("ORIENTED_EDGE"), Str("EDGE_LOOP"),
    Str("FACE_OUTER_BOUND"), Str("ADVANCED_FACE"), Str("CLOSED_SHELL"), Str("OPEN_SHELL"),
    Str("MANIFOLD_SOLID_BREP"), Str("BREP_WITH_VOIDS"), Str("SHELL_BASED_SURFACE_MODEL")}

  /** `isTopologyType`. */
  predicate IsTopologyType(t: JString) {
    t in TOPOLOGY_NAMES || EndsWith(t, Str("_BREP")) || Contains(t, Str("SHELL"))
    || Contains(t, Str("FACE")) || Contains(t, Str("EDGE"))
  }

  /** `isPreciseGeometryMarker`. */
  predicate IsPreciseMarker(t: JString) {
    t == Str("ADVANCED_BREP_SHAPE_REPRESENTATION") || t == Str("MANIFOLD_SOLID_BREP")
    || Contains(t, Str("B_SPLINE")) || Contains(t, Str("SURFACE")) || Contains(t, Str("BREP"))
  }

  /** `isTessellatedGeometryMarker`. */
  predicate IsTessellatedMarker(t: JString) {
    Contains(t, Str("TESSELLATED")) || Contains(t, Str("TRIANGULATED"))
    || Contains(t, Str("POLYLINE")) || Contains(t, Str("FACETED"))
  }

  /** A text containing `a + b` contains `b`. */
  lemma ContainsSuffixPart(s: JString, a: JString, b: JString)
    requires Contains(s, a + b)
    ensures Contains(s, b)
  {
    var i :| 0 <= i <= |s| - |a + b| && OccursAt(s, a + b, i);
    var j := i + |a|;
    forall k | 0 <= k < |b|
      ensures s[j..j + |b|][k] == b[k]
    {
      assert s[j..j + |b|][k] == s[i..i + |a + b|][|a| + k] == (a + b)[|a| + k];
    }
    assert OccursAt(s, b, j);
  }

  /**
   * The `GEOMETRIC_TOLERANCE` test of `isPmiType` never decides anything:
   * every such name already contains `TOLERANCE`.
   */
  lemma GeometricToleranceIsTolerance(t: JString)
    requires Contains(t, Str("GEOMETRIC_TOLERANCE"))
    ensures Contains(t, Str("TOLERANCE"))
    ensures IsPmiType(t)
  {
    assert Str("GEOMETRIC_TOLERANCE") == Str("GEOMETRIC_") + Str("TOLERANCE");
    ContainsSuffixPart(t, Str("GEOMETRIC_"), Str("TOLERANCE"));
  }

  // ---------------------------------------------------------------------
  // Extractors
  // ---------------------------------------------------------------------

  /** The text of argument `idx` when it is a string or an enumeration. */
  predicate TextArg(args: seq<Value>, idx: nat) {
    idx < |args| && (args[idx].StepString? || args[idx].StepEnum?)
  }

  /** `parseProduct`: the product's id text, name and description (arguments 0, 1, 2). */
  function ParseProduct(lib: JavaLib, id: int, argsText: JString): (r: Product)
    ensures var args := ArgsOf(lib, argsText);
      r.id == id
      && (r.idText.Some? <==> TextArg(args, 0)) && (r.idText.Some? ==> r.idText.value == args[0].value)
      && (r.name.Some? <==> TextArg(args, 1)) && (r.name.Some? ==> r.name.value == args[1].value)
      && (r.description.Some? <==> TextArg(args, 2)) && (r.description.Some? ==> r.description.value == args[2].value)
  {
    var args := ArgsOf(lib, argsText);
    Product(id, AsString(args, 0), AsString(args, 1), AsString(args, 2))
  }

  /** `parseProductDefinitionFormation`: the product reference is argument 2. */
  function ParseFormation(lib: JavaLib, id: int, argsText: JString): (r: Formation)
    ensures var args := ArgsOf(lib, argsText);
      r.id == id && (r.productRef.Some? <==> |args| > 2 && args[2].StepRef?)
      && (r.productRef.Some? ==> r.productRef.value == args[2].id)
  {
    var args := ArgsOf(lib, argsText);
    Formation(id, AsRef(args, 2))
  }

  /** `parseProductDefinition`: id text, description, then the formation reference. */
  function ParseDefinition(lib: JavaLib, id: int, argsText: JString): (r: Definition)
    ensures var args := ArgsOf(lib, argsText);
      r.id == id
      && (r.idText.Some? <==> TextArg(args, 0)) && (r.idText.Some? ==> r.idText.value == args[0].value)
      && (r.description.Some? <==> TextArg(args, 1)) && (r.description.Some? ==> r.description.value == args[1].value)
      && (r.formationRef.Some? <==> |args| > 2 && args[2].StepRef?)
      && (r.formationRef.Some? ==> r.formationRef.value == args[2].id)
  {
    var args := ArgsOf(lib, argsText);
    Definition(id, AsString(args, 0), AsString(args, 1), AsRef(args, 2))
  }

  /**
   * `parseAssemblyRelation`: a relation of one of the three relation types
   * whose arguments 3 and 4 are references (parent, child); name and
   * description are arguments 1 and 2, and only the two usage types carry
   * a reference designator (argument 5). Blank texts become absent.
   */
  function ParseRelation(lib: JavaLib, id: int, typeUpper: JString, argsText: JString): (r: Option<Relation>)
    ensures var args := ArgsOf(lib, argsText);
      r.Some? <==> IsRelationType(typeUpper) && |args| > 4 && args[3].StepRef? && args[4].StepRef?
    ensures r.Some? ==> var args := ArgsOf(lib, argsText);
      r.value.entityId == id && r.value.relationType == typeUpper
      && r.value.parent == args[3].id && r.value.child == args[4].id
      && r.value.name == BlankToNull(lib, AsString(args, 1))
      && r.value.description == BlankToNull(lib, AsString(args, 2))
      && (r.value.refDes.Some? <==> typeUpper != PDR && TextArg(args, 5) && !IsBlank(lib, args[5].value))
      && (r.value.refDes.Some? ==> r.value.refDes.value == args[5].value)
  {
    var args := ArgsOf(lib, argsText);
    if typeUpper == NAUO || typeUpper == ACU then
      var parent := AsRef(args, 3);
      var child := AsRef(args, 4);
      if parent.None? || child.None? then None
      else Some(Relation(id, typeUpper, parent.value, child.value, BlankToNull(lib, AsString(args, 5)),
                         BlankToNull(lib, AsString(args, 1)), BlankToNull(lib, AsString(args, 2))))
    else if typeUpper == PDR then
      var parent := AsRef(args, 3);
      var child := AsRef(args, 4);
      if parent.None? || child.None? then None
      else Some(Relation(id, typeUpper, parent.value, child.value, None,
                         BlankToNull(lib, AsString(args, 1)), BlankToNull(lib, AsString(args, 2))))
    else None
  }

  /**
   * `parseMeasureRepresentationItem`: present exactly when argument 1 is a
   * typed value; its value is the typed value's first argument when that
   * is a number, and the unit is argument 2.
   */
  function ParseMeasure(lib: JavaLib, id: int, argsText: JString): (r: Option<Measure>)
    ensures var args := ArgsOf(lib, argsText);
      r.Some? <==> |args| > 1 && args[1].StepTyped?
    ensures r.Some? ==> var args := ArgsOf(lib, argsText);
      var typed := args[1];
      r.value.id == id && r.value.measureType == typed.typeUpper
      && r.value.name == BlankToNull(lib, AsString(args, 0))
      && (r.value.value.Some? ==> typed.args != [] && typed.args[0].StepNumber? && typed.args[0].number == r.value.value)
      && (typed.args != [] && typed.args[0].StepNumber? ==> r.value.value == typed.args[0].number)
      && (r.value.unitRef.Some? <==> |args| > 2 && args[2].StepRef?)
      && (r.value.unitRef.Some? ==> r.value.unitRef.value == args[2].id)
  {
    var args := ArgsOf(lib, argsText);
    var unitRef := AsRef(args, 2);
    if |args| > 1 && args[1].StepTyped? then
      var typed := args[1];
      var number := if typed.args != [] && typed.args[0].StepNumber? then typed.args[0].number else None;
      Some(Measure(id, BlankToNull(lib, AsString(args, 0)), typed.typeUpper, number, unitRef))
    else None
  }

  // ---------------------------------------------------------------------
  // Extractors against the writer
  // ---------------------------------------------------------------------

  /** `PRODUCT('id', 'name', 'description', ...)` gives back its three texts. */
  lemma ProductRoundTrip(lib: JavaLib, id: int, partNumber: JString, name: JString, description: JString)
    requires AsciiSane(lib)
    requires BACKSLASH !in partNumber && BACKSLASH !in name && BACKSLASH !in description
    ensures ParseProduct(lib, id, WriteArgs([StepString(partNumber), StepString(name), StepString(description)]))
      == Product(id, Some(partNumber), Some(name), Some(description))
  {
    ArgsRoundTrip(lib, [StepString(partNumber), StepString(name), StepString(description)]);
  }

  /** `PRODUCT_DEFINITION_FORMATION('id', 'description', #product)` gives back its product reference. */
  lemma FormationRoundTrip(lib: JavaLib, id: int, idText: JString, description: JString, product: int)
    requires AsciiSane(lib) && BACKSLASH !in idText && BACKSLASH !in description && 0 <= product <= INT_MAX
    ensures ParseFormation(lib, id, WriteArgs([StepString(idText), StepString(description), StepRef(product)]))
      == Formation(id, Some(product))
  {
    ArgsRoundTrip(lib, [StepString(idText), StepString(description), StepRef(product)]);
  }

  /** `PRODUCT_DEFINITION('id', 'description', #formation, ...)` gives back its texts and formation. */
  lemma DefinitionRoundTrip(lib: JavaLib, id: int, idText: JString, description: JString, formation: int)
    requires AsciiSane(lib) && BACKSLASH !in idText && BACKSLASH !in description && 0 <= formation <= INT_MAX
    ensures ParseDefinition(lib, id, WriteArgs([StepString(idText), StepString(description), StepRef(formation)]))
      == Definition(id, Some(idText), Some(description), Some(formation))
  {
    ArgsRoundTrip(lib, [StepString(idText), StepString(description), StepRef(formation)]);
  }

  /**
   * A `NEXT_ASSEMBLY_USAGE_OCCURRENCE('id', 'name', 'description', #parent,
   * #child, 'refdes')` gives back its parent, child and non-blank texts.
   */
  lemma UsageRoundTrip(lib: JavaLib, id: int, idText: JString, name: JString, description: JString,
                       parent: int, child: int, refDes: JString)
    requires AsciiSane(lib)
    requires BACKSLASH !in idText && BACKSLASH !in name && BACKSLASH !in description && BACKSLASH !in refDes
    requires 0 <= parent <= INT_MAX && 0 <= child <= INT_MAX
    ensures var args := [StepString(idText), StepString(name), StepString(description), StepRef(parent), StepRef(child), StepString(refDes)];
      ParseRelation(lib, id, NAUO, WriteArgs(args))
      == Some(Relation(id, NAUO, parent, child, BlankToNull(lib, Some(refDes)),
                       BlankToNull(lib, Some(name)), BlankToNull(lib, Some(description))))
  {
    var args := [StepString(idText), StepString(name), StepString(description), StepRef(parent), StepRef(child), StepString(refDes)];
    ArgsRoundTrip(lib, args);
  }

  /** A usage whose child is `$` names no relation. */
  lemma UsageWithoutChild(lib: JavaLib, id: int, idText: JString, name: JString, description: JString, parent: int)
    requires AsciiSane(lib)
    requires BACKSLASH !in idText && BACKSLASH !in name && BACKSLASH !in description
    requires 0 <= parent <= INT_MAX
    ensures ParseRelation(lib, id, NAUO,
      WriteArgs([StepString(idText), StepString(name), StepString(description), StepRef(parent), StepNull])) == None
  {
    ArgsRoundTrip(lib, [StepString(idText), StepString(name), StepString(description), StepRef(parent), StepNull]);
  }

  // ---------------------------------------------------------------------
  // normalizeEntityText / escapeStepString
  // ---------------------------------------------------------------------

  /**
   * The normalised text from index `i` on, outside any literal: other units
   * are copied, and each literal is rewritten as its decoded body, quotes
   * doubled, between quotes (an unterminated literal gains its closing quote).
   */
  function NormalizeFrom(t: JString, i: nat): JString
    decreases |t| - i
  {
    if i >= |t| then []
    else if t[i] != QUOTE then [t[i]] + NormalizeFrom(t, i + 1)
    else
      var q := ReadQuoted(t, i + 1);
      [QUOTE] + EscapeQuotes(DecodeAt(q.body, 0)) + [QUOTE] + NormalizeFrom(t, q.stop + 1)
  }

  /** `escapeStepString`. */
  function EscapeStepString(s: JString): (r: JString)
    ensures QUOTE !in s ==> r == s
    ensures |r| == |s| + multiset(s)[QUOTE]
  {
    EscapeCount(s);
    EscapeQuotes(s)
  }

  lemma {:induction false} EscapeCount(s: JString)
    ensures |EscapeQuotes(s)| == |s| + multiset(s)[QUOTE]
  {
    if s != [] {
      EscapeCount(s[1..]);
      assert s == [s[0]] + s[1..];
      assert multiset(s) == multiset([s[0]]) + multiset(s[1..]);
    }
  }

  /** `normalizeEntityText`. */
  method NormalizeEntityText(t: JString) returns (r: JString)
    ensures QUOTE !in t ==> r == t
    ensures QUOTE in t ==> r == NormalizeFrom(t, 0)
  {
    if |t| == 0 || QUOTE !in t {
      return t;
    }
    r := [];
    var i := 0;
    while i < |t|
      invariant 0 <= i
      invariant r + NormalizeFrom(t, i) == NormalizeFrom(t, 0)
      decreases |t| - i
    {
      NormalizeStep(t, i);
      var c := t[i];
      if c != QUOTE {
        Shift(r, [c], NormalizeFrom(t, i + 1));
        r := r + [c];
      } else {
        var body, stop := ReadQuotedBody(t, i + 1);
        var decoded := DecodeStepEscapes(body);
        var escaped := EscapeStepString(decoded);
        Shift(r, [QUOTE] + escaped + [QUOTE], NormalizeFrom(t, stop + 1));
        r := r + ([QUOTE] + escaped + [QUOTE]);
        i := stop;
      }
      i := i + 1;
    }
  }

  /** One step of the normaliser. */
  lemma NormalizeStep(t: JString, i: nat)
    requires i < |t|
    ensures t[i] != QUOTE ==> NormalizeFrom(t, i) == [t[i]] + NormalizeFrom(t, i + 1)
    ensures t[i] == QUOTE ==> var q := ReadQuoted(t, i + 1);
      NormalizeFrom(t, i) == ([QUOTE] + EscapeQuotes(DecodeAt(q.body, 0)) + [QUOTE]) + NormalizeFrom(t, q.stop + 1)
  {
    if t[i] == QUOTE {
      NormalizeQuoteStep(t, i);
    }
  }

  lemma NormalizeQuoteStep(t: JString, i: nat)
    requires i < |t| && t[i] == QUOTE
    ensures var q := ReadQuoted(t, i + 1);
      NormalizeFrom(t, i) == ([QUOTE] + EscapeQuotes(DecodeAt(q.body, 0)) + [QUOTE]) + NormalizeFrom(t, q.stop + 1)
  {
    var q := ReadQuoted(t, i + 1);
    var lit := [QUOTE] + EscapeQuotes(DecodeAt(q.body, 0)) + [QUOTE];
    assert NormalizeFrom(t, i) == lit + NormalizeFrom(t, q.stop + 1);
  }

  lemma Shift(done: JString, piece: JString, rest: JString)
    ensures done + (piece + rest) == (done + piece) + rest
  {
  }

  /** Text without a quote normalises to itself. */
  lemma {:induction false} NormalizePlain(t: JString, i: nat)
    requires i <= |t| && forall k | i <= k < |t| :: t[k] != QUOTE
    ensures NormalizeFrom(t, i) == t[i..]
    decreases |t| - i
  {
    if i < |t| {
      NormalizePlain(t, i + 1);
      assert t[i..] == [t[i]] + t[i + 1..];
    }
  }

  /**
   * Reading a normalised literal back gives the literal's decoded body: the
   * normaliser re-encodes each literal so that the STEP reader sees exactly
   * the text the escapes stood for.
   */
  lemma NormalizedLiteralReadsBack(t: JString, i: nat)
    requires i < |t| && t[i] == QUOTE
    ensures ReadQuoted(NormalizeFrom(t, i), 1).body == DecodeAt(ReadQuoted(t, i + 1).body, 0)
  {
    var q := ReadQuoted(t, i + 1);
    QuoteShape(t, i);
    ReadBack(NormalizeFrom(t, i), DecodeAt(q.body, 0), NormalizeFrom(t, q.stop + 1));
  }

  /** A normalised literal, and what follows it, which does not start with a quote. */
  lemma QuoteShape(t: JString, i: nat)
    requires i < |t| && t[i] == QUOTE
    ensures var q := ReadQuoted(t, i + 1);
      var rest := NormalizeFrom(t, q.stop + 1);
      NormalizeFrom(t, i) == ([QUOTE] + EscapeQuotes(DecodeAt(q.body, 0)) + [QUOTE]) + rest
      && (rest == [] || rest[0] != QUOTE)
  {
    NormalizeQuoteStep(t, i);
    var q := ReadQuoted(t, i + 1);
    if q.stop + 1 < |t| {
      NormalizeStarts(t, q.stop + 1);
    }
  }

  /** The normalised text starts where the text does: its first unit is the text's unit at `i`. */
  lemma NormalizeStarts(t: JString, i: nat)
    requires i < |t|
    ensures NormalizeFrom(t, i) != [] && NormalizeFrom(t, i)[0] == t[i]
  {
  }

  /** A rewritten literal followed by text that does not start with a quote reads back as its body. */
  lemma ReadBack(n: JString, d: JString, rest: JString)
    requires n == ([QUOTE] + EscapeQuotes(d) + [QUOTE]) + rest && (rest == [] || rest[0] != QUOTE)
    ensures n[0] == QUOTE && ReadQuoted(n, 1) == Quoted(d, 1 + |EscapeQuotes(d)|)
  {
    var e := EscapeQuotes(d);
    LiteralFrame(n, e, rest);
    QuotedRoundTrip(n, 1, d);
  }

  /** The layout of a rewritten literal followed by text that does not start with a quote. */
  lemma LiteralFrame(n: JString, e: JString, rest: JString)
    requires n == ([QUOTE] + e + [QUOTE]) + rest && (rest == [] || rest[0] != QUOTE)
    ensures var j := 1 + |e|;
      n[0] == QUOTE && j < |n| && n[1..j] == e && n[j] == QUOTE && (j + 1 == |n| || n[j + 1] != QUOTE)
  {
    var j := 1 + |e|;
    assert n[1..j] == e;
    if rest != [] {
      assert n[j + 1] == rest[0];
    }
  }
}
