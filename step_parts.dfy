/**
 * `buildParts` of `StepDataAnalyzer`: the bill-of-materials join
 * PRODUCT_DEFINITION -> PRODUCT_DEFINITION_FORMATION -> PRODUCT.
 *
 * The definitions table is a `HashMap`, so the order of the parts is left
 * open: the loop takes the remaining definitions in any order.
 */
module StepParts {
  import opened JavaText
  import opened StepValues
  import opened StepRecords

  /** `StepPartInfo`. */
  datatype PartInfo = PartInfo(
    productDefinitionId: int,
    pdIdentifier: Option<JString>,
    pdDescription: Option<JString>,
    productId: Option<int>,
    partNumber: Option<JString>,
    name: Option<JString>,
    description: Option<JString>)

  /** The product a definition leads to through its formation, if both links resolve. */
  function ProductIdOf(pd: Definition, formations: map<int, Formation>): (r: Option<int>)
    ensures r.Some? <==> pd.formationRef.Some? && pd.formationRef.value in formations
                         && formations[pd.formationRef.value].productRef.Some?
    ensures r.Some? ==> r.value == formations[pd.formationRef.value].productRef.value
  {
    if pd.formationRef.Some? && pd.formationRef.value in formations then formations[pd.formationRef.value].productRef
    else None
  }

  /**
   * The part one definition yields: its own texts, the product id whenever
   * the formation names one, and the product's texts only when that
   * product is in the table. Blank texts become absent.
   */
  function PartOf(lib: JavaLib, pdId: int, pd: Definition, formations: map<int, Formation>, products: map<int, Product>): (r: PartInfo)
    ensures r.productDefinitionId == pdId
    ensures r.pdIdentifier == BlankToNull(lib, pd.idText) && r.pdDescription == BlankToNull(lib, pd.description)
    ensures r.productId == ProductIdOf(pd, formations)
    ensures r.partNumber.Some? || r.name.Some? || r.description.Some? ==>
      r.productId.Some? && r.productId.value in products
    ensures r.productId.Some? && r.productId.value in products ==>
      var p := products[r.productId.value];
      r.partNumber == BlankToNull(lib, p.idText) && r.name == BlankToNull(lib, p.name)
      && r.description == BlankToNull(lib, p.description)
  {
    var productId := ProductIdOf(pd, formations);
    var product := if productId.Some? && productId.value in products then Some(products[productId.value]) else None;
    PartInfo(pdId, BlankToNull(lib, pd.idText), BlankToNull(lib, pd.description), productId,
      if product.Some? then BlankToNull(lib, product.value.idText) else None,
      if product.Some? then BlankToNull(lib, product.value.name) else None,
      if product.Some? then BlankToNull(lib, product.value.description) else None)
  }

  /** A formation naming a product that is not in the table still gives the part its product id. */
  lemma DanglingProductKeepsId(lib: JavaLib, pdId: int, pd: Definition, formations: map<int, Formation>,
                               products: map<int, Product>, productId: int)
    requires pd.formationRef.Some? && pd.formationRef.value in formations
    requires formations[pd.formationRef.value].productRef == Some(productId) && productId !in products
    ensures var r := PartOf(lib, pdId, pd, formations, products);
      r.productId == Some(productId) && r.partNumber.None? && r.name.None? && r.description.None?
  {
  }

  /** A definition without a resolvable formation is still listed, with no product data. */
  lemma MissingFormationKeepsPart(lib: JavaLib, pdId: int, pd: Definition, formations: map<int, Formation>,
                                  products: map<int, Product>)
    requires pd.formationRef.None? || pd.formationRef.value !in formations
    ensures var r := PartOf(lib, pdId, pd, formations, products);
      r.productDefinitionId == pdId && r.productId.None? && r.partNumber.None? && r.name.None? && r.description.None?
  {
  }

  /**
   * `buildParts`: one part per definition, taken in any order, until
   * `maxParts` parts are out; one more definition adds the truncation
   * warning and stops the loop. An empty table gives no parts and no
   * warning.
   */
  method BuildParts(lib: JavaLib, defs: map<int, Definition>, formations: map<int, Formation>,
                    products: map<int, Product>, maxParts: int, warnings: seq<Warning>)
    returns (out: seq<PartInfo>, warningsOut: seq<Warning>)
    requires maxParts >= 0
    ensures |out| == Min(|defs|, maxParts)
    ensures warningsOut == warnings + (if |defs| > maxParts then [PartsTruncated(maxParts)] else [])
    ensures forall i | 0 <= i < |out| ::
      (out[i].productDefinitionId in defs
       && out[i] == PartOf(lib, out[i].productDefinitionId, defs[out[i].productDefinitionId], formations, products))
    ensures forall i, j | 0 <= i < j < |out| :: out[i].productDefinitionId != out[j].productDefinitionId
  {
    warningsOut := warnings;
    out := [];
    if |defs| == 0 {
      return;
    }
    var remaining := defs.Keys;
    var count := 0;
    while remaining != {}
      invariant remaining <= defs.Keys
      invariant count == |out| == |defs| - |remaining| <= maxParts
      invariant warningsOut == warnings
      invariant forall i | 0 <= i < |out| ::
        (out[i].productDefinitionId in defs - remaining
         && out[i] == PartOf(lib, out[i].productDefinitionId, defs[out[i].productDefinitionId], formations, products))
      invariant forall i, j | 0 <= i < j < |out| :: out[i].productDefinitionId != out[j].productDefinitionId
      decreases |remaining|
    {
      if count >= maxParts {
        warningsOut := warningsOut + [PartsTruncated(maxParts)];
        break;
      }
      count := count + 1;
      SomeMember(remaining);
      var pdId: int :| pdId in remaining;
      var pd := defs[pdId];
      out := out + [PartOf(lib, pdId, pd, formations, products)];
      remaining := remaining - {pdId};
    }
  }
}
