/** Requirement items as they are submitted, stored, compared and copied. */
module RequirementItems {
  import opened Collections

  /** A JSON value: the same value can be written with its keys in different orders. A JSONB column
      keeps the value and always reads it back in one order, layout 0. */
  datatype Json = Json(value: nat, layout: nat)

  /** A date in text form. Form 0 is the canonical ISO form; others denote the same instant differently. */
  datatype DateText = DateText(instant: int, form: nat)

  datatype RequirementType = Product | Service | Resource
  datatype QuantitySource = AiCalculated | PlannerOverride | Manual
  datatype Strategy = OwnInventory | Marketplace | ExternalSupplier | Hybrid | Undecided
  datatype ItemStatus =
    | Draft | Reviewed | Approved | InProcurement | PartiallyFulfilled | SupplierSelected
    | Ordered | Delivered | Fulfilled | Completed | Cancelled

  /** The fields a planner or the requirement engine submits for one item. */
  datatype Proposal = Proposal(
    category: string,
    requirementType: RequirementType,
    name: string,
    description: Option<string>,
    specification: Option<Json>,
    images: Option<Json>,
    quantityRequired: real,
    unit: string,
    quantitySource: QuantitySource,
    fulfilmentStrategy: Option<Strategy>,
    deliveryDate: Option<DateText>,
    collectionDate: Option<DateText>,
    setupDate: Option<DateText>,
    removalDate: Option<DateText>,
    requiredTime: Option<string>,
    venue: Option<string>,
    deliveryArea: Option<string>,
    setupArea: Option<string>,
    gps: Option<string>,
    estimatedBudgetCents: Option<nat>,
    aiConfidence: Option<real>,
    aiRecommendation: Option<string>)

  /** The same fields as columns of a stored row. */
  datatype Columns = Columns(
    category: string,
    requirementType: RequirementType,
    name: string,
    description: Option<string>,
    specification: Option<nat>,
    images: Option<nat>,
    quantityRequired: real,
    unit: string,
    quantitySource: QuantitySource,
    fulfilmentStrategy: Strategy,
    deliveryDate: Option<int>,
    collectionDate: Option<int>,
    setupDate: Option<int>,
    removalDate: Option<int>,
    requiredTime: Option<string>,
    venue: Option<string>,
    deliveryArea: Option<string>,
    setupArea: Option<string>,
    gps: Option<string>,
    estimatedBudgetCents: Option<nat>,
    aiConfidence: Option<real>,
    aiRecommendation: Option<string>)

  /** Columns that no proposal can set. */
  datatype Tracking = Tracking(
    plannerOverride: bool,
    overrideReason: Option<string>,
    supplierAllocation: Option<nat>,
    quotedPriceCents: Option<nat>,
    approvedPriceCents: Option<nat>,
    actualCostCents: Option<nat>,
    alternativeSuggestions: Option<nat>,
    similarMarketplaceItems: Option<nat>,
    riskWarnings: Option<nat>)

  const UNTRACKED := Tracking(false, None, None, None, None, None, None, None, None)

  datatype Item = Item(
    id: nat, code: string, version: nat, status: ItemStatus, columns: Columns, tracking: Tracking)

  /** What an impact report serialises for one item; `layout` is the order of its keys. */
  datatype Payload = Payload(code: string, body: Proposal, layout: nat)

  function JsonValue(j: Option<Json>): Option<nat> {
    match j case None => None case Some(v) => Some(v.value)
  }

  function JsonRead(v: Option<nat>): Option<Json> {
    match v case None => None case Some(n) => Some(Json(n, 0))
  }

  function Instant(d: Option<DateText>): Option<int> {
    match d case None => None case Some(t) => Some(t.instant)
  }

  function IsoText(d: Option<int>): Option<DateText> {
    match d case None => None case Some(i) => Some(DateText(i, 0))
  }

  /** The row a proposal becomes when it is inserted. */
  function Stored(p: Proposal): Columns {
    Columns(
      p.category, p.requirementType, p.name, p.description, JsonValue(p.specification), JsonValue(p.images),
      p.quantityRequired, p.unit, p.quantitySource, p.fulfilmentStrategy.GetOr(Undecided),
      Instant(p.deliveryDate), Instant(p.collectionDate), Instant(p.setupDate), Instant(p.removalDate),
      p.requiredTime, p.venue, p.deliveryArea, p.setupArea, p.gps,
      p.estimatedBudgetCents, p.aiConfidence, p.aiRecommendation)
  }

  /** The proposal a row reads back as. */
  function Proposed(c: Columns): Proposal {
    Proposal(
      c.category, c.requirementType, c.name, c.description, JsonRead(c.specification), JsonRead(c.images),
      c.quantityRequired, c.unit, c.quantitySource, Some(c.fulfilmentStrategy),
      IsoText(c.deliveryDate), IsoText(c.collectionDate), IsoText(c.setupDate), IsoText(c.removalDate),
      c.requiredTime, c.venue, c.deliveryArea, c.setupArea, c.gps,
      c.estimatedBudgetCents, c.aiConfidence, c.aiRecommendation)
  }

  function CurrentItemPayload(item: Item): Payload {
    Payload(item.code, Proposed(item.columns), 0)
  }

  function NewItem(id: nat, code: string, version: nat, p: Proposal): Item {
    Item(id, code, version, Draft, Stored(p), UNTRACKED)
  }

  /** The row copied into the next set: either carried over, or replaced by a proposal that keeps the
      commercial columns and lifts a planner override. */
  function CloneItem(id: nat, version: nat, item: Item, proposed: Option<Proposal>): Item {
    match proposed
    case Some(p) =>
      var replaced := NewItem(id, item.code, version, p);
      replaced.(columns := replaced.columns.(estimatedBudgetCents := item.columns.estimatedBudgetCents),
             tracking := item.tracking.(plannerOverride := false, overrideReason := None))
    case None =>
      Item(id, item.code, item.version + 1, Draft, item.columns, item.tracking)
  }

  /** A stored row that reads back and is stored again is unchanged. */
  lemma StoredReadsBack(c: Columns)
    ensures Stored(Proposed(c)) == c
  {
    assert JsonValue(JsonRead(c.specification)) == c.specification;
    assert Instant(IsoText(c.deliveryDate)) == c.deliveryDate;
  }

  predicate IsoOrAbsent(d: Option<DateText>) { d.Some? ==> d.value.form == 0 }

  predicate PlainOrAbsent(j: Option<Json>) { j.Some? ==> j.value.layout == 0 }

  /** A proposal written exactly as the service itself would write the row it becomes. */
  predicate Canonical(p: Proposal) {
    && p.fulfilmentStrategy.Some?
    && PlainOrAbsent(p.specification) && PlainOrAbsent(p.images)
    && IsoOrAbsent(p.deliveryDate) && IsoOrAbsent(p.collectionDate)
    && IsoOrAbsent(p.setupDate) && IsoOrAbsent(p.removalDate)
  }

  /** Only canonical proposals survive a trip through the database unchanged. */
  lemma RoundTripExactlyWhenCanonical(p: Proposal)
    ensures Proposed(Stored(p)) == p <==> Canonical(p)
  {
    assert JsonRead(JsonValue(p.specification)) == p.specification <==> PlainOrAbsent(p.specification);
    assert JsonRead(JsonValue(p.images)) == p.images <==> PlainOrAbsent(p.images);
    assert IsoText(Instant(p.deliveryDate)) == p.deliveryDate <==> IsoOrAbsent(p.deliveryDate);
    assert IsoText(Instant(p.collectionDate)) == p.collectionDate <==> IsoOrAbsent(p.collectionDate);
    assert IsoText(Instant(p.setupDate)) == p.setupDate <==> IsoOrAbsent(p.setupDate);
    assert IsoText(Instant(p.removalDate)) == p.removalDate <==> IsoOrAbsent(p.removalDate);
  }
}
