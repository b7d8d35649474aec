/** From requests and reviewed drafts to orders: what the money of the created order is. */
module DraftOrders {
  import opened Collections
  import opened Rounding
  import opened OrderPricing
  import opened PurchaseOrders

  /** The VAT rate each requested product has in the catalog, if any. */
  function ProductVat(catalog: Catalog, requests: seq<LineRequest>): (vat: seq<Option<real>>)
    ensures |vat| == |requests|
    ensures forall i :: 0 <= i < |requests| && requests[i].supplierProductId in catalog ==>
              vat[i] == catalog[requests[i].supplierProductId].vat
  {
    seq(|requests|, i requires 0 <= i < |requests| =>
      if requests[i].supplierProductId in catalog then catalog[requests[i].supplierProductId].vat else None)
  }

  /** The money of a created order's lines is the money of its requests, line by line. */
  lemma CreatedMoney(organization: Organization, request: OrderRequest)
    requires ValidRequests(request.lines) && CreateStep(organization, request).Created?
    ensures var order, vat := CreateStep(organization, request).order, ProductVat(organization.catalog, request.lines);
            && |order.lines| == |request.lines|
            && (forall i :: 0 <= i < |request.lines| ==>
                  LineMoney(order.lines)[i] == RequestMoney(request.lines[i], vat[i]) && AddsUp(LineMoney(order.lines)[i]))
  {
    PreparedLines(organization.catalog, request.supplierId, request.lines, 0);
  }

  // ---------------------------------------------------------------- how far an order drifts

  /** What is agreed for each line: the request's rates, else the product's, else none. */
  function Terms(catalog: Catalog, requests: seq<LineRequest>): (terms: seq<LineTerms>)
    ensures |terms| == |requests|
    ensures forall i :: 0 <= i < |requests| ==>
              terms[i] == LineTerms(requests[i].quantity, requests[i].unitCost, requests[i].discountPercent.GetOr(0.0),
                                    requests[i].vatPercent.GetOr(ProductVat(catalog, requests)[i].GetOr(0.0)))
  {
    seq(|requests|, i requires 0 <= i < |requests| =>
      LineTerms(requests[i].quantity, requests[i].unitCost, requests[i].discountPercent.GetOr(0.0),
                requests[i].vatPercent.GetOr(ProductVat(catalog, requests)[i].GetOr(0.0))))
  }

  ghost predicate OrdinaryRates(terms: seq<LineTerms>) {
    forall i :: 0 <= i < |terms| ==> 0.0 <= terms[i].discountRate <= 100.0 && 0.0 <= terms[i].taxRate <= 100.0
  }

  lemma CreatedIsPriced(organization: Organization, request: OrderRequest)
    requires ValidRequests(request.lines) && CreateStep(organization, request).Created?
    ensures LineMoney(CreateStep(organization, request).order.lines) == Priced(Terms(organization.catalog, request.lines))
  {
    CreatedMoney(organization, request);
    var money, priced := LineMoney(CreateStep(organization, request).order.lines), Priced(Terms(organization.catalog, request.lines));
    assert forall i :: 0 <= i < |money| ==> money[i] == priced[i];
  }

  /** With rates between 0 and 100 percent the total of a created order is within two and a half cents per line,
      and half a cent for the last rounding, of what was agreed. */
  lemma CreatedOrderDrift(organization: Organization, request: OrderRequest)
    requires ValidRequests(request.lines) && CreateStep(organization, request).Created?
    requires OrdinaryRates(Terms(organization.catalog, request.lines))
    ensures Abs(CreateStep(organization, request).order.totalAmount -
                (ExactSum(Terms(organization.catalog, request.lines)) + request.fee.GetOr(0.0)))
            <= 0.025 * |request.lines| as real + 0.005
  {
    var terms := Terms(organization.catalog, request.lines);
    CreatedTotal(organization, request);
    OrderDrift(terms);
    RoundingIsNear(SumTotals(Priced(terms)) + request.fee.GetOr(0.0));
  }

  lemma CreatedTotal(organization: Organization, request: OrderRequest)
    requires ValidRequests(request.lines) && CreateStep(organization, request).Created?
    ensures CreateStep(organization, request).order.totalAmount ==
            Round2(SumTotals(Priced(Terms(organization.catalog, request.lines))) + request.fee.GetOr(0.0))
  {
    CreatedIsPriced(organization, request);
    CreatedMoney(organization, request);
    RoundingTheSumFirstIsHarmless(Priced(Terms(organization.catalog, request.lines)), request.fee.GetOr(0.0));
  }

  // ---------------------------------------------------------------- committing a draft

  ghost predicate AllHaveProducts(p: DraftPayload) {
    forall i :: 0 <= i < |p.lines| ==> p.lines[i].supplierProductId.Some?
  }

  /** The order a draft asks for, for the supplier and location that were reviewed. */
  function CommitRequest(p: DraftPayload, supplierId: nat, deliveryLocation: nat): OrderRequest
    requires AllHaveProducts(p)
  {
    OrderRequest(supplierId, deliveryLocation,
                 seq(|p.lines|, i requires 0 <= i < |p.lines| => CreateRequest(p.lines[i]).value), Some(p.deliveryFee))
  }

  /** The line orders the draft line's product, as much of it as the draft says. */
  ghost predicate Orders(line: OrderLine, draft: DraftLine) {
    draft.supplierProductId == Some(line.productId) && line.ordered == draft.quantity
  }

  /** Committing a draft creates an order for the reviewed supplier and location, line by line with the draft's products,
      quantities and amounts, and with its summary and its total, whatever VAT the products have. */
  lemma CommittedDraftBecomesOrder(p: DraftPayload, organization: Organization, supplierId: nat, deliveryLocation: nat)
    requires WellBuilt(p) && AllHaveProducts(p)
    requires ValidRequests(CommitRequest(p, supplierId, deliveryLocation).lines)
    requires CreateStep(organization, CommitRequest(p, supplierId, deliveryLocation)).Created?
    ensures var order := CreateStep(organization, CommitRequest(p, supplierId, deliveryLocation)).order;
            && order.supplierId == supplierId && order.deliveryLocation == deliveryLocation
            && |order.lines| == |p.lines| && (forall i :: 0 <= i < |p.lines| ==> Orders(order.lines[i], p.lines[i]))
            && LineMoney(order.lines) == MoneyOf(p.lines)
            && order.totals.subtotal == p.summary.subtotal && order.totals.discount == p.summary.discount
            && order.totals.tax == p.summary.tax && order.deliveryFee == p.summary.deliveryFee
            && order.totalAmount == p.summary.total
  {
    var request := CommitRequest(p, supplierId, deliveryLocation);
    var order, vat := CreateStep(organization, request).order, ProductVat(organization.catalog, request.lines);
    CreatedMoney(organization, request);
    PreparedLines(organization.catalog, supplierId, request.lines, 0);
    CommittedOrderEqualsDraft(p, vat);
    assert LineMoney(order.lines) == CommittedMoney(p, vat);
  }
}
