/** When a purchase order accepts an operation, and what its columns then hold, each written out. */
module OrderRules {
  import opened Collections
  import opened OrderPricing
  import opened Rounding
  import opened PurchaseOrders
  import OrderCompletion
  import PurchaseOrderServices
  import SL = StockLedger

  // ---------------------------------------------------------------- the lifecycle

  /** The moves of an order that touch neither its lines nor the stock: where from, and what changes. */
  ghost predicate Moves(before: Order, op: Op, after: Order) {
    match op
    case Submit => before.status == Draft && !before.archived && after == before.(status := PendingApproval)
    case Approve(userId) =>
      before.status == PendingApproval && !before.archived && after == before.(status := Approved, approvedBy := Some(userId))
    case ReturnToDraft => before.status == PendingApproval && after == before.(status := Draft, approvedBy := None)
    case MarkSent => before.status == Approved && !before.archived && after == before.(status := Sent, sent := true)
    case Cancel =>
      before.status != FullyReceived && before.status != Cancelled && after == before.(status := Cancelled, cancelled := true)
    case Archive => !before.archived && after == before.(archived := true)
    case Restore => before.archived && after == before.(archived := false)
    case _ => false
  }

  lemma MovesExactly(o: Order, ledger: SL.Ledger, op: Op, after: Order)
    requires !op.Update? && !op.Receive?
    ensures Step(o, ledger, op) == (after, ledger, SL.Done) <==> Moves(o, op, after)
    ensures Step(o, ledger, op).2 == SL.Done || Step(o, ledger, op) == (o, ledger, SL.BadRequest)
  {
  }

  /** The way of an order to its supplier: submitted, approved, sent. */
  lemma DraftIsSent(o: Order, ledger: SL.Ledger, userId: nat)
    requires o.status == Draft && !o.archived
    ensures Run(o, ledger, [Submit, Approve(userId), MarkSent]) ==
            (o.(status := Sent, approvedBy := Some(userId), sent := true), ledger)
  {
    var submitted := o.(status := PendingApproval);
    var approved := submitted.(status := Approved, approvedBy := Some(userId));
    var ops := [Submit, Approve(userId), MarkSent];
    assert ops[1..] == [Approve(userId), MarkSent] && ops[1..][1..] == [MarkSent];
    assert Run(o, ledger, ops) == Run(submitted, ledger, ops[1..]);
    assert Run(submitted, ledger, ops[1..]) == Run(approved, ledger, ops[1..][1..]);
    assert Run(approved, ledger, ops[1..][1..]) == Run(approved.(status := Sent, sent := true), ledger, []);
  }

  // ---------------------------------------------------------------- lines from requests

  /** Every product may be ordered from the supplier, and none is named twice. */
  ghost predicate AllOrderable(catalog: Catalog, supplierId: nat, requests: seq<LineRequest>) {
    && (forall i :: 0 <= i < |requests| ==> Orderable(catalog, supplierId, requests[i].supplierProductId))
    && (forall i, j :: 0 <= i < j < |requests| ==> requests[i].supplierProductId != requests[j].supplierProductId)
  }

  lemma {:induction false} PreparedExactly(catalog: Catalog, supplierId: nat, requests: seq<LineRequest>, firstId: nat)
    ensures Prepare(catalog, supplierId, requests, firstId).Lines? <==> AllOrderable(catalog, supplierId, requests)
  {
    if requests == [] {
    } else {
      var front, last := requests[..|requests| - 1], requests[|requests| - 1];
      PreparedExactly(catalog, supplierId, front, firstId);
      OneMoreOrderable(catalog, supplierId, requests);
    }
  }

  lemma OneMoreOrderable(catalog: Catalog, supplierId: nat, requests: seq<LineRequest>)
    requires requests != []
    ensures var front, last := requests[..|requests| - 1], requests[|requests| - 1];
            AllOrderable(catalog, supplierId, requests) <==>
            && AllOrderable(catalog, supplierId, front) && Orderable(catalog, supplierId, last.supplierProductId)
            && !(exists k :: 0 <= k < |front| && front[k].supplierProductId == last.supplierProductId)
  {
    var front, last := requests[..|requests| - 1], requests[|requests| - 1];
    assert requests == front + [last];
    assert forall k :: 0 <= k < |front| ==> front[k] == requests[k];
    if AllOrderable(catalog, supplierId, requests) {
      assert Orderable(catalog, supplierId, requests[|requests| - 1].supplierProductId);
    }
  }

  /** Otherwise the first request that cannot be met decides: a product the organization does not have is
      forbidden, unless it was named before; anything else is a bad request. */
  lemma FirstFaultDecides(catalog: Catalog, supplierId: nat, requests: seq<LineRequest>, firstId: nat, n: nat)
    requires n < |requests| && AllOrderable(catalog, supplierId, requests[..n]) && !AllOrderable(catalog, supplierId, requests[..n + 1])
    ensures var productId := requests[n].supplierProductId;
            Prepare(catalog, supplierId, requests, firstId) ==
            Fault(if (forall k :: 0 <= k < n ==> requests[k].supplierProductId != productId) &&
                     !(productId in catalog && catalog[productId].inOrganization)
                  then SL.Forbidden else SL.BadRequest)
  {
    PreparedExactly(catalog, supplierId, requests[..n], firstId);
    PreparedExactly(catalog, supplierId, requests[..n + 1], firstId);
    PurchaseOrderServices.FaultStays(catalog, supplierId, requests, firstId, n + 1);
    PurchaseOrderServices.PrepareOneMore(
      catalog, supplierId, requests, firstId, n, Prepare(catalog, supplierId, requests[..n], firstId).lines);
  }

  /** What the line made from a request holds. A rate the request leaves out is the product's, then none. */
  ghost predicate LineHolds(line: OrderLine, id: nat, request: LineRequest, product: Product) {
    && line.id == id && line.productId == request.supplierProductId && line.productSupplier == product.supplierId
    && line.inventoryItem == product.inventoryItem && line.ordered == request.quantity && line.received == 0.0
    && line.money == PriceLine(request.quantity, request.unitCost,
                               if request.discountPercent.Some? then request.discountPercent.value else 0.0,
                               if request.vatPercent.Some? then request.vatPercent.value
                               else if product.vat.Some? then product.vat.value else 0.0)
  }

  ghost predicate LinesHold(catalog: Catalog, requests: seq<LineRequest>, firstId: nat, lines: seq<OrderLine>) {
    && |lines| == |requests|
    && (forall k :: 0 <= k < |lines| ==>
          && requests[k].supplierProductId in catalog
          && LineHolds(lines[k], firstId + k, requests[k], catalog[requests[k].supplierProductId]))
  }

  lemma NewLineHolds(product: Product, request: LineRequest, id: nat)
    ensures LineHolds(NewLine(product, request, id), id, request, product)
  {
  }

  lemma LinesHoldWithOneMore(catalog: Catalog, requests: seq<LineRequest>, firstId: nat, lines: seq<OrderLine>, request: LineRequest)
    requires LinesHold(catalog, requests, firstId, lines) && request.supplierProductId in catalog
    ensures LinesHold(catalog, requests + [request], firstId,
                      lines + [NewLine(catalog[request.supplierProductId], request, firstId + |requests|)])
  {
    NewLineHolds(catalog[request.supplierProductId], request, firstId + |requests|);
  }

  lemma {:induction false} PreparedLinesHold(catalog: Catalog, supplierId: nat, requests: seq<LineRequest>, firstId: nat)
    requires Prepare(catalog, supplierId, requests, firstId).Lines?
    ensures LinesHold(catalog, requests, firstId, Prepare(catalog, supplierId, requests, firstId).lines)
  {
    if requests == [] {
    } else {
      var front, last := requests[..|requests| - 1], requests[|requests| - 1];
      PreparedLinesHold(catalog, supplierId, front, firstId);
      LinesHoldWithOneMore(catalog, front, firstId, Prepare(catalog, supplierId, front, firstId).lines, last);
      assert requests == front + [last];
    }
  }

  // ---------------------------------------------------------------- creating and editing

  /** Supplier and delivery location are there and active, and the lines can be made. */
  ghost predicate MayBeOrdered(organization: Organization, request: OrderRequest) {
    && Active(organization.suppliers, request.supplierId) && Active(organization.locations, request.deliveryLocation)
    && AllOrderable(organization.catalog, request.supplierId, request.lines)
  }

  lemma CreatedExactly(organization: Organization, request: OrderRequest)
    ensures CreateStep(organization, request).Created? <==> MayBeOrdered(organization, request)
    ensures Unknown(organization.suppliers, request.supplierId) ==> CreateStep(organization, request) == Rejected(SL.Forbidden)
    ensures Inactive(organization.suppliers, request.supplierId) ==> CreateStep(organization, request) == Rejected(SL.BadRequest)
    ensures Active(organization.suppliers, request.supplierId) ==>
              && (Unknown(organization.locations, request.deliveryLocation) ==> CreateStep(organization, request) == Rejected(SL.Forbidden))
              && (Inactive(organization.locations, request.deliveryLocation) ==> CreateStep(organization, request) == Rejected(SL.BadRequest))
  {
    PreparedExactly(organization.catalog, request.supplierId, request.lines, 0);
  }

  /** The sums of the lines' amounts, and with the delivery fee the rounded grand total. */
  ghost predicate MoneyHolds(o: Order) {
    var money := LineMoney(o.lines);
    && o.totals == Totals(SumSubtotals(money), SumDiscounts(money), SumTaxes(money), SumTotals(money))
    && o.totalAmount == Round2(SumTotals(money) + o.deliveryFee)
  }

  lemma SoundMoneyHolds(o: Order)
    requires OrderSound(o)
    ensures MoneyHolds(o)
  {
    TotalsAreSums(LineMoney(o.lines));
  }

  lemma CreatedOrderHolds(organization: Organization, request: OrderRequest)
    requires ValidRequests(request.lines) && CreateStep(organization, request).Created?
    ensures var o := CreateStep(organization, request).order;
            && o.status == Draft && o.supplierId == request.supplierId && o.deliveryLocation == request.deliveryLocation
            && o.approvedBy == None && !o.sent && !o.cancelled && !o.archived && o.receipts == []
            && o.deliveryFee == (if request.fee.Some? then request.fee.value else 0.0) && o.nextLineId == |request.lines|
            && LinesHold(organization.catalog, request.lines, 0, o.lines) && MoneyHolds(o)
  {
    NewOrderSound(organization, request);
    SoundMoneyHolds(CreateStep(organization, request).order);
    PreparedLinesHold(organization.catalog, request.supplierId, request.lines, 0);
  }

  function SupplierAfter(o: Order, edit: Edit): nat {
    if edit.supplier.Some? then edit.supplier.value else o.supplierId
  }

  ghost predicate MayBeEdited(o: Order, organization: Organization, edit: Edit) {
    && o.status == Draft && !o.archived
    && (edit.supplier.Some? ==> Active(organization.suppliers, edit.supplier.value))
    && (edit.location.Some? ==> Active(organization.locations, edit.location.value))
    && (edit.lines.Some? ==> AllOrderable(organization.catalog, SupplierAfter(o, edit), edit.lines.value))
  }

  lemma EditedExactly(o: Order, organization: Organization, edit: Edit)
    ensures UpdateStep(o, organization, edit).1 == SL.Done <==> MayBeEdited(o, organization, edit)
  {
    if edit.lines.Some? {
      PreparedExactly(organization.catalog, SupplierAfter(o, edit), edit.lines.value, o.nextLineId);
    }
  }

  predicate Unknown(rows: map<nat, bool>, id: nat) { id !in rows }

  predicate Inactive(rows: map<nat, bool>, id: nat) { id in rows && !rows[id] }

  /** The conditions are looked at in this order; one that fails on an order, on an inactive row or on a product is a bad
      request, on an unknown row it is forbidden. */
  lemma EditRefusedAs(o: Order, organization: Organization, edit: Edit)
    ensures var (after, outcome) := UpdateStep(o, organization, edit);
            && (outcome != SL.Done ==> after == o)
            && (o.status != Draft || o.archived ==> outcome == SL.BadRequest)
            && (o.status == Draft && !o.archived ==>
                  && (edit.supplier.Some? && Unknown(organization.suppliers, edit.supplier.value) ==> outcome == SL.Forbidden)
                  && (edit.supplier.Some? && Inactive(organization.suppliers, edit.supplier.value) ==> outcome == SL.BadRequest)
                  && ((edit.supplier.Some? ==> Active(organization.suppliers, edit.supplier.value)) && edit.location.Some? ==>
                        && (Unknown(organization.locations, edit.location.value) ==> outcome == SL.Forbidden)
                        && (Inactive(organization.locations, edit.location.value) ==> outcome == SL.BadRequest)))
  {
  }

  /** An edit sets what it names and leaves the rest: new lines replace all old ones under new ids, and the money is
      that of the resulting lines. */
  lemma EditedOrderHolds(o: Order, organization: Organization, edit: Edit)
    requires OrderSound(o) && UpdateStep(o, organization, edit).1 == SL.Done
    requires edit.lines.Some? ==> ValidRequests(edit.lines.value)
    ensures var after := UpdateStep(o, organization, edit).0;
            && after.status == Draft && !after.archived && after.approvedBy == o.approvedBy && after.sent == o.sent
            && after.cancelled == o.cancelled && after.receipts == o.receipts
            && after.supplierId == SupplierAfter(o, edit)
            && after.deliveryLocation == (if edit.location.Some? then edit.location.value else o.deliveryLocation)
            && after.deliveryFee == (if edit.fee.Some? then edit.fee.value else o.deliveryFee)
            && (edit.lines.None? ==> after.lines == o.lines && after.nextLineId == o.nextLineId)
            && (edit.lines.Some? ==>
                  && LinesHold(organization.catalog, edit.lines.value, o.nextLineId, after.lines)
                  && after.nextLineId == o.nextLineId + |edit.lines.value|)
            && MoneyHolds(after)
  {
    UpdateKeepsSound(o, organization, edit);
    SoundMoneyHolds(UpdateStep(o, organization, edit).0);
    if edit.lines.Some? {
      PreparedLinesHold(organization.catalog, SupplierAfter(o, edit), edit.lines.value, o.nextLineId);
    }
  }

  // ---------------------------------------------------------------- receiving

  /** A receipt line that fits an order line: its item, no more damaged than received, accepted and damaged together
      what was received, and no more than is outstanding, each up to a ten-thousandth. */
  ghost predicate Fits(line: OrderLine, r: ReceiptLine) {
    && line.id == r.lineId && line.inventoryItem == Some(r.itemId) && r.damaged <= r.received
    && Abs(r.accepted + r.damaged - r.received) <= 0.0001
    && line.received + r.received <= line.ordered + 0.0001
  }

  lemma AcceptableExactly(lines: seq<OrderLine>, r: ReceiptLine)
    requires OrderCompletion.DistinctLines(lines)
    ensures Acceptable(lines, r) <==> exists k :: 0 <= k < |lines| && Fits(lines[k], r)
  {
    var found := FindLine(lines, r.lineId);
    if found.Some? {
      assert forall k :: 0 <= k < |lines| && k != found.value ==> lines[k].id != r.lineId;
      assert Acceptable(lines, r) <==> Fits(lines[found.value], r);
    }
  }

  /** The check over all lines of a receipt, in those words. */
  ghost predicate AllFit(lines: seq<OrderLine>, rs: seq<ReceiptLine>) {
    forall r | r in rs :: exists k :: 0 <= k < |lines| && Fits(lines[k], r)
  }

  lemma {:induction false} AllFitExactly(lines: seq<OrderLine>, rs: seq<ReceiptLine>)
    requires OrderCompletion.DistinctLines(lines)
    ensures AllFit(lines, rs) <==> !exists i :: 0 <= i < |rs| && !Acceptable(lines, rs[i])
  {
    forall r | r in rs ensures Acceptable(lines, r) <==> exists k :: 0 <= k < |lines| && Fits(lines[k], r) {
      AcceptableExactly(lines, r);
    }
    assert forall i :: 0 <= i < |rs| ==> rs[i] in rs;
  }

  /** The order is open and not archived, the location active, and every receipt line fits a line of the order as it was
      before and names an active item. An order need be neither approved nor sent. */
  ghost predicate MayBeReceived(o: Order, context: SL.Context, receipt: Receipt) {
    FitsOrder(o, context, receipt) && UsableBefore(context, receipt.locationId, receipt.lines, |receipt.lines|)
  }

  ghost predicate FitsOrder(o: Order, context: SL.Context, receipt: Receipt) {
    && !o.archived && o.status != Cancelled && o.status != FullyReceived && Active(context.locations, receipt.locationId)
    && AllFit(o.lines, receipt.lines)
  }

  ghost predicate FirstUnusableUnknown(context: SL.Context, locationId: nat, rs: seq<ReceiptLine>) {
    exists n :: 0 <= n < |rs| && !SL.Known(context, (rs[n].itemId, locationId)) && UsableBefore(context, locationId, rs, n)
  }

  ghost predicate UsableBefore(context: SL.Context, locationId: nat, rs: seq<ReceiptLine>, n: nat)
    requires n <= |rs|
  {
    forall i :: 0 <= i < n ==> SL.Usable(context, (rs[i].itemId, locationId))
  }

  lemma {:induction false} PostForbiddenExactly(ledger: SL.Ledger, context: SL.Context, locationId: nat, rs: seq<ReceiptLine>)
    ensures Post(ledger, context, locationId, rs) == Refused(SL.Forbidden) <==> FirstUnusableUnknown(context, locationId, rs)
    ensures Post(ledger, context, locationId, rs).Posting? <==> UsableBefore(context, locationId, rs, |rs|)
  {
    if rs == [] {
    } else {
      var front, last := rs[..|rs| - 1], |rs| - 1;
      PostForbiddenExactly(ledger, context, locationId, front);
      assert forall i :: 0 <= i < |front| ==> front[i] == rs[i];
      assert UsableBefore(context, locationId, front, |front|) <==> UsableBefore(context, locationId, rs, last);
      if n :| 0 <= n < |rs| && !SL.Known(context, (rs[n].itemId, locationId)) && UsableBefore(context, locationId, rs, n) {
        if n < last {
          assert UsableBefore(context, locationId, front, n);
        }
      }
      if n :| 0 <= n < |front| && !SL.Known(context, (front[n].itemId, locationId)) && UsableBefore(context, locationId, front, n) {
        assert UsableBefore(context, locationId, rs, n);
      }
    }
  }

  lemma {:induction false} ReceivedExactly(o: Order, ledger: SL.Ledger, context: SL.Context, receipt: Receipt)
    requires OrderCompletion.DistinctLines(o.lines)
    ensures ReceiveStep(o, ledger, context, receipt).2 == SL.Done <==> MayBeReceived(o, context, receipt)
  {
    AllFitExactly(o.lines, receipt.lines);
    PostForbiddenExactly(ledger, context, receipt.locationId, receipt.lines);
  }

  lemma {:induction false} RefusalChangesNothing(o: Order, ledger: SL.Ledger, context: SL.Context, receipt: Receipt)
    ensures var (after, final, outcome) := ReceiveStep(o, ledger, context, receipt);
            outcome != SL.Done ==> after == o && final == ledger
  {
  }

  lemma {:induction false} ForbiddenStep(o: Order, ledger: SL.Ledger, context: SL.Context, receipt: Receipt)
    ensures ReceiveStep(o, ledger, context, receipt).2 == SL.Forbidden <==>
            && !o.archived && o.status != Cancelled && o.status != FullyReceived
            && (|| receipt.locationId !in context.locations
                || (&& context.locations[receipt.locationId]
                    && !(exists i :: 0 <= i < |receipt.lines| && !Acceptable(o.lines, receipt.lines[i]))
                    && Post(ledger, context, receipt.locationId, receipt.lines) == Refused(SL.Forbidden)))
  {
  }

  /** A refusal changes neither order nor stock. It is forbidden exactly when an open order's location is unknown, or, all
      else being right, the first item that may not be booked is unknown. */
  lemma {:induction false} ReceiptRefusedAs(o: Order, ledger: SL.Ledger, context: SL.Context, receipt: Receipt)
    requires OrderCompletion.DistinctLines(o.lines)
    ensures var (after, final, outcome) := ReceiveStep(o, ledger, context, receipt);
            && (outcome != SL.Done ==> after == o && final == ledger)
            && (outcome == SL.Forbidden <==>
                || (!o.archived && o.status != Cancelled && o.status != FullyReceived && receipt.locationId !in context.locations)
                || (FitsOrder(o, context, receipt) && FirstUnusableUnknown(context, receipt.locationId, receipt.lines)))
  {
    RefusalChangesNothing(o, ledger, context, receipt);
    ForbiddenStep(o, ledger, context, receipt);
    AllFitExactly(o.lines, receipt.lines);
    PostForbiddenExactly(ledger, context, receipt.locationId, receipt.lines);
  }

  /** One more receipt line adds what it received to its order line, and what it accepted to its item; one more receipt
      adds its lines' quantities. */
  lemma ReceiptsGrow(rs: seq<ReceiptLine>, r: ReceiptLine, receipts: seq<Receipt>, receipt: Receipt, id: nat)
    ensures TotalFor(rs + [r], id) == TotalFor(rs, id) + (if r.lineId == id then r.received else 0.0)
    ensures AcceptedFor(rs + [r], id) == AcceptedFor(rs, id) + (if r.itemId == id then r.accepted else 0.0)
    ensures LoggedFor(receipts + [receipt], id) == LoggedFor(receipts, id) + TotalFor(receipt.lines, id)
    ensures TotalFor([], id) == AcceptedFor([], id) == LoggedFor([], id) == 0.0
  {
    assert (rs + [r])[..|rs|] == rs;
    assert (receipts + [receipt])[..|receipts|] == receipts;
  }

  /** An accepted receipt raises each line by its total, leaves everything else but the status alone, and makes the
      order fully received exactly when no line has anything outstanding, partially received otherwise. */
  lemma ReceivedOrderHolds(o: Order, ledger: SL.Ledger, context: SL.Context, receipt: Receipt)
    requires OrderSound(o) && ValidReceipt(receipt) && ReceiveStep(o, ledger, context, receipt).2 == SL.Done
    ensures var after := ReceiveStep(o, ledger, context, receipt).0;
            && after == o.(lines := after.lines, status := after.status, receipts := o.receipts + [receipt])
            && |after.lines| == |o.lines|
            && (forall k :: 0 <= k < |o.lines| ==>
                  after.lines[k] == o.lines[k].(received := o.lines[k].received + TotalFor(receipt.lines, o.lines[k].id)))
            && (after.status == FullyReceived <==> forall k :: 0 <= k < |after.lines| ==> after.lines[k].received >= after.lines[k].ordered)
            && (after.status == FullyReceived || after.status == PartiallyReceived)
  {
    AcceptedReceipt(o, ledger, context, receipt);
    ReceiptSettles(o, ledger, context, receipt);
    ReceiveKeepsSound(o, ledger, context, receipt);
  }
}
