/** Goods receipts: what they may bring for an order, what they bring into stock, and what they ignore. */
module GoodsReceipts {
  import opened Collections
  import opened OrderPricing
  import opened PurchaseOrders
  import SL = StockLedger

  // ---------------------------------------------------------------- receipts respect the order

  ghost predicate WithinOrder(lines: seq<OrderLine>) {
    forall k :: 0 <= k < |lines| ==> lines[k].received <= lines[k].ordered + TOLERANCE
  }

  ghost predicate DistinctReceiptLines(rs: seq<ReceiptLine>) {
    forall i, j :: 0 <= i < j < |rs| ==> rs[i].lineId != rs[j].lineId
  }

  lemma {:induction false} DistinctTotal(rs: seq<ReceiptLine>, lineId: nat)
    requires DistinctReceiptLines(rs)
    ensures TotalFor(rs, lineId) == 0.0 || exists r :: r in rs && r.lineId == lineId && TotalFor(rs, lineId) == r.received
    ensures (forall r | r in rs :: r.lineId != lineId) ==> TotalFor(rs, lineId) == 0.0
  {
    if rs == [] {
    } else {
      var front, last := rs[..|rs| - 1], rs[|rs| - 1];
      assert rs == front + [last];
      DistinctTotal(front, lineId);
      if last.lineId == lineId {
        assert forall r | r in front :: r.lineId != lineId;
      }
    }
  }

  /** Without a line occurring twice in one receipt, nothing is ever received beyond the order plus the tolerance. */
  lemma DistinctReceiptStaysWithinOrder(o: Order, ledger: SL.Ledger, context: SL.Context, receipt: Receipt)
    requires OrderSound(o) && WithinOrder(o.lines) && DistinctReceiptLines(receipt.lines)
    requires ReceiveStep(o, ledger, context, receipt).2 == SL.Done
    ensures WithinOrder(ReceiveStep(o, ledger, context, receipt).0.lines)
  {
    AcceptedReceipt(o, ledger, context, receipt);
    forall k | 0 <= k < |o.lines|
      ensures o.lines[k].received + TotalFor(receipt.lines, o.lines[k].id) <= o.lines[k].ordered + TOLERANCE
    {
      LineStaysWithinOrder(o.lines, receipt.lines, k);
    }
  }

  lemma LineStaysWithinOrder(lines: seq<OrderLine>, rs: seq<ReceiptLine>, k: nat)
    requires forall i, j :: 0 <= i < j < |lines| ==> lines[i].id != lines[j].id
    requires WithinOrder(lines) && DistinctReceiptLines(rs) && k < |lines|
    requires forall r | r in rs :: Acceptable(lines, r)
    ensures lines[k].received + TotalFor(rs, lines[k].id) <= lines[k].ordered + TOLERANCE
  {
    DistinctTotal(rs, lines[k].id);
    if r :| r in rs && r.lineId == lines[k].id && TotalFor(rs, lines[k].id) == r.received {
      assert Acceptable(lines, r);
      assert lines[FindLine(lines, r.lineId).value].id == lines[k].id;
    }
  }

  /** Over any run whose receipts each name a line at most once, no line is received beyond its order plus the
      tolerance. */
  lemma {:induction false} DistinctReceiptsNeverExceedOrder(o: Order, ledger: SL.Ledger, ops: seq<Op>)
    requires OrderSound(o) && WithinOrder(o.lines)
    requires forall i :: 0 <= i < |ops| ==> ValidOp(ops[i]) && (ops[i].Receive? ==> DistinctReceiptLines(ops[i].receipt.lines))
    ensures WithinOrder(Run(o, ledger, ops).0.lines)
    decreases |ops|
  {
    if ops == [] {
    } else {
      var next := Step(o, ledger, ops[0]);
      StepKeepsSound(o, ledger, ops[0]);
      if ops[0].Receive? && next.2 == SL.Done {
        DistinctReceiptStaysWithinOrder(o, ledger, ops[0].context, ops[0].receipt);
      } else if ops[0].Update? {
        UpdateStaysWithinOrder(o, ops[0].organization, ops[0].edit);
      }
      DistinctReceiptsNeverExceedOrder(next.0, next.1, ops[1..]);
    }
  }

  lemma UpdateStaysWithinOrder(o: Order, organization: Organization, edit: Edit)
    requires WithinOrder(o.lines) && (edit.lines.Some? ==> ValidRequests(edit.lines.value))
    ensures WithinOrder(UpdateStep(o, organization, edit).0.lines)
  {
    var supplierId := edit.supplier.GetOr(o.supplierId);
    if edit.lines.Some? && Prepare(organization.catalog, supplierId, edit.lines.value, o.nextLineId).Lines? {
      PreparedLines(organization.catalog, supplierId, edit.lines.value, o.nextLineId);
    }
  }

  /** Outstanding quantities are read before the receipt, so a repeated line is checked against the same
      outstanding amount each time. The result stays within the order exactly when each line's total does. */
  lemma ReceiptStaysWithinOrderExactly(o: Order, ledger: SL.Ledger, context: SL.Context, receipt: Receipt)
    requires OrderSound(o) && WithinOrder(o.lines)
    requires ReceiveStep(o, ledger, context, receipt).2 == SL.Done
    ensures WithinOrder(ReceiveStep(o, ledger, context, receipt).0.lines) <==>
            forall k :: 0 <= k < |o.lines| ==>
              TotalFor(receipt.lines, o.lines[k].id) <= o.lines[k].ordered - o.lines[k].received + TOLERANCE
  {
    AcceptedReceipt(o, ledger, context, receipt);
    var after := Received(o.lines, receipt.lines);
    assert forall k :: 0 <= k < |o.lines| ==> after[k].ordered == o.lines[k].ordered;
  }

  /** Quantities with at most three decimals, which is all that validation lets through. */
  predicate Thousandths(x: real) {
    (x * 1000.0).Floor as real == x * 1000.0
  }

  lemma ThousandthsIgnoreTolerance(x: real, y: real)
    requires Thousandths(x) && Thousandths(y)
    ensures x <= y + TOLERANCE <==> x <= y
  {
    var i, j := (x * 1000.0).Floor, (y * 1000.0).Floor;
    assert x * 1000.0 == i as real && y * 1000.0 == j as real;
  }

  /** For such quantities the tolerance allows nothing: received never passes ordered, and accepted plus
      damaged is exactly what was received. */
  lemma ToleranceIsInert(lines: seq<OrderLine>, r: ReceiptLine)
    requires Acceptable(lines, r)
    requires Thousandths(r.received) && Thousandths(r.accepted) && Thousandths(r.damaged)
    requires forall k :: 0 <= k < |lines| ==> Thousandths(lines[k].ordered) && Thousandths(lines[k].received)
    ensures r.accepted + r.damaged == r.received
    ensures var line := lines[FindLine(lines, r.lineId).value]; line.received + r.received <= line.ordered
  {
    var line := lines[FindLine(lines, r.lineId).value];
    SumIgnoresTolerance(r.accepted, r.damaged, r.received);
    SumIgnoresTolerance(line.received, r.received, line.ordered);
  }

  lemma SumIgnoresTolerance(x: real, y: real, total: real)
    requires Thousandths(x) && Thousandths(y) && Thousandths(total)
    ensures x + y <= total + TOLERANCE <==> x + y <= total
    ensures total <= x + y + TOLERANCE <==> total <= x + y
  {
    ThousandthsAdd(x, y);
    ThousandthsIgnoreTolerance(x + y, total);
    ThousandthsIgnoreTolerance(total, x + y);
  }

  lemma ThousandthsAdd(x: real, y: real)
    requires Thousandths(x) && Thousandths(y)
    ensures Thousandths(x + y)
  {
    WholeThousandths(x + y, (x * 1000.0).Floor + (y * 1000.0).Floor);
  }

  lemma WholeThousandths(x: real, n: int)
    requires x * 1000.0 == n as real
    ensures Thousandths(x)
  {
  }

  /** Stock rises by exactly what was accepted, item by item, and nowhere else. */
  lemma {:induction false} StockRisesByAccepted(ledger: SL.Ledger, context: SL.Context, locationId: nat, rs: seq<ReceiptLine>, slot: SL.Slot)
    requires Post(ledger, context, locationId, rs).Posting?
    requires forall r | r in rs :: r.accepted >= 0.0
    ensures SL.OnHand(Post(ledger, context, locationId, rs).ledger.levels, slot) ==
            SL.OnHand(ledger.levels, slot) + (if slot.1 == locationId then AcceptedFor(rs, slot.0) else 0.0)
  {
    if rs == [] {
    } else {
      var front, last := rs[..|rs| - 1], rs[|rs| - 1];
      assert rs == front + [last];
      StockRisesByAccepted(ledger, context, locationId, front, slot);
    }
  }

  /** So an accepted receipt raises the stock of each of its items at its location by the accepted total, and
      touches no other stock. */
  lemma ReceiptRaisesStock(o: Order, ledger: SL.Ledger, context: SL.Context, receipt: Receipt, slot: SL.Slot)
    requires ValidOp(Receive(context, receipt)) && ReceiveStep(o, ledger, context, receipt).2 == SL.Done
    ensures SL.OnHand(ReceiveStep(o, ledger, context, receipt).1.levels, slot) ==
            SL.OnHand(ledger.levels, slot) + (if slot.1 == receipt.locationId then AcceptedFor(receipt.lines, slot.0) else 0.0)
  {
    AcceptedReceipt(o, ledger, context, receipt);
    StockRisesByAccepted(ledger, context, receipt.locationId, receipt.lines, slot);
  }

  ghost predicate SomeLineUnlinked(lines: seq<OrderLine>) {
    exists k :: 0 <= k < |lines| && lines[k].inventoryItem.None? && lines[k].received == 0.0
  }

  lemma UnlinkedLineIsNeverNamed(lines: seq<OrderLine>, rs: seq<ReceiptLine>, k: nat)
    requires forall i, j :: 0 <= i < j < |lines| ==> lines[i].id != lines[j].id
    requires k < |lines| && lines[k].inventoryItem.None?
    requires forall r | r in rs :: Acceptable(lines, r)
    ensures TotalFor(rs, lines[k].id) == 0.0
  {
    forall r | r in rs ensures r.lineId != lines[k].id {
      assert Acceptable(lines, r);
      var found := FindLine(lines, r.lineId).value;
      assert lines[found].id == r.lineId;
    }
    NoReceiptNoTotal(rs, lines[k].id);
  }

  lemma UnlinkedLineGetsNothing(o: Order, ledger: SL.Ledger, context: SL.Context, receipt: Receipt, k: nat)
    requires OrderSound(o) && k < |o.lines| && o.lines[k].inventoryItem.None?
    requires ReceiveStep(o, ledger, context, receipt).2 == SL.Done
    ensures ReceiveStep(o, ledger, context, receipt).0.lines[k] == o.lines[k]
  {
    AcceptedReceipt(o, ledger, context, receipt);
    UnlinkedLineIsNeverNamed(o.lines, receipt.lines, k);
    assert Received(o.lines, receipt.lines)[k] == o.lines[k].(received := o.lines[k].received + 0.0);
  }

  /** An order with a line that matches no inventory item can never become fully received, whatever is
      done to it, unless its lines are replaced while it is a draft. */
  lemma {:induction false} UnlinkedOrderNeverCompletes(o: Order, ledger: SL.Ledger, ops: seq<Op>)
    requires OrderSound(o) && SomeLineUnlinked(o.lines)
    requires forall i :: 0 <= i < |ops| ==> ValidOp(ops[i]) && !(ops[i].Update? && ops[i].edit.lines.Some?)
    ensures Run(o, ledger, ops).0.status != FullyReceived
    decreases |ops|
  {
    var k :| 0 <= k < |o.lines| && o.lines[k].inventoryItem.None? && o.lines[k].received == 0.0;
    assert !AllCovered(o.lines);
    if ops == [] {
    } else {
      var next := Step(o, ledger, ops[0]).0;
      StepKeepsSound(o, ledger, ops[0]);
      UnlinkedLineStays(o, ledger, ops[0], k);
      assert SomeLineUnlinked(next.lines);
      UnlinkedOrderNeverCompletes(next, Step(o, ledger, ops[0]).1, ops[1..]);
    }
  }

  lemma UnlinkedLineStays(o: Order, ledger: SL.Ledger, op: Op, k: nat)
    requires OrderSound(o) && ValidOp(op) && !(op.Update? && op.edit.lines.Some?)
    requires k < |o.lines| && o.lines[k].inventoryItem.None?
    ensures k < |Step(o, ledger, op).0.lines| && Step(o, ledger, op).0.lines[k] == o.lines[k]
  {
    if op.Receive? && Step(o, ledger, op).2 == SL.Done {
      UnlinkedLineGetsNothing(o, ledger, op.context, op.receipt, k);
      AcceptedReceipt(o, ledger, op.context, op.receipt);
    }
  }

  // ---------------------------------------------------------------- what the receipts add up to

  /** What all receipts together brought into a stock slot. */
  function AcceptedInto(receipts: seq<Receipt>, slot: SL.Slot): real {
    if receipts == [] then 0.0
    else
      var last := receipts[|receipts| - 1];
      AcceptedInto(receipts[..|receipts| - 1], slot) + (if last.locationId == slot.1 then AcceptedFor(last.lines, slot.0) else 0.0)
  }

  /** From any order and ledger on, over any run, what an order's receipts accepted into a slot is what the stock there has risen by;
      and each line has received exactly what the receipts say. */
  lemma {:induction false} ReceiptsAccountForEverything(o: Order, ledger: SL.Ledger, ops: seq<Op>, slot: SL.Slot)
    requires OrderSound(o) && forall i :: 0 <= i < |ops| ==> ValidOp(ops[i])
    ensures var (after, final) := Run(o, ledger, ops);
            && SL.OnHand(final.levels, slot) - SL.OnHand(ledger.levels, slot) ==
               AcceptedInto(after.receipts, slot) - AcceptedInto(o.receipts, slot)
            && (forall k :: 0 <= k < |after.lines| ==> after.lines[k].received == LoggedFor(after.receipts, after.lines[k].id))
            && o.receipts <= after.receipts
    decreases |ops|
  {
    if ops == [] {
    } else {
      var next := Step(o, ledger, ops[0]);
      StepKeepsSound(o, ledger, ops[0]);
      StepAccounts(o, ledger, ops[0], slot);
      ReceiptsAccountForEverything(next.0, next.1, ops[1..], slot);
    }
  }

  lemma StepAccounts(o: Order, ledger: SL.Ledger, op: Op, slot: SL.Slot)
    requires ValidOp(op)
    ensures var (after, final, _) := Step(o, ledger, op);
            && SL.OnHand(final.levels, slot) - SL.OnHand(ledger.levels, slot) ==
               AcceptedInto(after.receipts, slot) - AcceptedInto(o.receipts, slot)
            && o.receipts <= after.receipts
  {
    if op.Receive? && Step(o, ledger, op).2 == SL.Done {
      AcceptedReceipt(o, ledger, op.context, op.receipt);
      ReceiptRaisesStock(o, ledger, op.context, op.receipt, slot);
      var after := Step(o, ledger, op).0;
      assert after.receipts[..|o.receipts|] == o.receipts;
    }
  }

  // ---------------------------------------------------------------- receipts do not look at approval

  /** A received order is approved exactly when it was approved or sent at its first receipt, whatever is done to
      it afterwards: receipts do not look at approval, and nothing approves an order later. */
  lemma ReceivedIsApprovedExactly(o: Order, ledger: SL.Ledger, context: SL.Context, receipt: Receipt, ops: seq<Op>)
    requires OrderSound(o) && !Settled(o.status) && ValidReceipt(receipt)
    requires ReceiveStep(o, ledger, context, receipt).2 == SL.Done
    requires forall i :: 0 <= i < |ops| ==> ValidOp(ops[i])
    ensures var (received, stocked, _) := ReceiveStep(o, ledger, context, receipt);
            Run(received, stocked, ops).0.approvedBy.Some? <==> o.status == Approved || o.status == Sent
  {
    var (received, stocked, _) := ReceiveStep(o, ledger, context, receipt);
    ReceiptSettles(o, ledger, context, receipt);
    ReceiveKeepsSound(o, ledger, context, receipt);
    LifecycleLaws(received, stocked, ops);
  }

  // ---------------------------------------------------------------- orders that show it

  /** A sound draft from supplier 3 for ten of one product, which is inventory item 5. */
  ghost predicate DraftForTen(o: Order) {
    && OrderSound(o) && o.status == Draft && !o.archived && o.supplierId == 3 && LinesFromSupplier(o)
    && |o.lines| == 1 && o.lines[0].id == 0 && o.lines[0].inventoryItem == Some(5)
    && o.lines[0].ordered == 10.0 && o.lines[0].received == 0.0
  }

  /** Creating an order makes one: ten of product 7, which supplier 3 sells and which is item 5. */
  lemma DraftForTenIsCreated(organization: Organization, request: OrderRequest, wanted: LineRequest)
    requires Active(organization.suppliers, 3) && Active(organization.locations, request.deliveryLocation)
    requires Orderable(organization.catalog, 3, 7) && organization.catalog[7].inventoryItem == Some(5)
    requires request.supplierId == 3 && request.lines == [wanted] && wanted.supplierProductId == 7 && wanted.quantity == 10.0
    ensures CreateStep(organization, request).Created? && DraftForTen(CreateStep(organization, request).order)
  {
    OneLinePrepared(organization.catalog, request.lines);
    NewOrderSound(organization, request);
  }

  lemma OneLinePrepared(catalog: Catalog, requests: seq<LineRequest>)
    requires |requests| == 1 && Orderable(catalog, 3, requests[0].supplierProductId)
    ensures Prepare(catalog, 3, requests, 0) == Lines([NewLine(catalog[requests[0].supplierProductId], requests[0], 0)])
  {
    assert Prepare(catalog, 3, requests[..0], 0) == Lines([]);
  }

  /** Any number of receipt lines for one active item at an active location can be posted. */
  lemma {:induction false} SameLinePosted(ledger: SL.Ledger, context: SL.Context, locationId: nat, lines: seq<ReceiptLine>, r: ReceiptLine)
    requires SL.Usable(context, (r.itemId, locationId))
    requires forall i :: 0 <= i < |lines| ==> lines[i] == r
    ensures Post(ledger, context, locationId, lines).Posting?
    ensures TotalFor(lines, r.lineId) == r.received * |lines| as real
  {
    if lines == [] {
    } else {
      SameLinePosted(ledger, context, locationId, lines[..|lines| - 1], r);
    }
  }

  /** Its ten, received n times over in one receipt: each line is checked against the ten outstanding, so all
      is accepted. */
  lemma TenReceived(o: Order, ledger: SL.Ledger, context: SL.Context, receipt: Receipt)
    requires DraftForTen(o) && receipt.lines != []
    requires SL.Usable(context, (5, receipt.locationId))
    requires forall i :: 0 <= i < |receipt.lines| ==> receipt.lines[i] == ReceiptLine(0, 5, 10.0, 10.0, 0.0)
    ensures ValidReceipt(receipt)
    ensures var (after, final, outcome) := ReceiveStep(o, ledger, context, receipt);
            && outcome == SL.Done && after.approvedBy == None && Settled(after.status)
            && |after.lines| == 1 && after.lines[0].received == 10.0 * |receipt.lines| as real && after.lines[0].ordered == 10.0
  {
    var r := ReceiptLine(0, 5, 10.0, 10.0, 0.0);
    SameLinePosted(ledger, context, receipt.locationId, receipt.lines, r);
    assert FindLine(o.lines, 0) == Some(0);
    assert Acceptable(o.lines, r);
    AcceptedReceipt(o, ledger, context, receipt);
    ReceiptSettles(o, ledger, context, receipt);
    assert Received(o.lines, receipt.lines)[0].received == 0.0 + TotalFor(receipt.lines, 0);
  }

  /** The draft is received, and nobody has approved it. */
  lemma DraftIsReceived(o: Order, ledger: SL.Ledger, context: SL.Context, receipt: Receipt)
    requires DraftForTen(o) && SL.Usable(context, (5, receipt.locationId))
    requires receipt.lines == [ReceiptLine(0, 5, 10.0, 10.0, 0.0)]
    ensures var (after, final, outcome) := ReceiveStep(o, ledger, context, receipt);
            outcome == SL.Done && after.status == FullyReceived && after.approvedBy.None?
  {
    TenReceived(o, ledger, context, receipt);
    AcceptedReceipt(o, ledger, context, receipt);
  }

  /** Ten ordered, and ten received twice in one receipt: all is accepted. */
  lemma RepeatedLineOverReceives(o: Order, ledger: SL.Ledger, context: SL.Context, receipt: Receipt)
    requires DraftForTen(o) && SL.Usable(context, (5, receipt.locationId))
    requires receipt.lines == [ReceiptLine(0, 5, 10.0, 10.0, 0.0), ReceiptLine(0, 5, 10.0, 10.0, 0.0)]
    ensures WithinOrder(o.lines)
    ensures var (after, final, outcome) := ReceiveStep(o, ledger, context, receipt);
            outcome == SL.Done && |after.lines| == 1 && after.lines[0].received == 20.0 && !WithinOrder(after.lines)
  {
    TenReceived(o, ledger, context, receipt);
  }

  /** Giving the draft to supplier 4 leaves supplier 3's product on it. */
  lemma SupplierEditMixesSuppliers(o: Order, organization: Organization, edit: Edit)
    requires DraftForTen(o) && 4 in organization.suppliers && organization.suppliers[4]
    requires edit.supplier == Some(4) && edit.location.None? && edit.lines.None?
    ensures UpdateStep(o, organization, edit).1 == SL.Done && !LinesFromSupplier(UpdateStep(o, organization, edit).0)
  {
    EditKeepsSupplierExactly(o, organization, edit);
  }
}
