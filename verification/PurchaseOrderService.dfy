/** One purchase order as the service keeps it, changed in place and tied to the transitions on values. */
module PurchaseOrderServices {
  import opened Collections
  import opened OrderPricing
  import opened PurchaseOrders
  import SL = StockLedger

  lemma {:induction false} FaultStays(catalog: Catalog, supplierId: nat, requests: seq<LineRequest>, firstId: nat, n: nat)
    requires n <= |requests| && Prepare(catalog, supplierId, requests[..n], firstId).Fault?
    ensures Prepare(catalog, supplierId, requests, firstId) == Prepare(catalog, supplierId, requests[..n], firstId)
    decreases |requests|
  {
    if n == |requests| {
      assert requests[..n] == requests;
    } else {
      var front := requests[..|requests| - 1];
      assert front[..n] == requests[..n];
      FaultStays(catalog, supplierId, front, firstId, n);
    }
  }

  /** What preparing one more line amounts to. */
  lemma PrepareOneMore(catalog: Catalog, supplierId: nat, requests: seq<LineRequest>, firstId: nat, i: nat, ready: seq<OrderLine>)
    requires i < |requests| && Prepare(catalog, supplierId, requests[..i], firstId) == Lines(ready)
    ensures var request, check := requests[i], CheckProduct(catalog, supplierId, requests[i].supplierProductId);
            var next := Prepare(catalog, supplierId, requests[..i + 1], firstId);
            if exists k :: 0 <= k < i && requests[k].supplierProductId == request.supplierProductId
            then next == Fault(SL.BadRequest)
            else if check != SL.Done then next == Fault(check)
            else next == Lines(ready + [NewLine(catalog[request.supplierProductId], request, firstId + i)])
  {
    var some := requests[..i + 1];
    assert some[..i] == requests[..i] && some[i] == requests[i];
    assert forall k :: 0 <= k < i ==> requests[..i][k] == requests[k];
  }

  lemma {:induction false} RefusalStays(ledger: SL.Ledger, context: SL.Context, locationId: nat, rs: seq<ReceiptLine>, n: nat)
    requires n <= |rs| && Post(ledger, context, locationId, rs[..n]).Refused?
    ensures Post(ledger, context, locationId, rs) == Post(ledger, context, locationId, rs[..n])
    decreases |rs|
  {
    if n == |rs| {
      assert rs[..n] == rs;
    } else {
      var front := rs[..|rs| - 1];
      assert front[..n] == rs[..n];
      RefusalStays(ledger, context, locationId, front, n);
    }
  }

  /** Writing one line's increment is what one more receipt line does, since line ids are distinct. */
  lemma OneMoreReceived(lines: seq<OrderLine>, rs: seq<ReceiptLine>, k: nat, r: ReceiptLine)
    requires forall i, j :: 0 <= i < j < |lines| ==> lines[i].id != lines[j].id
    requires k < |lines| && lines[k].id == r.lineId
    ensures Raised(Received(lines, rs), k, r.received) == Received(lines, rs + [r])
  {
    assert (rs + [r])[..|rs|] == rs;
    var before, after := Received(lines, rs), Received(lines, rs + [r]);
    forall j | 0 <= j < |lines|
      ensures after[j] == if j == k then before[k].(received := before[k].received + r.received) else before[j]
    {
    }
    assert Raised(before, k, r.received) == after;
  }

  function Raised(lines: seq<OrderLine>, k: nat, quantity: real): seq<OrderLine>
    requires k < |lines|
  {
    lines[k := lines[k].(received := lines[k].received + quantity)]
  }

  /** What booking one more receipt line does to the lines, and to the stock. */
  lemma {:induction false} LinesAfterOneMore(lines: seq<OrderLine>, rs: seq<ReceiptLine>, i: nat)
    requires forall j, k :: 0 <= j < k < |lines| ==> lines[j].id != lines[k].id
    requires i < |rs| && Acceptable(lines, rs[i])
    ensures FindLine(Received(lines, rs[..i]), rs[i].lineId) == FindLine(lines, rs[i].lineId)
    ensures Raised(Received(lines, rs[..i]), FindLine(lines, rs[i].lineId).value, rs[i].received) == Received(lines, rs[..i + 1])
  {
    assert rs[..i + 1] == rs[..i] + [rs[i]];
    SameLineFound(lines, Received(lines, rs[..i]), rs[i].lineId);
    OneMoreReceived(lines, rs[..i], FindLine(lines, rs[i].lineId).value, rs[i]);
  }

  lemma StockAfterOneMore(ledger: SL.Ledger, booked: SL.Ledger, context: SL.Context, locationId: nat, rs: seq<ReceiptLine>, i: nat)
    requires i < |rs| && Post(ledger, context, locationId, rs[..i]) == Posting(booked)
    ensures var (next, outcome) := SL.ReceiveStep(booked, context, (rs[i].itemId, locationId), rs[i].accepted, rs[i].damaged);
            if outcome == SL.Done then Post(ledger, context, locationId, rs[..i + 1]) == Posting(next)
            else Post(ledger, context, locationId, rs) == Refused(outcome)
  {
    assert rs[..i + 1][..i] == rs[..i];
    if Post(ledger, context, locationId, rs[..i + 1]).Refused? {
      RefusalStays(ledger, context, locationId, rs, i + 1);
    }
  }

  class PurchaseOrderService {
    const inventory: SL.InventoryService
    var status: Status
    var supplierId: nat
    var deliveryLocation: nat
    var approvedBy: Option<nat>
    var sent: bool
    var cancelled: bool
    var archived: bool
    var lines: seq<OrderLine>
    var nextLineId: nat
    var deliveryFee: real
    var totals: Totals
    var totalAmount: real
    var receipts: seq<Receipt>

    ghost function Value(): Order
      reads this
    {
      Order(status, supplierId, deliveryLocation, approvedBy, sent, cancelled, archived, lines, nextLineId, deliveryFee,
            totals, totalAmount, receipts)
    }

    ghost predicate Valid()
      reads this, inventory
    {
      OrderSound(Value()) && SL.Sound(inventory.Value())
    }

    constructor (inventory: SL.InventoryService, supplierId: nat, deliveryLocation: nat, lines: seq<OrderLine>, deliveryFee: Option<real>)
      ensures Value() == NewOrder(supplierId, deliveryLocation, lines, deliveryFee)
      ensures this.inventory == inventory
    {
      this.inventory, this.supplierId, this.lines, this.nextLineId := inventory, supplierId, lines, |lines|;
      status, approvedBy, sent, cancelled, archived, receipts := Draft, None, false, false, false, [];
      this.deliveryLocation := deliveryLocation;
      this.deliveryFee := deliveryFee.GetOr(0.0);
      totals := OrderTotals(LineMoney(lines));
      totalAmount := GrandTotal(LineMoney(lines), deliveryFee.GetOr(0.0));
    }

    static method PrepareLineItems(catalog: Catalog, supplierId: nat, requests: seq<LineRequest>, firstId: nat) returns (prepared: Prepared)
      ensures prepared == Prepare(catalog, supplierId, requests, firstId)
    {
      var ready: seq<OrderLine> := [];
      var seen: set<nat> := {};
      for i := 0 to |requests|
        invariant Prepare(catalog, supplierId, requests[..i], firstId) == Lines(ready)
        invariant forall id :: id in seen <==> exists k :: 0 <= k < i && requests[k].supplierProductId == id
      {
        var request := requests[i];
        PrepareOneMore(catalog, supplierId, requests, firstId, i, ready);
        if request.supplierProductId in seen {
          FaultStays(catalog, supplierId, requests, firstId, i + 1);
          return Fault(SL.BadRequest);
        }
        var check := CheckProduct(catalog, supplierId, request.supplierProductId);
        if check != SL.Done {
          FaultStays(catalog, supplierId, requests, firstId, i + 1);
          return Fault(check);
        }
        seen := seen + {request.supplierProductId};
        ready := ready + [NewLine(catalog[request.supplierProductId], request, firstId + i)];
      }
      assert requests[..|requests|] == requests;
      prepared := Lines(ready);
    }

    static method Create(inventory: SL.InventoryService, organization: Organization, request: OrderRequest)
      returns (order: PurchaseOrderService?, outcome: Outcome)
      requires ValidRequests(request.lines) && SL.Sound(inventory.Value())
      ensures match CreateStep(organization, request)
              case Rejected(why) => outcome == why && order == null
              case Created(created) =>
                && outcome == SL.Done && order != null && order.inventory == inventory && order.Valid()
                && order.Value() == created
    {
      outcome := CheckActive(organization.suppliers, request.supplierId);
      if outcome != SL.Done {
        return null, outcome;
      }
      outcome := CheckActive(organization.locations, request.deliveryLocation);
      if outcome != SL.Done {
        return null, outcome;
      }
      var prepared := PrepareLineItems(organization.catalog, request.supplierId, request.lines, 0);
      match prepared
      case Fault(why) => order, outcome := null, why;
      case Lines(lines) =>
        NewOrderSound(organization, request);
        order := new PurchaseOrderService(inventory, request.supplierId, request.deliveryLocation, lines, request.fee);
    }

    method SubmitForApproval() returns (outcome: Outcome)
      requires Valid()
      modifies this
      ensures (Value(), inventory.Value(), outcome) == Step(old(Value()), old(inventory.Value()), Submit)
      ensures Valid()
    {
      StepKeepsSound(Value(), inventory.Value(), Submit);
      if status != Draft || archived {
        return SL.BadRequest;
      }
      status := PendingApproval;
      outcome := SL.Done;
    }

    method ApproveOrder(userId: nat) returns (outcome: Outcome)
      requires Valid()
      modifies this
      ensures (Value(), inventory.Value(), outcome) == Step(old(Value()), old(inventory.Value()), Approve(userId))
      ensures Valid()
    {
      StepKeepsSound(Value(), inventory.Value(), Approve(userId));
      if status != PendingApproval || archived {
        return SL.BadRequest;
      }
      status, approvedBy := Approved, Some(userId);
      outcome := SL.Done;
    }

    method ReturnOrderToDraft() returns (outcome: Outcome)
      requires Valid()
      modifies this
      ensures (Value(), inventory.Value(), outcome) == Step(old(Value()), old(inventory.Value()), ReturnToDraft)
      ensures Valid()
    {
      StepKeepsSound(Value(), inventory.Value(), ReturnToDraft);
      if status != PendingApproval {
        return SL.BadRequest;
      }
      status, approvedBy := Draft, None;
      outcome := SL.Done;
    }

    method MarkOrderSent() returns (outcome: Outcome)
      requires Valid()
      modifies this
      ensures (Value(), inventory.Value(), outcome) == Step(old(Value()), old(inventory.Value()), MarkSent)
      ensures Valid()
    {
      StepKeepsSound(Value(), inventory.Value(), MarkSent);
      if status != Approved || archived {
        return SL.BadRequest;
      }
      status, sent := Sent, true;
      outcome := SL.Done;
    }

    method CancelOrder() returns (outcome: Outcome)
      requires Valid()
      modifies this
      ensures (Value(), inventory.Value(), outcome) == Step(old(Value()), old(inventory.Value()), Cancel)
      ensures Valid()
    {
      StepKeepsSound(Value(), inventory.Value(), Cancel);
      if status == FullyReceived || status == Cancelled {
        return SL.BadRequest;
      }
      status, cancelled := Cancelled, true;
      outcome := SL.Done;
    }

    method ArchiveOrder() returns (outcome: Outcome)
      requires Valid()
      modifies this
      ensures (Value(), inventory.Value(), outcome) == Step(old(Value()), old(inventory.Value()), Archive)
      ensures Valid()
    {
      StepKeepsSound(Value(), inventory.Value(), Archive);
      if archived {
        return SL.BadRequest;
      }
      archived := true;
      outcome := SL.Done;
    }

    method RestoreOrder() returns (outcome: Outcome)
      requires Valid()
      modifies this
      ensures (Value(), inventory.Value(), outcome) == Step(old(Value()), old(inventory.Value()), Restore)
      ensures Valid()
    {
      StepKeepsSound(Value(), inventory.Value(), Restore);
      if !archived {
        return SL.BadRequest;
      }
      archived := false;
      outcome := SL.Done;
    }

    method UpdateDraft(organization: Organization, edit: Edit) returns (outcome: Outcome)
      requires Valid() && ValidOp(Update(organization, edit))
      modifies this
      ensures (Value(), inventory.Value(), outcome) ==
              Step(old(Value()), old(inventory.Value()), Update(organization, edit))
      ensures Valid()
    {
      UpdateKeepsSound(Value(), organization, edit);
      if status != Draft || archived {
        return SL.BadRequest;
      }
      if edit.supplier.Some? {
        outcome := CheckActive(organization.suppliers, edit.supplier.value);
        if outcome != SL.Done {
          return;
        }
      }
      if edit.location.Some? {
        outcome := CheckActive(organization.locations, edit.location.value);
        if outcome != SL.Done {
          return;
        }
      }
      outcome := WriteDraft(organization, edit);
    }

    method WriteDraft(organization: Organization, edit: Edit) returns (outcome: Outcome)
      requires status == Draft && !archived && CheckEdit(organization, edit) == SL.Done
      modifies this
      ensures (Value(), outcome) == UpdateStep(old(Value()), organization, edit)
    {
      var nextSupplier := edit.supplier.GetOr(supplierId);
      var prepared := Lines(lines);
      if edit.lines.Some? {
        prepared := PrepareLineItems(organization.catalog, nextSupplier, edit.lines.value, nextLineId);
        if prepared.Fault? {
          return prepared.outcome;
        }
        nextLineId := nextLineId + |prepared.lines|;
      }
      WriteLines(nextSupplier, edit.location.GetOr(deliveryLocation), prepared.lines, edit.fee.GetOr(deliveryFee));
      outcome := SL.Done;
    }

    method WriteLines(supplierId: nat, deliveryLocation: nat, lines: seq<OrderLine>, deliveryFee: real)
      modifies this`supplierId, this`deliveryLocation, this`lines, this`deliveryFee, this`totals, this`totalAmount
      ensures Value() == old(Value()).(supplierId := supplierId, deliveryLocation := deliveryLocation, lines := lines,
                                       deliveryFee := deliveryFee, totals := OrderTotals(LineMoney(lines)),
                                       totalAmount := GrandTotal(LineMoney(lines), deliveryFee))
    {
      this.supplierId, this.deliveryLocation, this.lines, this.deliveryFee := supplierId, deliveryLocation, lines, deliveryFee;
      totals, totalAmount := OrderTotals(LineMoney(lines)), GrandTotal(LineMoney(lines), deliveryFee);
    }

    /** One receipt line: raises the order line, then books the stock. A refusal leaves the stock alone. */
    method BookReceiptLine(context: SL.Context, locationId: nat, r: ReceiptLine) returns (outcome: Outcome)
      requires FindLine(lines, r.lineId).Some?
      requires r.accepted >= 0.0 && r.damaged >= 0.0
      modifies this`lines, inventory
      ensures var k := FindLine(old(lines), r.lineId).value;
              lines == Raised(old(lines), k, r.received)
      ensures (inventory.Value(), outcome) ==
              SL.ReceiveStep(old(inventory.Value()), context, (r.itemId, locationId), r.accepted, r.damaged)
    {
      var k := FindLine(lines, r.lineId).value;
      lines := lines[k := lines[k].(received := lines[k].received + r.received)];
      outcome := inventory.ApplyGoodsReceiptMovements(context, (r.itemId, locationId), r.accepted, r.damaged);
    }

    /** Books the receipt lines one after another; on a refusal everything is as before. */
    method BookReceipt(context: SL.Context, receipt: Receipt) returns (outcome: Outcome)
      requires forall i, j :: 0 <= i < j < |lines| ==> lines[i].id != lines[j].id
      requires forall i :: 0 <= i < |receipt.lines| ==> Acceptable(lines, receipt.lines[i])
      requires forall r | r in receipt.lines :: r.accepted >= 0.0 && r.damaged >= 0.0
      modifies this`lines, inventory
      ensures match Post(old(inventory.Value()), context, receipt.locationId, receipt.lines)
              case Refused(why) => outcome == why && lines == old(lines) && inventory.Value() == old(inventory.Value())
              case Posting(posted) =>
                outcome == SL.Done && lines == Received(old(lines), receipt.lines) && inventory.Value() == posted
    {
      var savedLines, savedLevels, savedMovements := lines, inventory.levels, inventory.movements;
      ghost var ledger := inventory.Value();
      assert Received(lines, []) == lines;
      for i := 0 to |receipt.lines|
        invariant lines == Received(savedLines, receipt.lines[..i])
        invariant Post(ledger, context, receipt.locationId, receipt.lines[..i]) == Posting(inventory.Value())
      {
        var r := receipt.lines[i];
        LinesAfterOneMore(savedLines, receipt.lines, i);
        StockAfterOneMore(ledger, inventory.Value(), context, receipt.locationId, receipt.lines, i);
        outcome := BookReceiptLine(context, receipt.locationId, r);
        if outcome != SL.Done {
          lines, inventory.levels, inventory.movements := savedLines, savedLevels, savedMovements;
          return;
        }
      }
      assert receipt.lines[..|receipt.lines|] == receipt.lines;
      outcome := SL.Done;
    }

    method CheckLines(receipt: Receipt) returns (ok: bool)
      ensures ok <==> forall i :: 0 <= i < |receipt.lines| ==> Acceptable(lines, receipt.lines[i])
    {
      for i := 0 to |receipt.lines|
        invariant forall j :: 0 <= j < i ==> Acceptable(lines, receipt.lines[j])
      {
        if !Acceptable(lines, receipt.lines[i]) {
          return false;
        }
      }
      ok := true;
    }

    method ReceiveGoods(context: SL.Context, receipt: Receipt) returns (outcome: Outcome)
      requires forall i, j :: 0 <= i < j < |lines| ==> lines[i].id != lines[j].id
      requires ValidReceipt(receipt)
      modifies this`lines, this`status, this`receipts, inventory
      ensures (Value(), inventory.Value(), outcome) == ReceiveStep(old(Value()), old(inventory.Value()), context, receipt)
    {
      if archived || status == Cancelled || status == FullyReceived {
        return SL.BadRequest;
      }
      outcome := CheckActive(context.locations, receipt.locationId);
      if outcome != SL.Done {
        return;
      }
      var ok := CheckLines(receipt);
      if !ok {
        return SL.BadRequest;
      }
      outcome := BookReceipt(context, receipt);
      if outcome == SL.Done {
        receipts := receipts + [receipt];
        status := NextStatus(status, lines);
      }
    }

    method CreateGoodsReceipt(context: SL.Context, receipt: Receipt) returns (outcome: Outcome)
      requires Valid() && ValidOp(Receive(context, receipt))
      modifies this, inventory
      ensures (Value(), inventory.Value(), outcome) == Step(old(Value()), old(inventory.Value()), Receive(context, receipt))
      ensures Valid()
    {
      ReceiveKeepsSound(Value(), inventory.Value(), context, receipt);
      ReceiveKeepsLedger(Value(), inventory.Value(), context, receipt);
      outcome := ReceiveGoods(context, receipt);
    }
  }

  lemma ReceiveKeepsLedger(o: Order, ledger: SL.Ledger, context: SL.Context, receipt: Receipt)
    requires SL.Sound(ledger) && ValidReceipt(receipt)
    ensures SL.Sound(ReceiveStep(o, ledger, context, receipt).1)
  {
    PostKeepsLedger(ledger, context, receipt.locationId, receipt.lines);
  }

  lemma {:induction false} SameLineFound(before: seq<OrderLine>, after: seq<OrderLine>, id: nat)
    requires |before| == |after| && forall k :: 0 <= k < |before| ==> before[k].id == after[k].id
    ensures FindLine(before, id) == FindLine(after, id)
  {
    if before == [] {
    } else {
      SameLineFound(before[..|before| - 1], after[..|after| - 1], id);
    }
  }
}
