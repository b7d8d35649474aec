/** Purchase orders as values: lines, lifecycle, goods receipts, and what holds after any run. */
module PurchaseOrders {
  import opened Collections
  import opened Rounding
  import opened OrderPricing
  import SL = StockLedger

  type Outcome = SL.Outcome

  datatype Status = Draft | PendingApproval | Approved | Sent | PartiallyReceived | FullyReceived | Cancelled

  /** An order line. `productSupplier` is the supplier its product belonged to when the line was made. */
  datatype OrderLine = OrderLine(
    id: nat, productId: nat, productSupplier: nat, inventoryItem: Option<nat>,
    ordered: real, received: real, money: Money)

  /** An order with its lines and with the receipts booked against it, oldest first. */
  datatype Order = Order(
    status: Status,
    supplierId: nat,
    deliveryLocation: nat,
    approvedBy: Option<nat>,
    sent: bool,
    cancelled: bool,
    archived: bool,
    lines: seq<OrderLine>,
    nextLineId: nat,
    deliveryFee: real,
    totals: Totals,
    totalAmount: real,
    receipts: seq<Receipt>)

  /** A supplier product, with the inventory item its stock-keeping unit matches, if any. */
  datatype Product = Product(inOrganization: bool, supplierId: nat, active: bool, vat: Option<real>, inventoryItem: Option<nat>)

  type Catalog = map<nat, Product>

  /** What an order may refer to: products, and the organization's suppliers and locations, each active or not. */
  datatype Organization = Organization(catalog: Catalog, suppliers: map<nat, bool>, locations: map<nat, bool>)

  function CheckActive(rows: map<nat, bool>, id: nat): Outcome {
    if id !in rows then SL.Forbidden else if !rows[id] then SL.BadRequest else SL.Done
  }

  /** The row is there and active. */
  predicate Active(rows: map<nat, bool>, id: nat) {
    id in rows && rows[id]
  }

  // ---------------------------------------------------------------- preparing lines

  datatype Prepared = Lines(lines: seq<OrderLine>) | Fault(outcome: Outcome)

  function CheckProduct(catalog: Catalog, supplierId: nat, productId: nat): Outcome {
    if productId !in catalog || !catalog[productId].inOrganization then SL.Forbidden
    else if catalog[productId].supplierId != supplierId then SL.BadRequest
    else if !catalog[productId].active then SL.BadRequest
    else SL.Done
  }

  /** A product that may be ordered from a supplier. */
  predicate Orderable(catalog: Catalog, supplierId: nat, productId: nat) {
    && productId in catalog && catalog[productId].inOrganization
    && catalog[productId].supplierId == supplierId && catalog[productId].active
  }

  function NewLine(product: Product, request: LineRequest, id: nat): OrderLine {
    OrderLine(id, request.supplierProductId, product.supplierId, product.inventoryItem,
              request.quantity, 0.0, RequestMoney(request, product.vat))
  }

  /** Lines for the first requests, or the first fault among them. */
  function Prepare(catalog: Catalog, supplierId: nat, requests: seq<LineRequest>, firstId: nat): (prepared: Prepared)
    ensures prepared.Lines? ==> |prepared.lines| == |requests|
    ensures prepared.Fault? ==> prepared.outcome != SL.Done
  {
    if requests == [] then Lines([])
    else
      var front, last := requests[..|requests| - 1], requests[|requests| - 1];
      match Prepare(catalog, supplierId, front, firstId)
      case Fault(outcome) => Fault(outcome)
      case Lines(lines) =>
        if exists k :: 0 <= k < |front| && front[k].supplierProductId == last.supplierProductId then Fault(SL.BadRequest)
        else if CheckProduct(catalog, supplierId, last.supplierProductId) != SL.Done then
          Fault(CheckProduct(catalog, supplierId, last.supplierProductId))
        else Lines(lines + [NewLine(catalog[last.supplierProductId], last, firstId + |front|)])
  }

  function LineMoney(lines: seq<OrderLine>): (money: seq<Money>)
    ensures |money| == |lines| && forall i :: 0 <= i < |lines| ==> money[i] == lines[i].money
  {
    Map((line: OrderLine) => line.money, lines)
  }

  datatype OrderRequest = OrderRequest(supplierId: nat, deliveryLocation: nat, lines: seq<LineRequest>, fee: Option<real>)

  function NewOrder(supplierId: nat, deliveryLocation: nat, lines: seq<OrderLine>, deliveryFee: Option<real>): Order {
    Order(Draft, supplierId, deliveryLocation, None, false, false, false, lines, |lines|, deliveryFee.GetOr(0.0),
          OrderTotals(LineMoney(lines)), GrandTotal(LineMoney(lines), deliveryFee.GetOr(0.0)), [])
  }

  datatype Created = Created(order: Order) | Rejected(outcome: Outcome)

  function CreateStep(organization: Organization, request: OrderRequest): Created {
    if CheckActive(organization.suppliers, request.supplierId) != SL.Done then
      Rejected(CheckActive(organization.suppliers, request.supplierId))
    else if CheckActive(organization.locations, request.deliveryLocation) != SL.Done then
      Rejected(CheckActive(organization.locations, request.deliveryLocation))
    else
      match Prepare(organization.catalog, request.supplierId, request.lines, 0)
      case Fault(outcome) => Rejected(outcome)
      case Lines(lines) => Created(NewOrder(request.supplierId, request.deliveryLocation, lines, request.fee))
  }

  // ---------------------------------------------------------------- goods receipts

  datatype ReceiptLine = ReceiptLine(lineId: nat, itemId: nat, received: real, accepted: real, damaged: real)

  datatype Receipt = Receipt(locationId: nat, lines: seq<ReceiptLine>)

  const TOLERANCE := 0.0001

  function FindLine(lines: seq<OrderLine>, id: nat): (found: Option<nat>)
    ensures match found
            case Some(k) => k < |lines| && lines[k].id == id
            case None => forall k :: 0 <= k < |lines| ==> lines[k].id != id
  {
    if lines == [] then None
    else if lines[|lines| - 1].id == id then Some(|lines| - 1)
    else FindLine(lines[..|lines| - 1], id)
  }

  /** Whether one receipt line is acceptable against the order as it was before the receipt. */
  predicate Acceptable(lines: seq<OrderLine>, r: ReceiptLine) {
    match FindLine(lines, r.lineId)
    case None => false
    case Some(k) =>
      && lines[k].inventoryItem == Some(r.itemId)
      && r.damaged <= r.received
      && -TOLERANCE <= r.accepted + r.damaged - r.received <= TOLERANCE
      && r.received <= lines[k].ordered - lines[k].received + TOLERANCE
  }

  /** What the receipt lines bring for one order line, and for one inventory item. */
  function TotalFor(rs: seq<ReceiptLine>, lineId: nat): real {
    if rs == [] then 0.0
    else TotalFor(rs[..|rs| - 1], lineId) + (if rs[|rs| - 1].lineId == lineId then rs[|rs| - 1].received else 0.0)
  }

  function AcceptedFor(rs: seq<ReceiptLine>, itemId: nat): real {
    if rs == [] then 0.0
    else AcceptedFor(rs[..|rs| - 1], itemId) + (if rs[|rs| - 1].itemId == itemId then rs[|rs| - 1].accepted else 0.0)
  }

  function Received(lines: seq<OrderLine>, rs: seq<ReceiptLine>): (after: seq<OrderLine>)
    ensures |after| == |lines|
    ensures forall k :: 0 <= k < |lines| ==> after[k] == lines[k].(received := lines[k].received + TotalFor(rs, lines[k].id))
  {
    seq(|lines|, k requires 0 <= k < |lines| => lines[k].(received := lines[k].received + TotalFor(rs, lines[k].id)))
  }

  datatype Posted = Posting(ledger: SL.Ledger) | Refused(outcome: Outcome)

  /** The stock movements of the receipt lines, one after another, until one is refused. */
  function Post(ledger: SL.Ledger, context: SL.Context, locationId: nat, rs: seq<ReceiptLine>): (posted: Posted)
    ensures posted.Refused? ==> posted.outcome != SL.Done
  {
    if rs == [] then Posting(ledger)
    else
      var last := rs[|rs| - 1];
      match Post(ledger, context, locationId, rs[..|rs| - 1])
      case Refused(outcome) => Refused(outcome)
      case Posting(posted) =>
        var (next, outcome) := SL.ReceiveStep(posted, context, (last.itemId, locationId), last.accepted, last.damaged);
        if outcome == SL.Done then Posting(next) else Refused(outcome)
  }

  predicate AllCovered(lines: seq<OrderLine>) {
    forall k :: 0 <= k < |lines| ==> lines[k].received >= lines[k].ordered
  }

  predicate AnyReceived(lines: seq<OrderLine>) {
    exists k :: 0 <= k < |lines| && lines[k].received > 0.0
  }

  function NextStatus(status: Status, lines: seq<OrderLine>): Status {
    if AllCovered(lines) then FullyReceived
    else if AnyReceived(lines) then PartiallyReceived
    else status
  }

  function ReceiveStep(o: Order, ledger: SL.Ledger, context: SL.Context, receipt: Receipt): (Order, SL.Ledger, Outcome) {
    if o.archived || o.status == Cancelled || o.status == FullyReceived then (o, ledger, SL.BadRequest)
    else if CheckActive(context.locations, receipt.locationId) != SL.Done then
      (o, ledger, CheckActive(context.locations, receipt.locationId))
    else if exists i :: 0 <= i < |receipt.lines| && !Acceptable(o.lines, receipt.lines[i]) then (o, ledger, SL.BadRequest)
    else
      match Post(ledger, context, receipt.locationId, receipt.lines)
      case Refused(outcome) => (o, ledger, outcome)
      case Posting(posted) =>
        var lines := Received(o.lines, receipt.lines);
        (o.(lines := lines, status := NextStatus(o.status, lines), receipts := o.receipts + [receipt]), posted, SL.Done)
  }

  /** An accepted receipt found every line acceptable and posted all its movements. */
  lemma AcceptedReceipt(o: Order, ledger: SL.Ledger, context: SL.Context, receipt: Receipt)
    requires ReceiveStep(o, ledger, context, receipt).2 == SL.Done
    ensures forall r | r in receipt.lines :: Acceptable(o.lines, r)
    ensures Post(ledger, context, receipt.locationId, receipt.lines).Posting?
    ensures ReceiveStep(o, ledger, context, receipt).1 == Post(ledger, context, receipt.locationId, receipt.lines).ledger
    ensures var lines := Received(o.lines, receipt.lines);
            ReceiveStep(o, ledger, context, receipt).0 ==
            o.(lines := lines, status := NextStatus(o.status, lines), receipts := o.receipts + [receipt])
    ensures !o.archived && o.status != FullyReceived && o.status != Cancelled
  {
  }

  // ---------------------------------------------------------------- the other transitions

  /** The fields an edit sets; what is absent stays. */
  datatype Edit = Edit(supplier: Option<nat>, location: Option<nat>, lines: Option<seq<LineRequest>>, fee: Option<real>)

  datatype Op =
    | Submit
    | Approve(userId: nat)
    | ReturnToDraft
    | MarkSent
    | Cancel
    | Archive
    | Restore
    | Update(organization: Organization, edit: Edit)
    | Receive(context: SL.Context, receipt: Receipt)

  function CheckEdit(organization: Organization, edit: Edit): Outcome {
    if edit.supplier.Some? && CheckActive(organization.suppliers, edit.supplier.value) != SL.Done then
      CheckActive(organization.suppliers, edit.supplier.value)
    else if edit.location.Some? then CheckActive(organization.locations, edit.location.value)
    else SL.Done
  }

  function UpdateStep(o: Order, organization: Organization, edit: Edit): (Order, Outcome) {
    if o.status != Draft || o.archived then (o, SL.BadRequest)
    else if CheckEdit(organization, edit) != SL.Done then (o, CheckEdit(organization, edit))
    else
      var supplierId, deliveryFee := edit.supplier.GetOr(o.supplierId), edit.fee.GetOr(o.deliveryFee);
      var prepared :=
        if edit.lines.None? then Lines(o.lines) else Prepare(organization.catalog, supplierId, edit.lines.value, o.nextLineId);
      match prepared
      case Fault(outcome) => (o, outcome)
      case Lines(lines) =>
        (o.(supplierId := supplierId, deliveryLocation := edit.location.GetOr(o.deliveryLocation), lines := lines,
            deliveryFee := deliveryFee, nextLineId := o.nextLineId + (if edit.lines.None? then 0 else |lines|),
            totals := OrderTotals(LineMoney(lines)), totalAmount := GrandTotal(LineMoney(lines), deliveryFee)),
         SL.Done)
  }

  function Step(o: Order, ledger: SL.Ledger, op: Op): (Order, SL.Ledger, Outcome) {
    match op
    case Submit =>
      if o.status != Draft || o.archived then (o, ledger, SL.BadRequest)
      else (o.(status := PendingApproval), ledger, SL.Done)
    case Approve(userId) =>
      if o.status != PendingApproval || o.archived then (o, ledger, SL.BadRequest)
      else (o.(status := Approved, approvedBy := Some(userId)), ledger, SL.Done)
    case ReturnToDraft =>
      if o.status != PendingApproval then (o, ledger, SL.BadRequest)
      else (o.(status := Draft, approvedBy := None), ledger, SL.Done)
    case MarkSent =>
      if o.status != Approved || o.archived then (o, ledger, SL.BadRequest)
      else (o.(status := Sent, sent := true), ledger, SL.Done)
    case Cancel =>
      if o.status == FullyReceived || o.status == Cancelled then (o, ledger, SL.BadRequest)
      else (o.(status := Cancelled, cancelled := true), ledger, SL.Done)
    case Archive =>
      if o.archived then (o, ledger, SL.BadRequest) else (o.(archived := true), ledger, SL.Done)
    case Restore =>
      if !o.archived then (o, ledger, SL.BadRequest) else (o.(archived := false), ledger, SL.Done)
    case Update(organization, edit) =>
      (UpdateStep(o, organization, edit).0, ledger, UpdateStep(o, organization, edit).1)
    case Receive(context, receipt) => ReceiveStep(o, ledger, context, receipt)
  }

  /** What the request validation lets through. */
  ghost predicate ValidOp(op: Op) {
    match op
    case Update(_, edit) => edit.lines.Some? ==> ValidRequests(edit.lines.value)
    case Receive(_, receipt) => ValidReceipt(receipt)
    case _ => true
  }

  ghost predicate ValidReceipt(receipt: Receipt) {
    receipt.lines != [] && forall r | r in receipt.lines :: r.received > 0.0 && r.accepted >= 0.0 && r.damaged >= 0.0
  }

  ghost predicate ValidRequests(requests: seq<LineRequest>) {
    requests != [] && forall i :: 0 <= i < |requests| ==> requests[i].quantity > 0.0
  }

  // ---------------------------------------------------------------- what every reachable order keeps

  ghost predicate LinesSound(lines: seq<OrderLine>, nextLineId: nat) {
    && lines != []
    && (forall k :: 0 <= k < |lines| ==> lines[k].id < nextLineId && lines[k].ordered > 0.0 && lines[k].received >= 0.0)
    && (forall k :: 0 <= k < |lines| ==> AddsUp(lines[k].money))
    && (forall j, k :: 0 <= j < k < |lines| ==> lines[j].id != lines[k].id)
  }

  ghost predicate NothingReceived(lines: seq<OrderLine>) {
    forall k :: 0 <= k < |lines| ==> lines[k].received == 0.0
  }

  ghost predicate StatusTellsReceipts(o: Order) {
    match o.status
    case PartiallyReceived => AnyReceived(o.lines) && !AllCovered(o.lines)
    case FullyReceived => AllCovered(o.lines)
    case Cancelled => !AllCovered(o.lines)
    case _ => NothingReceived(o.lines)
  }

  ghost predicate StampsSound(o: Order) {
    && (o.status == Draft || o.status == PendingApproval ==> o.approvedBy.None?)
    && (o.status == Approved || o.status == Sent ==> o.approvedBy.Some?)
    && (o.sent ==> o.approvedBy.Some?)
    && (o.status == Sent ==> o.sent)
    && (o.cancelled <==> o.status == Cancelled)
  }

  ghost predicate MoneySound(o: Order) {
    && o.totals == OrderTotals(LineMoney(o.lines))
    && o.totalAmount == GrandTotal(LineMoney(o.lines), o.deliveryFee)
  }

  /** What all receipts together bring for one order line. */
  function LoggedFor(receipts: seq<Receipt>, lineId: nat): real {
    if receipts == [] then 0.0
    else LoggedFor(receipts[..|receipts| - 1], lineId) + TotalFor(receipts[|receipts| - 1].lines, lineId)
  }

  /** Every line's received quantity is what the receipts add up to, and no receipt names a line yet to come. */
  ghost predicate LogSound(o: Order) {
    && (forall k :: 0 <= k < |o.lines| ==> o.lines[k].received == LoggedFor(o.receipts, o.lines[k].id))
    && (forall r, l | r in o.receipts && l in r.lines :: l.lineId < o.nextLineId)
  }

  ghost predicate OrderSound(o: Order) {
    LinesSound(o.lines, o.nextLineId) && StatusTellsReceipts(o) && StampsSound(o) && MoneySound(o) && LogSound(o)
  }

  lemma {:induction false} PreparedLines(catalog: Catalog, supplierId: nat, requests: seq<LineRequest>, firstId: nat)
    requires Prepare(catalog, supplierId, requests, firstId).Lines?
    requires forall i :: 0 <= i < |requests| ==> requests[i].quantity > 0.0
    ensures var lines := Prepare(catalog, supplierId, requests, firstId).lines;
            forall k :: 0 <= k < |lines| ==>
              && lines[k].id == firstId + k && lines[k].ordered == requests[k].quantity && lines[k].received == 0.0
              && lines[k].productId == requests[k].supplierProductId && lines[k].productSupplier == supplierId
              && requests[k].supplierProductId in catalog
              && lines[k].money == RequestMoney(requests[k], catalog[requests[k].supplierProductId].vat)
              && AddsUp(lines[k].money)
  {
    if requests == [] {
    } else {
      var front, last := requests[..|requests| - 1], requests[|requests| - 1];
      PreparedLines(catalog, supplierId, front, firstId);
      var vat := catalog[last.supplierProductId].vat;
      PricedLineAddsUp(last.quantity, last.unitCost, last.discountPercent.GetOr(0.0),
                       if last.vatPercent.Some? then last.vatPercent.value else vat.GetOr(0.0));
    }
  }

  lemma NewOrderSound(organization: Organization, request: OrderRequest)
    requires ValidRequests(request.lines) && CreateStep(organization, request).Created?
    ensures OrderSound(CreateStep(organization, request).order)
  {
    PreparedLines(organization.catalog, request.supplierId, request.lines, 0);
  }

  lemma {:induction false} UnnamedIsUnlogged(receipts: seq<Receipt>, lineId: nat)
    requires forall r, l | r in receipts && l in r.lines :: l.lineId != lineId
    ensures LoggedFor(receipts, lineId) == 0.0
  {
    if receipts == [] {
    } else {
      var front, last := receipts[..|receipts| - 1], receipts[|receipts| - 1];
      assert receipts == front + [last];
      UnnamedIsUnlogged(front, lineId);
      NoReceiptNoTotal(last.lines, lineId);
    }
  }

  lemma {:induction false} NoReceiptNoTotal(rs: seq<ReceiptLine>, lineId: nat)
    requires forall r | r in rs :: r.lineId != lineId
    ensures TotalFor(rs, lineId) == 0.0
  {
    if rs == [] {
    } else {
      assert rs == rs[..|rs| - 1] + [rs[|rs| - 1]];
      NoReceiptNoTotal(rs[..|rs| - 1], lineId);
    }
  }

  /** An edit replaces a draft's lines by new ones, which no receipt has named yet. */
  lemma NewLinesUnlogged(o: Order, lines: seq<OrderLine>)
    requires LogSound(o) && forall k :: 0 <= k < |lines| ==> lines[k].id >= o.nextLineId && lines[k].received == 0.0
    ensures forall k :: 0 <= k < |lines| ==> lines[k].received == LoggedFor(o.receipts, lines[k].id)
  {
    forall k | 0 <= k < |lines| ensures LoggedFor(o.receipts, lines[k].id) == 0.0 {
      UnnamedIsUnlogged(o.receipts, lines[k].id);
    }
  }

  lemma UpdateKeepsSound(o: Order, organization: Organization, edit: Edit)
    requires OrderSound(o) && (edit.lines.Some? ==> ValidRequests(edit.lines.value))
    ensures OrderSound(UpdateStep(o, organization, edit).0)
  {
    var supplierId := edit.supplier.GetOr(o.supplierId);
    if edit.lines.Some? && Prepare(organization.catalog, supplierId, edit.lines.value, o.nextLineId).Lines? {
      PreparedLines(organization.catalog, supplierId, edit.lines.value, o.nextLineId);
      NewLinesUnlogged(o, Prepare(organization.catalog, supplierId, edit.lines.value, o.nextLineId).lines);
    }
  }

  lemma {:induction false} TotalsArePositive(rs: seq<ReceiptLine>, lineId: nat)
    requires forall r | r in rs :: r.received > 0.0
    ensures TotalFor(rs, lineId) >= 0.0
    ensures (exists r :: r in rs && r.lineId == lineId) ==> TotalFor(rs, lineId) > 0.0
  {
    if rs == [] {
    } else {
      var front, last := rs[..|rs| - 1], rs[|rs| - 1];
      assert rs == front + [last];
      TotalsArePositive(front, lineId);
    }
  }

  lemma ReceiveKeepsSound(o: Order, ledger: SL.Ledger, context: SL.Context, receipt: Receipt)
    requires OrderSound(o) && ValidOp(Receive(context, receipt))
    ensures OrderSound(ReceiveStep(o, ledger, context, receipt).0)
  {
    var after := ReceiveStep(o, ledger, context, receipt).0;
    if ReceiveStep(o, ledger, context, receipt).2 == SL.Done {
      forall k | 0 <= k < |o.lines| ensures TotalFor(receipt.lines, o.lines[k].id) >= 0.0 {
        TotalsArePositive(receipt.lines, o.lines[k].id);
      }
      assert LineMoney(after.lines) == LineMoney(o.lines);
      ReceiveKeepsLog(o, ledger, context, receipt);
    }
  }

  lemma ReceiveKeepsLog(o: Order, ledger: SL.Ledger, context: SL.Context, receipt: Receipt)
    requires LinesSound(o.lines, o.nextLineId) && LogSound(o)
    requires ReceiveStep(o, ledger, context, receipt).2 == SL.Done
    ensures LogSound(ReceiveStep(o, ledger, context, receipt).0)
  {
    AcceptedReceipt(o, ledger, context, receipt);
    var after := ReceiveStep(o, ledger, context, receipt).0;
    assert after.receipts[..|o.receipts|] == o.receipts;
    forall l | l in receipt.lines ensures l.lineId < o.nextLineId {
      assert Acceptable(o.lines, l);
    }
  }

  /** Whatever happens to an order, its totals add up, its stamps fit its status, and its status tells
      what has been received: nothing before a receipt, everything when fully received. */
  lemma StepKeepsSound(o: Order, ledger: SL.Ledger, op: Op)
    requires OrderSound(o) && ValidOp(op)
    ensures OrderSound(Step(o, ledger, op).0)
  {
    match op
    case Update(organization, edit) => UpdateKeepsSound(o, organization, edit);
    case Receive(context, receipt) => ReceiveKeepsSound(o, ledger, context, receipt);
    case _ =>
  }

  lemma {:induction false} PostKeepsLedger(ledger: SL.Ledger, context: SL.Context, locationId: nat, rs: seq<ReceiptLine>)
    requires SL.Sound(ledger) && forall r | r in rs :: r.accepted >= 0.0 && r.damaged >= 0.0
    ensures Post(ledger, context, locationId, rs).Posting? ==> SL.Sound(Post(ledger, context, locationId, rs).ledger)
  {
    if rs == [] {
    } else {
      var front, last := rs[..|rs| - 1], rs[|rs| - 1];
      assert rs == front + [last];
      PostKeepsLedger(ledger, context, locationId, front);
      if Post(ledger, context, locationId, front).Posting? {
        SL.ReceiveKeepsSound(Post(ledger, context, locationId, front).ledger, context, (last.itemId, locationId), last.accepted, last.damaged);
      }
    }
  }

  function Run(o: Order, ledger: SL.Ledger, ops: seq<Op>): (Order, SL.Ledger)
    decreases |ops|
  {
    if ops == [] then (o, ledger) else Run(Step(o, ledger, ops[0]).0, Step(o, ledger, ops[0]).1, ops[1..])
  }

  lemma {:induction false} EveryReachableOrderIsSound(o: Order, ledger: SL.Ledger, ops: seq<Op>)
    requires OrderSound(o) && SL.Sound(ledger)
    requires forall i :: 0 <= i < |ops| ==> ValidOp(ops[i])
    ensures OrderSound(Run(o, ledger, ops).0) && SL.Sound(Run(o, ledger, ops).1)
    decreases |ops|
  {
    if ops == [] {
    } else {
      StepKeepsSound(o, ledger, ops[0]);
      if ops[0].Receive? {
        PostKeepsLedger(ledger, ops[0].context, ops[0].receipt.locationId, ops[0].receipt.lines);
      }
      EveryReachableOrderIsSound(Step(o, ledger, ops[0]).0, Step(o, ledger, ops[0]).1, ops[1..]);
    }
  }

  /** The money of every reachable order: subtotal minus discount plus tax plus fee, up to the last rounding. */
  lemma ReachableOrderAddsUp(o: Order)
    requires OrderSound(o)
    ensures o.totalAmount == Round2(o.totals.subtotal - o.totals.discount + o.totals.tax + o.deliveryFee)
    ensures InCents(o.deliveryFee) <==> o.totalAmount == o.totals.subtotal - o.totals.discount + o.totals.tax + o.deliveryFee
  {
    var money := SoundMoney(o);
    TotalsAddUp(money, o.deliveryFee, o.totals, o.totalAmount);
  }

  lemma SoundMoney(o: Order) returns (money: seq<Money>)
    requires OrderSound(o)
    ensures money == LineMoney(o.lines) && forall i :: 0 <= i < |money| ==> AddsUp(money[i])
    ensures o.totals == OrderTotals(money) && o.totalAmount == GrandTotal(money, o.deliveryFee)
  {
    money := LineMoney(o.lines);
  }

  lemma TotalsAddUp(money: seq<Money>, fee: real, t: Totals, amount: real)
    requires forall i :: 0 <= i < |money| ==> AddsUp(money[i])
    requires t == OrderTotals(money) && amount == GrandTotal(money, fee)
    ensures amount == Round2(t.subtotal - t.discount + t.tax + fee)
    ensures InCents(fee) <==> amount == t.subtotal - t.discount + t.tax + fee
  {
    OrderAddsUp(money, fee);
  }

  /** Received at least in part, or cancelled: nothing leads back from there. */
  predicate Settled(status: Status) {
    status == PartiallyReceived || status == FullyReceived || status == Cancelled
  }

  predicate Final(status: Status) {
    status == FullyReceived || status == Cancelled
  }

  /** What one step leaves alone in an order's life. */
  ghost predicate LifeContinues(before: Order, after: Order) {
    && (Final(before.status) ==> after.status == before.status)
    && (Settled(before.status) ==> Settled(after.status) && after.approvedBy == before.approvedBy)
    && (before.sent ==> after.sent && after.approvedBy == before.approvedBy)
    && (after.status == PendingApproval || after.status == Draft ==> !before.sent)
  }

  lemma StepContinues(o: Order, ledger: SL.Ledger, op: Op)
    requires OrderSound(o) && ValidOp(op)
    ensures LifeContinues(o, Step(o, ledger, op).0)
  {
    if op.Receive? && Step(o, ledger, op).2 == SL.Done {
      ReceiptSettles(o, ledger, op.context, op.receipt);
    }
  }

  lemma ReceiptSettles(o: Order, ledger: SL.Ledger, context: SL.Context, receipt: Receipt)
    requires OrderSound(o) && ValidReceipt(receipt) && ReceiveStep(o, ledger, context, receipt).2 == SL.Done
    ensures var after := ReceiveStep(o, ledger, context, receipt).0;
            Settled(after.status) && after.status != Cancelled && after.approvedBy == o.approvedBy
  {
    AcceptedReceipt(o, ledger, context, receipt);
    var r := receipt.lines[0];
    assert Acceptable(o.lines, r);
    var k := FindLine(o.lines, r.lineId).value;
    TotalsArePositive(receipt.lines, o.lines[k].id);
    assert Received(o.lines, receipt.lines)[k].received > 0.0;
  }

  /** Over any run: cancelled and fully received are final; a partially received order can only be completed or
      cancelled; from the first receipt, or from being sent, on the approver never changes. */
  lemma {:induction false} LifecycleLaws(o: Order, ledger: SL.Ledger, ops: seq<Op>)
    requires OrderSound(o) && forall i :: 0 <= i < |ops| ==> ValidOp(ops[i])
    ensures LifeContinues(o, Run(o, ledger, ops).0)
    decreases |ops|
  {
    if ops == [] {
    } else {
      var next := Step(o, ledger, ops[0]);
      StepKeepsSound(o, ledger, ops[0]);
      StepContinues(o, ledger, ops[0]);
      LifecycleLaws(next.0, next.1, ops[1..]);
    }
  }

  /** What can happen to an archived order that is not restored: nothing but a return to draft, if it was waiting
      for approval, and cancellation. Its lines, its receipts and the stock stay as they are. */
  ghost predicate ArchivedOnlyReturned(before: Order, ledger: SL.Ledger, after: Order, ledgerAfter: SL.Ledger, ops: seq<Op>) {
    && after.archived && ledgerAfter == ledger
    && after.lines == before.lines && after.receipts == before.receipts && after.totalAmount == before.totalAmount
    && (|| after.status == before.status
        || (before.status == PendingApproval && after.status == Draft && ReturnToDraft in ops)
        || (after.status == Cancelled && Cancel in ops))
  }

  lemma {:induction false} ArchivedOrderStays(o: Order, ledger: SL.Ledger, ops: seq<Op>)
    requires o.archived && Restore !in ops
    ensures ArchivedOnlyReturned(o, ledger, Run(o, ledger, ops).0, Run(o, ledger, ops).1, ops)
    decreases |ops|
  {
    if ops == [] {
    } else {
      var next := Step(o, ledger, ops[0]);
      assert ops == [ops[0]] + ops[1..];
      ArchivedStep(o, ledger, ops[0]);
      ArchivedOrderStays(next.0, next.1, ops[1..]);
    }
  }

  lemma ArchivedStep(o: Order, ledger: SL.Ledger, op: Op)
    requires o.archived && op != Restore
    ensures ArchivedOnlyReturned(o, ledger, Step(o, ledger, op).0, Step(o, ledger, op).1, [op])
  {
  }

  /** Going back undoes going forward, and a refusal changes nothing. */
  lemma UndoLaws(o: Order, ledger: SL.Ledger, op: Op)
    requires OrderSound(o) && ValidOp(op)
    ensures Step(o, ledger, op).2 != SL.Done ==> Step(o, ledger, op).0 == o && Step(o, ledger, op).1 == ledger
    ensures Step(o, ledger, Archive).2 == SL.Done ==> Step(Step(o, ledger, Archive).0, ledger, Restore) == (o, ledger, SL.Done)
    ensures Step(o, ledger, Restore).2 == SL.Done ==> Step(Step(o, ledger, Restore).0, ledger, Archive) == (o, ledger, SL.Done)
    ensures Step(o, ledger, Submit).2 == SL.Done ==> Step(Step(o, ledger, Submit).0, ledger, ReturnToDraft) == (o, ledger, SL.Done)
  {
  }

  /** A new approver, sent or cancelled mark comes from that operation. */
  ghost predicate StampsEarned(before: Order, after: Order, ops: seq<Op>) {
    && (after.approvedBy.Some? && after.approvedBy != before.approvedBy ==> Approve(after.approvedBy.value) in ops)
    && (after.sent && !before.sent ==> MarkSent in ops)
    && (after.cancelled && !before.cancelled ==> Cancel in ops)
  }

  lemma StampStep(o: Order, ledger: SL.Ledger, op: Op)
    ensures StampsEarned(o, Step(o, ledger, op).0, [op])
  {
  }

  lemma StampsJoin(first: Order, second: Order, third: Order, ops: seq<Op>)
    requires ops != [] && StampsEarned(first, second, [ops[0]]) && StampsEarned(second, third, ops[1..])
    ensures StampsEarned(first, third, ops)
  {
    assert ops == [ops[0]] + ops[1..];
  }

  /** Stamps are earned: over any run, the approver on an order is the one it started with or one who approved
      it on the way, and an order is sent, or cancelled, only by being marked so. */
  lemma {:induction false} StampsHaveASource(o: Order, ledger: SL.Ledger, ops: seq<Op>)
    ensures StampsEarned(o, Run(o, ledger, ops).0, ops)
    decreases |ops|
  {
    if ops == [] {
    } else {
      var next := Step(o, ledger, ops[0]);
      StampStep(o, ledger, ops[0]);
      StampsHaveASource(next.0, next.1, ops[1..]);
      StampsJoin(o, next.0, Run(o, ledger, ops).0, ops);
    }
  }

  /** From creation on: whatever is done to a new order, it stays sound. */
  lemma EveryOrderStaysSound(organization: Organization, request: OrderRequest, ledger: SL.Ledger, ops: seq<Op>)
    requires ValidRequests(request.lines) && CreateStep(organization, request).Created? && SL.Sound(ledger)
    requires forall i :: 0 <= i < |ops| ==> ValidOp(ops[i])
    ensures OrderSound(Run(CreateStep(organization, request).order, ledger, ops).0)
  {
    NewOrderSound(organization, request);
    EveryReachableOrderIsSound(CreateStep(organization, request).order, ledger, ops);
  }

  // ---------------------------------------------------------------- whose products are on an order

  ghost predicate LinesFromSupplier(o: Order) {
    forall k :: 0 <= k < |o.lines| ==> o.lines[k].productSupplier == o.supplierId
  }

  /** An edit keeps every line's product with the order's supplier exactly unless it changes the supplier
      and leaves the lines alone: that combination is not checked. */
  lemma EditKeepsSupplierExactly(o: Order, organization: Organization, edit: Edit)
    requires OrderSound(o) && LinesFromSupplier(o)
    requires edit.lines.Some? ==> ValidRequests(edit.lines.value)
    requires UpdateStep(o, organization, edit).1 == SL.Done
    ensures LinesFromSupplier(UpdateStep(o, organization, edit).0) <==>
            edit.lines.Some? || edit.supplier.GetOr(o.supplierId) == o.supplierId
  {
    if edit.lines.Some? {
      PreparedLines(organization.catalog, edit.supplier.GetOr(o.supplierId), edit.lines.value, o.nextLineId);
    } else {
      assert o.lines[0].productSupplier == o.supplierId;
    }
  }
}
