/** All orders of an organization and the one stock they are received into. */
module OrderBook {
  import PO = PurchaseOrders
  import GR = GoodsReceipts
  import SL = StockLedger

  datatype Book = Book(orders: seq<PO.Order>, ledger: SL.Ledger)

  datatype Op =
    | Create(organization: PO.Organization, request: PO.OrderRequest)
    | OnOrder(index: nat, orderOp: PO.Op)
    | OnStock(context: SL.Context, stockOp: SL.Op)

  function Step(b: Book, op: Op): Book {
    match op
    case Create(organization, request) =>
      (match PO.CreateStep(organization, request)
       case Created(order) => b.(orders := b.orders + [order])
       case Rejected(_) => b)
    case OnOrder(i, orderOp) =>
      if i >= |b.orders| then b
      else
        var (order, ledger, _) := PO.Step(b.orders[i], b.ledger, orderOp);
        Book(b.orders[i := order], ledger)
    case OnStock(context, stockOp) => b.(ledger := SL.Step(b.ledger, context, stockOp).0)
  }

  /** Valid requests; goods come in only through the receipt of an order. */
  ghost predicate Valid(op: Op) {
    match op
    case Create(_, request) => PO.ValidRequests(request.lines)
    case OnOrder(_, orderOp) => PO.ValidOp(orderOp)
    case OnStock(_, stockOp) => SL.Valid(stockOp) && !stockOp.Receive?
  }

  /** What the movements of one type brought into a slot. */
  function StockedIn(movements: seq<SL.Movement>, slot: SL.Slot): real {
    if movements == [] then 0.0
    else
      var last := movements[|movements| - 1];
      StockedIn(movements[..|movements| - 1], slot) +
      (if last.slot == slot && last.movementType == SL.StockIn then last.quantity else 0.0)
  }

  /** What all other movements did to it. */
  function Otherwise(movements: seq<SL.Movement>, slot: SL.Slot): real {
    if movements == [] then 0.0
    else
      var last := movements[|movements| - 1];
      Otherwise(movements[..|movements| - 1], slot) +
      (if last.slot == slot && last.movementType != SL.StockIn then SL.Effect(last) else 0.0)
  }

  /** What the receipts of all orders accepted into a slot. */
  function AcceptedByAll(orders: seq<PO.Order>, slot: SL.Slot): real {
    if orders == [] then 0.0
    else AcceptedByAll(orders[..|orders| - 1], slot) + GR.AcceptedInto(orders[|orders| - 1].receipts, slot)
  }

  ghost predicate OrdersSound(orders: seq<PO.Order>) {
    forall i :: 0 <= i < |orders| ==> PO.OrderSound(orders[i])
  }

  ghost predicate ReceiptsMatchStock(b: Book) {
    forall slot :: StockedIn(b.ledger.movements, slot) == AcceptedByAll(b.orders, slot)
  }

  ghost predicate Sound(b: Book) {
    OrdersSound(b.orders) && SL.Sound(b.ledger) && ReceiptsMatchStock(b)
  }

  // ---------------------------------------------------------------- goods into stock

  lemma StockedInAfter(movements: seq<SL.Movement>, last: SL.Movement, slot: SL.Slot)
    ensures StockedIn(movements + [last], slot) ==
            StockedIn(movements, slot) + (if last.slot == slot && last.movementType == SL.StockIn then last.quantity else 0.0)
  {
    assert (movements + [last])[..|movements|] == movements;
  }

  lemma ReceiveStocks(ledger: SL.Ledger, context: SL.Context, at: SL.Slot, accepted: real, damaged: real, slot: SL.Slot)
    requires accepted >= 0.0 && SL.ReceiveStep(ledger, context, at, accepted, damaged).1 == SL.Done
    ensures StockedIn(SL.ReceiveStep(ledger, context, at, accepted, damaged).0.movements, slot) ==
            StockedIn(ledger.movements, slot) + (if at == slot then accepted else 0.0)
  {
    var stockIn, damage := SL.Movement(at, SL.StockIn, accepted), SL.Movement(at, SL.Damaged, damaged);
    StockedInAfter(ledger.movements, stockIn, slot);
    StockedInAfter(ledger.movements, damage, slot);
    StockedInAfter(ledger.movements + [stockIn], damage, slot);
  }

  lemma {:induction false} PostStocks(ledger: SL.Ledger, context: SL.Context, locationId: nat, rs: seq<PO.ReceiptLine>, slot: SL.Slot)
    requires PO.Post(ledger, context, locationId, rs).Posting? && forall r | r in rs :: r.accepted >= 0.0
    ensures StockedIn(PO.Post(ledger, context, locationId, rs).ledger.movements, slot) ==
            StockedIn(ledger.movements, slot) + (if slot.1 == locationId then PO.AcceptedFor(rs, slot.0) else 0.0)
  {
    if rs == [] {
    } else {
      var front, last := rs[..|rs| - 1], rs[|rs| - 1];
      assert rs == front + [last];
      PostStocks(ledger, context, locationId, front, slot);
      ReceiveStocks(PO.Post(ledger, context, locationId, front).ledger, context, (last.itemId, locationId),
                    last.accepted, last.damaged, slot);
    }
  }

  /** A step of one order stocks exactly what its new receipts accept. */
  lemma OrderStepStocks(o: PO.Order, ledger: SL.Ledger, op: PO.Op, slot: SL.Slot)
    requires PO.ValidOp(op)
    ensures var (after, final, _) := PO.Step(o, ledger, op);
            StockedIn(final.movements, slot) - StockedIn(ledger.movements, slot) ==
            GR.AcceptedInto(after.receipts, slot) - GR.AcceptedInto(o.receipts, slot)
  {
    if op.Receive? && PO.Step(o, ledger, op).2 == SL.Done {
      PO.AcceptedReceipt(o, ledger, op.context, op.receipt);
      PostStocks(ledger, op.context, op.receipt.locationId, op.receipt.lines, slot);
      assert PO.Step(o, ledger, op).0.receipts[..|o.receipts|] == o.receipts;
    }
  }

  lemma StockStepStocksNothing(ledger: SL.Ledger, context: SL.Context, op: SL.Op, slot: SL.Slot)
    requires !op.Receive?
    ensures StockedIn(SL.Step(ledger, context, op).0.movements, slot) == StockedIn(ledger.movements, slot)
  {
    var after := SL.Step(ledger, context, op).0.movements;
    if |after| == |ledger.movements| + 1 {
      assert after == ledger.movements + [after[|ledger.movements|]];
      StockedInAfter(ledger.movements, after[|ledger.movements|], slot);
    } else if op.Transfer? && |after| > |ledger.movements| {
      var out, into := after[|ledger.movements|], after[|ledger.movements| + 1];
      StockedInAfter(ledger.movements, out, slot);
      StockedInAfter(ledger.movements + [out], into, slot);
      assert after == ledger.movements + [out] + [into];
    }
  }

  // ---------------------------------------------------------------- many orders

  lemma {:induction false} AllAfterUpdate(orders: seq<PO.Order>, i: nat, o: PO.Order, slot: SL.Slot)
    requires i < |orders|
    ensures AcceptedByAll(orders[i := o], slot) ==
            AcceptedByAll(orders, slot) - GR.AcceptedInto(orders[i].receipts, slot) + GR.AcceptedInto(o.receipts, slot)
  {
    var front := orders[..|orders| - 1];
    if i == |orders| - 1 {
      assert orders[i := o][..|orders| - 1] == front;
    } else {
      assert orders[i := o][..|orders| - 1] == front[i := o];
      AllAfterUpdate(front, i, o, slot);
    }
  }

  lemma AllAfterCreation(orders: seq<PO.Order>, o: PO.Order, slot: SL.Slot)
    requires o.receipts == []
    ensures AcceptedByAll(orders + [o], slot) == AcceptedByAll(orders, slot)
  {
    assert (orders + [o])[..|orders|] == orders;
  }

  lemma CreateKeepsSound(b: Book, organization: PO.Organization, request: PO.OrderRequest)
    requires Sound(b) && PO.ValidRequests(request.lines)
    ensures Sound(Step(b, Create(organization, request)))
  {
    if PO.CreateStep(organization, request).Created? {
      PO.NewOrderSound(organization, request);
      forall slot ensures AcceptedByAll(Step(b, Create(organization, request)).orders, slot) == AcceptedByAll(b.orders, slot) {
        AllAfterCreation(b.orders, PO.CreateStep(organization, request).order, slot);
      }
    }
  }

  lemma OrderStepKeepsMatch(b: Book, i: nat, op: PO.Op)
    requires ReceiptsMatchStock(b) && i < |b.orders| && PO.ValidOp(op)
    ensures ReceiptsMatchStock(Step(b, OnOrder(i, op)))
  {
    var after := Step(b, OnOrder(i, op));
    forall slot ensures StockedIn(after.ledger.movements, slot) == AcceptedByAll(after.orders, slot) {
      OrderStepStocks(b.orders[i], b.ledger, op, slot);
      AllAfterUpdate(b.orders, i, PO.Step(b.orders[i], b.ledger, op).0, slot);
    }
  }

  lemma OrderStepKeepsLedger(o: PO.Order, ledger: SL.Ledger, op: PO.Op)
    requires SL.Sound(ledger) && PO.ValidOp(op)
    ensures SL.Sound(PO.Step(o, ledger, op).1)
  {
    if op.Receive? {
      PO.PostKeepsLedger(ledger, op.context, op.receipt.locationId, op.receipt.lines);
    }
  }

  lemma StepKeepsSound(b: Book, op: Op)
    requires Sound(b) && Valid(op)
    ensures Sound(Step(b, op))
  {
    match op
    case Create(organization, request) =>
      CreateKeepsSound(b, organization, request);
    case OnOrder(i, orderOp) =>
      if i < |b.orders| {
        PO.StepKeepsSound(b.orders[i], b.ledger, orderOp);
        OrderStepKeepsLedger(b.orders[i], b.ledger, orderOp);
        OrderStepKeepsMatch(b, i, orderOp);
      }
    case OnStock(context, stockOp) =>
      SL.StepKeepsSound(b.ledger, context, stockOp);
      forall slot ensures StockedIn(Step(b, op).ledger.movements, slot) == StockedIn(b.ledger.movements, slot) {
        StockStepStocksNothing(b.ledger, context, stockOp, slot);
      }
  }

  function Run(b: Book, ops: seq<Op>): Book
    decreases |ops|
  {
    if ops == [] then b else Run(Step(b, ops[0]), ops[1..])
  }

  lemma {:induction false} RunKeepsSound(b: Book, ops: seq<Op>)
    requires Sound(b) && forall i :: 0 <= i < |ops| ==> Valid(ops[i])
    ensures Sound(Run(b, ops))
    decreases |ops|
  {
    if ops == [] {
    } else {
      StepKeepsSound(b, ops[0]);
      RunKeepsSound(Step(b, ops[0]), ops[1..]);
    }
  }

  ghost predicate Touches(op: Op, j: nat) {
    op.OnOrder? && op.index == j
  }

  /** An order is created behind the others, is changed by the operations that name it, as its own transitions say, and
      by nothing else; only those and the stock operations reach the ledger. */
  lemma StepActsOnOne(b: Book, op: Op, j: nat)
    requires j < |b.orders|
    ensures var after := Step(b, op);
            && j < |after.orders|
            && (!Touches(op, j) ==> after.orders[j] == b.orders[j])
            && (Touches(op, j) ==> (after.orders[j], after.ledger) == (PO.Step(b.orders[j], b.ledger, op.orderOp).0,
                                                                       PO.Step(b.orders[j], b.ledger, op.orderOp).1))
            && (op.OnStock? ==> after.ledger == SL.Step(b.ledger, op.context, op.stockOp).0 && after.orders == b.orders)
            && (op.Create? ==> after.ledger == b.ledger)
  {
  }

  lemma CreateAppends(b: Book, organization: PO.Organization, request: PO.OrderRequest)
    ensures match PO.CreateStep(organization, request)
            case Created(order) => Step(b, Create(organization, request)).orders == b.orders + [order]
            case Rejected(_) => Step(b, Create(organization, request)) == b
  {
  }

  /** So, over any run, an order that no operation names is still there as it was. */
  lemma {:induction false} UntouchedOrderStays(b: Book, ops: seq<Op>, j: nat)
    requires j < |b.orders| && forall i :: 0 <= i < |ops| ==> !Touches(ops[i], j)
    ensures j < |Run(b, ops).orders| && Run(b, ops).orders[j] == b.orders[j]
    decreases |ops|
  {
    if ops == [] {
    } else {
      StepActsOnOne(b, ops[0], j);
      UntouchedOrderStays(Step(b, ops[0]), ops[1..], j);
    }
  }

  lemma {:induction false} NetIsBoth(movements: seq<SL.Movement>, slot: SL.Slot)
    ensures SL.Net(movements, slot) == StockedIn(movements, slot) + Otherwise(movements, slot)
  {
    if movements == [] {
    } else {
      NetIsBoth(movements[..|movements| - 1], slot);
    }
  }

  /** However the operations on any number of orders and on the stock interleave: every order stays sound, what was
      stocked in is what all receipts together accepted, and the stock on hand is that and what the opening
      balances, adjustments and transfers did. */
  lemma EveryReachableBookIsSound(ops: seq<Op>, slot: SL.Slot)
    requires forall i :: 0 <= i < |ops| ==> Valid(ops[i])
    ensures var b := Run(Book([], SL.EMPTY), ops);
            && OrdersSound(b.orders) && SL.Sound(b.ledger)
            && StockedIn(b.ledger.movements, slot) == AcceptedByAll(b.orders, slot)
            && SL.OnHand(b.ledger.levels, slot) == AcceptedByAll(b.orders, slot) + Otherwise(b.ledger.movements, slot)
  {
    var b := Run(Book([], SL.EMPTY), ops);
    StartIsSound();
    RunKeepsSound(Book([], SL.EMPTY), ops);
    NetIsBoth(b.ledger.movements, slot);
  }

  lemma StartIsSound()
    ensures Sound(Book([], SL.EMPTY))
  {
  }
}
