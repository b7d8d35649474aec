/** When an order can be received in full by one more receipt. */
module OrderCompletion {
  import opened Collections
  import opened PurchaseOrders
  import SL = StockLedger

  /** A line that needs nothing more, or whose inventory item may be booked at a location. */
  predicate Bookable(context: SL.Context, locationId: nat, line: OrderLine) {
    line.received < line.ordered ==>
      line.inventoryItem.Some? && SL.Usable(context, (line.inventoryItem.value, locationId))
  }

  predicate AllBookable(context: SL.Context, locationId: nat, lines: seq<OrderLine>) {
    forall k :: 0 <= k < |lines| ==> Bookable(context, locationId, lines[k])
  }

  /** The receipt completes the order. */
  ghost predicate Completes(o: Order, ledger: SL.Ledger, context: SL.Context, receipt: Receipt) {
    && ValidReceipt(receipt)
    && ReceiveStep(o, ledger, context, receipt).2 == SL.Done
    && ReceiveStep(o, ledger, context, receipt).0.status == FullyReceived
  }

  // ---------------------------------------------------------------- only bookable orders are completed

  lemma {:induction false} PostedSlots(ledger: SL.Ledger, context: SL.Context, locationId: nat, rs: seq<ReceiptLine>)
    requires Post(ledger, context, locationId, rs).Posting?
    ensures forall r | r in rs :: SL.Usable(context, (r.itemId, locationId))
  {
    if rs == [] {
    } else {
      assert rs == rs[..|rs| - 1] + [rs[|rs| - 1]];
      PostedSlots(ledger, context, locationId, rs[..|rs| - 1]);
    }
  }

  /** An accepted receipt that covers a line has an entry for it, so its item was booked. */
  lemma CoveredIsBookable(o: Order, ledger: SL.Ledger, context: SL.Context, receipt: Receipt, k: nat)
    requires OrderSound(o) && ReceiveStep(o, ledger, context, receipt).2 == SL.Done
    requires k < |o.lines| && Received(o.lines, receipt.lines)[k].received >= o.lines[k].ordered
    ensures Bookable(context, receipt.locationId, o.lines[k])
  {
    AcceptedReceipt(o, ledger, context, receipt);
    PostedSlots(ledger, context, receipt.locationId, receipt.lines);
    if o.lines[k].received < o.lines[k].ordered {
      var r := EntryFor(receipt.lines, o.lines[k].id);
      assert Acceptable(o.lines, r);
      assert o.lines[FindLine(o.lines, r.lineId).value].id == o.lines[k].id;
    }
  }

  lemma {:induction false} EntryFor(rs: seq<ReceiptLine>, lineId: nat) returns (r: ReceiptLine)
    requires TotalFor(rs, lineId) != 0.0
    ensures r in rs && r.lineId == lineId
  {
    var last := rs[|rs| - 1];
    if last.lineId == lineId {
      r := last;
    } else {
      r := EntryFor(rs[..|rs| - 1], lineId);
    }
  }

  // ---------------------------------------------------------------- the receipt for what is outstanding

  /** One entry for every line that is not covered, with what it still needs. */
  function Outstanding(lines: seq<OrderLine>): seq<ReceiptLine> {
    if lines == [] then []
    else
      var last := lines[|lines| - 1];
      Outstanding(lines[..|lines| - 1]) +
      (if last.received < last.ordered && last.inventoryItem.Some?
       then [ReceiptLine(last.id, last.inventoryItem.value, last.ordered - last.received, last.ordered - last.received, 0.0)]
       else [])
  }

  ghost predicate EntryOf(r: ReceiptLine, line: OrderLine) {
    && line.received < line.ordered && line.inventoryItem == Some(r.itemId) && r.lineId == line.id
    && r.received == r.accepted == line.ordered - line.received && r.damaged == 0.0
  }

  lemma {:induction false} OutstandingHasLine(lines: seq<OrderLine>, r: ReceiptLine) returns (k: nat)
    requires r in Outstanding(lines)
    ensures k < |lines| && EntryOf(r, lines[k])
  {
    var front, last := lines[..|lines| - 1], lines[|lines| - 1];
    if r in Outstanding(front) {
      k := OutstandingHasLine(front, r);
    } else {
      k := |lines| - 1;
    }
  }

  ghost predicate DistinctLines(lines: seq<OrderLine>) {
    forall i, j :: 0 <= i < j < |lines| ==> lines[i].id != lines[j].id
  }

  /** What it brings a line is exactly what the line still needs. */
  lemma {:induction false} OutstandingTotal(lines: seq<OrderLine>, k: nat)
    requires DistinctLines(lines) && k < |lines|
    requires lines[k].received < lines[k].ordered ==> lines[k].inventoryItem.Some?
    ensures TotalFor(Outstanding(lines), lines[k].id) ==
            if lines[k].received < lines[k].ordered then lines[k].ordered - lines[k].received else 0.0
  {
    var front, last := lines[..|lines| - 1], lines[|lines| - 1];
    var rest := Outstanding(front);
    if k < |front| {
      OutstandingTotal(front, k);
    } else {
      forall r | r in rest ensures r.lineId != lines[k].id {
        var j := OutstandingHasLine(front, r);
        assert front[j] == lines[j];
      }
      NoReceiptNoTotal(rest, lines[k].id);
    }
    if last.received < last.ordered && last.inventoryItem.Some? {
      assert Outstanding(lines)[..|rest|] == rest;
    } else {
      assert Outstanding(lines) == rest;
    }
  }

  lemma OutstandingAcceptable(lines: seq<OrderLine>, r: ReceiptLine)
    requires DistinctLines(lines) && r in Outstanding(lines)
    ensures Acceptable(lines, r) && r.received > 0.0
  {
    var k := OutstandingHasLine(lines, r);
    var found := FindLine(lines, r.lineId).value;
    assert lines[found].id == lines[k].id;
  }

  lemma {:induction false} BookablePosted(ledger: SL.Ledger, context: SL.Context, locationId: nat, rs: seq<ReceiptLine>)
    requires forall r | r in rs :: SL.Usable(context, (r.itemId, locationId))
    ensures Post(ledger, context, locationId, rs).Posting?
  {
    if rs == [] {
    } else {
      assert rs == rs[..|rs| - 1] + [rs[|rs| - 1]];
      BookablePosted(ledger, context, locationId, rs[..|rs| - 1]);
    }
  }

  lemma SomethingIsOutstanding(o: Order) returns (k: nat)
    requires OrderSound(o) && !Final(o.status)
    ensures k < |o.lines| && o.lines[k].received < o.lines[k].ordered
  {
    assert o.lines[0].ordered > 0.0;
    assert !AllCovered(o.lines);
    k :| 0 <= k < |o.lines| && o.lines[k].received < o.lines[k].ordered;
  }

  lemma OutstandingIsValid(o: Order, context: SL.Context, locationId: nat)
    requires OrderSound(o) && !Final(o.status) && AllBookable(context, locationId, o.lines)
    ensures ValidReceipt(Receipt(locationId, Outstanding(o.lines)))
    ensures forall r | r in Outstanding(o.lines) ::
              Acceptable(o.lines, r) && SL.Usable(context, (r.itemId, locationId))
  {
    var rs := Outstanding(o.lines);
    var k := SomethingIsOutstanding(o);
    assert Bookable(context, locationId, o.lines[k]);
    OutstandingTotal(o.lines, k);
    forall r | r in rs
      ensures Acceptable(o.lines, r) && r.received > 0.0 && r.accepted >= 0.0 && r.damaged >= 0.0
      ensures SL.Usable(context, (r.itemId, locationId))
    {
      OutstandingAcceptable(o.lines, r);
      var j := OutstandingHasLine(o.lines, r);
      assert Bookable(context, locationId, o.lines[j]);
    }
  }

  lemma OutstandingCompletes(o: Order, ledger: SL.Ledger, context: SL.Context, locationId: nat)
    requires OrderSound(o) && !o.archived && !Final(o.status)
    requires Active(context.locations, locationId) && AllBookable(context, locationId, o.lines)
    ensures Completes(o, ledger, context, Receipt(locationId, Outstanding(o.lines)))
  {
    var rs := Outstanding(o.lines);
    var receipt := Receipt(locationId, rs);
    OutstandingIsValid(o, context, locationId);
    BookablePosted(ledger, context, locationId, rs);
    assert forall i :: 0 <= i < |rs| ==> rs[i] in rs;
    AcceptedReceipt(o, ledger, context, receipt);
    var after := Received(o.lines, rs);
    forall k | 0 <= k < |after| ensures after[k].received >= after[k].ordered {
      assert Bookable(context, locationId, o.lines[k]);
      OutstandingTotal(o.lines, k);
    }
  }

  /** One receipt at a location can complete an open order exactly when every line that is not yet covered has an
      inventory item that may be booked there. */
  lemma CompletableExactly(o: Order, ledger: SL.Ledger, context: SL.Context, locationId: nat)
    requires OrderSound(o) && !o.archived && !Final(o.status) && Active(context.locations, locationId)
    ensures (exists receipt: Receipt :: receipt.locationId == locationId && Completes(o, ledger, context, receipt)) <==>
            AllBookable(context, locationId, o.lines)
  {
    if receipt: Receipt :| receipt.locationId == locationId && Completes(o, ledger, context, receipt) {
      AcceptedReceipt(o, ledger, context, receipt);
      var after := Received(o.lines, receipt.lines);
      assert AllCovered(after);
      forall k | 0 <= k < |o.lines| ensures Bookable(context, locationId, o.lines[k]) {
        assert after[k].received >= after[k].ordered;
        CoveredIsBookable(o, ledger, context, receipt, k);
      }
    }
    if AllBookable(context, locationId, o.lines) {
      OutstandingCompletes(o, ledger, context, locationId);
    }
  }
}
