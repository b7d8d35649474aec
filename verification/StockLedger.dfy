/** Stock levels, the log of movements behind them, and the operations that change both. */
module StockLedger {

  /** An item at a storage location. */
  type Slot = (nat, nat)

  datatype Level = Level(onHand: real, reserved: real)

  datatype MovementType = OpeningBalance | StockIn | AdjustmentIncrease | AdjustmentDecrease | TransferIn | TransferOut | Damaged

  datatype Movement = Movement(slot: Slot, movementType: MovementType, quantity: real)

  datatype Ledger = Ledger(levels: map<Slot, Level>, movements: seq<Movement>)

  /** The organization's items and locations, each active or not. */
  datatype Context = Context(items: map<nat, bool>, locations: map<nat, bool>)

  datatype Outcome = Done | Forbidden | BadRequest

  function CheckSlot(context: Context, slot: Slot): Outcome {
    if slot.0 !in context.items || slot.1 !in context.locations then Forbidden
    else if !context.items[slot.0] || !context.locations[slot.1] then BadRequest
    else Done
  }

  function OnHand(levels: map<Slot, Level>, slot: Slot): real {
    if slot in levels then levels[slot].onHand else 0.0
  }

  function Reserved(levels: map<Slot, Level>, slot: Slot): real {
    if slot in levels then levels[slot].reserved else 0.0
  }

  /** Updates the row if there is one and inserts one otherwise, with the quantity each case was given. */
  function Upsert(levels: map<Slot, Level>, slot: Slot, updated: real, created: real): map<Slot, Level> {
    levels[slot := if slot in levels then levels[slot].(onHand := updated) else Level(created, 0.0)]
  }

  function Record(ledger: Ledger, levels: map<Slot, Level>, movements: seq<Movement>): Ledger {
    Ledger(levels, ledger.movements + movements)
  }

  // ---------------------------------------------------------------- the operations

  datatype Adjustment = Increase | Decrease

  datatype Op =
    | Open(slot: Slot, quantity: real)
    | Adjust(slot: Slot, adjustment: Adjustment, quantity: real)
    | Transfer(item: nat, from: nat, to: nat, quantity: real)
    | Receive(slot: Slot, accepted: real, damaged: real)

  function OpenStep(ledger: Ledger, context: Context, slot: Slot, quantity: real): (Ledger, Outcome) {
    var check := CheckSlot(context, slot);
    if check != Done then (ledger, check)
    else
      var levels := Upsert(ledger.levels, slot, OnHand(ledger.levels, slot) + quantity, quantity);
      (Record(ledger, levels, [Movement(slot, OpeningBalance, quantity)]), Done)
  }

  function AdjustStep(ledger: Ledger, context: Context, slot: Slot, adjustment: Adjustment, quantity: real): (Ledger, Outcome) {
    var check := CheckSlot(context, slot);
    var onHand := OnHand(ledger.levels, slot);
    var available := onHand - Reserved(ledger.levels, slot);
    var next := if adjustment == Increase then onHand + quantity else onHand - quantity;
    if check != Done then (ledger, check)
    else if adjustment == Decrease && (quantity > available || next < 0.0) then (ledger, BadRequest)
    else
      (Record(ledger, Upsert(ledger.levels, slot, next, next),
              [Movement(slot, if adjustment == Increase then AdjustmentIncrease else AdjustmentDecrease, quantity)]),
       Done)
  }

  function TransferStep(ledger: Ledger, context: Context, item: nat, from: nat, to: nat, quantity: real): (Ledger, Outcome) {
    var source, destination := (item, from), (item, to);
    if from == to then (ledger, BadRequest)
    else if CheckSlot(context, source) != Done then (ledger, CheckSlot(context, source))
    else if CheckSlot(context, destination) != Done then (ledger, CheckSlot(context, destination))
    else
      var onHand := OnHand(ledger.levels, source);
      if quantity > onHand - Reserved(ledger.levels, source) then (ledger, BadRequest)
      else
        var taken := Upsert(ledger.levels, source, onHand - quantity, -quantity);
        var moved := Upsert(taken, destination, OnHand(taken, destination) + quantity, quantity);
        (Record(ledger, moved, [Movement(source, TransferOut, quantity), Movement(destination, TransferIn, quantity)]), Done)
  }

  /** The ledger once accepted goods are booked, before the damaged ones are logged. */
  function Stocked(ledger: Ledger, slot: Slot, accepted: real): Ledger {
    if accepted > 0.0
    then Record(ledger, Upsert(ledger.levels, slot, OnHand(ledger.levels, slot) + accepted, accepted), [Movement(slot, StockIn, accepted)])
    else ledger
  }

  function ReceiveStep(ledger: Ledger, context: Context, slot: Slot, accepted: real, damaged: real): (Ledger, Outcome) {
    var check := CheckSlot(context, slot);
    if check != Done then (ledger, check)
    else
      var stocked := Stocked(ledger, slot, accepted);
      (if damaged > 0.0 then Record(stocked, stocked.levels, [Movement(slot, Damaged, damaged)]) else stocked, Done)
  }

  function Step(ledger: Ledger, context: Context, op: Op): (Ledger, Outcome) {
    match op
    case Open(slot, quantity) => OpenStep(ledger, context, slot, quantity)
    case Adjust(slot, adjustment, quantity) => AdjustStep(ledger, context, slot, adjustment, quantity)
    case Transfer(item, from, to, quantity) => TransferStep(ledger, context, item, from, to, quantity)
    case Receive(slot, accepted, damaged) => ReceiveStep(ledger, context, slot, accepted, damaged)
  }

  /** What the request validation lets through: positive quantities, and non-negative ones on receipts. */
  predicate Valid(op: Op) {
    match op
    case Open(_, quantity) => quantity > 0.0
    case Adjust(_, _, quantity) => quantity > 0.0
    case Transfer(_, _, _, quantity) => quantity > 0.0
    case Receive(_, accepted, damaged) => accepted >= 0.0 && damaged >= 0.0
  }

  // ---------------------------------------------------------------- levels agree with movements

  /** What a movement does to the stock on hand; damaged goods never enter it. */
  function Effect(movement: Movement): real {
    match movement.movementType
    case OpeningBalance => movement.quantity
    case StockIn => movement.quantity
    case AdjustmentIncrease => movement.quantity
    case TransferIn => movement.quantity
    case AdjustmentDecrease => -movement.quantity
    case TransferOut => -movement.quantity
    case Damaged => 0.0
  }

  function Net(movements: seq<Movement>, slot: Slot): real {
    if movements == [] then 0.0
    else
      var last := movements[|movements| - 1];
      Net(movements[..|movements| - 1], slot) + (if last.slot == slot then Effect(last) else 0.0)
  }

  function ItemNet(movements: seq<Movement>, item: nat): real {
    if movements == [] then 0.0
    else
      var last := movements[|movements| - 1];
      ItemNet(movements[..|movements| - 1], item) + (if last.slot.0 == item then Effect(last) else 0.0)
  }

  /** An item's stock over all locations, from the level rows. */
  ghost function ItemTotal(levels: map<Slot, Level>, item: nat): real {
    if levels == map[] then 0.0
    else
      var slot :| slot in levels;
      (if slot.0 == item then levels[slot].onHand else 0.0) + ItemTotal(levels - {slot}, item)
  }

  ghost predicate Sound(ledger: Ledger) {
    && (forall slot :: OnHand(ledger.levels, slot) == Net(ledger.movements, slot))
    && (forall item :: ItemTotal(ledger.levels, item) == ItemNet(ledger.movements, item))
    && (forall slot | slot in ledger.levels :: 0.0 <= ledger.levels[slot].reserved <= ledger.levels[slot].onHand)
  }

  ghost predicate NothingReserved(ledger: Ledger) {
    forall slot | slot in ledger.levels :: ledger.levels[slot].reserved == 0.0
  }

  const EMPTY := Ledger(map[], [])

  lemma {:induction false} ItemTotalWithout(levels: map<Slot, Level>, item: nat, slot: Slot)
    requires slot in levels
    ensures ItemTotal(levels, item) ==
            (if slot.0 == item then levels[slot].onHand else 0.0) + ItemTotal(levels - {slot}, item)
    decreases |levels|
  {
    var first :| first in levels && ItemTotal(levels, item) ==
      (if first.0 == item then levels[first].onHand else 0.0) + ItemTotal(levels - {first}, item);
    if first != slot {
      ItemTotalWithout(levels - {first}, item, slot);
      ItemTotalWithout(levels - {slot}, item, first);
      assert levels - {first} - {slot} == levels - {slot} - {first};
    }
  }

  /** Writing one row changes an item's total by that row's change alone. */
  lemma ItemTotalAfterWrite(levels: map<Slot, Level>, slot: Slot, level: Level, item: nat)
    ensures ItemTotal(levels[slot := level], item) ==
            ItemTotal(levels, item) + (if slot.0 == item then level.onHand - OnHand(levels, slot) else 0.0)
  {
    ItemTotalWithout(levels[slot := level], item, slot);
    if slot in levels {
      ItemTotalWithout(levels, item, slot);
      assert levels[slot := level] - {slot} == levels - {slot};
    } else {
      assert levels[slot := level] - {slot} == levels;
    }
  }

  lemma NetAfter(movements: seq<Movement>, last: Movement, slot: Slot, item: nat)
    ensures Net(movements + [last], slot) == Net(movements, slot) + (if last.slot == slot then Effect(last) else 0.0)
    ensures ItemNet(movements + [last], item) == ItemNet(movements, item) + (if last.slot.0 == item then Effect(last) else 0.0)
  {
    assert (movements + [last])[..|movements|] == movements;
  }

  /** Changing a level by exactly what a logged movement says keeps the two in agreement. */
  lemma PostingKeepsSound(ledger: Ledger, level: Level, movement: Movement)
    requires Sound(ledger)
    requires level.onHand == OnHand(ledger.levels, movement.slot) + Effect(movement)
    requires 0.0 <= level.reserved <= level.onHand
    ensures Sound(Record(ledger, ledger.levels[movement.slot := level], [movement]))
  {
    var levels := ledger.levels[movement.slot := level];
    forall slot ensures OnHand(levels, slot) == Net(ledger.movements + [movement], slot) {
      NetAfter(ledger.movements, movement, slot, 0);
    }
    forall item ensures ItemTotal(levels, item) == ItemNet(ledger.movements + [movement], item) {
      NetAfter(ledger.movements, movement, movement.slot, item);
      ItemTotalAfterWrite(ledger.levels, movement.slot, level, item);
    }
  }

  lemma DamageKeepsSound(ledger: Ledger, movement: Movement)
    requires Sound(ledger) && movement.movementType == Damaged
    ensures Sound(Record(ledger, ledger.levels, [movement]))
  {
    forall slot, item
      ensures Net(ledger.movements + [movement], slot) == Net(ledger.movements, slot)
      ensures ItemNet(ledger.movements + [movement], item) == ItemNet(ledger.movements, item)
    {
      NetAfter(ledger.movements, movement, slot, item);
    }
  }

  lemma TransferKeepsSound(ledger: Ledger, context: Context, item: nat, from: nat, to: nat, quantity: real)
    requires Sound(ledger) && quantity > 0.0
    ensures Sound(TransferStep(ledger, context, item, from, to, quantity).0)
  {
    var after := TransferStep(ledger, context, item, from, to, quantity).0;
    if after != ledger {
      var source, destination := (item, from), (item, to);
      var out, into := Movement(source, TransferOut, quantity), Movement(destination, TransferIn, quantity);
      var level := ledger.levels[source];
      var taken := Record(ledger, ledger.levels[source := level.(onHand := level.onHand - quantity)], [out]);
      PostingKeepsSound(ledger, level.(onHand := level.onHand - quantity), out);
      var landed := if destination in taken.levels
        then taken.levels[destination].(onHand := taken.levels[destination].onHand + quantity) else Level(quantity, 0.0);
      PostingKeepsSound(taken, landed, into);
      assert after.movements == taken.movements + [into];
      assert after == Record(taken, taken.levels[destination := landed], [into]);
    }
  }

  function Raised(ledger: Ledger, slot: Slot, quantity: real): Level {
    if slot in ledger.levels then ledger.levels[slot].(onHand := ledger.levels[slot].onHand + quantity) else Level(quantity, 0.0)
  }

  lemma StockedKeepsSound(ledger: Ledger, slot: Slot, accepted: real)
    requires Sound(ledger) && accepted >= 0.0
    ensures Sound(Stocked(ledger, slot, accepted))
  {
    if accepted > 0.0 {
      var raised := Raised(ledger, slot, accepted);
      assert Stocked(ledger, slot, accepted) == Record(ledger, ledger.levels[slot := raised], [Movement(slot, StockIn, accepted)]);
      PostingKeepsSound(ledger, raised, Movement(slot, StockIn, accepted));
    }
  }

  lemma ReceiveKeepsSound(ledger: Ledger, context: Context, slot: Slot, accepted: real, damaged: real)
    requires Sound(ledger) && accepted >= 0.0 && damaged >= 0.0
    ensures Sound(ReceiveStep(ledger, context, slot, accepted, damaged).0)
  {
    if CheckSlot(context, slot) == Done {
      StockedKeepsSound(ledger, slot, accepted);
      DamageKeepsSound(Stocked(ledger, slot, accepted), Movement(slot, Damaged, damaged));
    }
  }

  lemma OpenKeepsSound(ledger: Ledger, context: Context, slot: Slot, quantity: real)
    requires Sound(ledger) && quantity > 0.0
    ensures Sound(OpenStep(ledger, context, slot, quantity).0)
  {
    PostingKeepsSound(ledger, Raised(ledger, slot, quantity), Movement(slot, OpeningBalance, quantity));
  }

  lemma AdjustKeepsSound(ledger: Ledger, context: Context, slot: Slot, adjustment: Adjustment, quantity: real)
    requires Sound(ledger) && quantity > 0.0
    ensures Sound(AdjustStep(ledger, context, slot, adjustment, quantity).0)
  {
    var after := AdjustStep(ledger, context, slot, adjustment, quantity);
    if after.1 == Done {
      var raised := Raised(ledger, slot, if adjustment == Increase then quantity else -quantity);
      var movement := Movement(slot, if adjustment == Increase then AdjustmentIncrease else AdjustmentDecrease, quantity);
      assert after.0 == Record(ledger, ledger.levels[slot := raised], [movement]);
      PostingKeepsSound(ledger, raised, movement);
    }
  }

  /** Each operation keeps levels, item totals and movements in agreement, and reserves nothing. */
  lemma StepKeepsSound(ledger: Ledger, context: Context, op: Op)
    requires Sound(ledger) && Valid(op)
    ensures Sound(Step(ledger, context, op).0)
    ensures NothingReserved(ledger) ==> NothingReserved(Step(ledger, context, op).0)
  {
    match op
    case Open(slot, quantity) =>
      OpenKeepsSound(ledger, context, slot, quantity);
    case Adjust(slot, adjustment, quantity) =>
      AdjustKeepsSound(ledger, context, slot, adjustment, quantity);
    case Transfer(item, from, to, quantity) =>
      TransferKeepsSound(ledger, context, item, from, to, quantity);
    case Receive(slot, accepted, damaged) =>
      ReceiveKeepsSound(ledger, context, slot, accepted, damaged);
  }

  function Run(ledger: Ledger, steps: seq<(Context, Op)>): Ledger
    decreases |steps|
  {
    if steps == [] then ledger else Run(Step(ledger, steps[0].0, steps[0].1).0, steps[1..])
  }

  /** After any run from an empty ledger, every level is the signed sum of its movements, every item's
      levels add up to the signed sum of its movements, no level is negative, and, since no operation here
      reserves, everything on hand is available. */
  lemma EveryReachableLedgerAgrees(steps: seq<(Context, Op)>)
    requires forall i :: 0 <= i < |steps| ==> Valid(steps[i].1)
    ensures Sound(Run(EMPTY, steps)) && NothingReserved(Run(EMPTY, steps))
  {
    RunKeepsSound(EMPTY, steps);
  }

  lemma {:induction false} RunKeepsSound(ledger: Ledger, steps: seq<(Context, Op)>)
    requires Sound(ledger) && forall i :: 0 <= i < |steps| ==> Valid(steps[i].1)
    ensures Sound(Run(ledger, steps))
    ensures NothingReserved(ledger) ==> NothingReserved(Run(ledger, steps))
    decreases |steps|
  {
    if steps == [] {
    } else {
      StepKeepsSound(ledger, steps[0].0, steps[0].1);
      RunKeepsSound(Step(ledger, steps[0].0, steps[0].1).0, steps[1..]);
    }
  }

  /** A transfer moves the quantity between the two locations and leaves every item's total alone. */
  lemma TransferConserves(ledger: Ledger, context: Context, item: nat, from: nat, to: nat, quantity: real)
    requires Sound(ledger) && quantity > 0.0
    requires TransferStep(ledger, context, item, from, to, quantity).1 == Done
    ensures var after := TransferStep(ledger, context, item, from, to, quantity).0;
            && (forall other :: ItemTotal(after.levels, other) == ItemTotal(ledger.levels, other))
            && OnHand(after.levels, (item, from)) == OnHand(ledger.levels, (item, from)) - quantity
            && OnHand(after.levels, (item, to)) == OnHand(ledger.levels, (item, to)) + quantity
            && (forall slot | slot != (item, from) && slot != (item, to) ::
                  OnHand(after.levels, slot) == OnHand(ledger.levels, slot))
  {
    var after := TransferStep(ledger, context, item, from, to, quantity).0;
    TransferKeepsSound(ledger, context, item, from, to, quantity);
    var out, into := Movement((item, from), TransferOut, quantity), Movement((item, to), TransferIn, quantity);
    assert after.movements == ledger.movements + [out] + [into];
    forall other ensures ItemNet(after.movements, other) == ItemNet(ledger.movements, other) {
      NetAfter(ledger.movements, out, (item, from), other);
      NetAfter(ledger.movements + [out], into, (item, to), other);
    }
  }

  /** The branch that would insert a negative level on a transfer, or on a decrease, is never taken: with a
      positive quantity the source row is always there. */
  lemma NegativeRowNeverInserted(ledger: Ledger, context: Context, op: Op)
    requires Sound(ledger) && Valid(op) && Step(ledger, context, op).1 == Done
    ensures op.Transfer? ==> (op.item, op.from) in ledger.levels
    ensures op.Adjust? && op.adjustment == Decrease ==> op.slot in ledger.levels
  {
  }

  /** What an accepted operation is meant to add to the stock in a slot. */
  function Intended(op: Op, slot: Slot): real {
    match op
    case Open(at, quantity) => if slot == at then quantity else 0.0
    case Adjust(at, adjustment, quantity) =>
      if slot != at then 0.0 else if adjustment == Increase then quantity else -quantity
    case Transfer(item, from, to, quantity) =>
      (if slot == (item, to) then quantity else 0.0) - (if slot == (item, from) then quantity else 0.0)
    case Receive(at, accepted, _) => if slot == at then accepted else 0.0
  }

  /** Every accepted operation changes every level by exactly what it is meant to, reserves nothing, and a
      refused one changes nothing. */
  lemma LevelsMoveAsIntended(ledger: Ledger, context: Context, op: Op, slot: Slot)
    requires Sound(ledger) && Valid(op)
    ensures var (after, outcome) := Step(ledger, context, op);
            if outcome == Done
            then && OnHand(after.levels, slot) == OnHand(ledger.levels, slot) + Intended(op, slot)
                 && Reserved(after.levels, slot) == Reserved(ledger.levels, slot)
            else after == ledger
  {
    if op.Transfer? && Step(ledger, context, op).1 == Done {
      NegativeRowNeverInserted(ledger, context, op);
    }
  }

  // ---------------------------------------------------------------- when an operation is accepted, and what it logs

  /** The item and the location both belong to the organization and are active. */
  predicate Usable(context: Context, slot: Slot) {
    slot.0 in context.items && context.items[slot.0] && slot.1 in context.locations && context.locations[slot.1]
  }

  predicate Known(context: Context, slot: Slot) {
    slot.0 in context.items && slot.1 in context.locations
  }

  /** What an operation needs: usable slots, two different locations for a transfer, and, where stock is given up, no
      more than what is on hand and not reserved. */
  ghost predicate MayHappen(ledger: Ledger, context: Context, op: Op) {
    match op
    case Open(slot, _) => Usable(context, slot)
    case Adjust(slot, adjustment, quantity) =>
      Usable(context, slot) && (adjustment == Decrease ==> quantity <= OnHand(ledger.levels, slot) - Reserved(ledger.levels, slot))
    case Transfer(item, from, to, quantity) =>
      && from != to && Usable(context, (item, from)) && Usable(context, (item, to))
      && quantity <= OnHand(ledger.levels, (item, from)) - Reserved(ledger.levels, (item, from))
    case Receive(slot, _, _) => Usable(context, slot)
  }

  /** An operation is accepted exactly when it may happen; in particular the service's further check against a negative
      level never decides anything. One on an unknown item or location is forbidden, unless a transfer stays in place. */
  lemma AcceptedExactly(ledger: Ledger, context: Context, op: Op)
    requires Sound(ledger) && Valid(op)
    ensures Step(ledger, context, op).1 == Done <==> MayHappen(ledger, context, op)
    ensures Step(ledger, context, op).1 == Forbidden <==>
            match op
            case Open(slot, _) => !Known(context, slot)
            case Adjust(slot, _, _) => !Known(context, slot)
            case Transfer(item, from, to, _) =>
              from != to && (!Known(context, (item, from)) || (Usable(context, (item, from)) && !Known(context, (item, to))))
            case Receive(slot, _, _) => !Known(context, slot)
  {
  }

  /** The movements an accepted operation appends. */
  function Logged(op: Op): seq<Movement> {
    match op
    case Open(slot, quantity) => [Movement(slot, OpeningBalance, quantity)]
    case Adjust(slot, Increase, quantity) => [Movement(slot, AdjustmentIncrease, quantity)]
    case Adjust(slot, Decrease, quantity) => [Movement(slot, AdjustmentDecrease, quantity)]
    case Transfer(item, from, to, quantity) =>
      [Movement((item, from), TransferOut, quantity), Movement((item, to), TransferIn, quantity)]
    case Receive(slot, accepted, damaged) =>
      (if accepted > 0.0 then [Movement(slot, StockIn, accepted)] else []) +
      (if damaged > 0.0 then [Movement(slot, MovementType.Damaged, damaged)] else [])
  }

  lemma LogGrows(ledger: Ledger, context: Context, op: Op)
    requires Step(ledger, context, op).1 == Done
    ensures Step(ledger, context, op).0.movements == ledger.movements + Logged(op)
  {
  }

  // ---------------------------------------------------------------- the service

  class InventoryService {
    var levels: map<Slot, Level>
    var movements: seq<Movement>

    ghost function Value(): Ledger
      reads this
    {
      Ledger(levels, movements)
    }

    constructor ()
      ensures Value() == EMPTY
    {
      levels, movements := map[], [];
    }

    method CreateOpeningBalance(context: Context, slot: Slot, quantity: real) returns (outcome: Outcome)
      requires quantity > 0.0
      modifies this
      ensures (Value(), outcome) == Step(old(Value()), context, Open(slot, quantity))
      ensures old(Sound(Value())) ==> Sound(Value())
    {
      if Sound(Value()) {
        StepKeepsSound(Value(), context, Open(slot, quantity));
      }
      outcome := CheckSlot(context, slot);
      if outcome != Done {
        return;
      }
      var next := OnHand(levels, slot) + quantity;
      levels := Upsert(levels, slot, next, quantity);
      movements := movements + [Movement(slot, OpeningBalance, quantity)];
    }

    method CreateStockAdjustment(context: Context, slot: Slot, adjustment: Adjustment, quantity: real) returns (outcome: Outcome)
      requires quantity > 0.0
      modifies this
      ensures (Value(), outcome) == Step(old(Value()), context, Adjust(slot, adjustment, quantity))
      ensures old(Sound(Value())) ==> Sound(Value())
    {
      if Sound(Value()) {
        StepKeepsSound(Value(), context, Adjust(slot, adjustment, quantity));
      }
      outcome := CheckSlot(context, slot);
      if outcome != Done {
        return;
      }
      var onHand, reserved := OnHand(levels, slot), Reserved(levels, slot);
      var available := onHand - reserved;
      var isIncrease := adjustment == Increase;
      var next := if isIncrease then onHand + quantity else onHand - quantity;
      if !isIncrease {
        if quantity > available {
          return BadRequest;
        }
        if next < 0.0 {
          return BadRequest;
        }
      }
      levels := Upsert(levels, slot, next, next);
      movements := movements + [Movement(slot, if isIncrease then AdjustmentIncrease else AdjustmentDecrease, quantity)];
    }

    method CreateStockTransfer(context: Context, item: nat, from: nat, to: nat, quantity: real) returns (outcome: Outcome)
      requires quantity > 0.0
      modifies this
      ensures (Value(), outcome) == Step(old(Value()), context, Transfer(item, from, to, quantity))
      ensures old(Sound(Value())) ==> Sound(Value())
    {
      if Sound(Value()) {
        StepKeepsSound(Value(), context, Transfer(item, from, to, quantity));
      }
      if from == to {
        return BadRequest;
      }
      outcome := CheckSlot(context, (item, from));
      if outcome != Done {
        return;
      }
      outcome := CheckSlot(context, (item, to));
      if outcome != Done {
        return;
      }
      var onHand, reserved := OnHand(levels, (item, from)), Reserved(levels, (item, from));
      if quantity > onHand - reserved {
        return BadRequest;
      }
      levels := Upsert(levels, (item, from), onHand - quantity, -quantity);
      levels := Upsert(levels, (item, to), OnHand(levels, (item, to)) + quantity, quantity);
      movements := movements + [Movement((item, from), TransferOut, quantity), Movement((item, to), TransferIn, quantity)];
    }

    method ApplyGoodsReceiptMovements(context: Context, slot: Slot, accepted: real, damaged: real) returns (outcome: Outcome)
      requires accepted >= 0.0 && damaged >= 0.0
      modifies this
      ensures (Value(), outcome) == Step(old(Value()), context, Receive(slot, accepted, damaged))
      ensures old(Sound(Value())) ==> Sound(Value())
    {
      if Sound(Value()) {
        StepKeepsSound(Value(), context, Receive(slot, accepted, damaged));
      }
      outcome := CheckSlot(context, slot);
      if outcome != Done {
        return;
      }
      if accepted > 0.0 {
        levels := Upsert(levels, slot, OnHand(levels, slot) + accepted, accepted);
        movements := movements + [Movement(slot, StockIn, accepted)];
      }
      if damaged > 0.0 {
        movements := movements + [Movement(slot, Damaged, damaged)];
      }
    }
  }
}
