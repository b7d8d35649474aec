/** Asset reservations: a check on the sum of overlapping reservations, and what it guarantees at every instant. */
module AssetReservations {
  import opened Collections

  datatype Status = Draft | Reserved | Confirmed | Released | Fulfilled | Cancelled

  predicate Consumes(status: Status) { status == Reserved || status == Confirmed }

  datatype Reservation = Reservation(
    definitionId: nat, instanceId: Option<nat>, quantity: real, start: int, end: int, status: Status)

  datatype Definition = Definition(serialized: bool, quantityOnHand: real, quantityUnavailable: real)

  datatype Instance = Instance(definitionId: nat, active: bool, archived: bool)

  /** What is asked for. A request is linked when its event is the organization's and its requirement item exists. */
  datatype Request = Request(definitionId: nat, instanceId: Option<nat>, quantity: real, start: int, end: int, linked: bool)

  datatype Outcome = Done(id: nat) | BadRequest | NotFound | Conflict

  /** The rows the reservation service works on; ids are positions. */
  datatype Tables = Tables(
    definitions: map<nat, Definition>, instances: seq<Instance>, reservations: seq<Reservation>)

  function CountInstances(instances: seq<Instance>, definitionId: nat): nat {
    if instances == [] then 0
    else
      var last := instances[|instances| - 1];
      CountInstances(instances[..|instances| - 1], definitionId) +
      (if last.definitionId == definitionId && last.active && !last.archived then 1 else 0)
  }

  function Capacity(definition: Definition, definitionId: nat, instances: seq<Instance>): real {
    if definition.serialized then CountInstances(instances, definitionId) as real
    else definition.quantityOnHand - definition.quantityUnavailable
  }

  // ---------------------------------------------------------------- overlaps and use

  predicate Overlaps(r: Reservation, start: int, end: int) {
    Consumes(r.status) && r.start < end && r.end > start
  }

  /** Whether a reservation takes stock at an instant: it runs from its start up to, not including, its end. */
  predicate Covers(r: Reservation, instant: int) {
    Consumes(r.status) && r.start <= instant < r.end
  }

  function OverlapSum(rows: seq<Reservation>, definitionId: nat, start: int, end: int): real {
    if rows == [] then 0.0
    else
      var last := rows[|rows| - 1];
      OverlapSum(rows[..|rows| - 1], definitionId, start, end) +
      (if last.definitionId == definitionId && Overlaps(last, start, end) then last.quantity else 0.0)
  }

  predicate InstanceBusy(rows: seq<Reservation>, instanceId: nat, start: int, end: int) {
    exists i :: 0 <= i < |rows| && rows[i].instanceId == Some(instanceId) && Overlaps(rows[i], start, end)
  }

  /** What one reservation uses of a definition at an instant. */
  function Share(r: Reservation, definitionId: nat, instant: int): real {
    if r.definitionId == definitionId && Covers(r, instant) then r.quantity else 0.0
  }

  function UseAt(rows: seq<Reservation>, definitionId: nat, instant: int): real {
    if rows == [] then 0.0
    else UseAt(rows[..|rows| - 1], definitionId, instant) + Share(rows[|rows| - 1], definitionId, instant)
  }

  ghost predicate WithinCapacity(t: Tables) {
    forall d, instant :: d in t.definitions ==>
      UseAt(t.reservations, d, instant) <= Max(Capacity(t.definitions[d], d, t.instances), 0.0)
  }

  ghost predicate NoDoubleBooking(rows: seq<Reservation>) {
    forall i, j :: 0 <= i < j < |rows| && rows[i].instanceId.Some? && rows[i].instanceId == rows[j].instanceId &&
                   Consumes(rows[i].status) && Consumes(rows[j].status)
                   ==> rows[i].end <= rows[j].start || rows[j].end <= rows[i].start
  }

  ghost predicate WellFormed(rows: seq<Reservation>) {
    forall i :: 0 <= i < |rows| ==> rows[i].quantity > 0.0 && rows[i].start < rows[i].end
  }

  ghost predicate Safe(t: Tables) {
    WellFormed(t.reservations) && WithinCapacity(t) && NoDoubleBooking(t.reservations)
  }

  lemma {:induction false} UseWithinOverlap(rows: seq<Reservation>, definitionId: nat, start: int, end: int, instant: int)
    requires WellFormed(rows) && start <= instant < end
    ensures 0.0 <= UseAt(rows, definitionId, instant) <= OverlapSum(rows, definitionId, start, end)
  {
    if rows == [] {
    } else {
      UseWithinOverlap(rows[..|rows| - 1], definitionId, start, end, instant);
    }
  }

  lemma {:induction false} UseAfterUpdate(rows: seq<Reservation>, i: nat, r: Reservation, definitionId: nat, instant: int)
    requires i < |rows|
    ensures UseAt(rows[i := r], definitionId, instant) ==
            UseAt(rows, definitionId, instant) - Share(rows[i], definitionId, instant) + Share(r, definitionId, instant)
  {
    var front := rows[..|rows| - 1];
    if i == |rows| - 1 {
      assert rows[i := r][..i] == front;
    } else {
      assert rows[i := r][..|rows| - 1] == front[i := r];
      UseAfterUpdate(front, i, r, definitionId, instant);
    }
  }

  // ---------------------------------------------------------------- the operations

  function Insert(t: Tables, request: Request): Tables {
    t.(reservations := t.reservations +
       [Reservation(request.definitionId, request.instanceId, request.quantity, request.start, request.end, Reserved)])
  }

  function CreateStep(t: Tables, request: Request): (Tables, Outcome) {
    if request.definitionId !in t.definitions then (t, NotFound)
    else if !request.linked || request.start >= request.end then (t, BadRequest)
    else if request.quantity >
            Capacity(t.definitions[request.definitionId], request.definitionId, t.instances) -
            OverlapSum(t.reservations, request.definitionId, request.start, request.end) then (t, Conflict)
    else if request.instanceId.Some? &&
            InstanceBusy(t.reservations, request.instanceId.value, request.start, request.end) then (t, Conflict)
    else (Insert(t, request), Done(|t.reservations|))
  }

  function ChangeStatusStep(t: Tables, id: nat, status: Status): (Tables, Outcome) {
    if id >= |t.reservations| then (t, NotFound)
    else (t.(reservations := t.reservations[id := t.reservations[id].(status := status)]), Done(id))
  }

  datatype Op =
    | Create(request: Request)
    | ChangeStatus(id: nat, status: Status)
    | Restock(definitions: map<nat, Definition>, instances: seq<Instance>)

  function Step(t: Tables, op: Op): Tables {
    match op
    case Create(request) => CreateStep(t, request).0
    case ChangeStatus(id, status) => ChangeStatusStep(t, id, status).0
    case Restock(definitions, instances) => t.(definitions := definitions, instances := instances)
  }

  predicate Reactivates(t: Tables, id: nat, status: Status) {
    id < |t.reservations| && !Consumes(t.reservations[id].status) && Consumes(status)
  }

  /** A step that the reservation check does not need to see: it adds with a positive quantity, does not
      bring an inactive reservation back, and does not lower any capacity; a definition may be new if no
      reservation names it yet. */
  ghost predicate Benign(t: Tables, op: Op) {
    match op
    case Create(request) => request.quantity > 0.0
    case ChangeStatus(id, status) => !Reactivates(t, id, status)
    case Restock(definitions, instances) =>
      forall d | d in definitions ::
        if d in t.definitions then Capacity(t.definitions[d], d, t.instances) <= Capacity(definitions[d], d, instances)
        else Unnamed(t.reservations, d)
  }

  ghost predicate Unnamed(rows: seq<Reservation>, definitionId: nat) {
    forall i :: 0 <= i < |rows| ==> rows[i].definitionId != definitionId
  }

  lemma {:induction false} UnnamedUsesNothing(rows: seq<Reservation>, definitionId: nat, instant: int)
    requires Unnamed(rows, definitionId)
    ensures UseAt(rows, definitionId, instant) == 0.0
  {
    if rows == [] {
    } else {
      UnnamedUsesNothing(rows[..|rows| - 1], definitionId, instant);
    }
  }

  lemma RestockKeepsSafe(t: Tables, definitions: map<nat, Definition>, instances: seq<Instance>)
    requires Safe(t) && Benign(t, Restock(definitions, instances))
    ensures Safe(t.(definitions := definitions, instances := instances))
  {
    forall d, instant | d in definitions
      ensures UseAt(t.reservations, d, instant) <= Max(Capacity(definitions[d], d, instances), 0.0)
    {
      if d !in t.definitions {
        UnnamedUsesNothing(t.reservations, d, instant);
      }
    }
  }

  lemma CreateKeepsSafe(t: Tables, request: Request)
    requires Safe(t) && request.quantity > 0.0
    ensures Safe(CreateStep(t, request).0)
  {
    var after := CreateStep(t, request).0;
    if after != t {
      var rows, more := t.reservations, after.reservations;
      assert more[..|more| - 1] == rows;
      forall d, instant | d in t.definitions
        ensures UseAt(more, d, instant) <= Max(Capacity(t.definitions[d], d, t.instances), 0.0)
      {
        if request.start <= instant < request.end {
          UseWithinOverlap(rows, d, request.start, request.end, instant);
        }
      }
      forall i | 0 <= i < |rows| && rows[i].instanceId.Some? && rows[i].instanceId == request.instanceId && Consumes(rows[i].status)
        ensures rows[i].end <= request.start || request.end <= rows[i].start
      {
        assert !Overlaps(rows[i], request.start, request.end);
      }
    }
  }

  /** An accepted reservation counts, with its whole quantity, from its start up to its end, and for no other
      definition; everything else counts as before. */
  lemma AcceptedReservationCounts(t: Tables, request: Request, definitionId: nat, instant: int)
    requires CreateStep(t, request).1.Done?
    ensures UseAt(CreateStep(t, request).0.reservations, definitionId, instant) ==
            UseAt(t.reservations, definitionId, instant) +
            (if definitionId == request.definitionId && request.start <= instant < request.end then request.quantity else 0.0)
  {
    var after := CreateStep(t, request).0.reservations;
    assert after[..|after| - 1] == t.reservations;
  }

  lemma ChangeStatusKeepsSafe(t: Tables, id: nat, status: Status)
    requires Safe(t) && !Reactivates(t, id, status)
    ensures Safe(ChangeStatusStep(t, id, status).0)
  {
    if id < |t.reservations| {
      var changed := t.reservations[id].(status := status);
      var after := t.reservations[id := changed];
      forall d, instant | d in t.definitions
        ensures UseAt(after, d, instant) <= Max(Capacity(t.definitions[d], d, t.instances), 0.0)
      {
        UseAfterUpdate(t.reservations, id, changed, d, instant);
      }
    }
  }

  function Run(t: Tables, ops: seq<Op>): Tables
    decreases |ops|
  {
    if ops == [] then t else Run(Step(t, ops[0]), ops[1..])
  }

  ghost predicate AllBenign(t: Tables, ops: seq<Op>)
    decreases |ops|
  {
    ops != [] ==> Benign(t, ops[0]) && AllBenign(Step(t, ops[0]), ops[1..])
  }

  /** Over any run in which no inactive reservation is brought back and no capacity is lowered, the active
      reservations covering any one instant fit the capacity, and no instance is booked twice at once. */
  lemma {:induction false} EveryInstantFits(t: Tables, ops: seq<Op>)
    requires Safe(t) && AllBenign(t, ops)
    ensures Safe(Run(t, ops))
    decreases |ops|
  {
    if ops == [] {
    } else {
      match ops[0] {
        case Create(request) => CreateKeepsSafe(t, request);
        case ChangeStatus(id, status) => ChangeStatusKeepsSafe(t, id, status);
        case Restock(definitions, instances) => RestockKeepsSafe(t, definitions, instances);
      }
      EveryInstantFits(Step(t, ops[0]), ops[1..]);
    }
  }

  // ---------------------------------------------------------------- bringing a reservation back

  /** The latest start, no earlier than `from`, among active reservations covering an instant. */
  function LatestStart(rows: seq<Reservation>, from: int, instant: int): (point: int)
    requires from <= instant
    ensures from <= point <= instant
  {
    if rows == [] then from
    else
      var rest := LatestStart(rows[..|rows| - 1], from, instant);
      var last := rows[|rows| - 1];
      if Covers(last, instant) && last.start > rest then last.start else rest
  }

  lemma {:induction false} LatestStartIsAStart(rows: seq<Reservation>, from: int, instant: int)
    requires from <= instant
    ensures var point := LatestStart(rows, from, instant);
            && (point == from || exists i :: 0 <= i < |rows| && Consumes(rows[i].status) && rows[i].start == point)
            && (forall i :: 0 <= i < |rows| && Covers(rows[i], instant) ==> rows[i].start <= point)
  {
    if rows == [] {
    } else {
      LatestStartIsAStart(rows[..|rows| - 1], from, instant);
    }
  }

  lemma {:induction false} UseGrowsTowardsStarts(rows: seq<Reservation>, definitionId: nat, point: int, instant: int)
    requires WellFormed(rows) && point <= instant
    requires forall i :: 0 <= i < |rows| && Covers(rows[i], instant) ==> rows[i].start <= point
    ensures UseAt(rows, definitionId, instant) <= UseAt(rows, definitionId, point)
  {
    if rows == [] {
    } else {
      var front := rows[..|rows| - 1];
      forall i | 0 <= i < |front| && Covers(front[i], instant) ensures front[i].start <= point {
        assert front[i] == rows[i];
      }
      UseGrowsTowardsStarts(front, definitionId, point, instant);
    }
  }

  predicate FitsAt(t: Tables, r: Reservation, instant: int) {
    r.definitionId in t.definitions ==>
      UseAt(t.reservations, r.definitionId, instant) + r.quantity <=
      Max(Capacity(t.definitions[r.definitionId], r.definitionId, t.instances), 0.0)
  }

  /** The finite test a caller could make before bringing a reservation back: there is room at its own
      start and wherever an active reservation starts during it, and its instance is free throughout. */
  predicate RoomFor(t: Tables, r: Reservation) {
    && FitsAt(t, r, r.start)
    && (forall o | o in t.reservations && Consumes(o.status) && r.start <= o.start < r.end :: FitsAt(t, r, o.start))
    && (r.instanceId.Some? ==> !InstanceBusy(t.reservations, r.instanceId.value, r.start, r.end))
  }

  lemma RoomAtStartsIsRoomThroughout(t: Tables, r: Reservation, instant: int)
    requires WellFormed(t.reservations) && RoomFor(t, r) && r.start <= instant < r.end
    ensures FitsAt(t, r, instant)
  {
    var point := LatestStart(t.reservations, r.start, instant);
    LatestStartIsAStart(t.reservations, r.start, instant);
    UseGrowsTowardsStarts(t.reservations, r.definitionId, point, instant);
    assert FitsAt(t, r, point);
  }

  /** A status change that brings a reservation back is not checked by the service; it keeps the table safe
      exactly when there is room for that reservation. */
  lemma ReactivationSafeExactlyWithRoom(t: Tables, id: nat, status: Status)
    requires Safe(t) && Reactivates(t, id, status)
    ensures Safe(ChangeStatusStep(t, id, status).0) <==> RoomFor(t, t.reservations[id])
  {
    var rows, r := t.reservations, t.reservations[id];
    var changed := r.(status := status);
    var after := rows[id := changed];
    if RoomFor(t, r) {
      forall d, instant | d in t.definitions
        ensures UseAt(after, d, instant) <= Max(Capacity(t.definitions[d], d, t.instances), 0.0)
      {
        UseAfterUpdate(rows, id, changed, d, instant);
        if d == r.definitionId && r.start <= instant < r.end {
          RoomAtStartsIsRoomThroughout(t, r, instant);
        }
      }
      ReactivatedInstanceFree(t, id, status);
    }
    if Safe(ChangeStatusStep(t, id, status).0) {
      forall instant | r.start <= instant < r.end ensures FitsAt(t, r, instant) {
        UseAfterUpdate(rows, id, changed, r.definitionId, instant);
      }
      if r.instanceId.Some? && InstanceBusy(rows, r.instanceId.value, r.start, r.end) {
        BusyInstanceIsBookedTwice(rows, id, status);
      }
    }
  }

  lemma BusyInstanceIsBookedTwice(rows: seq<Reservation>, id: nat, status: Status)
    requires WellFormed(rows) && id < |rows| && !Consumes(rows[id].status) && Consumes(status)
    requires rows[id].instanceId.Some?
    requires InstanceBusy(rows, rows[id].instanceId.value, rows[id].start, rows[id].end)
    ensures !NoDoubleBooking(rows[id := rows[id].(status := status)])
  {
    var after := rows[id := rows[id].(status := status)];
    var i :| 0 <= i < |rows| && rows[i].instanceId == rows[id].instanceId && Overlaps(rows[i], rows[id].start, rows[id].end);
    assert i != id && after[i] == rows[i] && after[id] == rows[id].(status := status);
  }

  lemma ReactivatedInstanceFree(t: Tables, id: nat, status: Status)
    requires Safe(t) && Reactivates(t, id, status) && RoomFor(t, t.reservations[id])
    ensures NoDoubleBooking(ChangeStatusStep(t, id, status).0.reservations)
  {
    var rows, r := t.reservations, t.reservations[id];
    forall i | 0 <= i < |rows| && i != id && rows[i].instanceId.Some? && rows[i].instanceId == r.instanceId && Consumes(rows[i].status)
      ensures rows[i].end <= r.start || r.end <= rows[i].start
    {
      assert !Overlaps(rows[i], r.start, r.end);
    }
  }

  /** Without that room the capacity is really exceeded: reserve everything, cancel, reserve everything
      again, and bring the first reservation back. */
  lemma ReactivationCanOverbook()
    ensures var t := Tables(map[0 := Definition(false, 10.0, 0.0)], [], []);
            var request := Request(0, None, 10.0, 0, 5, true);
            var ops := [Create(request), ChangeStatus(0, Cancelled), Create(request), ChangeStatus(0, Reserved)];
            Safe(t) && UseAt(Run(t, ops).reservations, 0, 2) == 20.0
  {
    var t := Tables(map[0 := Definition(false, 10.0, 0.0)], [], []);
    var request := Request(0, None, 10.0, 0, 5, true);
    var ops := [Create(request), ChangeStatus(0, Cancelled), Create(request), ChangeStatus(0, Reserved)];
    var live := Reservation(0, None, 10.0, 0, 5, Reserved);
    FourSteps(t, request, ops, live);
    TwoRows(live, live, 0, 0, 5, 2);
  }

  lemma FourSteps(t: Tables, request: Request, ops: seq<Op>, live: Reservation)
    requires t == Tables(map[0 := Definition(false, 10.0, 0.0)], [], []) && request == Request(0, None, 10.0, 0, 5, true)
    requires ops == [Create(request), ChangeStatus(0, Cancelled), Create(request), ChangeStatus(0, Reserved)]
    requires live == Reservation(0, None, 10.0, 0, 5, Reserved)
    ensures Run(t, ops).reservations == [live, live]
  {
    var dead := live.(status := Cancelled);
    var t1, t2 := t.(reservations := [live]), t.(reservations := [dead]);
    var t3, t4 := t.(reservations := [dead, live]), t.(reservations := [live, live]);
    TenReserved(t, request, live);
    assert [] + [live] == [live];
    assert Step(t1, ops[1]) == t2;
    assert OverlapSum([dead], 0, 0, 5) == 0.0;
    TenReserved(t2, request, live);
    assert [dead] + [live] == [dead, live];
    assert Step(t3, ops[3]) == t4;
    assert ops[1..][1..] == ops[2..] && ops[2..][1..] == ops[3..] && ops[3..][1..] == [];
    assert Run(t, ops) == Run(t1, ops[1..]) == Run(t2, ops[2..]) == Run(t3, ops[3..]) == Run(t4, []);
  }

  lemma TenReserved(t: Tables, request: Request, live: Reservation)
    requires t.definitions == map[0 := Definition(false, 10.0, 0.0)] && request == Request(0, None, 10.0, 0, 5, true)
    requires live == Reservation(0, None, 10.0, 0, 5, Reserved) && OverlapSum(t.reservations, 0, 0, 5) == 0.0
    ensures Step(t, Create(request)) == t.(reservations := t.reservations + [live])
  {
    assert Capacity(t.definitions[0], 0, t.instances) == 10.0;
  }

  /** The check on creation is cautious: it adds up reservations that never coincide, so it can refuse a
      request for which there is room at every instant. */
  lemma CreationCanRefuseDespiteRoom()
    ensures var early, late := Reservation(0, None, 6.0, 0, 2, Reserved), Reservation(0, None, 6.0, 2, 4, Reserved);
            var t := Tables(map[0 := Definition(false, 10.0, 0.0)], [], [early, late]);
            var request := Request(0, None, 4.0, 0, 4, true);
            CreateStep(t, request).1 == Conflict && RoomFor(t, Requested(request))
  {
    var early, late := Reservation(0, None, 6.0, 0, 2, Reserved), Reservation(0, None, 6.0, 2, 4, Reserved);
    TwoRows(early, late, 0, 0, 4, 0);
    TwoRows(early, late, 0, 0, 4, 2);
  }

  /** Use and overlap of two reservations, added up. */
  lemma TwoRows(a: Reservation, b: Reservation, definitionId: nat, start: int, end: int, instant: int)
    ensures UseAt([a, b], definitionId, instant) == Share(a, definitionId, instant) + Share(b, definitionId, instant)
    ensures OverlapSum([a, b], definitionId, start, end) ==
            (if a.definitionId == definitionId && Overlaps(a, start, end) then a.quantity else 0.0) +
            (if b.definitionId == definitionId && Overlaps(b, start, end) then b.quantity else 0.0)
  {
    var rows := [a, b];
    assert rows[..1] == [a] && [a][..0] == [];
    assert UseAt([a], definitionId, instant) == Share(a, definitionId, instant);
    assert OverlapSum([], definitionId, start, end) == 0.0;
    assert OverlapSum([a], definitionId, start, end) ==
           if a.definitionId == definitionId && Overlaps(a, start, end) then a.quantity else 0.0;
  }

  // ---------------------------------------------------------------- when the check on creation is exact

  /** The largest use at the start of a window and at the starts, inside it, of the first n reservations. */
  function PeakOf(rows: seq<Reservation>, definitionId: nat, start: int, end: int, n: nat): real
    requires n <= |rows|
  {
    if n == 0 then UseAt(rows, definitionId, start)
    else
      var at := if Consumes(rows[n - 1].status) && start <= rows[n - 1].start < end then rows[n - 1].start else start;
      Max(PeakOf(rows, definitionId, start, end, n - 1), UseAt(rows, definitionId, at))
  }

  function Peak(rows: seq<Reservation>, definitionId: nat, start: int, end: int): real {
    PeakOf(rows, definitionId, start, end, |rows|)
  }

  lemma {:induction false} PeakOfFacts(rows: seq<Reservation>, definitionId: nat, start: int, end: int, n: nat) returns (at: int)
    requires start < end && n <= |rows|
    ensures start <= at < end && UseAt(rows, definitionId, at) == PeakOf(rows, definitionId, start, end, n)
    ensures UseAt(rows, definitionId, start) <= PeakOf(rows, definitionId, start, end, n)
    ensures forall i :: 0 <= i < n && Consumes(rows[i].status) && start <= rows[i].start < end ==>
              UseAt(rows, definitionId, rows[i].start) <= PeakOf(rows, definitionId, start, end, n)
  {
    if n == 0 {
      at := start;
    } else {
      at := PeakOfFacts(rows, definitionId, start, end, n - 1);
      var last := if Consumes(rows[n - 1].status) && start <= rows[n - 1].start < end then rows[n - 1].start else start;
      if UseAt(rows, definitionId, last) > PeakOf(rows, definitionId, start, end, n - 1) {
        at := last;
      }
    }
  }

  /** It is the largest use at any instant of the window, and is reached there. */
  lemma PeakIsLargest(rows: seq<Reservation>, definitionId: nat, start: int, end: int) returns (at: int)
    requires WellFormed(rows) && start < end
    ensures start <= at < end && UseAt(rows, definitionId, at) == Peak(rows, definitionId, start, end)
    ensures forall instant :: start <= instant < end ==> UseAt(rows, definitionId, instant) <= Peak(rows, definitionId, start, end)
    ensures 0.0 <= Peak(rows, definitionId, start, end) <= OverlapSum(rows, definitionId, start, end)
  {
    at := PeakOfFacts(rows, definitionId, start, end, |rows|);
    UseWithinOverlap(rows, definitionId, start, end, at);
    forall instant | start <= instant < end ensures UseAt(rows, definitionId, instant) <= Peak(rows, definitionId, start, end) {
      var point := LatestStart(rows, start, instant);
      LatestStartIsAStart(rows, start, instant);
      UseGrowsTowardsStarts(rows, definitionId, point, instant);
    }
  }

  ghost predicate FitsThroughout(t: Tables, definitionId: nat, quantity: real, start: int, end: int)
    requires definitionId in t.definitions
  {
    forall instant :: start <= instant < end ==>
      UseAt(t.reservations, definitionId, instant) + quantity <= Capacity(t.definitions[definitionId], definitionId, t.instances)
  }

  predicate PassesCheck(t: Tables, definitionId: nat, quantity: real, start: int, end: int)
    requires definitionId in t.definitions
  {
    quantity <= Capacity(t.definitions[definitionId], definitionId, t.instances) - OverlapSum(t.reservations, definitionId, start, end)
  }

  /** A quantity fits at every instant exactly when it fits on top of the peak. */
  lemma FitsOnPeak(t: Tables, definitionId: nat, quantity: real, start: int, end: int)
    requires WellFormed(t.reservations) && definitionId in t.definitions && start < end
    ensures FitsThroughout(t, definitionId, quantity, start, end) <==>
            Peak(t.reservations, definitionId, start, end) + quantity <= Capacity(t.definitions[definitionId], definitionId, t.instances)
  {
    var at := PeakIsLargest(t.reservations, definitionId, start, end);
  }

  /** The check refuses something that fits at every instant of a window exactly when the peak there is below
      both the capacity and the sum over all reservations that overlap it. */
  lemma CheckIsTooStrictExactly(t: Tables, definitionId: nat, start: int, end: int)
    requires WellFormed(t.reservations) && definitionId in t.definitions && start < end
    ensures (exists quantity :: quantity > 0.0 && FitsThroughout(t, definitionId, quantity, start, end) &&
                                !PassesCheck(t, definitionId, quantity, start, end)) <==>
            Peak(t.reservations, definitionId, start, end) < Capacity(t.definitions[definitionId], definitionId, t.instances) &&
            Peak(t.reservations, definitionId, start, end) < OverlapSum(t.reservations, definitionId, start, end)
  {
    var peak, capacity := Peak(t.reservations, definitionId, start, end), Capacity(t.definitions[definitionId], definitionId, t.instances);
    forall quantity ensures FitsThroughout(t, definitionId, quantity, start, end) <==> peak + quantity <= capacity {
      FitsOnPeak(t, definitionId, quantity, start, end);
    }
    if peak < capacity && peak < OverlapSum(t.reservations, definitionId, start, end) {
      assert FitsThroughout(t, definitionId, capacity - peak, start, end) && !PassesCheck(t, definitionId, capacity - peak, start, end);
    }
  }

  function Requested(request: Request): Reservation {
    Reservation(request.definitionId, request.instanceId, request.quantity, request.start, request.end, Reserved)
  }

  lemma RoomOnPeak(t: Tables, request: Request)
    requires WellFormed(t.reservations) && request.definitionId in t.definitions && request.start < request.end && request.quantity > 0.0
    ensures RoomFor(t, Requested(request)) <==>
            && FitsThroughout(t, request.definitionId, request.quantity, request.start, request.end)
            && (request.instanceId.Some? ==> !InstanceBusy(t.reservations, request.instanceId.value, request.start, request.end))
  {
    var r := Requested(request);
    UseWithinOverlap(t.reservations, request.definitionId, request.start, request.end, request.start);
    var capacity := Capacity(t.definitions[request.definitionId], request.definitionId, t.instances);
    if RoomFor(t, r) {
      assert FitsAt(t, r, r.start) && capacity > 0.0;
      forall instant | request.start <= instant < request.end
        ensures UseAt(t.reservations, request.definitionId, instant) + request.quantity <= capacity
      {
        RoomAtStartsIsRoomThroughout(t, r, instant);
      }
    } else if FitsThroughout(t, request.definitionId, request.quantity, request.start, request.end) {
      assert FitsAt(t, r, r.start);
    }
  }

  /** Request by request: one with room is refused exactly when its quantity goes beyond what the overlapping
      reservations leave; one that is accepted always has room. */
  lemma RefusedDespiteRoomExactly(t: Tables, request: Request)
    requires WellFormed(t.reservations) && request.definitionId in t.definitions && request.linked
    requires request.start < request.end && request.quantity > 0.0
    ensures var capacity := Capacity(t.definitions[request.definitionId], request.definitionId, t.instances);
            RoomFor(t, Requested(request)) && !CreateStep(t, request).1.Done? <==>
            && Peak(t.reservations, request.definitionId, request.start, request.end) <= capacity - request.quantity
            && capacity - request.quantity < OverlapSum(t.reservations, request.definitionId, request.start, request.end)
            && (request.instanceId.Some? ==> !InstanceBusy(t.reservations, request.instanceId.value, request.start, request.end))
    ensures CreateStep(t, request).1.Done? ==> RoomFor(t, Requested(request))
  {
    RoomOnPeak(t, request);
    FitsOnPeak(t, request.definitionId, request.quantity, request.start, request.end);
    var at := PeakIsLargest(t.reservations, request.definitionId, request.start, request.end);
  }

  // ---------------------------------------------------------------- what counts, spelt out

  /** Reserved and confirmed reservations take stock. */
  predicate Active(r: Reservation) {
    r.status in {Reserved, Confirmed}
  }

  /** A reservation takes its quantity at its start exactly when it is reserved or confirmed. */
  lemma ActiveTakesExactly(r: Reservation)
    requires r.quantity > 0.0 && r.start < r.end
    ensures UseAt([r], r.definitionId, r.start) == r.quantity <==> r.status in {Reserved, Confirmed}
    ensures r.status !in {Reserved, Confirmed} ==> UseAt([r], r.definitionId, r.start) == 0.0
  {
    assert [r][..0] == [];
  }

  /** Use is added up one reservation at a time: each active one counts for its definition from its start up to its end. */
  lemma UseAddsUp(rows: seq<Reservation>, r: Reservation, definitionId: nat, instant: int)
    ensures UseAt([], definitionId, instant) == 0.0
    ensures UseAt(rows + [r], definitionId, instant) ==
            UseAt(rows, definitionId, instant) +
            (if r.definitionId == definitionId && Active(r) && r.start <= instant < r.end then r.quantity else 0.0)
  {
    assert (rows + [r])[..|rows|] == rows;
  }

  /** A reservation and a window have an instant in common. */
  ghost predicate ShareInstant(r: Reservation, start: int, end: int) {
    exists instant :: Within(instant, r.start, r.end) && Within(instant, start, end)
  }

  predicate Within(instant: int, start: int, end: int) { start <= instant < end }

  /** What overlaps a window is active and shares an instant with it; touching it is not enough. */
  lemma OverlapsExactly(r: Reservation, start: int, end: int)
    requires r.start < r.end && start < end
    ensures Overlaps(r, start, end) <==> Active(r) && ShareInstant(r, start, end)
  {
    var later := if r.start > start then r.start else start;
    if Overlaps(r, start, end) {
      assert Within(later, r.start, r.end) && Within(later, start, end);
    }
  }

  /** The sum the check uses is added up likewise, over what overlaps the window. */
  lemma OverlapAddsUp(rows: seq<Reservation>, r: Reservation, definitionId: nat, start: int, end: int)
    requires r.start < r.end && start < end
    ensures OverlapSum([], definitionId, start, end) == 0.0
    ensures OverlapSum(rows + [r], definitionId, start, end) ==
            OverlapSum(rows, definitionId, start, end) +
            (if r.definitionId == definitionId && Active(r) && ShareInstant(r, start, end) then r.quantity else 0.0)
  {
    assert (rows + [r])[..|rows|] == rows;
    OverlapsExactly(r, start, end);
  }

  /** An instance is busy exactly when an active reservation of it shares an instant with the window. */
  lemma BusyExactly(rows: seq<Reservation>, instanceId: nat, start: int, end: int)
    requires WellFormed(rows) && start < end
    ensures InstanceBusy(rows, instanceId, start, end) <==>
            exists i :: 0 <= i < |rows| && rows[i].instanceId == Some(instanceId) && Active(rows[i]) && ShareInstant(rows[i], start, end)
  {
    forall i | 0 <= i < |rows| ensures Overlaps(rows[i], start, end) <==> Active(rows[i]) && ShareInstant(rows[i], start, end) {
      OverlapsExactly(rows[i], start, end);
    }
  }

  /** Capacity: the usable instances of a serialized definition, else what is on hand and not unavailable. */
  lemma {:induction false} CapacityExactly(definition: Definition, definitionId: nat, instances: seq<Instance>)
    ensures definition.serialized ==>
              Capacity(definition, definitionId, instances) == |set i | 0 <= i < |instances| && CountsFor(instances, i, definitionId)| as real
    ensures !definition.serialized ==>
              Capacity(definition, definitionId, instances) == definition.quantityOnHand - definition.quantityUnavailable
  {
    CountIsSize(instances, definitionId);
  }

  lemma {:induction false} CountIsSize(instances: seq<Instance>, definitionId: nat)
    ensures CountInstances(instances, definitionId) == |set i | 0 <= i < |instances| && CountsFor(instances, i, definitionId)|
  {
    var counted := set i | 0 <= i < |instances| && CountsFor(instances, i, definitionId);
    if instances == [] {
      assert counted == {};
    } else {
      var n := |instances| - 1;
      var front := instances[..n];
      CountIsSize(front, definitionId);
      var before := set i | 0 <= i < |front| && CountsFor(front, i, definitionId);
      assert forall i :: 0 <= i < n ==> (CountsFor(front, i, definitionId) <==> CountsFor(instances, i, definitionId));
      assert counted == if CountsFor(instances, n, definitionId) then before + {n} else before;
    }
  }

  /** A request is accepted exactly when its definition is known, it is linked, it ends after it starts, its quantity
      fits beside what overlaps it, and its instance, if any, is free; it becomes a reserved row, and no other changes. */
  lemma CreateExactly(t: Tables, request: Request)
    ensures var (after, outcome) := CreateStep(t, request);
            && (outcome == Done(|t.reservations|) <==>
                && request.definitionId in t.definitions && request.linked && request.start < request.end
                && request.quantity + OverlapSum(t.reservations, request.definitionId, request.start, request.end)
                   <= Capacity(t.definitions[request.definitionId], request.definitionId, t.instances)
                && (request.instanceId.Some? ==>
                      !InstanceBusy(t.reservations, request.instanceId.value, request.start, request.end)))
            && (outcome == NotFound <==> request.definitionId !in t.definitions)
            && (outcome == BadRequest <==> request.definitionId in t.definitions && (!request.linked || request.start >= request.end))
            && (if outcome.Done? then
                  after == t.(reservations := t.reservations +
                                [Reservation(request.definitionId, request.instanceId, request.quantity, request.start, request.end, Reserved)])
                else after == t)
  {
  }

  /** A status change sets the status of one reservation; use changes by what that reservation takes before and after.
      Confirming a reserved or confirmed one leaves use as it is. */
  lemma StatusChangeExactly(t: Tables, id: nat, status: Status, definitionId: nat, instant: int)
    requires id < |t.reservations|
    ensures var after := ChangeStatusStep(t, id, status).0;
            var r := t.reservations[id];
            && ChangeStatusStep(t, id, status).1 == Done(id)
            && after == t.(reservations := t.reservations[id := r.(status := status)])
            && UseAt(after.reservations, definitionId, instant) ==
               UseAt(t.reservations, definitionId, instant)
               - (if r.definitionId == definitionId && r.status in {Reserved, Confirmed} && r.start <= instant < r.end then r.quantity else 0.0)
               + (if r.definitionId == definitionId && status in {Reserved, Confirmed} && r.start <= instant < r.end then r.quantity else 0.0)
  {
    UseAfterUpdate(t.reservations, id, t.reservations[id].(status := status), definitionId, instant);
  }

  lemma UnknownReservationNotFound(t: Tables, id: nat, status: Status)
    ensures ChangeStatusStep(t, id, status).1 == NotFound <==> id >= |t.reservations|
    ensures id >= |t.reservations| ==> ChangeStatusStep(t, id, status).0 == t
  {
  }

  lemma ConfirmingKeepsUse(t: Tables, id: nat, definitionId: nat, instant: int)
    requires id < |t.reservations| && t.reservations[id].status in {Reserved, Confirmed}
    ensures UseAt(ChangeStatusStep(t, id, Confirmed).0.reservations, definitionId, instant) ==
            UseAt(t.reservations, definitionId, instant)
  {
    StatusChangeExactly(t, id, Confirmed, definitionId, instant);
  }

  /** Ten of ten reserved and confirmed: the next request for the same time is refused. */
  lemma ConfirmedBookingRefusesNext(t: Tables, request: Request)
    requires t == Tables(map[0 := Definition(false, 10.0, 0.0)], [], []) && request == Request(0, None, 10.0, 0, 5, true)
    ensures CreateStep(t, request).1 == Done(0)
    ensures var confirmed := ChangeStatusStep(CreateStep(t, request).0, 0, Confirmed).0;
            CreateStep(confirmed, request) == (confirmed, Conflict)
  {
    var live := Reservation(0, None, 10.0, 0, 5, Reserved);
    assert OverlapSum([], 0, 0, 5) == 0.0;
    TenReserved(t, request, live);
    assert [] + [live] == [live];
    var confirmed := t.(reservations := [live.(status := Confirmed)]);
    assert ChangeStatusStep(CreateStep(t, request).0, 0, Confirmed).0 == confirmed;
    assert Within(0, 0, 5);
    OverlapAddsUp([], live.(status := Confirmed), 0, 0, 5);
    assert [] + [live.(status := Confirmed)] == confirmed.reservations;
  }

  // ---------------------------------------------------------------- which instance is reserved

  /** Whether an instance is one of a definition's that count towards its capacity. */
  predicate CountsFor(instances: seq<Instance>, instanceId: nat, definitionId: nat) {
    && instanceId < |instances| && instances[instanceId].definitionId == definitionId
    && instances[instanceId].active && !instances[instanceId].archived
  }

  ghost predicate OwnInstances(t: Tables) {
    forall i :: 0 <= i < |t.reservations| && t.reservations[i].instanceId.Some? ==>
      CountsFor(t.instances, t.reservations[i].instanceId.value, t.reservations[i].definitionId)
  }

  /** Creation does not look at the instance it reserves, beyond its other reservations: reservations keep naming
      countable instances of their own definitions exactly when the request does. */
  lemma CreateKeepsOwnInstancesExactly(t: Tables, request: Request)
    requires OwnInstances(t) && CreateStep(t, request).1.Done?
    ensures OwnInstances(CreateStep(t, request).0) <==>
            (request.instanceId.Some? ==> CountsFor(t.instances, request.instanceId.value, request.definitionId))
  {
    var after := CreateStep(t, request).0.reservations;
    assert after == t.reservations + [Requested(request)];
    assert after[|t.reservations|] == Requested(request);
  }

  /** An archived instance of another definition is reserved. */
  lemma ForeignInstanceReserved(t: Tables, request: Request)
    requires t == Tables(map[0 := Definition(false, 10.0, 0.0)], [Instance(1, false, true)], [])
    requires request == Request(0, Some(0), 1.0, 0, 5, true)
    ensures Safe(t) && OwnInstances(t) && CreateStep(t, request).1.Done? && !OwnInstances(CreateStep(t, request).0)
  {
    assert OverlapSum([], 0, 0, 5) == 0.0;
    CreateKeepsOwnInstancesExactly(t, request);
  }

  // ---------------------------------------------------------------- the service

  class ReservationService {
    var definitions: map<nat, Definition>
    var instances: seq<Instance>
    var reservations: seq<Reservation>

    ghost function Value(): Tables
      reads this
    {
      Tables(definitions, instances, reservations)
    }

    method CreateReservation(request: Request) returns (outcome: Outcome)
      requires request.quantity > 0.0
      modifies this`reservations
      ensures (Value(), outcome) == CreateStep(old(Value()), request)
      ensures old(Safe(Value())) ==> Safe(Value())
    {
      if Safe(Value()) {
        CreateKeepsSafe(Value(), request);
      }
      if request.definitionId !in definitions {
        return NotFound;
      }
      if !request.linked {
        return BadRequest;
      }
      if request.start >= request.end {
        return BadRequest;
      }
      var overlapping := OverlapSum(reservations, request.definitionId, request.start, request.end);
      var capacity := Capacity(definitions[request.definitionId], request.definitionId, instances);
      var available := capacity - overlapping;
      if request.quantity > available {
        return Conflict;
      }
      if request.instanceId.Some? && InstanceBusy(reservations, request.instanceId.value, request.start, request.end) {
        return Conflict;
      }
      var row := Reservation(request.definitionId, request.instanceId, request.quantity, request.start, request.end, Reserved);
      reservations := reservations + [row];
      return Done(|reservations| - 1);
    }

    method ChangeReservationStatus(id: nat, status: Status) returns (outcome: Outcome)
      modifies this`reservations
      ensures (Value(), outcome) == ChangeStatusStep(old(Value()), id, status)
      ensures old(Safe(Value())) && !old(Reactivates(Value(), id, status)) ==> Safe(Value())
    {
      if Safe(Value()) && !Reactivates(Value(), id, status) {
        ChangeStatusKeepsSafe(Value(), id, status);
      }
      if id >= |reservations| {
        return NotFound;
      }
      reservations := reservations[id := reservations[id].(status := status)];
      return Done(id);
    }
  }
}
