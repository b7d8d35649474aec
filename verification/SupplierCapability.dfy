/** From marketplace resources to each supplier's fulfilment status. */
module SupplierCapability {
  import opened Collections
  import opened Rounding
  import opened SecondarySourcing

  datatype ResourceStatus = Available | Reserved | Dispatched | Maintenance | Damaged | Retired
  datatype QuantityMode = Serialized | Quantity | Capacity | Unlimited

  datatype Resource = Resource(
    id: nat, supplierId: Option<nat>, mode: QuantityMode, totalQuantity: Option<real>, status: ResourceStatus,
    damagedQuantity: real, maintenanceQuantity: real)

  datatype Fulfilment = OwnStock | SourcingPossible | PartialOnly | Unavailable

  function ResourceAvailability(resource: Resource, reserved: real, required: real): (available: real)
    ensures required >= 0.0 ==> available >= 0.0
  {
    if resource.status == Damaged || resource.status == Maintenance then 0.0
    else if resource.mode == Unlimited then required
    else
      var total := Max(resource.totalQuantity.GetOr(0.0), 0.0);
      var degraded := Max(resource.damagedQuantity, 0.0) + Max(resource.maintenanceQuantity, 0.0);
      Max(Max(total - degraded, 0.0) - reserved, 0.0)
  }

  /** Of a usable, counted resource everything is either degraded, reserved or available, unless more is
      degraded and reserved than there is: then nothing is available. */
  lemma AvailableIsTheRest(resource: Resource, reserved: real, required: real)
    requires resource.status != ResourceStatus.Damaged && resource.status != Maintenance && resource.mode != Unlimited
    requires reserved >= 0.0 && resource.damagedQuantity >= 0.0 && resource.maintenanceQuantity >= 0.0
    requires resource.totalQuantity.GetOr(0.0) >= 0.0
    ensures var available := ResourceAvailability(resource, reserved, required);
            var used := resource.damagedQuantity + resource.maintenanceQuantity + reserved;
            if used < resource.totalQuantity.GetOr(0.0) then available + used == resource.totalQuantity.GetOr(0.0) else available == 0.0
  {
  }

  /** Nothing of a damaged resource or of one in maintenance is available, and of an unlimited one whatever is
      required; a negative or missing total, and a negative degraded quantity, count as none. */
  lemma AvailabilityExactly(resource: Resource, reserved: real, required: real)
    ensures resource.status in {ResourceStatus.Damaged, Maintenance} ==> ResourceAvailability(resource, reserved, required) == 0.0
    ensures resource.status !in {ResourceStatus.Damaged, Maintenance} && resource.mode == Unlimited ==>
              ResourceAvailability(resource, reserved, required) == required
    ensures resource.totalQuantity.None? || resource.totalQuantity.value < 0.0 ==>
              ResourceAvailability(resource, reserved, required) ==
              ResourceAvailability(resource.(totalQuantity := Some(0.0)), reserved, required)
    ensures resource.damagedQuantity < 0.0 ==>
              ResourceAvailability(resource, reserved, required) ==
              ResourceAvailability(resource.(damagedQuantity := 0.0), reserved, required)
    ensures resource.maintenanceQuantity < 0.0 ==>
              ResourceAvailability(resource, reserved, required) ==
              ResourceAvailability(resource.(maintenanceQuantity := 0.0), reserved, required)
  {
  }

  // ---------------------------------------------------------------- insertion-ordered totals

  function IndexOf(entries: seq<Entry>, id: nat): (index: Option<nat>)
    ensures match index
            case Some(i) => i < |entries| && entries[i].id == id
            case None => forall i :: 0 <= i < |entries| ==> entries[i].id != id
  {
    if entries == [] then None
    else if entries[|entries| - 1].id == id then Some(|entries| - 1)
    else IndexOf(entries[..|entries| - 1], id)
  }

  function Stock(entries: seq<Entry>, id: nat): real {
    match IndexOf(entries, id) case None => 0.0 case Some(i) => entries[i].available
  }

  function AddTo(entries: seq<Entry>, id: nat, amount: real): seq<Entry> {
    match IndexOf(entries, id)
    case None => entries + [Entry(id, amount)]
    case Some(i) => entries[i := Entry(id, entries[i].available + amount)]
  }

  function Total(entries: seq<Entry>): real {
    if entries == [] then 0.0 else Total(entries[..|entries| - 1]) + entries[|entries| - 1].available
  }

  lemma {:induction false} TotalAfterUpdate(entries: seq<Entry>, i: nat, e: Entry)
    requires i < |entries|
    ensures Total(entries[i := e]) == Total(entries) - entries[i].available + e.available
  {
    if i == |entries| - 1 {
      assert entries[i := e][..i] == entries[..i];
    } else {
      assert entries[i := e][..|entries| - 1] == entries[..|entries| - 1][i := e];
      TotalAfterUpdate(entries[..|entries| - 1], i, e);
    }
  }

  ghost predicate NonNegative(entries: seq<Entry>) {
    forall i :: 0 <= i < |entries| ==> entries[i].available >= 0.0
  }

  lemma StockAt(entries: seq<Entry>, i: nat)
    requires DistinctEntries(entries) && i < |entries|
    ensures Stock(entries, entries[i].id) == entries[i].available
  {
  }

  lemma StockAfterAdd(entries: seq<Entry>, id: nat, amount: real, other: nat)
    requires DistinctEntries(entries) && DistinctEntries(AddTo(entries, id, amount))
    ensures Stock(AddTo(entries, id, amount), other) == Stock(entries, other) + (if other == id then amount else 0.0)
  {
    var added := AddTo(entries, id, amount);
    match IndexOf(entries, other)
    case Some(i) =>
      StockAt(added, i);
      assert added[i].id == other;
    case None =>
      if other == id { StockAt(added, |entries|); }
  }

  lemma AddToFacts(entries: seq<Entry>, id: nat, amount: real)
    requires DistinctEntries(entries)
    ensures DistinctEntries(AddTo(entries, id, amount))
    ensures Total(AddTo(entries, id, amount)) == Total(entries) + amount
    ensures forall other :: Stock(AddTo(entries, id, amount), other) ==
                            Stock(entries, other) + (if other == id then amount else 0.0)
    ensures NonNegative(entries) && amount >= 0.0 ==> NonNegative(AddTo(entries, id, amount))
  {
    var added := AddTo(entries, id, amount);
    match IndexOf(entries, id)
    case None => assert added[..|entries|] == entries;
    case Some(i) => TotalAfterUpdate(entries, i, Entry(id, entries[i].available + amount));
    forall other ensures Stock(added, other) == Stock(entries, other) + (if other == id then amount else 0.0) {
      StockAfterAdd(entries, id, amount, other);
    }
  }

  // ---------------------------------------------------------------- aggregation over resources

  function ReservedFor(reservations: seq<(nat, real)>, resourceId: nat): real {
    if reservations == [] then 0.0
    else
      var last := reservations[|reservations| - 1];
      ReservedFor(reservations[..|reservations| - 1], resourceId) + (if last.0 == resourceId then last.1 else 0.0)
  }

  /** What the resources of one supplier, or of everyone listed, have available together. */
  function SupplierTotal(
    resources: seq<Resource>, reservations: seq<(nat, real)>, required: real, supplierId: nat): real
  {
    if resources == [] then 0.0
    else
      var last := resources[|resources| - 1];
      SupplierTotal(resources[..|resources| - 1], reservations, required, supplierId) +
      (if last.supplierId == Some(supplierId)
       then ResourceAvailability(last, ReservedFor(reservations, last.id), required) else 0.0)
  }

  function MarketTotal(resources: seq<Resource>, reservations: seq<(nat, real)>, required: real): real {
    if resources == [] then 0.0
    else
      var last := resources[|resources| - 1];
      MarketTotal(resources[..|resources| - 1], reservations, required) +
      (if last.supplierId.Some? then ResourceAvailability(last, ReservedFor(reservations, last.id), required) else 0.0)
  }

  method ReservedByResource(reservations: seq<(nat, real)>) returns (reserved: map<nat, real>)
    ensures forall id :: (if id in reserved then reserved[id] else 0.0) == ReservedFor(reservations, id)
  {
    reserved := map[];
    for i := 0 to |reservations|
      invariant forall id :: (if id in reserved then reserved[id] else 0.0) == ReservedFor(reservations[..i], id)
    {
      var (id, quantity) := reservations[i];
      assert reservations[..i + 1][..i] == reservations[..i];
      reserved := reserved[id := (if id in reserved then reserved[id] else 0.0) + quantity];
    }
    assert reservations[..|reservations|] == reservations;
  }

  lemma ReservationsGrow(reservations: seq<(nat, real)>, id: nat, quantity: real, resourceId: nat)
    ensures ReservedFor([], resourceId) == 0.0
    ensures ReservedFor(reservations + [(id, quantity)], resourceId) ==
            ReservedFor(reservations, resourceId) + (if id == resourceId then quantity else 0.0)
  {
    assert (reservations + [(id, quantity)])[..|reservations|] == reservations;
  }

  lemma NoResourcesNoStock(reservations: seq<(nat, real)>, required: real, supplierId: nat)
    ensures SupplierTotal([], reservations, required, supplierId) == MarketTotal([], reservations, required) == 0.0
  {
  }

  /** What one more resource adds to each supplier's total and to the market. */
  lemma TotalsAfterOneMore(resources: seq<Resource>, reservations: seq<(nat, real)>, required: real, i: nat)
    requires i < |resources|
    ensures var r := resources[i];
            var available := ResourceAvailability(r, ReservedFor(reservations, r.id), required);
            && (forall id: nat :: SupplierTotal(resources[..i + 1], reservations, required, id) ==
                             SupplierTotal(resources[..i], reservations, required, id) + (if r.supplierId == Some(id) then available else 0.0))
            && MarketTotal(resources[..i + 1], reservations, required) ==
               MarketTotal(resources[..i], reservations, required) + (if r.supplierId.Some? then available else 0.0)
  {
    assert resources[..i + 1][..i] == resources[..i];
  }

  /** Adds every supplier's available stock up; the market total is what the suppliers have together. */
  method OwnAvailabilityBySupplier(resources: seq<Resource>, reservations: seq<(nat, real)>, required: real)
    returns (entries: seq<Entry>)
    requires required >= 0.0
    ensures DistinctEntries(entries) && NonNegative(entries)
    ensures forall id :: Stock(entries, id) == SupplierTotal(resources, reservations, required, id)
    ensures Total(entries) == MarketTotal(resources, reservations, required)
  {
    var reserved := ReservedByResource(reservations);
    entries := [];
    for i := 0 to |resources|
      invariant DistinctEntries(entries) && NonNegative(entries)
      invariant forall id :: Stock(entries, id) == SupplierTotal(resources[..i], reservations, required, id)
      invariant Total(entries) == MarketTotal(resources[..i], reservations, required)
    {
      var resource := resources[i];
      TotalsAfterOneMore(resources, reservations, required, i);
      if resource.supplierId.None? {
        continue;
      }
      var available := ResourceAvailability(
        resource, if resource.id in reserved then reserved[resource.id] else 0.0, required);
      AddToFacts(entries, resource.supplierId.value, available);
      entries := AddTo(entries, resource.supplierId.value, available);
    }
    assert resources[..|resources|] == resources;
  }

  // ---------------------------------------------------------------- one supplier's standing

  function Classify(own: real, potential: real, required: real): Fulfilment {
    if own >= required then OwnStock
    else if potential >= required then SourcingPossible
    else if potential > 0.0 then PartialOnly
    else Unavailable
  }

  function Percentage(value: real, total: real): real {
    if total <= 0.0 then 0.0 else Round2(value / total * 100.0)
  }

  function Own(entries: seq<Entry>, supplierId: nat): real {
    Round2(Stock(entries, supplierId))
  }

  function Potential(entries: seq<Entry>, supplierId: nat): real {
    var own := Own(entries, supplierId);
    Round2(own + Max(Total(entries) - own, 0.0))
  }

  function StatusOf(entries: seq<Entry>, supplierId: nat, required: real): Fulfilment {
    Classify(Own(entries, supplierId), Potential(entries, supplierId), required)
  }

  lemma {:induction false} StockWithinTotal(entries: seq<Entry>, id: nat)
    requires NonNegative(entries)
    ensures 0.0 <= Stock(entries, id) <= Total(entries)
  {
    if entries == [] {
    } else {
      StockWithinTotal(entries[..|entries| - 1], id);
    }
  }

  /** Rounding a supplier's own stock first does not disturb the total: everyone's potential is the rounded
      market total. */
  lemma PotentialIsMarketTotal(entries: seq<Entry>, supplierId: nat)
    requires NonNegative(entries)
    ensures Potential(entries, supplierId) == Round2(Total(entries))
    ensures 0.0 <= Own(entries, supplierId) <= Potential(entries, supplierId)
  {
    var stock, total, own := Stock(entries, supplierId), Total(entries), Own(entries, supplierId);
    StockWithinTotal(entries, supplierId);
    RoundingIsMonotone(stock, total);
    RoundingIsMonotone(0.0, stock);
    RoundingIsNear(stock);
    CentsStay(own);
    assert Round2(0.0) == 0.0;
    if own > total {
      RoundingIsMonotone(total, own);
    }
  }

  /** What a supplier is reported to have itself is its stock, rounded to hundredths; a coverage is the quotient in
      percent, rounded likewise, and nothing without a demand. */
  lemma ReportedFiguresExactly(entries: seq<Entry>, supplierId: nat, value: real, total: real)
    ensures RoundedTo(Stock(entries, supplierId), Own(entries, supplierId))
    ensures total > 0.0 ==> RoundedTo(value / total * 100.0, Percentage(value, total))
    ensures total <= 0.0 ==> Percentage(value, total) == 0.0
  {
    RoundingIsNear(Stock(entries, supplierId));
    if total > 0.0 {
      RoundingIsNear(value / total * 100.0);
    }
  }

  datatype Band = Fulfillable | Partly | Nothing

  function BandOf(status: Fulfilment): Band {
    match status
    case OwnStock => Fulfillable
    case SourcingPossible => Fulfillable
    case PartialOnly => Partly
    case Unavailable => Nothing
  }

  /** The market alone decides whether every supplier can fulfil, everyone only partly, or no one at all. */
  lemma MarketDecidesBand(entries: seq<Entry>, supplierId: nat, required: real)
    requires NonNegative(entries) && required >= 0.0
    ensures BandOf(StatusOf(entries, supplierId, required)) ==
            (if Round2(Total(entries)) >= required then Fulfillable
             else if Round2(Total(entries)) > 0.0 then Partly
             else Nothing)
  {
    PotentialIsMarketTotal(entries, supplierId);
  }

  lemma {:induction false} OthersTotal(entries: seq<Entry>, supplierId: nat, chosen: set<nat>)
    requires DistinctEntries(entries) && supplierId !in chosen
    requires forall e | e in entries && e.id != supplierId :: e.id in chosen
    ensures SumOver(entries, chosen) == Total(entries) - Stock(entries, supplierId)
  {
    if entries == [] {
    } else {
      var front, last := entries[..|entries| - 1], entries[|entries| - 1];
      assert forall e | e in front :: e in entries;
      OthersTotal(front, supplierId, chosen);
      assert last in entries;
      if last.id == supplierId {
        assert forall i :: 0 <= i < |front| ==> front[i].id != supplierId;
      }
    }
  }

  lemma {:induction false} MoreChosenMoreStock(entries: seq<Entry>, chosen: set<nat>, larger: set<nat>)
    requires NonNegative(entries) && chosen <= larger
    ensures SumOver(entries, chosen) <= SumOver(entries, larger)
  {
    if entries == [] {
    } else {
      MoreChosenMoreStock(entries[..|entries| - 1], chosen, larger);
    }
  }

  /** The others can cover a shortfall exactly when all of them together can. */
  lemma CoverableExactly(entries: seq<Entry>, supplierId: nat, shortfall: real)
    requires DistinctEntries(entries) && NonNegative(entries)
    ensures Coverable(entries, supplierId, shortfall) <==> Total(entries) - Stock(entries, supplierId) >= shortfall
  {
    var everyone := EntryIds(entries) - {supplierId};
    OthersTotal(entries, supplierId, everyone);
    if Total(entries) - Stock(entries, supplierId) >= shortfall {
      assert Covers(entries, supplierId, everyone, shortfall);
    }
    if chosen :| Covers(entries, supplierId, chosen, shortfall) {
      MoreChosenMoreStock(entries, chosen, everyone);
    }
  }

  /** A supplier told that sourcing is possible always has at least one other supplier to turn to. */
  lemma SourcingHasAPartner(entries: seq<Entry>, supplierId: nat, required: real, count: nat)
    requires DistinctEntries(entries) && NonNegative(entries)
    requires StatusOf(entries, supplierId, required) == SourcingPossible
    requires IsSecondaryCount(entries, supplierId, required - Own(entries, supplierId), count)
    ensures count >= 1
  {
    PotentialIsMarketTotal(entries, supplierId);
    var shortfall := required - Own(entries, supplierId);
    if Coverable(entries, supplierId, shortfall) {
      var chosen :| Covers(entries, supplierId, chosen, shortfall) && |chosen| == count;
      SumOfNone(entries, chosen);
    } else if Others(entries, supplierId) == [] {
      OthersHaveTheStock(entries, supplierId, EntryIds(entries) - {supplierId});
      OthersTotal(entries, supplierId, EntryIds(entries) - {supplierId});
      StockWithinTotal(entries, supplierId);
    }
  }

  lemma {:induction false} SumOfNone(entries: seq<Entry>, chosen: set<nat>)
    ensures chosen == {} ==> SumOver(entries, chosen) == 0.0
  {
    if entries == [] {
    } else {
      SumOfNone(entries[..|entries| - 1], chosen);
    }
  }

  /** Sourcing is reported possible on the rounded market total, so the report is true, in the sense that
      other suppliers really cover the shortfall, exactly when their unrounded stock does. */
  lemma SourcingReportTrueExactly(entries: seq<Entry>, supplierId: nat, required: real, count: nat)
    requires DistinctEntries(entries) && NonNegative(entries)
    requires StatusOf(entries, supplierId, required) == SourcingPossible
    requires IsSecondaryCount(entries, supplierId, required - Own(entries, supplierId), count)
    ensures (exists chosen :: Covers(entries, supplierId, chosen, required - Own(entries, supplierId)) && |chosen| == count) <==>
            Total(entries) - Stock(entries, supplierId) >= required - Own(entries, supplierId)
  {
    CoverableExactly(entries, supplierId, required - Own(entries, supplierId));
  }

  /** Two suppliers with 50 and 49.996 are told that a demand of 100 can be sourced; it cannot. */
  lemma RoundedMarketCanOverstate(entries: seq<Entry>)
    requires entries == [Entry(1, 50.0), Entry(2, 49.996)]
    ensures StatusOf(entries, 1, 100.0) == SourcingPossible && !Coverable(entries, 1, 100.0 - Own(entries, 1))
  {
    TwoEntries(entries);
    CentsStay(50.0);
    RoundedReachesExactly(99.996, 100.0);
    assert UpToCents(100.0) == 100.0;
    PotentialIsMarketTotal(entries, 1);
    CoverableExactly(entries, 1, 50.0);
  }

  lemma TwoEntries(entries: seq<Entry>)
    requires |entries| == 2 && entries[0].id != entries[1].id
    ensures Total(entries) == entries[0].available + entries[1].available && Stock(entries, entries[0].id) == entries[0].available
  {
    var front := entries[..1];
    assert front[..0] == [] && Total(front[..0]) == 0.0;
    assert Total(front) == entries[0].available;
    StockAt(entries, 0);
  }

  /** Own stock is decided on the rounded quantity too: it is reported from half a hundredth below the next whole
      hundredth on, so a supplier is said to have what it does not have exactly in the gap up to the demand. */
  lemma OwnStockReportedExactly(entries: seq<Entry>, supplierId: nat, required: real)
    requires NonNegative(entries)
    ensures StatusOf(entries, supplierId, required) == OwnStock <==> Stock(entries, supplierId) >= UpToCents(required) - 0.005
    ensures StatusOf(entries, supplierId, required) == OwnStock && Stock(entries, supplierId) < required <==>
            UpToCents(required) - 0.005 <= Stock(entries, supplierId) < required
  {
    RoundedReachesExactly(Stock(entries, supplierId), required);
  }

  /** 99.996 of 100 is reported as own stock. */
  lemma OwnStockCanBeShort(entries: seq<Entry>)
    requires entries == [Entry(1, 99.996)]
    ensures StatusOf(entries, 1, 100.0) == OwnStock && Stock(entries, 1) < 100.0
  {
    assert IndexOf(entries, 1) == Some(0);
    OwnStockReportedExactly(entries, 1, 100.0);
    assert UpToCents(100.0) == 100.0;
  }

  /** Coverage is reported as full from 99.995 percent on, whether or not the stock is there. */
  lemma FullCoverageExactly(own: real, required: real)
    requires required > 0.0
    ensures Percentage(own, required) >= 100.0 <==> own / required * 100.0 >= 99.995
    ensures own >= required ==> Percentage(own, required) >= 100.0
  {
    var percent := own / required * 100.0;
    assert RoundHalfUp(percent * 100.0) >= 10000 <==> percent * 100.0 + 0.5 >= 10000.0;
    if own >= required {
      assert own / required >= required / required;
    }
  }

  /** A supplier one hundredth short of 30000 shows full coverage without holding the full stock. */
  lemma FullCoverageWithoutFullStock()
    ensures Percentage(29999.99, 30000.0) >= 100.0
    ensures forall potential: real :: Classify(29999.99, potential, 30000.0) != OwnStock
  {
    FullCoverageExactly(29999.99, 30000.0);
  }

  /** Everything the service reports about one supplier's ability to fulfil. */
  method AssessSupplier(entries: seq<Entry>, supplierId: nat, required: real)
    returns (own: real, potential: real, ownCoverage: real, sourcedCoverage: real, status: Fulfilment, secondary: nat)
    requires DistinctEntries(entries) && NonNegative(entries) && required >= 0.0
    ensures own == Own(entries, supplierId) && potential == Round2(Total(entries))
    ensures status == StatusOf(entries, supplierId, required)
    ensures ownCoverage == Percentage(own, required)
    ensures sourcedCoverage == Percentage(Max(Min(potential, required) - own, 0.0), required)
    ensures status == SourcingPossible || status == PartialOnly ==>
              IsSecondaryCount(entries, supplierId, required - own, secondary)
    ensures status == OwnStock || status == Unavailable ==> secondary == 0
    ensures status == SourcingPossible ==> secondary >= 1
  {
    var total := Total(entries);
    own := Round2(Stock(entries, supplierId));
    var other := Max(total - own, 0.0);
    potential := Round2(own + other);
    PotentialIsMarketTotal(entries, supplierId);
    ownCoverage := Percentage(own, required);
    sourcedCoverage := Percentage(Max(Min(potential, required) - own, 0.0), required);
    status := Classify(own, potential, required);
    secondary := 0;
    if status == SourcingPossible || status == PartialOnly {
      secondary := CountSecondarySuppliers(entries, supplierId, required, own);
      if status == SourcingPossible {
        SourcingHasAPartner(entries, supplierId, required, secondary);
      }
    }
  }
}
