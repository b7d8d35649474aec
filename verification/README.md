# A verified model of the event-management API's hard core

These Dafny modules model the services of the event-management API in which an algorithm, a rounding rule or
an invariant over many requests decides whether the stored data makes sense, and prove what those services
are meant to guarantee. Each service object is a class whose methods change their fields the way the service
changes its rows. Every such method is proved equal to a step on plain values (`Step`, `CreateStep`,
`UpdateStep`), and the laws are proved about those steps, for every input and over every run. Lemmas named
`...Exactly` and `...Holds` write out, in columns and conditions rather than by the functions of the model, when
an operation is accepted and what it leaves.

| files | what they model |
|---|---|
| `Digraphs`, `DependencyGraph` | the recursive three-colour search that rejects circular requirement dependencies |
| `SequenceCodes` | numbers printed as `R-007` or `OBJ-1024`, read back and continued |
| `RequirementItems`, `ImpactPatches` | the fields of a requirement, the diff an impact report records, and the patch it applies |
| `RequirementSets`, `RequirementStore`, `RequirementRules`, `RequirementService` | versioned requirement sets: create, approve, override, report, apply |
| `AssetReservations` | reservations against a capacity |
| `SecondarySourcing`, `SupplierCapability`, `Shortlisting`, `Sorting` | what suppliers can fulfil, how many more are needed, ranking and the adaptive shortlist |
| `Procurement` | candidate supplier combinations, their optimality and deduplication |
| `StockLedger` | stock levels and the movement log behind them |
| `Rounding`, `OrderPricing`, `PurchaseOrders`, `DraftOrders`, `GoodsReceipts`, `OrderCompletion`, `OrderBook`, `OrderRules`, `PurchaseOrderService` | order money, the order lifecycle, committed drafts, goods receipts, and many orders over one stock |
| `MoodBoards` | revisions that must keep locked objects, and comparison |
| `Quotations` | line pricing in cents and what re-pricing stored lines does |

Quantities and money in decimals are exact `real` numbers, with `Round2(x) = floor(100x + 1/2) / 100`;
quotation amounts are whole cents. Table rows are sequences or maps, ids are positions or increasing numbers,
and instants are integers. A service call that throws inside a transaction leaves the state unchanged.
JSON values carry a `layout`, the order in which their keys were written: two values serialise to the same
text exactly when value and layout agree, and a JSONB column reads back in layout 0. What request validation
guarantees (non-negative quantities, the printed shape of supplied codes) is a precondition; everything the
services check themselves is modelled with its error.

## What the code does not guarantee

Some properties one would expect are false of the code. The model keeps the code, shows an input at which each
fails, and proves exactly when it holds.

- Bringing a cancelled or released reservation back is not checked against capacity (`ReactivationCanOverbook`);
  it is safe exactly when there is room (`ReactivationSafeExactlyWithRoom`).
- The check on a new reservation can refuse what fits at every instant (`CreationCanRefuseDespiteRoom`); exactly
  when, for a window and for a request, say `CheckIsTooStrictExactly` and `RefusedDespiteRoomExactly`.
- Statuses are decided on rounded quantities. `SOURCING_POSSIBLE` and `OWN_STOCK` can be reported when the stock
  is not there (`RoundedMarketCanOverstate`, `OwnStockCanBeShort`), exactly as `SourcingReportTrueExactly` and
  `OwnStockReportedExactly` say; coverage shows 100 percent from 99.995 on (`FullCoverageWithoutFullStock`,
  `FullCoverageExactly`).
- The procurement strategy `FewestSuppliers` takes the highest own coverage for each requirement and need not use
  the fewest suppliers (`FewestSuppliersIsNotFewest`); when it does say `FewestIsFewestExactly` and
  `FewestOfTwoExactly`.
- Goods can be received against an order that was never approved (`DraftForTenIsCreated`, `DraftIsReceived`); a
  received order is approved exactly when it was at its first receipt (`ReceivedIsApprovedExactly`).
- Outstanding quantities are read before the receipt, so a line named twice can be received twice
  (`RepeatedLineOverReceives`, `ReceiptStaysWithinOrderExactly`).
- An edit that changes only the supplier leaves another supplier's products on the order
  (`SupplierEditMixesSuppliers`, `EditKeepsSupplierExactly`). Discounts above 100 percent are accepted
  (`ExcessiveDiscountGoesNegative`, `LineNotNegativeExactly`).
- A locked mood-board object submitted again with its presentation keys in another order than the database's is
  rejected, even if it is the text it was created from (`SameObjectRefused`, `UnchangedAcceptedExactly`).
- A new object can take the key of a dropped one (`DroppedKeyIsReused`, `GeneratedKeyRepeatsExactly`); a move
  between scenes is not reported (`MoveIsNotReported`, `NoChangesExactly`).
- Re-pricing stored quotation lines uses their rounded percentage, so an update of the title alone can make the
  header differ from the lines, or be rejected (`TitleUpdateCanBreakSum`, `TitleUpdateCanBeRejected`,
  `TitleUpdateChangesNothingExactly`, `TitleUpdateAcceptedExactly`).
- Accepting every change of an impact report keeps the baseline's `estimatedBudgetCents`, so a second report on
  the same proposal is not always empty (`AcceptedBudgetReportedAgain`, `SecondReportExactly`).
- Impact reports compare texts, so an item submitted again with its own values can be reported as changed
  (`OwnValuesReported`); a code goes unreported exactly as `UnreportedExactly` says, which asks for the keys in the
  service's own order. The service writes the code first; the class of a submitted item declares it after the
  inherited fields (apps/api/src/requirements/dto/requirement-impact-report.dto.ts:15-23).
- Updates of a quotation look at no status, so one that the client has accepted can be re-priced
  (`RepriceableDraft`, `AcceptedQuotationRepriced`); an update keeps the money exactly as `UpdateKeepsMoneyExactly` says.
- A reservation can name an instance that is archived or belongs to another definition (`ForeignInstanceReserved`);
  creation keeps reservations on their own definitions' instances exactly when the request names one
  (`CreateKeepsOwnInstancesExactly`).
- Not every order can be completed: a line that matches no inventory item prevents it (`UnlinkedOrderNeverCompletes`);
  one receipt can complete an order exactly as `CompletableExactly` says.

## Model

| member | source | states |
|---|---|---|
| `DependencyGraph.Visit` | `apps/api/src/requirements/requirements.service.ts:335-342` | the three-colour search from one node: a hit on a grey node means the graph has a cycle; otherwise the node ends black and no black node touches a cycle |
| `DependencyGraph.HasCycle` | `apps/api/src/requirements/requirements.service.ts:343-345` | searching every node answers whether the graph has a directed cycle, in both directions |
| `DependencyGraph.ValidateDependencyGraph` | `apps/api/src/requirements/requirements.service.ts:312-346` | terminates and rejects exactly a position out of range, a self-dependency, or a list with a directed cycle, faults of single edges first and in input order |
| `Digraphs.ImageAcyclicImpliesAcyclic` | `apps/api/src/requirements/requirements.service.ts:236-250` | a relation that maps arc by arc into an acyclic one is acyclic: why copying and thinning a graph cannot create a cycle |
| `SequenceCodes.PrintedNumberReadsBack` | `apps/api/src/requirements/requirement-impact.service.ts:65-75` | a printed number, padded or longer than the padding, parses back to itself and has the accepted shape |
| `SequenceCodes.PrintedIsShortest` | `apps/api/src/requirements/requirement-impact.service.ts:65-75` | a printed number has exactly three digits, or more with the first not zero |
| `SequenceCodes.AssignedCodes` | `apps/api/src/requirements/requirement-impact.service.ts:71-78` | supplied codes are kept; each new one is numbered above everything in use |
| `SequenceCodes.AssignedCodesDistinct` | `apps/api/src/requirements/requirement-impact.service.ts:48-78` | new codes differ from each other and from every supplied or existing one |
| `RequirementItems.StoredReadsBack` | `apps/api/src/requirements/requirement-impact.service.ts:339-410` | a stored row that is read back and stored again is unchanged |
| `RequirementItems.RoundTripExactlyWhenCanonical` | `apps/api/src/requirements/requirement-impact.service.ts:339-410` | a proposal survives the trip through the database exactly when it names a strategy and writes dates and JSON in the service's own form |
| `ImpactPatches.DiffIsPointwise` | `apps/api/src/requirements/requirement-impact.service.ts:86-121` | a report says at most one thing about a code, and what it says is decided by that code's baseline item and candidate alone |
| `ImpactPatches.DiffFits` | `apps/api/src/requirements/requirement-impact.service.ts:86-121` | the changes of a report are about distinct codes, and Added means absent from the baseline |
| `ImpactPatches.PatchIsPointwise` | `apps/api/src/requirements/requirement-impact.service.ts:230-294` | the content of the new set at a code is decided by that code's baseline item, change and decision |
| `ImpactPatches.PatchDistinct` | `apps/api/src/requirements/requirement-impact.service.ts:230-294` | no code occurs twice in the new set |
| `ImpactPatches.AcceptAllYieldsProposal` | `apps/api/src/requirements/requirement-impact.service.ts:412-475` | applying every change gives exactly the candidate codes with the candidate values, except that an existing item keeps its budget and commercial columns |
| `ImpactPatches.RejectAllKeepsBaseline` | `apps/api/src/requirements/requirement-impact.service.ts:230-294` | applying no change reproduces the baseline content, planner overrides included |
| `ImpactPatches.DecisionsActLocally` | `apps/api/src/requirements/requirement-impact.service.ts:230-294` | two sets of decisions that agree on a code agree on the result at that code |
| `ImpactPatches.OverrideLostExactlyByApply` | `apps/api/src/requirements/requirement-impact.service.ts:90-101` | a planner override is lost exactly when the change about its item is applied |
| `ImpactPatches.SecondReportExactly` | `apps/api/src/requirements/requirement-impact.service.ts:86-121` | after accepting everything, a second report on the same proposal is silent about a code exactly when the stored item reads back as the candidate |
| `ImpactPatches.AcceptedBudgetReportedAgain` | `apps/api/src/requirements/requirement-impact.service.ts:412-475` | a raised budget is reported, accepted, and reported again |
| `ImpactPatches.UnreportedExactly` | `apps/api/src/requirements/requirement-impact.service.ts:86-111` | against any baseline a code submitted again goes unreported exactly when its values are canonical, its keys are in the service's order and it stores as the row's own columns |
| `ImpactPatches.OwnValuesReported` | `apps/api/src/requirements/requirement-impact.service.ts:96-111` | an item submitted again with exactly its own values, keys in another order, is reported as changed |
| `RequirementSets.CreatedSetSound` | `apps/api/src/requirements/requirements.service.ts:65-96` | a created set has distinct, well-formed codes and an acyclic graph over its own items |
| `RequirementRules.GraphAcceptedExactly` | `apps/api/src/requirements/requirements.service.ts:312-346` | a dependency list passes exactly when every position is between 1 and the number of items, none is joined to itself, and there is no cycle |
| `RequirementRules.CreateSetExactly` | `apps/api/src/requirements/requirements.service.ts:27-105` | a set is created exactly for an approved design of the event and a dependency list that passes and repeats no pair; it is the event's next version, and its row i holds proposal i column by column as R-00i, untracked and in draft; a design not approved is a conflict, a repeated pair a duplicate key, and a refusal changes nothing |
| `RequirementSets.CarriedSound` | `apps/api/src/requirements/requirements.service.ts:236-250` | carrying dependencies over to renamed items keeps them inside the new set, distinct and acyclic |
| `RequirementSets.CarriedPairsAreInduced` | `apps/api/src/requirements/requirement-impact.service.ts:296-310` | the dependencies carried over are exactly the image of those between carried items |
| `RequirementSets.NamedExactlySurvivors` | `apps/api/src/requirements/requirement-impact.service.ts:230-265` | an item gets a new id exactly when it survives, and no two share one |
| `RequirementSets.OverrideIsIsomorphic` | `apps/api/src/requirements/requirements.service.ts:182-250` | an override renames ids one to one: two items depend on each other in the copy exactly when they did before |
| `RequirementSets.OverrideTouchesOneCode` | `apps/api/src/requirements/requirements.service.ts:192-234` | at the overridden code only quantity, its source and the override mark change; every other item keeps its content |
| `RequirementSets.OverriddenSetSound` | `apps/api/src/requirements/requirements.service.ts:182-250` | an overridden set is sound |
| `RequirementRules.OverrideExactly` | `apps/api/src/requirements/requirements.service.ts:143-273` | an override is refused exactly for a set of another event or a code it does not have; else it appends the next version with every row copied, the named one with the new quantity, its mark and its reason |
| `RequirementSets.PatchedSetSound` | `apps/api/src/requirements/requirement-impact.service.ts:228-310` | a set built from decisions is sound |
| `RequirementStore.StepKeepsSound` | `apps/api/src/requirements/requirements.service.ts:27-273` | each kind of step keeps every stored set's codes unique and well formed and its graph acyclic, and set versions of an event increasing |
| `RequirementStore.EveryReachableStoreIsSound` | `apps/api/src/requirements/requirement-impact.service.ts:28-337` | the same after any run of creating, approving, overriding, reporting and applying, in any order |
| `RequirementStore.HistoryIsNeverRewritten` | `apps/api/src/requirements/requirements.service.ts:116-273` | no run changes the content, version or dependencies of an earlier set beyond approving it; a report changes only by being applied once, which sets its status and the decisions on its changes and nothing else |
| `RequirementStore.ApprovalIsFinal` | `apps/api/src/requirements/requirements.service.ts:116-141` | approval leaves no draft item, and the set cannot be approved again after any run |
| `RequirementRules.ApproveSetExactly` | `apps/api/src/requirements/requirements.service.ts:116-141` | approval is refused exactly for a set of another event or one approved already; it makes every draft or reviewed item approved and leaves everything else |
| `RequirementRules.ReportAcceptedExactly` | `apps/api/src/requirements/requirement-impact.service.ts:28-64` | a report is accepted exactly for an approved set of the event and a proposal that supplies only codes of the set, none twice; a set that is not there or another event's is not found, one not approved a conflict, and a refusal changes nothing |
| `RequirementRules.ChangeLabelledExactly` | `apps/api/src/requirements/requirement-impact.service.ts:86-121` | a change is labelled added, removed, override-protected, quantity-changed or changed exactly as the baseline row and the candidate differ, written out on their columns |
| `RequirementStore.LastRowDecides` | `apps/api/src/requirements/requirement-impact.service.ts:197-208` | a change is decided as the last decision row about it says, and a change no row names is undecided |
| `RequirementRules.ApplyAcceptedExactly` | `apps/api/src/requirements/requirement-impact.service.ts:173-227` | a report is applied exactly when it is the event's, still pending, and the rows decide every change of it and name nothing else; one that is not there is not found, one applied before a conflict, and a refusal changes nothing |
| `RequirementRules.AppliedAsWritten` | `apps/api/src/requirements/requirement-impact.service.ts:173-337` | applying closes the report with the last row about each change as its decision, leaves all other reports and sets, and appends the event's next version as a draft of the baseline's design |
| `RequirementRules.PatchedRow` | `apps/api/src/requirements/requirement-impact.service.ts:230-294` | every row of the new set is a baseline row carried with its values, one replaced by a change's proposed values that keeps its budget and commercial columns, or a new untracked draft of an addition |
| `RequirementStore.AppliedReportMeansWhatItSaid` | `apps/api/src/requirements/requirement-impact.service.ts:28-337` | a report made now and applied after anything else has happened still yields, at each code, what the baseline, the proposal of the time and the last decision row about that code's change say |
| `RequirementService.Service.CreateSet` | `apps/api/src/requirements/requirements.service.ts:27-105` | the method leaves exactly the state of the creation step, or a refusal and no change |
| `RequirementService.Service.CreateDependencies` | `apps/api/prisma/schema.prisma:1194` | a repeated dependency is refused exactly when the unique index would refuse it |
| `RequirementService.Service.ApproveSet` | `apps/api/src/requirements/requirements.service.ts:116-141` | approval changes statuses and nothing else |
| `RequirementService.Service.OverrideQuantity` | `apps/api/src/requirements/requirements.service.ts:143-273` | the in-place loops build exactly the override step's set |
| `RequirementService.Service.CreateReport` | `apps/api/src/requirements/requirement-impact.service.ts:28-162` | the in-place comparison appends exactly the report the specification calls for |
| `RequirementService.Service.CompareItems` | `apps/api/src/requirements/requirement-impact.service.ts:86-108` | the loop over the baseline computes the item part of the diff |
| `RequirementService.Service.CollectAdded` | `apps/api/src/requirements/requirement-impact.service.ts:113-121` | the loop over the candidates computes the added part of the diff |
| `RequirementService.Service.NumberCandidates` | `apps/api/src/requirements/requirement-impact.service.ts:65-78` | the counting loop gives each candidate the code the specification assigns |
| `RequirementService.Service.ApplyReport` | `apps/api/src/requirements/requirement-impact.service.ts:173-337` | the in-place loops build exactly the patched set and close the report |
| `RequirementService.Service.CopySurvivors` | `apps/api/src/requirements/requirement-impact.service.ts:230-265` | the loop copies exactly the surviving items and records the renaming |
| `RequirementService.Service.AddAccepted` | `apps/api/src/requirements/requirement-impact.service.ts:267-294` | the loop adds exactly the accepted additions |
| `RequirementService.Service.CarryDependencies` | `apps/api/src/requirements/requirement-impact.service.ts:296-310` | the loop keeps exactly the dependencies with both ends renamed |
| `AssetReservations.CreateKeepsSafe` | `apps/api/src/asset-management/asset-management.service.ts:422-486` | a reservation that passes the check leaves every instant within capacity and every instance booked once at a time |
| `AssetReservations.EveryInstantFits` | `apps/api/src/asset-management/asset-management.service.ts:422-513` | over any run without reactivation or lowered capacity, new definitions included, active reservations at one instant fit the capacity and an instance's active reservations never overlap |
| `AssetReservations.ReactivationSafeExactlyWithRoom` | `apps/api/src/asset-management/asset-management.service.ts:489-513` | bringing an inactive reservation back is safe exactly when there is room at its start and at every start within it, and its instance is free |
| `AssetReservations.ReactivationCanOverbook` | `apps/api/src/asset-management/asset-management.service.ts:489-513` | reserve, cancel, reserve again, bring back: twenty in use of ten |
| `AssetReservations.CreateKeepsOwnInstancesExactly` | `apps/api/src/asset-management/asset-management.service.ts:456-486` | reservations keep naming countable instances of their own definitions exactly when the request does: creation does not check it |
| `AssetReservations.ForeignInstanceReserved` | `apps/api/src/asset-management/asset-management.service.ts:456-486` | an archived instance of another definition is reserved |
| `AssetReservations.AcceptedReservationCounts` | `apps/api/src/asset-management/asset-management.service.ts:405-487` | an accepted reservation counts with its whole quantity from its start up to its end, and nothing else changes |
| `AssetReservations.CreateExactly` | `apps/api/src/asset-management/asset-management.service.ts:405-487` | a request is accepted exactly when its definition exists, it is linked, it ends after it starts, its quantity and what overlaps it are within the capacity, and its instance is free; it is appended as a reserved row; unknown definitions are not found, missing links and wrong dates bad requests |
| `AssetReservations.CapacityExactly` | `apps/api/src/asset-management/asset-management.service.ts:405-421` | capacity is the number of active, unarchived instances of a serialized definition, and otherwise what is on hand less what is unavailable |
| `AssetReservations.ConfirmingKeepsUse` | `apps/api/src/asset-management/asset-management.service.ts:489-513` | confirming a reserved or confirmed reservation leaves the use of every definition at every instant as it was |
| `AssetReservations.ConfirmedBookingRefusesNext` | `apps/api/src/asset-management/asset-management.service.ts:429-437` | after ten of ten are reserved and confirmed, the next request for that time is a conflict |
| `AssetReservations.CreationCanRefuseDespiteRoom` | `apps/api/src/asset-management/asset-management.service.ts:426-458` | the sum over overlapping reservations can refuse a request that fits at every instant |
| `AssetReservations.PeakIsLargest` | `apps/api/src/asset-management/asset-management.service.ts:426-458` | the largest use in a window is reached at its start or where an active reservation starts in it, and is at most the sum the check uses |
| `AssetReservations.CheckIsTooStrictExactly` | `apps/api/src/asset-management/asset-management.service.ts:426-458` | the check refuses something that fits at every instant of a window exactly when the peak there is below both the capacity and the sum over overlapping reservations |
| `AssetReservations.RefusedDespiteRoomExactly` | `apps/api/src/asset-management/asset-management.service.ts:422-476` | request by request: one with room is refused exactly when its quantity exceeds what the overlapping reservations leave; an accepted one always has room |
| `AssetReservations.ReservationService.CreateReservation` | `apps/api/src/asset-management/asset-management.service.ts:405-487` | the method performs exactly the creation step and keeps a safe table safe |
| `AssetReservations.ReservationService.ChangeReservationStatus` | `apps/api/src/asset-management/asset-management.service.ts:489-513` | the method performs exactly the status step; safety is kept unless it reactivates |
| `SupplierCapability.OwnAvailabilityBySupplier` | `apps/api/src/marketplace/marketplace-capability.service.ts:299-353` | the accumulated map holds each supplier's total over its resources, and its values add up to the market total |
| `SupplierCapability.ReportedFiguresExactly` | `apps/api/src/marketplace/marketplace-capability.service.ts:355-401` | own stock is reported to the nearest hundredth, a coverage as the nearest hundredth of a percent, and as nothing without a demand |
| `SupplierCapability.ReservedByResource` | `apps/api/src/marketplace/marketplace-capability.service.ts:299-330` | the accumulated map holds each resource's reserved quantity |
| `SupplierCapability.AvailableIsTheRest` | `apps/api/src/marketplace/marketplace-capability.service.ts:524-546` | of a usable counted resource, everything is degraded, reserved or available |
| `SupplierCapability.PotentialIsMarketTotal` | `apps/api/src/marketplace/marketplace-capability.service.ts:355-401` | rounding a supplier's own stock first does not disturb the sum: everyone's potential is the rounded market total |
| `SupplierCapability.MarketDecidesBand` | `apps/api/src/marketplace/marketplace-capability.service.ts:488-506` | the market total alone decides whether all suppliers can fulfil, all only partly, or none |
| `SupplierCapability.CoverableExactly` | `apps/api/src/marketplace/marketplace-capability.service.ts:548-575` | others can cover a shortfall exactly when all of them together can |
| `SupplierCapability.SourcingHasAPartner` | `apps/api/src/marketplace/marketplace-capability.service.ts:355-401` | a supplier for whom sourcing is possible has a secondary count of at least one |
| `SupplierCapability.SourcingReportTrueExactly` | `apps/api/src/marketplace/marketplace-capability.service.ts:488-506` | the reported secondary suppliers really cover the shortfall exactly when the unrounded stock of the others does |
| `SupplierCapability.RoundedMarketCanOverstate` | `apps/api/src/marketplace/marketplace-capability.service.ts:488-506` | 50 and 49.996 are reported to source 100 |
| `SupplierCapability.OwnStockReportedExactly` | `apps/api/src/marketplace/marketplace-capability.service.ts:355-401` | own stock is reported exactly from half a hundredth below the next whole hundredth of the demand on, so wrongly exactly in the gap up to the demand |
| `SupplierCapability.OwnStockCanBeShort` | `apps/api/src/marketplace/marketplace-capability.service.ts:488-506` | 99.996 of 100 is reported as own stock |
| `SupplierCapability.FullCoverageExactly` | `apps/api/src/marketplace/marketplace-capability.service.ts:716-722` | coverage shows as full exactly from 99.995 percent on |
| `SupplierCapability.FullCoverageWithoutFullStock` | `apps/api/src/marketplace/marketplace-capability.service.ts:716-722` | 29999.99 of 30000 shows full coverage although no status calls it own stock |
| `SupplierCapability.AssessSupplier` | `apps/api/src/marketplace/marketplace-capability.service.ts:355-401` | own stock, potential, both coverages, status and secondary count of one supplier, the count being the true minimum |
| `SecondarySourcing.TopIsBest` | `apps/api/src/marketplace/marketplace-capability.service.ts:554-562` | no k suppliers have more together than the k largest |
| `SecondarySourcing.GreedyIsMinimal` | `apps/api/src/marketplace/marketplace-capability.service.ts:554-575` | if the k largest are the first to cover the shortfall, no smaller choice of other suppliers covers it |
| `SecondarySourcing.CountSecondarySuppliers` | `apps/api/src/marketplace/marketplace-capability.service.ts:548-575` | returns the size of a smallest set of others covering the shortfall, or the number of others with stock when none does |
| `SecondarySourcing.SecondaryCountUnique` | `apps/api/src/marketplace/marketplace-capability.service.ts:548-575` | that description fixes the count |
| `Shortlisting.ComparatorIsLexicographic` | `apps/api/src/marketplace/marketplace-capability.service.ts:664-714` | the nine comparisons are the lexicographic order on nine keys |
| `Shortlisting.BetterRanksFirst` | `apps/api/src/marketplace/marketplace-capability.service.ts:664-714` | own stock before sourcing, before partial, before unavailable; then, each among equals in all before, larger coverage, fewer partners, exact match, confidence, reliability, lower cost, lower risk and name rank first |
| `Shortlisting.RankingIsConsistent` | `apps/api/src/marketplace/marketplace-capability.service.ts:664-714` | the comparator is antisymmetric, total and transitive, so sorting by it is meaningful |
| `Shortlisting.EligibilityIsMonotone` | `apps/api/src/marketplace/marketplace-capability.service.ts:615-634` | lowering the threshold never loses a supplier, despite the stricter rule from 75 up |
| `Shortlisting.ApplyAdaptiveThresholdShortlist` | `apps/api/src/marketplace/marketplace-capability.service.ts:577-613` | the early-exit loop applies the highest threshold with five eligible suppliers, else the lowest, and returns the first twelve eligible there, or of all available if none is |
| `Shortlisting.ShortlistInNumbers` | `apps/api/src/marketplace/marketplace-capability.service.ts:577-613` | the applied threshold is the highest of 100, 75, 50, 35, 25, 15 and 10 with at least five eligible, else 10; shown are the first twelve eligible, or the first twelve available if nobody is eligible |
| `Shortlisting.ShortlistIsTheBest` | `apps/api/src/marketplace/marketplace-capability.service.ts:577-613` | nobody eligible left off ranks ahead of anyone shown, and nobody unavailable is shown |
| `Procurement.MakeCandidate` | `apps/api/src/procurement/procurement.service.ts:367-406` | a candidate exists exactly when every requirement has an option, and is priced from the best option of each |
| `Procurement.PickIsBest` | `apps/api/src/procurement/procurement.service.ts:408-439` | the option chosen for a requirement is no worse than any other under the strategy |
| `Procurement.StrategyMeans` | `apps/api/src/procurement/procurement.service.ts:408-439` | what is picked costs no more, is no riskier, covers no less, is no less confident, or is no farther away than any other option, as the strategy says; a balanced pick is more confident or as confident and no riskier |
| `Procurement.PreferredIsTaken` | `apps/api/src/procurement/procurement.service.ts:414-417` | where a preferred supplier has an option, that supplier is picked, whatever the strategy |
| `Procurement.TotalCostExactly` | `apps/api/src/procurement/procurement.service.ts:382-386` | the total is known exactly when every chosen supplier has a price, and is then the end of the running total of those prices |
| `Procurement.AverageIsNear` | `apps/api/src/procurement/procurement.service.ts:539-545` | a reported average is within half a hundredth of a number that, taken once for each value, adds up to the running total of the values |
| `Procurement.LowestCostIsOptimal` | `apps/api/src/procurement/procurement.service.ts:408-439` | with prices below the sentinel, the total is known exactly when every requirement has a priced option; it is the running total of the chosen prices, and no assignment with prices has a smaller one |
| `Procurement.CheapestUnknownExactly` | `apps/api/src/procurement/procurement.service.ts:418-423` | for any prices, an unpriced option is chosen exactly when no priced one is below the sentinel and none in front of it is at it |
| `Sorting.HeadIsFirstLeast` | `apps/api/src/procurement/procurement.service.ts:367-394` | a stable sort puts the first of the least elements in front |
| `Procurement.LowestRiskIsOptimal` | `apps/api/src/procurement/procurement.service.ts:424-425` | no assignment has a lower rounded average risk |
| `Procurement.HighestConfidenceIsOptimal` | `apps/api/src/procurement/procurement.service.ts:426-427` | no assignment has a higher rounded average confidence |
| `Procurement.BalancedDominatesConfidence` | `apps/api/src/procurement/procurement.service.ts:408-439` | the balanced candidate is as confident as the most confident and no riskier |
| `Procurement.FewestSuppliersIsNotFewest` | `apps/api/src/procurement/procurement.service.ts:433-434` | where two suppliers each cover more of one requirement than a third covers of both, the strategy of that name uses two where one would do |
| `Procurement.FewestUsesWidest` | `apps/api/src/procurement/procurement.service.ts:367-439` | that strategy uses the suppliers of each requirement's first option with the highest own coverage |
| `Procurement.FewestIsFewestExactly` | `apps/api/src/procurement/procurement.service.ts:367-439` | it uses the fewest suppliers of all assignments exactly when no group of suppliers that has an option for every requirement is smaller than those |
| `Procurement.FewestOfTwoExactly` | `apps/api/src/procurement/procurement.service.ts:367-439` | when those are one supplier it always does; when they are two, exactly when no single supplier is eligible for everything |
| `Procurement.SignatureDeterminesAssignment` | `apps/api/src/procurement/procurement.service.ts:395-406` | two assignments have equal signatures exactly when they are equal |
| `Procurement.BuildCandidates` | `apps/api/src/procurement/procurement.service.ts:327-365` | the two drafting loops, deduplication and the cap, twelve unless one is given, yield exactly the specified list; nothing if a requirement has no option |
| `Procurement.SolutionsLoseNothing` | `apps/api/src/procurement/procurement.service.ts:354-364` | results have distinct assignments, and every drafted assignment within the cap is among them with its cost, risk and confidence |
| `Procurement.SolutionsAreDrafted` | `apps/api/src/procurement/procurement.service.ts:354-364` | every result was drafted and keeps to the cap |
| `Procurement.DraftedExactly` | `apps/api/src/procurement/procurement.service.ts:327-353` | drafted are exactly the best choice under each of the six strategies and, for each supplier found anywhere, the balanced choice preferring it |
| `Procurement.CandidateSays` | `apps/api/src/procurement/procurement.service.ts:383-406` | what a candidate says of its choices: the total if all have prices, the number of different suppliers, the first currency among them |
| `Procurement.OneSupplierSolutionOffered` | `apps/api/src/procurement/procurement.service.ts:338-364` | a supplier eligible for everything is offered alone when the cap allows one supplier |
| `Procurement.OneSupplierSolutionExactly` | `apps/api/src/procurement/procurement.service.ts:327-365` | a one-supplier solution is in the list exactly when the cap is at least one and some supplier is eligible for every requirement |
| `StockLedger.StepKeepsSound` | `apps/api/src/inventory/inventory.service.ts:1583-1954` | each operation keeps levels equal to the signed sum of movements, item totals too, and reserved between zero and on hand |
| `StockLedger.EveryReachableLedgerAgrees` | `apps/api/src/inventory/inventory.service.ts:1583-1954` | the same after any run from an empty ledger; nothing is ever reserved |
| `StockLedger.TransferConserves` | `apps/api/src/inventory/inventory.service.ts:1729-1856` | a transfer moves the quantity, leaves every item total and every other level alone |
| `StockLedger.NegativeRowNeverInserted` | `apps/api/src/inventory/inventory.service.ts:1764-1790` | the branch inserting a negative level is never reached |
| `StockLedger.LevelsMoveAsIntended` | `apps/api/src/inventory/inventory.service.ts:1583-1954` | an accepted operation changes every level by exactly what it is meant to, and a refused one changes nothing |
| `StockLedger.AcceptedExactly` | `apps/api/src/inventory/inventory.service.ts:2483-2538` | an operation is accepted exactly when every item and location it names is there and active, a transfer names two locations, and what is given up is at most what is on hand and not reserved; unknown ones are forbidden, anything else a bad request |
| `StockLedger.InventoryService.CreateOpeningBalance` | `apps/api/src/inventory/inventory.service.ts:1583-1644` | performs exactly the opening step and keeps a sound ledger sound |
| `StockLedger.InventoryService.CreateStockAdjustment` | `apps/api/src/inventory/inventory.service.ts:1646-1727` | performs exactly the adjustment step, refusals included |
| `StockLedger.InventoryService.CreateStockTransfer` | `apps/api/src/inventory/inventory.service.ts:1729-1856` | performs exactly the transfer step, refusals included |
| `StockLedger.InventoryService.ApplyGoodsReceiptMovements` | `apps/api/src/inventory/inventory.service.ts:1858-1954` | performs exactly the receipt step: accepted goods enter stock, damaged ones are only logged |
| `OrderPricing.PricedLineAddsUp` | `apps/api/src/purchase-orders/purchase-orders.service.ts:1301-1310` | every amount of a line is in whole cents and total = subtotal - discount + tax, whatever the rounding did |
| `OrderPricing.PricedExactly` | `apps/api/src/purchase-orders/purchase-orders.service.ts:1301-1310` | four amounts are the price of a line exactly when they are whole cents that add up, each the one nearest, halves up, to its product or share: independent of how it is computed |
| `OrderPricing.TotalsAreSums` | `apps/api/src/purchase-orders/purchase-orders.service.ts:1337-1364` | an order's subtotal, discount, tax and total are the exact sums of those of its lines |
| `OrderPricing.OrderAddsUp` | `apps/api/src/purchase-orders/purchase-orders.service.ts:1337-1364` | the stored total is subtotal - discount + tax + fee up to the last rounding, and exactly so when the fee is in whole cents |
| `OrderPricing.LineDrift` | `apps/api/src/purchase-orders/purchase-orders.service.ts:1301-1309` | with rates between 0 and 100 a line is within 0.025 of its unrounded value |
| `OrderPricing.OrderDrift` | `apps/api/src/purchase-orders/purchase-orders.service.ts:1337-1364` | the sum of the line totals is within 0.025 per line of the unrounded sum |
| `OrderPricing.LineNotNegativeExactly` | `apps/api/src/purchase-orders/purchase-orders.service.ts:1301-1309` | a line total is not negative exactly while the discount exceeds the subtotal by less than half a cent |
| `OrderPricing.OrdinaryLineNotNegative` | `apps/api/src/purchase-orders/purchase-orders.service.ts:1301-1309` | no negative line with a discount of at most 100 percent |
| `OrderPricing.ExcessiveDiscountGoesNegative` | `apps/api/src/purchase-orders/purchase-orders.service.ts:1301-1309` | a 200 percent discount, which validation allows, makes a line negative |
| `OrderPricing.CommittedOrderEqualsDraft` | `apps/api/src/purchase-orders/purchase-order-drafts.service.ts:463-493` | the requests a draft is committed with are priced as the draft was, whatever VAT its products have |
| `DraftOrders.CommittedDraftBecomesOrder` | `apps/api/src/purchase-orders/purchase-order-drafts.service.ts:355-493` | the order that committing creates is for the reviewed supplier and location and has, line by line, the draft's products, quantities and amounts, and its summary and total |
| `DraftOrders.CreatedOrderDrift` | `apps/api/src/purchase-orders/purchase-orders.service.ts:137-223` | with rates between 0 and 100 a created order's total is within 0.025 per line and 0.005 of what was agreed |
| `PurchaseOrders.PreparedLines` | `apps/api/src/purchase-orders/purchase-orders.service.ts:1213-1335` | prepared lines follow their requests, belong to the chosen supplier, start unreceived, and carry the money of their requests, which adds up |
| `PurchaseOrders.NewOrderSound` | `apps/api/src/purchase-orders/purchase-orders.service.ts:137-223` | a new order is sound |
| `OrderRules.CreatedExactly` | `apps/api/src/purchase-orders/purchase-orders.service.ts:137-223` | an order is created exactly when supplier and location are there and active and every line names an active product of the organization and the supplier, none twice |
| `OrderRules.FirstFaultDecides` | `apps/api/src/purchase-orders/purchase-orders.service.ts:1213-1299` | the first request that cannot be met gives the error: forbidden for a product the organization does not have, unless it was named before, and else a bad request |
| `OrderRules.CreatedOrderHolds` | `apps/api/src/purchase-orders/purchase-orders.service.ts:137-223` | every column of a created order: a draft without marks, the request's supplier, location and fee, line k of request k with product, item, quantity and price, and totals that are the sums |
| `OrderRules.EditedExactly` | `apps/api/src/purchase-orders/purchase-orders.service.ts:350-424` | an edit is accepted exactly on a draft that is not archived, with the conditions of creation on whatever it names, new lines being checked against the resulting supplier |
| `OrderRules.EditedOrderHolds` | `apps/api/src/purchase-orders/purchase-orders.service.ts:424-536` | an edit sets what it names and nothing else, new lines getting new ids, and totals are the sums of the resulting lines |
| `PurchaseOrders.StepKeepsSound` | `apps/api/src/purchase-orders/purchase-orders.service.ts:350-951` | every transition, edit and receipt keeps totals equal to the lines, stamps fitting the status, the status telling what was received, and received quantities equal to the stored receipts |
| `PurchaseOrders.EveryReachableOrderIsSound` | `apps/api/src/purchase-orders/purchase-orders.service.ts:350-951` | the same after any run, with the stock ledger still agreeing with its movements |
| `PurchaseOrders.EveryOrderStaysSound` | `apps/api/src/purchase-orders/purchase-orders.service.ts:137-951` | a newly created order stays sound whatever is done to it |
| `PurchaseOrders.ReachableOrderAddsUp` | `apps/api/src/purchase-orders/purchase-orders.service.ts:423-480` | every sound order's total is subtotal - discount + tax + fee up to the last rounding |
| `PurchaseOrders.LifecycleLaws` | `apps/api/src/purchase-orders/purchase-orders.service.ts:603-934` | over any run cancelled and fully received are final, a partially received order can only be completed or cancelled, and from the first receipt or from being sent on the approver never changes |
| `PurchaseOrders.ArchivedOrderStays` | `apps/api/src/purchase-orders/purchase-orders.service.ts:538-934` | over any run without a restore an archived order keeps lines, receipts and stock, and its status changes only by return to draft or cancellation |
| `PurchaseOrders.StampsHaveASource` | `apps/api/src/purchase-orders/purchase-orders.service.ts:603-727` | over any run a new approver, sent or cancelled mark comes from that very operation |
| `OrderRules.DraftIsSent` | `apps/api/src/purchase-orders/purchase-orders.service.ts:603-702` | submitted, approved and marked as sent, in this order, a draft becomes a sent order with that approver |
| `GoodsReceipts.ReceivedIsApprovedExactly` | `apps/api/src/purchase-orders/purchase-orders.service.ts:762-934` | after its first accepted receipt, and whatever follows, an order is approved exactly when it was approved or sent at that receipt |
| `GoodsReceipts.DraftForTenIsCreated` | `apps/api/src/purchase-orders/purchase-orders.service.ts:137-223` | creating an order gives the draft the next lemmas start from |
| `GoodsReceipts.DraftIsReceived` | `apps/api/src/purchase-orders/purchase-orders.service.ts:762-934` | that draft is received in full, unapproved |
| `GoodsReceipts.ReceiptsAccountForEverything` | `apps/api/src/purchase-orders/purchase-orders.service.ts:843-906` | over any run each line has received what the stored receipts add up to, and the stock of each item at each location has risen by what they accepted |
| `GoodsReceipts.DistinctReceiptStaysWithinOrder` | `apps/api/src/purchase-orders/purchase-orders.service.ts:787-854` | a receipt naming each line at most once keeps every line within ordered + 0.0001 |
| `GoodsReceipts.DistinctReceiptsNeverExceedOrder` | `apps/api/src/purchase-orders/purchase-orders.service.ts:787-934` | the same over any run of such receipts and any other steps |
| `GoodsReceipts.ReceiptStaysWithinOrderExactly` | `apps/api/src/purchase-orders/purchase-orders.service.ts:836-841` | in general a receipt stays within the order exactly when each line's receipt total fits what was outstanding before |
| `GoodsReceipts.RepeatedLineOverReceives` | `apps/api/src/purchase-orders/purchase-orders.service.ts:787-934` | ten ordered, ten named twice in one receipt: it is accepted and twenty are received |
| `GoodsReceipts.ToleranceIsInert` | `apps/api/src/purchase-orders/purchase-orders.service.ts:824-841` | for quantities with three decimals the tolerance allows nothing: accepted + damaged is what was received and ordered is never passed |
| `GoodsReceipts.ReceiptRaisesStock` | `apps/api/src/purchase-orders/purchase-orders.service.ts:884-906` | an accepted receipt raises each item's stock at its location by the accepted total and touches nothing else |
| `OrderRules.ReceivedExactly` | `apps/api/src/purchase-orders/purchase-orders.service.ts:762-854` | a receipt is accepted exactly on an open order that is not archived, at an active location, when each of its lines fits an order line in item and quantities and its item is active; approval is not asked for |
| `OrderRules.ReceiptRefusedAs` | `apps/api/src/purchase-orders/purchase-orders.service.ts:762-906` | a refused receipt changes neither order nor stock; it is forbidden exactly when an open order's location is unknown or, all else fitting, the first item that may not be booked is unknown |
| `OrderRules.ReceivedOrderHolds` | `apps/api/src/purchase-orders/purchase-orders.service.ts:884-934` | it raises each line by its total, and makes the order fully received exactly when nothing is outstanding, else partially received |
| `GoodsReceipts.UnlinkedOrderNeverCompletes` | `apps/api/src/purchase-orders/purchase-orders.service.ts:806-810` | an order with a line that matches no inventory item is never fully received unless its lines are replaced |
| `OrderCompletion.CompletableExactly` | `apps/api/src/purchase-orders/purchase-orders.service.ts:762-934` | one receipt at a location can complete an open order exactly when every line not yet covered has an inventory item that may be booked there |
| `OrderCompletion.OutstandingCompletes` | `apps/api/src/purchase-orders/purchase-orders.service.ts:787-934` | the receipt of what every line still needs is accepted and completes the order |
| `OrderBook.StepKeepsSound` | `apps/api/src/purchase-orders/purchase-orders.service.ts:137-951` | one operation on any order or on the stock keeps every order sound, the ledger sound, and goods stocked in equal to what all receipts accepted |
| `OrderBook.UntouchedOrderStays` | `apps/api/src/purchase-orders/purchase-orders.service.ts:137-951` | over any run an order that no operation names is still there as it was |
| `OrderBook.EveryReachableBookIsSound` | `apps/api/src/inventory/inventory.service.ts:1583-1954` | over any interleaving of operations on any number of orders and on one stock, the stock on hand is what all receipts accepted plus what balances, adjustments and transfers did |
| `PurchaseOrders.EditKeepsSupplierExactly` | `apps/api/src/purchase-orders/purchase-orders.service.ts:378-424` | an edit keeps all products with the order's supplier exactly unless it changes the supplier and leaves the lines alone |
| `GoodsReceipts.SupplierEditMixesSuppliers` | `apps/api/src/purchase-orders/purchase-orders.service.ts:378-424` | giving a draft to another supplier is accepted and leaves the first one's product on it |
| `PurchaseOrderServices.PurchaseOrderService.PrepareLineItems` | `apps/api/src/purchase-orders/purchase-orders.service.ts:1213-1335` | the mapping with its set of seen products yields exactly the prepared lines or the first fault |
| `PurchaseOrderServices.PurchaseOrderService.Create` | `apps/api/src/purchase-orders/purchase-orders.service.ts:137-223` | creates a sound draft order from prepared lines, or reports the fault |
| `PurchaseOrderServices.PurchaseOrderService.SubmitForApproval` | `apps/api/src/purchase-orders/purchase-orders.service.ts:603-627` | performs exactly the submission step |
| `PurchaseOrderServices.PurchaseOrderService.ApproveOrder` | `apps/api/src/purchase-orders/purchase-orders.service.ts:629-655` | performs exactly the approval step |
| `PurchaseOrderServices.PurchaseOrderService.ReturnOrderToDraft` | `apps/api/src/purchase-orders/purchase-orders.service.ts:657-677` | performs exactly the return step |
| `PurchaseOrderServices.PurchaseOrderService.MarkOrderSent` | `apps/api/src/purchase-orders/purchase-orders.service.ts:679-702` | performs exactly the sending step |
| `PurchaseOrderServices.PurchaseOrderService.CancelOrder` | `apps/api/src/purchase-orders/purchase-orders.service.ts:704-727` | performs exactly the cancellation step |
| `PurchaseOrderServices.PurchaseOrderService.ArchiveOrder` | `apps/api/src/purchase-orders/purchase-orders.service.ts:538-554` | performs exactly the archiving step |
| `PurchaseOrderServices.PurchaseOrderService.RestoreOrder` | `apps/api/src/purchase-orders/purchase-orders.service.ts:556-572` | performs exactly the restoring step |
| `PurchaseOrderServices.PurchaseOrderService.UpdateDraft` | `apps/api/src/purchase-orders/purchase-orders.service.ts:350-536` | performs exactly the edit step, totals recomputed from the resulting lines |
| `PurchaseOrderServices.PurchaseOrderService.BookReceipt` | `apps/api/src/purchase-orders/purchase-orders.service.ts:884-906` | the loop incrementing lines and booking stock adds up to the receipt's totals, and a refusal on any line undoes all of it |
| `PurchaseOrderServices.PurchaseOrderService.CreateGoodsReceipt` | `apps/api/src/purchase-orders/purchase-orders.service.ts:729-951` | performs exactly the receipt step on order and stock together and keeps both sound |
| `MoodBoards.SignatureReadsBackExactly` | `apps/api/src/mood-boards/mood-boards.service.ts:503-534` | an object reads back with the signature it was submitted with exactly when its presentation is written in database key order |
| `MoodBoards.UnchangedAcceptedExactly` | `apps/api/src/mood-boards/mood-boards.service.ts:460-493` | a locked object submitted again unchanged is accepted exactly under that condition: the comparison depends on key order |
| `MoodBoards.SameObjectRefused` | `apps/api/src/mood-boards/mood-boards.service.ts:54-183` | a board is created with a locked object, and a revision that submits the very same object is refused |
| `MoodBoards.NewKeysDistinct` | `apps/api/src/mood-boards/mood-boards.service.ts:137-161` | generated object keys meet neither each other nor any supplied key |
| `SequenceCodes.MadeUpExactly` | `apps/api/src/requirements/requirement-impact.service.ts:65-78` | the codes made up are exactly the printed numbers that follow the highest in use, one for each missing code |
| `MoodBoards.GeneratedKeyRepeatsExactly` | `apps/api/src/mood-boards/mood-boards.service.ts:75-161` | a generated key repeats a key of the previous board exactly when that key is one of the next numbers after the highest supplied one |
| `MoodBoards.GeneratedKeyMeetsOnlyDropped` | `apps/api/src/mood-boards/mood-boards.service.ts:75-161` | what it repeats was not locked and is not supplied |
| `MoodBoards.DroppedKeyIsReused` | `apps/api/src/mood-boards/mood-boards.service.ts:54-183` | that happens: of two boards created one after the other, each with one unkeyed object, both objects are OBJ-001 and the comparison calls one a change of the other |
| `MoodBoards.CreateKeepsSound` | `apps/api/src/mood-boards/mood-boards.service.ts:54-183` | a created board has unique keys, and keeps every locked object of the board it is based on |
| `MoodBoards.CheckExactly` | `apps/api/src/mood-boards/mood-boards.service.ts:54-129` | a board is created exactly when its set is the event's and approved, no key is supplied twice, every object is linked, the board it revises is of the event and all its locked objects come back, and no scene key repeats |
| `MoodBoards.CreatedBoardHolds` | `apps/api/src/mood-boards/mood-boards.service.ts:130-183` | the new board has one object for each submitted one, in order, holding its scene, its columns, its item's code and its key if one was supplied |
| `MoodBoards.ResubmittedExactly` | `apps/api/src/mood-boards/mood-boards.service.ts:460-493` | a locked object comes back exactly when one submitted under its key and in its scene repeats every compared column, its presentation written in database order |
| `MoodBoards.EveryReachableBoardIsSound` | `apps/api/src/mood-boards/mood-boards.service.ts:54-183` | the same for every board after any run, none of which is ever rewritten |
| `MoodBoards.CreatedObjectsAreTraceable` | `apps/api/src/mood-boards/mood-boards.service.ts:70-99` | every object carries the code its item has in the approved set; marketplace objects name listing and supplier |
| `MoodBoards.LockedObjectsPersist` | `apps/api/src/mood-boards/mood-boards.service.ts:460-493` | along any chain of revisions a locked object is still there: same key, same scene, equal signature, still locked |
| `MoodBoards.Compare` | `apps/api/src/mood-boards/mood-boards.service.ts:402-458` | reports exactly the added, removed and changed keys, each once |
| `MoodBoards.ReportsExactly` | `apps/api/src/mood-boards/mood-boards.service.ts:402-458` | an object is added exactly when only the second board has its key, removed when only the first has, changed when both have it with different signatures |
| `MoodBoards.SignatureComparesExactly` | `apps/api/src/mood-boards/mood-boards.service.ts:503-534` | the ten columns by which two objects differ for the comparison; scene and item are not among them |
| `MoodBoards.ComparisonSparesLocked` | `apps/api/src/mood-boards/mood-boards.service.ts:402-458` | comparing a board with any descendant never reports a locked object |
| `MoodBoards.NoChangesExactly` | `apps/api/src/mood-boards/mood-boards.service.ts:420-437` | nothing is reported exactly when both boards show the same keys with the same signatures |
| `MoodBoards.ComparisonReverses` | `apps/api/src/mood-boards/mood-boards.service.ts:420-437` | the comparison the other way round reports exactly the opposite changes |
| `MoodBoards.MoveIsNotReported` | `apps/api/src/mood-boards/mood-boards.service.ts:503-516` | moving an object to another scene is not reported |
| `MoodBoards.MoodBoardService.ValidateLinks` | `apps/api/src/mood-boards/mood-boards.service.ts:83-99` | the nested loops accept exactly boards whose objects all link to the set, marketplace ones with listing and supplier |
| `MoodBoards.MoodBoardService.ValidateLockedObjects` | `apps/api/src/mood-boards/mood-boards.service.ts:460-493` | the loop accepts exactly when every locked object is resubmitted with its scene and signature |
| `MoodBoards.MoodBoardService.WriteObjects` | `apps/api/src/mood-boards/mood-boards.service.ts:137-178` | the nested loops write the objects of all scenes, numbering those without a key in order |
| `MoodBoards.MoodBoardService.Create` | `apps/api/src/mood-boards/mood-boards.service.ts:54-183` | performs exactly the creation step and keeps all boards sound |
| `Quotations.RepricingNeverRejects` | `apps/api/src/quotations/quotations.service.ts:439-480` | re-pricing a stored line is never rejected and keeps the discount between 0 and the line's base |
| `Quotations.RepricingExactly` | `apps/api/src/quotations/quotations.service.ts:439-480` | re-pricing reproduces a stored line exactly when its discount is what its percentage gives |
| `Quotations.NewLineSound` | `apps/api/src/quotations/quotations.service.ts:439-480` | a priced line has a percentage in 0..100 and a discount in 0..base; one entered by percentage re-prices exactly |
| `Quotations.PricedExactly` | `apps/api/src/quotations/quotations.service.ts:439-480` | a price is that of a line exactly when percentage, discount and total fit the line and each other, each rounded one being the nearest, halves up; a line that none fits is rejected |
| `Quotations.RepricingDrift` | `apps/api/src/quotations/quotations.service.ts:439-480` | otherwise the discount drifts by at most base/200 + 1/2 cent |
| `Quotations.LineNearExact` | `apps/api/src/quotations/quotations.service.ts:439-480` | a line total is quantity times price less the amount given, or less the percentage up to half a cent |
| `Quotations.TotalNearExact` | `apps/api/src/quotations/quotations.service.ts:346-356` | the total is the taxable amount with tax up to half a cent |
| `Quotations.DriftHappens` | `apps/api/src/quotations/quotations.service.ts:439-480` | a cent off two hundred becomes two |
| `Quotations.CreatedSound` | `apps/api/src/quotations/quotations.service.ts:41-77` | a new quotation's header agrees with its lines, and tax and total with the header |
| `Quotations.TotalsExactly` | `apps/api/src/quotations/quotations.service.ts:319-356` | a header belongs to some lines exactly when all have a price, the discount is within their subtotal, the rate within 100, the tax the nearest cent, and the total what remains with it |
| `Quotations.CreatedExactly` | `apps/api/src/quotations/quotations.service.ts:41-77` | a quotation is created, as draft or sent only, exactly when its totals exist, and stores each line with its price |
| `Quotations.UpdatedExactly` | `apps/api/src/quotations/quotations.service.ts:177-270` | an update is accepted, in any status, exactly when the quotation is not archived and the resulting lines, discount and rate have totals; it sets the header to those and the lines only if new ones are given |
| `Quotations.StepKeepsSound` | `apps/api/src/quotations/quotations.service.ts:177-298` | updates, status changes and archiving keep the header consistent, its subtotal being that of the lines as stored or as priced again |
| `Quotations.EveryReachableQuotationIsSound` | `apps/api/src/quotations/quotations.service.ts:177-309` | the same over any run; no status is left backwards, final ones never, and an archived quotation never changes |
| `Quotations.TitleUpdateAcceptedExactly` | `apps/api/src/quotations/quotations.service.ts:204-220` | an update that changes no money is accepted exactly when the stored discount fits the subtotal of the lines as priced again |
| `Quotations.TitleUpdateChangesNothingExactly` | `apps/api/src/quotations/quotations.service.ts:204-262` | it leaves the money alone exactly when the subtotal already is the re-priced one |
| `Quotations.TitleUpdateCanBreakSum` | `apps/api/src/quotations/quotations.service.ts:204-262` | it can leave the header different from the sum of the stored lines |
| `Quotations.TitleUpdateCanBeRejected` | `apps/api/src/quotations/quotations.service.ts:319-346` | it can be rejected |
| `Quotations.SubtotalDrift` | `apps/api/src/quotations/quotations.service.ts:319-356` | re-pricing moves the subtotal by at most half a percent of the base plus half a cent per line |
| `Quotations.HeaderNearLines` | `apps/api/src/quotations/quotations.service.ts:319-356` | every reachable header is within that drift of its stored lines, and equal to them when every discount is what its percentage gives |
| `Quotations.UpdateIsIdempotent` | `apps/api/src/quotations/quotations.service.ts:177-270` | an update without lines done twice is done once |
| `Quotations.UpdateKeepsMoneyExactly` | `apps/api/src/quotations/quotations.service.ts:177-270` | an accepted update leaves lines and header alone exactly when it prices to the same lines and subtotal and asks for the same discount and rate; no status matters |
| `Quotations.AcceptedQuotationRepriced` | `apps/api/src/quotations/quotations.service.ts:177-298` | a sound draft is sent, accepted and then given another discount; it stays accepted |
| `Quotations.RepriceableDraft` | `apps/api/src/quotations/quotations.service.ts:41-77` | such a draft is created |
| `Quotations.QuotationService.UpdateQuotation` | `apps/api/src/quotations/quotations.service.ts:177-270` | performs exactly the update step and keeps the quotation sound |
| `Quotations.QuotationService.UpdateStatus` | `apps/api/src/quotations/quotations.service.ts:272-298` | performs exactly the status step |
| `Quotations.QuotationService.ArchiveQuotation` | `apps/api/src/quotations/quotations.service.ts:300-309` | performs exactly the archiving step |

## Left out

- Permissions, memberships, authentication and the HTTP layer: the caller is taken to be allowed to act.
- Database isolation, retries and races: each call is one atomic step. The creation of reservations runs
  without a transaction in the code, so its capacity law is about calls one after another.
- IEEE rounding: decimals are exact reals and `Number.parseInt` is exact on any number of digits.
- Explicit `null` in a request where the field may be left out: both are absence here.
- The audit rows, report counters and business-impact summaries that requirement changes also write.
- The order in which rows are read back: sequences keep the order of creation.
- The weights behind prices, distances, confidence and risk scores, the search tokens and the filters that
  select resources: those results are given numbers and lists.
- The ranking of procurement candidates by policy score, and the selection and tendering that follow it.
- `localeCompare`: a name is represented by its rank in the collation order.
- The deletion of orders, and receipt numbers, dates and notes: a stored receipt is its location and its lines.
- Text fields, dates and currencies of orders and quotations, and quotation date ranges.
- Extraction, matching and review of purchase-order drafts; only the arithmetic they share with orders is
  modelled. Committing a draft exactly once is not claimed: a review resets a committed draft.
- Mood-board reviews, approval and render requests, and the version counter of boards: they change no object.
- Row ids of boards and scenes: a scene is named by its key, which the unique index makes possible.
- Lifecycle, maintenance, kits and disposal of assets; a change of definitions or instances is one arbitrary step.
- Reserving inventory stock: no operation modelled here changes a reserved quantity.
- RequirementService.Service.ApproveSet: does not record who approved and when; no rule depends on it.
- RequirementService.Service.OverrideQuantity: does not write the change record with the old and new quantity.
- RequirementService.Service.CreateReport: does not count changes by type or derive the business impact.
- RequirementService.Service.ApplyReport: does not record who resolved the report, nor the item change records.
- AssetReservations.ReservationService.ChangeReservationStatus: does not record approver, time and reason.
- Quotations.QuotationService.UpdateQuotation: does not check dates, or the ownership of contact and event.
