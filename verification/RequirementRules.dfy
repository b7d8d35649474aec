/** What each operation on requirement sets and impact reports accepts, and what it writes, spelt out on the rows. */
module RequirementRules {
  import opened Collections
  import opened Digraphs
  import opened DependencyGraph
  import opened SequenceCodes
  import opened RequirementItems
  import opened ImpactPatches
  import opened RequirementSets
  import opened RequirementStore

  // ---------------------------------------------------------------- rows

  /** A row's columns carry a proposal's values, one by one. */
  predicate Holds(c: Columns, p: Proposal) {
    && c.category == p.category && c.requirementType == p.requirementType && c.name == p.name && c.description == p.description
    && c.specification == (if p.specification.Some? then Some(p.specification.value.value) else None)
    && c.images == (if p.images.Some? then Some(p.images.value.value) else None)
    && c.quantityRequired == p.quantityRequired && c.unit == p.unit && c.quantitySource == p.quantitySource
    && c.fulfilmentStrategy == (if p.fulfilmentStrategy.Some? then p.fulfilmentStrategy.value else Undecided)
    && c.deliveryDate == (if p.deliveryDate.Some? then Some(p.deliveryDate.value.instant) else None)
    && c.collectionDate == (if p.collectionDate.Some? then Some(p.collectionDate.value.instant) else None)
    && c.setupDate == (if p.setupDate.Some? then Some(p.setupDate.value.instant) else None)
    && c.removalDate == (if p.removalDate.Some? then Some(p.removalDate.value.instant) else None)
    && c.requiredTime == p.requiredTime && c.venue == p.venue && c.deliveryArea == p.deliveryArea
    && c.setupArea == p.setupArea && c.gps == p.gps && c.estimatedBudgetCents == p.estimatedBudgetCents
    && c.aiConfidence == p.aiConfidence && c.aiRecommendation == p.aiRecommendation
  }

  predicate Untracked(t: Tracking) {
    && !t.plannerOverride && t.overrideReason.None? && t.supplierAllocation.None? && t.quotedPriceCents.None?
    && t.approvedPriceCents.None? && t.actualCostCents.None? && t.alternativeSuggestions.None?
    && t.similarMarketplaceItems.None? && t.riskWarnings.None?
  }

  /** A fresh draft row of a set version with a proposal's values. */
  predicate IsNewRow(row: Item, code: string, version: nat, p: Proposal) {
    row.code == code && row.version == version && row.status == Draft && Untracked(row.tracking) && Holds(row.columns, p)
  }

  lemma {:induction false} CreatedRow(proposals: seq<Proposal>, version: nat, firstId: nat, i: nat)
    requires i < |proposals|
    ensures CreatedItems(proposals, version, firstId)[i].id == firstId + i
    ensures IsNewRow(CreatedItems(proposals, version, firstId)[i], Print("R-", i + 1), version, proposals[i])
  {
    if i == |proposals| - 1 {
    } else {
      CreatedRow(proposals[..|proposals| - 1], version, firstId, i);
    }
  }

  // ---------------------------------------------------------------- versions

  /** One more than the largest version among an event's sets, starting from one. */
  ghost predicate NextVersion(sets: seq<RequirementSet>, eventId: nat, version: nat) {
    && version >= 1
    && (forall i :: 0 <= i < |sets| && sets[i].eventId == eventId ==> sets[i].version < version)
    && (version == 1 || exists i :: 0 <= i < |sets| && sets[i].eventId == eventId && sets[i].version == version - 1)
  }

  lemma {:induction false} LatestIsNext(sets: seq<RequirementSet>, eventId: nat)
    ensures NextVersion(sets, eventId, LatestVersion(sets, eventId) + 1)
  {
    if sets == [] {
    } else {
      var front, last := sets[..|sets| - 1], sets[|sets| - 1];
      LatestIsNext(front, eventId);
      if last.eventId == eventId && last.version > LatestVersion(front, eventId) {
        assert sets[|sets| - 1].version == LatestVersion(sets, eventId);
      } else if LatestVersion(front, eventId) > 0 {
        var i :| 0 <= i < |front| && front[i].eventId == eventId && front[i].version == LatestVersion(front, eventId);
        assert sets[i] == front[i];
      }
    }
  }

  // ---------------------------------------------------------------- creating a set

  predicate InPositions(n: nat, e: Edge) {
    1 <= e.sourceItemNumber <= n && 1 <= e.targetItemNumber <= n
  }

  /** A dependency list is accepted exactly when it stays in range, joins no item to itself and has no cycle. */
  lemma GraphAcceptedExactly(n: nat, edges: seq<Edge>)
    ensures Judgement(n, edges) == Accepted <==>
            && (forall i :: 0 <= i < |edges| ==> InPositions(n, edges[i]) && edges[i].sourceItemNumber != edges[i].targetItemNumber)
            && Acyclic(set i | 0 <= i < |edges| :: (edges[i].sourceItemNumber, edges[i].targetItemNumber))
  {
    NoFaultMeansWellFormed(n, edges);
    assert Links(edges) == set i | 0 <= i < |edges| :: (edges[i].sourceItemNumber, edges[i].targetItemNumber);
    assert forall i :: 0 <= i < |edges| ==> edges[i] in edges;
  }

  /** The first bad edge decides what is wrong with a list. */
  lemma {:induction false} FirstBadEdgeDecides(n: nat, edges: seq<Edge>, k: nat)
    requires k < |edges|
    requires forall i :: 0 <= i < k ==> InPositions(n, edges[i]) && edges[i].sourceItemNumber != edges[i].targetItemNumber
    ensures !InPositions(n, edges[k]) ==> Judgement(n, edges) == OutOfRange
    ensures InPositions(n, edges[k]) && edges[k].sourceItemNumber == edges[k].targetItemNumber ==>
              Judgement(n, edges) == SelfDependency
  {
    if k == 0 {
    } else {
      assert forall i :: 0 <= i < k - 1 ==> edges[1..][i] == edges[i + 1];
      FirstBadEdgeDecides(n, edges[1..], k - 1);
      assert FirstFault(n, edges) == FirstFault(n, edges[1..]);
    }
  }

  predicate DependencyHolds(d: Dependency, input: DependencyInput, firstId: nat) {
    && d.source == firstId + input.edge.sourceItemNumber - 1 && d.target == firstId + input.edge.targetItemNumber - 1
    && d.level == input.level && d.description == input.description
  }

  /** The set a creation writes: the next version, a draft, with each proposal in order as R-001, R-002 and so on, and
      each dependency between the rows at its positions. */
  predicate CreatedSetHolds(
    next: RequirementSet, eventId: nat, designId: nat, proposals: seq<Proposal>, inputs: seq<DependencyInput>, firstId: nat)
  {
    && next.eventId == eventId && next.designId == designId && next.status == DraftSet
    && |next.items| == |proposals| && |next.dependencies| == |inputs|
    && (forall i :: 0 <= i < |proposals| ==>
          next.items[i].id == firstId + i && IsNewRow(next.items[i], Print("R-", i + 1), next.version, proposals[i]))
    && (forall k :: 0 <= k < |inputs| ==> DependencyHolds(next.dependencies[k], inputs[k], firstId))
  }

  predicate SameEdgeTwice(inputs: seq<DependencyInput>) {
    exists i, j :: 0 <= i < j < |inputs| && inputs[i].edge == inputs[j].edge
  }

  lemma CreatedSetWritten(
    s: Store, eventId: nat, designId: nat, design: Option<DesignVersion>, proposals: seq<Proposal>, inputs: seq<DependencyInput>)
    requires CreateSetStep(s, eventId, designId, design, proposals, inputs).1.Done?
    ensures var after := CreateSetStep(s, eventId, designId, design, proposals, inputs).0;
            && |after.sets| == |s.sets| + 1
            && CreatedSetHolds(after.sets[|s.sets|], eventId, designId, proposals, inputs, s.nextItemId)
  {
    JudgedPositive(|proposals|, inputs);
    var version := LatestVersion(s.sets, eventId) + 1;
    forall i | 0 <= i < |proposals|
      ensures var row := CreatedItems(proposals, version, s.nextItemId)[i];
              row.id == s.nextItemId + i && IsNewRow(row, Print("R-", i + 1), version, proposals[i])
    {
      CreatedRow(proposals, version, s.nextItemId, i);
    }
  }

  lemma CreateSetExactly(
    s: Store, eventId: nat, designId: nat, design: Option<DesignVersion>, proposals: seq<Proposal>, inputs: seq<DependencyInput>)
    ensures var (after, outcome) := CreateSetStep(s, eventId, designId, design, proposals, inputs);
            && (outcome.Done? <==>
                && design.Some? && design.value.eventId == eventId && design.value.approved
                && Judgement(|proposals|, Edges(inputs)) == Accepted && !SameEdgeTwice(inputs))
            && (outcome == Conflict <==> design.Some? && design.value.eventId == eventId && !design.value.approved)
            && (outcome == DuplicateKey <==>
                && design.Some? && design.value.eventId == eventId && design.value.approved
                && Judgement(|proposals|, Edges(inputs)) == Accepted && SameEdgeTwice(inputs))
            && outcome != NotFound
            && (if outcome.Done? then
                  && outcome.id == |s.sets| && |after.sets| == |s.sets| + 1 && after.sets[..|s.sets|] == s.sets
                  && after.reports == s.reports && after.nextItemId == s.nextItemId + |proposals|
                  && NextVersion(s.sets, eventId, after.sets[|s.sets|].version)
                  && CreatedSetHolds(after.sets[|s.sets|], eventId, designId, proposals, inputs, s.nextItemId)
                else after == s)
  {
    if CreateSetStep(s, eventId, designId, design, proposals, inputs).1.Done? {
      LatestIsNext(s.sets, eventId);
      CreatedSetWritten(s, eventId, designId, design, proposals, inputs);
    }
  }

  // ---------------------------------------------------------------- approving and overriding

  /** Approval is accepted exactly for a set of the event that is not approved yet; it approves the set and its draft
      and reviewed items, and changes nothing else. */
  lemma ApproveSetExactly(s: Store, eventId: nat, setId: nat)
    ensures var (after, outcome) := ApproveSetStep(s, eventId, setId);
            && (outcome.Done? <==> setId < |s.sets| && s.sets[setId].eventId == eventId && s.sets[setId].status != ApprovedSet)
            && (outcome == NotFound <==> setId >= |s.sets| || s.sets[setId].eventId != eventId)
            && (if outcome.Done? then
                  && after == s.(sets := s.sets[setId := after.sets[setId]])
                  && after.sets[setId] == s.sets[setId].(status := ApprovedSet, items := after.sets[setId].items)
                  && |after.sets[setId].items| == |s.sets[setId].items|
                  && (forall i :: 0 <= i < |s.sets[setId].items| ==>
                        var item := s.sets[setId].items[i];
                        after.sets[setId].items[i] ==
                        item.(status := match item.status case Draft => Approved case Reviewed => Approved case other => other))
                else after == s)
  {
  }

  /** The copy an override makes of one row. */
  predicate OverriddenRowHolds(row: Item, was: Item, overridden: bool, quantity: real, reason: string) {
    && row.code == was.code && row.status == Draft && row.version == was.version + 1
    && (if overridden then
          && row.columns == was.columns.(quantityRequired := quantity, quantitySource := PlannerOverride)
          && row.tracking == was.tracking.(plannerOverride := true, overrideReason := Some(reason))
        else row.columns == was.columns && row.tracking == was.tracking)
  }

  lemma {:induction false} OverriddenRow(items: seq<Item>, code: string, quantity: real, reason: string, firstId: nat, i: nat)
    requires i < |items| && |OverriddenItems(items, code, quantity, reason, firstId)| == |items|
    ensures var row := OverriddenItems(items, code, quantity, reason, firstId)[i];
            row.id == firstId + i && OverriddenRowHolds(row, items[i], items[i].code == code, quantity, reason)
  {
    if i == |items| - 1 {
    } else {
      OverriddenNumbered(items[..|items| - 1], code, quantity, reason, firstId);
      OverriddenRow(items[..|items| - 1], code, quantity, reason, firstId, i);
    }
  }

  /** An override is accepted exactly for a set of the event, in any status, that has the code; it writes the next
      version as a draft of the same design, row by row. */
  lemma OverrideExactly(s: Store, eventId: nat, setId: nat, code: string, quantity: real, reason: string)
    ensures var (after, outcome) := OverrideStep(s, eventId, setId, code, quantity, reason);
            && (outcome.Done? <==>
                && setId < |s.sets| && s.sets[setId].eventId == eventId
                && exists i :: 0 <= i < |s.sets[setId].items| && s.sets[setId].items[i].code == code)
            && (!outcome.Done? ==> outcome == NotFound && after == s)
            && (outcome.Done? ==>
                  && |after.sets| == |s.sets| + 1 && after.sets[..|s.sets|] == s.sets && after.reports == s.reports
                  && OverriddenSetHolds(s, after.sets[|s.sets|], eventId, setId, code, quantity, reason))
  {
    var (after, outcome) := OverrideStep(s, eventId, setId, code, quantity, reason);
    if outcome.Done? {
      var items := s.sets[setId].items;
      var found := FindItem(items, code).value;
      var k :| 0 <= k < |items| && items[k] == found;
      LatestIsNext(s.sets, eventId);
      OverriddenNumbered(items, code, quantity, reason, s.nextItemId);
      forall i | 0 <= i < |items|
        ensures var row := OverriddenItems(items, code, quantity, reason, s.nextItemId)[i];
                row.id == s.nextItemId + i && OverriddenRowHolds(row, items[i], items[i].code == code, quantity, reason)
      {
        OverriddenRow(items, code, quantity, reason, s.nextItemId, i);
      }
    }
    if setId < |s.sets| && s.sets[setId].eventId == eventId && outcome == NotFound {
      forall i | 0 <= i < |s.sets[setId].items| ensures s.sets[setId].items[i].code != code {
        assert s.sets[setId].items[i] in s.sets[setId].items;
      }
    }
  }

  ghost predicate OverriddenSetHolds(s: Store, next: RequirementSet, eventId: nat, setId: nat, code: string, quantity: real, reason: string)
    requires setId < |s.sets|
  {
    && next.eventId == eventId && next.designId == s.sets[setId].designId && next.status == DraftSet
    && NextVersion(s.sets, eventId, next.version)
    && |next.items| == |s.sets[setId].items|
    && (forall i :: 0 <= i < |next.items| ==>
          && next.items[i].id == s.nextItemId + i
          && OverriddenRowHolds(next.items[i], s.sets[setId].items[i], s.sets[setId].items[i].code == code, quantity, reason))
  }

  // ---------------------------------------------------------------- making a report

  /** A report is made exactly for an approved set of the event, when no code is supplied twice and every supplied
      code is one of the set's. */
  lemma ReportAcceptedExactly(s: Store, eventId: nat, setId: nat, proposed: seq<ProposedItem>)
    requires Sound(s)
    ensures CreateReportStep(s, eventId, setId, proposed).1.Done? <==>
            && setId < |s.sets| && s.sets[setId].eventId == eventId && s.sets[setId].status == ApprovedSet
            && (forall i, j :: 0 <= i < j < |proposed| && proposed[i].code.Some? ==> proposed[i].code != proposed[j].code)
            && (forall i :: 0 <= i < |proposed| && proposed[i].code.Some? ==> HasCode(s.sets[setId].items, proposed[i].code.value))
    ensures !CreateReportStep(s, eventId, setId, proposed).1.Done? ==> CreateReportStep(s, eventId, setId, proposed).0 == s
    ensures CreateReportStep(s, eventId, setId, proposed).1 == NotFound <==> setId >= |s.sets| || s.sets[setId].eventId != eventId
    ensures CreateReportStep(s, eventId, setId, proposed).1 == Conflict <==>
            setId < |s.sets| && s.sets[setId].eventId == eventId && s.sets[setId].status != ApprovedSet
    ensures CreateReportStep(s, eventId, setId, proposed).1 != DuplicateKey
  {
    if setId < |s.sets| {
      forall code ensures FindItem(s.sets[setId].items, code).Some? <==> HasCode(s.sets[setId].items, code) {
        FoundExactly(s.sets[setId].items, code);
      }
    }
  }

  predicate HasCode(items: seq<Item>, code: string) {
    exists k :: 0 <= k < |items| && items[k].code == code
  }

  lemma FoundExactly(items: seq<Item>, code: string)
    ensures FindItem(items, code).Some? <==> HasCode(items, code)
  {
    if FindItem(items, code).Some? {
      var k :| 0 <= k < |items| && items[k] == FindItem(items, code).value;
    }
    if k :| 0 <= k < |items| && items[k].code == code {
      assert items[k] in items;
    }
  }

  /** What it stores: an open report of the event on that set, comparing it with the proposal. */
  lemma ReportHolds(s: Store, eventId: nat, setId: nat, proposed: seq<ProposedItem>)
    requires Sound(s) && CreateReportStep(s, eventId, setId, proposed).1.Done?
    ensures var after := CreateReportStep(s, eventId, setId, proposed).0;
            && setId < |s.sets| && AllWellFormed("R-", ItemCodes(s.sets[setId].items))
            && after == s.(reports := s.reports + [after.reports[|s.reports|]])
            && after.reports[|s.reports|].eventId == eventId && after.reports[|s.reports|].baseline == setId
            && after.reports[|s.reports|].status == PendingReview
            && after.reports[|s.reports|].changes == Diff(s.sets[setId].items, Candidates(s.sets[setId].items, proposed))
  {
    ReportStepUnfolds(s, eventId, setId, proposed);
  }

  /** A candidate carries its proposal's values and key order, under the supplied code if there is one. */
  lemma CandidateHolds(items: seq<Item>, proposed: seq<ProposedItem>, i: nat)
    requires AllWellFormed("R-", ItemCodes(items)) && i < |proposed|
    ensures Candidates(items, proposed)[i].body == proposed[i].body && Candidates(items, proposed)[i].layout == proposed[i].layout
    ensures proposed[i].code.Some? ==> Candidates(items, proposed)[i].code == proposed[i].code.value
  {
    AssignedCodes("R-", Highest("R-", ItemCodes(items)), SuppliedCodes(proposed));
  }

  /** How a change is labelled: by what is there on each side, with a planner override taking precedence. */
  lemma ChangeLabelledExactly(items: seq<Item>, candidates: seq<Candidate>, change: Change)
    requires DistinctItems(items) && DistinctCandidates(candidates) && change in Diff(items, candidates)
    ensures var item, candidate := FindItem(items, change.code), FindCandidate(candidates, change.code);
            && change.decision == Pending
            && (change.changeType == Added <==> item.None? && candidate.Some?)
            && (change.changeType == OverrideProtected <==> item.Some? && item.value.tracking.plannerOverride)
            && (change.changeType == Removed <==> item.Some? && !item.value.tracking.plannerOverride && candidate.None?)
            && (change.changeType == QuantityChanged <==>
                && item.Some? && !item.value.tracking.plannerOverride && candidate.Some?
                && item.value.columns.quantityRequired != candidate.value.body.quantityRequired)
            && (change.changeType == Changed <==>
                && item.Some? && !item.value.tracking.plannerOverride && candidate.Some?
                && item.value.columns.quantityRequired == candidate.value.body.quantityRequired)
  {
    DiffMembers(items, candidates);
  }

  /** The change about a row carries the row, and the candidate if there is one. */
  lemma RowChangeCarries(item: Item, proposed: Option<Candidate>)
    requires DiffItem(item, proposed).Some?
    ensures var change := DiffItem(item, proposed).value;
            && change.previousItem.Some? && change.previousItem.value.code == item.code
            && Holds(item.columns, change.previousItem.value.body)
            && (if proposed.Some? then change.proposedItem == Some(CandidatePayload(proposed.value)) else change.proposedItem.None?)
  {
  }

  /** What a change carries: the row's values as they read back, and the candidate's as submitted. */
  lemma {:induction false} ChangeCarries(items: seq<Item>, candidates: seq<Candidate>, change: Change)
    requires DistinctItems(items) && DistinctCandidates(candidates) && change in Diff(items, candidates)
    ensures var item, candidate := FindItem(items, change.code), FindCandidate(candidates, change.code);
            && (if item.Some? then change.previousItem.Some? && change.previousItem.value.code == change.code &&
                                   Holds(item.value.columns, change.previousItem.value.body)
                else change.previousItem.None?)
            && (if candidate.Some? then change.proposedItem.Some? && change.proposedItem.value.code == change.code &&
                                        change.proposedItem.value.body == candidate.value.body
                else change.proposedItem.None?)
  {
    DiffMembers(items, candidates);
    var item := FindItem(items, change.code);
    if item.Some? {
      RowChangeCarries(item.value, FindCandidate(candidates, change.code));
    }
  }

  // ---------------------------------------------------------------- applying a report

  ghost predicate RowAbout(rows: seq<(nat, Decision)>, i: nat) {
    exists k :: 0 <= k < |rows| && rows[k].0 == i
  }

  lemma {:induction false} NamedKeys(rows: seq<(nat, Decision)>)
    ensures forall i :: i in DecisionMap(rows) <==> RowAbout(rows, i)
  {
    if rows == [] {
    } else {
      var front, last := rows[..|rows| - 1], rows[|rows| - 1];
      NamedKeys(front);
      forall i ensures i in DecisionMap(rows) <==> RowAbout(rows, i) {
        if k :| 0 <= k < |front| && front[k].0 == i {
          assert rows[k].0 == i;
        }
        if i == last.0 {
          assert rows[|rows| - 1].0 == i;
        }
        if k :| 0 <= k < |rows| && rows[k].0 == i {
          assert k < |front| ==> front[k].0 == i;
        }
      }
    }
  }

  function Below(n: nat): (below: set<nat>)
    ensures forall i :: i in below <==> 0 <= i < n
  {
    if n == 0 then {} else Below(n - 1) + {n - 1}
  }

  lemma {:induction false} BelowHasSize(n: nat)
    ensures |Below(n)| == n
  {
    if n == 0 {
    } else {
      BelowHasSize(n - 1);
    }
  }

  lemma SameSizeSame(small: set<nat>, large: set<nat>)
    requires small <= large && |small| == |large|
    ensures small == large
  {
    if x :| x in large && x !in small {
      SizeGrows(small, large - {x});
    }
  }

  lemma SizeGrows(small: set<nat>, large: set<nat>)
    requires small <= large
    ensures |small| <= |large|
    decreases small
  {
    if small != {} {
      var x :| x in small;
      SizeGrows(small - {x}, large - {x});
    }
  }

  /** Every change is decided, and no row is about anything else. */
  ghost predicate RowsDecide(rows: seq<(nat, Decision)>, changes: seq<Change>) {
    && (forall i :: 0 <= i < |changes| ==> RowAbout(rows, i))
    && (forall k :: 0 <= k < |rows| ==> rows[k].0 < |changes|)
  }

  lemma DecidesAllExactly(rows: seq<(nat, Decision)>, changes: seq<Change>)
    ensures DecidesAll(DecisionMap(rows), changes) <==> RowsDecide(rows, changes)
  {
    var decisions := DecisionMap(rows);
    NamedKeys(rows);
    BelowHasSize(|changes|);
    assert |decisions.Keys| == |decisions|;
    if DecidesAll(decisions, changes) {
      SameSizeSame(Below(|changes|), decisions.Keys);
      forall k | 0 <= k < |rows| ensures rows[k].0 < |changes| {
        assert RowAbout(rows, rows[k].0);
      }
    }
    if RowsDecide(rows, changes) {
      assert decisions.Keys == Below(|changes|);
    }
  }

  /** A report is applied exactly when it is the event's, still open, and the rows decide its changes and nothing else. */
  lemma ApplyAcceptedExactly(s: Store, eventId: nat, reportId: nat, rows: seq<(nat, Decision)>)
    requires Sound(s)
    ensures ApplyReportStep(s, eventId, reportId, rows).1.Done? <==>
            && reportId < |s.reports| && s.reports[reportId].eventId == eventId && s.reports[reportId].status == PendingReview
            && RowsDecide(rows, s.reports[reportId].changes)
    ensures !ApplyReportStep(s, eventId, reportId, rows).1.Done? ==> ApplyReportStep(s, eventId, reportId, rows).0 == s
    ensures ApplyReportStep(s, eventId, reportId, rows).1 == NotFound <==>
            reportId >= |s.reports| || s.reports[reportId].eventId != eventId
    ensures ApplyReportStep(s, eventId, reportId, rows).1 == Conflict <==>
            reportId < |s.reports| && s.reports[reportId].eventId == eventId && s.reports[reportId].status != PendingReview
    ensures ApplyReportStep(s, eventId, reportId, rows).1 != DuplicateKey
  {
    if reportId < |s.reports| {
      DecidesAllExactly(rows, s.reports[reportId].changes);
    }
    var refusal := ApplyRefusal(s.reports, eventId, reportId, DecisionMap(rows));
    if refusal.None? {
      ApplyStepUnfolds(s, eventId, reportId, rows);
    }
  }

  /** What applying writes: the report is closed with the last row about each change, and the next version of the set
      is a draft of the baseline's design. */
  ghost predicate AppliedHolds(s: Store, after: Store, eventId: nat, reportId: nat, rows: seq<(nat, Decision)>)
    requires reportId < |s.reports| && s.reports[reportId].baseline < |s.sets|
  {
    && |after.sets| == |s.sets| + 1 && after.sets[..|s.sets|] == s.sets
    && after.sets[|s.sets|].eventId == eventId && after.sets[|s.sets|].status == DraftSet
    && after.sets[|s.sets|].designId == s.sets[s.reports[reportId].baseline].designId
    && NextVersion(s.sets, eventId, after.sets[|s.sets|].version)
    && |after.reports| == |s.reports| && after.reports == s.reports[reportId := after.reports[reportId]]
    && after.reports[reportId].status == Applied && |after.reports[reportId].changes| == |s.reports[reportId].changes|
    && (forall i :: 0 <= i < |s.reports[reportId].changes| ==>
          LastSays(rows, i, after.reports[reportId].changes[i].decision))
  }

  lemma AppliedAsWritten(s: Store, eventId: nat, reportId: nat, rows: seq<(nat, Decision)>)
    requires Sound(s) && ApplyRefusal(s.reports, eventId, reportId, DecisionMap(rows)).None?
    ensures s.reports[reportId].baseline < |s.sets|
    ensures AppliedHolds(s, ApplyReportStep(s, eventId, reportId, rows).0, eventId, reportId, rows)
  {
    ApplyStepUnfolds(s, eventId, reportId, rows);
    LatestIsNext(s.sets, eventId);
    forall i | 0 <= i < |s.reports[reportId].changes| ensures LastSays(rows, i, DecisionMap(rows)[i]) {
      LastRowDecides(rows, i, DecisionMap(rows)[i]);
    }
  }

  /** Every row of the new set is a draft: one carried over with its values and the next version of its own, one
      replaced that keeps its budget and what was tracked about it, or a new one, both in the version of the set. */
  lemma PatchedRow(items: seq<Item>, changes: seq<Change>, decisions: Decisions, version: nat, firstId: nat, row: Item)
    requires DistinctItems(items) && row in Patch(items, changes, decisions, version, firstId)
    ensures (exists item :: item in items && (CarriedRow(row, item) || ReplacedRow(row, item, version, changes))) ||
            (exists i :: 0 <= i < |changes| && AddedRow(row, version, changes[i]))
  {
    PatchedRowHasSource(items, changes, decisions, version, firstId, row);
    if item :| item in items && IsCopyOf(row, item, changes, decisions, version) {
      if Replacement(item, changes, decisions).Some? {
        assert ReplacedBy(row, item, version, changes[FindChange(changes, item.code).value]);
        assert ReplacedRow(row, item, version, changes);
      } else {
        assert CarriedRow(row, item);
      }
    } else {
      var i :| 0 <= i < |changes| && AcceptedAddition(changes, i, decisions) && IsAdditionOf(row, changes[i], version);
      assert AddedRow(row, version, changes[i]);
    }
  }

  predicate AddedRow(row: Item, version: nat, change: Change) {
    change.changeType == Added && change.proposedItem.Some? && IsNewRow(row, change.code, version, change.proposedItem.value.body)
  }

  predicate CarriedRow(row: Item, item: Item) {
    && row.code == item.code && row.status == Draft && row.version == item.version + 1
    && row.columns == item.columns && row.tracking == item.tracking
  }

  predicate ReplacedRow(row: Item, item: Item, version: nat, changes: seq<Change>) {
    exists i :: 0 <= i < |changes| && ReplacedBy(row, item, version, changes[i])
  }

  predicate ReplacedBy(row: Item, item: Item, version: nat, change: Change) {
    && change.code == item.code && change.proposedItem.Some?
    && row.code == item.code && row.status == Draft && row.version == version
    && row.columns.estimatedBudgetCents == item.columns.estimatedBudgetCents
    && Holds(row.columns.(estimatedBudgetCents := change.proposedItem.value.body.estimatedBudgetCents), change.proposedItem.value.body)
    && !row.tracking.plannerOverride && row.tracking.overrideReason.None?
    && row.tracking.supplierAllocation == item.tracking.supplierAllocation
    && row.tracking.quotedPriceCents == item.tracking.quotedPriceCents
    && row.tracking.approvedPriceCents == item.tracking.approvedPriceCents
    && row.tracking.actualCostCents == item.tracking.actualCostCents
    && row.tracking.alternativeSuggestions == item.tracking.alternativeSuggestions
    && row.tracking.similarMarketplaceItems == item.tracking.similarMarketplaceItems
    && row.tracking.riskWarnings == item.tracking.riskWarnings
  }
}
