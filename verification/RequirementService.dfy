/** The service that changes the stored requirement sets, statement by statement. */
module RequirementService {
  import opened Collections
  import opened DependencyGraph
  import opened SequenceCodes
  import opened RequirementItems
  import opened ImpactPatches
  import opened RequirementSets
  import RS = RequirementStore

  /** Inserting one more dependency meets the unique index exactly when its edge was submitted before. */
  lemma OneMoreDependency(inputs: seq<DependencyInput>, k: nat, firstId: nat, rows: seq<Dependency>, row: Dependency)
    requires Positive(inputs) && k < |inputs| && row == CreatedDependency(inputs[k], firstId)
    requires Positive(inputs[..k]) && rows == CreatedDependencies(inputs[..k], firstId)
    requires DistinctEdges(inputs[..k])
    ensures (exists i :: 0 <= i < |rows| && rows[i].source == row.source && rows[i].target == row.target) <==>
            !DistinctEdges(inputs[..k + 1])
    ensures !DistinctEdges(inputs[..k + 1]) ==> !DistinctEdges(inputs)
    ensures rows + [row] == CreatedDependencies(inputs[..k + 1], firstId)
  {
    forall i | 0 <= i < |rows|
      ensures inputs[i].edge == inputs[k].edge <==> rows[i].source == row.source && rows[i].target == row.target
    {
      assert rows[i] == CreatedDependency(inputs[i], firstId);
    }
    forall i, j | 0 <= i < j < k ensures inputs[i].edge != inputs[j].edge {
      assert inputs[..k][i].edge != inputs[..k][j].edge;
    }
    if i :| 0 <= i < k && inputs[i].edge == inputs[k].edge {
      assert inputs[..k + 1][i].edge == inputs[..k + 1][k].edge;
    }
  }

  ghost predicate Follows(candidates: seq<Candidate>, codes: seq<string>, proposed: seq<RS.ProposedItem>)
    requires |candidates| == |codes| == |proposed|
  {
    forall k :: 0 <= k < |candidates| ==> candidates[k] == Candidate(codes[k], proposed[k].body, proposed[k].layout)
  }

  /** Candidates built in order with the assigned codes are the candidates of the proposal. */
  lemma BuiltCandidates(items: seq<Item>, proposed: seq<RS.ProposedItem>, candidates: seq<Candidate>)
    requires AllWellFormed(CODE_PREFIX, RS.ItemCodes(items)) && |candidates| == |proposed|
    requires Follows(candidates, Assign(CODE_PREFIX, Highest(CODE_PREFIX, RS.ItemCodes(items)), RS.SuppliedCodes(proposed)), proposed)
    ensures candidates == RS.Candidates(items, proposed)
  {
  }

  class Service {
    var sets: seq<RequirementSet>
    var reports: seq<RS.Report>
    var nextItemId: nat

    ghost function Value(): RS.Store
      reads this
    {
      RS.Store(sets, reports, nextItemId)
    }

    ghost predicate Valid()
      reads this
    {
      RS.Sound(Value())
    }

    constructor ()
      ensures Valid() && Value() == RS.EMPTY
    {
      sets, reports, nextItemId := [], [], 0;
    }

    /** Inserts a row unless the unique index on (source, target) already holds those two items. */
    static method InsertDependency(rows: seq<Dependency>, row: Dependency) returns (duplicate: bool, next: seq<Dependency>)
      ensures duplicate <==> exists i :: 0 <= i < |rows| && rows[i].source == row.source && rows[i].target == row.target
      ensures next == if duplicate then rows else rows + [row]
    {
      for i := 0 to |rows|
        invariant forall k :: 0 <= k < i ==> rows[k].source != row.source || rows[k].target != row.target
      {
        if rows[i].source == row.source && rows[i].target == row.target {
          return true, rows;
        }
      }
      return false, rows + [row];
    }

    static method CreateItems(proposals: seq<Proposal>, version: nat, firstId: nat) returns (items: seq<Item>)
      ensures items == CreatedItems(proposals, version, firstId)
    {
      items := [];
      for index := 0 to |proposals|
        invariant items == CreatedItems(proposals[..index], version, firstId)
      {
        assert proposals[..index + 1][..index] == proposals[..index];
        items := items + [NewItem(firstId + index, Print(CODE_PREFIX, index + 1), version, proposals[index])];
      }
      assert proposals[..|proposals|] == proposals;
    }

    static method CreateDependencies(inputs: seq<DependencyInput>, items: seq<Item>, ghost firstId: nat)
      returns (duplicate: bool, rows: seq<Dependency>)
      requires Judgement(|items|, Edges(inputs)) == Accepted && Positive(inputs) && Numbered(items, firstId)
      ensures duplicate <==> !DistinctEdges(inputs)
      ensures !duplicate ==> rows == CreatedDependencies(inputs, firstId)
    {
      rows := [];
      for k := 0 to |inputs|
        invariant rows == CreatedDependencies(inputs[..k], firstId)
        invariant DistinctEdges(inputs[..k])
      {
        CreatedEnd(|items|, inputs, k);
        var sourceId := items[inputs[k].edge.sourceItemNumber - 1].id;
        var targetId := items[inputs[k].edge.targetItemNumber - 1].id;
        var row := Dependency(sourceId, targetId, inputs[k].level, inputs[k].description);
        OneMoreDependency(inputs, k, firstId, rows, row);
        duplicate, rows := InsertDependency(rows, row);
        if duplicate {
          return;
        }
      }
      assert inputs[..|inputs|] == inputs;
      return false, rows;
    }

    method CreateSet(
      eventId: nat, designId: nat, design: Option<RS.DesignVersion>,
      proposals: seq<Proposal>, inputs: seq<DependencyInput>) returns (outcome: RS.Outcome)
      requires Valid()
      modifies this
      ensures Valid()
      ensures (Value(), outcome) == RS.Step(old(Value()), RS.CreateSet(eventId, designId, design, proposals, inputs))
    {
      ghost var op := RS.CreateSet(eventId, designId, design, proposals, inputs);
      RS.StepKeepsSound(Value(), op);
      if design.None? || design.value.eventId != eventId {
        return RS.BadRequest;
      }
      if !design.value.approved {
        return RS.Conflict;
      }
      var verdict := ValidateDependencyGraph(|proposals|, Edges(inputs));
      if verdict != Accepted {
        return RS.BadRequest;
      }
      RS.JudgedPositive(|proposals|, inputs);
      CreatedItemsNumbered(proposals, RS.LatestVersion(sets, eventId) + 1, nextItemId);
      var version := RS.LatestVersion(sets, eventId) + 1;
      var items := CreateItems(proposals, version, nextItemId);
      var duplicate, rows := CreateDependencies(inputs, items, nextItemId);
      if duplicate {
        return RS.DuplicateKey;
      }
      sets := sets + [RequirementSet(eventId, designId, version, DraftSet, items, rows)];
      nextItemId := nextItemId + |items|;
      assert Value() == RS.Step(old(Value()), op).0;
      return RS.Done(|sets| - 1);
    }

    method ApproveSet(eventId: nat, setId: nat) returns (outcome: RS.Outcome)
      requires Valid()
      modifies this
      ensures Valid()
      ensures (Value(), outcome) == RS.Step(old(Value()), RS.ApproveSet(eventId, setId))
    {
      RS.StepKeepsSound(Value(), RS.ApproveSet(eventId, setId));
      if setId >= |sets| || sets[setId].eventId != eventId {
        return RS.NotFound;
      }
      if sets[setId].status == ApprovedSet {
        return RS.Conflict;
      }
      var current := sets[setId];
      sets := sets[setId := current.(status := ApprovedSet, items := RS.ApproveItems(current.items))];
      assert Value() == RS.Step(old(Value()), RS.ApproveSet(eventId, setId)).0;
      return RS.Done(setId);
    }

    static lemma OverriddenById(items: seq<Item>, overridden: Item, i: nat)
      requires DistinctItems(items) && DistinctIds(items) && overridden in items && i < |items|
      ensures items[i].id == overridden.id <==> items[i].code == overridden.code
    {
      var k :| 0 <= k < |items| && items[k] == overridden;
    }

    static method OverrideItems(items: seq<Item>, overridden: Item, quantity: real, reason: string, firstId: nat)
      returns (copies: seq<Item>, itemIds: map<nat, nat>)
      requires DistinctItems(items) && DistinctIds(items) && overridden in items
      ensures copies == OverriddenItems(items, overridden.code, quantity, reason, firstId)
      ensures itemIds == Naming(items, firstId)
    {
      copies, itemIds := [], map[];
      for i := 0 to |items|
        invariant copies == OverriddenItems(items[..i], overridden.code, quantity, reason, firstId)
        invariant itemIds == Naming(items[..i], firstId)
      {
        assert items[..i + 1][..i] == items[..i];
        OverriddenById(items, overridden, i);
        var isOverride := items[i].id == overridden.id;
        copies := copies + [Overridden(firstId + i, items[i], isOverride, quantity, reason)];
        itemIds := itemIds[items[i].id := firstId + i];
      }
      assert items[..|items|] == items;
    }

    /** Copies every dependency; both ends must have been copied. */
    static method CopyDependencies(dependencies: seq<Dependency>, itemIds: map<nat, nat>) returns (rows: seq<Dependency>)
      requires Joined(dependencies, itemIds.Keys)
      ensures rows == Carried(dependencies, itemIds)
    {
      rows := [];
      for k := 0 to |dependencies|
        invariant rows == Carried(dependencies[..k], itemIds)
      {
        var dependency := dependencies[k];
        assert dependencies[..k + 1][..k] == dependencies[..k];
        assert dependency.source in itemIds && dependency.target in itemIds;
        rows := rows + [dependency.(source := itemIds[dependency.source], target := itemIds[dependency.target])];
      }
      assert dependencies[..|dependencies|] == dependencies;
    }

    method OverrideQuantity(eventId: nat, setId: nat, code: string, quantity: real, reason: string)
      returns (outcome: RS.Outcome)
      requires Valid()
      modifies this
      ensures Valid()
      ensures (Value(), outcome) == RS.Step(old(Value()), RS.OverrideQuantity(eventId, setId, code, quantity, reason))
    {
      ghost var op := RS.OverrideQuantity(eventId, setId, code, quantity, reason);
      RS.StepKeepsSound(Value(), op);
      if setId >= |sets| || sets[setId].eventId != eventId {
        return RS.NotFound;
      }
      var source := sets[setId];
      var overridden := FindItem(source.items, code);
      if overridden.None? {
        return RS.NotFound;
      }
      var version := RS.LatestVersion(sets, eventId) + 1;
      assert SetSound(source.items, source.dependencies);
      var next := BuildOverriddenSet(eventId, source, overridden.value, quantity, reason, version, nextItemId);
      sets := sets + [next];
      nextItemId := nextItemId + |next.items|;
      assert Value() == RS.Append(old(Value()), next);
      return RS.Done(|sets| - 1);
    }

    static method BuildOverriddenSet(
      eventId: nat, source: RequirementSet, overridden: Item, quantity: real, reason: string, version: nat, firstId: nat)
      returns (next: RequirementSet)
      requires SetSound(source.items, source.dependencies) && overridden in source.items
      ensures next == RS.OverriddenSet(eventId, source, overridden.code, quantity, reason, version, firstId)
    {
      var items, itemIds := OverrideItems(source.items, overridden, quantity, reason, firstId);
      NamingFacts(source.items, firstId);
      var rows := CopyDependencies(source.dependencies, itemIds);
      next := RequirementSet(eventId, source.designId, version, DraftSet, items, rows);
    }

    static method CompareItems(items: seq<Item>, candidates: seq<Candidate>) returns (changes: seq<Change>)
      ensures changes == DiffItems(items, candidates)
    {
      changes := [];
      for i := 0 to |items|
        invariant changes == DiffItems(items[..i], candidates)
      {
        var current := items[i];
        assert items[..i + 1][..i] == items[..i];
        var proposal := FindCandidate(candidates, current.code);
        var currentPayload := CurrentItemPayload(current);
        if proposal.None? {
          var changeType := if current.tracking.plannerOverride then OverrideProtected else Removed;
          changes := changes + [Change(current.code, changeType, Pending, Some(currentPayload), None)];
        } else {
          var proposedPayload := CandidatePayload(proposal.value);
          if currentPayload != proposedPayload {
            var changeType :=
              if current.tracking.plannerOverride then OverrideProtected
              else if current.columns.quantityRequired != proposal.value.body.quantityRequired then QuantityChanged
              else Changed;
            changes := changes + [Change(current.code, changeType, Pending, Some(currentPayload), Some(proposedPayload))];
          } else {
            assert changes + [] == changes;
          }
        }
      }
      assert items[..|items|] == items;
    }

    static method CollectAdded(items: seq<Item>, candidates: seq<Candidate>) returns (changes: seq<Change>)
      ensures changes == DiffAdded(items, candidates)
    {
      changes := [];
      for i := 0 to |candidates|
        invariant changes == DiffAdded(items, candidates[..i])
      {
        assert candidates[..i + 1][..i] == candidates[..i];
        if FindItem(items, candidates[i].code).None? {
          changes := changes + [Change(candidates[i].code, Added, Pending, None, Some(CandidatePayload(candidates[i])))];
        }
      }
      assert candidates[..|candidates|] == candidates;
    }

    method CreateReport(eventId: nat, setId: nat, proposed: seq<RS.ProposedItem>) returns (outcome: RS.Outcome)
      requires Valid()
      modifies this
      ensures Valid()
      ensures (Value(), outcome) == RS.Step(old(Value()), RS.CreateReport(eventId, setId, proposed))
    {
      RS.ReportStepSound(Value(), eventId, setId, proposed);
      outcome := CompareWithBaseline(eventId, setId, proposed);
    }

    method CompareWithBaseline(eventId: nat, setId: nat, proposed: seq<RS.ProposedItem>) returns (outcome: RS.Outcome)
      requires Valid()
      modifies this`reports
      ensures (Value(), outcome) == RS.CreateReportStep(old(Value()), eventId, setId, proposed)
    {
      var refusal := RS.ReportRefusal(sets, eventId, setId, proposed);
      if refusal.Some? {
        return refusal.value;
      }
      RS.ReportStepUnfolds(Value(), eventId, setId, proposed);
      RecordReport(eventId, setId, proposed);
      return RS.Done(|reports| - 1);
    }

    method RecordReport(eventId: nat, setId: nat, proposed: seq<RS.ProposedItem>)
      requires setId < |sets| && AllWellFormed(CODE_PREFIX, RS.ItemCodes(sets[setId].items))
      modifies this`reports
      ensures reports == old(reports) + [RS.Report(eventId, setId, RS.PendingReview,
                                                   Diff(sets[setId].items, RS.Candidates(sets[setId].items, proposed)))]
    {
      var changes := CompareProposal(sets[setId].items, proposed);
      reports := reports + [RS.Report(eventId, setId, RS.PendingReview, changes)];
    }

    static method CompareProposal(items: seq<Item>, proposed: seq<RS.ProposedItem>) returns (changes: seq<Change>)
      requires AllWellFormed(CODE_PREFIX, RS.ItemCodes(items))
      ensures changes == Diff(items, RS.Candidates(items, proposed))
    {
      var candidates := NumberCandidates(items, proposed);
      changes := CompareItems(items, candidates);
      var added := CollectAdded(items, candidates);
      changes := changes + added;
    }

    /** Gives every proposed item a code, counting new ones up from the highest of the baseline. */
    static method NumberCandidates(items: seq<Item>, proposed: seq<RS.ProposedItem>) returns (candidates: seq<Candidate>)
      requires AllWellFormed(CODE_PREFIX, RS.ItemCodes(items))
      ensures candidates == RS.Candidates(items, proposed)
    {
      candidates := NumberFrom(Highest(CODE_PREFIX, RS.ItemCodes(items)), proposed);
      BuiltCandidates(items, proposed, candidates);
    }

    static method NumberFrom(highest: nat, proposed: seq<RS.ProposedItem>) returns (candidates: seq<Candidate>)
      ensures |candidates| == |proposed|
      ensures Follows(candidates, Assign(CODE_PREFIX, highest, RS.SuppliedCodes(proposed)), proposed)
    {
      ghost var supplied := RS.SuppliedCodes(proposed);
      ghost var codes := Assign(CODE_PREFIX, highest, supplied);
      var nextCode := highest;
      candidates := [];
      for i := 0 to |proposed|
        invariant codes[i..] == Assign(CODE_PREFIX, nextCode, supplied[i..])
        invariant |candidates| == i
        invariant forall k :: 0 <= k < i ==> candidates[k] == Candidate(codes[k], proposed[k].body, proposed[k].layout)
      {
        AssignStep(CODE_PREFIX, nextCode, supplied, codes, i);
        var code;
        if proposed[i].code.Some? {
          code := proposed[i].code.value;
        } else {
          nextCode := nextCode + 1;
          code := Print(CODE_PREFIX, nextCode);
        }
        candidates := candidates + [Candidate(code, proposed[i].body, proposed[i].layout)];
      }
    }

    method ApplyReport(eventId: nat, reportId: nat, rows: seq<(nat, Decision)>) returns (outcome: RS.Outcome)
      requires Valid()
      modifies this
      ensures Valid()
      ensures (Value(), outcome) == RS.Step(old(Value()), RS.ApplyReport(eventId, reportId, rows))
    {
      RS.ApplyStepSound(Value(), eventId, reportId, rows);
      var refusal := RS.ApplyRefusal(reports, eventId, reportId, RS.DecisionMap(rows));
      if refusal.Some? {
        return refusal.value;
      }
      outcome := ApplyDecisions(eventId, reportId, rows);
    }

    method ApplyDecisions(eventId: nat, reportId: nat, rows: seq<(nat, Decision)>) returns (outcome: RS.Outcome)
      requires Valid() && RS.ApplyRefusal(reports, eventId, reportId, RS.DecisionMap(rows)).None?
      modifies this
      ensures (Value(), outcome) == RS.ApplyReportStep(old(Value()), eventId, reportId, rows)
    {
      RS.ApplyStepUnfolds(Value(), eventId, reportId, rows);
      AppendAndClose(eventId, reportId, RS.DecisionMap(rows));
      return RS.Done(|sets| - 1);
    }

    method AppendAndClose(eventId: nat, reportId: nat, decisions: Decisions)
      requires reportId < |reports| && reports[reportId].baseline < |sets|
      requires RS.DecidesAll(decisions, reports[reportId].changes)
      modifies this
      ensures var report := old(reports)[reportId];
              Value() == RS.Resolve(RS.Append(old(Value()), RS.PatchedSet(old(sets)[report.baseline], report, decisions,
                                                                          RS.LatestVersion(old(sets), eventId) + 1, old(nextItemId))),
                                    reportId, decisions)
      ensures |sets| == |old(sets)| + 1
    {
      AppendPatchedSet(eventId, reportId, decisions);
      CloseReport(reportId, decisions);
    }

    method AppendPatchedSet(eventId: nat, reportId: nat, decisions: Decisions)
      requires reportId < |reports| && reports[reportId].baseline < |sets|
      modifies this`sets, this`nextItemId
      ensures var report := reports[reportId];
              Value() == RS.Append(old(Value()), RS.PatchedSet(old(sets)[report.baseline], report, decisions,
                                                               RS.LatestVersion(old(sets), eventId) + 1, old(nextItemId)))
    {
      var report := reports[reportId];
      var next := BuildPatchedSet(sets[report.baseline], report, decisions, RS.LatestVersion(sets, eventId) + 1, nextItemId);
      sets := sets + [next];
      nextItemId := nextItemId + |next.items|;
    }

    method CloseReport(reportId: nat, decisions: Decisions)
      requires reportId < |reports| && RS.DecidesAll(decisions, reports[reportId].changes)
      modifies this`reports
      ensures Value() == RS.Resolve(old(Value()), reportId, decisions)
    {
      var report := reports[reportId];
      reports := reports[reportId := report.(status := RS.Applied, changes := RS.Decided(report.changes, decisions))];
    }

    static method BuildPatchedSet(baseline: RequirementSet, report: RS.Report, decisions: Decisions, version: nat, firstId: nat)
      returns (next: RequirementSet)
      ensures next == RS.PatchedSet(baseline, report, decisions, version, firstId)
    {
      var items, newIds := CopySurvivors(baseline.items, report.changes, decisions, version, firstId);
      var added := AddAccepted(report.changes, decisions, version, firstId + |items|);
      var kept := CarryDependencies(baseline.dependencies, newIds);
      next := RequirementSet(report.eventId, baseline.designId, version, DraftSet, items + added, kept);
    }

    static lemma OneMoreSurvivor(items: seq<Item>, i: nat, changes: seq<Change>, decisions: Decisions)
      requires i < |items|
      ensures Survivors(items[..i + 1], changes, decisions) ==
              Survivors(items[..i], changes, decisions) + (if Survives(items[i], changes, decisions) then [items[i]] else [])
    {
      assert items[..i + 1][..i] == items[..i];
    }

    static lemma {:induction false} OneMoreCopy(
      kept: seq<Item>, item: Item, changes: seq<Change>, decisions: Decisions, version: nat, firstId: nat)
      ensures Copies(kept + [item], changes, decisions, version, firstId) ==
              Copies(kept, changes, decisions, version, firstId) +
              [CloneItem(firstId + |kept|, version, item, Replacement(item, changes, decisions))]
      ensures Naming(kept + [item], firstId) == Naming(kept, firstId)[item.id := firstId + |kept|]
    {
      assert (kept + [item])[..|kept|] == kept;
    }

    /** What one more baseline item adds to the copies and the renaming. */
    static lemma {:induction false} CopiesAfterOneMore(items: seq<Item>, i: nat, changes: seq<Change>, decisions: Decisions, version: nat, firstId: nat)
      requires i < |items|
      ensures var before, after := Survivors(items[..i], changes, decisions), Survivors(items[..i + 1], changes, decisions);
              if Survives(items[i], changes, decisions) then
                && Copies(after, changes, decisions, version, firstId) ==
                   Copies(before, changes, decisions, version, firstId) +
                   [CloneItem(firstId + |before|, version, items[i], Replacement(items[i], changes, decisions))]
                && Naming(after, firstId) == Naming(before, firstId)[items[i].id := firstId + |before|]
              else after == before
    {
      var before := Survivors(items[..i], changes, decisions);
      OneMoreSurvivor(items, i, changes, decisions);
      if Survives(items[i], changes, decisions) {
        OneMoreCopy(before, items[i], changes, decisions, version, firstId);
      } else {
        assert before + [] == before;
      }
    }

    /** Whether an item is carried over, and the proposal that replaces it, if any. */
    static method DecideItem(item: Item, changes: seq<Change>, decisions: Decisions) returns (keep: bool, proposed: Option<Proposal>)
      ensures keep <==> Survives(item, changes, decisions)
      ensures keep ==> proposed == Replacement(item, changes, decisions)
    {
      var change := FindChange(changes, item.code);
      var apply := Applies(decisions, change);
      if apply && Drops(changes[change.value]) {
        return false, None;
      }
      keep, proposed := true, None;
      if apply && changes[change.value].proposedItem.Some? {
        proposed := Some(changes[change.value].proposedItem.value.body);
      }
    }

    static method CopySurvivors(items: seq<Item>, changes: seq<Change>, decisions: Decisions, version: nat, firstId: nat)
      returns (copies: seq<Item>, newIds: map<nat, nat>)
      ensures copies == Copies(Survivors(items, changes, decisions), changes, decisions, version, firstId)
      ensures newIds == Naming(Survivors(items, changes, decisions), firstId)
    {
      copies, newIds := [], map[];
      for i := 0 to |items|
        invariant copies == Copies(Survivors(items[..i], changes, decisions), changes, decisions, version, firstId)
        invariant newIds == Naming(Survivors(items[..i], changes, decisions), firstId)
      {
        CopiesAfterOneMore(items, i, changes, decisions, version, firstId);
        var keep, proposed := DecideItem(items[i], changes, decisions);
        if keep {
          newIds := newIds[items[i].id := firstId + |copies|];
          copies := copies + [CloneItem(firstId + |copies|, version, items[i], proposed)];
        }
      }
      assert items[..|items|] == items;
    }

    static method AddAccepted(changes: seq<Change>, decisions: Decisions, version: nat, firstId: nat)
      returns (added: seq<Item>)
      ensures added == Additions(changes, |changes|, decisions, version, firstId)
    {
      added := [];
      for i := 0 to |changes|
        invariant added == Additions(changes, i, decisions, version, firstId)
      {
        if changes[i].changeType == Added && Applies(decisions, Some(i)) && changes[i].proposedItem.Some? {
          added := added + [NewItem(firstId + |added|, changes[i].code, version, changes[i].proposedItem.value.body)];
        }
      }
    }

    static method CarryDependencies(dependencies: seq<Dependency>, newIds: map<nat, nat>) returns (rows: seq<Dependency>)
      ensures rows == Carried(dependencies, newIds)
    {
      rows := [];
      for k := 0 to |dependencies|
        invariant rows == Carried(dependencies[..k], newIds)
      {
        var dependency := dependencies[k];
        assert dependencies[..k + 1][..k] == dependencies[..k];
        if dependency.source in newIds && dependency.target in newIds {
          rows := rows + [dependency.(source := newIds[dependency.source], target := newIds[dependency.target])];
        }
      }
      assert dependencies[..|dependencies|] == dependencies;
    }
  }
}
