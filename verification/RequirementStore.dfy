/** The stored requirement sets and impact reports, every operation that changes them, and what holds
    after any run of those operations. */
module RequirementStore {
  import opened Collections
  import opened DependencyGraph
  import opened SequenceCodes
  import opened RequirementItems
  import opened ImpactPatches
  import opened RequirementSets

  datatype DesignVersion = DesignVersion(eventId: nat, approved: bool)

  datatype ReportStatus = PendingReview | Applied

  datatype Report = Report(eventId: nat, baseline: nat, status: ReportStatus, changes: seq<Change>)

  /** A proposed item; without a code it is a new requirement. */
  datatype ProposedItem = ProposedItem(code: Option<string>, body: Proposal, layout: nat)

  datatype Outcome = Done(id: nat) | BadRequest | NotFound | Conflict | DuplicateKey

  /** Sets and reports are identified by their position; item ids are handed out in order. */
  datatype Store = Store(sets: seq<RequirementSet>, reports: seq<Report>, nextItemId: nat)

  datatype Op =
    | CreateSet(eventId: nat, designId: nat, design: Option<DesignVersion>,
                proposals: seq<Proposal>, inputs: seq<DependencyInput>)
    | ApproveSet(eventId: nat, setId: nat)
    | OverrideQuantity(eventId: nat, setId: nat, code: string, quantity: real, reason: string)
    | CreateReport(eventId: nat, setId: nat, proposed: seq<ProposedItem>)
    | ApplyReport(eventId: nat, reportId: nat, decisions: seq<(nat, Decision)>)

  // ---------------------------------------------------------------- soundness of a store

  function LatestVersion(sets: seq<RequirementSet>, eventId: nat): nat {
    if sets == [] then 0
    else
      var last, rest := sets[|sets| - 1], LatestVersion(sets[..|sets| - 1], eventId);
      if last.eventId == eventId && last.version > rest then last.version else rest
  }

  ghost predicate IdsBelow(items: seq<Item>, bound: nat) {
    forall item | item in items :: item.id < bound
  }

  ghost predicate SetsSound(sets: seq<RequirementSet>, nextItemId: nat) {
    && (forall i :: 0 <= i < |sets| ==>
          SetSound(sets[i].items, sets[i].dependencies) && IdsBelow(sets[i].items, nextItemId))
    && IdsDisjoint(sets)
    && VersionsIncrease(sets)
  }

  ghost predicate IdsDisjoint(sets: seq<RequirementSet>) {
    forall i, j :: 0 <= i < j < |sets| ==> Ids(sets[i].items) !! Ids(sets[j].items)
  }

  ghost predicate VersionsIncrease(sets: seq<RequirementSet>) {
    forall i, j :: 0 <= i < j < |sets| && sets[i].eventId == sets[j].eventId ==> sets[i].version < sets[j].version
  }

  ghost predicate ReportsSound(sets: seq<RequirementSet>, reports: seq<Report>) {
    forall r :: 0 <= r < |reports| ==>
      && reports[r].baseline < |sets|
      && sets[reports[r].baseline].eventId == reports[r].eventId
      && ReportSound(sets[reports[r].baseline].items, reports[r].changes)
  }

  ghost predicate Sound(s: Store) {
    SetsSound(s.sets, s.nextItemId) && ReportsSound(s.sets, s.reports)
  }

  const EMPTY := Store([], [], 0)

  // ---------------------------------------------------------------- the steps

  function Append(s: Store, next: RequirementSet): Store {
    s.(sets := s.sets + [next], nextItemId := s.nextItemId + |next.items|)
  }

  ghost function CreateSetStep(
    s: Store, eventId: nat, designId: nat, design: Option<DesignVersion>,
    proposals: seq<Proposal>, inputs: seq<DependencyInput>): (Store, Outcome)
  {
    if design.None? || design.value.eventId != eventId then (s, BadRequest)
    else if !design.value.approved then (s, Conflict)
    else if Judgement(|proposals|, Edges(inputs)) != Accepted then (s, BadRequest)
    else if !DistinctEdges(inputs) then (s, DuplicateKey)
    else
      JudgedPositive(|proposals|, inputs);
      var version := LatestVersion(s.sets, eventId) + 1;
      (Append(s, RequirementSet(eventId, designId, version, DraftSet,
                                CreatedItems(proposals, version, s.nextItemId),
                                CreatedDependencies(inputs, s.nextItemId))),
       Done(|s.sets|))
  }

  function ApproveItem(item: Item): Item {
    if item.status == Draft || item.status == Reviewed then item.(status := Approved) else item
  }

  function ApproveItems(items: seq<Item>): (approved: seq<Item>)
    ensures |approved| == |items|
    ensures forall i :: 0 <= i < |items| ==> approved[i] == ApproveItem(items[i])
  {
    seq(|items|, i requires 0 <= i < |items| => ApproveItem(items[i]))
  }

  function ApproveSetStep(s: Store, eventId: nat, setId: nat): (Store, Outcome) {
    if setId >= |s.sets| || s.sets[setId].eventId != eventId then (s, NotFound)
    else if s.sets[setId].status == ApprovedSet then (s, Conflict)
    else
      (s.(sets := s.sets[setId := Approve(s.sets[setId])]), Done(setId))
  }

  function OverriddenSet(
    eventId: nat, source: RequirementSet, code: string, quantity: real, reason: string, version: nat, firstId: nat): RequirementSet
  {
    RequirementSet(eventId, source.designId, version, DraftSet,
                   OverriddenItems(source.items, code, quantity, reason, firstId),
                   Carried(source.dependencies, Naming(source.items, firstId)))
  }

  function OverrideStep(s: Store, eventId: nat, setId: nat, code: string, quantity: real, reason: string): (Store, Outcome) {
    if setId >= |s.sets| || s.sets[setId].eventId != eventId then (s, NotFound)
    else if FindItem(s.sets[setId].items, code).None? then (s, NotFound)
    else
      (Append(s, OverriddenSet(eventId, s.sets[setId], code, quantity, reason,
                               LatestVersion(s.sets, eventId) + 1, s.nextItemId)),
       Done(|s.sets|))
  }

  predicate SuppliedTwice(proposed: seq<ProposedItem>) {
    exists i, j :: 0 <= i < j < |proposed| && proposed[i].code.Some? && proposed[i].code == proposed[j].code
  }

  predicate UnknownCode(items: seq<Item>, proposed: seq<ProposedItem>) {
    exists i :: 0 <= i < |proposed| && proposed[i].code.Some? && FindItem(items, proposed[i].code.value).None?
  }

  function ItemCodes(items: seq<Item>): (codes: seq<string>)
    ensures |codes| == |items|
    ensures forall i :: 0 <= i < |items| ==> codes[i] == items[i].code
  {
    seq(|items|, i requires 0 <= i < |items| => items[i].code)
  }

  function SuppliedCodes(proposed: seq<ProposedItem>): (codes: seq<Option<string>>)
    ensures |codes| == |proposed|
    ensures forall i :: 0 <= i < |proposed| ==> codes[i] == proposed[i].code
  {
    seq(|proposed|, i requires 0 <= i < |proposed| => proposed[i].code)
  }

  /** The proposal with a code on every item: missing ones continue from the highest of the baseline. */
  function Candidates(items: seq<Item>, proposed: seq<ProposedItem>): (candidates: seq<Candidate>)
    requires AllWellFormed(CODE_PREFIX, ItemCodes(items))
    ensures |candidates| == |proposed|
  {
    var codes := Assign(CODE_PREFIX, Highest(CODE_PREFIX, ItemCodes(items)), SuppliedCodes(proposed));
    seq(|proposed|, i requires 0 <= i < |proposed| => Candidate(codes[i], proposed[i].body, proposed[i].layout))
  }

  /** Why a report is not made, if it is not. */
  function ReportRefusal(sets: seq<RequirementSet>, eventId: nat, setId: nat, proposed: seq<ProposedItem>): (refusal: Option<Outcome>)
    ensures refusal.Some? ==> !refusal.value.Done?
    ensures refusal.None? ==> setId < |sets| && !SuppliedTwice(proposed) && !UnknownCode(sets[setId].items, proposed)
  {
    if setId >= |sets| || sets[setId].eventId != eventId then Some(NotFound)
    else if sets[setId].status != ApprovedSet then Some(Conflict)
    else if SuppliedTwice(proposed) || UnknownCode(sets[setId].items, proposed) then Some(BadRequest)
    else None
  }

  ghost function CreateReportStep(s: Store, eventId: nat, setId: nat, proposed: seq<ProposedItem>): (Store, Outcome)
    requires Sound(s)
  {
    match ReportRefusal(s.sets, eventId, setId, proposed)
    case Some(outcome) => (s, outcome)
    case None =>
      CodesOfSound(s.sets[setId].items);
      var changes := Diff(s.sets[setId].items, Candidates(s.sets[setId].items, proposed));
      (s.(reports := s.reports + [Report(eventId, setId, PendingReview, changes)]), Done(|s.reports|))
  }

  /** Decisions by change position; a repeated decision replaces the earlier one. */
  function DecisionMap(rows: seq<(nat, Decision)>): Decisions {
    if rows == [] then map[]
    else DecisionMap(rows[..|rows| - 1])[rows[|rows| - 1].0 := rows[|rows| - 1].1]
  }

  /** The last row about a change position says this. */
  ghost predicate LastSays(rows: seq<(nat, Decision)>, i: nat, d: Decision) {
    exists k :: 0 <= k < |rows| && rows[k] == (i, d) && forall m :: k < m < |rows| ==> rows[m].0 != i
  }

  lemma LastSaysStep(rows: seq<(nat, Decision)>, i: nat, d: Decision)
    requires rows != []
    ensures var front, last := rows[..|rows| - 1], rows[|rows| - 1];
            LastSays(rows, i, d) <==> if last.0 == i then last.1 == d else LastSays(front, i, d)
  {
    var front, last := rows[..|rows| - 1], rows[|rows| - 1];
    if last == (i, d) {
      assert rows[|rows| - 1] == (i, d);
    }
    if k :| 0 <= k < |front| && front[k] == (i, d) && (forall m :: k < m < |front| ==> front[m].0 != i) && last.0 != i {
      assert rows[k] == (i, d);
      forall m | k < m < |rows| ensures rows[m].0 != i {
        assert m < |front| ==> front[m] == rows[m];
      }
    }
    if k :| 0 <= k < |rows| && rows[k] == (i, d) && forall m :: k < m < |rows| ==> rows[m].0 != i {
      if k < |front| {
        assert front[k] == (i, d);
        assert forall m :: k < m < |front| ==> front[m] == rows[m];
        assert rows[|rows| - 1].0 != i;
      }
    }
  }

  /** A change's decision is what the last row about it says. */
  lemma {:induction false} LastRowDecides(rows: seq<(nat, Decision)>, i: nat, d: Decision)
    ensures i in DecisionMap(rows) && DecisionMap(rows)[i] == d <==> LastSays(rows, i, d)
  {
    if rows == [] {
    } else {
      LastRowDecides(rows[..|rows| - 1], i, d);
      LastSaysStep(rows, i, d);
    }
  }

  /** The last row about a change says to apply it. */
  ghost predicate SaysApply(rows: seq<(nat, Decision)>, change: Option<nat>) {
    change.Some? && LastSays(rows, change.value, Apply)
  }

  lemma AppliesAsTheRowsSay(rows: seq<(nat, Decision)>, change: Option<nat>)
    ensures Applies(DecisionMap(rows), change) <==> SaysApply(rows, change)
  {
    if change.Some? {
      LastRowDecides(rows, change.value, Apply);
    }
  }

  predicate DecidesAll(decisions: Decisions, changes: seq<Change>) {
    |decisions| == |changes| && forall i :: 0 <= i < |changes| ==> i in decisions
  }

  function Decided(changes: seq<Change>, decisions: Decisions): (decided: seq<Change>)
    requires DecidesAll(decisions, changes)
    ensures |decided| == |changes|
    ensures forall i :: 0 <= i < |changes| ==> decided[i] == changes[i].(decision := decisions[i])
  {
    seq(|changes|, i requires 0 <= i < |changes| => changes[i].(decision := decisions[i]))
  }

  function PatchedSet(
    baseline: RequirementSet, report: Report, decisions: Decisions, version: nat, firstId: nat): RequirementSet
  {
    RequirementSet(report.eventId, baseline.designId, version, DraftSet,
                   Patch(baseline.items, report.changes, decisions, version, firstId),
                   Carried(baseline.dependencies, Naming(Survivors(baseline.items, report.changes, decisions), firstId)))
  }

  function Resolve(s: Store, reportId: nat, decisions: Decisions): Store
    requires reportId < |s.reports| && DecidesAll(decisions, s.reports[reportId].changes)
  {
    var report := s.reports[reportId];
    s.(reports := s.reports[reportId := report.(status := Applied, changes := Decided(report.changes, decisions))])
  }

  /** Why a report is not applied, if it is not. */
  function ApplyRefusal(reports: seq<Report>, eventId: nat, reportId: nat, decisions: Decisions): (refusal: Option<Outcome>)
    ensures refusal.Some? ==> !refusal.value.Done?
    ensures refusal.None? <==>
            && reportId < |reports| && reports[reportId].eventId == eventId && reports[reportId].status == PendingReview
            && DecidesAll(decisions, reports[reportId].changes)
  {
    if reportId >= |reports| || reports[reportId].eventId != eventId then Some(NotFound)
    else if reports[reportId].status != PendingReview then Some(Conflict)
    else if !DecidesAll(decisions, reports[reportId].changes) then Some(BadRequest)
    else None
  }

  ghost function ApplyReportStep(s: Store, eventId: nat, reportId: nat, rows: seq<(nat, Decision)>): (Store, Outcome)
    requires Sound(s)
  {
    match ApplyRefusal(s.reports, eventId, reportId, DecisionMap(rows))
    case Some(outcome) => (s, outcome)
    case None =>
      var decisions, report := DecisionMap(rows), s.reports[reportId];
      var next := PatchedSet(s.sets[report.baseline], report, decisions, LatestVersion(s.sets, eventId) + 1, s.nextItemId);
      (Resolve(Append(s, next), reportId, decisions), Done(|s.sets|))
  }

  ghost function Step(s: Store, op: Op): (Store, Outcome)
    requires Sound(s)
  {
    match op
    case CreateSet(eventId, designId, design, proposals, inputs) => CreateSetStep(s, eventId, designId, design, proposals, inputs)
    case ApproveSet(eventId, setId) => ApproveSetStep(s, eventId, setId)
    case OverrideQuantity(eventId, setId, code, quantity, reason) => OverrideStep(s, eventId, setId, code, quantity, reason)
    case CreateReport(eventId, setId, proposed) => CreateReportStep(s, eventId, setId, proposed)
    case ApplyReport(eventId, reportId, decisions) => ApplyReportStep(s, eventId, reportId, decisions)
  }

  // ---------------------------------------------------------------- every step keeps the store sound

  lemma JudgedPositive(itemCount: nat, inputs: seq<DependencyInput>)
    requires Judgement(itemCount, Edges(inputs)) == Accepted
    ensures Positive(inputs)
  {
    forall i | 0 <= i < |inputs| ensures InRange(itemCount, inputs[i].edge) {
      CreatedEnd(itemCount, inputs, i);
    }
  }

  lemma CodesOfSound(items: seq<Item>)
    requires CodesWellFormed(items)
    ensures AllWellFormed(CODE_PREFIX, ItemCodes(items))
  {
    forall i | 0 <= i < |items| ensures WellFormed(CODE_PREFIX, ItemCodes(items)[i]) {
      assert items[i] in items;
    }
  }

  lemma {:induction false} LatestIsLargest(sets: seq<RequirementSet>, eventId: nat)
    ensures forall i :: 0 <= i < |sets| && sets[i].eventId == eventId ==> sets[i].version <= LatestVersion(sets, eventId)
  {
    if sets == [] {
    } else {
      LatestIsLargest(sets[..|sets| - 1], eventId);
    }
  }

  lemma AppendSound(s: Store, next: RequirementSet)
    requires Sound(s) && SetSound(next.items, next.dependencies) && Numbered(next.items, s.nextItemId)
    requires next.version == LatestVersion(s.sets, next.eventId) + 1
    ensures Sound(Append(s, next))
  {
    LatestIsLargest(s.sets, next.eventId);
    NumberedIsDistinct(next.items, s.nextItemId);
    forall item | item in next.items ensures item.id < s.nextItemId + |next.items| {
      assert item.id in Ids(next.items);
    }
    forall i | 0 <= i < |s.sets| ensures Ids(s.sets[i].items) !! Ids(next.items) {
    }
  }

  lemma ApprovalKeepsCodes(items: seq<Item>, code: string)
    requires DistinctItems(items)
    ensures FindItem(ApproveItems(items), code) ==
            (match FindItem(items, code) case None => None case Some(item) => Some(ApproveItem(item)))
  {
    var approved := ApproveItems(items);
    if FindItem(items, code).Some? {
      var i :| 0 <= i < |items| && items[i] == FindItem(items, code).value;
      assert approved[i] in approved;
      FoundItem(approved, approved[i]);
    }
  }

  lemma ApprovalKeepsIds(items: seq<Item>)
    ensures Ids(ApproveItems(items)) == Ids(items)
  {
    var approved := ApproveItems(items);
    forall i | 0 <= i < |items| ensures items[i].id in Ids(approved) && approved[i].id in Ids(items) {
      assert approved[i] in approved && items[i] in items;
    }
  }

  lemma ApprovedSetSound(items: seq<Item>, dependencies: seq<Dependency>)
    requires SetSound(items, dependencies)
    ensures SetSound(ApproveItems(items), dependencies) && Ids(ApproveItems(items)) == Ids(items)
  {
    var approved := ApproveItems(items);
    ApprovalKeepsIds(items);
    forall item | item in approved ensures WellFormed(CODE_PREFIX, item.code) {
      var i :| 0 <= i < |approved| && approved[i] == item;
      assert items[i] in items;
    }
  }

  lemma ApproveStepSound(s: Store, eventId: nat, setId: nat)
    requires Sound(s)
    ensures Sound(ApproveSetStep(s, eventId, setId).0)
  {
    if setId < |s.sets| {
      ApprovedSetsSound(s.sets, s.nextItemId, setId);
      ApprovedReportsSound(s.sets, s.reports, setId);
    }
  }

  function Approve(current: RequirementSet): RequirementSet {
    current.(status := ApprovedSet, items := ApproveItems(current.items))
  }

  lemma ApprovedSetsSound(sets: seq<RequirementSet>, nextItemId: nat, setId: nat)
    requires SetsSound(sets, nextItemId) && setId < |sets|
    ensures SetsSound(sets[setId := Approve(sets[setId])], nextItemId)
  {
    var items := sets[setId].items;
    ApprovedSetSound(items, sets[setId].dependencies);
    forall item | item in ApproveItems(items) ensures item.id < nextItemId {
      assert item.id in Ids(items);
    }
  }

  lemma ApprovedReportsSound(sets: seq<RequirementSet>, reports: seq<Report>, setId: nat)
    requires ReportsSound(sets, reports) && setId < |sets| && DistinctItems(sets[setId].items)
    ensures ReportsSound(sets[setId := Approve(sets[setId])], reports)
  {
    var items := sets[setId].items;
    forall code ensures FindItem(ApproveItems(items), code).None? <==> FindItem(items, code).None? {
      ApprovalKeepsCodes(items, code);
    }
  }

  lemma CandidatesDistinct(items: seq<Item>, proposed: seq<ProposedItem>)
    requires CodesWellFormed(items)
    requires AllWellFormed(CODE_PREFIX, ItemCodes(items))
    requires !SuppliedTwice(proposed) && !UnknownCode(items, proposed)
    ensures DistinctCandidates(Candidates(items, proposed))
    ensures forall c | c in Candidates(items, proposed) :: WellFormed(CODE_PREFIX, c.code)
  {
    var used := Highest(CODE_PREFIX, ItemCodes(items));
    var supplied := SuppliedCodes(proposed);
    forall i | 0 <= i < |supplied| && supplied[i].Some?
      ensures WellFormed(CODE_PREFIX, supplied[i].value) && Number(CODE_PREFIX, supplied[i].value) <= used
    {
      var item := FindItem(items, proposed[i].code.value).value;
      var k :| 0 <= k < |items| && items[k] == item;
      assert ItemCodes(items)[k] == supplied[i].value;
    }
    AssignedCodesDistinct(CODE_PREFIX, used, supplied);
    var codes := Assign(CODE_PREFIX, used, supplied);
    forall c | c in Candidates(items, proposed) ensures WellFormed(CODE_PREFIX, c.code) {
      var i :| 0 <= i < |proposed| && Candidates(items, proposed)[i] == c;
      assert WellFormed(CODE_PREFIX, codes[i]);
    }
  }

  lemma ComputedReportSound(items: seq<Item>, candidates: seq<Candidate>)
    requires DistinctItems(items) && CodesWellFormed(items) && DistinctCandidates(candidates)
    requires forall c | c in candidates :: WellFormed(CODE_PREFIX, c.code)
    ensures ReportSound(items, Diff(items, candidates))
  {
    DiffFits(items, candidates);
    DiffMembers(items, candidates);
  }

  lemma DecidedSound(items: seq<Item>, changes: seq<Change>, decisions: Decisions)
    requires ReportSound(items, changes) && DecidesAll(decisions, changes)
    ensures ReportSound(items, Decided(changes, decisions))
  {
    var decided := Decided(changes, decisions);
    forall c | c in decided
      ensures (c.changeType == Added <==> FindItem(items, c.code).None?) && WellFormed(CODE_PREFIX, c.code)
    {
      var i :| 0 <= i < |decided| && decided[i] == c;
      assert changes[i] in changes;
    }
  }

  /** One step of any kind keeps the store sound. */
  lemma StepKeepsSound(s: Store, op: Op)
    requires Sound(s)
    ensures Sound(Step(s, op).0)
  {
    match op
    case CreateSet(eventId, designId, design, proposals, inputs) =>
      CreateStepSound(s, eventId, designId, design, proposals, inputs);
    case ApproveSet(eventId, setId) =>
      ApproveStepSound(s, eventId, setId);
    case OverrideQuantity(eventId, setId, code, quantity, reason) =>
      OverrideStepSound(s, eventId, setId, code, quantity, reason);
    case CreateReport(eventId, setId, proposed) =>
      ReportStepSound(s, eventId, setId, proposed);
    case ApplyReport(eventId, reportId, rows) =>
      ApplyStepSound(s, eventId, reportId, rows);
  }

  lemma CreateStepSound(
    s: Store, eventId: nat, designId: nat, design: Option<DesignVersion>, proposals: seq<Proposal>, inputs: seq<DependencyInput>)
    requires Sound(s)
    ensures Sound(CreateSetStep(s, eventId, designId, design, proposals, inputs).0)
  {
    var after := CreateSetStep(s, eventId, designId, design, proposals, inputs);
    if after.1.Done? {
      var version := LatestVersion(s.sets, eventId) + 1;
      JudgedPositive(|proposals|, inputs);
      CreatedItemsNumbered(proposals, version, s.nextItemId);
      CreatedSetSound(proposals, inputs, version, s.nextItemId);
      AppendSound(s, after.0.sets[|s.sets|]);
    }
  }

  lemma OverrideStepSound(s: Store, eventId: nat, setId: nat, code: string, quantity: real, reason: string)
    requires Sound(s)
    ensures Sound(OverrideStep(s, eventId, setId, code, quantity, reason).0)
  {
    var after := OverrideStep(s, eventId, setId, code, quantity, reason);
    if after.1.Done? {
      var source := s.sets[setId];
      OverriddenNumbered(source.items, code, quantity, reason, s.nextItemId);
      OverriddenSetSound(source.items, source.dependencies, code, quantity, reason, s.nextItemId);
      AppendSound(s, after.0.sets[|s.sets|]);
    }
  }

  lemma ReportStepSound(s: Store, eventId: nat, setId: nat, proposed: seq<ProposedItem>)
    requires Sound(s)
    ensures Sound(CreateReportStep(s, eventId, setId, proposed).0)
  {
    if CreateReportStep(s, eventId, setId, proposed).1.Done? {
      var items := s.sets[setId].items;
      CodesOfSound(items);
      CandidatesDistinct(items, proposed);
      ComputedReportSound(items, Candidates(items, proposed));
    }
  }

  lemma ResolveSound(s: Store, reportId: nat, decisions: Decisions)
    requires Sound(s) && reportId < |s.reports| && DecidesAll(decisions, s.reports[reportId].changes)
    ensures Sound(Resolve(s, reportId, decisions))
  {
    var report := s.reports[reportId];
    DecidedSound(s.sets[report.baseline].items, report.changes, decisions);
  }

  lemma PatchedSetAppends(s: Store, reportId: nat, decisions: Decisions) returns (appended: Store)
    requires Sound(s) && reportId < |s.reports|
    ensures s.reports[reportId].baseline < |s.sets|
    ensures var report := s.reports[reportId];
            appended == Append(s, PatchedSet(s.sets[report.baseline], report, decisions,
                                             LatestVersion(s.sets, report.eventId) + 1, s.nextItemId))
    ensures Sound(appended)
  {
    var report := s.reports[reportId];
    var baseline, version := s.sets[report.baseline], LatestVersion(s.sets, report.eventId) + 1;
    PatchNumbered(baseline.items, report.changes, decisions, version, s.nextItemId);
    PatchedSetSound(baseline.items, baseline.dependencies, report.changes, decisions, version, s.nextItemId);
    var next := PatchedSet(baseline, report, decisions, version, s.nextItemId);
    AppendSound(s, next);
    appended := Append(s, next);
  }

  /** An accepted report is the comparison of the baseline with the numbered proposal. */
  lemma ReportStepUnfolds(s: Store, eventId: nat, setId: nat, proposed: seq<ProposedItem>)
    requires Sound(s) && ReportRefusal(s.sets, eventId, setId, proposed).None?
    ensures AllWellFormed(CODE_PREFIX, ItemCodes(s.sets[setId].items))
    ensures CreateReportStep(s, eventId, setId, proposed) ==
            (s.(reports := s.reports + [Report(eventId, setId, PendingReview,
                                               Diff(s.sets[setId].items, Candidates(s.sets[setId].items, proposed)))]),
             Done(|s.reports|))
  {
    CodesOfSound(s.sets[setId].items);
  }

  lemma ApplyStepUnfolds(s: Store, eventId: nat, reportId: nat, rows: seq<(nat, Decision)>)
    requires Sound(s) && ApplyRefusal(s.reports, eventId, reportId, DecisionMap(rows)).None?
    ensures s.reports[reportId].baseline < |s.sets|
    ensures ApplyReportStep(s, eventId, reportId, rows) ==
            (Resolve(Append(s, PatchedSet(s.sets[s.reports[reportId].baseline], s.reports[reportId], DecisionMap(rows),
                                          LatestVersion(s.sets, eventId) + 1, s.nextItemId)),
                     reportId, DecisionMap(rows)),
             Done(|s.sets|))
  {
  }

  lemma ApplyStepResolves(s: Store, eventId: nat, reportId: nat, rows: seq<(nat, Decision)>) returns (appended: Store)
    requires Sound(s) && ApplyRefusal(s.reports, eventId, reportId, DecisionMap(rows)).None?
    ensures Sound(appended) && appended.reports == s.reports
    ensures ApplyReportStep(s, eventId, reportId, rows).0 == Resolve(appended, reportId, DecisionMap(rows))
  {
    ApplyStepUnfolds(s, eventId, reportId, rows);
    appended := PatchedSetAppends(s, reportId, DecisionMap(rows));
  }

  lemma ApplyStepSound(s: Store, eventId: nat, reportId: nat, rows: seq<(nat, Decision)>)
    requires Sound(s)
    ensures Sound(ApplyReportStep(s, eventId, reportId, rows).0)
  {
    if ApplyRefusal(s.reports, eventId, reportId, DecisionMap(rows)).None? {
      var appended := ApplyStepResolves(s, eventId, reportId, rows);
      ResolveSound(appended, reportId, DecisionMap(rows));
    }
  }

  ghost function Run(s: Store, ops: seq<Op>): Store
    requires Sound(s)
    decreases |ops|
  {
    if ops == [] then s
    else
      StepKeepsSound(s, ops[0]);
      Run(Step(s, ops[0]).0, ops[1..])
  }

  /** Whatever is done, in whatever order, every stored set has unique well-formed codes and an acyclic
      dependency graph over its own items, and no two sets of an event share a version. */
  lemma {:induction false} EveryReachableStoreIsSound(s: Store, ops: seq<Op>)
    requires Sound(s)
    ensures Sound(Run(s, ops))
    decreases |ops|
  {
    if ops == [] {
    } else {
      StepKeepsSound(s, ops[0]);
      EveryReachableStoreIsSound(Step(s, ops[0]).0, ops[1..]);
    }
  }

  // ---------------------------------------------------------------- history is never rewritten

  ghost predicate SameButStatus(before: Item, after: Item) {
    after.(status := before.status) == before
  }

  /** A set after some steps: the same set, except that it and its items may have been approved. */
  ghost predicate SameContent(before: RequirementSet, after: RequirementSet) {
    && after.(status := before.status, items := before.items) == before
    && |after.items| == |before.items|
    && (forall i :: 0 <= i < |before.items| ==> SameButStatus(before.items[i], after.items[i]))
    && (after.status == before.status || after.status == ApprovedSet)
  }

  ghost predicate SameButDecision(before: Change, after: Change) {
    after.(decision := before.decision) == before
  }

  /** A report after some steps: as it was, or applied, with a decision on each change and nothing else changed. */
  ghost predicate SameReport(before: Report, after: Report) {
    || after == before
    || (&& before.status == PendingReview && after.status == Applied
        && after.eventId == before.eventId && after.baseline == before.baseline && |after.changes| == |before.changes|
        && (forall i :: 0 <= i < |before.changes| ==> SameButDecision(before.changes[i], after.changes[i])))
  }

  ghost predicate Extends(before: Store, after: Store) {
    && |before.sets| <= |after.sets| && |before.reports| <= |after.reports|
    && (forall i :: 0 <= i < |before.sets| ==> SameContent(before.sets[i], after.sets[i]))
    && (forall r :: 0 <= r < |before.reports| ==> SameReport(before.reports[r], after.reports[r]))
  }

  lemma StepKeepsHistory(s: Store, op: Op)
    requires Sound(s)
    ensures Extends(s, Step(s, op).0)
  {
    match op
    case CreateSet(eventId, designId, design, proposals, inputs) =>
      CreateSetKeepsHistory(s, eventId, designId, design, proposals, inputs);
    case ApproveSet(eventId, setId) =>
      ApproveKeepsHistory(s, eventId, setId);
    case OverrideQuantity(eventId, setId, code, quantity, reason) =>
      OverrideKeepsHistory(s, eventId, setId, code, quantity, reason);
    case CreateReport(eventId, setId, proposed) =>
      ReportKeepsHistory(s, eventId, setId, proposed);
    case ApplyReport(eventId, reportId, rows) =>
      ApplyKeepsHistory(s, eventId, reportId, rows);
  }

  lemma ApproveKeepsHistory(s: Store, eventId: nat, setId: nat)
    ensures Extends(s, ApproveSetStep(s, eventId, setId).0)
  {
    var after := ApproveSetStep(s, eventId, setId).0;
    forall i | 0 <= i < |s.sets| ensures SameContent(s.sets[i], after.sets[i]) {
    }
  }

  lemma ApplyKeepsHistory(s: Store, eventId: nat, reportId: nat, rows: seq<(nat, Decision)>)
    requires Sound(s)
    ensures Extends(s, ApplyReportStep(s, eventId, reportId, rows).0)
  {
    if ApplyRefusal(s.reports, eventId, reportId, DecisionMap(rows)).None? {
      ApplyStepUnfolds(s, eventId, reportId, rows);
      var report, decisions := s.reports[reportId], DecisionMap(rows);
      var next := PatchedSet(s.sets[report.baseline], report, decisions, LatestVersion(s.sets, eventId) + 1, s.nextItemId);
      AppendKeepsHistory(s, next);
      ResolveKeepsHistory(Append(s, next), reportId, decisions);
      ExtendsTransitively(s, Append(s, next), Resolve(Append(s, next), reportId, decisions));
    }
  }

  /** Approval takes effect, and takes effect once: no item is left a draft, and a second approval of the set
      is refused after any run. */
  lemma ApprovalIsFinal(s: Store, eventId: nat, setId: nat, ops: seq<Op>)
    requires Sound(s) && ApproveSetStep(s, eventId, setId).1.Done? && Sound(ApproveSetStep(s, eventId, setId).0)
    ensures var after := ApproveSetStep(s, eventId, setId).0;
            && (forall item | item in after.sets[setId].items :: item.status != Draft && item.status != Reviewed)
            && setId < |Run(after, ops).sets| && ApproveSetStep(Run(after, ops), eventId, setId).1 == Conflict
  {
    var after := ApproveSetStep(s, eventId, setId).0;
    HistoryIsNeverRewritten(after, ops);
    assert SameContent(after.sets[setId], Run(after, ops).sets[setId]);
  }

  lemma AppendKeepsHistory(s: Store, next: RequirementSet)
    ensures Extends(s, Append(s, next))
  {
    forall i | 0 <= i < |s.sets| ensures SameContent(s.sets[i], Append(s, next).sets[i]) {
    }
  }

  lemma ResolveKeepsHistory(s: Store, reportId: nat, decisions: Decisions)
    requires reportId < |s.reports| && s.reports[reportId].status == PendingReview
    requires DecidesAll(decisions, s.reports[reportId].changes)
    ensures Extends(s, Resolve(s, reportId, decisions))
  {
    var before, after := s.reports[reportId], Resolve(s, reportId, decisions).reports[reportId];
    assert forall i :: 0 <= i < |before.changes| ==> SameButDecision(before.changes[i], after.changes[i]);
    assert SameReport(before, after);
    forall i | 0 <= i < |s.sets| ensures SameContent(s.sets[i], s.sets[i]) {
    }
  }

  lemma CreateSetKeepsHistory(
    s: Store, eventId: nat, designId: nat, design: Option<DesignVersion>, proposals: seq<Proposal>, inputs: seq<DependencyInput>)
    requires Sound(s)
    ensures Extends(s, CreateSetStep(s, eventId, designId, design, proposals, inputs).0)
  {
    var after := CreateSetStep(s, eventId, designId, design, proposals, inputs).0;
    if after != s {
      AppendKeepsHistory(s, after.sets[|s.sets|]);
    }
  }

  lemma OverrideKeepsHistory(s: Store, eventId: nat, setId: nat, code: string, quantity: real, reason: string)
    ensures Extends(s, OverrideStep(s, eventId, setId, code, quantity, reason).0)
  {
    var after := OverrideStep(s, eventId, setId, code, quantity, reason).0;
    if after != s {
      AppendKeepsHistory(s, after.sets[|s.sets|]);
    }
  }

  lemma ReportKeepsHistory(s: Store, eventId: nat, setId: nat, proposed: seq<ProposedItem>)
    requires Sound(s)
    ensures Extends(s, CreateReportStep(s, eventId, setId, proposed).0)
  {
    forall i | 0 <= i < |s.sets| ensures SameContent(s.sets[i], s.sets[i]) {
    }
  }

  /** Requirement sets are never overwritten: any run leaves every earlier set's content, version and
      dependencies as they were, and a report changes only by being applied once. */
  lemma {:induction false} HistoryIsNeverRewritten(s: Store, ops: seq<Op>)
    requires Sound(s)
    ensures Extends(s, Run(s, ops))
    decreases |ops|
  {
    if ops == [] {
    } else {
      var next := Step(s, ops[0]).0;
      StepKeepsSound(s, ops[0]);
      StepKeepsHistory(s, ops[0]);
      HistoryIsNeverRewritten(next, ops[1..]);
      ExtendsTransitively(s, next, Run(next, ops[1..]));
    }
  }

  lemma ExtendsTransitively(a: Store, b: Store, c: Store)
    requires Extends(a, b) && Extends(b, c)
    ensures Extends(a, c)
  {
    forall i | 0 <= i < |a.sets| ensures SameContent(a.sets[i], c.sets[i]) {
      assert SameContent(a.sets[i], b.sets[i]) && SameContent(b.sets[i], c.sets[i]);
    }
    forall r | 0 <= r < |a.reports| ensures SameReport(a.reports[r], c.reports[r]) {
      assert SameReport(a.reports[r], b.reports[r]) && SameReport(b.reports[r], c.reports[r]);
    }
  }

  lemma ContentDecidesEntry(before: RequirementSet, after: RequirementSet, code: string)
    requires SameContent(before, after) && DistinctItems(before.items)
    ensures EntryAt(after.items, code) == EntryAt(before.items, code)
  {
    assert DistinctItems(after.items) by {
      forall i, j | 0 <= i < j < |after.items| ensures after.items[i].code != after.items[j].code {
        assert SameButStatus(before.items[i], after.items[i]) && SameButStatus(before.items[j], after.items[j]);
      }
    }
    if FindItem(before.items, code).Some? {
      var i :| 0 <= i < |before.items| && before.items[i] == FindItem(before.items, code).value;
      assert SameButStatus(before.items[i], after.items[i]);
      FoundItem(after.items, after.items[i]);
    }
  }

  lemma ReportOfSound(s: Store, reportId: nat)
    requires Sound(s) && reportId < |s.reports|
    ensures s.reports[reportId].baseline < |s.sets|
    ensures var report := s.reports[reportId];
            DistinctItems(s.sets[report.baseline].items) && ChangesFit(s.sets[report.baseline].items, report.changes)
  {
    assert ReportSound(s.sets[s.reports[reportId].baseline].items, s.reports[reportId].changes);
  }

  lemma AppliedSet(later: Store, eventId: nat, reportId: nat, rows: seq<(nat, Decision)>, final: Store, newId: nat)
    requires Sound(later) && ApplyReportStep(later, eventId, reportId, rows) == (final, Done(newId))
    ensures reportId < |later.reports| && later.reports[reportId].status == PendingReview && newId < |final.sets|
    ensures later.reports[reportId].baseline < |later.sets|
    ensures final.sets[newId].items == Patch(later.sets[later.reports[reportId].baseline].items, later.reports[reportId].changes,
                                             DecisionMap(rows), LatestVersion(later.sets, eventId) + 1, later.nextItemId)
  {
    assert ApplyRefusal(later.reports, eventId, reportId, DecisionMap(rows)).None?;
    ApplyStepUnfolds(later, eventId, reportId, rows);
  }

  /** What one application puts at a code, in terms of the store it runs in. */
  lemma AppliedNow(later: Store, eventId: nat, reportId: nat, rows: seq<(nat, Decision)>, final: Store, newId: nat, code: string)
    requires Sound(later) && ApplyReportStep(later, eventId, reportId, rows) == (final, Done(newId))
    ensures reportId < |later.reports| && later.reports[reportId].status == PendingReview && newId < |final.sets|
    ensures var report := later.reports[reportId];
            EntryAt(final.sets[newId].items, code) ==
            PatchAt(EntryAt(later.sets[report.baseline].items, code), ChangeAt(report.changes, code),
                    Applies(DecisionMap(rows), FindChange(report.changes, code)))
  {
    AppliedSet(later, eventId, reportId, rows, final, newId);
    ReportOfSound(later, reportId);
    var items, changes := later.sets[later.reports[reportId].baseline].items, later.reports[reportId].changes;
    var decisions, version := DecisionMap(rows), LatestVersion(later.sets, eventId) + 1;
    PatchIsPointwise(items, changes, decisions, version, later.nextItemId, code);
  }

  lemma AppliedLater(
    first: Store, later: Store, eventId: nat, reportId: nat, rows: seq<(nat, Decision)>, final: Store, newId: nat, code: string)
    requires Sound(first) && Sound(later) && Extends(first, later) && reportId < |first.reports|
    requires ApplyReportStep(later, eventId, reportId, rows) == (final, Done(newId))
    ensures newId < |final.sets|
    ensures var report := first.reports[reportId];
            EntryAt(final.sets[newId].items, code) ==
            PatchAt(EntryAt(first.sets[report.baseline].items, code), ChangeAt(report.changes, code),
                    Applies(DecisionMap(rows), FindChange(report.changes, code)))
  {
    var setId := first.reports[reportId].baseline;
    AppliedNow(later, eventId, reportId, rows, final, newId, code);
    assert SameReport(first.reports[reportId], later.reports[reportId]);
    assert SameContent(first.sets[setId], later.sets[setId]);
    ContentDecidesEntry(first.sets[setId], later.sets[setId], code);
  }

  /** End to end: a report is made, anything else happens, and then the report is applied. The new set
      says at each code what the old set, the proposal of the time and the decision on that code say. */
  lemma AppliedReportMeansWhatItSaid(
    s: Store, eventId: nat, setId: nat, proposed: seq<ProposedItem>, first: Store, reportId: nat,
    ops: seq<Op>, later: Store, rows: seq<(nat, Decision)>, final: Store, newId: nat, code: string)
    requires Sound(s) && CreateReportStep(s, eventId, setId, proposed) == (first, Done(reportId))
    requires Sound(first) && later == Run(first, ops)
    requires Sound(later) && ApplyReportStep(later, eventId, reportId, rows) == (final, Done(newId))
    requires AllWellFormed(CODE_PREFIX, ItemCodes(s.sets[setId].items))
    ensures var items, candidates := s.sets[setId].items, Candidates(s.sets[setId].items, proposed);
            newId < |final.sets| &&
            EntryAt(final.sets[newId].items, code) ==
            PatchAt(EntryAt(items, code), DiffAt(FindItem(items, code), FindCandidate(candidates, code)),
                    SaysApply(rows, FindChange(Diff(items, candidates), code)))
  {
    AppliesAsTheRowsSay(rows, FindChange(Diff(s.sets[setId].items, Candidates(s.sets[setId].items, proposed)), code));
    HistoryIsNeverRewritten(first, ops);
    CandidatesDistinct(s.sets[setId].items, proposed);
    DiffIsPointwise(s.sets[setId].items, Candidates(s.sets[setId].items, proposed), code);
    AppliedLater(first, later, eventId, reportId, rows, final, newId, code);
  }
}
