/** Impact reports as a diff between a baseline and a proposal, and their application as a patch. */
module ImpactPatches {
  import opened Collections
  import opened RequirementItems

  datatype ChangeType = Added | Removed | Changed | QuantityChanged | OverrideProtected
  datatype Decision = Pending | Apply | KeepCurrent

  datatype Change = Change(
    code: string,
    changeType: ChangeType,
    decision: Decision,
    previousItem: Option<Payload>,
    proposedItem: Option<Payload>)

  /** A proposed item once it has a code; `layout` is the key order it was submitted with. */
  datatype Candidate = Candidate(code: string, body: Proposal, layout: nat)

  function CandidatePayload(c: Candidate): Payload {
    Payload(c.code, c.body, c.layout)
  }

  // ---------------------------------------------------------------- look-ups by code

  function FindItem(items: seq<Item>, code: string): (found: Option<Item>)
    ensures match found
            case Some(item) => item in items && item.code == code
            case None => forall item | item in items :: item.code != code
  {
    if items == [] then None
    else if items[|items| - 1].code == code then Some(items[|items| - 1])
    else FindItem(items[..|items| - 1], code)
  }

  function FindCandidate(candidates: seq<Candidate>, code: string): (found: Option<Candidate>)
    ensures match found
            case Some(c) => c in candidates && c.code == code
            case None => forall c | c in candidates :: c.code != code
  {
    if candidates == [] then None
    else if candidates[|candidates| - 1].code == code then Some(candidates[|candidates| - 1])
    else FindCandidate(candidates[..|candidates| - 1], code)
  }

  /** The position of the change about a code. */
  function FindChange(changes: seq<Change>, code: string): (found: Option<nat>)
    ensures match found
            case Some(i) => i < |changes| && changes[i].code == code
            case None => forall c | c in changes :: c.code != code
  {
    if changes == [] then None
    else if changes[|changes| - 1].code == code then Some(|changes| - 1)
    else FindChange(changes[..|changes| - 1], code)
  }

  function ChangeAt(changes: seq<Change>, code: string): Option<Change> {
    match FindChange(changes, code) case None => None case Some(i) => Some(changes[i])
  }

  ghost predicate DistinctItems(items: seq<Item>) {
    forall i, j :: 0 <= i < j < |items| ==> items[i].code != items[j].code
  }

  ghost predicate DistinctCandidates(candidates: seq<Candidate>) {
    forall i, j :: 0 <= i < j < |candidates| ==> candidates[i].code != candidates[j].code
  }

  ghost predicate DistinctChanges(changes: seq<Change>) {
    forall i, j :: 0 <= i < j < |changes| ==> changes[i].code != changes[j].code
  }

  lemma FoundItem(items: seq<Item>, item: Item)
    requires DistinctItems(items) && item in items
    ensures FindItem(items, item.code) == Some(item)
  {
  }

  lemma FoundChange(changes: seq<Change>, i: nat)
    requires DistinctChanges(changes) && i < |changes|
    ensures FindChange(changes, changes[i].code) == Some(i)
  {
    assert changes[i] in changes;
  }

  // ---------------------------------------------------------------- the diff

  /** The change a report records about one baseline item, if any. */
  function DiffItem(current: Item, proposed: Option<Candidate>): Option<Change> {
    match proposed
    case None =>
      Some(Change(current.code,
                  if current.tracking.plannerOverride then OverrideProtected else Removed,
                  Pending, Some(CurrentItemPayload(current)), None))
    case Some(c) =>
      if CurrentItemPayload(current) == CandidatePayload(c) then None
      else Some(Change(current.code,
                       if current.tracking.plannerOverride then OverrideProtected
                       else if current.columns.quantityRequired != c.body.quantityRequired then QuantityChanged
                       else Changed,
                       Pending, Some(CurrentItemPayload(current)), Some(CandidatePayload(c))))
  }

  function AddedChange(c: Candidate): Change {
    Change(c.code, Added, Pending, None, Some(CandidatePayload(c)))
  }

  function OptionalChange(change: Option<Change>): seq<Change> {
    match change case None => [] case Some(c) => [c]
  }

  function DiffItems(items: seq<Item>, candidates: seq<Candidate>): seq<Change> {
    if items == [] then []
    else
      var last := items[|items| - 1];
      DiffItems(items[..|items| - 1], candidates) + OptionalChange(DiffItem(last, FindCandidate(candidates, last.code)))
  }

  function DiffAdded(items: seq<Item>, candidates: seq<Candidate>): seq<Change> {
    if candidates == [] then []
    else
      var last := candidates[|candidates| - 1];
      DiffAdded(items, candidates[..|candidates| - 1]) +
      (if FindItem(items, last.code).None? then [AddedChange(last)] else [])
  }

  function Diff(items: seq<Item>, candidates: seq<Candidate>): seq<Change> {
    DiffItems(items, candidates) + DiffAdded(items, candidates)
  }

  /** What a report must say about one code, from the two sides of the comparison alone. */
  function DiffAt(current: Option<Item>, proposed: Option<Candidate>): Option<Change> {
    match current
    case Some(item) => DiffItem(item, proposed)
    case None => if proposed.Some? then Some(AddedChange(proposed.value)) else None
  }

  lemma {:induction false} DiffItemsMembers(items: seq<Item>, candidates: seq<Candidate>)
    requires DistinctItems(items)
    ensures forall c :: c in DiffItems(items, candidates) <==>
              exists item :: item in items && DiffItem(item, FindCandidate(candidates, item.code)) == Some(c)
  {
    if items == [] {
    } else {
      DiffItemsMembers(items[..|items| - 1], candidates);
      assert items == items[..|items| - 1] + [items[|items| - 1]];
    }
  }

  lemma {:induction false} DiffItemsDistinct(items: seq<Item>, candidates: seq<Candidate>)
    requires DistinctItems(items)
    ensures DistinctChanges(DiffItems(items, candidates))
  {
    if items == [] {
    } else {
      var front, last := items[..|items| - 1], items[|items| - 1];
      DiffItemsDistinct(front, candidates);
      var changes := DiffItems(front, candidates);
      forall k | 0 <= k < |changes| ensures changes[k].code != last.code {
        DiffItemsCode(front, candidates, k);
      }
    }
  }

  lemma {:induction false} DiffItemsCode(items: seq<Item>, candidates: seq<Candidate>, k: nat)
    requires k < |DiffItems(items, candidates)|
    ensures exists i :: 0 <= i < |items| && items[i].code == DiffItems(items, candidates)[k].code
  {
    var front, last := items[..|items| - 1], items[|items| - 1];
    if k < |DiffItems(front, candidates)| {
      DiffItemsCode(front, candidates, k);
      var i :| 0 <= i < |front| && front[i].code == DiffItems(front, candidates)[k].code;
      assert items[i] == front[i];
    } else {
      assert items[|items| - 1].code == DiffItems(items, candidates)[k].code;
    }
  }

  lemma {:induction false} DiffAddedMembers(items: seq<Item>, candidates: seq<Candidate>)
    requires DistinctCandidates(candidates)
    ensures forall c :: c in DiffAdded(items, candidates) <==>
              exists p :: p in candidates && FindItem(items, p.code).None? && c == AddedChange(p)
    ensures DistinctChanges(DiffAdded(items, candidates))
  {
    if candidates == [] {
    } else {
      var front, last := candidates[..|candidates| - 1], candidates[|candidates| - 1];
      DiffAddedMembers(items, front);
      assert candidates == front + [last];
      forall c | c in DiffAdded(items, front) ensures c.code != last.code {
        var p :| p in front && FindItem(items, p.code).None? && c == AddedChange(p);
      }
    }
  }

  lemma DiffMembers(items: seq<Item>, candidates: seq<Candidate>)
    requires DistinctItems(items) && DistinctCandidates(candidates)
    ensures DistinctChanges(Diff(items, candidates))
    ensures forall c | c in Diff(items, candidates) ::
              DiffAt(FindItem(items, c.code), FindCandidate(candidates, c.code)) == Some(c)
  {
    DiffItemsDistinct(items, candidates);
    DiffAddedMembers(items, candidates);
    forall c | c in DiffItems(items, candidates) ensures FindItem(items, c.code).Some? && DiffEntryFits(items, candidates, c) {
      DiffItemFits(items, candidates, c);
    }
    forall c | c in DiffAdded(items, candidates) ensures FindItem(items, c.code).None? && DiffEntryFits(items, candidates, c) {
      DiffAdditionFits(items, candidates, c);
    }
  }

  ghost predicate DiffEntryFits(items: seq<Item>, candidates: seq<Candidate>, c: Change) {
    DiffAt(FindItem(items, c.code), FindCandidate(candidates, c.code)) == Some(c)
  }

  lemma DiffItemFits(items: seq<Item>, candidates: seq<Candidate>, c: Change)
    requires DistinctItems(items) && c in DiffItems(items, candidates)
    ensures FindItem(items, c.code).Some? && DiffEntryFits(items, candidates, c)
  {
    DiffItemsMembers(items, candidates);
    var item :| item in items && DiffItem(item, FindCandidate(candidates, item.code)) == Some(c);
    FoundItem(items, item);
  }

  lemma DiffAdditionFits(items: seq<Item>, candidates: seq<Candidate>, c: Change)
    requires DistinctCandidates(candidates) && c in DiffAdded(items, candidates)
    ensures FindItem(items, c.code).None? && DiffEntryFits(items, candidates, c)
  {
    DiffAddedMembers(items, candidates);
    var p :| p in candidates && FindItem(items, p.code).None? && c == AddedChange(p);
  }

  lemma DiffHasEntry(items: seq<Item>, candidates: seq<Candidate>, code: string)
    requires DistinctItems(items) && DistinctCandidates(candidates)
    requires DiffAt(FindItem(items, code), FindCandidate(candidates, code)).Some?
    ensures var c := DiffAt(FindItem(items, code), FindCandidate(candidates, code)).value;
            c.code == code && c in Diff(items, candidates)
  {
    DiffItemsMembers(items, candidates);
    DiffAddedMembers(items, candidates);
  }

  /** A report says at most one thing about each code, and exactly what that code's two sides call for. */
  lemma DiffIsPointwise(items: seq<Item>, candidates: seq<Candidate>, code: string)
    requires DistinctItems(items) && DistinctCandidates(candidates)
    ensures ChangeAt(Diff(items, candidates), code) ==
            DiffAt(FindItem(items, code), FindCandidate(candidates, code))
  {
    DiffMembers(items, candidates);
    if DiffAt(FindItem(items, code), FindCandidate(candidates, code)).Some? {
      DiffHasEntry(items, candidates, code);
    }
    var found := ChangeAt(Diff(items, candidates), code);
    assert found.Some? ==> found.value in Diff(items, candidates);
  }

  // ---------------------------------------------------------------- the patch

  /** Planner decisions by change position. */
  type Decisions = map<nat, Decision>

  predicate Applies(decisions: Decisions, change: Option<nat>) {
    change.Some? && change.value in decisions && decisions[change.value] == Apply
  }

  predicate Drops(change: Change) {
    change.changeType == Removed || (change.changeType == OverrideProtected && change.proposedItem.None?)
  }

  predicate Survives(item: Item, changes: seq<Change>, decisions: Decisions) {
    var change := FindChange(changes, item.code);
    !(Applies(decisions, change) && Drops(changes[change.value]))
  }

  function Replacement(item: Item, changes: seq<Change>, decisions: Decisions): Option<Proposal> {
    var change := FindChange(changes, item.code);
    if Applies(decisions, change) && changes[change.value].proposedItem.Some?
    then Some(changes[change.value].proposedItem.value.body)
    else None
  }

  /** The baseline items that are carried into the next set, in order. */
  function Survivors(items: seq<Item>, changes: seq<Change>, decisions: Decisions): seq<Item> {
    if items == [] then []
    else
      var last := items[|items| - 1];
      Survivors(items[..|items| - 1], changes, decisions) +
      (if Survives(last, changes, decisions) then [last] else [])
  }

  /** Their copies, numbered from `firstId`. */
  function Copies(kept: seq<Item>, changes: seq<Change>, decisions: Decisions, version: nat, firstId: nat): (copies: seq<Item>)
    ensures |copies| == |kept|
  {
    if kept == [] then []
    else
      var last := kept[|kept| - 1];
      Copies(kept[..|kept| - 1], changes, decisions, version, firstId) +
      [CloneItem(firstId + |kept| - 1, version, last, Replacement(last, changes, decisions))]
  }

  /** The accepted additions among the first `n` changes, numbered from `firstId`. */
  function Additions(changes: seq<Change>, n: nat, decisions: Decisions, version: nat, firstId: nat): seq<Item>
    requires n <= |changes|
  {
    if n == 0 then []
    else
      var added := Additions(changes, n - 1, decisions, version, firstId);
      var change := changes[n - 1];
      if change.changeType == Added && Applies(decisions, Some(n - 1)) && change.proposedItem.Some?
      then added + [NewItem(firstId + |added|, change.code, version, change.proposedItem.value.body)]
      else added
  }

  function Patch(items: seq<Item>, changes: seq<Change>, decisions: Decisions, version: nat, firstId: nat): seq<Item> {
    var kept := Survivors(items, changes, decisions);
    Copies(kept, changes, decisions, version, firstId) +
    Additions(changes, |changes|, decisions, version, firstId + |kept|)
  }

  // ---------------------------------------------------------------- the patch, code by code

  /** What a set says about one code, apart from row identity and version numbers. */
  datatype Entry = Entry(columns: Columns, tracking: Tracking)

  function EntryOf(item: Option<Item>): Option<Entry> {
    match item case None => None case Some(i) => Some(Entry(i.columns, i.tracking))
  }

  function EntryAt(items: seq<Item>, code: string): Option<Entry> {
    EntryOf(FindItem(items, code))
  }

  /** The next entry at a code, from that code's entry, change and decision alone. */
  function PatchAt(entry: Option<Entry>, change: Option<Change>, apply: bool): Option<Entry> {
    match entry
    case Some(e) =>
      if change.Some? && apply && Drops(change.value) then None
      else if change.Some? && apply && change.value.proposedItem.Some? then
        Some(Entry(
               Stored(change.value.proposedItem.value.body).(estimatedBudgetCents := e.columns.estimatedBudgetCents),
               e.tracking.(plannerOverride := false, overrideReason := None)))
      else Some(e)
    case None =>
      if change.Some? && apply && change.value.changeType == Added && change.value.proposedItem.Some?
      then Some(Entry(Stored(change.value.proposedItem.value.body), UNTRACKED))
      else None
  }

  /** Additions are new codes and everything else is about a code of the baseline. */
  ghost predicate ChangesFit(items: seq<Item>, changes: seq<Change>) {
    && DistinctChanges(changes)
    && forall c | c in changes :: c.changeType == Added <==> FindItem(items, c.code).None?
  }

  lemma {:induction false} SurvivorsMembers(items: seq<Item>, changes: seq<Change>, decisions: Decisions)
    requires DistinctItems(items)
    ensures DistinctItems(Survivors(items, changes, decisions))
    ensures forall k :: k in Survivors(items, changes, decisions) <==> k in items && Survives(k, changes, decisions)
  {
    if items == [] {
    } else {
      var front, last := items[..|items| - 1], items[|items| - 1];
      SurvivorsMembers(front, changes, decisions);
      assert items == front + [last];
      forall k | k in Survivors(front, changes, decisions) ensures k.code != last.code {
        assert k in front;
      }
    }
  }

  lemma {:induction false} CopiesAt(
    kept: seq<Item>, changes: seq<Change>, decisions: Decisions, version: nat, firstId: nat)
    ensures forall i :: 0 <= i < |kept| ==>
              Copies(kept, changes, decisions, version, firstId)[i] ==
              CloneItem(firstId + i, version, kept[i], Replacement(kept[i], changes, decisions))
  {
    if kept == [] {
    } else {
      CopiesAt(kept[..|kept| - 1], changes, decisions, version, firstId);
    }
  }

  ghost predicate SameCodes(rows: seq<Item>, others: seq<Item>) {
    |rows| == |others| && forall i :: 0 <= i < |rows| ==> rows[i].code == others[i].code
  }

  lemma {:induction false} CopiesNumbered(
    kept: seq<Item>, changes: seq<Change>, decisions: Decisions, version: nat, firstId: nat)
    ensures Numbered(Copies(kept, changes, decisions, version, firstId), firstId)
    ensures SameCodes(Copies(kept, changes, decisions, version, firstId), kept)
  {
    if kept == [] {
    } else {
      CopiesNumbered(kept[..|kept| - 1], changes, decisions, version, firstId);
    }
  }

  predicate AcceptedAddition(changes: seq<Change>, i: nat, decisions: Decisions)
    requires i < |changes|
  {
    changes[i].changeType == Added && Applies(decisions, Some(i)) && changes[i].proposedItem.Some?
  }

  ghost predicate IsCopyOf(row: Item, item: Item, changes: seq<Change>, decisions: Decisions, version: nat) {
    && Survives(item, changes, decisions)
    && row == CloneItem(row.id, version, item, Replacement(item, changes, decisions))
  }

  ghost predicate IsAdditionOf(row: Item, change: Change, version: nat) {
    && change.proposedItem.Some?
    && row == NewItem(row.id, change.code, version, change.proposedItem.value.body)
  }

  ghost predicate Numbered(rows: seq<Item>, firstId: nat) {
    forall k :: 0 <= k < |rows| ==> rows[k].id == firstId + k
  }

  lemma {:induction false} AdditionsNumbered(
    changes: seq<Change>, n: nat, decisions: Decisions, version: nat, firstId: nat)
    requires n <= |changes|
    ensures Numbered(Additions(changes, n, decisions, version, firstId), firstId)
  {
    if n == 0 {
    } else {
      AdditionsNumbered(changes, n - 1, decisions, version, firstId);
    }
  }

  lemma {:induction false} AdditionHasSource(
    changes: seq<Change>, n: nat, decisions: Decisions, version: nat, firstId: nat, row: Item)
    requires n <= |changes|
    requires row in Additions(changes, n, decisions, version, firstId)
    ensures exists i :: 0 <= i < n && AcceptedAddition(changes, i, decisions) && IsAdditionOf(row, changes[i], version)
  {
    if n == 0 {
    } else {
      if row in Additions(changes, n - 1, decisions, version, firstId) {
        AdditionHasSource(changes, n - 1, decisions, version, firstId, row);
      } else {
        assert AcceptedAddition(changes, n - 1, decisions) && IsAdditionOf(row, changes[n - 1], version);
      }
    }
  }

  lemma {:induction false} AcceptedIsAdded(
    changes: seq<Change>, n: nat, decisions: Decisions, version: nat, firstId: nat, i: nat)
    requires i < n <= |changes| && AcceptedAddition(changes, i, decisions)
    ensures exists row :: row in Additions(changes, n, decisions, version, firstId) && IsAdditionOf(row, changes[i], version)
  {
    var added := Additions(changes, n, decisions, version, firstId);
    if i == n - 1 {
      assert added[|added| - 1] in added && IsAdditionOf(added[|added| - 1], changes[i], version);
    } else {
      AcceptedIsAdded(changes, n - 1, decisions, version, firstId, i);
      var row :| row in Additions(changes, n - 1, decisions, version, firstId) && IsAdditionOf(row, changes[i], version);
      assert row in added;
    }
  }

  lemma {:induction false} AdditionsDistinct(
    changes: seq<Change>, n: nat, decisions: Decisions, version: nat, firstId: nat)
    requires n <= |changes| && DistinctChanges(changes)
    ensures DistinctItems(Additions(changes, n, decisions, version, firstId))
  {
    if n == 0 {
    } else {
      AdditionsDistinct(changes, n - 1, decisions, version, firstId);
      forall row | row in Additions(changes, n - 1, decisions, version, firstId) ensures row.code != changes[n - 1].code {
        AdditionHasSource(changes, n - 1, decisions, version, firstId, row);
      }
    }
  }

  /** Everything a set after a patch contains. */
  lemma PatchedRowHasSource(
    items: seq<Item>, changes: seq<Change>, decisions: Decisions, version: nat, firstId: nat, row: Item)
    requires DistinctItems(items)
    requires row in Patch(items, changes, decisions, version, firstId)
    ensures || (exists item :: item in items && IsCopyOf(row, item, changes, decisions, version))
            || (exists i :: 0 <= i < |changes| && AcceptedAddition(changes, i, decisions) && IsAdditionOf(row, changes[i], version))
  {
    var kept := Survivors(items, changes, decisions);
    if row in Copies(kept, changes, decisions, version, firstId) {
      CopyHasSource(items, changes, decisions, version, firstId, row);
    } else {
      AdditionHasSource(changes, |changes|, decisions, version, firstId + |kept|, row);
    }
  }

  lemma CopyHasSource(
    items: seq<Item>, changes: seq<Change>, decisions: Decisions, version: nat, firstId: nat, row: Item)
    requires DistinctItems(items)
    requires row in Copies(Survivors(items, changes, decisions), changes, decisions, version, firstId)
    ensures exists item :: item in items && IsCopyOf(row, item, changes, decisions, version)
  {
    var kept := Survivors(items, changes, decisions);
    SurvivorsMembers(items, changes, decisions);
    CopiesAt(kept, changes, decisions, version, firstId);
    var i :| 0 <= i < |kept| && Copies(kept, changes, decisions, version, firstId)[i] == row;
    assert kept[i] in kept;
    assert IsCopyOf(row, kept[i], changes, decisions, version);
  }

  lemma JoinDistinct(first: seq<Item>, second: seq<Item>)
    requires DistinctItems(first) && DistinctItems(second)
    requires forall a, b | a in first && b in second :: a.code != b.code
    ensures DistinctItems(first + second)
  {
    forall i, j | 0 <= i < j < |first + second| ensures (first + second)[i].code != (first + second)[j].code {
      if i < |first| <= j {
        assert first[i] in first && second[j - |first|] in second;
      }
    }
  }

  lemma AdditionIsNew(
    items: seq<Item>, changes: seq<Change>, decisions: Decisions, version: nat, firstId: nat, row: Item)
    requires ChangesFit(items, changes) && row in Additions(changes, |changes|, decisions, version, firstId)
    ensures FindItem(items, row.code).None?
  {
    AdditionHasSource(changes, |changes|, decisions, version, firstId, row);
    var c :| 0 <= c < |changes| && AcceptedAddition(changes, c, decisions) && IsAdditionOf(row, changes[c], version);
    assert changes[c] in changes;
  }

  lemma CopyIsOld(
    items: seq<Item>, changes: seq<Change>, decisions: Decisions, version: nat, firstId: nat, row: Item)
    requires DistinctItems(items)
    requires row in Copies(Survivors(items, changes, decisions), changes, decisions, version, firstId)
    ensures FindItem(items, row.code).Some?
  {
    var kept := Survivors(items, changes, decisions);
    SurvivorsMembers(items, changes, decisions);
    CopiesNumbered(kept, changes, decisions, version, firstId);
    var i :| 0 <= i < |kept| && Copies(kept, changes, decisions, version, firstId)[i] == row;
    assert kept[i] in kept && kept[i].code == row.code;
  }

  /** No code occurs twice after a patch. */
  lemma PatchDistinct(items: seq<Item>, changes: seq<Change>, decisions: Decisions, version: nat, firstId: nat)
    requires DistinctItems(items) && ChangesFit(items, changes)
    ensures DistinctItems(Patch(items, changes, decisions, version, firstId))
  {
    var kept := Survivors(items, changes, decisions);
    var copies := Copies(kept, changes, decisions, version, firstId);
    var added := Additions(changes, |changes|, decisions, version, firstId + |kept|);
    CopiesDistinct(items, changes, decisions, version, firstId);
    AdditionsDistinct(changes, |changes|, decisions, version, firstId + |kept|);
    forall a | a in copies ensures FindItem(items, a.code).Some? {
      CopyIsOld(items, changes, decisions, version, firstId, a);
    }
    forall b | b in added ensures FindItem(items, b.code).None? {
      AdditionIsNew(items, changes, decisions, version, firstId + |kept|, b);
    }
    JoinDistinct(copies, added);
  }

  lemma CopiesDistinct(items: seq<Item>, changes: seq<Change>, decisions: Decisions, version: nat, firstId: nat)
    requires DistinctItems(items)
    ensures DistinctItems(Copies(Survivors(items, changes, decisions), changes, decisions, version, firstId))
  {
    SurvivorsMembers(items, changes, decisions);
    CopiesNumbered(Survivors(items, changes, decisions), changes, decisions, version, firstId);
  }

  /** The rows of a patch are numbered in order. */
  lemma PatchNumbered(items: seq<Item>, changes: seq<Change>, decisions: Decisions, version: nat, firstId: nat)
    ensures Numbered(Patch(items, changes, decisions, version, firstId), firstId)
  {
    var kept := Survivors(items, changes, decisions);
    CopiesNumbered(kept, changes, decisions, version, firstId);
    AdditionsNumbered(changes, |changes|, decisions, version, firstId + |kept|);
  }

  /** The result at each code depends only on that code's item, change and decision. */
  lemma PatchIsPointwise(
    items: seq<Item>, changes: seq<Change>, decisions: Decisions, version: nat, firstId: nat, code: string)
    requires DistinctItems(items) && ChangesFit(items, changes)
    ensures EntryAt(Patch(items, changes, decisions, version, firstId), code) ==
            PatchAt(EntryAt(items, code), ChangeAt(changes, code), Applies(decisions, FindChange(changes, code)))
  {
    var result := Patch(items, changes, decisions, version, firstId);
    match FindItem(items, code)
    case Some(item) =>
      if Survives(item, changes, decisions) {
        CopyPresent(items, changes, decisions, version, firstId, item);
      } else if FindItem(result, code).Some? {
        NoOtherSource(items, changes, decisions, version, firstId, FindItem(result, code).value);
      }
    case None =>
      var change := FindChange(changes, code);
      if change.Some? && AcceptedAddition(changes, change.value, decisions) {
        AdditionPresent(items, changes, decisions, version, firstId, change.value);
      } else if FindItem(result, code).Some? {
        NoOtherSource(items, changes, decisions, version, firstId, FindItem(result, code).value);
      }
  }

  lemma CopyPresent(
    items: seq<Item>, changes: seq<Change>, decisions: Decisions, version: nat, firstId: nat, item: Item)
    requires DistinctItems(items) && ChangesFit(items, changes)
    requires item in items && Survives(item, changes, decisions)
    ensures EntryAt(Patch(items, changes, decisions, version, firstId), item.code) ==
            EntryOf(Some(CloneItem(0, version, item, Replacement(item, changes, decisions))))
  {
    var kept := Survivors(items, changes, decisions);
    SurvivorsMembers(items, changes, decisions);
    CopiesAt(kept, changes, decisions, version, firstId);
    PatchDistinct(items, changes, decisions, version, firstId);
    var result := Patch(items, changes, decisions, version, firstId);
    var i :| 0 <= i < |kept| && kept[i] == item;
    assert result[i] == CloneItem(firstId + i, version, item, Replacement(item, changes, decisions));
    FoundItem(result, result[i]);
  }

  lemma AdditionPresent(
    items: seq<Item>, changes: seq<Change>, decisions: Decisions, version: nat, firstId: nat, i: nat)
    requires DistinctItems(items) && ChangesFit(items, changes)
    requires i < |changes| && AcceptedAddition(changes, i, decisions)
    ensures EntryAt(Patch(items, changes, decisions, version, firstId), changes[i].code) ==
            Some(Entry(Stored(changes[i].proposedItem.value.body), UNTRACKED))
  {
    PatchDistinct(items, changes, decisions, version, firstId);
    var row := AcceptedRow(items, changes, decisions, version, firstId, i);
    EntryOfFound(Patch(items, changes, decisions, version, firstId), row);
  }

  lemma AcceptedRow(
    items: seq<Item>, changes: seq<Change>, decisions: Decisions, version: nat, firstId: nat, i: nat) returns (row: Item)
    requires i < |changes| && AcceptedAddition(changes, i, decisions)
    ensures row in Patch(items, changes, decisions, version, firstId) && IsAdditionOf(row, changes[i], version)
  {
    var kept := Survivors(items, changes, decisions);
    AcceptedIsAdded(changes, |changes|, decisions, version, firstId + |kept|, i);
    row :| row in Additions(changes, |changes|, decisions, version, firstId + |kept|) && IsAdditionOf(row, changes[i], version);
  }

  lemma EntryOfFound(rows: seq<Item>, row: Item)
    requires DistinctItems(rows) && row in rows
    ensures EntryAt(rows, row.code) == Some(Entry(row.columns, row.tracking))
  {
    FoundItem(rows, row);
  }

  lemma NoOtherSource(
    items: seq<Item>, changes: seq<Change>, decisions: Decisions, version: nat, firstId: nat, row: Item)
    requires DistinctItems(items) && ChangesFit(items, changes)
    requires row in Patch(items, changes, decisions, version, firstId)
    ensures match FindItem(items, row.code)
            case Some(item) => Survives(item, changes, decisions)
            case None => FindChange(changes, row.code).Some? &&
                         AcceptedAddition(changes, FindChange(changes, row.code).value, decisions)
  {
    PatchedRowHasSource(items, changes, decisions, version, firstId, row);
    if item :| item in items && IsCopyOf(row, item, changes, decisions, version) {
      FoundItem(items, item);
    } else {
      var i :| 0 <= i < |changes| && AcceptedAddition(changes, i, decisions) && IsAdditionOf(row, changes[i], version);
      FoundChange(changes, i);
      assert changes[i] in changes;
    }
  }

  // ---------------------------------------------------------------- laws of the pair

  lemma DiffFits(items: seq<Item>, candidates: seq<Candidate>)
    requires DistinctItems(items) && DistinctCandidates(candidates)
    ensures ChangesFit(items, Diff(items, candidates))
  {
    DiffMembers(items, candidates);
  }

  ghost predicate AppliesAll(changes: seq<Change>, decisions: Decisions) {
    forall i :: 0 <= i < |changes| ==> Applies(decisions, Some(i))
  }

  ghost predicate AppliesNone(changes: seq<Change>, decisions: Decisions) {
    forall i :: 0 <= i < |changes| ==> !Applies(decisions, Some(i))
  }

  /** Accepting every change yields exactly the proposal: its codes, with its values as stored, except
      that an item already in the baseline keeps the baseline's budget and commercial columns. */
  lemma AcceptAllYieldsProposal(
    items: seq<Item>, candidates: seq<Candidate>, decisions: Decisions, version: nat, firstId: nat, code: string)
    requires DistinctItems(items) && DistinctCandidates(candidates)
    requires AppliesAll(Diff(items, candidates), decisions)
    ensures var result := EntryAt(Patch(items, Diff(items, candidates), decisions, version, firstId), code);
            match FindCandidate(candidates, code)
            case None => result == None
            case Some(c) =>
              && result.Some?
              && (match FindItem(items, code)
                  case None => result.value == Entry(Stored(c.body), UNTRACKED)
                  case Some(item) =>
                    && result.value.columns ==
                       Stored(c.body).(estimatedBudgetCents := item.columns.estimatedBudgetCents)
                    && result.value.tracking.(plannerOverride := item.tracking.plannerOverride,
                                              overrideReason := item.tracking.overrideReason) == item.tracking)
  {
    var changes := Diff(items, candidates);
    DiffFits(items, candidates);
    DiffIsPointwise(items, candidates, code);
    PatchIsPointwise(items, changes, decisions, version, firstId, code);
    assert Applies(decisions, FindChange(changes, code)) <==> FindChange(changes, code).Some?;
    AcceptedEntry(FindItem(items, code), FindCandidate(candidates, code));
  }

  /** Accepting what the comparison says about one code yields that code's proposal. */
  lemma AcceptedEntry(item: Option<Item>, candidate: Option<Candidate>)
    ensures var change := DiffAt(item, candidate);
            var result := PatchAt(EntryOf(item), change, change.Some?);
            match candidate
            case None => result == None
            case Some(c) =>
              && result.Some?
              && (match item
                  case None => result.value == Entry(Stored(c.body), UNTRACKED)
                  case Some(i) =>
                    && result.value.columns == Stored(c.body).(estimatedBudgetCents := i.columns.estimatedBudgetCents)
                    && result.value.tracking.(plannerOverride := i.tracking.plannerOverride,
                                              overrideReason := i.tracking.overrideReason) == i.tracking)
  {
    if item.Some? {
      StoredReadsBack(item.value.columns);
    }
  }

  /** Accepting no change reproduces the baseline, overrides included. */
  lemma RejectAllKeepsBaseline(
    items: seq<Item>, changes: seq<Change>, decisions: Decisions, version: nat, firstId: nat, code: string)
    requires DistinctItems(items) && ChangesFit(items, changes)
    requires AppliesNone(changes, decisions)
    ensures EntryAt(Patch(items, changes, decisions, version, firstId), code) == EntryAt(items, code)
  {
    PatchIsPointwise(items, changes, decisions, version, firstId, code);
  }

  /** Two sets of decisions that agree about one code give the same result at that code. */
  lemma DecisionsActLocally(
    items: seq<Item>, changes: seq<Change>, one: Decisions, other: Decisions, version: nat, firstId: nat, code: string)
    requires DistinctItems(items) && ChangesFit(items, changes)
    requires Applies(one, FindChange(changes, code)) == Applies(other, FindChange(changes, code))
    ensures EntryAt(Patch(items, changes, one, version, firstId), code) ==
            EntryAt(Patch(items, changes, other, version, firstId), code)
  {
    PatchIsPointwise(items, changes, one, version, firstId, code);
    PatchIsPointwise(items, changes, other, version, firstId, code);
  }

  /** Under a computed report, a planner override is lost exactly by an explicit Apply on its own change. */
  lemma OverrideLostExactlyByApply(
    items: seq<Item>, candidates: seq<Candidate>, decisions: Decisions, version: nat, firstId: nat, item: Item)
    requires DistinctItems(items) && DistinctCandidates(candidates)
    requires item in items && item.tracking.plannerOverride
    ensures var changes := Diff(items, candidates);
            var result := EntryAt(Patch(items, changes, decisions, version, firstId), item.code);
            && (Applies(decisions, FindChange(changes, item.code)) ==>
                  result.None? || !result.value.tracking.plannerOverride)
            && (!Applies(decisions, FindChange(changes, item.code)) ==> result == EntryOf(Some(item)))
  {
    DiffFits(items, candidates);
    FoundItem(items, item);
    DiffIsPointwise(items, candidates, item.code);
    PatchIsPointwise(items, Diff(items, candidates), decisions, version, firstId, item.code);
  }

  /** After every change is accepted, comparing the result with the same proposal reports a code again
      exactly when the proposal was not written canonically or asked for a different budget on an item
      that was already there. */
  lemma SecondReportExactly(
    items: seq<Item>, candidates: seq<Candidate>, decisions: Decisions, version: nat, firstId: nat, code: string)
    requires DistinctItems(items) && DistinctCandidates(candidates)
    requires AppliesAll(Diff(items, candidates), decisions)
    ensures var result := Patch(items, Diff(items, candidates), decisions, version, firstId);
            ChangeAt(Diff(result, candidates), code).None? <==>
            (match FindCandidate(candidates, code)
             case None => true
             case Some(c) =>
               && Canonical(c.body) && c.layout == 0
               && (match FindItem(items, code)
                   case None => true
                   case Some(item) => item.columns.estimatedBudgetCents == c.body.estimatedBudgetCents))
  {
    var result := Patch(items, Diff(items, candidates), decisions, version, firstId);
    DiffFits(items, candidates);
    PatchDistinct(items, Diff(items, candidates), decisions, version, firstId);
    AcceptAllYieldsProposal(items, candidates, decisions, version, firstId, code);
    DiffIsPointwise(result, candidates, code);
    match FindCandidate(candidates, code)
    case None =>
    case Some(c) =>
      var row := FindItem(result, code).value;
      RoundTripExactlyWhenCanonical(c.body);
      StoredReadsBack(row.columns);
      if Proposed(row.columns) == c.body {
        assert Stored(Proposed(row.columns)) == Stored(c.body);
      }
  }

  /** Against any baseline, a code that is submitted again goes unreported exactly when the submission is written
      the way the service writes: canonical values, keys in the service's order, and the row's own columns. */
  lemma UnreportedExactly(items: seq<Item>, candidates: seq<Candidate>, code: string, item: Item, c: Candidate)
    requires DistinctItems(items) && DistinctCandidates(candidates)
    requires FindItem(items, code) == Some(item) && FindCandidate(candidates, code) == Some(c)
    ensures ChangeAt(Diff(items, candidates), code).None? <==>
            Canonical(c.body) && c.layout == 0 && Stored(c.body) == item.columns
  {
    DiffIsPointwise(items, candidates, code);
    RoundTripExactlyWhenCanonical(c.body);
    StoredReadsBack(item.columns);
    if Proposed(item.columns) == c.body {
      assert Stored(Proposed(item.columns)) == Stored(c.body);
    }
  }

  /** An item submitted again with exactly its own values is reported as changed, because its keys come in
      another order. */
  lemma OwnValuesReported(item: Item, c: Candidate)
    requires c.code == item.code && c.body == Proposed(item.columns) && c.layout == 1
    requires !item.tracking.plannerOverride
    ensures Stored(c.body) == item.columns
    ensures Diff([item], [c]) == [Change(item.code, Changed, Pending, Some(CurrentItemPayload(item)), Some(CandidatePayload(c)))]
  {
    OneOfEach(item, c);
    StoredReadsBack(item.columns);
    DiffIsPointwise([item], [c], c.code);
    var changes := Diff([item], [c]);
    assert FindChange(changes, c.code) == Some(0);
    assert changes == [changes[0]];
  }

  lemma OneOfEach(item: Item, c: Candidate)
    requires item.code == c.code
    ensures DistinctItems([item]) && DistinctCandidates([c]) && FindItem([item], c.code) == Some(item)
    ensures FindCandidate([c], c.code) == Some(c)
    ensures CurrentItemPayload(item) != CandidatePayload(c) ==> |Diff([item], [c])| == 1 && Diff([item], [c])[0].code == c.code
  {
    assert [item][..0] == [] && [c][..0] == [];
    assert DiffItems([], [c]) == [] && DiffAdded([item], []) == [];
  }

  /** A proposal that raises a budget from 100 to 200 is reported, accepted, and reported again: the baseline's
      budget was kept. */
  lemma AcceptedBudgetReportedAgain(item: Item, c: Candidate, decisions: Decisions, version: nat, firstId: nat)
    requires item.columns.estimatedBudgetCents == Some(100) && item.code == c.code && c.layout == 0
    requires c.body == Proposed(item.columns).(estimatedBudgetCents := Some(200))
    requires decisions == map[0 := Apply]
    ensures AppliesAll(Diff([item], [c]), decisions)
    ensures ChangeAt(Diff(Patch([item], Diff([item], [c]), decisions, version, firstId), [c]), c.code).Some?
  {
    OneOfEach(item, c);
    SecondReportExactly([item], [c], decisions, version, firstId, c.code);
  }
}
