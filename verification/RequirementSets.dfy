/** Requirement sets as values: how a set is created, overridden and patched, and what keeps it sound. */
module RequirementSets {
  import opened Collections
  import opened Digraphs
  import opened DependencyGraph
  import opened SequenceCodes
  import opened RequirementItems
  import opened ImpactPatches

  const CODE_PREFIX := "R-"

  datatype Level = Direct | Calculated | Design

  datatype Dependency = Dependency(source: nat, target: nat, level: Level, description: Option<string>)

  /** A dependency as submitted, between item positions. */
  datatype DependencyInput = DependencyInput(edge: Edge, level: Level, description: Option<string>)

  datatype SetStatus = DraftSet | ReviewedSet | ApprovedSet

  datatype RequirementSet = RequirementSet(
    eventId: nat,
    designId: nat,
    version: nat,
    status: SetStatus,
    items: seq<Item>,
    dependencies: seq<Dependency>)

  ghost function Pairs(dependencies: seq<Dependency>): set<(nat, nat)> {
    set d | d in dependencies :: (d.source, d.target)
  }

  /** No two rows join the same items, which is what the database's unique index demands. */
  ghost predicate DistinctPairs(dependencies: seq<Dependency>) {
    forall i, j :: 0 <= i < j < |dependencies| ==>
      dependencies[i].source != dependencies[j].source || dependencies[i].target != dependencies[j].target
  }

  ghost predicate DistinctIds(items: seq<Item>) {
    forall i, j :: 0 <= i < j < |items| ==> items[i].id != items[j].id
  }

  ghost function Ids(items: seq<Item>): set<nat> {
    set item | item in items :: item.id
  }

  ghost predicate CodesWellFormed(items: seq<Item>) {
    forall item | item in items :: WellFormed(CODE_PREFIX, item.code)
  }

  ghost predicate Joined(dependencies: seq<Dependency>, ids: set<nat>) {
    forall d | d in dependencies :: d.source in ids && d.target in ids
  }

  /** A sound set: unique well-formed codes, unique ids, and dependencies that join items of this very
      set, never twice the same two, and never in a cycle. */
  ghost predicate SetSound(items: seq<Item>, dependencies: seq<Dependency>) {
    && DistinctItems(items)
    && CodesWellFormed(items)
    && DistinctIds(items)
    && Joined(dependencies, Ids(items))
    && DistinctPairs(dependencies)
    && Acyclic(Pairs(dependencies))
  }

  lemma NumberedIsDistinct(items: seq<Item>, firstId: nat)
    requires Numbered(items, firstId)
    ensures DistinctIds(items)
    ensures forall id :: id in Ids(items) <==> firstId <= id < firstId + |items|
  {
    forall id | firstId <= id < firstId + |items| ensures id in Ids(items) {
      assert items[id - firstId] in items && items[id - firstId].id == id;
    }
  }

  // ---------------------------------------------------------------- a new set

  function CreatedItems(proposals: seq<Proposal>, version: nat, firstId: nat): (items: seq<Item>)
    ensures |items| == |proposals|
  {
    if proposals == [] then []
    else
      var n := |proposals|;
      CreatedItems(proposals[..n - 1], version, firstId) +
      [NewItem(firstId + n - 1, Print(CODE_PREFIX, n), version, proposals[n - 1])]
  }

  function CreatedDependency(input: DependencyInput, firstId: nat): Dependency
    requires input.edge.sourceItemNumber >= 1 && input.edge.targetItemNumber >= 1
  {
    Dependency(firstId + input.edge.sourceItemNumber - 1, firstId + input.edge.targetItemNumber - 1,
               input.level, input.description)
  }

  function Edges(inputs: seq<DependencyInput>): (edges: seq<Edge>)
    ensures |edges| == |inputs|
    ensures forall i :: 0 <= i < |inputs| ==> edges[i] == inputs[i].edge
  {
    seq(|inputs|, i requires 0 <= i < |inputs| => inputs[i].edge)
  }

  ghost predicate Positive(inputs: seq<DependencyInput>) {
    forall i :: 0 <= i < |inputs| ==> inputs[i].edge.sourceItemNumber >= 1 && inputs[i].edge.targetItemNumber >= 1
  }

  predicate DistinctEdges(inputs: seq<DependencyInput>) {
    forall i, j :: 0 <= i < j < |inputs| ==> inputs[i].edge != inputs[j].edge
  }

  ghost function CreatedDependencies(inputs: seq<DependencyInput>, firstId: nat): (rows: seq<Dependency>)
    requires Positive(inputs)
    ensures |rows| == |inputs|
    ensures forall i :: 0 <= i < |inputs| ==> rows[i] == CreatedDependency(inputs[i], firstId)
  {
    seq(|inputs|, i requires 0 <= i < |inputs| => CreatedDependency(inputs[i], firstId))
  }

  ghost predicate CodesCountUp(items: seq<Item>) {
    forall i :: 0 <= i < |items| ==> items[i].code == Print(CODE_PREFIX, i + 1)
  }

  lemma {:induction false} CreatedItemsNumbered(proposals: seq<Proposal>, version: nat, firstId: nat)
    ensures Numbered(CreatedItems(proposals, version, firstId), firstId)
    ensures CodesCountUp(CreatedItems(proposals, version, firstId))
  {
    if proposals == [] {
    } else {
      CreatedItemsNumbered(proposals[..|proposals| - 1], version, firstId);
    }
  }

  lemma CountingCodesDistinct(items: seq<Item>)
    requires CodesCountUp(items)
    ensures DistinctItems(items) && CodesWellFormed(items)
  {
    forall i | 0 <= i < |items|
      ensures WellFormed(CODE_PREFIX, items[i].code) && NumberOf(CODE_PREFIX, items[i].code) == Some(i + 1)
    {
      PrintedNumberReadsBack(CODE_PREFIX, i + 1);
    }
  }

  lemma CreatedEnd(itemCount: nat, inputs: seq<DependencyInput>, i: nat)
    requires Judgement(itemCount, Edges(inputs)) == Accepted && i < |inputs|
    ensures InRange(itemCount, inputs[i].edge)
    ensures (inputs[i].edge.sourceItemNumber, inputs[i].edge.targetItemNumber) in Links(Edges(inputs))
  {
    NoFaultMeansWellFormed(itemCount, Edges(inputs));
    assert Edges(inputs)[i] in Edges(inputs);
  }

  ghost function PositionOf(firstId: nat, id: nat): int {
    id - firstId + 1
  }

  lemma CreatedLink(itemCount: nat, inputs: seq<DependencyInput>, firstId: nat, p: (nat, nat))
    requires Judgement(itemCount, Edges(inputs)) == Accepted && Positive(inputs)
    requires p in Pairs(CreatedDependencies(inputs, firstId))
    ensures (PositionOf(firstId, p.0), PositionOf(firstId, p.1)) in Links(Edges(inputs))
  {
    var rows := CreatedDependencies(inputs, firstId);
    var d :| d in rows && p == (d.source, d.target);
    var i :| 0 <= i < |rows| && rows[i] == d;
    CreatedEnd(itemCount, inputs, i);
  }

  lemma CreatedAcyclic(itemCount: nat, inputs: seq<DependencyInput>, firstId: nat)
    requires Judgement(itemCount, Edges(inputs)) == Accepted && Positive(inputs)
    ensures Acyclic(Pairs(CreatedDependencies(inputs, firstId)))
  {
    var pairs := Pairs(CreatedDependencies(inputs, firstId));
    var ends := (set p | p in pairs :: p.0) + (set p | p in pairs :: p.1);
    var naming: map<nat, int> := map id | id in ends :: PositionOf(firstId, id);
    forall p | p in pairs
      ensures p.0 in naming && p.1 in naming && (naming[p.0], naming[p.1]) in Links(Edges(inputs))
    {
      CreatedLink(itemCount, inputs, firstId, p);
    }
    ImageAcyclicImpliesAcyclic(pairs, Links(Edges(inputs)), naming);
  }

  /** A set made from a graph that passed the check, with no dependency given twice, is sound. */
  lemma CreatedSetSound(proposals: seq<Proposal>, inputs: seq<DependencyInput>, version: nat, firstId: nat)
    requires Judgement(|proposals|, Edges(inputs)) == Accepted
    requires Positive(inputs) && DistinctEdges(inputs)
    ensures SetSound(CreatedItems(proposals, version, firstId), CreatedDependencies(inputs, firstId))
  {
    var items, rows := CreatedItems(proposals, version, firstId), CreatedDependencies(inputs, firstId);
    CreatedItemsNumbered(proposals, version, firstId);
    CountingCodesDistinct(items);
    NumberedIsDistinct(items, firstId);
    forall d | d in rows ensures d.source in Ids(items) && d.target in Ids(items) {
      var i :| 0 <= i < |rows| && rows[i] == d;
      CreatedEnd(|proposals|, inputs, i);
    }
    CreatedAcyclic(|proposals|, inputs, firstId);
  }

  // ---------------------------------------------------------------- carrying dependencies over

  /** New ids of the items that are carried over, by old id. */
  function Naming(kept: seq<Item>, firstId: nat): map<nat, nat> {
    if kept == [] then map[]
    else Naming(kept[..|kept| - 1], firstId)[kept[|kept| - 1].id := firstId + |kept| - 1]
  }

  /** The dependencies both of whose ends are carried over, under the new ids. */
  function Carried(dependencies: seq<Dependency>, naming: map<nat, nat>): seq<Dependency> {
    if dependencies == [] then []
    else
      var last := dependencies[|dependencies| - 1];
      Carried(dependencies[..|dependencies| - 1], naming) +
      (if last.source in naming && last.target in naming
       then [last.(source := naming[last.source], target := naming[last.target])]
       else [])
  }

  ghost predicate Injective(naming: map<nat, nat>) {
    forall a, b :: a in naming && b in naming && naming[a] == naming[b] ==> a == b
  }

  lemma {:induction false} NamedAt(kept: seq<Item>, firstId: nat, i: nat)
    requires DistinctIds(kept) && i < |kept|
    ensures kept[i].id in Naming(kept, firstId) && Naming(kept, firstId)[kept[i].id] == firstId + i
  {
    if i == |kept| - 1 {
    } else {
      NamedAt(kept[..|kept| - 1], firstId, i);
    }
  }

  lemma {:induction false} NamedHasItem(kept: seq<Item>, firstId: nat, id: nat)
    requires id in Naming(kept, firstId)
    ensures exists i :: 0 <= i < |kept| && kept[i].id == id
  {
    if id != kept[|kept| - 1].id {
      var front := kept[..|kept| - 1];
      NamedHasItem(front, firstId, id);
      var i :| 0 <= i < |front| && front[i].id == id;
      assert kept[i].id == id;
    }
  }

  lemma NamingFacts(kept: seq<Item>, firstId: nat)
    requires DistinctIds(kept)
    ensures Naming(kept, firstId).Keys == Ids(kept)
    ensures forall i :: 0 <= i < |kept| ==> kept[i].id in Naming(kept, firstId) && Naming(kept, firstId)[kept[i].id] == firstId + i
    ensures Injective(Naming(kept, firstId))
    ensures forall id | id in Naming(kept, firstId) :: firstId <= Naming(kept, firstId)[id] < firstId + |kept|
  {
    var naming := Naming(kept, firstId);
    forall i | 0 <= i < |kept| ensures kept[i].id in naming && naming[kept[i].id] == firstId + i {
      NamedAt(kept, firstId, i);
    }
    forall id | id in naming ensures exists i :: 0 <= i < |kept| && kept[i].id == id {
      NamedHasItem(kept, firstId, id);
    }
  }

  /** The carried dependencies are exactly the image of those between carried items: the subgraph induced
      on them, under the renaming. */
  lemma {:induction false} CarriedIsInduced(dependencies: seq<Dependency>, naming: map<nat, nat>)
    ensures forall d :: d in Carried(dependencies, naming) <==>
              exists o :: o in dependencies && o.source in naming && o.target in naming &&
                          d == o.(source := naming[o.source], target := naming[o.target])
  {
    if dependencies == [] {
    } else {
      var front, last := dependencies[..|dependencies| - 1], dependencies[|dependencies| - 1];
      CarriedIsInduced(front, naming);
      assert dependencies == front + [last];
    }
  }

  lemma {:induction false} CarriedDistinct(dependencies: seq<Dependency>, naming: map<nat, nat>)
    requires DistinctPairs(dependencies) && Injective(naming)
    ensures DistinctPairs(Carried(dependencies, naming))
  {
    if dependencies == [] {
    } else {
      var front, last := dependencies[..|dependencies| - 1], dependencies[|dependencies| - 1];
      CarriedDistinct(front, naming);
      CarriedIsInduced(front, naming);
      forall d | d in Carried(front, naming) && last.source in naming && last.target in naming
        ensures d.source != naming[last.source] || d.target != naming[last.target]
      {
        var o :| o in front && o.source in naming && o.target in naming &&
                 d == o.(source := naming[o.source], target := naming[o.target]);
        var i :| 0 <= i < |front| && front[i] == o;
        assert dependencies[i] == o;
      }
    }
  }

  ghost function OldId(kept: seq<Item>, firstId: nat, id: nat): nat
    requires firstId <= id < firstId + |kept|
  {
    kept[id - firstId].id
  }

  lemma CarriedAcyclic(dependencies: seq<Dependency>, kept: seq<Item>, firstId: nat)
    requires DistinctIds(kept) && Acyclic(Pairs(dependencies))
    ensures Acyclic(Pairs(Carried(dependencies, Naming(kept, firstId))))
  {
    var naming := Naming(kept, firstId);
    var carried := Carried(dependencies, naming);
    NamingFacts(kept, firstId);
    var back: map<nat, nat> := map n | n in naming.Values :: OldId(kept, firstId, n);
    CarriedPairsAreInduced(dependencies, naming);
    forall id | id in naming ensures naming[id] in back && back[naming[id]] == id {
      NamedHasItem(kept, firstId, id);
    }
    forall p | p in Pairs(carried)
      ensures p.0 in back && p.1 in back && (back[p.0], back[p.1]) in Pairs(dependencies)
    {
      var q :| q in Pairs(dependencies) && q.0 in naming && q.1 in naming && p == (naming[q.0], naming[q.1]);
    }
    ImageAcyclicImpliesAcyclic(Pairs(carried), Pairs(dependencies), back);
  }

  /** Carrying a subset of sound dependencies over keeps them joined, distinct and free of cycles. */
  lemma CarriedSound(dependencies: seq<Dependency>, kept: seq<Item>, firstId: nat, rows: seq<Item>)
    requires DistinctIds(kept) && DistinctPairs(dependencies) && Acyclic(Pairs(dependencies))
    requires Numbered(rows, firstId) && |kept| <= |rows|
    ensures var carried := Carried(dependencies, Naming(kept, firstId));
            Joined(carried, Ids(rows)) && DistinctPairs(carried) && Acyclic(Pairs(carried))
  {
    var naming := Naming(kept, firstId);
    NamingFacts(kept, firstId);
    NumberedIsDistinct(rows, firstId);
    CarriedDistinct(dependencies, naming);
    CarriedAcyclic(dependencies, kept, firstId);
    forall d | d in Carried(dependencies, naming) ensures d.source in Ids(rows) && d.target in Ids(rows) {
      CarriedIsInduced(dependencies, naming);
    }
  }

  // ---------------------------------------------------------------- overriding a quantity

  function Overridden(id: nat, item: Item, isOverride: bool, quantity: real, reason: string): Item {
    var copy := CloneItem(id, 0, item, None);
    if isOverride
    then copy.(columns := copy.columns.(quantityRequired := quantity, quantitySource := PlannerOverride),
               tracking := copy.tracking.(plannerOverride := true, overrideReason := Some(reason)))
    else copy
  }

  function OverriddenItems(items: seq<Item>, code: string, quantity: real, reason: string, firstId: nat): (rows: seq<Item>)
    ensures |rows| == |items|
  {
    if items == [] then []
    else
      var last := items[|items| - 1];
      OverriddenItems(items[..|items| - 1], code, quantity, reason, firstId) +
      [Overridden(firstId + |items| - 1, last, last.code == code, quantity, reason)]
  }

  lemma {:induction false} OverriddenNumbered(items: seq<Item>, code: string, quantity: real, reason: string, firstId: nat)
    ensures Numbered(OverriddenItems(items, code, quantity, reason, firstId), firstId)
    ensures SameCodes(OverriddenItems(items, code, quantity, reason, firstId), items)
  {
    if items == [] {
    } else {
      OverriddenNumbered(items[..|items| - 1], code, quantity, reason, firstId);
    }
  }

  lemma OverriddenSetSound(
    items: seq<Item>, dependencies: seq<Dependency>, code: string, quantity: real, reason: string, firstId: nat)
    requires SetSound(items, dependencies)
    ensures SetSound(OverriddenItems(items, code, quantity, reason, firstId), Carried(dependencies, Naming(items, firstId)))
  {
    var rows := OverriddenItems(items, code, quantity, reason, firstId);
    OverriddenNumbered(items, code, quantity, reason, firstId);
    NumberedIsDistinct(rows, firstId);
    CarriedSound(dependencies, items, firstId, rows);
    forall row | row in rows ensures WellFormed(CODE_PREFIX, row.code) {
      var i :| 0 <= i < |rows| && rows[i] == row;
      assert items[i] in items;
    }
  }

  /** An override copies the dependency graph isomorphically: the renaming is one-to-one onto the new
      rows, and two items are joined exactly when their copies are. */
  lemma OverrideIsIsomorphic(items: seq<Item>, dependencies: seq<Dependency>, firstId: nat)
    requires SetSound(items, dependencies)
    ensures var naming := Naming(items, firstId);
            && naming.Keys == Ids(items) && Injective(naming)
            && |Carried(dependencies, naming)| == |dependencies|
            && (forall a, b | a in naming && b in naming ::
                  (a, b) in Pairs(dependencies) <==> (naming[a], naming[b]) in Pairs(Carried(dependencies, naming)))
  {
    var naming := Naming(items, firstId);
    NamingFacts(items, firstId);
    AllCarried(dependencies, naming);
    CarriedIsInduced(dependencies, naming);
    forall a, b | a in naming && b in naming
      ensures (a, b) in Pairs(dependencies) <==> (naming[a], naming[b]) in Pairs(Carried(dependencies, naming))
    {
      if (a, b) in Pairs(dependencies) {
        var o :| o in dependencies && (o.source, o.target) == (a, b);
        assert o.(source := naming[a], target := naming[b]) in Carried(dependencies, naming);
      }
      if (naming[a], naming[b]) in Pairs(Carried(dependencies, naming)) {
        var d :| d in Carried(dependencies, naming) && (d.source, d.target) == (naming[a], naming[b]);
      }
    }
  }

  lemma {:induction false} AllCarried(dependencies: seq<Dependency>, naming: map<nat, nat>)
    requires Joined(dependencies, naming.Keys)
    ensures |Carried(dependencies, naming)| == |dependencies|
    ensures forall i :: 0 <= i < |dependencies| ==>
              dependencies[i].source in naming && dependencies[i].target in naming &&
              Carried(dependencies, naming)[i] ==
              dependencies[i].(source := naming[dependencies[i].source], target := naming[dependencies[i].target])
  {
    if dependencies == [] {
    } else {
      var front, last := dependencies[..|dependencies| - 1], dependencies[|dependencies| - 1];
      assert last in dependencies;
      assert forall d | d in front :: d in dependencies;
      AllCarried(front, naming);
    }
  }

  /** Everything an override says about a code other than the overridden one is unchanged; at that code
      only the quantity, its source and the override mark change. */
  lemma {:induction false} OverrideTouchesOneCode(
    items: seq<Item>, code: string, quantity: real, reason: string, firstId: nat, i: nat)
    requires i < |items|
    ensures var row := OverriddenItems(items, code, quantity, reason, firstId)[i];
            if items[i].code == code then
              && row.columns == items[i].columns.(quantityRequired := quantity, quantitySource := PlannerOverride)
              && row.tracking == items[i].tracking.(plannerOverride := true, overrideReason := Some(reason))
            else EntryOf(Some(row)) == EntryOf(Some(items[i]))
  {
    if i < |items| - 1 {
      OverrideTouchesOneCode(items[..|items| - 1], code, quantity, reason, firstId, i);
    }
  }

  // ---------------------------------------------------------------- applying a report

  /** What a report must keep for its application to be sound. */
  ghost predicate ReportSound(items: seq<Item>, changes: seq<Change>) {
    && ChangesFit(items, changes)
    && forall c | c in changes :: WellFormed(CODE_PREFIX, c.code)
  }

  lemma PatchedSetSound(
    items: seq<Item>, dependencies: seq<Dependency>, changes: seq<Change>, decisions: Decisions, version: nat, firstId: nat)
    requires SetSound(items, dependencies) && ReportSound(items, changes)
    ensures SetSound(Patch(items, changes, decisions, version, firstId),
                     Carried(dependencies, Naming(Survivors(items, changes, decisions), firstId)))
  {
    var rows := Patch(items, changes, decisions, version, firstId);
    PatchDistinct(items, changes, decisions, version, firstId);
    PatchNumbered(items, changes, decisions, version, firstId);
    NumberedIsDistinct(rows, firstId);
    SurvivorIds(items, changes, decisions);
    CarriedSound(dependencies, Survivors(items, changes, decisions), firstId, rows);
    forall row | row in rows ensures WellFormed(CODE_PREFIX, row.code) {
      PatchedCodeWellFormed(items, changes, decisions, version, firstId, row);
    }
  }

  lemma PatchedCodeWellFormed(
    items: seq<Item>, changes: seq<Change>, decisions: Decisions, version: nat, firstId: nat, row: Item)
    requires DistinctItems(items) && CodesWellFormed(items) && ReportSound(items, changes)
    requires row in Patch(items, changes, decisions, version, firstId)
    ensures WellFormed(CODE_PREFIX, row.code)
  {
    PatchedRowHasSource(items, changes, decisions, version, firstId, row);
    if i :| 0 <= i < |changes| && AcceptedAddition(changes, i, decisions) && IsAdditionOf(row, changes[i], version) {
      assert changes[i] in changes;
    }
  }

  lemma {:induction false} SurvivorIds(items: seq<Item>, changes: seq<Change>, decisions: Decisions)
    requires DistinctIds(items)
    ensures DistinctIds(Survivors(items, changes, decisions))
    ensures forall k | k in Survivors(items, changes, decisions) :: k in items
  {
    if items == [] {
    } else {
      var front, last := items[..|items| - 1], items[|items| - 1];
      SurvivorIds(front, changes, decisions);
      forall k | k in Survivors(front, changes, decisions) ensures k.id != last.id {
        var i :| 0 <= i < |front| && front[i] == k;
        assert items[i] == k;
      }
    }
  }

  /** A naming gives an image to exactly the items that survive. */
  lemma NamedExactlySurvivors(items: seq<Item>, changes: seq<Change>, decisions: Decisions, firstId: nat)
    requires DistinctItems(items) && DistinctIds(items)
    ensures var naming := Naming(Survivors(items, changes, decisions), firstId);
            Injective(naming) && forall item | item in items :: item.id in naming <==> Survives(item, changes, decisions)
  {
    var kept := Survivors(items, changes, decisions);
    SurvivorIds(items, changes, decisions);
    SurvivorsMembers(items, changes, decisions);
    NamingFacts(kept, firstId);
    forall item | item in items
      ensures item.id in Naming(kept, firstId) <==> Survives(item, changes, decisions)
    {
      SameIdSameItem(items, kept, item);
    }
  }

  lemma SameIdSameItem(items: seq<Item>, kept: seq<Item>, item: Item)
    requires DistinctIds(items) && item in items && forall k | k in kept :: k in items
    ensures item.id in Ids(kept) <==> item in kept
  {
    if item.id in Ids(kept) {
      var k :| k in kept && k.id == item.id;
      var i :| 0 <= i < |items| && items[i] == item;
      var j :| 0 <= j < |items| && items[j] == k;
    }
  }

  ghost function InducedPairs(pairs: set<(nat, nat)>, naming: map<nat, nat>): set<(nat, nat)> {
    set p | p in pairs && p.0 in naming && p.1 in naming :: (naming[p.0], naming[p.1])
  }

  /** Applying a report keeps exactly the dependencies between items that survive. */
  lemma CarriedPairsAreInduced(dependencies: seq<Dependency>, naming: map<nat, nat>)
    ensures Pairs(Carried(dependencies, naming)) == InducedPairs(Pairs(dependencies), naming)
  {
    CarriedIsInduced(dependencies, naming);
    forall p | p in Pairs(Carried(dependencies, naming)) ensures p in InducedPairs(Pairs(dependencies), naming) {
      var d :| d in Carried(dependencies, naming) && (d.source, d.target) == p;
      var o :| o in dependencies && o.source in naming && o.target in naming &&
               d == o.(source := naming[o.source], target := naming[o.target]);
      assert (o.source, o.target) in Pairs(dependencies);
    }
    forall p | p in InducedPairs(Pairs(dependencies), naming) ensures p in Pairs(Carried(dependencies, naming)) {
      var q :| q in Pairs(dependencies) && q.0 in naming && q.1 in naming && p == (naming[q.0], naming[q.1]);
      var o :| o in dependencies && (o.source, o.target) == q;
      assert o.(source := naming[o.source], target := naming[o.target]) in Carried(dependencies, naming);
    }
  }
}
