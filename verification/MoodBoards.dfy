/** Mood boards: numbering of objects, revisions that must keep locked objects, and comparison. */
module MoodBoards {
  import opened Collections
  import opened SequenceCodes
  import RI = RequirementItems

  const KEY_PREFIX := "OBJ-"

  datatype Source = Marketplace | PlannerLibrary | ClientUpload | AiConcept

  datatype ObjectInput = ObjectInput(
    objectKey: Option<string>,
    itemId: nat,
    name: string,
    source: Source,
    sourceReferenceId: string,
    supplierName: Option<string>,
    listingId: Option<string>,
    imageUrl: string,
    locked: Option<bool>,
    presentation: Option<RI.Json>,
    sortOrder: Option<nat>)

  datatype SceneInput = SceneInput(sceneKey: string, objects: seq<ObjectInput>)

  datatype BoardInput = BoardInput(requirementSetId: nat, basedOn: Option<nat>, scenes: seq<SceneInput>)

  /** A stored row; its scene is named by the scene's key, which is unique within a board. */
  datatype BoardObject = BoardObject(
    objectKey: string,
    sceneKey: string,
    itemId: nat,
    requirementCode: string,
    name: string,
    source: Source,
    sourceReferenceId: string,
    supplierName: Option<string>,
    listingId: Option<string>,
    imageUrl: string,
    locked: bool,
    presentation: Option<nat>,
    sortOrder: nat)

  datatype Board = Board(eventId: nat, requirementSetId: nat, basedOn: Option<nat>, sceneKeys: seq<string>, objects: seq<BoardObject>)

  /** The part of a requirement set that boards look at: its event, its approval and the codes of its items. */
  datatype ItemCodes = ItemCodes(eventId: nat, approved: bool, codes: map<nat, string>)

  datatype Outcome = Done | BadRequest | Conflict | UniqueViolation

  /** What two versions of an object are compared by: the fields whose serialisation is compared. */
  datatype Signature = Signature(
    requirementCode: string,
    name: string,
    source: Source,
    sourceReferenceId: string,
    supplierName: Option<string>,
    listingId: Option<string>,
    imageUrl: string,
    locked: bool,
    presentation: Option<RI.Json>,
    sortOrder: nat)

  function ObjectSignature(o: BoardObject): Signature {
    Signature(o.requirementCode, o.name, o.source, o.sourceReferenceId, o.supplierName, o.listingId, o.imageUrl,
              o.locked, RI.JsonRead(o.presentation), o.sortOrder)
  }

  function InputSignature(o: ObjectInput, requirementCode: string): Signature {
    Signature(requirementCode, o.name, o.source, o.sourceReferenceId, o.supplierName, o.listingId, o.imageUrl,
              o.locked.GetOr(false), o.presentation, o.sortOrder.GetOr(0))
  }

  function Code(codes: map<nat, string>, itemId: nat): string {
    if itemId in codes then codes[itemId] else ""
  }

  function NewObject(sceneKey: string, o: ObjectInput, objectKey: string, requirementCode: string): BoardObject {
    BoardObject(objectKey, sceneKey, o.itemId, requirementCode, o.name, o.source, o.sourceReferenceId,
                o.supplierName, o.listingId, o.imageUrl, o.locked.GetOr(false), RI.JsonValue(o.presentation),
                o.sortOrder.GetOr(0))
  }

  // ---------------------------------------------------------------- the input, scene by scene

  datatype Placed = Placed(sceneKey: string, input: ObjectInput)

  function Place(sceneKey: string, objects: seq<ObjectInput>): (placed: seq<Placed>)
    ensures |placed| == |objects| && forall i :: 0 <= i < |objects| ==> placed[i] == Placed(sceneKey, objects[i])
  {
    seq(|objects|, i requires 0 <= i < |objects| => Placed(sceneKey, objects[i]))
  }

  function Flat(scenes: seq<SceneInput>): (placed: seq<Placed>)
    ensures forall i :: 0 <= i < |placed| ==> placed[i].sceneKey in SceneKeys(scenes)
  {
    if scenes == [] then []
    else
      assert forall key :: key in SceneKeys(scenes[1..]) ==> key in SceneKeys(scenes);
      assert scenes[0].sceneKey == SceneKeys(scenes)[0];
      Place(scenes[0].sceneKey, scenes[0].objects) + Flat(scenes[1..])
  }

  function SceneKeys(scenes: seq<SceneInput>): (keys: seq<string>)
    ensures |keys| == |scenes| && forall i :: 0 <= i < |scenes| ==> keys[i] == scenes[i].sceneKey
  {
    seq(|scenes|, i requires 0 <= i < |scenes| => scenes[i].sceneKey)
  }

  function Keys(placed: seq<Placed>): (keys: seq<Option<string>>)
    ensures |keys| == |placed| && forall i :: 0 <= i < |placed| ==> keys[i] == placed[i].input.objectKey
  {
    seq(|placed|, i requires 0 <= i < |placed| => placed[i].input.objectKey)
  }

  function Supplied(keys: seq<Option<string>>): (supplied: seq<string>)
    ensures forall key :: key in supplied <==> Some(key) in keys
  {
    if keys == [] then []
    else (if keys[0].Some? then [keys[0].value] else []) + Supplied(keys[1..])
  }

  /** What request validation lets through: supplied keys have the printed shape. */
  ghost predicate ValidInput(input: BoardInput) {
    SuppliedWellFormed(Flat(input.scenes))
  }

  predicate SuppliedWellFormed(placed: seq<Placed>) {
    forall i :: 0 <= i < |placed| && placed[i].input.objectKey.Some? ==> WellFormed(KEY_PREFIX, placed[i].input.objectKey.value)
  }

  /** The largest number among the supplied keys. */
  function HighestSupplied(placed: seq<Placed>): (top: nat)
    requires SuppliedWellFormed(placed)
    ensures forall i :: 0 <= i < |placed| && placed[i].input.objectKey.Some? ==>
              Number(KEY_PREFIX, placed[i].input.objectKey.value) <= top
  {
    var keys := Keys(placed);
    var supplied := Supplied(keys);
    assert forall key :: key in supplied ==> Some(key) in keys && WellFormed(KEY_PREFIX, key);
    assert forall i :: 0 <= i < |supplied| ==> supplied[i] in supplied;
    assert forall i :: 0 <= i < |placed| && placed[i].input.objectKey.Some? ==>
        keys[i] in keys && placed[i].input.objectKey.value in supplied;
    Highest(KEY_PREFIX, supplied)
  }

  predicate SuppliedTwice(placed: seq<Placed>) {
    exists i, j :: 0 <= i < j < |placed| && placed[i].input.objectKey.Some? && placed[i].input.objectKey == placed[j].input.objectKey
  }

  predicate Present(text: Option<string>) {
    text.Some? && text.value != ""
  }

  predicate Linked(o: ObjectInput, codes: map<nat, string>) {
    o.itemId in codes && (o.source == Marketplace ==> Present(o.listingId) && Present(o.supplierName))
  }

  predicate AllLinked(placed: seq<Placed>, codes: map<nat, string>) {
    forall i :: 0 <= i < |placed| ==> Linked(placed[i].input, codes)
  }

  /** The last placed object with a supplied key. */
  function FindPlaced(placed: seq<Placed>, key: string): (found: Option<nat>)
    ensures match found
            case Some(i) => i < |placed| && placed[i].input.objectKey == Some(key)
            case None => forall i :: 0 <= i < |placed| ==> placed[i].input.objectKey != Some(key)
  {
    if placed == [] then None
    else if placed[|placed| - 1].input.objectKey == Some(key) then Some(|placed| - 1)
    else FindPlaced(placed[..|placed| - 1], key)
  }

  /** A locked object comes back under its key, in its scene, with an equal signature. */
  predicate Resubmitted(o: BoardObject, placed: seq<Placed>, codes: map<nat, string>) {
    match FindPlaced(placed, o.objectKey)
    case None => false
    case Some(i) =>
      && placed[i].sceneKey == o.sceneKey
      && InputSignature(placed[i].input, Code(codes, placed[i].input.itemId)) == ObjectSignature(o)
  }

  predicate LockedKept(objects: seq<BoardObject>, placed: seq<Placed>, codes: map<nat, string>) {
    forall i :: 0 <= i < |objects| && objects[i].locked ==> Resubmitted(objects[i], placed, codes)
  }

  function NewKeys(placed: seq<Placed>): (keys: seq<string>)
    requires SuppliedWellFormed(placed)
    ensures |keys| == |placed|
  {
    Assign(KEY_PREFIX, HighestSupplied(placed), Keys(placed))
  }

  function NewObjects(placed: seq<Placed>, keys: seq<string>, codes: map<nat, string>): (objects: seq<BoardObject>)
    requires |keys| == |placed|
    ensures |objects| == |placed|
    ensures forall i :: 0 <= i < |placed| ==>
              objects[i] == NewObject(placed[i].sceneKey, placed[i].input, keys[i], Code(codes, placed[i].input.itemId))
  {
    seq(|placed|, i requires 0 <= i < |placed| =>
      NewObject(placed[i].sceneKey, placed[i].input, keys[i], Code(codes, placed[i].input.itemId)))
  }

  function Check(boards: seq<Board>, sets: map<nat, ItemCodes>, eventId: nat, input: BoardInput): Outcome {
    var placed := Flat(input.scenes);
    if input.requirementSetId !in sets || sets[input.requirementSetId].eventId != eventId then BadRequest
    else if !sets[input.requirementSetId].approved then Conflict
    else
      var codes := sets[input.requirementSetId].codes;
      if SuppliedTwice(placed) then BadRequest
      else if !AllLinked(placed, codes) then BadRequest
      else if input.basedOn.Some? && (input.basedOn.value >= |boards| || boards[input.basedOn.value].eventId != eventId) then BadRequest
      else if input.basedOn.Some? && !LockedKept(boards[input.basedOn.value].objects, placed, codes) then Conflict
      else if !Distinct(SceneKeys(input.scenes)) then UniqueViolation
      else Done
  }

  ghost function CreateStep(boards: seq<Board>, sets: map<nat, ItemCodes>, eventId: nat, input: BoardInput): (seq<Board>, Outcome)
    requires ValidInput(input)
  {
    var outcome := Check(boards, sets, eventId, input);
    if outcome != Done then (boards, outcome)
    else
      var placed := Flat(input.scenes);
      var objects := NewObjects(placed, NewKeys(placed), sets[input.requirementSetId].codes);
      (boards + [Board(eventId, input.requirementSetId, input.basedOn, SceneKeys(input.scenes), objects)], Done)
  }

  // ---------------------------------------------------------------- when a board is created, and what it holds

  /** The item belongs to the set; a marketplace object names a listing and a supplier. */
  lemma LinkedExactly(o: ObjectInput, codes: map<nat, string>)
    ensures Linked(o, codes) <==>
            && o.itemId in codes
            && (o.source == Marketplace ==> o.listingId.GetOr("") != "" && o.supplierName.GetOr("") != "")
  {
  }

  /** What a stored object holds of the one submitted; its key and its requirement's code come from elsewhere. */
  ghost predicate Holds(row: BoardObject, sceneKey: string, o: ObjectInput) {
    && row.sceneKey == sceneKey && row.itemId == o.itemId && row.name == o.name && row.source == o.source
    && row.sourceReferenceId == o.sourceReferenceId && row.supplierName == o.supplierName && row.listingId == o.listingId
    && row.imageUrl == o.imageUrl && (row.locked <==> o.locked == Some(true))
    && (match o.presentation
        case None => row.presentation.None?
        case Some(json) => row.presentation == Some(json.value))
    && row.sortOrder == (if o.sortOrder.Some? then o.sortOrder.value else 0)
  }

  /** The same, as the check on locked objects asks it: what is submitted repeats a stored row in every column that is
      compared, and its presentation is written as the database gives it back. */
  ghost predicate Repeats(o: ObjectInput, requirementCode: string, row: BoardObject) {
    && row.requirementCode == requirementCode && row.name == o.name && row.source == o.source
    && row.sourceReferenceId == o.sourceReferenceId && row.supplierName == o.supplierName && row.listingId == o.listingId
    && row.imageUrl == o.imageUrl && (row.locked <==> o.locked == Some(true))
    && (match o.presentation
        case None => row.presentation.None?
        case Some(json) => row.presentation == Some(json.value) && json.layout == 0)
    && row.sortOrder == (if o.sortOrder.Some? then o.sortOrder.value else 0)
  }

  /** The submission that repeats a stored object under its key and in its scene. */
  ghost predicate ComesBackAs(row: BoardObject, p: Placed, codes: map<nat, string>) {
    && p.input.objectKey == Some(row.objectKey) && p.sceneKey == row.sceneKey
    && Repeats(p.input, if p.input.itemId in codes then codes[p.input.itemId] else "", row)
  }

  ghost predicate ComesBack(row: BoardObject, placed: seq<Placed>, codes: map<nat, string>) {
    exists i :: 0 <= i < |placed| && ComesBackAs(row, placed[i], codes)
  }

  lemma {:induction false} ResubmittedExactly(row: BoardObject, placed: seq<Placed>, codes: map<nat, string>)
    requires !SuppliedTwice(placed)
    ensures Resubmitted(row, placed, codes) <==> ComesBack(row, placed, codes)
  {
    var found := FindPlaced(placed, row.objectKey);
    forall i | 0 <= i < |placed| && ComesBackAs(row, placed[i], codes) ensures found == Some(i) {
      assert placed[i].input.objectKey == Some(row.objectKey);
      OnlyOneHasTheKey(placed, row.objectKey, i, found);
    }
    if found.Some? {
      SignaturesAgreeExactly(placed[found.value].input, Code(codes, placed[found.value].input.itemId), row);
      assert Resubmitted(row, placed, codes) <==> ComesBackAs(row, placed[found.value], codes);
    }
  }

  lemma OnlyOneHasTheKey(placed: seq<Placed>, key: string, i: nat, found: Option<nat>)
    requires !SuppliedTwice(placed) && i < |placed| && placed[i].input.objectKey == Some(key)
    requires match found
             case Some(k) => k < |placed| && placed[k].input.objectKey == Some(key)
             case None => forall k :: 0 <= k < |placed| ==> placed[k].input.objectKey != Some(key)
    ensures found == Some(i)
  {
  }

  lemma SignaturesAgreeExactly(o: ObjectInput, requirementCode: string, row: BoardObject)
    ensures InputSignature(o, requirementCode) == ObjectSignature(row) <==> Repeats(o, requirementCode, row)
  {
    assert RI.JsonRead(row.presentation) == o.presentation <==>
        match o.presentation
        case None => row.presentation.None?
        case Some(json) => row.presentation == Some(json.value) && json.layout == 0;
  }

  ghost predicate NoKeyTwice(placed: seq<Placed>) {
    forall i, j :: 0 <= i < j < |placed| && placed[i].input.objectKey.Some? ==> placed[i].input.objectKey != placed[j].input.objectKey
  }

  /** The set is there, of this event and approved; no key is supplied twice; all objects are linked to the set; and a
      revision is of a board of the same event, all of whose locked objects come back. */
  ghost predicate MayBeCreated(boards: seq<Board>, sets: map<nat, ItemCodes>, eventId: nat, input: BoardInput) {
    && input.requirementSetId in sets && sets[input.requirementSetId].eventId == eventId && sets[input.requirementSetId].approved
    && NoKeyTwice(Flat(input.scenes)) && AllLinked(Flat(input.scenes), sets[input.requirementSetId].codes)
    && (input.basedOn.Some? ==>
          && input.basedOn.value < |boards| && boards[input.basedOn.value].eventId == eventId
          && LockedComeBack(boards[input.basedOn.value].objects, Flat(input.scenes), sets[input.requirementSetId].codes))
  }

  ghost predicate LockedComeBack(rows: seq<BoardObject>, placed: seq<Placed>, codes: map<nat, string>) {
    forall i :: 0 <= i < |rows| && rows[i].locked ==> ComesBack(rows[i], placed, codes)
  }

  lemma {:induction false} LockedKeptExactly(rows: seq<BoardObject>, placed: seq<Placed>, codes: map<nat, string>)
    requires !SuppliedTwice(placed)
    ensures LockedKept(rows, placed, codes) <==> LockedComeBack(rows, placed, codes)
  {
    forall i | 0 <= i < |rows| ensures Resubmitted(rows[i], placed, codes) <==> ComesBack(rows[i], placed, codes) {
      ResubmittedExactly(rows[i], placed, codes);
    }
  }

  /** A board is created exactly when it may be and no scene key is used twice; a set that is not approved is a
      conflict, one that is missing or another event's a bad request. */
  lemma {:induction false} CheckExactly(boards: seq<Board>, sets: map<nat, ItemCodes>, eventId: nat, input: BoardInput)
    ensures Check(boards, sets, eventId, input) == Done <==>
            MayBeCreated(boards, sets, eventId, input) && Distinct(SceneKeys(input.scenes))
    ensures Check(boards, sets, eventId, input) == UniqueViolation <==>
            MayBeCreated(boards, sets, eventId, input) && !Distinct(SceneKeys(input.scenes))
    ensures input.requirementSetId !in sets || sets[input.requirementSetId].eventId != eventId ==>
              Check(boards, sets, eventId, input) == BadRequest
    ensures input.requirementSetId in sets && sets[input.requirementSetId].eventId == eventId && !sets[input.requirementSetId].approved ==>
              Check(boards, sets, eventId, input) == Conflict
  {
    var placed := Flat(input.scenes);
    assert SuppliedTwice(placed) <==> !NoKeyTwice(placed);
    if input.requirementSetId in sets && input.basedOn.Some? && input.basedOn.value < |boards| && !SuppliedTwice(placed) {
      LockedKeptExactly(boards[input.basedOn.value].objects, placed, sets[input.requirementSetId].codes);
    }
  }

  /** The new board: one object for each submitted one, scene by scene and in order, with the columns submitted, the
      code its item has in the set, and the key supplied if there was one. */
  lemma {:induction false} CreatedBoardHolds(boards: seq<Board>, sets: map<nat, ItemCodes>, eventId: nat, input: BoardInput)
    requires ValidInput(input) && Check(boards, sets, eventId, input) == Done
    ensures var (after, outcome) := CreateStep(boards, sets, eventId, input);
            var placed := Flat(input.scenes);
            && outcome == Done && |after| == |boards| + 1 && after[..|boards|] == boards
            && var b := after[|boards|];
               && b.eventId == eventId && b.requirementSetId == input.requirementSetId && b.basedOn == input.basedOn
               && |b.sceneKeys| == |input.scenes| && (forall k :: 0 <= k < |input.scenes| ==> b.sceneKeys[k] == input.scenes[k].sceneKey)
               && RowsHold(b.objects, placed, sets[input.requirementSetId].codes)
  {
    var placed := Flat(input.scenes);
    NewKeysNumbered(placed);
    RowsAreHeld(placed, NewKeys(placed), sets[input.requirementSetId].codes);
  }

  ghost predicate RowsHold(rows: seq<BoardObject>, placed: seq<Placed>, codes: map<nat, string>) {
    && |rows| == |placed|
    && (forall i :: 0 <= i < |placed| ==>
          && Holds(rows[i], placed[i].sceneKey, placed[i].input)
          && placed[i].input.itemId in codes && rows[i].requirementCode == codes[placed[i].input.itemId]
          && (placed[i].input.objectKey.Some? ==> rows[i].objectKey == placed[i].input.objectKey.value))
  }

  lemma {:induction false} RowsAreHeld(placed: seq<Placed>, keys: seq<string>, codes: map<nat, string>)
    requires AllLinked(placed, codes) && |keys| == |placed|
    requires forall i :: 0 <= i < |placed| && placed[i].input.objectKey.Some? ==> keys[i] == placed[i].input.objectKey.value
    ensures RowsHold(NewObjects(placed, keys, codes), placed, codes)
  {
    var rows := NewObjects(placed, keys, codes);
    forall i | 0 <= i < |placed|
      ensures Holds(rows[i], placed[i].sceneKey, placed[i].input) && rows[i].objectKey == keys[i]
      ensures placed[i].input.itemId in codes && rows[i].requirementCode == codes[placed[i].input.itemId]
    {
      assert Linked(placed[i].input, codes);
    }
  }

  // ---------------------------------------------------------------- signatures

  /** An object reads back with the signature it was submitted with exactly when its presentation was written
      in the order the database gives back. */
  lemma SignatureReadsBackExactly(sceneKey: string, o: ObjectInput, key: string, code: string)
    ensures ObjectSignature(NewObject(sceneKey, o, key, code)) == InputSignature(o, code) <==> RI.PlainOrAbsent(o.presentation)
  {
    assert RI.JsonRead(RI.JsonValue(o.presentation)) == o.presentation <==> RI.PlainOrAbsent(o.presentation);
  }

  /** What a submission amounts to, whatever order its presentation's keys were written in. */
  function Meaning(o: ObjectInput, code: string): Signature {
    var s := InputSignature(o, code);
    s.(presentation := RI.JsonRead(RI.JsonValue(s.presentation)))
  }

  /** A locked object submitted again with nothing changed is accepted exactly when its presentation is
      absent or written in database order: the comparison is sensitive to key order. */
  lemma UnchangedAcceptedExactly(o: BoardObject, placed: seq<Placed>, codes: map<nat, string>, i: nat)
    requires FindPlaced(placed, o.objectKey) == Some(i) && placed[i].sceneKey == o.sceneKey
    requires Meaning(placed[i].input, Code(codes, placed[i].input.itemId)) == ObjectSignature(o)
    ensures Resubmitted(o, placed, codes) <==> RI.PlainOrAbsent(placed[i].input.presentation)
  {
    var p := placed[i].input.presentation;
    assert RI.JsonRead(RI.JsonValue(p)) == RI.JsonRead(o.presentation);
  }

  // ---------------------------------------------------------------- what every reachable board keeps

  ghost predicate KeysUnique(objects: seq<BoardObject>) {
    forall i, j :: 0 <= i < j < |objects| ==> objects[i].objectKey != objects[j].objectKey
  }

  ghost predicate BoardSound(b: Board) {
    && KeysUnique(b.objects)
    && Distinct(b.sceneKeys)
    && (forall i :: 0 <= i < |b.objects| ==> WellFormed(KEY_PREFIX, b.objects[i].objectKey) && b.objects[i].sceneKey in b.sceneKeys)
  }

  ghost predicate SameObject(o: BoardObject, p: BoardObject) {
    o.objectKey == p.objectKey && o.sceneKey == p.sceneKey && ObjectSignature(o) == ObjectSignature(p)
  }

  ghost predicate Keeps(o: BoardObject, objects: seq<BoardObject>) {
    exists j :: 0 <= j < |objects| && SameObject(o, objects[j])
  }

  ghost predicate KeepsLocked(from: seq<BoardObject>, to: seq<BoardObject>) {
    forall i :: 0 <= i < |from| && from[i].locked ==> Keeps(from[i], to)
  }

  ghost predicate RevisionSound(boards: seq<Board>, b: nat)
    requires b < |boards|
  {
    boards[b].basedOn.Some? ==>
      && boards[b].basedOn.value < b
      && boards[boards[b].basedOn.value].eventId == boards[b].eventId
      && KeepsLocked(boards[boards[b].basedOn.value].objects, boards[b].objects)
  }

  ghost predicate Sound(boards: seq<Board>) {
    forall b :: 0 <= b < |boards| ==> BoardSound(boards[b]) && RevisionSound(boards, b)
  }

  lemma {:induction false} NewKeysNumbered(placed: seq<Placed>)
    requires SuppliedWellFormed(placed) && !SuppliedTwice(placed)
    ensures Distinct(NewKeys(placed)) && AllWellFormed(KEY_PREFIX, NewKeys(placed))
    ensures forall i :: 0 <= i < |placed| && placed[i].input.objectKey.Some? ==> NewKeys(placed)[i] == placed[i].input.objectKey.value
  {
    var keys := Keys(placed);
    var used := HighestSupplied(placed);
    AssignedCodesDistinct(KEY_PREFIX, used, keys);
    AssignedCodes(KEY_PREFIX, used, keys);
  }

  lemma {:induction false} NewKeyIsUnsupplied(placed: seq<Placed>, i: nat)
    requires SuppliedWellFormed(placed) && !SuppliedTwice(placed) && i < |placed| && placed[i].input.objectKey.None?
    ensures forall j :: 0 <= j < |placed| ==> placed[j].input.objectKey != Some(NewKeys(placed)[i])
  {
    NewKeysNumbered(placed);
    forall j | 0 <= j < |placed| ensures placed[j].input.objectKey != Some(NewKeys(placed)[i]) {
      assert placed[j].input.objectKey.Some? ==> NewKeys(placed)[j] == placed[j].input.objectKey.value;
    }
  }

  /** Generated keys meet neither each other nor any supplied key. */
  lemma {:induction false} NewKeysDistinct(placed: seq<Placed>)
    requires SuppliedWellFormed(placed) && !SuppliedTwice(placed)
    ensures Distinct(NewKeys(placed)) && AllWellFormed(KEY_PREFIX, NewKeys(placed))
    ensures forall key | Generated(placed, key) :: FindPlaced(placed, key).None?
  {
    NewKeysNumbered(placed);
    forall key | Generated(placed, key) ensures FindPlaced(placed, key).None? {
      GeneratedIsUnsupplied(placed, key);
    }
  }

  lemma {:induction false} GeneratedIsUnsupplied(placed: seq<Placed>, key: string)
    requires SuppliedWellFormed(placed) && !SuppliedTwice(placed) && Generated(placed, key)
    ensures FindPlaced(placed, key).None?
  {
    var i := GeneratedAt(placed, key);
    NewKeyIsUnfound(placed, i);
  }

  lemma GeneratedAt(placed: seq<Placed>, key: string) returns (i: nat)
    requires SuppliedWellFormed(placed) && Generated(placed, key)
    ensures i < |placed| && placed[i].input.objectKey.None? && NewKeys(placed)[i] == key
  {
    i :| 0 <= i < |placed| && placed[i].input.objectKey.None? && NewKeys(placed)[i] == key;
  }

  lemma {:induction false} NewKeyIsUnfound(placed: seq<Placed>, i: nat)
    requires SuppliedWellFormed(placed) && !SuppliedTwice(placed) && i < |placed| && placed[i].input.objectKey.None?
    ensures FindPlaced(placed, NewKeys(placed)[i]).None?
  {
    NewKeyIsUnsupplied(placed, i);
    UnsuppliedIsUnfound(placed, NewKeys(placed)[i]);
  }

  lemma {:induction false} UnsuppliedIsUnfound(placed: seq<Placed>, key: string)
    requires forall j :: 0 <= j < |placed| ==> placed[j].input.objectKey != Some(key)
    ensures FindPlaced(placed, key).None?
  {
  }

  ghost predicate Generated(placed: seq<Placed>, key: string)
    requires SuppliedWellFormed(placed)
  {
    exists i :: 0 <= i < |placed| && placed[i].input.objectKey.None? && NewKeys(placed)[i] == key
  }

  function Unkeyed(placed: seq<Placed>): nat {
    Missing(Keys(placed))
  }

  /** A test before the call: whether a key is one of the numbers the unkeyed objects will be given. */
  predicate NextInLine(placed: seq<Placed>, key: string)
    requires SuppliedWellFormed(placed) && WellFormed(KEY_PREFIX, key)
  {
    var number := Number(KEY_PREFIX, key);
    HighestSupplied(placed) < number <= HighestSupplied(placed) + Unkeyed(placed) && key == Print(KEY_PREFIX, number)
  }

  /** A generated key repeats a key of the board a revision is based on exactly when that key is next in line
      after the highest supplied one. */
  lemma {:induction false} GeneratedKeyRepeatsExactly(previous: seq<BoardObject>, placed: seq<Placed>)
    requires SuppliedWellFormed(placed)
    requires forall j :: 0 <= j < |previous| ==> WellFormed(KEY_PREFIX, previous[j].objectKey)
    ensures forall j :: 0 <= j < |previous| ==>
              (Generated(placed, previous[j].objectKey) <==> NextInLine(placed, previous[j].objectKey))
  {
    forall j | 0 <= j < |previous|
      ensures Generated(placed, previous[j].objectKey) <==> NextInLine(placed, previous[j].objectKey)
    {
      var keys, used, key := Keys(placed), HighestSupplied(placed), previous[j].objectKey;
      MadeUpNumber(KEY_PREFIX, used, keys, key);
      if i :| 0 <= i < |keys| && keys[i].None? && Assign(KEY_PREFIX, used, keys)[i] == key {
        assert placed[i].input.objectKey.None? && NewKeys(placed)[i] == key;
      }
      if i :| 0 <= i < |placed| && placed[i].input.objectKey.None? && NewKeys(placed)[i] == key {
        assert keys[i].None?;
      }
    }
  }

  /** What it repeats is then a key that this board did not lock and the revision does not supply. */
  lemma {:induction false} GeneratedKeyMeetsOnlyDropped(previous: seq<BoardObject>, placed: seq<Placed>, codes: map<nat, string>, j: nat)
    requires SuppliedWellFormed(placed) && j < |previous| && Generated(placed, previous[j].objectKey)
    requires !SuppliedTwice(placed) && LockedKept(previous, placed, codes)
    ensures !previous[j].locked && FindPlaced(placed, previous[j].objectKey).None?
  {
    NewKeysDistinct(placed);
    LockedAreFound(previous, placed, codes, j);
  }

  lemma LockedAreFound(previous: seq<BoardObject>, placed: seq<Placed>, codes: map<nat, string>, j: nat)
    requires LockedKept(previous, placed, codes) && j < |previous|
    ensures previous[j].locked ==> FindPlaced(placed, previous[j].objectKey).Some?
  {
    assert previous[j].locked ==> Resubmitted(previous[j], placed, codes);
  }

  lemma KeptObjectIsWritten(o: BoardObject, placed: seq<Placed>, keys: seq<string>, codes: map<nat, string>)
    requires Resubmitted(o, placed, codes) && |keys| == |placed|
    requires forall i :: 0 <= i < |placed| && placed[i].input.objectKey.Some? ==> keys[i] == placed[i].input.objectKey.value
    ensures Keeps(o, NewObjects(placed, keys, codes))
  {
    var i := FindPlaced(placed, o.objectKey).value;
    var written := NewObjects(placed, keys, codes)[i];
    assert InputSignature(placed[i].input, Code(codes, placed[i].input.itemId)).presentation == RI.JsonRead(o.presentation);
    SignatureReadsBackExactly(placed[i].sceneKey, placed[i].input, keys[i], Code(codes, placed[i].input.itemId));
    assert SameObject(o, written);
  }

  lemma CreatedBoardSound(boards: seq<Board>, sets: map<nat, ItemCodes>, eventId: nat, input: BoardInput)
    requires ValidInput(input) && Check(boards, sets, eventId, input) == Done
    ensures var objects := NewObjects(Flat(input.scenes), NewKeys(Flat(input.scenes)), sets[input.requirementSetId].codes);
            && BoardSound(Board(eventId, input.requirementSetId, input.basedOn, SceneKeys(input.scenes), objects))
            && (input.basedOn.Some? ==> KeepsLocked(boards[input.basedOn.value].objects, objects))
  {
    var placed, codes := Flat(input.scenes), sets[input.requirementSetId].codes;
    NewKeysNumbered(placed);
    if input.basedOn.Some? {
      var previous := boards[input.basedOn.value].objects;
      forall i | 0 <= i < |previous| && previous[i].locked ensures Keeps(previous[i], NewObjects(placed, NewKeys(placed), codes)) {
        KeptObjectIsWritten(previous[i], placed, NewKeys(placed), codes);
      }
    }
  }

  /** Every object of a created board is traceable: it carries the code its item has in the approved set, and a
      marketplace object names its listing and supplier. */
  lemma CreatedObjectsAreTraceable(boards: seq<Board>, sets: map<nat, ItemCodes>, eventId: nat, input: BoardInput, o: BoardObject)
    requires ValidInput(input) && Check(boards, sets, eventId, input) == Done
    requires o in CreateStep(boards, sets, eventId, input).0[|boards|].objects
    ensures input.requirementSetId in sets && sets[input.requirementSetId].approved
    ensures o.itemId in sets[input.requirementSetId].codes && o.requirementCode == sets[input.requirementSetId].codes[o.itemId]
    ensures o.source == Marketplace ==> Present(o.listingId) && Present(o.supplierName)
  {
    var placed, codes := Flat(input.scenes), sets[input.requirementSetId].codes;
    var i :| 0 <= i < |placed| && NewObjects(placed, NewKeys(placed), codes)[i] == o;
    assert Linked(placed[i].input, codes);
  }

  /** Creating a board keeps every board sound, and changes none of the existing ones. */
  lemma CreateKeepsSound(boards: seq<Board>, sets: map<nat, ItemCodes>, eventId: nat, input: BoardInput)
    requires Sound(boards) && ValidInput(input)
    ensures Sound(CreateStep(boards, sets, eventId, input).0)
    ensures boards <= CreateStep(boards, sets, eventId, input).0
  {
    var after := CreateStep(boards, sets, eventId, input).0;
    if Check(boards, sets, eventId, input) == Done {
      CreatedBoardSound(boards, sets, eventId, input);
      forall b | 0 <= b < |boards| ensures BoardSound(after[b]) && RevisionSound(after, b) {
        assert RevisionSound(boards, b);
      }
    }
  }

  datatype Request = Request(sets: map<nat, ItemCodes>, eventId: nat, input: BoardInput)

  ghost function Run(boards: seq<Board>, requests: seq<Request>): seq<Board>
    requires forall i :: 0 <= i < |requests| ==> ValidInput(requests[i].input)
    decreases |requests|
  {
    if requests == [] then boards
    else Run(CreateStep(boards, requests[0].sets, requests[0].eventId, requests[0].input).0, requests[1..])
  }

  lemma {:induction false} EveryReachableBoardIsSound(boards: seq<Board>, requests: seq<Request>)
    requires Sound(boards) && forall i :: 0 <= i < |requests| ==> ValidInput(requests[i].input)
    ensures Sound(Run(boards, requests)) && boards <= Run(boards, requests)
    decreases |requests|
  {
    if requests == [] {
    } else {
      CreateKeepsSound(boards, requests[0].sets, requests[0].eventId, requests[0].input);
      EveryReachableBoardIsSound(CreateStep(boards, requests[0].sets, requests[0].eventId, requests[0].input).0, requests[1..]);
    }
  }

  // ---------------------------------------------------------------- chains of revisions

  /** Whether board d is a revision of a revision of … board a. */
  ghost predicate Descends(boards: seq<Board>, d: nat, a: nat)
    requires Sound(boards) && d < |boards|
    decreases d
  {
    assert RevisionSound(boards, d);
    d == a || (boards[d].basedOn.Some? && Descends(boards, boards[d].basedOn.value, a))
  }

  lemma KeepsLockedChains(first: seq<BoardObject>, second: seq<BoardObject>, third: seq<BoardObject>)
    requires KeepsLocked(first, second) && KeepsLocked(second, third)
    ensures KeepsLocked(first, third)
  {
    forall i | 0 <= i < |first| && first[i].locked ensures Keeps(first[i], third) {
      var j :| 0 <= j < |second| && SameObject(first[i], second[j]);
      SameLock(first[i], second[j]);
      var k :| 0 <= k < |third| && SameObject(second[j], third[k]);
      assert SameObject(first[i], third[k]);
    }
  }

  lemma SameLock(o: BoardObject, p: BoardObject)
    requires ObjectSignature(o) == ObjectSignature(p)
    ensures o.locked == p.locked
  {
    assert ObjectSignature(o).locked == ObjectSignature(p).locked;
  }

  /** However many revisions lie between, a locked object is still there: same key, same scene, equal
      signature, still locked. */
  lemma {:induction false} LockedObjectsPersist(boards: seq<Board>, d: nat, a: nat)
    requires Sound(boards) && d < |boards| && Descends(boards, d, a)
    ensures a <= d && KeepsLocked(boards[a].objects, boards[d].objects)
    ensures boards[a].eventId == boards[d].eventId
    decreases d
  {
    assert RevisionSound(boards, d);
    if d == a {
      forall i | 0 <= i < |boards[a].objects| ensures Keeps(boards[a].objects[i], boards[a].objects) {
        assert SameObject(boards[a].objects[i], boards[a].objects[i]);
      }
    } else {
      LockedObjectsPersist(boards, boards[d].basedOn.value, a);
      KeepsLockedChains(boards[a].objects, boards[boards[d].basedOn.value].objects, boards[d].objects);
    }
  }

  // ---------------------------------------------------------------- comparing two boards

  datatype Change =
    | Added(objectKey: string, after: BoardObject)
    | Removed(objectKey: string, before: BoardObject)
    | Changed(objectKey: string, before: BoardObject, after: BoardObject)

  /** The object a map from keys to objects ends up with: the last one under the key. */
  function Find(objects: seq<BoardObject>, key: string): (found: Option<BoardObject>)
    ensures match found
            case Some(o) => o in objects && o.objectKey == key
            case None => forall i :: 0 <= i < |objects| ==> objects[i].objectKey != key
  {
    if objects == [] then None
    else if objects[|objects| - 1].objectKey == key then Some(objects[|objects| - 1])
    else Find(objects[..|objects| - 1], key)
  }

  function ChangeAt(from: seq<BoardObject>, to: seq<BoardObject>, key: string): Option<Change> {
    match (Find(from, key), Find(to, key))
    case (None, None) => None
    case (None, Some(after)) => Some(Added(key, after))
    case (Some(before), None) => Some(Removed(key, before))
    case (Some(before), Some(after)) =>
      if ObjectSignature(before) != ObjectSignature(after) then Some(Changed(key, before, after)) else None
  }

  /** Exactly the changes between two boards, each once. */
  ghost predicate Reports(changes: seq<Change>, from: seq<BoardObject>, to: seq<BoardObject>) {
    && (forall key :: match ChangeAt(from, to, key)
                      case Some(change) => change in changes
                      case None => forall change | change in changes :: change.objectKey != key)
    && (forall i :: 0 <= i < |changes| ==> ChangeAt(from, to, changes[i].objectKey) == Some(changes[i]))
    && (forall i, j :: 0 <= i < j < |changes| ==> changes[i].objectKey != changes[j].objectKey)
  }

  /** The keys of some objects, each once, in the order in which they first occur. */
  method CollectKeys(start: seq<string>, objects: seq<BoardObject>) returns (keys: seq<string>)
    requires Distinct(start)
    ensures Distinct(keys) && start <= keys
    ensures forall key :: key in keys <==> key in start || exists i :: 0 <= i < |objects| && objects[i].objectKey == key
  {
    keys := start;
    for n := 0 to |objects|
      invariant Distinct(keys) && start <= keys
      invariant forall key :: key in keys <==> key in start || exists i :: 0 <= i < n && objects[i].objectKey == key
    {
      if objects[n].objectKey !in keys {
        keys := keys + [objects[n].objectKey];
      }
    }
  }

  method Compare(from: seq<BoardObject>, to: seq<BoardObject>) returns (changes: seq<Change>)
    ensures Reports(changes, from, to)
  {
    var keys := CollectKeys([], from);
    keys := CollectKeys(keys, to);
    changes := [];
    for n := 0 to |keys|
      invariant forall i :: 0 <= i < n ==> match ChangeAt(from, to, keys[i]) case Some(change) => change in changes case None => true
      invariant forall i :: 0 <= i < |changes| ==> ChangeAt(from, to, changes[i].objectKey) == Some(changes[i])
      invariant forall i :: 0 <= i < |changes| ==> changes[i].objectKey in keys[..n]
      invariant forall i, j :: 0 <= i < j < |changes| ==> changes[i].objectKey != changes[j].objectKey
    {
      var before, after := Find(from, keys[n]), Find(to, keys[n]);
      assert keys[n] !in keys[..n];
      if before.None? && after.Some? {
        changes := changes + [Added(keys[n], after.value)];
      } else if before.Some? && after.None? {
        changes := changes + [Removed(keys[n], before.value)];
      } else if before.Some? && after.Some? && ObjectSignature(before.value) != ObjectSignature(after.value) {
        changes := changes + [Changed(keys[n], before.value, after.value)];
      }
    }
    forall key | ChangeAt(from, to, key).Some? ensures ChangeAt(from, to, key).value in changes {
      assert key in keys;
    }
  }

  lemma FindUnique(objects: seq<BoardObject>, i: nat)
    requires KeysUnique(objects) && i < |objects|
    ensures Find(objects, objects[i].objectKey) == Some(objects[i])
  {
    var found := Find(objects, objects[i].objectKey).value;
    var j :| 0 <= j < |objects| && objects[j] == found;
  }

  /** Two objects with equal keys differ for the comparison exactly when one of these columns does: neither the scene nor
      the item they are about is looked at. */
  lemma SignatureComparesExactly(o: BoardObject, p: BoardObject)
    ensures ObjectSignature(o) == ObjectSignature(p) <==>
            && o.requirementCode == p.requirementCode && o.name == p.name && o.source == p.source
            && o.sourceReferenceId == p.sourceReferenceId && o.supplierName == p.supplierName && o.listingId == p.listingId
            && o.imageUrl == p.imageUrl && o.locked == p.locked && o.presentation == p.presentation && o.sortOrder == p.sortOrder
  {
    assert RI.JsonRead(o.presentation) == RI.JsonRead(p.presentation) <==> o.presentation == p.presentation;
  }

  /** No object has the key. */
  ghost predicate Absent(objects: seq<BoardObject>, key: string) {
    forall o | o in objects :: o.objectKey != key
  }

  /** A comparison of two boards says of an object that it was added exactly when only the second board has its key,
      removed when only the first has, and changed when both have it with different signatures. */
  lemma {:induction false} ReportsExactly(
    changes: seq<Change>, from: seq<BoardObject>, to: seq<BoardObject>, key: string, o: BoardObject, p: BoardObject)
    requires KeysUnique(from) && KeysUnique(to) && Reports(changes, from, to)
    ensures Added(key, p) in changes <==> p in to && p.objectKey == key && Absent(from, key)
    ensures Removed(key, o) in changes <==> o in from && o.objectKey == key && Absent(to, key)
    ensures Changed(key, o, p) in changes <==>
            o in from && p in to && o.objectKey == p.objectKey == key && ObjectSignature(o) != ObjectSignature(p)
  {
    FindExactly(from, key, o);
    FindExactly(to, key, p);
    ReportedAt(changes, from, to, Added(key, p));
    ReportedAt(changes, from, to, Removed(key, o));
    ReportedAt(changes, from, to, Changed(key, o, p));
  }

  lemma ReportedAt(changes: seq<Change>, from: seq<BoardObject>, to: seq<BoardObject>, change: Change)
    requires Reports(changes, from, to)
    ensures change in changes <==> ChangeAt(from, to, change.objectKey) == Some(change)
  {
  }

  lemma {:induction false} FindExactly(objects: seq<BoardObject>, key: string, o: BoardObject)
    requires KeysUnique(objects)
    ensures Find(objects, key) == Some(o) <==> o in objects && o.objectKey == key
    ensures Find(objects, key).None? <==> Absent(objects, key)
  {
    if o in objects && o.objectKey == key {
      var i :| 0 <= i < |objects| && objects[i] == o;
      FindUnique(objects, i);
    }
    if Find(objects, key).None? {
      forall other | other in objects ensures other.objectKey != key {
        var i :| 0 <= i < |objects| && objects[i] == other;
      }
    }
  }

  /** Comparing a board with any of its descendants never reports a locked object as removed or changed. */
  lemma ComparisonSparesLocked(boards: seq<Board>, d: nat, a: nat, changes: seq<Change>, i: nat)
    requires Sound(boards) && d < |boards| && Descends(boards, d, a) && a < |boards|
    requires Reports(changes, boards[a].objects, boards[d].objects)
    requires i < |boards[a].objects| && boards[a].objects[i].locked
    ensures forall change | change in changes :: change.objectKey != boards[a].objects[i].objectKey
  {
    LockedObjectsPersist(boards, d, a);
    var from, to := boards[a].objects, boards[d].objects;
    assert Keeps(from[i], to);
    var j :| 0 <= j < |to| && SameObject(from[i], to[j]);
    FindUnique(from, i);
    FindUnique(to, j);
    assert ChangeAt(from, to, from[i].objectKey) == None;
  }

  ghost predicate SameContent(from: seq<BoardObject>, to: seq<BoardObject>) {
    forall key :: SameAt(from, to, key)
  }

  ghost predicate SameAt(from: seq<BoardObject>, to: seq<BoardObject>, key: string) {
    match (Find(from, key), Find(to, key))
    case (Some(before), Some(after)) => ObjectSignature(before) == ObjectSignature(after)
    case (None, None) => true
    case _ => false
  }

  /** Nothing to review exactly when both boards show the same keys with the same signatures. */
  lemma NoChangesExactly(changes: seq<Change>, from: seq<BoardObject>, to: seq<BoardObject>)
    requires Reports(changes, from, to)
    ensures changes == [] <==> SameContent(from, to)
  {
    if changes == [] {
      forall key ensures SameAt(from, to, key) {
        assert ChangeAt(from, to, key).None?;
      }
    } else {
      assert SameAt(from, to, changes[0].objectKey) <==> ChangeAt(from, to, changes[0].objectKey).None?;
      assert ChangeAt(from, to, changes[0].objectKey).Some?;
    }
  }

  function Opposite(change: Change): Change {
    match change
    case Added(key, after) => Removed(key, after)
    case Removed(key, before) => Added(key, before)
    case Changed(key, before, after) => Changed(key, after, before)
  }

  /** The comparison the other way round reports the opposite changes. */
  lemma ComparisonReverses(there: seq<Change>, back: seq<Change>, from: seq<BoardObject>, to: seq<BoardObject>)
    requires Reports(there, from, to) && Reports(back, to, from)
    ensures forall change :: change in there <==> Opposite(change) in back
  {
    forall change ensures change in there <==> ChangeAt(from, to, change.objectKey) == Some(change) {
    }
    forall change ensures change in back <==> ChangeAt(to, from, change.objectKey) == Some(change) {
    }
  }

  /** The scene is not part of the signature: an object moved to another scene is not reported. */
  lemma MoveIsNotReported(o: BoardObject, sceneKey: string, changes: seq<Change>)
    requires Reports(changes, [o], [o.(sceneKey := sceneKey)])
    ensures changes == []
  {
    var moved := o.(sceneKey := sceneKey);
    assert [o][..0] == [] && [moved][..0] == [];
    forall key ensures ChangeAt([o], [moved], key).None? {
    }
    NoChangesExactly(changes, [o], [moved]);
  }

  /** A board whose only scene holds one object without a key. */
  lemma OneObjectBoard(
    boards: seq<Board>, sets: map<nat, ItemCodes>, eventId: nat, setId: nat, basedOn: Option<nat>, sceneKey: string, o: ObjectInput)
    requires setId in sets && sets[setId].eventId == eventId && sets[setId].approved
    requires Linked(o, sets[setId].codes) && o.objectKey.None?
    requires basedOn.Some? ==> basedOn.value < |boards| && boards[basedOn.value].eventId == eventId
    requires basedOn.Some? ==> forall i :: 0 <= i < |boards[basedOn.value].objects| ==> !boards[basedOn.value].objects[i].locked
    ensures var input := BoardInput(setId, basedOn, [SceneInput(sceneKey, [o])]);
            var only := NewObject(sceneKey, o, Print(KEY_PREFIX, 1), Code(sets[setId].codes, o.itemId));
            && ValidInput(input)
            && CreateStep(boards, sets, eventId, input) == (boards + [Board(eventId, setId, basedOn, [sceneKey], [only])], Done)
  {
    var scenes, p := [SceneInput(sceneKey, [o])], Placed(sceneKey, o);
    assert scenes[1..] == [];
    assert Flat(scenes) == [p];
    assert SceneKeys(scenes) == [sceneKey];
    FirstGeneratedKey(p);
    var only := NewObject(sceneKey, o, Print(KEY_PREFIX, 1), Code(sets[setId].codes, o.itemId));
    assert NewObjects([p], NewKeys([p]), sets[setId].codes) == [only];
    if basedOn.Some? {
      assert LockedKept(boards[basedOn.value].objects, [p], sets[setId].codes);
    }
    assert Check(boards, sets, eventId, BoardInput(setId, basedOn, scenes)) == Done;
  }

  /** A dropped, unlocked object hands its key to an unrelated new one: a board with one unkeyed object, then a
      revision with another instead. Both objects are OBJ-001, and the comparison calls one a change of the other. */
  lemma DroppedKeyIsReused(
    sets: map<nat, ItemCodes>, eventId: nat, setId: nat, sceneKey: string, first: ObjectInput, second: ObjectInput,
    boards: seq<Board>, changes: seq<Change>)
    requires setId in sets && sets[setId].eventId == eventId && sets[setId].approved
    requires Linked(first, sets[setId].codes) && first.objectKey.None? && first.locked != Some(true) && first.presentation.None?
    requires Linked(second, sets[setId].codes) && second.objectKey.None? && second.presentation.None?
    requires InputSignature(first, Code(sets[setId].codes, first.itemId)) != InputSignature(second, Code(sets[setId].codes, second.itemId))
    requires ValidInput(BoardInput(setId, None, [SceneInput(sceneKey, [first])]))
    requires ValidInput(BoardInput(setId, Some(0), [SceneInput(sceneKey, [second])]))
    requires boards == CreateStep(CreateStep([], sets, eventId, BoardInput(setId, None, [SceneInput(sceneKey, [first])])).0,
                                  sets, eventId, BoardInput(setId, Some(0), [SceneInput(sceneKey, [second])])).0
    ensures |boards| == 2 && |boards[0].objects| == |boards[1].objects| == 1
    ensures boards[0].objects[0].objectKey == boards[1].objects[0].objectKey == "OBJ-001"
    ensures Reports(changes, boards[0].objects, boards[1].objects) ==>
              changes == [Changed("OBJ-001", boards[0].objects[0], boards[1].objects[0])]
  {
    PrintedExamples();
    var codes := sets[setId].codes;
    OneObjectBoard([], sets, eventId, setId, None, sceneKey, first);
    var one := CreateStep([], sets, eventId, BoardInput(setId, None, [SceneInput(sceneKey, [first])])).0;
    OneObjectBoard(one, sets, eventId, setId, Some(0), sceneKey, second);
    SignatureReadsBackExactly(sceneKey, first, Print(KEY_PREFIX, 1), Code(codes, first.itemId));
    SignatureReadsBackExactly(sceneKey, second, Print(KEY_PREFIX, 1), Code(codes, second.itemId));
    if Reports(changes, boards[0].objects, boards[1].objects) {
      OneChange(boards[0].objects[0], boards[1].objects[0], changes);
    }
  }

  lemma OneChange(before: BoardObject, after: BoardObject, changes: seq<Change>)
    requires before.objectKey == after.objectKey && ObjectSignature(before) != ObjectSignature(after)
    requires Reports(changes, [before], [after])
    ensures changes == [Changed(before.objectKey, before, after)]
  {
    assert [before][..0] == [] && [after][..0] == [];
    var change := Changed(before.objectKey, before, after);
    assert ChangeAt([before], [after], before.objectKey) == Some(change);
    forall i | 0 <= i < |changes| ensures changes[i] == change {
      assert ChangeAt([before], [after], changes[i].objectKey).Some?;
    }
    assert change in changes;
    assert changes[0] == change && changes[|changes| - 1] == change;
  }

  /** A locked object whose presentation was not written in database order cannot be submitted again as it was:
      the board is created, and a revision with the very same object under its key is refused. */
  lemma SameObjectRefused(
    sets: map<nat, ItemCodes>, eventId: nat, setId: nat, sceneKey: string, o: ObjectInput, boards: seq<Board>)
    requires setId in sets && sets[setId].eventId == eventId && sets[setId].approved
    requires Linked(o, sets[setId].codes) && o.objectKey.None? && o.locked == Some(true)
    requires o.presentation.Some? && o.presentation.value.layout != 0
    requires ValidInput(BoardInput(setId, None, [SceneInput(sceneKey, [o])]))
    requires boards == CreateStep([], sets, eventId, BoardInput(setId, None, [SceneInput(sceneKey, [o])])).0
    ensures |boards| == 1
    ensures Check(boards, sets, eventId,
                  BoardInput(setId, Some(0), [SceneInput(sceneKey, [o.(objectKey := Some(Print(KEY_PREFIX, 1)))])])) == Conflict
  {
    var codes, key := sets[setId].codes, Print(KEY_PREFIX, 1);
    OneObjectBoard([], sets, eventId, setId, None, sceneKey, o);
    var again := o.(objectKey := Some(key));
    var scenes, placed := [SceneInput(sceneKey, [again])], [Placed(sceneKey, again)];
    assert scenes[1..] == [];
    assert Flat(scenes) == placed;
    assert AllLinked(placed, codes);
    var stored := boards[0].objects[0];
    assert placed[..0] == [];
    assert FindPlaced(placed, key) == Some(0);
    UnchangedAcceptedExactly(stored, placed, codes, 0);
    assert !LockedKept(boards[0].objects, placed, codes);
  }

  lemma FirstGeneratedKey(p: Placed)
    requires p.input.objectKey.None?
    ensures NewKeys([p]) == [Print(KEY_PREFIX, 1)]
  {
    var keys := Keys([p]);
    assert keys == [None];
    assert keys[1..] == [];
    assert Supplied(keys) == [];
    assert Assign(KEY_PREFIX, 1, []) == [];
  }

  // ---------------------------------------------------------------- writing scene by scene

  ghost function Written(highest: nat, placed: seq<Placed>, codes: map<nat, string>): seq<BoardObject> {
    NewObjects(placed, Assign(KEY_PREFIX, highest, Keys(placed)), codes)
  }

  lemma WrittenAppends(highest: nat, done: seq<Placed>, more: seq<Placed>, codes: map<nat, string>)
    ensures Written(highest, done + more, codes) ==
            Written(highest, done, codes) + Written(highest + Unkeyed(done), more, codes)
    ensures Unkeyed(done + more) == Unkeyed(done) + Unkeyed(more)
  {
    KeysAppend(done, more);
    MissingAppends(Keys(done), Keys(more));
    NewKeysAppend(highest, done, more);
    ObjectsAppend(done, more, Assign(KEY_PREFIX, highest, Keys(done + more)), Assign(KEY_PREFIX, highest, Keys(done)),
                  Assign(KEY_PREFIX, highest + Unkeyed(done), Keys(more)), codes);
  }

  lemma NewKeysAppend(highest: nat, done: seq<Placed>, more: seq<Placed>)
    ensures Assign(KEY_PREFIX, highest, Keys(done + more)) ==
            Assign(KEY_PREFIX, highest, Keys(done)) + Assign(KEY_PREFIX, highest + Unkeyed(done), Keys(more))
  {
    KeysAppend(done, more);
    AssignAppends(KEY_PREFIX, highest, Keys(done), Keys(more));
  }

  lemma KeysAppend(done: seq<Placed>, more: seq<Placed>)
    ensures Keys(done + more) == Keys(done) + Keys(more)
  {
  }

  lemma ObjectsAppend(
    done: seq<Placed>, more: seq<Placed>, keys: seq<string>, first: seq<string>, second: seq<string>, codes: map<nat, string>)
    requires |first| == |done| && |second| == |more| && keys == first + second
    ensures NewObjects(done + more, keys, codes) == NewObjects(done, first, codes) + NewObjects(more, second, codes)
  {
  }

  lemma WrittenOne(highest: nat, p: Placed, codes: map<nat, string>)
    ensures var number := highest + Unkeyed([p]);
            Written(highest, [p], codes) ==
            [NewObject(p.sceneKey, p.input, p.input.objectKey.GetOr(Print(KEY_PREFIX, number)), Code(codes, p.input.itemId))]
    ensures Unkeyed([p]) == if p.input.objectKey.None? then 1 else 0
  {
    assert Keys([p]) == [p.input.objectKey];
    AssignOne(KEY_PREFIX, highest, p.input.objectKey);
  }

  lemma WrittenAfterObject(highest: nat, placed: seq<Placed>, j: nat, codes: map<nat, string>, objects: seq<BoardObject>)
    requires j < |placed| && objects == Written(highest, placed[..j], codes)
    ensures var p, number := placed[j], highest + Unkeyed(placed[..j + 1]);
            objects + [NewObject(p.sceneKey, p.input, p.input.objectKey.GetOr(Print(KEY_PREFIX, number)), Code(codes, p.input.itemId))] ==
            Written(highest, placed[..j + 1], codes)
    ensures Unkeyed(placed[..j + 1]) == Unkeyed(placed[..j]) + (if placed[j].input.objectKey.None? then 1 else 0)
  {
    assert placed[..j + 1] == placed[..j] + [placed[j]];
    WrittenAppends(highest, placed[..j], [placed[j]], codes);
    WrittenOne(highest + Unkeyed(placed[..j]), placed[j], codes);
  }

  lemma {:induction false} FlatAppends(scenes: seq<SceneInput>, scene: SceneInput)
    ensures Flat(scenes + [scene]) == Flat(scenes) + Place(scene.sceneKey, scene.objects)
  {
    if scenes == [] {
    } else {
      assert (scenes + [scene])[1..] == scenes[1..] + [scene];
      FlatAppends(scenes[1..], scene);
    }
  }

  ghost predicate SceneLinked(scene: SceneInput, codes: map<nat, string>) {
    forall j :: 0 <= j < |scene.objects| ==> Linked(scene.objects[j], codes)
  }

  lemma AllLinkedAppends(a: seq<Placed>, b: seq<Placed>, codes: map<nat, string>)
    ensures AllLinked(a + b, codes) <==> AllLinked(a, codes) && AllLinked(b, codes)
  {
    if AllLinked(a + b, codes) {
      assert forall i :: 0 <= i < |a| ==> (a + b)[i] == a[i];
      assert forall i :: 0 <= i < |b| ==> (a + b)[|a| + i] == b[i];
    }
  }

  ghost predicate ScenesLinked(scenes: seq<SceneInput>, n: nat, codes: map<nat, string>)
    requires n <= |scenes|
  {
    forall k :: 0 <= k < n ==> SceneLinked(scenes[k], codes)
  }

  lemma PlacedSceneLinked(scene: SceneInput, codes: map<nat, string>)
    ensures AllLinked(Place(scene.sceneKey, scene.objects), codes) <==> SceneLinked(scene, codes)
  {
    var placed := Place(scene.sceneKey, scene.objects);
    forall j | 0 <= j < |placed| ensures Linked(placed[j].input, codes) <==> Linked(scene.objects[j], codes) {
    }
  }

  lemma {:induction false} LinkedSceneByScene(scenes: seq<SceneInput>, codes: map<nat, string>)
    ensures AllLinked(Flat(scenes), codes) <==> ScenesLinked(scenes, |scenes|, codes)
  {
    if scenes == [] {
    } else {
      LinkedSceneByScene(scenes[1..], codes);
      PlacedSceneLinked(scenes[0], codes);
      AllLinkedAppends(Place(scenes[0].sceneKey, scenes[0].objects), Flat(scenes[1..]), codes);
      assert forall k :: 0 < k < |scenes| ==> scenes[k] == scenes[1..][k - 1];
    }
  }

  lemma WrittenAfterScene(
    highest: nat, scenes: seq<SceneInput>, i: nat, codes: map<nat, string>, objects: seq<BoardObject>, more: seq<BoardObject>)
    requires i < |scenes| && objects == Written(highest, Flat(scenes[..i]), codes)
    requires more == Written(highest + Unkeyed(Flat(scenes[..i])), Place(scenes[i].sceneKey, scenes[i].objects), codes)
    ensures objects + more == Written(highest, Flat(scenes[..i + 1]), codes)
    ensures Unkeyed(Flat(scenes[..i + 1])) == Unkeyed(Flat(scenes[..i])) + Unkeyed(Place(scenes[i].sceneKey, scenes[i].objects))
  {
    FlatStep(scenes, i);
    WrittenJoins(highest, Flat(scenes[..i + 1]), Flat(scenes[..i]), Place(scenes[i].sceneKey, scenes[i].objects), codes, objects, more);
  }

  lemma WrittenJoins(
    highest: nat, all: seq<Placed>, done: seq<Placed>, rest: seq<Placed>, codes: map<nat, string>,
    objects: seq<BoardObject>, more: seq<BoardObject>)
    requires all == done + rest && objects == Written(highest, done, codes)
    requires more == Written(highest + Unkeyed(done), rest, codes)
    ensures objects + more == Written(highest, all, codes) && Unkeyed(all) == Unkeyed(done) + Unkeyed(rest)
  {
    WrittenAppends(highest, done, rest, codes);
  }

  lemma FlatStep(scenes: seq<SceneInput>, i: nat)
    requires i < |scenes|
    ensures Flat(scenes[..i + 1]) == Flat(scenes[..i]) + Place(scenes[i].sceneKey, scenes[i].objects)
  {
    assert scenes[..i + 1] == scenes[..i] + [scenes[i]];
    FlatAppends(scenes[..i], scenes[i]);
  }

  // ---------------------------------------------------------------- the service

  class MoodBoardService {
    var boards: seq<Board>

    ghost predicate Valid()
      reads this
    {
      Sound(boards)
    }

    constructor ()
      ensures Valid() && boards == []
    {
      boards := [];
    }

    static method ValidateScene(scene: SceneInput, codes: map<nat, string>) returns (ok: bool)
      ensures ok <==> SceneLinked(scene, codes)
    {
      for j := 0 to |scene.objects|
        invariant forall k :: 0 <= k < j ==> Linked(scene.objects[k], codes)
      {
        if !Linked(scene.objects[j], codes) {
          return false;
        }
      }
      ok := true;
    }

    static method ValidateLinks(scenes: seq<SceneInput>, codes: map<nat, string>) returns (ok: bool)
      ensures ok <==> AllLinked(Flat(scenes), codes)
    {
      for i := 0 to |scenes|
        invariant ScenesLinked(scenes, i, codes)
      {
        var linked := ValidateScene(scenes[i], codes);
        if !linked {
          LinkedSceneByScene(scenes, codes);
          return false;
        }
      }
      LinkedSceneByScene(scenes, codes);
      ok := true;
    }

    static method ValidateLockedObjects(previous: seq<BoardObject>, placed: seq<Placed>, codes: map<nat, string>) returns (ok: bool)
      ensures ok <==> LockedKept(previous, placed, codes)
    {
      for i := 0 to |previous|
        invariant forall k :: 0 <= k < i && previous[k].locked ==> Resubmitted(previous[k], placed, codes)
      {
        if !previous[i].locked {
          continue;
        }
        var next := FindPlaced(placed, previous[i].objectKey);
        if next.None? || placed[next.value].sceneKey != previous[i].sceneKey {
          return false;
        }
        var o := placed[next.value].input;
        if InputSignature(o, Code(codes, o.itemId)) != ObjectSignature(previous[i]) {
          return false;
        }
      }
      ok := true;
    }

    /** Writes one scene's objects, numbering those without a key upwards from `highest` + 1. */
    static method WriteScene(scene: SceneInput, highest: nat, codes: map<nat, string>) returns (objects: seq<BoardObject>, last: nat)
      ensures objects == Written(highest, Place(scene.sceneKey, scene.objects), codes)
      ensures last == highest + Unkeyed(Place(scene.sceneKey, scene.objects))
    {
      ghost var placed := Place(scene.sceneKey, scene.objects);
      objects, last := [], highest;
      for j := 0 to |scene.objects|
        invariant objects == Written(highest, placed[..j], codes) && last == highest + Unkeyed(placed[..j])
      {
        var o := scene.objects[j];
        WrittenAfterObject(highest, placed, j, codes, objects);
        if o.objectKey.None? {
          last := last + 1;
        }
        objects := objects + [NewObject(scene.sceneKey, o, o.objectKey.GetOr(Print(KEY_PREFIX, last)), Code(codes, o.itemId))];
      }
      assert placed[..|scene.objects|] == placed;
    }

    static method WriteObjects(scenes: seq<SceneInput>, highest: nat, codes: map<nat, string>) returns (objects: seq<BoardObject>)
      ensures objects == Written(highest, Flat(scenes), codes)
    {
      objects := [];
      var last := highest;
      for i := 0 to |scenes|
        invariant objects == Written(highest, Flat(scenes[..i]), codes) && last == highest + Unkeyed(Flat(scenes[..i]))
      {
        var more;
        more, last := WriteScene(scenes[i], last, codes);
        WrittenAfterScene(highest, scenes, i, codes, objects, more);
        objects := objects + more;
      }
      assert scenes[..|scenes|] == scenes;
    }

    method Create(sets: map<nat, ItemCodes>, eventId: nat, input: BoardInput) returns (outcome: Outcome)
      requires Valid() && ValidInput(input)
      modifies this
      ensures (boards, outcome) == CreateStep(old(boards), sets, eventId, input)
      ensures Valid()
    {
      CreateKeepsSound(boards, sets, eventId, input);
      if input.requirementSetId !in sets || sets[input.requirementSetId].eventId != eventId {
        return BadRequest;
      }
      if !sets[input.requirementSetId].approved {
        return Conflict;
      }
      var codes := sets[input.requirementSetId].codes;
      var placed := Flat(input.scenes);
      if SuppliedTwice(placed) {
        return BadRequest;
      }
      var linked := ValidateLinks(input.scenes, codes);
      if !linked {
        return BadRequest;
      }
      if input.basedOn.Some? {
        if input.basedOn.value >= |boards| || boards[input.basedOn.value].eventId != eventId {
          return BadRequest;
        }
        var kept := ValidateLockedObjects(boards[input.basedOn.value].objects, placed, codes);
        if !kept {
          return Conflict;
        }
      }
      if !Distinct(SceneKeys(input.scenes)) {
        return UniqueViolation;
      }
      var objects := WriteObjects(input.scenes, HighestSupplied(placed), codes);
      boards := boards + [Board(eventId, input.requirementSetId, input.basedOn, SceneKeys(input.scenes), objects)];
      outcome := Done;
    }
  }
}
