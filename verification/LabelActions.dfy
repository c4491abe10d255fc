/** Labeling actions with durable receipts: each is carried out at most once. */
module LabelActions {
  import opened LabelTables

  datatype Effect = Refused | NameExists | Done(db: Db, receipt: Receipt)

  /** What every action demands of its source. */
  predicate SourceRight(db: Db, r: Request) {
    && Exists(db, r.person) && db.people[r.person].revision == r.revision
    && (db.people[r.person].name != "") == Managing(r.action)
  }

  /** The rows of an UPDATE by person come in the given order. */
  predicate IsOrder(db: Db, person: int, order: seq<int>) {
    && AllActive(db, order, person) && forall id | id in Active(db, person) :: id in order
  }

  predicate OneFace(db: Db, face: int, person: int) {
    face in db.faces && db.faces[face].person == person && !db.faces[face].ignored
  }

  function FacesChecked(db: Db, r: Request, faces: seq<int>, c: Change): Effect {
    if !AllActive(db, faces, r.person) then Refused
    else Done(UpdateFaces(db, faces, c), Receipt(r.person, 0, 0, |faces|, 0, 0))
  }

  /** The switch over the actions; `order` is the row order of an UPDATE by person. */
  function Mutate(db: Db, r: Request, order: seq<int>): Effect
    requires SourceRight(db, r) && IsOrder(db, r.person, order)
  {
    var count := |Active(db, r.person)|;
    match r.action
    case Name(name, allow) =>
      if !allow && Taken(db, name, r.person) then NameExists
      else Done(SetName(db, r.person, name), Receipt(r.person, 0, 0, count, 1, 0))
    case Rename(name, allow) =>
      if !allow && Taken(db, name, r.person) then NameExists
      else Done(SetName(db, r.person, name), Receipt(r.person, 0, 0, count, 0, 0))
    case Assign(target, revision) =>
      if target == r.person || !AssignTarget(db, target, revision) then Refused
      else Done(UpdateFaces(db, order, MoveTo(target, false)), Receipt(r.person, target, 0, count, 1, 0))
    case Ignore => Done(UpdateFaces(db, order, SetIgnored), Receipt(r.person, 0, 0, count, 1, 0))
    case Detach(face) =>
      if count < 2 || !OneFace(db, face, r.person) then Refused
      else
        var t := AddPerson(db, "");
        Done(UpdateFaces(t, [face], MoveTo(db.nextPerson, false)), Receipt(r.person, 0, db.nextPerson, 1, 0, 0))
    case Unassign(face) =>
      if !OneFace(db, face, r.person) then Refused
      else
        var t := UpdateFaces(AddPerson(db, ""), [face], MoveTo(db.nextPerson, false));
        Done(UpdateFaces(t, [face], SetFavorite(false)), Receipt(r.person, 0, db.nextPerson, 1, 0, 0))
    case Favorite(face, on) =>
      if !OneFace(db, face, r.person) then Refused
      else Done(UpdateFaces(db, [face], SetFavorite(on)), Receipt(r.person, 0, 0, 1, 0, 0))
    case IgnoreFaces(faces) => FacesChecked(db, r, faces, SetIgnored)
    case AssignFaces(faces, target, revision) =>
      if !AllActive(db, faces, r.person) || !AssignTarget(db, target, revision) then Refused
      else Done(UpdateFaces(db, faces, MoveTo(target, false)), Receipt(r.person, target, 0, |faces|, 0, 0))
    case UnassignFaces(faces) =>
      if !AllActive(db, faces, r.person) then Refused
      else Done(UpdateFaces(AddPerson(db, ""), faces, MoveTo(db.nextPerson, true)),
        Receipt(r.person, 0, db.nextPerson, |faces|, 0, 0))
    case NameFaces(faces, name, allow) =>
      if !AllActive(db, faces, r.person) then Refused
      else if !allow && InUse(db, name) then NameExists
      else Done(UpdateFaces(AddPerson(db, name), faces, MoveTo(db.nextPerson, false)),
        Receipt(r.person, db.nextPerson, 0, |faces|, 0, 0))
  }

  datatype Answer = Rejected | DuplicateName | Receipted(receipt: Receipt)

  /** The new revision, the source revision and the receipt end the transaction. */
  function Recorded(db: Db, actor: int, r: Request, receipt: Receipt): (Db, Receipt) {
    var out := receipt.(sourceRevision := if r.person in db.people then db.people[r.person].revision else 0);
    (db.(revision := db.revision + 1, receipts := db.receipts[(actor, r.operation) := Stored(r, out)]), out)
  }

  /** One request as one transaction: the database after it and the answer. */
  function Apply(db: Db, actor: int, r: Request, order: seq<int>): (Db, Answer)
    requires SourceRight(db, r) ==> IsOrder(db, r.person, order)
  {
    if db.dataset != r.dataset then (db, Rejected)
    else if (actor, r.operation) in db.receipts then
      var stored := db.receipts[(actor, r.operation)];
      (db, if stored.request != r then Rejected else Receipted(stored.receipt))
    else if !SourceRight(db, r) then (db, Rejected)
    else match Mutate(db, r, order)
      case Refused => (db, Rejected)
      case NameExists => (db, DuplicateName)
      case Done(after, receipt) =>
        var (recorded, out) := Recorded(after, actor, r, receipt);
        (recorded, Receipted(out))
  }

  /** The request is carried out, neither replayed nor refused. */
  predicate CarriedOut(db: Db, actor: int, r: Request, order: seq<int>)
    requires SourceRight(db, r) ==> IsOrder(db, r.person, order)
  {
    && db.dataset == r.dataset && (actor, r.operation) !in db.receipts
    && SourceRight(db, r) && Mutate(db, r, order).Done?
  }
}
