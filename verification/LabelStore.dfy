/** The labeling transaction in place, with its rollback. */
module LabelStore {
  import opened LabelTables
  import opened LabelActions
  import opened LabelEffects
  import opened Batches

  class Labels {
    var db: Db

    /** UPDATE of several rows of photo_faces. */
    method UpdateRows(ids: seq<int>, c: Change)
      requires forall id | id in ids :: id in db.faces
      modifies this
      ensures db == UpdateFaces(old(db), ids, c)
    {
      ghost var start := db;
      for i := 0 to |ids|
        invariant forall id | id in ids[..i] :: id in start.faces
        invariant db == UpdateFaces(start, ids[..i], c)
      {
        assert ids[i] in ids && ids[..i + 1] == ids[..i] + [ids[i]];
        assert ids[..i + 1][..i] == ids[..i];
        db := UpdateFace(db, ids[i], Changed(db.faces[ids[i]], c));
      }
      assert ids[..|ids|] == ids;
    }

    method ActiveOrder(person: int) returns (order: seq<int>)
      ensures IsOrder(db, person, order)
    {
      var ids := Active(db, person);
      order := AllIds(ids);
      forall id ensures id in order <==> id in Elements(order) {}
    }

    /** applyLabelAction; whatever was written before a refusal is rolled back. */
    method ApplyLabelAction(actor: int, r: Request) returns (answer: Answer, order: seq<int>)
      modifies this
      ensures SourceRight(old(db), r) ==> IsOrder(old(db), r.person, order)
      ensures (db, answer) == Apply(old(db), actor, r, order)
      ensures old(db).nextPerson !in old(db).people ==>
        if old(db).dataset == r.dataset && (actor, r.operation) !in old(db).receipts && Permitted(old(db), r)
        then answer.Receipted? && RowsChanged(old(db), r, db) && ReceiptRight(old(db), r, db, answer.receipt)
        else db == old(db)
    {
      hide Permitted;
      hide RowsChanged;
      hide ReceiptRight;
      var begun := db;
      order := ActiveOrder(r.person);
      if db.nextPerson !in db.people {
        ApplyEffect(db, actor, r, order);
      }
      if db.dataset != r.dataset {
        return Rejected, order;
      }
      if (actor, r.operation) in db.receipts {
        var stored := db.receipts[(actor, r.operation)];
        return if stored.request != r then Rejected else Receipted(stored.receipt), order;
      }
      if !SourceRight(db, r) {
        return Rejected, order;
      }
      var effect := Carry(r, order);
      match effect {
        case Left =>
          db := begun;
          answer := Rejected;
        case Twice =>
          db := begun;
          answer := DuplicateName;
        case Right(receipt) =>
          var recorded, out := Recorded(db, actor, r, receipt).0, Recorded(db, actor, r, receipt).1;
          db := recorded;
          answer := Receipted(out);
      }
    }

    /** The switch over the actions. */
    method Carry(r: Request, order: seq<int>) returns (w: Written)
      requires SourceRight(db, r) && IsOrder(db, r.person, order)
      modifies this
      ensures Mutate(old(db), r, order)
        == (match w case Left => Refused case Twice => NameExists case Right(receipt) => Done(db, receipt))
    {
      var count := |Active(db, r.person)|;
      match r.action {
        case Name(name, allow) =>
          if !allow && Taken(db, name, r.person) {
            return Twice;
          }
          db := SetName(db, r.person, name);
          w := Right(Receipt(r.person, 0, 0, count, 1, 0));
        case Rename(name, allow) =>
          if !allow && Taken(db, name, r.person) {
            return Twice;
          }
          db := SetName(db, r.person, name);
          w := Right(Receipt(r.person, 0, 0, count, 0, 0));
        case Assign(target, revision) =>
          if target == r.person || !AssignTarget(db, target, revision) {
            return Left;
          }
          UpdateRows(order, MoveTo(target, false));
          w := Right(Receipt(r.person, target, 0, count, 1, 0));
        case Ignore =>
          UpdateRows(order, SetIgnored);
          w := Right(Receipt(r.person, 0, 0, count, 1, 0));
        case Detach(face) =>
          if count < 2 || !OneFace(db, face, r.person) {
            return Left;
          }
          w := MoveToNew(r, face);
        case Unassign(face) =>
          if !OneFace(db, face, r.person) {
            return Left;
          }
          w := MoveToNew(r, face);
          UpdateRows([face], SetFavorite(false));
        case Favorite(face, on) =>
          if !OneFace(db, face, r.person) {
            return Left;
          }
          UpdateRows([face], SetFavorite(on));
          w := Right(Receipt(r.person, 0, 0, 1, 0, 0));
        case _ =>
          w := CarryBatch(r);
      }
    }

    method MoveToNew(r: Request, face: int) returns (w: Written)
      requires face in db.faces
      modifies this
      ensures w == Right(Receipt(r.person, 0, old(db).nextPerson, 1, 0, 0))
      ensures db == UpdateFaces(AddPerson(old(db), ""), [face], MoveTo(old(db).nextPerson, false))
    {
      var person := db.nextPerson;
      db := AddPerson(db, "");
      UpdateRows([face], MoveTo(person, false));
      w := Right(Receipt(r.person, 0, person, 1, 0, 0));
    }

    /** labelFaceBatchTx: the whole selection is checked before anything is written. */
    method CarryBatch(r: Request) returns (w: Written)
      requires r.action.IgnoreFaces? || r.action.AssignFaces? || r.action.UnassignFaces? || r.action.NameFaces?
      requires SourceRight(db, r)
      modifies this
      ensures forall order | IsOrder(old(db), r.person, order) ::
        Mutate(old(db), r, order)
          == (match w case Left => Refused case Twice => NameExists case Right(receipt) => Done(db, receipt))
    {
      var faces := r.action.faces;
      if !AllActive(db, faces, r.person) {
        return Left;
      }
      if r.action.IgnoreFaces? {
        UpdateRows(faces, SetIgnored);
        return Right(Receipt(r.person, 0, 0, |faces|, 0, 0));
      }
      var person := db.nextPerson;
      if r.action.AssignFaces? {
        if !AssignTarget(db, r.action.target, r.action.targetRevision) {
          return Left;
        }
        UpdateRows(faces, MoveTo(r.action.target, false));
        return Right(Receipt(r.person, r.action.target, 0, |faces|, 0, 0));
      }
      if r.action.NameFaces? && !r.action.allowDuplicate && InUse(db, r.action.name) {
        return Twice;
      }
      db := AddPerson(db, if r.action.NameFaces? then r.action.name else "");
      UpdateRows(faces, MoveTo(person, r.action.UnassignFaces?));
      w := Right(if r.action.NameFaces? then Receipt(r.person, person, 0, |faces|, 0, 0)
        else Receipt(r.person, 0, person, |faces|, 0, 0));
    }
  }

  /** How far the transaction got. */
  datatype Written = Left | Twice | Right(receipt: Receipt)
}
