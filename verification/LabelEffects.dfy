/** What a carried out action does to people and faces, and when it is carried out, row by row. */
module LabelEffects {
  import opened LabelTables
  import opened LabelActions
  import opened LabelRuns
  import opened Pick

  predicate ActiveOf(db: Db, face: int, person: int) {
    face in db.faces && db.faces[face].person == person && !db.faces[face].ignored
  }

  ghost predicate HasFace(db: Db, person: int) {
    exists f :: ActiveOf(db, f, person)
  }

  /** Some person with faces, other than `but`, has the name. */
  ghost predicate NameUsed(db: Db, name: string, but: Option<int>) {
    exists p :: p in db.people && Some(p) != but && db.people[p].name == name && HasFace(db, p)
  }

  ghost predicate Target(db: Db, target: int, revision: nat) {
    target in db.people && HasFace(db, target) && db.people[target].name != "" && db.people[target].revision == revision
  }

  ghost predicate OwnFaces(db: Db, faces: seq<int>, person: int) {
    && (forall f | f in faces :: ActiveOf(db, f, person))
    && (forall i, j | 0 <= i < j < |faces| :: faces[i] != faces[j])
  }

  /** What an action demands: the first ones of somebody without a name, the later ones of somebody with one. */
  ghost predicate Permitted(db: Db, r: Request) {
    && r.person in db.people && HasFace(db, r.person) && db.people[r.person].revision == r.revision
    && var unnamed := db.people[r.person].name == "";
    match r.action
    case Name(name, twice) => unnamed && (twice || !NameUsed(db, name, Some(r.person)))
    case Assign(target, revision) => unnamed && target != r.person && Target(db, target, revision)
    case Ignore => unnamed
    case Detach(face) => unnamed && ActiveOf(db, face, r.person) && exists f :: f != face && ActiveOf(db, f, r.person)
    case Rename(name, twice) => !unnamed && (twice || !NameUsed(db, name, Some(r.person)))
    case Unassign(face) => !unnamed && ActiveOf(db, face, r.person)
    case Favorite(face, _) => !unnamed && ActiveOf(db, face, r.person)
    case IgnoreFaces(faces) => !unnamed && OwnFaces(db, faces, r.person)
    case AssignFaces(faces, target, revision) => !unnamed && OwnFaces(db, faces, r.person)
      && Target(db, target, revision)
    case UnassignFaces(faces) => !unnamed && OwnFaces(db, faces, r.person)
    case NameFaces(faces, name, twice) =>
      !unnamed && OwnFaces(db, faces, r.person) && (twice || !NameUsed(db, name, None))
  }

  /** The faces an action is about. */
  ghost predicate Addressed(db: Db, r: Request, f: int) {
    match r.action
    case Name(_, _) => false
    case Rename(_, _) => false
    case Assign(_, _) => ActiveOf(db, f, r.person)
    case Ignore => ActiveOf(db, f, r.person)
    case Detach(face) => f == face
    case Unassign(face) => f == face
    case Favorite(face, _) => f == face
    case IgnoreFaces(faces) => f in faces
    case AssignFaces(faces, _, _) => f in faces
    case UnassignFaces(faces) => f in faces
    case NameFaces(faces, _, _) => f in faces
  }

  /** What becomes of such a face. */
  ghost predicate FaceEffect(db: Db, r: Request, a: Face, b: Face) {
    match r.action
    case Name(_, _) => true
    case Rename(_, _) => true
    case Assign(target, _) => b == Face(target, true, a.ignored, a.favorite)
    case AssignFaces(_, target, _) => b == Face(target, true, a.ignored, a.favorite)
    case Ignore => b == Face(a.person, true, true, a.favorite)
    case IgnoreFaces(_) => b == Face(a.person, true, true, a.favorite)
    case Detach(_) => b == Face(db.nextPerson, true, a.ignored, a.favorite)
    case NameFaces(_, _, _) => b == Face(db.nextPerson, true, a.ignored, a.favorite)
    case Unassign(_) => b == Face(db.nextPerson, true, a.ignored, false)
    case UnassignFaces(_) => b == Face(db.nextPerson, true, a.ignored, false)
    case Favorite(_, on) => b == Face(a.person, a.manual, a.ignored, on)
  }

  /** The name of the person an action adds. */
  ghost function NewName(r: Request): Option<string> {
    match r.action
    case Detach(_) => Some("")
    case Unassign(_) => Some("")
    case UnassignFaces(_) => Some("")
    case NameFaces(_, name, _) => Some(name)
    case _ => None
  }

  /** The name an action gives to its source. */
  ghost function GivenName(r: Request): Option<string> {
    match r.action
    case Name(name, _) => Some(name)
    case Rename(name, _) => Some(name)
    case _ => None
  }

  /** Only revisions rise besides. */
  ghost predicate SameButRevision(a: Person, b: Person) {
    b.name == a.name && b.manual == a.manual && b.source == a.source && b.revision >= a.revision
  }

  ghost predicate FacesChanged(db: Db, r: Request, t: Db) {
    && t.faces.Keys == db.faces.Keys
    && (forall f | f in db.faces && Addressed(db, r, f) :: FaceEffect(db, r, db.faces[f], t.faces[f]))
    && (forall f | f in db.faces && !Addressed(db, r, f) :: t.faces[f] == db.faces[f])
  }

  ghost predicate PeopleChanged(db: Db, r: Request, t: Db) {
    && t.people.Keys == db.people.Keys + (if NewName(r).Some? then {db.nextPerson} else {})
    && t.nextPerson == db.nextPerson + (if NewName(r).Some? then 1 else 0)
    && (NewName(r).Some? ==>
          var p := t.people[db.nextPerson]; p.name == NewName(r).value && p.manual && p.source == "")
    && (forall p | p in db.people && (p != r.person || GivenName(r).None?) ::
         SameButRevision(db.people[p], t.people[p]))
    && (GivenName(r).Some? && r.person in db.people ==>
          var p := t.people[r.person]; p.name == GivenName(r).value && p.manual && p.source == "")
  }

  /** The whole effect on people and faces. */
  ghost predicate RowsChanged(db: Db, r: Request, t: Db) {
    FacesChanged(db, r, t) && PeopleChanged(db, r, t)
  }

  // ---- rows ----

  lemma {:induction false} UpdateChangesFaces(db: Db, ids: seq<int>, c: Change)
    requires forall id | id in ids :: id in db.faces
    requires forall i, j | 0 <= i < j < |ids| :: ids[i] != ids[j]
    ensures forall id | id in ids :: UpdateFaces(db, ids, c).faces[id] == Changed(db.faces[id], c)
  {
    if ids != [] {
      var init, last := ids[..|ids| - 1], ids[|ids| - 1];
      assert ids == init + [last] && last in ids && last !in init;
      forall id | id in init ensures id in db.faces {
        assert id in ids;
      }
      UpdateChangesFaces(db, init, c);
      UpdateRaises(db, init, c);
    }
  }

  lemma {:induction false} UpdateKeepsPeople(db: Db, ids: seq<int>, c: Change)
    requires forall id | id in ids :: id in db.faces
    ensures forall p | p in db.people :: SameButRevision(db.people[p], UpdateFaces(db, ids, c).people[p])
  {
    if ids != [] {
      var init, last := ids[..|ids| - 1], ids[|ids| - 1];
      assert ids == init + [last] && last in ids;
      forall id | id in init ensures id in db.faces {
        assert id in ids;
      }
      UpdateKeepsPeople(db, init, c);
    }
  }

  /** One UPDATE over distinct rows. */
  lemma UpdateEffect(db: Db, ids: seq<int>, c: Change)
    requires forall id | id in ids :: id in db.faces
    requires forall i, j | 0 <= i < j < |ids| :: ids[i] != ids[j]
    ensures var t := UpdateFaces(db, ids, c);
      && t.faces.Keys == db.faces.Keys && t.people.Keys == db.people.Keys && t.nextPerson == db.nextPerson
      && (forall id | id in ids :: t.faces[id] == Changed(db.faces[id], c))
      && (forall id | id in db.faces && id !in ids :: t.faces[id] == db.faces[id])
      && (forall p | p in db.people :: SameButRevision(db.people[p], t.people[p]))
  {
    UpdateChangesFaces(db, ids, c);
    UpdateKeepsPeople(db, ids, c);
    UpdateRaises(db, ids, c);
  }

  // ---- the actions ----

  lemma NamingEffect(db: Db, r: Request, order: seq<int>)
    requires SourceRight(db, r) && IsOrder(db, r.person, order) && Mutate(db, r, order).Done?
    requires r.action.Name? || r.action.Rename?
    ensures RowsChanged(db, r, Mutate(db, r, order).db)
  {}

  lemma ActiveIs(db: Db, person: int)
    ensures forall f :: f in Active(db, person) <==> ActiveOf(db, f, person)
    ensures Active(db, person) != {} <==> HasFace(db, person)
  {
    if Active(db, person) != {} {
      var f := Element(Active(db, person));
      assert ActiveOf(db, f, person);
    }
  }

  lemma OrderIs(db: Db, person: int, order: seq<int>)
    requires IsOrder(db, person, order)
    ensures forall f :: f in order <==> ActiveOf(db, f, person)
  {
    ActiveIs(db, person);
  }

  /** An UPDATE of faces as they are, for the actions that add nobody. */
  lemma MovingEffect(db: Db, r: Request, ids: seq<int>, c: Change)
    requires OwnFaces(db, ids, r.person) && (forall f :: Addressed(db, r, f) <==> f in ids)
    requires NewName(r).None? && GivenName(r).None?
    requires forall f | f in ids :: FaceEffect(db, r, db.faces[f], Changed(db.faces[f], c))
    ensures RowsChanged(db, r, UpdateFaces(db, ids, c))
  {
    UpdateEffect(db, ids, c);
    hide UpdateFaces;
    hide Changed;
    hide FaceEffect;
    hide Addressed;
    hide NewName;
    hide GivenName;
  }

  /** The same after a person has been added. */
  lemma SplittingEffect(db: Db, r: Request, ids: seq<int>, c: Change)
    requires OwnFaces(db, ids, r.person) && (forall f :: Addressed(db, r, f) <==> f in ids)
    requires NewName(r).Some? && GivenName(r).None? && db.nextPerson !in db.people
    requires forall f | f in ids :: FaceEffect(db, r, db.faces[f], Changed(db.faces[f], c))
    ensures RowsChanged(db, r, UpdateFaces(AddPerson(db, NewName(r).value), ids, c))
  {
    var t := AddPerson(db, NewName(r).value);
    UpdateEffect(t, ids, c);
    hide UpdateFaces;
    hide Changed;
    hide FaceEffect;
    hide Addressed;
    hide NewName;
    hide GivenName;
    assert t.faces == db.faces;
  }

  lemma UnassigningRows(db: Db, r: Request, s: Db, t: Db, u: Db)
    requires r.action.Unassign? && ActiveOf(db, r.action.face, r.person) && db.nextPerson !in db.people
    requires s == AddPerson(db, "") && t.faces.Keys == s.faces.Keys == u.faces.Keys
    requires t.people.Keys == s.people.Keys == u.people.Keys && t.nextPerson == s.nextPerson == u.nextPerson
    requires t.faces == s.faces[r.action.face := Changed(s.faces[r.action.face], MoveTo(db.nextPerson, false))]
    requires u.faces == t.faces[r.action.face := Changed(t.faces[r.action.face], SetFavorite(false))]
    requires forall p | p in s.people :: SameButRevision(s.people[p], t.people[p])
    requires forall p | p in s.people :: SameButRevision(t.people[p], u.people[p])
    ensures RowsChanged(db, r, u)
  {}

  lemma OneFaceUpdated(db: Db, face: int, c: Change)
    requires face in db.faces
    ensures UpdateFaces(db, [face], c).faces == db.faces[face := Changed(db.faces[face], c)]
  {
    UpdateEffect(db, [face], c);
    assert face in [face] && forall f | f in [face] :: f == face;
    hide UpdateFaces;
  }

  lemma UnassigningEffect(db: Db, r: Request)
    requires r.action.Unassign? && ActiveOf(db, r.action.face, r.person) && db.nextPerson !in db.people
    ensures var t := UpdateFaces(AddPerson(db, ""), [r.action.face], MoveTo(db.nextPerson, false));
      RowsChanged(db, r, UpdateFaces(t, [r.action.face], SetFavorite(false)))
  {
    hide UpdateFaces;
    hide RowsChanged;
    hide Changed;
    hide SameButRevision;
    var face, s := r.action.face, AddPerson(db, "");
    var t := UpdateFaces(s, [face], MoveTo(db.nextPerson, false));
    OneFaceUpdated(s, face, MoveTo(db.nextPerson, false));
    UpdateEffect(s, [face], MoveTo(db.nextPerson, false));
    OneFaceUpdated(t, face, SetFavorite(false));
    UpdateEffect(t, [face], SetFavorite(false));
    UnassigningRows(db, r, s, t, UpdateFaces(t, [face], SetFavorite(false)));
  }

  /** Whatever is carried out has its effect. */
  lemma MutateEffect(db: Db, r: Request, order: seq<int>)
    requires SourceRight(db, r) && IsOrder(db, r.person, order) && Mutate(db, r, order).Done?
    requires db.nextPerson !in db.people
    ensures RowsChanged(db, r, Mutate(db, r, order).db)
  {
    hide UpdateFaces;
    hide AddPerson;
    hide RowsChanged;
    ActiveIs(db, r.person);
    OrderIs(db, r.person, order);
    match r.action
    case Name(_, _) => NamingEffect(db, r, order);
    case Rename(_, _) => NamingEffect(db, r, order);
    case Assign(target, _) => MovingEffect(db, r, order, MoveTo(target, false));
    case Ignore => MovingEffect(db, r, order, SetIgnored);
    case Detach(face) => SplittingEffect(db, r, [face], MoveTo(db.nextPerson, false));
    case Unassign(face) => UnassigningEffect(db, r);
    case Favorite(face, on) => MovingEffect(db, r, [face], SetFavorite(on));
    case IgnoreFaces(faces) => MovingEffect(db, r, faces, SetIgnored);
    case AssignFaces(faces, target, _) => MovingEffect(db, r, faces, MoveTo(target, false));
    case UnassignFaces(faces) => SplittingEffect(db, r, faces, MoveTo(db.nextPerson, true));
    case NameFaces(faces, _, _) => SplittingEffect(db, r, faces, MoveTo(db.nextPerson, false));
  }

  // ---- when an action is carried out ----

  lemma SecondFace(db: Db, face: int, person: int)
    requires OneFace(db, face, person)
    ensures |Active(db, person)| >= 2 <==> exists f :: f != face && ActiveOf(db, f, person)
  {
    ActiveIs(db, person);
    var rest := Active(db, person) - {face};
    assert Active(db, person) == rest + {face} && |Active(db, person)| == |rest| + 1;
    if rest != {} {
      var f := Element(rest);
      assert f != face && ActiveOf(db, f, person);
    }
    if f :| f != face && ActiveOf(db, f, person) {
      assert f in rest;
    }
  }

  lemma TakenIs(db: Db, name: string, but: int)
    ensures Taken(db, name, but) <==> NameUsed(db, name, Some(but))
    ensures InUse(db, name) <==> NameUsed(db, name, None)
  {
    forall p ensures Active(db, p) != {} <==> HasFace(db, p) {
      ActiveIs(db, p);
    }
    if p :| p in db.people && p != but && db.people[p].name == name && Exists(db, p) {
      assert Some(p) != Some(but) && db.people[p].name == name && HasFace(db, p);
    }
    if p :| p in db.people && db.people[p].name == name && Exists(db, p) {
      assert Some(p) != None && db.people[p].name == name && HasFace(db, p);
    }
  }

  lemma SelectionIs(db: Db, faces: seq<int>, person: int)
    ensures AllActive(db, faces, person) <==> OwnFaces(db, faces, person)
  {
    ActiveIs(db, person);
  }

  /** An action is carried out exactly when it is permitted. */
  lemma DoneIsPermitted(db: Db, r: Request, order: seq<int>)
    requires SourceRight(db, r) ==> IsOrder(db, r.person, order)
    ensures SourceRight(db, r) && Mutate(db, r, order).Done? <==> Permitted(db, r)
    ensures SourceRight(db, r) && Mutate(db, r, order).NameExists? ==>
      && (r.action.Name? || r.action.Rename? || r.action.NameFaces?) && !r.action.allowDuplicate
      && NameUsed(db, r.action.name, if r.action.NameFaces? then None else Some(r.person))
  {
    hide UpdateFaces;
    hide AddPerson;
    hide SetName;
    hide HasFace;
    hide Active;
    hide NameUsed;
    hide Taken;
    hide InUse;
    hide AllActive;
    hide OwnFaces;
    ActiveIs(db, r.person);
    match r.action
    case Name(name, _) => TakenIs(db, name, r.person);
    case Rename(name, _) => TakenIs(db, name, r.person);
    case Assign(target, _) => ActiveIs(db, target);
    case Ignore =>
    case Detach(face) =>
      if OneFace(db, face, r.person) {
        SecondFace(db, face, r.person);
      }
    case Unassign(_) =>
    case Favorite(_, _) =>
    case IgnoreFaces(faces) => SelectionIs(db, faces, r.person);
    case AssignFaces(faces, target, _) =>
      SelectionIs(db, faces, r.person);
      ActiveIs(db, target);
    case UnassignFaces(faces) => SelectionIs(db, faces, r.person);
    case NameFaces(faces, name, _) =>
      SelectionIs(db, faces, r.person);
      TakenIs(db, name, r.person);
  }

  /** What the receipt tells the caller. */
  ghost predicate ReceiptRight(db: Db, r: Request, t: Db, receipt: Receipt) {
    && receipt.source == r.person
    && receipt.target == (match r.action
                          case Assign(target, _) => target
                          case AssignFaces(_, target, _) => target
                          case NameFaces(_, _, _) => db.nextPerson
                          case _ => 0)
    && receipt.newId == (if r.action.Detach? || r.action.Unassign? || r.action.UnassignFaces? then db.nextPerson else 0)
    && receipt.faces == (match r.action
                         case Detach(_) => 1
                         case Unassign(_) => 1
                         case Favorite(_, _) => 1
                         case IgnoreFaces(faces) => |faces|
                         case AssignFaces(faces, _, _) => |faces|
                         case UnassignFaces(faces) => |faces|
                         case NameFaces(faces, _, _) => |faces|
                         case _ => |Active(db, r.person)|)
    && receipt.groups == (if r.action.Name? || r.action.Assign? || r.action.Ignore? then 1 else 0)
    && receipt.sourceRevision == (if r.person in t.people then t.people[r.person].revision else 0)
  }

  /** One request in terms of the tables: replayed, refused, or carried out with its effect and its receipt. */
  lemma ApplyEffect(db: Db, actor: int, r: Request, order: seq<int>)
    requires SourceRight(db, r) ==> IsOrder(db, r.person, order)
    requires db.nextPerson !in db.people
    ensures var (t, answer) := Apply(db, actor, r, order);
      if db.dataset == r.dataset && (actor, r.operation) !in db.receipts && Permitted(db, r)
      then
        && answer.Receipted? && RowsChanged(db, r, t) && ReceiptRight(db, r, t, answer.receipt)
        && t.receipts == db.receipts[(actor, r.operation) := Stored(r, answer.receipt)]
        && t.revision == db.revision + 1 && t.dataset == db.dataset
      else
        && t == db
        && (answer.Receipted? ==>
              && db.dataset == r.dataset && (actor, r.operation) in db.receipts
              && db.receipts[(actor, r.operation)] == Stored(r, answer.receipt))
        && (answer.DuplicateName? ==>
              && (r.action.Name? || r.action.Rename? || r.action.NameFaces?) && !r.action.allowDuplicate
              && NameUsed(db, r.action.name, if r.action.NameFaces? then None else Some(r.person)))
  {
    DoneIsPermitted(db, r, order);
    hide Permitted;
    hide NameUsed;
    if CarriedOut(db, actor, r, order) {
      MutateEffect(db, r, order);
      MutateReceipt(db, r, order);
      MutateKeeps(db, r, order);
      EffectOnly(db, r, Mutate(db, r, order).db, Apply(db, actor, r, order).0);
      hide Mutate;
      hide RowsChanged;
    }
  }

  lemma EffectOnly(db: Db, r: Request, t: Db, u: Db)
    requires RowsChanged(db, r, t) && u.faces == t.faces && u.people == t.people && u.nextPerson == t.nextPerson
    ensures RowsChanged(db, r, u)
  {}

  lemma MutateReceipt(db: Db, r: Request, order: seq<int>)
    requires SourceRight(db, r) && IsOrder(db, r.person, order) && Mutate(db, r, order).Done?
    ensures var t, receipt := Mutate(db, r, order).db, Mutate(db, r, order).receipt;
      ReceiptRight(db, r, t,
        receipt.(sourceRevision := if r.person in t.people then t.people[r.person].revision else 0))
  {
    hide UpdateFaces;
    hide AddPerson;
    hide SetName;
  }
}
