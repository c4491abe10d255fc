/** People, faces and receipts as the labeling transaction sees them, with the revision triggers. */
module LabelTables {

  datatype Option<+T> = None | Some(value: T)

  datatype Person = Person(name: string, manual: bool, source: string, revision: nat)

  datatype Face = Face(person: int, manual: bool, ignored: bool, favorite: bool)

  datatype Action =
    | Name(name: string, allowDuplicate: bool)
    | Rename(name: string, allowDuplicate: bool)
    | Assign(target: int, targetRevision: nat)
    | Ignore
    | Detach(face: int)
    | Unassign(face: int)
    | Favorite(face: int, on: bool)
    | IgnoreFaces(faces: seq<int>)
    | AssignFaces(faces: seq<int>, target: int, targetRevision: nat)
    | UnassignFaces(faces: seq<int>)
    | NameFaces(faces: seq<int>, name: string, allowDuplicate: bool)

  /** The content of a request; its fingerprint is a hash of all of it. */
  datatype Request = Request(dataset: int, operation: int, person: int, revision: nat, action: Action)

  datatype Receipt = Receipt(source: int, target: int, newId: int, faces: nat, groups: nat, sourceRevision: nat)

  datatype Stored = Stored(request: Request, receipt: Receipt)

  datatype Db = Db(
    dataset: int,
    people: map<int, Person>,
    faces: map<int, Face>,
    receipts: map<(int, int), Stored>,   // by actor and operation
    nextPerson: int,
    revision: nat)

  // ---- rows and their triggers ----

  function Raise(people: map<int, Person>, ids: set<int>, n: nat): map<int, Person> {
    map p | p in people :: if p in ids then people[p].(revision := people[p].revision + n) else people[p]
  }

  /** How often the triggers on photo_faces raise the revisions of the old and the new person. */
  function Raises(before: Face, after: Face): nat {
    (if after.person != before.person || after.ignored != before.ignored then 1 else 0)
    + (if after.manual != before.manual || after.favorite != before.favorite then 1 else 0)
  }

  function UpdateFace(db: Db, id: int, after: Face): Db
    requires id in db.faces
  {
    db.(faces := db.faces[id := after],
      people := Raise(db.people, {db.faces[id].person, after.person}, Raises(db.faces[id], after)))
  }

  /** What an UPDATE statement does to one row. */
  datatype Change = MoveTo(person: int, unfavorite: bool) | SetIgnored | SetFavorite(on: bool)

  function Changed(f: Face, c: Change): Face {
    match c
    case MoveTo(person, unfavorite) => Face(person, true, f.ignored, f.favorite && !unfavorite)
    case SetIgnored => f.(ignored := true, manual := true)
    case SetFavorite(on) => f.(favorite := on)
  }

  /** One UPDATE over several rows. */
  function UpdateFaces(db: Db, ids: seq<int>, c: Change): (after: Db)
    requires forall id | id in ids :: id in db.faces
    ensures after.faces.Keys == db.faces.Keys && after.people.Keys == db.people.Keys
  {
    if ids == [] then db
    else
      assert forall id | id in ids[..|ids| - 1] :: id in ids;
      var t := UpdateFaces(db, ids[..|ids| - 1], c);
      var last := ids[|ids| - 1];
      assert last in ids;
      UpdateFace(t, last, Changed(t.faces[last], c))
  }

  /** UPDATE of a name; the triggers count a changed name and a changed origin. */
  function SetName(db: Db, id: int, name: string): Db
    requires id in db.people
  {
    var p := db.people[id];
    var n := (if p.name != name then 1 else 0) + (if !p.manual || p.source != "" then 1 else 0);
    db.(people := db.people[id := Person(name, true, "", p.revision + n)])
  }

  /** INSERT of a person; its revision starts at 1. */
  function AddPerson(db: Db, name: string): Db {
    db.(people := db.people[db.nextPerson := Person(name, true, "", 1)], nextPerson := db.nextPerson + 1)
  }

  // ---- queries ----

  /** Ids of the active faces of a person. */
  function Active(db: Db, person: int): set<int> {
    set id | id in db.faces && db.faces[id].person == person && !db.faces[id].ignored
  }

  predicate Exists(db: Db, person: int) {
    person in db.people && Active(db, person) != {}
  }

  /** Another existing person has the name. */
  predicate Taken(db: Db, name: string, but: int) {
    exists p | p in db.people :: p != but && db.people[p].name == name && Exists(db, p)
  }

  predicate InUse(db: Db, name: string) {
    exists p | p in db.people :: db.people[p].name == name && Exists(db, p)
  }

  predicate AllActive(db: Db, faces: seq<int>, person: int) {
    (forall f | f in faces :: f in Active(db, person)) && (forall i, j | 0 <= i < j < |faces| :: faces[i] != faces[j])
  }

  /** labelPeople with a revision: somebody else to assign to. */
  predicate AssignTarget(db: Db, target: int, revision: nat) {
    Exists(db, target) && db.people[target].name != "" && db.people[target].revision == revision
  }

  predicate Managing(a: Action) {
    a.Rename? || a.Unassign? || a.Favorite? || a.IgnoreFaces? || a.AssignFaces? || a.UnassignFaces? || a.NameFaces?
  }
}
