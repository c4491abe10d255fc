/** Photos, their faces, and the twin tables that hold what is hidden or missing.

    Only images are modelled.  A row of media_index is keyed by the entity it describes; every
    statement still finds its rows by path, as the triggers and queries do. */
module IdentityTables {

  /** photo_entities; `manual` stands for manual_revision > 0. */
  datatype Entity = Entity(path: string, missing: bool, manual: bool)

  datatype Media = Media(path: string, admin: bool)

  /** photo_faces; `marked` is favorite, ignored or drawn. */
  datatype Face = Face(entity: int, path: string, person: int, manual: bool, marked: bool)

  datatype Kept = Kept(retention: int, face: Face)

  datatype Store = Store(
    entities: map<int, Entity>,
    media: map<int, Media>,
    keptMedia: map<int, Media>,
    faces: map<int, Face>,
    kept: map<int, Kept>,
    nextEntity: int,
    nextFace: int)

  /** Present and not private. */
  predicate Public(s: Store, e: int) {
    e in s.media && !s.media[e].admin
  }

  ghost predicate PathsUnique(s: Store) {
    forall a, b | a in s.entities && b in s.entities && s.entities[a].path == s.entities[b].path :: a == b
  }

  /** Every entity has its row in the table its state asks for, under its own path. */
  ghost predicate RowsRight(s: Store) {
    && (forall e :: e in s.media <==> e in s.entities && !s.entities[e].missing)
    && (forall e :: e in s.keptMedia <==> e in s.entities && s.entities[e].missing)
    && (forall e | e in s.media :: s.media[e].path == s.entities[e].path)
    && (forall e | e in s.keptMedia :: s.keptMedia[e].path == s.entities[e].path)
  }

  ghost predicate FaceRight(s: Store, f: Face) {
    f.entity in s.entities && f.path == s.entities[f.entity].path
  }

  /** A face is live exactly when its photo is present and public. */
  ghost predicate FacesRight(s: Store) {
    && (forall id | id in s.faces :: FaceRight(s, s.faces[id]) && Public(s, s.faces[id].entity))
    && (forall id | id in s.kept :: FaceRight(s, s.kept[id].face) && !Public(s, s.kept[id].face.entity))
    && (forall id | id in s.kept :: s.kept[id].retention == s.kept[id].face.entity)
    && s.faces.Keys !! s.kept.Keys
  }

  ghost predicate IdsRight(s: Store) {
    && (forall e | e in s.entities :: e < s.nextEntity)
    && (forall id | id in s.faces || id in s.kept :: id < s.nextFace)
  }

  ghost predicate Inv(s: Store) {
    PathsUnique(s) && RowsRight(s) && FacesRight(s) && IdsRight(s)
  }

  /** All faces, wherever they are. */
  function Account(s: Store): map<int, Face> {
    map id | id in s.faces.Keys + s.kept.Keys :: if id in s.faces then s.faces[id] else s.kept[id].face
  }

  // ---- visibility ----

  function RowsAt(rows: map<int, Media>, paths: set<string>): set<int> {
    set e | e in rows && rows[e].path in paths
  }

  function FacesAt(s: Store, paths: set<string>): set<int> {
    set id | id in s.faces && s.faces[id].path in paths
  }

  function KeptAt(s: Store, paths: set<string>): set<int> {
    set id | id in s.kept && s.kept[id].face.path in paths
  }

  /** The trigger photo_identity_private: the faces of the path are copied, unless already kept,
      and deleted. */
  function Archive(s: Store, path: string): Store {
    s.(kept := s.kept + (map id | id in FacesAt(s, {path}) && id !in s.kept :: Kept(s.faces[id].entity, s.faces[id])),
       faces := s.faces - FacesAt(s, {path}))
  }

  /** The trigger photo_identity_public: everything kept for the path returns. */
  function Publish(s: Store, path: string): Store {
    s.(faces := s.faces + (map id | id in KeptAt(s, {path}) :: s.kept[id].face),
       kept := s.kept - KeptAt(s, {path}))
  }

  /** UPDATE of admin_only in one row, with the trigger it fires. */
  function SetAdmin(s: Store, e: int, admin: bool): Store
    requires e in s.media
  {
    var t := s.(media := s.media[e := s.media[e].(admin := admin)]);
    if admin == s.media[e].admin then t
    else if admin then Archive(t, s.media[e].path)
    else Publish(t, s.media[e].path)
  }

  // ---- presence ----

  /** The body of the loop in retainSelectionTx: copy the rows of one present entity. */
  function Retain(s: Store, e: int): Store
    requires e in s.entities
  {
    var path := s.entities[e].path;
    var rows := RowsAt(s.media, {path});
    s.(keptMedia := s.keptMedia + (map r | r in rows :: s.media[r]),
       kept := s.kept + (map id | id in FacesAt(s, {path}) :: Kept(e, s.faces[id])),
       entities := s.entities[e := s.entities[e].(missing := true)])
  }

  /** DELETE FROM media_index for the paths; photo_media_faces_delete removes the live faces. */
  function DeleteRows(s: Store, paths: set<string>): Store {
    s.(media := s.media - RowsAt(s.media, paths), faces := s.faces - FacesAt(s, paths))
  }

  /** restoreEntityTx; a private photo keeps its faces archived. */
  function Restore(s: Store, e: int): Store
    requires e in s.entities
  {
    if !s.entities[e].missing then s
    else
      var path := s.entities[e].path;
      var back := if e in s.keptMedia then map[e := s.keptMedia[e]] else map[];
      var t := s.(media := s.media + back, keptMedia := s.keptMedia - {e},
                  entities := s.entities[e := s.entities[e].(missing := false)]);
      if exists r :: r in t.media && t.media[r].path == path && t.media[r].admin then t
      else
        var ids := KeptFor(t, e);
        t.(faces := t.faces + (map id | id in ids :: t.kept[id].face), kept := t.kept - ids)
  }

  function KeptFor(s: Store, e: int): set<int> {
    set id | id in s.kept && s.kept[id].retention == e
  }

  /** purgeEntityTx. */
  function Purge(s: Store, e: int): Store
    requires e in s.entities
  {
    s.(kept := s.kept - KeptFor(s, e), keptMedia := s.keptMedia - {e},
       entities := if s.entities[e].missing then s.entities - {e} else s.entities)
  }

  /** removeUneditedEntityTx for a present entity. */
  function RemoveUnedited(s: Store, e: int): Store
    requires e in s.entities
  {
    var t := DeleteRows(s, {s.entities[e].path});
    Purge(t.(entities := t.entities[e := t.entities[e].(missing := true)]), e)
  }

  // ---- people and new rows ----

  function Renamed(f: Face, source: int, target: int, manual: bool): Face {
    if f.person == source then f.(person := target, manual := f.manual || manual) else f
  }

  /** The face updates of a merge: photo_faces and then mergeRetainedPersonTx.  A web merge marks
      the moved faces as manual, an automatic one keeps their mark. */
  function Merge(s: Store, source: int, target: int, manual: bool): Store {
    s.(faces := map id | id in s.faces :: Renamed(s.faces[id], source, target, manual),
       kept := map id | id in s.kept :: s.kept[id].(face := Renamed(s.kept[id].face, source, target, manual)))
  }

  /** A face found in a present public photo. */
  function Detect(s: Store, e: int, person: int, marked: bool): Store
    requires e in s.media
  {
    s.(faces := s.faces[s.nextFace := Face(e, s.media[e].path, person, false, marked)], nextFace := s.nextFace + 1)
  }

  /** A new photo is indexed and gets its identity. */
  function AddPhoto(s: Store, path: string, admin: bool): Store {
    s.(entities := s.entities[s.nextEntity := Entity(path, false, false)],
       media := s.media[s.nextEntity := Media(path, admin)], nextEntity := s.nextEntity + 1)
  }
}
