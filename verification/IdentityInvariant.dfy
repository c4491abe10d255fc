/** Every single step on photos and faces keeps each face in exactly the right table. */
module IdentityInvariant {
  import opened IdentityTables

  /** The faces of `account`, each in the table its photo asks for. */
  ghost predicate Settled(t: Store, account: map<int, Face>) {
    forall id :: SettledAt(t, account, id)
  }

  ghost predicate SettledAt(t: Store, account: map<int, Face>, id: int) {
    && (id in t.faces <==> id in account && Public(t, account[id].entity))
    && (id in t.kept <==> id in account && !Public(t, account[id].entity))
    && (id in t.faces && id in account ==> t.faces[id] == account[id])
    && (id in t.kept && id in account ==> t.kept[id] == Kept(account[id].entity, account[id]))
  }

  ghost predicate AllRight(t: Store, account: map<int, Face>) {
    forall id | id in account :: FaceRight(t, account[id])
  }

  lemma SettledIs(t: Store, account: map<int, Face>)
    requires Settled(t, account) && AllRight(t, account)
    ensures FacesRight(t) && Account(t) == account
  {
    forall id ensures id in Account(t) <==> id in account {
      assert SettledAt(t, account, id);
    }
    forall id | id in account ensures Account(t)[id] == account[id] {
      assert SettledAt(t, account, id);
    }
    forall id | id in t.faces ensures FaceRight(t, t.faces[id]) && Public(t, t.faces[id].entity) && id !in t.kept {
      assert SettledAt(t, account, id);
    }
    forall id | id in t.kept
      ensures FaceRight(t, t.kept[id].face) && !Public(t, t.kept[id].face.entity)
        && t.kept[id].retention == t.kept[id].face.entity
    {
      assert SettledAt(t, account, id);
    }
  }

  lemma IsSettled(s: Store, id: int)
    requires FacesRight(s)
    ensures SettledAt(s, Account(s), id) && (id in Account(s) ==> FaceRight(s, Account(s)[id]))
  {}

  /** Under the invariant a path selects one photo. */
  lemma OnePath(s: Store, e: int, f: Face)
    requires PathsUnique(s) && e in s.entities && FaceRight(s, f)
    ensures f.path == s.entities[e].path <==> f.entity == e
  {}

  lemma OneRow(s: Store, e: int, r: int)
    requires PathsUnique(s) && RowsRight(s) && e in s.entities && r in s.media
    ensures s.media[r].path == s.entities[e].path <==> r == e
  {}

  // ---- visibility ----

  lemma SetAdminKeeps(s: Store, e: int, admin: bool)
    requires Inv(s) && e in s.media
    ensures Inv(SetAdmin(s, e, admin)) && Account(SetAdmin(s, e, admin)) == Account(s)
    ensures SetAdmin(s, e, admin).entities == s.entities
  {
    var t := SetAdmin(s, e, admin);
    forall id ensures SettledAt(t, Account(s), id) && (id in Account(s) ==> FaceRight(t, Account(s)[id])) {
      SetAdminAt(s, e, admin, id);
    }
    SettledIs(t, Account(s));
    SetAdminRows(s, e, admin);
    SameIds(s, t);
  }

  /** The same faces have the same ids. */
  lemma SameIds(s: Store, t: Store)
    requires Account(t) == Account(s)
    ensures forall id :: id in t.faces || id in t.kept <==> id in s.faces || id in s.kept
  {
    assert Account(t).Keys == t.faces.Keys + t.kept.Keys;
    assert Account(s).Keys == s.faces.Keys + s.kept.Keys;
  }

  lemma SetAdminRows(s: Store, e: int, admin: bool)
    requires Inv(s) && e in s.media
    ensures var t := SetAdmin(s, e, admin);
      && t == s.(media := s.media[e := s.media[e].(admin := admin)], faces := t.faces, kept := t.kept)
      && PathsUnique(t) && RowsRight(t)
  {}

  lemma SetAdminAt(s: Store, e: int, admin: bool, id: int)
    requires Inv(s) && e in s.media
    ensures SettledAt(SetAdmin(s, e, admin), Account(s), id)
    ensures id in Account(s) ==> FaceRight(SetAdmin(s, e, admin), Account(s)[id])
  {
    IsSettled(s, id);
    if id in Account(s) {
      OnePath(s, e, Account(s)[id]);
    }
  }

  // ---- presence ----

  lemma RestoreKeeps(s: Store, e: int)
    requires Inv(s) && e in s.entities
    ensures Inv(Restore(s, e)) && Account(Restore(s, e)) == Account(s)
    ensures Restore(s, e).entities == s.entities[e := s.entities[e].(missing := false)]
  {
    var t := Restore(s, e);
    forall id ensures SettledAt(t, Account(s), id) && (id in Account(s) ==> FaceRight(t, Account(s)[id])) {
      RestoreAt(s, e, id);
    }
    SettledIs(t, Account(s));
    SameIds(s, t);
    if s.entities[e].missing {
      RestoreRows(s, e);
    } else {
      assert s.entities[e := s.entities[e].(missing := false)] == s.entities;
    }
  }

  lemma RestoreRows(s: Store, e: int)
    requires Inv(s) && e in s.entities && s.entities[e].missing
    ensures var t := Restore(s, e);
      && t.media == s.media[e := s.keptMedia[e]] && t.keptMedia == s.keptMedia - {e}
      && t.entities == s.entities[e := s.entities[e].(missing := false)]
      && t.nextEntity == s.nextEntity && t.nextFace == s.nextFace
    ensures PathsUnique(Restore(s, e)) && RowsRight(Restore(s, e))
  {
    RestoreTables(s, e);
    hide Restore;
  }

  lemma RestoreTables(s: Store, e: int)
    requires Inv(s) && e in s.entities && s.entities[e].missing
    ensures var t := Restore(s, e);
      && t.media == s.media[e := s.keptMedia[e]] && t.keptMedia == s.keptMedia - {e}
      && t.entities == s.entities[e := s.entities[e].(missing := false)]
      && t.nextEntity == s.nextEntity && t.nextFace == s.nextFace
  {
    hide KeptFor;
    hide IdsRight;
    hide PathsUnique;
    hide FacesRight;
  }

  lemma RestoreAt(s: Store, e: int, id: int)
    requires Inv(s) && e in s.entities
    ensures SettledAt(Restore(s, e), Account(s), id)
    ensures id in Account(s) ==> FaceRight(Restore(s, e), Account(s)[id])
  {
    IsSettled(s, id);
    if s.entities[e].missing {
      RestoreRows(s, e);
      RestoreFaces(s, e);
    }
  }

  lemma RestoreFaces(s: Store, e: int)
    requires Inv(s) && e in s.entities && s.entities[e].missing
    ensures var t := Restore(s, e);
      if s.keptMedia[e].admin then t.faces == s.faces && t.kept == s.kept
      else t.faces == s.faces + (map id | id in KeptFor(s, e) :: s.kept[id].face) && t.kept == s.kept - KeptFor(s, e)
  {
    var m := s.media + map[e := s.keptMedia[e]];
    assert m[e].path == s.entities[e].path;
    forall r | r in m && m[r].path == s.entities[e].path ensures r == e {
      if r != e {
        OneRow(s, e, r);
      }
    }
  }

  /** The faces that do not belong to the given photos. */
  function Without(account: map<int, Face>, gone: set<int>): map<int, Face> {
    map id | id in account && account[id].entity !in gone :: account[id]
  }

  /** Purging a missing photo loses exactly its faces. */
  lemma PurgeKeeps(s: Store, e: int)
    requires Inv(s) && e in s.entities && s.entities[e].missing
    ensures Inv(Purge(s, e)) && Account(Purge(s, e)) == Without(Account(s), {e})
    ensures Purge(s, e).entities == s.entities - {e}
  {
    var t := Purge(s, e);
    forall id ensures SettledAt(t, Without(Account(s), {e}), id)
      && (id in Without(Account(s), {e}) ==> FaceRight(t, Account(s)[id]))
    {
      IsSettled(s, id);
    }
    SettledIs(t, Without(Account(s), {e}));
  }

  lemma RemoveKeeps(s: Store, e: int)
    requires Inv(s) && e in s.media
    ensures Inv(RemoveUnedited(s, e)) && Account(RemoveUnedited(s, e)) == Without(Account(s), {e})
    ensures RemoveUnedited(s, e).entities == s.entities - {e}
    ensures RemoveUnedited(s, e).media == s.media - {e}
  {
    var t := RemoveUnedited(s, e);
    RemoveRows(s, e);
    forall id ensures SettledAt(t, Without(Account(s), {e}), id)
      && (id in Without(Account(s), {e}) ==> FaceRight(t, Account(s)[id]))
    {
      RemoveAt(s, e, id);
    }
    SettledIs(t, Without(Account(s), {e}));
  }

  lemma RemoveRows(s: Store, e: int)
    requires Inv(s) && e in s.media
    ensures var t := RemoveUnedited(s, e);
      && t.entities == s.entities - {e} && t.media == s.media - {e} && t.keptMedia == s.keptMedia
      && t.nextEntity == s.nextEntity && t.nextFace == s.nextFace
    ensures PathsUnique(RemoveUnedited(s, e)) && RowsRight(RemoveUnedited(s, e)) && IdsRight(RemoveUnedited(s, e))
  {
    forall r | r in s.media ensures r in RowsAt(s.media, {s.entities[e].path}) <==> r == e {
      OneRow(s, e, r);
    }
    assert RowsAt(s.media, {s.entities[e].path}) == {e};
    assert s.keptMedia - {e} == s.keptMedia;
    assert s.entities[e := s.entities[e].(missing := true)] - {e} == s.entities - {e};
  }

  lemma RemoveAt(s: Store, e: int, id: int)
    requires Inv(s) && e in s.media
    ensures SettledAt(RemoveUnedited(s, e), Without(Account(s), {e}), id)
    ensures id in Without(Account(s), {e}) ==> FaceRight(RemoveUnedited(s, e), Account(s)[id])
  {
    IsSettled(s, id);
    RemoveRows(s, e);
    if id in Account(s) {
      OnePath(s, e, Account(s)[id]);
    }
  }

  // ---- people and new rows ----

  /** A merge as it acts on all faces, hidden or not. */
  function Merged(account: map<int, Face>, source: int, target: int, manual: bool): map<int, Face> {
    map id | id in account :: Renamed(account[id], source, target, manual)
  }

  lemma MergeKeeps(s: Store, source: int, target: int, manual: bool)
    requires Inv(s)
    ensures Inv(Merge(s, source, target, manual))
    ensures Account(Merge(s, source, target, manual)) == Merged(Account(s), source, target, manual)
    ensures Merge(s, source, target, manual).entities == s.entities
    ensures forall id | id in Account(s) ::
      var f, g := Account(s)[id], Account(Merge(s, source, target, manual))[id];
      && g.entity == f.entity && g.path == f.path && g.marked == f.marked
      && g.person == (if f.person == source then target else f.person)
      && g.manual == (f.manual || (manual && f.person == source))
  {
    var t, account := Merge(s, source, target, manual), Merged(Account(s), source, target, manual);
    forall id ensures SettledAt(t, account, id) && (id in account ==> FaceRight(t, account[id])) {
      IsSettled(s, id);
    }
    SettledIs(t, account);
  }

  lemma DetectKeeps(s: Store, e: int, person: int, marked: bool)
    requires Inv(s) && Public(s, e)
    ensures Inv(Detect(s, e, person, marked))
    ensures Account(Detect(s, e, person, marked))
      == Account(s)[s.nextFace := Face(e, s.entities[e].path, person, false, marked)]
    ensures s.nextFace !in Account(s)
  {}

  lemma AddPhotoKeeps(s: Store, path: string, admin: bool)
    requires Inv(s) && forall e | e in s.entities :: s.entities[e].path != path
    ensures Inv(AddPhoto(s, path, admin)) && Account(AddPhoto(s, path, admin)) == Account(s)
  {
    var t := AddPhoto(s, path, admin);
    forall f: Face | FaceRight(s, f) ensures FaceRight(t, f) && (Public(t, f.entity) <==> Public(s, f.entity)) {
      assert f.entity < s.nextEntity;
    }
  }
}
