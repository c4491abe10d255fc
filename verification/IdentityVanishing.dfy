/** Photos vanish: the batched copy of retainSelectionTx, then the deletion by path. */
module IdentityVanishing {
  import opened IdentityTables
  import opened IdentityInvariant

  /** The copy for a list of photos, in order. */
  function RetainAll(s: Store, order: seq<int>): (t: Store)
    requires forall e | e in order :: e in s.entities
    ensures t.entities.Keys == s.entities.Keys
  {
    if order == [] then s
    else
      assert forall e | e in order[..|order| - 1] :: e in order;
      Retain(RetainAll(s, order[..|order| - 1]), order[|order| - 1])
  }

  lemma RetainNext(s: Store, order: seq<int>, e: int)
    requires (forall x | x in order :: x in s.entities) && e in s.entities
    ensures RetainAll(s, order + [e]) == Retain(RetainAll(s, order), e)
  {
    assert (order + [e])[..|order|] == order;
  }

  function Ids(order: seq<int>): (ids: set<int>) {
    set e | e in order
  }

  ghost function CopiedFaces(s: Store, gone: set<int>): map<int, Kept> {
    map id | id in s.faces && s.faces[id].entity in gone :: Kept(s.faces[id].entity, s.faces[id])
  }

  ghost function CopiedRows(s: Store, gone: set<int>): map<int, Media> {
    map e | e in gone && e in s.media :: s.media[e]
  }

  ghost function MarkedMissing(s: Store, gone: set<int>): map<int, Entity> {
    map e | e in s.entities :: if e in gone then s.entities[e].(missing := true) else s.entities[e]
  }

  /** Closed form: the rows of the given photos are in both tables. */
  ghost function Copied(s: Store, gone: set<int>): Store {
    s.(entities := MarkedMissing(s, gone), keptMedia := s.keptMedia + CopiedRows(s, gone),
      kept := s.kept + CopiedFaces(s, gone))
  }

  lemma FacesOfOne(s: Store, e: int)
    requires Inv(s) && e in s.entities
    ensures forall id :: id in FacesAt(s, {s.entities[e].path}) <==> id in s.faces && s.faces[id].entity == e
  {
    forall id | id in s.faces ensures s.faces[id].path == s.entities[e].path <==> s.faces[id].entity == e {
      assert FaceRight(s, s.faces[id]);
      OnePath(s, e, s.faces[id]);
    }
  }

  lemma RowsOfOne(s: Store, e: int)
    requires Inv(s) && e in s.media
    ensures RowsAt(s.media, {s.entities[e].path}) == {e}
  {
    forall r | r in s.media ensures r in RowsAt(s.media, {s.entities[e].path}) <==> r == e {
      OneRow(s, e, r);
    }
  }

  lemma CopyOneMore(s: Store, gone: set<int>, e: int)
    requires Inv(s) && e in s.media && e !in gone
    ensures Retain(Copied(s, gone), e) == Copied(s, gone + {e})
  {
    FacesOfOne(s, e);
    RowsOfOne(s, e);
    SameSelection(s, gone, e);
    CopyEntities(s, gone, e);
    CopyRows(s, gone, e);
    CopyFaces(s, gone, e);
  }

  /** Copying does not change what the next entity selects. */
  lemma SameSelection(s: Store, gone: set<int>, e: int)
    requires e in s.entities && e in s.media && RowsAt(s.media, {s.entities[e].path}) == {e}
    ensures var t := Retain(Copied(s, gone), e);
      && t.entities == MarkedMissing(s, gone)[e := MarkedMissing(s, gone)[e].(missing := true)]
      && t.keptMedia == s.keptMedia + CopiedRows(s, gone) + (map r | r in {e} :: s.media[r])
      && t.kept == s.kept + CopiedFaces(s, gone)
           + (map id | id in FacesAt(s, {s.entities[e].path}) :: Kept(e, s.faces[id]))
      && t == s.(entities := t.entities, keptMedia := t.keptMedia, kept := t.kept)
  {
    var t := Copied(s, gone);
    assert t.entities[e].path == s.entities[e].path;
    assert RowsAt(t.media, {s.entities[e].path}) == RowsAt(s.media, {s.entities[e].path});
    assert FacesAt(t, {s.entities[e].path}) == FacesAt(s, {s.entities[e].path});
  }

  lemma CopyEntities(s: Store, gone: set<int>, e: int)
    requires e in s.entities
    ensures MarkedMissing(s, gone)[e := MarkedMissing(s, gone)[e].(missing := true)] == MarkedMissing(s, gone + {e})
  {}

  lemma CopyRows(s: Store, gone: set<int>, e: int)
    requires e in s.media
    ensures s.keptMedia + CopiedRows(s, gone) + (map r | r in {e} :: s.media[r]) == s.keptMedia
      + CopiedRows(s, gone + {e})
  {}

  lemma CopyFaces(s: Store, gone: set<int>, e: int)
    requires e in s.entities
    requires forall id :: id in FacesAt(s, {s.entities[e].path}) <==> id in s.faces && s.faces[id].entity == e
    ensures s.kept + CopiedFaces(s, gone) + (map id | id in FacesAt(s, {s.entities[e].path}) :: Kept(e, s.faces[id]))
      == s.kept + CopiedFaces(s, gone + {e})
  {
    var more := map id | id in FacesAt(s, {s.entities[e].path}) :: Kept(e, s.faces[id]);
    forall id ensures id in CopiedFaces(s, gone + {e}) <==> id in CopiedFaces(s, gone) || id in more {
      assert id in more <==> id in FacesAt(s, {s.entities[e].path});
    }
    forall id | id in CopiedFaces(s, gone + {e})
      ensures CopiedFaces(s, gone + {e})[id] == (CopiedFaces(s, gone) + more)[id]
    {
      assert id in more <==> id in FacesAt(s, {s.entities[e].path});
    }
    assert CopiedFaces(s, gone + {e}) == CopiedFaces(s, gone) + more;
  }

  /** Present photos, each once. */
  ghost predicate Present(s: Store, order: seq<int>) {
    && (forall e | e in order :: e in s.media && e in s.entities)
    && (forall i, j | 0 <= i < j < |order| :: order[i] != order[j])
  }

  lemma PresentPrefix(s: Store, order: seq<int>)
    requires Present(s, order) && order != []
    ensures var init, e := order[..|order| - 1], order[|order| - 1];
      && Present(s, init) && e in s.media && e in s.entities && e !in Ids(init)
      && Ids(order) == Ids(init) + {e} && (forall x | x in init :: x in s.entities)
      && order == init + [e]
  {
    var init, e := order[..|order| - 1], order[|order| - 1];
    assert order == init + [e] && e in order;
    forall x | x in init ensures x in order {}
  }

  lemma {:induction false} RetainAllIs(s: Store, order: seq<int>)
    requires Inv(s) && Present(s, order)
    ensures RetainAll(s, order) == Copied(s, Ids(order))
  {
    hide Retain;
    hide Copied;
    hide Inv;
    if order == [] {
      NothingCopied(s);
      assert Ids(order) == {};
    } else {
      PresentPrefix(s, order);
      hide Present;
      hide Ids;
      var init, e := order[..|order| - 1], order[|order| - 1];
      RetainAllIs(s, init);
      CopyOneMore(s, Ids(init), e);
      RetainNext(s, init, e);
    }
  }

  lemma NothingCopied(s: Store)
    ensures Copied(s, {}) == s
  {
    assert MarkedMissing(s, {}) == s.entities;
    assert CopiedRows(s, {}) == map[] && CopiedFaces(s, {}) == map[];
  }

  // ---- the transaction ----

  function PathsOf(s: Store, ids: set<int>): set<string> {
    set e | e in ids && e in s.entities :: s.entities[e].path
  }

  /** Vanishing as one transaction: copy, then delete by path. */
  ghost function Vanish(s: Store, gone: set<int>): Store {
    DeleteRows(Copied(s, gone), PathsOf(s, gone))
  }

  lemma PathsSelect(s: Store, gone: set<int>, e: int)
    requires PathsUnique(s) && e in s.entities
    ensures s.entities[e].path in PathsOf(s, gone) <==> e in gone
  {}

  lemma VanishRows(s: Store, gone: set<int>)
    requires Inv(s) && gone <= s.media.Keys
    ensures var t := Vanish(s, gone);
      && t.media == s.media - gone && t.keptMedia == s.keptMedia + CopiedRows(s, gone)
      && t.entities == MarkedMissing(s, gone) && t.nextEntity == s.nextEntity && t.nextFace == s.nextFace
      && PathsUnique(t) && RowsRight(t)
  {
    RowsSelected(s, gone);
    MarkedPaths(s, gone);
    MarkedRows(s, gone);
  }

  lemma RowsSelected(s: Store, gone: set<int>)
    requires PathsUnique(s) && RowsRight(s) && gone <= s.media.Keys
    ensures RowsAt(s.media, PathsOf(s, gone)) == gone
  {
    forall e | e in s.media ensures e in RowsAt(s.media, PathsOf(s, gone)) <==> e in gone {
      PathsSelect(s, gone, e);
    }
  }

  lemma MarkedPaths(s: Store, gone: set<int>)
    requires PathsUnique(s)
    ensures PathsUnique(s.(entities := MarkedMissing(s, gone)))
  {}

  lemma MarkedRows(s: Store, gone: set<int>)
    requires RowsRight(s) && gone <= s.media.Keys
    ensures RowsRight(s.(entities := MarkedMissing(s, gone), media := s.media - gone,
      keptMedia := s.keptMedia + CopiedRows(s, gone)))
  {}

  lemma VanishAt(s: Store, gone: set<int>, id: int)
    requires Inv(s) && gone <= s.media.Keys
    ensures SettledAt(Vanish(s, gone), Account(s), id)
    ensures id in Account(s) ==> FaceRight(Vanish(s, gone), Account(s)[id])
  {
    VanishRows(s, gone);
    IsSettled(s, id);
    if id in Account(s) {
      PathsSelect(s, gone, Account(s)[id].entity);
    }
  }

  lemma VanishKeeps(s: Store, gone: set<int>)
    requires Inv(s) && gone <= s.media.Keys
    ensures Inv(Vanish(s, gone)) && Account(Vanish(s, gone)) == Account(s)
    ensures Vanish(s, gone).entities == MarkedMissing(s, gone)
  {
    var t := Vanish(s, gone);
    forall id ensures SettledAt(t, Account(s), id) && (id in Account(s) ==> FaceRight(t, Account(s)[id])) {
      VanishAt(s, gone, id);
    }
    SettledIs(t, Account(s));
    SameIds(s, t);
    VanishRows(s, gone);
  }
}
