/** The loops that move rows between the twin tables, on one database. */
module IdentityStore {
  import opened FolderRename
  import opened IdentityTables
  import opened IdentityInvariant
  import opened IdentityVanishing
  import opened IdentityRelocation
  import opened Batches
  import opened Pick

  const BATCH := 100

  class Identities {
    var db: Store

    /** One batch of retainSelectionTx. */
    method RetainBatch(batch: seq<int>, ghost start: Store, ghost order: seq<int>)
      requires forall e | e in order + batch :: e in start.entities
      requires db == RetainAll(start, order)
      modifies this
      ensures db == RetainAll(start, order + batch)
    {
      hide Retain;
      assert order + batch[..0] == order;
      for i := 0 to |batch|
        invariant forall e | e in order + batch[..i] :: e in start.entities
        invariant db == RetainAll(start, order + batch[..i])
      {
        assert batch[i] in order + batch;
        RetainNext(start, order + batch[..i], batch[i]);
        db := Retain(db, batch[i]);
        assert order + batch[..i + 1] == order + batch[..i] + [batch[i]];
      }
      assert batch[..|batch|] == batch;
    }

    /** retainSelectionTx: the selected present photos in batches, by ascending id. */
    method RetainSelection(selected: set<int>) returns (ghost order: seq<int>)
      requires Inv(db) && selected <= db.media.Keys
      modifies this
      ensures Ascending(order) && Elements(order) == selected
      ensures forall e | e in order :: e in old(db).entities
      ensures db == RetainAll(old(db), order)
    {
      order := [];
      ghost var start := db;
      forall e | e in selected ensures e in start.entities {}
      var rest, more := selected, true;
      while more
        invariant Reading(selected, order, rest) && rest <= selected
        invariant forall e | e in order :: e in start.entities
        invariant db == RetainAll(start, order)
        invariant !more ==> rest == {}
        decreases if more then 1 else 0, |rest|
      {
        var batch := FirstIds(rest, BATCH);
        BatchRead(selected, order, rest, batch);
        forall e | e in order + batch ensures e in start.entities {
          assert e in order || e in batch;
        }
        RetainBatch(batch, start, order);
        order := order + batch;
        more := |batch| == BATCH;
        if more {
          FewerLeft(rest, batch);
        }
        rest := rest - Elements(batch);
      }
    }

    /** deleteIndexBatch: copy and deletion in one transaction. */
    method DeleteIndexBatch(selected: set<int>)
      requires Inv(db) && selected <= db.media.Keys
      modifies this
      ensures db == Vanish(old(db), selected)
    {
      ghost var start := db;
      var paths := PathsOf(db, selected);
      var order := RetainSelection(selected);
      AscendingDistinct(order);
      assert IdentityVanishing.Ids(order) == Elements(order);
      RetainAllIs(start, order);
      db := DeleteRows(db, paths);
    }

    /** restorePresentEntities: every missing photo found by the scan, each in its own
        transaction. */
    method RestorePresent(scan: set<string>)
      requires Inv(db)
      modifies this
      ensures Restored(old(db), db, Returning(old(db), scan))
      ensures db.entities.Keys == old(db).entities.Keys
      ensures forall e | e in db.entities ::
        var before := old(db).entities[e];
        db.entities[e] == before.(missing := before.missing && before.path !in scan)
    {
      RestoreSelection(Returning(db, scan));
    }

    method RestoreSelection(selected: set<int>)
      requires Inv(db) && selected <= db.entities.Keys
      modifies this
      ensures Restored(old(db), db, selected)
    {
      ghost var start := db;
      ghost var order := [];
      var rest, more := selected, true;
      NothingRestored(start);
      assert Reading(selected, order, rest);
      hide Reading;
      hide Elements;
      hide Restored;
      hide Inv;
      while more
        invariant Reading(selected, order, rest) && rest <= selected
        invariant Restored(start, db, Elements(order))
        invariant !more ==> Elements(order) == selected
        decreases if more then 1 else 0, |rest|
      {
        var batch := FirstIds(rest, BATCH);
        BatchRead(selected, order, rest, batch);
        RestoreBatch(batch, start, Elements(order));
        AppendElements(order, batch);
        order := order + batch;
        more := |batch| == BATCH;
        if more {
          FewerLeft(rest, batch);
        }
        rest := rest - Elements(batch);
      }
    }

    method RestoreBatch(batch: seq<int>, ghost start: Store, ghost done: set<int>)
      requires Inv(start) && Restored(start, db, done) && forall e | e in batch :: e in start.entities
      modifies this
      ensures Restored(start, db, done + Elements(batch))
    {
      hide Restored;
      hide Restore;
      hide Inv;
      assert done + Elements(batch[..0]) == done;
      for i := 0 to |batch|
        invariant Restored(start, db, done + Elements(batch[..i]))
      {
        RestoredMore(start, db, done + Elements(batch[..i]), batch[i]);
        db := Restore(db, batch[i]);
        NextElement(batch, i);
        assert done + Elements(batch[..i + 1]) == done + Elements(batch[..i]) + {batch[i]};
      }
      assert batch[..|batch|] == batch;
    }

    /** The unedited duplicates of all source photos are removed; false when one is missing. */
    method RemoveCopies(source: string, target: string) returns (ok: bool, ghost copies: seq<int>)
      requires Inv(db) && Unrelated(source, target)
      modifies this
      ensures ok <==> Duplicates(old(db), source, target) <= old(db).media.Keys
      ensures ok ==> Lists(copies, Duplicates(old(db), source, target))
      ensures ok ==>
        (forall e | e in copies :: e in old(db).media && e in old(db).entities) && db == RemoveAll(old(db), copies)
    {
      ghost var start := db;
      copies := [];
      var ids := Planned(db, source);
      var order := AllIds(ids);
      NothingCopying(start, source, target);
      assert order[..0] == [];
      hide RemoveAll;
      hide Removed;
      hide CopiesSoFar;
      hide Copying;
      for i := 0 to |order|
        invariant Copying(start, db, source, target, order[..i], copies)
      {
        assert order[i] in ids;
        ok, copies := RemoveCopy(source, target, order, i, copies, start);
        if !ok {
          return;
        }
      }
      assert order[..|order|] == order;
      CopyingIs(start, db, source, target, order, copies);
      AllCopies(start, source, target, order, copies);
      ok := true;
    }

    method RemoveCopy(source: string, target: string, order: seq<int>, i: nat, ghost copies: seq<int>,
                      ghost start: Store)
      returns (ok: bool, ghost more: seq<int>)
      requires Inv(start) && Unrelated(source, target) && Ascending(order) && i < |order|
        && order[i] in Planned(start, source)
      requires Copying(start, db, source, target, order[..i], copies)
      modifies this
      ensures !ok ==> !(Duplicates(start, source, target) <= start.media.Keys)
      ensures ok ==> Copying(start, db, source, target, order[..i + 1], more)
    {
      more := copies;
      var e := order[i];
      SourceStaysIn(start, db, source, target, copies, e);
      var next := Moved(source, target, db.entities[e].path);
      var dest := set d | d in db.entities && db.entities[d].path == next;
      NextCopy(start, source, target, order, i, copies, db, dest);
      if dest != {} {
        var d := Any(dest);
        if db.entities[d].missing {
          MissingCopy(start, source, target, e, d);
          return false, copies;
        }
        CopyRemoved(start, db, copies, d);
        db := RemoveUnedited(db, d);
        more := copies + [d];
      }
      ok := true;
    }

    /** What is not found at its new path is retained, then everything missing is deleted. */
    method DropMissing(planned: set<int>, scan: set<string>)
      requires Inv(db)
      modifies this
      ensures db == Dropped(old(db), planned, scan)
    {
      ghost var start := db;
      DropIsVanish(db, planned, scan);
      var order := RetainSelection(NotFound(db, planned, scan));
      AscendingDistinct(order);
      assert IdentityVanishing.Ids(order) == Elements(order);
      RetainAllIs(start, order);
      db := DeleteRows(db, PathsOf(db, MissingOf(db, planned)));
    }

    /** The planned visibility of the moved photos, live and retained. */
    method ApplyPlan(planned: set<int>, admins: map<string, bool>) returns (rows: seq<int>)
      modifies this
      ensures forall e | e in rows :: e in old(db).media
      ensures Lists(rows, planned * old(db).media.Keys)
      ensures db == SetKeptAdmins(SetAdmins(old(db), rows, admins), admins)
    {
      ghost var start := db;
      var ids := set e | e in planned && e in db.media;
      rows := AllIds(ids);
      AscendingDistinct(rows);
      hide SetPlanned;
      for i := 0 to |rows|
        invariant forall e | e in rows[..i] :: e in start.media
        invariant db == SetAdmins(start, rows[..i], admins)
      {
        assert rows[i] in ids;
        SetAdminsNext(start, rows[..i], admins, rows[i]);
        db := SetPlanned(db, rows[i], admins);
        assert rows[..i + 1] == rows[..i] + [rows[i]];
      }
      assert rows[..|rows|] == rows;
      db := SetKeptAdmins(db, admins);
      assert ids == planned * start.media.Keys;
      assert IdentityVanishing.Ids(rows) == Elements(rows);
    }

    /** relocatePhotoFolder after the checks on the file system; a refused relocation is rolled
        back. */
    method RelocateFolder(source: string, target: string, admins: map<string, bool>, scan: set<string>, named: set<int>)
      returns (ok: bool, ghost r: Relocation)
      requires Inv(db)
      modifies this
      ensures r.source == source && r.target == target && r.admins == admins && r.scan == scan
      ensures ok <==>
        Unrelated(source, target) && !Conflict(old(db), r, named)
        && Duplicates(old(db), source, target) <= old(db).media.Keys
      ensures !ok ==> db == old(db)
      ensures ok ==> Relocatable(old(db), r, named)
      ensures ok ==>
        (forall e | e in r.rows :: e in Dropped(Cleared(old(db), r), Planned(old(db), source), scan).media)
        && db == Relocate(old(db), r)
      // Nobody's work is lost, as far as the query sees it ...
      ensures ok ==> forall e | e in old(db).entities && old(db).entities[e].manual :: e in db.entities
      ensures ok ==>
        forall id | id in old(db).faces && (old(db).faces[id].manual || old(db).faces[id].marked) :: id in Account(db)
      ensures ok ==>
        forall id | id in old(db).faces && old(db).faces[id].person in named
          && (forall other | other in Account(old(db)) && Under(source, Account(old(db))[other].path) ::
                Account(old(db))[other].person != old(db).faces[id].person) :: id in Account(db)
      // ... and only such work, a nested target or a missing duplicate refuses the relocation.
      ensures !ok && Unrelated(source, target) && Duplicates(old(db), source, target) <= old(db).media.Keys ==>
        || (exists e :: e in old(db).entities && Under(target, old(db).entities[e].path) && old(db).entities[e].manual)
        || (exists id :: id in old(db).faces && Under(target, old(db).faces[id].path)
              && (old(db).faces[id].manual || old(db).faces[id].marked
                  || (old(db).faces[id].person in named
                      && forall other | other in Account(old(db)) && Under(source, Account(old(db))[other].path) ::
                           Account(old(db))[other].person != old(db).faces[id].person)))
    {
      hide Conflict;
      hide Account;
      hide MovePaths;
      hide RemoveAll;
      hide Dropped;
      hide SetKeptAdmins;
      hide SetAdmins;
      var start := db;
      var plain := Relocation(source, target, [], [], admins, scan);
      r := plain;
      if !Unrelated(source, target) || Conflict(start, plain, named) {
        if Conflict(start, plain, named) {
          ConflictIsWork(start, plain, named);
        }
        return false, r;
      }
      var planned := Planned(db, source);
      ghost var copies;
      ok, copies := RemoveCopies(source, target);
      if !ok {
        db := start;
        return;
      }
      hide Unrelated;
      db := MovePaths(db, source, target);
      r := Relocation(source, target, copies, [], admins, scan);
      ClearedKeeps(start, r);
      ClearedIs(start, r, db);
      DropMissing(planned, scan);
      RowsFound(start, r, db);
      var rows := ApplyPlan(planned, admins);
      r := Relocation(source, target, copies, rows, admins, scan);
      SameConflict(start, r, plain, named);
      RelocationProtects(start, r, named);
    }

    lemma FewerLeft(rest: set<int>, batch: seq<int>)
      requires batch != [] && batch[0] in rest
      ensures |rest - Elements(batch)| < |rest|
    {
      assert batch[0] in Elements(batch);
      SmallerWithout(rest, Elements(batch), batch[0]);
    }
  }

  lemma ConflictIsWork(s: Store, r: Relocation, named: set<int>)
    requires Conflict(s, r, named)
    ensures
      || (exists e :: e in s.entities && Under(r.target, s.entities[e].path) && s.entities[e].manual)
      || (exists id :: id in s.faces && Under(r.target, s.faces[id].path)
            && (s.faces[id].manual || s.faces[id].marked
                || (s.faces[id].person in named
                    && forall other | other in Account(s) && Under(r.source, Account(s)[other].path) ::
                         Account(s)[other].person != s.faces[id].person)))
  {}

  lemma SmallerWithout(a: set<int>, b: set<int>, x: int)
    requires x in a && x in b
    ensures |a - b| < |a|
  {
    assert a == (a - b) + (a * b) && (a - b) !! (a * b);
    assert a * b != {};
  }

  lemma AppendElements(a: seq<int>, b: seq<int>)
    ensures Elements(a + b) == Elements(a) + Elements(b)
  {}

  lemma NextElement(s: seq<int>, i: nat)
    requires i < |s|
    ensures Elements(s[..i + 1]) == Elements(s[..i]) + {s[i]}
  {
    assert s[..i + 1] == s[..i] + [s[i]];
  }

  // ---- photos return ----

  function Returning(s: Store, scan: set<string>): set<int> {
    set e | e in s.entities && s.entities[e].missing && s.entities[e].path in scan
  }

  ghost function MarkedPresent(s: Store, back: set<int>): map<int, Entity> {
    map e | e in s.entities :: if e in back then s.entities[e].(missing := false) else s.entities[e]
  }

  /** `t` is `s` after the photos `back` have returned: nothing else happened to any face. */
  ghost predicate Restored(s: Store, t: Store, back: set<int>) {
    Inv(t) && Account(t) == Account(s) && SameCounters(s, t) && t.entities == MarkedPresent(s, back)
  }

  lemma NothingRestored(s: Store)
    requires Inv(s)
    ensures Restored(s, s, {}) && Elements([]) == {}
  {}

  lemma RestoredMore(s: Store, t: Store, back: set<int>, e: int)
    requires Restored(s, t, back) && e in s.entities
    ensures e in t.entities && Restored(s, Restore(t, e), back + {e})
  {
    RestoreKeeps(t, e);
    assert MarkedPresent(s, back)[e := MarkedPresent(s, back)[e].(missing := false)] == MarkedPresent(s, back + {e});
  }

  // ---- duplicates ----

  /** The duplicates of the source photos handled so far. */
  ghost predicate CopiesSoFar(s: Store, source: string, target: string, done: seq<int>, copies: seq<int>) {
    && (forall i, j | 0 <= i < j < |copies| :: copies[i] != copies[j])
    && (forall d | d in copies :: d in s.media && d in s.entities)
    && (forall d :: d in copies <==> exists e :: e in done && IsCopyOf(s, source, target, d, e))
  }

  ghost predicate Copying(s: Store, t: Store, source: string, target: string, done: seq<int>, copies: seq<int>) {
    CopiesSoFar(s, source, target, done, copies) && t == RemoveAll(s, copies)
      && Removed(s, t, IdentityVanishing.Ids(copies))
  }

  lemma NothingCopying(s: Store, source: string, target: string)
    requires Inv(s)
    ensures Copying(s, s, source, target, [], [])
  {
    WithoutTwice(Account(s), {}, 0);
    assert IdentityVanishing.Ids([]) == {} && s.entities - {} == s.entities && s.media - {} == s.media;
  }

  lemma CopyingIs(s: Store, t: Store, source: string, target: string, done: seq<int>, copies: seq<int>)
    requires Copying(s, t, source, target, done, copies)
    ensures CopiesSoFar(s, source, target, done, copies) && t == RemoveAll(s, copies)
  {}

  lemma CopyRemoved(s: Store, t: Store, copies: seq<int>, d: int)
    requires (forall x | x in copies :: x in s.entities) && d in s.entities && d !in copies && d in t.media
    requires forall i, j | 0 <= i < j < |copies| :: copies[i] != copies[j]
    requires t == RemoveAll(s, copies) && Removed(s, t, IdentityVanishing.Ids(copies))
    ensures (forall x | x in copies + [d] :: x in s.entities)
    ensures forall i, j | 0 <= i < j < |copies + [d]| :: (copies + [d])[i] != (copies + [d])[j]
    ensures RemoveUnedited(t, d) == RemoveAll(s, copies + [d])
    ensures Removed(s, RemoveUnedited(t, d), IdentityVanishing.Ids(copies + [d]))
  {
    hide Removed;
    hide RemoveUnedited;
    hide RemoveAll;
    RemovedMore(s, t, IdentityVanishing.Ids(copies), d);
    RemoveNext(s, copies, d);
    assert IdentityVanishing.Ids(copies + [d]) == IdentityVanishing.Ids(copies) + {d};
  }

  lemma SourceStaysIn(s: Store, t: Store, source: string, target: string, copies: seq<int>, e: int)
    requires Inv(s) && Unrelated(source, target) && e in Planned(s, source)
    requires forall d | d in copies :: exists x :: IsCopyOf(s, source, target, d, x)
    requires Removed(s, t, IdentityVanishing.Ids(copies))
    ensures e in t.entities && t.entities[e] == s.entities[e]
  {
    if e in copies {
      var x :| IsCopyOf(s, source, target, e, x);
      MovedFacts(source, target, s.entities[x].path);
    }
  }

  /** What the lookup finds now is what it would have found in the beginning. */
  lemma NextCopy(s: Store, source: string, target: string, order: seq<int>, i: nat, copies: seq<int>, t: Store,
                 dest: set<int>)
    requires Inv(s) && Unrelated(source, target) && Ascending(order) && i < |order| && order[i] in Planned(s, source)
    requires CopiesSoFar(s, source, target, order[..i], copies) && Removed(s, t, IdentityVanishing.Ids(copies))
    requires dest == set d | d in t.entities && t.entities[d].path == Moved(source, target, s.entities[order[i]].path)
    ensures forall d :: d in dest <==> IsCopyOf(s, source, target, d, order[i])
    ensures forall d | d in dest :: d !in copies
    ensures dest == {} ==> CopiesSoFar(s, source, target, order[..i + 1], copies)
    ensures forall d | d in dest && d in s.media :: CopiesSoFar(s, source, target, order[..i + 1], copies + [d])
  {
    hide CopiesSoFar;
    hide IsCopyOf;
    hide Inv;
    hide Removed;
    hide Planned;
    var e := order[i];
    assert order[..i + 1] == order[..i] + [e];
    assert e !in order[..i];
    NotCopiedYet(s, source, target, order[..i], copies, e);
    FoundNow(s, source, target, copies, t, e, dest);
    if dest == {} {
      NoneMore(s, source, target, order[..i], copies, e);
    }
    forall d | d in dest && d in s.media ensures CopiesSoFar(s, source, target, order[..i + 1], copies + [d]) {
      OneMore(s, source, target, order[..i], copies, e, d);
    }
  }

  lemma FoundNow(s: Store, source: string, target: string, copies: seq<int>, t: Store, e: int, dest: set<int>)
    requires e in Planned(s, source) && Removed(s, t, IdentityVanishing.Ids(copies))
    requires dest == set d | d in t.entities && t.entities[d].path == Moved(source, target, s.entities[e].path)
    requires forall d | IsCopyOf(s, source, target, d, e) :: d !in copies
    ensures forall d :: d in dest <==> IsCopyOf(s, source, target, d, e)
  {}

  lemma NotCopiedYet(s: Store, source: string, target: string, done: seq<int>, copies: seq<int>, e: int)
    requires Inv(s) && Unrelated(source, target) && e !in done && CopiesSoFar(s, source, target, done, copies)
    ensures forall d | IsCopyOf(s, source, target, d, e) :: d !in copies
  {
    forall d | IsCopyOf(s, source, target, d, e) ensures d !in copies {
      forall x | x in done ensures !IsCopyOf(s, source, target, d, x) {
        OtherSource(s, source, target, d, e, x);
      }
    }
  }

  lemma NoneMore(s: Store, source: string, target: string, done: seq<int>, copies: seq<int>, e: int)
    requires CopiesSoFar(s, source, target, done, copies) && forall d :: !IsCopyOf(s, source, target, d, e)
    ensures CopiesSoFar(s, source, target, done + [e], copies)
  {
    forall d ensures d in copies <==> exists x :: x in done + [e] && IsCopyOf(s, source, target, d, x) {
      if d in copies {
        var x :| x in done && IsCopyOf(s, source, target, d, x);
        assert x in done + [e];
      }
    }
  }

  lemma OneMore(s: Store, source: string, target: string, done: seq<int>, copies: seq<int>, e: int, c: int)
    requires Inv(s) && CopiesSoFar(s, source, target, done, copies) && IsCopyOf(s, source, target, c, e) && c in s.media
      && c !in copies
    ensures CopiesSoFar(s, source, target, done + [e], copies + [c])
  {
    forall d ensures d in copies + [c] <==> exists x :: x in done + [e] && IsCopyOf(s, source, target, d, x) {
      if d in copies {
        var x :| x in done && IsCopyOf(s, source, target, d, x);
        assert x in done + [e];
      } else if d == c {
        assert e in done + [e];
      }
    }
  }

  lemma OtherSource(s: Store, source: string, target: string, d: int, e: int, x: int)
    requires Inv(s) && Unrelated(source, target) && IsCopyOf(s, source, target, d, e) && x != e
    ensures !IsCopyOf(s, source, target, d, x)
  {
    MovedFacts(source, target, s.entities[e].path);
  }

  lemma MissingCopy(s: Store, source: string, target: string, e: int, d: int)
    requires Inv(s) && IsCopyOf(s, source, target, d, e) && s.entities[d].missing
    ensures !(Duplicates(s, source, target) <= s.media.Keys)
  {
    assert d in Duplicates(s, source, target) && d !in s.media;
  }

  lemma AllCopies(s: Store, source: string, target: string, order: seq<int>, copies: seq<int>)
    requires CopiesSoFar(s, source, target, order, copies) && Elements(order) == Planned(s, source)
    ensures forall d | d in copies :: d in s.media && d in s.entities
    ensures Lists(copies, Duplicates(s, source, target)) && Duplicates(s, source, target) <= s.media.Keys
  {
    forall d ensures d in Duplicates(s, source, target) <==> d in copies {
      forall e ensures IsCopyOf(s, source, target, d, e) ==> e in order {
        assert IsCopyOf(s, source, target, d, e) ==> e in Planned(s, source);
      }
    }
  }

  lemma AscendingDistinct(s: seq<int>)
    requires Ascending(s)
    ensures forall i, j | 0 <= i < j < |s| :: s[i] != s[j]
  {}

  /** The live rows of the plan after dropping are those found at their new path. */
  lemma RowsFound(s: Store, r: Relocation, t: Store)
    requires Inv(s) && Unrelated(r.source, r.target) && Lists(r.copies, Duplicates(s, r.source, r.target))
    requires Duplicates(s, r.source, r.target) <= s.media.Keys
    requires t == Dropped(Cleared(s, r), Planned(s, r.source), r.scan)
    ensures Planned(s, r.source) * t.media.Keys
      == set e | e in Planned(s, r.source) && e in s.media && Moved(r.source, r.target, s.entities[e].path) in r.scan
  {
    hide Dropped;
    hide Cleared;
    hide Duplicates;
    hide Moved;
    hide Unrelated;
    hide Inv;
    ClearedKeeps(s, r);
    RowsLeft(Cleared(s, r), Planned(s, r.source), r.scan);
    forall e | e in Planned(s, r.source)
      ensures e in t.media <==> e in s.media && Moved(r.source, r.target, s.entities[e].path) in r.scan
    {
      SourceStays(s, r, e);
    }
  }

  lemma RowsLeft(u: Store, planned: set<int>, scan: set<string>)
    requires Inv(u)
    ensures forall e ::
      e in Dropped(u, planned, scan).media <==> e in u.media && (e in planned ==> u.entities[e].path in scan)
  {
    DropIsVanish(u, planned, scan);
    VanishRows(u, NotFound(u, planned, scan));
    hide Dropped;
    hide Vanish;
  }

  lemma SameConflict(s: Store, r: Relocation, q: Relocation, named: set<int>)
    requires r.source == q.source && r.target == q.target
    ensures Conflict(s, r, named) <==> Conflict(s, q, named)
  {
    forall f ensures Edited(s, r, named, f) <==> Edited(s, q, named, f) {}
  }

  lemma ClearedIs(s: Store, r: Relocation, t: Store)
    requires Lists(r.copies, Duplicates(s, r.source, r.target)) && (forall e | e in r.copies :: e in s.entities)
    requires t == MovePaths(RemoveAll(s, r.copies), r.source, r.target)
    ensures t == Cleared(s, r)
  {}
}
