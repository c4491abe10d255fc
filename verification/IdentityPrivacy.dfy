/** Where each photo is, whether it is missing, and who may see it, over whole runs. */
module IdentityPrivacy {
  import opened FolderRename
  import opened IdentityTables
  import opened IdentityInvariant
  import opened IdentityVanishing
  import opened IdentityRelocation
  import opened IdentityRuns

  datatype Photo = Photo(path: string, missing: bool, manual: bool, admin: bool)

  datatype Album = Album(photos: map<int, Photo>, next: int)

  /** The flag of a photo, in whichever table its row is. */
  function AdminOf(s: Store, e: int): bool {
    if e in s.media then s.media[e].admin else e in s.keptMedia && s.keptMedia[e].admin
  }

  function PhotoOf(s: Store, e: int): Photo
    requires e in s.entities
  {
    Photo(s.entities[e].path, s.entities[e].missing, s.entities[e].manual, AdminOf(s, e))
  }

  function AlbumOf(s: Store): Album {
    Album(map e | e in s.entities :: PhotoOf(s, e), s.nextEntity)
  }

  /** A photo after a relocation: at its new path, missing unless it was found there, and under the visibility planned
      for that path. */
  function Arriving(p: Photo, r: Relocation): Photo {
    var path := Moved(r.source, r.target, p.path);
    var missing := p.missing || (Under(r.source, p.path) && path !in r.scan);
    Photo(path, missing, p.manual,
          if path in r.admins && (missing || Under(r.source, p.path)) then r.admins[path] else p.admin)
  }

  /** The photos whose place somebody from the source takes. */
  ghost function Displaced(photos: map<int, Photo>, r: Relocation): set<int> {
    set d | d in photos && exists e :: e in photos && Takes(photos[e], photos[d], r)
  }

  predicate Takes(p: Photo, other: Photo, r: Relocation) {
    Under(r.source, p.path) && other.path == Moved(r.source, r.target, p.path)
  }

  /** What each event does to the photos; faces have no part in it. */
  ghost function AlbumStep(a: Album, ev: Event): Album {
    match ev
    case ChangeAdmin(e, admin) => if e in a.photos then a.(photos := a.photos[e := a.photos[e].(admin := admin)]) else a
    case Vanishes(order) =>
      a.(photos := map e | e in a.photos :: if e in order then a.photos[e].(missing := true) else a.photos[e])
    case Restores(e) => if e in a.photos then a.(photos := a.photos[e := a.photos[e].(missing := false)]) else a
    case Purges(e) => a.(photos := a.photos - {e})
    case Merges(_, _, _) => a
    case Detects(_, _, _) => a
    case Adds(path, admin) => Album(a.photos[a.next := Photo(path, false, false, admin)], a.next + 1)
    case Relocates(r, _) =>
      a.(photos := map e | e in a.photos && e !in Displaced(a.photos, r) :: Arriving(a.photos[e], r))
  }

  ghost function AlbumRun(a: Album, events: seq<Event>): Album
    decreases |events|
  {
    if events == [] then a else AlbumRun(AlbumStep(a, events[0]), events[1..])
  }

  lemma AlbumIs(t: Store, a: Album)
    requires a.next == t.nextEntity && a.photos.Keys == t.entities.Keys
    requires forall e | e in t.entities :: a.photos[e] == PhotoOf(t, e)
    ensures AlbumOf(t) == a
  {}

  // ---- one event ----

  lemma AdminAlbum(s: Store, e: int, admin: bool)
    requires Inv(s) && e in s.media
    ensures AlbumOf(SetAdmin(s, e, admin)) == AlbumStep(AlbumOf(s), ChangeAdmin(e, admin))
  {
    SetAdminRows(s, e, admin);
    hide SetAdmin;
    hide PathsUnique;
    hide FacesRight;
    var t, a := SetAdmin(s, e, admin), AlbumStep(AlbumOf(s), ChangeAdmin(e, admin));
    forall x | x in t.entities ensures a.photos[x] == PhotoOf(t, x) {}
    AlbumIs(t, a);
  }

  lemma VanishedPhoto(s: Store, t: Store, order: seq<int>, e: int)
    requires Inv(s) && (forall x | x in order :: x in s.media) && e in s.entities
    requires t.entities == MarkedMissing(s, Ids(order))
    requires t.media == s.media - Ids(order) && t.keptMedia == s.keptMedia + CopiedRows(s, Ids(order))
    ensures PhotoOf(t, e) == if e in order then PhotoOf(s, e).(missing := true) else PhotoOf(s, e)
  {
    assert e in order <==> e in Ids(order);
  }

  lemma MarkedKeys(s: Store, gone: set<int>)
    ensures MarkedMissing(s, gone).Keys == s.entities.Keys
  {}

  lemma VanishAlbum(s: Store, order: seq<int>)
    requires Inv(s) && Accepted(s, Vanishes(order))
    ensures AlbumOf(VanishAll(s, order)) == AlbumStep(AlbumOf(s), Vanishes(order))
  {
    var gone := Ids(order);
    VanishAllIs(s, order);
    forall e | e in gone ensures e in s.media {}
    VanishRows(s, gone);
    VanishKeeps(s, gone);
    VanishIds(s, gone);
    hide VanishAll;
    hide Vanish;
    hide Inv;
    hide Account;
    hide PhotoOf;
    hide CopiedRows;
    hide Ids;
    hide MarkedMissing;
    var t := Vanish(s, gone);
    var a := AlbumStep(AlbumOf(s), Vanishes(order));
    MarkedKeys(s, gone);
    hide AlbumStep;
    forall e | e in t.entities ensures a.photos[e] == PhotoOf(t, e) {
      VanishedPhoto(s, t, order, e);
    }
    AlbumIs(t, a);
  }

  lemma RestoredAlbum(s: Store, e: int)
    requires Inv(s) && e in s.entities && s.entities[e].missing
    ensures AlbumOf(Restore(s, e)) == AlbumStep(AlbumOf(s), Restores(e))
  {
    hide Restore;
    hide PathsUnique;
    hide FacesRight;
    RestoreTables(s, e);
    var t, a := Restore(s, e), AlbumStep(AlbumOf(s), Restores(e));
    forall x | x in t.entities ensures a.photos[x] == PhotoOf(t, x) {}
    AlbumIs(t, a);
  }

  lemma RestoreAlbum(s: Store, e: int)
    requires Inv(s) && e in s.entities
    ensures AlbumOf(Restore(s, e)) == AlbumStep(AlbumOf(s), Restores(e))
  {
    if s.entities[e].missing {
      RestoredAlbum(s, e);
    } else {
      assert Restore(s, e) == s;
      AlbumIs(s, AlbumStep(AlbumOf(s), Restores(e)));
    }
  }

  lemma PurgeAlbum(s: Store, e: int)
    requires Inv(s) && e in s.entities && s.entities[e].missing
    ensures AlbumOf(Purge(s, e)) == AlbumStep(AlbumOf(s), Purges(e))
  {
    assert AlbumOf(Purge(s, e)).photos == AlbumOf(s).photos - {e};
  }

  lemma AddAlbum(s: Store, path: string, admin: bool)
    requires Inv(s)
    ensures AlbumOf(AddPhoto(s, path, admin)) == AlbumStep(AlbumOf(s), Adds(path, admin))
  {
    assert AlbumOf(AddPhoto(s, path, admin)).photos == AlbumStep(AlbumOf(s), Adds(path, admin)).photos;
  }

  lemma SameAlbum(s: Store, t: Store)
    requires t.entities == s.entities && t.media == s.media && t.keptMedia == s.keptMedia
      && t.nextEntity == s.nextEntity
    ensures AlbumOf(t) == AlbumOf(s)
  {
    assert AlbumOf(t).photos == AlbumOf(s).photos;
  }

  // ---- a relocation ----

  lemma RemovedRowOnly(t: Store, e: int)
    requires Inv(t) && e in t.media && e in t.entities
    ensures RemoveUnedited(t, e).keptMedia == t.keptMedia
  {
    assert t.keptMedia - {e} == t.keptMedia;
  }

  lemma {:induction false} RemovedRowsOnly(s: Store, order: seq<int>)
    requires Inv(s) && (forall e | e in order :: e in s.media && e in s.entities)
    requires forall i, j | 0 <= i < j < |order| :: order[i] != order[j]
    ensures RemoveAll(s, order).keptMedia == s.keptMedia
  {
    hide Inv;
    hide RemoveUnedited;
    hide Account;
    hide Without;
    if order != [] {
      var init, last := order[..|order| - 1], order[|order| - 1];
      assert order == init + [last] && last in order && last !in init;
      forall e | e in init ensures e in s.media && e in s.entities {
        assert e in order;
      }
      RemovedRowsOnly(s, init);
      RemoveAllKeeps(s, init);
      RemoveNext(s, init, last);
      RemovedRowOnly(RemoveAll(s, init), last);
    }
  }

  /** Flags travel with the rows. */
  lemma ClearedFlags(s: Store, r: Relocation)
    requires Inv(s) && Lists(r.copies, Duplicates(s, r.source, r.target))
    requires Duplicates(s, r.source, r.target) <= s.media.Keys
    ensures forall e | e in s.entities && e !in Duplicates(s, r.source, r.target) ::
      AdminOf(Cleared(s, r), e) == AdminOf(s, e)
  {
    assert forall e | e in r.copies :: e in Ids(r.copies);
    RemoveAllKeeps(s, r.copies);
    RemovedRowsOnly(s, r.copies);
    hide RemoveAll;
  }

  lemma DroppedFlags(t: Store, planned: set<int>, scan: set<string>)
    requires Inv(t)
    ensures forall e | e in t.entities :: AdminOf(Dropped(t, planned, scan), e) == AdminOf(t, e)
  {
    DropIsVanish(t, planned, scan);
    VanishRows(t, NotFound(t, planned, scan));
    hide Vanish;
    hide Dropped;
  }

  lemma PlannedFlags(u: Store, rows: seq<int>, admins: map<string, bool>)
    requires Inv(u) && forall e | e in rows :: e in u.media
    ensures var t := SetKeptAdmins(SetAdmins(u, rows, admins), admins);
      forall e | e in u.entities :: AdminOf(t, e) ==
        if u.entities[e].path in admins
          && (e in u.media ==> e in rows) then admins[u.entities[e].path] else AdminOf(u, e)
  {
    SetAdminsKeeps(u, rows, admins);
    KeptRowsStay(u, rows, admins);
    hide SetAdmins;
    assert forall e :: e in Ids(rows) <==> e in rows;
  }

  lemma {:induction false} KeptRowsStay(u: Store, rows: seq<int>, admins: map<string, bool>)
    requires forall e | e in rows :: e in u.media
    ensures SetAdmins(u, rows, admins).keptMedia == u.keptMedia
  {
    if rows != [] {
      var init, last := rows[..|rows| - 1], rows[|rows| - 1];
      assert rows == init + [last] && last in rows;
      forall e | e in init ensures e in u.media {
        assert e in rows;
      }
      KeptRowsStay(u, init, admins);
    }
  }

  lemma DisplacedAreDuplicates(s: Store, r: Relocation)
    ensures Displaced(AlbumOf(s).photos, r) == Duplicates(s, r.source, r.target)
  {
    var photos := AlbumOf(s).photos;
    forall d, e | d in photos && e in photos
      ensures Takes(photos[e], photos[d], r) <==> IsCopyOf(s, r.source, r.target, d, e)
    {}
  }

  /** The flag of one photo after the whole transaction. */
  lemma ArrivedFlag(s: Store, r: Relocation, named: set<int>, e: int)
    requires Inv(s) && Relocatable(s, r, named) && e in s.entities && e !in Duplicates(s, r.source, r.target)
    ensures forall x | x in r.rows :: x in Dropped(Cleared(s, r), Planned(s, r.source), r.scan).media
    ensures AdminOf(Relocate(s, r), e) == Arriving(PhotoOf(s, e), r).admin
  {
    RowsAreThere(s, r, named);
    DroppedKeeps(s, r, named);
    ClearedKeeps(s, r);
    ClearedFlags(s, r);
    var u := Dropped(Cleared(s, r), Planned(s, r.source), r.scan);
    DroppedFlags(Cleared(s, r), Planned(s, r.source), r.scan);
    PlannedFlags(u, r.rows, r.admins);
    hide Dropped;
    hide Cleared;
    hide Account;
    hide AdminOf;
    FoundIsPlanned(s, r, named, u, e);
  }

  lemma FoundIsPlanned(s: Store, r: Relocation, named: set<int>, u: Store, e: int)
    requires Inv(s) && Relocatable(s, r, named) && Inv(u) && e in u.entities && e in s.entities
    requires u.entities[e] == Arrived(s, r, e)
    ensures (e in u.media ==> e in r.rows) <==> u.entities[e].missing || Under(r.source, s.entities[e].path)
  {
    assert e in r.rows <==> e in Ids(r.rows);
  }

  lemma ArrivedPhoto(s: Store, r: Relocation, named: set<int>, e: int)
    requires Inv(s) && Accepted(s, Relocates(r, named)) && e in s.entities && e !in Duplicates(s, r.source, r.target)
    ensures var t := Next(s, Relocates(r, named)); e in t.entities && PhotoOf(t, e) == Arriving(PhotoOf(s, e), r)
  {
    hide Dropped;
    hide Cleared;
    hide Relocate;
    hide Relocatable;
    hide Inv;
    hide Account;
    hide AdminOf;
    hide Duplicates;
    hide MovedAccount;
    hide Without;
    RelocateKeeps(s, r, named);
    ArrivedFlag(s, r, named, e);
  }

  lemma ArrivedAlbum(s: Store, t: Store, r: Relocation, named: set<int>)
    requires t.entities.Keys == s.entities.Keys - Duplicates(s, r.source, r.target) && t.nextEntity == s.nextEntity
    requires forall e | e in t.entities :: PhotoOf(t, e) == Arriving(PhotoOf(s, e), r)
    ensures AlbumOf(t) == AlbumStep(AlbumOf(s), Relocates(r, named))
  {
    DisplacedAreDuplicates(s, r);
    hide Displaced;
    hide Duplicates;
    hide Arriving;
    hide PhotoOf;
    AlbumIs(t, AlbumStep(AlbumOf(s), Relocates(r, named)));
  }

  lemma RelocatedKeys(s: Store, r: Relocation, named: set<int>)
    requires Inv(s) && Accepted(s, Relocates(r, named))
    ensures var t := Next(s, Relocates(r, named));
      t.entities.Keys == s.entities.Keys - Duplicates(s, r.source, r.target) && t.nextEntity == s.nextEntity
  {
    hide Dropped;
    hide Cleared;
    hide Relocate;
    hide Relocatable;
    hide Inv;
    hide Account;
    hide Duplicates;
    hide MovedAccount;
    hide Without;
    hide Arrived;
    RelocateKeeps(s, r, named);
  }

  lemma RelocateAlbum(s: Store, r: Relocation, named: set<int>)
    requires Inv(s) && Accepted(s, Relocates(r, named))
    ensures AlbumOf(Next(s, Relocates(r, named))) == AlbumStep(AlbumOf(s), Relocates(r, named))
  {
    hide Next;
    hide Accepted;
    hide Inv;
    hide Arriving;
    hide PhotoOf;
    hide Duplicates;
    var t := Next(s, Relocates(r, named));
    RelocatedKeys(s, r, named);
    forall e | e in t.entities ensures PhotoOf(t, e) == Arriving(PhotoOf(s, e), r) {
      ArrivedPhoto(s, r, named, e);
    }
    ArrivedAlbum(s, t, r, named);
  }

  // ---- runs ----

  lemma StepAlbum(s: Store, ev: Event)
    requires Inv(s) && Accepted(s, ev)
    ensures AlbumOf(Next(s, ev)) == AlbumStep(AlbumOf(s), ev)
  {
    hide Inv;
    hide AlbumOf;
    hide Relocatable;
    hide Relocate;
    hide VanishAll;
    hide Restore;
    hide SetAdmin;
    hide Purge;
    hide AddPhoto;
    match ev
    case ChangeAdmin(e, admin) => AdminAlbum(s, e, admin);
    case Vanishes(order) => VanishAlbum(s, order);
    case Restores(e) => RestoreAlbum(s, e);
    case Purges(e) => PurgeAlbum(s, e);
    case Merges(source, target, manual) => SameAlbum(s, Merge(s, source, target, manual));
    case Detects(e, person, marked) => SameAlbum(s, Detect(s, e, person, marked));
    case Adds(path, admin) => AddAlbum(s, path, admin);
    case Relocates(r, named) => RelocateAlbum(s, r, named);
  }

  /** Over every run each photo has the path, the presence and the visibility that the events gave it. */
  lemma {:induction false} RunKeepsAlbum(s: Store, events: seq<Event>)
    requires Inv(s) && AllAccepted(s, events)
    ensures AlbumOf(Run(s, events)) == AlbumRun(AlbumOf(s), events)
    decreases |events|
  {
    hide Next;
    hide Accepted;
    hide Inv;
    hide AlbumOf;
    hide AlbumStep;
    if events != [] {
      StepKeeps(s, events[0]);
      StepAlbum(s, events[0]);
      RunKeepsAlbum(Next(s, events[0]), events[1..]);
    }
  }

  /** An event that can change who may see photo `e`. */
  predicate Concerns(ev: Event, e: int) {
    ev.Relocates? || (ev.ChangeAdmin? && ev.e == e)
  }

  lemma {:induction false} GoneForGood(a: Album, events: seq<Event>, e: int)
    requires e !in a.photos && e < a.next
    ensures e !in AlbumRun(a, events).photos
    decreases |events|
  {
    if events != [] {
      GoneForGood(AlbumStep(a, events[0]), events[1..], e);
    }
  }

  lemma {:induction false} AlbumKeepsAdmin(a: Album, events: seq<Event>, e: int)
    requires e in a.photos && e < a.next && forall ev | ev in events :: !Concerns(ev, e)
    ensures e in AlbumRun(a, events).photos ==> AlbumRun(a, events).photos[e].admin == a.photos[e].admin
    decreases |events|
  {
    if events != [] {
      var b := AlbumStep(a, events[0]);
      assert events[0] in events && forall ev | ev in events[1..] :: ev in events;
      if e in b.photos {
        assert b.photos[e].admin == a.photos[e].admin;
        AlbumKeepsAdmin(b, events[1..], e);
      } else {
        GoneForGood(b, events[1..], e);
      }
    }
  }

  /** Vanishing and returning does not publish a private photo: none of its faces is live afterwards. */
  lemma PrivateStaysPrivate(s: Store, events: seq<Event>, e: int)
    requires Inv(s) && AllAccepted(s, events) && e in s.entities && AdminOf(s, e)
    requires forall ev | ev in events :: !Concerns(ev, e)
    ensures e in Run(s, events).entities ==> AdminOf(Run(s, events), e)
    ensures forall id | id in Run(s, events).faces :: Run(s, events).faces[id].entity != e
  {
    RunKeeps(s, events);
    RunKeepsAlbum(s, events);
    AlbumKeepsAdmin(AlbumOf(s), events, e);
    hide Run;
    hide AlbumRun;
    var t := Run(s, events);
    forall id | id in t.faces ensures t.faces[id].entity != e {
      assert FaceRight(t, t.faces[id]);
    }
  }
}
