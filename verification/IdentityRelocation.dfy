/** Relocating a folder: unedited duplicates at the target go, every path moves, what is not
    found there is retained, and the new visibility is applied. */
module IdentityRelocation {
  import opened FolderRename
  import opened IdentityTables
  import opened IdentityInvariant
  import opened IdentityVanishing

  // ---- duplicates at the target ----

  ghost predicate IsCopyOf(s: Store, source: string, target: string, d: int, e: int) {
    && d in s.entities && e in s.entities && Under(source, s.entities[e].path)
    && s.entities[d].path == Moved(source, target, s.entities[e].path)
  }

  /** The photos that stand where a photo of the source is going. */
  ghost function Duplicates(s: Store, source: string, target: string): set<int> {
    set d | d in s.entities && exists e :: IsCopyOf(s, source, target, d, e)
  }

  function RemoveAll(s: Store, order: seq<int>): (t: Store)
    requires forall e | e in order :: e in s.entities
    requires forall i, j | 0 <= i < j < |order| :: order[i] != order[j]
    ensures t.entities.Keys == s.entities.Keys - Ids(order)
  {
    if order == [] then s
    else
      var init, e := order[..|order| - 1], order[|order| - 1];
      assert order == init + [e] && e !in init;
      RemoveUnedited(RemoveAll(s, init), e)
  }

  /** `t` is `s` without the photos `gone` and their faces. */
  ghost predicate Removed(s: Store, t: Store, gone: set<int>) {
    && Inv(t) && Account(t) == Without(Account(s), gone)
    && t.entities == s.entities - gone && t.media == s.media - gone && SameCounters(s, t)
  }

  predicate SameCounters(s: Store, t: Store) {
    t.nextEntity == s.nextEntity && t.nextFace == s.nextFace
  }

  lemma RemovedMore(s: Store, t: Store, gone: set<int>, e: int)
    requires Removed(s, t, gone) && e in t.media
    ensures Removed(s, RemoveUnedited(t, e), gone + {e})
  {
    RemoveKeeps(t, e);
    MinusOneMore(s.entities, gone, e);
    MinusOneMore(s.media, gone, e);
    WithoutTwice(Account(s), gone, e);
  }

  lemma WithoutTwice(account: map<int, Face>, gone: set<int>, e: int)
    ensures Without(Without(account, gone), {e}) == Without(account, gone + {e})
    ensures Without(account, {}) == account
  {}

  lemma RemoveNext(s: Store, order: seq<int>, e: int)
    requires (forall x | x in order :: x in s.entities) && e in s.entities && e !in order
    requires forall i, j | 0 <= i < j < |order| :: order[i] != order[j]
    ensures RemoveAll(s, order + [e]) == RemoveUnedited(RemoveAll(s, order), e)
  {
    assert (order + [e])[..|order|] == order;
  }

  lemma HaveEntities(s: Store)
    requires Inv(s)
    ensures forall e | e in s.media :: e in s.entities
  {}

  lemma NothingRemoved(s: Store)
    requires Inv(s)
    ensures Removed(s, s, {})
  {
    WithoutTwice(Account(s), {}, 0);
    assert s.entities - {} == s.entities && s.media - {} == s.media;
  }

  lemma StillThere(s: Store, t: Store, gone: set<int>, e: int)
    requires Removed(s, t, gone) && e in s.media && e !in gone
    ensures e in t.media
  {}

  lemma {:induction false} RemoveAllKeeps(s: Store, order: seq<int>)
    requires Inv(s) && (forall e | e in order :: e in s.media)
    requires forall i, j | 0 <= i < j < |order| :: order[i] != order[j]
    ensures Removed(s, RemoveAll(s, order), Ids(order))
  {
    hide Removed;
    hide Inv;
    hide Account;
    hide RemoveUnedited;
    HaveEntities(s);
    if order == [] {
      NothingRemoved(s);
      assert Ids(order) == {};
    } else {
      var init, e := order[..|order| - 1], order[|order| - 1];
      assert order == init + [e] && e in order && e !in init;
      RemoveAllKeeps(s, init);
      StillThere(s, RemoveAll(s, init), Ids(init), e);
      RemovedMore(s, RemoveAll(s, init), Ids(init), e);
      RemoveNext(s, init, e);
      assert Ids(order) == Ids(init) + {e};
    }
  }

  lemma MinusOneMore<T>(m: map<int, T>, gone: set<int>, e: int)
    ensures (m - gone) - {e} == m - (gone + {e})
  {}

  // ---- the path columns ----

  function MoveFace(f: Face, source: string, target: string): Face {
    f.(path := Moved(source, target, f.path))
  }

  /** The UPDATE of every path column. */
  function MovePaths(s: Store, source: string, target: string): Store {
    s.(entities := map e | e in s.entities :: s.entities[e].(path := Moved(source, target, s.entities[e].path)),
       media := map e | e in s.media :: s.media[e].(path := Moved(source, target, s.media[e].path)),
       keptMedia := map e | e in s.keptMedia :: s.keptMedia[e].(path := Moved(source, target, s.keptMedia[e].path)),
       faces := map id | id in s.faces :: MoveFace(s.faces[id], source, target),
       kept := map id | id in s.kept :: s.kept[id].(face := MoveFace(s.kept[id].face, source, target)))
  }

  function MovedAccount(account: map<int, Face>, source: string, target: string): map<int, Face> {
    map id | id in account :: MoveFace(account[id], source, target)
  }

  lemma MovedApart(source: string, target: string, p: string, q: string)
    requires Unrelated(source, target) && p != q
    requires Under(source, p) ==> q != Moved(source, target, p)
    requires Under(source, q) ==> p != Moved(source, target, q)
    ensures Moved(source, target, p) != Moved(source, target, q)
  {
    MatchesIsUnder(source, p);
    MatchesIsUnder(source, q);
    if Under(source, p) {
      MovedFacts(source, target, p);
    }
  }

  lemma MoveKeeps(s: Store, source: string, target: string)
    requires Inv(s) && Unrelated(source, target) && Duplicates(s, source, target) == {}
    ensures Inv(MovePaths(s, source, target))
    ensures Account(MovePaths(s, source, target)) == MovedAccount(Account(s), source, target)
  {
    var t := MovePaths(s, source, target);
    forall a, b | a in t.entities && b in t.entities && t.entities[a].path == t.entities[b].path ensures a == b {
      if a != b {
        NoCopies(s, source, target, a, b);
        NoCopies(s, source, target, b, a);
        MovedApart(source, target, s.entities[a].path, s.entities[b].path);
      }
    }
    forall id ensures SettledAt(t, MovedAccount(Account(s), source, target), id)
      && (id in Account(s) ==> FaceRight(t, MoveFace(Account(s)[id], source, target)))
    {
      MoveAt(s, source, target, id);
    }
    SettledIs(t, MovedAccount(Account(s), source, target));
  }

  lemma MoveAt(s: Store, source: string, target: string, id: int)
    requires Inv(s) && Unrelated(source, target)
    ensures var t := MovePaths(s, source, target);
      && SettledAt(t, MovedAccount(Account(s), source, target), id)
      && (id in Account(s) ==> FaceRight(t, MoveFace(Account(s)[id], source, target)))
  {
    IsSettled(s, id);
  }

  lemma NoCopies(s: Store, source: string, target: string, d: int, e: int)
    requires Duplicates(s, source, target) == {} && d in s.entities && e in s.entities
    ensures Under(source, s.entities[e].path) ==> s.entities[d].path != Moved(source, target, s.entities[e].path)
  {
    assert d !in Duplicates(s, source, target);
    assert !IsCopyOf(s, source, target, d, e);
  }

  // ---- the new visibility ----

  /** UPDATE of admin_only in one row if its path is planned. */
  function SetPlanned(s: Store, e: int, plan: map<string, bool>): Store
    requires e in s.media
  {
    if s.media[e].path in plan then SetAdmin(s, e, plan[s.media[e].path]) else s
  }

  /** The UPDATE for all planned paths, row by row. */
  function SetAdmins(s: Store, order: seq<int>, plan: map<string, bool>): (t: Store)
    requires forall e | e in order :: e in s.media
    ensures t.media.Keys == s.media.Keys
  {
    if order == [] then s
    else
      assert forall x | x in order[..|order| - 1] :: x in order;
      SetPlanned(SetAdmins(s, order[..|order| - 1], plan), order[|order| - 1], plan)
  }

  /** `t` is `s` with the planned visibility of the photos `done`. */
  ghost predicate Applied(s: Store, t: Store, done: set<int>, plan: map<string, bool>) {
    && Inv(t) && Account(t) == Account(s) && t.entities == s.entities && t.media.Keys == s.media.Keys
    && SameCounters(s, t)
    && forall e | e in s.media :: t.media[e] ==
         if e in done && s.media[e].path in plan then s.media[e].(admin := plan[s.media[e].path]) else s.media[e]
  }

  lemma AppliedMore(s: Store, t: Store, done: set<int>, plan: map<string, bool>, e: int)
    requires Applied(s, t, done, plan) && e in s.media
    ensures Applied(s, SetPlanned(t, e, plan), done + {e}, plan)
  {
    if t.media[e].path in plan {
      SetAdminKeeps(t, e, plan[t.media[e].path]);
      SetAdminRows(t, e, plan[t.media[e].path]);
    }
  }

  lemma {:induction false} SetAdminsKeeps(s: Store, order: seq<int>, plan: map<string, bool>)
    requires Inv(s) && forall e | e in order :: e in s.media
    ensures Applied(s, SetAdmins(s, order, plan), Ids(order), plan)
  {
    if order != [] {
      var init, e := order[..|order| - 1], order[|order| - 1];
      assert order == init + [e];
      SetAdminsKeeps(s, init, plan);
      AppliedMore(s, SetAdmins(s, init, plan), Ids(init), plan, e);
      SetAdminsNext(s, init, plan, e);
      assert Ids(order) == Ids(init) + {e};
    }
  }

  lemma SetAdminsNext(s: Store, order: seq<int>, plan: map<string, bool>, e: int)
    requires (forall x | x in order :: x in s.media) && e in s.media
    ensures SetAdmins(s, order + [e], plan) == SetPlanned(SetAdmins(s, order, plan), e, plan)
  {
    assert (order + [e])[..|order|] == order;
  }

  /** The same for the retained rows, where no trigger fires. */
  function SetKeptAdmins(s: Store, plan: map<string, bool>): Store {
    s.(keptMedia := map e | e in s.keptMedia ::
         if s.keptMedia[e].path in plan then s.keptMedia[e].(admin := plan[s.keptMedia[e].path]) else s.keptMedia[e])
  }

  lemma SetKeptAdminsKeeps(s: Store, plan: map<string, bool>)
    requires Inv(s)
    ensures Inv(SetKeptAdmins(s, plan)) && Account(SetKeptAdmins(s, plan)) == Account(s)
  {}

  // ---- the transaction ----

  /** The order of rows in each statement that has one, and the plan made before. */
  datatype Relocation = Relocation(source: string, target: string, copies: seq<int>, rows: seq<int>,
    admins: map<string, bool>, scan: set<string>)

  function Planned(s: Store, source: string): set<int> {
    set e | e in s.entities && Under(source, s.entities[e].path)
  }

  /** A face somebody worked on: the guard of the conflict query.  `named` are the people with a
      manual name; such a person is worth keeping unless the source has a face of them too. */
  predicate Edited(s: Store, r: Relocation, named: set<int>, f: Face) {
    || f.manual || f.marked
    || (f.person in named
         && forall id | id in Account(s) && Under(r.source, Account(s)[id].path) :: Account(s)[id].person != f.person)
  }

  /** The conflict query: only live faces are looked at. */
  predicate Conflict(s: Store, r: Relocation, named: set<int>) {
    || (exists e :: e in s.entities && Under(r.target, s.entities[e].path) && s.entities[e].manual)
    || (exists id :: id in s.faces && Under(r.target, s.faces[id].path) && Edited(s, r, named, s.faces[id]))
  }

  ghost predicate Lists(order: seq<int>, ids: set<int>) {
    (forall i, j | 0 <= i < j < |order| :: order[i] != order[j]) && Ids(order) == ids
  }

  /** The relocation is carried out: unrelated folders, no conflict, no duplicate missing. */
  ghost predicate Relocatable(s: Store, r: Relocation, named: set<int>) {
    && Unrelated(r.source, r.target)
    && !Conflict(s, r, named)
    && Duplicates(s, r.source, r.target) <= s.media.Keys
    && Lists(r.copies, Duplicates(s, r.source, r.target))
    && Lists(r.rows,
         set e | e in Planned(s, r.source) && e in s.media && Moved(r.source, r.target, s.entities[e].path) in r.scan)
  }

  /** Duplicates removed and paths rewritten. */
  ghost function Cleared(s: Store, r: Relocation): Store
    requires Lists(r.copies, Duplicates(s, r.source, r.target))
  {
    assert forall e | e in r.copies :: e in Ids(r.copies);
    MovePaths(RemoveAll(s, r.copies), r.source, r.target)
  }

  function NotFound(t: Store, planned: set<int>, scan: set<string>): set<int> {
    set e | e in planned && e in t.entities && !t.entities[e].missing && t.entities[e].path !in scan
  }

  function MissingOf(t: Store, planned: set<int>): set<int> {
    set e | e in planned && e in t.entities && t.entities[e].missing
  }

  /** What is not found is retained; then the rows of everything missing in the plan are deleted. */
  ghost function Dropped(t: Store, planned: set<int>, scan: set<string>): Store {
    var u := Copied(t, NotFound(t, planned, scan));
    DeleteRows(u, PathsOf(u, MissingOf(u, planned)))
  }

  /** Photos that were missing before have no live rows, so only what vanishes now is deleted. */
  lemma DropIsVanish(t: Store, planned: set<int>, scan: set<string>)
    requires Inv(t)
    ensures NotFound(t, planned, scan) <= t.media.Keys
    ensures Dropped(t, planned, scan) == Vanish(t, NotFound(t, planned, scan))
  {
    var gone := NotFound(t, planned, scan);
    forall e | e in gone ensures e in t.media {}
    var u := Copied(t, gone);
    var more, paths := PathsOf(u, MissingOf(u, planned)), PathsOf(t, gone);
    forall e | e in t.media ensures t.media[e].path in more <==> t.media[e].path in paths {
      SelectedBoth(t, planned, scan, e);
    }
    assert RowsAt(t.media, more) == RowsAt(t.media, paths);
    forall id | id in t.faces ensures t.faces[id].path in more <==> t.faces[id].path in paths {
      assert FaceRight(t, t.faces[id]);
      SelectedBoth(t, planned, scan, t.faces[id].entity);
    }
    assert FacesAt(t, more) == FacesAt(t, paths);
  }

  lemma SelectedBoth(t: Store, planned: set<int>, scan: set<string>, e: int)
    requires Inv(t) && e in t.media
    ensures var gone := NotFound(t, planned, scan); var u := Copied(t, gone);
      t.entities[e].path in PathsOf(u, MissingOf(u, planned)) <==> t.entities[e].path in PathsOf(t, gone)
  {
    var gone := NotFound(t, planned, scan);
    var u := Copied(t, gone);
    assert u.entities[e].path == t.entities[e].path;
    PathsSelect(u, MissingOf(u, planned), e);
    PathsSelect(t, gone, e);
  }

  ghost function Relocate(s: Store, r: Relocation): Store
    requires Lists(r.copies, Duplicates(s, r.source, r.target))
    requires forall e | e in r.rows :: e in Dropped(Cleared(s, r), Planned(s, r.source), r.scan).media
  {
    SetKeptAdmins(SetAdmins(Dropped(Cleared(s, r), Planned(s, r.source), r.scan), r.rows, r.admins), r.admins)
  }

  lemma ClearedKeeps(s: Store, r: Relocation)
    requires Inv(s) && Unrelated(r.source, r.target) && Lists(r.copies, Duplicates(s, r.source, r.target))
    requires Duplicates(s, r.source, r.target) <= s.media.Keys
    ensures var t := Cleared(s, r); var gone := Duplicates(s, r.source, r.target);
      && Inv(t) && Account(t) == MovedAccount(Without(Account(s), gone), r.source, r.target) && SameCounters(s, t)
      && t.entities.Keys == s.entities.Keys - gone && t.media.Keys == s.media.Keys - gone
      && forall e | e in t.entities ::
           t.entities[e] == s.entities[e].(path := Moved(r.source, r.target, s.entities[e].path))
  {
    hide Account;
    hide MovedAccount;
    hide Without;
    hide Inv;
    var gone := Duplicates(s, r.source, r.target);
    assert forall e | e in r.copies :: e in Ids(r.copies);
    RemoveAllKeeps(s, r.copies);
    var a := RemoveAll(s, r.copies);
    NoCopiesLeft(s, r.source, r.target, a);
    MoveKeeps(a, r.source, r.target);
  }

  lemma NoCopiesLeft(s: Store, source: string, target: string, a: Store)
    requires a.entities == s.entities - Duplicates(s, source, target)
    ensures Duplicates(a, source, target) == {}
  {
    forall d | d in a.entities ensures d !in Duplicates(a, source, target) {
      assert d !in Duplicates(s, source, target);
      forall e ensures !IsCopyOf(a, source, target, d, e) {
        assert !IsCopyOf(s, source, target, d, e);
      }
    }
  }

  /** No photo of the source is a duplicate of another. */
  lemma SourceStays(s: Store, r: Relocation, e: int)
    requires Unrelated(r.source, r.target) && e in Planned(s, r.source)
    ensures e !in Duplicates(s, r.source, r.target)
  {
    forall x ensures !IsCopyOf(s, r.source, r.target, e, x) {
      if x in s.entities && Under(r.source, s.entities[x].path) {
        MovedFacts(r.source, r.target, s.entities[x].path);
      }
    }
  }

  lemma RowsAreThere(s: Store, r: Relocation, named: set<int>)
    requires Inv(s) && Relocatable(s, r, named)
    ensures forall e | e in r.rows :: e in Dropped(Cleared(s, r), Planned(s, r.source), r.scan).media
  {
    var t, planned := Cleared(s, r), Planned(s, r.source);
    ClearedKeeps(s, r);
    DropIsVanish(t, planned, r.scan);
    VanishRows(t, NotFound(t, planned, r.scan));
    forall e | e in r.rows ensures e in t.media && e !in NotFound(t, planned, r.scan) {
      assert e in Ids(r.rows);
      SourceStays(s, r, e);
    }
  }

  /** The state of one photo after a relocation. */
  ghost function Arrived(s: Store, r: Relocation, e: int): Entity
    requires e in s.entities
  {
    var path := Moved(r.source, r.target, s.entities[e].path);
    s.entities[e].(path := path, missing := s.entities[e].missing
      || (Under(r.source, s.entities[e].path) && path !in r.scan))
  }

  /** Relocation keeps every face except those of the duplicates, under its new path and in the
      table its photo now asks for; what is not found at the target is missing. */
  lemma RelocateKeeps(s: Store, r: Relocation, named: set<int>)
    requires Inv(s) && Relocatable(s, r, named)
    ensures forall e | e in r.rows :: e in Dropped(Cleared(s, r), Planned(s, r.source), r.scan).media
    ensures var t := Relocate(s, r); var gone := Duplicates(s, r.source, r.target);
      && Inv(t) && SameCounters(s, t)
      && Account(t) == MovedAccount(Without(Account(s), gone), r.source, r.target)
      && t.entities.Keys == s.entities.Keys - gone
      && (forall e | e in t.entities :: t.entities[e] == Arrived(s, r, e))
      && (forall e | e in r.rows && e in t.entities && t.entities[e].path in r.admins ::
           e in t.media && t.media[e].admin == r.admins[t.entities[e].path])
  {
    RowsAreThere(s, r, named);
    DroppedKeeps(s, r, named);
    hide Dropped;
    hide Cleared;
    hide Account;
    hide MovedAccount;
    hide Without;
    hide Arrived;
    hide Duplicates;
    hide Planned;
    hide Relocatable;
    VisibilityKeeps(Dropped(Cleared(s, r), Planned(s, r.source), r.scan), r.rows, r.admins);
  }

  lemma VisibilityKeeps(u: Store, rows: seq<int>, admins: map<string, bool>)
    requires Inv(u) && forall e | e in rows :: e in u.media
    ensures var t := SetKeptAdmins(SetAdmins(u, rows, admins), admins);
      && Inv(t) && Account(t) == Account(u) && t.entities == u.entities && SameCounters(u, t)
      && (forall e | e in rows && t.entities[e].path in admins ::
           e in t.media && t.media[e].admin == admins[t.entities[e].path])
  {
    SetAdminsKeeps(u, rows, admins);
    SetKeptAdminsKeeps(SetAdmins(u, rows, admins), admins);
  }

  lemma DroppedKeeps(s: Store, r: Relocation, named: set<int>)
    requires Inv(s) && Relocatable(s, r, named)
    ensures var u := Dropped(Cleared(s, r), Planned(s, r.source), r.scan);
      var gone := Duplicates(s, r.source, r.target);
      && Inv(u) && SameCounters(s, u)
      && Account(u) == MovedAccount(Without(Account(s), gone), r.source, r.target)
      && u.entities.Keys == s.entities.Keys - gone
      && (forall e | e in u.entities :: u.entities[e] == Arrived(s, r, e))
  {
    ClearedKeeps(s, r);
    DropKeeps(Cleared(s, r), Planned(s, r.source), r.scan);
  }

  lemma DropKeeps(t: Store, planned: set<int>, scan: set<string>)
    requires Inv(t)
    ensures var u := Dropped(t, planned, scan);
      && Inv(u) && Account(u) == Account(t) && u.entities.Keys == t.entities.Keys && SameCounters(t, u)
      && forall e | e in t.entities :: u.entities[e] ==
           t.entities[e].(missing := t.entities[e].missing || (e in planned && t.entities[e].path !in scan))
  {
    DropIsVanish(t, planned, scan);
    VanishKeeps(t, NotFound(t, planned, scan));
  }

  // ---- whose work is lost ----

  /** Faces that a relocation loses. */
  ghost predicate Lost(s: Store, t: Store, id: int) {
    id in Account(s) && id !in Account(t)
  }

  /** The conflict query protects edited live faces, but it does not look at archived ones: no
      edited face is lost exactly when no private duplicate has one. */
  lemma LosesOnlyUnedited(s: Store, r: Relocation, named: set<int>)
    requires Inv(s) && Relocatable(s, r, named)
    requires forall e | e in s.entities :: s.entities[e].path != r.source
    ensures forall e | e in r.rows :: e in Dropped(Cleared(s, r), Planned(s, r.source), r.scan).media
    ensures (forall id | Lost(s, Relocate(s, r), id) :: !Edited(s, r, named, Account(s)[id]))
      <==> (forall id | id in s.kept && s.kept[id].face.entity in Duplicates(s, r.source, r.target) ::
        !Edited(s, r, named, s.kept[id].face))
  {
    RelocateKeeps(s, r, named);
    hide Relocate;
    hide Dropped;
    hide Cleared;
    hide Edited;
    var t, gone := Relocate(s, r), Duplicates(s, r.source, r.target);
    forall id ensures Lost(s, t, id) <==> id in Account(s) && Account(s)[id].entity in gone {}
    forall id | id in s.faces && s.faces[id].entity in gone ensures !Edited(s, r, named, s.faces[id]) {
      DuplicateBelowTarget(s, r, s.faces[id].entity);
    }
    forall id | id in s.kept ensures id !in s.faces && Account(s)[id] == s.kept[id].face {}
  }

  /** What is removed at the target is nobody's work: no photo edited by hand, and no live face that was edited, marked,
      or named by hand after somebody the source does not show. */
  lemma DuplicatesAreUnedited(s: Store, r: Relocation, named: set<int>, d: int)
    requires Inv(s) && Relocatable(s, r, named) && d in Duplicates(s, r.source, r.target)
    ensures !s.entities[d].manual
    ensures forall id | id in s.faces && s.faces[id].entity == d :: !s.faces[id].manual && !s.faces[id].marked
    ensures forall id | id in s.faces && s.faces[id].entity == d && s.faces[id].person in named ::
      exists other :: other in Account(s) && Under(r.source, Account(s)[other].path)
        && Account(s)[other].person == s.faces[id].person
  {
    DuplicateBelowTarget(s, r, d);
    forall id | id in s.faces && s.faces[id].entity == d ensures Under(r.target, s.faces[id].path) {
      assert FaceRight(s, s.faces[id]);
    }
  }

  /** What survives a relocation, in terms of the database before it. */
  lemma RelocationProtects(s: Store, r: Relocation, named: set<int>)
    requires Inv(s) && Relocatable(s, r, named)
    ensures forall e | e in r.rows :: e in Dropped(Cleared(s, r), Planned(s, r.source), r.scan).media
    ensures var t := Relocate(s, r);
      && (forall e | e in s.entities && s.entities[e].manual :: e in t.entities)
      && (forall id | id in s.faces && (s.faces[id].manual || s.faces[id].marked) :: id in Account(t))
      && (forall id | id in s.faces && s.faces[id].person in named
            && (forall other | other in Account(s) && Under(r.source, Account(s)[other].path) ::
                  Account(s)[other].person != s.faces[id].person) :: id in Account(t))
  {
    RelocateKeeps(s, r, named);
    hide Relocate;
    hide Dropped;
    hide Cleared;
    hide Relocatable;
    hide Inv;
    hide Account;
    hide MovedAccount;
    hide Arrived;
    var gone := Duplicates(s, r.source, r.target);
    forall d | d in gone ensures d in s.entities && !s.entities[d].manual {
      DuplicatesAreUnedited(s, r, named, d);
    }
    forall id | id in s.faces
      ensures id in Account(Relocate(s, r)) || s.faces[id].entity in gone
      ensures s.faces[id].entity in gone ==> !s.faces[id].manual && !s.faces[id].marked
      ensures s.faces[id].entity in gone && s.faces[id].person in named ==>
        exists other :: other in Account(s) && Under(r.source, Account(s)[other].path)
          && Account(s)[other].person == s.faces[id].person
    {
      if s.faces[id].entity in gone {
        DuplicatesAreUnedited(s, r, named, s.faces[id].entity);
      } else {
        StaysInAccount(s, gone, r.source, r.target, id);
      }
    }
  }

  lemma StaysInAccount(s: Store, gone: set<int>, source: string, target: string, id: int)
    requires id in s.faces && s.faces[id].entity !in gone
    ensures id in MovedAccount(Without(Account(s), gone), source, target)
  {}

  lemma DuplicateBelowTarget(s: Store, r: Relocation, d: int)
    requires Unrelated(r.source, r.target) && d in Duplicates(s, r.source, r.target)
    ensures Under(r.target, s.entities[d].path)
  {
    var e :| IsCopyOf(s, r.source, r.target, d, e);
    MovedFacts(r.source, r.target, s.entities[e].path);
  }
}
