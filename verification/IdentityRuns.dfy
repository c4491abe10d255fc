/** Runs: whatever is hidden, missing or moved in between, every face ends as if it had never been
    away. */
module IdentityRuns {
  import opened FolderRename
  import opened IdentityTables
  import opened IdentityInvariant
  import opened IdentityVanishing
  import opened IdentityRelocation

  datatype Event =
    | ChangeAdmin(e: int, admin: bool)
    | Vanishes(order: seq<int>)
    | Restores(e: int)
    | Purges(e: int)
    | Merges(source: int, target: int, manual: bool)
    | Detects(e: int, person: int, marked: bool)
    | Adds(path: string, admin: bool)
    | Relocates(r: Relocation, named: set<int>)

  ghost predicate Accepted(s: Store, ev: Event) {
    match ev
    case ChangeAdmin(e, _) => e in s.media
    case Vanishes(order) => Present(s, order)
    case Restores(e) => e in s.entities
    case Purges(e) => e in s.entities && s.entities[e].missing
    case Merges(_, _, _) => true
    case Detects(e, _, _) => Public(s, e)
    case Adds(path, _) => forall e | e in s.entities :: s.entities[e].path != path
    case Relocates(r, named) =>
      Relocatable(s, r, named)
        && forall e | e in r.rows :: e in Dropped(Cleared(s, r), Planned(s, r.source), r.scan).media
  }

  ghost function Next(s: Store, ev: Event): Store
    requires Accepted(s, ev)
  {
    match ev
    case ChangeAdmin(e, admin) => SetAdmin(s, e, admin)
    case Vanishes(order) => VanishAll(s, order)
    case Restores(e) => Restore(s, e)
    case Purges(e) => Purge(s, e)
    case Merges(source, target, manual) => Merge(s, source, target, manual)
    case Detects(e, person, marked) => Detect(s, e, person, marked)
    case Adds(path, admin) => AddPhoto(s, path, admin)
    case Relocates(r, _) => Relocate(s, r)
  }

  /** The copy row by row, then the deletion by path. */
  ghost function VanishAll(s: Store, order: seq<int>): Store
    requires forall e | e in order :: e in s.entities
  {
    DeleteRows(RetainAll(s, order), PathsOf(s, Ids(order)))
  }

  ghost predicate AllAccepted(s: Store, events: seq<Event>)
    decreases |events|
  {
    events == [] || (Accepted(s, events[0]) && AllAccepted(Next(s, events[0]), events[1..]))
  }

  ghost function Run(s: Store, events: seq<Event>): Store
    requires AllAccepted(s, events)
    decreases |events|
  {
    if events == [] then s else Run(Next(s, events[0]), events[1..])
  }

  // ---- the library without visibility and presence ----

  /** Where every photo belongs and which faces there are, not what is live. */
  datatype Shadow = Shadow(paths: map<int, string>, account: map<int, Face>, nextEntity: int, nextFace: int)

  ghost function ShadowOf(s: Store): Shadow {
    Shadow(map e | e in s.entities :: s.entities[e].path, Account(s), s.nextEntity, s.nextFace)
  }

  ghost predicate Meets(paths: map<int, string>, source: string, target: string, d: int, e: int) {
    d in paths && e in paths && Under(source, paths[e]) && paths[d] == Moved(source, target, paths[e])
  }

  ghost function Met(paths: map<int, string>, source: string, target: string): set<int> {
    set d | d in paths && exists e :: Meets(paths, source, target, d, e)
  }

  ghost function MovedPaths(paths: map<int, string>, source: string, target: string): map<int, string> {
    map e | e in paths :: Moved(source, target, paths[e])
  }

  /** The same events in a library where nothing is ever hidden or missing. */
  ghost function ShadowStep(h: Shadow, ev: Event): Shadow {
    match ev
    case ChangeAdmin(_, _) => h
    case Vanishes(_) => h
    case Restores(_) => h
    case Purges(e) => h.(paths := h.paths - {e}, account := Without(h.account, {e}))
    case Merges(source, target, manual) => h.(account := Merged(h.account, source, target, manual))
    case Detects(e, person, marked) =>
      if e !in h.paths then h
      else h.(account := h.account[h.nextFace := Face(e, h.paths[e], person, false, marked)],
        nextFace := h.nextFace + 1)
    case Adds(path, _) => h.(paths := h.paths[h.nextEntity := path], nextEntity := h.nextEntity + 1)
    case Relocates(r, _) =>
      var gone := Met(h.paths, r.source, r.target);
      h.(paths := MovedPaths(h.paths - gone, r.source, r.target),
         account := MovedAccount(Without(h.account, gone), r.source, r.target))
  }

  ghost function ShadowRun(h: Shadow, events: seq<Event>): Shadow
    decreases |events|
  {
    if events == [] then h else ShadowRun(ShadowStep(h, events[0]), events[1..])
  }

  /** The events that are more than hiding, showing, vanishing and returning. */
  ghost function Essential(events: seq<Event>): seq<Event> {
    if events == [] then []
    else if events[0].ChangeAdmin? || events[0].Vanishes? || events[0].Restores? then Essential(events[1..])
    else [events[0]] + Essential(events[1..])
  }

  lemma {:induction false} OnlyEssentialCounts(h: Shadow, events: seq<Event>)
    ensures ShadowRun(h, Essential(events)) == ShadowRun(h, events)
    decreases |events|
  {
    if events != [] {
      OnlyEssentialCounts(ShadowStep(h, events[0]), events[1..]);
      var ev, rest := events[0], Essential(events[1..]);
      if !(ev.ChangeAdmin? || ev.Vanishes? || ev.Restores?) {
        assert ([ev] + rest)[1..] == rest;
      }
    }
  }

  /** One accepted event keeps the invariant and acts on the shadow as if nothing were hidden. */
  lemma StepKeeps(s: Store, ev: Event)
    requires Inv(s) && Accepted(s, ev)
    ensures Inv(Next(s, ev)) && ShadowOf(Next(s, ev)) == ShadowStep(ShadowOf(s), ev)
  {
    hide Inv;
    hide ShadowOf;
    hide Relocatable;
    hide Relocate;
    hide VanishAll;
    hide Restore;
    hide SetAdmin;
    hide Purge;
    hide Merge;
    hide Detect;
    hide AddPhoto;
    match ev
    case ChangeAdmin(e, admin) => AdminStep(s, e, admin);
    case Vanishes(order) => VanishStep(s, order);
    case Restores(e) => RestoreStep(s, e);
    case Purges(e) => PurgeStep(s, e);
    case Merges(source, target, manual) => MergeStep(s, source, target, manual);
    case Detects(e, person, marked) => DetectStep(s, e, person, marked);
    case Adds(path, admin) => AddStep(s, path, admin);
    case Relocates(r, named) => RelocateStep(s, r, named);
  }

  lemma AdminStep(s: Store, e: int, admin: bool)
    requires Inv(s) && e in s.media
    ensures Inv(SetAdmin(s, e, admin)) && ShadowOf(SetAdmin(s, e, admin)) == ShadowOf(s)
  {
    SetAdminKeeps(s, e, admin);
    SetAdminRows(s, e, admin);
  }

  lemma PurgeStep(s: Store, e: int)
    requires Inv(s) && e in s.entities && s.entities[e].missing
    ensures Inv(Purge(s, e)) && ShadowOf(Purge(s, e)) == ShadowStep(ShadowOf(s), Purges(e))
  {
    PurgeKeeps(s, e);
    assert ShadowOf(Purge(s, e)).paths == ShadowOf(s).paths - {e};
  }

  lemma MergeStep(s: Store, source: int, target: int, manual: bool)
    requires Inv(s)
    ensures Inv(Merge(s, source, target, manual))
    ensures ShadowOf(Merge(s, source, target, manual)) == ShadowStep(ShadowOf(s), Merges(source, target, manual))
  {
    MergeKeeps(s, source, target, manual);
  }

  lemma DetectStep(s: Store, e: int, person: int, marked: bool)
    requires Inv(s) && Public(s, e)
    ensures Inv(Detect(s, e, person, marked))
    ensures ShadowOf(Detect(s, e, person, marked)) == ShadowStep(ShadowOf(s), Detects(e, person, marked))
  {
    DetectKeeps(s, e, person, marked);
  }

  lemma AddStep(s: Store, path: string, admin: bool)
    requires Inv(s) && forall e | e in s.entities :: s.entities[e].path != path
    ensures Inv(AddPhoto(s, path, admin))
      && ShadowOf(AddPhoto(s, path, admin)) == ShadowStep(ShadowOf(s), Adds(path, admin))
  {
    AddPhotoKeeps(s, path, admin);
    assert ShadowOf(AddPhoto(s, path, admin)).paths == ShadowOf(s).paths[s.nextEntity := path];
  }

  lemma VanishStep(s: Store, order: seq<int>)
    requires Inv(s) && Accepted(s, Vanishes(order))
    ensures Inv(VanishAll(s, order)) && ShadowOf(VanishAll(s, order)) == ShadowOf(s)
  {
    forall e | e in Ids(order) ensures e in s.media {}
    VanishAllIs(s, order);
    VanishKeeps(s, Ids(order));
    VanishIds(s, Ids(order));
    SameShadow(s, Vanish(s, Ids(order)), Ids(order));
    hide Vanish;
    hide VanishAll;
    hide Inv;
    hide Account;
    hide ShadowOf;
  }

  lemma SameShadow(s: Store, t: Store, gone: set<int>)
    requires Account(t) == Account(s) && t.entities == MarkedMissing(s, gone) && SameCounters(s, t)
    ensures ShadowOf(t) == ShadowOf(s)
  {}

  lemma VanishIds(s: Store, gone: set<int>)
    requires Inv(s) && gone <= s.media.Keys
    ensures SameCounters(s, Vanish(s, gone))
  {}

  lemma VanishAllIs(s: Store, order: seq<int>)
    requires Inv(s) && Present(s, order)
    ensures VanishAll(s, order) == Vanish(s, Ids(order))
  {
    hide DeleteRows;
    hide Copied;
    hide PathsOf;
    hide Inv;
    RetainAllIs(s, order);
    hide RetainAll;
  }

  lemma RestoreStep(s: Store, e: int)
    requires Inv(s) && e in s.entities
    ensures Inv(Restore(s, e)) && ShadowOf(Restore(s, e)) == ShadowOf(s)
  {
    RestoreKeeps(s, e);
  }

  lemma MetAreDuplicates(s: Store, source: string, target: string)
    ensures Met(ShadowOf(s).paths, source, target) == Duplicates(s, source, target)
  {
    var paths := ShadowOf(s).paths;
    forall d, e ensures Meets(paths, source, target, d, e) <==> IsCopyOf(s, source, target, d, e) {}
  }

  lemma RelocateStep(s: Store, r: Relocation, named: set<int>)
    requires Inv(s) && Accepted(s, Relocates(r, named))
    ensures Inv(Next(s, Relocates(r, named)))
    ensures ShadowOf(Next(s, Relocates(r, named))) == ShadowStep(ShadowOf(s), Relocates(r, named))
  {
    RelocateKeeps(s, r, named);
    hide Dropped;
    hide Cleared;
    hide Relocatable;
    hide Inv;
    RelocateShadow(s, r, named, Relocate(s, r));
    hide Relocate;
    hide Account;
    hide ShadowOf;
    hide ShadowStep;
  }

  lemma RelocateShadow(s: Store, r: Relocation, named: set<int>, t: Store)
    requires Account(t) == MovedAccount(Without(Account(s), Duplicates(s, r.source, r.target)), r.source, r.target)
      && SameCounters(s, t)
    requires t.entities.Keys == s.entities.Keys - Duplicates(s, r.source, r.target)
    requires forall e | e in t.entities :: t.entities[e] == Arrived(s, r, e)
    ensures ShadowOf(t) == ShadowStep(ShadowOf(s), Relocates(r, named))
  {
    MetAreDuplicates(s, r.source, r.target);
    hide Met;
    hide Duplicates;
    hide Account;
    var gone, paths := Duplicates(s, r.source, r.target), ShadowOf(s).paths;
    assert Met(paths, r.source, r.target) == gone;
    assert (paths - gone).Keys == t.entities.Keys;
    forall e | e in t.entities ensures ShadowOf(t).paths[e] == MovedPaths(paths - gone, r.source, r.target)[e] {}
    assert ShadowOf(t).paths == MovedPaths(paths - gone, r.source, r.target);
  }

  /** Over every run the faces, their people and their manual marks are those of the library in
      which nothing was ever hidden, and each is live exactly when its photo is present and public. */
  lemma {:induction false} RunKeeps(s: Store, events: seq<Event>)
    requires Inv(s) && AllAccepted(s, events)
    ensures Inv(Run(s, events)) && ShadowOf(Run(s, events)) == ShadowRun(ShadowOf(s), Essential(events))
    decreases |events|
  {
    OnlyEssentialCounts(ShadowOf(s), events);
    hide Next;
    hide Accepted;
    hide Inv;
    hide ShadowOf;
    hide ShadowStep;
    if events != [] {
      StepKeeps(s, events[0]);
      RunKeeps(Next(s, events[0]), events[1..]);
      OnlyEssentialCounts(ShadowOf(Next(s, events[0])), events[1..]);
    }
  }

  /** Two runs that differ only in what was hidden or missing in between end with the same faces;
      where both end with the same photos public, also with the same live faces. */
  lemma HidingMakesNoDifference(s: Store, events: seq<Event>, t: Store, others: seq<Event>)
    requires Inv(s) && AllAccepted(s, events) && Inv(t) && AllAccepted(t, others)
    requires ShadowOf(s) == ShadowOf(t) && Essential(events) == Essential(others)
    ensures Account(Run(s, events)) == Account(Run(t, others))
    ensures (forall e :: Public(Run(s, events), e) <==> Public(Run(t, others), e)) ==>
      Run(s, events).faces == Run(t, others).faces
  {
    RunKeeps(s, events);
    RunKeeps(t, others);
    hide Run;
    hide AllAccepted;
    hide ShadowRun;
    hide Essential;
    hide Inv;
    SamePublicSameFaces(Run(s, events), Run(t, others));
  }

  lemma SamePublicSameFaces(u: Store, v: Store)
    requires Inv(u) && Inv(v) && Account(u) == Account(v)
    ensures (forall e :: Public(u, e) <==> Public(v, e)) ==> u.faces == v.faces
  {
    if forall e :: Public(u, e) <==> Public(v, e) {
      forall id ensures id in u.faces <==> id in v.faces {
        IsSettled(u, id);
        IsSettled(v, id);
      }
      forall id | id in u.faces ensures u.faces[id] == v.faces[id] {
        IsSettled(u, id);
        IsSettled(v, id);
      }
    }
  }

  /** The photos an event removes for good. */
  ghost function Removes(s: Store, ev: Event): set<int> {
    match ev
    case Purges(e) => {e}
    case Relocates(r, _) => Duplicates(s, r.source, r.target)
    case _ => {}
  }

  /** Faces get lost only with their photo: by purging it or as a duplicate at a target. */
  lemma OnlyRemovalLoses(s: Store, ev: Event, id: int)
    requires Inv(s) && Accepted(s, ev) && id in Account(s)
    ensures id !in Account(Next(s, ev)) <==> Account(s)[id].entity in Removes(s, ev)
  {
    StepKeeps(s, ev);
    if ev.Relocates? {
      MetAreDuplicates(s, ev.r.source, ev.r.target);
    }
  }
}
