/** Runs of labeling requests with retries, reused ids, stale revisions, other writers and resets. */
module LabelRuns {
  import opened LabelTables
  import opened LabelActions
  import opened Pick

  /** `used` are the dataset names there have been; they are random and never come again. */
  datatype State = State(db: Db, used: set<int>)

  datatype Event =
    | Ask(actor: int, r: Request, order: seq<int>)
    | Reset(dataset: int)
    | NameOutside(person: int, name: string)
    | FaceAdded(id: int, face: Face)
    | FaceRemoved(id: int)
    | PersonRemoved(person: int)

  ghost predicate Enabled(s: State, e: Event) {
    match e
    case Ask(_, r, order) => SourceRight(s.db, r) ==> IsOrder(s.db, r.person, order)
    case Reset(dataset) => dataset !in s.used
    case NameOutside(person, _) => person in s.db.people
    case FaceAdded(id, _) => id !in s.db.faces
    case FaceRemoved(id) => id in s.db.faces
    case PersonRemoved(_) => true
  }

  /** ClearFaces: people, faces and receipts go, and the dataset gets a new name. */
  function Cleared(db: Db, dataset: int): Db {
    db.(dataset := dataset, people := map[], faces := map[], receipts := map[])
  }

  ghost function Next(s: State, e: Event): State
    requires Enabled(s, e)
  {
    match e
    case Ask(actor, r, order) => s.(db := Apply(s.db, actor, r, order).0)
    case Reset(dataset) => State(Cleared(s.db, dataset), s.used + {dataset})
    case NameOutside(person, name) => s.(db := SetName(s.db, person, name))
    case FaceAdded(id, face) =>
      s.(db := s.db.(faces := s.db.faces[id := face], people := Raise(s.db.people, {face.person}, 1)))
    case FaceRemoved(id) =>
      s.(db := s.db.(faces := s.db.faces - {id}, people := Raise(s.db.people, {s.db.faces[id].person}, 1)))
    case PersonRemoved(person) => s.(db := s.db.(people := s.db.people - {person}))
  }

  ghost predicate Inv(s: State) {
    && s.db.dataset in s.used
    && (forall k | k in s.db.receipts ::
         s.db.receipts[k].request.dataset == s.db.dataset && s.db.receipts[k].request.operation == k.1)
    && (forall p | p in s.db.people :: p < s.db.nextPerson)
  }

  ghost predicate Trace(states: seq<State>, events: seq<Event>) {
    |states| == |events| + 1
      && forall k | 0 <= k < |events| :: Enabled(states[k], events[k]) && states[k + 1] == Next(states[k], events[k])
  }

  // ---- one request ----

  /** Nothing but faces and revisions of people differs, and no revision falls. */
  ghost predicate OnlyRaised(db: Db, t: Db) {
    && t == db.(faces := t.faces, people := t.people)
    && db.people.Keys <= t.people.Keys
    && forall p | p in db.people :: t.people[p].revision >= db.people[p].revision
  }

  lemma {:induction false} UpdateRaises(db: Db, ids: seq<int>, c: Change)
    requires forall id | id in ids :: id in db.faces
    ensures var t := UpdateFaces(db, ids, c); OnlyRaised(db, t) && t.people.Keys == db.people.Keys
    ensures forall id | id !in ids && id in db.faces :: UpdateFaces(db, ids, c).faces[id] == db.faces[id]
    ensures forall p | p in db.people && UpdateFaces(db, ids, c).people[p].revision == db.people[p].revision ::
      UpdateFaces(db, ids, c).people[p] == db.people[p]
  {
    if ids != [] {
      var init, last := ids[..|ids| - 1], ids[|ids| - 1];
      assert ids == init + [last] && last in ids;
      forall id | id in init ensures id in db.faces {
        assert id in ids;
      }
      UpdateRaises(db, init, c);
    }
  }

  /** Whoever loses or sees changed one of the faces has a higher revision. */
  lemma {:induction false} UpdateRaisesOwner(db: Db, ids: seq<int>, c: Change, id: int)
    requires forall x | x in ids :: x in db.faces
    requires forall i, j | 0 <= i < j < |ids| :: ids[i] != ids[j]
    requires id in ids && db.faces[id].person in db.people && Raises(db.faces[id], Changed(db.faces[id], c)) > 0
    ensures UpdateFaces(db, ids, c).people[db.faces[id].person].revision > db.people[db.faces[id].person].revision
  {
    var init, last := ids[..|ids| - 1], ids[|ids| - 1];
    assert ids == init + [last] && last in ids && last !in init;
    forall x | x in init ensures x in db.faces {
      assert x in ids;
    }
    UpdateRaises(db, init, c);
    if id != last {
      UpdateRaisesOwner(db, init, c, id);
    }
    LastRow(db, init, last, c, db.faces[id].person, id == last);
  }

  lemma LastRow(db: Db, init: seq<int>, last: int, c: Change, p: int, own: bool)
    requires (forall x | x in init :: x in db.faces) && last in db.faces && last !in init && p in db.people
    requires own ==> p == db.faces[last].person && Raises(db.faces[last], Changed(db.faces[last], c)) > 0
    ensures forall x | x in init + [last] :: x in db.faces
    ensures UpdateFaces(db, init + [last], c).people[p].revision >= UpdateFaces(db, init, c).people[p].revision
      + if own then 1 else 0
  {
    UpdateRaises(db, init, c);
    assert (init + [last])[..|init|] == init;
  }

  ghost predicate MutationRight(db: Db, t: Db) {
    && t == db.(faces := t.faces, people := t.people, nextPerson := t.nextPerson)
    && db.nextPerson <= t.nextPerson
    && db.people.Keys <= t.people.Keys
    && (forall p | p in t.people && p !in db.people :: p < t.nextPerson)
    && forall p | p in db.people :: t.people[p].revision >= db.people[p].revision
  }

  lemma AddThenUpdate(db: Db, name: string, ids: seq<int>, c: Change)
    requires (forall id | id in ids :: id in db.faces) && db.nextPerson !in db.people
    ensures MutationRight(db, UpdateFaces(AddPerson(db, name), ids, c))
  {
    UpdateRaises(AddPerson(db, name), ids, c);
  }

  lemma NamingKeeps(db: Db, person: int, name: string)
    requires person in db.people
    ensures MutationRight(db, SetName(db, person, name))
    ensures SetName(db, person, name).people[person].revision > db.people[person].revision
      <==> db.people[person] != Person(name, true, "", db.people[person].revision)
  {}

  lemma MutateKeeps(db: Db, r: Request, order: seq<int>)
    requires SourceRight(db, r) && IsOrder(db, r.person, order) && Mutate(db, r, order).Done?
      && db.nextPerson !in db.people
    ensures MutationRight(db, Mutate(db, r, order).db)
  {
    hide UpdateFaces;
    hide SetName;
    match r.action
    case Name(name, _) => NamingKeeps(db, r.person, name);
    case Rename(name, _) => NamingKeeps(db, r.person, name);
    case Assign(target, _) => UpdateRaises(db, order, MoveTo(target, false));
    case Ignore => UpdateRaises(db, order, SetIgnored);
    case Detach(face) => AddThenUpdate(db, "", [face], MoveTo(db.nextPerson, false));
    case Unassign(face) =>
      AddThenUpdate(db, "", [face], MoveTo(db.nextPerson, false));
      UpdateRaises(UpdateFaces(AddPerson(db, ""), [face], MoveTo(db.nextPerson, false)), [face], SetFavorite(false));
    case Favorite(face, on) => UpdateRaises(db, [face], SetFavorite(on));
    case IgnoreFaces(faces) => UpdateRaises(db, faces, SetIgnored);
    case AssignFaces(faces, target, _) => UpdateRaises(db, faces, MoveTo(target, false));
    case UnassignFaces(faces) => AddThenUpdate(db, "", faces, MoveTo(db.nextPerson, true));
    case NameFaces(faces, name, _) => AddThenUpdate(db, name, faces, MoveTo(db.nextPerson, false));
  }

  /** The action changes something about its source: the guard against lost updates. */
  predicate ChangesSource(db: Db, r: Request)
    requires SourceRight(db, r)
  {
    match r.action
    case Name(name, _) => db.people[r.person] != Person(name, true, "", r.revision)
    case Rename(name, _) => db.people[r.person] != Person(name, true, "", r.revision)
    case Favorite(face, on) => face in db.faces && db.faces[face].favorite != on
    case IgnoreFaces(faces) => faces != []
    case AssignFaces(faces, target, _) => exists f | f in faces ::
      f in db.faces && (target != r.person || !db.faces[f].manual)
    case UnassignFaces(faces) => faces != []
    case NameFaces(faces, _, _) => faces != []
    case _ => true
  }

  lemma SomeActive(db: Db, person: int, order: seq<int>) returns (id: int)
    requires Exists(db, person) && IsOrder(db, person, order)
    ensures id in order && id in db.faces && db.faces[id].person == person && !db.faces[id].ignored
  {
    id := Element(Active(db, person));
  }

  lemma ActiveFace(db: Db, faces: seq<int>, person: int, id: int)
    requires AllActive(db, faces, person) && id in faces
    ensures id in db.faces && db.faces[id].person == person && !db.faces[id].ignored
  {}

  /** A carried out action raises the revision of its source exactly when it changes it. */
  lemma RaisesExactly(db: Db, r: Request, order: seq<int>)
    requires SourceRight(db, r) && IsOrder(db, r.person, order) && Mutate(db, r, order).Done?
      && db.nextPerson !in db.people
    ensures r.person in Mutate(db, r, order).db.people
    ensures Mutate(db, r, order).db.people[r.person].revision > r.revision <==> ChangesSource(db, r)
  {
    hide UpdateFaces;
    hide SetName;
    MutateKeeps(db, r, order);
    match r.action
    case Name(name, _) => NamingKeeps(db, r.person, name);
    case Rename(name, _) => NamingKeeps(db, r.person, name);
    case Assign(target, _) =>
      var id := SomeActive(db, r.person, order);
      UpdateRaisesOwner(db, order, MoveTo(target, false), id);
    case Ignore =>
      var id := SomeActive(db, r.person, order);
      UpdateRaisesOwner(db, order, SetIgnored, id);
    case Detach(face) => UpdateRaisesOwner(AddPerson(db, ""), [face], MoveTo(db.nextPerson, false), face);
    case Unassign(face) =>
      UpdateRaisesOwner(AddPerson(db, ""), [face], MoveTo(db.nextPerson, false), face);
      UpdateRaises(UpdateFaces(AddPerson(db, ""), [face], MoveTo(db.nextPerson, false)), [face], SetFavorite(false));
    case Favorite(face, on) => FavoriteRaises(db, face, on);
    case IgnoreFaces(faces) => BatchRaises(db, db, r, faces, SetIgnored);
    case AssignFaces(faces, target, _) => AssignRaises(db, r, faces, target);
    case UnassignFaces(faces) => BatchRaises(db, AddPerson(db, ""), r, faces, MoveTo(db.nextPerson, true));
    case NameFaces(faces, name, _) => BatchRaises(db, AddPerson(db, name), r, faces, MoveTo(db.nextPerson, false));
  }

  lemma FavoriteRaises(db: Db, face: int, on: bool)
    requires face in db.faces && db.faces[face].person in db.people
    ensures var p := db.faces[face].person;
      UpdateFaces(db, [face], SetFavorite(on)).people[p].revision > db.people[p].revision <==>
        db.faces[face].favorite != on
  {
    assert UpdateFaces(db, [], SetFavorite(on)) == db && [face][..0] == [];
  }

  lemma BatchRaises(db: Db, t: Db, r: Request, faces: seq<int>, c: Change)
    requires AllActive(db, faces, r.person) && t.faces == db.faces && r.person in db.people && r.person in t.people
    requires t.people[r.person] == db.people[r.person] && (c.SetIgnored? || (c.MoveTo? && c.person != r.person))
    ensures UpdateFaces(t, faces, c).people[r.person].revision > db.people[r.person].revision <==> faces != []
  {
    if faces != [] {
      ActiveFace(db, faces, r.person, faces[0]);
      UpdateRaisesOwner(t, faces, c, faces[0]);
    }
  }

  lemma AssignRaises(db: Db, r: Request, faces: seq<int>, target: int)
    requires AllActive(db, faces, r.person) && r.person in db.people
    ensures UpdateFaces(db, faces, MoveTo(target, false)).people[r.person].revision > db.people[r.person].revision
      <==> exists f | f in faces :: f in db.faces && (target != r.person || !db.faces[f].manual)
  {
    if f :| f in faces && f in db.faces && (target != r.person || !db.faces[f].manual) {
      ActiveFace(db, faces, r.person, f);
      UpdateRaisesOwner(db, faces, MoveTo(target, false), f);
    } else {
      NothingMoves(db, faces, target, r.person);
    }
  }

  lemma {:induction false} NothingMoves(db: Db, faces: seq<int>, target: int, person: int)
    requires AllActive(db, faces, person) && person in db.people
    requires forall f | f in faces :: target == person && db.faces[f].manual
    ensures forall f | f in faces :: f in db.faces
    ensures UpdateFaces(db, faces, MoveTo(target, false)) == db
  {
    hide UpdateFace;
    hide Changed;
    if faces != [] {
      var init, last := faces[..|faces| - 1], faces[|faces| - 1];
      assert faces == init + [last] && last in faces;
      forall f | f in init ensures f in Active(db, person) && db.faces[f].manual {
        assert f in faces;
      }
      NothingMoves(db, init, target, person);
      ActiveFace(db, faces, person, last);
      StaysPut(db, last);
    }
  }

  lemma StaysPut(db: Db, id: int)
    requires id in db.faces && db.faces[id].manual
    ensures UpdateFace(db, id, Changed(db.faces[id], MoveTo(db.faces[id].person, false))) == db
  {
    var person := db.faces[id].person;
    assert db.faces[id := db.faces[id]] == db.faces;
    assert Raise(db.people, {person, person}, 0) == db.people;
  }

  /** A request that is not carried out changes nothing; one that is leaves exactly its receipt
      beside its changes. */
  lemma AskEffect(db: Db, actor: int, r: Request, order: seq<int>)
    requires db.nextPerson !in db.people
    requires SourceRight(db, r) ==> IsOrder(db, r.person, order)
    ensures !CarriedOut(db, actor, r, order) ==> Apply(db, actor, r, order).0 == db
    ensures CarriedOut(db, actor, r, order) ==>
      var (t, answer) := Apply(db, actor, r, order);
      && answer.Receipted? && t.receipts == db.receipts[(actor, r.operation) := Stored(r, answer.receipt)]
      && t.dataset == db.dataset && db.nextPerson <= t.nextPerson && t.revision == db.revision + 1
      && db.people.Keys <= t.people.Keys && (forall p | p in t.people && p !in db.people :: p < t.nextPerson)
      && (forall p | p in db.people :: t.people[p].revision >= db.people[p].revision)
      && answer.receipt.sourceRevision == t.people[r.person].revision
  {
    if CarriedOut(db, actor, r, order) {
      MutateKeeps(db, r, order);
    }
  }

  // ---- runs ----

  lemma StepKeeps(s: State, e: Event)
    requires Inv(s) && Enabled(s, e)
    ensures Inv(Next(s, e)) && s.used <= Next(s, e).used && s.db.nextPerson <= Next(s, e).db.nextPerson
  {
    if e.Ask? {
      AskEffect(s.db, e.actor, e.r, e.order);
      hide Apply;
    }
  }

  lemma {:induction false} TraceKeeps(states: seq<State>, events: seq<Event>, n: nat)
    requires Trace(states, events) && Inv(states[0]) && n <= |events|
    ensures Inv(states[n])
  {
    if n > 0 {
      TraceKeeps(states, events, n - 1);
      hide Next;
      hide Inv;
      hide Enabled;
      StepKeeps(states[n - 1], events[n - 1]);
    }
  }

  /** The request of event `i` is carried out there. */
  ghost predicate CarriedOutAt(states: seq<State>, events: seq<Event>, i: nat)
    requires Trace(states, events) && i < |events|
  {
    events[i].Ask? && CarriedOut(states[i].db, events[i].actor, events[i].r, events[i].order)
  }

  ghost predicate Kept(s: State, actor: int, r: Request, receipt: Receipt) {
    && r.dataset in s.used
    && (s.db.dataset == r.dataset ==>
          (actor, r.operation) in s.db.receipts && s.db.receipts[(actor, r.operation)] == Stored(r, receipt))
  }

  lemma KeptStep(s: State, e: Event, actor: int, r: Request, receipt: Receipt)
    requires Inv(s) && Enabled(s, e) && Kept(s, actor, r, receipt)
    ensures Kept(Next(s, e), actor, r, receipt)
  {
    if e.Ask? {
      AskEffect(s.db, e.actor, e.r, e.order);
      hide Apply;
    }
  }

  /** A receipt stays as long as the dataset, and the dataset never comes back. */
  lemma {:induction false} ReceiptStays(states: seq<State>, events: seq<Event>, i: nat, j: nat)
    requires Trace(states, events) && Inv(states[0]) && i < j <= |events| && CarriedOutAt(states, events, i)
    ensures Kept(states[j], events[i].actor, events[i].r,
      Apply(states[i].db, events[i].actor, events[i].r, events[i].order).1.receipt)
  {
    TraceKeeps(states, events, j - 1);
    if j == i + 1 {
      AskEffect(states[i].db, events[i].actor, events[i].r, events[i].order);
      hide Apply;
    } else {
      ReceiptStays(states, events, i, j - 1);
      hide Next;
      hide Apply;
      KeptStep(states[j - 1], events[j - 1], events[i].actor, events[i].r,
        Apply(states[i].db, events[i].actor, events[i].r, events[i].order).1.receipt);
    }
  }

  /** No actor carries out an operation of a dataset twice, whatever happens in between. */
  lemma AtMostOnce(states: seq<State>, events: seq<Event>, i: nat, j: nat)
    requires Trace(states, events) && Inv(states[0]) && i < j < |events|
    requires CarriedOutAt(states, events, i) && CarriedOutAt(states, events, j)
    ensures (events[i].actor, events[i].r.operation, events[i].r.dataset)
      != (events[j].actor, events[j].r.operation, events[j].r.dataset)
  {
    ReceiptStays(states, events, i, j);
    hide Apply;
    hide Mutate;
  }

  /** A repeated request gets the stored receipt and changes nothing; after a reset it is
      rejected. */
  lemma ReplayReturnsReceipt(states: seq<State>, events: seq<Event>, i: nat, j: nat)
    requires Trace(states, events) && Inv(states[0]) && i < j < |events| && CarriedOutAt(states, events, i)
    requires events[j].Ask? && events[j].actor == events[i].actor && events[j].r == events[i].r
    ensures var first := Apply(states[i].db, events[i].actor, events[i].r, events[i].order).1;
      Apply(states[j].db, events[j].actor, events[j].r, events[j].order)
        == (states[j].db, if states[j].db.dataset == events[i].r.dataset then first else Rejected)
  {
    ReceiptStays(states, events, i, j);
    TraceKeeps(states, events, i);
    AskEffect(states[i].db, events[i].actor, events[i].r, events[i].order);
    hide Mutate;
  }

  // ---- without the replays ----

  ghost predicate Possible(s: State, events: seq<Event>)
    decreases |events|
  {
    events == [] || (Enabled(s, events[0]) && Possible(Next(s, events[0]), events[1..]))
  }

  ghost function Run(s: State, events: seq<Event>): State
    requires Possible(s, events)
    decreases |events|
  {
    if events == [] then s else Run(Next(s, events[0]), events[1..])
  }

  /** The events of a run without the requests that are not carried out. */
  ghost function Effective(s: State, events: seq<Event>): seq<Event>
    requires Possible(s, events)
    decreases |events|
  {
    if events == [] then []
    else
      var rest := Effective(Next(s, events[0]), events[1..]);
      if events[0].Ask?
        && !CarriedOut(s.db, events[0].actor, events[0].r, events[0].order) then rest else [events[0]] + rest
  }

  /** Replays and rejected requests leave no trace: without them the run ends the same. */
  lemma {:induction false} WithoutReplays(s: State, events: seq<Event>)
    requires Inv(s) && Possible(s, events)
    ensures Possible(s, Effective(s, events)) && Run(s, Effective(s, events)) == Run(s, events)
    decreases |events|
  {
    if events != [] {
      var e := events[0];
      StepKeeps(s, e);
      WithoutReplays(Next(s, e), events[1..]);
      if e.Ask? && !CarriedOut(s.db, e.actor, e.r, e.order) {
        AskEffect(s.db, e.actor, e.r, e.order);
        assert Next(s, e) == s;
      } else {
        var rest := Effective(Next(s, e), events[1..]);
        hide Next;
        hide Inv;
        assert ([e] + rest)[1..] == rest;
      }
    }
  }

  // ---- stale revisions ----

  ghost predicate Outdated(s: State, r: Request) {
    && r.dataset in s.used && r.person < s.db.nextPerson
    && (s.db.dataset == r.dataset && r.person in s.db.people ==> s.db.people[r.person].revision > r.revision)
  }

  lemma OutdatedStep(s: State, e: Event, r: Request)
    requires Inv(s) && Enabled(s, e) && Outdated(s, r)
    ensures Outdated(Next(s, e), r)
  {
    if e.Ask? {
      AskEffect(s.db, e.actor, e.r, e.order);
      hide Apply;
    }
  }

  lemma {:induction false} StaysOutdated(states: seq<State>, events: seq<Event>, i: nat, j: nat)
    requires Trace(states, events) && Inv(states[0]) && i < j <= |events| && CarriedOutAt(states, events, i)
    requires ChangesSource(states[i].db, events[i].r)
    ensures Outdated(states[j], events[i].r)
  {
    TraceKeeps(states, events, j - 1);
    if j == i + 1 {
      AskEffect(states[i].db, events[i].actor, events[i].r, events[i].order);
      RaisesExactly(states[i].db, events[i].r, events[i].order);
    } else {
      StaysOutdated(states, events, i, j - 1);
      hide Next;
      hide Apply;
      OutdatedStep(states[j - 1], events[j - 1], events[i].r);
    }
  }

  /** No lost updates: of all requests that saw the same revision of a person, at most one that
      changes the person is carried out, whoever sends them. */
  lemma StaleRevisionIsRefused(states: seq<State>, events: seq<Event>, i: nat, j: nat)
    requires Trace(states, events) && Inv(states[0]) && i < j < |events| && CarriedOutAt(states, events, i)
    requires ChangesSource(states[i].db, events[i].r)
    requires events[j].Ask? && events[j].r.dataset == events[i].r.dataset
    requires events[j].r.person == events[i].r.person && events[j].r.revision == events[i].r.revision
    ensures !CarriedOutAt(states, events, j)
  {
    StaysOutdated(states, events, i, j);
    hide Apply;
    hide Mutate;
  }
}
