/** The image group operations with their revision checks, and whole runs of them mixed with
    originals that come, go, move and are purged. */
module ImageGroups {
  import opened FaceTables
  import opened ImageGroupTables
  import opened ImageGroupInvariant
  import opened ImageGroupMembers
  import opened ImageGroupLeaving
  import opened ImageGroupMoves

  datatype GroupError = Conflict | Invalid | AddInvalid | NotExist

  datatype Reply<+T> = Done(value: T) | Failed(error: GroupError)

  datatype Action = MakePrimary | Remove | Dissolve

  /** imageGroupCandidates and ungroupedImageEntities on the identities behind the given paths. */
  function Selection(s: Store, ids: seq<int>, minimum: int): (r: Reply<()>)
    ensures r.Done? <==> minimum <= |ids| <= MAX_GROUP_SIZE && Joinable(s, ids)
  {
    if |ids| < minimum || |ids| > MAX_GROUP_SIZE then Failed(Invalid)
    else if exists e :: e in ids && !Live(s, e) then Failed(NotExist)
    else if exists i, j :: 0 <= i < j < |ids| && ids[i] == ids[j] then Failed(Invalid)
    else if exists e :: e in ids && e in s.members then Failed(Conflict)
    else Done(())
  }

  function Created(s: Store, ids: seq<int>, primary: int): Store
    requires forall e | e in ids :: e in s.entities
  {
    var g := s.nextGroup;
    InsertMembers(SetPrimary(EmptyGroup(s, 0), g, primary), ids, g)
  }

  /** The row exists at the revision the caller saw. */
  predicate CurrentRevision(s: Store, g: int, revision: int) {
    revision >= 1 && g in s.groups && s.groups[g].revision == revision
  }

  function NextRevision(s: Store, g: int): Store
    requires g in s.groups
  {
    s.(groups := s.groups[g := s.groups[g].(revision := s.groups[g].revision + 1)])
  }

  predicate AddAccepted(s: Store, g: int, revision: int, ids: seq<int>) {
    CurrentRevision(s, g, revision) && Selection(s, ids, 1).Done? && |MembersOf(s, g)| + |ids| <= MAX_GROUP_SIZE
  }

  function Added(s: Store, g: int, ids: seq<int>): Store
    requires g in s.groups && forall e | e in ids :: e in s.entities
  {
    InsertMembers(NextRevision(s, g), ids, g)
  }

  predicate ActionAccepted(s: Store, g: int, revision: int, e: int, action: Action) {
    && CurrentRevision(s, g, revision)
    && (action.MakePrimary? ==> e in LiveMembers(s, g))
    && (action.Remove? ==> e in MembersOf(s, g))
  }

  function Acted(s: Store, g: int, e: int, action: Action, order: seq<int>): Store
    requires g in s.groups
    requires action.Remove? ==> e in s.members && e in s.entities
    requires action.Dissolve? ==> ListsMembers(s, g, order)
  {
    var t := NextRevision(s, g);
    match action
    case MakePrimary => SetPrimary(t, g, e)
    case Remove => RemoveMember(t, g, e)
    case Dissolve => DissolveGroup(t, g, order)
  }

  lemma NextRevisionKeeps(s: Store, g: int)
    requires Inv(s) && g in s.groups
    ensures Inv(NextRevision(s, g))
    ensures forall h ::
      MembersOf(NextRevision(s, g), h) == MembersOf(s, h) && LiveMembers(NextRevision(s, g), h) == LiveMembers(s, h)
  {
    var t := NextRevision(s, g);
    forall h ensures MembersOf(t, h) == MembersOf(s, h) && LiveMembers(t, h) == LiveMembers(s, h)
      && Effective(t, h) == Effective(s, h)
    {
      if h in s.groups {
        EffectiveLocal(s, t, h);
      }
    }
  }

  /** A group row just inserted, still without members. */
  function EmptyGroup(s: Store, primary: int): Store {
    s.(groups := s.groups[s.nextGroup := Group(primary, 1)], nextGroup := s.nextGroup + 1)
  }

  lemma EmptyGroupFacts(s: Store, primary: int)
    requires Inv(s) && Live(s, primary)
    ensures var u := EmptyGroup(s, primary);
      Consistent(u) && FreshIds(u) && MembersOf(u, s.nextGroup) == {} && LiveMembers(u, s.nextGroup) == {}
    ensures SetPrimary(EmptyGroup(s, 0), s.nextGroup, primary) == EmptyGroup(s, primary)
  {
    var g, u := s.nextGroup, EmptyGroup(s, primary);
    forall e | e in s.members ensures s.members[e] != g {
      assert s.members[e] in s.groups;
    }
    assert MembersOf(s, g) == {} && MemberPaths(u, g) == {};
    assert Refresh(u, g).media == u.media;
    assert EmptyGroup(s, 0).groups[g := Group(primary, 1)] == u.groups;
    forall h | h in s.groups ensures MembersOf(u, h) == MembersOf(s, h) && Effective(u, h) == Effective(s, h) {
      EffectiveLocal(s, u, h);
    }
    forall e | Live(u, e) ensures u.media[u.entities[e]] == ShouldHide(u, e) {
      assert Live(s, e);
    }
  }

  lemma CreateKeeps(s: Store, ids: seq<int>, primary: int)
    requires Inv(s) && Joinable(s, ids) && 2 <= |ids| <= MAX_GROUP_SIZE && primary in ids
    ensures Inv(Created(s, ids, primary))
    ensures MembersOf(Created(s, ids, primary), s.nextGroup) == Ids(ids)
    ensures Effective(Created(s, ids, primary), s.nextGroup) == Some(primary)
  {
    var g, u := s.nextGroup, EmptyGroup(s, primary);
    EmptyGroupFacts(s, primary);
    assert Joinable(u, ids) && Live(u, primary);
    KeptStandInKeepsFlags(u, ids, g);
    JoinedEffective(u, ids, g);
    CreateShape(s, ids, primary);
    InsertEffect(u, ids, g);
    assert {} + Ids(ids) == Ids(ids);
  }

  lemma CreateShape(s: Store, ids: seq<int>, primary: int)
    requires Inv(s) && Joinable(s, ids) && 2 <= |ids| <= MAX_GROUP_SIZE && primary in ids
    ensures Shape(InsertMembers(EmptyGroup(s, primary), ids, s.nextGroup))
  {
    var g, u := s.nextGroup, EmptyGroup(s, primary);
    EmptyGroupFacts(s, primary);
    forall h | h in s.groups ensures MembersOf(u, h) == MembersOf(s, h) {}
    JoiningKeepsShape(u, ids, g);
  }

  lemma AddKeeps(s: Store, g: int, ids: seq<int>)
    requires Inv(s) && g in s.groups && Joinable(s, ids) && ids != [] && |MembersOf(s, g)| + |ids| <= MAX_GROUP_SIZE
    ensures Inv(Added(s, g, ids)) <==> StandInKept(s, g, ids)
  {
    NextRevisionKeeps(s, g);
    var t := NextRevision(s, g);
    assert Joinable(t, ids);
    JoiningKeepsFlagsExactly(t, ids, g);
    JoiningKeepsShape(t, ids, g);
    assert StandInKept(t, g, ids) == StandInKept(s, g, ids);
  }

  lemma ActionKeeps(s: Store, g: int, e: int, action: Action, order: seq<int>)
    requires Inv(s) && g in s.groups
    requires action.MakePrimary? ==> e in LiveMembers(s, g)
    requires action.Remove? ==> e in MembersOf(s, g) && e in s.members && e in s.entities
    requires action.Dissolve? ==> ListsMembers(s, g, order)
    ensures Inv(Acted(s, g, e, action, order)) <==> action.Remove? ==> Removable(s, g, e)
  {
    NextRevisionKeeps(s, g);
    var t := NextRevision(s, g);
    match action
    case MakePrimary => SetPrimaryKeeps(t, g, e);
    case Remove => RemovalKeepsExactly(t, g, e);
    case Dissolve => DissolveKeeps(t, g, order);
  }

  // ---- whole runs ----

  datatype Event =
    | Create(ids: seq<int>, primary: int)
    | Add(g: int, revision: int, ids: seq<int>)
    | Apply(g: int, revision: int, e: int, action: Action, order: seq<int>)
    | New(path: string)
    | Vanishes(e: int)
    | Returns(e: int)
    | Purges(e: int)
    | Moves(rename: map<string, string>, order: seq<int>)

  /** What the environment guarantees: files appear at unused paths, only present originals vanish,
      only retained ones return, only missing ones are purged, folders move to vacant places. */
  ghost predicate Possible(s: Store, ev: Event) {
    match ev
    case Create(_, _) => true
    case Add(_, _, _) => true
    case Apply(g, _, _, action, order) => action.Dissolve? ==> ListsMembers(s, g, order)
    case New(path) => path !in s.media && forall e | e in s.entities :: s.entities[e] != path
    case Vanishes(e) => Live(s, e)
    case Returns(e) => e in s.retained && e in s.entities
    case Purges(e) => e in s.entities && !Live(s, e)
    case Moves(rename, order) =>
      Vacant(s, rename) && Movable(MoveMedia(s, rename), order, rename)
      && forall e | e in s.entities && s.entities[e] in rename :: e in order
  }

  ghost predicate Accepted(s: Store, ev: Event) {
    match ev
    case Create(ids, primary) => Selection(s, ids, 2).Done? && primary in ids
    case Add(g, revision, ids) => AddAccepted(s, g, revision, ids)
    case Apply(g, revision, e, action, _) => ActionAccepted(s, g, revision, e, action)
    case _ => true
  }

  /** A rejected request changes nothing. */
  ghost function Next(s: Store, ev: Event): Store
    requires Possible(s, ev) && MembersExist(s)
  {
    if !Accepted(s, ev) then s
    else match ev
      case Create(ids, primary) => Created(s, ids, primary)
      case Add(g, _, ids) => Added(s, g, ids)
      case Apply(g, _, e, action, order) => Acted(s, g, e, action, order)
      case New(path) => NewOriginal(s, path)
      case Vanishes(e) => Vanish(s, e)
      case Returns(e) => Restore(s, e)
      case Purges(e) => Purge(s, e)
      case Moves(rename, order) => MoveFolder(s, rename, order)
  }

  /** The conditions a caller can check before the three events that need one. */
  ghost predicate Careful(s: Store, ev: Event)
    requires Possible(s, ev) && Accepted(s, ev)
  {
    match ev
    case Add(g, _, ids) => StandInKept(s, g, ids)
    case Apply(g, _, e, action, _) => action.Remove? ==> Removable(s, g, e)
    case Returns(e) => e in s.members || !s.retained[e]
    case _ => true
  }

  /** One event keeps the invariant exactly when it is rejected or careful. */
  lemma EventKeepsExactly(s: Store, ev: Event)
    requires Inv(s) && Possible(s, ev)
    ensures Inv(Next(s, ev)) <==> (Accepted(s, ev) ==> Careful(s, ev))
  {
    if Accepted(s, ev) {
      match ev
      case Create(ids, primary) => CreateKeeps(s, ids, primary);
      case Add(g, _, ids) => AddKeeps(s, g, ids);
      case Apply(g, _, e, action, order) => ActionKeeps(s, g, e, action, order);
      case New(path) => NewOriginalKeeps(s, path);
      case Vanishes(e) => VanishKeeps(s, e);
      case Returns(e) => RestoreKeepsExactly(s, e);
      case Purges(e) => PurgeKeeps(s, e);
      case Moves(rename, order) => MoveKeeps(s, rename, order);
    }
  }

  ghost predicate Run(stores: seq<Store>, events: seq<Event>) {
    && |stores| == |events| + 1
    && Inv(stores[0])
    && forall i | 0 <= i < |events| ::
         MembersExist(stores[i]) && Possible(stores[i], events[i]) && stores[i + 1] == Next(stores[i], events[i])
  }

  /** At every moment of every careful run: flags are right, groups have 2 to 500 members, and a
      group with live members shows exactly one of them. */
  lemma {:induction false} CarefulRunsKeepGroups(stores: seq<Store>, events: seq<Event>, i: nat)
    requires Run(stores, events) && i < |stores|
    requires forall k | 0 <= k < |events| && Accepted(stores[k], events[k]) :: Careful(stores[k], events[k])
    ensures Inv(stores[i])
    ensures forall g | g in stores[i].groups && LiveMembers(stores[i], g) != {} :: OneVisible(stores[i], g)
    decreases i
  {
    if i > 0 {
      CarefulRunsKeepGroups(stores, events, i - 1);
      EventKeepsExactly(stores[i - 1], events[i - 1]);
    }
    forall g | g in stores[i].groups && LiveMembers(stores[i], g) != {} ensures OneVisible(stores[i], g) {
      ExactlyOneVisible(stores[i], g);
    }
  }

  /** Two editors with the same revision: whatever the first one's accepted change was, the second
      one is rejected and changes nothing. */
  lemma SecondEditorConflicts(s: Store, first: Event, second: Event, g: int, revision: int)
    requires Inv(s) && Possible(s, first) && Accepted(s, first)
    requires first.Add? || first.Apply?
    requires second.Add? || second.Apply?
    requires first.g == second.g == g && first.revision == second.revision == revision
    requires MembersExist(Next(s, first)) && Possible(Next(s, first), second)
    ensures !Accepted(Next(s, first), second) && Next(Next(s, first), second) == Next(s, first)
  {
    match first
    case Add(_, _, ids) => {
      InsertEffect(NextRevision(s, g), ids, g);
    }
    case Apply(_, _, e, action, order) => {
      NextRevisionKeeps(s, g);
      var t := NextRevision(s, g);
      if action.Remove? {
        var others := LiveMembers(t, g) - {e};
        if ReadPrimary(t, g) == e && others != {} {
          SetPrimaryKeeps(t, g, Minimum(others));
          DeleteEffect(SetPrimary(t, g, Minimum(others)), e);
        } else {
          DeleteEffect(t, e);
        }
      }
    }
  }
}
