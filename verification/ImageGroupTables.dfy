/** Image groups as tables, with every trigger as the function it applies to them.
    `recursive_triggers` is off: a trigger never fires itself, directly or indirectly. */
module ImageGroupTables {
  import opened FaceTables
  import opened Pick

  const MAX_GROUP_SIZE := 500

  datatype Group = Group(primary: int, revision: int)

  /** `entities`: image identity to current path.  `media`: path of a present original to its
      image_group_hidden flag.  `members`: identity to group.  `retained`: identity of a vanished
      original to the flag stored in its retained row. */
  datatype Store = Store(
    entities: map<int, string>, media: map<string, bool>, groups: map<int, Group>,
    members: map<int, int>, retained: map<int, bool>, nextEntity: int, nextGroup: int)

  lemma {:induction false} MinimumExists(s: set<int>)
    requires s != {}
    ensures exists m :: m in s && forall x | x in s :: m <= x
    decreases s
  {
    var y := Element(s);
    if s - {y} == {} {
      forall x | x in s ensures y <= x {
        assert x !in s - {y};
      }
    } else {
      MinimumExists(s - {y});
      var n :| n in s - {y} && forall x | x in s - {y} :: n <= x;
      var m := if n < y then n else y;
      forall x | x in s ensures m <= x {
        assert x == y || x in s - {y};
      }
      assert m in s;
    }
  }

  function Minimum(s: set<int>): (m: int)
    requires s != {}
    ensures m in s && forall x | x in s :: m <= x
  {
    MinimumExists(s);
    var m :| m in s && forall x | x in s :: m <= x;
    m
  }

  predicate Live(s: Store, e: int) {
    e in s.entities && s.entities[e] in s.media
  }

  function MembersOf(s: Store, g: int): set<int> {
    set e | e in s.members && s.members[e] == g
  }

  function LiveMembers(s: Store, g: int): set<int> {
    set e | e in s.members && s.members[e] == g && Live(s, e)
  }

  /** imageGroupPrimarySQL: the chosen original while it is present (its membership is not
      looked at), else the first live member, else NULL. */
  function Effective(s: Store, g: int): Option<int> {
    if g !in s.groups then None
    else if Live(s, s.groups[g].primary) then Some(s.groups[g].primary)
    else if LiveMembers(s, g) == {} then None
    else Some(Minimum(LiveMembers(s, g)))
  }

  function MemberPaths(s: Store, g: int): set<string> {
    set e | e in s.members && s.members[e] == g && e in s.entities :: s.entities[e]
  }

  /** refreshImageGroupSQL: recompute the flag of every live member.  A missing group row
      compares with NULL and hides. */
  function Refresh(s: Store, g: int): Store {
    var eff := Effective(s, g);
    s.(media := map p | p in s.media ::
      if p in MemberPaths(s, g) then !(eff.Some? && eff.value in s.entities && s.entities[eff.value] == p)
      else s.media[p])
  }

  function SetFlag(s: Store, e: int, hidden: bool): Store
    requires e in s.entities
  {
    if Live(s, e) then s.(media := s.media[s.entities[e] := hidden]) else s
  }

  /** INSERT into the member table with image_group_member_insert: only the new row is flagged. */
  function InsertMember(s: Store, e: int, g: int): Store
    requires e in s.entities
  {
    var t := s.(members := s.members[e := g]);
    SetFlag(t, e, Effective(t, g) != Some(e))
  }

  function InsertMembers(s: Store, ids: seq<int>, g: int): (t: Store)
    requires forall e | e in ids :: e in s.entities
    ensures t.entities == s.entities
  {
    if ids == [] then s
    else InsertMember(InsertMembers(s, ids[..|ids| - 1], g), ids[|ids| - 1], g)
  }

  /** UPDATE of primary_entity_id with image_group_primary. */
  function SetPrimary(s: Store, g: int, e: int): Store
    requires g in s.groups
  {
    Refresh(s.(groups := s.groups[g := s.groups[g].(primary := e)]), g)
  }

  /** DELETE of one member with image_group_member_delete.  When fewer than two members remain
      the group row goes too; image_group_delete then removes the survivor's membership, but
      image_group_member_delete is already running and does not fire for it. */
  function DeleteMember(s: Store, e: int): Store
    requires e in s.members && e in s.entities
  {
    var g := s.members[e];
    var t := SetFlag(s.(members := s.members - {e}), e, false);
    var u := if g in t.groups then t.(groups := t.groups[g := t.groups[g].(revision := t.groups[g].revision + 1)])
      else t;
    if g in u.groups && |MembersOf(u, g)| < 2
    then u.(groups := u.groups - {g}, members := u.members - MembersOf(u, g))
    else Refresh(u, g)
  }

  lemma LeavesWithoutGroup(s: Store, e: int)
    requires e in s.members && e in s.entities && s.members[e] !in s.groups
    ensures var t := DeleteMember(s, e);
      t.entities == s.entities && t.groups == s.groups && t.members == s.members - {e}
  {}

  /** image_group_delete after the group row itself is gone: members leave one by one. */
  function DeleteMembers(s: Store, order: seq<int>): (t: Store)
    requires forall i, j | 0 <= i < j < |order| :: order[i] != order[j]
    requires forall e | e in order :: e in s.members && e in s.entities && s.members[e] !in s.groups
    ensures t.entities == s.entities && t.groups == s.groups
    ensures t.members == map e | e in s.members && e !in order :: s.members[e]
  {
    if order == [] then s
    else
      var init, e := order[..|order| - 1], order[|order| - 1];
      assert order == init + [e];
      LeavesWithoutGroup(DeleteMembers(s, init), e);
      hide DeleteMember;
      DeleteMember(DeleteMembers(s, init), e)
  }

  /** A present original whose row is inserted again: image_group_media_insert. */
  function Appear(s: Store, e: int, hidden: bool): Store
    requires e in s.entities
  {
    var t := s.(media := s.media[s.entities[e] := hidden]);
    if e in t.members then Refresh(t, t.members[e]) else t
  }

  /** The original vanishes: its row is copied to the retained table, then deleted. */
  function Vanish(s: Store, e: int): Store
    requires Live(s, e)
  {
    var t := s.(retained := s.retained[e := s.media[s.entities[e]]], media := s.media - {s.entities[e]});
    if e in t.members then Refresh(t, t.members[e]) else t
  }

  /** The original returns and its retained row is inserted with the flag stored in it. */
  function Restore(s: Store, e: int): Store
    requires e in s.entities && e in s.retained
  {
    Appear(s.(retained := s.retained - {e}), e, s.retained[e])
  }

  /** A new file: identity_media_index_insert creates its entity. */
  function NewOriginal(s: Store, path: string): Store {
    s.(entities := s.entities[s.nextEntity := path], media := s.media[path := false], nextEntity := s.nextEntity + 1)
  }

  /** DELETE of an entity with image_group_entity_delete, which runs before the row is gone. */
  function Purge(s: Store, e: int): Store
    requires e in s.entities
  {
    var t := if e in s.members then DeleteMember(s, e) else s;
    t.(entities := t.entities - {e}, retained := t.retained - {e})
  }

  // ---- moving a folder ----

  ghost predicate Injective(rename: map<string, string>) {
    forall p, q | p in rename && q in rename && p != q :: rename[p] != rename[q]
  }

  /** The media rows move first, flags included. */
  function MoveMedia(s: Store, rename: map<string, string>): Store
    requires Injective(rename)
  {
    s.(media := (s.media - rename.Keys) + map p | p in s.media && p in rename :: rename[p] := s.media[p])
  }

  /** Then the entities follow row by row; image_group_entity_move refreshes after each. */
  function MoveEntity(s: Store, e: int, rename: map<string, string>): Store
    requires e in s.entities && s.entities[e] in rename
  {
    var t := s.(entities := s.entities[e := rename[s.entities[e]]]);
    if e in t.members then Refresh(t, t.members[e]) else t
  }

  ghost predicate Movable(s: Store, order: seq<int>, rename: map<string, string>) {
    && (forall i, j | 0 <= i < j < |order| :: order[i] != order[j])
    && (forall e | e in order :: e in s.entities && s.entities[e] in rename)
  }

  function MoveEntities(s: Store, order: seq<int>, rename: map<string, string>): (t: Store)
    requires Movable(s, order, rename)
    ensures t.entities.Keys == s.entities.Keys
    ensures forall e | e in s.entities :: t.entities[e] == if e in order then rename[s.entities[e]] else s.entities[e]
    ensures t.members == s.members && t.groups == s.groups && t.media.Keys == s.media.Keys
  {
    if order == [] then s
    else
      var init, last := order[..|order| - 1], order[|order| - 1];
      assert order == init + [last];
      assert Movable(s, init, rename) && last !in init;
      MoveEntity(MoveEntities(s, init, rename), last, rename)
  }
}
