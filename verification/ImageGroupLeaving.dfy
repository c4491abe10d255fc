/** Removing, dissolving, purging and moving: exactly when the invariant survives. */
module ImageGroupLeaving {
  import opened FaceTables
  import opened ImageGroupTables
  import opened ImageGroupInvariant
  import opened ImageGroupMembers

  /** PrimaryID as the group is read: the effective primary, or the chosen one when everything is
      missing. */
  function ReadPrimary(s: Store, g: int): int
    requires g in s.groups
  {
    var eff := Effective(s, g);
    if eff.Some? then eff.value else s.groups[g].primary
  }

  /** Removing one member: a removed read primary first hands over to the smallest other live
      member. */
  function RemoveMember(s: Store, g: int, e: int): Store
    requires g in s.groups && e in s.members && e in s.entities
  {
    var others := LiveMembers(s, g) - {e};
    DeleteMember(if ReadPrimary(s, g) == e && others != {} then SetPrimary(s, g, Minimum(others)) else s, e)
  }

  /** The chosen primary may leave only a collapsing pair, or while present with another present
      member to hand over to. */
  predicate Removable(s: Store, g: int, e: int)
    requires g in s.groups
  {
    || s.groups[g].primary != e
    || |MembersOf(s, g)| == 2
    || (Live(s, e) && LiveMembers(s, g) != {e})
  }

  lemma PrimariesAfterDelete(s: Store, e: int)
    requires Inv(s) && e in s.members
    requires |MembersOf(s, s.members[e])| == 2 || s.groups[s.members[e]].primary != e
    ensures PrimaryIsMember(DeleteMember(s, e))
  {
    DeleteEffect(s, e);
    assert e in MembersOf(s, s.members[e]);
  }

  lemma RemovalKeeps(s: Store, g: int, e: int)
    requires Inv(s) && g in s.groups && e in s.members && s.members[e] == g && Removable(s, g, e)
    ensures Inv(RemoveMember(s, g, e))
  {
    var others := LiveMembers(s, g) - {e};
    if ReadPrimary(s, g) == e && others != {} {
      var p := Minimum(others);
      SetPrimaryKeeps(s, g, p);
      var t := SetPrimary(s, g, p);
      assert Live(t, p) && Effective(t, g) == Some(p);
      DeleteKeeps(t, e);
      PrimariesAfterDelete(t, e);
    } else {
      if Live(s, e) && Effective(s, g) == Some(e) {
        assert LiveMembers(s, g) == {e};
      }
      DeleteKeeps(s, e);
      PrimariesAfterDelete(s, e);
    }
  }

  /** Removing keeps the invariant exactly when the removed original is not a chosen primary that
      stays behind as one. */
  lemma RemovalKeepsExactly(s: Store, g: int, e: int)
    requires Inv(s) && g in s.groups && e in s.members && s.members[e] == g
    ensures Inv(RemoveMember(s, g, e)) <==> Removable(s, g, e)
  {
    if Removable(s, g, e) {
      RemovalKeeps(s, g, e);
    } else {
      if !Live(s, e) && LiveMembers(s, g) != {} {
        assert ReadPrimary(s, g) in LiveMembers(s, g);
      }
      assert RemoveMember(s, g, e) == DeleteMember(s, e);
      DeleteEffect(s, e);
      assert !PrimaryIsMember(DeleteMember(s, e));
    }
  }

  /** What goes wrong otherwise: while the removed primary is present, the next refresh of the
      group hides every member. */
  lemma DanglingPrimaryHidesAll(s: Store, g: int)
    requires UniquePaths(s) && MembersExist(s) && g in s.groups
    requires Live(s, s.groups[g].primary) && s.groups[g].primary !in MembersOf(s, g)
    ensures forall e | e in LiveMembers(s, g) :: Refresh(s, g).media[s.entities[e]]
  {
    RefreshEffect(s, g);
  }

  // ---- dissolving ----

  ghost predicate Dissolving(s: Store, t: Store, g: int, gone: set<int>) {
    && t == s.(members := t.members, media := t.media)
    && t.members == s.members - gone
    && t.media.Keys == s.media.Keys
    && (forall e | Live(s, e) && e in gone :: !t.media[s.entities[e]])
    && (forall e | Live(s, e) && e !in MembersOf(s, g) :: t.media[s.entities[e]] == s.media[s.entities[e]])
  }

  /** While the group row is gone, each deleted member is shown and the rest is hidden until its
      turn comes. */
  lemma DissolveStep(s: Store, t: Store, g: int, gone: set<int>, e: int)
    requires UniquePaths(s) && (forall x | x in s.members :: x in s.entities) && g !in s.groups
    requires Dissolving(s, t, g, gone) && e in MembersOf(s, g) && e !in gone && gone <= MembersOf(s, g)
    ensures Dissolving(s, DeleteMember(t, e), g, gone + {e})
  {
    DeleteWithoutGroup(t, g, e);
    MinusTwice(s.members, gone, e);
  }

  /** Deleting a member whose group row is gone shows it and touches only the other members. */
  lemma DeleteWithoutGroup(t: Store, g: int, e: int)
    requires UniquePaths(t) && (forall x | x in t.members :: x in t.entities) && g !in t.groups && e in MembersOf(t, g)
    ensures var u := DeleteMember(t, e);
      && u == t.(members := t.members - {e}, media := u.media) && u.media.Keys == t.media.Keys
      && (Live(t, e) ==> !u.media[t.entities[e]])
      && (forall x | Live(t, x) && x !in MembersOf(t, g) :: u.media[t.entities[x]] == t.media[t.entities[x]])
  {
    RefreshEffect(SetFlag(t.(members := t.members - {e}), e, false), g);
  }

  lemma MinusTwice(m: map<int, int>, gone: set<int>, e: int)
    ensures (m - gone) - {e} == m - (gone + {e})
  {}

  lemma {:induction false} DissolveEffect(s: Store, g: int, order: seq<int>)
    requires UniquePaths(s) && (forall x | x in s.members :: x in s.entities) && g !in s.groups
    requires forall i, j | 0 <= i < j < |order| :: order[i] != order[j]
    requires forall e | e in order :: e in s.members && e in s.entities && s.members[e] == g
    ensures Dissolving(s, DeleteMembers(s, order), g, Ids(order))
  {
    if order == [] {
      assert s.members - {} == s.members;
    } else {
      var init, last := order[..|order| - 1], order[|order| - 1];
      assert order == init + [last];
      DissolveEffect(s, g, init);
      DissolveStep(s, DeleteMembers(s, init), g, Ids(init), last);
      assert Ids(order) == Ids(init) + {last};
    }
  }

  /** All members of a group, each once, in the order their rows are deleted. */
  ghost predicate ListsMembers(s: Store, g: int, order: seq<int>) {
    && (forall i, j | 0 <= i < j < |order| :: order[i] != order[j])
    && (forall e | e in order :: e in s.members && e in s.entities && s.members[e] == g)
    && (forall e | e in s.members && s.members[e] == g :: e in order)
  }

  function DissolveGroup(s: Store, g: int, order: seq<int>): Store
    requires ListsMembers(s, g, order)
  {
    DeleteMembers(s.(groups := s.groups - {g}), order)
  }

  /** Dissolving shows every former member, in whatever order the rows are deleted. */
  lemma DissolveKeeps(s: Store, g: int, order: seq<int>)
    requires Inv(s) && g in s.groups && ListsMembers(s, g, order)
    ensures Inv(DissolveGroup(s, g, order))
    ensures g !in DissolveGroup(s, g, order).groups && MembersOf(DissolveGroup(s, g, order), g) == {}
  {
    var u := s.(groups := s.groups - {g});
    assert MembersOf(u, g) == MembersOf(s, g);
    forall e ensures e in Ids(order) <==> e in MembersOf(s, g) {}
    DissolveEffect(u, g, order);
    var t := DissolveGroup(s, g, order);
    forall h | h in t.groups
      ensures MembersOf(t, h) == MembersOf(s, h) && Effective(t, h) == Effective(s, h)
    {
      forall e ensures e in MembersOf(t, h) <==> e in MembersOf(s, h) {
        assert e in MembersOf(s, g) <==> e in s.members && s.members[e] == g;
      }
      EffectiveLocal(s, t, h);
    }
    forall e | Live(t, e) ensures t.media[t.entities[e]] == ShouldHide(t, e) {
      assert Live(s, e);
      assert e in MembersOf(s, g) <==> e in s.members && s.members[e] == g;
    }
  }

  // ---- purging ----

  /** Purging a missing original keeps everything; a purged chosen primary is dead for good. */
  lemma PurgeKeeps(s: Store, e: int)
    requires Inv(s) && e in s.entities && !Live(s, e)
    ensures Inv(Purge(s, e))
  {
    var t := if e in s.members then DeleteMember(s, e) else s;
    if e in s.members {
      DeleteKeeps(s, e);
      DeleteEffect(s, e);
    }
    PurgeRow(s, t, e);
  }

  lemma PurgeRowLocal(t: Store, e: int, g: int)
    requires !Live(t, e) && e !in t.members
    ensures var u := t.(entities := t.entities - {e}, retained := t.retained - {e});
      MembersOf(u, g) == MembersOf(t, g) && Effective(u, g) == Effective(t, g)
  {
    if g in t.groups {
      EffectiveLocal(t, t.(entities := t.entities - {e}, retained := t.retained - {e}), g);
    }
  }

  lemma PurgeRow(s: Store, t: Store, e: int)
    requires Inv(s) && !Live(s, e) && e in s.entities
    requires t == if e in s.members then DeleteMember(s, e) else s
    requires InvButPrimary(t) && t.entities == s.entities && t.retained == s.retained && t.media.Keys == s.media.Keys
      && t.nextEntity == s.nextEntity
    ensures Inv(t.(entities := t.entities - {e}, retained := t.retained - {e}))
  {
    var u := t.(entities := t.entities - {e}, retained := t.retained - {e});
    if e in s.members {
      DeleteEffect(s, e);
      assert e in MembersOf(s, s.members[e]);
    }
    assert e !in t.members && PrimaryIsMember(u);
    hide PrimaryIsMember;
    hide DeleteMember;
    hide Effective;
    forall g ensures MembersOf(u, g) == MembersOf(t, g) && Effective(u, g) == Effective(t, g) {
      PurgeRowLocal(t, e, g);
    }
  }
}
