/** What each request does to the tables, row by row. */
module ImageGroupEffects {
  import opened FaceTables
  import opened ImageGroupTables
  import opened ImageGroupInvariant
  import opened ImageGroupMembers
  import opened ImageGroupLeaving
  import opened ImageGroups

  /** Nothing differs but one group, its memberships, and the flags of its members before and after. */
  ghost predicate OnlyGroup(s: Store, t: Store, g: int) {
    && t == s.(groups := t.groups, members := t.members, media := t.media)
    && t.groups - {g} == s.groups - {g} && t.media.Keys == s.media.Keys
    && forall x | Live(s, x) && x !in MembersOf(s, g) && x !in MembersOf(t, g) ::
         t.media[s.entities[x]] == s.media[s.entities[x]]
  }

  /** The chosen member is the primary and the only one shown. */
  ghost predicate PrimaryChosen(s: Store, t: Store, g: int, e: int)
    requires g in s.groups
  {
    && OnlyGroup(s, t, g) && t.members == s.members
    && t.groups == s.groups[g := Group(e, s.groups[g].revision + 1)]
    && forall x | Live(s, x) && x in MembersOf(s, g) :: t.media[s.entities[x]] == (x != e)
  }

  /**
   * The shown member hands over to the smallest other present one; whoever else leaves changes nothing for the rest.
   */
  ghost predicate Succession(s: Store, t: Store, g: int, e: int)
    requires g in s.groups && g in t.groups && t.media.Keys == s.media.Keys
  {
    var others := LiveMembers(s, g) - {e};
    if Live(s, e) && !s.media[s.entities[e]] && others != {} then
      && t.groups[g].primary in others
      && forall x | x in others :: t.groups[g].primary <= x && t.media[s.entities[x]] == (x != t.groups[g].primary)
    else
      && t.groups[g].primary == s.groups[g].primary
      && forall x | x in others :: t.media[s.entities[x]] == s.media[s.entities[x]]
  }

  /** The member is in no group and shown; a pair is no group any more. */
  ghost predicate MemberRemoved(s: Store, t: Store, g: int, e: int)
    requires g in s.groups
  {
    && OnlyGroup(s, t, g) && (Live(s, e) ==> !t.media[s.entities[e]])
    && if |MembersOf(s, g)| == 2
       then t.groups == s.groups - {g} && t.members == s.members - MembersOf(s, g)
            && forall x | Live(s, x) && x in MembersOf(s, g) :: !t.media[s.entities[x]]
       else t.members == s.members - {e} && g in t.groups && t.groups[g].revision > s.groups[g].revision
            && Succession(s, t, g, e)
  }

  /** The group is gone and every former member is shown. */
  ghost predicate GroupDissolved(s: Store, t: Store, g: int) {
    && OnlyGroup(s, t, g) && t.groups == s.groups - {g} && t.members == s.members - MembersOf(s, g)
    && forall x | Live(s, x) && x in MembersOf(s, g) :: !t.media[s.entities[x]]
  }

  /** A new group with the given members, of which the primary alone is shown. */
  ghost predicate GroupCreated(s: Store, t: Store, ids: seq<int>, primary: int) {
    var g := s.nextGroup;
    && OnlyGroup(s.(nextGroup := g + 1), t, g)
    && t.groups == s.groups[g := Group(primary, 1)]
    && t.members == s.members + (map x | x in ids :: g)
    && forall x | x in ids && x in s.entities && s.entities[x] in t.media :: t.media[s.entities[x]] == (x != primary)
  }

  /** More members, with the flags of the old ones as they were; while the stand-in is kept the new ones are hidden. */
  ghost predicate MembersAdded(s: Store, t: Store, g: int, ids: seq<int>)
    requires g in s.groups && ids != []
  {
    && OnlyGroup(s, t, g)
    && t.groups == s.groups[g := s.groups[g].(revision := s.groups[g].revision + 1)]
    && t.members == s.members + (map x | x in ids :: g)
    && (forall x | Live(s, x) && x in MembersOf(s, g) :: t.media[s.entities[x]] == s.media[s.entities[x]])
    && (StandInKept(s, g, ids) ==>
          forall x | x in ids && Live(s, x) :: !t.media[s.entities[x]] ==> LiveMembers(s, g) == {} && x == ids[0])
  }

  lemma ChoosingEffect(s: Store, g: int, e: int, order: seq<int>)
    requires Inv(s) && g in s.groups && e in LiveMembers(s, g)
    ensures PrimaryChosen(s, Acted(s, g, e, MakePrimary, order), g, e)
  {
    var t := NextRevision(s, g);
    var u := t.(groups := t.groups[g := t.groups[g].(primary := e)]);
    RefreshEffect(u, g);
    assert MembersOf(u, g) == MembersOf(s, g);
  }

  lemma DissolvingEffect(s: Store, g: int, e: int, order: seq<int>)
    requires Inv(s) && g in s.groups && ListsMembers(s, g, order)
    ensures GroupDissolved(s, Acted(s, g, e, Dissolve, order), g)
  {
    var r := NextRevision(s, g);
    var u := r.(groups := r.groups - {g});
    assert MembersOf(u, g) == MembersOf(s, g);
    forall x ensures x in Ids(order) <==> x in MembersOf(s, g) {}
    DissolveEffect(u, g, order);
    assert Ids(order) == MembersOf(s, g);
  }

  /** Before the row goes: the primary has been handed over if the shown member leaves. */
  lemma HandingOver(s: Store, g: int, e: int)
    requires Inv(s) && g in s.groups && e in MembersOf(s, g)
    ensures var others := LiveMembers(s, g) - {e};
      ReadPrimary(s, g) == e && others != {} <==> Live(s, e) && !s.media[s.entities[e]] && others != {}
  {
    if Live(s, e) {
      assert s.media[s.entities[e]] == ShouldHide(s, e);
    } else if LiveMembers(s, g) != {} {
      ExactlyOneVisible(s, g);
    }
  }

  /** The stores before and after the row is deleted, with the effect of the deletion. */
  lemma LeavingEffect(u: Store, g: int, e: int)
    requires Inv(u) && g in u.groups && e in MembersOf(u, g)
    ensures var t := DeleteMember(u, e);
      && OnlyGroup(u, t, g) && (Live(u, e) ==> !t.media[u.entities[e]])
      && if |MembersOf(u, g)| == 2
         then t.groups == u.groups - {g} && t.members == u.members - MembersOf(u, g)
         else t.members == u.members - {e} && g in t.groups
              && t.groups[g] == u.groups[g].(revision := u.groups[g].revision + 1)
  {
    DeleteEffect(u, e);
  }

  /** Whoever leaves without being the only one shown, the rest keeps its flags. */
  lemma RestKeepsFlags(u: Store, g: int, e: int)
    requires Inv(u) && g in u.groups && e in MembersOf(u, g)
    requires Effective(u, g) != Some(e) || LiveMembers(u, g) == {e}
    ensures var t := DeleteMember(u, e);
      t.media.Keys == u.media.Keys
      && forall x | x in LiveMembers(u, g) - {e} :: t.media[u.entities[x]] == u.media[u.entities[x]]
  {
    DeleteEffect(u, e);
    var t := DeleteMember(u, e);
    if |MembersOf(u, g)| != 2 && Effective(u, g) != Some(e) {
      forall x | x in LiveMembers(u, g) - {e} ensures t.media[u.entities[x]] == u.media[u.entities[x]] {
        assert x in MembersOf(t, g) && u.media[u.entities[x]] == ShouldHide(u, x);
        SameStandIn(u, t, g, e);
      }
    }
  }

  lemma SameStandIn(u: Store, t: Store, g: int, e: int)
    requires Inv(u) && g in u.groups && g in t.groups && t.entities == u.entities && t.media.Keys == u.media.Keys
    requires t.groups[g].primary == u.groups[g].primary && t.members == u.members - {e} && Effective(u, g) != Some(e)
    requires LiveMembers(u, g) - {e} != {}
    ensures Effective(t, g) == Effective(u, g)
  {
    assert LiveMembers(t, g) == LiveMembers(u, g) - {e};
    if !Live(u, u.groups[g].primary) {
      var m := Minimum(LiveMembers(u, g));
      assert m in LiveMembers(t, g) && Minimum(LiveMembers(t, g)) in LiveMembers(u, g);
    }
  }

  lemma HandedOver(r: Store, g: int, e: int)
    requires Inv(r) && g in r.groups && e in MembersOf(r, g) && LiveMembers(r, g) - {e} != {}
    ensures var p, u := Minimum(LiveMembers(r, g) - {e}), SetPrimary(r, g, Minimum(LiveMembers(r, g) - {e}));
      && Inv(u) && OnlyGroup(r, u, g) && u.members == r.members && u.groups == r.groups[g := r.groups[g].(primary := p)]
      && Effective(u, g) == Some(p) && LiveMembers(u, g) == LiveMembers(r, g)
      && forall x | x in LiveMembers(r, g) :: u.media[r.entities[x]] == (x != p)
  {
    var p := Minimum(LiveMembers(r, g) - {e});
    var u := r.(groups := r.groups[g := r.groups[g].(primary := p)]);
    SetPrimaryKeeps(r, g, p);
    RefreshEffect(u, g);
    assert MembersOf(u, g) == MembersOf(r, g);
  }

  lemma RemovingWithSuccessor(r: Store, g: int, e: int)
    requires Inv(r) && g in r.groups && e in MembersOf(r, g) && LiveMembers(r, g) - {e} != {}
    requires Live(r, e) && !r.media[r.entities[e]]
    ensures MemberRemoved(r, DeleteMember(SetPrimary(r, g, Minimum(LiveMembers(r, g) - {e})), e), g, e)
  {
    var others := LiveMembers(r, g) - {e};
    var p, u := Minimum(others), SetPrimary(r, g, Minimum(others));
    HandedOver(r, g, e);
    LeavingEffect(u, g, e);
    RestKeepsFlags(u, g, e);
    hide Inv;
    hide SetPrimary;
    hide DeleteMember;
    assert MembersOf(u, g) == MembersOf(r, g);
    PairIs(r, g, e, p);
  }

  lemma PairIs(s: Store, g: int, e: int, p: int)
    requires e in MembersOf(s, g) && p in MembersOf(s, g) && e != p
    ensures |MembersOf(s, g)| == 2 ==> MembersOf(s, g) == {e, p}
  {
    if |MembersOf(s, g)| == 2 {
      Pick.SameBySize({e, p}, MembersOf(s, g));
    }
  }

  lemma RemovingAlone(r: Store, g: int, e: int)
    requires Inv(r) && g in r.groups && e in MembersOf(r, g)
    requires !(Live(r, e) && !r.media[r.entities[e]] && LiveMembers(r, g) - {e} != {})
    ensures MemberRemoved(r, DeleteMember(r, e), g, e)
  {
    LeavingEffect(r, g, e);
    if Effective(r, g) == Some(e) {
      assert r.media[r.entities[e]] == ShouldHide(r, e);
      assert LiveMembers(r, g) == {e};
    }
    RestKeepsFlags(r, g, e);
    if |MembersOf(r, g)| == 2 {
      forall x | x in LiveMembers(r, g) - {e} ensures !r.media[r.entities[x]] {
        PairIs(r, g, e, x);
        ExactlyOneVisible(r, g);
      }
    }
  }

  lemma RemovingEffect(s: Store, g: int, e: int, order: seq<int>)
    requires Inv(s) && g in s.groups && e in MembersOf(s, g) && e in s.entities
    ensures MemberRemoved(s, Acted(s, g, e, Remove, order), g, e)
  {
    var r := NextRevision(s, g);
    NextRevisionKeeps(s, g);
    HandingOver(r, g, e);
    if Live(r, e) && !r.media[r.entities[e]] && LiveMembers(r, g) - {e} != {} {
      RemovingWithSuccessor(r, g, e);
    } else {
      RemovingAlone(r, g, e);
    }
    var t := Acted(s, g, e, Remove, order);
    assert MemberRemoved(r, t, g, e);
    AfterRevision(s, t, g, e);
  }

  lemma AfterRevision(s: Store, t: Store, g: int, e: int)
    requires g in s.groups && MemberRemoved(NextRevision(s, g), t, g, e)
    ensures MemberRemoved(s, t, g, e)
  {
    var r := NextRevision(s, g);
    assert MembersOf(r, g) == MembersOf(s, g) && LiveMembers(r, g) == LiveMembers(s, g);
    assert r.groups - {g} == s.groups - {g};
  }

  lemma JoinedRows(u: Store, t: Store, ids: seq<int>, g: int)
    requires Joined(u, t, Ids(ids), g)
    ensures t.groups == u.groups && t.members == u.members + (map x | x in ids :: g)
  {
    var joined, more := Ids(ids), u.members + map x | x in ids :: g;
    forall x ensures x in t.members <==> x in more
             ensures x in more ==> t.members[x] == more[x]
    {
      assert x in joined <==> x in ids;
    }
    assert t.members == more;
  }

  lemma JoinedGroupOnly(u: Store, t: Store, ids: seq<int>, g: int)
    requires Joined(u, t, Ids(ids), g)
    ensures OnlyGroup(u, t, g)
  {
    var joined := Ids(ids);
    forall x | x in joined ensures x in MembersOf(t, g) {}
  }

  lemma JoiningEffect(u: Store, ids: seq<int>, g: int)
    requires UniquePaths(u) && Joinable(u, ids)
    ensures var t := InsertMembers(u, ids, g);
      && OnlyGroup(u, t, g) && t.groups == u.groups && t.members == u.members + (map x | x in ids :: g)
      && forall x | Live(u, x) && x !in ids :: t.media[u.entities[x]] == u.media[u.entities[x]]
  {
    InsertEffect(u, ids, g);
    hide InsertMembers;
    hide OnlyGroup;
    JoinedRows(u, InsertMembers(u, ids, g), ids, g);
    JoinedGroupOnly(u, InsertMembers(u, ids, g), ids, g);
    assert forall x :: x in Ids(ids) <==> x in ids;
  }

  lemma CreatingEffect(s: Store, ids: seq<int>, primary: int)
    requires Inv(s) && Joinable(s, ids) && 2 <= |ids| <= MAX_GROUP_SIZE && primary in ids
    ensures GroupCreated(s, Created(s, ids, primary), ids, primary)
  {
    var g, u, t := s.nextGroup, EmptyGroup(s, primary), Created(s, ids, primary);
    EmptyGroupFacts(s, primary);
    JoiningEffect(u, ids, g);
    CreatedFlags(s, ids, primary);
    hide InsertMembers;
    hide Inv;
    hide Consistent;
    hide FreshIds;
    NewGroupOnly(s, u, t, primary);
  }

  lemma CreatedFlags(s: Store, ids: seq<int>, primary: int)
    requires Inv(s) && Joinable(s, ids) && 2 <= |ids| <= MAX_GROUP_SIZE && primary in ids
    ensures var t := Created(s, ids, primary);
      forall x | x in ids && x in s.entities && s.entities[x] in t.media :: t.media[s.entities[x]] == (x != primary)
  {
    CreateKeeps(s, ids, primary);
    hide InsertMembers;
    hide SetPrimary;
    var t := Created(s, ids, primary);
    forall x | x in ids && x in s.entities && s.entities[x] in t.media
      ensures t.media[s.entities[x]] == (x != primary)
    {
      assert x in Ids(ids) && x in MembersOf(t, s.nextGroup);
    }
  }

  lemma NewGroupOnly(s: Store, u: Store, t: Store, primary: int)
    requires u == EmptyGroup(s, primary) && OnlyGroup(u, t, s.nextGroup) && t.groups == u.groups
    ensures OnlyGroup(s.(nextGroup := s.nextGroup + 1), t, s.nextGroup)
    ensures t.groups == s.groups[s.nextGroup := Group(primary, 1)]
  {
    assert MembersOf(u, s.nextGroup) == MembersOf(s, s.nextGroup);
    assert u.groups - {s.nextGroup} == s.groups - {s.nextGroup};
  }

  /** A new member becomes the one shown only where nobody was present. */
  lemma NewStandIn(r: Store, ids: seq<int>, g: int, x: int)
    requires Inv(r) && g in r.groups && Joinable(r, ids) && ids != [] && StandInKept(r, g, ids) && x in ids
    requires Effective(InsertMembers(r, ids, g), g) == Some(x)
    ensures LiveMembers(r, g) == {} && x == ids[0]
  {
    JoinedEffective(r, ids, g);
    hide InsertMembers;
    assert x in Ids(ids) && ids[0] in Ids(ids);
    if !Live(r, r.groups[g].primary) {
      var all := LiveMembers(r, g) + Ids(ids);
      assert x == Minimum(all) && FirstShown(r, g, ids) in all && FirstShown(r, g, ids) <= x;
    }
  }

  lemma AddedFlags(s: Store, g: int, ids: seq<int>)
    requires Inv(s) && g in s.groups && Joinable(s, ids) && ids != [] && |MembersOf(s, g)| + |ids| <= MAX_GROUP_SIZE
    requires StandInKept(s, g, ids)
    ensures forall x | x in ids && x in s.entities && s.entities[x] in Added(s, g, ids).media ::
      !Added(s, g, ids).media[s.entities[x]] ==> LiveMembers(s, g) == {} && x == ids[0]
  {
    AddKeeps(s, g, ids);
    var r, t := NextRevision(s, g), Added(s, g, ids);
    NextRevisionKeeps(s, g);
    assert Joinable(r, ids) && StandInKept(r, g, ids);
    InsertEffect(r, ids, g);
    hide InsertMembers;
    hide Effective;
    hide StandInKept;
    hide Joined;
    forall x | x in ids && x in s.entities && s.entities[x] in t.media && !t.media[s.entities[x]]
      ensures LiveMembers(s, g) == {} && x == ids[0]
    {
      assert Live(t, x) && x in Ids(ids) && x in MembersOf(t, g);
      assert t.media[t.entities[x]] == ShouldHide(t, x);
      NewStandIn(r, ids, g, x);
    }
  }

  lemma AddedRows(s: Store, g: int, ids: seq<int>)
    requires Inv(s) && g in s.groups && Joinable(s, ids)
    ensures var t := Added(s, g, ids);
      && OnlyGroup(s, t, g)
      && t.groups == s.groups[g := s.groups[g].(revision := s.groups[g].revision + 1)]
      && t.members == s.members + (map x | x in ids :: g)
      && (forall x | Live(s, x) && x in MembersOf(s, g) :: t.media[s.entities[x]] == s.media[s.entities[x]])
  {
    var r, t := NextRevision(s, g), Added(s, g, ids);
    assert Joinable(r, ids);
    JoiningEffect(r, ids, g);
    hide InsertMembers;
    assert r.groups - {g} == s.groups - {g};
    assert MembersOf(r, g) == MembersOf(s, g);
    forall x | x in MembersOf(s, g) ensures x !in ids {}
  }

  lemma AddingEffect(s: Store, g: int, ids: seq<int>)
    requires Inv(s) && g in s.groups && Joinable(s, ids) && ids != [] && |MembersOf(s, g)| + |ids| <= MAX_GROUP_SIZE
    ensures MembersAdded(s, Added(s, g, ids), g, ids)
  {
    AddedRows(s, g, ids);
    if StandInKept(s, g, ids) {
      AddedFlags(s, g, ids);
    }
    hide StandInKept;
    hide Added;
    hide Inv;
  }

  lemma ActionEffect(s: Store, g: int, e: int, action: Action, order: seq<int>)
    requires Inv(s) && g in s.groups
    requires action.MakePrimary? ==> e in LiveMembers(s, g)
    requires action.Remove? ==> e in MembersOf(s, g) && e in s.members && e in s.entities
    requires action.Dissolve? ==> ListsMembers(s, g, order)
    ensures var t := Acted(s, g, e, action, order);
      match action
      case MakePrimary => PrimaryChosen(s, t, g, e)
      case Remove => MemberRemoved(s, t, g, e)
      case Dissolve => GroupDissolved(s, t, g)
  {
    match action
    case MakePrimary => ChoosingEffect(s, g, e, order);
    case Remove => RemovingEffect(s, g, e, order);
    case Dissolve => DissolvingEffect(s, g, e, order);
  }
}
