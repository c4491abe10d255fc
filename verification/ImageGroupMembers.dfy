/** Members join and leave groups: exactly when the flags stay right. */
module ImageGroupMembers {
  import opened FaceTables
  import opened ImageGroupTables
  import opened ImageGroupInvariant

  // ---- joining ----

  ghost predicate Consistent(s: Store) {
    UniquePaths(s) && MembersExist(s) && FlagsRight(s)
  }

  /** Ungrouped present originals, each once. */
  ghost predicate Joinable(s: Store, ids: seq<int>) {
    && (forall i, j | 0 <= i < j < |ids| :: ids[i] != ids[j])
    && (forall e | e in ids :: Live(s, e) && e !in s.members)
  }

  lemma JoinablePrefix(s: Store, ids: seq<int>)
    requires Joinable(s, ids) && |ids| > 0
    ensures Joinable(s, ids[..|ids| - 1]) && ids[|ids| - 1] !in ids[..|ids| - 1]
  {
    assert ids == ids[..|ids| - 1] + [ids[|ids| - 1]];
  }

  ghost function Ids(ids: seq<int>): set<int> {
    set e | e in ids
  }

  /** Membership grows by `joined`; only flags of `joined` may change. */
  ghost predicate Joined(s: Store, t: Store, joined: set<int>, g: int) {
    && t == s.(members := t.members, media := t.media)
    && t.members.Keys == s.members.Keys + joined
    && (forall e | e in t.members :: t.members[e] == if e in joined then g else s.members[e])
    && t.media.Keys == s.media.Keys
    && (forall e | Live(s, e) && e !in joined :: t.media[s.entities[e]] == s.media[s.entities[e]])
  }

  lemma JoinedMembers(s: Store, t: Store, joined: set<int>, g: int)
    requires Joined(s, t, joined, g)
    requires forall e | e in joined :: Live(s, e) && e !in s.members
    ensures LiveMembers(t, g) == LiveMembers(s, g) + joined
    ensures MembersOf(t, g) == MembersOf(s, g) + joined
    ensures forall h | h != g :: MembersOf(t, h) == MembersOf(s, h) && LiveMembers(t, h) == LiveMembers(s, h)
  {
    forall e ensures Live(t, e) == Live(s, e) {}
    forall e ensures e in MembersOf(t, g) <==> e in MembersOf(s, g) + joined {}
    forall e ensures e in LiveMembers(t, g) <==> e in LiveMembers(s, g) + joined {}
    forall h | h != g ensures MembersOf(t, h) == MembersOf(s, h) && LiveMembers(t, h) == LiveMembers(s, h) {
      forall e ensures e in MembersOf(t, h) <==> e in MembersOf(s, h) {}
      forall e ensures e in LiveMembers(t, h) <==> e in LiveMembers(s, h) {}
    }
  }

  lemma JoinOne(s: Store, m: Store, joined: set<int>, e: int, g: int)
    requires UniquePaths(s) && Joined(s, m, joined, g) && Live(s, e) && e !in joined && e !in s.members
    ensures Joined(s, InsertMember(m, e, g), joined + {e}, g)
  {
    var t := InsertMember(m, e, g);
    assert t.members == m.members[e := g];
    forall x | Live(s, x) && x !in joined + {e} ensures t.media[s.entities[x]] == s.media[s.entities[x]] {
      assert s.entities[x] != s.entities[e];
    }
  }

  lemma NobodyJoins(s: Store, g: int)
    ensures Joined(s, s, {}, g)
  {}

  lemma {:induction false} InsertJoins(s: Store, ids: seq<int>, g: int)
    requires UniquePaths(s) && Joinable(s, ids)
    ensures Joined(s, InsertMembers(s, ids, g), Ids(ids), g)
  {
    hide Joined;
    hide InsertMember;
    hide UniquePaths;
    if ids == [] {
      NobodyJoins(s, g);
      assert Ids(ids) == {};
    } else {
      JoinablePrefix(s, ids);
      var init, e := ids[..|ids| - 1], ids[|ids| - 1];
      InsertJoins(s, init, g);
      assert e in ids;
      JoinOne(s, InsertMembers(s, init, g), Ids(init), e, g);
      assert ids == init + [e];
      assert Ids(ids) == Ids(init) + {e};
    }
  }

  /** What inserting members changes: membership of the new ids and nobody else's flag. */
  lemma InsertEffect(s: Store, ids: seq<int>, g: int)
    requires UniquePaths(s) && Joinable(s, ids)
    ensures Joined(s, InsertMembers(s, ids, g), Ids(ids), g)
    ensures LiveMembers(InsertMembers(s, ids, g), g) == LiveMembers(s, g) + Ids(ids)
    ensures MembersOf(InsertMembers(s, ids, g), g) == MembersOf(s, g) + Ids(ids)
    ensures forall h | h != g :: MembersOf(InsertMembers(s, ids, g), h) == MembersOf(s, h)
  {
    InsertJoins(s, ids, g);
    JoinedMembers(s, InsertMembers(s, ids, g), Ids(ids), g);
  }

  /** The effective primary while members join: the chosen one if present, else the smallest. */
  lemma JoinedEffective(s: Store, ids: seq<int>, g: int)
    requires UniquePaths(s) && Joinable(s, ids) && g in s.groups
    ensures Effective(InsertMembers(s, ids, g), g) ==
      if Live(s, s.groups[g].primary) then Some(s.groups[g].primary)
      else if LiveMembers(s, g) + Ids(ids) == {} then None
      else Some(Minimum(LiveMembers(s, g) + Ids(ids)))
  {
    InsertEffect(s, ids, g);
  }

  /** The stand-in of the group after the first of `ids` has joined. */
  function FirstShown(s: Store, g: int, ids: seq<int>): int
    requires ids != []
  {
    if LiveMembers(s, g) == {} then ids[0] else Minimum(LiveMembers(s, g))
  }

  /** The chosen primary is present, or no joining id is smaller than the stand-in. */
  predicate StandInKept(s: Store, g: int, ids: seq<int>)
    requires ids != [] && g in s.groups
  {
    Live(s, s.groups[g].primary) || forall e | e in ids :: FirstShown(s, g, ids) <= e
  }

  lemma MinimumIs(s: set<int>, m: int)
    requires m in s && forall x | x in s :: m <= x
    ensures Minimum(s) == m
  {}

  /** The effective primary does not move while members join. */
  lemma SteadyEffective(s: Store, ids: seq<int>, g: int, k: nat)
    requires UniquePaths(s) && Joinable(s, ids) && g in s.groups && 0 < k <= |ids| && StandInKept(s, g, ids)
    ensures Effective(InsertMembers(s, ids[..k], g), g) ==
      Some(if Live(s, s.groups[g].primary) then s.groups[g].primary else FirstShown(s, g, ids))
  {
    JoinedEffective(s, ids[..k], g);
    if !Live(s, s.groups[g].primary) {
      var all, first := LiveMembers(s, g) + Ids(ids[..k]), FirstShown(s, g, ids);
      assert ids[..k][0] == ids[0];
      assert first in all;
      forall x | x in all ensures first <= x {
        assert x in ids[..k] ==> x in ids;
      }
      MinimumIs(all, first);
    }
  }

  /** The flag of the row just inserted. */
  lemma InsertFlag(m: Store, e: int, g: int)
    requires Live(m, e)
    ensures var t := InsertMember(m, e, g);
      Live(t, e) && t.media[m.entities[e]] == (Effective(t, g) != Some(e))
  {
    var u := m.(members := m.members[e := g]);
    var t := InsertMember(m, e, g);
    assert MembersOf(u, g) == MembersOf(t, g);
    if g in m.groups {
      EffectiveLocal(u, t, g);
    }
  }

  lemma UntouchedFlag(m: Store, e: int, g: int, x: int)
    requires UniquePaths(m) && Live(m, e) && Live(m, x) && x != e
    ensures InsertMember(m, e, g).media[m.entities[x]] == m.media[m.entities[x]]
  {}

  lemma PrefixStep(s: Store, ids: seq<int>, k: nat)
    requires Joinable(s, ids) && 0 < k <= |ids|
    ensures ids[..k] == ids[..k - 1] + [ids[k - 1]] && ids[..k][..k - 1] == ids[..k - 1]
    ensures Joinable(s, ids[..k]) && Joinable(s, ids[..k - 1]) && ids[k - 1] !in ids[..k - 1]
  {}

  /** Of the joined ids exactly `eff` is shown. */
  ghost predicate ShowsOnly(s: Store, t: Store, joined: set<int>, g: int, eff: int) {
    Joined(s, t, joined, g) && forall e | e in joined :: Live(s, e) && t.media[s.entities[e]] == (e != eff)
  }

  lemma ShowsOnlyStep(s: Store, m: Store, joined: set<int>, e: int, g: int, eff: int)
    requires UniquePaths(s) && ShowsOnly(s, m, joined, g, eff) && Live(s, e) && e !in joined && e !in s.members
    requires Effective(InsertMember(m, e, g), g) == Some(eff)
    ensures ShowsOnly(s, InsertMember(m, e, g), joined + {e}, g, eff)
  {
    JoinOne(s, m, joined, e, g);
    InsertFlag(m, e, g);
    forall x | x in joined ensures InsertMember(m, e, g).media[s.entities[x]] == m.media[s.entities[x]] {
      UntouchedFlag(m, e, g, x);
    }
  }

  lemma NobodyShown(s: Store, g: int, eff: int)
    ensures ShowsOnly(s, s, Ids([]), g, eff)
  {
    assert Ids([]) == {};
  }

  /** Flags of the joined ids, one insertion after the other. */
  lemma {:induction false} JoinedFlags(s: Store, ids: seq<int>, g: int, k: nat, eff: int)
    requires UniquePaths(s) && Joinable(s, ids) && g in s.groups && k <= |ids| && ids != [] && StandInKept(s, g, ids)
    requires eff == if Live(s, s.groups[g].primary) then s.groups[g].primary else FirstShown(s, g, ids)
    ensures ShowsOnly(s, InsertMembers(s, ids[..k], g), Ids(ids[..k]), g, eff)
  {
    hide ShowsOnly;
    hide Effective;
    hide InsertMember;
    hide UniquePaths;
    hide StandInKept;
    if k == 0 {
      assert ids[..k] == [];
      NobodyShown(s, g, eff);
    } else {
      JoinedFlags(s, ids, g, k - 1, eff);
      PrefixStep(s, ids, k);
      SteadyEffective(s, ids, g, k);
      ShowsOnlyStep(s, InsertMembers(s, ids[..k - 1], g), Ids(ids[..k - 1]), ids[k - 1], g, eff);
      assert Ids(ids[..k]) == Ids(ids[..k - 1]) + {ids[k - 1]};
    }
  }

  lemma KeptStandInKeepsFlags(s: Store, ids: seq<int>, g: int)
    requires Consistent(s) && Joinable(s, ids) && g in s.groups && ids != [] && StandInKept(s, g, ids)
    ensures FlagsRight(InsertMembers(s, ids, g))
  {
    var t := InsertMembers(s, ids, g);
    InsertEffect(s, ids, g);
    assert ids[..|ids|] == ids;
    SteadyEffective(s, ids, g, |ids|);
    JoinedFlags(s, ids, g, |ids|, if Live(s, s.groups[g].primary) then s.groups[g].primary else FirstShown(s, g, ids));
    if ids[0] in ids && !Live(s, s.groups[g].primary) && LiveMembers(s, g) != {} {
      assert Effective(s, g) == Some(FirstShown(s, g, ids));
    }
    forall x | Live(t, x) ensures t.media[t.entities[x]] == ShouldHide(t, x) {
      assert Live(s, x);
      if x in ids {
        assert x in Ids(ids);
      } else if x in t.members && t.members[x] != g {
        OtherGroups(s, t, ids, g, t.members[x]);
      } else if x in t.members {
        assert x in LiveMembers(s, g);
      }
    }
  }

  lemma LostStandInBreaksFlags(s: Store, ids: seq<int>, g: int)
    requires Consistent(s) && Joinable(s, ids) && g in s.groups && ids != [] && !StandInKept(s, g, ids)
    ensures !FlagsRight(InsertMembers(s, ids, g))
  {
    var first := FirstShown(s, g, ids);
    InsertEffect(s, ids, g);
    FirstStaysVisible(s, ids, g);
    JoinedEffective(s, ids, g);
    var e :| e in ids && e < first;
    assert ids[0] in ids;
    assert Effective(InsertMembers(s, ids, g), g) != Some(first);
    assert ShouldHide(InsertMembers(s, ids, g), first);
  }

  /** Adding keeps the flags right exactly when the stand-in is kept. */
  lemma JoiningKeepsFlagsExactly(s: Store, ids: seq<int>, g: int)
    requires Consistent(s) && Joinable(s, ids) && g in s.groups && ids != []
    ensures FlagsRight(InsertMembers(s, ids, g)) <==> StandInKept(s, g, ids)
  {
    if StandInKept(s, g, ids) {
      KeptStandInKeepsFlags(s, ids, g);
    } else {
      LostStandInBreaksFlags(s, ids, g);
    }
  }

  lemma OtherGroups(s: Store, t: Store, ids: seq<int>, g: int, h: int)
    requires UniquePaths(s) && Joinable(s, ids) && t == InsertMembers(s, ids, g) && h != g && h in s.groups
    ensures Effective(t, h) == Effective(s, h)
  {
    InsertEffect(s, ids, g);
    forall e ensures e in MembersOf(t, h) <==> e in MembersOf(s, h) {}
    EffectiveLocal(s, t, h);
  }

  ghost predicate Shown(s: Store, t: Store, joined: set<int>, g: int, first: int) {
    Joined(s, t, joined, g) && first in joined && Live(s, first) && !t.media[s.entities[first]]
  }

  lemma ShownStep(s: Store, m: Store, joined: set<int>, e: int, g: int, first: int)
    requires UniquePaths(s) && Shown(s, m, joined, g, first) && Live(s, e) && e !in joined && e !in s.members
    ensures Shown(s, InsertMember(m, e, g), joined + {e}, g, first)
  {
    JoinOne(s, m, joined, e, g);
    UntouchedFlag(m, e, g, first);
  }

  lemma FirstInsertedIsShown(s: Store, e: int, g: int)
    requires UniquePaths(s) && Live(s, e) && e !in s.members && g in s.groups
    requires !Live(s, s.groups[g].primary) && LiveMembers(s, g) == {}
    ensures Shown(s, InsertMember(s, e, g), {e}, g, e)
  {
    var t := InsertMember(s, e, g);
    InsertFlag(s, e, g);
    assert Joined(s, s, {}, g);
    JoinOne(s, s, {}, e, g);
    assert {} + {e} == {e};
    JoinedMembers(s, t, {e}, g);
    assert LiveMembers(t, g) == {e};
  }

  lemma InsertLast(s: Store, ids: seq<int>, g: int)
    requires Joinable(s, ids) && ids != []
    ensures InsertMembers(s, ids, g) == InsertMember(InsertMembers(s, ids[..|ids| - 1], g), ids[|ids| - 1], g)
    ensures Ids(ids) == Ids(ids[..|ids| - 1]) + {ids[|ids| - 1]}
    ensures Live(s, ids[|ids| - 1]) && ids[|ids| - 1] !in s.members
  {
    assert ids == ids[..|ids| - 1] + [ids[|ids| - 1]];
    assert ids[|ids| - 1] in ids;
  }

  /** Whoever is shown first while everything is missing is never hidden by later rows. */
  lemma {:induction false} FirstJoinedStays(s: Store, ids: seq<int>, g: int)
    requires UniquePaths(s) && Joinable(s, ids) && g in s.groups && ids != []
    requires !Live(s, s.groups[g].primary) && LiveMembers(s, g) == {}
    ensures Shown(s, InsertMembers(s, ids, g), Ids(ids), g, ids[0])
  {
    InsertLast(s, ids, g);
    var init, last := ids[..|ids| - 1], ids[|ids| - 1];
    JoinablePrefix(s, ids);
    if init == [] {
      FirstInsertedIsShown(s, last, g);
      assert Ids(ids) == {last};
    } else {
      FirstJoinedStays(s, init, g);
      ShownStep(s, InsertMembers(s, init, g), Ids(init), last, g, ids[0]);
    }
  }

  lemma FirstStaysVisible(s: Store, ids: seq<int>, g: int)
    requires Consistent(s) && Joinable(s, ids) && g in s.groups && ids != [] && !Live(s, s.groups[g].primary)
    ensures var first, t := FirstShown(s, g, ids), InsertMembers(s, ids, g);
      Live(s, first) && Live(t, first) && !t.media[s.entities[first]] && first in t.members && t.members[first] == g
  {
    var first := FirstShown(s, g, ids);
    InsertEffect(s, ids, g);
    assert ids[0] in ids && ids[..|ids|] == ids;
    if LiveMembers(s, g) != {} {
      assert first in LiveMembers(s, g) && Effective(s, g) == Some(first);
    } else {
      FirstJoinedStays(s, ids, g);
    }
  }

  /** The rest of the invariant after joining; `g` itself may have been created empty. */
  lemma JoiningKeepsShape(s: Store, ids: seq<int>, g: int)
    requires UniquePaths(s) && FreshIds(s) && MembersExist(s) && Joinable(s, ids) && g in s.groups
    requires 2 <= |MembersOf(s, g)| + |ids| <= MAX_GROUP_SIZE
    requires forall h | h in s.groups && h != g :: 2 <= |MembersOf(s, h)| <= MAX_GROUP_SIZE
    requires forall h | h in s.groups && s.groups[h].primary in s.entities ::
      || (s.groups[h].primary in s.members && s.members[s.groups[h].primary] == h)
      || (h == g && s.groups[h].primary in ids)
    ensures Shape(InsertMembers(s, ids, g))
  {
    var t := InsertMembers(s, ids, g);
    InsertEffect(s, ids, g);
    IdCount(ids);
    JoinedSizes(s, t, Ids(ids), g);
    JoinedPrimaries(s, t, Ids(ids), g);
    JoinedRest(s, t, Ids(ids), g);
  }

  lemma JoinedRest(s: Store, t: Store, joined: set<int>, g: int)
    requires Joined(s, t, joined, g) && g in s.groups && UniquePaths(s) && FreshIds(s) && MembersExist(s)
    requires forall e | e in joined :: Live(s, e)
    ensures UniquePaths(t) && FreshIds(t) && MembersExist(t)
  {
    forall e ensures Live(t, e) == Live(s, e) {}
  }

  lemma JoinedSizes(s: Store, t: Store, joined: set<int>, g: int)
    requires Joined(s, t, joined, g) && g in s.groups
    requires forall e | e in joined :: Live(s, e) && e !in s.members
    requires 2 <= |MembersOf(s, g)| + |joined| <= MAX_GROUP_SIZE
    requires forall h | h in s.groups && h != g :: 2 <= |MembersOf(s, h)| <= MAX_GROUP_SIZE
    ensures Sizes(t)
  {
    JoinedMembers(s, t, joined, g);
    assert MembersOf(s, g) !! joined;
    forall h | h in t.groups ensures 2 <= |MembersOf(t, h)| <= MAX_GROUP_SIZE {
      if h != g {
        assert MembersOf(t, h) == MembersOf(s, h);
      }
    }
  }

  lemma JoinedPrimaries(s: Store, t: Store, joined: set<int>, g: int)
    requires Joined(s, t, joined, g) && g in s.groups
    requires forall e | e in joined :: Live(s, e) && e !in s.members
    requires forall h | h in s.groups && s.groups[h].primary in s.entities ::
      || (s.groups[h].primary in s.members && s.members[s.groups[h].primary] == h)
      || (h == g && s.groups[h].primary in joined)
    ensures PrimaryIsMember(t)
  {
    forall h | h in t.groups && t.groups[h].primary in t.entities
      ensures t.groups[h].primary in t.members && t.members[t.groups[h].primary] == h
    {}
  }

  lemma IdCount(ids: seq<int>)
    requires forall i, j | 0 <= i < j < |ids| :: ids[i] != ids[j]
    ensures |Ids(ids)| == |ids|
  {
    if ids != [] {
      var init, last := ids[..|ids| - 1], ids[|ids| - 1];
      IdCount(init);
      assert Ids(ids) == Ids(init) + {last};
    }
  }

  // ---- leaving ----

  /** Deleting one member: the deleted row is shown, and either the rest is refreshed or the
      group is gone with the survivor's flag untouched. */
  lemma DeleteEffect(s: Store, e: int)
    requires UniquePaths(s) && MembersExist(s) && Sizes(s) && e in s.members
    ensures var g, t := s.members[e], DeleteMember(s, e);
      && t == s.(members := t.members, media := t.media, groups := t.groups)
      && t.media.Keys == s.media.Keys
      && (Live(s, e) ==> !t.media[s.entities[e]])
      && (forall x | Live(s, x) && x !in MembersOf(s, g) :: t.media[s.entities[x]] == s.media[s.entities[x]])
      && if |MembersOf(s, g)| == 2
         then t.groups == s.groups - {g} && t.members == s.members - MembersOf(s, g)
              && (forall x | Live(s, x) && x != e :: t.media[s.entities[x]] == s.media[s.entities[x]])
         else t.members == s.members - {e}
              && t.groups == s.groups[g := s.groups[g].(revision := s.groups[g].revision + 1)]
              && (forall x | Live(s, x) && x in MembersOf(t, g) ::
                   t.media[s.entities[x]] == (Effective(t, g) != Some(x)))
  {
    var g := s.members[e];
    var t := SetFlag(s.(members := s.members - {e}), e, false);
    var u := t.(groups := t.groups[g := t.groups[g].(revision := t.groups[g].revision + 1)]);
    hide Effective;
    assert MembersOf(u, g) == MembersOf(s, g) - {e};
    assert e in MembersOf(s, g);
    if |MembersOf(s, g)| == 2 {
      assert DeleteMember(s, e).groups == s.groups - {g};
      assert DeleteMember(s, e).members == s.members - MembersOf(s, g);
    } else {
      RefreshEffect(u, g);
      assert MembersOf(Refresh(u, g), g) == MembersOf(u, g);
    }
  }

  /** All of the invariant but the membership of chosen primaries. */
  ghost predicate InvButPrimary(s: Store) {
    UniquePaths(s) && FreshIds(s) && MembersExist(s) && Sizes(s) && FlagsRight(s)
  }

  /** Deleting keeps everything but the primaries, provided a lone survivor is already shown. */
  lemma DeleteKeeps(s: Store, e: int)
    requires InvButPrimary(s) && e in s.members
    requires forall h | h in s.groups && Live(s, s.groups[h].primary) ::
      s.groups[h].primary in s.members && s.members[s.groups[h].primary] == h
    requires !Live(s, e) || Effective(s, s.members[e]) != Some(e) || |LiveMembers(s, s.members[e])| == 1
      || |MembersOf(s, s.members[e])| > 2
    ensures InvButPrimary(DeleteMember(s, e))
  {
    DeleteElsewhere(s, e);
    DeleteSizes(s, e);
    DeleteFlags(s, e);
  }

  lemma DeleteElsewhere(s: Store, e: int)
    requires UniquePaths(s) && MembersExist(s) && Sizes(s) && e in s.members
    ensures forall h | h in DeleteMember(s, e).groups && h != s.members[e] ::
      MembersOf(DeleteMember(s, e), h) == MembersOf(s, h) && Effective(DeleteMember(s, e), h) == Effective(s, h)
  {
    var g, t := s.members[e], DeleteMember(s, e);
    DeleteEffect(s, e);
    forall h | h in t.groups && h != g
      ensures MembersOf(t, h) == MembersOf(s, h) && Effective(t, h) == Effective(s, h)
    {
      forall x ensures x in MembersOf(t, h) <==> x in MembersOf(s, h) {}
      EffectiveLocal(s, t, h);
    }
  }

  lemma DeleteSizes(s: Store, e: int)
    requires UniquePaths(s) && FreshIds(s) && MembersExist(s) && Sizes(s) && e in s.members
    ensures var t := DeleteMember(s, e); UniquePaths(t) && FreshIds(t) && MembersExist(t) && Sizes(t)
  {
    hide DeleteMember;
    hide Effective;
    hide LiveMembers;
    var g, t := s.members[e], DeleteMember(s, e);
    DeleteEffect(s, e);
    DeleteElsewhere(s, e);
    assert e in MembersOf(s, g);
    assert |MembersOf(s, g)| > 2 ==> MembersOf(t, g) == MembersOf(s, g) - {e};
  }

  lemma DeleteFlags(s: Store, e: int)
    requires InvButPrimary(s) && e in s.members
    requires forall h | h in s.groups && Live(s, s.groups[h].primary) ::
      s.groups[h].primary in s.members && s.members[s.groups[h].primary] == h
    requires !Live(s, e) || Effective(s, s.members[e]) != Some(e) || |LiveMembers(s, s.members[e])| == 1
      || |MembersOf(s, s.members[e])| > 2
    ensures FlagsRight(DeleteMember(s, e))
  {
    var g, t := s.members[e], DeleteMember(s, e);
    DeleteEffect(s, e);
    DeleteElsewhere(s, e);
    assert e in MembersOf(s, g);
    forall x | Live(t, x) ensures t.media[t.entities[x]] == ShouldHide(t, x) {
      assert Live(s, x);
      if x in MembersOf(s, g) && x != e && |MembersOf(s, g)| == 2 {
        LoneSurvivor(s, g, e, x);
      }
    }
  }

  /** In a pair the live member that stays is already the effective primary. */
  lemma LoneSurvivor(s: Store, g: int, e: int, x: int)
    requires MembersExist(s) && e in MembersOf(s, g) && x in MembersOf(s, g) && x != e && |MembersOf(s, g)| == 2
      && Live(s, x)
    requires Live(s, s.groups[g].primary) ==> s.groups[g].primary in MembersOf(s, g)
    requires !Live(s, e) || Effective(s, g) != Some(e) || |LiveMembers(s, g)| == 1
    ensures Effective(s, g) == Some(x)
  {
    assert MembersOf(s, g) == {e, x} by {
      assert |MembersOf(s, g) - {e} - {x}| == 0;
    }
    assert x in LiveMembers(s, g);
    if Live(s, e) {
      assert LiveMembers(s, g) == {e, x};
    } else {
      forall y | y in LiveMembers(s, g) ensures y == x {
        assert y in MembersOf(s, g);
      }
      assert LiveMembers(s, g) == {x};
    }
  }
}
