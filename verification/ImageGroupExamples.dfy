/** Concrete runs that break the flags when a careful condition is ignored. */
module ImageGroupExamples {
  import opened FaceTables
  import opened ImageGroupTables
  import opened ImageGroupInvariant
  import opened ImageGroupMembers
  import opened ImageGroupLeaving
  import opened ImageGroups

  const THREE: map<int, string> := map[1 := "a", 2 := "b", 3 := "c"]

  lemma ThreePaths()
    ensures "a" != "b" && "a" != "c" && "b" != "c"
  {
    assert "a"[0] != "b"[0] && "a"[0] != "c"[0] && "b"[0] != "c"[0];
  }

  const STANDIN :=
    Store(THREE, map["a" := false, "c" := false], map[7 := Group(2, 1)], map[2 := 7, 3 := 7], map[], 4, 8)

  lemma StandInIsSound()
    ensures Inv(STANDIN) && MembersOf(STANDIN, 7) == {2, 3} && LiveMembers(STANDIN, 7) == {3}
  {
    ThreePaths();
    assert MembersOf(STANDIN, 7) == {2, 3} && LiveMembers(STANDIN, 7) == {3};
  }

  /** The chosen primary 2 is missing, 3 stands in; adding 1 shows 1 and 3. */
  lemma AddingBelowStandInShowsTwo() returns (s: Store, t: Store)
    ensures Inv(s) && Possible(s, Add(7, 1, [1])) && Accepted(s, Add(7, 1, [1])) && t == Next(s, Add(7, 1, [1]))
    ensures LiveMembers(t, 7) == {1, 3} && "a" in t.media && !t.media["a"] && "c" in t.media && !t.media["c"]
  {
    ThreePaths();
    StandInIsSound();
    s := STANDIN;
    assert Joinable(s, [1]);
    t := Added(s, 7, [1]);
    var u := NextRevision(s, 7);
    assert t == InsertMember(u, 1, 7);
    var v := u.(members := u.members[1 := 7]);
    assert LiveMembers(v, 7) == {1, 3};
    assert LiveMembers(t, 7) == {1, 3};
  }

  const TRIO :=
    Store(THREE,
    map["b" := false, "c" := true], map[7 := Group(1, 1)], map[1 := 7, 2 := 7, 3 := 7], map[1 := false], 4, 8)

  lemma TrioMembers()
    ensures MembersOf(TRIO, 7) == {1, 2, 3} && LiveMembers(TRIO, 7) == {2, 3} && Effective(TRIO, 7) == Some(2)
  {
    ThreePaths();
    assert MembersOf(TRIO, 7) == {1, 2, 3} && LiveMembers(TRIO, 7) == {2, 3};
  }

  lemma TrioFlags()
    ensures FlagsRight(TRIO)
  {
    ThreePaths();
    TrioMembers();
    hide Effective;
  }

  lemma TrioShape()
    ensures UniquePaths(TRIO) && FreshIds(TRIO) && MembersExist(TRIO) && Sizes(TRIO) && PrimaryIsMember(TRIO)
  {
    ThreePaths();
    TrioMembers();
    hide MembersOf;
  }

  lemma TrioIsSound()
    ensures Inv(TRIO)
  {
    TrioFlags();
    TrioShape();
    hide UniquePaths;
    hide FlagsRight;
    hide Sizes;
  }

  const PAIR := Store(THREE, map["a" := false, "b" := true], map[7 := Group(1, 1)], map[1 := 7, 2 := 7], map[], 4, 8)

  lemma PairIsSound()
    ensures Inv(PAIR) && MembersOf(PAIR, 7) == {1, 2} && LiveMembers(PAIR, 7) == {1, 2}
  {
    ThreePaths();
    assert MembersOf(PAIR, 7) == {1, 2} && LiveMembers(PAIR, 7) == {1, 2};
  }

  /** The missing chosen primary 1 of a group of three may be removed by request ... */
  lemma RemovingMissingPrimary() returns (s: Store, d: Store)
    ensures Inv(s) && Possible(s, Apply(7, 1, 1, Remove, [])) && Accepted(s, Apply(7, 1, 1, Remove, []))
    ensures d == Next(s, Apply(7, 1, 1, Remove, []))
    ensures d.entities == THREE && d.groups.Keys == {7} && d.groups[7].primary == 1 && d.members == map[2 := 7, 3 := 7]
    ensures d.media.Keys == {"b", "c"} && d.retained == map[1 := false]
  {
    s := TRIO;
    TrioIsSound();
    TrioMembers();
    TrioKeepsPrimary();
    hide Inv;
    hide DeleteMember;
    hide Effective;
    hide RemoveMember;
    d := DeleteMember(NextRevision(TRIO, 7), 1);
    TrioWithoutFirst(d);
  }

  lemma NextOfTrio()
    ensures var r := NextRevision(TRIO, 7);
      && UniquePaths(r) && MembersExist(r) && Sizes(r) && MembersOf(r, 7) == {1, 2, 3}
      && r.entities == THREE && r.members == TRIO.members && r.media == TRIO.media && r.retained == TRIO.retained
      && r.groups.Keys == {7} && r.groups[7].primary == 1
  {
    hide UniquePaths;
    hide FlagsRight;
    TrioIsSound();
    TrioMembers();
    NextRevisionKeeps(TRIO, 7);
  }

  lemma TrioWithoutFirst(d: Store)
    requires d == DeleteMember(NextRevision(TRIO, 7), 1)
    ensures d.entities == THREE && d.groups.Keys == {7} && d.groups[7].primary == 1 && d.members == map[2 := 7, 3 := 7]
    ensures d.media.Keys == {"b", "c"} && d.retained == map[1 := false]
  {
    hide DeleteMember;
    hide NextRevision;
    hide Effective;
    hide UniquePaths;
    hide MembersExist;
    hide Sizes;
    NextOfTrio();
    DeleteEffect(NextRevision(TRIO, 7), 1);
    assert d.members == map[2 := 7, 3 := 7];
  }

  /** The shown member 2 is not the one that leaves, so no successor is chosen. */
  lemma TrioKeepsPrimary()
    ensures Acted(TRIO, 7, 1, Remove, []) == DeleteMember(NextRevision(TRIO, 7), 1)
  {
    hide DeleteMember;
    TrioMembers();
    var r := NextRevision(TRIO, 7);
    assert LiveMembers(r, 7) == LiveMembers(TRIO, 7);
    assert r.groups[7].primary == 1 && ReadPrimary(r, 7) == 2;
  }

  /** ... but then its original returns, 3 vanishes, and the refresh hides 2, the only live member. */
  lemma RemovedPrimaryReturns(d: Store) returns (b: Store, t: Store)
    requires d.entities == THREE && d.groups.Keys == {7} && d.groups[7].primary == 1 && d.members == map[2 := 7, 3 := 7]
    requires d.media.Keys == {"b", "c"} && d.retained == map[1 := false]
    ensures MembersExist(d) && Possible(d, Returns(1)) && b == Next(d, Returns(1))
    ensures MembersExist(b) && Possible(b, Vanishes(3)) && t == Next(b, Vanishes(3))
    ensures LiveMembers(t, 7) == {2} && "b" in t.media && t.media["b"]
  {
    ThreePaths();
    b := Next(d, Returns(1));
    assert b.media.Keys == {"a", "b", "c"};
    t := Next(b, Vanishes(3));
    var v := b.(retained := b.retained[3 := b.media["c"]], media := b.media - {"c"});
    assert MembersOf(v, 7) == {2, 3} && LiveMembers(v, 7) == {2};
    DanglingPrimaryHidesAll(v, 7);
    assert LiveMembers(t, 7) == {2};
  }

  /** 2 vanishes while hidden, its pair dissolves, 2 returns: hidden although ungrouped. */
  lemma ReturningAfterDissolveStaysHidden() returns (s: Store, v: Store, d: Store, t: Store)
    ensures Inv(s) && Possible(s, Vanishes(2)) && v == Next(s, Vanishes(2)) && Inv(v)
    ensures Possible(v, Apply(7, 1, 2, Dissolve, [1, 2])) && Accepted(v, Apply(7, 1, 2, Dissolve, [1, 2]))
    ensures d == Next(v, Apply(7, 1, 2, Dissolve, [1, 2])) && Inv(d)
    ensures Possible(d, Returns(2)) && t == Next(d, Returns(2))
    ensures 2 !in t.members && "b" in t.media && t.media["b"]
  {
    s := PAIR;
    PairIsSound();
    VanishKeeps(s, 2);
    v := Vanish(s, 2);
    assert v.retained == map[2 := true] && v.members == s.members && v.groups == s.groups;
    d := DissolvePair(v);
    t := Restore(d, 2);
  }

  lemma DissolvePair(v: Store) returns (d: Store)
    requires Inv(v) && v.groups == map[7 := Group(1, 1)] && v.members == map[1 := 7, 2 := 7]
    ensures Possible(v, Apply(7, 1, 2, Dissolve, [1, 2])) && Accepted(v, Apply(7, 1, 2, Dissolve, [1, 2]))
    ensures d == Next(v, Apply(7, 1, 2, Dissolve, [1, 2])) && Inv(d)
    ensures 2 !in d.members && d.retained == v.retained && d.entities == v.entities
  {
    assert ListsMembers(v, 7, [1, 2]);
    NextRevisionKeeps(v, 7);
    var r := NextRevision(v, 7);
    DissolveKeeps(r, 7, [1, 2]);
    d := DissolveGroup(r, 7, [1, 2]);
    DissolveEffect(r.(groups := r.groups - {7}), 7, [1, 2]);
    assert 2 in Ids([1, 2]);
  }
}
