/** The invariant of image groups and what each trigger does to it. */
module ImageGroupInvariant {
  import opened FaceTables
  import opened ImageGroupTables

  ghost predicate UniquePaths(s: Store) {
    forall a, b | a in s.entities && b in s.entities && a != b :: s.entities[a] != s.entities[b]
  }

  /** Identities are handed out once and never reused. */
  ghost predicate FreshIds(s: Store) {
    && (forall e | e in s.entities :: e < s.nextEntity)
    && (forall g | g in s.groups :: g < s.nextGroup && s.groups[g].primary < s.nextEntity)
    && (forall e | e in s.retained :: e in s.entities && !Live(s, e))
  }

  ghost predicate MembersExist(s: Store) {
    forall e | e in s.members :: e in s.entities && s.members[e] in s.groups
  }

  ghost predicate Sizes(s: Store) {
    forall g | g in s.groups :: 2 <= |MembersOf(s, g)| <= MAX_GROUP_SIZE
  }

  /** A chosen primary that still exists belongs to its group. */
  ghost predicate PrimaryIsMember(s: Store) {
    forall g | g in s.groups && s.groups[g].primary in s.entities ::
      s.groups[g].primary in s.members && s.members[s.groups[g].primary] == g
  }

  /** Grouped and not the effective primary. */
  ghost predicate ShouldHide(s: Store, e: int) {
    e in s.members && Effective(s, s.members[e]) != Some(e)
  }

  /** Every live flag is what it should be. */
  ghost predicate FlagsRight(s: Store) {
    forall e | Live(s, e) :: s.media[s.entities[e]] == ShouldHide(s, e)
  }

  ghost predicate Inv(s: Store) {
    UniquePaths(s) && FreshIds(s) && MembersExist(s) && Sizes(s) && PrimaryIsMember(s) && FlagsRight(s)
  }

  /** Exactly one live member is shown: the effective primary. */
  ghost predicate OneVisible(s: Store, g: int) {
    && Effective(s, g).Some? && Effective(s, g).value in LiveMembers(s, g)
    && forall e | e in LiveMembers(s, g) :: s.media[s.entities[e]] == (e != Effective(s, g).value)
  }

  /** A group that has any live member shows exactly one. */
  lemma ExactlyOneVisible(s: Store, g: int)
    requires Inv(s) && g in s.groups && LiveMembers(s, g) != {}
    ensures OneVisible(s, g)
  {}

  /** The effective primary depends only on the group row, its members and their presence. */
  lemma EffectiveLocal(s: Store, t: Store, g: int)
    requires g in s.groups && g in t.groups && s.groups[g].primary == t.groups[g].primary
    requires MembersOf(s, g) == MembersOf(t, g)
    requires Live(s, s.groups[g].primary) == Live(t, s.groups[g].primary)
    requires forall e | e in MembersOf(s, g) :: Live(s, e) == Live(t, e)
    ensures Effective(s, g) == Effective(t, g)
  {
    assert LiveMembers(s, g) == LiveMembers(t, g) by {
      forall e ensures e in LiveMembers(s, g) <==> e in LiveMembers(t, g) {
        assert e in MembersOf(s, g) <==> e in MembersOf(t, g);
      }
    }
  }

  /** Refreshing rewrites exactly the flags of the live members of one group. */
  lemma RefreshEffect(s: Store, g: int)
    requires UniquePaths(s) && forall e | e in s.members :: e in s.entities
    ensures var t := Refresh(s, g);
      && t.media.Keys == s.media.Keys
      && (forall e | Live(s, e) :: t.media[s.entities[e]] ==
            if e in MembersOf(s, g) then Effective(s, g) != Some(e) else s.media[s.entities[e]])
      && (forall h :: Effective(t, h) == Effective(s, h))
  {
    var t := Refresh(s, g);
    forall e | Live(s, e)
      ensures t.media[s.entities[e]] ==
        if e in MembersOf(s, g) then Effective(s, g) != Some(e) else s.media[s.entities[e]]
    {
      assert s.entities[e] in MemberPaths(s, g) <==> e in MembersOf(s, g);
    }
    forall h ensures Effective(t, h) == Effective(s, h) {
      if h in s.groups {
        EffectiveLocal(s, t, h);
      }
    }
  }

  /** A refresh of `g` repairs `g` and disturbs nothing else. */
  lemma RefreshRepairs(s: Store, g: int)
    requires UniquePaths(s) && MembersExist(s)
    requires forall e | Live(s, e) && e !in MembersOf(s, g) :: s.media[s.entities[e]] == ShouldHide(s, e)
    ensures FlagsRight(Refresh(s, g))
  {
    RefreshEffect(s, g);
    var t := Refresh(s, g);
    forall e | Live(t, e) ensures t.media[t.entities[e]] == ShouldHide(t, e) {
      assert Live(s, e);
    }
  }

  // ---- choosing a primary ----

  lemma SetPrimaryKeeps(s: Store, g: int, e: int)
    requires Inv(s) && g in s.groups && e in s.members && s.members[e] == g
    ensures Inv(SetPrimary(s, g, e))
  {
    var t := s.(groups := s.groups[g := s.groups[g].(primary := e)]);
    forall h ensures MembersOf(t, h) == MembersOf(s, h) {}
    forall x | Live(t, x) && x !in MembersOf(t, g)
      ensures t.media[t.entities[x]] == ShouldHide(t, x)
    {
      assert Live(s, x);
      if x in t.members {
        EffectiveLocal(s, t, t.members[x]);
      }
    }
    RefreshRepairs(t, g);
    RefreshEffect(t, g);
    SameShape(t, Refresh(t, g));
  }

  /** The parts of the invariant that only look at ids, members and groups. */
  ghost predicate Shape(s: Store) {
    UniquePaths(s) && FreshIds(s) && MembersExist(s) && Sizes(s) && PrimaryIsMember(s)
  }

  lemma SameShape(s: Store, t: Store)
    requires Shape(s) && t == s.(media := t.media) && t.media.Keys == s.media.Keys
    ensures Shape(t)
  {
    forall g ensures MembersOf(t, g) == MembersOf(s, g) {}
  }

  // ---- originals come and go ----

  /** A row inserted again is flagged right exactly when its original is still grouped or the
      stored flag was clear. */
  lemma AppearFlags(s: Store, e: int, hidden: bool)
    requires Inv(s) && e in s.entities && !Live(s, e)
    ensures FlagsRight(Appear(s, e, hidden)) <==> e in s.members || !hidden
    ensures FlagsRight(Appear(s, e, hidden)) && e !in s.retained ==> Inv(Appear(s, e, hidden))
  {
    var t := s.(media := s.media[s.entities[e] := hidden]);
    forall x ensures Live(t, x) <==> Live(s, x) || x == e {}
    forall g ensures MembersOf(t, g) == MembersOf(s, g) {}
    forall g | g in s.groups && e !in MembersOf(s, g)
      ensures Effective(t, g) == Effective(s, g)
    {
      EffectiveLocal(s, t, g);
    }
    forall x | Live(t, x) && x != e && (e in s.members ==> x !in MembersOf(t, s.members[e]))
      ensures t.media[t.entities[x]] == ShouldHide(t, x)
    {}
    if e in s.members {
      RefreshRepairs(t, s.members[e]);
      RefreshEffect(t, s.members[e]);
    } else {
      assert Live(t, e) && t.media[t.entities[e]] == hidden;
    }
  }

  lemma VanishKeeps(s: Store, e: int)
    requires Inv(s) && Live(s, e)
    ensures Inv(Vanish(s, e))
  {
    var t := s.(retained := s.retained[e := s.media[s.entities[e]]], media := s.media - {s.entities[e]});
    forall x ensures Live(t, x) <==> Live(s, x) && x != e {}
    forall g ensures MembersOf(t, g) == MembersOf(s, g) {}
    forall g | g in s.groups && e !in MembersOf(s, g)
      ensures Effective(t, g) == Effective(s, g)
    {
      EffectiveLocal(s, t, g);
    }
    forall x | Live(t, x) && (e in s.members ==> x !in MembersOf(t, s.members[e]))
      ensures t.media[t.entities[x]] == ShouldHide(t, x)
    {}
    if e in s.members {
      RefreshRepairs(t, s.members[e]);
      RefreshEffect(t, s.members[e]);
    }
  }

  /** Restoring keeps the invariant exactly when the original is still grouped or its stored flag
      was clear: a group that dissolved in between leaves a stale flag behind. */
  lemma RestoreKeepsExactly(s: Store, e: int)
    requires Inv(s) && e in s.retained
    ensures Inv(Restore(s, e)) <==> e in s.members || !s.retained[e]
  {
    var t := s.(retained := s.retained - {e});
    forall g ensures MembersOf(t, g) == MembersOf(s, g) && Effective(t, g) == Effective(s, g) {
      if g in s.groups {
        EffectiveLocal(s, t, g);
      }
    }
    assert Inv(t);
    AppearFlags(t, e, s.retained[e]);
  }

  lemma NewOriginalKeeps(s: Store, path: string)
    requires Inv(s) && path !in s.media && forall e | e in s.entities :: s.entities[e] != path
    ensures Inv(NewOriginal(s, path))
  {
    var t := NewOriginal(s, path);
    forall x ensures Live(t, x) <==> Live(s, x) || x == s.nextEntity {}
    forall g ensures MembersOf(t, g) == MembersOf(s, g) {}
    forall g | g in s.groups ensures Effective(t, g) == Effective(s, g) {
      EffectiveLocal(s, t, g);
    }
  }
}
