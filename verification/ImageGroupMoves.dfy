/** A folder move: media rows first, entities row by row with a refresh after each.  In between a
    moved group sees some of its members as missing; after the last one its flags are right. */
module ImageGroupMoves {
  import opened ImageGroupTables
  import opened ImageGroupInvariant
  import opened ImageGroupMembers

  /** One-to-one, into paths nobody uses. */
  ghost predicate Vacant(s: Store, rename: map<string, string>) {
    && Injective(rename)
    && forall p | p in rename ::
         rename[p] !in rename && rename[p] !in s.media && forall e | e in s.entities :: s.entities[e] != rename[p]
  }

  function FinalPath(s: Store, rename: map<string, string>, e: int): string
    requires e in s.entities
  {
    if s.entities[e] in rename then rename[s.entities[e]] else s.entities[e]
  }

  ghost predicate Pending(s: Store, rename: map<string, string>, moved: set<int>, e: int) {
    e in s.entities && s.entities[e] in rename && e !in moved
  }

  /** The state when the entities `moved` have been rewritten. */
  ghost predicate Underway(s: Store, t: Store, rename: map<string, string>, moved: set<int>) {
    && t == s.(entities := t.entities, media := t.media)
    && t.entities.Keys == s.entities.Keys
    && (forall e | e in s.entities ::
         t.entities[e] == if Pending(s, rename, moved, e) then s.entities[e] else FinalPath(s, rename, e))
    && (forall p | p in rename :: p !in t.media)
    && (forall e | e in s.entities :: FinalPath(s, rename, e) in t.media <==> Live(s, e))
  }

  /** Flags of ungrouped originals and of groups without pending members are right. */
  ghost predicate SettledFlags(s: Store, t: Store, rename: map<string, string>, moved: set<int>)
    requires Underway(s, t, rename, moved)
  {
    forall e | Live(s, e)
      && (e in s.members ==> forall x | x in MembersOf(s, s.members[e]) :: !Pending(s, rename, moved, x)) ::
      t.media[FinalPath(s, rename, e)] == ShouldHide(s, e)
  }

  lemma UnderwayFacts(s: Store, t: Store, rename: map<string, string>, moved: set<int>)
    requires Inv(s) && Vacant(s, rename) && Underway(s, t, rename, moved)
    ensures UniquePaths(t)
    ensures forall e | e in s.entities :: Live(t, e) <==> Live(s, e) && !Pending(s, rename, moved, e)
    ensures forall g :: MembersOf(t, g) == MembersOf(s, g)
  {}

  lemma MediaMoved(s: Store, rename: map<string, string>)
    requires Inv(s) && Vacant(s, rename)
    ensures Underway(s, MoveMedia(s, rename), rename, {}) && SettledFlags(s, MoveMedia(s, rename), rename, {})
  {
    var t := MoveMedia(s, rename);
    forall e | e in s.entities
      ensures FinalPath(s, rename, e) in t.media <==> Live(s, e)
      ensures Live(s, e) ==> t.media[FinalPath(s, rename, e)] == s.media[s.entities[e]]
    {
      if s.entities[e] in rename {
        var p := s.entities[e];
        assert rename[p] in t.media ==> exists q :: q in s.media && q in rename && rename[q] == rename[p];
      }
    }
  }

  /** A group whose members have all arrived sees the presence it had before the move. */
  lemma ArrivedEffective(s: Store, t: Store, rename: map<string, string>, moved: set<int>, g: int)
    requires Inv(s) && Vacant(s, rename) && Underway(s, t, rename, moved) && g in s.groups
    requires forall x | x in MembersOf(s, g) :: !Pending(s, rename, moved, x)
    ensures Effective(t, g) == Effective(s, g)
  {
    UnderwayFacts(s, t, rename, moved);
    var p := s.groups[g].primary;
    assert p in s.entities ==> p in MembersOf(s, g);
    EffectiveLocal(s, t, g);
  }

  lemma EntityMoved(s: Store, t: Store, rename: map<string, string>, moved: set<int>, e: int)
    requires Inv(s) && Vacant(s, rename) && Underway(s, t, rename, moved) && SettledFlags(s, t, rename, moved)
    requires Pending(s, rename, moved, e)
    ensures Underway(s, MoveEntity(t, e, rename), rename, moved + {e})
    ensures SettledFlags(s, MoveEntity(t, e, rename), rename, moved + {e})
  {
    var u := t.(entities := t.entities[e := rename[t.entities[e]]]);
    var after := moved + {e};
    forall x ensures Pending(s, rename, after, x) <==> Pending(s, rename, moved, x) && x != e {}
    assert Underway(s, u, rename, after);
    UnderwayFacts(s, u, rename, after);
    var v := MoveEntity(t, e, rename);
    if e in s.members {
      RefreshEffect(u, s.members[e]);
    }
    assert Underway(s, v, rename, after);
    UnderwayFacts(s, v, rename, after);
    forall x | Live(s, x)
      && (x in s.members ==> forall y | y in MembersOf(s, s.members[x]) :: !Pending(s, rename, after, y))
      ensures v.media[FinalPath(s, rename, x)] == ShouldHide(s, x)
    {
      FlagAfterMove(s, t, u, rename, moved, e, x);
    }
  }

  lemma FlagAfterMove(s: Store, t: Store, u: Store, rename: map<string, string>, moved: set<int>, e: int, x: int)
    requires Inv(s) && Vacant(s, rename) && Underway(s, t, rename, moved) && SettledFlags(s, t, rename, moved)
    requires Pending(s, rename, moved, e) && u == t.(entities := t.entities[e := rename[t.entities[e]]])
    requires Underway(s, u, rename, moved + {e})
    requires Live(s, x)
      && (x in s.members ==> forall y | y in MembersOf(s, s.members[x]) :: !Pending(s, rename, moved + {e}, y))
    ensures MoveEntity(t, e, rename).media[FinalPath(s, rename, x)] == ShouldHide(s, x)
  {
    UnderwayFacts(s, u, rename, moved + {e});
    if e in s.members {
      var g := s.members[e];
      RefreshEffect(u, g);
      if x in s.members {
        assert x in MembersOf(s, s.members[x]);
        if s.members[x] == g {
          ArrivedEffective(s, u, rename, moved + {e}, g);
          assert u.entities[x] == FinalPath(s, rename, x);
        } else {
          assert e !in MembersOf(s, s.members[x]);
          assert u.entities[x] == FinalPath(s, rename, x);
        }
      } else {
        UngroupedPath(s, u, rename, moved + {e}, g, x);
      }
    }
  }

  /** A refresh does not reach the row of an ungrouped original, wherever its entity is. */
  lemma UngroupedPath(s: Store, u: Store, rename: map<string, string>, moved: set<int>, g: int, x: int)
    requires Inv(s) && Vacant(s, rename) && Underway(s, u, rename, moved) && Live(s, x) && x !in s.members
    ensures Refresh(u, g).media[FinalPath(s, rename, x)] == u.media[FinalPath(s, rename, x)]
  {
    forall y | y in u.members && y in u.entities ensures u.entities[y] != FinalPath(s, rename, x) {
      assert x != y;
    }
    assert FinalPath(s, rename, x) !in MemberPaths(u, g);
  }

  lemma MoveLast(s: Store, order: seq<int>, rename: map<string, string>)
    requires Movable(s, order, rename) && order != []
    ensures var init, last := order[..|order| - 1], order[|order| - 1];
      && Movable(s, init, rename) && last in s.entities && s.entities[last] in rename && last !in Ids(init)
      && Ids(order) == Ids(init) + {last}
      && MoveEntities(s, order, rename) == MoveEntity(MoveEntities(s, init, rename), last, rename)
  {
    var init, last := order[..|order| - 1], order[|order| - 1];
    assert order == init + [last];
  }

  lemma {:induction false} EntitiesMoved(s: Store, rename: map<string, string>, order: seq<int>)
    requires Inv(s) && Vacant(s, rename) && Movable(MoveMedia(s, rename), order, rename)
    ensures var t := MoveEntities(MoveMedia(s, rename), order, rename);
      Underway(s, t, rename, Ids(order)) && SettledFlags(s, t, rename, Ids(order))
  {
    if order == [] {
      MediaMoved(s, rename);
    } else {
      var init, last := order[..|order| - 1], order[|order| - 1];
      MoveLast(MoveMedia(s, rename), order, rename);
      EntitiesMoved(s, rename, init);
      EntityMoved(s, MoveEntities(MoveMedia(s, rename), init, rename), rename, Ids(init), last);
    }
  }

  function MoveFolder(s: Store, rename: map<string, string>, order: seq<int>): Store
    requires Injective(rename) && Movable(MoveMedia(s, rename), order, rename)
  {
    MoveEntities(MoveMedia(s, rename), order, rename)
  }

  /** Whatever the order in which the entities follow, the move keeps the invariant and every
      original keeps its flag. */
  lemma MoveKeeps(s: Store, rename: map<string, string>, order: seq<int>)
    requires Inv(s) && Vacant(s, rename) && Movable(MoveMedia(s, rename), order, rename)
    requires forall e | e in s.entities && s.entities[e] in rename :: e in order
    ensures Inv(MoveFolder(s, rename, order))
    ensures forall e | Live(s, e) ::
      Live(MoveFolder(s, rename, order), e)
      && MoveFolder(s, rename, order).media[MoveFolder(s, rename, order).entities[e]] == s.media[s.entities[e]]
  {
    var t, moved := MoveFolder(s, rename, order), Ids(order);
    EntitiesMoved(s, rename, order);
    UnderwayFacts(s, t, rename, moved);
    forall e ensures !Pending(s, rename, moved, e) {}
    forall e ensures Live(t, e) <==> Live(s, e) {}
    forall g | g in s.groups ensures Effective(t, g) == Effective(s, g) {
      ArrivedEffective(s, t, rename, moved, g);
    }
    forall e | Live(s, e)
      ensures t.media[t.entities[e]] == ShouldHide(s, e) && s.media[s.entities[e]] == ShouldHide(s, e)
    {
      assert t.entities[e] == FinalPath(s, rename, e);
    }
  }
}
