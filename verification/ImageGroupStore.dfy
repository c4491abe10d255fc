/** The image group operations as transactions that change the store step by step. */
module ImageGroupStore {
  import opened ImageGroupTables
  import opened ImageGroupInvariant
  import opened ImageGroupMembers
  import opened ImageGroupLeaving
  import opened ImageGroups
  import opened ImageGroupEffects

  class GroupStore {
    var db: Store

    constructor (db: Store)
      ensures this.db == db
    {
      this.db := db;
    }

    /** One statement for all rows; the trigger runs after each. */
    method InsertRows(g: int, ids: seq<int>)
      requires Joinable(db, ids)
      modifies this
      ensures db == InsertMembers(old(db), ids, g)
    {
      ghost var start := db;
      assert forall e | e in ids :: e in start.entities;
      for i := 0 to |ids|
        invariant db.entities == start.entities
        invariant forall e | e in ids[..i] :: e in start.entities
        invariant db == InsertMembers(start, ids[..i], g)
      {
        assert ids[i] in ids;
        assert ids[..i + 1][..i] == ids[..i];
        db := InsertMember(db, ids[i], g);
      }
      assert ids[..|ids|] == ids;
    }

    method CreateImageGroup(ids: seq<int>, primary: int) returns (r: Reply<int>)
      requires Inv(db)
      modifies this
      ensures Inv(db)
      ensures r.Done? <==> 2 <= |ids| <= MAX_GROUP_SIZE && Joinable(old(db), ids) && primary in ids
      ensures r.Done? ==> r.value == old(db).nextGroup && db == Created(old(db), ids, primary)
      ensures r.Done? ==> GroupCreated(old(db), db, ids, primary)
      ensures r.Failed? ==> db == old(db)
      ensures r == Failed(Conflict) ==> exists e :: e in ids && e in old(db).members
    {
      var selected := Selection(db, ids, 2);
      if primary !in ids && (selected.Done? || selected.error.Conflict?) {
        return Failed(Invalid);
      }
      if selected.Failed? {
        return Failed(selected.error);
      }
      CreateKeeps(db, ids, primary);
      CreatingEffect(db, ids, primary);
      hide GroupCreated;
      EmptyGroupFacts(db, primary);
      var g := db.nextGroup;
      db := SetPrimary(EmptyGroup(db, 0), g, primary);
      InsertRows(g, ids);
      r := Done(g);
    }

    method AddImageGroupMembers(g: int, revision: int, ids: seq<int>) returns (r: Reply<()>)
      requires Inv(db)
      modifies this
      ensures r.Done? <==> AddAccepted(old(db), g, revision, ids)
      ensures r.Done? ==> db == Added(old(db), g, ids) && (Inv(db) <==> StandInKept(old(db), g, ids))
      ensures r.Done? ==> MembersAdded(old(db), db, g, ids)
      ensures r.Failed? ==> db == old(db)
      ensures !CurrentRevision(old(db), g, revision) && 0 < |ids| <= MAX_GROUP_SIZE && Joinable(old(db), ids) ==>
        r == Failed(Conflict)
    {
      if revision < 1 {
        return Failed(Conflict);
      }
      var selected := Selection(db, ids, 1);
      if selected.Failed? && !selected.error.Conflict? {
        return Failed(if selected.error.Invalid? then AddInvalid else selected.error);
      }
      if !CurrentRevision(db, g, revision) {
        return Failed(Conflict);
      }
      if |MembersOf(db, g)| + |ids| > MAX_GROUP_SIZE {
        return Failed(AddInvalid);
      }
      if selected.Failed? {
        return Failed(Conflict);
      }
      AddKeeps(db, g, ids);
      AddingEffect(db, g, ids);
      hide MembersAdded;
      db := NextRevision(db, g);
      InsertRows(g, ids);
      r := Done(());
    }

    /** Returns whether the group still exists. */
    method ApplyImageGroupAction(g: int, revision: int, e: int, action: Action, order: seq<int>)
      returns (r: Reply<bool>)
      requires Inv(db)
      requires action.Dissolve? ==> ListsMembers(db, g, order)
      modifies this
      ensures r.Done? <==> ActionAccepted(old(db), g, revision, e, action)
      ensures r.Done? ==> db == Acted(old(db), g, e, action, order) && r.value == (g in db.groups)
      ensures r.Done? ==> (Inv(db) <==> action.Remove? ==> Removable(old(db), g, e))
      ensures r.Done? && action.MakePrimary? ==> PrimaryChosen(old(db), db, g, e)
      ensures r.Done? && action.Remove? ==> MemberRemoved(old(db), db, g, e)
      ensures r.Done? && action.Dissolve? ==> GroupDissolved(old(db), db, g)
      ensures r.Done? && action.Remove? ==> r.value == (|MembersOf(old(db), g)| > 2)
      ensures r.Failed? ==> db == old(db)
      ensures !CurrentRevision(old(db), g, revision) ==> r == Failed(Conflict)
    {
      if !CurrentRevision(db, g, revision) {
        return Failed(Conflict);
      }
      var found, live := e in MembersOf(db, g), e in LiveMembers(db, g);
      if !action.Dissolve? && (!found || (action.MakePrimary? && !live)) {
        return Failed(Invalid);
      }
      ActionKeeps(db, g, e, action, order);
      ActionEffect(db, g, e, action, order);
      hide PrimaryChosen;
      hide MemberRemoved;
      hide GroupDissolved;
      NextRevisionKeeps(db, g);
      ghost var before := NextRevision(db, g);
      db := NextRevision(db, g);
      match action {
        case MakePrimary =>
          db := SetPrimary(db, g, e);
        case Remove =>
          var others := LiveMembers(db, g) - {e};
          if ReadPrimary(db, g) == e && others != {} {
            SetPrimaryKeeps(db, g, Minimum(others));
            db := SetPrimary(db, g, Minimum(others));
          }
          DeleteEffect(db, e);
          assert MembersOf(db, g) == MembersOf(before, g);
          db := DeleteMember(db, e);
        case Dissolve =>
          db := db.(groups := db.groups - {g});
          DeleteRows(g, order);
      }
      r := Done(g in db.groups);
    }

    /** The group row is gone; the rows of its members follow in any order. */
    method DeleteRows(g: int, order: seq<int>)
      requires g !in db.groups
      requires forall i, j | 0 <= i < j < |order| :: order[i] != order[j]
      requires forall e | e in order :: e in db.members && e in db.entities && db.members[e] == g
      modifies this
      ensures db == DeleteMembers(old(db), order)
    {
      ghost var start := db;
      for i := 0 to |order|
        invariant forall e | e in order[..i] ::
          e in start.members && e in start.entities && start.members[e] !in start.groups
        invariant db == DeleteMembers(start, order[..i])
      {
        assert order[i] in order && order[i] !in order[..i];
        assert order[..i + 1] == order[..i] + [order[i]];
        db := DeleteMember(db, order[i]);
      }
      assert order[..|order|] == order;
    }
  }
}
