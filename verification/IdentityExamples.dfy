/** A relocation that loses work: the duplicate at the target is private, so its manually named
    face is archived where the conflict query does not look. */
module IdentityExamples {
  import opened FolderRename
  import opened IdentityTables
  import opened IdentityInvariant
  import opened IdentityVanishing
  import opened IdentityRelocation

  const WORK := Face(2, "new/a", 5, true, false)

  const BEFORE := Store(
    map[1 := Entity("old/a", false, false), 2 := Entity("new/a", false, false)],
    map[1 := Media("old/a", false), 2 := Media("new/a", true)],
    map[], map[], map[9 := Kept(2, WORK)], 3, 10)

  const MOVE := Relocation("old", "new", [2], [1], map["new/a" := true], {"new/a"})

  lemma Names()
    ensures "old/a" != "new/a" && Unrelated("old", "new")
    ensures Under("old", "old/a") && !Under("old", "new/a") && Under("new", "new/a") && !Under("new", "old/a")
    ensures Moved("old", "new", "old/a") == "new/a"
  {
    assert "old/a"[0] != "new/a"[0];
    assert "old" + "/" == "old/" && "new" + "/" == "new/";
    assert "old/" <= "old/a" && "new/" <= "new/a";
    assert "new/a"[0] != "old/"[0] && "new"[0] != "old/"[0] && "old"[0] != "new/"[0] && "old/a"[0] != "new/"[0];
    assert "new" != "old/a" && "old" != "new/a" && "old" != "new";
    MatchesIsUnder("old", "old/a");
    assert "new" + "old/a"[3..] == "new/a";
  }

  lemma OneDuplicate()
    ensures Duplicates(BEFORE, "old", "new") == {2} && Planned(BEFORE, "old") == {1}
  {
    Names();
    assert IsCopyOf(BEFORE, "old", "new", 2, 1);
    assert forall e :: !IsCopyOf(BEFORE, "old", "new", 1, e);
  }

  lemma NoConflict()
    ensures !Conflict(BEFORE, MOVE, {})
  {}

  lemma BeforeIsRight()
    ensures Inv(BEFORE)
  {
    Names();
  }

  lemma BeforeIsSound()
    ensures Inv(BEFORE) && Relocatable(BEFORE, MOVE, {}) && Duplicates(BEFORE, "old", "new") == {2}
  {
    Names();
    OneDuplicate();
    NoConflict();
    BeforeIsRight();
    hide Inv;
    hide Conflict;
    assert Ids([2]) == {2} && Ids([1]) == {1};
    assert (set e | e in {1} && e in BEFORE.media && Moved("old", "new", BEFORE.entities[e].path) in MOVE.scan) == {1};
  }

  lemma ArchivedWorkIsLost()
    ensures Inv(BEFORE) && Relocatable(BEFORE, MOVE, {})
    ensures forall e | e in MOVE.rows :: e in Dropped(Cleared(BEFORE, MOVE), Planned(BEFORE, "old"), MOVE.scan).media
    ensures Lost(BEFORE, Relocate(BEFORE, MOVE), 9) && Edited(BEFORE, MOVE, {}, Account(BEFORE)[9])
  {
    hide Inv;
    hide Relocatable;
    hide Relocate;
    hide Dropped;
    hide Cleared;
    BeforeIsSound();
    RelocateKeeps(BEFORE, MOVE, {});
    assert 9 in Account(BEFORE) && Account(BEFORE)[9] == WORK;
    assert 9 !in Without(Account(BEFORE), {2});
  }
}
