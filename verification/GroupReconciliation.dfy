/** One group of the reconciliation: the exclusions from the tables, the decision, and the merge. */
module GroupReconciliation {
  import opened FaceTables
  import opened FaceRuntime
  import opened FaceCandidates
  import opened FaceDecisions
  import opened GroupMerges

  /** The rows that validation reads are live rows of the tables. */
  ghost predicate LiveRows(s: State, live: map<int, Live>) {
    forall id | id in live :: id in s.faces && s.faces[id].live && s.faces[id].person == live[id].person
  }

  function ActiveFaces(s: State, p: int): set<int> {
    set f | f in s.faces && s.faces[f].live && !s.faces[f].ignored && s.faces[f].person == p
  }

  /** The smallest active face of a group stands for it in the queue. */
  predicate StandsForGroup(s: State, source: int, face: int) {
    face in ActiveFaces(s, source) && forall f | f in ActiveFaces(s, source) :: face <= f
  }

  /** A target that is not excluded may be merged into. */
  lemma TargetIsAllowed(s: State, source: int, target: int, excluded: set<int>, live: map<int, Live>)
    requires GroupMerges.Sound(s) && LiveRows(s, live) && source in s.people
    requires forall p :: p in excluded <==> Vetoed(s, source, p)
    requires target !in excluded && exists id :: id in live && live[id].person == target
    ensures Allowed(s, [(source, target)]) && Run(s, [(source, target)]) == Merge(s, source, target)
  {
    hide Vetoed;
    var id :| id in live && live[id].person == target;
    assert s.faces[id].person in s.people;
    assert [(source, target)][1..] == [];
    assert Allowed(Merge(s, source, target), []);
    assert Run(Merge(s, source, target), []) == Merge(s, source, target);
  }

  /**
   * reconcileFaceGroup as a whole. Only the smallest active face of a group decides for it. What it decides is an
   * allowed merge, so a run of such calls is a run of allowed merges; whether the families fit and whether the group
   * may be moved at all is given.
   */
  method ReconcileGroup(tables: GroupTables, rt: Runtime, ghost e: map<int, Entry>, source: int, face: int,
                        named: set<int>, live: map<int, Live>, eligible: bool, familyConflict: bool,
                        similarity: real, margin: real)
    returns (target: Option<int>, moved: nat, ghost excluded: set<int>)
    requires rt.Shows(Rebuilt(e)) && GroupMerges.Sound(tables.db) && LiveRows(tables.db, live)
    requires source in tables.db.people
    modifies tables
    ensures forall p :: p in excluded <==> Vetoed(old(tables.db), source, p)
    ensures !StandsForGroup(old(tables.db), source, face) || !eligible ==> target.None?
    ensures StandsForGroup(old(tables.db), source, face) && eligible ==>
      DecidesInTurn(GroupMatches(rt, source, excluded, named, ConfirmedNamed, live),
                    GroupMatches(rt, source, excluded, named, UnconfirmedUnnamed, live), similarity, margin, target)
    ensures target.None? || familyConflict ==> tables.db == old(tables.db) && moved == 0
    ensures target.Some? && !familyConflict ==>
      && Allowed(old(tables.db), [(source, target.value)])
      && tables.db == Run(old(tables.db), [(source, target.value)])
      && moved == |Moving(old(tables.db).faces, source, true)|
  {
    hide DecidesInTurn;
    hide GroupMatches;
    hide Vetoed;
    hide Allowed;
    hide Run;
    hide Moving;
    hide Rebuilt;
    moved := 0;
    var exclusions := tables.ExcludedPeople(source);
    excluded := exclusions;
    if !StandsForGroup(tables.db, source, face) {
      return None, 0, excluded;
    }
    target := ReconcileFaceGroup(rt, e, source, exclusions, named, live, eligible, similarity, margin);
    if target.Some? {
      TargetIsAllowed(tables.db, source, target.value, exclusions, live);
      VetoCoversConflicts(tables.db, source, target.value);
      TargetExists(tables.db, target.value, live);
      var ok;
      ok, moved := tables.MergeAutomaticFaceGroup(source, target.value, familyConflict);
    }
  }

  lemma TargetExists(s: State, target: int, live: map<int, Live>)
    requires GroupMerges.Sound(s) && LiveRows(s, live) && exists id :: id in live && live[id].person == target
    ensures target in s.people
  {
    var id :| id in live && live[id].person == target;
    assert s.faces[id].person in s.people;
  }
}
