/** The reconciliation worker on its own: it comes to rest. */
module ReconcileWorker {
  import opened Batches
  import opened ReconcileQueue

  class Worker {
    var db: State
    var people: nat               // rows of photo_people; each automatic merge removes one

    /** One batch without outside edits.  The size is clamped; a pass begins if none is running;
        at least one row is processed, and the time limit or a merged group may end the batch
        early. */
    method ReconcileFacesBatch(batchSize: int)
      returns (ghost middle: State, ghost size: nat, ghost processed: nat, ghost merged: bool)
      requires Inv(db) && db.work.None?
      modifies this
      ensures !old(db).row.pending ==> db == old(db) && people == old(people)
      ensures old(db).row.pending ==>
        && (if old(db).row.running then middle == old(db) else Step(old(db), Begin, middle))
        && Inv(middle) && size == (if batchSize < 1 then 1 else if batchSize > 100 then 100 else batchSize)
        && exists w :: Selected(middle, size, w) && Step(w, Commit(processed, merged), db)
      ensures Inv(db) && db.work.None?
      ensures merged ==> people == old(people) - 1
      ensures !merged ==> people == old(people)
    {
      middle, size, processed, merged := db, 1, 0, false;
      if !db.row.pending {
        return;
      }
      var limit: nat := if batchSize < 1 then 1 else if batchSize > 100 then 100 else batchSize;
      size := limit;
      if !db.row.running {
        BeginPass();
        middle := db;
      }
      var ids := FirstIds(Waiting(db), limit);
      ghost var before := db;
      db := db.(work := Some(Work(ids, limit)));
      assert Step(before, Select(limit), db);
      StepKeeps(before, Select(limit), db);
      var count, joined := 0, false;
      for i := 0 to |ids|
        invariant 0 <= count == i && !joined
        invariant people == old(people)
        invariant db == before.(work := Some(Work(ids, limit)))
      {
        if count > 0 {
          if * {
            break;
          }
        }
        count := count + 1;
        if * {
          if people > 1 {
            joined := true;
            people := people - 1;
            break;
          }
        }
      }
      processed, merged := count, joined;
      ghost var selected := db;
      assert Enabled(db, Commit(count, joined));
      db := Committed(db, count, joined);
      assert Step(selected, Commit(count, joined), db);
      StepKeeps(selected, Commit(count, joined), db);
      assert Selected(before, limit, selected);
    }

    /** Without outside edits the worker comes to rest: first the people, then the outstanding
        passes, then the distance to the upper bound get smaller. */
    method RunToRest(batchSize: int)
      requires Inv(db) && db.work.None?
      modifies this
      ensures !db.row.pending && Inv(db) && people <= old(people)
    {
      while db.row.pending
        invariant Inv(db) && db.work.None? && people <= old(people)
        decreases people, Outstanding(db.row), Left(db.row)
      {
        ghost var before := db;
        ghost var middle, size, processed, merged := ReconcileFacesBatch(batchSize);
        ghost var w :| Selected(middle, size, w) && Step(w, Commit(processed, merged), db);
        if !merged {
          BatchShrinks(before, middle, size, w, processed, db);
        }
      }
    }

    method BeginPass()
      requires Inv(db) && db.work.None? && db.row.pending && !db.row.running
      modifies `db
      ensures Step(old(db), Begin, db) && Inv(db)
    {
      var top := Largest(db.faces);
      ghost var before := db;
      db := db.(row := db.row.(running := true, runGeneration := db.row.generation, cursor := 0, upper := top),
                visited := [], stayed := Candidates(db.faces), added := {}, asked := false);
      assert Step(before, Begin, db);
      StepKeeps(before, Begin, db);
    }

    method Largest(faces: map<int, Flags>) returns (m: int)
      requires forall id | id in faces :: id > 0
      ensures IsMax(faces, m)
    {
      m := 0;
      var todo := faces.Keys;
      while todo != {}
        invariant todo <= faces.Keys
        invariant forall id | id in faces && id !in todo :: id <= m
        invariant m >= 0 && (m > 0 ==> m in faces) && (todo != faces.Keys ==> m > 0)
        decreases todo
      {
        var id := Smallest(todo);
        todo := todo - {id};
        if id > m {
          m := id;
        }
      }
    }
  }

  ghost predicate Selected(s: State, size: nat, w: State) {
    Step(s, Select(size), w)
  }

  /** Passes still to come: none, the running one, a whole one, or the running one and another. */
  function Outstanding(row: Row): nat {
    if !row.pending then 0
    else if !row.running then 2
    else if row.generation == row.runGeneration then 1
    else 3
  }

  function Left(row: Row): nat {
    if row.running && row.upper > row.cursor then row.upper - row.cursor else 0
  }

  lemma BatchShrinks(s: State, middle: State, size: nat, w: State, processed: nat, t: State)
    requires Inv(s) && s.work.None? && s.row.pending && Inv(middle)
    requires if s.row.running then middle == s else Step(s, Begin, middle)
    requires Selected(middle, size, w) && Step(w, Commit(processed, false), t)
    ensures Outstanding(t.row) < Outstanding(s.row)
      || (Outstanding(t.row) == Outstanding(s.row) && Left(t.row) < Left(s.row))
  {
    StepKeeps(middle, Select(size), w);
    var ids := w.work.value.ids;
    if processed > 0 {
      assert ids[processed - 1] in ids;
    }
  }
}
