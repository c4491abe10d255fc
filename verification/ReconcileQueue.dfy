/** The resumable reconciliation queue: one row of counters, a cursor over face ids, and edits from
    outside between any two steps. */
module ReconcileQueue {
  import opened Batches

  datatype Option<+T> = None | Some(value: T)

  datatype Flags = Flags(manual: bool, ignored: bool, favorite: bool)

  /** photo_face_reconciliation. */
  datatype Row = Row(pending: bool, running: bool, generation: nat, runGeneration: nat, cursor: int, upper: int)

  /** What a batch has read and not yet committed; the cursor and bound are those it read. */
  datatype Work = Work(ids: seq<int>, size: nat)

  /** `visited`, `stayed`, `added` and `asked` only record what happened since the pass began. */
  datatype State = State(
    faces: map<int, Flags>, row: Row, work: Option<Work>,
    visited: seq<int>, stayed: set<int>, added: set<int>, asked: bool)

  datatype Event =
    | Begin
    | Select(size: nat)
    | Commit(processed: nat, merged: bool)
    | Abandon
    | Request
    | Restart(forget: bool)
    | Edit(id: int, flags: Flags, moved: bool)
    | Appear(id: int, flags: Flags)
    | Vanish(id: int)
    | ChangePerson

  predicate Candidate(faces: map<int, Flags>, id: int) {
    id in faces && faces[id] == Flags(false, false, false)
  }

  function Candidates(faces: map<int, Flags>): set<int> {
    set id | id in faces && Candidate(faces, id)
  }

  /** The rows the batch query may return. */
  function Waiting(s: State): set<int> {
    set id | id in s.faces && Candidate(s.faces, id) && s.row.cursor < id <= s.row.upper
  }

  /** The trigger on photo_faces. */
  predicate Announced(before: Flags, after: Flags, moved: bool) {
    after != before || (moved && (after.manual || before.manual))
  }

  function Bump(row: Row): Row {
    row.(pending := true, generation := row.generation + 1)
  }

  ghost predicate IsMax(faces: map<int, Flags>, m: int) {
    (forall id | id in faces :: id <= m) && (faces == map[] ==> m == 0) && (faces != map[] ==> m in faces)
  }

  /** Where the cursor goes after a batch. */
  function NextCursor(s: State, w: Work, processed: nat): int
    requires processed <= |w.ids|
  {
    if processed > 0 && (processed < |w.ids| || |w.ids| == w.size) then w.ids[processed - 1] else s.row.upper
  }

  ghost predicate Enabled(s: State, e: Event) {
    match e
    case Begin => s.row.pending && !s.row.running && s.work.None?
    case Select(size) => s.row.running && s.work.None? && 1 <= size <= 100
    case Commit(processed, merged) =>
      && s.work.Some? && processed <= |s.work.value.ids|
      && (s.work.value.ids != [] ==> processed > 0) && (merged ==> processed > 0)
    case Abandon => s.work.Some?
    case Request => true
    case Restart(_) => s.work.None?
    case Edit(id, _, _) => id in s.faces
    case Appear(id, _) => id !in s.faces && id > 0
    case Vanish(id) => id in s.faces
    case ChangePerson => true
  }

  ghost predicate Step(s: State, e: Event, t: State) {
    && Enabled(s, e)
    && match e
       case Begin =>
         && t == s.(row := t.row, visited := [], stayed := Candidates(s.faces), added := {}, asked := false)
         && t.row == s.row.(running := true, runGeneration := s.row.generation, cursor := 0, upper := t.row.upper)
         && IsMax(s.faces, t.row.upper)
       case Select(size) =>
         t.work.Some? && t == s.(work := Some(Work(t.work.value.ids, size))) && IsBatch(t.work.value, Waiting(s))
       case Commit(processed, merged) => t == Committed(s, processed, merged)
       case Abandon => t == s.(work := None)
       case Request => t == s.(row := Bump(s.row), asked := true)
       case Restart(forget) =>
         var row := Bump(s.row).(running := false, cursor := 0);
         t == s.(row := if forget then row.(runGeneration := 0, upper := 0) else row, asked := true)
       case Edit(id, flags, moved) => t == Edited(s, id, flags, moved)
       case Appear(id, flags) => t == s.(faces := s.faces[id := flags], added := s.added + {id})
       case Vanish(id) => t == s.(faces := s.faces - {id}, stayed := s.stayed - {id})
       case ChangePerson => t == s.(row := Bump(s.row), asked := true)
  }

  /** ORDER BY id LIMIT size. */
  ghost predicate IsBatch(w: Work, waiting: set<int>) {
    && Ascending(w.ids) && |w.ids| <= w.size
    && (forall id | id in w.ids :: id in waiting)
    && (forall x, y | x in w.ids && y in waiting && y !in w.ids :: x < y)
    && (|w.ids| < w.size ==> forall id | id in waiting :: id in w.ids)
  }

  function Edited(s: State, id: int, flags: Flags, moved: bool): State
    requires id in s.faces
  {
    var loud := Announced(s.faces[id], flags, moved);
    s.(faces := s.faces[id := flags],
      stayed := if flags == Flags(false, false, false) then s.stayed else s.stayed - {id},
       row := if loud then Bump(s.row) else s.row, asked := s.asked || loud)
  }

  /** The final UPDATE of a batch; a merge has raised the generation in the same transaction. */
  function Committed(s: State, processed: nat, merged: bool): State
    requires s.work.Some? && processed <= |s.work.value.ids|
  {
    var cursor := NextCursor(s, s.work.value, processed);
    var generation := if merged then s.row.generation + 1 else s.row.generation;
    var finished := cursor >= s.row.upper;
    s.(row := s.row.(cursor := cursor, generation := generation, running := !finished,
                     pending := if finished then generation != s.row.runGeneration else true),
       work := None, visited := s.visited + s.work.value.ids[..processed], asked := s.asked || merged)
  }

  // ---- what always holds ----

  ghost predicate RowRight(s: State) {
    && s.row.runGeneration <= s.row.generation
    && (s.row.running ==> s.row.pending)
    && (s.asked ==> s.row.pending)
    && (s.row.running && s.asked ==> s.row.generation > s.row.runGeneration)
    && (s.work.Some? ==> s.row.running)
  }

  ghost predicate PassRight(s: State) {
    && Ascending(s.visited)
    && (forall id | id in s.visited :: id <= s.row.cursor && id <= s.row.upper)
    && (forall id | id in s.stayed :: Candidate(s.faces, id) && id <= s.row.upper)
    && (forall id | id in s.stayed && id <= s.row.cursor :: id in s.visited)
    && s.row.cursor <= s.row.upper
    && (forall id | Candidate(s.faces, id) :: id in s.stayed || id in s.added || s.asked)
  }

  ghost predicate WorkRight(s: State)
    requires s.work.Some?
  {
    var w := s.work.value;
    && Ascending(w.ids) && |w.ids| <= w.size && 0 < w.size
    && (forall id | id in w.ids :: s.row.cursor < id <= s.row.upper)
    && (forall x, y | x in w.ids && y in s.stayed && y > s.row.cursor && y !in w.ids :: x < y)
    && (|w.ids| < w.size ==> forall id | id in s.stayed && id > s.row.cursor :: id in w.ids)
  }

  ghost predicate Inv(s: State) {
    && RowRight(s)
    && (s.row.running ==> PassRight(s))
    && (s.work.Some? ==> WorkRight(s))
    && forall id | id in s.faces :: id > 0
  }

  lemma CommitKeepsPass(s: State, processed: nat, merged: bool)
    requires Inv(s) && Enabled(s, Commit(processed, merged))
    ensures PassRight(Committed(s, processed, merged))
  {
    var w, t := s.work.value, Committed(s, processed, merged);
    var done := w.ids[..processed];
    forall x, y | x in s.visited && y in done ensures x < y {
      assert y in w.ids;
    }
    AppendAscending(s.visited, done);
    forall id | id in done ensures id <= t.row.cursor && id in w.ids {
      var i :| 0 <= i < |done| && done[i] == id;
      assert w.ids[i] == id && w.ids[i] in w.ids;
      assert i < processed - 1 ==> w.ids[i] < w.ids[processed - 1];
    }
    forall id | id in s.stayed && id <= t.row.cursor ensures id in t.visited {
      if id > s.row.cursor {
        StayedIsDone(s, processed, id);
      }
    }
    assert processed > 0 ==> w.ids[processed - 1] in w.ids;
  }

  /** A face that stayed and is passed by the cursor is among the processed rows. */
  lemma StayedIsDone(s: State, processed: nat, id: int)
    requires Inv(s) && s.work.Some? && processed <= |s.work.value.ids| && (s.work.value.ids != [] ==> processed > 0)
    requires id in s.stayed && s.row.cursor < id <= NextCursor(s, s.work.value, processed)
    ensures id in s.work.value.ids[..processed]
  {
    var w := s.work.value;
    if processed > 0 && (processed < |w.ids| || |w.ids| == w.size) {
      assert w.ids[processed - 1] in w.ids;
      var i :| 0 <= i < |w.ids| && w.ids[i] == id;
      assert w.ids[..processed][i] == id;
    } else {
      assert w.ids[..processed] == w.ids;
    }
  }

  lemma BeginKeeps(s: State, t: State)
    requires Inv(s) && Step(s, Begin, t)
    ensures Inv(t)
  {}

  lemma SelectKeeps(s: State, size: nat, t: State)
    requires Inv(s) && Step(s, Select(size), t)
    ensures Inv(t)
  {}

  lemma CommitKeeps(s: State, processed: nat, merged: bool)
    requires Inv(s) && Enabled(s, Commit(processed, merged))
    ensures Inv(Committed(s, processed, merged))
  {
    CommitKeepsPass(s, processed, merged);
    hide PassRight;
  }

  lemma EditKeeps(s: State, id: int, flags: Flags, moved: bool)
    requires Inv(s) && id in s.faces
    ensures Inv(Edited(s, id, flags, moved))
  {}

  lemma FacesKeep(s: State, e: Event, t: State)
    requires Inv(s) && Step(s, e, t) && (e.Appear? || e.Vanish?)
    ensures Inv(t)
  {}

  lemma RowKeeps(s: State, e: Event, t: State)
    requires Inv(s) && Step(s, e, t) && (e.Abandon? || e.Request? || e.Restart? || e.ChangePerson?)
    ensures Inv(t)
  {}

  lemma StepKeeps(s: State, e: Event, t: State)
    requires Inv(s) && Step(s, e, t)
    ensures Inv(t)
  {
    hide Inv;
    match e
    case Begin => BeginKeeps(s, t);
    case Select(size) => SelectKeeps(s, size, t);
    case Commit(processed, merged) => CommitKeeps(s, processed, merged);
    case Edit(id, flags, moved) => EditKeeps(s, id, flags, moved);
    case Appear(_, _) => FacesKeep(s, e, t);
    case Vanish(_) => FacesKeep(s, e, t);
    case _ => RowKeeps(s, e, t);
  }

  /** An edit asks for a pass exactly when it changes a mark, or moves a face that is or was assigned by hand. */
  lemma EditAsksExactly(s: State, id: int, flags: Flags, moved: bool)
    requires id in s.faces
    ensures var t := Edited(s, id, flags, moved);
      && t.faces == s.faces[id := flags]
      && if flags != s.faces[id] || (moved && (flags.manual || s.faces[id].manual))
         then t.row.pending && t.row.generation == s.row.generation + 1
         else t.row == s.row
  {}

  /** A pass ends exactly with a batch that came up short and was processed as a whole, or with the last id. */
  lemma PassEndsExactly(s: State, processed: nat, merged: bool)
    requires Inv(s) && Enabled(s, Commit(processed, merged))
    ensures var w := s.work.value;
      !Committed(s, processed, merged).row.running <==>
        (processed == |w.ids| < w.size) || (processed > 0 && w.ids[processed - 1] == s.row.upper)
    ensures Committed(s, processed, merged).row.running ==>
      processed > 0 && Committed(s, processed, merged).row.cursor == s.work.value.ids[processed - 1]
  {
    var w := s.work.value;
    if processed > 0 {
      assert w.ids[processed - 1] in w.ids;
    }
  }

  // ---- what a pass visits ----

  ghost predicate Trace(states: seq<State>, events: seq<Event>) {
    |states| == |events| + 1 && forall k | 0 <= k < |events| :: Step(states[k], events[k], states[k + 1])
  }

  /** One pass: it begins, is never begun or restarted again, and its last step ends it. */
  ghost predicate Pass(states: seq<State>, events: seq<Event>) {
    && Trace(states, events) && |events| > 0 && events[0].Begin?
    && (forall k | 0 < k < |events| :: !events[k].Begin? && !events[k].Restart?)
    && (forall k | 0 < k < |events| :: states[k].row.running)
    && !states[|events|].row.running
  }

  lemma {:induction false} StayedSinceBegin(states: seq<State>, events: seq<Event>, id: int, n: nat)
    requires Pass(states, events) && 0 < n <= |events|
    requires forall k | 0 <= k <= n :: Candidate(states[k].faces, id)
    ensures id in states[n].stayed
  {
    assert Step(states[n - 1], events[n - 1], states[n]);
    if n > 1 {
      StayedSinceBegin(states, events, id, n - 1);
    }
  }

  lemma {:induction false} TraceKeeps(states: seq<State>, events: seq<Event>, n: nat)
    requires Trace(states, events) && Inv(states[0]) && n <= |events|
    ensures Inv(states[n])
  {
    if n > 0 {
      TraceKeeps(states, events, n - 1);
      assert Step(states[n - 1], events[n - 1], states[n]);
      StepKeeps(states[n - 1], events[n - 1], states[n]);
    }
  }

  lemma LastStepCommits(s: State, e: Event, t: State)
    requires Inv(s) && s.row.running && Step(s, e, t) && !t.row.running && !e.Restart?
    ensures e.Commit? && PassRight(t) && t.row.cursor == t.row.upper
  {
    CommitKeepsPass(s, e.processed, e.merged);
  }

  /** A pass visits in ascending order, nobody twice, every id that was a candidate from its
      beginning to its end, under any batch sizes, time cuts, failures and outside edits. */
  lemma PassVisitsAll(states: seq<State>, events: seq<Event>)
    requires Pass(states, events) && Inv(states[0])
    ensures Ascending(states[|events|].visited)
    ensures forall id
      | forall k | 0 <= k <= |events| :: Candidate(states[k].faces, id) :: id in states[|events|].visited
  {
    var n := |events|;
    assert n > 1 by {
      assert Step(states[0], events[0], states[1]);
    }
    TraceKeeps(states, events, n - 1);
    assert Step(states[n - 1], events[n - 1], states[n]);
    LastStepCommits(states[n - 1], events[n - 1], states[n]);
    forall id | forall k | 0 <= k <= n :: Candidate(states[k].faces, id) ensures id in states[n].visited {
      StayedSinceBegin(states, events, id, n);
    }
  }

  // ---- faces that become candidates while a pass runs ----

  /** The pass will visit the face if it stays a candidate: it has been visited, or it lies ahead of the cursor and
      of what an open batch has read. */
  ghost predicate Ahead(s: State, id: int) {
    || id in s.visited
    || (s.row.cursor < id <= s.row.upper
        && (s.work.Some? ==>
              var w := s.work.value;
              id in w.ids || (|w.ids| == w.size && w.ids != [] && forall x | x in w.ids :: x < id)))
  }

  /** Not visited, and behind the cursor or above the bound. */
  ghost predicate Missed(s: State, id: int) {
    id !in s.visited && (id <= s.row.cursor || id > s.row.upper)
  }

  ghost predicate Inside(e: Event) {
    !e.Begin? && !e.Restart?
  }

  lemma CommitKeepsAhead(s: State, processed: nat, merged: bool, id: int)
    requires Inv(s) && Enabled(s, Commit(processed, merged)) && Ahead(s, id)
    ensures Ahead(Committed(s, processed, merged), id)
  {
    var w := s.work.value;
    if id !in s.visited && id <= NextCursor(s, w, processed) {
      if processed > 0 && (processed < |w.ids| || |w.ids| == w.size) {
        assert w.ids[processed - 1] in w.ids;
        var i :| 0 <= i < |w.ids| && w.ids[i] == id;
        assert w.ids[..processed][i] == id;
      } else {
        assert w.ids[..processed] == w.ids;
      }
    }
  }

  lemma StepKeepsAhead(s: State, e: Event, t: State, id: int)
    requires Inv(s) && Step(s, e, t) && Inside(e) && Candidate(s.faces, id) && Ahead(s, id)
    ensures Ahead(t, id)
  {
    match e
    case Commit(processed, merged) => CommitKeepsAhead(s, processed, merged, id);
    case Select(size) =>
      if id !in s.visited {
        assert id in Waiting(s);
      }
    case _ =>
  }

  lemma StepKeepsMissed(s: State, e: Event, t: State, id: int)
    requires Inv(s) && s.row.running && Step(s, e, t) && Inside(e) && Missed(s, id)
    ensures Missed(t, id)
  {
    if e.Commit? {
      var w := s.work.value;
      assert forall x | x in w.ids[..e.processed] :: x in w.ids;
      assert e.processed > 0 ==> w.ids[e.processed - 1] in w.ids;
    }
  }

  lemma {:induction false} AheadUntil(states: seq<State>, events: seq<Event>, id: int, m: nat, n: nat)
    requires Pass(states, events) && Inv(states[0]) && 0 < m <= n <= |events|
    requires forall k | m <= k <= n :: Candidate(states[k].faces, id)
    ensures Ahead(states[m], id) ==> Ahead(states[n], id)
    ensures Missed(states[m], id) ==> Missed(states[n], id)
  {
    hide Ahead;
    hide Missed;
    hide Inv;
    hide Candidate;
    hide Step;
    if m < n {
      AheadUntil(states, events, id, m, n - 1);
      TraceKeeps(states, events, n - 1);
      assert Step(states[n - 1], events[n - 1], states[n]);
      if Ahead(states[m], id) {
        StepKeepsAhead(states[n - 1], events[n - 1], states[n], id);
      }
      if Missed(states[m], id) {
        StepKeepsMissed(states[n - 1], events[n - 1], states[n], id);
      }
    }
  }

  lemma PassEnds(states: seq<State>, events: seq<Event>)
    requires Pass(states, events) && Inv(states[0])
    ensures |events| > 1 && Inv(states[|events|]) && states[|events|].work.None?
    ensures states[|events|].row.cursor == states[|events|].row.upper
  {
    var n := |events|;
    assert n > 1 by {
      assert Step(states[0], events[0], states[1]);
    }
    TraceKeeps(states, events, n - 1);
    TraceKeeps(states, events, n);
    assert Step(states[n - 1], events[n - 1], states[n]);
    LastStepCommits(states[n - 1], events[n - 1], states[n]);
  }

  /** A face that is a candidate from some moment of a pass to its end, at which no batch is open, is visited by the
      pass exactly when it had been visited already or lies between the cursor and the bound of the pass. */
  lemma ReturningIsVisitedExactly(states: seq<State>, events: seq<Event>, k: nat, id: int)
    requires Pass(states, events) && Inv(states[0]) && 0 < k <= |events| && states[k].work.None?
    requires forall j | k <= j <= |events| :: Candidate(states[j].faces, id)
    ensures id in states[|events|].visited <==>
      id in states[k].visited || states[k].row.cursor < id <= states[k].row.upper
  {
    PassEnds(states, events);
    AheadUntil(states, events, id, k, |events|);
  }

  /** The open batch stays as it was read until step `c` commits or abandons it. */
  lemma {:induction false} BatchStaysOpen(states: seq<State>, events: seq<Event>, k: nat, c: nat)
    requires Pass(states, events) && 0 < k <= c < |events| && states[k].work.Some?
    requires forall j | k <= j < c :: !events[j].Commit? && !events[j].Abandon?
    ensures states[c].work == states[k].work && states[c].visited == states[k].visited
    ensures states[c].row.cursor == states[k].row.cursor && states[c].row.upper == states[k].row.upper
  {
    if k < c {
      BatchStaysOpen(states, events, k, c - 1);
      assert Step(states[c - 1], events[c - 1], states[c]);
    }
  }

  /**
   * The same with a batch open, which step `c` closes: what counts is what the batch visits and the cursor it leaves.
   */
  lemma ReturningDuringBatchExactly(states: seq<State>, events: seq<Event>, k: nat, c: nat, id: int)
    requires Pass(states, events) && Inv(states[0]) && 0 < k <= c < |events| && states[k].work.Some?
    requires forall j | k <= j < c :: !events[j].Commit? && !events[j].Abandon?
    requires events[c].Commit? || events[c].Abandon?
    requires forall j | k <= j <= |events| :: Candidate(states[j].faces, id)
    ensures events[c].Abandon? ==>
      (id in states[|events|].visited <==>
        id in states[k].visited || states[k].row.cursor < id <= states[k].row.upper)
    ensures events[c].Commit? ==>
      var w, p := states[k].work.value, events[c].processed;
      p <= |w.ids| &&
      (id in states[|events|].visited <==>
        || id in states[k].visited || id in w.ids[..p]
        || NextCursor(states[k], w, p) < id <= states[k].row.upper)
  {
    BatchStaysOpen(states, events, k, c);
    assert Step(states[c], events[c], states[c + 1]);
    ReturningIsVisitedExactly(states, events, c + 1, id);
  }

  /** Every open batch of a pass is closed by some step. */
  lemma BatchIsClosed(states: seq<State>, events: seq<Event>, k: nat) returns (c: nat)
    requires Pass(states, events) && Inv(states[0]) && 0 < k <= |events| && states[k].work.Some?
    ensures k <= c < |events| && (events[c].Commit? || events[c].Abandon?)
    ensures forall j | k <= j < c :: !events[j].Commit? && !events[j].Abandon?
  {
    PassEnds(states, events);
    c := k;
    while !events[c].Commit? && !events[c].Abandon?
      invariant k <= c < |events|
      invariant forall j | k <= j < c :: !events[j].Commit? && !events[j].Abandon?
      decreases |events| - c
    {
      if c + 1 == |events| {
        BatchStaysOpen(states, events, k, c);
      }
      assert Step(states[c], events[c], states[c + 1]);
      c := c + 1;
    }
  }

  // ---- a face that returns behind the cursor ----

  const PLAIN := Flags(false, false, false)
  const MARKED := Flags(true, false, false)
  const BEFORE := map[1 := MARKED, 2 := PLAIN, 3 := PLAIN]
  const AFTER := map[1 := PLAIN, 2 := PLAIN, 3 := PLAIN]
  const RETURN := [Begin, Select(1), Commit(1, false), Edit(1, PLAIN, false), Select(1), Commit(1, false)]

  /** The pass over the faces 2 and 3, while the marked face 1 is unmarked behind its cursor. */
  function ReturnStates(): seq<State> {
    [State(BEFORE, Row(true, false, 1, 0, 0, 0), None, [], {}, {}, false),
     State(BEFORE, Row(true, true, 1, 1, 0, 3), None, [], {2, 3}, {}, false),
     State(BEFORE, Row(true, true, 1, 1, 0, 3), Some(Work([2], 1)), [], {2, 3}, {}, false),
     State(BEFORE, Row(true, true, 1, 1, 2, 3), None, [2], {2, 3}, {}, false),
     State(AFTER, Row(true, true, 2, 1, 2, 3), None, [2], {2, 3}, {}, true),
     State(AFTER, Row(true, true, 2, 1, 2, 3), Some(Work([3], 1)), [2], {2, 3}, {}, true),
     State(AFTER, Row(true, false, 2, 1, 3, 3), None, [2, 3], {2, 3}, {}, true)]
  }

  lemma FirstBatch()
    ensures var s := ReturnStates();
      Step(s[0], RETURN[0], s[1]) && Step(s[1], RETURN[1], s[2]) && Step(s[2], RETURN[2], s[3])
  {
    var s := ReturnStates();
    assert Candidates(BEFORE) == {2, 3};
    assert Waiting(s[1]) == {2, 3};
    assert [] + [2][..1] == [2];
  }

  lemma SecondBatch()
    ensures var s := ReturnStates();
      Step(s[3], RETURN[3], s[4]) && Step(s[4], RETURN[4], s[5]) && Step(s[5], RETURN[5], s[6])
  {
    var s := ReturnStates();
    assert Waiting(s[4]) == {3};
    assert [2] + [3][..1] == [2, 3];
  }

  lemma ReturnStart()
    ensures Inv(ReturnStates()[0])
  {}

  /** Face 1 is a candidate when the pass ends and was not visited by it; another pass is due. */
  lemma ReturningBehindCursorIsMissed()
    ensures var s := ReturnStates();
      && Pass(s, RETURN) && Inv(s[0])
      && (forall k | 4 <= k <= 6 :: Candidate(s[k].faces, 1)) && 1 !in s[6].visited && s[6].row.pending
  {
    hide Step;
    hide Inv;
    FirstBatch();
    SecondBatch();
    ReturnStart();
  }

  // ---- nothing asked for is forgotten ----

  /** Requests, restarts, changed people, and edits that make a face a candidate. */
  ghost predicate Asks(s: State, e: Event) {
    || e.Request? || e.Restart? || e.ChangePerson?
    || (e.Edit? && e.id in s.faces && e.flags == Flags(false, false, false) && !Candidate(s.faces, e.id))
  }

  lemma {:induction false} StillAsked(states: seq<State>, events: seq<Event>, k: nat, n: nat)
    requires Trace(states, events) && k < n <= |events| && Asks(states[k], events[k])
    requires forall j | k < j < n :: !events[j].Begin?
    ensures states[n].asked
  {
    assert Step(states[n - 1], events[n - 1], states[n]);
    if n - 1 > k {
      StillAsked(states, events, k, n - 1);
    }
  }

  /** Whatever is asked for during a pass keeps the queue pending until another pass begins. */
  lemma AskingCausesAnotherPass(states: seq<State>, events: seq<Event>, k: nat, n: nat)
    requires Trace(states, events) && Inv(states[0]) && k < n <= |events| && Asks(states[k], events[k])
    requires forall j | k < j < n :: !events[j].Begin?
    ensures states[n].row.pending
  {
    StillAsked(states, events, k, n);
    TraceKeeps(states, events, n);
  }

  /** When the queue comes to rest after a pass, every candidate has been visited by that pass,
      except faces inserted while it ran. */
  lemma RestIsComplete(s: State, e: Event, t: State)
    requires Inv(s) && s.row.running && Step(s, e, t) && !t.row.pending
    ensures forall id | Candidate(t.faces, id) && id !in t.added :: id in t.visited
  {
    StepKeeps(s, e, t);
    LastStepCommits(s, e, t);
  }
}
