/** The cached graph over whole runs, with writers outside the runtime's lock. */
module FaceGraphRuns {
  import opened FaceTables
  import opened FaceSync

  datatype Cache = NoGraph | Graph(view: View, revision: int, model: string)

  datatype World = World(db: Tables, cache: Cache)

  /** What happens between two moments when nobody holds the runtime's lock.  `rows` and
      `seen[p]` are the tables each query saw; `after` are the tables at the end. */
  datatype Event =
    | Outside(after: Tables)
    | Ensure(model: string, rows: Tables, after: Tables, ok: bool)
    | Mutate(committed: Tables, affected: set<int>, order: seq<int>, seen: map<int, Tables>, after: Tables, ok: bool)
    | Invalidate

  /** Writers outside the lock: the revision never goes back, and whoever changes a reference
      row raises it. */
  ghost predicate Written(t: Tables, t': Tables) {
    && t.revision <= t'.revision
    && (t.revision == t'.revision ==> forall m :: Entries(t', m) == Entries(t, m))
    && forall m :: Sound(t', m)
  }

  /** A transaction of the runtime itself: it raises the revision and names the people it touched. */
  ghost predicate Committed(t: Tables, t': Tables, affected: set<int>) {
    && t.revision < t'.revision
    && (forall m :: Covers(affected, Entries(t, m), Entries(t', m)))
    && forall m :: Sound(t', m)
  }

  ghost predicate Step(w: World, e: Event, w': World) {
    match e
    case Outside(after) => Written(w.db, after) && w' == World(after, w.cache)
    case Ensure(model, rows, after, ok) =>
      && Written(w.db, rows) && Written(rows, after) && w'.db == after
      && if w.cache.Graph? && w.cache.revision == w.db.revision && w.cache.model == model
         then w'.cache == w.cache
         else if ok then w'.cache == Graph(Rebuilt(Entries(rows, model)), w.db.revision, model)
         else w'.cache == NoGraph || w'.cache == w.cache
    case Mutate(committed, affected, order, seen, after, ok) =>
      && Committed(w.db, committed, affected)
      && Lists(order, affected)
      && (forall p | p in affected :: p in seen && Written(committed, seen[p]) && Written(seen[p], after))
      && Written(committed, after) && w'.db == after
      && w'.cache ==
         if w.cache.Graph? && w.cache.revision == w.db.revision && ok
         then Graph(SyncFold(w.cache.view, order, seen, w.cache.model), committed.revision, w.cache.model)
         else NoGraph
    case Invalidate => w' == World(w.db, NoGraph)
  }

  /** A graph that carries the database revision is the rebuild of the database. */
  ghost predicate Fresh(w: World) {
    w.cache.Graph? ==>
      && w.cache.revision <= w.db.revision
      && (w.cache.revision == w.db.revision ==> w.cache.view == Rebuilt(Entries(w.db, w.cache.model)))
  }

  lemma MutateKeepsFresh(w: World, e: Event, w': World)
    requires e.Mutate? && Fresh(w) && Step(w, e, w')
    ensures Fresh(w')
  {
    if w'.cache.Graph? && w'.cache.revision == w'.db.revision {
      var m := w.cache.model;
      var e0, e1 := Entries(w.db, m), Entries(e.committed, m);
      forall p | p in e.order ensures PersonRows(e.seen[p], m, p) == Slice(e1, p) {
        assert p in e.affected;
        assert e.seen[p].revision == e.committed.revision;
        assert Entries(e.seen[p], m) == e1;
        assert Sound(e.seen[p], m);
        QueriesAgree(e.seen[p], m);
      }
      SyncFoldIsSynced(e0, e1, e.order, e.affected, e.seen, m);
      CoveringSyncIsRebuilt(e0, e1, e.affected);
      assert Entries(e.after, m) == e1;
    }
  }

  lemma StepKeepsFresh(w: World, e: Event, w': World)
    requires Fresh(w) && Step(w, e, w')
    ensures Fresh(w') && w.db.revision <= w'.db.revision
  {
    if e.Mutate? {
      MutateKeepsFresh(w, e, w');
    }
  }

  ghost predicate Run(worlds: seq<World>, events: seq<Event>) {
    && |worlds| == |events| + 1
    && worlds[0].cache == NoGraph
    && forall i | 0 <= i < |events| :: Step(worlds[i], events[i], worlds[i + 1])
  }

  /** At every moment of every run, a cached graph whose revision equals the database revision is
      exactly the graph a full rebuild would make. */
  lemma {:induction false} CachedGraphIsRebuild(worlds: seq<World>, events: seq<Event>, i: nat)
    requires Run(worlds, events) && i < |worlds|
    ensures Fresh(worlds[i])
    decreases i
  {
    if i > 0 {
      CachedGraphIsRebuild(worlds, events, i - 1);
      StepKeepsFresh(worlds[i - 1], events[i - 1], worlds[i]);
    }
  }
}
