/** The bounded breadth-first search in batches. */
module FamilySearch {
  import opened FamilyGraph
  import opened Pick

  const MAX_PEOPLE := 10000
  const MAX_RELATIONS := 50000
  const BATCH := 200

  function ToSet(s: seq<nat>): set<nat> {
    set x | x in s
  }

  /** familyTreeRelations: every relation with an endpoint among `ids`, once per endpoint; more
      than twice the limit of rows is refused. */
  function RelationRows(graph: set<Relation>, ids: set<nat>): nat {
    |set r | r in graph && r.from in ids| + |set r | r in graph && r.till in ids|
  }

  /** A relation counts once, and twice if both of its ends are asked for. */
  lemma RowsCountEnds(graph: set<Relation>, ids: set<nat>)
    ensures RelationRows(graph, ids)
      == |Touching(graph, ids)| + |set r | r in Touching(graph, ids) && r.from in ids && r.till in ids|
  {
    var from, till := set r | r in graph && r.from in ids, set r | r in graph && r.till in ids;
    assert Touching(graph, ids) == from + till;
    assert (set r | r in Touching(graph, ids) && r.from in ids && r.till in ids) == from * till;
    BothCount(from, till);
  }

  lemma BothCount<T>(a: set<T>, b: set<T>)
    ensures |a| + |b| == |a + b| + |a * b|
  {
    assert a + b == a + (b - a) && a !! (b - a) && b == (b - a) + (a * b) && (b - a) !! (a * b);
  }

  /** What holds while the search runs; `done` are the ids already looked up. */
  ghost predicate Searching(graph: set<Relation>, visible: map<nat, Person>, roots: set<nat>, queue: seq<nat>,
                            seen: set<nat>, people: set<nat>)
  {
    && (forall x | x in people :: Reached(graph, visible, roots, x) && x in seen && x !in queue)
    && (forall x | x in queue :: x in seen)
    && (forall x | x in seen && x in visible && x !in queue :: x in people)
    && (forall i, j | 0 <= i < j < |queue| :: queue[i] != queue[j])
    && seen == roots + Ends(Touching(graph, people))
  }

  lemma ReachedBySeen(graph: set<Relation>, visible: map<nat, Person>, roots: set<nat>, queue: seq<nat>, seen: set<nat>,
                      people: set<nat>, x: nat)
    requires Searching(graph, visible, roots, queue, seen, people)
    requires x in seen && x in visible
    ensures Reached(graph, visible, roots, x)
  {
    if x in roots {
      LinkedSelf(VisibleEdges(graph, visible), x);
    } else {
      var r :| r in Touching(graph, people) && (r.from == x || r.till == x);
      var y := if r.from == x then r.till else r.from;
      if x !in people {
        NeighbourReached(graph, visible, roots, y, x, r);
      }
    }
  }

  /** When the queue is empty the search has found exactly the reached people. */
  lemma SearchComplete(graph: set<Relation>, visible: map<nat, Person>, roots: set<nat>, seen: set<nat>,
                       people: set<nat>)
    requires Searching(graph, visible, roots, [], seen, people)
    ensures people == ReachedPeople(graph, visible, roots)
    ensures seen == Examined(graph, visible, roots)
  {
    forall r | r in VisibleEdges(graph, visible) ensures r.from in people <==> r.till in people {
      assert r in Touching(graph, people) ==>
        r.from in Ends(Touching(graph, people)) && r.till in Ends(Touching(graph, people));
    }
    ClosedIsReached(graph, visible, roots, people);
  }

  /** Follows the relations found for one batch: every unseen end is queued. */
  method Enqueue(rows: set<Relation>, queue: seq<nat>, seen: set<nat>) returns (queue': seq<nat>, seen': set<nat>)
    requires forall x | x in queue :: x in seen
    requires forall i, j | 0 <= i < j < |queue| :: queue[i] != queue[j]
    ensures seen' == seen + Ends(rows)
    ensures forall x :: x in queue' <==> x in queue || (x in seen' && x !in seen)
    ensures forall i, j | 0 <= i < j < |queue'| :: queue'[i] != queue'[j]
    ensures |queue'| - |queue| == |seen'| - |seen|
  {
    queue', seen' := queue, seen;
    var todo := rows;
    assert seen == seen + Ends(rows - todo);
    while todo != {}
      invariant todo <= rows
      invariant seen' == seen + Ends(rows - todo)
      invariant forall x :: x in queue' <==> x in queue || (x in seen' && x !in seen)
      invariant forall i, j | 0 <= i < j < |queue'| :: queue'[i] != queue'[j]
      invariant |queue'| - |queue| == |seen'| - |seen|
      decreases todo
    {
      var edge := Any(todo);
      ghost var done := rows - todo;
      todo := todo - {edge};
      assert rows - todo == done + {edge};
      assert Ends(done + {edge}) == Ends(done) + {edge.from, edge.till};
      queue', seen' := Visit(edge.from, queue', seen');
      queue', seen' := Visit(edge.till, queue', seen');
    }
    assert rows - todo == rows;
  }

  method Visit(id: nat, queue: seq<nat>, seen: set<nat>) returns (queue': seq<nat>, seen': set<nat>)
    requires forall x | x in queue :: x in seen
    requires forall i, j | 0 <= i < j < |queue| :: queue[i] != queue[j]
    ensures seen' == seen + {id}
    ensures forall x :: x in queue' <==> x in queue || (x == id && id !in seen)
    ensures forall i, j | 0 <= i < j < |queue'| :: queue'[i] != queue'[j]
    ensures |queue'| - |queue| == |seen'| - |seen|
  {
    if id in seen {
      assert seen + {id} == seen;
      return queue, seen;
    }
    queue', seen' := queue + [id], seen + {id};
  }

  lemma TouchingMore(graph: set<Relation>, a: set<nat>, b: set<nat>)
    ensures Ends(Touching(graph, a + b)) == Ends(Touching(graph, a)) + Ends(Touching(graph, b))
  {
    assert Touching(graph, a + b) == Touching(graph, a) + Touching(graph, b);
  }

  lemma FrontOfQueue(queue: seq<nat>, count: nat)
    requires count <= |queue| && forall i, j | 0 <= i < j < |queue| :: queue[i] != queue[j]
    ensures forall x :: x in queue <==> x in queue[..count] || x in queue[count..]
    ensures forall x | x in queue[..count] :: x !in queue[count..]
  {
    assert queue == queue[..count] + queue[count..];
  }

  lemma SearchStep(graph: set<Relation>, visible: map<nat, Person>, roots: set<nat>, queue: seq<nat>, seen: set<nat>,
                   people: set<nat>, count: nat, found: set<nat>, queue': seq<nat>, seen': set<nat>)
    requires Searching(graph, visible, roots, queue, seen, people) && count <= |queue|
    requires found == set x | x in queue[..count] && x in visible
    requires seen' == seen + Ends(Touching(graph, found))
    requires forall x :: x in queue' <==> x in queue[count..] || (x in seen' && x !in seen)
    requires forall i, j | 0 <= i < j < |queue'| :: queue'[i] != queue'[j]
    ensures Searching(graph, visible, roots, queue', seen', people + found)
  {
    hide Touching;
    hide Ends;
    hide Reached;
    FrontOfQueue(queue, count);
    forall x | x in found ensures Reached(graph, visible, roots, x) {
      ReachedBySeen(graph, visible, roots, queue, seen, people, x);
    }
    TouchingMore(graph, people, found);
  }

  /** Too much found so far means too much in the end. */
  lemma TooLarge(graph: set<Relation>, visible: map<nat, Person>, roots: set<nat>, queue: seq<nat>, seen: set<nat>,
                 people: set<nat>)
    requires Searching(graph, visible, roots, queue, seen, people)
    ensures |seen| <= |Examined(graph, visible, roots)|
    ensures |Touching(graph, people)| <= |Touching(graph, ReachedPeople(graph, visible, roots))|
  {
    var all := ReachedPeople(graph, visible, roots);
    assert people <= all;
    assert Touching(graph, people) <= Touching(graph, all);
    SubsetSize(Touching(graph, people), Touching(graph, all));
    SubsetSize(seen, Examined(graph, visible, roots));
  }

  lemma TooManyRows(graph: set<Relation>, visible: map<nat, Person>, roots: set<nat>, ids: set<nat>)
    requires forall x | x in ids :: Reached(graph, visible, roots, x)
    ensures RelationRows(graph, ids) <= 2 * |Touching(graph, ReachedPeople(graph, visible, roots))|
  {
    var all := Touching(graph, ReachedPeople(graph, visible, roots));
    SubsetSize((set r | r in graph && r.from in ids), all);
    SubsetSize((set r | r in graph && r.till in ids), all);
  }

  /** Looks up the first `count` queued ids and queues the unseen ends of their relations. */
  method LookUp(graph: set<Relation>, visible: map<nat, Person>, queue: seq<nat>, count: nat, seen: set<nat>,
                ghost roots: set<nat>, ghost people: set<nat>)
    returns (ok: bool, found: map<nat, Person>, rows: set<Relation>, queue': seq<nat>, seen': set<nat>)
    requires Searching(graph, visible, roots, queue, seen, people) && count <= |queue|
    ensures found.Keys == (set x | x in queue[..count] && x in visible)
      && forall x | x in found :: found[x] == visible[x]
    ensures rows == Touching(graph, found.Keys)
    ensures forall x | x in found :: Reached(graph, visible, roots, x)
    ensures !ok <==> RelationRows(graph, found.Keys) > 2 * MAX_RELATIONS
    ensures !ok <==> |rows| + |set r | r in rows && r.from in found && r.till in found| > 100000
    ensures ok ==> Searching(graph, visible, roots, queue', seen', people + found.Keys)
    ensures ok ==> |queue'| - |queue| + count == |seen'| - |seen|
  {
    found := map x | x in queue[..count] && x in visible :: visible[x];
    forall x | x in found ensures Reached(graph, visible, roots, x) {
      ReachedBySeen(graph, visible, roots, queue, seen, people, x);
    }
    rows := Touching(graph, found.Keys);
    RowsCountEnds(graph, found.Keys);
    queue', seen' := queue, seen;
    ok := RelationRows(graph, found.Keys) <= 2 * MAX_RELATIONS;
    if ok {
      queue', seen' := Enqueue(rows, queue[count..], seen);
      SearchStep(graph, visible, roots, queue, seen, people, count, found.Keys, queue', seen');
    }
  }

  lemma StartSearch(graph: set<Relation>, visible: map<nat, Person>, roots: seq<nat>)
    requires forall i, j | 0 <= i < j < |roots| :: roots[i] != roots[j]
    ensures Searching(graph, visible, ToSet(roots), roots, ToSet(roots), {})
    ensures Touching(graph, {}) == {}
  {
    assert Ends({}) == {};
  }

  lemma SeenInUniverse(graph: set<Relation>, visible: map<nat, Person>, roots: set<nat>, queue: seq<nat>,
                       seen: set<nat>, people: set<nat>)
    requires Searching(graph, visible, roots, queue, seen, people)
    ensures |seen| <= |roots + Ends(graph)|
  {
    SubsetSize(seen, roots + Ends(graph));
  }

  ghost predicate WithinLimits(graph: set<Relation>, visible: map<nat, Person>, roots: set<nat>) {
    |Examined(graph, visible, roots)| <= MAX_PEOPLE
      && |Touching(graph, ReachedPeople(graph, visible, roots))| <= MAX_RELATIONS
  }

  lemma TouchingUnion(graph: set<Relation>, a: set<nat>, b: set<nat>)
    ensures Touching(graph, a + b) == Touching(graph, a) + Touching(graph, b)
  {}

  ghost predicate Faithful(people: map<nat, Person>, visible: map<nat, Person>) {
    forall x | x in people :: x in visible && people[x] == visible[x]
  }

  /** One round of the loop: a batch, its relations, and the two limits. */
  method Round(graph: set<Relation>, visible: map<nat, Person>, queue: seq<nat>, seen: set<nat>,
               people: map<nat, Person>, edges: set<Relation>, ghost roots: set<nat>)
    returns (ok: bool, queue': seq<nat>, seen': set<nat>, people': map<nat, Person>, edges': set<Relation>)
    requires Searching(graph, visible, roots, queue, seen, people.Keys) && queue != []
    requires Faithful(people, visible) && edges == Touching(graph, people.Keys)
    ensures !ok ==> !WithinLimits(graph, visible, roots)
    ensures ok ==> Searching(graph, visible, roots, queue', seen', people'.Keys)
    ensures ok ==> Faithful(people', visible) && edges' == Touching(graph, people'.Keys)
    ensures ok ==> |seen'| <= MAX_PEOPLE && |edges'| <= MAX_RELATIONS
    ensures ok ==> |queue'| - |seen'| < |queue| - |seen|
  {
    var count := if |queue| < BATCH then |queue| else BATCH;
    var found, rows;
    ok, found, rows, queue', seen' := LookUp(graph, visible, queue, count, seen, roots, people.Keys);
    people', edges' := people + found, edges + rows;
    if !ok {
      TooManyRows(graph, visible, roots, found.Keys);
      return;
    }
    assert people'.Keys == people.Keys + found.Keys;
    TouchingUnion(graph, people.Keys, found.Keys);
    TooLarge(graph, visible, roots, queue', seen', people'.Keys);
    ok := |seen'| <= MAX_PEOPLE && |edges'| <= MAX_RELATIONS;
  }

  /** Everybody reachable through visible people, with all their relations; refused exactly when
      more than the limits would have to be examined.  The batch size does not matter. */
  method Search(graph: set<Relation>, visible: map<nat, Person>, roots: seq<nat>)
    returns (ok: bool, people: map<nat, Person>, edges: set<Relation>)
    requires forall i, j | 0 <= i < j < |roots| :: roots[i] != roots[j]
    ensures ok <==> WithinLimits(graph, visible, ToSet(roots))
    ensures ok ==> people.Keys == ReachedPeople(graph, visible, ToSet(roots)) && Faithful(people, visible)
    ensures ok ==> edges == Touching(graph, people.Keys)
  {
    ghost var start := ToSet(roots);
    var queue, seen := roots, set x | x in roots;
    people, edges := map[], {};
    assert people.Keys == {};
    StartSearch(graph, visible, roots);
    while |queue| > 0
      invariant Searching(graph, visible, start, queue, seen, people.Keys)
      invariant Faithful(people, visible) && edges == Touching(graph, people.Keys)
      invariant (|seen| <= MAX_PEOPLE && |edges| <= MAX_RELATIONS) || (roots != [] && queue == roots)
      decreases |start + Ends(graph)| - |seen| + |queue|
    {
      SeenInUniverse(graph, visible, start, queue, seen, people.Keys);
      ok, queue, seen, people, edges := Round(graph, visible, queue, seen, people, edges, start);
      if !ok {
        return;
      }
      SeenInUniverse(graph, visible, start, queue, seen, people.Keys);
    }
    assert queue == [];
    Finished(graph, visible, start, seen, people.Keys);
    ok := true;
  }

  lemma Finished(graph: set<Relation>, visible: map<nat, Person>, roots: set<nat>, seen: set<nat>, people: set<nat>)
    requires Searching(graph, visible, roots, [], seen, people)
    ensures people == ReachedPeople(graph, visible, roots)
    ensures WithinLimits(graph, visible, roots) <==> |seen| <= MAX_PEOPLE && |Touching(graph, people)| <= MAX_RELATIONS
  {
    SearchComplete(graph, visible, roots, seen, people);
  }
}
