/** Partition of the reached people and their relations into one tree per family. */
module FamilyTrees {
  import opened FamilyGraph
  import opened FamilySearch
  import opened UnionFind
  import opened Sorting
  import opened Pick
  import PathText

  datatype Tree = Tree(id: nat, roots: seq<nat>, people: seq<Person>, relations: seq<Relation>)

  datatype Page = NoRoots | TooMany | Page(trees: seq<Tree>)

  // ---- what a tree has to be ----

  /** Everybody linked to `id` through visible people only. */
  ghost function Component(graph: set<Relation>, visible: map<nat, Person>, id: nat): set<nat> {
    set x | x in visible && Linked(VisibleEdges(graph, visible), id, x)
  }

  ghost function Keep(s: seq<nat>, kept: set<nat>): seq<nat> {
    if s == [] then []
    else Keep(s[..|s| - 1], kept) + if s[|s| - 1] in kept then [s[|s| - 1]] else []
  }

  predicate PersonBefore(a: Person, b: Person) {
    a.id < b.id
  }

  predicate RelationBefore(a: Relation, b: Relation) {
    if a.from != b.from then a.from < b.from
    else if a.till != b.till then a.till < b.till
    else if a.kind != b.kind then PathText.Less(a.kind, b.kind)
    else a.id < b.id
  }

  ghost predicate IsTree(graph: set<Relation>, visible: map<nat, Person>, roots: seq<nat>, t: Tree) {
    && t.id in visible
    && t.roots == Keep(roots, Component(graph, visible, t.id)) && t.roots != [] && t.roots[0] == t.id
    && Ordered(t.people, PersonBefore)
    && (forall p :: p in t.people <==> p.id in Component(graph, visible, t.id) && p == visible[p.id])
    && Ordered(t.relations, RelationBefore)
    && (forall r ::
         r in t.relations <==>
         r in graph && r.from in Component(graph, visible, t.id) && r.till in Component(graph, visible, t.id))
  }

  // ---- links inside the reached people ----

  lemma {:induction false} StayReached(graph: set<Relation>, visible: map<nat, Person>, roots: set<nat>, p: seq<nat>,
                                       x: nat, y: nat)
    requires PathFrom(VisibleEdges(graph, visible), p, x, y) && Reached(graph, visible, roots, x)
    ensures Reached(graph, visible, roots, y)
    ensures var people := ReachedPeople(graph, visible, roots); Linked(Inner(Touching(graph, people), people), x, y)
    decreases |p|
  {
    var people := ReachedPeople(graph, visible, roots);
    var inner := Inner(Touching(graph, people), people);
    if |p| == 1 {
      LinkedSelf(inner, x);
    } else {
      assert Adjacent(VisibleEdges(graph, visible), p[0], p[1]);
      var r :| r in VisibleEdges(graph, visible) && Joins(r, p[0], p[1]);
      NeighbourReached(graph, visible, roots, x, p[1], r);
      assert PathFrom(VisibleEdges(graph, visible), p[1..], p[1], y);
      StayReached(graph, visible, roots, p[1..], p[1], y);
      assert r in inner && Adjacent(inner, x, p[1]);
      assert PathFrom(inner, [x, p[1]], x, p[1]);
      LinkedTrans(inner, x, p[1], y);
    }
  }

  lemma InnerLinks(graph: set<Relation>, visible: map<nat, Person>, roots: set<nat>, x: nat, y: nat)
    requires Reached(graph, visible, roots, x)
    ensures var people := ReachedPeople(graph, visible, roots);
      y in people && Linked(Inner(Touching(graph, people), people), x, y)
      <==> y in Component(graph, visible, x)
  {
    var people := ReachedPeople(graph, visible, roots);
    var inner := Inner(Touching(graph, people), people);
    if y in people && Linked(inner, x, y) {
      LinkedMore(inner, VisibleEdges(graph, visible), x, y);
    }
    if y in Component(graph, visible, x) {
      var p :| PathFrom(VisibleEdges(graph, visible), p, x, y);
      StayReached(graph, visible, roots, p, x, y);
    }
  }

  // ---- representatives as a table ----

  ghost predicate RepAt(parent: Forest, reps: map<nat, nat>, x: nat)
    requires Valid(parent) && x in parent && x in reps
  {
    reps[x] == Root(parent, x)
  }

  ghost predicate IsTable(parent: Forest, reps: map<nat, nat>) {
    Valid(parent) && parent.Keys == reps.Keys
      && forall x {:trigger RepAt(parent, reps, x)} | x in parent :: RepAt(parent, reps, x)
  }

  ghost function Class(reps: map<nat, nat>, id: nat): set<nat>
    requires id in reps
  {
    set x | x in reps && reps[x] == reps[id]
  }

  method Representative(parent: Forest, id: nat, ghost reps: map<nat, nat>) returns (r: nat, after: Forest)
    requires IsTable(parent, reps) && id in reps
    ensures IsTable(after, reps)
    ensures r == reps[id]
  {
    r, after := Find(parent, id);
    assert RepAt(parent, reps, id);
    SameTable(parent, after, reps);
  }

  lemma SameTable(a: Forest, b: Forest, reps: map<nat, nat>)
    requires IsTable(a, reps) && Valid(b) && SameRoots(a, b)
    ensures IsTable(b, reps)
  {
    forall x {:trigger RepAt(b, reps, x)} | x in b ensures RepAt(b, reps, x) {
      assert SameRoot(a, b, x) && RepAt(a, reps, x);
    }
  }

  lemma SomeTable(parent: Forest) returns (reps: map<nat, nat>)
    requires Valid(parent)
    ensures IsTable(parent, reps)
  {
    reps := map x {:trigger Root(parent, x)} | x in parent :: Root(parent, x);
  }

  /** The classes of the forest are the components of the visible graph. */
  lemma ClassIsComponent(graph: set<Relation>, visible: map<nat, Person>, roots: set<nat>, parent: Forest,
                         reps: map<nat, nat>, id: nat)
    requires IsTable(parent, reps) && parent.Keys == ReachedPeople(graph, visible, roots) && id in reps
    requires Represents(parent, Inner(Touching(graph, parent.Keys), parent.Keys))
    ensures Class(reps, id) == Component(graph, visible, id)
  {
    forall y ensures y in Class(reps, id) <==> y in Component(graph, visible, id) {
      InClass(graph, visible, roots, parent, reps, id, y);
    }
  }

  lemma InClass(graph: set<Relation>, visible: map<nat, Person>, roots: set<nat>, parent: Forest, reps: map<nat, nat>,
                id: nat, y: nat)
    requires IsTable(parent, reps) && parent.Keys == ReachedPeople(graph, visible, roots) && id in reps
    requires Represents(parent, Inner(Touching(graph, parent.Keys), parent.Keys))
    ensures y in Class(reps, id) <==> y in Component(graph, visible, id)
  {
    assert id in ReachedPeople(graph, visible, roots);
    InnerLinks(graph, visible, roots, id, y);
    if y in parent {
      RootsAgree(parent, Inner(Touching(graph, parent.Keys), parent.Keys), reps, id, y);
    }
  }

  lemma RootsAgree(parent: Forest, edges: set<Relation>, reps: map<nat, nat>, x: nat, y: nat)
    requires IsTable(parent, reps) && Represents(parent, edges) && x in parent && y in parent
    ensures reps[x] == reps[y] <==> Linked(edges, x, y)
  {
    assert Agree(parent, edges, x, y) && RepAt(parent, reps, x) && RepAt(parent, reps, y);
  }

  // ---- the steps ----

  /** `components` finds a tree by the representative of its people. */
  ghost predicate Shape(trees: seq<Tree>, components: map<nat, nat>, reps: map<nat, nat>) {
    && (forall c | c in components :: components[c] < |trees|)
    && (forall i | 0 <= i < |trees| ::
         trees[i].id in reps && reps[trees[i].id] in components && components[reps[trees[i].id]] == i)
    && (forall c | c in components :: trees[components[c]].id in reps && reps[trees[components[c]].id] == c)
  }

  ghost predicate RootsPlaced(trees: seq<Tree>, reps: map<nat, nat>, roots: seq<nat>)
    requires forall i | 0 <= i < |trees| :: trees[i].id in reps
  {
    forall i | 0 <= i < |trees| ::
      trees[i].roots == Keep(roots, Class(reps, trees[i].id)) && trees[i].roots != []
        && trees[i].roots[0] == trees[i].id
  }

  lemma {:induction false} KeepNone(s: seq<nat>, kept: set<nat>)
    requires forall x | x in s :: x !in kept
    ensures Keep(s, kept) == []
  {
    if s != [] {
      KeepNone(s[..|s| - 1], kept);
    }
  }

  lemma {:induction false} KeepHas(s: seq<nat>, kept: set<nat>, x: nat)
    ensures x in Keep(s, kept) <==> x in s && x in kept
  {
    if s != [] {
      KeepHas(s[..|s| - 1], kept, x);
      assert s == s[..|s| - 1] + [s[|s| - 1]];
    }
  }

  lemma KeepNext(s: seq<nat>, kept: set<nat>, x: nat)
    ensures Keep(s + [x], kept) == Keep(s, kept) + if x in kept then [x] else []
  {
    assert (s + [x])[..|s|] == s;
  }

  /** A family is known for every visible root; the trees are still empty and in ascending order. */
  ghost predicate Founded(trees: seq<Tree>, components: map<nat, nat>, reps: map<nat, nat>, roots: seq<nat>) {
    && (forall s | s in roots && s in reps :: reps[s] in components)
    && (forall i | 0 <= i < |trees| :: trees[i].people == [] && trees[i].relations == [] && trees[i].id in roots)
    && (forall i, j | 0 <= i < j < |trees| :: trees[i].id < trees[j].id)
  }

  /** What holds after the selected people of `roots` have been placed. */
  ghost predicate Placing(trees: seq<Tree>, components: map<nat, nat>, reps: map<nat, nat>, roots: seq<nat>) {
    Shape(trees, components, reps) && RootsPlaced(trees, reps, roots) && Founded(trees, components, reps, roots)
  }

  function JoinRoot(trees: seq<Tree>, index: nat, id: nat): seq<Tree>
    requires index < |trees|
  {
    trees[index := trees[index].(roots := trees[index].roots + [id])]
  }

  function NewTree(trees: seq<Tree>, id: nat): seq<Tree> {
    trees + [Tree(id, [id], [], [])]
  }

  lemma JoinShape(trees: seq<Tree>, components: map<nat, nat>, reps: map<nat, nat>, index: nat, id: nat)
    requires Shape(trees, components, reps) && index < |trees|
    ensures Shape(JoinRoot(trees, index, id), components, reps)
  {}

  lemma JoinFounded(trees: seq<Tree>, components: map<nat, nat>, reps: map<nat, nat>, roots: seq<nat>, index: nat,
                    id: nat)
    requires Founded(trees, components, reps, roots) && index < |trees|
    requires id in reps && reps[id] in components
    ensures Founded(JoinRoot(trees, index, id), components, reps, roots + [id])
  {}

  lemma RootJoins(trees: seq<Tree>, components: map<nat, nat>, reps: map<nat, nat>, roots: seq<nat>, id: nat)
    requires Placing(trees, components, reps, roots)
    requires id in reps && reps[id] in components
    ensures Placing(JoinRoot(trees, components[reps[id]], id), components, reps, roots + [id])
  {
    var more := JoinRoot(trees, components[reps[id]], id);
    JoinShape(trees, components, reps, components[reps[id]], id);
    JoinFounded(trees, components, reps, roots, components[reps[id]], id);
    hide Founded;
    forall i | 0 <= i < |trees|
      ensures more[i].roots == Keep(roots + [id], Class(reps, more[i].id)) && more[i].roots != []
        && more[i].roots[0] == more[i].id
    {
      KeepNext(roots, Class(reps, trees[i].id), id);
    }
  }

  lemma RootFounds(trees: seq<Tree>, components: map<nat, nat>, reps: map<nat, nat>, roots: seq<nat>, id: nat)
    requires Placing(trees, components, reps, roots)
    requires id in reps && reps[id] !in components
    requires forall s | s in roots :: s < id
    ensures Placing(NewTree(trees, id), components[reps[id] := |trees|], reps, roots + [id])
  {
    NewPlaced(trees, components, reps, roots, id);
    NewShape(trees, components, reps, id);
    NewFounded(trees, components, reps, roots, id);
  }

  lemma NewFounded(trees: seq<Tree>, components: map<nat, nat>, reps: map<nat, nat>, roots: seq<nat>, id: nat)
    requires Founded(trees, components, reps, roots) && id in reps
    requires forall s | s in roots :: s < id
    ensures Founded(NewTree(trees, id), components[reps[id] := |trees|], reps, roots + [id])
  {}

  lemma NewPlaced(trees: seq<Tree>, components: map<nat, nat>, reps: map<nat, nat>, roots: seq<nat>, id: nat)
    requires Placing(trees, components, reps, roots)
    requires id in reps && reps[id] !in components
    ensures forall i | 0 <= i < |NewTree(trees, id)| :: NewTree(trees, id)[i].id in reps
    ensures RootsPlaced(NewTree(trees, id), reps, roots + [id])
  {
    var more := NewTree(trees, id);
    forall i | 0 <= i < |more|
      ensures more[i].roots == Keep(roots + [id], Class(reps, more[i].id)) && more[i].roots != []
        && more[i].roots[0] == more[i].id
    {
      KeepNext(roots, Class(reps, more[i].id), id);
      if i == |trees| {
        KeepNone(roots, Class(reps, id));
      }
    }
  }

  lemma NewShape(trees: seq<Tree>, components: map<nat, nat>, reps: map<nat, nat>, id: nat)
    requires Shape(trees, components, reps) && id in reps && reps[id] !in components
    ensures Shape(NewTree(trees, id), components[reps[id] := |trees|], reps)
  {}

  lemma RootHidden(trees: seq<Tree>, components: map<nat, nat>, reps: map<nat, nat>, roots: seq<nat>, id: nat)
    requires Placing(trees, components, reps, roots) && id !in reps
    ensures Placing(trees, components, reps, roots + [id])
  {
    forall i | 0 <= i < |trees| ensures trees[i].roots == Keep(roots + [id], Class(reps, trees[i].id)) {
      KeepNext(roots, Class(reps, trees[i].id), id);
    }
  }

  /** One empty tree per family that has a visible selected person. */
  method PlaceRoots(roots: seq<nat>, people: set<nat>, parent: Forest, ghost reps: map<nat, nat>)
    returns (trees: seq<Tree>, components: map<nat, nat>, after: Forest)
    requires IsTable(parent, reps) && reps.Keys == people
    requires forall i, j | 0 <= i < j < |roots| :: roots[i] < roots[j]
    ensures IsTable(after, reps) && Placing(trees, components, reps, roots)
  {
    trees, components, after := [], map[], parent;
    assert components.Keys == {};
    for k := 0 to |roots|
      invariant IsTable(after, reps) && Placing(trees, components, reps, roots[..k])
    {
      assert roots[..k + 1] == roots[..k] + [roots[k]];
      trees, components, after := PlaceRoot(roots[k], people, after, trees, components, reps, roots[..k]);
    }
    assert roots[..|roots|] == roots;
  }

  method PlaceRoot(id: nat, people: set<nat>, parent: Forest, base: seq<Tree>, known: map<nat, nat>,
                   ghost reps: map<nat, nat>, ghost roots: seq<nat>)
    returns (trees: seq<Tree>, components: map<nat, nat>, after: Forest)
    requires IsTable(parent, reps) && reps.Keys == people && Placing(base, known, reps, roots)
    requires forall s | s in roots :: s < id
    ensures IsTable(after, reps) && Placing(trees, components, reps, roots + [id])
  {
    trees, components, after := base, known, parent;
    if id in people {
      var component;
      component, after := Representative(after, id, reps);
      if component in components {
        RootJoins(trees, components, reps, roots, id);
        trees := JoinRoot(trees, components[component], id);
      } else {
        RootFounds(trees, components, reps, roots, id);
        components := components[component := |trees|];
        trees := NewTree(trees, id);
      }
    } else {
      RootHidden(trees, components, reps, roots, id);
    }
  }

  /** Only the people of the trees may differ. */
  ghost predicate SameButPeople(a: seq<Tree>, b: seq<Tree>) {
    |a| == |b| && forall i | 0 <= i < |a| :: b[i] == a[i].(people := b[i].people)
  }

  ghost predicate SameButRelations(a: seq<Tree>, b: seq<Tree>) {
    |a| == |b| && forall i | 0 <= i < |a| :: b[i] == a[i].(relations := b[i].relations)
  }

  ghost predicate HasPeople(t: Tree, people: map<nat, Person>, ids: set<nat>) {
    && (forall p :: p in t.people <==> p.id in ids && p.id in people && p == people[p.id])
    && (forall i, j | 0 <= i < j < |t.people| :: t.people[i] != t.people[j])
  }

  ghost predicate HasRelations(t: Tree, relations: set<Relation>) {
    && (forall r :: r in t.relations <==> r in relations)
    && (forall i, j | 0 <= i < j < |t.relations| :: t.relations[i] != t.relations[j])
  }

  ghost predicate PeoplePlaced(trees: seq<Tree>, reps: map<nat, nat>, people: map<nat, Person>, done: set<nat>)
    requires forall i | 0 <= i < |trees| :: trees[i].id in reps
  {
    forall i | 0 <= i < |trees| :: HasPeople(trees[i], people, Class(reps, trees[i].id) * done)
  }

  function JoinPerson(trees: seq<Tree>, components: map<nat, nat>, component: nat, p: Person): seq<Tree>
    requires component in components ==> components[component] < |trees|
  {
    if component !in components then trees
    else trees[components[component] :=
      trees[components[component]].(people := trees[components[component]].people + [p])]
  }

  /** What holds after the people of `done` have been placed. */
  ghost predicate Peopling(base: seq<Tree>, trees: seq<Tree>, components: map<nat, nat>, reps: map<nat, nat>,
                           people: map<nat, Person>, done: set<nat>)
  {
    SameButPeople(base, trees) && Shape(trees, components, reps) && PeoplePlaced(trees, reps, people, done)
  }

  lemma PersonJoins(base: seq<Tree>, trees: seq<Tree>, components: map<nat, nat>, reps: map<nat, nat>,
                    people: map<nat, Person>, done: set<nat>, id: nat)
    requires Peopling(base, trees, components, reps, people, done)
    requires id in people && id in reps && id !in done && people[id].id == id
    ensures Peopling(base, JoinPerson(trees, components, reps[id], people[id]), components, reps, people, done + {id})
  {
    var more := JoinPerson(trees, components, reps[id], people[id]);
    forall i | 0 <= i < |trees|
      ensures HasPeople(more[i], people, Class(reps, more[i].id) * (done + {id}))
    {
      if reps[id] in components && i == components[reps[id]] {
        assert Class(reps, trees[i].id) * (done + {id}) == Class(reps, trees[i].id) * done + {id};
        assert people[id] !in trees[i].people;
      } else {
        assert Class(reps, trees[i].id) * (done + {id}) == Class(reps, trees[i].id) * done;
      }
    }
    assert Shape(more, components, reps);
  }

  lemma NobodyPlaced(base: seq<Tree>, components: map<nat, nat>, reps: map<nat, nat>, people: map<nat, Person>)
    requires Shape(base, components, reps)
    requires forall i | 0 <= i < |base| :: base[i].people == []
    ensures Peopling(base, base, components, reps, people, {})
  {}

  /** Every person joins the tree of their family, in any order. */
  method PlacePeople(base: seq<Tree>, components: map<nat, nat>, people: map<nat, Person>, parent: Forest,
                     ghost reps: map<nat, nat>)
    returns (trees: seq<Tree>, after: Forest)
    requires IsTable(parent, reps) && reps.Keys == people.Keys && Shape(base, components, reps)
    requires forall x | x in people :: people[x].id == x
    requires forall i | 0 <= i < |base| :: base[i].people == []
    ensures IsTable(after, reps) && Peopling(base, trees, components, reps, people, people.Keys)
  {
    trees, after := base, parent;
    var ids := people.Keys;
    var todo := ids;
    NobodyPlaced(base, components, reps, people);
    NoneDone(ids);
    while todo != {}
      invariant todo <= ids
      invariant IsTable(after, reps) && Peopling(base, trees, components, reps, people, ids - todo)
      decreases todo
    {
      var id := Any(todo);
      OneLess(ids, todo, id);
      trees, after := PlacePerson(base, trees, components, people, after, id, reps, ids - todo);
      todo := todo - {id};
    }
  }

  method PlacePerson(ghost base: seq<Tree>, placed: seq<Tree>, components: map<nat, nat>, people: map<nat, Person>,
                     parent: Forest, id: nat, ghost reps: map<nat, nat>, ghost done: set<nat>)
    returns (trees: seq<Tree>, after: Forest)
    requires IsTable(parent, reps) && Peopling(base, placed, components, reps, people, done)
    requires id in people && id in reps && id !in done && people[id].id == id
    ensures IsTable(after, reps) && Peopling(base, trees, components, reps, people, done + {id})
  {
    var component;
    component, after := Representative(parent, id, reps);
    PersonJoins(base, placed, components, reps, people, done, id);
    trees := JoinPerson(placed, components, component, people[id]);
  }

  /** The relations of `done` that belong to the class of `id`. */
  ghost function ClassEdges(done: set<Relation>, reps: map<nat, nat>, id: nat): set<Relation>
    requires id in reps
  {
    set r | r in done && r.from in Class(reps, id) && r.till in reps
  }

  ghost predicate RelationsPlaced(trees: seq<Tree>, reps: map<nat, nat>, done: set<Relation>)
    requires forall i | 0 <= i < |trees| :: trees[i].id in reps
  {
    forall i | 0 <= i < |trees| :: HasRelations(trees[i], ClassEdges(done, reps, trees[i].id))
  }

  function JoinRelation(trees: seq<Tree>, components: map<nat, nat>, component: nat, r: Relation): seq<Tree>
    requires component in components ==> components[component] < |trees|
  {
    if component !in components then trees
    else trees[components[component] :=
      trees[components[component]].(relations := trees[components[component]].relations + [r])]
  }

  ghost predicate Relating(base: seq<Tree>, trees: seq<Tree>, components: map<nat, nat>, reps: map<nat, nat>,
                           done: set<Relation>)
  {
    SameButRelations(base, trees) && Shape(trees, components, reps) && RelationsPlaced(trees, reps, done)
  }

  lemma RelationJoins(base: seq<Tree>, trees: seq<Tree>, components: map<nat, nat>, reps: map<nat, nat>,
                      done: set<Relation>, r: Relation)
    requires Relating(base, trees, components, reps, done) && r !in done
    requires r.from in reps && r.till in reps
    ensures Relating(base, JoinRelation(trees, components, reps[r.from], r), components, reps, done + {r})
  {
    var more := JoinRelation(trees, components, reps[r.from], r);
    forall i | 0 <= i < |trees|
      ensures HasRelations(more[i], ClassEdges(done + {r}, reps, more[i].id))
    {
      if reps[r.from] in components && i == components[reps[r.from]] {
        assert ClassEdges(done + {r}, reps, trees[i].id) == ClassEdges(done, reps, trees[i].id) + {r};
        assert r !in trees[i].relations;
      } else {
        assert ClassEdges(done + {r}, reps, trees[i].id) == ClassEdges(done, reps, trees[i].id);
      }
    }
    assert Shape(more, components, reps);
  }

  lemma RelationOutside(base: seq<Tree>, trees: seq<Tree>, components: map<nat, nat>, reps: map<nat, nat>,
                        done: set<Relation>, r: Relation)
    requires Relating(base, trees, components, reps, done)
    requires r.from !in reps || r.till !in reps
    ensures Relating(base, trees, components, reps, done + {r})
  {
    forall i | 0 <= i < |trees| ensures HasRelations(trees[i], ClassEdges(done + {r}, reps, trees[i].id)) {
      assert ClassEdges(done + {r}, reps, trees[i].id) == ClassEdges(done, reps, trees[i].id);
    }
  }

  /** Every relation with both ends reached joins the tree of its first end. */
  method PlaceRelations(base: seq<Tree>, components: map<nat, nat>, people: set<nat>, edges: set<Relation>,
                        parent: Forest, ghost reps: map<nat, nat>)
    returns (trees: seq<Tree>)
    requires IsTable(parent, reps) && reps.Keys == people && Shape(base, components, reps)
    requires forall i | 0 <= i < |base| :: base[i].relations == []
    ensures Relating(base, trees, components, reps, edges)
  {
    trees := base;
    var after := parent;
    var todo := edges;
    NothingRelated(base, components, reps);
    NoneDone(edges);
    while todo != {}
      invariant todo <= edges
      invariant IsTable(after, reps) && Relating(base, trees, components, reps, edges - todo)
      decreases todo
    {
      var r := Any(todo);
      OneLess(edges, todo, r);
      trees, after := PlaceRelation(base, trees, components, people, after, r, reps, edges - todo);
      todo := todo - {r};
    }
  }

  lemma NothingRelated(base: seq<Tree>, components: map<nat, nat>, reps: map<nat, nat>)
    requires Shape(base, components, reps)
    requires forall i | 0 <= i < |base| :: base[i].relations == []
    ensures Relating(base, base, components, reps, {})
  {}

  method PlaceRelation(ghost base: seq<Tree>, placed: seq<Tree>, components: map<nat, nat>, people: set<nat>,
                       parent: Forest, r: Relation, ghost reps: map<nat, nat>, ghost done: set<Relation>)
    returns (trees: seq<Tree>, after: Forest)
    requires IsTable(parent, reps) && reps.Keys == people && Relating(base, placed, components, reps, done)
      && r !in done
    ensures IsTable(after, reps) && Relating(base, trees, components, reps, done + {r})
  {
    trees, after := placed, parent;
    if r.from in people && r.till in people {
      var component;
      component, after := Representative(after, r.from, reps);
      RelationJoins(base, trees, components, reps, done, r);
      trees := JoinRelation(trees, components, component, r);
    } else {
      RelationOutside(base, trees, components, reps, done, r);
    }
  }

  // ---- the whole page ----

  /** People are stored under their ids; a relation is identified by kind, id and endpoints. */
  ghost predicate Keyed(graph: set<Relation>, visible: map<nat, Person>) {
    && (forall x | x in visible :: visible[x].id == x)
    && (forall r, s | r in graph && s in graph && r.kind == s.kind && r.id == s.id && r.from == s.from
         && r.till == s.till :: r == s)
  }

  lemma {:induction false} LessTotal(a: string, b: string)
    ensures a == b || PathText.Less(a, b) || PathText.Less(b, a)
  {
    if a != "" && b != "" && a[0] == b[0] {
      LessTotal(a[1..], b[1..]);
      assert a == [a[0]] + a[1..] && b == [b[0]] + b[1..];
    }
  }

  lemma {:induction false} LessTrans(a: string, b: string, c: string)
    requires PathText.Less(a, b) && PathText.Less(b, c)
    ensures PathText.Less(a, c)
  {
    if a != "" && a[0] == b[0] && b[0] == c[0] {
      LessTrans(a[1..], b[1..], c[1..]);
    }
  }

  lemma RelationsComparable(s: seq<Relation>, graph: set<Relation>, visible: map<nat, Person>)
    requires Keyed(graph, visible) && (forall r | r in s :: r in graph)
    requires forall i, j | 0 <= i < j < |s| :: s[i] != s[j]
    ensures Comparable(s, RelationBefore)
  {
    forall x, y | x in s && y in s && x != y ensures RelationBefore(x, y) || RelationBefore(y, x) {
      LessTotal(x.kind, y.kind);
    }
    forall x, y, z | x in s && y in s && z in s && RelationBefore(x, y) && RelationBefore(y, z)
      ensures RelationBefore(x, z)
    {
      if PathText.Less(x.kind, y.kind) && PathText.Less(y.kind, z.kind) {
        LessTrans(x.kind, y.kind, z.kind);
      }
      BeforeTrans(x, y, z);
    }
  }

  lemma BeforeTrans(x: Relation, y: Relation, z: Relation)
    requires RelationBefore(x, y) && RelationBefore(y, z)
    requires PathText.Less(x.kind, y.kind) && PathText.Less(y.kind, z.kind) ==> PathText.Less(x.kind, z.kind)
    ensures RelationBefore(x, z)
  {
    LessIrreflexive(x.kind, y.kind);
  }

  lemma {:induction false} LessIrreflexive(a: string, b: string)
    ensures !(PathText.Less(a, b) && PathText.Less(b, a))
  {
    if a != "" && b != "" && a[0] == b[0] {
      LessIrreflexive(a[1..], b[1..]);
    }
  }

  ghost predicate HasRoot(trees: seq<Tree>, s: nat) {
    exists i :: 0 <= i < |trees| && s in trees[i].roots
  }

  /** The page holds exactly the families of the visible selected people, each once. */
  ghost predicate IsPage(graph: set<Relation>, visible: map<nat, Person>, roots: seq<nat>, trees: seq<Tree>) {
    && (forall t | t in trees :: IsTree(graph, visible, roots, t))
    && (forall s | s in roots && s in visible :: HasRoot(trees, s))
    && (forall i, j | 0 <= i < j < |trees| ::
         trees[i].id < trees[j].id && trees[j].id !in Component(graph, visible, trees[i].id))
  }

  ghost predicate Classes(graph: set<Relation>, visible: map<nat, Person>, reps: map<nat, nat>) {
    forall id | id in reps :: Class(reps, id) == Component(graph, visible, id)
  }

  lemma EdgesOfClass(graph: set<Relation>, visible: map<nat, Person>, reps: map<nat, nat>, id: nat, r: Relation)
    requires Classes(graph, visible, reps) && id in reps && reps.Keys <= visible.Keys
    ensures r in ClassEdges(Touching(graph, reps.Keys), reps, id)
      <==> r in graph && r.from in Component(graph, visible, id) && r.till in Component(graph, visible, id)
  {
    assert Class(reps, id) == Component(graph, visible, id);
    if r in graph && r.from in Component(graph, visible, id) && r.till in reps {
      var edges := VisibleEdges(graph, visible);
      LinkedStep(edges, r);
      LinkedTrans(edges, id, r.from, r.till);
    }
  }

  lemma SortedIsTree(graph: set<Relation>, visible: map<nat, Person>, roots: seq<nat>, people: map<nat, Person>,
                     reps: map<nat, nat>, t: Tree, sorted: Tree)
    requires Classes(graph, visible, reps) && t.id in reps && reps.Keys == people.Keys && Faithful(people, visible)
    requires t.roots == Keep(roots, Class(reps, t.id)) && t.roots != [] && t.roots[0] == t.id
    requires HasPeople(t, people, Class(reps, t.id) * people.Keys)
    requires HasRelations(t, ClassEdges(Touching(graph, reps.Keys), reps, t.id))
    requires sorted.id == t.id && sorted.roots == t.roots
    requires Ordered(sorted.people, PersonBefore) && (forall p :: p in sorted.people <==> p in t.people)
    requires Ordered(sorted.relations, RelationBefore) && (forall r :: r in sorted.relations <==> r in t.relations)
    ensures IsTree(graph, visible, roots, sorted)
  {
    assert Class(reps, t.id) == Component(graph, visible, t.id);
    forall r ensures r in sorted.relations
      <==> r in graph && r.from in Component(graph, visible, t.id) && r.till in Component(graph, visible, t.id)
    {
      EdgesOfClass(graph, visible, reps, t.id, r);
    }
  }

  method SortTree(graph: set<Relation>, visible: map<nat, Person>, ghost roots: seq<nat>,
                  ghost people: map<nat, Person>, ghost reps: map<nat, nat>, t: Tree)
    returns (sorted: Tree)
    requires Keyed(graph, visible)
    requires Classes(graph, visible, reps) && t.id in reps && reps.Keys == people.Keys && Faithful(people, visible)
    requires t.roots == Keep(roots, Class(reps, t.id)) && t.roots != [] && t.roots[0] == t.id
    requires HasPeople(t, people, Class(reps, t.id) * people.Keys)
    requires HasRelations(t, ClassEdges(Touching(graph, reps.Keys), reps, t.id))
    ensures IsTree(graph, visible, roots, sorted) && sorted.id == t.id && sorted.roots == t.roots
  {
    PeopleComparable(t, people, Class(reps, t.id) * people.Keys, visible);
    RelationsComparable(t.relations, graph, visible);
    var byId := Sort(t.people, PersonBefore);
    var byEnds := Sort(t.relations, RelationBefore);
    sorted := Tree(t.id, t.roots, byId, byEnds);
    SortedIsTree(graph, visible, roots, people, reps, t, sorted);
  }

  lemma PeopleComparable(t: Tree, people: map<nat, Person>, ids: set<nat>, visible: map<nat, Person>)
    requires HasPeople(t, people, ids) && Faithful(people, visible)
    ensures Comparable(t.people, PersonBefore)
  {}

  ghost predicate Placed(trees: seq<Tree>, reps: map<nat, nat>, people: map<nat, Person>, roots: seq<nat>,
                         edges: set<Relation>)
  {
    forall t | t in trees ::
      && t.id in reps
      && t.roots == Keep(roots, Class(reps, t.id)) && t.roots != [] && t.roots[0] == t.id
      && HasPeople(t, people, Class(reps, t.id) * people.Keys)
      && HasRelations(t, ClassEdges(edges, reps, t.id))
  }

  /** Everything selected is placed; families are in ascending order and apart. */
  ghost predicate Covered(trees: seq<Tree>, reps: map<nat, nat>, roots: seq<nat>) {
    && (forall t | t in trees :: t.id in reps)
    && (forall s | s in roots && s in reps :: HasRoot(trees, s))
    && (forall i, j | 0 <= i < j < |trees| :: trees[i].id < trees[j].id && trees[j].id !in Class(reps, trees[i].id))
  }

  lemma PlacingCovers(trees: seq<Tree>, components: map<nat, nat>, reps: map<nat, nat>, roots: seq<nat>)
    requires Placing(trees, components, reps, roots)
    ensures Covered(trees, reps, roots)
  {
    forall s | s in roots && s in reps ensures HasRoot(trees, s) {
      var i := components[reps[s]];
      KeepHas(roots, Class(reps, trees[i].id), s);
      assert s in trees[i].roots;
    }
  }

  ghost predicate SameNames(a: seq<Tree>, b: seq<Tree>) {
    |a| == |b| && forall i | 0 <= i < |a| :: b[i].id == a[i].id && b[i].roots == a[i].roots
  }

  lemma SameRootsCover(a: seq<Tree>, b: seq<Tree>, reps: map<nat, nat>, roots: seq<nat>)
    requires Covered(a, reps, roots) && SameNames(a, b)
    ensures Covered(b, reps, roots)
  {
    forall s | s in roots && s in reps ensures HasRoot(b, s) {
      assert HasRoot(a, s);
      var i :| 0 <= i < |a| && s in a[i].roots;
      assert s in b[i].roots;
    }
    forall t | t in b ensures t.id in reps {
      var i :| 0 <= i < |b| && b[i] == t;
      assert a[i] in a;
    }
  }

  lemma AllPlaced(first: seq<Tree>, second: seq<Tree>, third: seq<Tree>, components: map<nat, nat>, reps: map<nat, nat>,
                  people: map<nat, Person>, roots: seq<nat>, edges: set<Relation>)
    requires Placing(first, components, reps, roots)
    requires Peopling(first, second, components, reps, people, people.Keys)
    requires Relating(second, third, components, reps, edges)
    ensures Placed(third, reps, people, roots, edges) && Covered(third, reps, roots)
  {
    PlacingCovers(first, components, reps, roots);
    SameRootsCover(first, second, reps, roots);
    SameRootsCover(second, third, reps, roots);
    OnesPlaced(first, second, third, components, reps, people, roots, edges);
  }

  lemma OnesPlaced(first: seq<Tree>, second: seq<Tree>, third: seq<Tree>, components: map<nat, nat>,
                   reps: map<nat, nat>, people: map<nat, Person>, roots: seq<nat>, edges: set<Relation>)
    requires Shape(first, components, reps) && RootsPlaced(first, reps, roots)
    requires Peopling(first, second, components, reps, people, people.Keys)
    requires Relating(second, third, components, reps, edges)
    ensures Placed(third, reps, people, roots, edges)
  {
    forall t | t in third
      ensures t.id in reps && HasPeople(t, people, Class(reps, t.id) * people.Keys)
        && HasRelations(t, ClassEdges(edges, reps, t.id))
      ensures t.roots == Keep(roots, Class(reps, t.id)) && t.roots != [] && t.roots[0] == t.id
    {
      var i :| 0 <= i < |third| && third[i] == t;
      assert first[i].id == second[i].id == t.id && first[i].roots == t.roots;
      assert HasPeople(second[i], people, Class(reps, second[i].id) * people.Keys);
    }
  }

  /** A tree in terms of its rows: the selected people it holds, and the orders of its lists. */
  ghost predicate ListedInOrder(graph: set<Relation>, visible: map<nat, Person>, roots: seq<nat>, t: Tree) {
    && (forall x :: x in t.roots <==> x in roots && x in visible && Linked(VisibleEdges(graph, visible), t.id, x))
    && (forall i, j | 0 <= i < j < |t.roots| :: t.roots[i] < t.roots[j])
    && (forall i, j | 0 <= i < j < |t.people| :: t.people[i].id < t.people[j].id)
    && (forall i, j | 0 <= i < j < |t.relations| ::
          var a, b := t.relations[i], t.relations[j];
          || a.from < b.from
          || (a.from == b.from && a.till < b.till)
          || (a.from == b.from && a.till == b.till && a.kind != b.kind && PathText.Less(a.kind, b.kind))
          || (a.from == b.from && a.till == b.till && a.kind == b.kind && a.id < b.id))
  }

  lemma {:induction false} KeepOrdered(s: seq<nat>, kept: set<nat>)
    requires forall i, j | 0 <= i < j < |s| :: s[i] < s[j]
    ensures forall i, j | 0 <= i < j < |Keep(s, kept)| :: Keep(s, kept)[i] < Keep(s, kept)[j]
  {
    if s != [] {
      var init, last := s[..|s| - 1], s[|s| - 1];
      KeepOrdered(init, kept);
      assert s == init + [last];
      var kept' := Keep(init, kept);
      forall i | 0 <= i < |kept'| ensures kept'[i] < last {
        KeepHas(init, kept, kept'[i]);
        assert kept'[i] in init;
      }
    }
  }

  lemma TreeIsListed(graph: set<Relation>, visible: map<nat, Person>, roots: seq<nat>, t: Tree)
    requires IsTree(graph, visible, roots, t)
    requires forall i, j | 0 <= i < j < |roots| :: roots[i] < roots[j]
    ensures ListedInOrder(graph, visible, roots, t)
  {
    KeepOrdered(roots, Component(graph, visible, t.id));
    forall x ensures x in t.roots <==> x in roots && x in Component(graph, visible, t.id) {
      KeepHas(roots, Component(graph, visible, t.id), x);
    }
  }

  /** The page of families: the partition of the visible graph into the components of the visible
      selected people.  Refused exactly when the search is. */
  method Trees(graph: set<Relation>, visible: map<nat, Person>, roots: seq<nat>) returns (page: Page)
    requires Keyed(graph, visible)
    requires forall i, j | 0 <= i < j < |roots| :: roots[i] < roots[j]
    ensures page.NoRoots? <==> roots == []
    ensures page.TooMany? <==> roots != [] && !WithinLimits(graph, visible, ToSet(roots))
    ensures page.Page? ==> IsPage(graph, visible, roots, page.trees)
    ensures page.Page? ==> forall t | t in page.trees :: ListedInOrder(graph, visible, roots, t)
  {
    if roots == [] {
      return NoRoots;
    }
    var ok, people, edges := Search(graph, visible, roots);
    if !ok {
      return TooMany;
    }
    var parent := BuildForest(people.Keys, edges);
    ghost var reps := SomeTable(parent);
    ClassesAreComponents(graph, visible, ToSet(roots), parent, reps);
    var trees := Partition(roots, people, edges, parent, reps);
    assert Covered(trees, reps, roots) && Placed(trees, reps, people, roots, edges);
    trees := SortTrees(graph, visible, roots, people, reps, trees);
    forall s | s in roots && s in visible ensures s in reps {
      LinkedSelf(VisibleEdges(graph, visible), s);
      assert s in ToSet(roots);
    }
    CoveredIsPage(graph, visible, roots, reps, trees);
    forall t | t in trees ensures ListedInOrder(graph, visible, roots, t) {
      TreeIsListed(graph, visible, roots, t);
    }
    page := Page(trees);
  }

  method Partition(roots: seq<nat>, people: map<nat, Person>, edges: set<Relation>, parent: Forest,
                   ghost reps: map<nat, nat>)
    returns (trees: seq<Tree>)
    requires IsTable(parent, reps) && reps.Keys == people.Keys
    requires forall x | x in people :: people[x].id == x
    requires forall i, j | 0 <= i < j < |roots| :: roots[i] < roots[j]
    ensures Placed(trees, reps, people, roots, edges) && Covered(trees, reps, roots)
  {
    var first, components, after := PlaceRoots(roots, people.Keys, parent, reps);
    var second;
    second, after := PlacePeople(first, components, people, after, reps);
    trees := PlaceRelations(second, components, people.Keys, edges, after, reps);
    AllPlaced(first, second, trees, components, reps, people, roots, edges);
  }

  lemma ClassesAreComponents(graph: set<Relation>, visible: map<nat, Person>, roots: set<nat>, parent: Forest,
                             reps: map<nat, nat>)
    requires IsTable(parent, reps) && parent.Keys == ReachedPeople(graph, visible, roots)
    requires Represents(parent, Inner(Touching(graph, parent.Keys), parent.Keys))
    ensures Classes(graph, visible, reps)
  {
    forall id | id in reps ensures Class(reps, id) == Component(graph, visible, id) {
      ClassIsComponent(graph, visible, roots, parent, reps, id);
    }
  }

  method SortTrees(graph: set<Relation>, visible: map<nat, Person>, roots: seq<nat>, people: map<nat, Person>,
                   ghost reps: map<nat, nat>, trees: seq<Tree>)
    returns (sorted: seq<Tree>)
    requires Keyed(graph, visible) && Classes(graph, visible, reps) && reps.Keys == people.Keys
      && Faithful(people, visible)
    requires Placed(trees, reps, people, roots, Touching(graph, reps.Keys)) && Covered(trees, reps, roots)
    ensures Covered(sorted, reps, roots)
    ensures forall t | t in sorted :: IsTree(graph, visible, roots, t)
  {
    sorted := [];
    for i := 0 to |trees|
      invariant |sorted| == i && SameNames(trees[..i], sorted)
      invariant forall t | t in sorted :: IsTree(graph, visible, roots, t)
    {
      assert trees[i] in trees;
      var t := SortTree(graph, visible, roots, people, reps, trees[i]);
      assert trees[..i + 1] == trees[..i] + [trees[i]];
      sorted := sorted + [t];
    }
    assert trees[..|trees|] == trees;
    SameRootsCover(trees, sorted, reps, roots);
  }

  lemma CoveredIsPage(graph: set<Relation>, visible: map<nat, Person>, roots: seq<nat>, reps: map<nat, nat>,
                      trees: seq<Tree>)
    requires Classes(graph, visible, reps) && Covered(trees, reps, roots)
    requires forall t | t in trees :: IsTree(graph, visible, roots, t)
    requires forall s | s in roots && s in visible :: s in reps
    ensures IsPage(graph, visible, roots, trees)
  {
    forall i, j | 0 <= i < j < |trees| ensures trees[j].id !in Component(graph, visible, trees[i].id) {
      assert trees[i] in trees;
      assert Class(reps, trees[i].id) == Component(graph, visible, trees[i].id);
    }
  }

  // ---- the page does not depend on the order of maps, batches or edges ----

  lemma SameComponent(graph: set<Relation>, visible: map<nat, Person>, x: nat, y: nat)
    requires x in visible && y in Component(graph, visible, x)
    ensures Component(graph, visible, x) == Component(graph, visible, y)
  {
    var edges := VisibleEdges(graph, visible);
    LinkedSym(edges, x, y);
    forall z | z in visible ensures Linked(edges, x, z) <==> Linked(edges, y, z) {
      if Linked(edges, y, z) {
        LinkedTrans(edges, x, y, z);
      }
      if Linked(edges, x, z) {
        LinkedTrans(edges, y, x, z);
      }
    }
  }

  lemma SameTree(graph: set<Relation>, visible: map<nat, Person>, roots: seq<nat>, a: Tree, b: Tree)
    requires Keyed(graph, visible) && IsTree(graph, visible, roots, a) && IsTree(graph, visible, roots, b)
    requires a.id in b.roots
    ensures a == b
  {
    KeepHas(roots, Component(graph, visible, b.id), a.id);
    SameComponent(graph, visible, b.id, a.id);
    OrderedIsUnique(a.people, b.people, PersonBefore);
    forall x, y | x in a.relations && y in a.relations ensures !(RelationBefore(x, y) && RelationBefore(y, x)) {
      LessIrreflexive(x.kind, y.kind);
    }
    OrderedIsUnique(a.relations, b.relations, RelationBefore);
  }

  lemma TreeInBoth(graph: set<Relation>, visible: map<nat, Person>, roots: seq<nat>, a: seq<Tree>, b: seq<Tree>,
                   t: Tree)
    requires Keyed(graph, visible) && IsPage(graph, visible, roots, a) && IsPage(graph, visible, roots, b) && t in a
    ensures t in b
  {
    assert IsTree(graph, visible, roots, t) && t.id in t.roots;
    KeepHas(roots, Component(graph, visible, t.id), t.id);
    assert HasRoot(b, t.id);
    var i :| 0 <= i < |b| && t.id in b[i].roots;
    assert b[i] in b;
    SameTree(graph, visible, roots, t, b[i]);
  }

  predicate TreeBefore(a: Tree, b: Tree) {
    a.id < b.id
  }

  /** There is only one page, so nothing depends on any iteration order. */
  lemma PageIsUnique(graph: set<Relation>, visible: map<nat, Person>, roots: seq<nat>, a: seq<Tree>, b: seq<Tree>)
    requires Keyed(graph, visible) && IsPage(graph, visible, roots, a) && IsPage(graph, visible, roots, b)
    ensures a == b
  {
    forall t ensures t in a <==> t in b {
      if t in a {
        TreeInBoth(graph, visible, roots, a, b, t);
      }
      if t in b {
        TreeInBoth(graph, visible, roots, b, a, t);
      }
    }
    OrderedIsUnique(a, b, TreeBefore);
  }

  /** Nothing is lost or doubled: a person reachable from a selected one is in exactly one tree. */
  lemma EachPersonOnce(graph: set<Relation>, visible: map<nat, Person>, roots: seq<nat>, trees: seq<Tree>, x: nat)
    requires Keyed(graph, visible) && IsPage(graph, visible, roots, trees)
    ensures Reached(graph, visible, ToSet(roots), x) <==>
      exists i :: 0 <= i < |trees| && x in visible && visible[x] in trees[i].people
    ensures forall i, j | 0 <= i < j < |trees| && x in visible ::
      !(visible[x] in trees[i].people && visible[x] in trees[j].people)
  {
    if Reached(graph, visible, ToSet(roots), x) {
      var edges := VisibleEdges(graph, visible);
      var s :| s in ToSet(roots) && s in visible && Linked(edges, s, x);
      assert HasRoot(trees, s);
      var i :| 0 <= i < |trees| && s in trees[i].roots;
      assert trees[i] in trees;
      KeepHas(roots, Component(graph, visible, trees[i].id), s);
      SameComponent(graph, visible, trees[i].id, s);
      assert x in Component(graph, visible, s);
      assert visible[x] in trees[i].people;
    }
    if i :| 0 <= i < |trees| && x in visible && visible[x] in trees[i].people {
      var t := trees[i];
      assert t in trees && t.id in t.roots;
      KeepHas(roots, Component(graph, visible, t.id), t.id);
      assert t.id in ToSet(roots);
    }
    forall i, j | 0 <= i < j < |trees| && x in visible
      ensures !(visible[x] in trees[i].people && visible[x] in trees[j].people)
    {
      assert trees[i] in trees && trees[j] in trees;
      if x in Component(graph, visible, trees[i].id) && x in Component(graph, visible, trees[j].id) {
        SameComponent(graph, visible, trees[i].id, x);
        SameComponent(graph, visible, trees[j].id, x);
        LinkedSelf(VisibleEdges(graph, visible), trees[j].id);
        assert false;
      }
    }
  }
}
