/** The family graph: relations, visible people, and being linked through visible people. */
module FamilyGraph {

  /** `from` and `till` are the two endpoints; a relation record is identified by kind, id and
      endpoints. */
  datatype Relation = Relation(id: nat, from: nat, till: nat, kind: string, dates: string)

  datatype Person = Person(id: nat, name: string)

  predicate Joins(r: Relation, x: nat, y: nat) {
    (r.from == x && r.till == y) || (r.from == y && r.till == x)
  }

  ghost predicate Adjacent(edges: set<Relation>, x: nat, y: nat) {
    exists r :: r in edges && Joins(r, x, y)
  }

  ghost predicate IsPath(edges: set<Relation>, p: seq<nat>) {
    p != [] && forall i | 0 <= i < |p| - 1 :: Adjacent(edges, p[i], p[i + 1])
  }

  ghost predicate PathFrom(edges: set<Relation>, p: seq<nat>, x: nat, y: nat) {
    IsPath(edges, p) && p[0] == x && p[|p| - 1] == y
  }

  /** Connected by a chain of relations. */
  ghost predicate Linked(edges: set<Relation>, x: nat, y: nat) {
    exists p :: PathFrom(edges, p, x, y)
  }

  lemma LinkedSelf(edges: set<Relation>, x: nat)
    ensures Linked(edges, x, x)
  {
    assert PathFrom(edges, [x], x, x);
  }

  lemma LinkedStep(edges: set<Relation>, r: Relation)
    requires r in edges
    ensures Linked(edges, r.from, r.till)
  {
    assert Joins(r, r.from, r.till);
    assert PathFrom(edges, [r.from, r.till], r.from, r.till);
  }

  lemma LinkedTrans(edges: set<Relation>, x: nat, y: nat, z: nat)
    requires Linked(edges, x, y) && Linked(edges, y, z)
    ensures Linked(edges, x, z)
  {
    var p :| PathFrom(edges, p, x, y);
    var q :| PathFrom(edges, q, y, z);
    var w := p + q[1..];
    forall i | 0 <= i < |w| - 1 ensures Adjacent(edges, w[i], w[i + 1]) {
      if i >= |p| - 1 {
        assert w[i] == q[i - |p| + 1] && w[i + 1] == q[i - |p| + 2];
      }
    }
    assert PathFrom(edges, w, x, z);
  }

  lemma {:induction false} ReversePath(edges: set<Relation>, p: seq<nat>, x: nat, y: nat)
    requires PathFrom(edges, p, x, y)
    ensures Linked(edges, y, x)
    decreases |p|
  {
    if |p| == 1 {
      LinkedSelf(edges, x);
    } else {
      assert PathFrom(edges, p[1..], p[1], y);
      ReversePath(edges, p[1..], p[1], y);
      assert Adjacent(edges, p[0], p[1]);
      assert Adjacent(edges, p[1], p[0]) by {
        var r :| r in edges && Joins(r, p[0], p[1]);
        assert Joins(r, p[1], p[0]);
      }
      assert PathFrom(edges, [p[1], p[0]], p[1], x);
      LinkedTrans(edges, y, p[1], x);
    }
  }

  lemma LinkedSym(edges: set<Relation>, x: nat, y: nat)
    requires Linked(edges, x, y)
    ensures Linked(edges, y, x)
  {
    var p :| PathFrom(edges, p, x, y);
    ReversePath(edges, p, x, y);
  }

  lemma LinkedMore(edges: set<Relation>, more: set<Relation>, x: nat, y: nat)
    requires edges <= more && Linked(edges, x, y)
    ensures Linked(more, x, y)
  {
    var p :| PathFrom(edges, p, x, y);
    forall i | 0 <= i < |p| - 1 ensures Adjacent(more, p[i], p[i + 1]) {
      assert Adjacent(edges, p[i], p[i + 1]);
    }
    assert PathFrom(more, p, x, y);
  }

  /** A relation that is followed by every step of every path is followed by the whole path. */
  lemma {:induction false} StepsToLinks(edges: set<Relation>, same: (nat, nat) -> bool, p: seq<nat>, x: nat, y: nat)
    requires PathFrom(edges, p, x, y)
    requires forall u :: same(u, u)
    requires forall u, v, w | same(u, v) && same(v, w) :: same(u, w)
    requires forall r | r in edges :: same(r.from, r.till) && same(r.till, r.from)
    ensures same(x, y)
    decreases |p|
  {
    if |p| > 1 {
      assert Adjacent(edges, p[0], p[1]);
      StepsToLinks(edges, same, p[1..], p[1], y);
      assert same(x, p[1]);
    }
  }

  // ---- the visible part ----

  /** Relations with both ends visible. */
  function VisibleEdges(graph: set<Relation>, visible: map<nat, Person>): set<Relation> {
    set r | r in graph && r.from in visible && r.till in visible
  }

  /** Visible people linked to a visible selected person without passing a hidden one. */
  ghost predicate Reached(graph: set<Relation>, visible: map<nat, Person>, roots: set<nat>, x: nat) {
    x in visible && exists s :: s in roots && s in visible && Linked(VisibleEdges(graph, visible), s, x)
  }

  ghost function ReachedPeople(graph: set<Relation>, visible: map<nat, Person>, roots: set<nat>): set<nat> {
    set x | x in visible && Reached(graph, visible, roots, x)
  }

  function Touching(graph: set<Relation>, people: set<nat>): set<Relation> {
    set r | r in graph && (r.from in people || r.till in people)
  }

  function Ends(edges: set<Relation>): set<nat> {
    (set r | r in edges :: r.from) + (set r | r in edges :: r.till)
  }

  /** Everybody the search has to look at: the selected people and all ends of relations of reached
      people, hidden ones included. */
  ghost function Examined(graph: set<Relation>, visible: map<nat, Person>, roots: set<nat>): set<nat> {
    roots + Ends(Touching(graph, ReachedPeople(graph, visible, roots)))
  }

  /** A set of visible people that contains the visible roots, is reached, and is closed under
      visible relations is everything reached. */
  lemma ClosedIsReached(graph: set<Relation>, visible: map<nat, Person>, roots: set<nat>, people: set<nat>)
    requires forall x | x in people :: Reached(graph, visible, roots, x)
    requires forall s | s in roots && s in visible :: s in people
    requires forall r | r in VisibleEdges(graph, visible) :: r.from in people <==> r.till in people
    ensures people == ReachedPeople(graph, visible, roots)
  {
    forall x | x in ReachedPeople(graph, visible, roots) ensures x in people {
      var s :| s in roots && s in visible && Linked(VisibleEdges(graph, visible), s, x);
      var p :| PathFrom(VisibleEdges(graph, visible), p, s, x);
      StepsToLinks(VisibleEdges(graph, visible), (u: nat, v: nat) => u in people ==> v in people, p, s, x);
    }
  }

  lemma NeighbourReached(graph: set<Relation>, visible: map<nat, Person>, roots: set<nat>, x: nat, y: nat, r: Relation)
    requires Reached(graph, visible, roots, x) && y in visible && r in graph && Joins(r, x, y)
    ensures Reached(graph, visible, roots, y)
  {
    var edges := VisibleEdges(graph, visible);
    var s :| s in roots && s in visible && Linked(edges, s, x);
    assert r in edges && Adjacent(edges, x, y);
    assert PathFrom(edges, [x, y], x, y);
    LinkedTrans(edges, s, x, y);
  }
}
