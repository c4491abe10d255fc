/** Union/find with path halving over person ids; a parent is never larger than its child. */
module UnionFind {
  import opened FamilyGraph
  import opened Pick

  type Forest = map<nat, nat>

  ghost predicate Lower(parent: Forest, x: nat) {
    x in parent && parent[x] in parent && parent[x] <= x
  }

  ghost predicate Valid(parent: Forest) {
    forall x {:trigger Lower(parent, x)} | x in parent :: Lower(parent, x)
  }

  function Root(parent: Forest, x: nat): (r: nat)
    requires Valid(parent) && x in parent
    ensures r in parent && r <= x && parent[r] == r
  {
    assert Lower(parent, x);
    if parent[x] == x then x else Root(parent, parent[x])
  }

  ghost predicate SameRoot(a: Forest, b: Forest, x: nat)
    requires Valid(a) && Valid(b) && x in a && x in b
  {
    Root(a, x) == Root(b, x)
  }

  /** Same keys, same representative everywhere. */
  ghost predicate SameRoots(a: Forest, b: Forest)
    requires Valid(a) && Valid(b)
  {
    a.Keys == b.Keys && forall x {:trigger SameRoot(a, b, x)} | x in a :: SameRoot(a, b, x)
  }

  /** Path halving: pointing a node at its grandparent. */
  function Halve(parent: Forest, x: nat): Forest
    requires Valid(parent) && x in parent
  {
    assert Lower(parent, x);
    parent[x := parent[parent[x]]]
  }

  lemma HalveIsValid(parent: Forest, x: nat)
    requires Valid(parent) && x in parent
    ensures Valid(Halve(parent, x))
  {
    var h := Halve(parent, x);
    forall y {:trigger Lower(h, y)} | y in h ensures Lower(h, y) {
      assert Lower(parent, y) && Lower(parent, parent[y]);
    }
  }

  lemma {:induction false} HalveKeepsRoot(parent: Forest, x: nat, y: nat)
    requires Valid(parent) && x in parent && y in parent
    ensures Valid(Halve(parent, x)) && Root(Halve(parent, x), y) == Root(parent, y)
    decreases y
  {
    var h := Halve(parent, x);
    HalveIsValid(parent, x);
    assert Lower(parent, y) && Lower(parent, parent[y]) && Lower(h, y);
    if h[y] != y {
      HalveKeepsRoot(parent, x, h[y]);
    }
  }

  lemma HalveSameRoots(parent: Forest, x: nat)
    requires Valid(parent) && x in parent
    ensures Valid(Halve(parent, x)) && SameRoots(parent, Halve(parent, x))
  {
    var h := Halve(parent, x);
    HalveIsValid(parent, x);
    forall y {:trigger SameRoot(parent, h, y)} | y in parent ensures SameRoot(parent, h, y) {
      HalveKeepsRoot(parent, x, y);
    }
  }

  lemma SameRootsTrans(a: Forest, b: Forest, c: Forest)
    requires Valid(a) && Valid(b) && Valid(c) && SameRoots(a, b) && SameRoots(b, c)
    ensures SameRoots(a, c)
  {
    forall x {:trigger SameRoot(a, c, x)} | x in a ensures SameRoot(a, c, x) {
      assert SameRoot(a, b, x) && SameRoot(b, c, x);
    }
  }

  lemma RootAbove(parent: Forest, x: nat)
    requires Valid(parent) && x in parent
    ensures Lower(parent, x) && Root(parent, parent[x]) == Root(parent, x)
  {
    assert Lower(parent, x);
  }

  /** The loop of find; it ends because parents never grow. */
  method Find(parent: Forest, id: nat) returns (r: nat, after: Forest)
    requires Valid(parent) && id in parent
    ensures Valid(after) && SameRoots(parent, after)
    ensures r == Root(parent, id)
  {
    after, r := parent, id;
    while after[r] != r
      invariant Valid(after) && SameRoots(parent, after)
      invariant r in after && Root(after, r) == Root(parent, id)
      decreases r
    {
      HalveSameRoots(after, r);
      ghost var h := Halve(after, r);
      SameRootsTrans(parent, after, h);
      assert SameRoot(after, h, r);
      RootAbove(after, r);
      RootAbove(h, r);
      after := after[r := after[after[r]]];
      r := after[r];
    }
  }

  /** Hanging the larger representative below the smaller one joins exactly their two classes. */
  lemma {:induction false} JoinRoots(parent: Forest, low: nat, high: nat, y: nat)
    requires Valid(parent) && low in parent && high in parent && y in parent
    requires parent[low] == low && parent[high] == high && low < high
    ensures Valid(parent[high := low])
    ensures Root(parent[high := low], y) == if Root(parent, y) == high then low else Root(parent, y)
    decreases y
  {
    var joined := parent[high := low];
    forall x {:trigger Lower(joined, x)} | x in joined ensures Lower(joined, x) {
      assert Lower(parent, x);
    }
    assert Lower(parent, y);
    if parent[y] != y {
      JoinRoots(parent, low, high, parent[y]);
    }
  }

  ghost predicate Agree(parent: Forest, edges: set<Relation>, x: nat, y: nat)
    requires Valid(parent) && x in parent && y in parent
  {
    Root(parent, x) == Root(parent, y) <==> Linked(edges, x, y)
  }

  /** Two people have the same representative exactly when they are linked by the edges so far. */
  ghost predicate Represents(parent: Forest, edges: set<Relation>)
    requires Valid(parent)
  {
    forall x, y {:trigger Agree(parent, edges, x, y)} | x in parent && y in parent :: Agree(parent, edges, x, y)
  }

  lemma StartRepresents(people: set<nat>, parent: Forest)
    requires parent == map x | x in people :: x
    ensures Valid(parent) && Represents(parent, {})
  {
    assert forall x {:trigger Lower(parent, x)} | x in parent :: Lower(parent, x);
    forall x, y {:trigger Agree(parent, {}, x, y)} | x in parent && y in parent ensures Agree(parent, {}, x, y) {
      if x == y {
        LinkedSelf({}, x);
      } else {
        NoEdgesNoLinks({}, x, y);
      }
    }
  }

  lemma NoEdgesNoLinks(edges: set<Relation>, x: nat, y: nat)
    requires edges == {} && x != y
    ensures !Linked(edges, x, y)
  {
    forall p ensures !PathFrom(edges, p, x, y) {
      if |p| > 1 {
        assert !Adjacent(edges, p[0], p[1]);
      }
    }
  }

  /** One more edge links what was linked to its two ends. */
  lemma OneMoreEdge(edges: set<Relation>, r: Relation, x: nat, y: nat)
    ensures Linked(edges + {r}, x, y) <==>
      || Linked(edges, x, y)
      || (Linked(edges, x, r.from) && Linked(edges, r.till, y))
      || (Linked(edges, x, r.till) && Linked(edges, r.from, y))
  {
    var more := edges + {r};
    if Linked(more, x, y) {
      var p :| PathFrom(more, p, x, y);
      PathWithEdge(edges, r, p, x, y);
    }
    if Linked(edges, x, y) {
      LinkedMore(edges, more, x, y);
    }
    LinkedStep(more, r);
    LinkedSym(more, r.from, r.till);
    if Linked(edges, x, r.from) && Linked(edges, r.till, y) {
      Bridge(edges, more, x, r.from, r.till, y);
    }
    if Linked(edges, x, r.till) && Linked(edges, r.from, y) {
      Bridge(edges, more, x, r.till, r.from, y);
    }
  }

  lemma Bridge(edges: set<Relation>, more: set<Relation>, x: nat, u: nat, v: nat, y: nat)
    requires edges <= more && Linked(edges, x, u) && Linked(more, u, v) && Linked(edges, v, y)
    ensures Linked(more, x, y)
  {
    LinkedMore(edges, more, x, u);
    LinkedMore(edges, more, v, y);
    LinkedTrans(more, x, u, v);
    LinkedTrans(more, x, v, y);
  }

  lemma {:induction false} PathWithEdge(edges: set<Relation>, r: Relation, p: seq<nat>, x: nat, y: nat)
    requires PathFrom(edges + {r}, p, x, y)
    ensures || Linked(edges, x, y)
            || (Linked(edges, x, r.from) && Linked(edges, r.till, y))
            || (Linked(edges, x, r.till) && Linked(edges, r.from, y))
    decreases |p|
  {
    if |p| == 1 {
      LinkedSelf(edges, x);
    } else {
      var q := p[1..];
      assert PathFrom(edges + {r}, q, q[0], y);
      PathWithEdge(edges, r, q, q[0], y);
      assert Adjacent(edges + {r}, p[0], p[1]);
      var s :| s in edges + {r} && Joins(s, x, q[0]);
      if s in edges {
        assert Adjacent(edges, x, q[0]);
        assert PathFrom(edges, [x, q[0]], x, q[0]);
        Prepend(edges, x, q[0], y);
        Prepend(edges, x, q[0], r.from);
        Prepend(edges, x, q[0], r.till);
      } else {
        LinkedSelf(edges, x);
        LinkedSelf(edges, r.from);
        LinkedSelf(edges, r.till);
        EndOfEdge(edges, r, x, q[0], y);
      }
    }
  }

  lemma Prepend(edges: set<Relation>, x: nat, u: nat, y: nat)
    requires Linked(edges, x, u)
    ensures Linked(edges, u, y) ==> Linked(edges, x, y)
  {
    if Linked(edges, u, y) {
      LinkedTrans(edges, x, u, y);
    }
  }

  lemma EndOfEdge(edges: set<Relation>, r: Relation, x: nat, u: nat, y: nat)
    requires Joins(r, x, u) && Linked(edges, x, x)
    requires || Linked(edges, u, y)
             || (Linked(edges, u, r.from) && Linked(edges, r.till, y))
             || (Linked(edges, u, r.till) && Linked(edges, r.from, y))
    ensures || Linked(edges, x, y)
            || (Linked(edges, x, r.from) && Linked(edges, r.till, y))
            || (Linked(edges, x, r.till) && Linked(edges, r.from, y))
  {}

  function Low(a: nat, b: nat): nat {
    if a < b then a else b
  }

  function High(a: nat, b: nat): nat {
    if a < b then b else a
  }

  /** The forest after the ends of `r` are united. */
  function United(parent: Forest, a: nat, b: nat): (after: Forest)
    requires a in parent && b in parent
    ensures after.Keys == parent.Keys
  {
    if a == b then parent else parent[High(a, b) := Low(a, b)]
  }

  lemma UnitedRoot(parent: Forest, a: nat, b: nat, x: nat)
    requires Valid(parent) && a in parent && b in parent && x in parent
    requires parent[a] == a && parent[b] == b
    ensures Valid(United(parent, a, b))
    ensures Root(United(parent, a, b), x) == if Root(parent, x) == High(a, b) then Low(a, b) else Root(parent, x)
  {
    if a != b {
      JoinRoots(parent, Low(a, b), High(a, b), x);
    }
  }

  lemma UnitedPair(parent: Forest, edges: set<Relation>, r: Relation, x: nat, y: nat)
    requires Valid(parent) && Represents(parent, edges) && r.from in parent && r.till in parent
    requires x in parent && y in parent
    ensures var after := United(parent, Root(parent, r.from), Root(parent, r.till));
      Valid(after) && Agree(after, edges + {r}, x, y)
  {
    OneMoreEdge(edges, r, x, y);
    UnitedRoot(parent, Root(parent, r.from), Root(parent, r.till), x);
    UnitedRoot(parent, Root(parent, r.from), Root(parent, r.till), y);
    assert Agree(parent, edges, x, y);
    assert Agree(parent, edges, x, r.from);
    assert Agree(parent, edges, x, r.till);
    assert Agree(parent, edges, r.from, y);
    assert Agree(parent, edges, r.till, y);
  }

  /** Uniting the ends of an edge keeps the representation. */
  lemma UniteRepresents(parent: Forest, edges: set<Relation>, r: Relation, a: nat, b: nat, after: Forest)
    requires Valid(parent) && Represents(parent, edges) && r.from in parent && r.till in parent
    requires a == Root(parent, r.from) && b == Root(parent, r.till) && after == United(parent, a, b)
    ensures Valid(after) && Represents(after, edges + {r}) && after.Keys == parent.Keys
  {
    UnitedRoot(parent, a, b, a);
    forall x, y {:trigger Agree(after, edges + {r}, x, y)} | x in after && y in after
      ensures Agree(after, edges + {r}, x, y)
    {
      UnitedPair(parent, edges, r, x, y);
    }
  }

  lemma SameRootsRepresent(a: Forest, b: Forest, edges: set<Relation>)
    requires Valid(a) && Valid(b) && SameRoots(a, b) && Represents(a, edges)
    ensures Represents(b, edges)
  {
    forall x, y {:trigger Agree(b, edges, x, y)} | x in b && y in b ensures Agree(b, edges, x, y) {
      assert Agree(a, edges, x, y);
      assert SameRoot(a, b, x) && SameRoot(a, b, y);
    }
  }

  method Unite(parent: Forest, r: Relation, ghost edges: set<Relation>) returns (after: Forest)
    requires Valid(parent) && Represents(parent, edges) && r.from in parent && r.till in parent
    ensures Valid(after) && Represents(after, edges + {r}) && after.Keys == parent.Keys
  {
    var a, b, first, second;
    a, first := Find(parent, r.from);
    b, second := Find(first, r.till);
    TwoFinds(parent, edges, r, first, second);
    after := United(second, a, b);
    UniteRepresents(second, edges, r, a, b, after);
  }

  lemma TwoFinds(parent: Forest, edges: set<Relation>, r: Relation, first: Forest, second: Forest)
    requires Valid(parent) && Represents(parent, edges) && r.from in parent && r.till in parent
    requires Valid(first) && SameRoots(parent, first) && Valid(second) && SameRoots(first, second)
    ensures Represents(second, edges)
    ensures Root(second, r.from) == Root(parent, r.from) && Root(second, r.till) == Root(first, r.till)
  {
    SameRootsRepresent(parent, first, edges);
    SameRootsRepresent(first, second, edges);
    assert SameRoot(parent, first, r.from) && SameRoot(first, second, r.from) && SameRoot(first, second, r.till);
  }

  /** The edges with both ends among `people`. */
  ghost function Inner(edges: set<Relation>, people: set<nat>): set<Relation> {
    set r | r in edges && r.from in people && r.till in people
  }

  lemma InnerMore(edges: set<Relation>, r: Relation, people: set<nat>)
    ensures Inner(edges + {r}, people)
      == if r.from in people && r.till in people then Inner(edges, people) + {r} else Inner(edges, people)
  {}

  /** Takes the edges in any order; edges with an end outside are skipped. */
  method BuildForest(people: set<nat>, edges: set<Relation>) returns (parent: Forest)
    ensures Valid(parent) && parent.Keys == people
    ensures Represents(parent, Inner(edges, people))
  {
    parent := map x | x in people :: x;
    StartRepresents(people, parent);
    var todo := edges;
    assert Inner(edges - todo, people) == {};
    while todo != {}
      invariant todo <= edges
      invariant Valid(parent) && parent.Keys == people
      invariant Represents(parent, Inner(edges - todo, people))
      decreases todo
    {
      var r := Any(todo);
      ghost var done := edges - todo;
      todo := todo - {r};
      assert edges - todo == done + {r};
      InnerMore(done, r, people);
      if r.from in people && r.till in people {
        parent := Unite(parent, r, Inner(done, people));
      }
    }
    assert edges - todo == edges;
  }
}
