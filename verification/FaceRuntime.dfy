/** The in-memory reference graph: full rebuild and incremental synchronisation, in place. */
module FaceRuntime {
  import opened FaceTables
  import opened FaceSync
  import opened Pick

  /** The lists of one person: face ids and, position by position, their vectors. */
  ghost predicate Parallel(ids: seq<int>, vectors: seq<Vector>) {
    |ids| == |vectors| > 0 && NoDuplicates(ids)
  }

  ghost predicate FiledAt(ids: seq<int>, vectors: seq<Vector>, id: int, vector: Vector)
    requires |ids| == |vectors|
  {
    exists k :: 0 <= k < |ids| && ids[k] == id && vectors[k] == vector
  }

  /** The three maps hold the entries `e`. */
  ghost predicate EntriesShown(people: map<int, int>, favorites: map<int, Vector>, vectors: map<int, Vector>,
                               e: map<int, Entry>)
  {
    && people.Keys == e.Keys
    && (forall id | id in e :: people[id] == e[id].person)
    && (forall id :: id in favorites <==> id in e && e[id].favorite)
    && (forall id | id in favorites :: favorites[id] == e[id].vector)
    && (forall id :: id in vectors <==> id in e && !e[id].favorite)
    && (forall id | id in vectors :: vectors[id] == e[id].vector)
  }

  /** The lists of all people hold exactly the filings. */
  ghost predicate FilingsShown(nodes: map<int, seq<int>>, groups: map<int, seq<Vector>>, filings: set<Filing>) {
    && nodes.Keys == groups.Keys
    && (forall p | p in nodes :: Parallel(nodes[p], groups[p]))
    && (forall p, k | p in nodes && 0 <= k < |nodes[p]| :: Filing(p, nodes[p][k], groups[p][k]) in filings)
    && (forall f | f in filings :: f.person in nodes && FiledAt(nodes[f.person], groups[f.person], f.id, f.vector))
  }

  lemma FavoriteSet(people: map<int, int>, favorites: map<int, Vector>, vectors: map<int, Vector>, e: map<int, Entry>,
                    id: int, r: Entry)
    requires EntriesShown(people, favorites, vectors, e) && r.favorite
    ensures EntriesShown(people[id := r.person], favorites[id := r.vector], vectors - {id}, e[id := r])
  {}

  lemma FavoriteUnset(people: map<int, int>, favorites: map<int, Vector>, vectors: map<int, Vector>, e: map<int, Entry>,
                      id: int, r: Entry)
    requires EntriesShown(people, favorites, vectors, e) && !r.favorite
    ensures EntriesShown(people[id := r.person], favorites - {id}, vectors[id := r.vector], e[id := r])
  {}

  lemma EntryGone(people: map<int, int>, favorites: map<int, Vector>, vectors: map<int, Vector>, e: map<int, Entry>,
                  id: int)
    requires EntriesShown(people, favorites, vectors, e)
    ensures EntriesShown(people - {id}, favorites - {id}, if id in favorites then vectors else vectors - {id}, e - {id})
  {}

  lemma FilingAdded(nodes: map<int, seq<int>>, groups: map<int, seq<Vector>>, filings: set<Filing>, p: int, id: int,
                    v: Vector)
    requires FilingsShown(nodes, groups, filings)
    requires forall f | f in filings && f.person == p :: f.id != id
    ensures FilingsShown(nodes[p := ListOf(nodes, p) + [id]], groups[p := ListOf(groups, p) + [v]],
      filings + {Filing(p, id, v)})
  {
    var ids, vs := ListOf(nodes, p), ListOf(groups, p);
    var nodes', groups' := nodes[p := ids + [id]], groups[p := vs + [v]];
    assert forall k | 0 <= k < |ids| :: Filing(p, ids[k], vs[k]) in filings;
    assert nodes'[p][|ids|] == id && groups'[p][|ids|] == v;
    forall f | f in filings ensures FiledAt(nodes'[f.person], groups'[f.person], f.id, f.vector) {
      var k :| 0 <= k < |nodes[f.person]| && nodes[f.person][k] == f.id && groups[f.person][k] == f.vector;
      assert nodes'[f.person][k] == f.id && groups'[f.person][k] == f.vector;
    }
  }

  ghost function OthersThan(filings: set<Filing>, p: int): set<Filing> {
    set f | f in filings && f.person != p
  }

  lemma PersonRemoved(nodes: map<int, seq<int>>, groups: map<int, seq<Vector>>, filings: set<Filing>, p: int)
    requires FilingsShown(nodes, groups, filings)
    ensures FilingsShown(nodes - {p}, groups - {p}, OthersThan(filings, p))
  {}

  function ListOf<T>(m: map<int, seq<T>>, p: int): seq<T> {
    if p in m then m[p] else []
  }

  class Runtime {
    var present: bool             // graph is not nil
    var model: string
    var revision: int
    var people: map<int, int>
    var nodes: map<int, seq<int>>
    var favorites: map<int, Vector>
    var vectors: map<int, Vector>
    var groups: map<int, seq<Vector>>

    constructor ()
      ensures !present
    {
      present, model, revision := false, "", 0;
      people, nodes, favorites, vectors, groups := map[], map[], map[], map[], map[];
    }

    ghost predicate ShowsEntries(e: map<int, Entry>)
      reads this
    {
      EntriesShown(people, favorites, vectors, e)
    }

    ghost predicate ShowsFilings(filings: set<Filing>)
      reads this
    {
      FilingsShown(nodes, groups, filings)
    }

    /** The maps hold the view `v`, in some order inside each person's lists. */
    ghost predicate Shows(v: View)
      reads this
    {
      present && ShowsEntries(v.entries) && ShowsFilings(v.filings)
    }

    /** The maps hold the current references of public photos, each under its person, and nothing else. */
    ghost predicate Caches(t: Tables, m: string)
      reads this
    {
      && present
      && (forall id :: id in people <==> CurrentReference(t, m, id) && !t.faces[id].adminOnly)
      && (forall id | id in people && CurrentReference(t, m, id) ::
            var f := t.faces[id];
            && people[id] == f.person
            && (f.favorite ==> id !in vectors && id in favorites && Some(favorites[id]) == f.embedding)
            && (!f.favorite ==> id !in favorites && id in vectors && Some(vectors[id]) == f.embedding))
      && (forall p, id, x :: IsFiled(p, id, x) <==>
            CurrentReference(t, m, id) && !t.faces[id].adminOnly && t.faces[id].person == p
            && t.faces[id].embedding == Some(x))
    }

    /** The face and its vector are in the lists of the person. */
    ghost predicate IsFiled(p: int, id: int, x: Vector)
      reads this
    {
      p in nodes && p in groups && |nodes[p]| == |groups[p]| && FiledAt(nodes[p], groups[p], id, x)
    }

    lemma FiledIs(filings: set<Filing>, p: int, id: int, x: Vector)
      requires ShowsFilings(filings)
      ensures IsFiled(p, id, x) <==> Filing(p, id, x) in filings
    {
      if IsFiled(p, id, x) {
        var k :| 0 <= k < |nodes[p]| && nodes[p][k] == id && groups[p][k] == x;
        assert Filing(p, nodes[p][k], groups[p][k]) in filings;
      }
    }

    lemma RebuiltCaches(t: Tables, m: string)
      requires Shows(Rebuilt(Entries(t, m)))
      ensures Caches(t, m)
    {
      var e := Entries(t, m);
      forall id ensures id in people <==> CurrentReference(t, m, id) && !t.faces[id].adminOnly {
        RowsAreCurrent(t, m, id);
      }
      forall p, id, x
        ensures IsFiled(p, id, x) <==>
          CurrentReference(t, m, id) && !t.faces[id].adminOnly && t.faces[id].person == p
            && t.faces[id].embedding == Some(x)
      {
        FiledIs(Filings(e), p, id, x);
        FilingsHas(e, Filing(p, id, x));
        RowsAreCurrent(t, m, id);
      }
    }

    /** Loads every reference of the tables `t`, in any row order.  The revision was read before
        the rows.  A failing query or cancellation leaves no graph. */
    method Rebuild(t: Tables, currentRevision: int, requestedModel: string) returns (ok: bool)
      modifies this
      ensures ok ==> Shows(Rebuilt(Entries(t, requestedModel))) && Caches(t, requestedModel)
      ensures ok ==> revision == currentRevision && model == requestedModel
      ensures !ok ==> !present
    {
      present, model := true, requestedModel;
      people, nodes, favorites, vectors, groups := map[], map[], map[], map[], map[];
      var rows := Entries(t, model);
      var todo := rows.Keys;
      NoRowsRead(rows);
      while todo != {}
        invariant present && model == requestedModel && rows == Entries(t, model)
        invariant todo <= rows.Keys
        invariant ShowsEntries(rows - todo) && ShowsFilings(Filings(rows - todo))
        decreases todo
      {
        var id := Any(todo);
        if * {
          present := false;
          return false;
        }
        OneMoreRow(rows, todo, id);
        LoadRow(id, rows[id], rows - todo);
        todo := todo - {id};
      }
      revision := currentRevision;
      ok := true;
      assert rows - {} == rows;
      RebuiltCaches(t, model);
    }

    method LoadRow(id: int, r: Entry, ghost done: map<int, Entry>)
      requires ShowsEntries(done) && ShowsFilings(Filings(done)) && id !in done
      modifies `people, `favorites, `vectors, `nodes, `groups
      ensures ShowsEntries(done[id := r]) && ShowsFilings(Filings(done[id := r]))
    {
      if r.favorite {
        FavoriteSet(people, favorites, vectors, done, id, r);
        assert vectors - {id} == vectors;
        favorites := favorites[id := r.vector];
      } else {
        FavoriteUnset(people, favorites, vectors, done, id, r);
        assert favorites - {id} == favorites;
        vectors := vectors[id := r.vector];
      }
      people := people[id := r.person];
      assert ShowsEntries(done[id := r]);
      FilingsGrow(done, id, r);
      forall f | f in Filings(done) ensures f.id != id {
        FilingsHas(done, f);
      }
      Append(r.person, id, r.vector, Filings(done));
    }

    lemma FilingsGrow(e: map<int, Entry>, id: int, r: Entry)
      requires id !in e
      ensures Filings(e[id := r]) == Filings(e) + {Filing(r.person, id, r.vector)}
    {
      forall f ensures f in Filings(e[id := r]) <==> f in Filings(e) + {Filing(r.person, id, r.vector)} {
        FilingsHas(e, f);
        FilingsHas(e[id := r], f);
      }
    }

    method Append(p: int, id: int, v: Vector, ghost filings: set<Filing>)
      requires ShowsFilings(filings)
      requires forall f | f in filings && f.person == p :: f.id != id
      modifies `nodes, `groups
      ensures ShowsFilings(filings + {Filing(p, id, v)})
    {
      FilingAdded(nodes, groups, filings, p, id, v);
      nodes := nodes[p := ListOf(nodes, p) + [id]];
      groups := groups[p := ListOf(groups, p) + [v]];
    }

    /** The faces listed under `p` whose row vanished or changed its favorite mark and that no
        other person has claimed. */
    ghost function Dropped(v: View, p: int, next: map<int, Entry>): set<int> {
      set f | f in v.filings && f.person == p && f.id in v.entries && v.entries[f.id].person == p
              && (f.id !in next || v.entries[f.id].favorite != next[f.id].favorite) :: f.id
    }

    method Forget(p: int, next: map<int, Entry>, ghost v: View)
      requires Shows(v)
      modifies `people, `favorites, `vectors
      ensures ShowsEntries(v.entries - Dropped(v, p, next))
    {
      var ids := ListOf(nodes, p);
      ghost var e := v.entries;
      for i := 0 to |ids|
        invariant nodes == old(nodes) && groups == old(groups)
        invariant e == v.entries - (Dropped(v, p, next) * IdSet(ids[..i])) && ShowsEntries(e)
      {
        var id := ids[i];
        assert Filing(p, id, groups[p][i]) in v.filings;
        ForgetOne(v, p, next, ids, i);
        if id !in next || (id in favorites) != next[id].favorite {
          if id in people && people[id] == p {
            EntryGone(people, favorites, vectors, e, id);
            if id !in favorites {
              vectors := vectors - {id};
            }
            favorites := favorites - {id};
            people := people - {id};
            e := e - {id};
          }
        }
      }
      AllListed(v, p, next, ids);
    }

    ghost function IdSet(ids: seq<int>): set<int> {
      set id | id in ids
    }

    lemma ForgetOne(v: View, p: int, next: map<int, Entry>, ids: seq<int>, i: nat)
      requires i < |ids| && NoDuplicates(ids)
      requires forall f | f in v.filings && f.person == p :: f.id in ids
      requires exists f :: f in v.filings && f.person == p && f.id == ids[i]
      ensures var rest := v.entries - (Dropped(v, p, next) * IdSet(ids[..i]));
        var id := ids[i];
        var gone :=
          (id !in next || (id in rest && rest[id].favorite) != next[id].favorite) && id in rest && rest[id].person == p;
        v.entries - (Dropped(v, p, next) * IdSet(ids[..i + 1])) == if gone then rest - {id} else rest
    {
      assert ids[..i + 1] == ids[..i] + [ids[i]];
      assert IdSet(ids[..i + 1]) == IdSet(ids[..i]) + {ids[i]};
      assert ids[i] !in ids[..i];
    }

    lemma AllListed(v: View, p: int, next: map<int, Entry>, ids: seq<int>)
      requires forall f | f in v.filings && f.person == p :: f.id in ids
      ensures Dropped(v, p, next) * IdSet(ids[..|ids|]) == Dropped(v, p, next)
    {
      assert ids[..|ids|] == ids;
    }

    /** Installs the current row of one face of `p`, wherever the face was before. */
    method InstallRow(p: int, id: int, r: Entry, ghost e: map<int, Entry>, ghost filings: set<Filing>)
      requires ShowsEntries(e) && ShowsFilings(filings) && r.person == p
      requires forall f | f in filings && f.person == p :: f.id != id
      modifies `people, `favorites, `vectors, `nodes, `groups
      ensures ShowsEntries(e[id := r]) && ShowsFilings(filings + {Filing(p, id, r.vector)})
    {
      if r.favorite {
        FavoriteSet(people, favorites, vectors, e, id, r);
        vectors := vectors - {id};
        favorites := favorites[id := r.vector];
      } else {
        FavoriteUnset(people, favorites, vectors, e, id, r);
        favorites := favorites - {id};
        vectors := vectors[id := r.vector];
      }
      people := people[id := p];
      assert ShowsEntries(e[id := r]);
      Append(p, id, r.vector, filings);
    }

    lemma InstalledStep(e: map<int, Entry>, filings: set<Filing>, done: map<int, Entry>, id: int, r: Entry)
      requires id !in done
      ensures forall f | f in Filings(done) :: f.id != id
      ensures filings + Filings(done) + {Filing(r.person, id, r.vector)} == filings + Filings(done[id := r])
      ensures (e + done)[id := r] == e + done[id := r]
    {
      FilingsGrow(done, id, r);
      forall f | f in Filings(done) ensures f.id != id {
        FilingsHas(done, f);
      }
    }

    method InstallRows(p: int, next: map<int, Entry>, ghost e: map<int, Entry>, ghost filings: set<Filing>)
      requires ShowsEntries(e) && ShowsFilings(filings)
      requires forall id | id in next :: next[id].person == p
      requires forall f | f in filings :: f.person != p
      modifies `people, `favorites, `vectors, `nodes, `groups
      ensures ShowsEntries(e + next) && ShowsFilings(filings + Filings(next))
    {
      var todo := next.Keys;
      NoRowsRead(next);
      assert e + map[] == e && filings + Filings(map[]) == filings;
      while todo != {}
        invariant todo <= next.Keys
        invariant ShowsEntries(e + (next - todo)) && ShowsFilings(filings + Filings(next - todo))
        decreases todo
      {
        var id := Any(todo);
        OneMoreRow(next, todo, id);
        InstalledStep(e, filings, next - todo, id, next[id]);
        InstallRow(p, id, next[id], e + (next - todo), filings + Filings(next - todo));
        todo := todo - {id};
      }
    }

    lemma DroppedThenInstalled(v: View, p: int, next: map<int, Entry>)
      ensures (v.entries - Dropped(v, p, next)) + next == SyncStep(v, p, next).entries
    {
      var left, right := (v.entries - Dropped(v, p, next)) + next, SyncStep(v, p, next).entries;
      forall id
        ensures id in left <==> id in right
        ensures id in left ==> left[id] == right[id]
      {}
    }

    /** One person of the incremental sync: `next` are the rows of the person's query. */
    method SyncPerson(p: int, next: map<int, Entry>, ghost v: View)
      requires Shows(v)
      requires forall id | id in next :: next[id].person == p
      modifies `people, `favorites, `vectors, `nodes, `groups
      ensures Shows(SyncStep(v, p, next))
    {
      Forget(p, next, v);
      PersonRemoved(nodes, groups, v.filings, p);
      nodes := nodes - {p};
      groups := groups - {p};
      ghost var others := OthersThan(v.filings, p);
      InstallRows(p, next, v.entries - Dropped(v, p, next), others);
      DroppedThenInstalled(v, p, next);
    }

    /** Synchronises the given people in any order.  `seen[p]` are the tables at the moment the
        query for person `p` ran; outside writers may run in between. */
    method SyncFaceGraphPeople(persons: set<int>, seen: map<int, Tables>, committedRevision: int, ghost v: View)
      returns (ok: bool, ghost order: seq<int>)
      requires present ==> Shows(v)
      requires persons <= seen.Keys
      modifies this
      ensures model == old(model)
      ensures !old(present) ==> ok && !present
      ensures old(present) && ok ==>
        Lists(order, persons) && revision == committedRevision && Shows(SyncFold(v, order, seen, model))
      ensures old(present) && ok ==> FilesRows(persons, seen)
      ensures !ok ==> !present
    {
      hide FilesRows;
      order := [];
      if !present {
        return true, order;
      }
      var todo := persons;
      while todo != {}
        invariant todo <= persons && Lists(order, persons - todo)
        invariant forall p | p in order :: p in persons
        invariant Shows(SyncFold(v, order, seen, model))
        invariant model == old(model)
        decreases todo
      {
        var p := Any(todo);
        if * {
          present := false;
          return false, order;
        }
        ghost var before := SyncFold(v, order, seen, model);
        assert (order + [p])[..|order|] == order;
        ListsGrow(order, persons - todo, p);
        todo := todo - {p};
        assert persons - todo == (persons - (todo + {p})) + {p};
        SyncPerson(p, PersonRows(seen[p], model, p), before);
        order := order + [p];
      }
      revision := committedRevision;
      ok := true;
      VisitedAreFiled(v, order, persons, seen);
    }

    /** Under each of the people exactly the current references of the person's rows are filed. */
    ghost predicate FilesRows(persons: set<int>, seen: map<int, Tables>)
      requires persons <= seen.Keys
      reads this
    {
      forall p, id, x | p in persons ::
        IsFiled(p, id, x) <==>
          CurrentReference(seen[p], model, id) && seen[p].references[id] == p && seen[p].faces[id].embedding == Some(x)
    }

    lemma VisitedAreFiled(v: View, order: seq<int>, persons: set<int>, seen: map<int, Tables>)
      requires Lists(order, persons) && persons <= seen.Keys && Shows(SyncFold(v, order, seen, model))
      ensures FilesRows(persons, seen)
    {
      hide IsFiled;
      hide SyncFold;
      hide ShowsEntries;
      hide ShowsFilings;
      forall p, id, x | p in persons
        ensures IsFiled(p, id, x) <==>
          CurrentReference(seen[p], model, id) && seen[p].references[id] == p && seen[p].faces[id].embedding == Some(x)
      {
        VisitFilesRows(v, order, seen, model, p);
        FiledIs(SyncFold(v, order, seen, model).filings, p, id, x);
      }
    }

    /** ensureFaceGraph: keep a graph whose revision and model still match, otherwise rebuild it
        from the tables `t` the row query sees; the revision was read from the tables `first`.
        An error before the revision is known keeps what is there. */
    method EnsureFaceGraph(first: Tables, t: Tables, requestedModel: string) returns (ok: bool, ghost kept: bool)
      modifies this
      ensures kept ==>
        && present == old(present) && model == old(model) && revision == old(revision) && people == old(people)
        && nodes == old(nodes) && favorites == old(favorites) && vectors == old(vectors) && groups == old(groups)
      ensures ok && kept ==> present && revision == first.revision && model == requestedModel
      ensures ok && !kept ==> Caches(t, requestedModel)
      ensures ok && !kept ==>
        Shows(Rebuilt(Entries(t, requestedModel))) && revision == first.revision && model == requestedModel
      ensures !ok && !kept ==> !present
    {
      if * {
        return false, true;
      }
      if present && revision == first.revision && model == requestedModel {
        return true, true;
      }
      ok := Rebuild(t, first.revision, requestedModel);
      kept := false;
    }

    /** syncFaceMutation: after a commit that read `baseRevision`, keep the graph only if it was
        current before the write. */
    method SyncFaceMutation(persons: set<int>, seen: map<int, Tables>, baseRevision: int, committedRevision: int,
                            ghost v: View)
      returns (ghost order: seq<int>)
      requires present ==> Shows(v)
      requires persons <= seen.Keys
      modifies this
      ensures model == old(model)
      ensures present ==>
        && old(present) && old(revision) == baseRevision && revision == committedRevision
        && Lists(order, persons) && Shows(SyncFold(v, order, seen, model))
    {
      order := [];
      if present && revision == baseRevision {
        var ok;
        ok, order := SyncFaceGraphPeople(persons, seen, committedRevision, v);
        if ok {
          return;
        }
      }
      present := false;
    }
  }
}
