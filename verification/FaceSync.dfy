/** Incremental synchronisation as a function on views, and its agreement with a full rebuild
    for every order in which the affected people are visited. */
module FaceSync {
  import opened FaceTables

  /** The effect of synchronising one person whose current rows are `next`: faces still filed
      under the person that are gone from the table disappear, unless another person already
      claimed them; then the rows of the person are installed. */
  function SyncStep(v: View, p: int, next: map<int, Entry>): View {
    var gone := set f | f in v.filings && f.person == p && f.id !in next
                        && f.id in v.entries && v.entries[f.id].person == p :: f.id;
    View((v.entries - gone) + next,
         (set f | f in v.filings && f.person != p) + Filings(next))
  }

  /** Visiting people in the given order; the query for person `p` saw the tables `seen[p]`. */
  function SyncFold(v: View, order: seq<int>, seen: map<int, Tables>, model: string): View
    requires forall p | p in order :: p in seen
  {
    if order == [] then v
    else
      var p := order[|order| - 1];
      SyncStep(SyncFold(v, order[..|order| - 1], seen, model), p, PersonRows(seen[p], model, p))
  }

  ghost predicate NoDuplicates(s: seq<int>) {
    forall i, j | 0 <= i < j < |s| :: s[i] != s[j]
  }

  /** A listing of a set of people, each once, in any order. */
  ghost predicate Lists(order: seq<int>, people: set<int>) {
    NoDuplicates(order) && people == set p | p in order
  }

  lemma ListsGrow(order: seq<int>, people: set<int>, p: int)
    requires Lists(order, people) && p !in people
    ensures Lists(order + [p], people + {p})
  {
    forall q ensures q in order + [p] <==> q in people + {p} {}
  }

  /** Whoever has been visited has exactly the rows of that visit filed. */
  lemma {:induction false} VisitFilesRows(v: View, order: seq<int>, seen: map<int, Tables>, model: string, p: int)
    requires (forall q | q in order :: q in seen) && NoDuplicates(order) && p in order
    ensures forall id, x :: Filing(p, id, x) in SyncFold(v, order, seen, model).filings <==>
      CurrentReference(seen[p], model, id) && seen[p].references[id] == p && seen[p].faces[id].embedding == Some(x)
  {
    var init, last := order[..|order| - 1], order[|order| - 1];
    assert order == init + [last];
    forall q | q in init ensures q in seen {
      assert q in order;
    }
    var before := SyncFold(v, init, seen, model);
    var rows := PersonRows(seen[last], model, last);
    if p == last {
      forall id, x
        ensures Filing(p, id, x) in Filings(rows) <==>
          CurrentReference(seen[p], model, id) && seen[p].references[id] == p && seen[p].faces[id].embedding == Some(x)
      {
        FilingsHas(rows, Filing(p, id, x));
        RowsAreCurrent(seen[p], model, id);
      }
    } else {
      VisitFilesRows(v, init, seen, model, p);
      hide CurrentReference;
      forall id, x ensures Filing(p, id, x) !in Filings(rows) {
        FilingsHas(rows, Filing(p, id, x));
      }
    }
  }

  /** What synchronising exactly the people of `a` leaves: their current rows, and the old rows
      of everybody else. */
  function Synced(e0: map<int, Entry>, e1: map<int, Entry>, a: set<int>): View {
    View(
      (map id | id in e0 && e0[id].person !in a :: e0[id]) + (map id | id in e1 && e1[id].person in a :: e1[id]),
      (set f | f in Filings(e0) && f.person !in a) + (set f | f in Filings(e1) && f.person in a))
  }

  /** `a` contains the old and the new person of every changed reference. */
  ghost predicate Covers(a: set<int>, e0: map<int, Entry>, e1: map<int, Entry>) {
    && (forall id | id in e0 && (id !in e1 || e1[id] != e0[id]) :: e0[id].person in a)
    && (forall id | id in e1 && (id !in e0 || e1[id] != e0[id]) :: e1[id].person in a)
  }

  lemma FilingsHas(e: map<int, Entry>, f: Filing)
    ensures f in Filings(e) <==> f.id in e && e[f.id].person == f.person && e[f.id].vector == f.vector
  {
    if f.id in e && e[f.id].person == f.person && e[f.id].vector == f.vector {
      assert f == Filing(e[f.id].person, f.id, e[f.id].vector);
    }
  }

  lemma StepEntries(e0: map<int, Entry>, e1: map<int, Entry>, d: set<int>, p: int)
    requires p !in d
    ensures SyncStep(Synced(e0, e1, d), p, Slice(e1, p)).entries == Synced(e0, e1, d + {p}).entries
  {
    var v, next := Synced(e0, e1, d), Slice(e1, p);
    var gone := set f | f in v.filings && f.person == p && f.id !in next
                        && f.id in v.entries && v.entries[f.id].person == p :: f.id;
    var after, want := (v.entries - gone) + next, Synced(e0, e1, d + {p}).entries;
    forall id
      ensures id in after <==> id in want
      ensures id in after ==> after[id] == want[id]
    {
      if id in v.entries && v.entries[id].person == p {
        var f := Filing(p, id, e0[id].vector);
        FilingsHas(e0, f);
        assert f in v.filings;
      }
    }
  }

  lemma StepFilings(e0: map<int, Entry>, e1: map<int, Entry>, d: set<int>, p: int)
    requires p !in d
    ensures SyncStep(Synced(e0, e1, d), p, Slice(e1, p)).filings == Synced(e0, e1, d + {p}).filings
  {
    var v, w := SyncStep(Synced(e0, e1, d), p, Slice(e1, p)).filings, Synced(e0, e1, d + {p}).filings;
    forall f ensures f in v <==> f in w {
      FilingsHas(e1, f);
      FilingsHas(Slice(e1, p), f);
    }
  }

  lemma SyncedNobody(e0: map<int, Entry>, e1: map<int, Entry>)
    ensures Synced(e0, e1, {}) == Rebuilt(e0)
  {
    assert Synced(e0, e1, {}).entries == e0;
    assert Synced(e0, e1, {}).filings == Filings(e0);
  }

  lemma SyncedStep(e0: map<int, Entry>, e1: map<int, Entry>, d: set<int>, p: int)
    requires p !in d
    ensures SyncStep(Synced(e0, e1, d), p, Slice(e1, p)) == Synced(e0, e1, d + {p})
  {
    StepEntries(e0, e1, d, p);
    StepFilings(e0, e1, d, p);
  }

  lemma {:induction false} SyncFoldIsSynced(e0: map<int, Entry>, e1: map<int, Entry>, order: seq<int>, people: set<int>,
                                            seen: map<int, Tables>, model: string)
    requires Lists(order, people)
    requires forall p | p in order :: p in seen && PersonRows(seen[p], model, p) == Slice(e1, p)
    ensures SyncFold(Rebuilt(e0), order, seen, model) == Synced(e0, e1, people)
  {
    if order == [] {
      assert people == {};
      SyncedNobody(e0, e1);
    } else {
      var init, p := order[..|order| - 1], order[|order| - 1];
      assert order == init + [p];
      assert Lists(init, people - {p});
      SyncFoldIsSynced(e0, e1, init, people - {p}, seen, model);
      SyncedStep(e0, e1, people - {p}, p);
      assert people - {p} + {p} == people;
    }
  }

  lemma CoveringSyncIsRebuilt(e0: map<int, Entry>, e1: map<int, Entry>, a: set<int>)
    requires Covers(a, e0, e1)
    ensures Synced(e0, e1, a) == Rebuilt(e1)
  {
    var s := Synced(e0, e1, a);
    forall id
      ensures id in s.entries <==> id in e1
      ensures id in e1 ==> s.entries[id] == e1[id]
    {}
    assert s.entries == e1;
    forall f ensures f in s.filings <==> f in Filings(e1) {
      FilingsHas(e0, f);
      FilingsHas(e1, f);
    }
  }

  lemma RebuiltSyncCovers(e0: map<int, Entry>, e1: map<int, Entry>, a: set<int>)
    requires Synced(e0, e1, a) == Rebuilt(e1)
    ensures Covers(a, e0, e1)
  {
    var s := Synced(e0, e1, a);
    forall id | id in e0 && (id !in e1 || e1[id] != e0[id])
      ensures e0[id].person in a
    {
      var f := Filing(e0[id].person, id, e0[id].vector);
      FilingsHas(e0, f);
      FilingsHas(e1, f);
      assert f.person !in a ==> f in s.filings;
    }
    forall id | id in e1 && (id !in e0 || e1[id] != e0[id])
      ensures e1[id].person in a
    {
      assert s.entries[id] == e1[id];
    }
  }

  /** Incremental sync equals rebuild, for every visiting order of the affected people, exactly
      when the affected people cover every change. */
  lemma IncrementalSyncEqualsRebuild(e0: map<int, Entry>, t: Tables, model: string, order: seq<int>, people: set<int>,
                                     seen: map<int, Tables>)
    requires Lists(order, people) && Sound(t, model)
    requires forall p | p in people :: p in seen && seen[p] == t
    ensures SyncFold(Rebuilt(e0), order, seen, model) == Rebuilt(Entries(t, model))
            <==> Covers(people, e0, Entries(t, model))
  {
    var e1 := Entries(t, model);
    QueriesAgree(t, model);
    SyncFoldIsSynced(e0, e1, order, people, seen, model);
    if Covers(people, e0, e1) {
      CoveringSyncIsRebuilt(e0, e1, people);
    }
    if Synced(e0, e1, people) == Rebuilt(e1) {
      RebuiltSyncCovers(e0, e1, people);
    }
  }
}
