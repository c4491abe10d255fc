/** Ranking people by a cheap upper bound and validating lazily, in SQL batches, until the
    exact best few are known. */
module FaceCandidates {
  import opened FaceTables
  import opened FaceOrder
  import opened FaceRuntime
  import opened Pick

  datatype Scope = AllPeople | Named | Unnamed | ConfirmedNamed | UnconfirmedUnnamed

  /** A cached reference as handed to validation; revision 0 means "do not compare". */
  datatype Reference = Reference(id: int, person: int, revision: int, vector: Option<Vector>)

  /** The joined row the validation query sees for a face, and whether the folders of the photo
      and of the imported name are private right now. */
  datatype Live = Live(
    person: int, revision: int, ignored: bool, needsReview: bool, embeddingCurrent: bool, adminOnly: bool,
    favorite: bool, referenceEligible: Option<bool>, personNamed: bool, manualName: bool,
    folderPrivate: bool, nameFolderPrivate: bool)

  const BATCH := 512

  predicate ScopeRow(row: Live, scope: Scope) {
    match scope
    case AllPeople => true
    case Named => row.personNamed
    case Unnamed => !row.personNamed
    case ConfirmedNamed => row.personNamed && row.manualName
    case UnconfirmedUnnamed => !row.personNamed && !row.manualName
  }

  /** The WHERE clause of the validation query. */
  predicate Selected(row: Live, scope: Scope) {
    && !row.ignored && !row.needsReview && row.embeddingCurrent && !row.adminOnly
    && (row.favorite || row.referenceEligible.None? || row.referenceEligible.value)
    && ScopeRow(row, scope)
  }

  /** The reference still supports its person. */
  predicate Supports(r: Reference, live: map<int, Live>, scope: Scope) {
    && r.id in live && Selected(live[r.id], scope)
    && live[r.id].person == r.person
    && (r.revision == 0 || r.revision == live[r.id].revision)
    && !live[r.id].folderPrivate && !live[r.id].nameFolderPrivate
    && r.vector.Some?
  }

  function Score(v: Vector, r: Reference): real
    requires r.vector.Some?
  {
    Cosine(v, r.vector.value)
  }

  function CandidateOf(v: Vector, r: Reference): Candidate
    requires r.vector.Some?
  {
    Candidate(r.person, Score(v, r), r.id)
  }

  /** A better witness for the same person: higher score, then smaller face id. */
  predicate Beats(a: Candidate, b: Candidate) {
    a.score > b.score || (a.score == b.score && a.face < b.face)
  }

  /** `c` is the best supporting reference of its person among `rs`. */
  ghost predicate IsBest(c: Candidate, v: Vector, rs: set<Reference>, live: map<int, Live>, scope: Scope) {
    Witnessed(c, v, rs, live, scope) && Unbeaten(c, v, rs, live, scope)
  }

  ghost predicate Witnessed(c: Candidate, v: Vector, rs: set<Reference>, live: map<int, Live>, scope: Scope) {
    exists r :: r in rs && Supports(r, live, scope) && CandidateOf(v, r) == c
  }

  ghost predicate Unbeaten(c: Candidate, v: Vector, rs: set<Reference>, live: map<int, Live>, scope: Scope) {
    forall r | r in rs && Supports(r, live, scope) && r.person == c.person :: !Beats(CandidateOf(v, r), c)
  }

  predicate PersonAllowed(p: int, excluded: set<int>, named: set<int>, scope: Scope) {
    && p !in excluded
    && (scope.Unnamed? || scope.UnconfirmedUnnamed? ==> p !in named)
    && (scope.Named? || scope.ConfirmedNamed? ==> p in named)
  }

  ghost predicate IsMaximum(s: real, v: Vector, vectors: seq<Vector>) {
    && (exists k :: 0 <= k < |vectors| && Cosine(v, vectors[k]) == s)
    && (forall k | 0 <= k < |vectors| :: Cosine(v, vectors[k]) <= s)
  }

  /** `ranked` lists the allowed people that have references, best upper bound first. */
  ghost predicate IsRanking(ranked: seq<Candidate>, groups: map<int, seq<Vector>>, v: Vector, excluded: set<int>,
                            named: set<int>, scope: Scope)
  {
    && Sorted(ranked) && DistinctPeople(ranked)
    && (forall c | c in ranked :: c.person in groups && PersonAllowed(c.person, excluded, named, scope)
                                  && IsMaximum(c.score, v, groups[c.person]))
    && (forall p | p in groups && groups[p] != [] && PersonAllowed(p, excluded, named, scope) ::
          exists c :: c in ranked && c.person == p)
  }

  /** `max` starts from minus infinity, written None. */
  method BestCosine(v: Vector, vectors: seq<Vector>) returns (best: Option<real>)
    ensures best.None? <==> vectors == []
    ensures best.Some? ==> IsMaximum(best.value, v, vectors)
  {
    best := None;
    for i := 0 to |vectors|
      invariant best.None? <==> i == 0
      invariant best.Some? ==> exists k :: 0 <= k < i && Cosine(v, vectors[k]) == best.value
      invariant best.Some? ==> forall k | 0 <= k < i :: Cosine(v, vectors[k]) <= best.value
    {
      var s := ComputeCosine(v, vectors[i]);
      if best.None? || best.value < s {
        best := Some(s);
      }
    }
  }

  method RankFacePersonsInScope(rt: Runtime, v: Vector, excluded: set<int>, named: set<int>, scope: Scope)
    returns (ranked: seq<Candidate>)
    ensures !rt.present ==> ranked == []
    ensures rt.present ==> IsRanking(ranked, rt.groups, v, excluded, named, scope)
  {
    if !rt.present {
      return [];
    }
    var groups := rt.groups;
    var persons := if scope.Named? || scope.ConfirmedNamed? then named else groups.Keys;
    var todo := persons;
    var found: seq<Candidate> := [];
    while todo != {}
      invariant todo <= persons
      invariant DistinctPeople(found)
      invariant forall c | c in found :: c.person in persons - todo && c.person in groups
                  && PersonAllowed(c.person, excluded, named, scope) && IsMaximum(c.score, v, groups[c.person])
      invariant forall p | p in persons - todo && p in groups && groups[p] != []
        && PersonAllowed(p, excluded, named, scope) ::
                  exists c :: c in found && c.person == p
      decreases todo
    {
      var p := Any(todo);
      todo := todo - {p};
      if !(p in excluded || ((scope.Unnamed? || scope.UnconfirmedUnnamed?) && p in named)) {
        var best := BestCosine(v, if p in groups then groups[p] else []);
        if best.Some? {
          ghost var before := found;
          found := found + [Candidate(p, best.value, 0)];
          assert found[|before|].person == p;
          forall c | c in before ensures c in found {}
        }
      }
    }
    ranked := SortCandidates(found);
    forall i, j | 0 <= i < j < |ranked| ensures ranked[i].person != ranked[j].person {
      assert ranked[i] in found && ranked[j] in found && Before(ranked[i], ranked[j]);
    }
  }

  // ---- lazy validation ----

  /** The references handed out per person: each names its own person, and an id always denotes
      the same reference. */
  ghost predicate Coherent(refs: map<int, seq<Reference>>) {
    && (forall p, k | p in refs && 0 <= k < |refs[p]| :: refs[p][k].person == p)
    && (forall p, k, q, l | p in refs && 0 <= k < |refs[p]| && q in refs && 0 <= l < |refs[q]| ::
          refs[p][k].id == refs[q][l].id ==> refs[p][k] == refs[q][l])
  }

  function ReferencesOf(refs: map<int, seq<Reference>>, p: int): seq<Reference> {
    if p in refs then refs[p] else []
  }

  /** All references of the people ranked. */
  ghost function Pool(refs: map<int, seq<Reference>>, ranked: seq<Candidate>): set<Reference> {
    set c, r | c in ranked && r in ReferencesOf(refs, c.person) :: r
  }

  /** `scores` holds exactly the best of every person supported by the references `rs`. */
  ghost predicate ScoresExact(scores: map<int, Candidate>, v: Vector, rs: set<Reference>, live: map<int, Live>,
                              scope: Scope)
  {
    && (forall p | p in scores :: scores[p].person == p && IsBest(scores[p], v, rs, live, scope))
    && (forall r | r in rs && Supports(r, live, scope) :: r.person in scores)
  }

  ghost predicate SameId(rs: set<Reference>) {
    forall r, s | r in rs && s in rs && r.id == s.id :: r == s
  }

  /** The scores after one more reference. */
  function Scored(scores: map<int, Candidate>, v: Vector, r: Reference, live: map<int, Live>, scope: Scope)
    : map<int, Candidate>
  {
    if Supports(r, live, scope) && (r.person !in scores || Beats(CandidateOf(v, r), scores[r.person]))
    then scores[r.person := CandidateOf(v, r)] else scores
  }

  lemma ScoreOne(scores: map<int, Candidate>, v: Vector, rs: set<Reference>, r: Reference, live: map<int, Live>,
                 scope: Scope)
    requires ScoresExact(scores, v, rs, live, scope)
    requires SameId(rs + {r})
    ensures ScoresExact(Scored(scores, v, r, live, scope), v, rs + {r}, live, scope)
  {
    var after := Scored(scores, v, r, live, scope);
    forall p | p in after ensures after[p].person == p && IsBest(after[p], v, rs + {r}, live, scope) {
      if p in scores && after[p] == scores[p] {
        OldStaysBest(scores[p], v, rs, r, live, scope);
      } else {
        NewIsBest(scores, v, rs, r, live, scope);
      }
    }
    forall s | s in rs + {r} && Supports(s, live, scope) ensures s.person in after {}
  }

  lemma OldStaysBest(c: Candidate, v: Vector, rs: set<Reference>, r: Reference, live: map<int, Live>, scope: Scope)
    requires IsBest(c, v, rs, live, scope) && SameId(rs + {r})
    requires Supports(r, live, scope) && c.person == r.person ==> !Beats(CandidateOf(v, r), c)
    ensures IsBest(c, v, rs + {r}, live, scope)
  {
    var w :| w in rs && Supports(w, live, scope) && CandidateOf(v, w) == c;
    assert w in rs + {r};
  }

  lemma NewIsBest(scores: map<int, Candidate>, v: Vector, rs: set<Reference>, r: Reference, live: map<int, Live>,
                  scope: Scope)
    requires ScoresExact(scores, v, rs, live, scope) && Supports(r, live, scope)
    requires r.person !in scores || Beats(CandidateOf(v, r), scores[r.person])
    ensures IsBest(CandidateOf(v, r), v, rs + {r}, live, scope)
  {
    assert r in rs + {r};
  }

  /** The references waiting for the next batch. */
  ghost function Pending(witnesses: map<int, Reference>): set<Reference> {
    set id | id in witnesses :: witnesses[id]
  }

  /** One SQL batch over the pending ids; rows come in any order. */
  method ValidateBatch(v: Vector, args: set<int>, witnesses: map<int, Reference>, live: map<int, Live>, scope: Scope,
                       scores: map<int, Candidate>, ghost done: set<Reference>)
    returns (after: map<int, Candidate>)
    requires args == witnesses.Keys && forall id | id in witnesses :: witnesses[id].id == id
    requires SameId(done + Pending(witnesses))
    requires ScoresExact(scores, v, done, live, scope)
    ensures ScoresExact(after, v, done + Pending(witnesses), live, scope)
  {
    after := scores;
    var rows := set id | id in args && id in live && Selected(live[id], scope);
    ghost var skipped := set id | id in witnesses && id !in rows :: witnesses[id];
    SkipRows(scores, v, done, skipped, live, scope);
    ghost var seen := done + skipped;
    while rows != {}
      invariant rows <= args
      invariant forall id | id in rows :: id in live && Selected(live[id], scope)
      invariant seen <= done + Pending(witnesses)
      invariant forall id | id in witnesses :: witnesses[id] in seen || id in rows
      invariant done <= seen
      invariant ScoresExact(after, v, seen, live, scope)
      decreases rows
    {
      var id := Any(rows);
      rows := rows - {id};
      var ref := witnesses[id];
      ScoreOne(after, v, seen, ref, live, scope);
      seen := seen + {ref};
      after := TakeRow(v, id, ref, live, scope, after);
    }
    forall r | r in Pending(witnesses) ensures r in seen {
      var id :| id in witnesses && witnesses[id] == r;
    }
    assert seen == done + Pending(witnesses);
  }

  method TakeRow(v: Vector, id: int, ref: Reference, live: map<int, Live>, scope: Scope, scores: map<int, Candidate>)
    returns (after: map<int, Candidate>)
    requires ref.id == id && id in live && Selected(live[id], scope)
    ensures after == Scored(scores, v, ref, live, scope)
  {
    after := scores;
    var row := live[id];
    if row.person != ref.person || (ref.revision != 0 && ref.revision != row.revision) || row.folderPrivate
      || row.nameFolderPrivate
    {
      return;
    }
    if ref.vector.Some? {
      var s := ComputeCosine(v, ref.vector.value);
      if row.person !in after || s > after[row.person].score
        || (s == after[row.person].score && id < after[row.person].face)
      {
        after := after[row.person := Candidate(row.person, s, id)];
      }
    }
  }

  /** References without a row change nothing. */
  lemma SkipRows(scores: map<int, Candidate>, v: Vector, rs: set<Reference>, skipped: set<Reference>,
                 live: map<int, Live>, scope: Scope)
    requires ScoresExact(scores, v, rs, live, scope)
    requires forall r | r in skipped :: !Supports(r, live, scope)
    ensures ScoresExact(scores, v, rs + skipped, live, scope)
  {
    forall p | p in scores ensures IsBest(scores[p], v, rs + skipped, live, scope) {
      var w :| w in rs && Supports(w, live, scope) && CandidateOf(v, w) == scores[p];
      assert w in rs + skipped;
    }
  }

  /** Queues one reference and runs the query when the batch is full. */
  method QueueReference(v: Vector, r: Reference, live: map<int, Live>, scope: Scope,
                        scores: map<int, Candidate>,
                          witnesses: map<int, Reference>, args: nat, ghost done: set<Reference>)
    returns (scores': map<int, Candidate>, witnesses': map<int, Reference>, args': nat, ghost done': set<Reference>)
    requires forall id | id in witnesses :: witnesses[id].id == id
    requires SameId(done + Pending(witnesses) + {r})
    requires ScoresExact(scores, v, done, live, scope)
    ensures forall id | id in witnesses' :: witnesses'[id].id == id
    ensures done' + Pending(witnesses') == done + Pending(witnesses) + {r}
    ensures ScoresExact(scores', v, done', live, scope)
    ensures args' == 0 ==> witnesses' == map[]
  {
    AddWitness(witnesses, r, done);
    scores', done', args' := scores, done, args + 1;
    witnesses' := witnesses[r.id := r];
    if args' == BATCH {
      scores' := ValidateBatch(v, witnesses'.Keys, witnesses', live, scope, scores, done);
      done' := done + Pending(witnesses');
      args', witnesses' := 0, map[];
      assert done' + Pending(witnesses') == done';
    }
  }

  /** Scores one group of ranked people, sharing bounded batches across them.  `args` counts
      repeated ids, the query sees each once. */
  method ScoreGroup(v: Vector, group: seq<Candidate>, refs: map<int, seq<Reference>>, live: map<int, Live>,
                    scope: Scope)
    returns (scores: map<int, Candidate>)
    requires Coherent(refs)
    ensures ScoresExact(scores, v, Pool(refs, group), live, scope)
  {
    scores := map[];
    var witnesses: map<int, Reference> := map[];
    var args := 0;
    ghost var done: set<Reference> := {};
    for i := 0 to |group|
      invariant forall id | id in witnesses :: witnesses[id].id == id
      invariant done + Pending(witnesses) == Pool(refs, group[..i])
      invariant ScoresExact(scores, v, done, live, scope)
      invariant args == 0 ==> witnesses == map[]
    {
      var list := ReferencesOf(refs, group[i].person);
      ghost var pool := Pool(refs, group[..i]);
      for k := 0 to |list|
        invariant forall id | id in witnesses :: witnesses[id].id == id
        invariant done + Pending(witnesses) == pool + Elements(list[..k])
        invariant ScoresExact(scores, v, done, live, scope)
        invariant args == 0 ==> witnesses == map[]
      {
        InPool(refs, group, i, k);
        PoolIsCoherent(refs, group, done + Pending(witnesses) + {list[k]});
        Longer(list, k);
        scores, witnesses, args, done := QueueReference(v, list[k], live, scope, scores, witnesses, args, done);
      }
      assert list[..|list|] == list;
      PoolGrows(refs, group, i);
    }
    assert group[..|group|] == group;
    if args > 0 {
      PoolIsCoherent(refs, group, done + Pending(witnesses));
      scores := ValidateBatch(v, witnesses.Keys, witnesses, live, scope, scores, done);
    } else {
      assert done + Pending(witnesses) == done;
    }
  }

  ghost function Elements(list: seq<Reference>): set<Reference> {
    set r | r in list
  }

  lemma Longer(list: seq<Reference>, k: nat)
    requires k < |list|
    ensures Elements(list[..k + 1]) == Elements(list[..k]) + {list[k]}
  {
    assert list[..k + 1] == list[..k] + [list[k]];
  }

  lemma InPool(refs: map<int, seq<Reference>>, group: seq<Candidate>, i: nat, k: nat)
    requires i < |group| && k < |ReferencesOf(refs, group[i].person)|
    ensures Pool(refs, group[..i]) + Elements(ReferencesOf(refs, group[i].person)[..k])
      + {ReferencesOf(refs, group[i].person)[k]}
            <= Pool(refs, group)
  {
    forall r | r in Pool(refs, group[..i]) ensures r in Pool(refs, group) {
      var c :| c in group[..i] && r in ReferencesOf(refs, c.person);
      assert c in group;
    }
    var list := ReferencesOf(refs, group[i].person);
    forall r | r in Elements(list[..k]) + {list[k]} ensures r in Pool(refs, group) {
      assert group[i] in group && r in list;
    }
  }

  lemma PoolIsCoherent(refs: map<int, seq<Reference>>, group: seq<Candidate>, rs: set<Reference>)
    requires Coherent(refs)
    requires rs <= Pool(refs, group)
    ensures SameId(rs)
  {
    forall r, s | r in rs && s in rs && r.id == s.id ensures r == s {
      var c :| c in group && r in ReferencesOf(refs, c.person);
      var d :| d in group && s in ReferencesOf(refs, d.person);
      var k :| 0 <= k < |refs[c.person]| && refs[c.person][k] == r;
      var l :| 0 <= l < |refs[d.person]| && refs[d.person][l] == s;
    }
  }

  lemma AddWitness(witnesses: map<int, Reference>, r: Reference, done: set<Reference>)
    requires SameId(done + Pending(witnesses) + {r})
    requires forall id | id in witnesses :: witnesses[id].id == id
    ensures done + Pending(witnesses[r.id := r]) == done + Pending(witnesses) + {r}
  {
    var after := witnesses[r.id := r];
    forall w ensures w in Pending(after) <==> w in Pending(witnesses) + {r} {
      if w in Pending(witnesses) {
        var id :| id in witnesses && witnesses[id] == w;
        assert id in after && after[id] == w;
      }
      assert after[r.id] == r;
    }
  }

  lemma PoolGrows(refs: map<int, seq<Reference>>, group: seq<Candidate>, i: nat)
    requires i < |group|
    ensures Pool(refs, group[..i + 1]) == Pool(refs, group[..i]) + Elements(ReferencesOf(refs, group[i].person))
  {
    assert group[..i + 1] == group[..i] + [group[i]];
  }

  // ---- the bounded search equals the exhaustive one ----

  ghost predicate Listed(ranked: seq<Candidate>, p: int) {
    exists c :: c in ranked && c.person == p
  }

  /** `c` is what looking at all references of its person yields. */
  ghost predicate IsValid(c: Candidate, v: Vector, refs: map<int, seq<Reference>>, live: map<int, Live>, scope: Scope) {
    IsBest(c, v, Elements(ReferencesOf(refs, c.person)), live, scope)
  }

  /** The exhaustively validated candidates of the people ranked. */
  ghost function Exhaustive(v: Vector, ranked: seq<Candidate>, refs: map<int, seq<Reference>>, live: map<int, Live>,
                            scope: Scope)
    : iset<Candidate>
  {
    iset c: Candidate | Listed(ranked, c.person) && IsValid(c, v, refs, live, scope)
  }

  /** Ranked scores bound every reference of their person from above. */
  ghost predicate UpperBounds(v: Vector, ranked: seq<Candidate>, refs: map<int, seq<Reference>>) {
    forall c, r | c in ranked && r in ReferencesOf(refs, c.person) && r.vector.Some? :: Score(v, r) <= c.score
  }

  lemma ValidIsUnique(v: Vector, ranked: seq<Candidate>, refs: map<int, seq<Reference>>, live: map<int, Live>,
                      scope: Scope)
    requires Coherent(refs)
    ensures OnePerPerson(Exhaustive(v, ranked, refs, live, scope))
  {
    forall c, d | IsValid(c, v, refs, live, scope) && IsValid(d, v, refs, live, scope) && c.person == d.person
      ensures c == d
    {
      BestIsUnique(c, d, v, Elements(ReferencesOf(refs, c.person)), live, scope);
    }
  }

  /** The pool of a group, seen from one person. */
  lemma OwnReferences(refs: map<int, seq<Reference>>, group: seq<Candidate>, p: int)
    requires Coherent(refs)
    ensures forall r | r in Pool(refs, group) :: Listed(group, r.person)
    ensures Listed(group, p) ==>
      forall r :: r in Elements(ReferencesOf(refs, p)) <==> r in Pool(refs, group) && r.person == p
  {
    forall r | r in Pool(refs, group) ensures Listed(group, r.person) && r in ReferencesOf(refs, r.person) {
      var g :| g in group && r in ReferencesOf(refs, g.person);
      var k :| 0 <= k < |refs[g.person]| && refs[g.person][k] == r;
    }
    forall r | r in ReferencesOf(refs, p) ensures r.person == p {
      var k :| 0 <= k < |refs[p]| && refs[p][k] == r;
    }
  }

  lemma BestIsUnique(c: Candidate, d: Candidate, v: Vector, rs: set<Reference>, live: map<int, Live>, scope: Scope)
    requires IsBest(c, v, rs, live, scope) && IsBest(d, v, rs, live, scope) && c.person == d.person
    ensures c == d
  {
    var r :| r in rs && Supports(r, live, scope) && CandidateOf(v, r) == c;
    var s :| s in rs && Supports(s, live, scope) && CandidateOf(v, s) == d;
    assert !Beats(CandidateOf(v, s), c) && !Beats(CandidateOf(v, r), d);
  }

  /** Only references of the candidate's own person matter. */
  lemma BestAmongOwn(c: Candidate, v: Vector, all: set<Reference>, own: set<Reference>, live: map<int, Live>,
                     scope: Scope)
    requires forall r :: r in own <==> r in all && r.person == c.person
    ensures IsBest(c, v, all, live, scope) <==> IsBest(c, v, own, live, scope)
  {
    if IsBest(c, v, all, live, scope) {
      var r :| r in all && Supports(r, live, scope) && CandidateOf(v, r) == c;
      assert r in own;
    }
    if IsBest(c, v, own, live, scope) {
      var r :| r in own && Supports(r, live, scope) && CandidateOf(v, r) == c;
      assert r in all;
    }
  }

  /** The scores of a group are the exhaustive candidates of its people. */
  lemma GroupScores(scores: map<int, Candidate>, v: Vector, group: seq<Candidate>, refs: map<int, seq<Reference>>,
                    live: map<int, Live>, scope: Scope, c: Candidate)
    requires Coherent(refs)
    requires ScoresExact(scores, v, Pool(refs, group), live, scope)
    ensures c in Exhaustive(v, group, refs, live, scope) <==> c.person in scores && scores[c.person] == c
  {
    var pool, own := Pool(refs, group), Elements(ReferencesOf(refs, c.person));
    OwnReferences(refs, group, c.person);
    if c.person in scores && scores[c.person] == c {
      var r :| r in pool && Supports(r, live, scope) && CandidateOf(v, r) == c;
      BestAmongOwn(c, v, pool, own, live, scope);
    }
    if Listed(group, c.person) && IsValid(c, v, refs, live, scope) {
      BestAmongOwn(c, v, pool, own, live, scope);
      var r :| r in pool && Supports(r, live, scope) && CandidateOf(v, r) == c;
      BestIsUnique(c, scores[c.person], v, pool, live, scope);
    }
  }

  /** Adds the scores of a map in any order. */
  method AppendScores(result: seq<Candidate>, scores: map<int, Candidate>) returns (all: seq<Candidate>)
    requires DistinctPeople(result)
    requires forall p | p in scores :: scores[p].person == p
    requires forall c | c in result :: c.person !in scores
    ensures DistinctPeople(all)
    ensures forall c :: c in all <==> c in result || (c.person in scores && scores[c.person] == c)
  {
    all := result;
    var todo := scores.Keys;
    while todo != {}
      invariant todo <= scores.Keys
      invariant DistinctPeople(all)
      invariant forall c ::
        c in all <==> c in result || (c.person in scores && c.person !in todo && scores[c.person] == c)
      decreases todo
    {
      var p := Any(todo);
      todo := todo - {p};
      forall i | 0 <= i < |all| ensures all[i].person != p {
        assert all[i] in all;
      }
      all := all + [scores[p]];
    }
  }

  lemma ListedSplit(ranked: seq<Candidate>, offset: nat, end: nat, p: int)
    requires offset <= end <= |ranked|
    ensures Listed(ranked[..end], p) <==> Listed(ranked[..offset], p) || Listed(ranked[offset..end], p)
  {
    assert ranked[..end] == ranked[..offset] + ranked[offset..end];
  }

  lemma ListedOnce(ranked: seq<Candidate>, offset: nat, end: nat, p: int)
    requires offset <= end <= |ranked| && DistinctPeople(ranked)
    ensures Listed(ranked[..offset], p) ==> !Listed(ranked[offset..end], p)
  {
    forall c, d | c in ranked[..offset] && d in ranked[offset..end]
      ensures c.person != d.person
    {
      var i :| 0 <= i < offset && ranked[i] == c;
      var j :| offset <= j < end && ranked[j] == d;
    }
  }

  /** Whoever is ranked from `offset` on comes after the last place of a full result. */
  lemma ComesAfter(result: seq<Candidate>, limit: nat, v: Vector, ranked: seq<Candidate>, offset: nat,
                   refs: map<int, seq<Reference>>, live: map<int, Live>, scope: Scope, c: Candidate)
    requires Sorted(ranked) && DistinctPeople(ranked) && UpperBounds(v, ranked, refs)
    requires offset < |ranked| && |result| == limit > 0 && !Before(ranked[offset], result[limit - 1])
    requires Listed(ranked[..offset], result[limit - 1].person)
    requires Listed(ranked[offset..], c.person) && IsValid(c, v, refs, live, scope)
    ensures Before(result[limit - 1], c)
  {
    var d :| d in ranked[offset..] && d.person == c.person;
    var r :| r in Elements(ReferencesOf(refs, c.person)) && Supports(r, live, scope) && CandidateOf(v, r) == c;
    assert d in ranked && c.score <= d.score;
    var j :| offset <= j < |ranked| && ranked[j] == d;
    assert j > offset ==> Before(ranked[offset], d);
    var i :| 0 <= i < offset && ranked[i].person == result[limit - 1].person;
  }

  /** Stopping early is safe: nobody ranked from `offset` on can enter the result. */
  lemma StopsSafely(result: seq<Candidate>, limit: nat, v: Vector, ranked: seq<Candidate>, offset: nat,
                    refs: map<int, seq<Reference>>, live: map<int, Live>, scope: Scope)
    requires Sorted(ranked) && DistinctPeople(ranked) && UpperBounds(v, ranked, refs)
    requires offset <= |ranked|
    requires IsTop(result, limit, Exhaustive(v, ranked[..offset], refs, live, scope))
    requires offset < |ranked| ==> |result| == limit > 0 && !Before(ranked[offset], result[limit - 1])
    ensures IsTop(result, limit, Exhaustive(v, ranked, refs, live, scope))
  {
    var part, whole := Exhaustive(v, ranked[..offset], refs, live, scope), Exhaustive(v, ranked, refs, live, scope);
    assert ranked[..|ranked|] == ranked && ranked[offset..|ranked|] == ranked[offset..];
    forall c: Candidate
      ensures Listed(ranked, c.person) <==> Listed(ranked[..offset], c.person) || Listed(ranked[offset..], c.person)
    {
      ListedSplit(ranked, offset, |ranked|, c.person);
    }
    forall c | c in whole && c !in result ensures |result| == limit && (limit > 0 ==> Before(result[limit - 1], c)) {
      if c !in part {
        assert result[limit - 1] in part;
        ComesAfter(result, limit, v, ranked, offset, refs, live, scope, c);
      }
    }
  }

  /** A limit above the number of people ranked is no limit. */
  lemma EnoughRoom(result: seq<Candidate>, limit: nat, v: Vector, ranked: seq<Candidate>,
                   refs: map<int, seq<Reference>>, live: map<int, Live>, scope: Scope)
    requires Coherent(refs) && DistinctPeople(ranked)
    requires IsTop(result, |ranked|, Exhaustive(v, ranked, refs, live, scope)) && |ranked| <= limit
    ensures IsTop(result, limit, Exhaustive(v, ranked, refs, live, scope))
  {
    var m := Exhaustive(v, ranked, refs, live, scope);
    ValidIsUnique(v, ranked, refs, live, scope);
    TopHasDistinctPeople(result, |ranked|, v, ranked, refs, live, scope);
    PeopleCount(result);
    PeopleCount(ranked);
    var people, all := (set d | d in result :: d.person), (set d | d in ranked :: d.person);
    forall d | d in result ensures d.person in all {
      assert d in m;
    }
    if |result| == |ranked| {
      SameBySize(people, all);
      forall c | c in m ensures c in result {
        assert c.person in all;
        var d :| d in result && d.person == c.person;
        assert d in m;
      }
    }
  }

  lemma PeopleCount(s: seq<Candidate>)
    requires DistinctPeople(s)
    ensures |set d | d in s :: d.person| == |s|
  {
    if s != [] {
      var init, last := s[..|s| - 1], s[|s| - 1];
      PeopleCount(init);
      assert (set d | d in s :: d.person) == (set d | d in init :: d.person) + {last.person};
    }
  }

  // ---- in terms of the rows ----

  /** The database still holds the face under its person, as a current,
    confirmed reference of a photo everybody may see,
      and the person's name is of the kind that is asked for. */
  ghost predicate Confirmed(r: Reference, live: map<int, Live>, scope: Scope) {
    && r.vector.Some? && r.id in live
    && var row := live[r.id];
    && row.person == r.person && (r.revision != 0 ==> r.revision == row.revision)
    && row.embeddingCurrent && !row.ignored && !row.needsReview
    && (row.favorite || row.referenceEligible != Some(false))
    && !row.adminOnly && !row.folderPrivate && !row.nameFolderPrivate
    && (scope == Named || scope == ConfirmedNamed ==> row.personNamed)
    && (scope == Unnamed || scope == UnconfirmedUnnamed ==> !row.personNamed)
    && (scope == ConfirmedNamed ==> row.manualName) && (scope == UnconfirmedUnnamed ==> !row.manualName)
  }

  lemma SupportsIsConfirmed(r: Reference, live: map<int, Live>, scope: Scope)
    ensures Supports(r, live, scope) <==> Confirmed(r, live, scope)
  {}

  lemma StaysBest(c: Candidate, v: Vector, rs: set<Reference>, last: Reference, live: map<int, Live>, scope: Scope)
    requires IsBest(c, v, rs, live, scope)
    requires Supports(last, live, scope) && last.person == c.person ==> !Beats(CandidateOf(v, last), c)
    ensures IsBest(c, v, rs + {last}, live, scope)
  {
    hide Selected;
    hide Cosine;
    var r :| r in rs && Supports(r, live, scope) && CandidateOf(v, r) == c;
    assert r in rs + {last};
  }

  lemma BecomesBest(c: Candidate, v: Vector, rs: set<Reference>, last: Reference, live: map<int, Live>, scope: Scope)
    requires Unbeaten(c, v, rs, live, scope)
    requires Supports(last, live, scope) && last.person == c.person && Beats(CandidateOf(v, last), c)
    ensures IsBest(CandidateOf(v, last), v, rs + {last}, live, scope)
  {
    hide Selected;
    hide Cosine;
    assert last in rs + {last};
  }

  /** Among finitely many references somebody who is supported at all has a best one. */
  lemma {:induction false} BestExists(v: Vector, list: seq<Reference>, live: map<int, Live>, scope: Scope, p: int)
    returns (c: Candidate)
    requires exists r :: r in list && Supports(r, live, scope) && r.person == p
    ensures c.person == p && IsBest(c, v, Elements(list), live, scope)
  {
    hide Supports;
    hide IsBest;
    var init, last := list[..|list| - 1], list[|list| - 1];
    assert list == init + [last] && Elements(list) == Elements(init) + {last};
    if exists r :: r in init && Supports(r, live, scope) && r.person == p {
      c := BestExists(v, init, live, scope, p);
      if Supports(last, live, scope) && last.person == p {
        c := Better(c, v, Elements(init), last, live, scope);
      } else {
        StaysBest(c, v, Elements(init), last, live, scope);
      }
    } else {
      assert Supports(last, live, scope) && last.person == p;
      c := OnlyOne(v, Elements(init), last, live, scope);
    }
  }

  lemma OnlyOne(v: Vector, rs: set<Reference>, last: Reference, live: map<int, Live>, scope: Scope)
    returns (c: Candidate)
    requires Supports(last, live, scope) && forall r | r in rs && Supports(r, live, scope) :: r.person != last.person
    ensures c.person == last.person && IsBest(c, v, rs + {last}, live, scope)
  {
    hide Selected;
    hide Cosine;
    c := CandidateOf(v, last);
    assert last in rs + {last};
  }

  lemma Better(b: Candidate, v: Vector, rs: set<Reference>, last: Reference, live: map<int, Live>, scope: Scope)
    returns (c: Candidate)
    requires IsBest(b, v, rs, live, scope) && Supports(last, live, scope) && last.person == b.person
    ensures c.person == b.person && IsBest(c, v, rs + {last}, live, scope)
  {
    c := if Beats(CandidateOf(v, last), b) then CandidateOf(v, last) else b;
    if Beats(CandidateOf(v, last), b) {
      BecomesBest(b, v, rs, last, live, scope);
    } else {
      StaysBest(b, v, rs, last, live, scope);
    }
  }

  /** Everybody in the result has a confirmed reference with that score; whoever has a confirmed reference is in the
      result with at least its score, or comes after everybody in a full result. */
  ghost predicate AnswersRows(result: seq<Candidate>, limit: nat, v: Vector, ranked: seq<Candidate>,
                              refs: map<int, seq<Reference>>, live: map<int, Live>, scope: Scope)
  {
    && (forall c | c in result :: exists r :: r in ReferencesOf(refs, c.person) && WitnessedBy(c, v, r, live, scope))
    && (forall p, r | Listed(ranked, p) && r in ReferencesOf(refs, p) && Confirmed(r, live, scope) ::
          Placed(result, limit, p, Cosine(v, r.vector.value)))
  }

  ghost predicate WitnessedBy(c: Candidate, v: Vector, r: Reference, live: map<int, Live>, scope: Scope) {
    Confirmed(r, live, scope) && r.person == c.person && r.id == c.face && Cosine(v, r.vector.value) == c.score
  }

  /** There with at least the score, or behind a full result. */
  ghost predicate Placed(result: seq<Candidate>, limit: nat, person: int, score: real) {
    || (exists c :: c in result && c.person == person && c.score >= score)
    || (|result| == limit && forall d | d in result :: d.score > score || (d.score == score && d.person < person))
  }

  lemma ValidIsWitnessed(c: Candidate, v: Vector, refs: map<int, seq<Reference>>, live: map<int, Live>, scope: Scope)
    requires IsValid(c, v, refs, live, scope)
    ensures exists r :: r in ReferencesOf(refs, c.person) && WitnessedBy(c, v, r, live, scope)
  {
    hide Cosine;
    var r :| r in Elements(ReferencesOf(refs, c.person)) && Supports(r, live, scope) && CandidateOf(v, r) == c;
    SupportsIsConfirmed(r, live, scope);
    assert WitnessedBy(c, v, r, live, scope);
  }

  lemma ConfirmedIsValid(r: Reference, v: Vector, refs: map<int, seq<Reference>>, live: map<int, Live>, scope: Scope,
                         p: int) returns (c: Candidate)
    requires Coherent(refs) && r in ReferencesOf(refs, p) && Confirmed(r, live, scope)
    ensures c.person == p && IsValid(c, v, refs, live, scope) && c.score >= Cosine(v, r.vector.value)
  {
    hide Cosine;
    hide Selected;
    SupportsIsConfirmed(r, live, scope);
    c := BestExists(v, ReferencesOf(refs, p), live, scope, p);
    assert r in Elements(ReferencesOf(refs, p)) && !Beats(CandidateOf(v, r), c);
  }

  lemma TopIsPlaced(result: seq<Candidate>, limit: nat, family: iset<Candidate>, c: Candidate, score: real)
    requires limit > 0 && IsTop(result, limit, family) && c in family && c.score >= score
    ensures Placed(result, limit, c.person, score)
  {
    if c !in result {
      forall d | d in result ensures d.score > score || (d.score == score && d.person < c.person) {
        assert d == result[limit - 1] || Before(d, result[limit - 1]);
      }
    }
  }

  lemma TopAnswersRows(result: seq<Candidate>, limit: nat, v: Vector, ranked: seq<Candidate>,
                       refs: map<int, seq<Reference>>, live: map<int, Live>, scope: Scope)
    requires Coherent(refs) && limit > 0 && IsTop(result, limit, Exhaustive(v, ranked, refs, live, scope))
    ensures AnswersRows(result, limit, v, ranked, refs, live, scope)
  {
    hide Selected;
    hide Cosine;
    hide IsValid;
    hide Placed;
    hide WitnessedBy;
    hide Coherent;
    var all := Exhaustive(v, ranked, refs, live, scope);
    forall c | c in result ensures exists r :: r in ReferencesOf(refs, c.person) && WitnessedBy(c, v, r, live, scope) {
      assert c in all;
      ValidIsWitnessed(c, v, refs, live, scope);
    }
    forall p, r | Listed(ranked, p) && r in ReferencesOf(refs, p) && Confirmed(r, live, scope)
      ensures Placed(result, limit, p, Cosine(v, r.vector.value))
    {
      var c := ConfirmedIsValid(r, v, refs, live, scope, p);
      assert c in all;
      TopIsPlaced(result, limit, all, c, Cosine(v, r.vector.value));
    }
  }

  /** The exact top `limit` of the people ranked, although validation stops early. */
  method ValidateFaceCandidatesInScope(v: Vector, ranked: seq<Candidate>, requested: int,
                                       refs: map<int, seq<Reference>>, live: map<int, Live>, scope: Scope)
    returns (result: seq<Candidate>)
    requires Sorted(ranked) && DistinctPeople(ranked) && Coherent(refs) && UpperBounds(v, ranked, refs)
    ensures requested <= 0 ==> result == []
    ensures requested > 0 ==> IsTop(result, requested, Exhaustive(v, ranked, refs, live, scope))
    ensures requested > 0 ==> AnswersRows(result, requested, v, ranked, refs, live, scope)
  {
    hide AnswersRows;
    if requested <= 0 {
      return [];
    }
    var limit: nat := if requested < |ranked| then requested else |ranked|;
    result := [];
    var offset := 0;
    while offset < |ranked|
      invariant 0 <= offset <= |ranked|
      invariant IsTop(result, limit, Exhaustive(v, ranked[..offset], refs, live, scope))
      decreases |ranked| - offset
    {
      if |result| == limit && Compare(ranked[offset], result[limit - 1]) >= 0 {
        break;
      }
      var room := if limit - |result| > 1 then limit - |result| else 1;
      var end := if offset + room < |ranked| then offset + room else |ranked|;
      result := NextGroup(v, ranked, offset, end, limit, result, refs, live, scope);
      offset := end;
    }
    StopsSafely(result, limit, v, ranked, offset, refs, live, scope);
    if limit < requested {
      EnoughRoom(result, requested, v, ranked, refs, live, scope);
    }
    TopAnswersRows(result, requested, v, ranked, refs, live, scope);
  }

  /** Validates the people ranked from `offset` to `end` and cuts the joint list again. */
  method NextGroup(v: Vector, ranked: seq<Candidate>, offset: nat, end: nat, limit: nat, result: seq<Candidate>,
                   refs: map<int, seq<Reference>>, live: map<int, Live>, scope: Scope)
    returns (next: seq<Candidate>)
    requires Sorted(ranked) && DistinctPeople(ranked) && Coherent(refs)
    requires offset < end <= |ranked| && limit > 0
    requires IsTop(result, limit, Exhaustive(v, ranked[..offset], refs, live, scope))
    ensures IsTop(next, limit, Exhaustive(v, ranked[..end], refs, live, scope))
  {
    var group := ranked[offset..end];
    var scores := ScoreGroup(v, group, refs, live, scope);
    ghost var m, n := Exhaustive(v, ranked[..offset], refs, live, scope), Exhaustive(v, group, refs, live, scope);
    GroupIsNew(scores, v, ranked, offset, end, limit, result, refs, live, scope);
    TopHasDistinctPeople(result, limit, v, ranked[..offset], refs, live, scope);
    var all := AppendScores(result, scores);
    all := SortCandidates(all);
    TopOfUnion(result, all, limit, m, n);
    next := all[..if limit < |all| then limit else |all|];
    ExhaustiveSplit(v, ranked, offset, end, refs, live, scope);
  }

  lemma ExhaustiveSplit(v: Vector, ranked: seq<Candidate>, offset: nat, end: nat, refs: map<int, seq<Reference>>,
                        live: map<int, Live>, scope: Scope)
    requires offset <= end <= |ranked|
    ensures Exhaustive(v, ranked[..offset], refs, live, scope) + Exhaustive(v, ranked[offset..end], refs, live, scope)
      == Exhaustive(v, ranked[..end], refs, live, scope)
  {
    forall c: Candidate
      ensures Listed(ranked[..end], c.person) <==>
        Listed(ranked[..offset], c.person) || Listed(ranked[offset..end], c.person)
    {
      ListedSplit(ranked, offset, end, c.person);
    }
  }

  /** The scores of the next group are its exhaustive candidates, and none is in the result yet. */
  lemma GroupIsNew(scores: map<int, Candidate>, v: Vector, ranked: seq<Candidate>, offset: nat, end: nat, limit: nat,
                   result: seq<Candidate>, refs: map<int, seq<Reference>>, live: map<int, Live>, scope: Scope)
    requires DistinctPeople(ranked) && Coherent(refs) && offset < end <= |ranked|
    requires ScoresExact(scores, v, Pool(refs, ranked[offset..end]), live, scope)
    requires IsTop(result, limit, Exhaustive(v, ranked[..offset], refs, live, scope))
    ensures forall c ::
      c in Exhaustive(v, ranked[offset..end], refs, live, scope) <==> c.person in scores && scores[c.person] == c
    ensures forall c | c in result :: c.person !in scores
  {
    var n := Exhaustive(v, ranked[offset..end], refs, live, scope);
    forall c ensures c in n <==> c.person in scores && scores[c.person] == c {
      GroupScores(scores, v, ranked[offset..end], refs, live, scope, c);
    }
    forall p | p in scores ensures Listed(ranked[offset..end], p) {
      assert scores[p] in n;
    }
    forall c | c in result ensures c.person !in scores {
      assert c in Exhaustive(v, ranked[..offset], refs, live, scope);
      ListedOnce(ranked, offset, end, c.person);
    }
  }

  lemma TopHasDistinctPeople(result: seq<Candidate>, limit: nat, v: Vector, ranked: seq<Candidate>,
                             refs: map<int, seq<Reference>>, live: map<int, Live>, scope: Scope)
    requires Coherent(refs) && IsTop(result, limit, Exhaustive(v, ranked, refs, live, scope))
    ensures DistinctPeople(result)
  {
    ValidIsUnique(v, ranked, refs, live, scope);
    forall i, j | 0 <= i < j < |result| ensures result[i].person != result[j].person {
      assert result[i] in result && result[j] in result && Before(result[i], result[j]);
    }
  }
}
