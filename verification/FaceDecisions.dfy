/** Automatic decisions on top of the reference graph: assigning one face, merging one group. */
module FaceDecisions {
  import opened FaceTables
  import opened FaceSync
  import opened FaceOrder
  import opened FaceRuntime
  import opened FaceCandidates
  import opened FaceTopTwo

  /** The references the runtime hands out: favorites first, then the other vectors. */
  function ReferenceAt(rt: Runtime, id: int): Reference
    reads rt
  {
    Reference(id, if id in rt.people then rt.people[id] else 0, 0,
              if id in rt.favorites then Some(rt.favorites[id])
              else if id in rt.vectors then Some(rt.vectors[id]) else None)
  }

  function References(rt: Runtime): map<int, seq<Reference>>
    reads rt
  {
    map p | p in rt.nodes ::
      seq(|rt.nodes[p]|, k requires p in rt.nodes && 0 <= k < |rt.nodes[p]| reads rt => ReferenceAt(rt, rt.nodes[p][k]))
  }

  lemma FiledReference(rt: Runtime, e: map<int, Entry>, p: int, k: nat)
    requires rt.Shows(Rebuilt(e)) && p in rt.nodes && k < |rt.nodes[p]|
    ensures References(rt)[p][k] == Reference(rt.nodes[p][k], p, 0, Some(rt.groups[p][k]))
  {
    FilingsHas(e, Filing(p, rt.nodes[p][k], rt.groups[p][k]));
  }

  /** A rebuilt graph hands out coherent references, in step with the vectors it ranks by. */
  lemma RebuiltIsCoherent(rt: Runtime, e: map<int, Entry>)
    requires rt.Shows(Rebuilt(e))
    ensures Coherent(References(rt))
  {
    var refs := References(rt);
    forall p, k | p in refs && 0 <= k < |refs[p]|
      ensures refs[p][k] == ReferenceAt(rt, rt.nodes[p][k]) && refs[p][k].person == p
    {
      FiledReference(rt, e, p, k);
    }
  }

  lemma RankingBounds(rt: Runtime, e: map<int, Entry>, v: Vector, ranked: seq<Candidate>, excluded: set<int>,
                      named: set<int>, scope: Scope)
    requires rt.Shows(Rebuilt(e)) && IsRanking(ranked, rt.groups, v, excluded, named, scope)
    ensures UpperBounds(v, ranked, References(rt))
  {
    var refs := References(rt);
    forall c, r | c in ranked && r in ReferencesOf(refs, c.person) && r.vector.Some?
      ensures Score(v, r) <= c.score
    {
      var k :| 0 <= k < |refs[c.person]| && refs[c.person][k] == r;
      FiledReference(rt, e, c.person, k);
    }
  }

  /** Everybody allowed, with the best reference the database still supports. */
  ghost function Supported(refs: map<int, seq<Reference>>, v: Vector, excluded: set<int>, named: set<int>, scope: Scope,
                           live: map<int, Live>): iset<Candidate>
  {
    iset c: Candidate | PersonAllowed(c.person, excluded, named, scope) && IsValid(c, v, refs, live, scope)
  }

  /** Ranking loses nobody that validation could accept. */
  lemma RankingIsComplete(rt: Runtime, e: map<int, Entry>, v: Vector, ranked: seq<Candidate>, excluded: set<int>,
                          named: set<int>, scope: Scope, live: map<int, Live>)
    requires rt.Shows(Rebuilt(e)) && IsRanking(ranked, rt.groups, v, excluded, named, scope)
    ensures Exhaustive(v, ranked, References(rt), live, scope)
      == Supported(References(rt), v, excluded, named, scope, live)
  {
    var refs := References(rt);
    forall c: Candidate | IsValid(c, v, refs, live, scope)
      ensures Listed(ranked, c.person) <==> PersonAllowed(c.person, excluded, named, scope)
    {
      var r :| r in Elements(ReferencesOf(refs, c.person)) && Supports(r, live, scope) && CandidateOf(v, r) == c;
      assert c.person in rt.nodes;
      assert Parallel(rt.nodes[c.person], rt.groups[c.person]);
    }
  }

  /** Rank, then validate: the exact best `limit` people of the whole cached graph. */
  method BestPeople(rt: Runtime, ghost e: map<int, Entry>, v: Vector, excluded: set<int>, named: set<int>, scope: Scope,
                    limit: nat, live: map<int, Live>)
    returns (top: seq<Candidate>)
    requires rt.Shows(Rebuilt(e)) && limit > 0
    ensures IsTop(top, limit, Supported(References(rt), v, excluded, named, scope, live))
  {
    var ranked := RankFacePersonsInScope(rt, v, excluded, named, scope);
    RebuiltIsCoherent(rt, e);
    RankingBounds(rt, e, v, ranked, excluded, named, scope);
    RankingIsComplete(rt, e, v, ranked, excluded, named, scope, live);
    top := ValidateFaceCandidatesInScope(v, ranked, limit, References(rt), live, scope);
  }

  lemma SupportedOnce(rt: Runtime, e: map<int, Entry>, v: Vector, excluded: set<int>, named: set<int>, scope: Scope,
                      live: map<int, Live>)
    requires rt.Shows(Rebuilt(e))
    ensures OnePerPerson(Supported(References(rt), v, excluded, named, scope, live))
  {
    var refs := References(rt);
    forall c, d | IsValid(c, v, refs, live, scope) && IsValid(d, v, refs, live, scope) && c.person == d.person
      ensures c == d
    {
      BestIsUnique(c, d, v, Elements(ReferencesOf(refs, c.person)), live, scope);
    }
  }

  predicate ReviewCandidateAllowed(candidates: seq<Candidate>, index: nat, margin: real) {
    if margin == 0.0 then true
    else if index != 0 then false
    else |candidates| < 2 || candidates[0].score - candidates[1].score >= margin
  }

  /** The person a list of candidates decides for: a similar enough winner, far enough ahead. */
  function Decide(top: seq<Candidate>, similarity: real, margin: real): Option<int> {
    if |top| > 0 && top[0].score >= similarity && ReviewCandidateAllowed(top, 0, margin) then Some(top[0].person)
    else None
  }

  /** Best in the family by score, a smaller person first among equals, similar enough, and ahead of everybody else by
      the margin if there is one. */
  ghost predicate Wins(family: iset<Candidate>, similarity: real, margin: real, c: Candidate) {
    && c in family && c.score >= similarity
    && (forall d | d in family && d != c :: c.score > d.score || (c.score == d.score && c.person < d.person))
    && (margin == 0.0 || forall d | d in family && d != c :: c.score - d.score >= margin)
  }

  /** The winner of a family is decided for, and nobody when there is none. */
  ghost predicate Decides(family: iset<Candidate>, similarity: real, margin: real, decided: Option<int>) {
    match decided
    case Some(p) => exists c :: Wins(family, similarity, margin, c) && c.person == p
    case None => forall c :: !Wins(family, similarity, margin, c)
  }

  lemma DecidesOnce(family: iset<Candidate>, similarity: real, margin: real, a: Option<int>, b: Option<int>)
    requires Decides(family, similarity, margin, a) && Decides(family, similarity, margin, b)
    ensures a == b
  {}

  /** The best two of a family are enough to find its winner. */
  lemma TopTwoDecide(top: seq<Candidate>, family: iset<Candidate>, similarity: real, margin: real)
    requires IsTop(top, 2, family)
    ensures Decides(family, similarity, margin, Decide(top, similarity, margin))
  {
    forall c | Wins(family, similarity, margin, c) ensures |top| > 0 && c == top[0] {
      assert |top| > 0 ==> top[0] in top;
    }
    if |top| > 0 {
      forall d | d in family && d != top[0]
        ensures Before(top[0], d) && |top| == 2 && top[1].score >= d.score
      {
        assert d in top ==> d == top[1];
      }
      if Decide(top, similarity, margin).Some? {
        assert top[0] in top && Wins(family, similarity, margin, top[0]);
      } else if |top| == 2 {
        assert top[1] in top && top[1] in family;
      }
    }
  }

  /** Decided in the first family, or in the second when the first decides for nobody. */
  ghost predicate DecidesInTurn(first: iset<Candidate>, second: iset<Candidate>, similarity: real, margin: real,
                                decided: Option<int>)
  {
    exists a ::
      && Decides(first, similarity, margin, a)
      && if a.Some? then decided == a else Decides(second, similarity, margin, decided)
  }

  /** The tables leave no freedom: two decisions on the same families are the same. */
  lemma DecidesInTurnOnce(first: iset<Candidate>, second: iset<Candidate>, similarity: real, margin: real,
                          a: Option<int>, b: Option<int>)
    requires DecidesInTurn(first, second, similarity, margin, a) && DecidesInTurn(first, second, similarity, margin, b)
    ensures a == b
  {
    hide Decides;
    var x :| Decides(first, similarity, margin, x)
      && if x.Some? then a == x else Decides(second, similarity, margin, a);
    var y :| Decides(first, similarity, margin, y)
      && if y.Some? then b == y else Decides(second, similarity, margin, b);
    DecidesOnce(first, similarity, margin, x, y);
    if x.None? {
      DecidesOnce(second, similarity, margin, a, b);
    }
  }

  /** Whoever is decided for is not excluded and has a similar enough reference that the database confirms. */
  lemma DecidedIsConfirmed(rt: Runtime, v: Vector, excluded: set<int>, named: set<int>, scope: Scope,
                           live: map<int, Live>, similarity: real, margin: real, decided: Option<int>)
    requires Decides(Supported(References(rt), v, excluded, named, scope, live), similarity, margin, decided)
    ensures decided.Some? ==> decided.value !in excluded && Matches(rt, v, live, scope, similarity, decided.value)
  {
    if decided.Some? {
      var family := Supported(References(rt), v, excluded, named, scope, live);
      var c :| Wins(family, similarity, margin, c) && c.person == decided.value;
      ValidIsWitnessed(c, v, References(rt), live, scope);
    }
  }

  /** The person has a cached reference that the database confirms and that is similar enough. */
  ghost predicate Matches(rt: Runtime, v: Vector, live: map<int, Live>, scope: Scope, similarity: real, p: int)
    reads rt
  {
    exists r ::
      r in ReferencesOf(References(rt), p) && Confirmed(r, live, scope) && Cosine(v, r.vector.value) >= similarity
  }

  /** A named match takes priority over an unnamed one; both are decided on the exact best two. */
  method NearestPersonInGroups(rt: Runtime, ghost e: map<int, Entry>, v: Vector, excluded: set<int>, named: set<int>,
                               live: map<int, Live>, similarity: real, margin: real)
    returns (person: Option<int>)
    requires rt.Shows(Rebuilt(e))
    ensures DecidesInTurn(Supported(References(rt), v, excluded, named, Named, live),
                          Supported(References(rt), v, excluded, named, Unnamed, live), similarity, margin, person)
    ensures person.Some? ==>
      && person.value !in excluded
      && (Matches(rt, v, live, Named, similarity, person.value)
           || Matches(rt, v, live, Unnamed, similarity, person.value))
  {
    hide Matches;
    hide Decides;
    hide Supported;
    ghost var known := Supported(References(rt), v, excluded, named, Named, live);
    ghost var unknown := Supported(References(rt), v, excluded, named, Unnamed, live);
    var first: Option<int> := None;
    if named != {} {
      first := NearestInScope(rt, e, v, excluded, named, Named, live, similarity, margin);
    } else {
      NobodyNamed(rt, v, excluded, live, similarity, margin);
    }
    assert Decides(known, similarity, margin, first);
    DecidedIsConfirmed(rt, v, excluded, named, Named, live, similarity, margin, first);
    if first.Some? {
      return first;
    }
    person := NearestInScope(rt, e, v, excluded, named, Unnamed, live, similarity, margin);
    DecidedIsConfirmed(rt, v, excluded, named, Unnamed, live, similarity, margin, person);
  }

  method NearestInScope(rt: Runtime, ghost e: map<int, Entry>, v: Vector, excluded: set<int>, named: set<int>,
                        scope: Scope, live: map<int, Live>, similarity: real, margin: real)
    returns (person: Option<int>)
    requires rt.Shows(Rebuilt(e))
    ensures Decides(Supported(References(rt), v, excluded, named, scope, live), similarity, margin, person)
  {
    var candidates := BestPeople(rt, e, v, excluded, named, scope, 2, live);
    person := Decide(candidates, similarity, margin);
    TopTwoDecide(candidates, Supported(References(rt), v, excluded, named, scope, live), similarity, margin);
  }

  lemma NobodyNamed(rt: Runtime, v: Vector, excluded: set<int>, live: map<int, Live>, similarity: real, margin: real)
    ensures Decides(Supported(References(rt), v, excluded, {}, Named, live), similarity, margin, None)
  {}

  // ---- whole groups ----

  /** What every reference of a group could be matched with. */
  ghost function Families(rt: Runtime, vectors: seq<Vector>, excluded: set<int>, named: set<int>, scope: Scope,
                          live: map<int, Live>): (f: seq<iset<Candidate>>)
    reads rt
    ensures |f| == |vectors|
  {
    seq(|vectors|,
      i requires 0 <= i < |vectors| reads rt => Supported(References(rt), vectors[i], excluded, named, scope, live))
  }

  lemma MergeOne(best: map<int, Candidate>, tops: seq<seq<Candidate>>, seen: seq<Candidate>, c: Candidate)
    requires Merged(best, tops + [seen])
    ensures Merged(if c.person !in best
      || Compare(c, best[c.person]) < 0 then best[c.person := c] else best, tops + [seen + [c]])
  {
    var after := if c.person !in best || Compare(c, best[c.person]) < 0 then best[c.person := c] else best;
    var wide, slim := tops + [seen + [c]], tops + [seen];
    assert (seen + [c])[|seen|] == c && c in wide[|tops|];
    forall d ensures InSome(wide, d) <==> InSome(slim, d) || d == c {
      if j :| 0 <= j < |wide| && d in wide[j] {
        assert d in slim[j] || d == c;
      }
      if j :| 0 <= j < |slim| && d in slim[j] {
        assert d in wide[j];
      }
    }
  }

  lemma AddEmptyList(best: map<int, Candidate>, tops: seq<seq<Candidate>>)
    requires Merged(best, tops)
    ensures Merged(best, tops + [[]])
  {
    var empty: seq<Candidate> := [];
    forall d ensures InSome(tops + [empty], d) <==> InSome(tops, d) {
      if j :| 0 <= j < |tops| && d in tops[j] {
        assert d in (tops + [empty])[j];
      }
    }
  }

  method MergeShortList(best: map<int, Candidate>, candidates: seq<Candidate>, ghost tops: seq<seq<Candidate>>)
    returns (merged: map<int, Candidate>)
    requires Merged(best, tops)
    ensures Merged(merged, tops + [candidates])
  {
    merged := best;
    AddEmptyList(best, tops);
    for k := 0 to |candidates|
      invariant Merged(merged, tops + [candidates[..k]])
    {
      MergeOne(merged, tops, candidates[..k], candidates[k]);
      assert candidates[..k + 1] == candidates[..k] + [candidates[k]];
      var c := candidates[k];
      if c.person !in merged || Compare(c, merged[c.person]) < 0 {
        merged := merged[c.person := c];
      }
    }
    assert candidates[..|candidates|] == candidates;
  }

  function VectorsOf(rt: Runtime, p: int): seq<Vector>
    reads rt
  {
    if p in rt.groups then rt.groups[p] else []
  }

  /** The best two people for one reference of the group. */
  method ReferenceTopTwo(rt: Runtime, ghost e: map<int, Entry>, source: int, i: nat, excluded: set<int>,
                         named: set<int>, scope: Scope, live: map<int, Live>)
    returns (top: seq<Candidate>)
    requires rt.Shows(Rebuilt(e)) && source in rt.nodes && i < |rt.nodes[source]|
    ensures var f := Families(rt, VectorsOf(rt, source), excluded, named, scope, live);
            i < |f| && IsTop(top, 2, f[i]) && OnePerPerson(f[i])
  {
    var r := ReferenceAt(rt, rt.nodes[source][i]);
    FiledReference(rt, e, source, i);
    top := BestPeople(rt, e, r.vector.value, excluded, named, scope, 2, live);
    SupportedOnce(rt, e, r.vector.value, excluded, named, scope, live);
  }

  lemma TopsGrow(tops: seq<seq<Candidate>>, families: seq<iset<Candidate>>, top: seq<Candidate>)
    requires |tops| < |families| && Tops(tops, families[..|tops|])
    requires IsTop(top, 2, families[|tops|]) && OnePerPerson(families[|tops|])
    ensures Tops(tops + [top], families[..|tops| + 1])
  {}

  /** The merged short lists of all references of the source group, best first; the first two are
      the exact best two of the group. */
  method GroupCandidates(rt: Runtime, ghost e: map<int, Entry>, source: int, excluded: set<int>, named: set<int>,
                         scope: Scope, live: map<int, Live>)
    returns (ordered: seq<Candidate>)
    requires rt.Shows(Rebuilt(e))
    ensures Sorted(ordered)
    ensures IsTop(Standings(ordered[..if |ordered| < 2 then |ordered| else 2]), 2,
                  GroupFamily(Families(rt, VectorsOf(rt, source), excluded, named, scope, live)))
  {
    var count := if source in rt.nodes then |rt.nodes[source]| else 0;
    ghost var families := Families(rt, VectorsOf(rt, source), excluded, named, scope, live);
    assert |families| == count;
    var best: map<int, Candidate> := map[];
    ghost var tops: seq<seq<Candidate>> := [];
    for i := 0 to count
      invariant |tops| == i && Tops(tops, families[..i]) && Merged(best, tops)
    {
      var candidates := ReferenceTopTwo(rt, e, source, i, excluded, named, scope, live);
      best := MergeShortList(best, candidates, tops);
      TopsGrow(tops, families, candidates);
      tops := tops + [candidates];
    }
    assert families[..count] == families;
    var all := AppendScores([], best);
    ordered := SortCandidates(all);
    TopTwoOfGroup(ordered, best, tops, families);
  }

  /** What the references of a group could be matched with in one scope, each person at its best. */
  ghost function GroupMatches(rt: Runtime, source: int, excluded: set<int>, named: set<int>, scope: Scope,
                              live: map<int, Live>): iset<Candidate>
    reads rt
  {
    GroupFamily(Families(rt, VectorsOf(rt, source), excluded, named, scope, live))
  }

  /** Nobody excluded is matched. */
  lemma MatchesAreAllowed(rt: Runtime, source: int, excluded: set<int>, named: set<int>, scope: Scope,
                          live: map<int, Live>,
                          c: Candidate)
    requires c in GroupMatches(rt, source, excluded, named, scope, live)
    ensures c.person !in excluded && exists id :: id in live && live[id].person == c.person
  {
    var families := Families(rt, VectorsOf(rt, source), excluded, named, scope, live);
    var j, d :| 0 <= j < |families| && d in families[j] && Standing(d) == c;
    assert IsValid(d, VectorsOf(rt, source)[j], References(rt), live, scope);
  }

  lemma DecidedIsAllowed(rt: Runtime, source: int, excluded: set<int>, named: set<int>, scope: Scope,
                         live: map<int, Live>,
                         similarity: real, margin: real, decided: Option<int>)
    requires decided.Some?
    requires Decides(GroupMatches(rt, source, excluded, named, scope, live), similarity, margin, decided)
    ensures decided.value !in excluded && exists id :: id in live && live[id].person == decided.value
  {
    var family := GroupMatches(rt, source, excluded, named, scope, live);
    var c :| Wins(family, similarity, margin, c) && c.person == decided.value;
    MatchesAreAllowed(rt, source, excluded, named, scope, live, c);
  }

  /** The outcome of reconcileFaceGroup for the first active face of a group, before the merge
      itself: confirmed named people first, then unconfirmed unnamed groups.  A decided but
      protected group is not moved and ends the search.  The target is never an excluded person. */
  method ReconcileFaceGroup(rt: Runtime, ghost e: map<int, Entry>, source: int, excluded: set<int>, named: set<int>,
                            live: map<int, Live>, eligible: bool, similarity: real, margin: real)
    returns (target: Option<int>)
    requires rt.Shows(Rebuilt(e))
    ensures !eligible ==> target.None?
    ensures eligible ==>
      DecidesInTurn(GroupMatches(rt, source, excluded, named, ConfirmedNamed, live),
                    GroupMatches(rt, source, excluded, named, UnconfirmedUnnamed, live), similarity, margin, target)
    ensures target.Some? ==> target.value !in excluded && exists id :: id in live && live[id].person == target.value
  {
    hide Decides;
    hide GroupMatches;
    ghost var known := GroupMatches(rt, source, excluded, named, ConfirmedNamed, live);
    ghost var unknown := GroupMatches(rt, source, excluded, named, UnconfirmedUnnamed, live);
    var first: Option<int> := None;
    if named != {} {
      first := DecideGroup(rt, e, source, excluded, named, ConfirmedNamed, live, similarity, margin);
    } else {
      NobodyConfirmed(rt, source, excluded, live, similarity, margin);
    }
    assert Decides(known, similarity, margin, first);
    if first.Some? {
      DecidedIsAllowed(rt, source, excluded, named, ConfirmedNamed, live, similarity, margin, first);
      return if eligible then first else None;
    }
    target := DecideGroup(rt, e, source, excluded, named, UnconfirmedUnnamed, live, similarity, margin);
    if target.Some? {
      DecidedIsAllowed(rt, source, excluded, named, UnconfirmedUnnamed, live, similarity, margin, target);
    }
    if !eligible {
      target := None;
    }
  }

  lemma NobodyConfirmed(rt: Runtime, source: int, excluded: set<int>, live: map<int, Live>, similarity: real,
                        margin: real)
    ensures Decides(GroupMatches(rt, source, excluded, {}, ConfirmedNamed, live), similarity, margin, None)
  {
    var families := Families(rt, VectorsOf(rt, source), excluded, {}, ConfirmedNamed, live);
    forall c ensures !Reached(families, c) {}
  }

  /** The best of the group in one scope, if similar enough and clearly ahead. */
  method DecideGroup(rt: Runtime, ghost e: map<int, Entry>, source: int, excluded: set<int>, named: set<int>,
                     scope: Scope, live: map<int, Live>, similarity: real, margin: real)
    returns (decided: Option<int>)
    requires rt.Shows(Rebuilt(e))
    ensures Decides(GroupMatches(rt, source, excluded, named, scope, live), similarity, margin, decided)
  {
    var candidates := GroupCandidates(rt, e, source, excluded, named, scope, live);
    ghost var top := Standings(candidates[..if |candidates| < 2 then |candidates| else 2]);
    decided := None;
    if |candidates| > 0 && candidates[0].score >= similarity && ReviewCandidateAllowed(candidates, 0, margin) {
      decided := Some(candidates[0].person);
    }
    assert decided == Decide(top, similarity, margin);
    TopTwoDecide(top, GroupMatches(rt, source, excluded, named, scope, live), similarity, margin);
  }

  // ---- suggestions reuse a ranking ----

  /** Filtering a ranking of everybody gives the ranking of the scope, without scoring again. */
  method FilterRanking(groups: map<int, seq<Vector>>, ranked: seq<Candidate>, ghost v: Vector, ghost earlier: set<int>,
                       excluded: set<int>, named: set<int>, scope: Scope)
    returns (scoped: seq<Candidate>)
    requires IsRanking(ranked, groups, v, earlier, {}, AllPeople)
    requires scope.Named? || scope.UnconfirmedUnnamed?
    ensures IsRanking(scoped, groups, v, earlier + excluded, named, scope)
  {
    scoped := [];
    for i := 0 to |ranked|
      invariant Sorted(scoped) && DistinctPeople(scoped)
      invariant forall c :: c in scoped <==>
        c in ranked[..i] && c.person !in excluded && ((c.person in named) == scope.Named?)
    {
      var c := ranked[i];
      forall k | 0 <= k < |scoped| ensures Before(scoped[k], c) && scoped[k].person != c.person {
        assert scoped[k] in scoped;
        var j :| 0 <= j < i && ranked[j] == scoped[k];
      }
      if c.person !in excluded && ((c.person in named) == scope.Named?) {
        scoped := scoped + [c];
      }
    }
    forall p | p in groups && groups[p] != [] && PersonAllowed(p, earlier + excluded, named, scope)
      ensures exists c :: c in scoped && c.person == p
    {
      var c :| c in ranked && c.person == p;
      assert c in scoped;
    }
  }

  /** What is suggested of a short list: whoever is similar enough and, with a positive margin, only a clear winner. */
  predicate Suggested(top: seq<Candidate>, similarity: real, margin: real, c: Candidate) {
    && c in top && c.score >= similarity
    && (margin == 0.0 || (c == top[0] && (|top| < 2 || c.score - top[1].score >= margin)))
  }

  /** The suggestions on the exact best three of a family. */
  ghost predicate Suggests(family: iset<Candidate>, similarity: real, margin: real, result: seq<Candidate>) {
    && Sorted(result)
    && exists top :: IsTop(top, 3, family) && forall c :: c in result <==> Suggested(top, similarity, margin, c)
  }

  lemma SuggestsOnce(family: iset<Candidate>, similarity: real, margin: real, a: seq<Candidate>, b: seq<Candidate>)
    requires OnePerPerson(family) && Suggests(family, similarity, margin, a) && Suggests(family, similarity, margin, b)
    ensures a == b
  {
    var s :| IsTop(s, 3, family) && forall c :: c in a <==> Suggested(s, similarity, margin, c);
    var t :| IsTop(t, 3, family) && forall c :: c in b <==> Suggested(t, similarity, margin, c);
    TopIsUnique(s, t, 3, family);
    Sorting.OrderedIsUnique(a, b, Before);
  }

  /** What the suggestions of a family are: members that are similar enough. Without a margin the best three of
      those, with one only somebody ahead of everybody else by it. */
  lemma SuggestsMembers(family: iset<Candidate>, similarity: real, margin: real, result: seq<Candidate>)
    requires Suggests(family, similarity, margin, result)
    ensures forall c | c in result :: c in family && c.score >= similarity
    ensures margin != 0.0 ==>
      forall c, d | c in result && d in family && d != c :: Before(c, d) && c.score - d.score >= margin
    ensures forall c | c in family && c.score >= similarity && c !in result ::
      if margin == 0.0 then |result| >= 3 && forall d | d in result :: Before(d, c)
      else exists d :: d in family && d != c && (Before(d, c) || c.score - d.score < margin)
  {
    var top :| IsTop(top, 3, family) && forall c :: c in result <==> Suggested(top, similarity, margin, c);
    forall c, d | c in result && d in family && d != c && margin != 0.0
      ensures Before(c, d) && c.score - d.score >= margin
    {
      TopIsAhead(top, family, c, d);
    }
    forall c | c in family && c.score >= similarity && c !in result
      ensures if margin == 0.0 then |result| >= 3 && forall d | d in result :: Before(d, c)
              else exists d :: d in family && d != c && (Before(d, c) || c.score - d.score < margin)
    {
      LeftOut(top, family, similarity, margin, result, c);
    }
  }

  lemma TopIsAhead(top: seq<Candidate>, family: iset<Candidate>, c: Candidate, d: Candidate)
    requires IsTop(top, 3, family) && |top| > 0 && c == top[0] && d in family && d != c
    ensures Before(c, d) && |top| >= 2 && top[1].score >= d.score
  {
    if d !in top {
      assert Before(top[2], d) && Before(top[1], top[2]);
    }
  }

  lemma LeftOut(top: seq<Candidate>, family: iset<Candidate>, similarity: real, margin: real, result: seq<Candidate>,
                c: Candidate)
    requires IsTop(top, 3, family) && Sorted(result)
    requires forall x :: x in result <==> Suggested(top, similarity, margin, x)
    requires c in family && c.score >= similarity && c !in result
    ensures if margin == 0.0 then |result| >= 3 && forall d | d in result :: Before(d, c)
            else exists d :: d in family && d != c && (Before(d, c) || c.score - d.score < margin)
  {
    if c !in top {
      assert |top| == 3 && Before(top[2], c) && Before(top[1], top[2]) && Before(top[0], top[1]);
      if margin == 0.0 {
        assert top[0] in top && top[1] in top && top[2] in top;
        assert top[0] in result && top[1] in result && top[2] in result;
        ThreeThere(result, top[0], top[1], top[2]);
      } else {
        assert top[0] in top && top[0] in family && Before(top[0], c);
      }
    } else if c == top[0] {
      assert |top| >= 2 && top[1] in top && top[1] in family;
    } else {
      assert top[0] in top && top[0] in family && Before(top[0], c);
    }
  }

  lemma ThreeThere(s: seq<Candidate>, a: Candidate, b: Candidate, c: Candidate)
    requires a in s && b in s && c in s && a != b && b != c && a != c
    ensures |s| >= 3
  {
    var i :| 0 <= i < |s| && s[i] == a;
    var j :| 0 <= j < |s| && s[j] == b;
    var k :| 0 <= k < |s| && s[k] == c;
  }

  /** The loop over the validated candidates of one scope. */
  method CutSuggestions(candidates: seq<Candidate>, similarity: real, margin: real) returns (result: seq<Candidate>)
    requires Sorted(candidates)
    ensures Sorted(result) && forall c :: c in result <==> Suggested(candidates, similarity, margin, c)
  {
    result := [];
    var i := 0;
    while i < |candidates| && candidates[i].score >= similarity
      invariant 0 <= i <= |candidates|
      invariant Sorted(result)
      invariant forall c :: c in result <==> c in candidates[..i] && Suggested(candidates, similarity, margin, c)
    {
      forall k | 0 <= k < |result| ensures Before(result[k], candidates[i]) {
        assert result[k] in result;
      }
      assert candidates[..i + 1] == candidates[..i] + [candidates[i]];
      assert ReviewCandidateAllowed(candidates, i, margin) <==>
        Suggested(candidates, similarity, margin, candidates[i]);
      if ReviewCandidateAllowed(candidates, i, margin) {
        result := result + [candidates[i]];
      }
      i := i + 1;
    }
    forall c | c in candidates && c.score >= similarity ensures c in candidates[..i] {
      var k :| 0 <= k < |candidates| && candidates[k] == c;
      assert k < i;
    }
  }

  /** Review suggestions of one scope: the exact best three, cut by similarity and, with a
      positive margin, reduced to a clear winner. */
  method ScopeSuggestions(rt: Runtime, ghost e: map<int, Entry>, v: Vector, ranked: seq<Candidate>,
                          ghost earlier: set<int>, excluded: set<int>, named: set<int>, scope: Scope,
                          live: map<int, Live>, similarity: real, margin: real)
    returns (result: seq<Candidate>)
    requires rt.Shows(Rebuilt(e)) && IsRanking(ranked, rt.groups, v, earlier, {}, AllPeople)
    requires scope.Named? || scope.UnconfirmedUnnamed?
    ensures Suggests(Supported(References(rt), v, earlier + excluded, named, scope, live), similarity, margin, result)
  {
    hide Supported;
    hide Suggested;
    hide IsRanking;
    var scoped := FilterRanking(rt.groups, ranked, v, earlier, excluded, named, scope);
    RebuiltIsCoherent(rt, e);
    RankingBounds(rt, e, v, scoped, earlier + excluded, named, scope);
    RankingIsComplete(rt, e, v, scoped, earlier + excluded, named, scope, live);
    RankedInOrder(scoped, rt.groups, v, earlier + excluded, named, scope);
    var candidates := ValidateFaceCandidatesInScope(v, scoped, 3, References(rt), live, scope);
    result := CutSuggestions(candidates, similarity, margin);
    assert IsTop(candidates, 3, Supported(References(rt), v, earlier + excluded, named, scope, live));
  }

  lemma RankedInOrder(ranked: seq<Candidate>, groups: map<int, seq<Vector>>, v: Vector, excluded: set<int>,
                      named: set<int>,
                      scope: Scope)
    requires IsRanking(ranked, groups, v, excluded, named, scope)
    ensures Sorted(ranked) && DistinctPeople(ranked)
  {}

  lemma NobodySuggested(rt: Runtime, v: Vector, excluded: set<int>, live: map<int, Live>, similarity: real,
                        margin: real)
    ensures Suggests(Supported(References(rt), v, excluded, {}, Named, live), similarity, margin, [])
  {
    assert IsTop([], 3, Supported(References(rt), v, excluded, {}, Named, live));
  }

  /** Suggestions among named people; only when there are none, among unconfirmed groups.  The ranking of everybody
      is made once. */
  method FaceReconciliationSuggestions(rt: Runtime, ghost e: map<int, Entry>, v: Vector, ranked: seq<Candidate>,
                                       ghost earlier: set<int>, excluded: set<int>, named: set<int>,
                                       live: map<int, Live>, similarity: real, margin: real)
    returns (result: seq<Candidate>)
    requires rt.Shows(Rebuilt(e)) && IsRanking(ranked, rt.groups, v, earlier, {}, AllPeople)
    ensures var known := Supported(References(rt), v, earlier + excluded, named, Named, live);
      var unknown := Supported(References(rt), v, earlier + excluded, named, UnconfirmedUnnamed, live);
      && (Suggests(known, similarity, margin, []) ==> Suggests(unknown, similarity, margin, result))
      && (!Suggests(known, similarity, margin, []) ==> result != [] && Suggests(known, similarity, margin, result))
      && OnePerPerson(known) && OnePerPerson(unknown)
  {
    hide Supported;
    hide IsRanking;
    hide Suggests;
    ghost var known := Supported(References(rt), v, earlier + excluded, named, Named, live);
    SupportedOnce(rt, e, v, earlier + excluded, named, Named, live);
    SupportedOnce(rt, e, v, earlier + excluded, named, UnconfirmedUnnamed, live);
    result := [];
    if named != {} {
      result := ScopeSuggestions(rt, e, v, ranked, earlier, excluded, named, Named, live, similarity, margin);
      if result != [] {
        if Suggests(known, similarity, margin, []) {
          SuggestsOnce(known, similarity, margin, [], result);
        }
        return;
      }
    } else {
      NobodySuggested(rt, v, earlier + excluded, live, similarity, margin);
    }
    result := ScopeSuggestions(rt, e, v, ranked, earlier, excluded, named, UnconfirmedUnnamed, live, similarity,
      margin);
  }
}
