/** The best two people of a whole group, from the best two of each of its references. */
module FaceTopTwo {
  import opened FaceOrder

  /** A candidate without its witness face. */
  function Standing(c: Candidate): Candidate {
    c.(face := 0)
  }

  function Standings(s: seq<Candidate>): (t: seq<Candidate>)
    ensures |t| == |s| && forall i | 0 <= i < |s| :: t[i] == Standing(s[i])
  {
    seq(|s|, i requires 0 <= i < |s| => Standing(s[i]))
  }

  /** `c` is, up to its face, a member of some family. */
  ghost predicate Reached(families: seq<iset<Candidate>>, c: Candidate) {
    exists j, d :: 0 <= j < |families| && d in families[j] && Standing(d) == c
  }

  /** No family gives the person of `c` a higher score. */
  ghost predicate Unbeaten(families: seq<iset<Candidate>>, c: Candidate) {
    forall j, d | 0 <= j < |families| && d in families[j] && d.person == c.person :: d.score <= c.score
  }

  /** The people of all families, each with the highest score reached in any of them. */
  ghost function GroupFamily(families: seq<iset<Candidate>>): iset<Candidate> {
    iset c: Candidate | Reached(families, c) && Unbeaten(families, c)
  }

  ghost predicate InSome(tops: seq<seq<Candidate>>, c: Candidate) {
    exists j :: 0 <= j < |tops| && c in tops[j]
  }

  /** `best` holds, for every person in any of the short lists, the best entry found there. */
  ghost predicate Merged(best: map<int, Candidate>, tops: seq<seq<Candidate>>) {
    && (forall p | p in best :: best[p].person == p && InSome(tops, best[p]))
    && (forall c | InSome(tops, c) :: c.person in best && best[c.person].score >= c.score)
  }

  /** `ordered` lists the values of `best`, best first. */
  ghost predicate Ordered(ordered: seq<Candidate>, best: map<int, Candidate>) {
    && Sorted(ordered)
    && forall c :: c in ordered <==> c.person in best && best[c.person] == c
  }

  /** One short list per family. */
  ghost predicate Tops(tops: seq<seq<Candidate>>, families: seq<iset<Candidate>>) {
    && |tops| == |families|
    && forall j | 0 <= j < |tops| :: IsTop(tops[j], 2, families[j]) && OnePerPerson(families[j])
  }

  /** Somebody missing from a full short list leaves two people ahead of him in the merged list. */
  lemma TwoAhead(ordered: seq<Candidate>, best: map<int, Candidate>, tops: seq<seq<Candidate>>,
                 families: seq<iset<Candidate>>, j: nat, d: Candidate)
    requires Ordered(ordered, best) && Merged(best, tops) && Tops(tops, families) && j < |tops|
    requires d in families[j] && d !in tops[j]
    ensures |ordered| >= 2 && Before(ordered[0], d) && Before(ordered[1], d)
  {
    var top := tops[j];
    assert IsTop(top, 2, families[j]);
    assert top[0] in top && top[1] in top;
    assert Before(top[0], top[1]) && Before(top[1], d);
    MergedAhead(ordered, best, tops, top[0], d);
    MergedAhead(ordered, best, tops, top[1], d);
    var a :| 0 <= a < |ordered| && ordered[a] == best[top[0].person];
    var b :| 0 <= b < |ordered| && ordered[b] == best[top[1].person];
    AheadOf(ordered, a, d);
    AheadOf(ordered, b, d);
    SecondAhead(ordered, if a < b then b else a, d);
  }

  lemma MergedAhead(ordered: seq<Candidate>, best: map<int, Candidate>, tops: seq<seq<Candidate>>, c: Candidate,
                    d: Candidate)
    requires Ordered(ordered, best) && Merged(best, tops) && InSome(tops, c) && Before(c, d)
    ensures c.person in best && best[c.person] in ordered && Before(best[c.person], d)
  {}

  lemma AheadOf(ordered: seq<Candidate>, a: nat, d: Candidate)
    requires Sorted(ordered) && a < |ordered| && Before(ordered[a], d)
    ensures Before(ordered[0], d)
  {}

  lemma SecondAhead(ordered: seq<Candidate>, late: nat, d: Candidate)
    requires Sorted(ordered) && 0 < late < |ordered| && Before(ordered[late], d)
    ensures Before(ordered[1], d)
  {}

  lemma MergedIsExact(best: map<int, Candidate>, tops: seq<seq<Candidate>>, families: seq<iset<Candidate>>, j: nat,
                      d: Candidate)
    requires Merged(best, tops) && Tops(tops, families) && j < |tops| && d in tops[j] && Unbeaten(families, Standing(d))
    ensures d.person in best && Standing(best[d.person]) == Standing(d)
  {
    assert InSome(tops, d);
    assert InSome(tops, best[d.person]);
    var i :| 0 <= i < |tops| && best[d.person] in tops[i];
    assert IsTop(tops[i], 2, families[i]) && best[d.person] in families[i];
  }

  lemma FromFamily(families: seq<iset<Candidate>>, c: Candidate) returns (j: nat, d: Candidate)
    requires c in GroupFamily(families)
    ensures j < |families| && d in families[j] && Standing(d) == c && Unbeaten(families, Standing(d))
  {
    j, d :| 0 <= j < |families| && d in families[j] && Standing(d) == c;
  }

  /** The true best entry of a person is merged, or two people are ahead of it. */
  lemma ExactOrTwoAhead(ordered: seq<Candidate>, best: map<int, Candidate>, tops: seq<seq<Candidate>>,
                        families: seq<iset<Candidate>>, c: Candidate)
    requires Ordered(ordered, best) && Merged(best, tops) && Tops(tops, families) && c in GroupFamily(families)
    ensures || (c.person in best && Standing(best[c.person]) == c)
            || (|ordered| >= 2 && Before(ordered[0], c) && Before(ordered[1], c))
  {
    hide GroupFamily;
    var j, d := FromFamily(families, c);
    assert |tops| == |families|;
    hide Ordered;
    hide Merged;
    hide Tops;
    hide Unbeaten;
    if d in tops[j] {
      MergedIsExact(best, tops, families, j, d);
    } else {
      TwoAhead(ordered, best, tops, families, j, d);
    }
  }

  lemma ReachedGrows(families: seq<iset<Candidate>>, more: seq<iset<Candidate>>, c: Candidate)
    requires Reached(families, c)
    ensures Reached(families + more, c)
  {
    var j, d :| 0 <= j < |families| && d in families[j] && Standing(d) == c;
    assert d in (families + more)[j];
  }

  /** Adding one family: the best entry so far, or a better one of the new family. */
  lemma BestExtends(init: seq<iset<Candidate>>, last: iset<Candidate>, c: Candidate)
    requires Unbeaten(init, c) && Reached(init + [last], c) && OnePerPerson(last)
    ensures exists b :: b in GroupFamily(init + [last]) && b.person == c.person
  {
    var families := init + [last];
    if d: Candidate :| d in last && d.person == c.person && d.score > c.score {
      var b := Standing(d);
      assert d in families[|init|];
      assert Reached(families, b);
      forall j, x: Candidate | 0 <= j < |families| && x in families[j] && x.person == b.person
        ensures x.score <= b.score
      {
        assert j < |init| ==> x in init[j];
      }
      assert b in GroupFamily(families);
    } else {
      forall j, x: Candidate | 0 <= j < |families| && x in families[j] && x.person == c.person
        ensures x.score <= c.score
      {
        assert j < |init| ==> x in init[j];
      }
      assert c in GroupFamily(families);
    }
  }

  /** Among finitely many families a person that occurs has a best entry. */
  lemma {:induction false} BestExists(families: seq<iset<Candidate>>, e: Candidate) returns (c: Candidate)
    requires Reached(families, e)
    requires forall i | 0 <= i < |families| :: OnePerPerson(families[i])
    ensures c in GroupFamily(families) && c.person == e.person
  {
    var init, last := families[..|families| - 1], families[|families| - 1];
    assert families == init + [last] && OnePerPerson(last);
    if x :| Reached(init, x) && x.person == e.person {
      var b := BestExists(init, x);
      ReachedGrows(init, [last], b);
      BestExtends(init, last, b);
    } else {
      forall j, d: Candidate | 0 <= j < |init| && d in init[j] ensures d.person != e.person {
        assert Reached(init, Standing(d));
      }
      BestExtends(init, last, e);
    }
    c :| c in GroupFamily(families) && c.person == e.person;
  }

  lemma FrontIsExact(ordered: seq<Candidate>, best: map<int, Candidate>, tops: seq<seq<Candidate>>,
                     families: seq<iset<Candidate>>, k: nat)
    requires Ordered(ordered, best) && Merged(best, tops) && Tops(tops, families) && k < |ordered| && k < 2
    ensures Standing(ordered[k]) in GroupFamily(families)
  {
    hide Compare;
    hide Sorted;
    hide OnePerPerson;
    var b := ordered[k];
    assert b in ordered && InSome(tops, b);
    var i :| 0 <= i < |tops| && b in tops[i];
    assert b in families[i];
    assert Reached(families, Standing(b));
    var c := BestExists(families, Standing(b));
    assert Unbeaten(families, c) && b.score <= c.score;
    ExactOrTwoAhead(ordered, best, tops, families, c);
    FrontIsBest(ordered, best, k, c);
  }

  lemma FrontIsBest(ordered: seq<Candidate>, best: map<int, Candidate>, k: nat, c: Candidate)
    requires Ordered(ordered, best) && k < |ordered| && k < 2 && c.person == ordered[k].person
      && ordered[k].score <= c.score
    requires || (c.person in best && Standing(best[c.person]) == c)
             || (|ordered| >= 2 && Before(ordered[0], c) && Before(ordered[1], c))
    ensures Standing(ordered[k]) == c
  {
    assert ordered[k] in ordered;
  }

  lemma FrontSorted(ordered: seq<Candidate>, cut: nat)
    requires Sorted(ordered) && cut <= |ordered|
    ensures Sorted(Standings(ordered[..cut]))
  {
    forall i, j | 0 <= i < j < cut ensures Before(Standing(ordered[i]), Standing(ordered[j])) {
      assert Before(ordered[i], ordered[j]);
    }
  }

  lemma WithoutWitness(families: seq<iset<Candidate>>, c: Candidate)
    requires c in GroupFamily(families)
    ensures c.face == 0
  {}

  lemma StandsAhead(a: Candidate, b: Candidate)
    requires Before(a, b)
    ensures Before(Standing(a), b)
  {}

  /** The best two people of the group, ties included, are the first two merged. */
  lemma TopTwoOfGroup(ordered: seq<Candidate>, best: map<int, Candidate>, tops: seq<seq<Candidate>>,
                      families: seq<iset<Candidate>>)
    requires Ordered(ordered, best) && Merged(best, tops) && Tops(tops, families)
    ensures IsTop(Standings(ordered[..if |ordered| < 2 then |ordered| else 2]), 2, GroupFamily(families))
  {
    hide Merged;
    hide Tops;
    hide GroupFamily;
    hide Compare;
    var cut := if |ordered| < 2 then |ordered| else 2;
    var top := Standings(ordered[..cut]);
    FrontSorted(ordered, cut);
    forall k | 0 <= k < cut ensures top[k] in GroupFamily(families) {
      FrontIsExact(ordered, best, tops, families, k);
    }
    forall c | c in GroupFamily(families) && c !in top ensures |top| == 2 && Before(top[1], c) {
      WithoutWitness(families, c);
      ExactOrTwoAhead(ordered, best, tops, families, c);
      NotInTop(ordered, best, c, cut);
      StandsAhead(ordered[1], c);
    }
  }

  lemma NotInTop(ordered: seq<Candidate>, best: map<int, Candidate>, c: Candidate, cut: nat)
    requires Ordered(ordered, best) && cut == if |ordered| < 2 then |ordered| else 2
    requires c !in Standings(ordered[..cut]) && c.face == 0
    requires || (c.person in best && Standing(best[c.person]) == c)
             || (|ordered| >= 2 && Before(ordered[0], c) && Before(ordered[1], c))
    ensures cut == 2 && Before(ordered[1], c)
  {
    if c.person in best && Standing(best[c.person]) == c {
      NotInFront(ordered, best[c.person], cut);
    }
  }

  lemma NotInFront(ordered: seq<Candidate>, b: Candidate, cut: nat)
    requires Sorted(ordered) && b in ordered && cut == if |ordered| < 2 then |ordered| else 2
    requires Standing(b) !in Standings(ordered[..cut])
    ensures cut == 2 && Before(ordered[1], b)
  {
    var k :| 0 <= k < |ordered| && ordered[k] == b;
    FrontListed(ordered, cut);
  }

  lemma FrontListed(ordered: seq<Candidate>, cut: nat)
    requires cut <= |ordered|
    ensures forall k | 0 <= k < cut :: Standing(ordered[k]) in Standings(ordered[..cut])
  {
    forall k | 0 <= k < cut ensures Standing(ordered[k]) in Standings(ordered[..cut]) {
      assert Standings(ordered[..cut])[k] == Standing(ordered[k]);
    }
  }
}
