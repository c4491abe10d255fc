/** Face candidates, their order, and what it means to be the best few of a family. */
module FaceOrder {
  import opened FaceTables
  import opened Pick
  import Sorting

  datatype Candidate = Candidate(person: int, score: real, face: int)

  /** Sum of the products of the first components, in the order of the Go loop. */
  function Dot(a: Vector, b: Vector, n: nat): real
    requires n <= |a| == |b|
  {
    if n == 0 then 0.0 else Dot(a, b, n - 1) + a[n - 1] * b[n - 1]
  }

  function Cosine(a: Vector, b: Vector): real {
    if |a| != |b| then -1.0 else Dot(a, b, |a|)
  }

  method ComputeCosine(a: Vector, b: Vector) returns (sum: real)
    ensures sum == Cosine(a, b)
  {
    if |a| != |b| {
      return -1.0;
    }
    sum := 0.0;
    for i := 0 to |a|
      invariant sum == Dot(a, b, i)
    {
      sum := sum + a[i] * b[i];
    }
  }

  function Compare(a: Candidate, b: Candidate): (r: int) {
    if a.score > b.score then -1
    else if a.score < b.score then 1
    else if a.person < b.person then -1
    else if a.person > b.person then 1
    else 0
  }

  predicate Before(a: Candidate, b: Candidate) {
    Compare(a, b) < 0
  }

  ghost predicate Sorted(s: seq<Candidate>) {
    forall i, j | 0 <= i < j < |s| :: Before(s[i], s[j])
  }

  ghost predicate DistinctPeople(s: seq<Candidate>) {
    forall i, j | 0 <= i < j < |s| :: s[i].person != s[j].person
  }

  /** `top` are the best `limit` members of the family `family`, best first; everybody when there
      are fewer. */
  ghost predicate IsTop(top: seq<Candidate>, limit: nat, family: iset<Candidate>) {
    && Sorted(top)
    && |top| <= limit
    && (forall c | c in top :: c in family)
    && (forall c | c in family && c !in top :: |top| == limit && (limit > 0 ==> Before(top[limit - 1], c)))
  }

  /** Two members never tie on score and person. */
  ghost predicate OnePerPerson(family: iset<Candidate>) {
    forall c, d | c in family && d in family && c.person == d.person :: c == d
  }

  lemma NotAhead(s: seq<Candidate>, t: seq<Candidate>, limit: nat, family: iset<Candidate>, n: nat)
    requires IsTop(s, limit, family) && IsTop(t, limit, family)
    requires n < |s| && n < |t| && forall k | 0 <= k < n :: s[k] == t[k]
    ensures !Before(t[n], s[n])
  {
    var c := t[n];
    assert c in family;
    if c in s {
      var k :| 0 <= k < |s| && s[k] == c;
      assert k >= n;
    } else {
      assert n < limit - 1 ==> Before(s[n], s[limit - 1]);
    }
  }

  lemma {:induction false} SamePrefix(s: seq<Candidate>, t: seq<Candidate>, limit: nat, family: iset<Candidate>, n: nat)
    requires IsTop(s, limit, family) && IsTop(t, limit, family) && OnePerPerson(family)
    requires n <= |s| && n <= |t|
    ensures forall k | 0 <= k < n :: s[k] == t[k]
  {
    if n > 0 {
      SamePrefix(s, t, limit, family, n - 1);
      NotAhead(s, t, limit, family, n - 1);
      NotAhead(t, s, limit, family, n - 1);
      assert s[n - 1] in family && t[n - 1] in family;
    }
  }

  lemma NotLonger(s: seq<Candidate>, t: seq<Candidate>, limit: nat, family: iset<Candidate>)
    requires IsTop(s, limit, family) && IsTop(t, limit, family)
    requires |s| < |t|
    ensures exists k :: 0 <= k < |s| && s[k] != t[k]
  {
    var c := t[|s|];
    assert c in family && c in s;
    var k :| 0 <= k < |s| && s[k] == c;
    assert Before(t[k], t[|s|]);
  }

  /** Being the top `limit` leaves no freedom. */
  lemma TopIsUnique(s: seq<Candidate>, t: seq<Candidate>, limit: nat, family: iset<Candidate>)
    requires IsTop(s, limit, family) && IsTop(t, limit, family) && OnePerPerson(family)
    ensures s == t
  {
    SamePrefix(s, t, limit, family, if |s| < |t| then |s| else |t|);
    if |s| < |t| {
      NotLonger(s, t, limit, family);
    } else if |t| < |s| {
      NotLonger(t, s, limit, family);
    }
  }

  /** Sorting candidates of distinct people. */
  method SortCandidates(s: seq<Candidate>) returns (t: seq<Candidate>)
    requires DistinctPeople(s)
    ensures Sorted(t) && |t| == |s|
    ensures forall c :: c in t <==> c in s
  {
    t := Sorting.Sort(s, Before);
  }

  /** The best `limit` of some members, joined with new members and cut again. */
  lemma TopOfUnion(prev: seq<Candidate>, all: seq<Candidate>, limit: nat, m: iset<Candidate>, n: iset<Candidate>)
    requires IsTop(prev, limit, m)
    requires Sorted(all) && forall c :: c in all <==> c in prev || c in n
    requires limit > 0
    ensures IsTop(all[..if limit < |all| then limit else |all|], limit, m + n)
  {
    var cut := if limit < |all| then limit else |all|;
    var top := all[..cut];
    forall c | (c in m || c in n) && c !in top
      ensures cut == limit && Before(top[limit - 1], c)
    {
      if c in all {
        var k :| 0 <= k < |all| && all[k] == c;
        assert k >= cut;
      } else {
        assert c in m && c !in prev;
        KeepsFull(prev, all, limit);
      }
    }
  }

  /** Adding candidates cannot push the last place backwards. */
  lemma KeepsFull(prev: seq<Candidate>, all: seq<Candidate>, limit: nat)
    requires Sorted(prev) && |prev| == limit > 0 && Sorted(all)
    requires forall c | c in prev :: c in all
    ensures |all| >= limit
    ensures all[limit - 1] == prev[limit - 1] || Before(all[limit - 1], prev[limit - 1])
  {
    var last := prev[limit - 1];
    assert last in prev;
    var k :| 0 <= k < |all| && all[k] == last;
    var head := all[..k + 1];
    assert head[k] == last;
    forall c | c in prev ensures c in head {
      var i, j :| 0 <= i < |prev| && prev[i] == c && 0 <= j < |all| && all[j] == c;
      assert i < limit - 1 ==> Before(prev[i], last) && j < k;
      assert i < limit - 1 ==> head[j] == c;
    }
    SortedCount(prev);
    SortedCount(head);
    SubsetSize((set c | c in prev), (set c | c in head));
  }

  lemma SortedCount(s: seq<Candidate>)
    requires Sorted(s)
    ensures |set c | c in s| == |s|
  {
    if s != [] {
      var init, last := s[..|s| - 1], s[|s| - 1];
      SortedCount(init);
      assert (set c | c in s) == (set c | c in init) + {last};
    }
  }
}
