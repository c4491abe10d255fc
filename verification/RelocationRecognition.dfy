/** Recognising moved folders from unique content anchors. */
module RelocationRecognition {
  import opened Pick

  /** A path as its components, outermost first. */
  type Path = seq<string>

  datatype Move = Move(source: Path, target: Path)

  /** One anchor: a vanished file and the only new file with the same content, kind and name. */
  datatype Anchor = Anchor(source: Path, target: Path, hash: string)

  // ---- stripping common suffixes ----

  /** What is left of two paths without their longest common ending. */
  ghost predicate Stripped(a: Path, b: Path, m: Move) {
    && (exists tail: Path :: a == m.source + tail && b == m.target + tail)
    && (m.source == [] || m.target == [] || m.source[|m.source| - 1] != m.target[|m.target| - 1])
  }

  /** A longer common ending would show in the last components. */
  lemma LongerTail(a: Path, b: Path, m: Move, n: Move, s: Path, t: Path)
    requires a == m.source + s && b == m.target + s && a == n.source + t && b == n.target + t
    requires |t| > |s|
    ensures m.source != [] && m.target != [] && m.source[|m.source| - 1] == m.target[|m.target| - 1]
  {
    var k := |t| - 1 - |s|;
    assert m.source[|m.source| - 1] == a[|m.source| - 1] == t[k];
    assert m.target[|m.target| - 1] == b[|m.target| - 1] == t[k];
  }

  /** The stripped pair is determined by the two paths. */
  lemma StrippedIsUnique(a: Path, b: Path, m: Move, n: Move)
    requires Stripped(a, b, m) && Stripped(a, b, n)
    ensures m == n
  {
    var s: Path :| a == m.source + s && b == m.target + s;
    var t: Path :| a == n.source + t && b == n.target + t;
    if |t| > |s| {
      LongerTail(a, b, m, n, s, t);
    } else if |s| > |t| {
      LongerTail(a, b, n, m, t, s);
    }
    assert m.source == a[..|a| - |s|] && n.source == a[..|a| - |t|];
    assert m.target == b[..|b| - |s|] && n.target == b[..|b| - |t|];
  }

  method StripCommonSuffix(a: Path, b: Path) returns (m: Move)
    ensures Stripped(a, b, m)
  {
    var x, y := a, b;
    ghost var tail: Path := [];
    while |x| > 0 && |y| > 0 && x[|x| - 1] == y[|y| - 1]
      invariant a == x + tail && b == y + tail
      decreases |x|
    {
      tail := [x[|x| - 1]] + tail;
      x, y := x[..|x| - 1], y[..|y| - 1];
    }
    m := Move(x, y);
    assert a == m.source + tail && b == m.target + tail;
  }

  /** Where an anchor votes for a move. */
  ghost predicate Votes(c: Anchor, m: Move) {
    Stripped(c.source, c.target, m) && m.source != [] && m.target != []
  }

  ghost function Hashes(anchors: seq<Anchor>, m: Move): set<string> {
    set c | c in anchors && Votes(c, m) :: c.hash
  }

  /** Every move voted for, with all its content hashes when there is one and two of them
      otherwise. */
  ghost predicate Candidates(anchors: seq<Anchor>, found: map<Move, set<string>>) {
    Tallies(found, m => Hashes(anchors, m))
  }

  ghost predicate Tallies(found: map<Move, set<string>>, votes: Move -> set<string>) {
    && (forall m :: m in found <==> votes(m) != {})
    && (forall m | m in found :: Capped(found[m], votes(m)))
  }

  lemma TallyOne(found: map<Move, set<string>>, before: Move -> set<string>, after: Move -> set<string>, m: Move,
                 h: string, hashes: set<string>)
    requires Tallies(found, before)
    requires forall n :: after(n) == if n == m then before(m) + {h} else before(n)
    requires hashes == if m in found then found[m] else {}
    ensures Tallies(found[m := if |hashes| < 2 then hashes + {h} else hashes], after)
  {
    CappedHashes(hashes, before(m), h);
    assert h in after(m);
  }

  ghost predicate Capped(kept: set<string>, all: set<string>) {
    kept <= all && |kept| == if |all| < 2 then |all| else 2
  }

  lemma HashesGrow(anchors: seq<Anchor>, c: Anchor, m: Move, n: Move)
    requires Stripped(c.source, c.target, m)
    ensures Hashes(anchors + [c], n) ==
      Hashes(anchors, n) + if n == m && m.source != [] && m.target != [] then {c.hash} else {}
  {
    forall d ensures d in anchors + [c] <==> d in anchors || d == c {}
    if Votes(c, n) {
      StrippedIsUnique(c.source, c.target, m, n);
    }
  }

  lemma CappedHashes(kept: set<string>, all: set<string>, h: string)
    requires Capped(kept, all)
    ensures Capped(if |kept| < 2 then kept + {h} else kept, all + {h})
  {
    if |kept| < 2 {
      Pick.SameBySize(kept, all);
    } else {
      assert |all + {h}| >= 2 by {
        assert |all + {h}| == |all| + |{h} - all|;
      }
    }
  }

  lemma NoVote(anchors: seq<Anchor>, found: map<Move, set<string>>, c: Anchor, m: Move)
    requires Candidates(anchors, found) && Stripped(c.source, c.target, m)
    requires m.source == [] || m.target == []
    ensures Candidates(anchors + [c], found)
  {
    forall n ensures Hashes(anchors + [c], n) == Hashes(anchors, n) {
      HashesGrow(anchors, c, m, n);
    }
  }

  lemma AddVote(anchors: seq<Anchor>, found: map<Move, set<string>>, c: Anchor, m: Move, hashes: set<string>)
    requires Candidates(anchors, found) && Stripped(c.source, c.target, m)
    requires m.source != [] && m.target != []
    requires hashes == if m in found then found[m] else {}
    ensures Candidates(anchors + [c], found[m := if |hashes| < 2 then hashes + {c.hash} else hashes])
  {
    forall n ensures Hashes(anchors + [c], n) == if n == m then Hashes(anchors, m) + {c.hash} else Hashes(anchors, n) {
      HashesGrow(anchors, c, m, n);
    }
    TallyOne(found, n => Hashes(anchors, n), n => Hashes(anchors + [c], n), m, c.hash, hashes);
  }

  method CollectCandidates(anchors: seq<Anchor>) returns (found: map<Move, set<string>>)
    ensures Candidates(anchors, found)
  {
    found := map[];
    for i := 0 to |anchors|
      invariant Candidates(anchors[..i], found)
    {
      var c := anchors[i];
      var m := StripCommonSuffix(c.source, c.target);
      assert anchors[..i + 1] == anchors[..i] + [c];
      if m.source == [] || m.target == [] {
        NoVote(anchors[..i], found, c, m);
      } else {
        var hashes := if m in found then found[m] else {};
        AddVote(anchors[..i], found, c, m, hashes);
        found := found[m := if |hashes| < 2 then hashes + {c.hash} else hashes];
      }
    }
    assert anchors[..|anchors|] == anchors;
  }

  // ---- contradictions ----

  function Flip(m: Move): Move {
    Move(m.target, m.source)
  }

  function FlipAll(moves: seq<Move>): (f: seq<Move>)
    ensures |f| == |moves| && forall i | 0 <= i < |moves| :: f[i] == Flip(moves[i])
  {
    seq(|moves|, i requires 0 <= i < |moves| => Flip(moves[i]))
  }

  /** An outer move that sends the inner source elsewhere. */
  predicate Elsewhere(outer: Move, inner: Move) {
    outer.source < inner.source && outer.target + inner.source[|outer.source|..] != inner.target
  }

  /** Seen from either side. */
  predicate Mismatch(outer: Move, inner: Move) {
    Elsewhere(outer, inner) || Elsewhere(Flip(outer), Flip(inner))
  }

  /** The full pair scan. */
  ghost predicate Contradictory(moves: seq<Move>, i: int)
    requires 0 <= i < |moves|
  {
    exists j :: 0 <= j < |moves| && (Mismatch(moves[j], moves[i]) || Mismatch(moves[i], moves[j]))
  }

  /** Positions of the first `n` moves by source path. */
  ghost predicate Index(moves: seq<Move>, n: nat, index: map<Path, seq<int>>)
    requires n <= |moves|
  {
    && (forall p | p in index :: forall j | j in index[p] :: 0 <= j < n && moves[j].source == p)
    && (forall j | 0 <= j < n :: moves[j].source in index && j in index[moves[j].source])
  }

  method BuildIndex(moves: seq<Move>) returns (index: map<Path, seq<int>>)
    ensures Index(moves, |moves|, index)
  {
    index := map[];
    for i := 0 to |moves|
      invariant Index(moves, i, index)
    {
      var p := moves[i].source;
      var list := (if p in index then index[p] else []) + [i];
      assert list[|list| - 1] == i;
      ghost var before := index;
      index := index[p := list];
      forall q | q in index ensures forall j | j in index[q] :: 0 <= j < i + 1 && moves[j].source == q {}
      forall j | 0 <= j < i + 1 ensures moves[j].source in index && j in index[moves[j].source] {
        if j < i && moves[j].source == p {
          assert j in before[p];
        }
      }
    }
  }

  /** The outer partners of the mismatches of `moves[i]` whose source has at least `k` components. */
  ghost function Partners(moves: seq<Move>, i: int, k: int): set<int>
    requires 0 <= i < |moves|
  {
    set j | 0 <= j < |moves| && |moves[j].source| >= k && Elsewhere(moves[j], moves[i])
  }

  /** The partners found in a list of positions. */
  ghost function PartnersIn(moves: seq<Move>, i: int, list: seq<int>): set<int>
    requires 0 <= i < |moves|
  {
    set j | 0 <= j < |moves| && j in list && Elsewhere(moves[j], moves[i])
  }

  ghost function Marked(partners: set<int>, i: int): set<int> {
    if partners == {} then {} else partners + {i}
  }

  lemma OneMoreInList(moves: seq<Move>, i: int, list: seq<int>, l: nat)
    requires 0 <= i < |moves| && l < |list| && 0 <= list[l] < |moves|
    ensures PartnersIn(moves, i, list[..l + 1]) ==
      PartnersIn(moves, i, list[..l]) + if Elsewhere(moves[list[l]], moves[i]) then {list[l]} else {}
  {
    forall j ensures j in list[..l + 1] <==> j in list[..l] || j == list[l] {
      assert list[..l + 1] == list[..l] + [list[l]];
    }
    var more := if Elsewhere(moves[list[l]], moves[i]) then {list[l]} else {};
    forall j ensures j in PartnersIn(moves, i, list[..l + 1]) <==> j in PartnersIn(moves, i, list[..l]) + more {}
  }

  /** Walks the proper ancestors of the source and marks both partners of every mismatch. */
  method MarkAlongAncestors(moves: seq<Move>, i: int, index: map<Path, seq<int>>, marks: set<int>)
    returns (after: set<int>)
    requires 0 <= i < |moves| && Index(moves, |moves|, index)
    ensures after == marks + Marked(Partners(moves, i, 1), i)
  {
    after := marks;
    var inner := moves[i];
    var k := |inner.source|;
    assert Partners(moves, i, k) == {};
    while k > 1
      invariant 0 <= k <= |inner.source| && (k >= 1 || inner.source == [])
      invariant after == marks + Marked(Partners(moves, i, k), i)
    {
      k := k - 1;
      var list := if inner.source[..k] in index then index[inner.source[..k]] else [];
      ghost var longer := Partners(moves, i, k + 1);
      assert PartnersIn(moves, i, list[..0]) == {};
      for l := 0 to |list|
        invariant after == marks + Marked(longer + PartnersIn(moves, i, list[..l]), i)
      {
        assert list[l] in list;
        var outer := moves[list[l]];
        OneMoreInList(moves, i, list, l);
        if outer.target + inner.source[|outer.source|..] != inner.target {
          after := after + {i} + {list[l]};
        }
      }
      assert list[..|list|] == list;
      SamePartners(moves, i, index, k, list);
    }
    if inner.source == [] {
      assert Partners(moves, i, 1) == {};
    }
  }

  lemma SamePartners(moves: seq<Move>, i: int, index: map<Path, seq<int>>, k: nat, list: seq<int>)
    requires 0 <= i < |moves| && Index(moves, |moves|, index) && k < |moves[i].source|
    requires list == if moves[i].source[..k] in index then index[moves[i].source[..k]] else []
    ensures Partners(moves, i, k + 1) + PartnersIn(moves, i, list) == Partners(moves, i, k)
  {
    forall j | j in Partners(moves, i, k) && |moves[j].source| == k ensures j in list {
      assert moves[j].source == moves[i].source[..k];
    }
    forall j | j in PartnersIn(moves, i, list) ensures j in Partners(moves, i, k) {}
  }

  /** `m` is a partner in a mismatch whose inner move is one of the first `n`. */
  ghost predicate TouchedBy(moves: seq<Move>, n: int, m: int)
    requires 0 <= m < |moves|
  {
    || (exists b :: 0 <= b < n && b < |moves| && Mismatch(moves[m], moves[b]))
    || (m < n && exists a :: 0 <= a < |moves| && Mismatch(moves[a], moves[m]))
  }

  ghost function Touched(moves: seq<Move>, n: int): set<int> {
    set m | 0 <= m < |moves| && TouchedBy(moves, n, m)
  }

  /** Marks every move with a mismatch, from both sides. */
  method MarkContradictions(moves: seq<Move>) returns (marks: set<int>)
    requires forall i | 0 <= i < |moves| :: moves[i].source != [] && moves[i].target != []
    ensures forall i | 0 <= i < |moves| :: i in marks <==> Contradictory(moves, i)
    ensures forall i | i in marks :: 0 <= i < |moves|
  {
    var flipped := FlipAll(moves);
    var bySource := BuildIndex(moves);
    var byTarget := BuildIndex(flipped);
    marks := {};
    for i := 0 to |moves|
      invariant marks == Touched(moves, i)
    {
      TouchedGrows(moves, flipped, i);
      marks := MarkAlongAncestors(moves, i, bySource, marks);
      marks := MarkAlongAncestors(flipped, i, byTarget, marks);
    }
    forall i | 0 <= i < |moves| ensures TouchedBy(moves, |moves|, i) <==> Contradictory(moves, i) {}
  }

  lemma PartnersAreMismatches(moves: seq<Move>, flipped: seq<Move>, i: int)
    requires 0 <= i < |moves| && flipped == FlipAll(moves)
    requires forall k | 0 <= k < |moves| :: moves[k].source != [] && moves[k].target != []
    ensures Partners(moves, i, 1) + Partners(flipped, i, 1) == set a | 0 <= a < |moves| && Mismatch(moves[a], moves[i])
  {}

  lemma MarkedUnion(p: set<int>, q: set<int>, i: int)
    ensures Marked(p, i) + Marked(q, i) == Marked(p + q, i)
  {
    if p != {} {
      var x := Element(p);
      assert x in p + q;
    } else {
      assert p + q == q;
    }
  }

  lemma TouchedGrows(moves: seq<Move>, flipped: seq<Move>, i: int)
    requires 0 <= i < |moves| && flipped == FlipAll(moves)
    requires forall k | 0 <= k < |moves| :: moves[k].source != [] && moves[k].target != []
    ensures Touched(moves, i + 1) == Touched(moves, i) + Marked(Partners(moves, i, 1), i)
      + Marked(Partners(flipped, i, 1), i)
  {
    PartnersAreMismatches(moves, flipped, i);
    MarkedUnion(Partners(moves, i, 1), Partners(flipped, i, 1), i);
    TouchedByMismatches(moves, i, Partners(moves, i, 1) + Partners(flipped, i, 1));
  }

  lemma TouchedByMismatches(moves: seq<Move>, i: int, partners: set<int>)
    requires 0 <= i < |moves|
    requires partners == set a | 0 <= a < |moves| && Mismatch(moves[a], moves[i])
    ensures Touched(moves, i + 1) == Touched(moves, i) + Marked(partners, i)
  {
    forall m ensures m in Touched(moves, i + 1) <==> m in Touched(moves, i) + Marked(partners, i) {
      if 0 <= m < |moves| {
        OneMoreInner(moves, i, m, partners);
      }
    }
  }

  lemma OneMoreInner(moves: seq<Move>, i: int, m: int, partners: set<int>)
    requires 0 <= i < |moves| && 0 <= m < |moves|
    requires partners == set a | 0 <= a < |moves| && Mismatch(moves[a], moves[i])
    ensures TouchedBy(moves, i + 1, m) <==> TouchedBy(moves, i, m) || m in Marked(partners, i)
  {
    if m == i && partners != {} {
      var a := Element(partners);
      assert Mismatch(moves[a], moves[m]);
    }
    if m == i && TouchedBy(moves, i + 1, m) && !TouchedBy(moves, i, m) {
      if a :| 0 <= a < |moves| && Mismatch(moves[a], moves[m]) {
        assert a in partners;
      }
    }
  }

  // ---- nested moves always contradict each other ----

  /** One side of the moves lies below the same side of the other. */
  predicate Nested(a: Move, b: Move) {
    a.source < b.source || b.source < a.source || a.target < b.target || b.target < a.target
  }

  predicate Minimal(m: Move) {
    m.source != [] && m.target != [] && m.source[|m.source| - 1] != m.target[|m.target| - 1]
  }

  /** Because stripping leaves different last components, nesting is always a mismatch. */
  lemma NestedIsMismatch(outer: Move, inner: Move)
    requires Minimal(inner)
    ensures Mismatch(outer, inner) <==> outer.source < inner.source || outer.target < inner.target
  {
    if outer.source < inner.source {
      assert (outer.target + inner.source[|outer.source|..])[|outer.target| + |inner.source| - |outer.source| - 1]
        == inner.source[|inner.source| - 1];
    }
    if outer.target < inner.target {
      assert (outer.source + inner.target[|outer.target|..])[|outer.source| + |inner.target| - |outer.target| - 1]
        == inner.target[|inner.target| - 1];
    }
  }

  /** The ancestor walk, the pair scan and plain nesting agree. */
  lemma ContradictoryIsNested(moves: seq<Move>, i: int)
    requires 0 <= i < |moves| && forall k | 0 <= k < |moves| :: Minimal(moves[k])
    ensures Contradictory(moves, i) <==> exists j :: 0 <= j < |moves| && Nested(moves[j], moves[i])
  {
    forall j | 0 <= j < |moves|
      ensures Nested(moves[j], moves[i]) <==> Mismatch(moves[j], moves[i]) || Mismatch(moves[i], moves[j])
    {
      NestedIsMismatch(moves[j], moves[i]);
      NestedIsMismatch(moves[i], moves[j]);
    }
  }
}
