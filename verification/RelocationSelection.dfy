/** Choosing which recognised moves are carried out. */
module RelocationSelection {
  import opened Pick
  import opened RelocationRecognition

  /** `gone`: folders known before and absent from the scan; `present`: folders of the scan;
      `oldFiles` and `newFiles`: the known and the scanned files. */
  datatype Inventory = Inventory(gone: set<Path>, present: set<Path>, oldFiles: set<Path>, newFiles: set<Path>)

  function FilesBelow(files: set<Path>, folder: Path): set<Path> {
    set f | f in files && folder < f
  }

  /** Two anchors, or a single file on each side. */
  predicate Plausible(inv: Inventory, m: Move, hashes: set<string>) {
    && m.source in inv.gone && m.target in inv.present
    && (|hashes| >= 2 || (|FilesBelow(inv.oldFiles, m.source)| == 1 && |FilesBelow(inv.newFiles, m.target)| == 1))
  }

  /** A move the anchors support. */
  ghost predicate Eligible(anchors: seq<Anchor>, inv: Inventory, m: Move) {
    Hashes(anchors, m) != {} && Plausible(inv, m, Hashes(anchors, m))
  }

  /** Two moves that cannot both be right, or describe the same tree twice. */
  predicate Overlap(a: Move, b: Move) {
    Nested(a, b) || a.source == b.source || a.target == b.target
  }

  lemma VotedIsMinimal(anchors: seq<Anchor>, m: Move)
    requires Hashes(anchors, m) != {}
    ensures Minimal(m)
  {
    var h := Element(Hashes(anchors, m));
    var c :| c in anchors && Votes(c, m) && c.hash == h;
  }

  ghost predicate Distinct(moves: seq<Move>) {
    forall i, j | 0 <= i < j < |moves| :: moves[i] != moves[j]
  }

  lemma EligibleIsFound(anchors: seq<Anchor>, inv: Inventory, found: map<Move, set<string>>, m: Move)
    requires Candidates(anchors, found)
    ensures Eligible(anchors, inv, m) <==> m in found && Plausible(inv, m, found[m])
  {
    if m in found {
      assert Capped(found[m], Hashes(anchors, m));
    }
  }

  method CollectEligible(anchors: seq<Anchor>, inv: Inventory) returns (moves: seq<Move>)
    ensures Distinct(moves)
    ensures forall m :: m in moves <==> Eligible(anchors, inv, m)
  {
    hide Candidates;
    hide Eligible;
    hide Plausible;
    var found := CollectCandidates(anchors);
    var todo := found.Keys;
    moves := [];
    while todo != {}
      invariant todo <= found.Keys && Distinct(moves)
      invariant forall m :: m in moves <==> m in found && m !in todo && Plausible(inv, m, found[m])
      decreases todo
    {
      var m := Any(todo);
      todo := todo - {m};
      if Plausible(inv, m, found[m]) {
        moves := moves + [m];
      }
    }
    forall m ensures m in moves <==> Eligible(anchors, inv, m) {
      EligibleIsFound(anchors, inv, found, m);
    }
  }

  function Count(moves: seq<Move>, side: bool, p: Path): nat {
    if moves == [] then 0
    else Count(moves[..|moves| - 1], side, p)
         + if (if side then moves[|moves| - 1].target else moves[|moves| - 1].source) == p then 1 else 0
  }

  function Side(m: Move, side: bool): Path {
    if side then m.target else m.source
  }

  lemma {:induction false} CountPositive(moves: seq<Move>, side: bool, p: Path, k: nat)
    requires k < |moves| && Side(moves[k], side) == p
    ensures Count(moves, side, p) >= 1
  {
    if k < |moves| - 1 {
      CountPositive(moves[..|moves| - 1], side, p, k);
    }
  }

  lemma {:induction false} CountWitness(moves: seq<Move>, side: bool, p: Path) returns (k: nat)
    requires Count(moves, side, p) >= 1
    ensures k < |moves| && Side(moves[k], side) == p
  {
    if Side(moves[|moves| - 1], side) == p {
      k := |moves| - 1;
    } else {
      k := CountWitness(moves[..|moves| - 1], side, p);
    }
  }

  /** A side counted once belongs to one move only. */
  lemma {:induction false} CountOne(moves: seq<Move>, side: bool, k: nat)
    requires Distinct(moves) && k < |moves|
    ensures Count(moves, side, Side(moves[k], side)) == 1 <==>
      forall j | 0 <= j < |moves| && j != k :: Side(moves[j], side) != Side(moves[k], side)
  {
    var init, last, p := moves[..|moves| - 1], |moves| - 1, Side(moves[k], side);
    if k == last {
      if Count(init, side, p) >= 1 {
        var j := CountWitness(init, side, p);
        assert Side(moves[j], side) == p;
      } else {
        forall j | 0 <= j < last ensures Side(moves[j], side) != p {
          if Side(moves[j], side) == p {
            CountPositive(init, side, p, j);
          }
        }
      }
    } else {
      CountOne(init, side, k);
      CountPositive(init, side, p, k);
      forall j | 0 <= j < last ensures init[j] == moves[j] {}
    }
  }

  method Tally(moves: seq<Move>, side: bool) returns (counts: map<Path, nat>)
    ensures forall p | p in counts :: counts[p] == Count(moves, side, p)
    ensures forall k | 0 <= k < |moves| :: Side(moves[k], side) in counts
  {
    counts := map[];
    for i := 0 to |moves|
      invariant forall p | p in counts :: counts[p] == Count(moves[..i], side, p)
      invariant forall p | p !in counts :: Count(moves[..i], side, p) == 0
    {
      assert moves[..i + 1][..i] == moves[..i];
      var p := Side(moves[i], side);
      counts := counts[p := (if p in counts then counts[p] else 0) + 1];
    }
    assert moves[..|moves|] == moves;
    forall k | 0 <= k < |moves| ensures Side(moves[k], side) in counts {
      CountPositive(moves, side, Side(moves[k], side), k);
    }
  }

  lemma InsertedAt(sorted: seq<Move>, k: nat, m: Move)
    requires k <= |sorted| && Distinct(sorted) && m !in sorted
    ensures Distinct(sorted[..k] + [m] + sorted[k..])
    ensures forall n :: n in sorted[..k] + [m] + sorted[k..] <==> n in sorted || n == m
  {
    assert sorted == sorted[..k] + sorted[k..];
    forall n ensures n in sorted <==> n in sorted[..k] || n in sorted[k..] {}
  }

  /** The order in which moves are tried; shorter sources come first. */
  method SortByDepth(moves: seq<Move>) returns (sorted: seq<Move>)
    requires Distinct(moves)
    ensures Distinct(sorted) && forall m :: m in sorted <==> m in moves
    ensures forall i, j | 0 <= i < j < |sorted| :: |sorted[i].source| <= |sorted[j].source|
  {
    sorted := [];
    for i := 0 to |moves|
      invariant Distinct(sorted) && forall m :: m in sorted <==> m in moves[..i]
      invariant forall a, b | 0 <= a < b < |sorted| :: |sorted[a].source| <= |sorted[b].source|
    {
      var k := |sorted|;
      while k > 0 && |moves[i].source| < |sorted[k - 1].source|
        invariant 0 <= k <= |sorted|
        invariant forall b | k <= b < |sorted| :: |moves[i].source| < |sorted[b].source|
      {
        k := k - 1;
      }
      assert moves[i] !in moves[..i] && moves[..i + 1] == moves[..i] + [moves[i]];
      InsertedAt(sorted, k, moves[i]);
      sorted := sorted[..k] + [moves[i]] + sorted[k..];
    }
    assert moves[..|moves|] == moves;
  }

  /** What the tests of one move look at. */
  ghost predicate Prepared(eligible: seq<Move>, bySource: map<Path, nat>, byTarget: map<Path, nat>, marks: set<int>,
                           contradictory: set<Move>)
  {
    && Distinct(eligible) && (forall i | 0 <= i < |eligible| :: Minimal(eligible[i]))
    && (forall i | 0 <= i < |eligible| :: i in marks <==> Contradictory(eligible, i))
    && (forall i | i in marks :: 0 <= i < |eligible|)
    && contradictory == (set i | i in marks :: eligible[i])
    && (forall p | p in bySource :: bySource[p] == Count(eligible, false, p))
    && (forall p | p in byTarget :: byTarget[p] == Count(eligible, true, p))
    && (forall c | c in eligible :: c.source in bySource && c.target in byTarget)
  }

  method IsClear(eligible: seq<Move>, c: Move, bySource: map<Path, nat>, byTarget: map<Path, nat>, marks: set<int>,
                 contradictory: set<Move>, moved: seq<Move>)
    returns (clear: bool)
    requires Prepared(eligible, bySource, byTarget, marks, contradictory) && c in eligible
    requires forall m | m in moved :: m in eligible && m != c && Clear(eligible, m)
    ensures clear <==> Clear(eligible, c)
  {
    ghost var k :| 0 <= k < |eligible| && eligible[k] == c;
    ClearByMarks(eligible, marks, k);
    CountOne(eligible, false, k);
    CountOne(eligible, true, k);
    assert c in contradictory <==> k in marks by {
      assert forall j | j in marks && eligible[j] == c :: j == k;
    }
    if c in contradictory || bySource[c.source] != 1 || byTarget[c.target] != 1 {
      return false;
    }
    var covered := false;
    for j := 0 to |moved|
      invariant !covered
    {
      assert moved[j] in moved && !Overlap(moved[j], c);
      if moved[j].source <= c.source {
        covered := true;
      }
    }
    clear := !covered;
  }

  /** The anchor lies at the same place below both folders, which have different names. */
  ghost predicate Backs(c: Anchor, m: Move) {
    && m.source != [] && m.target != [] && m.source[|m.source| - 1] != m.target[|m.target| - 1]
    && m.source <= c.source && m.target <= c.target && c.source[|m.source|..] == c.target[|m.target|..]
  }

  ghost predicate OneBelow(files: set<Path>, folder: Path) {
    exists f :: f in files && folder < f && forall g | g in files && folder < g :: g == f
  }

  /** A vanished folder and a new one, with two different contents to show for it or a single file on each side. */
  ghost predicate Evident(anchors: seq<Anchor>, inv: Inventory, m: Move) {
    && m.source in inv.gone && m.target in inv.present
    && exists c, d :: c in anchors && d in anchors && Backs(c, m) && Backs(d, m)
         && (c.hash != d.hash || (OneBelow(inv.oldFiles, m.source) && OneBelow(inv.newFiles, m.target)))
  }

  /** Neither source is inside or the same as the other, and neither target. */
  predicate Apart(a: Move, b: Move) {
    !(a.source <= b.source) && !(b.source <= a.source) && !(a.target <= b.target) && !(b.target <= a.target)
  }

  lemma VotesIsBacks(c: Anchor, m: Move)
    ensures Votes(c, m) <==> Backs(c, m)
  {
    if Votes(c, m) {
      var tail: Path :| c.source == m.source + tail && c.target == m.target + tail;
      assert c.source[|m.source|..] == tail == c.target[|m.target|..];
    }
    if Backs(c, m) {
      var tail := c.source[|m.source|..];
      assert c.source == m.source + tail && c.target == m.target + tail;
    }
  }

  lemma OneBelowIs(files: set<Path>, folder: Path)
    ensures |FilesBelow(files, folder)| == 1 <==> OneBelow(files, folder)
  {
    var below := FilesBelow(files, folder);
    if |below| == 1 {
      var f := Element(below);
      assert below == {f} by {
        SameBySize({f}, below);
      }
      forall g | g in files && folder < g ensures g == f {
        assert g in below;
      }
    }
    if f :| f in files && folder < f && forall g | g in files && folder < g :: g == f {
      assert below == {f};
    }
  }

  lemma TwoHashes(hashes: set<string>)
    ensures |hashes| >= 2 <==> exists g, h :: g in hashes && h in hashes && g != h
  {
    if |hashes| >= 2 {
      var g := Element(hashes);
      var rest := hashes - {g};
      assert hashes == rest + {g};
      var h := Element(rest);
      assert g in hashes && h in hashes && g != h;
    }
    if g, h :| g in hashes && h in hashes && g != h {
      SubsetSize({g, h}, hashes);
    }
  }

  lemma EligibleIsEvident(anchors: seq<Anchor>, inv: Inventory, m: Move)
    ensures Eligible(anchors, inv, m) <==> Evident(anchors, inv, m)
  {
    var hashes := Hashes(anchors, m);
    TwoHashes(hashes);
    OneBelowIs(inv.oldFiles, m.source);
    OneBelowIs(inv.newFiles, m.target);
    hide OneBelow;
    hide FilesBelow;
    hide Votes;
    hide Backs;
    forall c | c in anchors ensures Votes(c, m) <==> Backs(c, m) {
      VotesIsBacks(c, m);
    }
    if Eligible(anchors, inv, m) {
      var g := Element(hashes);
      var h: string :| h in hashes && (|hashes| >= 2 ==> h != g);
      var c :| c in anchors && Votes(c, m) && c.hash == g;
      var d :| d in anchors && Votes(d, m) && d.hash == h;
      assert Backs(c, m) && Backs(d, m);
    }
    if Evident(anchors, inv, m) {
      var c, d :| c in anchors && d in anchors && Backs(c, m) && Backs(d, m)
        && (c.hash != d.hash || (OneBelow(inv.oldFiles, m.source) && OneBelow(inv.newFiles, m.target)));
      assert Votes(c, m) && Votes(d, m) && c.hash in hashes && d.hash in hashes;
    }
  }

  /** `conflicts` are the moves whose relocation is refused because of edits at the target.  Apart
      from those, exactly the eligible moves that overlap no other eligible move are carried out;
      the check for an already moved ancestor never fires. */
  method RecognizeRelocations(anchors: seq<Anchor>, inv: Inventory, conflicts: set<Move>) returns (moved: seq<Move>)
    ensures Distinct(moved)
    ensures forall m :: m in moved <==>
      && Eligible(anchors, inv, m) && m !in conflicts
      && forall n | Eligible(anchors, inv, n) && n != m :: !Overlap(n, m)
    ensures forall m :: m in moved <==>
      && Evident(anchors, inv, m) && m !in conflicts
      && forall n | Evident(anchors, inv, n) && n != m :: Apart(n, m)
    ensures forall i, j | 0 <= i < j < |moved| :: Apart(moved[i], moved[j])
  {
    hide Evident;
    forall m ensures Eligible(anchors, inv, m) <==> Evident(anchors, inv, m) {
      EligibleIsEvident(anchors, inv, m);
    }
    forall m, n ensures Apart(n, m) <==> !Overlap(n, m) {}
    var eligible := CollectEligible(anchors, inv);
    forall i | 0 <= i < |eligible| ensures Minimal(eligible[i]) {
      assert eligible[i] in eligible;
      VotedIsMinimal(anchors, eligible[i]);
    }
    moved := CarryOut(eligible, conflicts);
    forall i, j | 0 <= i < j < |moved| ensures !Overlap(moved[i], moved[j]) {
      assert moved[i] in moved && moved[j] in moved;
    }
  }

  method CarryOut(eligible: seq<Move>, conflicts: set<Move>) returns (moved: seq<Move>)
    requires Distinct(eligible) && forall i | 0 <= i < |eligible| :: Minimal(eligible[i])
    ensures Distinct(moved)
    ensures forall m :: m in moved <==> m in eligible && m !in conflicts && Clear(eligible, m)
  {
    var bySource := Tally(eligible, false);
    var byTarget := Tally(eligible, true);
    var marks := MarkContradictions(eligible);
    var contradictory := set i | i in marks :: eligible[i];
    var sorted := SortByDepth(eligible);
    forall c | c in eligible ensures c.source in bySource && c.target in byTarget {
      var k :| 0 <= k < |eligible| && eligible[k] == c;
      assert Side(eligible[k], false) in bySource && Side(eligible[k], true) in byTarget;
    }
    moved := TryMoves(eligible, sorted, bySource, byTarget, marks, contradictory, conflicts);
  }

  method TryMoves(eligible: seq<Move>, sorted: seq<Move>, bySource: map<Path, nat>, byTarget: map<Path, nat>,
                  marks: set<int>, contradictory: set<Move>, conflicts: set<Move>)
    returns (moved: seq<Move>)
    requires Prepared(eligible, bySource, byTarget, marks, contradictory)
    requires Distinct(sorted) && forall m :: m in sorted <==> m in eligible
    ensures CarriedOut(eligible, conflicts, sorted, moved)
  {
    hide Prepared;
    hide Clear;
    moved := [];
    for i := 0 to |sorted|
      invariant CarriedOut(eligible, conflicts, sorted[..i], moved)
    {
      assert sorted[i] in sorted && sorted[i] !in sorted[..i];
      var clear := IsClear(eligible, sorted[i], bySource, byTarget, marks, contradictory, moved);
      assert sorted[..i + 1] == sorted[..i] + [sorted[i]];
      if clear && sorted[i] !in conflicts {
        moved := moved + [sorted[i]];
      }
    }
    assert sorted[..|sorted|] == sorted;
  }

  /** Of the moves tried so far exactly the clear ones without conflict are carried out. */
  ghost predicate CarriedOut(eligible: seq<Move>, conflicts: set<Move>, tried: seq<Move>, moved: seq<Move>) {
    && Distinct(moved)
    && forall m :: m in moved <==> m in tried && m in eligible && m !in conflicts && Clear(eligible, m)
  }

  /** No other eligible move overlaps `m`. */
  ghost predicate Clear(eligible: seq<Move>, m: Move) {
    forall n | n in eligible && n != m :: !Overlap(n, m)
  }

  lemma ClearByMarks(eligible: seq<Move>, marks: set<int>, k: nat)
    requires Distinct(eligible) && k < |eligible| && forall i | 0 <= i < |eligible| :: Minimal(eligible[i])
    requires forall i | 0 <= i < |eligible| :: i in marks <==> Contradictory(eligible, i)
    ensures Clear(eligible, eligible[k]) <==>
      && k !in marks
      && (forall j | 0 <= j < |eligible| && j != k :: Side(eligible[j], false) != Side(eligible[k], false))
      && (forall j | 0 <= j < |eligible| && j != k :: Side(eligible[j], true) != Side(eligible[k], true))
  {
    ContradictoryIsNested(eligible, k);
    if Clear(eligible, eligible[k]) {
      forall j | 0 <= j < |eligible| ensures j == k || !Overlap(eligible[j], eligible[k]) {
        assert eligible[j] in eligible;
      }
    }
  }
}
