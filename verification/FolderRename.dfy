/** Renaming one folder in a table keyed by path: the UPDATE statements of a relocation. */
module FolderRename {
  import opened PathText
  import Pick

  /** A row under its path: the columns derived from the path, and the rest. */
  datatype Row = Row(parent: string, name: string, rest: int)

  type Table = map<string, Row>

  /** The folder itself or anything below it. */
  predicate Under(folder: string, p: string) {
    p == folder || folder + "/" <= p
  }

  /** The WHERE clause: equality or the text range. */
  predicate Matches(folder: string, p: string) {
    p == folder || InRange(p, PrefixRange(folder + "/").0, PrefixRange(folder + "/").1)
  }

  lemma MatchesIsUnder(folder: string, p: string)
    ensures Matches(folder, p) <==> Under(folder, p)
  {
    RangeHoldsPrefixes(folder + "/", p);
  }

  /** target || substr(path, length(source)+1) for matching rows. */
  function Moved(source: string, target: string, p: string): string {
    MatchesIsUnder(source, p);
    if Matches(source, p) then target + p[|source|..] else p
  }

  /** What relocatePhotoFolder demands of its two paths. */
  predicate Unrelated(source: string, target: string) {
    source != "" && target != "" && !Under(source, target) && !Under(target, source)
  }

  /** A moved path lies in the target and no longer in the source, moving is one-to-one, and
      moving back undoes it. */
  lemma MovedFacts(source: string, target: string, p: string)
    requires Unrelated(source, target) && Under(source, p)
    ensures Under(target, Moved(source, target, p)) && !Under(source, Moved(source, target, p))
    ensures Moved(target, source, Moved(source, target, p)) == p
    ensures forall q | Under(source, q) && Moved(source, target, q) == Moved(source, target, p) :: q == p
  {
    var m := Moved(source, target, p);
    MatchesIsUnder(source, p);
    assert m == target + p[|source|..] && p == source + p[|source|..];
    MatchesIsUnder(target, m);
    DisjointSubtrees(source, target, m);
    assert m[|target|..] == p[|source|..];
    forall q | Under(source, q) && Moved(source, target, q) == m ensures q == p {
      MatchesIsUnder(source, q);
      assert q == source + q[|source|..];
      assert (target + q[|source|..])[|target|..] == q[|source|..];
    }
  }

  /** Two folders above one path are nested. */
  lemma AncestorsAreNested(a: string, b: string, p: string)
    requires Under(a, p) && Under(b, p)
    ensures Under(a, b) || Under(b, a)
  {
    assert a == p[..|a|] && b == p[..|b|];
    if |a| < |b| {
      assert p[..|a| + 1] == a + "/" && b[..|a| + 1] == p[..|a| + 1];
    } else if |b| < |a| {
      assert p[..|b| + 1] == b + "/" && a[..|b| + 1] == p[..|b| + 1];
    }
  }

  /** Unrelated folders share no path. */
  lemma DisjointSubtrees(source: string, target: string, p: string)
    requires Unrelated(source, target) && Under(target, p)
    ensures !Under(source, p)
  {
    if Under(source, p) {
      AncestorsAreNested(source, target, p);
    }
  }

  /** What is left of a path below its folder starts with a slash. */
  lemma BelowParent(source: string, target: string, p: string)
    requires source + "/" <= p
    ensures Under(source, Parent(p))
    ensures Parent(Moved(source, target, p)) == Moved(source, target, Parent(p))
    ensures Base(Moved(source, target, p)) == Base(p)
  {
    var rest := p[|source|..];
    assert p == source + rest && rest[0] == '/' && '/' in rest;
    MatchesIsUnder(source, p);
    ParentBelow(source, rest);
    ParentBelow(target, rest);
    var d := source + Parent(rest);
    ParentOfSlash(rest);
    assert Under(source, d);
    MatchesIsUnder(source, d);
    assert d[|source|..] == Parent(rest);
  }

  lemma {:induction false} ParentOfSlash(rest: string)
    requires rest != "" && rest[0] == '/'
    ensures Parent(rest) == "" || Parent(rest)[0] == '/'
  {
    if rest[|rest| - 1] != '/' {
      ParentOfSlash(rest[..|rest| - 1]);
    }
  }

  lemma ChildOfUnder(source: string, p: string)
    requires source != "" && Under(source, Parent(p))
    ensures Under(source, p)
  {
    ParentBaseSplit(p);
    assert p == Parent(p) + "/" + Base(p);
    if Parent(p) == source {
      assert p[..|source| + 1] == source + "/";
    } else {
      assert p[..|source| + 1] == Parent(p)[..|source| + 1];
    }
  }

  /** Nothing outside a folder has its parent inside. */
  lemma OutsideParent(source: string, p: string)
    requires source != "" && !Under(source, p)
    ensures !Under(source, Parent(p))
  {
    if Under(source, Parent(p)) {
      ChildOfUnder(source, p);
    }
  }

  /** No moving row lands on an existing one. */
  ghost predicate Free(t: Table, source: string, target: string) {
    forall p | p in t && Under(source, p) :: Moved(source, target, p) !in t
  }

  ghost predicate DerivedRight(t: Table) {
    forall p | p in t :: t[p].parent == Parent(p) && t[p].name == Base(p)
  }

  lemma MovedIsInjective(t: Table, source: string, target: string, p: string, q: string)
    requires Unrelated(source, target) && Free(t, source, target) && p in t && q in t
    requires Moved(source, target, p) == Moved(source, target, q)
    ensures p == q
  {
    MatchesIsUnder(source, p);
    MatchesIsUnder(source, q);
    if Under(source, p) && Under(source, q) {
      MovedFacts(source, target, p);
    }
  }

  /** UPDATE of the key column. */
  function RenameKeys(t: Table, source: string, target: string): (u: Table)
    requires Unrelated(source, target) && Free(t, source, target)
    ensures forall p | p in t :: Moved(source, target, p) in u && u[Moved(source, target, p)] == t[p]
    ensures forall m | m in u :: exists p :: p in t && Moved(source, target, p) == m
  {
    assert forall p, q | p in t && q in t && Moved(source, target, p) == Moved(source, target, q) :: p == q by {
      forall p, q | p in t && q in t && Moved(source, target, p) == Moved(source, target, q) ensures p == q {
        MovedIsInjective(t, source, target, p, q);
      }
    }
    map p | p in t :: Moved(source, target, p) := t[p]
  }

  /** Then UPDATE of the parent column, then the row of the folder itself. */
  function RenameFolder(t: Table, source: string, target: string): Table
    requires Unrelated(source, target) && Free(t, source, target)
  {
    var u := RenameKeys(t, source, target);
    var v: Table := map p | p in u :: u[p].(parent := Moved(source, target, u[p].parent));
    if target in v then v[target := v[target].(parent := Parent(target), name := Base(target))] else v
  }

  lemma RenamedCells(t: Table, source: string, target: string, p: string)
    requires Unrelated(source, target) && Free(t, source, target) && p in t
    ensures var u, m := RenameFolder(t, source, target), Moved(source, target, p);
      m in u && u[m] == if m == target then Row(Parent(target), Base(target), t[p].rest)
                        else t[p].(parent := Moved(source, target, t[p].parent))
  {}

  lemma RenamedKeys(t: Table, source: string, target: string, m: string)
    requires Unrelated(source, target) && Free(t, source, target)
    ensures m in RenameFolder(t, source, target) <==> exists p :: p in t && Moved(source, target, p) == m
  {
    var u := RenameKeys(t, source, target);
    assert RenameFolder(t, source, target).Keys == u.Keys;
  }

  /** The columns computed by the statements are those of the new path. */
  lemma MovedColumns(source: string, target: string, p: string)
    requires Unrelated(source, target)
    ensures var m := Moved(source, target, p);
      m == target || (Moved(source, target, Parent(p)) == Parent(m) && Base(p) == Base(m))
    ensures !Under(source, p) ==> Moved(source, target, p) == p && Moved(source, target, Parent(p)) == Parent(p)
  {
    MatchesIsUnder(source, p);
    MatchesIsUnder(source, Parent(p));
    if p == source {
      assert p[|source|..] == "";
    } else if Under(source, p) {
      BelowParent(source, target, p);
    } else {
      OutsideParent(source, p);
    }
  }

  /** Where every row goes and what its columns become. */
  lemma RenamedRow(t: Table, source: string, target: string, p: string)
    requires Unrelated(source, target) && Free(t, source, target) && DerivedRight(t) && p in t
    ensures var u, m := RenameFolder(t, source, target), Moved(source, target, p);
      m in u && u[m] == Row(Parent(m), Base(m), t[p].rest)
    ensures !Under(source, p) ==> Moved(source, target, p) == p
  {
    RenamedCells(t, source, target, p);
    MovedColumns(source, target, p);
  }

  lemma RenamedFromRow(t: Table, source: string, target: string, m: string) returns (p: string)
    requires Unrelated(source, target) && Free(t, source, target) && m in RenameFolder(t, source, target)
    ensures p in t && Moved(source, target, p) == m
    ensures Under(source, p) ==> Under(target, m) && source + m[|target|..] == p
    ensures !Under(source, p) ==> p == m
  {
    RenamedKeys(t, source, target, m);
    p :| p in t && Moved(source, target, p) == m;
    MatchesIsUnder(source, p);
    if Under(source, p) {
      MovedFacts(source, target, p);
      MatchesIsUnder(target, m);
    }
  }

  lemma RenameKeepsDerived(t: Table, source: string, target: string)
    requires Unrelated(source, target) && Free(t, source, target) && DerivedRight(t)
    ensures DerivedRight(RenameFolder(t, source, target))
  {
    var u := RenameFolder(t, source, target);
    forall m | m in u ensures u[m].parent == Parent(m) && u[m].name == Base(m) {
      var p := RenamedFromRow(t, source, target, m);
      RenamedRow(t, source, target, p);
    }
  }

  /** Every row below the source is found, with its content, at the same place below the target. */
  ghost predicate SubtreeMoved(t: Table, u: Table, source: string, target: string) {
    forall p | p in t && Under(source, p) ::
      && |source| <= |p| && target + p[|source|..] in u && p !in u
      && u[target + p[|source|..]].rest == t[p].rest
  }

  /** Rows outside both folders are exactly the old ones. */
  ghost predicate OutsideUntouched(t: Table, u: Table, source: string, target: string) {
    forall p | !Under(source, p) && !Under(target, p) :: (p in u <==> p in t) && (p in t ==> u[p] == t[p])
  }

  /** Exactly one subtree is renamed: parents and names stay right for every row, the moved root
      included, rows outside are untouched, and no row is lost or invented. */
  lemma RenameMovesOneSubtree(t: Table, source: string, target: string)
    requires Unrelated(source, target) && Free(t, source, target) && DerivedRight(t)
    ensures DerivedRight(RenameFolder(t, source, target))
    ensures SubtreeMoved(t, RenameFolder(t, source, target), source, target)
    ensures OutsideUntouched(t, RenameFolder(t, source, target), source, target)
    ensures |RenameFolder(t, source, target)| == |t|
  {
    var u := RenameFolder(t, source, target);
    RenameKeepsDerived(t, source, target);
    forall p | p in t && Under(source, p)
      ensures |source| <= |p| && target + p[|source|..] in u && p !in u && u[target + p[|source|..]].rest == t[p].rest
    {
      MatchesIsUnder(source, p);
      RenamedRow(t, source, target, p);
      SourceIsEmptied(t, source, target, p);
    }
    forall p | !Under(source, p) && !Under(target, p) ensures (p in u <==> p in t) && (p in t ==> u[p] == t[p]) {
      OutsideRow(t, source, target, p);
    }
    SameCount(t, source, target);
  }

  lemma SourceIsEmptied(t: Table, source: string, target: string, p: string)
    requires Unrelated(source, target) && Free(t, source, target) && Under(source, p)
    ensures p !in RenameFolder(t, source, target)
  {
    if p in RenameFolder(t, source, target) {
      var q := RenamedFromRow(t, source, target, p);
      if Under(source, q) {
        DisjointSubtrees(source, target, p);
      }
    }
  }

  lemma OutsideRow(t: Table, source: string, target: string, p: string)
    requires Unrelated(source, target) && Free(t, source, target) && DerivedRight(t)
    requires !Under(source, p) && !Under(target, p)
    ensures var u := RenameFolder(t, source, target); (p in u <==> p in t) && (p in t ==> u[p] == t[p])
  {
    if p in t {
      RenamedRow(t, source, target, p);
    }
    if p in RenameFolder(t, source, target) {
      var q := RenamedFromRow(t, source, target, p);
    }
  }

  lemma SameCount(t: Table, source: string, target: string)
    requires Unrelated(source, target) && Free(t, source, target)
    ensures |RenameFolder(t, source, target)| == |t|
  {
    var u := RenameKeys(t, source, target);
    forall p, q | p in t.Keys && q in t.Keys && Moved(source, target, p) == Moved(source, target, q) ensures p == q {
      MovedIsInjective(t, source, target, p, q);
    }
    ImageCount(t.Keys, source, target);
    assert u.Keys == set p | p in t.Keys :: Moved(source, target, p);
    assert RenameFolder(t, source, target).Keys == u.Keys;
  }

  lemma ImageCount(keys: set<string>, source: string, target: string)
    requires forall p, q | p in keys && q in keys && Moved(source, target, p) == Moved(source, target, q) :: p == q
    ensures |set p | p in keys :: Moved(source, target, p)| == |keys|
  {
    if keys != {} {
      var p :| p in keys;
      ImageCount(keys - {p}, source, target);
      assert (set q | q in keys :: Moved(source, target, q)) ==
             (set q | q in keys - {p} :: Moved(source, target, q)) + {Moved(source, target, p)};
    }
  }

  lemma RoomToMove(t: Table, source: string, target: string)
    requires Unrelated(source, target)
    requires forall p | p in t :: !Under(target, p)
    ensures Free(t, source, target)
  {
    forall p | p in t && Under(source, p) ensures Moved(source, target, p) !in t {
      MovedFacts(source, target, p);
    }
  }

  /** Relocating back from a target that was empty before restores the table. */
  lemma RenameBackUndoes(t: Table, source: string, target: string)
    requires Unrelated(source, target) && DerivedRight(t)
    requires forall p | p in t :: !Under(target, p)
    ensures Free(t, source, target) && Free(RenameFolder(t, source, target), target, source)
    ensures RenameFolder(RenameFolder(t, source, target), target, source) == t
  {
    RoomToMove(t, source, target);
    var u := RenameFolder(t, source, target);
    RenameKeepsDerived(t, source, target);
    forall m | m in u ensures !Under(source, m) {
      if Under(source, m) {
        SourceIsEmptied(t, source, target, m);
      }
    }
    RoomToMove(u, target, source);
    var v := RenameFolder(u, target, source);
    forall p | p in t ensures p in v && v[p] == t[p] {
      RowComesBack(t, source, target, p);
    }
    SameCount(t, source, target);
    SameCount(u, target, source);
    SameKeys(t, v);
  }

  lemma RowComesBack(t: Table, source: string, target: string, p: string)
    requires Unrelated(source, target) && DerivedRight(t) && p in t && !Under(target, p)
    requires Free(t, source, target) && Free(RenameFolder(t, source, target), target, source)
    requires DerivedRight(RenameFolder(t, source, target))
    ensures var v := RenameFolder(RenameFolder(t, source, target), target, source); p in v && v[p] == t[p]
  {
    var u, m := RenameFolder(t, source, target), Moved(source, target, p);
    RenamedRow(t, source, target, p);
    RenamedRow(u, target, source, m);
    if Under(source, p) {
      MovedFacts(source, target, p);
    }
  }

  lemma SameKeys(t: Table, v: Table)
    requires (forall p | p in t :: p in v && v[p] == t[p]) && |t| == |v|
    ensures t == v
  {
    assert t.Keys <= v.Keys;
    assert |t.Keys| == |v.Keys|;
    forall p | p in v ensures p in t {
      if p !in t {
        Pick.SubsetSize(t.Keys, v.Keys - {p});
      }
    }
  }
}
