/** What one undisturbed scan makes of the inventory, and when that is what a scan from scratch would store. */
module ScanResult {
  import Pick
  import opened ScanInvariant
  import opened ScanTables

  predicate Skips(dirs: map<Path, Signature>, t: Tree, d: Path) {
    d in dirs && dirs[d] == Known(ListingOf(t, d))
  }

  /** A row after the folders in `visited` have been read, if there is one. */
  predicate FileAfter(rows: map<Path, Row>, dirs: map<Path, Signature>, t: Tree, visited: set<Path>, p: Path, row: Row)

  {
    if Parent(p) in visited && !Skips(dirs, t, Parent(p)) then p in t.files && row == FileRow(p, t.files[p])
    else HasFile(rows, p) && row == rows[p]
  }

  predicate AnyFileAfter(rows: map<Path, Row>, dirs: map<Path, Signature>, t: Tree, visited: set<Path>, p: Path) {
    if Parent(p) in visited && !Skips(dirs, t, Parent(p)) then p in t.files else HasFile(rows, p)
  }

  predicate FolderAfter(rows: map<Path, Row>, dirs: map<Path, Signature>, t: Tree, visited: set<Path>, p: Path) {
    !AnyFileAfter(rows, dirs, t, visited, p) && (p in visited || (p in rows && rows[p].Folder?))
  }

  predicate RowAfter(rows: map<Path, Row>, dirs: map<Path, Signature>, t: Tree, visited: set<Path>, p: Path, row: Row) {
    if row.Folder? then FolderAfter(rows, dirs, t, visited, p) else FileAfter(rows, dirs, t, visited, p, row)
  }

  predicate AtPath(rows: map<Path, Row>, dirs: map<Path, Signature>, t: Tree, visited: set<Path>, after: map<Path, Row>,
                   p: Path)
  {
    if p in after then RowAfter(rows, dirs, t, visited, p, after[p])
    else !AnyFileAfter(rows, dirs, t, visited, p) && !FolderAfter(rows, dirs, t, visited, p)
  }

  ghost predicate Visited(rows: map<Path, Row>, dirs: map<Path, Signature>, t: Tree, visited: set<Path>,
                          after: map<Path, Row>,
                          afterDirs: map<Path, Signature>)
  {
    && [] !in after
    && (forall p | p != [] :: AtPath(rows, dirs, t, visited, after, p))
    && afterDirs == dirs + map d | d in visited :: Known(ListingOf(t, d))
  }

  function Stale(dirs: map<Path, Signature>, t: Tree): set<Path> {
    dirs.Keys - t.folders
  }

  function Cleared(rows: map<Path, Row>, stale: set<Path>): map<Path, Row> {
    map p | p in rows && p !in stale && Parent(p) !in stale :: rows[p]
  }

  /** The inventory after a complete scan. */
  ghost predicate Result(rows: map<Path, Row>, dirs: map<Path, Signature>, t: Tree, after: map<Path, Row>) {
    exists read, readDirs :: Visited(rows, dirs, t, t.folders, read, readDirs) && after == Cleared(read, Stale(dirs, t))
  }

  /** The row that the scan leaves at a path, if it leaves one. */
  function RowRead(rows: map<Path, Row>, dirs: map<Path, Signature>, t: Tree, p: Path): Row {
    if !AnyFileAfter(rows, dirs, t, t.folders, p) then Folder
    else if p in t.files && Parent(p) in t.folders && !Skips(dirs, t, Parent(p)) then FileRow(p, t.files[p])
    else if p in rows then rows[p]
    else Folder
  }

  lemma ScanHasResult(rows: map<Path, Row>, dirs: map<Path, Signature>, t: Tree)
    ensures exists after :: Result(rows, dirs, t, after)
  {
    var read := map p | p in rows.Keys + t.files.Keys + t.folders && p != []
      && (AnyFileAfter(rows, dirs, t, t.folders, p) || FolderAfter(rows, dirs, t, t.folders, p)) ::
           RowRead(rows, dirs, t, p);
    var readDirs := dirs + map d | d in t.folders :: Known(ListingOf(t, d));
    forall p | p != [] ensures AtPath(rows, dirs, t, t.folders, read, p) {}
    assert Visited(rows, dirs, t, t.folders, read, readDirs);
    assert Result(rows, dirs, t, Cleared(read, Stale(dirs, t)));
  }

  /** The folders that the scan does not read again are right as they are. */
  ghost predicate SkippedAreRight(rows: map<Path, Row>, dirs: map<Path, Signature>, t: Tree) {
    forall p | p != [] && Parent(p) in t.folders && Skips(dirs, t, Parent(p)) && p !in Stale(dirs, t) ::
      SameFile(rows, ListingOf(t, Parent(p)), p)
  }

  lemma FromScratchAt(rows: map<Path, Row>, dirs: map<Path, Signature>, t: Tree, read: map<Path, Row>,
                      readDirs: map<Path, Signature>,
                      p: Path)
    requires RowsSound(rows, dirs) && WellFormed(t) && p != []
    requires Visited(rows, dirs, t, t.folders, read, readDirs)
    requires SkippedAreRight(rows, dirs, t) && dirs.Keys !! t.files.Keys
    ensures p in Cleared(read, Stale(dirs, t)) <==> p in Scratch(t)
    ensures p in Scratch(t) ==> Cleared(read, Stale(dirs, t))[p] == Scratch(t)[p]
  {
    var after := Cleared(read, Stale(dirs, t));
    assert AtPath(rows, dirs, t, t.folders, read, p);
    assert p in rows ==> RowSound(dirs, p, rows[p]);
    if Parent(p) in t.folders && Skips(dirs, t, Parent(p)) && p !in Stale(dirs, t) {
      assert SameFile(rows, ListingOf(t, Parent(p)), p);
    }
  }

  lemma MissingFile(rows: map<Path, Row>, dirs: map<Path, Signature>, t: Tree, read: map<Path, Row>, p: Path)
    requires WellFormed(t) && p in dirs && p in t.files
    ensures Cleared(read, Stale(dirs, t)) != Scratch(t)
  {
    assert p in Scratch(t) && p !in Cleared(read, Stale(dirs, t));
  }

  lemma WrongAt(rows: map<Path, Row>, dirs: map<Path, Signature>, t: Tree, read: map<Path, Row>,
                readDirs: map<Path, Signature>, p: Path)
    requires RowsSound(rows, dirs) && WellFormed(t) && p != []
    requires Visited(rows, dirs, t, t.folders, read, readDirs)
    requires Parent(p) in t.folders && Skips(dirs, t, Parent(p)) && p !in Stale(dirs, t)
    requires !SameFile(rows, ListingOf(t, Parent(p)), p)
    ensures Cleared(read, Stale(dirs, t)) != Scratch(t)
  {
    var after := Cleared(read, Stale(dirs, t));
    assert AtPath(rows, dirs, t, t.folders, read, p);
    assert p in after <==> p in read;
    if HasFile(rows, p) {
      assert p in after && after[p] == rows[p];
    } else {
      assert p in t.files && Scratch(t)[p].File?;
    }
  }

  lemma AllFromScratch(rows: map<Path, Row>, dirs: map<Path, Signature>, t: Tree, read: map<Path, Row>,
                       readDirs: map<Path, Signature>)
    requires RowsSound(rows, dirs) && WellFormed(t)
    requires Visited(rows, dirs, t, t.folders, read, readDirs)
    requires SkippedAreRight(rows, dirs, t) && dirs.Keys !! t.files.Keys
    ensures Cleared(read, Stale(dirs, t)) == Scratch(t)
  {
    hide RowsSound;
    hide SkippedAreRight;
    forall p ensures p in Cleared(read, Stale(dirs, t)) <==> p in Scratch(t)
             ensures p in Scratch(t) ==> Cleared(read, Stale(dirs, t))[p] == Scratch(t)[p]
    {
      if p != [] {
        FromScratchAt(rows, dirs, t, read, readDirs, p);
      }
    }
  }

  /**
   * A complete scan of a library that holds still stores what a scan from scratch would, exactly when the folders it
   * skips are right and no path that was once read as a folder is a file now.
   */
  lemma CompleteScanExactly(rows: map<Path, Row>, dirs: map<Path, Signature>, t: Tree, after: map<Path, Row>)
    requires RowsSound(rows, dirs) && WellFormed(t) && Result(rows, dirs, t, after)
    ensures after == Scratch(t) <==> SkippedAreRight(rows, dirs, t) && dirs.Keys !! t.files.Keys
  {
    hide Visited;
    hide SkippedAreRight;
    hide RowsSound;
    hide WellFormed;
    hide Cleared;
    hide Scratch;
    hide Stale;
    var read, readDirs :| Visited(rows, dirs, t, t.folders, read, readDirs) && after == Cleared(read, Stale(dirs, t));
    if SkippedAreRight(rows, dirs, t) && dirs.Keys !! t.files.Keys {
      AllFromScratch(rows, dirs, t, read, readDirs);
    } else if dirs.Keys !! t.files.Keys {
      var p := SkippedWrongly(rows, dirs, t);
      WrongAt(rows, dirs, t, read, readDirs, p);
    } else {
      var p := Pick.Common(dirs.Keys, t.files.Keys);
      MissingFile(rows, dirs, t, read, p);
    }
  }

  lemma SkippedWrongly(rows: map<Path, Row>, dirs: map<Path, Signature>, t: Tree) returns (p: Path)
    requires !SkippedAreRight(rows, dirs, t)
    ensures p != [] && Parent(p) in t.folders && Skips(dirs, t, Parent(p)) && p !in Stale(dirs, t)
    ensures !SameFile(rows, ListingOf(t, Parent(p)), p)
  {
    p :| p != [] && Parent(p) in t.folders && Skips(dirs, t, Parent(p)) && p !in Stale(dirs, t)
         && !SameFile(rows, ListingOf(t, Parent(p)), p);
  }

  lemma SoundSkips(s: State)
    requires Sound(s)
    ensures SkippedAreRight(s.rows, s.dirs, s.tree) && s.dirs.Keys !! s.tree.files.Keys
  {
    forall p | p != [] && Parent(p) in s.tree.folders && Skips(s.dirs, s.tree, Parent(p)) && p !in Stale(s.dirs, s.tree)
      ensures SameFile(s.rows, ListingOf(s.tree, Parent(p)), p)
    {
      assert Trusted(s, Parent(p), s.dirs[Parent(p)].listing);
    }
  }

  ghost predicate Start(s: State) {
    && WellFormed(s.tree) && s.left == {} && s.folders == s.tree.folders
    && s.rows == map[] && s.dirs == map[] && s.job == Idle
  }

  /**
   * After any scans that were cancelled or failed, over a library that kept changing, one complete scan of the library
   * at rest stores what a scan from scratch would.
   */
  lemma CompleteScanForgetsThePast(s: State, events: seq<Event>, after: map<Path, Row>)
    requires Start(s) && LawfulRun(s, events)
    requires Result(Run(s, events).rows, Run(s, events).dirs, Run(s, events).tree, after)
    ensures after == Scratch(Run(s, events).tree)
  {
    RunKeepsSound(s, events);
    var t := Run(s, events);
    SoundSkips(t);
    CompleteScanExactly(t.rows, t.dirs, t.tree, after);
  }
}
