/** Two histories after which complete scans keep a wrong inventory. */
module ScanExamples {
  import opened ScanInvariant
  import opened ScanResult
  import opened ScanTables

  /** One folder with one photo. */
  function Library(folder: Path, photo: Path, stat: Stat): Tree {
    Tree(map[photo := stat], {[], folder})
  }

  predicate Places(folder: Path, photo: Path) {
    folder != [] && Parent(folder) == [] && photo != [] && photo != folder && Parent(photo) == folder
  }

  /** After a complete scan. */
  function Scanned(folder: Path, photo: Path, stat: Stat): State {
    State(Library(folder, photo, stat), {}, {[], folder}, map[folder := Folder, photo := FileRow(photo, stat)],
          map[[] := Known(map[]), folder := Known(map[photo := stat])], Idle)
  }

  /** The folder is moved away, another is put in its place and half scanned, and the first is moved back. */
  function SwapHistory(folder: Path, photo: Path, stat: Stat, other: Stat): seq<Event> {
    [Change(Library(folder, photo, other)), Open(folder), Persist({photo}), Cancel,
      Change(Library(folder, photo, stat))]
  }

  lemma ListingIs(folder: Path, photo: Path, stat: Stat)
    requires Places(folder, photo)
    ensures ListingOf(Library(folder, photo, stat), folder) == map[photo := stat]
  {}

  lemma Tail(s: State, e: Event, rest: seq<Event>)
    ensures Run(s, [e] + rest) == Run(Step(s, e), rest)
  {
    assert ([e] + rest)[1..] == rest;
  }

  lemma HalfScanned(folder: Path, photo: Path, stat: Stat, other: Stat)
    requires Places(folder, photo) && stat != other
    ensures var s := Run(Scanned(folder, photo, stat), SwapHistory(folder, photo, stat, other));
      && s.rows == map[folder := Folder, photo := FileRow(photo, other)]
      && s.dirs == Scanned(folder, photo, stat).dirs && s.tree == Library(folder, photo, stat)
  {
    hide Step;
    hide Run;
    hide Library;
    var begin := Scanned(folder, photo, stat);
    var away, back := Change(Library(folder, photo, other)), Change(Library(folder, photo, stat));
    SwapSteps(folder, photo, stat, other);
    Tail(begin, away, [Open(folder), Persist({photo}), Cancel, back]);
    FourMore(Step(begin, away), Open(folder), Persist({photo}), Cancel, back);
    assert SwapHistory(folder, photo, stat, other) == [away] + [Open(folder), Persist({photo}), Cancel, back];
  }

  lemma SwapSteps(folder: Path, photo: Path, stat: Stat, other: Stat)
    requires Places(folder, photo) && stat != other
    ensures var s := Step(Scanned(folder, photo, stat), Change(Library(folder, photo, other)));
      var u := Step(Step(Step(Step(s, Open(folder)), Persist({photo})), Cancel), Change(Library(folder, photo, stat)));
      && u.rows == map[folder := Folder, photo := FileRow(photo, other)]
      && u.dirs == Scanned(folder, photo, stat).dirs && u.tree == Library(folder, photo, stat)
  {
    ListingIs(folder, photo, other);
    var s := Step(Scanned(folder, photo, stat), Change(Library(folder, photo, other)));
    var one: Listing, two: Listing := map[photo := stat], map[photo := other];
    assert one[photo] != two[photo];
    assert s.dirs[folder] == Known(one) && ListingOf(s.tree, folder) == two;
    var t := Step(s, Open(folder));
    assert t == s.(job := Scanning(folder, two));
    var u := Step(t, Persist({photo}));
    assert u.rows == map[folder := Folder, photo := FileRow(photo, other)];
  }

  lemma FourMore(s: State, a: Event, b: Event, c: Event, d: Event)
    ensures Run(s, [a, b, c, d]) == Step(Step(Step(Step(s, a), b), c), d)
  {
    assert [a, b, c, d] == [a] + [b, c, d] && [b, c, d] == [b] + [c, d] && [c, d] == [c] + [d] && [d] == [d] + [];
    Tail(s, a, [b, c, d]);
    Tail(Step(s, a), b, [c, d]);
    Tail(Step(Step(s, a), b), c, [d]);
    Tail(Step(Step(Step(s, a), b), c), d, []);
  }

  /**
   * The inventory then records the other folder's content for the photo, and a complete scan leaves it so: the stored
   * listing is the one the folder has again. On the way every file stays a file and every folder a folder.
   */
  lemma SwappedFolderStaysWrong(folder: Path, photo: Path, stat: Stat, other: Stat)
    requires Places(folder, photo) && stat != other
    ensures var s := Run(Scanned(folder, photo, stat), SwapHistory(folder, photo, stat, other));
      && (exists after :: Result(s.rows, s.dirs, s.tree, after))
      && forall after | Result(s.rows, s.dirs, s.tree, after) :: after != Scratch(Library(folder, photo, stat))
  {
    hide Run;
    hide Result;
    var s := Run(Scanned(folder, photo, stat), SwapHistory(folder, photo, stat, other));
    HalfScanned(folder, photo, stat, other);
    ScanHasResult(s.rows, s.dirs, s.tree);
    forall after | Result(s.rows, s.dirs, s.tree, after) ensures after != Scratch(Library(folder, photo, stat)) {
      WrongAfterSwap(folder, photo, stat, other, after);
    }
  }

  lemma WrongAfterSwap(folder: Path, photo: Path, stat: Stat, other: Stat, after: map<Path, Row>)
    requires Places(folder, photo) && stat != other
    requires Result(map[folder := Folder, photo := FileRow(photo, other)], Scanned(folder, photo, stat).dirs,
                    Library(folder, photo, stat), after)
    ensures after != Scratch(Library(folder, photo, stat))
  {
    hide Result;
    var rows, dirs, t :=
      map[folder := Folder, photo := FileRow(photo, other)], Scanned(folder, photo, stat).dirs,
      Library(folder, photo, stat);
    ListingIs(folder, photo, stat);
    assert RowsSound(rows, dirs);
    CompleteScanExactly(rows, dirs, t, after);
    assert !SameFile(rows, ListingOf(t, Parent(photo)), photo);
  }

  /** A folder has become a file: the scan that reads the file's row then removes it with those of the folder. */
  lemma FolderBecomesFileIsLost(folder: Path, stat: Stat, rows: map<Path, Row>, dirs: map<Path, Signature>)
    requires folder != [] && Parent(folder) == [] && folder in dirs
    ensures var t := Tree(map[folder := stat], {[]});
      && folder in Scratch(t)
      && (exists after :: Result(rows, dirs, t, after))
      && forall after | Result(rows, dirs, t, after) :: folder !in after
  {
    var t := Tree(map[folder := stat], {[]});
    ScanHasResult(rows, dirs, t);
    forall after | Result(rows, dirs, t, after) ensures folder !in after {
      var read, readDirs :| Visited(rows, dirs, t, t.folders, read, readDirs) && after == Cleared(read, Stale(dirs, t));
    }
  }
}
