/**
 * What holds of the inventory at every point of cancelled, failed and complete scans of a library that keeps changing.
 */
module ScanInvariant {
  import opened ScanTables

  ghost predicate RowSound(dirs: map<Path, Signature>, p: Path, row: Row) {
    && p != []
    && (row.File? ==> row.content == Content(p, row.stat) && Parent(p) in dirs)
    && (row.Folder? ==> p in dirs)
  }

  ghost predicate RowsSound(rows: map<Path, Row>, dirs: map<Path, Signature>) {
    forall p | p in rows :: RowSound(dirs, p, rows[p])
  }

  predicate SameFile(rows: map<Path, Row>, l: Listing, p: Path) {
    (HasFile(rows, p) <==> p in l) && (p in l && HasFile(rows, p) ==> rows[p].stat == l[p])
  }

  /** The file rows of a folder are those of a listing. */
  ghost predicate Matches(rows: map<Path, Row>, d: Path, l: Listing) {
    forall p | p != [] && Parent(p) == d :: SameFile(rows, l, p)
  }

  /** A stored listing is true of the rows, unless the folder has left it for good. */
  ghost predicate Trusted(s: State, d: Path, l: Listing) {
    (d, l) in s.left || (Current(s.tree, d, l) && Matches(s.rows, d, l))
  }

  ghost predicate JobSound(s: State) {
    s.job.Scanning? ==>
      && s.job.folder in s.dirs
      && (forall p | p in s.job.listing :: p != [] && Parent(p) == s.job.folder)
      && ((s.job.folder, s.job.listing) in s.left || Current(s.tree, s.job.folder, s.job.listing))
      && (s.dirs[s.job.folder].Known? ==> (s.job.folder, s.dirs[s.job.folder].listing) in s.left)
  }

  ghost predicate NeverBack(left: set<(Path, Listing)>, t: Tree) {
    forall d | d in t.folders :: (d, ListingOf(t, d)) !in left
  }

  ghost predicate Sound(s: State) {
    && WellFormed(s.tree) && s.tree.folders <= s.folders && s.dirs.Keys <= s.folders
    && s.folders !! s.tree.files.Keys
    && RowsSound(s.rows, s.dirs)
    && NeverBack(s.left, s.tree)
    && JobSound(s)
    && forall d | d in s.dirs && s.dirs[d].Known? :: Trusted(s, d, s.dirs[d].listing)
  }

  /** No folder takes on a listing again that it has left, and no path that was a folder becomes a file. */
  ghost predicate Lawful(s: State, e: Event) {
    e.Change? ==> WellFormed(e.tree) && e.tree.files.Keys !! s.folders && NeverBack(s.left, e.tree)
  }

  lemma ChangeKeeps(s: State, t: Tree)
    requires Sound(s) && Lawful(s, Change(t))
    ensures Sound(Step(s, Change(t)))
  {
    var u := Step(s, Change(t));
    forall d | d in t.folders ensures (d, ListingOf(t, d)) !in u.left {}
    forall d | d in u.dirs && u.dirs[d].Known? ensures Trusted(u, d, u.dirs[d].listing) {
      assert Trusted(s, d, s.dirs[d].listing);
    }
  }

  lemma OpenKeeps(s: State, d: Path)
    requires Sound(s) && Enabled(s, Open(d))
    ensures Sound(Step(s, Open(d)))
  {
    var u := Step(s, Open(d));
    forall p | p in ListingOf(s.tree, d) ensures p != [] && Parent(p) == d {}
    forall p | p in u.rows ensures RowSound(u.dirs, p, u.rows[p]) {
      assert RowSound(s.dirs, p, s.rows[p]);
    }
    forall x | x in u.dirs && u.dirs[x].Known? ensures Trusted(u, x, u.dirs[x].listing) {
      assert Trusted(s, x, s.dirs[x].listing);
    }
  }

  lemma PersistKeeps(s: State, paths: set<Path>)
    requires Sound(s) && Enabled(s, Persist(paths))
    ensures Sound(Step(s, Persist(paths)))
  {
    var u := Step(s, Persist(paths));
    forall p | p in u.rows ensures RowSound(u.dirs, p, u.rows[p]) {
      if p in s.rows {
        assert RowSound(s.dirs, p, s.rows[p]);
      }
    }
    forall d | d in u.dirs && u.dirs[d].Known? ensures Trusted(u, d, u.dirs[d].listing) {
      assert Trusted(s, d, s.dirs[d].listing);
      if (d, s.dirs[d].listing) !in s.left {
        assert d != s.job.folder;
        forall p | p != [] && Parent(p) == d ensures SameFile(u.rows, u.dirs[d].listing, p) {
          assert SameFile(s.rows, s.dirs[d].listing, p);
        }
      }
    }
  }

  lemma FinishKeeps(s: State)
    requires Sound(s) && Enabled(s, Finish)
    ensures Sound(Step(s, Finish))
  {
    var u := Step(s, Finish);
    forall p | p in u.rows ensures RowSound(u.dirs, p, u.rows[p]) {
      assert RowSound(s.dirs, p, s.rows[p]);
    }
    forall d | d in u.dirs && u.dirs[d].Known? ensures Trusted(u, d, u.dirs[d].listing) {
      if d == s.job.folder {
        forall p | p != [] && Parent(p) == d ensures SameFile(u.rows, s.job.listing, p) {}
      } else {
        assert Trusted(s, d, s.dirs[d].listing);
        if (d, s.dirs[d].listing) !in s.left {
          forall p | p != [] && Parent(p) == d ensures SameFile(u.rows, u.dirs[d].listing, p) {
            assert SameFile(s.rows, s.dirs[d].listing, p);
          }
        }
      }
    }
  }

  lemma AddFolderKeeps(s: State, f: Path)
    requires Sound(s) && Enabled(s, AddFolder(f))
    ensures Sound(Step(s, AddFolder(f)))
  {
    var u := Step(s, AddFolder(f));
    forall p | p in u.rows ensures RowSound(u.dirs, p, u.rows[p]) {
      if p in s.rows {
        assert RowSound(s.dirs, p, s.rows[p]);
      }
    }
    forall d | d in u.dirs && u.dirs[d].Known? ensures Trusted(u, d, u.dirs[d].listing) {
      assert Trusted(s, d, s.dirs[d].listing);
      if (d, s.dirs[d].listing) !in s.left {
        forall p | p != [] && Parent(p) == d ensures SameFile(u.rows, u.dirs[d].listing, p) {
          assert SameFile(s.rows, s.dirs[d].listing, p);
        }
      }
    }
  }

  lemma RemoveStaleKeeps(s: State, f: Path)
    requires Sound(s) && Enabled(s, RemoveStale(f))
    ensures Sound(Step(s, RemoveStale(f)))
  {
    var u := Step(s, RemoveStale(f));
    forall p | p in u.rows ensures RowSound(u.dirs, p, u.rows[p]) {
      assert RowSound(s.dirs, p, s.rows[p]);
    }
    forall d | d in u.dirs && u.dirs[d].Known? ensures Trusted(u, d, u.dirs[d].listing) {
      assert Trusted(s, d, s.dirs[d].listing);
      if (d, s.dirs[d].listing) !in s.left {
        forall p | p != [] && Parent(p) == d ensures SameFile(u.rows, u.dirs[d].listing, p) {
          assert SameFile(s.rows, s.dirs[d].listing, p);
          if p == f {
            assert p !in s.tree.files;
          }
        }
      }
    }
  }

  lemma StepKeepsSound(s: State, e: Event)
    requires Sound(s) && Lawful(s, e)
    ensures Sound(Step(s, e))
  {
    if Enabled(s, e) {
      match e
      case Change(t) => ChangeKeeps(s, t);
      case Open(d) => OpenKeeps(s, d);
      case Persist(paths) => PersistKeeps(s, paths);
      case Finish => FinishKeeps(s);
      case AddFolder(d) => AddFolderKeeps(s, d);
      case Cancel => CancelKeeps(s);
      case RemoveStale(d) => RemoveStaleKeeps(s, d);
    }
  }

  lemma CancelKeeps(s: State)
    requires Sound(s)
    ensures Sound(Step(s, Cancel))
  {
    var u := Step(s, Cancel);
    forall d | d in u.dirs && u.dirs[d].Known? ensures Trusted(u, d, u.dirs[d].listing) {
      assert Trusted(s, d, s.dirs[d].listing);
    }
  }

  ghost predicate LawfulRun(s: State, events: seq<Event>)
    decreases |events|
  {
    events == [] || (Lawful(s, events[0]) && LawfulRun(Step(s, events[0]), events[1..]))
  }

  /** Whatever was cancelled or failed in between, and however the library changed. */
  lemma {:induction false} RunKeepsSound(s: State, events: seq<Event>)
    requires Sound(s) && LawfulRun(s, events)
    ensures Sound(Run(s, events))
    decreases |events|
  {
    if events != [] {
      StepKeepsSound(s, events[0]);
      RunKeepsSound(Step(s, events[0]), events[1..]);
    }
  }
}
