/** The background scan of the original files, folder by folder. */
module IdentityScanner {
  import opened Pick
  import opened ScanInvariant
  import opened ScanResult
  import opened ScanTables

  const BLOCK: nat := 32

  /** The rows once a folder with listing `l` has been read. */
  function Reread(rows: map<Path, Row>, d: Path, l: Listing): map<Path, Row> {
    (rows - Gone(rows, d, l)) + map p | p in l :: FileRow(p, l[p])
  }

  function WithFolder(rows: map<Path, Row>, d: Path): map<Path, Row> {
    if d == [] || d in rows then rows else rows[d := Folder]
  }

  function Children(t: Tree, d: Path): set<Path> {
    set x | x in t.folders && x != [] && Parent(x) == d
  }

  /** A folder and everything below it. */
  function Below(t: Tree, d: Path): set<Path> {
    set x | x in t.folders && d <= x
  }

  function BelowAny(t: Tree, roots: set<Path>): set<Path> {
    set x, d | d in roots && x in t.folders && d <= x :: x
  }

  lemma PersistedTwice(rows: map<Path, Row>, l: Listing, a: set<Path>, b: set<Path>)
    ensures Persisted(Persisted(rows, l, a), l, b) == Persisted(rows, l, a + b)
  {}

  lemma PersistedNothing(rows: map<Path, Row>, l: Listing)
    ensures Persisted(rows, l, {}) == rows
  {}

  ghost predicate Verified(rows: map<Path, Row>, l: Listing, p: Path) {
    p in l ==> HasFile(rows, p) && rows[p].stat == l[p]
  }

  lemma RereadAt(rows: map<Path, Row>, dirs: map<Path, Signature>, d: Path, l: Listing, written: set<Path>, p: Path)
    requires p in rows ==> RowSound(dirs, p, rows[p])
    requires p in l ==> Parent(p) == d && (p in written || Verified(rows, l, p))
    ensures var now := Persisted(rows, l, written);
      && (p in now - Gone(now, d, l) <==> p in Reread(rows, d, l))
      && (p in Reread(rows, d, l) ==> now[p] == Reread(rows, d, l)[p])
      && Verified(now, l, p)
  {
    var now := Persisted(rows, l, written);
    assert p in now <==> p in rows || (p in written && p in l);
    assert p in now ==> now[p] == if p in written && p in l then FileRow(p, l[p]) else rows[p];
  }

  lemma RereadIs(rows: map<Path, Row>, dirs: map<Path, Signature>, d: Path, l: Listing, written: set<Path>)
    requires RowsSound(rows, dirs)
    requires forall p | p in l :: Parent(p) == d && (p in written || Verified(rows, l, p))
    ensures var now := Persisted(rows, l, written); now - Gone(now, d, l) == Reread(rows, d, l)
    ensures forall p | p in l :: Verified(Persisted(rows, l, written), l, p)
  {
    hide Persisted;
    hide Reread;
    hide Gone;
    hide Verified;
    hide RowSound;
    var now := Persisted(rows, l, written);
    forall p ensures p in now - Gone(now, d, l) <==> p in Reread(rows, d, l)
             ensures p in Reread(rows, d, l) ==> now[p] == Reread(rows, d, l)[p]
             ensures Verified(now, l, p)
    {
      RereadAt(rows, dirs, d, l, written, p);
    }
  }

  lemma VisitAt(rows: map<Path, Row>, dirs: map<Path, Signature>, t: Tree, visited: set<Path>, mid: map<Path, Row>,
                d: Path, p: Path)
    requires p != [] && d !in visited && (d == [] || Parent(d) in visited) && AtPath(rows, dirs, t, visited, mid, p)
    requires Parent(p) == d ==> p !in visited
    ensures AtPath(rows, dirs, t, visited + {d},
      WithFolder(if Skips(dirs, t, d) then mid else Reread(mid, d, ListingOf(t, d)), d), p)
  {
    var read := if Skips(dirs, t, d) then mid else Reread(mid, d, ListingOf(t, d));
    FolderLast(read, d, p);
    if !Skips(dirs, t, d) {
      RereadMeans(mid, d, t, p);
    }
    if p == d {
      assert Parent(d) in visited && Parent(d) != d;
    }
  }

  lemma RereadMeans(rows: map<Path, Row>, d: Path, t: Tree, p: Path)
    ensures var read := Reread(rows, d, ListingOf(t, d));
      if Parent(p) == d && p in t.files then p in read && read[p] == FileRow(p, t.files[p])
      else if Parent(p) == d && HasFile(rows, p) then p !in read
      else (p in read <==> p in rows) && (p in read ==> read[p] == rows[p])
  {}

  lemma FolderLast(rows: map<Path, Row>, d: Path, p: Path)
    ensures var after := WithFolder(rows, d);
      if p == d && p != [] && p !in rows then p in after && after[p] == Folder
      else (p in after <==> p in rows) && (p in after ==> after[p] == rows[p])
  {}

  /** Reading one more folder, whose parent has been read, or skipping it because its listing is the stored one. */
  lemma VisitExtends(rows: map<Path, Row>, dirs: map<Path, Signature>, t: Tree, visited: set<Path>, mid: map<Path, Row>,
                     midDirs: map<Path, Signature>, d: Path, after: map<Path, Row>, afterDirs: map<Path, Signature>)
    requires Visited(rows, dirs, t, visited, mid, midDirs)
    requires d !in visited && (d == [] || Parent(d) in visited) && visited !! Children(t, d) && visited <= t.folders
    requires after == WithFolder(if Skips(dirs, t, d) then mid else Reread(mid, d, ListingOf(t, d)), d)
    requires afterDirs == if Skips(dirs, t, d) then midDirs else midDirs[d := Known(ListingOf(t, d))]
    requires [] !in t.files
    ensures Visited(rows, dirs, t, visited + {d}, after, afterDirs)
  {
    hide AtPath;
    hide Reread;
    hide WithFolder;
    hide Skips;
    hide ListingOf;
    forall p | p != [] ensures AtPath(rows, dirs, t, visited + {d}, after, p) {
      VisitAt(rows, dirs, t, visited, mid, d, p);
    }
    FolderLast(if Skips(dirs, t, d) then mid else Reread(mid, d, ListingOf(t, d)), d, []);
    RereadMeans(mid, d, t, []);
    StoredNext(dirs, t, visited, midDirs, d);
  }

  lemma StoredNext(dirs: map<Path, Signature>, t: Tree, visited: set<Path>, midDirs: map<Path, Signature>, d: Path)
    requires midDirs == dirs + map x | x in visited :: Known(ListingOf(t, x))
    requires d !in visited
    ensures (if Skips(dirs, t, d) then midDirs else midDirs[d := Known(ListingOf(t, d))])
         == dirs + map x | x in visited + {d} :: Known(ListingOf(t, x))
  {
    var afterDirs := if Skips(dirs, t, d) then midDirs else midDirs[d := Known(ListingOf(t, d))];
    assert afterDirs == dirs + map x | x in visited + {d} :: Known(ListingOf(t, x));
  }

  lemma VisitedNothing(rows: map<Path, Row>, dirs: map<Path, Signature>, t: Tree)
    requires [] !in rows
    ensures Visited(rows, dirs, t, {}, rows, dirs)
  {
    assert dirs == dirs + map x | x in {} :: Known(ListingOf(t, x));
  }

  lemma SameLength(c: Path, e: Path, x: Path)
    requires c != e && |c| == |e| && c <= x
    ensures !(e <= x)
  {
    assert c == x[..|c|];
  }

  lemma ChildFacts(t: Tree, d: Path, c: Path, done: set<Path>)
    requires d in t.folders && c in Children(t, d) && done <= Children(t, d) && c !in done
    ensures Below(t, c) < Below(t, d) && c in t.folders
    ensures d !in Below(t, c) && Below(t, c) !! BelowAny(t, done)
    ensures BelowAny(t, done + {c}) == BelowAny(t, done) + Below(t, c)
  {
    assert d == c[..|c| - 1];
    forall x, e | x in Below(t, c) && e in done ensures x in Below(t, d) && !(e <= x) {
      SameLength(c, e, x);
    }
    assert d in Below(t, d) && d !in Below(t, c);
  }

  lemma {:induction false} UnderChild(t: Tree, d: Path, x: Path)
    requires WellFormed(t) && x in Below(t, d) && x != d
    ensures x in BelowAny(t, Children(t, d))
    decreases |x|
  {
    var up := Parent(x);
    assert x == up + [x[|x| - 1]];
    if up == d {
      assert x in Children(t, d) && x <= x;
    } else {
      assert d <= up;
      UnderChild(t, d, up);
      var c :| c in Children(t, d) && c <= up;
      assert c <= x;
    }
  }

  lemma BelowIs(t: Tree, d: Path)
    requires WellFormed(t) && d in t.folders
    ensures Below(t, d) == {d} + BelowAny(t, Children(t, d))
  {
    forall x | x in Below(t, d) && x != d ensures x in BelowAny(t, Children(t, d)) {
      UnderChild(t, d, x);
    }
    forall x | x in BelowAny(t, Children(t, d)) ensures x in Below(t, d) {
      var c :| c in Children(t, d) && c <= x;
      assert d == c[..|c| - 1];
    }
  }

  lemma ClearedOnce(rows: map<Path, Row>, stale: set<Path>, d: Path)
    ensures var now := Cleared(rows, stale); now - Inside(now, d) == Cleared(rows, stale + {d})
  {}

  lemma VisitNext(rows: map<Path, Row>, dirs: map<Path, Signature>, t: Tree, visited: set<Path>, mid: map<Path, Row>,
                  midDirs: map<Path, Signature>, d: Path, after: map<Path, Row>, afterDirs: map<Path, Signature>)
    requires WellFormed(t) && Visited(rows, dirs, t, visited, mid, midDirs)
    requires d in t.folders && visited !! Below(t, d) && (d == [] || Parent(d) in visited) && visited <= t.folders
    requires after == WithFolder(if Skips(midDirs, t, d) then mid else Reread(mid, d, ListingOf(t, d)), d)
    requires afterDirs == if Skips(midDirs, t, d) then midDirs else midDirs[d := Known(ListingOf(t, d))]
    ensures Visited(rows, dirs, t, visited + {d}, after, afterDirs)
  {
    assert d in Below(t, d);
    assert Skips(midDirs, t, d) == Skips(dirs, t, d);
    forall c | c in Children(t, d) ensures c in Below(t, d) {
      assert d == c[..|c| - 1];
    }
    VisitExtends(rows, dirs, t, visited, mid, midDirs, d, after, afterDirs);
  }

  lemma ChildReady(t: Tree, d: Path, c: Path, before: set<Path>, done: set<Path>)
    requires d in t.folders && c in Children(t, d) && done <= Children(t, d) && c !in done
    requires before !! Below(t, d) && before <= t.folders
    ensures var seen := before + {d} + BelowAny(t, done); seen !! Below(t, c) && seen <= t.folders && Parent(c) in seen
  {
    assert d == c[..|c| - 1];
    forall x | x in Below(t, c) ensures x in Below(t, d) {}
    ChildFacts(t, d, c, done);
  }

  lemma NoneBelow(t: Tree)
    ensures BelowAny(t, {}) == {}
  {}

  lemma TreeOf(s: State)
    requires Sound(s)
    ensures WellFormed(s.tree)
  {}

  lemma JobListing(s: State)
    requires Sound(s) && s.job.Scanning?
    ensures RowsSound(s.rows, s.dirs) && s.job.folder in s.dirs
    ensures forall p | p in s.job.listing :: p != [] && Parent(p) == s.job.folder
  {}

  class Inventory {
    var rows: map<Path, Row>
    var dirs: map<Path, Signature>
    var seen: set<Path>
    var complete: bool
    ghost var left: set<(Path, Listing)>
    ghost var folders: set<Path>

    constructor ()
      ensures rows == map[] && dirs == map[]
    {
      rows, dirs, seen, complete, left, folders := map[], map[], {}, true, {}, {};
    }

    ghost function Snapshot(t: Tree, job: Job): State
      reads this
    {
      State(t, left, folders, rows, dirs, job)
    }

    /** One block of verified files in one transaction. */
    method PersistFiles(ghost t: Tree, d: Path, l: Listing, pending: set<Path>) returns (ok: bool)
      requires Sound(Snapshot(t, Scanning(d, l))) && pending <= l.Keys
      modifies `rows
      ensures Sound(Snapshot(t, Scanning(d, l)))
      ensures rows == if ok then Persisted(old(rows), l, pending) else old(rows)
    {
      ok := false;
      if * {
        ghost var s := Snapshot(t, Scanning(d, l));
        rows := Persisted(rows, l, pending);
        StepKeepsSound(s, Persist(pending));
        assert Snapshot(t, Scanning(d, l)) == Step(s, Persist(pending));
        ok := true;
      }
    }

    /** Hashes the files whose metadata is new and drops the rows of those that are gone. */
    method ReadFolder(ghost t: Tree, d: Path, l: Listing) returns (ok: bool)
      requires Sound(Snapshot(t, Scanning(d, l)))
      modifies `rows, `dirs
      ensures Sound(Snapshot(t, Idle))
      ensures ok ==> rows == Reread(old(rows), d, l) && dirs == old(dirs)[d := Known(l)]
    {
      hide Sound;
      var cached := map p | p in rows && rows[p].File? && Parent(p) == d :: rows[p].stat;
      var todo := l.Keys;
      var pending: set<Path> := {};
      ghost var written: set<Path> := {};
      PersistedNothing(rows, l);
      JobListing(Snapshot(t, Scanning(d, l)));
      while todo != {}
        invariant todo <= l.Keys && written <= l.Keys && pending <= l.Keys && |pending| < BLOCK
        invariant rows == Persisted(old(rows), l, written) && dirs == old(dirs)
        invariant Sound(Snapshot(t, Scanning(d, l)))
        invariant forall p | p in l && p !in todo :: p in written || p in pending || Verified(old(rows), l, p)
        decreases todo
      {
        var p := Any(todo);
        todo := todo - {p};
        if !(p in cached && cached[p] == l[p]) {
          if * {
            CancelKeeps(Snapshot(t, Scanning(d, l)));
            return false;
          }
          pending := pending + {p};
          if |pending| == BLOCK {
            var stored := PersistFiles(t, d, l, pending);
            if !stored {
              CancelKeeps(Snapshot(t, Scanning(d, l)));
              return false;
            }
            PersistedTwice(old(rows), l, written, pending);
            written := written + pending;
            pending := {};
          }
        }
      }
      ok := PersistFiles(t, d, l, pending);
      if ok {
        PersistedTwice(old(rows), l, written, pending);
        written := written + pending;
        RereadIs(old(rows), dirs, d, l, written);
        ok := Commit(t, d, l);
      } else {
        CancelKeeps(Snapshot(t, Scanning(d, l)));
      }
    }

    /** Drops the rows of files that are gone and stores the listing, in one transaction. */
    method Commit(ghost t: Tree, d: Path, l: Listing) returns (ok: bool)
      requires Sound(Snapshot(t, Scanning(d, l)))
      requires forall p | p in l :: Verified(rows, l, p)
      modifies `rows, `dirs
      ensures Sound(Snapshot(t, Idle))
      ensures ok ==> rows == old(rows) - Gone(old(rows), d, l) && dirs == old(dirs)[d := Known(l)]
    {
      hide Sound;
      ok := false;
      ghost var s := Snapshot(t, Scanning(d, l));
      if * {
        CancelKeeps(s);
      } else {
        var gone := set p | p in rows && rows[p].File? && Parent(p) == d && p !in l;
        rows, dirs, ok := rows - gone, dirs[d := Known(l)], true;
        assert forall p | p in l :: Verified(s.rows, l, p);
        FinishKeeps(s);
        assert Snapshot(t, Idle) == Step(s, Finish);
      }
    }

    /** Reads one folder, unless its listing is the stored one, and sees to its own row. */
    method Visit(t: Tree, d: Path) returns (ok: bool)
      requires Sound(Snapshot(t, Idle)) && d in t.folders
      modifies `rows, `dirs
      ensures Sound(Snapshot(t, Idle))
      ensures ok ==>
        rows == WithFolder(if Skips(old(dirs), t, d) then old(rows) else Reread(old(rows), d, ListingOf(t, d)), d)
      ensures ok ==> dirs == if Skips(old(dirs), t, d) then old(dirs) else old(dirs)[d := Known(ListingOf(t, d))]
    {
      hide Sound;
      var l := ListingOf(t, d);
      ok := true;
      if !(d in dirs && dirs[d] == Known(l)) {
        ghost var s := Snapshot(t, Idle);
        if d !in dirs {
          dirs := dirs[d := Unknown];
        }
        OpenKeeps(s, d);
        assert Snapshot(t, Scanning(d, l)) == Step(s, Open(d));
        ok := ReadFolder(t, d, l);
        assert ok ==> dirs == old(dirs)[d := Known(l)];
      }
      if ok && d != [] {
        if * {
          return false;
        }
        if d !in rows {
          ghost var s := Snapshot(t, Idle);
          rows := rows[d := Folder];
          AddFolderKeeps(s, d);
          assert Snapshot(t, Idle) == Step(s, AddFolder(d));
        }
      }
    }

    /**
     * A folder with everything below it. A folder below that cannot be read leaves the scan incomplete. `blank`: the
     * library folder itself is empty, although photos are known, as when its disk is not mounted.
     */
    method Walk(t: Tree, d: Path, blank: bool, ghost rows0: map<Path, Row>, ghost dirs0: map<Path, Signature>)
      returns (ok: bool)
      requires Sound(Snapshot(t, Idle)) && d in t.folders
      requires complete ==>
        seen !! Below(t, d) && seen <= t.folders && (d == [] || Parent(d) in seen)
        && Visited(rows0, dirs0, t, seen, rows, dirs)
      modifies `rows, `dirs, `seen, `complete
      ensures Sound(Snapshot(t, Idle))
      ensures ok && complete ==>
        old(complete) && seen == old(seen) + Below(t, d) && Visited(rows0, dirs0, t, seen, rows, dirs)
      decreases Below(t, d)
    {
      hide Sound;
      hide Visited;
      hide Below;
      hide BelowAny;
      hide Children;
      hide WellFormed;
      hide Reread;
      hide WithFolder;
      hide Skips;
      hide ListingOf;
      if * {
        return false;
      }
      ghost var before := seen;
      seen := seen + {d};
      if d == [] && blank {
        complete := false;
        return true;
      }
      ok := Visit(t, d);
      if !ok {
        return;
      }
      TreeOf(Snapshot(t, Idle));
      if complete {
        VisitNext(rows0, dirs0, t, before, old(rows), old(dirs), d, rows, dirs);
      }
      var children := Children(t, d);
      var todo := children;
      NoneDone(children);
      NoneBelow(t);
      while todo != {}
        invariant todo <= children && Sound(Snapshot(t, Idle))
        invariant complete ==> old(complete) && seen == before + {d} + BelowAny(t, children - todo)
        invariant complete ==> Visited(rows0, dirs0, t, seen, rows, dirs)
        decreases todo
      {
        var c := Any(todo);
        ghost var done := children - todo;
        ChildFacts(t, d, c, done);
        if complete {
          ChildReady(t, d, c, before, done);
        }
        OneLess(children, todo, c);
        todo := todo - {c};
        var fine := Walk(t, c, false, rows0, dirs0);
        if !fine {
          if * {
            return false;
          }
          complete := false;
        }
      }
      if complete {
        BelowIs(t, d);
      }
    }

    /**
     * The whole scan; only a complete one may drop the folders that were not found. From an inventory that any number
     * of cancelled and failed scans of a changing library left behind, a complete scan stores what a scan from scratch
     * would.
     */
    method Scan(t: Tree, blank: bool) returns (done: bool)
      requires Sound(Snapshot(t, Idle))
      modifies `rows, `dirs, `seen, `complete
      ensures Sound(Snapshot(t, Idle))
      ensures done ==> rows == Scratch(t) && dirs == map d | d in t.folders :: Known(ListingOf(t, d))
      ensures done ==> StoresAll(rows, t)
    {
      hide Sound;
      hide Visited;
      hide Scratch;
      ScratchStoresAll(t);
      hide StoresAll;
      ghost var s := Snapshot(t, Idle);
      seen, complete := {}, true;
      NothingRead(s);
      done := Walk(t, [], blank, rows, dirs);
      if !done || !complete {
        return false;
      }
      WholeTree(t);
      ghost var read, readDirs := rows, dirs;
      done := DropStale(t, dirs.Keys - seen);
      if !done {
        return;
      }
      StaleIs(s, read, readDirs);
      ScanIsFresh(s, read, readDirs, rows);
    }

    /** The folders that the scan has not come across go, with the rows of what was in them. */
    method DropStale(t: Tree, stale: set<Path>) returns (done: bool)
      requires Sound(Snapshot(t, Idle)) && stale <= dirs.Keys
      modifies `rows, `dirs
      ensures Sound(Snapshot(t, Idle))
      ensures done ==> rows == Cleared(old(rows), stale) && dirs == old(dirs) - stale
    {
      hide Sound;
      ghost var read, readDirs := rows, dirs;
      ClearedNothing(rows);
      var todo := stale;
      NoneDone(stale);
      while todo != {}
        invariant todo <= stale && Sound(Snapshot(t, Idle))
        invariant rows == Cleared(read, stale - todo) && dirs == readDirs - (stale - todo)
        decreases todo
      {
        var d := Any(todo);
        if * {
          return false;
        }
        ClearedOnce(read, stale - todo, d);
        OneLess(stale, todo, d);
        todo := todo - {d};
        ghost var was := Snapshot(t, Idle);
        var inside := set p | p in rows && (p == d || Parent(p) == d);
        rows, dirs := rows - inside, dirs - {d};
        RemoveStaleKeeps(was, d);
        assert Snapshot(t, Idle) == Step(was, RemoveStale(d));
      }
      NoneDone(stale);
      done := true;
    }
  }

  lemma NothingRead(s: State)
    requires Sound(s)
    ensures Visited(s.rows, s.dirs, s.tree, {}, s.rows, s.dirs)
    ensures [] in s.tree.folders
  {
    assert [] !in s.rows by {
      assert [] in s.rows ==> RowSound(s.dirs, [], s.rows[[]]);
    }
    VisitedNothing(s.rows, s.dirs, s.tree);
  }

  lemma WholeTree(t: Tree)
    ensures {} + Below(t, []) == t.folders
  {}

  lemma ClearedNothing(rows: map<Path, Row>)
    ensures Cleared(rows, {}) == rows
  {}

  lemma StaleIs(s: State, read: map<Path, Row>, readDirs: map<Path, Signature>)
    requires Visited(s.rows, s.dirs, s.tree, s.tree.folders, read, readDirs)
    ensures readDirs.Keys - s.tree.folders == Stale(s.dirs, s.tree)
    ensures readDirs - (readDirs.Keys - s.tree.folders) == map d | d in s.tree.folders :: Known(ListingOf(s.tree, d))
  {}

  lemma ScanIsFresh(s: State, read: map<Path, Row>, readDirs: map<Path, Signature>, after: map<Path, Row>)
    requires Sound(s) && Visited(s.rows, s.dirs, s.tree, s.tree.folders, read, readDirs)
    requires after == Cleared(read, Stale(s.dirs, s.tree))
    ensures after == Scratch(s.tree)
  {
    assert Result(s.rows, s.dirs, s.tree, after);
    SoundSkips(s);
    CompleteScanExactly(s.rows, s.dirs, s.tree, after);
  }
}
