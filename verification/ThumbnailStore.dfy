/** The preview cache of the photo library: publishing one preview and purging the expired ones. */
module ThumbnailStore {
  import opened Pick
  import opened ThumbnailTables

  datatype Expiry = Expiry(expires: int, key: Key)

  predicate Before(a: Expiry, b: Expiry) {
    || a.expires < b.expires
    || (a.expires == b.expires && a.key.face < b.key.face)
    || (a.expires == b.expires && a.key.face == b.key.face && a.key.crop < b.key.crop)
  }

  /** The rows that have expired, after the place where the last batch stopped. */
  ghost function Due(rows: map<Key, int>, now: int, cursor: Expiry): set<Expiry> {
    set k | k in rows && 0 < rows[k] <= now && Before(cursor, Expiry(rows[k], k)) :: Expiry(rows[k], k)
  }

  lemma {:induction false} RunsJoin(s: State, events: seq<Event>, more: seq<Event>)
    ensures Run(s, events + more) == Run(Run(s, events), more)
    decreases |events|
  {
    if events == [] {
      assert [] + more == more;
    } else {
      assert (events + more)[1..] == events[1..] + more;
      RunsJoin(Step(s, events[0]), events[1..], more);
    }
  }

  lemma EmptyRun(s: State)
    ensures Run(s, []) == s
  {}

  lemma TwoSteps(s: State, a: Event, b: Event)
    ensures Run(s, [a, b]) == Step(Step(s, a), b)
  {
    assert [a, b][1..] == [b] && [b][1..] == [];
    assert Run(Step(s, a), [b]) == Run(Step(Step(s, a), b), []);
  }

  /** The run with one more step. */
  lemma Extended(s: State, events: seq<Event>, e: Event) returns (all: seq<Event>)
    ensures all == events + [e] && Run(s, all) == Step(Run(s, events), e)
  {
    all := events + [e];
    RunsJoin(s, events, [e]);
    assert [e][1..] == [];
    assert Run(Run(s, events), [e]) == Run(Step(Run(s, events), e), []);
  }

  lemma StopIdles(s: State)
    ensures Step(s, Stop) == s.(job := Idle)
  {}

  predicate SameAt(a: map<Key, int>, b: map<Key, int>, k: Key) {
    (k in a <==> k in b) && (k in a ==> a[k] == b[k])
  }

  method DueKeys(rows: map<Key, int>, now: int, cursor: Expiry) returns (due: set<Expiry>)
    ensures due == Due(rows, now, cursor)
  {
    due := set k | k in rows && 0 < rows[k] <= now && Before(cursor, Expiry(rows[k], k)) :: Expiry(rows[k], k);
  }

  method Earliest(due: set<Expiry>) returns (m: Expiry)
    requires due != {}
    ensures m in due && forall x | x in due :: x == m || Before(m, x)
  {
    m := Any(due);
    var todo := due - {m};
    while todo != {}
      invariant todo <= due && m in due
      invariant forall x | x in due && x !in todo :: x == m || Before(m, x)
      decreases todo
    {
      var x := Any(todo);
      todo := todo - {x};
      if Before(x, m) {
        m := x;
      }
    }
  }

  class ThumbnailCache {
    var clock: int
    var faces: map<int, Face>
    var rows: map<Key, int>
    var files: map<Key, int>
    ghost var legacy: set<Key>

    constructor (now: int, known: map<int, Face>)
      ensures clock == now && faces == known && rows == map[] && files == map[] && legacy == {}
    {
      clock, faces, rows, files, legacy := now, known, map[], map[], {};
    }

    ghost function Snapshot(nextFace: int, job: Job): State
      reads this
    {
      State(clock, faces, nextFace, rows, files, legacy, 0, 1, job)
    }

    /** One statement, so an edit that was made while the preview was rendered counts. */
    method Register(key: Key, now: int, ghost nextFace: int) returns (ok: bool)
      requires 0 < now <= clock
      modifies `rows
      ensures ok <==> key.face in faces && !faces[key.face].retained
      ensures rows
        == if ok then old(rows)[key := RegisteredDeadline(old(rows), key, faces[key.face], now)] else old(rows)
      ensures ok ==> key in rows
      ensures ok && (!faces[key.face].ignored || faces[key.face].review) ==> rows[key] == 0
      ensures ok && faces[key.face].ignored && !faces[key.face].review ==>
        rows[key] == (if key in old(rows) && old(rows)[key] > now then old(rows)[key] else now + 2 * 24 * 60 * 60)
      ensures ok ==>
        Snapshot(nextFace, Registered(key)) == Step(old(Snapshot(nextFace, Removed(key))), Event.Register(now))
    {
      ok := key.face in faces && !faces[key.face].retained;
      if ok {
        var face := faces[key.face];
        var deadline := if face.ignored && !face.review then now + LIFETIME else 0;
        if key in rows && deadline > 0 && rows[key] > now {
          deadline := rows[key];
        }
        rows := rows[key := deadline];
      }
    }

    method RemoveFile(key: Key, ghost nextFace: int)
      modifies `files, `legacy
      ensures files == old(files) - {key}
      ensures Snapshot(nextFace, Removed(key)) == Step(old(Snapshot(nextFace, Idle)), StartPublishing(key))
    {
      files := files - {key};
      legacy := legacy - {key};
    }

    method WriteFile(key: Key, ghost nextFace: int) returns (ok: bool)
      modifies `files
      ensures files == if ok then old(files)[key := clock] else old(files)
      ensures Snapshot(nextFace, Idle) == Step(old(Snapshot(nextFace, Registered(key))), if ok then Write else Stop)
    {
      ok := false;
      if * {
        files := files[key := clock];
        ok := true;
      }
    }

    /** Removes the file in the old format, then its row; both may fail. */
    method RetireLegacy(key: Key, obsolete: Key, ghost nextFace: int) returns (ok: bool, ghost events: seq<Event>)
      requires obsolete != key && obsolete.face == key.face
      modifies `rows, `files, `legacy
      ensures Snapshot(nextFace, Registered(key)) == Run(old(Snapshot(nextFace, Registered(key))), events)
      ensures forall e | e in events :: MovesFiles(e)
      ensures ok ==> files == old(files) - {obsolete} && rows == old(rows) - {obsolete}
      ensures files == old(files) || files == old(files) - {obsolete}
      ensures rows == old(rows) || rows == old(rows) - {obsolete}
    {
      ghost var s := Snapshot(nextFace, Registered(key));
      ok, events := false, [];
      if * {
        return;
      }
      files := files - {obsolete};
      legacy := legacy - {obsolete};
      assert Snapshot(nextFace, Retired(key, obsolete)) == Step(s, RetireFile(obsolete));
      if * {
        rows := rows - {obsolete};
        ok := true;
        TwoSteps(s, RetireFile(obsolete), RetireRow);
        events := [RetireFile(obsolete), RetireRow];
      } else {
        TwoSteps(s, RetireFile(obsolete), LeaveRow);
        events := [RetireFile(obsolete), LeaveRow];
      }
    }

    /**
     * Publishes a rendered preview and retires the file in the old format. Any of the writes may fail. What it does is
     * a run of the journal's steps, so a crash between two of them leaves a state that the journal allows.
     */
    method Publish(key: Key, obsolete: seq<Key>, now: int, ghost nextFace: int)
      returns (written: bool, ghost events: seq<Event>)
      requires 0 < now <= clock
      requires forall o | o in obsolete :: o != key && o.face == key.face
      modifies `rows, `files, `legacy
      ensures Snapshot(nextFace, Idle) == Run(old(Snapshot(nextFace, Idle)), events)
      ensures forall e | e in events :: MovesFiles(e)
      ensures written ==> key in files && files[key] == clock && key in rows
      ensures written ==> forall o | o in obsolete :: o !in files && o !in rows
      ensures forall k | k != key && k !in obsolete :: SameAt(old(files), files, k) && SameAt(old(rows), rows, k)
    {
      hide Step;
      hide Run;
      written, events := false, [];
      ghost var s := Snapshot(nextFace, Idle);
      EmptyRun(s);
      if * {
        return;
      }
      RemoveFile(key, nextFace);
      events := Extended(s, events, StartPublishing(key));
      var registered := Register(key, now, nextFace);
      if !registered {
        StopIdles(Snapshot(nextFace, Removed(key)));
        events := Extended(s, events, Stop);
        return;
      }
      events := Extended(s, events, Event.Register(now));
      var cacheable := true;
      for i := 0 to |obsolete|
        invariant Snapshot(nextFace, Registered(key)) == Run(s, events)
        invariant forall e | e in events :: MovesFiles(e)
        invariant key in rows && key !in files
        invariant cacheable ==> forall j | 0 <= j < i :: obsolete[j] !in files && obsolete[j] !in rows
        invariant forall k | k != key && k !in obsolete :: SameAt(old(files), files, k) && SameAt(old(rows), rows, k)
      {
        ghost var more;
        var ok;
        ok, more := RetireLegacy(key, obsolete[i], nextFace);
        RunsJoin(s, events, more);
        events := events + more;
        cacheable := cacheable && ok;
      }
      if cacheable {
        written := WriteFile(key, nextFace);
        events := Extended(s, events, if written then Write else Stop);
      } else {
        StopIdles(Snapshot(nextFace, Registered(key)));
        events := Extended(s, events, Stop);
      }
    }

    /** A lookup takes no lock: the clock is read again when the bytes are there, `passed` seconds later. */
    method Read(key: Key, passed: nat) returns (shown: bool)
      ensures shown <==> Served(Snapshot(0, Idle).(clock := clock + passed), key)
    {
      if key !in rows {
        return false;
      }
      var expires := rows[key];
      if expires > 0 && expires <= clock {
        return false;
      }
      shown := key in files;
      if expires > 0 && expires <= clock + passed {
        shown := false;
      }
    }

    predicate IsPinned(k: Key)
      reads `faces
    {
      k.face in faces && Pinned(faces[k.face])
    }

    /** Checks the row once more, removes the file and then the row. */
    method Remove(k: Key, now: int) returns (outcome: Outcome)
      modifies `rows, `files, `legacy
      ensures outcome == Skipped <==> !(k in old(rows) && 0 < old(rows)[k] <= now && !IsPinned(k))
      ensures rows == old(rows) - (if outcome == Gone then {k} else {})
      ensures files == old(files) - (if outcome == Gone || outcome == RowLeft then {k} else {})
    {
      if !(k in rows && 0 < rows[k] <= now) || IsPinned(k) {
        return Skipped;
      }
      if * {
        return FileLeft;
      }
      files := files - {k};
      legacy := legacy - {k};
      if * {
        return RowLeft;
      }
      rows := rows - {k};
      outcome := Gone;
    }

    /**
     * One batch in the order of the deadlines. An entry whose file or row cannot be removed stays for the next purge,
     * and does not hold up the entries after it; a cancellation or an error of the database ends the batch at any
     * entry.
     */
    method PurgeExpiredBatch(now: int, cursor: Expiry) returns (n: nat, next: Expiry, done: Purged, ended: bool)
      modifies `rows, `files, `legacy
      ensures rows == old(rows) - done.gone && files == old(files) - done.unlinked
      ensures Progress(old(rows), faces, now, cursor, next, done)
      ensures next == cursor || (Before(cursor, next) && next in Due(old(rows), now, cursor))
      ensures !ended && n < BATCH ==> Due(old(rows), now, next) == {}
      ensures ended ==> n == 0
      ensures n <= BATCH && (n == BATCH ==> next != cursor)
    {
      hide Progress;
      NothingYet(rows, faces, now, cursor);
      n, next, done, ended := 0, cursor, Purged({}, {}, {}), false;
      if * {
        ended := true;
        return;
      }
      var due := DueKeys(rows, now, cursor);
      while due != {} && n < BATCH
        invariant rows == old(rows) - done.gone && files == old(files) - done.unlinked
        invariant due == Due(old(rows), now, next) && n <= BATCH && !ended
        invariant next == cursor || (Before(cursor, next) && next in Due(old(rows), now, cursor))
        invariant n > 0 ==> next != cursor
        invariant Progress(old(rows), faces, now, cursor, next, done)
        decreases BATCH - n
      {
        if * {
          n, ended := 0, true;
          return;
        }
        var entry := Earliest(due);
        DueAfter(old(rows), now, next, entry);
        due := due - {entry};
        NotYetGone(old(rows), faces, now, cursor, next, done, entry);
        var outcome := Remove(entry.key, now);
        OneMore(old(rows), faces, now, cursor, next, done, entry, outcome);
        done := After(done, entry.key, outcome);
        next := entry;
        n := n + 1;
      }
    }

    /**
     * Every expired file and its row are gone, except those of pinned faces and those that could not be removed; the
     * latter keep their row, so that the next purge tries again. Nothing else is touched. A purge that was cancelled or
     * met an error of the database has not come to the previews that expired last.
     */
    method PurgeExpired(now: int) returns (done: Purged, complete: bool)
      modifies `rows, `files, `legacy
      ensures rows == old(rows) - done.gone && files == old(files) - done.unlinked
      ensures done.gone <= done.unlinked && done.failed !! done.gone && done.unlinked <= done.gone + done.failed
      ensures forall k | k in done.gone + done.failed :: k in old(rows) && 0 < old(rows)[k] <= now && !IsPinned(k)
      ensures forall k | k in old(rows) && 0 < old(rows)[k] <= now && !IsPinned(k) && k !in done.gone + done.failed ::
                !complete && IsAfterAll(old(rows), done.gone + done.failed, k)
    {
      hide Due;
      hide Progress;
      hide Before;
      var cursor := Expiry(0, Key(0, 0));
      NothingYet(rows, faces, now, cursor);
      done, complete := Purged({}, {}, {}), true;
      ghost var start := cursor;
      var n := BATCH;
      while n == BATCH
        invariant rows == old(rows) - done.gone && files == old(files) - done.unlinked
        invariant Progress(old(rows), faces, now, start, cursor, done)
        invariant complete && n < BATCH ==> Due(old(rows), now, cursor) == {}
        invariant n <= BATCH
        decreases n == BATCH, Due(old(rows), now, cursor)
      {
        var next, more, ended;
        ghost var was := rows;
        n, next, more, ended := PurgeExpiredBatch(now, cursor);
        Joined(old(rows), was, faces, now, start, cursor, next, done, more);
        if next != cursor {
          DueShrinks(old(rows), now, cursor, next);
        }
        cursor, done := next, Purged(done.gone + more.gone, done.unlinked + more.unlinked, done.failed + more.failed);
        complete := !ended;
        if n == BATCH {
          if * {
            complete := false;
            break;
          }
        }
      }
      AllHandled(old(rows), faces, now, start, cursor, done);
    }
  }

  const BATCH: nat := 100

  datatype Outcome = Skipped | FileLeft | RowLeft | Gone

  datatype Purged = Purged(gone: set<Key>, unlinked: set<Key>, failed: set<Key>)

  function After(done: Purged, k: Key, outcome: Outcome): Purged {
    match outcome
    case Skipped => done
    case FileLeft => done.(failed := done.failed + {k})
    case RowLeft => done.(unlinked := done.unlinked + {k}, failed := done.failed + {k})
    case Gone => done.(gone := done.gone + {k}, unlinked := done.unlinked + {k})
  }

  predicate Removable(rows: map<Key, int>, faces: map<int, Face>, now: int, k: Key) {
    k in rows && 0 < rows[k] <= now && !(k.face in faces && Pinned(faces[k.face]))
  }

  /** What lies after `from` and not after `next` has been handled, and nothing else. */
  ghost predicate Progress(rows: map<Key, int>, faces: map<int, Face>, now: int, from: Expiry, next: Expiry,
                           done: Purged)
  {
    && done.gone <= done.unlinked && done.failed !! done.gone && done.unlinked <= done.gone + done.failed
    && (from == next || Before(from, next))
    && forall k :: k in done.gone + done.failed <==> Passed(rows, faces, now, from, next, k)
  }

  ghost predicate Passed(rows: map<Key, int>, faces: map<int, Face>, now: int, from: Expiry, next: Expiry, k: Key) {
    Removable(rows, faces, now, k) && Before(from, Expiry(rows[k], k)) && !Before(next, Expiry(rows[k], k))
  }

  lemma NothingYet(rows: map<Key, int>, faces: map<int, Face>, now: int, from: Expiry)
    ensures Progress(rows, faces, now, from, from, Purged({}, {}, {}))
  {}

  lemma DueShrinks(rows: map<Key, int>, now: int, cursor: Expiry, next: Expiry)
    requires Before(cursor, next) && next in Due(rows, now, cursor)
    ensures Due(rows, now, next) < Due(rows, now, cursor)
  {}

  lemma DueAfter(rows: map<Key, int>, now: int, cursor: Expiry, entry: Expiry)
    requires entry in Due(rows, now, cursor) && forall x | x in Due(rows, now, cursor) :: x == entry || Before(entry, x)
    ensures Due(rows, now, entry) == Due(rows, now, cursor) - {entry}
  {
    forall x ensures x in Due(rows, now, entry) <==> x in Due(rows, now, cursor) - {entry} {}
  }

  lemma NotYetGone(rows: map<Key, int>, faces: map<int, Face>, now: int, from: Expiry, next: Expiry, done: Purged,
                   entry: Expiry)
    requires Progress(rows, faces, now, from, next, done) && entry in Due(rows, now, next)
    ensures entry.key !in done.gone + done.failed
  {
    assert !Passed(rows, faces, now, from, next, entry.key);
  }

  lemma OneMore(rows: map<Key, int>, faces: map<int, Face>, now: int, from: Expiry, next: Expiry, done: Purged,
                entry: Expiry,
                outcome: Outcome)
    requires Progress(rows, faces, now, from, next, done) && entry in Due(rows, now, next)
    requires Due(rows, now, entry) == Due(rows, now, next) - {entry}
    requires outcome == Skipped <==> !Removable(rows, faces, now, entry.key)
    ensures Progress(rows, faces, now, from, entry, After(done, entry.key, outcome))
  {
    NotYetGone(rows, faces, now, from, next, done, entry);
    var more := After(done, entry.key, outcome);
    forall k ensures k in more.gone + more.failed <==> Passed(rows, faces, now, from, entry, k) {
      assert k in done.gone + done.failed <==> Passed(rows, faces, now, from, next, k);
      if Removable(rows, faces, now, k) {
        var x := Expiry(rows[k], k);
        assert x in Due(rows, now, entry) <==> x in Due(rows, now, next) && x != entry;
      }
    }
  }

  lemma SameDue(rows: map<Key, int>, left: map<Key, int>, faces: map<int, Face>, now: int, from: Expiry, cursor: Expiry,
                next: Expiry,
                done: Purged)
    requires Progress(rows, faces, now, from, cursor, done) && left == rows - done.gone
    requires cursor == next || Before(cursor, next)
    ensures Due(left, now, next) == Due(rows, now, next)
  {
    forall x | x in Due(rows, now, next) ensures x in Due(left, now, next) {
      assert Before(cursor, x);
      assert x.key in done.gone + done.failed <==> Passed(rows, faces, now, from, cursor, x.key);
      assert Expiry(left[x.key], x.key) == x;
    }
    forall x | x in Due(left, now, next) ensures x in Due(rows, now, next) {}
  }

  lemma Joined(rows: map<Key, int>, left: map<Key, int>, faces: map<int, Face>, now: int, from: Expiry, cursor: Expiry,
               next: Expiry,
               done: Purged, more: Purged)
    requires Progress(rows, faces, now, from, cursor, done) && left == rows - done.gone
    requires Progress(left, faces, now, cursor, next, more)
    ensures Progress(rows, faces, now, from, next,
                     Purged(done.gone + more.gone, done.unlinked + more.unlinked, done.failed + more.failed))
    ensures Due(left, now, next) == Due(rows, now, next) && Due(left, now, cursor) == Due(rows, now, cursor)
  {
    var all := Purged(done.gone + more.gone, done.unlinked + more.unlinked, done.failed + more.failed);
    forall k ensures k in all.gone + all.failed <==> Passed(rows, faces, now, from, next, k) {
      assert k in more.gone + more.failed <==> Passed(left, faces, now, cursor, next, k);
      assert k in done.gone + done.failed <==> Passed(rows, faces, now, from, cursor, k);
    }
    SameDue(rows, left, faces, now, from, cursor, cursor, done);
    SameDue(rows, left, faces, now, from, cursor, next, done);
  }

  /** The keys in `handled` expire before `k`. */
  ghost predicate IsAfterAll(rows: map<Key, int>, handled: set<Key>, k: Key) {
    k in rows && forall h | h in handled :: h in rows && Before(Expiry(rows[h], h), Expiry(rows[k], k))
  }

  lemma AllHandled(rows: map<Key, int>, faces: map<int, Face>, now: int, from: Expiry, cursor: Expiry, done: Purged)
    requires Progress(rows, faces, now, from, cursor, done) && from.expires == 0
    ensures done.gone <= done.unlinked && done.failed !! done.gone && done.unlinked <= done.gone + done.failed
    ensures forall k | k in done.gone + done.failed :: Removable(rows, faces, now, k)
    ensures forall k | Removable(rows, faces, now, k) && k !in done.gone + done.failed ::
              Due(rows, now, cursor) != {} && IsAfterAll(rows, done.gone + done.failed, k)
  {
    forall k | k in done.gone + done.failed ensures Removable(rows, faces, now, k) {
      assert Passed(rows, faces, now, from, cursor, k);
    }
    forall k | Removable(rows, faces, now, k) && k !in done.gone + done.failed
      ensures Due(rows, now, cursor) != {} && IsAfterAll(rows, done.gone + done.failed, k)
    {
      assert !Passed(rows, faces, now, from, cursor, k);
      assert Expiry(rows[k], k) in Due(rows, now, cursor);
      forall h | h in done.gone + done.failed ensures h in rows && Before(Expiry(rows[h], h), Expiry(rows[k], k)) {
        assert Passed(rows, faces, now, from, cursor, h);
      }
    }
  }
}
