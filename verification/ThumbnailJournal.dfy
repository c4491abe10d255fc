/** The inventory of previews as a journal of deletions: what holds at every point of every run. */
module ThumbnailJournal {
  import opened ThumbnailTables

  function Max(a: int, b: int): int {
    if a < b then b else a
  }

  /** The deadline of one row is right for its face. */
  predicate RowSound(s: State, k: Key)
    requires k in s.rows
  {
    var d := s.rows[k];
    && 0 <= d <= s.clock + LIFETIME
    && k.face < s.nextFace
    && (k.face !in s.faces ==> 0 < d <= s.clock)
    && (k.face in s.faces && Pinned(s.faces[k.face]) ==> d == 0)
    && (k.face in s.faces && !s.faces[k.face].ignored ==> d <= s.clock)
    && (k.face in s.faces && k in s.files && s.clock < d ==> d <= Max(s.files[k], s.faces[k.face].since) + LIFETIME)
  }

  /** Where the writer that holds the lock stands. */
  predicate JobSound(s: State) {
    match s.job
    case Idle => true
    case Removed(k) => k !in s.files
    case Registered(k) => k !in s.files && k in s.rows
    case Retired(k, o) => k !in s.files && k in s.rows && o !in s.files && o != k
    case Reserved(k) => k in s.rows
    case Unlinked(k) => k in s.rows && k !in s.files
  }

  ghost predicate Inventoried(s: State) {
    forall k | k in s.files :: k in s.rows || k in s.legacy
  }

  ghost predicate Sound(s: State) {
    && 0 < s.clock && 0 < s.legacyDeadline
    && (forall f | f in s.faces :: f < s.nextFace)
    && Inventoried(s)
    && JobSound(s)
    && (forall k | k in s.rows :: RowSound(s, k))
  }

  /** Every preview of an ignored face that is neither under review nor retained has a deadline. */
  ghost predicate Limited(s: State) {
    forall k | k in s.rows && k.face in s.faces && s.faces[k.face].ignored && !Pinned(s.faces[k.face]) :: 0 < s.rows[k]
  }

  /** The steps that leave an ignored face with previews that are kept for good. */
  ghost predicate LosesDeadline(s: State, e: Event) {
    && Enabled(s, e)
    && ((e.EndReview? && s.faces[e.face].ignored && HasRow(s, e.face))
        || (e.Publish? && s.faces[e.face].ignored && !e.review && !s.faces[e.face].review && HasRow(s, e.face)))
  }

  ghost predicate HasRow(s: State, f: int) {
    exists k :: k in s.rows && k.face == f
  }

  lemma FileStepKeeps(s: State, e: Event)
    requires Sound(s) && Enabled(s, e) && MovesFiles(e)
    ensures Sound(FileStep(s, e))
  {
    var t := FileStep(s, e);
    forall k | k in t.rows ensures RowSound(t, k) {
      if k in s.rows {
        assert RowSound(s, k);
      }
      match e
      case Register(_) =>
      case Write =>
      case Adopt(_) =>
      case _ =>
    }
  }

  lemma FaceStepKeepsFiles(s: State, e: Event)
    requires Sound(s) && Enabled(s, e) && !MovesFiles(e)
    ensures var t := FaceStep(s, e);
      && t.rows.Keys == s.rows.Keys && t.files == s.files && t.legacy == s.legacy && t.job == s.job
      && t.legacyDeadline == s.legacyDeadline && t.clock >= s.clock
      && forall f | f in t.faces :: f < t.nextFace
  {
    hide RowSound;
  }

  lemma FaceStepKeepsRow(s: State, e: Event, k: Key)
    requires Enabled(s, e) && !MovesFiles(e) && 0 < s.clock && k in s.rows && RowSound(s, k)
    ensures k in FaceStep(s, e).rows && RowSound(FaceStep(s, e), k)
  {}

  lemma FaceStepKeeps(s: State, e: Event)
    requires Sound(s) && Enabled(s, e) && !MovesFiles(e)
    ensures Sound(FaceStep(s, e))
  {
    hide FaceStep;
    hide RowSound;
    var t := FaceStep(s, e);
    FaceStepKeepsFiles(s, e);
    forall k | k in t.rows ensures RowSound(t, k) {
      FaceStepKeepsRow(s, e, k);
    }
  }

  lemma StepKeepsSound(s: State, e: Event)
    requires Sound(s)
    ensures Sound(Step(s, e))
  {
    if Enabled(s, e) {
      if MovesFiles(e) {
        FileStepKeeps(s, e);
      } else {
        FaceStepKeeps(s, e);
      }
    }
  }

  /** A cache directory from before the inventory. */
  ghost predicate Start(s: State) {
    && 0 < s.clock && 0 < s.legacyDeadline
    && (forall f | f in s.faces :: f < s.nextFace)
    && s.rows == map[] && s.files.Keys == s.legacy && s.job == Idle
  }

  /**
   * At every point of every run, and so wherever a crash stops it: a file the cache wrote has an inventory
   * row, the file of a face that is gone has expired, and no deadline to come is later than two days after
   * the later of writing the file and ignoring the face.
   */
  lemma {:induction false} RunKeepsSound(s: State, events: seq<Event>)
    requires Sound(s)
    ensures Sound(Run(s, events))
    decreases |events|
  {
    if events != [] {
      StepKeepsSound(s, events[0]);
      RunKeepsSound(Step(s, events[0]), events[1..]);
    }
  }

  lemma {:induction false} AlwaysSound(s: State, events: seq<Event>)
    requires Start(s)
    ensures Sound(Run(s, events))
  {
    RunKeepsSound(s, events);
  }

  lemma FileStepKeepsLimited(s: State, e: Event)
    requires Sound(s) && Limited(s) && Enabled(s, e) && MovesFiles(e)
    ensures Limited(FileStep(s, e))
  {}

  lemma FaceStepKeepsLimited(s: State, e: Event)
    requires Sound(s) && Limited(s) && Enabled(s, e) && !MovesFiles(e) && !LosesDeadline(s, e)
    ensures Limited(FaceStep(s, e))
  {
    var t := FaceStep(s, e);
    forall k | k in t.rows && k.face in t.faces && t.faces[k.face].ignored && !Pinned(t.faces[k.face])
      ensures 0 < t.rows[k]
    {
      assert RowSound(s, k);
    }
  }

  /** Which steps keep the deadlines of ignored faces, exactly. */
  lemma StepKeepsLimitedExactly(s: State, e: Event)
    requires Sound(s) && Limited(s)
    ensures Limited(Step(s, e)) <==> !LosesDeadline(s, e)
  {
    if LosesDeadline(s, e) {
      var k :| k in s.rows && k.face == e.face;
      assert RowSound(s, k);
      assert Step(s, e).rows[k] == 0;
    } else if Enabled(s, e) {
      if MovesFiles(e) {
        FileStepKeepsLimited(s, e);
      } else {
        FaceStepKeepsLimited(s, e);
      }
    }
  }

  ghost predicate Careful(s: State, events: seq<Event>)
    decreases |events|
  {
    events == [] || (!LosesDeadline(s, events[0]) && Careful(Step(s, events[0]), events[1..]))
  }

  lemma {:induction false} CarefulRunKeepsLimits(s: State, events: seq<Event>)
    requires Sound(s) && Limited(s) && Careful(s, events)
    ensures Sound(Run(s, events)) && Limited(Run(s, events))
    decreases |events|
  {
    if events != [] {
      StepKeepsSound(s, events[0]);
      StepKeepsLimitedExactly(s, events[0]);
      CarefulRunKeepsLimits(Step(s, events[0]), events[1..]);
    }
  }

  /**
   * After such a run, whatever is shown of an ignored face is less than two days old, and nothing is shown of a face
   * that is gone.
   */
  lemma ServedIsYoung(s: State, events: seq<Event>, k: Key)
    requires Start(s) && Careful(s, events)
    ensures var t := Run(s, events); Served(t, k) ==>
      && k.face in t.faces
      && (t.faces[k.face].ignored && !Pinned(t.faces[k.face]) ==>
           t.clock < Max(t.files[k], t.faces[k.face].since) + 2 * 24 * 60 * 60)
  {
    CarefulRunKeepsLimits(s, events);
    var t := Run(s, events);
    if Served(t, k) {
      assert RowSound(t, k);
    }
  }

  /** Events that are about face `f`. */
  predicate Concerns(e: Event, f: int) {
    match e
    case Ignore(g) => g == f
    case Unignore(g) => g == f
    case StartReview(g) => g == f
    case EndReview(g) => g == f
    case Accept(g) => g == f
    case Hide(g) => g == f
    case ChangeHidden(g, _) => g == f
    case Restore(g) => g == f
    case Publish(g, _) => g == f
    case Delete(g) => g == f
    case Purge(g) => g == f
    case ClearFaces => true
    case _ => false
  }

  /** The file is there all along. */
  ghost predicate Stays(s: State, events: seq<Event>, k: Key)
    decreases |events|
  {
    k in s.files && (events == [] || Stays(Step(s, events[0]), events[1..], k))
  }

  lemma StepKeepsDeadline(s: State, e: Event, k: Key)
    requires Sound(s) && k in s.rows && k in s.files && k in Step(s, e).files && !Concerns(e, k.face)
    ensures k in Step(s, e).rows && Step(s, e).rows[k] == s.rows[k]
  {
    hide RowSound;
    if Enabled(s, e) {
      if MovesFiles(e) {
        FileStepKeepsDeadline(s, e, k);
      } else {
        FaceStepKeepsDeadline(s, e, k);
      }
    }
  }

  lemma FileStepKeepsDeadline(s: State, e: Event, k: Key)
    requires JobSound(s) && Enabled(s, e) && MovesFiles(e) && k in s.rows && k in s.files && k in FileStep(s, e).files
    ensures k in FileStep(s, e).rows && FileStep(s, e).rows[k] == s.rows[k]
  {}

  lemma FaceStepKeepsDeadline(s: State, e: Event, k: Key)
    requires Enabled(s, e) && !MovesFiles(e) && k in s.rows && !Concerns(e, k.face)
    ensures k in FaceStep(s, e).rows && FaceStep(s, e).rows[k] == s.rows[k]
  {}

  /**
   * Lookups, publishing, re-registration, purging and events about other faces never move the deadline of bytes that
   * are there.
   */
  lemma {:induction false} DeadlineStaysWithBytes(s: State, events: seq<Event>, k: Key)
    requires Sound(s) && k in s.rows && Stays(s, events, k)
    requires forall e | e in events :: !Concerns(e, k.face)
    ensures k in Run(s, events).rows && Run(s, events).rows[k] == s.rows[k]
    decreases |events|
  {
    if events != [] {
      assert events[0] in events;
      StepKeepsDeadline(s, events[0], k);
      StepKeepsSound(s, events[0]);
      forall e | e in events[1..] ensures !Concerns(e, k.face) {
        assert e in events;
      }
      DeadlineStaysWithBytes(Step(s, events[0]), events[1..], k);
    }
  }

  /** What a purge has reserved has expired and is not pinned. */
  ghost predicate Reserves(s: State) {
    s.job.Reserved? ==>
      && s.job.key in s.rows && 0 < s.rows[s.job.key] <= s.clock
      && (s.job.key.face in s.faces ==> !s.faces[s.job.key.face].retained && !s.faces[s.job.key.face].review)
  }

  lemma StepKeepsReserved(s: State, e: Event)
    requires Reserves(s)
    ensures Reserves(Step(s, e))
  {}

  lemma {:induction false} RunKeepsReserved(s: State, events: seq<Event>)
    requires Reserves(s)
    ensures Reserves(Run(s, events))
    decreases |events|
  {
    if events != [] {
      StepKeepsReserved(s, events[0]);
      hide Step;
      RunKeepsReserved(Step(s, events[0]), events[1..]);
    }
  }

  /** Whatever else happens between the check and the unlinking, a purge takes away only previews whose deadline has
      passed, and none of a face that is under review or retained. */
  lemma OnlyExpiredIsPurged(s: State, events: seq<Event>)
    requires Start(s) && Enabled(Run(s, events), Unlink)
    ensures var t := Run(s, events); var k := t.job.key;
      && k in t.rows && 0 < t.rows[k] <= t.clock
      && (k.face in t.faces ==> !t.faces[k.face].retained && !t.faces[k.face].review)
      && Step(t, Unlink).files == t.files - {k}
  {
    RunKeepsReserved(s, events);
  }

  /** An expired preview can always be purged: what pins a face also takes away its deadlines. */
  lemma ExpiredCanBePurged(s: State, k: Key)
    requires Sound(s) && s.job.Idle? && k in s.rows && 0 < s.rows[k] <= s.clock
    ensures var t := Run(s, [StartPurging(k, s.clock), Unlink, Forget]);
      t == s.(rows := s.rows - {k}, files := s.files - {k}, legacy := s.legacy - {k})
  {
    assert RowSound(s, k);
    PurgeSteps(s, k);
    ThreeSteps(s, StartPurging(k, s.clock), Unlink, Forget);
  }

  lemma PurgeSteps(s: State, k: Key)
    requires s.job.Idle? && Enabled(s, StartPurging(k, s.clock))
    ensures Step(Step(Step(s, StartPurging(k, s.clock)), Unlink), Forget)
         == s.(rows := s.rows - {k}, files := s.files - {k}, legacy := s.legacy - {k})
  {}

  lemma ThreeSteps(s: State, a: Event, b: Event, c: Event)
    ensures Run(s, [a, b, c]) == Step(Step(Step(s, a), b), c)
  {
    assert [a, b, c][1..] == [b, c] && [b, c][1..] == [c] && [c][1..] == [];
    assert Run(Step(Step(Step(s, a), b), c), []) == Step(Step(Step(s, a), b), c);
    assert Run(Step(Step(s, a), b), [c]) == Step(Step(Step(s, a), b), c);
    assert Run(Step(s, a), [b, c]) == Run(Step(Step(s, a), b), [c]);
  }

  lemma ReviewLeavesPreview(s: State, f: int, k: Key, wait: nat)
    requires Sound(s) && s.job.Idle? && Live(s, f) && s.faces[f].ignored && !s.faces[f].review
    requires k in s.rows && k in s.files && k.face == f
    ensures var t := Step(Step(Step(s, StartReview(f)), EndReview(f)), Tick(wait));
      t.clock == s.clock + wait && KeptForGood(t, f, k)
  {
    var a := WithFace(s, f, s.faces[f].(review := true)).(rows := Timed(s.rows, f, 0));
    assert Enabled(s, StartReview(f)) && Step(s, StartReview(f)) == a;
    assert Enabled(a, EndReview(f));
    var b := Step(a, EndReview(f));
    assert b.rows == a.rows && b.files == s.files && b.clock == s.clock;
  }

  lemma PrivacyLeavesPreview(s: State, f: int, k: Key, wait: nat)
    requires Sound(s) && s.job.Idle? && Live(s, f) && s.faces[f].ignored && !s.faces[f].review
    requires k in s.rows && k in s.files && k.face == f
    ensures var t := Step(Step(Step(s, Hide(f)), Publish(f, false)), Tick(wait));
      t.clock == s.clock + wait && KeptForGood(t, f, k)
  {
    var a := WithFace(s, f, s.faces[f].(retained := true)).(rows := Timed(s.rows, f, 0));
    assert Enabled(s, Hide(f)) && Step(s, Hide(f)) == a;
    assert Enabled(a, Publish(f, false));
    var b := Step(a, Publish(f, false));
    assert b.rows == a.rows && b.files == s.files && b.clock == s.clock;
  }

  /** The face is ignored and neither under review nor retained, and its preview is shown without a deadline. */
  predicate KeptForGood(s: State, f: int, k: Key) {
    Live(s, f) && s.faces[f].ignored && !Pinned(s.faces[f]) && Served(s, k) && s.rows[k] == 0
  }

  /**
   * An ignored face whose photo was under review, or was private, for a while keeps its preview for good, however
   * long one waits: ending the review and showing the photo again leave the deadline at 0.
   */
  lemma IgnoredPreviewKeptForGood(s: State, f: int, k: Key, private: bool, wait: nat)
    requires Sound(s) && s.job.Idle? && Live(s, f) && s.faces[f].ignored && !s.faces[f].review
    requires k in s.rows && k in s.files && k.face == f
    ensures var t :=
      Run(s, if private then [Hide(f), Publish(f, false), Tick(wait)] else [StartReview(f), EndReview(f), Tick(wait)]);
      t.clock == s.clock + wait && KeptForGood(t, f, k)
  {
    hide Step;
    hide Sound;
    hide KeptForGood;
    if private {
      ThreeSteps(s, Hide(f), Publish(f, false), Tick(wait));
      PrivacyLeavesPreview(s, f, k, wait);
    } else {
      ThreeSteps(s, StartReview(f), EndReview(f), Tick(wait));
      ReviewLeavesPreview(s, f, k, wait);
    }
  }
}
