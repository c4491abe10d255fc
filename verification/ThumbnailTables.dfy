/**
 * The stored previews of faces: the files, the inventory row that every file has, and the steps that
 * change them. Writers hold one lock, so at most one of them is in the middle of its work.
 */
module ThumbnailTables {
  const LIFETIME := 172800

  /** `since`: when the face was last ignored or came back from retention. */
  datatype Face = Face(ignored: bool, review: bool, retained: bool, since: int)

  /** The cached file of one face; `crop` stands for the size, the source and the format. */
  datatype Key = Key(face: int, crop: int)

  datatype Job =
    | Idle
    | Removed(key: Key)
    | Registered(key: Key)
    | Retired(key: Key, obsolete: Key)
    | Reserved(key: Key)
    | Unlinked(key: Key)

  /**
   * `rows` maps a key to its deadline, 0 meaning none. `files` maps a key to the moment its lifetime
   * counts from: when it was written, or when a file older than the inventory was taken in.
   */
  datatype State = State(clock: int, faces: map<int, Face>, nextFace: int, rows: map<Key, int>, files: map<Key, int>,
                         legacy: set<Key>, upperId: int, legacyDeadline: int, job: Job)

  datatype Event =
    | Tick(seconds: nat)
    | StartPublishing(key: Key)
    | Register(now: int)
    | RetireFile(obsolete: Key)
    | RetireRow
    | LeaveRow
    | Write
    | Stop
    | StartPurging(key: Key, now: int)
    | Unlink
    | Forget
    | Adopt(key: Key)
    | Detect(ignored: bool)
    | Ignore(face: int)
    | Unignore(face: int)
    | StartReview(face: int)
    | EndReview(face: int)
    | Accept(face: int)
    | Hide(face: int)
    | ChangeHidden(face: int, review: bool)
    | Restore(face: int)
    | Publish(face: int, review: bool)
    | Delete(face: int)
    | Purge(face: int)
    | ClearFaces

  predicate Live(s: State, f: int) {
    f in s.faces && !s.faces[f].retained
  }

  /** The bytes are kept whatever the deadline: they may be all that is left of the original. */
  predicate Pinned(f: Face) {
    f.retained || f.review
  }

  predicate Expires(f: Face) {
    f.ignored && !f.review
  }

  function Timed(rows: map<Key, int>, f: int, deadline: int): map<Key, int> {
    map k | k in rows :: if k.face == f then deadline else rows[k]
  }

  /** The deadline a row gets when its file is about to be published. */
  function RegisteredDeadline(rows: map<Key, int>, k: Key, f: Face, now: int): int {
    if !Expires(f) then 0 else if k in rows && rows[k] > now then rows[k] else now + LIFETIME
  }

  function AdoptedDeadline(s: State, k: Key, f: Face): int {
    if !f.ignored || Pinned(f) then 0
    else if k.face <= s.upperId && s.legacyDeadline <= s.clock + LIFETIME then s.legacyDeadline
    else s.clock + LIFETIME
  }

  /** A purge has reserved the database for writing. */
  predicate Locked(s: State) {
    s.job.Reserved? || s.job.Unlinked?
  }

  predicate Enabled(s: State, e: Event) {
    match e
    case Tick(_) => true
    case Stop => true
    case StartPublishing(_) => s.job.Idle?
    case Register(now) => s.job.Removed? && 0 < now <= s.clock && Live(s, s.job.key.face)
    case RetireFile(o) => s.job.Registered? && o != s.job.key && o.face == s.job.key.face
    case RetireRow => s.job.Retired?
    case LeaveRow => s.job.Retired?
    case Write => s.job.Registered?
    case StartPurging(k, now) =>
      s.job.Idle? && now <= s.clock && k in s.rows && 0 < s.rows[k] <= now
        && !(k.face in s.faces && Pinned(s.faces[k.face]))
    case Unlink => s.job.Reserved?
    case Forget => s.job.Unlinked?
    case Adopt(k) => s.job.Idle? && k in s.files && k !in s.rows && k.face in s.faces
    case Detect(_) => !Locked(s)
    case Ignore(f) => !Locked(s) && Live(s, f) && !s.faces[f].ignored
    case Unignore(f) => !Locked(s) && Live(s, f) && s.faces[f].ignored
    case StartReview(f) => !Locked(s) && Live(s, f) && !s.faces[f].review
    case EndReview(f) => !Locked(s) && Live(s, f) && s.faces[f].review
    case Accept(f) => !Locked(s) && Live(s, f) && s.faces[f].review
    case Hide(f) => !Locked(s) && Live(s, f)
    case ChangeHidden(f, _) => !Locked(s) && f in s.faces && s.faces[f].retained
    case Restore(f) => !Locked(s) && f in s.faces && s.faces[f].retained
    case Publish(f, _) => !Locked(s) && f in s.faces && s.faces[f].retained
    case Delete(f) => !Locked(s) && Live(s, f)
    case Purge(f) => !Locked(s) && f in s.faces && s.faces[f].retained
    case ClearFaces => !Locked(s)
  }

  /** What happens to a file and its row while a preview is published, purged or taken in. */
  function FileStep(s: State, e: Event): State
    requires Enabled(s, e)
  {
    match e
    case StartPublishing(k) => s.(files := s.files - {k}, legacy := s.legacy - {k}, job := Removed(k))
    case Register(now) =>
      var k := s.job.key;
      s.(rows := s.rows[k := RegisteredDeadline(s.rows, k, s.faces[k.face], now)], job := Registered(k))
    case RetireFile(o) => s.(files := s.files - {o}, legacy := s.legacy - {o}, job := Retired(s.job.key, o))
    case RetireRow => s.(rows := s.rows - {s.job.obsolete}, job := Registered(s.job.key))
    case LeaveRow => s.(job := Registered(s.job.key))
    case Write => s.(files := s.files[s.job.key := s.clock], job := Idle)
    case Stop => s.(job := Idle)
    case StartPurging(k, _) => s.(job := Reserved(k))
    case Unlink => s.(files := s.files - {s.job.key}, legacy := s.legacy - {s.job.key}, job := Unlinked(s.job.key))
    case Forget => s.(rows := s.rows - {s.job.key}, job := Idle)
    case Adopt(k) =>
      s.(rows := s.rows[k := AdoptedDeadline(s, k, s.faces[k.face])], files := s.files[k := s.clock],
        legacy := s.legacy - {k})
    case _ => s
  }

  function WithFace(s: State, f: int, face: Face): State {
    s.(faces := s.faces[f := face])
  }

  /** What happens to the rows of a face when the face changes: the triggers and the retention queries. */
  function FaceStep(s: State, e: Event): State
    requires Enabled(s, e)
  {
    match e
    case Tick(n) => s.(clock := s.clock + n)
    case Detect(ignored) => WithFace(s, s.nextFace, Face(ignored, false, false, s.clock)).(nextFace := s.nextFace + 1)
    case Ignore(f) =>
      var d := if s.faces[f].review then 0 else s.clock + LIFETIME;
      WithFace(s, f, s.faces[f].(ignored := true, since := s.clock)).(rows := Timed(s.rows, f, d))
    case Unignore(f) => WithFace(s, f, s.faces[f].(ignored := false)).(rows := Timed(s.rows, f, 0))
    case StartReview(f) => WithFace(s, f, s.faces[f].(review := true)).(rows := Timed(s.rows, f, 0))
    case EndReview(f) => WithFace(s, f, s.faces[f].(review := false))
    case Accept(f) => WithFace(s, f, s.faces[f].(review := false)).(rows := Timed(s.rows, f, s.clock))
    case Hide(f) => WithFace(s, f, s.faces[f].(retained := true)).(rows := Timed(s.rows, f, 0))
    case ChangeHidden(f, review) => WithFace(s, f, s.faces[f].(review := review))
    case Restore(f) =>
      var d := if Expires(s.faces[f]) then s.clock + LIFETIME else 0;
      WithFace(s, f, s.faces[f].(retained := false, since := s.clock)).(rows := Timed(s.rows, f, d))
    case Publish(f, review) =>
      var shown := WithFace(s, f, s.faces[f].(retained := false, review := review || s.faces[f].review));
      if review && !s.faces[f].review then shown.(rows := Timed(s.rows, f, 0)) else shown
    case Delete(f) => s.(faces := s.faces - {f}, rows := Timed(s.rows, f, s.clock))
    case Purge(f) => s.(faces := s.faces - {f}, rows := Timed(s.rows, f, s.clock))
    case ClearFaces => s.(faces := map[], rows := map k | k in s.rows :: s.clock)
    case _ => s
  }

  predicate MovesFiles(e: Event) {
    e.StartPublishing? || e.Register? || e.RetireFile? || e.RetireRow? || e.LeaveRow? || e.Write? || e.Stop?
      || e.StartPurging? || e.Unlink? ||
    e.Forget? || e.Adopt?
  }

  /** A step that cannot be taken changes nothing. */
  function Step(s: State, e: Event): State {
    if !Enabled(s, e) then s else if MovesFiles(e) then FileStep(s, e) else FaceStep(s, e)
  }

  function Run(s: State, events: seq<Event>): State
    decreases |events|
  {
    if events == [] then s else Run(Step(s, events[0]), events[1..])
  }

  /** What a lookup may show. */
  predicate Served(s: State, k: Key) {
    k in s.rows && k in s.files && !(0 < s.rows[k] <= s.clock)
  }
}
