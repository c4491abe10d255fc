/**
 * Automatic merging of face groups: which decisions of the user and which facts of the photos every run of merges
 * respects.
 */
module GroupMerges {
  /** A row of photo_faces, or of its retained twin when the photo is missing or private. */
  datatype Face = Face(person: int, path: string, directory: string, ignored: bool, live: bool)

  /** `rejected`: pairs of people that are not the same. `barred`: folders in which a person does not occur. */
  datatype State = State(people: set<int>, faces: map<int, Face>, rejected: set<(int, int)>, barred: set<(int, string)>)

  predicate Rejected(s: State, a: int, b: int) {
    (a, b) in s.rejected || (b, a) in s.rejected
  }

  /** Two faces that one photo shows, as the queries see them. */
  predicate SideBySide(f: Face, g: Face) {
    f.live && g.live && !f.ignored && !g.ignored && f.path == g.path
  }

  ghost predicate SeenTogether(s: State, a: int, b: int) {
    exists i, j ::
      i in s.faces && j in s.faces && SideBySide(s.faces[i], s.faces[j]) && s.faces[i].person == a
      && s.faces[j].person == b
  }

  ghost predicate Barred(s: State, f: int, p: int) {
    f in s.faces && s.faces[f].live && s.faces[f].person == p
  }

  /** The people a group must not be merged into. */
  ghost predicate Vetoed(s: State, source: int, p: int) {
    || p == source
    || SeenTogether(s, source, p)
    || (exists f :: Barred(s, f, source) && (p, s.faces[f].directory) in s.barred)
    || (exists f :: Barred(s, f, p) && (source, s.faces[f].directory) in s.barred)
    || Rejected(s, source, p)
  }

  function Heir(source: int, target: int, p: int): int {
    if p == source then target else p
  }

  function Inherited(pair: (int, int), source: int, target: int): (int, int) {
    (Heir(source, target, pair.0), Heir(source, target, pair.1))
  }

  /** The transaction; the triggers on photo_people remove what still names the source. */
  function Merge(s: State, source: int, target: int): State {
    State(
      s.people - {source},
      map f | f in s.faces :: s.faces[f].(person := Heir(source, target, s.faces[f].person)),
      set pair | pair in s.rejected :: Inherited(pair, source, target),
      set row | row in s.barred :: (Heir(source, target, row.0), row.1))
  }

  ghost predicate Sound(s: State) {
    && (forall pair | pair in s.rejected :: pair.0 != pair.1)
    && (forall f | f in s.faces :: s.faces[f].person in s.people)
  }

  /** No photo shows a person twice. */
  ghost predicate OncePerPhoto(s: State) {
    forall i, j | i in s.faces && j in s.faces && i != j && SideBySide(s.faces[i], s.faces[j]) ::
      s.faces[i].person != s.faces[j].person
  }

  ghost predicate FoldersRespected(s: State) {
    forall f | f in s.faces && s.faces[f].live :: (s.faces[f].person, s.faces[f].directory) !in s.barred
  }

  lemma MergeKeepsRejection(s: State, source: int, target: int, a: int, b: int)
    requires Sound(s) && !Vetoed(s, source, target) && Rejected(s, a, b)
    ensures Heir(source, target, a) != Heir(source, target, b)
    ensures Rejected(Merge(s, source, target), Heir(source, target, a), Heir(source, target, b))
  {
    if (a, b) in s.rejected {
      assert Inherited((a, b), source, target) in Merge(s, source, target).rejected;
    } else {
      assert Inherited((b, a), source, target) in Merge(s, source, target).rejected;
    }
  }

  lemma MergeKeepsSound(s: State, source: int, target: int)
    requires Sound(s) && !Vetoed(s, source, target) && target in s.people
    ensures Sound(Merge(s, source, target))
  {
    forall pair | pair in Merge(s, source, target).rejected ensures pair.0 != pair.1 {
      var was :| was in s.rejected && pair == Inherited(was, source, target);
      assert Rejected(s, was.0, was.1);
      MergeKeepsRejection(s, source, target, was.0, was.1);
    }
  }

  lemma MergeKeepsOncePerPhoto(s: State, source: int, target: int)
    requires OncePerPhoto(s) && !Vetoed(s, source, target)
    ensures OncePerPhoto(Merge(s, source, target))
  {
    var t := Merge(s, source, target);
    forall i, j | i in t.faces && j in t.faces && i != j && SideBySide(t.faces[i], t.faces[j])
      ensures t.faces[i].person != t.faces[j].person
    {
      assert SideBySide(s.faces[i], s.faces[j]) && SideBySide(s.faces[j], s.faces[i]);
    }
  }

  lemma MergeKeepsFolders(s: State, source: int, target: int)
    requires FoldersRespected(s) && !Vetoed(s, source, target)
    ensures FoldersRespected(Merge(s, source, target))
  {
    var t := Merge(s, source, target);
    forall f | f in t.faces && t.faces[f].live ensures (t.faces[f].person, t.faces[f].directory) !in t.barred {
      assert Barred(s, f, s.faces[f].person);
      if row :| row in s.barred && (Heir(source, target, row.0), row.1) == (t.faces[f].person, t.faces[f].directory) {
        assert row == (row.0, s.faces[f].directory);
      }
    }
  }

  // ---- runs ----

  ghost predicate Allowed(s: State, merges: seq<(int, int)>)
    decreases |merges|
  {
    merges == [] ||
    (var (source, target) := merges[0];
     && source in s.people && target in s.people && !Vetoed(s, source, target)
     && Allowed(Merge(s, source, target), merges[1..]))
  }

  function Run(s: State, merges: seq<(int, int)>): State
    decreases |merges|
  {
    if merges == [] then s else Run(Merge(s, merges[0].0, merges[0].1), merges[1..])
  }

  /** Who a person has become. */
  function Became(merges: seq<(int, int)>, p: int): int
    decreases |merges|
  {
    if merges == [] then p else Became(merges[1..], Heir(merges[0].0, merges[0].1, p))
  }

  /**
   * Over every run of automatic merges people that were rejected as one stay apart, no photo shows a person twice, and
   * nobody gets a face in a barred folder.
   */
  lemma {:induction false} RunRespectsDecisions(s: State, merges: seq<(int, int)>)
    requires Sound(s) && OncePerPhoto(s) && FoldersRespected(s) && Allowed(s, merges)
    ensures var t := Run(s, merges); Sound(t) && OncePerPhoto(t) && FoldersRespected(t)
    ensures forall a, b | Rejected(s, a, b) ::
      Became(merges, a) != Became(merges, b) && Rejected(Run(s, merges), Became(merges, a), Became(merges, b))
    decreases |merges|
  {
    if merges == [] {
      forall a, b | Rejected(s, a, b) ensures a != b {}
    } else {
      var source, target := merges[0].0, merges[0].1;
      MergeKeepsSound(s, source, target);
      MergeKeepsOncePerPhoto(s, source, target);
      MergeKeepsFolders(s, source, target);
      RunRespectsDecisions(Merge(s, source, target), merges[1..]);
      forall a, b | Rejected(s, a, b)
        ensures Became(merges, a) != Became(merges, b) && Rejected(Run(s, merges), Became(merges, a), Became(merges, b))
      {
        MergeKeepsRejection(s, source, target, a, b);
      }
    }
  }

  /** Faces only change hands, and each merge leaves one person less. */
  lemma {:induction false} RunKeepsFaces(s: State, merges: seq<(int, int)>)
    requires Allowed(s, merges)
    ensures var t := Run(s, merges);
      && t.faces.Keys == s.faces.Keys
      && (forall f | f in s.faces :: t.faces[f] == s.faces[f].(person := Became(merges, s.faces[f].person)))
      && |t.people| == |s.people| - |merges|
    decreases |merges|
  {
    if merges != [] {
      RunKeepsFaces(Merge(s, merges[0].0, merges[0].1), merges[1..]);
    }
  }

  // ---- what the queries do not see ----

  /** As `OncePerPhoto`, for the photos that are hidden or missing as well. */
  ghost predicate OnceAnywhere(s: State) {
    forall i, j | i in s.faces && j in s.faces && i != j && InOnePhoto(s.faces[i], s.faces[j]) ::
      s.faces[i].person != s.faces[j].person
  }

  predicate InOnePhoto(f: Face, g: Face) {
    !f.ignored && !g.ignored && f.path == g.path
  }

  /** A photo that the veto does not look at shows both. */
  ghost predicate HiddenTogether(s: State, a: int, b: int) {
    exists i, j ::
      i in s.faces && j in s.faces && InOnePhoto(s.faces[i], s.faces[j]) && !(s.faces[i].live && s.faces[j].live) &&
      s.faces[i].person == a && s.faces[j].person == b
  }

  /** Hidden photos are kept apart as well exactly when none of them shows both people. */
  lemma MergeKeepsOnceAnywhereExactly(s: State, source: int, target: int)
    requires OnceAnywhere(s) && !Vetoed(s, source, target)
    ensures OnceAnywhere(Merge(s, source, target)) <==> !HiddenTogether(s, source, target)
  {
    var t := Merge(s, source, target);
    if HiddenTogether(s, source, target) {
      var i, j :| i in s.faces && j in s.faces && InOnePhoto(s.faces[i], s.faces[j])
        && !(s.faces[i].live && s.faces[j].live) &&
        s.faces[i].person == source && s.faces[j].person == target;
      assert i != j && InOnePhoto(t.faces[i], t.faces[j]) && t.faces[i].person == t.faces[j].person;
    } else {
      forall i, j | i in t.faces && j in t.faces && i != j && InOnePhoto(t.faces[i], t.faces[j])
        ensures t.faces[i].person != t.faces[j].person
      {
        assert InOnePhoto(s.faces[i], s.faces[j]) && InOnePhoto(s.faces[j], s.faces[i]);
        assert SideBySide(s.faces[i], s.faces[j]) || !(s.faces[i].live && s.faces[j].live);
      }
    }
  }

  /** The guard on photo_faces refuses faces in a barred folder, and with them the whole statement. */
  predicate CanReturn(s: State, f: int)
    requires f in s.faces
  {
    (s.faces[f].person, s.faces[f].directory) !in s.barred
  }

  /** A hidden face can still be shown again exactly when its folder is not barred to the other person. */
  lemma MergeKeepsReturnExactly(s: State, source: int, target: int, f: int)
    requires f in s.faces && CanReturn(s, f) && source != target
    ensures CanReturn(Merge(s, source, target), f) <==>
      && (s.faces[f].person == source ==> (target, s.faces[f].directory) !in s.barred)
      && (s.faces[f].person == target ==> (source, s.faces[f].directory) !in s.barred)
  {
    var t := Merge(s, source, target);
    var d := s.faces[f].directory;
    forall p | (p, d) in s.barred ensures (Heir(source, target, p), d) in t.barred {
      assert (Heir(source, target, (p, d).0), (p, d).1) in t.barred;
    }
  }

  /** Faces 3 to 5 are hidden; 6 and 7 are live, each in a photo of its own. */
  const HIDDEN := State(
    {1, 2},
    map[3 := Face(1, "a/x", "a", false, false), 4 := Face(2, "a/x", "a", false, false),
      5 := Face(1, "b/y", "b", false, false),
        6 := Face(1, "c/z", "c", false, true), 7 := Face(2, "d/w", "d", false, true)],
    {}, {(2, "b")})

  lemma HiddenStrings()
    ensures "c/z" != "d/w" && "b" != "c" && "b" != "d" && "a" != "b"
  {
    assert "c/z"[0] != "d/w"[0] && "b"[0] != "c"[0] && "b"[0] != "d"[0] && "a"[0] != "b"[0];
  }

  lemma HiddenIsSound()
    ensures Sound(HIDDEN) && OnceAnywhere(HIDDEN) && FoldersRespected(HIDDEN)
    ensures forall f | f in HIDDEN.faces :: CanReturn(HIDDEN, f)
  {
    HiddenStrings();
  }

  lemma NotSeenTogether()
    ensures !SeenTogether(HIDDEN, 1, 2)
  {
    HiddenStrings();
    forall i, j | i in HIDDEN.faces && j in HIDDEN.faces && HIDDEN.faces[i].person == 1 && HIDDEN.faces[j].person == 2
      ensures !SideBySide(HIDDEN.faces[i], HIDDEN.faces[j])
    {
      assert HIDDEN.faces[i].live ==> i == 6;
      assert HIDDEN.faces[j].live ==> j == 7;
    }
  }

  lemma HiddenIsAllowed()
    ensures !Vetoed(HIDDEN, 1, 2)
  {
    HiddenStrings();
    NotSeenTogether();
    hide SeenTogether;
    forall f | Barred(HIDDEN, f, 1) ensures (2, HIDDEN.faces[f].directory) !in HIDDEN.barred {
      assert f == 6;
    }
  }

  /** A group is visited at its first active face, and a target needs a live reference. */
  ghost predicate HasActiveFace(s: State, p: int) {
    exists f :: f in s.faces && s.faces[f].live && !s.faces[f].ignored && s.faces[f].person == p
  }

  lemma OneMerge(s: State, source: int, target: int)
    requires source in s.people && target in s.people && !Vetoed(s, source, target)
    ensures Allowed(s, [(source, target)]) && Run(s, [(source, target)]) == Merge(s, source, target)
  {
    assert [(source, target)][1..] == [];
    var t := Merge(s, source, target);
    assert Run(s, [(source, target)]) == Run(t, []) && Allowed(t, []);
  }

  lemma HiddenFaces()
    ensures HiddenTogether(HIDDEN, 1, 2) && HasActiveFace(HIDDEN, 1) && HasActiveFace(HIDDEN, 2)
  {
    assert HIDDEN.faces[6].person == 1 && HIDDEN.faces[7].person == 2;
    assert InOnePhoto(HIDDEN.faces[3], HIDDEN.faces[4]);
  }

  /**
   * Two people with live faces share a hidden photo, and one of them has another photo in a folder barred to the other:
   * an allowed merge leaves a photo that shows one person twice and one that cannot be shown again.
   */
  lemma MergeOverHiddenPhoto()
    ensures Sound(HIDDEN) && OnceAnywhere(HIDDEN) && FoldersRespected(HIDDEN) && Allowed(HIDDEN, [(1, 2)])
    ensures HasActiveFace(HIDDEN, 1) && HasActiveFace(HIDDEN, 2)
    ensures !OnceAnywhere(Run(HIDDEN, [(1, 2)])) && 5 in Run(HIDDEN, [(1, 2)]).faces
      && !CanReturn(Run(HIDDEN, [(1, 2)]), 5)
  {
    HiddenIsSound();
    HiddenIsAllowed();
    OneMerge(HIDDEN, 1, 2);
    hide Vetoed;
    hide Sound;
    hide FoldersRespected;
    hide Run;
    hide Allowed;
    hide Merge;
    hide OnceAnywhere;
    hide HiddenTogether;
    HiddenFaces();
    MergeKeepsOnceAnywhereExactly(HIDDEN, 1, 2);
    MergeKeepsReturnExactly(HIDDEN, 1, 2, 5);
  }

  // ---- the transaction ----

  lemma RejectedAfter(all: set<(int, int)>, transferred: set<(int, int)>, source: int, target: int)
    requires source != target
    requires transferred
      == set pair | pair in all && (pair.0 == source || pair.1 == source) :: Inherited(pair, source, target)
    ensures (set pair | pair in all + transferred && pair.0 != source && pair.1 != source)
         == set pair | pair in all :: Inherited(pair, source, target)
  {
    var left := set pair | pair in all + transferred && pair.0 != source && pair.1 != source;
    var right := set pair | pair in all :: Inherited(pair, source, target);
    forall pair | pair in left ensures pair in right {
      if pair in all {
        assert pair == Inherited(pair, source, target);
      }
    }
    forall pair | pair in right ensures pair in left {
      var was :| was in all && pair == Inherited(was, source, target);
      assert was.0 != source && was.1 != source ==> pair == was;
    }
  }

  lemma BarredAfter(all: set<(int, string)>, inherited: set<(int, string)>, source: int, target: int)
    requires source != target
    requires inherited == set row | row in all && row.0 == source :: (target, row.1)
    ensures (set row | row in all + inherited && row.0 != source)
      == set row | row in all :: (Heir(source, target, row.0), row.1)
  {
    var left := set row | row in all + inherited && row.0 != source;
    var right := set row | row in all :: (Heir(source, target, row.0), row.1);
    forall row | row in left ensures row in right {
      if row in all {
        assert row == (Heir(source, target, row.0), row.1);
      }
    }
    forall row | row in right ensures row in left {
      var was :| was in all && row == (Heir(source, target, was.0), was.1);
      assert was.0 != source ==> row == was;
    }
  }

  /** The faces of a person in photo_faces, or in its retained twin. */
  function Moving(faces: map<int, Face>, source: int, live: bool): set<int> {
    set f | f in faces && faces[f].live == live && faces[f].person == source
  }

  function MoveFaces(faces: map<int, Face>, source: int, target: int, live: bool): map<int, Face> {
    map f | f in faces :: if f in Moving(faces, source, live) then faces[f].(person := target) else faces[f]
  }

  lemma FacesAfter(faces: map<int, Face>, source: int, target: int)
    requires source != target
    ensures MoveFaces(MoveFaces(faces, source, target, true), source, target, false)
         == map f | f in faces :: faces[f].(person := Heir(source, target, faces[f].person))
  {
    var once := MoveFaces(faces, source, target, true);
    forall f | f in faces
      ensures MoveFaces(once, source, target, false)[f] == faces[f].(person := Heir(source, target, faces[f].person))
    {
      assert f in Moving(faces, source, true) <==> faces[f].live && faces[f].person == source;
      assert f in Moving(once, source, false) <==> !faces[f].live && faces[f].person == source;
    }
  }

  class GroupTables {
    var db: State

    constructor (s: State)
      ensures db == s
    {
      db := s;
    }

    /**
     * mergeAutomaticFaceGroupTx, statement by statement. A conflict between the families of the two leaves everything
     * as it was; so does a conflict over folders. The heir of a rejected pair would be rejected against itself, which
     * the table refuses, and with it the whole transaction. The veto has ruled out the last two.
     */
    method MergeAutomaticFaceGroup(source: int, target: int, familyConflict: bool) returns (ok: bool, moved: nat)
      requires source in db.people && target in db.people && source != target
      modifies this
      ensures familyConflict || FolderConflict(old(db), source, target) ==> ok && db == old(db) && moved == 0
      ensures !familyConflict && !FolderConflict(old(db), source, target) ==>
        && ok == !RejectsItself(old(db), source, target)
        && (!ok ==> db == old(db) && moved == 0)
        && (ok ==> db == Merge(old(db), source, target) && moved == |Moving(old(db).faces, source, true)|)
    {
      hide Moving;
      hide MoveFaces;
      ok, moved := true, 0;
      var conflict := exists row | row in db.barred :: exists f | f in db.faces ::
        && db.faces[f].live && db.faces[f].directory == row.1
        && ((row.0 == source && db.faces[f].person == target) || (row.0 == target && db.faces[f].person == source));
      if familyConflict || conflict {
        return;
      }
      var before := db;
      var inherited := set row | row in db.barred && row.0 == source :: (target, row.1);
      db := db.(barred := db.barred + inherited);
      var transferred :=
        set pair | pair in db.rejected && (pair.0 == source || pair.1 == source) :: Inherited(pair, source, target);
      if exists pair | pair in transferred :: pair.0 == pair.1 {
        db := before;
        return false, 0;
      }
      db := db.(rejected := db.rejected + transferred);
      moved := |Moving(db.faces, source, true)|;
      db := db.(faces := MoveFaces(db.faces, source, target, true));
      db := db.(faces := MoveFaces(db.faces, source, target, false));
      db := db.(people := db.people - {source});
      db := db.(rejected := set pair | pair in db.rejected && pair.0 != source && pair.1 != source);
      db := db.(barred := set row | row in db.barred && row.0 != source);
      RejectedAfter(before.rejected, transferred, source, target);
      BarredAfter(before.barred, inherited, source, target);
      FacesAfter(before.faces, source, target);
    }

    /** The people that must not become the target, as one query collects them. */
    method ExcludedPeople(source: int) returns (excluded: set<int>)
      ensures forall p :: p in excluded <==> Vetoed(db, source, p)
    {
      hide Vetoed;
      excluded :=
        {source} + InCommonPhotos(db, source) + BarredFromItsFolders(db, source) + InItsBarredFolders(db, source) +
        RejectedWith(db, source);
      forall p ensures p in excluded <==> Vetoed(db, source, p) {
        UnionIsVetoed(db, source, p);
      }
    }
  }

  function LiveFaces(s: State): set<int> {
    set f | f in s.faces && s.faces[f].live
  }

  function OwnFaces(s: State, p: int): set<int> {
    set f | f in s.faces && s.faces[f].live && s.faces[f].person == p
  }

  // The parts of the query, in its order.

  function InCommonPhotos(s: State, source: int): set<int> {
    set i, j | i in OwnFaces(s, source) && j in LiveFaces(s) && SideBySide(s.faces[i], s.faces[j]) :: s.faces[j].person
  }

  function BarredFromItsFolders(s: State, source: int): set<int> {
    set row, f | row in s.barred && f in OwnFaces(s, source) && s.faces[f].directory == row.1 :: row.0
  }

  function InItsBarredFolders(s: State, source: int): set<int> {
    set row, f | row in s.barred && row.0 == source && f in LiveFaces(s) && s.faces[f].directory == row.1 ::
      s.faces[f].person
  }

  function RejectedWith(s: State, source: int): set<int> {
    (set pair | pair in s.rejected && pair.0 == source :: pair.1)
      + (set pair | pair in s.rejected && pair.1 == source :: pair.0)
  }

  lemma CommonPhotosAreVetoed(s: State, source: int, p: int)
    ensures p in InCommonPhotos(s, source) <==> SeenTogether(s, source, p)
  {}

  lemma ItsFoldersAreVetoed(s: State, source: int, p: int)
    ensures p in BarredFromItsFolders(s, source) <==>
      exists f :: Barred(s, f, source) && (p, s.faces[f].directory) in s.barred
  {
    if f :| Barred(s, f, source) && (p, s.faces[f].directory) in s.barred {
      assert f in OwnFaces(s, source) && (p, s.faces[f].directory).1 == s.faces[f].directory;
    }
    if p in BarredFromItsFolders(s, source) {
      var row, f :| row in s.barred && f in OwnFaces(s, source) && s.faces[f].directory == row.1 && row.0 == p;
      assert Barred(s, f, source) && row == (p, s.faces[f].directory);
    }
  }

  lemma BarredFoldersAreVetoed(s: State, source: int, p: int)
    ensures p in InItsBarredFolders(s, source) <==>
      exists f :: Barred(s, f, p) && (source, s.faces[f].directory) in s.barred
  {
    if f :| Barred(s, f, p) && (source, s.faces[f].directory) in s.barred {
      assert f in LiveFaces(s) && (source, s.faces[f].directory).1 == s.faces[f].directory;
    }
    if p in InItsBarredFolders(s, source) {
      var row, f :| row in s.barred && row.0 == source && f in LiveFaces(s) && s.faces[f].directory == row.1 &&
        s.faces[f].person == p;
      assert Barred(s, f, p) && row == (source, s.faces[f].directory);
    }
  }

  lemma RejectedAreVetoed(s: State, source: int, p: int)
    ensures p in RejectedWith(s, source) <==> Rejected(s, source, p)
  {
    if (source, p) in s.rejected {
      assert (source, p).1 in RejectedWith(s, source);
    }
    if (p, source) in s.rejected {
      assert (p, source).0 in RejectedWith(s, source);
    }
  }

  lemma UnionIsVetoed(s: State, source: int, p: int)
    ensures Vetoed(s, source, p) <==>
      p in {source} + InCommonPhotos(s, source) + BarredFromItsFolders(s, source) + InItsBarredFolders(s, source) +
        RejectedWith(s, source)
  {
    CommonPhotosAreVetoed(s, source, p);
    ItsFoldersAreVetoed(s, source, p);
    BarredFoldersAreVetoed(s, source, p);
    RejectedAreVetoed(s, source, p);
    hide InCommonPhotos;
    hide BarredFromItsFolders;
    hide InItsBarredFolders;
    hide RejectedWith;
    hide Rejected;
  }

  /** The CHECK of the table would refuse what the merge writes. */
  predicate RejectsItself(s: State, source: int, target: int) {
    exists pair | pair in s.rejected && (pair.0 == source || pair.1 == source) ::
      Inherited(pair, source, target).0 == Inherited(pair, source, target).1
  }

  /** Whoever is not vetoed meets no conflict over folders, and no rejection. */
  lemma VetoCoversConflicts(s: State, source: int, target: int)
    requires Sound(s) && !Vetoed(s, source, target)
    ensures !FolderConflict(s, source, target) && !RejectsItself(s, source, target) && source != target
  {
    forall pair | pair in s.rejected ensures Inherited(pair, source, target).0 != Inherited(pair, source, target).1 {
      assert Rejected(s, pair.0, pair.1);
      MergeKeepsRejection(s, source, target, pair.0, pair.1);
    }
    forall row, f | row in s.barred && f in s.faces && s.faces[f].live && s.faces[f].directory == row.1
      ensures !(row.0 == source && s.faces[f].person == target) && !(row.0 == target && s.faces[f].person == source)
    {
      assert row == (row.0, s.faces[f].directory);
      assert Barred(s, f, s.faces[f].person);
    }
  }

  predicate FolderConflict(s: State, source: int, target: int) {
    exists row | row in s.barred :: exists f | f in s.faces ::
      && s.faces[f].live && s.faces[f].directory == row.1
      && ((row.0 == source && s.faces[f].person == target) || (row.0 == target && s.faces[f].person == source))
  }
}
