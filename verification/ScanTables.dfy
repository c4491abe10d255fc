/**
 * The inventory of original files, as the background scan keeps it while the library changes: one row per file and
 * folder, and per folder the listing that was last read completely.
 */
module ScanTables {
  type Path = seq<int>
  type Stat = int

  /** What the file at `path` held while its metadata was `stat`. */
  datatype Content = Content(path: Path, stat: Stat)

  datatype Row = Folder | File(stat: Stat, content: Content)

  /** The files of one folder with their metadata. */
  type Listing = map<Path, Stat>

  /** The stored signature of a folder, empty or standing for one listing. */
  datatype Signature = Unknown | Known(listing: Listing)

  datatype Tree = Tree(files: map<Path, Stat>, folders: set<Path>)

  function Parent(p: Path): Path {
    if p == [] then [] else p[..|p| - 1]
  }

  ghost predicate WellFormed(t: Tree) {
    && [] in t.folders
    && (forall d | d in t.folders :: Parent(d) in t.folders)
    && (forall p | p in t.files :: p !in t.folders && Parent(p) in t.folders)
  }

  /** What the folder's listing says of a path; paths outside the folder all have the same value. */
  function ListedStat(t: Tree, d: Path, p: Path): Stat {
    if p in t.files && Parent(p) == d then t.files[p] else 0
  }

  function ListingOf(t: Tree, d: Path): Listing {
    map p | p in t.files && Parent(p) == d :: ListedStat(t, d, p)
  }

  predicate Current(t: Tree, d: Path, l: Listing) {
    d in t.folders && ListingOf(t, d) == l
  }

  function FileRow(p: Path, stat: Stat): Row {
    File(stat, Content(p, stat))
  }

  predicate HasFile(rows: map<Path, Row>, p: Path) {
    p in rows && rows[p].File?
  }

  /** The folder that is being read, and the listing that was found when it was opened. */
  datatype Job = Idle | Scanning(folder: Path, listing: Listing)

  /** `left`: the listings that a folder once had and has no more. `folders`: every path that ever was a folder. */
  datatype State = State(tree: Tree, left: set<(Path, Listing)>, folders: set<Path>, rows: map<Path, Row>,
                         dirs: map<Path, Signature>, job: Job)

  datatype Event =
    | Change(tree: Tree)
    | Open(folder: Path)
    | Persist(paths: set<Path>)
    | Finish
    | AddFolder(folder: Path)
    | Cancel
    | RemoveStale(folder: Path)

  predicate Enabled(s: State, e: Event) {
    match e
    case Change(_) => true
    case Open(d) => s.job.Idle? && d in s.tree.folders
    case Persist(paths) => s.job.Scanning? && paths <= s.job.listing.Keys
    case Finish => s.job.Scanning?
      && forall p | p in s.job.listing :: HasFile(s.rows, p) && s.rows[p].stat == s.job.listing[p]
    case AddFolder(d) => s.job.Idle? && d in s.dirs && d != []
    case Cancel => true
    case RemoveStale(d) => s.job.Idle? && d in s.dirs
  }

  function Opened(s: State, d: Path): State {
    var l := ListingOf(s.tree, d);
    if d in s.dirs && s.dirs[d] == Known(l) then s
    else s.(dirs := if d in s.dirs then s.dirs else s.dirs[d := Unknown], job := Scanning(d, l))
  }

  function Persisted(rows: map<Path, Row>, l: Listing, paths: set<Path>): map<Path, Row> {
    rows + map p | p in paths && p in l :: FileRow(p, l[p])
  }

  function Gone(rows: map<Path, Row>, d: Path, l: Listing): set<Path> {
    set p | p in rows && rows[p].File? && Parent(p) == d && p !in l
  }

  /** The rows of a folder that is no more: its own row and those of what was in it. */
  function Inside(rows: map<Path, Row>, d: Path): set<Path> {
    set p | p in rows && (p == d || Parent(p) == d)
  }

  function Changed(s: State, t: Tree): set<(Path, Listing)> {
    set d | d in s.tree.folders && !Current(t, d, ListingOf(s.tree, d)) :: (d, ListingOf(s.tree, d))
  }

  function Step(s: State, e: Event): State {
    if !Enabled(s, e) then s else
    match e
    case Change(t) => s.(tree := t, left := s.left + Changed(s, t), folders := s.folders + t.folders)
    case Open(d) => Opened(s, d)
    case Persist(paths) => s.(rows := Persisted(s.rows, s.job.listing, paths))
    case Finish =>
      s.(rows := s.rows - Gone(s.rows, s.job.folder, s.job.listing),
        dirs := s.dirs[s.job.folder := Known(s.job.listing)], job := Idle)
    case AddFolder(d) => if d in s.rows then s else s.(rows := s.rows[d := Folder])
    case Cancel => s.(job := Idle)
    case RemoveStale(d) => s.(rows := s.rows - Inside(s.rows, d), dirs := s.dirs - {d})
  }

  function Run(s: State, events: seq<Event>): State
    decreases |events|
  {
    if events == [] then s else Run(Step(s, events[0]), events[1..])
  }

  /** What a scan of an empty inventory would store. */
  function Scratch(t: Tree): map<Path, Row> {
    (map d | d in t.folders && d != [] :: Folder) + map p | p in t.files :: FileRow(p, t.files[p])
  }

  /** A row for each file, with its metadata and content, and for each folder below the library; no others. */
  ghost predicate StoresAll(rows: map<Path, Row>, t: Tree) {
    && (forall p :: p in rows <==> p in t.files || (p in t.folders && p != []))
    && (forall p | p in t.files :: rows[p] == File(t.files[p], Content(p, t.files[p])))
    && (forall d | d in rows && d !in t.files :: rows[d] == Folder)
  }

  lemma ScratchStoresAll(t: Tree)
    ensures StoresAll(Scratch(t), t)
  {}
}
