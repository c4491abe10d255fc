/** The visibility of directories, remembered for the length of one operation. */
module DirectoryVisibility {
  import opened PathText

  datatype Check = Check(hidden: bool, failed: bool)

  /** What looking at one directory alone gives; a directory that cannot be looked at is absent.
      `clean` are the paths in canonical form. */
  datatype Disk = Disk(own: map<string, Check>, clean: set<string>)

  const ERROR := Check(false, true)

  predicate Stops(c: Check) {
    c.hidden || c.failed
  }

  function Own(disk: Disk, dir: string): Check {
    if dir in disk.own then disk.own[dir] else ERROR
  }

  /** Without memory: the ancestors decide first. */
  function Plain(disk: Disk, dir: string): Check
    decreases |dir|
  {
    if dir !in disk.clean then ERROR
    else if dir != "" && Stops(Plain(disk, Parent(dir))) then Plain(disk, Parent(dir))
    else Own(disk, dir)
  }

  /** `dir` itself or a directory above it. */
  predicate Above(a: string, dir: string)
    decreases |dir|
  {
    a == dir || (dir != "" && Above(a, Parent(dir)))
  }

  predicate StopsAt(disk: Disk, a: string) {
    a !in disk.clean || Stops(Own(disk, a))
  }

  /** A directory is withheld exactly when it or a directory above it is hidden or unreadable. */
  lemma {:induction false} WithheldByAncestor(disk: Disk, dir: string)
    ensures Stops(Plain(disk, dir)) <==> exists a :: Above(a, dir) && StopsAt(disk, a)
    decreases |dir|
  {
    if dir != "" {
      WithheldByAncestor(disk, Parent(dir));
      if a :| Above(a, Parent(dir)) && StopsAt(disk, a) {
        assert Above(a, dir);
      }
    }
    if a :| Above(a, dir) && StopsAt(disk, a) {
      assert a == dir || Above(a, Parent(dir));
    }
    assert Above(dir, dir);
  }

  /** Nothing is reported as hidden that is not hidden somewhere above. */
  lemma {:induction false} HiddenByAncestor(disk: Disk, dir: string)
    ensures Plain(disk, dir).hidden ==> exists a :: Above(a, dir) && a in disk.own && disk.own[a].hidden
    decreases |dir|
  {
    if dir != "" {
      HiddenByAncestor(disk, Parent(dir));
      if a :| Above(a, Parent(dir)) && a in disk.own && disk.own[a].hidden {
        assert Above(a, dir);
      }
    }
    assert Above(dir, dir);
  }

  class Visibility {
    const disk: Disk
    var checked: map<string, Check>
    var probed: seq<string>       // the directories looked at, in order

    ghost predicate Valid()
      reads this
    {
      && (forall d | d in checked :: checked[d] == Plain(disk, d))
      && (forall d | d in probed :: d in checked)
      && (forall i, j | 0 <= i < j < |probed| :: probed[i] != probed[j])
    }

    constructor (d: Disk)
      ensures Valid() && disk == d && checked == map[] && probed == []
    {
      disk, checked, probed := d, map[], [];
    }

    /** The remembered check gives the plain result; no directory is looked at twice. */
    method CheckDir(dir: string) returns (c: Check)
      requires Valid()
      modifies this
      ensures Valid() && c == Plain(disk, dir) && dir in checked
      ensures c.hidden || c.failed <==>
        exists a :: Above(a, dir) && (a !in disk.clean || a !in disk.own || disk.own[a].hidden || disk.own[a].failed)
      ensures c.hidden ==> exists a :: Above(a, dir) && a in disk.own && disk.own[a].hidden
      ensures forall d | d in old(checked) :: d in checked
      ensures forall d | d in checked && d !in old(checked) :: |d| <= |dir|
      decreases |dir|
    {
      WithheldByAncestor(disk, dir);
      HiddenByAncestor(disk, dir);
      assert forall a :: StopsAt(disk, a) <==>
        a !in disk.clean || a !in disk.own || disk.own[a].hidden || disk.own[a].failed;
      if dir in checked {
        return checked[dir];
      }
      if dir !in disk.clean {
        checked := checked[dir := ERROR];
        return ERROR;
      }
      if dir != "" {
        var above := CheckDir(Parent(dir));
        if Stops(above) {
          checked := checked[dir := above];
          return above;
        }
      }
      c := Own(disk, dir);
      assert dir !in probed;
      probed := probed + [dir];
      checked := checked[dir := c];
    }
  }
}
